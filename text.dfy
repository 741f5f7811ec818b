/** String helpers that stand for Ruby's String#split, Array#join and
    String#scan with a fixed-width pattern. */
module Text {

  /** Every field of `s` between occurrences of `sep`, empty fields included:
      n separators give n + 1 fields. */
  function SplitAll(s: string, sep: char): (fields: seq<string>)
    ensures |fields| >= 1
    decreases |s|
  {
    if s == [] then [""]
    else
      var rest := SplitAll(s[1..], sep);
      if s[0] == sep then [""] + rest
      else [[s[0]] + rest[0]] + rest[1..]
  }

  /** The fields joined with `sep` between consecutive ones. */
  function Join(parts: seq<string>, sep: string): string
  {
    if parts == [] then ""
    else if |parts| == 1 then parts[0]
    else parts[0] + sep + Join(parts[1..], sep)
  }

  /** Ruby drops trailing empty fields from the result of `split`. */
  function DropTrailingEmpty(fields: seq<string>): (r: seq<string>)
    ensures |r| <= |fields| && r == fields[..|r|]
    ensures r != [] ==> r[|r| - 1] != ""
    ensures forall i :: |r| <= i < |fields| ==> fields[i] == ""
  {
    if fields == [] then []
    else if fields[|fields| - 1] == "" then DropTrailingEmpty(fields[..|fields| - 1])
    else fields
  }

  /** Ruby's `s.split(sep)` for a one-character separator. */
  function RubySplit(s: string, sep: char): seq<string>
  {
    DropTrailingEmpty(SplitAll(s, sep))
  }

  lemma {:induction false} SplitAllJoin(s: string, sep: char)
    ensures Join(SplitAll(s, sep), [sep]) == s
    ensures forall i :: 0 <= i < |SplitAll(s, sep)| ==> sep !in SplitAll(s, sep)[i]
    decreases |s|
  {
    if s != [] {
      SplitAllJoin(s[1..], sep);
      var rest := SplitAll(s[1..], sep);
      if s[0] == sep {
        assert SplitAll(s, sep) == [""] + rest;
        assert ([""] + rest)[1..] == rest;
      } else {
        var f := SplitAll(s, sep);
        assert f == [[s[0]] + rest[0]] + rest[1..];
        if |rest| == 1 {
          assert Join(f, [sep]) == [s[0]] + rest[0];
        } else {
          assert f[1..] == rest[1..];
          assert Join(rest, [sep]) == rest[0] + [sep] + Join(rest[1..], [sep]);
        }
        forall i | 0 <= i < |f| ensures sep !in f[i] {
          if i > 0 { assert f[i] == rest[i]; }
        }
      }
    }
  }

  /** Ruby's `s.scan(/.{5}/)` on text without newlines: the consecutive full
      five-character chunks, a shorter remainder dropped. */
  function Chunks5(s: string): (r: seq<string>)
    ensures |r| == |s| / 5
    ensures forall i :: 0 <= i < |r| ==> |r[i]| == 5
    decreases |s|
  {
    if |s| < 5 then [] else [s[..5]] + Chunks5(s[5..])
  }

  lemma {:induction false} Chunks5At(s: string, i: nat)
    requires i < |s| / 5
    ensures 5 * i + 5 <= |s| && Chunks5(s)[i] == s[5 * i .. 5 * i + 5]
    decreases i
  {
    if i > 0 {
      Chunks5At(s[5..], i - 1);
    }
  }

  /** A first field without the separator splits off on its own. */
  lemma {:induction false} SplitAllField(a: string, b: string, sep: char)
    requires sep !in a
    ensures SplitAll(a + [sep] + b, sep) == [a] + SplitAll(b, sep)
    decreases |a|
  {
    var s := a + [sep] + b;
    if a == [] {
      assert s == [sep] + b;
      assert s[1..] == b;
    } else {
      assert s[1..] == a[1..] + [sep] + b;
      assert sep !in a[1..] by {
        forall j | 0 <= j < |a[1..]| ensures a[1..][j] != sep {
          assert a[1..][j] == a[j + 1];
        }
      }
      SplitAllField(a[1..], b, sep);
      assert [a[0]] + a[1..] == a;
    }
  }
}
