/** The fixed list of reporting buckets: the 50 state codes and DC, as both
    the results aggregator and the seeding script spell them out. */
module States {

  /** The codes in alphabetical order, written in rows of nine. */
  const StateArray: seq<string> := CodesAKtoDE + CodesFLtoKY + CodesLAtoMT + CodesNCtoOH + CodesOKtoUT + CodesVAtoWY

  const CodesAKtoDE: seq<string> := ["AK", "AL", "AR", "AZ", "CA", "CO", "CT", "DC", "DE"]
  const CodesFLtoKY: seq<string> := ["FL", "GA", "HI", "IA", "ID", "IL", "IN", "KS", "KY"]
  const CodesLAtoMT: seq<string> := ["LA", "MA", "MD", "ME", "MI", "MN", "MO", "MS", "MT"]
  const CodesNCtoOH: seq<string> := ["NC", "ND", "NE", "NH", "NJ", "NM", "NV", "NY", "OH"]
  const CodesOKtoUT: seq<string> := ["OK", "OR", "PA", "RI", "SC", "SD", "TN", "TX", "UT"]
  const CodesVAtoWY: seq<string> := ["VA", "VT", "WA", "WI", "WV", "WY"]

  /** Strict lexicographic order on two-letter codes. */
  predicate CodeBefore(a: string, b: string)
  {
    |a| == 2 && |b| == 2 && (a[0] < b[0] || (a[0] == b[0] && a[1] < b[1]))
  }

  predicate Distinct<T(==)>(s: seq<T>)
  {
    forall i, j :: 0 <= i < j < |s| ==> s[i] != s[j]
  }

  lemma StateArrayLength()
    ensures |StateArray| == 51
  {
  }

  /** Each code is two letters and precedes the next one. */
  predicate Ascending(s: seq<string>)
  {
    (forall i :: 0 <= i < |s| ==> |s[i]| == 2) &&
    (forall i :: 0 <= i < |s| - 1 ==> CodeBefore(s[i], s[i + 1]))
  }

  lemma AscendingAppend(a: seq<string>, b: seq<string>)
    requires Ascending(a) && Ascending(b)
    requires a != [] && b != [] && CodeBefore(a[|a| - 1], b[0])
    ensures Ascending(a + b)
  {
    var s := a + b;
    forall i | 0 <= i < |s| - 1
      ensures CodeBefore(s[i], s[i + 1])
    {
      if i + 1 < |a| {
        assert s[i] == a[i] && s[i + 1] == a[i + 1];
      } else if i + 1 == |a| {
      } else {
        assert s[i] == b[i - |a|] && s[i + 1] == b[i - |a| + 1];
      }
    }
  }

  /** Each row is in order: checked row by row, which keeps each proof small. */
  lemma CodesAKtoDEAscending() ensures Ascending(CodesAKtoDE) { }

  lemma CodesFLtoKYAscending() ensures Ascending(CodesFLtoKY) { }

  lemma CodesLAtoMTAscending() ensures Ascending(CodesLAtoMT) { }

  lemma CodesNCtoOHAscending() ensures Ascending(CodesNCtoOH) { }

  lemma CodesOKtoUTAscending() ensures Ascending(CodesOKtoUT) { }

  lemma CodesVAtoWYAscending() ensures Ascending(CodesVAtoWY) { }

  lemma StateArrayAscending()
    ensures Ascending(StateArray)
  {
    CodesAKtoDEAscending();
    CodesFLtoKYAscending();
    CodesLAtoMTAscending();
    CodesNCtoOHAscending();
    CodesOKtoUTAscending();
    CodesVAtoWYAscending();
    AscendingAppend(CodesAKtoDE, CodesFLtoKY);
    AscendingAppend(CodesAKtoDE + CodesFLtoKY, CodesLAtoMT);
    AscendingAppend(CodesAKtoDE + CodesFLtoKY + CodesLAtoMT, CodesNCtoOH);
    AscendingAppend(CodesAKtoDE + CodesFLtoKY + CodesLAtoMT + CodesNCtoOH, CodesOKtoUT);
    AscendingAppend(CodesAKtoDE + CodesFLtoKY + CodesLAtoMT + CodesNCtoOH + CodesOKtoUT, CodesVAtoWY);
  }

  lemma {:induction false} CodeBeforeChain(s: seq<string>, i: nat, j: nat)
    requires forall k :: 0 <= k < |s| - 1 ==> CodeBefore(s[k], s[k + 1])
    requires i < j < |s|
    ensures CodeBefore(s[i], s[j])
    decreases j - i
  {
    if j > i + 1 {
      CodeBeforeChain(s, i + 1, j);
    }
  }

  /** The codes are in strictly ascending alphabetical order, hence distinct. */
  lemma StateArraySorted()
    ensures forall i, j :: 0 <= i < j < |StateArray| ==> CodeBefore(StateArray[i], StateArray[j])
    ensures Distinct(StateArray)
  {
    StateArrayAscending();
    forall i, j | 0 <= i < j < |StateArray|
      ensures CodeBefore(StateArray[i], StateArray[j])
    {
      CodeBeforeChain(StateArray, i, j);
    }
  }
}
