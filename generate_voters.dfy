/** The registered-voter generator: for each voter of the sample it draws a
    state weighted by the state's 2016 vote total, draws a 16-character
    base58 string and formats it as the voter id, and appends a voter record
    whose address embeds the state. Faker values, random bytes and random
    targets are parameters. */
module GenerateVoters {
  import opened Common
  import opened Text
  import opened States
  import opened Stores
  import opened Weighted

  /** Votes cast in the 2016 presidential election. */
  const TotalVotes2016: nat := 136_669_237

  /** One percent of them, truncated. */
  const SampleTotalVotes: nat := TotalVotes2016 / 100

  /** Votes per state, in the order of the script's hash literal, in rows of nine. */
  const StatesVotesTotals: Weights<string> :=
    VotesALtoDC + VotesFLtoKY + VotesLAtoMT + VotesNEtoOH + VotesOKtoUT + VotesVTtoWY

  const VotesALtoDC: Weights<string> := [("AL", 2_123_372), ("AK", 318_608), ("AZ", 2_573_165), ("AR", 1_130_635), ("CA", 14_181_595), ("CO", 2_780_247), ("CT", 1_644_920), ("DE", 443_814), ("DC", 311_268)]
  const VotesFLtoKY: Weights<string> := [("FL", 9_420_039), ("GA", 4_114_732), ("HI", 428_937), ("ID", 690_255), ("IL", 5_536_424), ("IN", 2_734_958), ("IA", 1_566_031), ("KS", 1_184_402), ("KY", 1_924_149)]
  const VotesLAtoMT: Weights<string> := [("LA", 2_029_032), ("ME", 747_927), ("MD", 2_781_446), ("MA", 3_325_046), ("MI", 4_799_284), ("MN", 2_944_813), ("MS", 1_209_357), ("MO", 2_808_605), ("MT", 497_147)]
  const VotesNEtoOH: Weights<string> := [("NE", 844_227), ("NV", 1_125_385), ("NH", 744_296), ("NJ", 3_874_046), ("NM", 798_319), ("NY", 7_721_453), ("NC", 4_741_564), ("ND", 344_360), ("OH", 5_496_487)]
  const VotesOKtoUT: Weights<string> := [("OK", 1_452_992), ("OR", 2_001_336), ("PA", 6_165_478), ("RI", 464_144), ("SC", 2_103_027), ("SD", 370_093), ("TN", 2_508_027), ("TX", 8_969_226), ("UT", 1_131_430)]
  const VotesVTtoWY: Weights<string> := [("VT", 315_067), ("VA", 3_984_631), ("WA", 3_317_019), ("WV", 714_423), ("WI", 2_976_150), ("WY", 255_849)]

  predicate AllPositive(w: Weights<string>)
  {
    forall i :: 0 <= i < |w| ==> w[i].1 > 0
  }

  lemma VotesALtoDCTotal() ensures SumFromFront(VotesALtoDC) == 25_507_624 { }
  lemma VotesALtoDCPositive() ensures AllPositive(VotesALtoDC) { }
  lemma VotesFLtoKYTotal() ensures SumFromFront(VotesFLtoKY) == 27_599_927 { }
  lemma VotesFLtoKYPositive() ensures AllPositive(VotesFLtoKY) { }
  lemma VotesLAtoMTTotal() ensures SumFromFront(VotesLAtoMT) == 21_142_657 { }
  lemma VotesLAtoMTPositive() ensures AllPositive(VotesLAtoMT) { }
  lemma VotesNEtoOHTotal() ensures SumFromFront(VotesNEtoOH) == 25_690_137 { }
  lemma VotesNEtoOHPositive() ensures AllPositive(VotesNEtoOH) { }
  lemma VotesOKtoUTTotal() ensures SumFromFront(VotesOKtoUT) == 25_165_753 { }
  lemma VotesOKtoUTPositive() ensures AllPositive(VotesOKtoUT) { }
  lemma VotesVTtoWYTotal() ensures SumFromFront(VotesVTtoWY) == 11_563_139 { }
  lemma VotesVTtoWYPositive() ensures AllPositive(VotesVTtoWY) { }

  lemma StatesVotesTotalsLength()
    ensures |StatesVotesTotals| == 51
  {
  }

  /** Each weight is positive and the weights add up to the national total,
      of which the sample is one percent. */
  lemma StatesVotesTotalsShape()
    ensures AllPositive(StatesVotesTotals)
    ensures Sum(StatesVotesTotals) == TotalVotes2016
    ensures SampleTotalVotes == 1_366_692
  {
    VotesALtoDCTotal();
    VotesALtoDCPositive();
    VotesFLtoKYTotal();
    VotesFLtoKYPositive();
    VotesLAtoMTTotal();
    VotesLAtoMTPositive();
    VotesNEtoOHTotal();
    VotesNEtoOHPositive();
    VotesOKtoUTTotal();
    VotesOKtoUTPositive();
    VotesVTtoWYTotal();
    VotesVTtoWYPositive();
    SixRows(VotesALtoDC, VotesFLtoKY, VotesLAtoMT, VotesNEtoOH, VotesOKtoUT, VotesVTtoWY);
  }

  /** Totals and positivity of a table written as six rows. */
  lemma SixRows(r1: Weights<string>, r2: Weights<string>, r3: Weights<string>,
                r4: Weights<string>, r5: Weights<string>, r6: Weights<string>)
    requires AllPositive(r1) && AllPositive(r2) && AllPositive(r3)
    requires AllPositive(r4) && AllPositive(r5) && AllPositive(r6)
    ensures AllPositive(r1 + r2 + r3 + r4 + r5 + r6)
    ensures Sum(r1 + r2 + r3 + r4 + r5 + r6) ==
      SumFromFront(r1) + SumFromFront(r2) + SumFromFront(r3) +
      SumFromFront(r4) + SumFromFront(r5) + SumFromFront(r6)
  {
    SumFromFrontAgrees(r1);
    SumFromFrontAgrees(r2);
    SumFromFrontAgrees(r3);
    SumFromFrontAgrees(r4);
    SumFromFrontAgrees(r5);
    SumFromFrontAgrees(r6);
    SumAppend(r1, r2);
    SumAppend(r1 + r2, r3);
    SumAppend(r1 + r2 + r3, r4);
    SumAppend(r1 + r2 + r3 + r4, r5);
    SumAppend(r1 + r2 + r3 + r4 + r5, r6);
    PositiveAppend(r1, r2);
    PositiveAppend(r1 + r2, r3);
    PositiveAppend(r1 + r2 + r3, r4);
    PositiveAppend(r1 + r2 + r3 + r4, r5);
    PositiveAppend(r1 + r2 + r3 + r4 + r5, r6);
  }

  lemma PositiveAppend(a: Weights<string>, b: Weights<string>)
    requires AllPositive(a) && AllPositive(b)
    ensures AllPositive(a + b)
  {
    forall i | 0 <= i < |a + b|
      ensures (a + b)[i].1 > 0
    {
      if i >= |a| {
        assert (a + b)[i] == b[i - |a|];
      }
    }
  }

  lemma VotesALtoDCKeys()
    ensures forall c :: c in KeysOf(VotesALtoDC) <==> c in CodesAKtoDE
  {
    assert KeysOf(VotesALtoDC) == ["AL", "AK", "AZ", "AR", "CA", "CO", "CT", "DE", "DC"];
  }

  lemma VotesFLtoKYKeys()
    ensures forall c :: c in KeysOf(VotesFLtoKY) <==> c in CodesFLtoKY
  {
    assert KeysOf(VotesFLtoKY) == ["FL", "GA", "HI", "ID", "IL", "IN", "IA", "KS", "KY"];
  }

  lemma VotesLAtoMTKeys()
    ensures forall c :: c in KeysOf(VotesLAtoMT) <==> c in CodesLAtoMT
  {
    assert KeysOf(VotesLAtoMT) == ["LA", "ME", "MD", "MA", "MI", "MN", "MS", "MO", "MT"];
  }

  lemma VotesNEtoOHKeys()
    ensures forall c :: c in KeysOf(VotesNEtoOH) <==> c in CodesNCtoOH
  {
    assert KeysOf(VotesNEtoOH) == ["NE", "NV", "NH", "NJ", "NM", "NY", "NC", "ND", "OH"];
  }

  lemma VotesOKtoUTKeys()
    ensures forall c :: c in KeysOf(VotesOKtoUT) <==> c in CodesOKtoUT
  {
    assert KeysOf(VotesOKtoUT) == ["OK", "OR", "PA", "RI", "SC", "SD", "TN", "TX", "UT"];
  }

  lemma VotesVTtoWYKeys()
    ensures forall c :: c in KeysOf(VotesVTtoWY) <==> c in CodesVAtoWY
  {
    assert KeysOf(VotesVTtoWY) == ["VT", "VA", "WA", "WV", "WI", "WY"];
  }

  /** The generator's table covers the same 51 codes as the aggregator's
      list (in a different order), so every generated state is seeded and
      reported. */
  lemma StatesVotesTotalsKeys()
    ensures forall c :: c in KeysOf(StatesVotesTotals) <==> c in StateArray
  {
    VotesALtoDCKeys();
    VotesFLtoKYKeys();
    VotesLAtoMTKeys();
    VotesNEtoOHKeys();
    VotesOKtoUTKeys();
    VotesVTtoWYKeys();
    var a := VotesALtoDC + VotesFLtoKY;
    var b := a + VotesLAtoMT;
    var c := b + VotesNEtoOH;
    var d := c + VotesOKtoUT;
    KeysOfAppend(VotesALtoDC, VotesFLtoKY);
    KeysOfAppend(a, VotesLAtoMT);
    KeysOfAppend(b, VotesNEtoOH);
    KeysOfAppend(c, VotesOKtoUT);
    KeysOfAppend(d, VotesVTtoWY);
    assert StatesVotesTotals == d + VotesVTtoWY;
    assert StateArray == CodesAKtoDE + CodesFLtoKY + CodesLAtoMT + CodesNCtoOH + CodesOKtoUT + CodesVAtoWY;
  }

  /** `select_state`, for a target drawn by `rand(sum)`. */
  method SelectState(target: int) returns (state: Option<string>)
    ensures state.Some? <==> target <= TotalVotes2016
    ensures state.Some? ==>
      exists i: nat :: Reaches(StatesVotesTotals, target, i) && state.value == StatesVotesTotals[i].0
  {
    StatesVotesTotalsShape();
    state := SelectWeighted(StatesVotesTotals, target);
  }

  // ----- Base58 -----

  /** The characters from `lo` to `hi`, as Ruby's `(lo..hi).to_a`. */
  function CharRange(lo: char, hi: char): (r: string)
    requires lo <= hi < 128 as char
    ensures |r| == hi as int - lo as int + 1
    ensures forall i :: 0 <= i < |r| ==> r[i] as int == lo as int + i
  {
    seq(hi as int - lo as int + 1, i requires 0 <= i <= hi as int - lo as int => (lo as int + i) as char)
  }

  /** Digits, upper- and lower-case letters without "0", "O", "I" and "l",
      written as the ranges that remain. */
  const Base58Alphabet: string :=
    CharRange('1', '9') + CharRange('A', 'H') + CharRange('J', 'N') + CharRange('P', 'Z') +
    CharRange('a', 'k') + CharRange('m', 'z')

  predicate AsciiAlphanumeric(c: char)
  {
    ('0' <= c <= '9') || ('A' <= c <= 'Z') || ('a' <= c <= 'z')
  }

  predicate StrictlyIncreasing(s: string)
  {
    forall i, j :: 0 <= i < j < |s| ==> s[i] < s[j]
  }

  lemma CharRangeFacts(lo: char, hi: char)
    requires lo <= hi < 128 as char
    ensures forall c :: c in CharRange(lo, hi) <==> lo <= c <= hi
    ensures StrictlyIncreasing(CharRange(lo, hi))
  {
    var r := CharRange(lo, hi);
    forall c | lo <= c <= hi
      ensures c in r
    {
      assert r[c as int - lo as int] == c;
    }
  }

  lemma IncreasingAppend(a: string, b: string)
    requires StrictlyIncreasing(a) && StrictlyIncreasing(b)
    requires forall x, y :: x in a && y in b ==> x < y
    ensures StrictlyIncreasing(a + b)
  {
    var s := a + b;
    forall i, j | 0 <= i < j < |s|
      ensures s[i] < s[j]
    {
      if j < |a| {
      } else if i >= |a| {
        assert s[i] == b[i - |a|] && s[j] == b[j - |a|];
      } else {
        assert s[i] in a && s[j] in b;
      }
    }
  }

  /** `("0".."9").to_a + ("A".."Z").to_a + ("a".."z").to_a - ["0", "O", "I", "l"]`:
      58 characters, exactly the ASCII letters and digits other than the four
      removed ones, in their order. */
  lemma Base58AlphabetSpec()
    ensures |Base58Alphabet| == 58
    ensures forall c :: c in Base58Alphabet <==>
      (AsciiAlphanumeric(c) && c != '0' && c != 'O' && c != 'I' && c != 'l')
    ensures StrictlyIncreasing(Base58Alphabet)
  {
    Base58AlphabetMembers();
    Base58AlphabetIncreasing();
  }

  lemma Base58AlphabetMembers()
    ensures forall c :: c in Base58Alphabet <==>
      (AsciiAlphanumeric(c) && c != '0' && c != 'O' && c != 'I' && c != 'l')
  {
    CharRangeFacts('1', '9');
    CharRangeFacts('A', 'H');
    CharRangeFacts('J', 'N');
    CharRangeFacts('P', 'Z');
    CharRangeFacts('a', 'k');
    CharRangeFacts('m', 'z');
  }

  lemma Base58AlphabetIncreasing()
    ensures StrictlyIncreasing(Base58Alphabet)
  {
    var r1, r2, r3, r4, r5, r6 := CharRange('1', '9'), CharRange('A', 'H'), CharRange('J', 'N'),
                                  CharRange('P', 'Z'), CharRange('a', 'k'), CharRange('m', 'z');
    CharRangeFacts('1', '9');
    CharRangeFacts('A', 'H');
    CharRangeFacts('J', 'N');
    CharRangeFacts('P', 'Z');
    CharRangeFacts('a', 'k');
    CharRangeFacts('m', 'z');
    IncreasingAppend(r1, r2);
    IncreasingAppend(r1 + r2, r3);
    IncreasingAppend(r1 + r2 + r3, r4);
    IncreasingAppend(r1 + r2 + r3 + r4, r5);
    IncreasingAppend(r1 + r2 + r3 + r4 + r5, r6);
  }

  type Byte = x: int | 0 <= x < 256

  /** A draw of `random_number(58)`. */
  type Redraw = x: int | 0 <= x < 58

  /** One character of `base58`: `byte % 64` indexes the alphabet when it is
      below 58, otherwise the redrawn index is used. */
  function Base58Char(byte: Byte, redraw: Redraw): (c: char)
    ensures c in Base58Alphabet
  {
    Base58AlphabetSpec();
    var idx := byte % 64;
    if idx < 58 then Base58Alphabet[idx] else Base58Alphabet[redraw]
  }

  /** `base58(n)` over `n` random bytes, with one possible redraw per byte. */
  function Base58(bytes: seq<Byte>, redraws: seq<Redraw>): (r: string)
    requires |redraws| == |bytes|
    ensures |r| == |bytes|
    ensures forall i :: 0 <= i < |r| ==> r[i] in Base58Alphabet
  {
    seq(|bytes|, i requires 0 <= i < |bytes| => Base58Char(bytes[i], redraws[i]))
  }

  /** Without a redraw the character is fixed by the byte: the four bytes
      `idx`, `idx + 64`, `idx + 128` and `idx + 192` give the same character, so
      each character below index 58 is reached by exactly four byte values. */
  lemma Base58CharFromByte(byte: Byte, redraw: Redraw, other: Redraw)
    ensures byte % 64 < 58 ==> Base58Char(byte, redraw) == Base58Char(byte, other) == Base58Alphabet[byte % 64]
    ensures byte % 64 >= 58 ==> Base58Char(byte, redraw) == Base58Alphabet[redraw]
    ensures forall k :: 0 <= k < 4 && byte % 64 + 64 * k < 256 ==>
      Base58Char(byte % 64 + 64 * k, redraw) == Base58Char(byte, redraw)
  {
    Base58AlphabetSpec();
    forall k | 0 <= k < 4 && byte % 64 + 64 * k < 256
      ensures (byte % 64 + 64 * k) % 64 == byte % 64
    {
    }
  }

  /** `scan(/.{5}/).join('-')`. */
  function VoterId(raw: string): string
  {
    Join(Chunks5(raw), "-")
  }

  /** For the 16 characters of `base58`: three groups of five around two
      dashes, 17 characters, the 16th character dropped. */
  lemma VoterIdShape(raw: string)
    requires |raw| == 16
    ensures VoterId(raw) == raw[..5] + "-" + raw[5..10] + "-" + raw[10..15]
    ensures |VoterId(raw)| == 17 && VoterId(raw)[5] == '-' && VoterId(raw)[11] == '-'
    ensures forall i :: 0 <= i < 17 && i != 5 && i != 11 ==>
      VoterId(raw)[i] == raw[if i < 5 then i else if i < 11 then i - 1 else i - 2]
  {
    var cs := Chunks5(raw);
    Chunks5At(raw, 0);
    Chunks5At(raw, 1);
    Chunks5At(raw, 2);
    assert cs == [raw[..5], raw[5..10], raw[10..15]];
    assert cs[1..] == [raw[5..10], raw[10..15]];
    assert cs[1..][1..] == [raw[10..15]];
    assert Join(cs[1..][1..], "-") == raw[10..15];
    assert Join(cs[1..], "-") == raw[5..10] + "-" + raw[10..15];
    assert Join(cs, "-") == raw[..5] + "-" + (raw[5..10] + "-" + raw[10..15]);
  }

  // ----- Voter records -----

  /** The values the generator draws for one voter. */
  datatype Draw = Draw(firstName: string, lastName: string, street: string, city: string,
                       postcode: string, target: int, idBytes: seq<Byte>, redraws: seq<Redraw>)

  /** What the random sources guarantee: a target of `rand(sum)` and the
      16 bytes of `base58`'s default length. */
  predicate Drawn(d: Draw)
  {
    0 <= d.target < TotalVotes2016 && |d.idBytes| == 16 && |d.redraws| == 16
  }

  const FirstNameAttr := "first_name"
  const LastNameAttr := "last_name"
  const AddressAttr := "address"

  /** `"#{street}, #{city}, #{state} #{postcode}"`. */
  function Address(d: Draw, state: string): string
  {
    d.street + ", " + d.city + ", " + state + " " + d.postcode
  }

  /** The voter record for a draw and the chosen state. */
  function Voter(d: Draw, state: string): (r: Item)
    requires |d.redraws| == |d.idBytes|
    ensures r.Keys == {FirstNameAttr, LastNameAttr, AddressAttr, VoterIdAttr, StateAttr}
    ensures r[StateAttr] == state && r[VoterIdAttr] == VoterId(Base58(d.idBytes, d.redraws))
  {
    map[FirstNameAttr := d.firstName, LastNameAttr := d.lastName, AddressAttr := Address(d, state),
        VoterIdAttr := VoterId(Base58(d.idBytes, d.redraws)), StateAttr := state]
  }

  /** The index of the last space, or -1. */
  function LastSpace(s: string): (k: int)
    ensures -1 <= k < |s|
    ensures k >= 0 ==> s[k] == ' '
    ensures forall j :: k < j < |s| ==> s[j] != ' '
    decreases |s|
  {
    if s == [] then -1 else if s[|s| - 1] == ' ' then |s| - 1 else LastSpace(s[..|s| - 1])
  }

  /** The two characters before the postcode of an address. */
  function EmbeddedState(address: string): string
  {
    var k := LastSpace(address);
    if k >= 2 then address[k - 2..k] else ""
  }

  lemma {:induction false} LastSpaceBeforeWord(p: string, q: string)
    requires ' ' !in q
    ensures LastSpace(p + " " + q) == |p|
    decreases |q|
  {
    var s := p + " " + q;
    if q == [] {
      assert s[|s| - 1] == ' ';
    } else {
      assert s[..|s| - 1] == p + " " + q[..|q| - 1];
      assert s[|s| - 1] == q[|q| - 1];
      var init := q[..|q| - 1];
      assert ' ' !in init by {
        forall j | 0 <= j < |init| ensures init[j] != ' ' {
          assert init[j] == q[j];
        }
      }
      LastSpaceBeforeWord(p, init);
    }
  }

  /** The state written into the address is the voter's `state` field (for a
      postcode without spaces, as Faker's are). */
  lemma VoterStateInAddress(d: Draw, state: string)
    requires |d.redraws| == |d.idBytes| && |state| == 2 && ' ' !in d.postcode
    ensures EmbeddedState(Voter(d, state)[AddressAttr]) == Voter(d, state)[StateAttr]
  {
    var p := d.street + ", " + d.city + ", " + state;
    assert Address(d, state) == p + " " + d.postcode;
    LastSpaceBeforeWord(p, d.postcode);
    assert p[|p| - 2..] == state;
  }

  /** `v` is the voter record of draw `d` with the state its target chooses. */
  ghost predicate ChosenVoter(d: Draw, v: Item)
  {
    Drawn(d) &&
    exists k: nat :: Reaches(StatesVotesTotals, d.target, k) && v == Voter(d, StatesVotesTotals[k].0)
  }

  /** The generator loop: one voter per draw, in order, each with a state
      chosen by its target. */
  method Generate(draws: seq<Draw>) returns (voters: seq<Item>)
    requires forall i :: 0 <= i < |draws| ==> Drawn(draws[i])
    ensures |voters| == |draws|
    ensures forall i :: 0 <= i < |draws| ==> ChosenVoter(draws[i], voters[i])
  {
    voters := [];
    for i := 0 to |draws|
      invariant |voters| == i
      invariant forall j :: 0 <= j < i ==> ChosenVoter(draws[j], voters[j])
    {
      var v := GenerateOne(draws[i]);
      voters := voters + [v];
    }
  }

  /** One iteration: choose the state, build the record. */
  method GenerateOne(d: Draw) returns (v: Item)
    requires Drawn(d)
    ensures ChosenVoter(d, v)
  {
    var state := SelectState(d.target);
    ghost var k: nat :| Reaches(StatesVotesTotals, d.target, k) && state.value == StatesVotesTotals[k].0;
    v := Voter(d, state.value);
  }

  /** A generated voter's state is one of the 51 listed codes. */
  lemma ChosenStateListed(d: Draw, v: Item)
    requires ChosenVoter(d, v)
    ensures StateAttr in v && v[StateAttr] in StateArray && |v[StateAttr]| == 2
  {
    var k: nat :| Reaches(StatesVotesTotals, d.target, k) && v == Voter(d, StatesVotesTotals[k].0);
    StatesVotesTotalsKeys();
    StateArraySorted();
    assert KeysOf(StatesVotesTotals)[k] in KeysOf(StatesVotesTotals);
    var j :| 0 <= j < |StateArray| && StateArray[j] == v[StateAttr];
    StateArrayAscending();
  }

  /** Every generated voter carries a well-formed voter id made of base58
      characters, so the loader can key it. */
  lemma GeneratedVoterId(d: Draw, state: string)
    requires Drawn(d)
    ensures var id := Voter(d, state)[VoterIdAttr];
      |id| == 17 && id[5] == '-' && id[11] == '-' &&
      forall i :: 0 <= i < 17 && i != 5 && i != 11 ==> id[i] in Base58Alphabet
  {
    var raw := Base58(d.idBytes, d.redraws);
    VoterIdShape(raw);
  }
}
