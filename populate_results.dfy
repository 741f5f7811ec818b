/** The seeding script for the Results table: for every state of the fixed
    list (outer loop) and every candidate of its list (inner loop) it puts a
    row `{candidate, state, count: 0}`. A put that fails is reported and the
    loop goes on. */
module PopulateResults {
  import opened Common
  import opened States
  import opened Stores

  const Candidates: seq<string> := ["Donald Trump", "Hillary Clinton", "Gary Johnson", "Jill Stein", "Evan McMullin"]

  /** The pairs of one state, in candidate order. */
  function Row(state: string): (r: seq<TallyKey>)
    ensures |r| == |Candidates|
    ensures forall j :: 0 <= j < |Candidates| ==> r[j] == (state, Candidates[j])
  {
    seq(|Candidates|, j requires 0 <= j < |Candidates| => (state, Candidates[j]))
  }

  /** The pairs in the order the nested loops visit them. */
  function Grid(states: seq<string>): seq<TallyKey>
    decreases |states|
  {
    if states == [] then [] else Grid(states[..|states| - 1]) + Row(states[|states| - 1])
  }

  /** The Results table after putting count 0 under each key in turn, where
      the puts of `failing` keys raise and write nothing. Since a put replaces
      the row, a written key holds 0 whatever it held before, and every other
      row is left as it was. */
  function Seed(results: map<TallyKey, nat>, keys: seq<TallyKey>, failing: set<TallyKey>): (r: map<TallyKey, nat>)
    ensures forall k :: k in r <==> (k in results || (k in keys && k !in failing))
    ensures forall k :: k in keys && k !in failing ==> r[k] == 0
    ensures forall k :: k in results && (k !in keys || k in failing) ==> r[k] == results[k]
    decreases |keys|
  {
    if keys == [] then results
    else
      var init := keys[..|keys| - 1];
      var last := keys[|keys| - 1];
      assert forall k :: k in keys <==> k in init || k == last by {
        assert keys == init + [last];
      }
      var r := Seed(results, init, failing);
      if last in failing then r else r[last := 0]
  }

  /** The script: attempts every pair once, in loop order, and writes those
      whose put succeeds. */
  method Populate(db: Database, failing: set<TallyKey>) returns (attempted: seq<TallyKey>)
    modifies db
    ensures attempted == Grid(StateArray)
    ensures db.results == Seed(old(db.results), attempted, failing)
    ensures db.voters == old(db.voters)
  {
    attempted := [];
    var states := StateArray;
    for i := 0 to |states|
      invariant attempted == Grid(states[..i])
      invariant db.results == Seed(old(db.results), attempted, failing)
      invariant db.voters == old(db.voters)
    {
      attempted := PopulateState(db, states[i], failing, attempted, old(db.results));
      assert states[..i + 1][..i] == states[..i];
    }
    assert states[..|states|] == states;
  }

  /** The inner loop: the five puts of one state, appended to the pairs
      attempted so far. */
  method PopulateState(db: Database, state: string, failing: set<TallyKey>,
                       before: seq<TallyKey>, ghost initial: map<TallyKey, nat>)
    returns (attempted: seq<TallyKey>)
    requires db.results == Seed(initial, before, failing)
    modifies db
    ensures attempted == before + Row(state)
    ensures db.results == Seed(initial, attempted, failing)
    ensures db.voters == old(db.voters)
  {
    attempted := before;
    for j := 0 to |Candidates|
      invariant attempted == before + Row(state)[..j]
      invariant db.results == Seed(initial, attempted, failing)
      invariant db.voters == old(db.voters)
    {
      var key := (state, Candidates[j]);
      SeedStep(initial, attempted, key, failing);
      if key !in failing {
        db.PutResult(key, 0);
      }
      PrefixStep(Row(state), j);
      attempted := attempted + [key];
    }
    assert Row(state)[..|Candidates|] == Row(state);
  }

  /** One more put: the seeded table grows by that key unless its put fails. */
  lemma SeedStep(results: map<TallyKey, nat>, keys: seq<TallyKey>, key: TallyKey, failing: set<TallyKey>)
    ensures Seed(results, keys + [key], failing) ==
      if key in failing then Seed(results, keys, failing) else Seed(results, keys, failing)[key := 0]
  {
    assert (keys + [key])[..|keys|] == keys;
  }

  lemma PrefixStep<T>(s: seq<T>, j: nat)
    requires j < |s|
    ensures s[..j + 1] == s[..j] + [s[j]]
  {
  }

  // ----- Properties of the visiting order -----

  lemma {:induction false} GridLength(states: seq<string>)
    ensures |Grid(states)| == 5 * |states|
    decreases |states|
  {
    if states != [] {
      GridLength(states[..|states| - 1]);
    }
  }

  /** States are the outer loop and candidates the inner one: the pair of
      state `i` and candidate `j` is visited at position `5 * i + j`. */
  lemma {:induction false} GridAt(states: seq<string>, i: nat, j: nat)
    requires i < |states| && j < |Candidates|
    ensures 5 * i + j < |Grid(states)|
    ensures Grid(states)[5 * i + j] == (states[i], Candidates[j])
    decreases |states|
  {
    var init := states[..|states| - 1];
    GridLength(init);
    if i < |states| - 1 {
      GridAt(init, i, j);
    }
  }

  /** A pair is visited iff its state is listed and its candidate is one of
      the five. */
  lemma {:induction false} GridMembership(states: seq<string>, k: TallyKey)
    ensures k in Grid(states) <==> (k.0 in states && k.1 in Candidates)
    decreases |states|
  {
    if states != [] {
      var init := states[..|states| - 1];
      var last := states[|states| - 1];
      GridMembership(init, k);
      assert states == init + [last];
      if k.0 == last && k.1 in Candidates {
        var j :| 0 <= j < |Candidates| && Candidates[j] == k.1;
        assert Row(last)[j] == k;
      }
    }
  }

  lemma CandidatesDistinct()
    ensures Distinct(Candidates)
  {
  }

  lemma DistinctAppend<T>(a: seq<T>, b: seq<T>)
    requires Distinct(a) && Distinct(b)
    requires forall x :: x in a ==> x !in b
    ensures Distinct(a + b)
  {
    var s := a + b;
    forall i, j | 0 <= i < j < |s|
      ensures s[i] != s[j]
    {
      if j < |a| {
      } else if i >= |a| {
        assert s[i] == b[i - |a|] && s[j] == b[j - |a|];
      } else {
        assert s[i] in a && s[j] in b;
      }
    }
  }

  /** No pair is visited twice when the states are distinct. */
  lemma {:induction false} GridDistinct(states: seq<string>)
    requires Distinct(states)
    ensures Distinct(Grid(states))
    decreases |states|
  {
    if states != [] {
      var init := states[..|states| - 1];
      var last := states[|states| - 1];
      assert Distinct(init) by {
        forall i, j | 0 <= i < j < |init| ensures init[i] != init[j] {
          assert init[i] == states[i] && init[j] == states[j];
        }
      }
      GridDistinct(init);
      CandidatesDistinct();
      forall x | x in Grid(init)
        ensures x !in Row(last)
      {
        GridMembership(init, x);
      }
      DistinctAppend(Grid(init), Row(last));
    }
  }

  /** The script puts exactly 51 * 5 = 255 rows, one per pair. */
  lemma PutsOncePerPair()
    ensures |Grid(StateArray)| == 255
    ensures Distinct(Grid(StateArray))
    ensures forall k :: k in Grid(StateArray) <==> (k.0 in StateArray && k.1 in Candidates)
  {
    StateArrayLength();
    GridLength(StateArray);
    StateArraySorted();
    GridDistinct(StateArray);
    forall k: TallyKey
      ensures k in Grid(StateArray) <==> (k.0 in StateArray && k.1 in Candidates)
    {
      GridMembership(StateArray, k);
    }
  }

  /** When no put fails, every pair of a listed state and one of the five
      candidates holds a row with count 0 afterwards: the rows the vote
      processor's increment relies on. */
  lemma SeedingReadiesEveryPair(results: map<TallyKey, nat>, state: string, candidate: string)
    requires state in StateArray && candidate in Candidates
    ensures var r := Seed(results, Grid(StateArray), {});
      (state, candidate) in r && r[(state, candidate)] == 0
  {
    GridMembership(StateArray, (state, candidate));
  }
}
