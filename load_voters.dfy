/** The loading script for the Voters table: it cuts the voter list into
    slices of 25, wraps each voter as a put request and sends each slice as
    one `batch_write_item`. A batch that raises is reported and skipped. The
    script keeps an `index` counter, printed as the number of loaded voters,
    and a skip counter that is never changed. */
module LoadVoters {
  import opened Common
  import opened Stores

  /** The largest batch `batch_write_item` accepts. */
  const SliceSize: nat := 25

  /** `each_slice(25)`: consecutive slices of 25, the last one shorter. */
  function Slices(xs: seq<Item>): (r: seq<seq<Item>>)
    ensures forall b :: 0 <= b < |r| ==> 0 < |r[b]| <= SliceSize
    ensures forall b :: 0 <= b < |r| - 1 ==> |r[b]| == SliceSize
    ensures forall b, x :: 0 <= b < |r| && x in r[b] ==> x in xs
    decreases |xs|
  {
    if xs == [] then []
    else if |xs| <= SliceSize then [xs]
    else
      var rest := Slices(xs[SliceSize..]);
      assert forall x :: x in xs[..SliceSize] ==> x in xs;
      assert forall x :: x in xs[SliceSize..] ==> x in xs;
      [xs[..SliceSize]] + rest
  }

  /** The slices put back together, in order. */
  function Flatten(ss: seq<seq<Item>>): seq<Item>
    decreases |ss|
  {
    if ss == [] then [] else Flatten(ss[..|ss| - 1]) + ss[|ss| - 1]
  }

  lemma {:induction false} FlattenCons(a: seq<Item>, ss: seq<seq<Item>>)
    ensures Flatten([a] + ss) == a + Flatten(ss)
    decreases |ss|
  {
    if ss == [] {
      assert ([a] + ss)[..0] == [];
    } else {
      assert ([a] + ss)[..|[a] + ss| - 1] == [a] + ss[..|ss| - 1];
      FlattenCons(a, ss[..|ss| - 1]);
    }
  }

  /** Slicing loses, adds and reorders nothing. */
  lemma {:induction false} SlicesFlatten(xs: seq<Item>)
    ensures Flatten(Slices(xs)) == xs
    decreases |xs|
  {
    if xs == [] {
    } else if |xs| <= SliceSize {
      assert Flatten([xs]) == Flatten([xs][..0]) + xs;
    } else {
      SlicesFlatten(xs[SliceSize..]);
      FlattenCons(xs[..SliceSize], Slices(xs[SliceSize..]));
      assert xs[..SliceSize] + xs[SliceSize..] == xs;
    }
  }

  /** `{ put_request: { item: vote } }`. */
  datatype WriteRequest = PutRequest(item: Item)

  function RequestItems(requests: seq<WriteRequest>): (r: seq<Item>)
    ensures |r| == |requests|
    ensures forall i :: 0 <= i < |requests| ==> r[i] == requests[i].item
  {
    seq(|requests|, i requires 0 <= i < |requests| => requests[i].item)
  }

  /** Whether the batch of slice `b` is written: its call raises on a
      service error (`b in failing`) or when an item lacks the key. */
  predicate Succeeds(keyAttr: string, slice: seq<Item>, failing: set<nat>, b: nat)
  {
    b !in failing && Keyed(slice, keyAttr)
  }

  /** The counter as the script keeps it: 25 per batch that did not raise. */
  function ReportedCount(keyAttr: string, ss: seq<seq<Item>>, failing: set<nat>): nat
    decreases |ss|
  {
    if ss == [] then 0
    else ReportedCount(keyAttr, ss[..|ss| - 1], failing) + (if Succeeds(keyAttr, ss[|ss| - 1], failing, |ss| - 1) then SliceSize else 0)
  }

  /** The number of voters actually written: the sizes of the batches that
      did not raise. */
  function LoadedCount(keyAttr: string, ss: seq<seq<Item>>, failing: set<nat>): nat
    decreases |ss|
  {
    if ss == [] then 0
    else LoadedCount(keyAttr, ss[..|ss| - 1], failing) + (if Succeeds(keyAttr, ss[|ss| - 1], failing, |ss| - 1) then |ss[|ss| - 1]| else 0)
  }

  /** The Voters table after the batches, in order, of which those that
      raise write nothing. */
  function LoadAll(keyAttr: string, voters: map<string, Item>, ss: seq<seq<Item>>, failing: set<nat>): map<string, Item>
    decreases |ss|
  {
    if ss == [] then voters
    else
      var v := LoadAll(keyAttr, voters, ss[..|ss| - 1], failing);
      if Succeeds(keyAttr, ss[|ss| - 1], failing, |ss| - 1) then PutAll(v, keyAttr, ss[|ss| - 1]) else v
  }

  /** The script as written: `index` grows by 25 per batch that did not
      raise, even for a shorter last batch; the skip counter stays 0. */
  method Load(db: Database, voters: seq<Item>, failing: set<nat>) returns (index: nat, skipped: nat)
    modifies db
    ensures index == ReportedCount(db.keyAttr, Slices(voters), failing)
    ensures skipped == 0
    ensures db.voters == LoadAll(db.keyAttr, old(db.voters), Slices(voters), failing)
    ensures db.results == old(db.results)
  {
    skipped := 0;
    index := 0;
    var slices := Slices(voters);
    for b := 0 to |slices|
      invariant index == ReportedCount(db.keyAttr, slices[..b], failing)
      invariant db.voters == LoadAll(db.keyAttr, old(db.voters), slices[..b], failing)
      invariant db.results == old(db.results)
    {
      var requests, ok := WriteSlice(db, slices[b], b in failing);
      if ok {
        index := index + SliceSize;
      }
      assert slices[..b + 1][..b] == slices[..b];
    }
    assert slices[..|slices|] == slices;
  }

  /** The script with the counter the unused `loaded_count` suggests: it
      grows by the size of each batch that did not raise. */
  method LoadCorrected(db: Database, voters: seq<Item>, failing: set<nat>) returns (loaded: nat, skipped: nat)
    modifies db
    ensures loaded == LoadedCount(db.keyAttr, Slices(voters), failing)
    ensures skipped == 0
    ensures db.voters == LoadAll(db.keyAttr, old(db.voters), Slices(voters), failing)
    ensures db.results == old(db.results)
  {
    skipped := 0;
    loaded := 0;
    var slices := Slices(voters);
    for b := 0 to |slices|
      invariant loaded == LoadedCount(db.keyAttr, slices[..b], failing)
      invariant db.voters == LoadAll(db.keyAttr, old(db.voters), slices[..b], failing)
      invariant db.results == old(db.results)
    {
      var requests, ok := WriteSlice(db, slices[b], b in failing);
      if ok {
        loaded := loaded + |slices[b]|;
      }
      assert slices[..b + 1][..b] == slices[..b];
    }
    assert slices[..|slices|] == slices;
  }

  /** One slice: one put request per voter, in order, sent as one batch. */
  method WriteSlice(db: Database, slice: seq<Item>, serviceError: bool) returns (requests: seq<WriteRequest>, ok: bool)
    modifies db
    ensures |requests| == |slice|
    ensures forall i :: 0 <= i < |slice| ==> requests[i] == PutRequest(slice[i])
    ensures ok == (!serviceError && Keyed(slice, db.keyAttr))
    ensures db.voters == if ok then PutAll(old(db.voters), db.keyAttr, slice) else old(db.voters)
    ensures db.results == old(db.results)
  {
    requests := [];
    for i := 0 to |slice|
      invariant |requests| == i
      invariant forall k :: 0 <= k < i ==> requests[k] == PutRequest(slice[k])
    {
      requests := requests + [PutRequest(slice[i])];
    }
    assert RequestItems(requests) == slice;
    ok := db.BatchWriteVoters(RequestItems(requests), serviceError);
  }

  // ----- The counters -----

  /** Batches of exactly 25 are counted exactly. */
  lemma {:induction false} FullSlicesCountExactly(keyAttr: string, ss: seq<seq<Item>>, failing: set<nat>)
    requires forall b :: 0 <= b < |ss| ==> |ss[b]| == SliceSize
    ensures ReportedCount(keyAttr, ss, failing) == LoadedCount(keyAttr, ss, failing)
    decreases |ss|
  {
    if ss != [] {
      var init := ss[..|ss| - 1];
      assert forall b :: 0 <= b < |init| ==> init[b] == ss[b];
      FullSlicesCountExactly(keyAttr, init, failing);
    }
  }

  /** Only the short last batch is miscounted: the printed count is never
      below the number of voters written and exceeds it by at most 24. */
  lemma ReportedOvercountBound(keyAttr: string, voters: seq<Item>, failing: set<nat>)
    ensures var ss := Slices(voters);
      LoadedCount(keyAttr, ss, failing) <= ReportedCount(keyAttr, ss, failing) <= LoadedCount(keyAttr, ss, failing) + SliceSize - 1
  {
    var ss := Slices(voters);
    if ss != [] {
      var init := ss[..|ss| - 1];
      assert forall b :: 0 <= b < |init| ==> init[b] == ss[b];
      FullSlicesCountExactly(keyAttr, init, failing);
    }
  }

  /** 26 voters that are all written are printed as 50 loaded voters. */
  lemma ReportedOvercountExample(keyAttr: string, voters: seq<Item>)
    requires |voters| == 26 && Keyed(voters, keyAttr)
    ensures ReportedCount(keyAttr, Slices(voters), {}) == 50
    ensures LoadedCount(keyAttr, Slices(voters), {}) == 26
  {
    var ss := Slices(voters);
    assert Slices(voters[25..]) == [voters[25..]];
    assert ss == [voters[..25], voters[25..]];
    assert Keyed(voters[..25], keyAttr) by {
      assert forall i :: 0 <= i < 25 ==> voters[..25][i] == voters[i];
    }
    assert Keyed(voters[25..], keyAttr) by {
      assert voters[25..][0] == voters[25];
    }
    assert ss[..1] == [voters[..25]];
    assert ss[..1][..0] == [];
    assert ReportedCount(keyAttr, ss[..1], {}) == 25;
    assert LoadedCount(keyAttr, ss[..1], {}) == 25;
    assert |ss[1]| == 1;
  }

  /** When no batch fails and every voter carries its key, each batch is
      written. */
  lemma {:induction false} AllSucceed(keyAttr: string, ss: seq<seq<Item>>, xs: seq<Item>, failing: set<nat>)
    requires Keyed(xs, keyAttr)
    requires forall b, x :: 0 <= b < |ss| && x in ss[b] ==> x in xs
    requires forall b :: 0 <= b < |ss| ==> b !in failing
    ensures forall b :: 0 <= b < |ss| ==> Succeeds(keyAttr, ss[b], failing, b)
  {
    forall b | 0 <= b < |ss|
      ensures Keyed(ss[b], keyAttr)
    {
      forall i | 0 <= i < |ss[b]|
        ensures keyAttr in ss[b][i] && ss[b][i][keyAttr] != ""
      {
        assert ss[b][i] in ss[b];
        assert ss[b][i] in xs;
        var k :| 0 <= k < |xs| && xs[k] == ss[b][i];
      }
    }
  }

  lemma {:induction false} LoadedAllIsFlatten(keyAttr: string, ss: seq<seq<Item>>, failing: set<nat>)
    requires forall b :: 0 <= b < |ss| ==> Succeeds(keyAttr, ss[b], failing, b)
    ensures LoadedCount(keyAttr, ss, failing) == |Flatten(ss)|
    decreases |ss|
  {
    if ss != [] {
      var init := ss[..|ss| - 1];
      assert forall b :: 0 <= b < |init| ==> init[b] == ss[b];
      LoadedAllIsFlatten(keyAttr, init, failing);
    }
  }

  /** The corrected counter equals the number of voters in the file when
      every batch is written. */
  lemma LoadedCountIsVoterCount(keyAttr: string, voters: seq<Item>)
    requires Keyed(voters, keyAttr)
    ensures LoadedCount(keyAttr, Slices(voters), {}) == |voters|
  {
    AllSucceed(keyAttr, Slices(voters), voters, {});
    LoadedAllIsFlatten(keyAttr, Slices(voters), {});
    SlicesFlatten(voters);
  }

  lemma {:induction false} PutAllAppend(keyAttr: string, voters: map<string, Item>, a: seq<Item>, b: seq<Item>)
    requires Keyed(a, keyAttr) && Keyed(b, keyAttr) && Keyed(a + b, keyAttr)
    ensures PutAll(PutAll(voters, keyAttr, a), keyAttr, b) == PutAll(voters, keyAttr, a + b)
    decreases |b|
  {
    if b == [] {
      assert a + b == a;
    } else {
      var init := b[..|b| - 1];
      assert (a + b)[..|a + b| - 1] == a + init;
      assert Keyed(init, keyAttr) && Keyed(a + init, keyAttr) by {
        assert forall i :: 0 <= i < |init| ==> init[i] == b[i];
        assert forall i :: 0 <= i < |a + init| ==> (a + init)[i] == (a + b)[i];
      }
      PutAllAppend(keyAttr, voters, a, init);
    }
  }

  lemma {:induction false} LoadAllIsPutAll(keyAttr: string, voters: map<string, Item>, ss: seq<seq<Item>>, failing: set<nat>)
    requires forall b :: 0 <= b < |ss| ==> Succeeds(keyAttr, ss[b], failing, b)
    ensures Keyed(Flatten(ss), keyAttr)
    ensures LoadAll(keyAttr, voters, ss, failing) == PutAll(voters, keyAttr, Flatten(ss))
    decreases |ss|
  {
    if ss != [] {
      var init := ss[..|ss| - 1];
      var last := ss[|ss| - 1];
      assert forall b :: 0 <= b < |init| ==> init[b] == ss[b];
      LoadAllIsPutAll(keyAttr, voters, init, failing);
      assert Succeeds(keyAttr, ss[|ss| - 1], failing, |ss| - 1);
      assert Keyed(Flatten(ss), keyAttr) by {
        var f := Flatten(init);
        forall i | 0 <= i < |f + last|
          ensures keyAttr in (f + last)[i] && (f + last)[i][keyAttr] != ""
        {
          if i < |f| {
            assert (f + last)[i] == f[i];
          } else {
            assert (f + last)[i] == last[i - |f|];
          }
        }
      }
      PutAllAppend(keyAttr, voters, Flatten(init), last);
    }
  }

  /** When nothing fails the table ends as if each voter of the file had been
      put in turn. */
  lemma LoadWithoutFailuresPutsEveryVoter(keyAttr: string, table: map<string, Item>, voters: seq<Item>)
    requires Keyed(voters, keyAttr)
    ensures LoadAll(keyAttr, table, Slices(voters), {}) == PutAll(table, keyAttr, voters)
  {
    AllSucceed(keyAttr, Slices(voters), voters, {});
    LoadAllIsPutAll(keyAttr, table, Slices(voters), {});
    SlicesFlatten(voters);
  }
}
