/** The `get_results` Lambda: scans the Results table and groups the rows by
    the fixed list of state codes. Each entry lists the state's rows in scan
    order as `{candidate, count}` and their sum as `total_count`. */
module GetResults {
  import opened Common
  import opened States
  import opened Stores

  datatype CandidateCount = CandidateCount(candidate: string, count: int)

  datatype StateEntry = StateEntry(state: string, totalCount: int, results: seq<CandidateCount>)

  /** `items.select { state matches }.map { {candidate, count} }`. */
  function StateResults(items: seq<ScanItem>, state: string): (r: seq<CandidateCount>)
    ensures |r| <= |items|
    decreases |items|
  {
    if items == [] then []
    else
      var last := items[|items| - 1];
      StateResults(items[..|items| - 1], state) +
        (if last.state == state then [CandidateCount(last.candidate, last.count)] else [])
  }

  /** `inject(0) { |s, h| s + h[:count] }`. */
  function SumCounts(rs: seq<CandidateCount>): int
    decreases |rs|
  {
    if rs == [] then 0 else SumCounts(rs[..|rs| - 1]) + rs[|rs| - 1].count
  }

  function Entry(items: seq<ScanItem>, state: string): StateEntry
  {
    var rs := StateResults(items, state);
    StateEntry(state, SumCounts(rs), rs)
  }

  /** The loop of the handler: one entry per listed state, in list order,
      appended step by step. */
  method Summaries(items: seq<ScanItem>, states: seq<string>) returns (results: seq<StateEntry>)
    ensures |results| == |states|
    ensures forall i :: 0 <= i < |states| ==>
      results[i].state == states[i] && results[i] == Entry(items, states[i])
  {
    results := [];
    for i := 0 to |states|
      invariant |results| == i
      invariant forall k :: 0 <= k < i ==> results[k] == Entry(items, states[k])
    {
      var stateResults := StateResults(items, states[i]);
      results := results + [StateEntry(states[i], SumCounts(stateResults), stateResults)];
    }
  }

  /** The handler: one scan of the Results table, then the entries of the
      fixed state list, status 200 with CORS `*`. A service error on the
      scan raises (`None`). The table is only read. */
  method Handler(db: Database, serviceError: bool) returns (response: Option<Response<seq<StateEntry>>>)
    ensures response.None? <==> serviceError
    ensures response.Some? ==>
      && response.value.statusCode == 200 && !response.value.isBase64Encoded
      && response.value.headers == [(AllowOriginHeader, "*")]
      && |response.value.body| == |StateArray| == 51
      && exists rows :: ScanOf(rows, db.results) && forall i :: 0 <= i < |StateArray| ==>
           response.value.body[i].state == StateArray[i] && response.value.body[i] == Entry(rows, StateArray[i])
  {
    var ok, items := db.Scan(serviceError);
    if !ok {
      return None;
    }
    StateArrayLength();
    var results := Summaries(items, StateArray);
    response := Some(Response(false, 200, [(AllowOriginHeader, "*")], results));
  }

  // ----- Properties of the grouping -----

  /** Selection distributes over concatenation: the rows of a state are
      those of the first part of the scan followed by those of the rest. */
  lemma {:induction false} StateResultsAppend(a: seq<ScanItem>, b: seq<ScanItem>, state: string)
    ensures StateResults(a + b, state) == StateResults(a, state) + StateResults(b, state)
    decreases |b|
  {
    if b == [] {
      assert a + b == a;
    } else {
      assert (a + b)[..|a + b| - 1] == a + b[..|b| - 1];
      StateResultsAppend(a, b[..|b| - 1], state);
    }
  }

  /** A single scanned row lands in its own state and nowhere else. */
  lemma StateResultsSingle(x: ScanItem, state: string)
    ensures StateResults([x], state) == if x.state == state then [CandidateCount(x.candidate, x.count)] else []
  {
    assert [x][..0] == [];
  }

  /** A state none of whose rows was scanned gets no results and a zero
      total. */
  lemma {:induction false} AbsentStateIsEmpty(items: seq<ScanItem>, state: string)
    requires forall i :: 0 <= i < |items| ==> items[i].state != state
    ensures Entry(items, state) == StateEntry(state, 0, [])
    decreases |items|
  {
    if items != [] {
      AbsentStateIsEmpty(items[..|items| - 1], state);
    }
  }

  /** Every result of a state comes from a scanned row of that state. */
  lemma {:induction false} StateResultsFromState(items: seq<ScanItem>, state: string, k: nat)
    requires k < |StateResults(items, state)|
    ensures exists i :: (0 <= i < |items| && items[i].state == state &&
      StateResults(items, state)[k] == CandidateCount(items[i].candidate, items[i].count))
    decreases |items|
  {
    var init := items[..|items| - 1];
    var last := items[|items| - 1];
    if k < |StateResults(init, state)| {
      StateResultsFromState(init, state, k);
      var i :| 0 <= i < |init| && init[i].state == state &&
        StateResults(init, state)[k] == CandidateCount(init[i].candidate, init[i].count);
      assert items[i] == init[i];
    } else {
      assert items[|items| - 1] == last;
    }
  }

  lemma SumCountsAppend(a: seq<CandidateCount>, b: seq<CandidateCount>)
    ensures SumCounts(a + b) == SumCounts(a) + SumCounts(b)
    decreases |b|
  {
    if b == [] {
      assert a + b == a;
    } else {
      assert (a + b)[..|a + b| - 1] == a + b[..|b| - 1];
      SumCountsAppend(a, b[..|b| - 1]);
    }
  }

  /** Sum of the totals of the given states. */
  function TotalOver(states: seq<string>, items: seq<ScanItem>): int
  {
    if states == [] then 0 else Entry(items, states[0]).totalCount + TotalOver(states[1..], items)
  }

  /** Sum of the counts of the scanned rows whose state is listed. */
  function ListedCount(states: seq<string>, items: seq<ScanItem>): int
    decreases |items|
  {
    if items == [] then 0
    else
      var last := items[|items| - 1];
      ListedCount(states, items[..|items| - 1]) + (if last.state in states then last.count else 0)
  }

  lemma {:induction false} TotalOverStep(states: seq<string>, items: seq<ScanItem>, x: ScanItem)
    requires Distinct(states)
    ensures TotalOver(states, items + [x]) == TotalOver(states, items) + (if x.state in states then x.count else 0)
    decreases |states|
  {
    if states != [] {
      var s0 := states[0];
      StateResultsAppend(items, [x], s0);
      StateResultsSingle(x, s0);
      SumCountsAppend(StateResults(items, s0), StateResults([x], s0));
      assert SumCounts([CandidateCount(x.candidate, x.count)]) == x.count by {
        assert [CandidateCount(x.candidate, x.count)][..0] == [];
      }
      assert Distinct(states[1..]) by {
        forall i, j | 0 <= i < j < |states[1..]| ensures states[1..][i] != states[1..][j] {
          assert states[1..][i] == states[i + 1] && states[1..][j] == states[j + 1];
        }
      }
      TotalOverStep(states[1..], items, x);
      assert x.state in states <==> x.state == s0 || x.state in states[1..] by {
        assert states == [s0] + states[1..];
      }
      if x.state == s0 {
        assert x.state !in states[1..] by {
          forall j | 0 <= j < |states[1..]| ensures states[1..][j] != x.state {
            assert states[1..][j] == states[j + 1];
          }
        }
      }
    }
  }

  /** Each scanned row with a listed state is counted in exactly one entry:
      the totals of distinct states add up to the counts of the rows whose
      state is listed, and rows of unlisted states contribute nothing. */
  lemma {:induction false} TotalsPartitionScan(states: seq<string>, items: seq<ScanItem>)
    requires Distinct(states)
    ensures TotalOver(states, items) == ListedCount(states, items)
    decreases |items|
  {
    if items == [] {
      EmptyScanTotals(states);
    } else {
      var init := items[..|items| - 1];
      TotalsPartitionScan(states, init);
      TotalOverStep(states, init, items[|items| - 1]);
      assert init + [items[|items| - 1]] == items;
    }
  }

  lemma {:induction false} EmptyScanTotals(states: seq<string>)
    ensures TotalOver(states, []) == 0
    decreases |states|
  {
    if states != [] {
      EmptyScanTotals(states[1..]);
    }
  }

  /** For the state list of the handler. */
  lemma HandlerTotalsPartitionScan(items: seq<ScanItem>)
    ensures TotalOver(StateArray, items) == ListedCount(StateArray, items)
  {
    StateArraySorted();
    TotalsPartitionScan(StateArray, items);
  }

  /** A worked example: California rows Trump 3 and Clinton 7 and
      no other California row give a total of 10. */
  lemma CaliforniaExample()
    ensures var items := [ScanItem("CA", "Donald Trump", 3), ScanItem("NY", "Jill Stein", 4), ScanItem("CA", "Hillary Clinton", 7)];
      Entry(items, "CA") == StateEntry("CA", 10, [CandidateCount("Donald Trump", 3), CandidateCount("Hillary Clinton", 7)])
  {
    var items := [ScanItem("CA", "Donald Trump", 3), ScanItem("NY", "Jill Stein", 4), ScanItem("CA", "Hillary Clinton", 7)];
    assert items[..2] == [ScanItem("CA", "Donald Trump", 3), ScanItem("NY", "Jill Stein", 4)];
    assert items[..2][..1] == [ScanItem("CA", "Donald Trump", 3)];
    assert items[..2][..1][..0] == [];
    assert StateResults(items[..2][..1], "CA") == [CandidateCount("Donald Trump", 3)];
    assert StateResults(items[..2], "CA") == [CandidateCount("Donald Trump", 3)];
    var rs := [CandidateCount("Donald Trump", 3), CandidateCount("Hillary Clinton", 7)];
    assert StateResults(items, "CA") == rs;
    assert rs[..1][..0] == [];
    assert SumCounts(rs) == 10;
  }

  // ----- The entries against the Results table -----

  /** A row of a state is listed among that state's results. */
  lemma {:induction false} StateResultsHasRow(items: seq<ScanItem>, state: string, i: nat)
    requires i < |items| && items[i].state == state
    ensures CandidateCount(items[i].candidate, items[i].count) in StateResults(items, state)
    decreases |items|
  {
    if i < |items| - 1 {
      var init := items[..|items| - 1];
      assert init[i] == items[i];
      StateResultsHasRow(init, state, i);
    }
  }

  /** Over a scan of the Results table, a state's results are exactly the
      tallies of that state: `{candidate, count}` is listed iff the table
      holds `count` for (state, candidate). */
  lemma ScanEntryIsTallies(rows: seq<ScanItem>, results: map<TallyKey, nat>, state: string, candidate: string, count: int)
    requires ScanOf(rows, results)
    ensures CandidateCount(candidate, count) in Entry(rows, state).results <==>
      (state, candidate) in results && results[(state, candidate)] == count
  {
    var rs := StateResults(rows, state);
    if CandidateCount(candidate, count) in rs {
      var k :| 0 <= k < |rs| && rs[k] == CandidateCount(candidate, count);
      StateResultsFromState(rows, state, k);
      var i :| 0 <= i < |rows| && rows[i].state == state && rs[k] == CandidateCount(rows[i].candidate, rows[i].count);
      assert RowKey(rows[i]) == (state, candidate);
    }
    if (state, candidate) in results && results[(state, candidate)] == count {
      var i :| 0 <= i < |rows| && RowKey(rows[i]) == (state, candidate);
      StateResultsHasRow(rows, state, i);
    }
  }

  /** Over a scan of the Results table whose states are all listed, the
      listed rows add up to the table's total. */
  lemma {:induction false} ScanListedIsTotal(states: seq<string>, rows: seq<ScanItem>, results: map<TallyKey, nat>)
    requires ScanOf(rows, results)
    requires forall k :: k in results ==> k.0 in states
    ensures ListedCount(states, rows) == Total(results)
    decreases |rows|
  {
    var keys := set i | 0 <= i < |rows| :: RowKey(rows[i]);
    assert results.Keys <= keys by {
      forall k | k in results
        ensures k in keys
      {
        var i :| 0 <= i < |rows| && RowKey(rows[i]) == k;
      }
    }
    if rows == [] {
      assert keys == {};
      assert results == map[];
    } else {
      var init := rows[..|rows| - 1];
      var k := RowKey(rows[|rows| - 1]);
      ScanWithoutLast(rows, results);
      ScanListedIsTotal(states, init, results - {k});
      TotalRemove(results, k);
    }
  }

  /** A scan without its last row is a scan of the table without that row. */
  lemma ScanWithoutLast(rows: seq<ScanItem>, results: map<TallyKey, nat>)
    requires ScanOf(rows, results) && rows != []
    ensures var k := RowKey(rows[|rows| - 1]);
      k in results && ScanOf(rows[..|rows| - 1], results - {k})
  {
    var init := rows[..|rows| - 1];
    var rest := results - {RowKey(rows[|rows| - 1])};
    assert forall i :: 0 <= i < |init| ==> init[i] == rows[i];
    forall k' | k' in rest
      ensures exists i :: 0 <= i < |init| && RowKey(init[i]) == k'
    {
      var i :| 0 <= i < |rows| && RowKey(rows[i]) == k';
      assert init[i] == rows[i];
    }
  }

  /** The handler's totals add up to the sum of all counts in the Results
      table, when every row's state is one of the 51 codes (as seeding
      makes it). */
  lemma HandlerTotalIsTallyTotal(rows: seq<ScanItem>, results: map<TallyKey, nat>)
    requires ScanOf(rows, results)
    requires forall k :: k in results ==> k.0 in StateArray
    ensures TotalOver(StateArray, rows) == Total(results)
  {
    HandlerTotalsPartitionScan(rows);
    ScanListedIsTotal(StateArray, rows, results);
  }
}
