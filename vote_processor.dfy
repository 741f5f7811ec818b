/** The `vote_processor` Lambda: consumes a batch of queued vote messages in
    order. For each message it overwrites the voter's `candidate` and
    `voted_at` (an upsert that returns ALL_NEW), then adds one to the Results
    row keyed by the voter's state and the new candidate. */
module VoteProcessor {
  import opened Common
  import opened Stores

  /** Why a record stops the handler (each is a Ruby exception in the handler). */
  datatype Error =
    | MalformedMessage              // the message lacks id, candidate or voted_at
    | RejectedKey(id: string)       // update_item rejects the key `{id: ...}`: the id is empty or `id` is not the table's key attribute
    | MissingState(id: string)      // the updated voter item has no state: the Results key is incomplete
    | MissingTally(key: TallyKey)   // no Results row for the key: `#C + :a` refers to a missing count
    | ServiceError                  // one of the two update_item calls met a service error
    | UndefinedSaveResponse         // line 50 names a variable local to the loop's block

  /** The two tables as values, with the key attribute of Voters. */
  datatype Tables = Tables(keyAttr: string, voters: map<string, Item>, results: map<TallyKey, nat>)

  /** Which of a record's two `update_item` calls meets a service error. A
      record stops at its first failing call, so a failure of both calls is
      `UpdateFails`. */
  datatype Fault = NoFault | UpdateFails | IncrementFails

  /** The fault of record i; records past the end of `fs` meet none. */
  function FaultAt(fs: seq<Fault>, i: nat): Fault
  {
    if i < |fs| then fs[i] else NoFault
  }

  /** The tables after some records, and the error that stopped them, if any. */
  datatype Step = Step(tables: Tables, error: Option<Error>)

  predicate WellFormed(m: Item)
  {
    IdAttr in m && CandidateAttr in m && VotedAtAttr in m
  }

  /** The message is complete and `update_item` accepts its key. */
  predicate Accepted(t: Tables, m: Item)
  {
    WellFormed(m) && KeyAccepted(t.keyAttr, IdAttr, m[IdAttr])
  }

  /** The voter item after the registry update for message m. */
  function Updated(t: Tables, m: Item): Item
    requires WellFormed(m)
  {
    SetVote(ItemOrKey(t.voters, t.keyAttr, m[IdAttr]), m[CandidateAttr], m[VotedAtAttr])
  }

  /** One record: the registry update, then, from the updated item, the tally
      increment, under the record's fault. A failing increment leaves the
      registry update in place. */
  function ApplyRecord(t: Tables, m: Item, f: Fault): (s: Step)
    ensures !WellFormed(m) ==> s == Step(t, Some(MalformedMessage))
    ensures WellFormed(m) && !Accepted(t, m) ==> s == Step(t, Some(RejectedKey(m[IdAttr])))
    ensures Accepted(t, m) && f == UpdateFails ==> s == Step(t, Some(ServiceError))
    ensures Accepted(t, m) && f != UpdateFails ==> s.tables.voters == t.voters[m[IdAttr] := Updated(t, m)]
    ensures s.tables.keyAttr == t.keyAttr
    ensures s.error.None? <==>
      Accepted(t, m) && f == NoFault && m[IdAttr] in t.voters && StateAttr in t.voters[m[IdAttr]] &&
      (t.voters[m[IdAttr]][StateAttr], m[CandidateAttr]) in t.results
    ensures s.error == Some(ServiceError) <==>
      Accepted(t, m) &&
      (f == UpdateFails ||
       (f == IncrementFails && m[IdAttr] in t.voters && StateAttr in t.voters[m[IdAttr]] &&
        (t.voters[m[IdAttr]][StateAttr], m[CandidateAttr]) in t.results))
    ensures s.error.None? ==>
      var key := (t.voters[m[IdAttr]][StateAttr], m[CandidateAttr]);
      s.tables.results == t.results[key := t.results[key] + 1]
    ensures s.error.Some? ==> s.tables.results == t.results
  {
    if !WellFormed(m) then Step(t, Some(MalformedMessage))
    else
      var id := m[IdAttr];
      if !KeyAccepted(t.keyAttr, IdAttr, id) then Step(t, Some(RejectedKey(id)))
      else if f == UpdateFails then Step(t, Some(ServiceError))
      else
        var attributes := Updated(t, m);
        var voters := t.voters[id := attributes];
        if StateAttr !in attributes then Step(Tables(t.keyAttr, voters, t.results), Some(MissingState(id)))
        else
          var key := (attributes[StateAttr], attributes[CandidateAttr]);
          if key !in t.results then Step(Tables(t.keyAttr, voters, t.results), Some(MissingTally(key)))
          else if f == IncrementFails then Step(Tables(t.keyAttr, voters, t.results), Some(ServiceError))
          else
            assert f == NoFault && m[IdAttr] in t.voters;
            Step(Tables(t.keyAttr, voters, t.results[key := t.results[key] + 1]), None)
  }

  /** The records in order, each under its fault, stopping at the first one
      that raises. */
  function ApplyRecords(t: Tables, ms: seq<Item>, fs: seq<Fault>): Step
    decreases |ms|
  {
    if ms == [] then Step(t, None)
    else
      var s := ApplyRecords(t, ms[..|ms| - 1], fs);
      if s.error.Some? then s else ApplyRecord(s.tables, ms[|ms| - 1], FaultAt(fs, |ms| - 1))
  }

  /** The loop of the handler over `event['Records']`, with the two
      `update_item` calls per record. */
  method ProcessRecords(db: Database, records: seq<Item>, faults: seq<Fault>) returns (error: Option<Error>)
    modifies db
    ensures Step(Tables(db.keyAttr, db.voters, db.results), error) ==
      ApplyRecords(Tables(db.keyAttr, old(db.voters), old(db.results)), records, faults)
  {
    ghost var t0 := Tables(db.keyAttr, db.voters, db.results);
    var i := 0;
    error := None;
    while i < |records| && error.None?
      invariant 0 <= i <= |records|
      invariant Step(Tables(db.keyAttr, db.voters, db.results), error) == ApplyRecords(t0, records[..i], faults)
      invariant error.Some? ==> ApplyRecords(t0, records, faults) == ApplyRecords(t0, records[..i], faults)
    {
      assert records[..i + 1][..i] == records[..i];
      error := ProcessRecord(db, records[i], FaultAt(faults, i));
      i := i + 1;
      if error.Some? {
        StopsAtError(t0, records, faults, i);
      }
    }
    assert records[..|records|] == records;
  }

  /** One iteration of the loop. */
  method ProcessRecord(db: Database, m: Item, f: Fault) returns (error: Option<Error>)
    modifies db
    ensures Step(Tables(db.keyAttr, db.voters, db.results), error) ==
      ApplyRecord(Tables(db.keyAttr, old(db.voters), old(db.results)), m, f)
  {
    if !WellFormed(m) {
      return Some(MalformedMessage);
    }
    var updated, attributes := db.UpdateVote(IdAttr, m[IdAttr], m[CandidateAttr], m[VotedAtAttr], f == UpdateFails);
    if updated == Invalid {
      return Some(RejectedKey(m[IdAttr]));
    } else if updated == ServiceFailed {
      return Some(ServiceError);
    }
    if StateAttr !in attributes {
      return Some(MissingState(m[IdAttr]));
    }
    var key := (attributes[StateAttr], attributes[CandidateAttr]);
    var counted := db.IncrementCount(key, f == IncrementFails);
    error := match counted
      case Succeeded => None
      case Invalid => Some(MissingTally(key))
      case ServiceFailed => Some(ServiceError);
  }

  lemma {:induction false} StopsAtError(t: Tables, ms: seq<Item>, fs: seq<Fault>, n: nat)
    requires n <= |ms| && ApplyRecords(t, ms[..n], fs).error.Some?
    ensures ApplyRecords(t, ms, fs) == ApplyRecords(t, ms[..n], fs)
    decreases |ms| - n
  {
    if n < |ms| {
      assert ms[..n + 1][..n] == ms[..n];
      assert ApplyRecords(t, ms[..n + 1], fs) == ApplyRecords(t, ms[..n], fs);
      StopsAtError(t, ms, fs, n + 1);
    } else {
      assert ms[..n] == ms;
    }
  }

  /** The handler as written: after the loop, `puts save_response.attributes`
      names a variable that was local to the loop's block, so every
      invocation raises NameError, after all its updates have been applied. */
  method Handler(db: Database, records: seq<Item>, faults: seq<Fault>) returns (error: Option<Error>)
    modifies db
    ensures Tables(db.keyAttr, db.voters, db.results) ==
      ApplyRecords(Tables(db.keyAttr, old(db.voters), old(db.results)), records, faults).tables
    ensures error == AsWrittenOutcome(Tables(db.keyAttr, old(db.voters), old(db.results)), records, faults)
  {
    error := ProcessRecords(db, records, faults);
    if error.None? {
      error := Some(UndefinedSaveResponse);
    }
  }

  /** The invocation's result as written: it always fails. */
  function AsWrittenOutcome(t: Tables, ms: seq<Item>, fs: seq<Fault>): (r: Option<Error>)
    ensures r.Some?
    ensures ApplyRecords(t, ms, fs).error.None? ==> r == Some(UndefinedSaveResponse)
    ensures ApplyRecords(t, ms, fs).error.Some? ==> r == ApplyRecords(t, ms, fs).error
  {
    var s := ApplyRecords(t, ms, fs);
    if s.error.Some? then s.error else Some(UndefinedSaveResponse)
  }

  /** Even an empty batch, which updates nothing, fails. */
  lemma EmptyBatchFails(t: Tables, fs: seq<Fault>)
    ensures AsWrittenOutcome(t, [], fs) == Some(UndefinedSaveResponse)
  {
  }

  /** The handler as evidently intended: it logs the last response and
      returns normally, so only a failing record makes the invocation fail. */
  method HandlerCorrected(db: Database, records: seq<Item>, faults: seq<Fault>) returns (error: Option<Error>)
    modifies db
    ensures Tables(db.keyAttr, db.voters, db.results) ==
      ApplyRecords(Tables(db.keyAttr, old(db.voters), old(db.results)), records, faults).tables
    ensures error == ApplyRecords(Tables(db.keyAttr, old(db.voters), old(db.results)), records, faults).error
  {
    error := ProcessRecords(db, records, faults);
  }

  // ----- Properties of the specification -----

  /** A batch that runs to the end raises the sum of all counts by exactly
      the number of records in it. */
  lemma {:induction false} BatchAddsItsSize(t: Tables, ms: seq<Item>, fs: seq<Fault>)
    requires ApplyRecords(t, ms, fs).error.None?
    ensures Total(ApplyRecords(t, ms, fs).tables.results) == Total(t.results) + |ms|
    decreases |ms|
  {
    if ms != [] {
      var prefix := ApplyRecords(t, ms[..|ms| - 1], fs);
      BatchAddsItsSize(t, ms[..|ms| - 1], fs);
      var m := ms[|ms| - 1];
      var key := (prefix.tables.voters[m[IdAttr]][StateAttr], m[CandidateAttr]);
      TotalIncrement(prefix.tables.results, key);
    }
  }

  /** Running the records of a then those of b, each with its faults, is
      running a + b. */
  lemma {:induction false} ApplyRecordsAppend(t: Tables, a: seq<Item>, b: seq<Item>, fa: seq<Fault>, fb: seq<Fault>)
    requires |fa| == |a|
    ensures ApplyRecords(t, a + b, fa + fb) ==
      var s := ApplyRecords(t, a, fa);
      if s.error.Some? then s else ApplyRecords(s.tables, b, fb)
    decreases |b|
  {
    PrefixFaults(t, a, fa, fb);
    if b == [] {
      assert a + b == a;
    } else {
      assert (a + b)[..|a + b| - 1] == a + b[..|b| - 1];
      assert FaultAt(fa + fb, |a + b| - 1) == FaultAt(fb, |b| - 1);
      ApplyRecordsAppend(t, a, b[..|b| - 1], fa, fb);
    }
  }

  /** Faults listed past the end of the records play no part. */
  lemma {:induction false} PrefixFaults(t: Tables, a: seq<Item>, fa: seq<Fault>, fb: seq<Fault>)
    requires |fa| >= |a|
    ensures ApplyRecords(t, a, fa + fb) == ApplyRecords(t, a, fa)
    decreases |a|
  {
    if a != [] {
      PrefixFaults(t, a[..|a| - 1], fa, fb);
      assert FaultAt(fa + fb, |a| - 1) == FaultAt(fa, |a| - 1);
    }
  }

  /** b holds at least the voters of a, with the same states, and at least
      the Results rows of a. */
  ghost predicate Extends(a: Tables, b: Tables)
  {
    && a.keyAttr == b.keyAttr
    && (forall id :: id in a.voters ==>
          (id in b.voters &&
           (StateAttr in a.voters[id] ==> StateAttr in b.voters[id] && b.voters[id][StateAttr] == a.voters[id][StateAttr])))
    && a.results.Keys <= b.results.Keys
  }

  lemma ApplyRecordExtends(a: Tables, b: Tables, m: Item, f: Fault)
    requires Extends(a, b)
    requires ApplyRecord(a, m, f).error.None?
    ensures ApplyRecord(b, m, f).error.None?
    ensures Extends(ApplyRecord(a, m, f).tables, ApplyRecord(b, m, f).tables)
    ensures Extends(a, ApplyRecord(a, m, f).tables)
  {
  }

  /** A batch that runs cleanly on some tables runs cleanly on any tables
      that extend them, and processing keeps extending the starting tables. */
  lemma {:induction false} ApplyRecordsExtends(a: Tables, b: Tables, ms: seq<Item>, fs: seq<Fault>)
    requires Extends(a, b)
    requires ApplyRecords(a, ms, fs).error.None?
    ensures ApplyRecords(b, ms, fs).error.None?
    ensures Extends(ApplyRecords(a, ms, fs).tables, ApplyRecords(b, ms, fs).tables)
    ensures Extends(a, ApplyRecords(a, ms, fs).tables)
    decreases |ms|
  {
    if ms != [] {
      var init := ms[..|ms| - 1];
      ApplyRecordsExtends(a, b, init, fs);
      var sa := ApplyRecords(a, init, fs).tables;
      var f := FaultAt(fs, |ms| - 1);
      ApplyRecordExtends(sa, ApplyRecords(b, init, fs).tables, ms[|ms| - 1], f);
      ApplyRecordExtends(sa, sa, ms[|ms| - 1], f);
    }
  }

  /** Processing only increments existing rows: the Results keys stay. */
  lemma {:induction false} ResultsKeysKept(t: Tables, ms: seq<Item>, fs: seq<Fault>)
    ensures ApplyRecords(t, ms, fs).tables.results.Keys == t.results.Keys
    decreases |ms|
  {
    if ms != [] {
      ResultsKeysKept(t, ms[..|ms| - 1], fs);
    }
  }

  /** Not idempotent: a batch delivered again (as SQS does after the handler
      fails, and the handler as written always fails) runs cleanly again and
      counts every vote a second time. */
  lemma RedeliveryCountsTwice(t: Tables, ms: seq<Item>, fs: seq<Fault>)
    requires ApplyRecords(t, ms, fs).error.None?
    ensures var once := ApplyRecords(t, ms, fs).tables;
      && ApplyRecords(once, ms, fs).error.None?
      && Total(ApplyRecords(once, ms, fs).tables.results) == Total(t.results) + 2 * |ms|
  {
    var once := ApplyRecords(t, ms, fs).tables;
    ApplyRecordsExtends(t, t, ms, fs);
    ApplyRecordsExtends(t, once, ms, fs);
    BatchAddsItsSize(t, ms, fs);
    BatchAddsItsSize(once, ms, fs);
  }

  /** The voter's registered state and the message's candidate form the key
      that a clean record increments. */
  function VoteKey(t: Tables, m: Item): TallyKey
    requires WellFormed(m) && m[IdAttr] in t.voters && StateAttr in t.voters[m[IdAttr]]
  {
    (t.voters[m[IdAttr]][StateAttr], m[CandidateAttr])
  }

  lemma TwoRecords(t: Tables, m1: Item, m2: Item, fs: seq<Fault>)
    ensures ApplyRecords(t, [m1, m2], fs) ==
      var s := ApplyRecord(t, m1, FaultAt(fs, 0));
      if s.error.Some? then s else ApplyRecord(s.tables, m2, FaultAt(fs, 1))
  {
    assert ApplyRecords(t, [m1], fs) == ApplyRecord(t, m1, FaultAt(fs, 0)) by {
      assert [m1][..0] == [];
    }
    assert [m1, m2][..1] == [m1];
  }

  /** The same message processed twice adds two to its count. */
  lemma SameMessageTwice(t: Tables, m: Item)
    requires ApplyRecord(t, m, NoFault).error.None?
    ensures var s := ApplyRecords(t, [m, m], []);
      && s.error.None?
      && s.tables.results == t.results[VoteKey(t, m) := t.results[VoteKey(t, m)] + 2]
  {
    TwoRecords(t, m, m, []);
    ApplyTwice(t, m);
  }

  lemma ApplyTwice(t: Tables, m: Item)
    requires ApplyRecord(t, m, NoFault).error.None?
    ensures var s := ApplyRecord(ApplyRecord(t, m, NoFault).tables, m, NoFault);
      && s.error.None?
      && s.tables.results == t.results[VoteKey(t, m) := t.results[VoteKey(t, m)] + 2]
  {
    var key := VoteKey(t, m);
    var t1 := ApplyRecord(t, m, NoFault).tables;
    StateKept(t, m, NoFault);
    assert t1.results == t.results[key := t.results[key] + 1];
    CleanIncrements(t1, m, key, t.results[key] + 1);
    BumpTwice(t.results, key);
  }

  lemma BumpTwice(r: map<TallyKey, nat>, key: TallyKey)
    requires key in r
    ensures r[key := r[key] + 1][key := r[key] + 2] == r[key := r[key] + 2]
  {
  }

  /** The registry update keeps the voter's state. */
  lemma StateKept(t: Tables, m: Item, f: Fault)
    requires Accepted(t, m) && f != UpdateFails && m[IdAttr] in t.voters && StateAttr in t.voters[m[IdAttr]]
    ensures var v := ApplyRecord(t, m, f).tables.voters;
      m[IdAttr] in v && StateAttr in v[m[IdAttr]] && v[m[IdAttr]][StateAttr] == t.voters[m[IdAttr]][StateAttr]
  {
  }

  lemma CleanIncrements(t: Tables, m: Item, key: TallyKey, count: nat)
    requires Accepted(t, m) && m[IdAttr] in t.voters && StateAttr in t.voters[m[IdAttr]]
    requires VoteKey(t, m) == key && key in t.results && t.results[key] == count
    ensures ApplyRecord(t, m, NoFault).error.None?
    ensures ApplyRecord(t, m, NoFault).tables.results == t.results[key := count + 1]
  {
  }

  /** A second vote by the same voter for another candidate increments the
      new pair and leaves the first pair's increment in place. */
  lemma RevoteKeepsOldCount(t: Tables, m1: Item, m2: Item)
    requires ApplyRecord(t, m1, NoFault).error.None?
    requires WellFormed(m2) && m2[IdAttr] == m1[IdAttr] && m2[CandidateAttr] != m1[CandidateAttr]
    requires VoteKey(t, m2) in t.results
    ensures var s := ApplyRecords(t, [m1, m2], []);
      && s.error.None?
      && VoteKey(t, m1) in s.tables.results && VoteKey(t, m2) in s.tables.results
      && s.tables.results[VoteKey(t, m1)] == t.results[VoteKey(t, m1)] + 1
      && s.tables.results[VoteKey(t, m2)] == t.results[VoteKey(t, m2)] + 1
      && s.tables.voters[m1[IdAttr]][CandidateAttr] == m2[CandidateAttr]
  {
    var first := ApplyRecord(t, m1, NoFault);
    TwoRecords(t, m1, m2, []);
    ApplyRecordExtends(t, t, m1, NoFault);
    assert VoteKey(first.tables, m2) == VoteKey(t, m2);
  }

  /** With the corrected handler a batch whose records all apply is
      acknowledged, so it is not redelivered, and each of its votes is
      counted exactly once. */
  lemma CorrectedCountsOnce(t: Tables, ms: seq<Item>, fs: seq<Fault>)
    requires ApplyRecords(t, ms, fs).error.None?
    ensures Total(ApplyRecords(t, ms, fs).tables.results) == Total(t.results) + |ms|
    ensures AsWrittenOutcome(t, ms, fs) == Some(UndefinedSaveResponse)
  {
    BatchAddsItsSize(t, ms, fs);
  }

  /** A service error on a record's registry update stops the batch there:
      the earlier records stay applied, this one and the later ones change
      nothing, and the invocation fails, so SQS delivers the batch again. */
  lemma ServiceErrorStopsBatch(t: Tables, ms: seq<Item>, fs: seq<Fault>, i: nat)
    requires i < |ms| && ApplyRecords(t, ms[..i], fs).error.None?
    requires Accepted(ApplyRecords(t, ms[..i], fs).tables, ms[i]) && FaultAt(fs, i) == UpdateFails
    ensures ApplyRecords(t, ms, fs) == Step(ApplyRecords(t, ms[..i], fs).tables, Some(ServiceError))
    ensures AsWrittenOutcome(t, ms, fs) == Some(ServiceError)
  {
    assert ms[..i + 1][..i] == ms[..i];
    StopsAtError(t, ms, fs, i + 1);
  }
}
