/** How the pieces fit together: what one component leaves behind is what
    the next one relies on. */
module Pipeline {
  import opened Common
  import opened States
  import opened Stores
  import Intake
  import VoteEnqueuer
  import VoteCreate
  import opened VoteProcessor
  import PopulateResults
  import LoadVoters
  import GenerateVoters
  import GenerateVotes
  import GetResults

  /** Once the processor has applied a voter's message, the voter's record
      has `voted_at`, so intake answers 409 to any further request for that
      id, whether or not the tally increment succeeded, and whatever the
      fate of the send it would not make. */
  lemma ProcessedVoterIsRefused(t: Tables, m: Item, f: Fault, body: Item, now: string, websiteDomain: string, faults: Intake.Faults)
    requires Accepted(t, m) && f != UpdateFails && !faults.lookupFails
    requires VoteEnqueuer.KeyField in body && body[VoteEnqueuer.KeyField] == m[IdAttr]
    ensures var voters := ApplyRecord(t, m, f).tables.voters;
      var r := VoteEnqueuer.Respond(t.keyAttr, voters, body, now, websiteDomain, faults);
      r.Responded? && r.response.statusCode == 409 && r.sent == []
  {
  }

  /** A worked example: voter V1 of California, registered
      and not yet voted, votes for Jill Stein. Intake answers 201 and sends
      one message; processing it adds one to (CA, Jill Stein) and marks the
      voter; a second request for V1 is refused with 409. */
  lemma EndToEndVote(registered: Item, results: map<TallyKey, nat>, now: string, websiteDomain: string)
    requires StateAttr in registered && registered[StateAttr] == "CA" && VotedAtAttr !in registered
    requires ("CA", "Jill Stein") in results
    ensures var voters := map["V1" := registered];
      var body := map[IdAttr := "V1", CandidateAttr := "Jill Stein"];
      var r := VoteEnqueuer.Respond(IdAttr, voters, body, now, websiteDomain, Intake.NoFaults);
      && r.Responded? && r.response.statusCode == 201 && |r.sent| == 1
      && var s := ApplyRecords(Tables(IdAttr, voters, results), r.sent, []);
      && s.error.None?
      && s.tables.results == results[("CA", "Jill Stein") := results[("CA", "Jill Stein")] + 1]
      && VoteEnqueuer.Respond(IdAttr, s.tables.voters, body, now, websiteDomain, Intake.NoFaults).response.statusCode == 409
  {
    var voters := map["V1" := registered];
    var body := map[IdAttr := "V1", CandidateAttr := "Jill Stein"];
    var t := Tables(IdAttr, voters, results);
    var r := VoteEnqueuer.Respond(IdAttr, voters, body, now, websiteDomain, Intake.NoFaults);
    var m := body[VotedAtAttr := now];
    assert r.sent == [m];
    assert [m][..0] == [];
    assert ApplyRecords(t, [m], []) == ApplyRecord(t, m, NoFault);
    ProcessedVoterIsRefused(t, m, NoFault, body, now, websiteDomain, Intake.NoFaults);
  }

  /** The messages vote_create sends carry `voter_id`, not `id`; unless the
      request also had an `id` field the processor rejects them. */
  lemma CreateMessagesLackProcessorKey(keyAttr: string, voters: map<string, Item>, body: Item, now: string, faults: Intake.Faults, f: Fault)
    requires IdAttr !in body
    ensures var r := VoteCreate.Respond(keyAttr, voters, body, now, faults);
      r.Responded? ==> forall i :: 0 <= i < |r.sent| ==> ApplyRecord(Tables(keyAttr, voters, map[]), r.sent[i], f).error == Some(MalformedMessage)
  {
  }

  /** A generated voter record has no `id` attribute. */
  lemma GeneratedVoterLacksId(d: GenerateVoters.Draw, state: string)
    requires |d.redraws| == |d.idBytes|
    ensures IdAttr !in GenerateVoters.Voter(d, state)
  {
  }

  /** No key schema of the Voters table serves both the loading script and
      the `id`-keyed functions. Generated voter records carry `voter_id` but
      no `id`: on a table keyed by `id` every batch of them is rejected and
      the table stays as it was, while on a table keyed by any other
      attribute every vote_enqueuer request and every processed message
      raises on its `id` key. */
  lemma NoKeySchemaServesBoth(keyAttr: string, table: map<string, Item>, voters: seq<Item>, failing: set<nat>,
                              results: map<TallyKey, nat>, body: Item, m: Item, now: string, websiteDomain: string,
                              faults: Intake.Faults, f: Fault)
    requires forall j :: 0 <= j < |voters| ==> IdAttr !in voters[j]
    ensures keyAttr == IdAttr ==> LoadVoters.LoadAll(keyAttr, table, LoadVoters.Slices(voters), failing) == table
    ensures keyAttr != IdAttr ==> VoteEnqueuer.Respond(keyAttr, table, body, now, websiteDomain, faults).Raised?
    ensures keyAttr != IdAttr && WellFormed(m) ==>
      ApplyRecord(Tables(keyAttr, table, results), m, f) == Step(Tables(keyAttr, table, results), Some(RejectedKey(m[IdAttr])))
  {
    if keyAttr == IdAttr {
      var ss := LoadVoters.Slices(voters);
      forall b, x | 0 <= b < |ss| && x in ss[b]
        ensures keyAttr !in x
      {
        assert x in voters;
        var j :| 0 <= j < |voters| && voters[j] == x;
      }
      NothingLoaded(keyAttr, table, ss, failing);
    }
  }

  /** Batches none of whose items carry the key attribute write nothing. */
  lemma {:induction false} NothingLoaded(keyAttr: string, table: map<string, Item>, ss: seq<seq<Item>>, failing: set<nat>)
    requires forall b :: 0 <= b < |ss| ==> |ss[b]| > 0
    requires forall b, x :: 0 <= b < |ss| && x in ss[b] ==> keyAttr !in x
    ensures LoadVoters.LoadAll(keyAttr, table, ss, failing) == table
    decreases |ss|
  {
    if ss != [] {
      var init := ss[..|ss| - 1];
      assert forall b :: 0 <= b < |init| ==> init[b] == ss[b];
      NothingLoaded(keyAttr, table, init, failing);
      var last := ss[|ss| - 1];
      assert last[0] in last;
      assert !Keyed(last, keyAttr);
    }
  }

  /** The generated votes use `id`, the field vote_enqueuer looks up. On a
      table keyed by `id`, loaded without failures from records that carry
      `id` equal to their `voter_id`, the vote's voter is found: intake does
      not answer 404, and it responds unless a call meets a service error. */
  lemma GeneratedVoteIsKnown(table: map<string, Item>, voters: seq<Item>, i: nat, candidate: string, now: string,
                             websiteDomain: string, faults: Intake.Faults)
    requires Keyed(voters, IdAttr) && i < |voters|
    requires forall j :: 0 <= j < |voters| ==> VoterIdAttr in voters[j] && voters[j][VoterIdAttr] == voters[j][IdAttr]
    ensures var vote := GenerateVotes.Vote(voters[i], Some(candidate));
      var r := VoteEnqueuer.Respond(IdAttr, LoadVoters.LoadAll(IdAttr, table, LoadVoters.Slices(voters), {}), vote, now, websiteDomain, faults);
      && VoteEnqueuer.KeyField == IdAttr
      && !r.Raised?
      && (r.Responded? ==> r.response.statusCode != 404)
      && (faults == Intake.NoFaults ==> r.Responded?)
  {
    LoadVoters.LoadWithoutFailuresPutsEveryVoter(IdAttr, table, voters);
    var loaded := PutAll(table, IdAttr, voters);
    assert voters[i][IdAttr] in loaded.Keys;
  }

  /** After a seeding run without failures every message of a registered
      voter of a listed state for one of the five candidates is applied
      without error: the Results row its increment needs exists. */
  lemma SeededTalliesAcceptVotes(keyAttr: string, voters: map<string, Item>, initial: map<TallyKey, nat>, m: Item)
    requires Accepted(Tables(keyAttr, voters, map[]), m) && m[IdAttr] in voters && StateAttr in voters[m[IdAttr]]
    requires voters[m[IdAttr]][StateAttr] in StateArray && m[CandidateAttr] in PopulateResults.Candidates
    ensures var results := PopulateResults.Seed(initial, PopulateResults.Grid(StateArray), {});
      ApplyRecord(Tables(keyAttr, voters, results), m, NoFault).error.None?
  {
    PopulateResults.SeedingReadiesEveryPair(initial, voters[m[IdAttr]][StateAttr], m[CandidateAttr]);
  }

  /** Seeding, processing and aggregation together: starting from an empty
      Results table seeded without failures, a batch the processor applies
      cleanly shows up in get_results as exactly its number of votes, over
      the 51 entries of any scan of the resulting table. */
  lemma TalliedVotesReachTotals(keyAttr: string, voters: map<string, Item>, ms: seq<Item>, fs: seq<Fault>, rows: seq<ScanItem>)
    requires ApplyRecords(Tables(keyAttr, voters, PopulateResults.Seed(map[], PopulateResults.Grid(StateArray), {})), ms, fs).error.None?
    requires ScanOf(rows, ApplyRecords(Tables(keyAttr, voters, PopulateResults.Seed(map[], PopulateResults.Grid(StateArray), {})), ms, fs).tables.results)
    ensures GetResults.TotalOver(StateArray, rows) == |ms|
  {
    var seeded := PopulateResults.Seed(map[], PopulateResults.Grid(StateArray), {});
    var t := Tables(keyAttr, voters, seeded);
    var after := ApplyRecords(t, ms, fs).tables.results;
    TotalZero(seeded);
    BatchAddsItsSize(t, ms, fs);
    ResultsKeysKept(t, ms, fs);
    forall k | k in after
      ensures k.0 in StateArray
    {
      PopulateResults.GridMembership(StateArray, k);
    }
    GetResults.HandlerTotalIsTallyTotal(rows, after);
  }
}
