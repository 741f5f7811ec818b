/** The vote generator: it folds the 2016 results feed into a table from
    state code to an ordered candidate table of vote percentages, then for
    every registered voter draws a candidate weighted by the voter's state's
    percentages and builds a vote `{id, candidate}`; only the voters from
    index 1,000,000 on are queued for posting. The feed, the voter file and
    the random targets are parameters. */
module GenerateVotes {
  import opened Common
  import opened Stores
  import opened Weighted

  /** A candidate of a race in the feed. */
  datatype Candidate = Candidate(fname: string, lname: string, vpct: nat)

  /** A race of the feed. */
  datatype Race = Race(state: string, raceid: string, candidates: seq<Candidate>)

  /** The feed's state name for the national race, which is skipped. */
  const NationalState := "UNITED STATES"

  /** Votes of voters before this index are built but not queued. */
  const FirstQueuedIndex: nat := 1_000_000

  /** `raceid[0, 2]`: the first two characters, or all of a shorter id. */
  function StateId(raceid: string): (r: string)
    ensures |r| == (if |raceid| < 2 then |raceid| else 2)
    ensures r == raceid[..|r|]
  {
    if |raceid| < 2 then raceid else raceid[..2]
  }

  /** `"#{fname} #{lname}"`. */
  function Name(c: Candidate): string
  {
    c.fname + " " + c.lname
  }

  // ----- Ordered hashes -----

  predicate UniqueKeys(h: Weights<string>)
  {
    forall i, j :: 0 <= i < j < |h| ==> h[i].0 != h[j].0
  }

  /** The position of `k` in an ordered hash. */
  function IndexOf(h: Weights<string>, k: string): (r: Option<nat>)
    ensures r.Some? ==> r.value < |h| && h[r.value].0 == k && forall j :: 0 <= j < r.value ==> h[j].0 != k
    ensures r.None? ==> forall j :: 0 <= j < |h| ==> h[j].0 != k
    decreases |h|
  {
    if h == [] then None
    else if h[0].0 == k then Some(0)
    else
      match IndexOf(h[1..], k)
      case None => None
      case Some(i) => Some(i + 1)
  }

  /** The value of `k` in an ordered hash (`h[k]`). */
  function Lookup(h: Weights<string>, k: string): (r: Option<nat>)
    ensures r.Some? <==> k in KeysOf(h)
  {
    match IndexOf(h, k)
    case None => None
    case Some(i) => Some(h[i].1)
  }

  /** `h[k] = v` on a Ruby hash: an existing key keeps its position and takes
      the new value; a new key goes to the end. */
  function Assign(h: Weights<string>, k: string, v: nat): (r: Weights<string>)
    ensures k in KeysOf(h) ==> KeysOf(r) == KeysOf(h)
    ensures k !in KeysOf(h) ==> r == h + [(k, v)]
  {
    match IndexOf(h, k)
    case None => h + [(k, v)]
    case Some(i) => h[i := (k, v)]
  }

  /** After the assignment `k` maps to `v`, and every other key keeps its
      value. */
  lemma AssignLookup(h: Weights<string>, k: string, v: nat)
    ensures Lookup(Assign(h, k, v), k) == Some(v)
    ensures forall k' :: k' != k ==> Lookup(Assign(h, k, v), k') == Lookup(h, k')
  {
    var r := Assign(h, k, v);
    match IndexOf(h, k)
    case None => {
      assert r[|h|].0 == k;
      forall k' | k' != k
        ensures Lookup(r, k') == Lookup(h, k')
      {
        OtherKeyIndex(h, r, k, k');
      }
    }
    case Some(i) => {
      forall k' | k' != k
        ensures Lookup(r, k') == Lookup(h, k')
      {
        OtherKeyIndex(h, r, k, k');
      }
    }
  }

  /** Two tables that agree on every entry not keyed `k` place another key
      at the same position with the same value. */
  lemma OtherKeyIndex(h: Weights<string>, r: Weights<string>, k: string, k': string)
    requires k' != k && |h| <= |r|
    requires forall j :: 0 <= j < |h| ==> r[j] == h[j] || (r[j].0 == k && h[j].0 == k)
    requires forall j :: |h| <= j < |r| ==> r[j].0 == k
    ensures Lookup(r, k') == Lookup(h, k')
  {
    match IndexOf(h, k')
    case None =>
    case Some(i) =>
      assert r[i] == h[i];
  }

  /** Assignment keeps keys unique. */
  lemma AssignUnique(h: Weights<string>, k: string, v: nat)
    requires UniqueKeys(h)
    ensures UniqueKeys(Assign(h, k, v))
  {
    var r := Assign(h, k, v);
    if k !in KeysOf(h) {
      forall i, j | 0 <= i < j < |r|
        ensures r[i].0 != r[j].0
      {
        if j == |h| {
          assert r[i].0 == KeysOf(h)[i];
        }
      }
    } else {
      assert forall i :: 0 <= i < |r| ==> r[i].0 == KeysOf(r)[i] == KeysOf(h)[i] == h[i].0;
    }
  }

  /** The candidate table of one race: each candidate's name assigned its
      percentage, in feed order. */
  function CandidateTable(cs: seq<Candidate>): (r: Weights<string>)
    ensures UniqueKeys(r)
    decreases |cs|
  {
    if cs == [] then []
    else
      var last := cs[|cs| - 1];
      var init := CandidateTable(cs[..|cs| - 1]);
      AssignUnique(init, Name(last), last.vpct);
      Assign(init, Name(last), last.vpct)
  }

  /** A name is in the table iff some candidate has it. */
  lemma {:induction false} CandidateTableHasName(cs: seq<Candidate>, n: string)
    ensures Lookup(CandidateTable(cs), n).Some? <==> exists i :: 0 <= i < |cs| && Name(cs[i]) == n
    decreases |cs|
  {
    if cs != [] {
      var init := cs[..|cs| - 1];
      var last := cs[|cs| - 1];
      CandidateTableHasName(init, n);
      AssignLookup(CandidateTable(init), Name(last), last.vpct);
      if Name(last) != n {
        if exists i :: 0 <= i < |cs| && Name(cs[i]) == n {
          var i :| 0 <= i < |cs| && Name(cs[i]) == n;
          assert init[i] == cs[i];
        }
        if exists i :: 0 <= i < |init| && Name(init[i]) == n {
          var i :| 0 <= i < |init| && Name(init[i]) == n;
          assert init[i] == cs[i];
        }
      }
    }
  }

  /** A name holds the percentage of the last candidate with that name. */
  lemma {:induction false} CandidateTableLastWins(cs: seq<Candidate>, i: nat)
    requires i < |cs|
    requires forall j :: i < j < |cs| ==> Name(cs[j]) != Name(cs[i])
    ensures Lookup(CandidateTable(cs), Name(cs[i])) == Some(cs[i].vpct)
    decreases |cs|
  {
    var init := cs[..|cs| - 1];
    var last := cs[|cs| - 1];
    AssignLookup(CandidateTable(init), Name(last), last.vpct);
    if i < |cs| - 1 {
      assert init[i] == cs[i];
      forall j | i < j < |init| ensures Name(init[j]) != Name(init[i]) {
        assert init[j] == cs[j];
      }
      CandidateTableLastWins(init, i);
    }
  }

  /** A later candidate with the same name overwrites the earlier one. */
  lemma LaterDuplicateNameWins(cs: seq<Candidate>, c: Candidate)
    ensures Lookup(CandidateTable(cs + [c]), Name(c)) == Some(c.vpct)
  {
    CandidateTableLastWins(cs + [c], |cs|);
  }

  // ----- The races fold -----

  /** The table from state code to candidate table after the given races:
      the national race is skipped and a later race with the same state code
      replaces the earlier table. */
  function RacesTable(races: seq<Race>): map<string, Weights<string>>
    decreases |races|
  {
    if races == [] then map[]
    else
      var t := RacesTable(races[..|races| - 1]);
      var race := races[|races| - 1];
      if race.state == NationalState then t else t[StateId(race.raceid) := CandidateTable(race.candidates)]
  }

  /** Race `i` is the last one folded in under state code `id`. */
  predicate LastRaceFor(races: seq<Race>, id: string, i: nat)
  {
    i < |races| && races[i].state != NationalState && StateId(races[i].raceid) == id &&
    forall j :: i < j < |races| ==> races[j].state == NationalState || StateId(races[j].raceid) != id
  }

  /** A state code is in the table iff some non-national race has it. */
  lemma {:induction false} RacesTableHasState(races: seq<Race>, id: string)
    ensures id in RacesTable(races) <==>
      exists i :: 0 <= i < |races| && races[i].state != NationalState && StateId(races[i].raceid) == id
    decreases |races|
  {
    if races != [] {
      var init := races[..|races| - 1];
      var last := races[|races| - 1];
      RacesTableHasState(init, id);
      if last.state == NationalState || StateId(last.raceid) != id {
        if exists i :: 0 <= i < |races| && races[i].state != NationalState && StateId(races[i].raceid) == id {
          var i :| 0 <= i < |races| && races[i].state != NationalState && StateId(races[i].raceid) == id;
          assert init[i] == races[i];
        }
        if exists i :: 0 <= i < |init| && init[i].state != NationalState && StateId(init[i].raceid) == id {
          var i :| 0 <= i < |init| && init[i].state != NationalState && StateId(init[i].raceid) == id;
          assert init[i] == races[i];
        }
      }
    }
  }

  /** A state code holds the candidate table of the last race with it. */
  lemma {:induction false} RacesTableLastWins(races: seq<Race>, id: string, i: nat)
    requires LastRaceFor(races, id, i)
    ensures id in RacesTable(races) && RacesTable(races)[id] == CandidateTable(races[i].candidates)
    decreases |races|
  {
    var init := races[..|races| - 1];
    if i < |races| - 1 {
      assert init[i] == races[i];
      forall j | i < j < |init| ensures init[j].state == NationalState || StateId(init[j].raceid) != id {
        assert init[j] == races[j];
      }
      RacesTableLastWins(init, id, i);
    }
  }

  /** The national race changes nothing. */
  lemma NationalRaceSkipped(races: seq<Race>, race: Race)
    requires race.state == NationalState
    ensures RacesTable(races + [race]) == RacesTable(races)
  {
    assert (races + [race])[..|races + [race]| - 1] == races;
  }

  /** The fold as the script runs it: for each race, `results[state_id] = {}`
      and then one assignment per candidate into that (shared) hash. */
  method FoldRaces(races: seq<Race>) returns (results: map<string, Weights<string>>)
    ensures results == RacesTable(races)
  {
    results := map[];
    for r := 0 to |races|
      invariant results == RacesTable(races[..r])
    {
      var race := races[r];
      assert races[..r + 1][..r] == races[..r];
      if race.state != NationalState {
        var stateId := StateId(race.raceid);
        results := results[stateId := []];
        results := FillCandidates(results, stateId, race.candidates);
      }
    }
    assert races[..|races|] == races;
  }

  /** The inner loop: assigns each candidate into the state's hash. */
  method FillCandidates(results: map<string, Weights<string>>, stateId: string, cs: seq<Candidate>)
    returns (filled: map<string, Weights<string>>)
    requires stateId in results && results[stateId] == []
    ensures filled == results[stateId := CandidateTable(cs)]
  {
    filled := results;
    for c := 0 to |cs|
      invariant filled == results[stateId := CandidateTable(cs[..c])]
    {
      var candidate := cs[c];
      assert cs[..c + 1][..c] == cs[..c];
      assert CandidateTable(cs[..c + 1]) == Assign(CandidateTable(cs[..c]), Name(candidate), candidate.vpct);
      filled := filled[stateId := Assign(filled[stateId], Name(candidate), candidate.vpct)];
    }
    assert cs[..|cs|] == cs;
  }

  // ----- Votes -----

  /** The vote body posted to the intake API: `{id: voter_id, candidate}`.
      A voter without `voter_id`, or a draw that falls through the table,
      leaves the field out (Ruby would write null or the table itself). */
  function Vote(voter: Item, candidate: Option<string>): (v: Item)
    ensures IdAttr in v <==> VoterIdAttr in voter
    ensures IdAttr in v ==> v[IdAttr] == voter[VoterIdAttr]
    ensures CandidateAttr in v <==> candidate.Some?
    ensures CandidateAttr in v ==> v[CandidateAttr] == candidate.value
    ensures v.Keys <= {IdAttr, CandidateAttr}
  {
    (if VoterIdAttr in voter then map[IdAttr := voter[VoterIdAttr]] else map[]) +
    (if candidate.Some? then map[CandidateAttr := candidate.value] else map[])
  }

  /** `vote` is the vote of `voter` for the candidate `target` chooses from
      the voter's state's table. */
  ghost predicate ChosenVote(results: map<string, Weights<string>>, voter: Item, target: int, vote: Item)
  {
    StateAttr in voter && voter[StateAttr] in results &&
    var w := results[voter[StateAttr]];
    ((|w| > 0 && target <= Sum(w)) ==>
      exists k: nat :: Reaches(w, target, k) && vote == Vote(voter, Some(w[k].0))) &&
    (!(|w| > 0 && target <= Sum(w)) ==> vote == Vote(voter, None))
  }

  /** The voter's state has a table; `results[nil]` and a missing code give
      nil, on which the selection raises. */
  predicate HasTable(results: map<string, Weights<string>>, voter: Item)
  {
    StateAttr in voter && voter[StateAttr] in results
  }

  /** The run stops at the first voter without a table, or queues the votes
      of the voters from index 1,000,000 on. */
  datatype Run = Crashed(index: nat) | Queued(votes: seq<Item>)

  /** The voter loop. */
  method BuildVotes(results: map<string, Weights<string>>, voters: seq<Item>, targets: seq<int>) returns (run: Run)
    requires |targets| == |voters|
    ensures run.Crashed? <==> exists i :: 0 <= i < |voters| && !HasTable(results, voters[i])
    ensures run.Crashed? ==> run.index < |voters| && !HasTable(results, voters[run.index])
    ensures run.Crashed? ==> forall i :: 0 <= i < run.index ==> HasTable(results, voters[i])
    ensures run.Queued? ==>
      |run.votes| == (if |voters| < FirstQueuedIndex then 0 else |voters| - FirstQueuedIndex) &&
      forall j :: 0 <= j < |run.votes| ==>
        ChosenVote(results, voters[FirstQueuedIndex + j], targets[FirstQueuedIndex + j], run.votes[j])
  {
    var queued: seq<Item> := [];
    for index := 0 to |voters|
      invariant forall i :: 0 <= i < index ==> HasTable(results, voters[i])
      invariant |queued| == (if index < FirstQueuedIndex then 0 else index - FirstQueuedIndex)
      invariant forall j :: 0 <= j < |queued| ==>
        ChosenVote(results, voters[FirstQueuedIndex + j], targets[FirstQueuedIndex + j], queued[j])
    {
      var voter := voters[index];
      if !HasTable(results, voter) {
        return Crashed(index);
      }
      var vote := VoteFor(results, voter, targets[index]);
      if index >= FirstQueuedIndex {
        queued := queued + [vote];
      }
    }
    return Queued(queued);
  }

  /** One vote: `select_candidate` on the voter's state's table. */
  method VoteFor(results: map<string, Weights<string>>, voter: Item, target: int) returns (vote: Item)
    requires HasTable(results, voter)
    ensures ChosenVote(results, voter, target, vote)
  {
    var candidate := SelectWeighted(results[voter[StateAttr]], target);
    vote := Vote(voter, candidate);
  }

  /** With a positive total and a target of `rand(sum)` every vote names a
      candidate of its state's table. */
  lemma ChosenVoteNamesCandidate(results: map<string, Weights<string>>, voter: Item, target: nat, vote: Item)
    requires ChosenVote(results, voter, target, vote)
    requires target < Sum(results[voter[StateAttr]])
    ensures CandidateAttr in vote && vote[CandidateAttr] in KeysOf(results[voter[StateAttr]])
  {
    var w := results[voter[StateAttr]];
    assert |w| > 0;
    var k: nat :| Reaches(w, target, k) && vote == Vote(voter, Some(w[k].0));
    assert KeysOf(w)[k] == w[k].0;
  }
}
