# Serverless election pipeline: a Dafny model

This project models the runtime logic of a serverless voting system. It
has three parts.

**Intake.** Two near-identical Lambda handlers, `vote_enqueuer` and
`vote_create`, look the voter up in the Voters table. Each answers 404
(unknown voter), 409 (already voted) or 201. On 201 it sends one message
to the SQS vote queue: the request body plus `voted_at`.

**Tally processor.** `vote_processor` takes a batch of queued messages in
order. For each one it overwrites the voter's `candidate` and `voted_at`,
then adds one to the Results row of (voter's state, candidate).

**Aggregator.** `get_results` groups the Results table into the fixed
list of 51 state codes.

Around these are a health check and the operator scripts:

- seeding the Results table with zero counts;
- loading voters in batches of 25;
- generating registered voters with weighted states and base58 voter ids;
- generating votes from the 2016 results feed.

How the tables and the queue are modelled:

- The two DynamoDB tables are fields of the class `Stores.Database`:
  - `voters` is a map from the value of the table's key attribute to item;
    the key attribute itself (`Database.keyAttr`) is a parameter, because
    the table's key schema is not part of the repository;
  - `results` is a map from (state, candidate) to count.
- The SQS queue is the class `Stores.VoteQueue`, holding a sequence of
  message bodies.
- Each SDK call is a method on these classes, and its contract states its
  effect on the store. The `get_results` scan is the method
  `Database.Scan`: it returns every Results row once, with its count, in an
  order the table chooses.
- A key lookup, update or batch put is refused, and changes nothing, when
  the key it names is not the table's key attribute or its value is empty;
  DynamoDB refuses such requests with a validation error.
- Any call can also fail with a service error (exceeded throughput, an
  outage). The Lambda handlers rescue none of these, so a failed call makes
  the invocation raise; the two scripts rescue them and go on. Which calls fail is a parameter of each operation:
  `Intake.Faults` for the intake handlers, one `VoteProcessor.Fault` per
  record for the processor, a flag for the scan, and the failing batches or
  puts for the two scripts. A failed call reads and writes nothing.

Each handler and script that reads or writes a table or the queue is a
method proved against a specification function. The health check touches
no store and is a function. The properties the code promises are then
proved about the specification functions.

These values are parameters:

- the current time and the website domain;
- which SDK calls meet a service error;
- the function ARN;
- the random targets, bytes and redraws;
- the Faker values;
- the results feed and the voter files.

## Model

| member | source | states |
|---|---|---|
| Stores.SetVote | modules/functions/vote_processor/index/function.rb:12-27 | `SET #C = :c, #VA = :va`: candidate and voted_at take the new values, the keys are the old ones plus those two, every other attribute (state among them) is kept |
| Stores.KeyedCall | modules/functions/vote_processor/index/function.rb:12-27 | a keyed call is invalid iff the key is refused, fails with a service error iff the key is accepted and the service errs, and succeeds otherwise |
| Stores.ItemOrKey | modules/functions/vote_processor/index/function.rb:21-24 | the upsert starts from the stored item, or from an item holding only the table's key attribute with the requested value when none is stored |
| Stores.KeysOfBatch | scripts/load_registered_voters.rb:19-23 | every item of the batch contributes its key attribute's value |
| Stores.KeysOfBatchFrom | scripts/load_registered_voters.rb:19-23 | every key of the batch is the key of one of its items |
| Stores.PutAll | scripts/load_registered_voters.rb:25-32 | after putting a batch the table's keys are the old keys plus the keys of the batch's items |
| Stores.PutAllLast | scripts/load_registered_voters.rb:25-32 | a put key holds the last item of the batch with that key |
| Stores.PutAllUntouched | scripts/load_registered_voters.rb:25-32 | an entry whose key no item of the batch carries keeps its item |
| Stores.Database.GetVoter | modules/functions/vote_enqueuer/index/function.rb:10-16 | `get_item` is invalid unless the key named is the table's key attribute with a non-empty value, otherwise fails exactly on a service error; on success it returns the stored item or none; it changes nothing |
| Stores.Database.UpdateVote | modules/functions/vote_processor/index/function.rb:12-27 | invalid unless the key named is the table's key attribute with a non-empty value, otherwise fails exactly on a service error; on success the voter entry becomes the updated item, which is returned (ALL_NEW); a failed call changes nothing; Results is untouched |
| Stores.Database.IncrementCount | modules/functions/vote_processor/index/function.rb:33-47 | invalid iff the row is missing, otherwise fails exactly on a service error; on success exactly that count rises by one, on failure nothing changes; Voters is untouched |
| Stores.Database.PutResult | scripts/populate_results_table.rb:28-34 | `put_item` replaces the row whatever it held; nothing else changes |
| Stores.Database.BatchWriteVoters | scripts/load_registered_voters.rb:25-33 | a batch writes all its items or, on a service error or an item whose key attribute is missing or empty, nothing |
| Stores.Database.Scan | modules/functions/get_results/index/function.rb:12-17 | unless a service error occurs, the rows are a scan of Results: their (state, candidate) keys are distinct and are exactly the table's keys, each row carrying its key's count; the table is only read |
| Stores.ScanStep | modules/functions/get_results/index/function.rb:12-17 | returning one more row of the unscanned part keeps the rows distinct, with their counts, and covering every scanned key |
| Stores.TotalRemove | modules/functions/vote_processor/index/function.rb:33-47 | the sum of all counts is any row's count plus the sum of the others |
| Stores.TotalZero | scripts/populate_results_table.rb:28-34 | a table of zero counts sums to zero |
| Stores.TotalIncrement | modules/functions/vote_processor/index/function.rb:33-47 | one increment raises the sum of all counts by one |
| Stores.VoteQueue.SendMessage | modules/functions/vote_enqueuer/index/function.rb:20-23 | appends exactly one body to the queue, or nothing on a service error |
| Text.RubySplit | modules/functions/health_check/index/function.rb:10 | defines Ruby's `split` on one character as all fields less the trailing empty ones; Text.DropTrailingEmpty and Text.SplitAllJoin state its properties |
| Text.DropTrailingEmpty | modules/functions/health_check/index/function.rb:10 | Ruby's `split` drops only trailing empty fields: the result is a prefix, ends in a non-empty field, and only empty fields were dropped |
| Text.SplitAllJoin | modules/functions/health_check/index/function.rb:10 | joining the fields with the separator gives the string back, and no field holds the separator |
| Text.SplitAllField | modules/functions/health_check/index/function.rb:10 | a first field without the separator splits off on its own |
| Text.Chunks5 | scripts/generate_registered_voters.rb:110 | `scan(/.{5}/)` yields `|s| / 5` chunks of five characters |
| Text.Chunks5At | scripts/generate_registered_voters.rb:110 | chunk `i` is the text at positions `5i` to `5i + 5` |
| States.StateArrayLength | modules/functions/get_results/index/function.rb:5-7 | the state list has 51 codes |
| States.StateArrayAscending | modules/functions/get_results/index/function.rb:5-7 | every code has two letters and precedes the next alphabetically |
| States.StateArraySorted | modules/functions/get_results/index/function.rb:5-7 | each code precedes every later one, so the codes are distinct |
| Intake.Decide | modules/functions/vote_enqueuer/index/function.rb:10-41 | the lookup raises iff the body lacks the key field, the field is not the table's key attribute, or its value is empty; with an accepted key the invocation fails with a service error iff the lookup fails, or the send fails on the 201 path; otherwise the three statuses are exclusive and exhaustive: 404 iff the id is unknown, 201 iff known and `voted_at` absent, 409 iff known and `voted_at` present; success iff 201; 201 sends exactly body + `voted_at`, the others send nothing; the response is never base64 and carries the variant's CORS origin |
| Intake.DecisionIsLocal | modules/functions/vote_create/index/function.rb:10-18 | the outcome depends only on the table entry under the requested key |
| Intake.Handle | modules/functions/vote_enqueuer/index/function.rb:6-55 | the handler returns the decision under the given faults and appends the sent bodies to the queue, nothing when it raises; it may modify only the queue, so Voters and Results are never written |
| VoteEnqueuer.Respond | modules/functions/vote_enqueuer/index/function.rb:10-50 | raises unless `id` is present, is the table's key attribute and is non-empty; fails on a lookup service error, and on a send service error in the 201 case; otherwise the exact response per case: "Vote <id> registered" (201), "<id> already submitted a vote at <voted_at>" (409), "This voter id does not exist: <id>" (404), CORS `https://` + domain |
| VoteEnqueuer.EnqueuedMessage | modules/functions/vote_enqueuer/index/function.rb:22 | the enqueued message holds every request field unchanged (id and candidate among them) plus `voted_at` = now |
| VoteEnqueuer.Handler | modules/functions/vote_enqueuer/index/function.rb:6-55 | the handler's response is the decision keyed on `id` under the given faults; the queue grows by the sent message only on 201 |
| VoteCreate.Respond | modules/functions/vote_create/index/function.rb:10-50 | raises unless `voter_id` is present, is the table's key attribute and is non-empty; fails on the same service errors as vote_enqueuer; otherwise the same three outcomes, with the script's 409 wording and CORS `*` for every outcome |
| VoteCreate.Handler | modules/functions/vote_create/index/function.rb:6-55 | the handler's response is the decision keyed on `voter_id` under the given faults; only the queue changes |
| VoteProcessor.Updated | modules/functions/vote_processor/index/function.rb:12-27 | defines the registry update's ALL_NEW item: `SET` applied to the stored item or to the key-only item |
| VoteProcessor.ApplyRecord | modules/functions/vote_processor/index/function.rb:12-47 | a message lacking a field stops as malformed, one whose `id` the table refuses stops with a rejected key, a failing registry update stops with a service error, all three changing nothing; otherwise the voter entry gets candidate and voted_at (the update comes first); the record succeeds iff its key is accepted, neither call fails, the voter existed with a state and the (state, candidate) row exists; it fails with a service error iff the failing call is reached; on success exactly that count rises by one, on failure Results is unchanged |
| VoteProcessor.ApplyRecords | modules/functions/vote_processor/index/function.rb:8-48 | defines the loop: each record under its fault, in order, until the first that raises; VoteProcessor.ProcessRecords is proved against it and the lemmas below state its properties |
| VoteProcessor.ProcessRecord | modules/functions/vote_processor/index/function.rb:9-47 | one iteration's effect on both tables, under the record's fault, is `ApplyRecord` |
| VoteProcessor.ProcessRecords | modules/functions/vote_processor/index/function.rb:8-48 | the loop applies the records in order, each under its fault, and stops at the first that raises |
| VoteProcessor.StopsAtError | modules/functions/vote_processor/index/function.rb:8-48 | once a record raises, later records change nothing |
| VoteProcessor.Handler | modules/functions/vote_processor/index/function.rb:8-50 | as written: all updates are applied, then the invocation fails with the first record error or, failing that, with the undefined `save_response` |
| VoteProcessor.AsWrittenOutcome | modules/functions/vote_processor/index/function.rb:48-50 | the as-written invocation never succeeds |
| VoteProcessor.EmptyBatchFails | modules/functions/vote_processor/index/function.rb:8-50 | even an empty batch fails |
| VoteProcessor.HandlerCorrected | modules/functions/vote_processor/index/function.rb:8-50 | corrected: same updates, and the invocation fails only when a record fails |
| VoteProcessor.BatchAddsItsSize | modules/functions/vote_processor/index/function.rb:8-48 | a batch that runs to the end raises the sum of all counts by exactly its number of records |
| VoteProcessor.ApplyRecordsAppend | modules/functions/vote_processor/index/function.rb:8-48 | processing `a + b`, with their faults, is processing `a`, then `b` unless `a` stopped |
| VoteProcessor.PrefixFaults | modules/functions/vote_processor/index/function.rb:8-48 | faults listed past the last record change nothing |
| VoteProcessor.ServiceErrorStopsBatch | modules/functions/vote_processor/index/function.rb:8-27 | a service error on a record's registry update stops the batch there with the earlier records applied, and the invocation fails with that error |
| VoteProcessor.ResultsKeysKept | modules/functions/vote_processor/index/function.rb:33-47 | processing never adds or removes a Results row |
| VoteProcessor.ApplyRecordsExtends | modules/functions/vote_processor/index/function.rb:8-48 | a batch that runs cleanly runs cleanly on any tables holding at least the same voters and rows, and processing never removes voters, states or rows |
| VoteProcessor.RedeliveryCountsTwice | modules/functions/vote_processor/index/function.rb:8-48 | a batch delivered again runs cleanly and adds its size to the total a second time |
| VoteProcessor.TwoRecords | modules/functions/vote_processor/index/function.rb:8-48 | a two-record batch is the first record then the second unless the first raised |
| VoteProcessor.SameMessageTwice | modules/functions/vote_processor/index/function.rb:12-47 | the same message processed twice adds two to its count |
| VoteProcessor.StateKept | modules/functions/vote_processor/index/function.rb:12-31 | the registry update keeps the voter's state, so the tally key is the registered state |
| VoteProcessor.CleanIncrements | modules/functions/vote_processor/index/function.rb:30-47 | with the row present, a record adds one to the (state, candidate) count and changes no other count |
| VoteProcessor.RevoteKeepsOldCount | modules/functions/vote_processor/index/function.rb:12-47 | a re-vote for another candidate increments the new pair, leaves the old pair's increment in place, and the voter ends with the new candidate |
| VoteProcessor.CorrectedCountsOnce | modules/functions/vote_processor/index/function.rb:8-50 | a clean batch adds exactly its size, yet the as-written handler still reports failure for it |
| GetResults.StateResults | modules/functions/get_results/index/function.rb:22-24 | defines the selection and mapping of the rows of one state, in scan order; at most one result per row |
| GetResults.SumCounts | modules/functions/get_results/index/function.rb:26 | defines the `inject` sum of the counts; GetResults.SumCountsAppend states its additivity |
| GetResults.Entry | modules/functions/get_results/index/function.rb:21-27 | defines one state's entry: the state, the total of its results, and the results; GetResults.CaliforniaExample and GetResults.AbsentStateIsEmpty give instances |
| GetResults.Summaries | modules/functions/get_results/index/function.rb:21-28 | one entry per listed state, in list order, each the state's results and total |
| GetResults.Handler | modules/functions/get_results/index/function.rb:9-42 | raises iff the scan meets a service error; otherwise status 200, CORS `*`, not base64, exactly 51 entries in `state_array` order, each the entry of its state over a scan of the Results table; the table is only read |
| GetResults.StateResultsAppend | modules/functions/get_results/index/function.rb:22-24 | the selection keeps scan order: the rows of a state in `a + b` are those of `a` followed by those of `b` |
| GetResults.StateResultsSingle | modules/functions/get_results/index/function.rb:22-24 | a single row lands, as `{candidate, count}`, exactly in its own state |
| GetResults.StateResultsFromState | modules/functions/get_results/index/function.rb:22-24 | every result of a state comes from a scanned row with that state |
| GetResults.AbsentStateIsEmpty | modules/functions/get_results/index/function.rb:22-27 | a state with no rows gets total 0 and no results |
| GetResults.SumCountsAppend | modules/functions/get_results/index/function.rb:26 | the total adds over concatenation |
| GetResults.TotalOverStep | modules/functions/get_results/index/function.rb:21-26 | with distinct states, a new row raises exactly the total of its own state, and only if that state is listed |
| GetResults.TotalsPartitionScan | modules/functions/get_results/index/function.rb:21-26 | with distinct states, the totals add up to the counts of exactly the rows whose state is listed: each such row is counted once, the others never |
| GetResults.HandlerTotalsPartitionScan | modules/functions/get_results/index/function.rb:21-26 | the same for the handler's 51 codes |
| GetResults.StateResultsHasRow | modules/functions/get_results/index/function.rb:22-24 | every scanned row of a state is among that state's results |
| GetResults.ScanEntryIsTallies | modules/functions/get_results/index/function.rb:12-27 | over a scan of Results, `{candidate, count}` is among a state's results iff the table holds that count for (state, candidate) |
| GetResults.ScanWithoutLast | modules/functions/get_results/index/function.rb:12-17 | a scan less its last row is a scan of the table less that row |
| GetResults.ScanListedIsTotal | modules/functions/get_results/index/function.rb:12-26 | over a scan of Results whose states are all listed, the listed rows add up to the sum of all counts |
| GetResults.HandlerTotalIsTallyTotal | modules/functions/get_results/index/function.rb:12-26 | when every row's state is one of the 51 codes, the handler's totals add up to the sum of all counts in Results |
| GetResults.CaliforniaExample | modules/functions/get_results/index/function.rb:22-27 | California rows 3 and 7 among others give results in scan order and total 10 |
| PopulateResults.Grid | scripts/populate_results_table.rb:17-19 | defines the pairs in the order of the nested loops; PopulateResults.GridLength, GridAt, GridMembership and GridDistinct state its shape |
| PopulateResults.Row | scripts/populate_results_table.rb:19 | the pairs of a state, one per candidate in list order |
| PopulateResults.Seed | scripts/populate_results_table.rb:28-39 | after the puts a key is present iff it was present or was written; written keys hold 0 whatever they held; failed and unvisited keys keep their value |
| PopulateResults.Populate | scripts/populate_results_table.rb:17-43 | the script attempts every pair in loop order and the table is the seeded table; Voters is unchanged |
| PopulateResults.PopulateState | scripts/populate_results_table.rb:19-41 | the inner loop attempts the five pairs of one state and carries on after a failed put |
| PopulateResults.GridLength | scripts/populate_results_table.rb:17-19 | five attempts per state |
| PopulateResults.GridAt | scripts/populate_results_table.rb:17-19 | states outer, candidates inner: state `i` with candidate `j` is attempt `5i + j` |
| PopulateResults.GridMembership | scripts/populate_results_table.rb:17-19 | a pair is attempted iff its state is listed and its candidate is one of the five |
| PopulateResults.GridDistinct | scripts/populate_results_table.rb:17-19 | with distinct states no pair is attempted twice |
| PopulateResults.CandidatesDistinct | scripts/populate_results_table.rb:10 | the five candidates are distinct |
| PopulateResults.PutsOncePerPair | scripts/populate_results_table.rb:10-19 | 255 attempts, no pair twice, exactly the pairs of the 51 codes and five candidates |
| PopulateResults.SeedingReadiesEveryPair | scripts/populate_results_table.rb:17-41 | after a run without failures every listed pair holds count 0 |
| LoadVoters.Slices | scripts/load_registered_voters.rb:16 | slices hold 1 to 25 voters, all but the last exactly 25, each taken from the list |
| LoadVoters.SlicesFlatten | scripts/load_registered_voters.rb:16 | the slices put back together are the voter list, in order |
| LoadVoters.RequestItems | scripts/load_registered_voters.rb:19-23 | the items of the requests, in order |
| LoadVoters.WriteSlice | scripts/load_registered_voters.rb:19-38 | one put request per voter in order, sent as one batch that writes all or nothing |
| LoadVoters.Load | scripts/load_registered_voters.rb:9-45 | as written: index is 25 per batch that did not raise, skipped is 0, the table is the batches that succeeded applied in order, the loop continues after a failure |
| LoadVoters.LoadCorrected | scripts/load_registered_voters.rb:10-33 | corrected: the counter is the number of voters in the batches that succeeded |
| LoadVoters.ReportedCount | scripts/load_registered_voters.rb:33 | defines the printed counter as written: 25 per batch that did not raise; LoadVoters.ReportedOvercountBound bounds it |
| LoadVoters.LoadedCount | scripts/load_registered_voters.rb:10-33 | defines the number of voters actually written: the sizes of the batches that did not raise; LoadVoters.LoadedCountIsVoterCount relates it to the file |
| LoadVoters.LoadAll | scripts/load_registered_voters.rb:16-33 | defines the Voters table after the batches in order, a raising batch writing nothing; LoadVoters.LoadAllIsPutAll relates it to one put |
| LoadVoters.FullSlicesCountExactly | scripts/load_registered_voters.rb:33 | batches of exactly 25 are counted exactly |
| LoadVoters.ReportedOvercountBound | scripts/load_registered_voters.rb:33-44 | the printed count is at least the voters written and at most 24 more |
| LoadVoters.ReportedOvercountExample | scripts/load_registered_voters.rb:33-44 | 26 voters all written are printed as 50 |
| LoadVoters.AllSucceed | scripts/load_registered_voters.rb:25-33 | with no service error and every voter keyed, every batch succeeds |
| LoadVoters.LoadedAllIsFlatten | scripts/load_registered_voters.rb:25-33 | when every batch succeeds the corrected counter is the number of voters sent |
| LoadVoters.LoadedCountIsVoterCount | scripts/load_registered_voters.rb:10-33 | the corrected counter equals the number of voters in the file when nothing fails |
| LoadVoters.PutAllAppend | scripts/load_registered_voters.rb:25-32 | putting `a` then `b` is putting `a + b` |
| LoadVoters.LoadAllIsPutAll | scripts/load_registered_voters.rb:16-33 | batches that all succeed act as one put of all their voters in order |
| LoadVoters.LoadWithoutFailuresPutsEveryVoter | scripts/load_registered_voters.rb:16-38 | without failures the table ends as if every voter of the file had been put in turn |
| Weighted.Sum | scripts/generate_registered_voters.rb:73-75 | defines the `inject` sum of the weights, from the back; Weighted.SumAppend and Weighted.SumFromFrontAgrees state its properties |
| Weighted.Reaches | scripts/generate_registered_voters.rb:77-80 | defines which key a target chooses: the first whose running sum, its own weight included, is at least the target; Weighted.ReachesUnique and Weighted.ReachesInterval state its properties |
| Weighted.SumAppend | scripts/generate_registered_voters.rb:73-75 | the sum of weights adds over concatenation |
| Weighted.SumFromFrontAgrees | scripts/generate_registered_voters.rb:73-75 | summing from the front gives the same total |
| Weighted.PrefixMonotone | scripts/generate_registered_voters.rb:77-80 | running sums never decrease |
| Weighted.SelectWeighted | scripts/generate_registered_voters.rb:71-81 | returns a key iff the table is non-empty and the target is at most the sum, and then the first key whose running sum (its own weight included) is at least the target |
| Weighted.ReachesUnique | scripts/generate_registered_voters.rb:77-80 | the chosen key is unique |
| Weighted.ReachesInterval | scripts/generate_registered_voters.rb:77-80 | key `i` is chosen exactly for the targets above the sum of the keys before it and at most the sum including it |
| Weighted.TargetInRangeReaches | scripts/generate_registered_voters.rb:71-81 | every target in `[0, sum)` chooses a key |
| Weighted.BoundaryGoesToEarlierKey | scripts/generate_registered_voters.rb:78 | the `<=` test gives each boundary target to the earlier key: with weights 1 and 1 the second key is never chosen over `rand(2)` |
| Weighted.ZeroTargetChoosesFirst | scripts/generate_registered_voters.rb:78 | target 0 always chooses the first key |
| GenerateVoters.StatesVotesTotalsLength | scripts/generate_registered_voters.rb:16-68 | the weight table has 51 entries |
| GenerateVoters.StatesVotesTotalsShape | scripts/generate_registered_voters.rb:12-68 | every weight is positive, the weights add up to 136,669,237, and the sample size is 1,366,692 |
| GenerateVoters.StatesVotesTotalsKeys | scripts/generate_registered_voters.rb:16-68 | the table's keys are exactly the 51 codes of the state list |
| GenerateVoters.SelectState | scripts/generate_registered_voters.rb:71-81 | `select_state` answers for every target up to the national total, with the first state whose running sum reaches it |
| GenerateVoters.CharRange | scripts/generate_registered_voters.rb:87 | `(lo..hi).to_a` holds the consecutive characters from lo to hi |
| GenerateVoters.CharRangeFacts | scripts/generate_registered_voters.rb:87 | a range holds exactly the characters between its ends, in increasing order |
| GenerateVoters.Base58AlphabetSpec | scripts/generate_registered_voters.rb:87 | the alphabet has 58 characters, exactly the ASCII letters and digits other than "0", "O", "I" and "l", in increasing order |
| GenerateVoters.Base58Char | scripts/generate_registered_voters.rb:89-92 | every character produced is in the alphabet |
| GenerateVoters.Base58 | scripts/generate_registered_voters.rb:88-94 | `base58(n)` yields n characters, each in the alphabet |
| GenerateVoters.Base58CharFromByte | scripts/generate_registered_voters.rb:90-92 | `byte % 64` below 58 fixes the character, the redraw only matters otherwise, and the four bytes with the same remainder give the same character |
| GenerateVoters.VoterId | scripts/generate_registered_voters.rb:110 | defines `scan(/.{5}/).join('-')`; GenerateVoters.VoterIdShape states its shape |
| GenerateVoters.VoterIdShape | scripts/generate_registered_voters.rb:110 | 16 characters become three groups of 5 around two dashes: length 17, dashes at 5 and 11, the 16th character dropped |
| GenerateVoters.Voter | scripts/generate_registered_voters.rb:106-112 | the record has the five fields, `state` is the chosen state and `voter_id` the formatted id |
| GenerateVoters.Address | scripts/generate_registered_voters.rb:109 | defines the address text: street, city, state and postcode; GenerateVoters.VoterStateInAddress recovers the state from it |
| GenerateVoters.LastSpace | scripts/generate_registered_voters.rb:109 | the last space of a text, if any, and no space after it |
| GenerateVoters.VoterStateInAddress | scripts/generate_registered_voters.rb:109-111 | the state embedded in the address is the voter's `state` field |
| GenerateVoters.Generate | scripts/generate_registered_voters.rb:101-113 | one voter per draw, in order, each with the state its target chooses |
| GenerateVoters.GenerateOne | scripts/generate_registered_voters.rb:104-113 | one iteration: the state is chosen by the target and the record built from it |
| GenerateVoters.ChosenStateListed | scripts/generate_registered_voters.rb:104-111 | a generated voter's state is one of the 51 listed codes |
| GenerateVoters.GeneratedVoterId | scripts/generate_registered_voters.rb:110 | a generated voter id has 17 characters, dashes at 5 and 11, and base58 characters elsewhere |
| GenerateVotes.StateId | scripts/generate_votes.rb:20 | `raceid[0, 2]` is the first two characters, or all of a shorter id |
| GenerateVotes.Lookup | scripts/generate_votes.rb:24 | a key has a value iff it is one of the hash's keys |
| GenerateVotes.Assign | scripts/generate_votes.rb:24 | assigning an existing key keeps the key order; a new key goes to the end |
| GenerateVotes.AssignLookup | scripts/generate_votes.rb:24 | after `h[k] = v`, `k` maps to `v` and every other key keeps its value |
| GenerateVotes.AssignUnique | scripts/generate_votes.rb:24 | assignment keeps the keys unique |
| GenerateVotes.CandidateTable | scripts/generate_votes.rb:23-25 | a race's candidate table has unique names |
| GenerateVotes.CandidateTableHasName | scripts/generate_votes.rb:23-25 | a name is in the table iff some candidate of the race has it |
| GenerateVotes.CandidateTableLastWins | scripts/generate_votes.rb:23-25 | a name holds the percentage of the last candidate with that name |
| GenerateVotes.LaterDuplicateNameWins | scripts/generate_votes.rb:24 | a later duplicate name overwrites the earlier one |
| GenerateVotes.RacesTableHasState | scripts/generate_votes.rb:17-27 | a state code is in the table iff some non-national race has it |
| GenerateVotes.RacesTableLastWins | scripts/generate_votes.rb:20-21 | a code holds the candidate table of the last race with that code |
| GenerateVotes.NationalRaceSkipped | scripts/generate_votes.rb:18 | the "UNITED STATES" race changes nothing |
| GenerateVotes.RacesTable | scripts/generate_votes.rb:17-27 | defines the races table: the national race skipped, a later race of the same code replacing the earlier table; GenerateVotes.RacesTableHasState and RacesTableLastWins state its properties |
| GenerateVotes.FoldRaces | scripts/generate_votes.rb:17-27 | the loop builds exactly the races table |
| GenerateVotes.FillCandidates | scripts/generate_votes.rb:21-25 | the inner loop fills the state's fresh hash with the race's candidate table and changes no other state |
| GenerateVotes.Vote | scripts/generate_votes.rb:48-49 | the vote has `id` = the voter's `voter_id` and the chosen candidate, and no other field |
| GenerateVotes.ChosenVote | scripts/generate_votes.rb:30-49 | defines the vote for a voter and a target: the candidate the target reaches in the voter's state's table, or no candidate when the target exceeds the sum; GenerateVotes.BuildVotes is proved against it |
| GenerateVotes.VoteFor | scripts/generate_votes.rb:48-49 | the candidate is the one the target chooses from the voter's state's table |
| GenerateVotes.BuildVotes | scripts/generate_votes.rb:47-62 | the run raises at the first voter whose state has no table; otherwise exactly the votes from index 1,000,000 on are queued, `max(0, n - 1,000,000)` of them, each for its voter |
| GenerateVotes.ChosenVoteNamesCandidate | scripts/generate_votes.rb:30-39 | with a target of `rand(sum)` every vote names a candidate of its state's table |
| HealthCheck.Handler | modules/functions/health_check/index/function.rb:9-23 | status 200, not base64, CORS `*` and `Content-Type: application/json`, message "Success from <region> at <time>"; no table or queue is an input; what the region is, is stated by HealthCheck.RegionIsFourthField and HealthCheck.RegionOfArn |
| HealthCheck.Region | modules/functions/health_check/index/function.rb:10 | defines the region as the fourth field of Ruby's split of the ARN on `:`, empty when missing; HealthCheck.RegionIsFourthField and HealthCheck.RegionOfArn state its properties |
| HealthCheck.RegionIsFourthField | modules/functions/health_check/index/function.rb:10 | the region is the fourth `:`-field of the ARN (empty when missing) and holds no `:` |
| HealthCheck.RegionOfArn | modules/functions/health_check/index/function.rb:10 | for `arn:partition:service:region:...` the region is the one written there |
| Pipeline.ProcessedVoterIsRefused | modules/functions/vote_processor/index/function.rb:12-27 | once a voter's message is accepted and its registry update done, vote_enqueuer answers 409 for that id and sends nothing, unless its own lookup fails |
| Pipeline.EndToEndVote | modules/functions/vote_enqueuer/index/function.rb:18-28 | V1 of CA voting for Jill Stein: 201 and one message, processing adds one to (CA, Jill Stein), a second request gets 409 |
| Pipeline.CreateMessagesLackProcessorKey | modules/functions/vote_processor/index/function.rb:22 | vote_create's messages carry no `id`, so the processor rejects them as malformed, whatever the key schema |
| Pipeline.GeneratedVoterLacksId | scripts/generate_registered_voters.rb:106-112 | a generated voter record has no `id` attribute |
| Pipeline.NoKeySchemaServesBoth | scripts/load_registered_voters.rb:19-33 | for records without `id`: on a table keyed by `id` the load writes nothing; on any other key schema every vote_enqueuer request raises and every well-formed message is rejected on its key |
| Pipeline.GeneratedVoteIsKnown | scripts/generate_votes.rb:48 | generated votes use vote_enqueuer's key `id`; on a table keyed by `id`, loaded without failures from records whose `id` equals their `voter_id`, the vote's voter is found: the request does not raise on its key, is not answered 404, and is answered when no call fails |
| Pipeline.SeededTalliesAcceptVotes | scripts/populate_results_table.rb:17-41 | after seeding, an accepted message of a registered voter of a listed state for one of the five candidates is counted without error when no call fails |
| Pipeline.TalliedVotesReachTotals | modules/functions/get_results/index/function.rb:12-27 | from an empty Results table seeded without failures, a batch the processor applies cleanly appears in get_results' totals as exactly its number of votes |

## Left out

- AWS SDK calls: the tables and queue are Dafny state. Table names, regions, profiles and environment variables are not modelled, and neither are DynamoDB attribute types: items hold strings and counts are naturals.
- JSON parsing and serialisation: bodies and responses are records. A JSON `null` is treated like a missing field, as Ruby's `hash['x']` yields nil for both.
- HTTP is left out: the results feed download and the posting of votes through Typhoeus, including the random choice between the two API URLs.
- File I/O is left out, including the checkpoint writes every 100,000 voters. The voter files and the feed are parameters.
- `puts` logging and progress output are left out.
- `Time.now`, `rand`, `SecureRandom`, `random_number`, Faker and `.sample` are parameters: the time, the targets, the bytes, the redraws and the Faker fields.
- Floating point is left out. `SAMPLE_TOTAL_VOTES` (`* 0.01`, then `to_i`) is written as `/ 100`, which gives the same value, 1,366,692. The progress percentage is not modelled.
- Candidate weights (`vpct`) are natural numbers.
- Concurrency and delivery semantics are left out. This covers races between concurrent intake calls, a crash between the processor's two updates, and SQS at-least-once delivery, which appears only as processing a batch twice.
- DynamoDB scan pagination is left out: the get_results scan is one page of rows. Stores.Database.Scan returns the rows in the order of its own choice of keys, which stands for the table's order; the grouping is proved for any order.
- Unprocessed items returned by `batch_write_item` are not modelled, and neither is the rejection of a batch that holds the same voter id twice.
- VoteProcessor.ApplyRecord: a message lacking `id`, `candidate` or `voted_at` is rejected before any update. What DynamoDB does with nil attribute values is not modelled. When a call is both invalid and meets a service error, the model reports the validation error.
- Intake.Decide: a body without the key field, or whose key the table refuses, is modelled as one raise; the Ruby exception class (`NoMethodError`, `ValidationException`) is not distinguished. `merge!` with a body that already holds a `"voted_at"` string field produces that field twice in the JSON, and the later copy wins on parsing; this is modelled as one overwritten field.
- Stores.ScanItem: every scanned row has `state`, `candidate` and `count`. A row without a count, which Ruby reads as `nil.to_i = 0`, is not modelled.
- GenerateVotes.Vote: when `select_candidate` falls through, Ruby puts the whole table into the vote; the model leaves the `candidate` field out. This happens only when the weights sum to 0, where `rand(0)` also returns a float.
- GenerateVotes.StateId: a missing `raceid` (nil) is not modelled.
- GenerateVoters.SelectState: Ruby returns a symbol key; the model returns the code as a string.
- GenerateVoters.Generate: the number of voters (`SAMPLE_TOTAL_VOTES.times`) is the number of draws passed in.
- GenerateVoters.Drawn: the random sources are assumed to deliver values in their ranges: a target in `[0, sum)` and 16 bytes.
- GenerateVoters.VoterStateInAddress: the lemma assumes a postcode without spaces, as Faker's postcodes are.
- The percentage variant of the results aggregator is not part of this model, because it is not in this repository's get_results function.
- The Voters table's key schema is not in the repository, so its key attribute is a parameter. The code does not agree on one: vote_enqueuer and vote_processor key on `id`, vote_create and the loaded records on `voter_id`, and the generated records carry no `id`. Pipeline.NoKeySchemaServesBoth states that no choice serves the loader and the `id`-keyed functions together.
- Pipeline.GeneratedVoteIsKnown: holds only for loaded records that also carry `id` equal to their `voter_id`, which the generator does not write.

## Findings

| source | as written | input that shows it | evidently intended | confidence | as-written member | corrected member |
|---|---|---|---|---|---|---|
| modules/functions/vote_processor/index/function.rb:50 | `save_response` is first assigned inside the `each` block, so it is local to the block and `puts save_response.attributes` raises NameError after the loop | any batch, even an empty one | log the last update and return normally, so that a batch whose records all apply is acknowledged and not delivered again | not executed | VoteProcessor.Handler, VoteProcessor.EmptyBatchFails | VoteProcessor.HandlerCorrected, VoteProcessor.CorrectedCountsOnce |
| scripts/load_registered_voters.rb:33 | `index += 25` for every batch that did not raise, including a shorter last batch, and `index` is printed as "Loaded voters" | 26 voters, no failures: prints 50 | count the voters actually written (`loaded_count` is declared and never used) | not executed | LoadVoters.Load, LoadVoters.ReportedOvercountExample | LoadVoters.LoadCorrected, LoadVoters.LoadedCountIsVoterCount |
