/** The external stores the handlers and scripts talk to: the two DynamoDB
    tables and the SQS vote queue, as Dafny state. Each method stands for one
    SDK call and states the effect that call has on the store. A call can
    fail with a service error (exceeded throughput, an outage); which calls
    fail is a parameter, and a failed call reads and writes nothing. */
module Stores {
  import opened Common

  const IdAttr := "id"
  const VoterIdAttr := "voter_id"
  const StateAttr := "state"
  const CandidateAttr := "candidate"
  const VotedAtAttr := "voted_at"

  /** `SET #C = :c, #VA = :va` on an item: candidate and voted_at take the new
      values and every other attribute is kept. */
  function SetVote(item: Item, candidate: string, votedAt: string): (r: Item)
    ensures r.Keys == item.Keys + {CandidateAttr, VotedAtAttr}
    ensures r[CandidateAttr] == candidate && r[VotedAtAttr] == votedAt
    ensures forall a :: a in item && a != CandidateAttr && a != VotedAtAttr ==> r[a] == item[a]
  {
    item[CandidateAttr := candidate][VotedAtAttr := votedAt]
  }

  /** Whether DynamoDB accepts the key `{name: value}` on the Voters table,
      whose key attribute is `keyAttr`: the name must be the table's key
      attribute and the value a non-empty string. Otherwise the call raises
      a validation error before reading or writing anything. */
  predicate KeyAccepted(keyAttr: string, name: string, value: string)
  {
    name == keyAttr && value != ""
  }

  /** How a call that names a Voters key ends. Validation comes first: a
      request the table refuses is refused whatever its capacity; otherwise
      the call succeeds unless it meets a service error. */
  datatype CallStatus = Succeeded | Invalid | ServiceFailed

  function KeyedCall(keyAttr: string, name: string, value: string, serviceError: bool): (s: CallStatus)
    ensures s == Invalid <==> !KeyAccepted(keyAttr, name, value)
    ensures s == ServiceFailed <==> KeyAccepted(keyAttr, name, value) && serviceError
  {
    if !KeyAccepted(keyAttr, name, value) then Invalid
    else if serviceError then ServiceFailed
    else Succeeded
  }

  /** The item `update_item` starts from: the stored one, or, since an update
      of a missing key creates the item, one holding only the key. */
  function ItemOrKey(voters: map<string, Item>, keyAttr: string, id: string): (r: Item)
    ensures id in voters ==> r == voters[id]
    ensures id !in voters ==> r == map[keyAttr := id]
  {
    if id in voters then voters[id] else map[keyAttr := id]
  }

  /** Every item of a batch carries the table's key attribute, with a
      non-empty value. */
  predicate Keyed(items: seq<Item>, keyAttr: string)
  {
    forall i :: 0 <= i < |items| ==> keyAttr in items[i] && items[i][keyAttr] != ""
  }

  /** The key values of a batch. */
  function KeysOfBatch(items: seq<Item>, keyAttr: string): (ks: set<string>)
    requires Keyed(items, keyAttr)
    ensures forall i :: 0 <= i < |items| ==> items[i][keyAttr] in ks
    decreases |items|
  {
    if items == [] then {}
    else
      var init := items[..|items| - 1];
      assert forall i :: 0 <= i < |items| - 1 ==> init[i] == items[i];
      KeysOfBatch(init, keyAttr) + {items[|items| - 1][keyAttr]}
  }

  /** Every key of a batch is the key of one of its items. */
  lemma {:induction false} KeysOfBatchFrom(items: seq<Item>, keyAttr: string, k: string)
    requires Keyed(items, keyAttr) && k in KeysOfBatch(items, keyAttr)
    ensures exists i :: 0 <= i < |items| && items[i][keyAttr] == k
    decreases |items|
  {
    var init := items[..|items| - 1];
    assert forall i :: 0 <= i < |items| - 1 ==> init[i] == items[i];
    if k != items[|items| - 1][keyAttr] {
      KeysOfBatchFrom(init, keyAttr, k);
    }
  }

  /** The Voters table after putting each item in turn under its key. Its
      keys are the old ones and those of the batch; PutAllLast and
      PutAllUntouched give the values. */
  function PutAll(voters: map<string, Item>, keyAttr: string, items: seq<Item>): (r: map<string, Item>)
    requires Keyed(items, keyAttr)
    ensures r.Keys == voters.Keys + KeysOfBatch(items, keyAttr)
    decreases |items|
  {
    if items == [] then voters
    else
      var init := items[..|items| - 1];
      assert forall i :: 0 <= i < |items| - 1 ==> init[i] == items[i];
      PutAll(voters, keyAttr, init)[items[|items| - 1][keyAttr] := items[|items| - 1]]
  }

  /** No later item of the batch has the same key as item i. */
  predicate LastWithKey(items: seq<Item>, keyAttr: string, i: nat)
    requires Keyed(items, keyAttr) && i < |items|
  {
    forall j :: i < j < |items| ==> items[j][keyAttr] != items[i][keyAttr]
  }

  /** A put item is stored: each key of the batch holds the last item with
      that key. */
  lemma {:induction false} PutAllLast(voters: map<string, Item>, keyAttr: string, items: seq<Item>, i: nat)
    requires Keyed(items, keyAttr) && i < |items| && LastWithKey(items, keyAttr, i)
    ensures PutAll(voters, keyAttr, items)[items[i][keyAttr]] == items[i]
    decreases |items|
  {
    if i < |items| - 1 {
      var init := items[..|items| - 1];
      var last := items[|items| - 1];
      assert Keyed(init, keyAttr) by {
        assert forall j :: 0 <= j < |init| ==> init[j] == items[j];
      }
      assert init[i] == items[i];
      assert LastWithKey(init, keyAttr, i) by {
        forall j | i < j < |init| ensures init[j][keyAttr] != init[i][keyAttr] {
          assert init[j] == items[j];
        }
      }
      PutAllLast(voters, keyAttr, init, i);
      assert last[keyAttr] != items[i][keyAttr];
      assert PutAll(voters, keyAttr, items) == PutAll(voters, keyAttr, init)[last[keyAttr] := last];
    }
  }

  /** An entry whose key the batch does not hold keeps its item. */
  lemma {:induction false} PutAllUntouched(voters: map<string, Item>, keyAttr: string, items: seq<Item>, k: string)
    requires Keyed(items, keyAttr) && k in voters
    requires forall i :: 0 <= i < |items| ==> items[i][keyAttr] != k
    ensures PutAll(voters, keyAttr, items)[k] == voters[k]
    decreases |items|
  {
    if items != [] {
      var init := items[..|items| - 1];
      assert forall j :: 0 <= j < |items| - 1 ==> init[j] == items[j];
      PutAllUntouched(voters, keyAttr, init, k);
    }
  }

  /** A scanned Results row with the three attributes the scan asks for. */
  datatype ScanItem = ScanItem(state: string, candidate: string, count: int)

  function RowKey(x: ScanItem): TallyKey
  {
    (x.state, x.candidate)
  }

  /** Whether `rows` is what a scan of the Results table returns, in some
      order: one row per (state, candidate) key of the table, each carrying
      that key's count. */
  predicate ScanOf(rows: seq<ScanItem>, results: map<TallyKey, nat>)
  {
    && (forall i, j :: 0 <= i < j < |rows| ==> RowKey(rows[i]) != RowKey(rows[j]))
    && (forall i :: 0 <= i < |rows| ==> RowKey(rows[i]) in results && rows[i].count == results[RowKey(rows[i])])
    && (forall k :: k in results ==> exists i :: 0 <= i < |rows| && RowKey(rows[i]) == k)
  }

  /** The sum of all counts in the Results table. */
  ghost function Total(m: map<TallyKey, nat>): nat
    decreases |m|
  {
    if m == map[] then 0
    else
      var k :| k in m;
      assert |m - {k}| < |m| by { RemoveShrinks(m, k); }
      m[k] + Total(m - {k})
  }

  lemma RemoveShrinks<V>(m: map<TallyKey, V>, k: TallyKey)
    requires k in m
    ensures |m - {k}| == |m| - 1
  {
    assert (m - {k}).Keys == m.Keys - {k};
    assert |m.Keys - {k}| == |m.Keys| - 1;
  }

  lemma {:induction false} TotalRemove(m: map<TallyKey, nat>, k: TallyKey)
    requires k in m
    ensures Total(m) == m[k] + Total(m - {k})
    decreases |m|
  {
    var j :| j in m && Total(m) == m[j] + Total(m - {j});
    if j != k {
      RemoveShrinks(m, j);
      RemoveShrinks(m, k);
      TotalRemove(m - {j}, k);
      TotalRemove(m - {k}, j);
      assert m - {j} - {k} == m - {k} - {j};
    }
  }

  /** A table whose counts are all zero has total zero. */
  lemma {:induction false} TotalZero(m: map<TallyKey, nat>)
    requires forall k :: k in m ==> m[k] == 0
    ensures Total(m) == 0
    decreases |m|
  {
    if m != map[] {
      var k :| k in m;
      TotalRemove(m, k);
      RemoveShrinks(m, k);
      TotalZero(m - {k});
    }
  }

  /** Adding one to a single count adds one to the total. */
  lemma TotalIncrement(m: map<TallyKey, nat>, k: TallyKey)
    requires k in m
    ensures Total(m[k := m[k] + 1]) == Total(m) + 1
  {
    var m' := m[k := m[k] + 1];
    TotalRemove(m, k);
    TotalRemove(m', k);
    assert m' - {k} == m - {k};
  }

  /** The DynamoDB tables: Voters, whose key attribute is `keyAttr`, maps
      each key value to its item; Results is keyed by (state, candidate) and
      holds the `count` attribute. */
  class Database {
    const keyAttr: string
    var voters: map<string, Item>
    var results: map<TallyKey, nat>

    constructor (keyAttr: string, voters: map<string, Item>, results: map<TallyKey, nat>)
      ensures this.keyAttr == keyAttr && this.voters == voters && this.results == results
    {
      this.keyAttr := keyAttr;
      this.voters := voters;
      this.results := results;
    }

    /** `get_item` on Voters with the key `{name: id}`: raises unless the
        key is accepted and no service error occurs, and otherwise returns
        the stored item, or none. */
    method GetVoter(name: string, id: string, serviceError: bool) returns (status: CallStatus, item: Option<Item>)
      ensures status == KeyedCall(keyAttr, name, id, serviceError)
      ensures item == if status == Succeeded then Get(voters, id) else None
    {
      status := KeyedCall(keyAttr, name, id, serviceError);
      item := if status == Succeeded then Get(voters, id) else None;
    }

    /** `update_item` on Voters with `SET #C = :c, #VA = :va` and
        `return_values: ALL_NEW`: creates the item when the key is absent and
        returns all attributes after the update. The call raises, and
        writes nothing, unless the key `{name: id}` is accepted and no
        service error occurs. */
    method UpdateVote(name: string, id: string, candidate: string, votedAt: string, serviceError: bool)
      returns (status: CallStatus, attributes: Item)
      modifies this
      ensures status == KeyedCall(keyAttr, name, id, serviceError)
      ensures status == Succeeded ==> attributes == SetVote(ItemOrKey(old(voters), keyAttr, id), candidate, votedAt)
      ensures voters == if status == Succeeded then old(voters)[id := attributes] else old(voters)
      ensures results == old(results)
    {
      status := KeyedCall(keyAttr, name, id, serviceError);
      attributes := map[];
      if status == Succeeded {
        attributes := SetVote(ItemOrKey(voters, keyAttr, id), candidate, votedAt);
        voters := voters[id := attributes];
      }
    }

    /** `update_item` on Results with `SET #C = #C + :a`, `:a` = 1. DynamoDB
        rejects the expression when the row, and so its count, is missing;
        otherwise a service error makes the call fail. */
    method IncrementCount(key: TallyKey, serviceError: bool) returns (status: CallStatus)
      modifies this
      ensures status == if key !in old(results) then Invalid else if serviceError then ServiceFailed else Succeeded
      ensures results == if status == Succeeded then old(results)[key := old(results)[key] + 1] else old(results)
      ensures voters == old(voters)
    {
      status := if key !in results then Invalid else if serviceError then ServiceFailed else Succeeded;
      if status == Succeeded {
        results := results[key := results[key] + 1];
      }
    }

    /** `put_item` on Results: the row is replaced whatever it held. */
    method PutResult(key: TallyKey, count: nat)
      modifies this
      ensures results == old(results)[key := count]
      ensures voters == old(voters)
    {
      results := results[key := count];
    }

    /** `batch_write_item` of put requests on Voters. The call raises, and
        writes nothing, on a service error or when an item lacks the key
        attribute or holds an empty key. */
    method BatchWriteVoters(items: seq<Item>, serviceError: bool) returns (ok: bool)
      modifies this
      ensures ok == (!serviceError && Keyed(items, keyAttr))
      ensures voters == if ok then PutAll(old(voters), keyAttr, items) else old(voters)
      ensures results == old(results)
    {
      ok := !serviceError && Keyed(items, keyAttr);
      if ok {
        voters := PutAll(voters, keyAttr, items);
      }
    }

    /** `scan` of Results for `state`, `candidate` and `count`: every row,
        once, in an order the table chooses; a service error raises. */
    method Scan(serviceError: bool) returns (ok: bool, rows: seq<ScanItem>)
      ensures ok == !serviceError
      ensures ok ==> ScanOf(rows, results)
      ensures !ok ==> rows == []
    {
      ok := !serviceError;
      rows := [];
      if !ok {
        return;
      }
      var rest := results;
      while rest != map[]
        invariant ScannedSoFar(rows, rest, results)
        decreases |rest|
      {
        var k :| k in rest;
        RemoveShrinks(rest, k);
        ScanStep(rows, rest, results, k);
        rows := rows + [ScanItem(k.0, k.1, rest[k])];
        rest := rest - {k};
      }
    }
  }

  /** The rows returned so far cover the keys not left in `rest`, each once
      and with its count, and `rest` is the rest of the table. */
  predicate ScannedSoFar(rows: seq<ScanItem>, rest: map<TallyKey, nat>, results: map<TallyKey, nat>)
  {
    && rest.Keys <= results.Keys
    && (forall k :: k in rest ==> rest[k] == results[k])
    && (forall i :: 0 <= i < |rows| ==>
          RowKey(rows[i]) in results && RowKey(rows[i]) !in rest && rows[i].count == results[RowKey(rows[i])])
    && (forall i, j :: 0 <= i < j < |rows| ==> RowKey(rows[i]) != RowKey(rows[j]))
    && (forall k :: k in results && k !in rest ==> exists i :: 0 <= i < |rows| && RowKey(rows[i]) == k)
  }

  lemma ScanStep(rows: seq<ScanItem>, rest: map<TallyKey, nat>, results: map<TallyKey, nat>, k: TallyKey)
    requires ScannedSoFar(rows, rest, results) && k in rest
    ensures ScannedSoFar(rows + [ScanItem(k.0, k.1, rest[k])], rest - {k}, results)
  {
    var rows' := rows + [ScanItem(k.0, k.1, rest[k])];
    assert RowKey(rows'[|rows|]) == k;
    forall k' | k' in results && k' !in rest - {k}
      ensures exists i :: 0 <= i < |rows'| && RowKey(rows'[i]) == k'
    {
      if k' != k {
        var i :| 0 <= i < |rows| && RowKey(rows[i]) == k';
        assert rows'[i] == rows[i];
      }
    }
  }

  /** The SQS vote queue: the bodies sent so far, oldest first. */
  class VoteQueue {
    var messages: seq<Item>

    constructor ()
      ensures messages == []
    {
      messages := [];
    }

    /** `send_message`: appends one body, unless a service error makes the
        call raise. */
    method SendMessage(body: Item, serviceError: bool) returns (ok: bool)
      modifies this
      ensures ok == !serviceError
      ensures messages == old(messages) + (if ok then [body] else [])
    {
      ok := !serviceError;
      if ok {
        messages := messages + [body];
      }
    }
  }
}
