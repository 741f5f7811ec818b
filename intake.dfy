/** The eligibility decision shared by the two intake handlers: look the
    voter up in the Voters table and answer 404 (unknown voter), 409 (already
    voted) or 201 (one vote message enqueued, the request body plus
    `voted_at`). The handlers differ only in the request field used as the
    key, the CORS origin and the wording of the 409 message. */
module Intake {
  import opened Common
  import opened Stores

  /** What distinguishes one deployment of the handler from the other. */
  datatype Variant = Variant(keyField: string, allowOrigin: string, alreadyVotedText: string)

  /** The JSON body of the response: `{success, message}`. */
  datatype Body = Body(success: bool, message: string)

  /** Which SDK calls of one invocation meet a service error: the
      `get_item` lookup, and the `send_message` of the 201 path. */
  datatype Faults = Faults(lookupFails: bool, sendFails: bool)

  const NoFaults := Faults(false, false)

  /** Either a response together with the bodies published to the queue, or
      the request raised before responding. `Raised`: `get_item` rejects the
      key built from the field when the body lacks it (a nil key), when its
      value is empty, or when the field is not the table's key attribute.
      `Unavailable`: `get_item` or `send_message` failed with a service
      error, and nothing was sent. */
  datatype Outcome =
    | Raised(keyField: string)
    | Unavailable
    | Responded(response: Response<Body>, sent: seq<Item>)

  /** Whether `get_item` accepts the key the handler builds from the body. */
  predicate Lookable(v: Variant, keyAttr: string, body: Item)
  {
    v.keyField in body && KeyAccepted(keyAttr, v.keyField, body[v.keyField])
  }

  function Reply(v: Variant, status: nat, body: Body, sent: seq<Item>): Outcome
  {
    Responded(Response(false, status, [(AllowOriginHeader, v.allowOrigin)], body), sent)
  }

  /** The handler's decision as a function of the Voters table (its key
      attribute and its entries), the parsed request body and the current
      time, under the given service faults. The lookup raises when the key
      field is missing, is not the table's key attribute, or is empty; a
      faulty lookup, or a faulty send on the 201 path, raises too. */
  function Decide(v: Variant, keyAttr: string, voters: map<string, Item>, body: Item, now: string, faults: Faults): (r: Outcome)
    ensures r.Raised? <==> !Lookable(v, keyAttr, body)
    ensures r.Raised? ==> r.keyField == v.keyField
    ensures r.Unavailable? <==>
      && Lookable(v, keyAttr, body)
      && (faults.lookupFails || (faults.sendFails && body[v.keyField] in voters && VotedAtAttr !in voters[body[v.keyField]]))
    ensures r.Responded? ==> var id := body[v.keyField];
      && r.response.isBase64Encoded == false
      && r.response.headers == [(AllowOriginHeader, v.allowOrigin)]
      && (r.response.statusCode == 404 <==> id !in voters)
      && (r.response.statusCode == 201 <==> id in voters && VotedAtAttr !in voters[id])
      && (r.response.statusCode == 409 <==> id in voters && VotedAtAttr in voters[id])
      && (r.response.body.success <==> r.response.statusCode == 201)
      && (r.response.statusCode == 201 ==> r.sent == [body[VotedAtAttr := now]])
      && (r.response.statusCode != 201 ==> r.sent == [])
  {
    if !Lookable(v, keyAttr, body) then Raised(v.keyField)
    else if faults.lookupFails then Unavailable
    else
      var id := body[v.keyField];
      match Get(voters, id)
      case Some(item) =>
        if VotedAtAttr !in item then
          if faults.sendFails then Unavailable
          else Reply(v, 201, Body(true, "Vote " + id + " registered"), [body[VotedAtAttr := now]])
        else
          Reply(v, 409, Body(false, id + v.alreadyVotedText + item[VotedAtAttr]), [])
      case None =>
        Reply(v, 404, Body(false, "This voter id does not exist: " + id), [])
  }

  /** The decision reads one entry of the table: two tables that agree on the
      requested key give the same outcome. */
  lemma DecisionIsLocal(v: Variant, keyAttr: string, voters1: map<string, Item>, voters2: map<string, Item>, body: Item, now: string, faults: Faults)
    requires v.keyField in body
    requires Get(voters1, body[v.keyField]) == Get(voters2, body[v.keyField])
    ensures Decide(v, keyAttr, voters1, body, now, faults) == Decide(v, keyAttr, voters2, body, now, faults)
  {
  }

  /** The handler as it runs: `get_item`, the decision, and on the 201 path
      one `send_message`. It changes nothing but the queue. */
  method Handle(v: Variant, db: Database, queue: VoteQueue, body: Item, now: string, faults: Faults) returns (r: Outcome)
    modifies queue
    ensures r == Decide(v, db.keyAttr, db.voters, body, now, faults)
    ensures queue.messages == old(queue.messages) + (if r.Responded? then r.sent else [])
  {
    if v.keyField !in body {
      return Raised(v.keyField);
    }
    var id := body[v.keyField];
    var status, item := db.GetVoter(v.keyField, id, faults.lookupFails);
    if status == Invalid {
      return Raised(v.keyField);
    } else if status == ServiceFailed {
      return Unavailable;
    }
    if item.Some? && VotedAtAttr !in item.value {
      var message := body[VotedAtAttr := now];
      var sent := queue.SendMessage(message, faults.sendFails);
      if !sent {
        return Unavailable;
      }
      r := Reply(v, 201, Body(true, "Vote " + id + " registered"), [message]);
    } else if item.Some? {
      r := Reply(v, 409, Body(false, id + v.alreadyVotedText + item.value[VotedAtAttr]), []);
    } else {
      r := Reply(v, 404, Body(false, "This voter id does not exist: " + id), []);
    }
  }
}
