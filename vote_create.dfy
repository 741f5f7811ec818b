/** The `vote_create` Lambda: the intake handler keyed on the request's
    `voter_id` field, answering with the CORS origin `*`. */
module VoteCreate {
  import opened Common
  import opened Stores
  import Intake

  const KeyField := "voter_id"

  const Config := Intake.Variant(KeyField, "*", " submitted at vote at ")

  /** The response for each of the three cases, with the exact messages
      (the 409 wording is the script's own), and the raise when the
      `voter_id` field is missing or the table refuses its value as a key. */
  function Respond(keyAttr: string, voters: map<string, Item>, body: Item, now: string, faults: Intake.Faults): (r: Intake.Outcome)
    ensures !(KeyField in body && KeyAccepted(keyAttr, KeyField, body[KeyField])) ==> r == Intake.Raised(KeyField)
    ensures KeyField in body && KeyAccepted(keyAttr, KeyField, body[KeyField]) && faults.lookupFails ==> r == Intake.Unavailable
    ensures KeyField in body && KeyAccepted(keyAttr, KeyField, body[KeyField]) && !faults.lookupFails ==> var id := body[KeyField]; var cors := [(AllowOriginHeader, "*")];
      && (id !in voters ==>
            r == Intake.Responded(Response(false, 404, cors, Intake.Body(false, "This voter id does not exist: " + id)), []))
      && (id in voters && VotedAtAttr !in voters[id] ==>
            r == if faults.sendFails then Intake.Unavailable
                 else Intake.Responded(Response(false, 201, cors, Intake.Body(true, "Vote " + id + " registered")), [body[VotedAtAttr := now]]))
      && (id in voters && VotedAtAttr in voters[id] ==>
            r == Intake.Responded(Response(false, 409, cors,
                   Intake.Body(false, id + " submitted at vote at " + voters[id][VotedAtAttr])), []))
  {
    Intake.Decide(Config, keyAttr, voters, body, now, faults)
  }

  method Handler(db: Database, queue: VoteQueue, body: Item, now: string, faults: Intake.Faults) returns (r: Intake.Outcome)
    modifies queue
    ensures r == Respond(db.keyAttr, db.voters, body, now, faults)
    ensures queue.messages == old(queue.messages) + (if r.Responded? then r.sent else [])
  {
    r := Intake.Handle(Config, db, queue, body, now, faults);
  }
}
