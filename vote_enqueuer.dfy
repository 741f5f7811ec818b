/** The `vote_enqueuer` Lambda: the intake handler keyed on the request's
    `id` field, answering with the website's origin as its CORS origin. */
module VoteEnqueuer {
  import opened Common
  import opened Stores
  import Intake

  const KeyField := "id"

  function Config(websiteDomain: string): Intake.Variant
  {
    Intake.Variant(KeyField, "https://" + websiteDomain, " already submitted a vote at ")
  }

  /** The response for each of the three cases, with the exact messages,
      and the raise when the `id` field is missing or the table refuses its
      value as a key. */
  function Respond(keyAttr: string, voters: map<string, Item>, body: Item, now: string, websiteDomain: string, faults: Intake.Faults): (r: Intake.Outcome)
    ensures !(KeyField in body && KeyAccepted(keyAttr, KeyField, body[KeyField])) ==> r == Intake.Raised(KeyField)
    ensures KeyField in body && KeyAccepted(keyAttr, KeyField, body[KeyField]) && faults.lookupFails ==> r == Intake.Unavailable
    ensures KeyField in body && KeyAccepted(keyAttr, KeyField, body[KeyField]) && !faults.lookupFails ==> var id := body[KeyField]; var cors := [(AllowOriginHeader, "https://" + websiteDomain)];
      && (id !in voters ==>
            r == Intake.Responded(Response(false, 404, cors, Intake.Body(false, "This voter id does not exist: " + id)), []))
      && (id in voters && VotedAtAttr !in voters[id] ==>
            r == if faults.sendFails then Intake.Unavailable
                 else Intake.Responded(Response(false, 201, cors, Intake.Body(true, "Vote " + id + " registered")), [body[VotedAtAttr := now]]))
      && (id in voters && VotedAtAttr in voters[id] ==>
            r == Intake.Responded(Response(false, 409, cors,
                   Intake.Body(false, id + " already submitted a vote at " + voters[id][VotedAtAttr])), []))
  {
    Intake.Decide(Config(websiteDomain), keyAttr, voters, body, now, faults)
  }

  /** The enqueued message keeps every field of the request (id and
      candidate among them) and adds the submission time. */
  lemma EnqueuedMessage(keyAttr: string, voters: map<string, Item>, body: Item, now: string, websiteDomain: string)
    requires KeyField in body && KeyAccepted(keyAttr, KeyField, body[KeyField])
    requires body[KeyField] in voters && VotedAtAttr !in voters[body[KeyField]]
    ensures var r := Respond(keyAttr, voters, body, now, websiteDomain, Intake.NoFaults);
      && r.Responded? && |r.sent| == 1
      && r.sent[0].Keys == body.Keys + {VotedAtAttr}
      && r.sent[0][VotedAtAttr] == now
      && (forall f :: f in body && f != VotedAtAttr ==> r.sent[0][f] == body[f])
  {
  }

  method Handler(db: Database, queue: VoteQueue, body: Item, now: string, websiteDomain: string, faults: Intake.Faults) returns (r: Intake.Outcome)
    modifies queue
    ensures r == Respond(db.keyAttr, db.voters, body, now, websiteDomain, faults)
    ensures queue.messages == old(queue.messages) + (if r.Responded? then r.sent else [])
  {
    r := Intake.Handle(Config(websiteDomain), db, queue, body, now, faults);
  }
}
