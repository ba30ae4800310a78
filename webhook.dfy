/**
 * The Messenger webhook of app-7.py. A GET request is the platform's
 * subscription check: the configured verify token unlocks the challenge. A
 * POST request carries a page event batch: entries, each with messaging
 * events; every event that holds a text message not echoed back by the page
 * itself is handed, in order, to the bot (which answers and sends the reply
 * to the sender). A malformed batch ends the request with an error.
 */
module Webhook {
  import opened Wrappers

  /** `event["message"]`: its text, when it has one, and whether `is_echo` is truthy. */
  datatype Message = Message(text: Option<string>, isEcho: bool)

  /** One messaging event: `sender.id`, when present, and the message, when present. */
  datatype Event = Event(sender: Option<string>, message: Option<Message>)

  /** One entry of the batch; a missing `messaging` list reads as empty. */
  datatype Entry = Entry(messaging: seq<Event>)

  /** The request body: `object` (here `kind`), when present, and `entry`, read as empty when missing. */
  datatype Body = Body(kind: Option<string>, entries: seq<Entry>)

  datatype Response = Response(body: string, status: int)

  /** One message handed to the bot: the sender id and the text. */
  datatype Dispatch = Dispatch(sender: string, text: string)

  const Ok := Response("OK", 200)
  const Error := Response("Error", 500)
  const Fail := Response("Fail", 403)

  /**
   * The GET handler. A matching token (both may be missing) returns the
   * challenge; a matching token without a challenge returns nothing, which
   * the web framework turns into an internal server error.
   */
  function VerifyWebhook(configured: Option<string>, token: Option<string>, challenge: Option<string>): (r: Response)
    ensures r.status == 200 <==> token == configured && challenge.Some?
    ensures r.status == 200 ==> r.body == challenge.value
    ensures token != configured ==> r == Fail
  {
    if token == configured then
      match challenge
      case Some(c) => Response(c, 200)
      case None => Response("Internal Server Error", 500)
    else Fail
  }

  /** The event is a text message that the page did not send itself. */
  predicate Eligible(e: Event) {
    e.message.Some? && e.message.value.text.Some? && !e.message.value.isEcho
  }

  /** An eligible event without a sender id: reading the id raises and fails the request. */
  predicate Broken(e: Event) {
    Eligible(e) && e.sender.None?
  }

  /** Every event of the batch, entry by entry, in order. */
  function AllEvents(entries: seq<Entry>): seq<Event> {
    if entries == [] then []
    else AllEvents(entries[..|entries| - 1]) + entries[|entries| - 1].messaging
  }

  /** The events of two runs of entries are the events of the first, then those of the second. */
  lemma {:induction false} AllEventsAppend(a: seq<Entry>, b: seq<Entry>)
    ensures AllEvents(a + b) == AllEvents(a) + AllEvents(b)
    decreases |b|
  {
    if b == [] {
      assert a + b == a;
    } else {
      var init := b[..|b| - 1];
      var last := b[|b| - 1].messaging;
      assert (a + b)[..|a + b| - 1] == a + init;
      AllEventsAppend(a, init);
    }
  }

  /** The events of entry `i` sit between those of the entries before it and those after it. */
  lemma AllEventsSplit(entries: seq<Entry>, i: nat)
    requires i < |entries|
    ensures AllEvents(entries) == AllEvents(entries[..i]) + entries[i].messaging + AllEvents(entries[i + 1..])
  {
    assert entries == entries[..i + 1] + entries[i + 1..];
    AllEventsAppend(entries[..i + 1], entries[i + 1..]);
    EntryDone(entries, i);
  }

  /** What the loops have done so far: the messages handed to the bot, and whether the request failed. */
  datatype Outcome = Outcome(dispatched: seq<Dispatch>, failed: bool)

  /** One event processed: skipped, handed to the bot, or the failure that ends the request. */
  function Step(o: Outcome, e: Event): Outcome {
    if o.failed || !Eligible(e) then o
    else if e.sender.None? then Outcome(o.dispatched, true)
    else Outcome(o.dispatched + [Dispatch(e.sender.value, e.message.value.text.value)], false)
  }

  /** The events processed one after the other, starting with nothing handed over. */
  function Run(events: seq<Event>): Outcome {
    if events == [] then Outcome([], false)
    else Step(Run(events[..|events| - 1]), events[|events| - 1])
  }

  lemma RunSnoc(events: seq<Event>, e: Event)
    ensures Run(events + [e]) == Step(Run(events), e)
  {
    assert (events + [e])[..|events|] == events;
  }

  /** Once the request has failed, later events change nothing. */
  lemma {:induction false} RunFailedSticks(events: seq<Event>, more: seq<Event>)
    requires Run(events).failed
    ensures Run(events + more) == Run(events)
    decreases |more|
  {
    if more == [] {
      assert events + more == events;
    } else {
      var init := more[..|more| - 1];
      assert (events + more)[..|events + more| - 1] == events + init;
      RunFailedSticks(events, init);
    }
  }

  /**
   * The independent reading of the filter: the eligible events of the batch
   * that carry a sender id, as messages, in order.
   */
  function Selected(events: seq<Event>): seq<Dispatch> {
    if events == [] then []
    else Picked(events[0]) + Selected(events[1..])
  }

  /** The message an event hands over, if it is eligible and has a sender. */
  function Picked(e: Event): seq<Dispatch> {
    if Eligible(e) && e.sender.Some? then [Dispatch(e.sender.value, e.message.value.text.value)] else []
  }

  lemma {:induction false} SelectedSnoc(events: seq<Event>, e: Event)
    ensures Selected(events + [e]) == Selected(events) + Picked(e)
    decreases |events|
  {
    if events == [] {
      assert [] + [e] == [e];
      assert Selected([e]) == Picked(e) + Selected([]);
    } else {
      var both := events + [e];
      assert both[0] == events[0] && both[1..] == events[1..] + [e];
      SelectedSnoc(events[1..], e);
      assert Selected(both) == Picked(events[0]) + (Selected(events[1..]) + Picked(e));
    }
  }

  /**
   * The request fails exactly when some eligible event has no sender id;
   * otherwise every eligible event is handed to the bot, in order.
   */
  lemma {:induction false} RunMeaning(events: seq<Event>)
    ensures Run(events).failed <==> exists i | 0 <= i < |events| :: Broken(events[i])
    ensures !Run(events).failed ==> Run(events).dispatched == Selected(events)
    decreases |events|
  {
    if events != [] {
      var init := events[..|events| - 1];
      var e := events[|events| - 1];
      assert events == init + [e];
      RunMeaning(init);
      SelectedSnoc(init, e);
      if Run(init).failed {
        var i :| 0 <= i < |init| && Broken(init[i]);
        assert events[i] == init[i];
      } else if Broken(e) {
        assert Broken(events[|events| - 1]);
      } else {
        forall i | 0 <= i < |events| ensures !Broken(events[i]) {
          if i < |init| {
            assert events[i] == init[i];
          }
        }
      }
    }
  }

  /**
   * The first broken event ends the request: the messages before it have
   * been handed over, nothing after it is.
   */
  lemma StopsAtFirstBroken(pre: seq<Event>, e: Event, post: seq<Event>)
    requires forall i :: 0 <= i < |pre| ==> !Broken(pre[i])
    requires Broken(e)
    ensures Run(pre + [e] + post) == Outcome(Selected(pre), true)
  {
    RunMeaning(pre);
    RunSnoc(pre, e);
    RunFailedSticks(pre + [e], post);
  }

  /**
   * The POST handler. Without a JSON body the request fails; a body for
   * another object type is acknowledged and ignored; otherwise the events
   * are walked entry by entry, and each eligible one is handed to the bot
   * (`dispatched`, in order) until an eligible event without a sender id
   * makes the request fail.
   */
  method WebhookPost(body: Option<Body>) returns (dispatched: seq<Dispatch>, resp: Response)
    ensures body.None? ==> dispatched == [] && resp == Error
    ensures body.Some? && body.value.kind != Some("page") ==> dispatched == [] && resp == Ok
    ensures body.Some? && body.value.kind == Some("page") ==>
      dispatched == Run(AllEvents(body.value.entries)).dispatched &&
      resp == if Run(AllEvents(body.value.entries)).failed then Error else Ok
  {
    dispatched := [];
    if body.None? {
      return dispatched, Error;
    }
    var b := body.value;
    if b.kind != Some("page") {
      return dispatched, Ok;
    }
    var i := 0;
    while i < |b.entries|
      invariant 0 <= i <= |b.entries|
      invariant Run(AllEvents(b.entries[..i])) == Outcome(dispatched, false)
    {
      var events := b.entries[i].messaging;
      var done := AllEvents(b.entries[..i]);
      var j := 0;
      assert done + events[..0] == done;
      while j < |events|
        invariant 0 <= j <= |events|
        invariant Run(done + events[..j]) == Outcome(dispatched, false)
      {
        var event := events[j];
        NextEvent(done, events, j);
        if event.message.Some? && event.message.value.text.Some? && !event.message.value.isEcho {
          if event.sender.None? {
            Abandoned(b.entries, i, j, dispatched);
            return dispatched, Error;
          }
          dispatched := dispatched + [Dispatch(event.sender.value, event.message.value.text.value)];
        }
        j := j + 1;
      }
      EntryFinished(b.entries, i, dispatched);
      i := i + 1;
    }
    assert b.entries[..i] == b.entries;
    resp := Ok;
  }

  /** Processing event `j` of an entry extends the run over the events before it by one step. */
  lemma NextEvent(done: seq<Event>, events: seq<Event>, j: nat)
    requires j < |events|
    ensures Run(done + events[..j + 1]) == Step(Run(done + events[..j]), events[j])
  {
    assert done + events[..j + 1] == (done + events[..j]) + [events[j]];
    RunSnoc(done + events[..j], events[j]);
  }

  /** After the last event of entry `i`, the run covers the first `i + 1` entries. */
  lemma EntryFinished(entries: seq<Entry>, i: nat, dispatched: seq<Dispatch>)
    requires i < |entries|
    requires Run(AllEvents(entries[..i]) + entries[i].messaging[..|entries[i].messaging|]) == Outcome(dispatched, false)
    ensures Run(AllEvents(entries[..i + 1])) == Outcome(dispatched, false)
  {
    assert entries[i].messaging[..|entries[i].messaging|] == entries[i].messaging;
    EntryDone(entries, i);
  }

  /** The events of the first `i + 1` entries: those of the first `i`, then entry `i`'s. */
  lemma EntryDone(entries: seq<Entry>, i: nat)
    requires i < |entries|
    ensures AllEvents(entries[..i + 1]) == AllEvents(entries[..i]) + entries[i].messaging
  {
    assert entries[..i + 1][..i] == entries[..i];
  }

  /** A failure at event `j` of entry `i` is the outcome of the whole batch. */
  lemma Abandoned(entries: seq<Entry>, i: nat, j: nat, dispatched: seq<Dispatch>)
    requires i < |entries| && j < |entries[i].messaging|
    requires Run(AllEvents(entries[..i]) + entries[i].messaging[..j + 1]) == Outcome(dispatched, true)
    ensures Run(AllEvents(entries)) == Outcome(dispatched, true)
  {
    var events := entries[i].messaging;
    var upto := AllEvents(entries[..i]) + events[..j + 1];
    AllEventsSplit(entries, i);
    assert events == events[..j + 1] + events[j + 1..];
    assert AllEvents(entries) == upto + (events[j + 1..] + AllEvents(entries[i + 1..]));
    RunFailedSticks(upto, events[j + 1..] + AllEvents(entries[i + 1..]));
  }
}
