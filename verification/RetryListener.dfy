// AbstractRocketMQListener: handling a batch with early return on failure, and
// the broker delivering it again with every reconsumeTimes one higher.
module RetryListener {
  import opened Results

  datatype Message = Message(id: nat, reconsumeTimes: int)

  // What messageProcessor.beforeHandle does; a throw counts as true.
  datatype Verdict = Proceed | Skip | Throws

  // The code outside: for each position in the batch and each delivery, what
  // beforeHandle does and whether conversion and handling succeed.
  datatype World = World(before: (nat, nat) -> Verdict, succeeds: (nat, nat) -> bool)

  datatype Outcome = Skipped | Handled | ToErrorHandler | Thrown

  datatype Event = Event(id: nat, outcome: Outcome)

  datatype Status = Success | TryAgain

  function OutcomeOf(m: Message, w: World, position: nat, delivery: nat, max: int): Outcome {
    if w.before(position, delivery) == Skip then Skipped
    else if w.succeeds(position, delivery) then Handled
    else if m.reconsumeTimes < max then Thrown
    else ToErrorHandler
  }

  // One delivery: what happens to the messages up to the first that throws.
  function Consumed(msgs: seq<Message>, w: World, position: nat, delivery: nat, max: int): seq<Event>
    requires position <= |msgs|
    decreases |msgs| - position
  {
    if position == |msgs| then []
    else
      var o := OutcomeOf(msgs[position], w, position, delivery, max);
      [Event(msgs[position].id, o)] + if o == Thrown then [] else Consumed(msgs, w, position + 1, delivery, max)
  }

  predicate AnyThrown(events: seq<Event>) {
    exists k :: 0 <= k < |events| && events[k].outcome == Thrown
  }

  class Listener {
    // annotation or properties
    const configured: int
    var maxReconsumeTimes: Option<int>
    var events: seq<Event>

    constructor (configured: int)
      ensures this.configured == configured && maxReconsumeTimes == None && events == []
    {
      this.configured := configured;
      maxReconsumeTimes := None;
      events := [];
    }

    ghost predicate Valid()
      reads this
    {
      maxReconsumeTimes.Some? ==> maxReconsumeTimes.value == configured
    }

    method GetMaxReconsumeTimes() returns (max: int)
      requires Valid()
      modifies `maxReconsumeTimes
      ensures Valid() && max == configured
    {
      if maxReconsumeTimes == None {
        maxReconsumeTimes := Some(configured);
      }
      return maxReconsumeTimes.value;
    }

    method OnMessage(message: Message, w: World, position: nat, delivery: nat) returns (thrown: bool)
      requires Valid()
      modifies this
      ensures Valid()
      ensures var o := OutcomeOf(message, w, position, delivery, configured);
              thrown == (o == Thrown) && events == old(events) + [Event(message.id, o)]
    {
      var go := w.before(position, delivery) != Skip;
      if !go {
        events := events + [Event(message.id, Skipped)];
        return false;
      }
      if w.succeeds(position, delivery) {
        events := events + [Event(message.id, Handled)];
        return false;
      }
      var max := GetMaxReconsumeTimes();
      if message.reconsumeTimes < max {
        events := events + [Event(message.id, Thrown)];
        return true;
      }
      events := events + [Event(message.id, ToErrorHandler)];
      return false;
    }

    // Both consumeMessage methods; they differ only in the names of the statuses.
    method ConsumeMessage(msgs: seq<Message>, w: World, delivery: nat) returns (status: Status)
      requires Valid()
      modifies this
      ensures Valid()
      ensures events == old(events) + Consumed(msgs, w, 0, delivery, configured)
      ensures status == if AnyThrown(Consumed(msgs, w, 0, delivery, configured)) then TryAgain else Success
    {
      hide OutcomeOf, AnyThrown, Consumed;
      ghost var all := Consumed(msgs, w, 0, delivery, configured);
      ghost var done: seq<Event> := [];
      NoneThrown(all);
      for i := 0 to |msgs|
        invariant Valid() && events == old(events) + done
        invariant done + Consumed(msgs, w, i, delivery, configured) == all && !AnyThrown(done)
      {
        ConsumedStep(msgs, w, i, delivery, configured, done);
        var thrown := OnMessage(msgs[i], w, i, delivery);
        done := done + [Event(msgs[i].id, OutcomeOf(msgs[i], w, i, delivery, configured))];
        if thrown {
          return TryAgain;
        }
      }
      ConsumedEnd(msgs, w, delivery, configured, done);
      return Success;
    }

    // The broker: deliver until the listener reports success.
    method Deliver(msgs: seq<Message>, w: World) returns (last: nat)
      requires Valid()
      modifies this
      ensures Valid() && last <= Bound(msgs, configured)
      ensures events == old(events) + AllEvents(msgs, w, configured, last + 1)
      ensures !AnyThrown(Consumed(Raised(msgs, last), w, 0, last, configured))
    {
      hide Consumed, AnyThrown;
      last := 0;
      while true
        invariant Valid() && last <= Bound(msgs, configured)
        invariant events == old(events) + AllEvents(msgs, w, configured, last)
        decreases Bound(msgs, configured) - last
      {
        var status := ConsumeMessage(Raised(msgs, last), w, last);
        if status.Success? {
          return;
        }
        Bounded(msgs, w, configured, last);
        last := last + 1;
      }
    }
  }

  lemma NoneThrown(events: seq<Event>)
    ensures [] + events == events && !AnyThrown([])
  {}

  lemma ConsumedEnd(msgs: seq<Message>, w: World, delivery: nat, max: int, done: seq<Event>)
    ensures done + Consumed(msgs, w, |msgs|, delivery, max) == done
  {}

  // One more message after the events `done`.
  lemma ConsumedStep(msgs: seq<Message>, w: World, i: nat, delivery: nat, max: int, done: seq<Event>)
    requires i < |msgs| && !AnyThrown(done)
    ensures var o := OutcomeOf(msgs[i], w, i, delivery, max);
            var more := done + [Event(msgs[i].id, o)];
            && done + Consumed(msgs, w, i, delivery, max)
               == (if o == Thrown then more else more + Consumed(msgs, w, i + 1, delivery, max))
            && (AnyThrown(more) <==> o == Thrown)
  {
    hide OutcomeOf;
    var e := Event(msgs[i].id, OutcomeOf(msgs[i], w, i, delivery, max));
    assert (done + [e])[|done|] == e;
    assert done + ([e] + []) == done + [e];
    assert done + ([e] + Consumed(msgs, w, i + 1, delivery, max))
         == done + [e] + Consumed(msgs, w, i + 1, delivery, max);
  }

  // The batch as it is delivered after d failures.
  function Raised(msgs: seq<Message>, d: nat): (r: seq<Message>)
    ensures |r| == |msgs|
  {
    seq(|msgs|, i requires 0 <= i < |msgs| => msgs[i].(reconsumeTimes := msgs[i].reconsumeTimes + d))
  }

  // Everything that happened in the first n deliveries.
  function AllEvents(msgs: seq<Message>, w: World, max: int, n: nat): seq<Event> {
    if n == 0 then [] else AllEvents(msgs, w, max, n - 1) + Consumed(Raised(msgs, n - 1), w, 0, n - 1, max)
  }

  function Least(msgs: seq<Message>): int
    requires msgs != []
  {
    if |msgs| == 1 then msgs[0].reconsumeTimes
    else
      var l := Least(msgs[1..]);
      if msgs[0].reconsumeTimes < l then msgs[0].reconsumeTimes else l
  }

  // No delivery after this one is needed: by then no message may throw.
  function Bound(msgs: seq<Message>, max: int): nat {
    if msgs == [] || Least(msgs) >= max then 0 else max - Least(msgs)
  }

  lemma {:induction false} LeastIsLeast(msgs: seq<Message>, k: nat)
    requires k < |msgs|
    ensures Least(msgs) <= msgs[k].reconsumeTimes
  {
    if k > 0 {
      LeastIsLeast(msgs[1..], k - 1);
    }
  }

  lemma ConsumedAt(msgs: seq<Message>, w: World, position: nat, delivery: nat, max: int)
    requires position < |msgs|
    ensures
      var events := Consumed(msgs, w, position, delivery, max);
      && events != []
      && events[0] == Event(msgs[position].id, OutcomeOf(msgs[position], w, position, delivery, max))
      && events[1..] == if events[0].outcome == Thrown then [] else Consumed(msgs, w, position + 1, delivery, max)
  {}

  lemma NoneConsumed(msgs: seq<Message>, w: World, delivery: nat, max: int)
    ensures Consumed(msgs, w, |msgs|, delivery, max) == []
  {}

  lemma {:induction false} ConsumedEvent(msgs: seq<Message>, w: World, position: nat, delivery: nat, max: int, k: nat)
    requires position <= |msgs|
    ensures |Consumed(msgs, w, position, delivery, max)| <= |msgs| - position
    ensures k < |Consumed(msgs, w, position, delivery, max)| ==>
      var events := Consumed(msgs, w, position, delivery, max);
      && events[k] == Event(msgs[position + k].id, OutcomeOf(msgs[position + k], w, position + k, delivery, max))
      && (k < |events| - 1 ==> events[k].outcome != Thrown)
    decreases |msgs| - position
  {
    hide OutcomeOf, Consumed;
    if position == |msgs| {
      NoneConsumed(msgs, w, delivery, max);
    } else {
      ConsumedAt(msgs, w, position, delivery, max);
      ConsumedEvent(msgs, w, position + 1, delivery, max, if k == 0 then 0 else k - 1);
      var events := Consumed(msgs, w, position, delivery, max);
      assert 0 < k < |events| ==> events[k] == events[1..][k - 1];
    }
  }

  lemma {:induction false} ConsumedLast(msgs: seq<Message>, w: World, position: nat, delivery: nat, max: int)
    requires position <= |msgs|
    ensures var events := Consumed(msgs, w, position, delivery, max);
            |events| < |msgs| - position ==> events != [] && events[|events| - 1].outcome == Thrown
    decreases |msgs| - position
  {
    hide OutcomeOf, Consumed;
    if position < |msgs| {
      ConsumedAt(msgs, w, position, delivery, max);
      ConsumedLast(msgs, w, position + 1, delivery, max);
      var events := Consumed(msgs, w, position, delivery, max);
      assert |events| > 1 ==> events[|events| - 1] == events[1..][|events| - 2];
    }
  }

  // Either every message in turn, none of them throwing, or a prefix ending in a throw.
  lemma ConsumedShape(msgs: seq<Message>, w: World, position: nat, delivery: nat, max: int)
    requires position <= |msgs|
    ensures var events := Consumed(msgs, w, position, delivery, max);
            && |events| <= |msgs| - position
            && (forall k :: 0 <= k < |events| ==>
                  events[k]
                    == Event(msgs[position + k].id, OutcomeOf(msgs[position + k], w, position + k, delivery, max)))
            && (forall k :: 0 <= k < |events| - 1 ==> events[k].outcome != Thrown)
            && (|events| < |msgs| - position ==> events != [] && events[|events| - 1].outcome == Thrown)
  {
    hide OutcomeOf, Consumed;
    ConsumedLast(msgs, w, position, delivery, max);
    forall k: nat {
      ConsumedEvent(msgs, w, position, delivery, max, k);
    }
    ConsumedEvent(msgs, w, position, delivery, max, 0);
  }

  lemma Bounded(msgs: seq<Message>, w: World, max: int, delivery: nat)
    requires AnyThrown(Consumed(Raised(msgs, delivery), w, 0, delivery, max))
    ensures delivery < Bound(msgs, max)
  {
    var raised := Raised(msgs, delivery);
    var events := Consumed(raised, w, 0, delivery, max);
    var k :| 0 <= k < |events| && events[k].outcome == Thrown;
    ConsumedShape(raised, w, 0, delivery, max);
    LeastIsLeast(msgs, k);
    assert raised[0 + k].reconsumeTimes == msgs[k].reconsumeTimes + delivery;
  }

  // On the delivery that succeeds every message was handled, skipped or passed to
  // the error handler, once each and in order.
  lemma SuccessfulDelivery(msgs: seq<Message>, w: World, max: int, delivery: nat)
    requires !AnyThrown(Consumed(Raised(msgs, delivery), w, 0, delivery, max))
    ensures var events := Consumed(Raised(msgs, delivery), w, 0, delivery, max);
            && |events| == |msgs|
            && forall k :: 0 <= k < |msgs| ==>
                 && events[k].id == msgs[k].id && events[k].outcome != Thrown
                 && (events[k].outcome == ToErrorHandler ==> msgs[k].reconsumeTimes + delivery >= max)
  {
    var raised := Raised(msgs, delivery);
    ConsumedShape(raised, w, 0, delivery, max);
    var events := Consumed(raised, w, 0, delivery, max);
    forall k | 0 <= k < |msgs|
      ensures events[k].id == msgs[k].id && events[k].outcome != Thrown
      ensures events[k].outcome == ToErrorHandler ==> msgs[k].reconsumeTimes + delivery >= max
    {
      assert events[k] == Event(raised[0 + k].id, OutcomeOf(raised[0 + k], w, 0 + k, delivery, max));
    }
  }

  ghost predicate NoneToErrorHandler(events: seq<Event>) {
    forall e :: e in events ==> e.outcome != ToErrorHandler
  }

  // No message is closer to its limit than a later one that may still throw.
  predicate InOrder(msgs: seq<Message>, max: int) {
    forall k, t :: 0 <= k < t < |msgs| && msgs[t].reconsumeTimes < max ==>
      msgs[k].reconsumeTimes <= msgs[t].reconsumeTimes
  }

  lemma EventAt(msgs: seq<Message>, w: World, max: int, d: nat, k: nat)
    requires k < |Consumed(Raised(msgs, d), w, 0, d, max)|
    ensures k < |msgs|
    ensures var events := Consumed(Raised(msgs, d), w, 0, d, max);
            && events[k].outcome == OutcomeOf(Raised(msgs, d)[k], w, k, d, max)
            && (k < |events| - 1 ==> events[k].outcome != Thrown)
  {
    hide Consumed, OutcomeOf;
    ConsumedShape(Raised(msgs, d), w, 0, d, max);
    assert Raised(msgs, d)[0 + k] == Raised(msgs, d)[k];
  }

  lemma InOrderIsEnough(msgs: seq<Message>, w: World, max: int, d: nat)
    requires InOrder(msgs, max)
    ensures var events := Consumed(Raised(msgs, d), w, 0, d, max);
            AnyThrown(events) ==> NoneToErrorHandler(events)
  {
    hide Consumed;
    var events := Consumed(Raised(msgs, d), w, 0, d, max);
    if AnyThrown(events) {
      var t :| 0 <= t < |events| && events[t].outcome == Thrown;
      EventAt(msgs, w, max, d, t);
      forall e | e in events
        ensures e.outcome != ToErrorHandler
      {
        var k :| 0 <= k < |events| && events[k] == e;
        EventAt(msgs, w, max, d, k);
      }
    }
  }

  // Everything succeeds but the messages at k and t.
  function TwoFail(k: nat, t: nat): World {
    World((_, _) => Proceed, (position, _) => position != k && position != t)
  }

  lemma TwoFailAt(m: Message, k: nat, t: nat, d: nat, max: int, position: nat)
    ensures OutcomeOf(m, TwoFail(k, t), position, d, max)
         == if position != k && position != t then Handled else if m.reconsumeTimes < max then Thrown
           else ToErrorHandler
  {}

  lemma {:induction false} TwoFailEvents(msgs: seq<Message>, k: nat, t: nat, d: nat, max: int, position: nat)
    requires position <= k < t < |msgs|
    requires msgs[t].reconsumeTimes < max <= msgs[k].reconsumeTimes
    ensures var events := Consumed(msgs, TwoFail(k, t), position, d, max);
            && |events| == t - position + 1
            && events[k - position].outcome == ToErrorHandler && events[t - position].outcome == Thrown
    decreases k - position
  {
    hide OutcomeOf, Consumed;
    TwoFailAt(msgs[position], k, t, d, max, position);
    ConsumedAt(msgs, TwoFail(k, t), position, d, max);
    if position < k {
      TwoFailEvents(msgs, k, t, d, max, position + 1);
    } else {
      UpToThrow(msgs, k, t, d, max, position + 1);
    }
  }

  lemma {:induction false} UpToThrow(msgs: seq<Message>, k: nat, t: nat, d: nat, max: int, position: nat)
    requires k < position <= t < |msgs| && msgs[t].reconsumeTimes < max
    ensures var events := Consumed(msgs, TwoFail(k, t), position, d, max);
            |events| == t - position + 1 && events[t - position].outcome == Thrown
    decreases t - position
  {
    hide OutcomeOf, Consumed;
    TwoFailAt(msgs[position], k, t, d, max, position);
    ConsumedAt(msgs, TwoFail(k, t), position, d, max);
    if position < t {
      UpToThrow(msgs, k, t, d, max, position + 1);
    }
  }

  lemma OutOfOrderFails(msgs: seq<Message>, max: int) returns (w: World, d: nat)
    requires !InOrder(msgs, max)
    ensures var events := Consumed(Raised(msgs, d), w, 0, d, max);
            AnyThrown(events) && !NoneToErrorHandler(events)
  {
    var k, t :| 0 <= k < t < |msgs| && msgs[t].reconsumeTimes < max
                && msgs[k].reconsumeTimes > msgs[t].reconsumeTimes;
    w, d := TwoFail(k, t), max - 1 - msgs[t].reconsumeTimes;
    TwoFailEvents(Raised(msgs, d), k, t, d, max, 0);
    var events := Consumed(Raised(msgs, d), w, 0, d, max);
    assert events[k] in events;
    assert events[t].outcome == Thrown;
  }

  // A delivery that fails passes nothing to the error handler, whatever the code
  // outside does, if and only if the batch is in order.
  lemma ErrorsOnlyAtTheEnd(msgs: seq<Message>, max: int)
    ensures InOrder(msgs, max)
       <==> forall w: World, d: nat ::
              AnyThrown(Consumed(Raised(msgs, d), w, 0, d, max))
              ==> NoneToErrorHandler(Consumed(Raised(msgs, d), w, 0, d, max))
  {
    hide Consumed, AnyThrown, NoneToErrorHandler, InOrder, Raised;
    if InOrder(msgs, max) {
      forall w: World, d: nat | AnyThrown(Consumed(Raised(msgs, d), w, 0, d, max))
        ensures NoneToErrorHandler(Consumed(Raised(msgs, d), w, 0, d, max))
      {
        InOrderIsEnough(msgs, w, max, d);
      }
    } else {
      var w, d := OutOfOrderFails(msgs, max);
    }
  }

  // ---- the whole run, up to the delivery that succeeds ----

  ghost predicate Succeeds(msgs: seq<Message>, w: World, max: int, last: nat) {
    && !AnyThrown(Consumed(Raised(msgs, last), w, 0, last, max))
    && forall d :: 0 <= d < last ==> AnyThrown(Consumed(Raised(msgs, d), w, 0, d, max))
  }

  // Whether delivery d passes the message at position k to the error handler.
  predicate IsError(msgs: seq<Message>, w: World, max: int, d: nat, k: nat) {
    var events := Consumed(Raised(msgs, d), w, 0, d, max);
    k < |events| && events[k].outcome == ToErrorHandler
  }

  // How often that happens up to the delivery `last`.
  function Errors(msgs: seq<Message>, w: World, max: int, last: nat, k: nat): nat {
    (if last == 0 then 0 else Errors(msgs, w, max, last - 1, k)) + if IsError(msgs, w, max, last, k) then 1 else 0
  }

  lemma {:induction false} NoErrorBefore(msgs: seq<Message>, w: World, max: int, last: nat, k: nat)
    requires InOrder(msgs, max)
    requires forall d :: 0 <= d <= last ==> AnyThrown(Consumed(Raised(msgs, d), w, 0, d, max))
    ensures Errors(msgs, w, max, last, k) == 0
  {
    hide Consumed, AnyThrown, InOrder;
    if last > 0 {
      NoErrorBefore(msgs, w, max, last - 1, k);
    }
    InOrderIsEnough(msgs, w, max, last);
    var events := Consumed(Raised(msgs, last), w, 0, last, max);
    assert k < |events| ==> events[k] in events;
  }

  lemma TwoFailThrows(msgs: seq<Message>, k: nat, t: nat, d: nat, max: int)
    requires k < t < |msgs| && msgs[t].reconsumeTimes + d < max
    ensures AnyThrown(Consumed(Raised(msgs, d), TwoFail(k, t), 0, d, max))
  {
    hide Consumed, OutcomeOf;
    var events := Consumed(Raised(msgs, d), TwoFail(k, t), 0, d, max);
    if !AnyThrown(events) {
      SuccessfulDelivery(msgs, TwoFail(k, t), max, d);
      EventAt(msgs, TwoFail(k, t), max, d, t);
      TwoFailAt(Raised(msgs, d)[t], k, t, d, max, t);
      assert false;
    }
  }

  lemma TwoFailSucceeds(msgs: seq<Message>, k: nat, t: nat, d: nat, max: int)
    requires k < t < |msgs|
    requires msgs[k].reconsumeTimes + d >= max && msgs[t].reconsumeTimes + d >= max
    ensures !AnyThrown(Consumed(Raised(msgs, d), TwoFail(k, t), 0, d, max))
    ensures IsError(msgs, TwoFail(k, t), max, d, k)
  {
    hide Consumed, OutcomeOf;
    var events := Consumed(Raised(msgs, d), TwoFail(k, t), 0, d, max);
    forall j | 0 <= j < |events|
      ensures events[j].outcome != Thrown
    {
      EventAt(msgs, TwoFail(k, t), max, d, j);
      TwoFailAt(Raised(msgs, d)[j], k, t, d, max, j);
    }
    SuccessfulDelivery(msgs, TwoFail(k, t), max, d);
    EventAt(msgs, TwoFail(k, t), max, d, k);
    TwoFailAt(Raised(msgs, d)[k], k, t, d, max, k);
  }

  // Out of order: the message at k goes to the error handler in the last two deliveries.
  lemma TwoErrors(msgs: seq<Message>, max: int) returns (w: World, last: nat, k: nat)
    requires !InOrder(msgs, max)
    ensures Succeeds(msgs, w, max, last) && Errors(msgs, w, max, last, k) >= 2
  {
    hide Consumed, AnyThrown;
    var t: nat;
    k, t :| 0 <= k < t < |msgs| && msgs[t].reconsumeTimes < max
            && msgs[k].reconsumeTimes > msgs[t].reconsumeTimes;
    var d := max - 1 - msgs[t].reconsumeTimes;
    w, last := TwoFail(k, t), d + 1;
    forall e | 0 <= e < last
      ensures AnyThrown(Consumed(Raised(msgs, e), w, 0, e, max))
    {
      TwoFailThrows(msgs, k, t, e, max);
    }
    TwoFailSucceeds(msgs, k, t, last, max);
    TwoFailEvents(Raised(msgs, d), k, t, d, max, 0);
    assert IsError(msgs, w, max, d, k);
    hide IsError;
    assert Errors(msgs, w, max, d, k) >= 1;
  }

  // Up to and including the delivery that succeeds, every message goes to the error
  // handler at most once, whatever the code outside does, if and only if the batch is
  // in order.
  lemma ErrorsAtMostOnce(msgs: seq<Message>, max: int)
    ensures InOrder(msgs, max)
       <==> forall w: World, last: nat, k: nat ::
              Succeeds(msgs, w, max, last) ==> Errors(msgs, w, max, last, k) <= 1
  {
    hide IsError, InOrder, Consumed, AnyThrown;
    if InOrder(msgs, max) {
      forall w: World, last: nat, k: nat | Succeeds(msgs, w, max, last)
        ensures Errors(msgs, w, max, last, k) <= 1
      {
        if last > 0 {
          NoErrorBefore(msgs, w, max, last - 1, k);
        }
      }
    } else {
      var w, last, k := TwoErrors(msgs, max);
    }
  }

  // ---- what the events say about the code outside ----

  // What an event of position k in delivery d means: the message was passed over
  // exactly when beforeHandle refused it, handled exactly when it was not refused and
  // handling succeeded, and otherwise thrown or given to the error handler, by its count.
  ghost predicate Says(e: Event, msgs: seq<Message>, w: World, max: int, d: nat, k: nat)
    requires k < |msgs|
  {
    && e.id == msgs[k].id
    && (e.outcome == Skipped <==> w.before(k, d) == Skip)
    && (e.outcome == Handled <==> w.before(k, d) != Skip && w.succeeds(k, d))
    && (e.outcome == Thrown <==> w.before(k, d) != Skip && !w.succeeds(k, d) && msgs[k].reconsumeTimes + d < max)
    && (e.outcome == ToErrorHandler <==>
          w.before(k, d) != Skip && !w.succeeds(k, d) && msgs[k].reconsumeTimes + d >= max)
  }

  // One delivery: its events are those of the first messages, in order, up to the
  // first that is thrown, or of all messages if none is.
  lemma DeliverySays(msgs: seq<Message>, w: World, max: int, d: nat)
    ensures var events := Consumed(Raised(msgs, d), w, 0, d, max);
            && |events| <= |msgs|
            && (forall k :: 0 <= k < |events| ==> Says(events[k], msgs, w, max, d, k))
            && (forall k :: 0 <= k < |events| - 1 ==> events[k].outcome != Thrown)
            && (|events| < |msgs| ==> events != [] && events[|events| - 1].outcome == Thrown)
  {
    hide Consumed;
    var raised := Raised(msgs, d);
    ConsumedShape(raised, w, 0, d, max);
    var events := Consumed(raised, w, 0, d, max);
    forall k | 0 <= k < |events|
      ensures Says(events[k], msgs, w, max, d, k)
    {
      assert events[k] == Event(raised[0 + k].id, OutcomeOf(raised[0 + k], w, 0 + k, d, max));
    }
  }

  // All deliveries so far: nothing else happened.
  lemma {:induction false} EveryEventSays(msgs: seq<Message>, w: World, max: int, n: nat, e: Event)
    requires e in AllEvents(msgs, w, max, n)
    ensures exists d: nat, k: nat :: d < n && k < |msgs| && Says(e, msgs, w, max, d, k)
  {
    hide Consumed, Says;
    var events := Consumed(Raised(msgs, n - 1), w, 0, n - 1, max);
    DeliverySays(msgs, w, max, n - 1);
    if e in events {
      var k :| 0 <= k < |events| && events[k] == e;
      assert Says(e, msgs, w, max, n - 1, k);
    } else {
      EveryEventSays(msgs, w, max, n - 1, e);
      var d: nat, k: nat :| d < n - 1 && k < |msgs| && Says(e, msgs, w, max, d, k);
    }
  }
}
