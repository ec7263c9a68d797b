/** The life of a batch: every call goes its way through slots, events and the release of its
    ticket, interleaved with the others and with a reader of the event channel
    (core/tools/batch.go:205, 267-307, 349-478, 514-565). */
module Batch {

  datatype Slot = Pending | Running | Finished | Failed | Skipped

  datatype Event = Started | Ended | Broken

  /** Where a call is. `Sending` has set its slot and is about to send its last event. */
  datatype Stage =
    | Waiting
    | Rejecting
    | Granted
    | Starting
    | Active
    | Sending(event: Event)
    | Releasing
    | Gone

  /** A call rejected while the batch was prepared has no ticket to give back. */
  datatype CallState = CallState(stage: Stage, slot: Slot, ticket: bool, released: bool)

  /** `log` is everything sent, in order; the reader has taken the first `taken` of it. */
  datatype Sys = Sys(calls: seq<CallState>, log: seq<(nat, Event)>, taken: nat, closed: bool)

  datatype Action =
    | Skip(i: nat)                       // cancelled before or while acquiring, or before its start
    | Acquire(i: nat)
    | Reject(i: nat)                     // rejected on preparation, or by a call error on activation
    | Break(i: nat)                      // fail
    | Begin(i: nat)
    | Complete(i: nat)
    | Send(i: nat)
    | Release(i: nat)
    | Take
    | CloseEvents

  function Capacity(s: Sys): nat
  {
    2 * |s.calls| + 1
  }

  function InChannel(s: Sys): int
  {
    |s.log| - s.taken
  }

  predicate Enabled(s: Sys, a: Action)
  {
    match a
    case Take => s.taken < |s.log|
    case CloseEvents => !s.closed && forall i :: 0 <= i < |s.calls| ==> s.calls[i].stage.Gone?
    case _ =>
      a.i < |s.calls| && var c, ticket := s.calls[a.i].stage, s.calls[a.i].ticket;
      match a
      case Skip(_) => (c.Waiting? && ticket) || c.Granted? || c.Active?
      case Acquire(_) => c.Waiting? && ticket
      case Reject(_) => c.Granted? || (c.Waiting? && !ticket)
      case Break(_) => c.Granted? || c.Active?
      case Begin(_) => c.Granted?
      case Complete(_) => c.Active?
      case Send(_) => c.Rejecting? || c.Starting? || c.Sending?
      case Release(_) => c.Releasing?
      case Take => true
      case CloseEvents => true
  }

  function With(s: Sys, i: nat, stage: Stage, slot: Slot): Sys
    requires i < |s.calls|
  {
    s.(calls := s.calls[i := s.calls[i].(stage := stage, slot := slot)])
  }

  /** What a call sends next, and where it goes from there. */
  function NextEvent(c: CallState): Event
  {
    if c.stage.Sending? then c.stage.event else Started
  }

  function AfterSend(c: CallState): Stage
  {
    if c.stage.Rejecting? then Sending(Ended)
    else if c.stage.Starting? then Active
    else if c.ticket then Releasing else Gone
  }

  /** send: an event goes into the channel when it has room. Otherwise it waits, and is dropped
      when the batch is cancelled. */
  function SendOne(s: Sys, i: nat): Sys
    requires i < |s.calls|
  {
    var c := s.calls[i];
    if InChannel(s) < Capacity(s) then
      s.(log := s.log + [(i, NextEvent(c))], calls := s.calls[i := c.(stage := AfterSend(c))])
    else
      s.(calls := s.calls[i := c.(stage := AfterSend(c))])
  }

  function Step(s: Sys, a: Action): Sys
    requires Enabled(s, a)
  {
    match a
    case Skip(i) => With(s, i, Releasing, Skipped)
    case Acquire(i) => With(s, i, Granted, s.calls[i].slot)
    case Reject(i) => With(s, i, Rejecting, Finished)
    case Break(i) => With(s, i, Sending(Broken), Failed)
    case Begin(i) => With(s, i, Starting, Running)
    case Complete(i) => With(s, i, Sending(Ended), Finished)
    case Send(i) => SendOne(s, i)
    case Release(i) => s.(calls := s.calls[i := s.calls[i].(stage := Gone, released := true)])
    case Take => s.(taken := s.taken + 1)
    case CloseEvents =>
      s.(closed := true)
  }

  // ---- what every step keeps ----

  /** The events of one call, in the order they were sent. */
  function EventsOf(log: seq<(nat, Event)>, i: nat): seq<Event>
  {
    if log == [] then []
    else EventsOf(log[..|log| - 1], i) + if log[|log| - 1].0 == i then [log[|log| - 1].1] else []
  }

  /** A call's stage, slot, ticket and events agree. */
  predicate Agrees(c: CallState, events: seq<Event>)
  {
    && (c.stage.Gone? <==> (c.released || (!c.ticket && c.slot.Finished? && events == [Started, Ended])))
    && (c.released ==> c.ticket)
    && match c.stage
       case Waiting => c.slot.Pending? && events == []
       case Granted => c.slot.Pending? && events == [] && c.ticket
       case Rejecting => c.slot.Finished? && events == []
       case Starting => c.slot.Running? && events == [] && c.ticket
       case Active => c.slot.Running? && events == [Started] && c.ticket
       case Sending(e) => (e.Ended? && c.slot.Finished? && events == [Started])
                          || (e.Broken? && c.slot.Failed? && (events == [] || events == [Started]) && c.ticket)
       case Releasing => Settled(c.slot, events) && c.ticket
       case Gone => Settled(c.slot, events)
  }

  /** How a call can have ended: its last event tells its slot, and a skipped call has none. */
  predicate Settled(slot: Slot, events: seq<Event>)
  {
    || (slot.Finished? && events == [Started, Ended])
    || (slot.Failed? && (events == [Broken] || events == [Started, Broken]))
    || (slot.Skipped? && (events == [] || events == [Started]))
  }

  ghost predicate Invariant(s: Sys)
  {
    && s.taken <= |s.log|
    && (forall k :: 0 <= k < |s.log| ==> s.log[k].0 < |s.calls|)
    && (forall i :: 0 <= i < |s.calls| ==> Agrees(s.calls[i], EventsOf(s.log, i)))
    && (s.closed ==> forall i :: 0 <= i < |s.calls| ==> s.calls[i].stage.Gone?)
  }

  lemma {:induction false} SentMore(log: seq<(nat, Event)>, e: (nat, Event), i: nat)
    ensures EventsOf(log + [e], i) == EventsOf(log, i) + if e.0 == i then [e.1] else []
  {
    assert (log + [e])[..|log|] == log;
  }

  function SumSent(log: seq<(nat, Event)>, n: nat): nat
  {
    if n == 0 then 0 else SumSent(log, n - 1) + |EventsOf(log, n - 1)|
  }

  lemma {:induction false} SumSentMore(log: seq<(nat, Event)>, e: (nat, Event), n: nat)
    ensures SumSent(log + [e], n) == SumSent(log, n) + if e.0 < n then 1 else 0
  {
    hide EventsOf;
    if n > 0 {
      SumSentMore(log, e, n - 1);
      SentMore(log, e, n - 1);
    }
  }

  /** Nothing sent is lost: the log is as long as the calls' events together. */
  lemma {:induction false} AllAccounted(log: seq<(nat, Event)>, n: nat)
    requires forall k :: 0 <= k < |log| ==> log[k].0 < n
    ensures |log| == SumSent(log, n)
  {
    if log == [] {
      NothingSent(n);
    } else {
      var front, last := log[..|log| - 1], log[|log| - 1];
      AllAccounted(front, n);
      SumSentMore(front, last, n);
      assert log == front + [last];
    }
  }

  lemma {:induction false} NothingSent(n: nat)
    ensures SumSent([], n) == 0
  {
    if n > 0 {
      NothingSent(n - 1);
    }
  }

  lemma {:induction false} AtMostTwoEach(s: Sys, n: nat, i: nat)
    requires Invariant(s) && n <= |s.calls| && i < |s.calls| && |EventsOf(s.log, i)| <= 1
    ensures SumSent(s.log, n) <= 2 * n - if i < n then 1 else 0
  {
    hide EventsOf;
    if n > 0 {
      AtMostTwoEach(s, n - 1, i);
      assert Agrees(s.calls[n - 1], EventsOf(s.log, n - 1));
    }
  }

  /** A call that sends still has at most one event out, so the channel has room: sending never
      waits and never drops. */
  lemma ChannelNeverFull(s: Sys, i: nat)
    requires Invariant(s) && Enabled(s, Send(i))
    ensures InChannel(s) < 2 * |s.calls| < Capacity(s)
  {
    hide EventsOf, SumSent;
    assert Agrees(s.calls[i], EventsOf(s.log, i));
    AllAccounted(s.log, |s.calls|);
    AtMostTwoEach(s, |s.calls|, i);
  }

  lemma InvariantKept(s: Sys, a: Action)
    requires Invariant(s) && Enabled(s, a)
    ensures Invariant(Step(s, a))
  {
    hide EventsOf;
    if a.Send? {
      ChannelNeverFull(s, a.i);
      SendKeeps(s, a.i);
    } else if !a.Take? && !a.CloseEvents? {
      assert Agrees(s.calls[a.i], EventsOf(s.log, a.i));
    }
  }

  lemma SendKeeps(s: Sys, i: nat)
    requires Invariant(s) && Enabled(s, Send(i)) && InChannel(s) < Capacity(s)
    ensures Invariant(SendOne(s, i))
  {
    hide EventsOf;
    var t, e := SendOne(s, i), (i, NextEvent(s.calls[i]));
    forall j | 0 <= j < |t.calls| ensures Agrees(t.calls[j], EventsOf(t.log, j)) {
      assert Agrees(s.calls[j], EventsOf(s.log, j));
      SentMore(s.log, e, j);
      assert EventsOf(s.log, j) + [] == EventsOf(s.log, j);
    }
  }

  // ---- over whole runs ----

  ghost predicate Initial(s: Sys)
  {
    && s.log == [] && s.taken == 0 && !s.closed
    && forall i :: 0 <= i < |s.calls| ==>
         s.calls[i] == CallState(Waiting, Pending, s.calls[i].ticket, false)
  }

  ghost predicate Legal(s: Sys, actions: seq<Action>)
    decreases |actions|
  {
    actions == [] || (Enabled(s, actions[0]) && Legal(Step(s, actions[0]), actions[1..]))
  }

  ghost function Exec(s: Sys, actions: seq<Action>): Sys
    requires Legal(s, actions)
    decreases |actions|
  {
    if actions == [] then s else Exec(Step(s, actions[0]), actions[1..])
  }

  lemma {:induction false} RunsKeep(s: Sys, actions: seq<Action>)
    requires Invariant(s) && Legal(s, actions)
    ensures Invariant(Exec(s, actions)) && |Exec(s, actions).calls| == |s.calls|
    decreases |actions|
  {
    hide Invariant;
    if actions != [] {
      InvariantKept(s, actions[0]);
      RunsKeep(Step(s, actions[0]), actions[1..]);
    }
  }

  /** Once the channel is closed, every ticket is released, every slot is finished, failed or
      skipped, and each call's events tell the same story as its slot; in every state before
      that, what waits in the channel fits it. */
  lemma DrainedBatch(s: Sys, actions: seq<Action>)
    requires Initial(s) && Legal(s, actions)
    ensures var t := Exec(s, actions);
      && InChannel(t) < Capacity(t)
      && (t.closed ==> forall i :: 0 <= i < |t.calls| ==>
            Settled(t.calls[i].slot, EventsOf(t.log, i)) && (t.calls[i].ticket ==> t.calls[i].released))
  {
    hide Legal, Exec;
    assert forall i: nat :: EventsOf([], i) == [];
    assert Invariant(s);
    RunsKeep(s, actions);
    var t := Exec(s, actions);
    ChannelBounded(t);
    forall i | 0 <= i < |t.calls| && t.closed
      ensures Settled(t.calls[i].slot, EventsOf(t.log, i)) && (t.calls[i].ticket ==> t.calls[i].released)
    {
      assert Agrees(t.calls[i], EventsOf(t.log, i));
    }
  }

  lemma ChannelBounded(s: Sys)
    requires Invariant(s)
    ensures InChannel(s) < Capacity(s)
  {
    AllAccounted(s.log, |s.calls|);
    TwoEach(s, |s.calls|);
  }

  lemma {:induction false} TwoEach(s: Sys, n: nat)
    requires Invariant(s) && n <= |s.calls|
    ensures SumSent(s.log, n) <= 2 * n
  {
    hide EventsOf;
    if n > 0 {
      TwoEach(s, n - 1);
      assert Agrees(s.calls[n - 1], EventsOf(s.log, n - 1));
    }
  }

  // ---- a batch always ends ----

  /** How many steps a call still leads to at most, the taking of its events included. */
  function Ahead(stage: Stage): nat
  {
    match stage
    case Waiting => 8
    case Granted => 7
    case Rejecting => 5
    case Starting => 6
    case Active => 4
    case Sending(_) => 3
    case Releasing => 1
    case Gone => 0
  }

  function AllAhead(calls: seq<CallState>): nat
  {
    if calls == [] then 0 else AllAhead(calls[..|calls| - 1]) + Ahead(calls[|calls| - 1].stage)
  }

  /** The steps a batch can still take: those its calls lead to, the taking of the events that
      wait in the channel, and the closing. */
  function StepsLeft(s: Sys): int
  {
    AllAhead(s.calls) + InChannel(s) + if s.closed then 0 else 1
  }

  lemma {:induction false} AheadAfter(calls: seq<CallState>, i: nat, c: CallState)
    requires i < |calls|
    ensures AllAhead(calls[i := c]) == AllAhead(calls) - Ahead(calls[i].stage) + Ahead(c.stage)
  {
    var front := calls[..|calls| - 1];
    if i < |calls| - 1 {
      AheadAfter(front, i, c);
      assert calls[i := c][..|calls| - 1] == front[i := c];
    } else {
      assert calls[i := c][..|calls| - 1] == front;
    }
  }

  lemma StepsRunOut(s: Sys, a: Action)
    requires Enabled(s, a)
    ensures StepsLeft(Step(s, a)) < StepsLeft(s)
  {
    hide AllAhead;
    if !a.Take? && !a.CloseEvents? {
      AheadAfter(s.calls, a.i, Step(s, a).calls[a.i]);
    }
  }

  lemma {:induction false} MostAhead(calls: seq<CallState>)
    ensures AllAhead(calls) <= 8 * |calls|
  {
    if calls != [] {
      MostAhead(calls[..|calls| - 1]);
    }
  }

  /** The reader has everything, and no more will come. */
  predicate Drained(s: Sys)
  {
    s.closed && s.taken == |s.log|
  }

  /** A batch that is not drained has a step to take. */
  lemma CanStep(s: Sys)
    requires Invariant(s)
    ensures Drained(s) <==> !exists a :: Enabled(s, a)
  {
    hide EventsOf;
    if s.taken < |s.log| {
      assert Enabled(s, Take);
    } else if i :| 0 <= i < |s.calls| && !s.calls[i].stage.Gone? {
      assert Agrees(s.calls[i], EventsOf(s.log, i));
      assert Enabled(s, Skip(i)) || Enabled(s, Reject(i)) || Enabled(s, Send(i)) || Enabled(s, Release(i));
    } else if !s.closed {
      assert Enabled(s, CloseEvents);
    } else {
      forall a ensures !Enabled(s, a) {
      }
    }
  }

  lemma {:induction false} RunsAreShort(s: Sys, actions: seq<Action>)
    requires Legal(s, actions)
    ensures |actions| + StepsLeft(Exec(s, actions)) <= StepsLeft(s)
    decreases |actions|
  {
    hide StepsLeft;
    if actions != [] {
      StepsRunOut(s, actions[0]);
      RunsAreShort(Step(s, actions[0]), actions[1..]);
    }
  }

  /** However its calls, its reader and its cancellation interleave, a batch takes at most eight
      steps a call and one more, and it stops only when it is drained: the channel is closed and
      every event was taken. */
  lemma BatchEnds(s: Sys, actions: seq<Action>)
    requires Initial(s) && Legal(s, actions)
    ensures |actions| <= 8 * |s.calls| + 1
    ensures Drained(Exec(s, actions)) <==> !exists a :: Enabled(Exec(s, actions), a)
  {
    hide Legal, Exec, Enabled;
    assert forall i: nat :: EventsOf([], i) == [];
    assert Invariant(s);
    RunsKeep(s, actions);
    RunsAreShort(s, actions);
    MostAhead(s.calls);
    CanStep(Exec(s, actions));
    assert Invariant(Exec(s, actions));
    NothingNegative(Exec(s, actions));
  }

  lemma NothingNegative(s: Sys)
    requires Invariant(s)
    ensures StepsLeft(s) >= 0
  {
  }

  // ---- the error a failed batch reports ----

  datatype Cause = Cancelled | Real

  datatype Fatal = Fatal(index: nat, cause: Cause)

  /** pickFatal, its choice: the lowest index among the real failures, or among the
      cancellations when there is no other. */
  method PickFatal(fatals: seq<Fatal>) returns (chosen: int)
    ensures fatals == [] <==> chosen < 0
    ensures chosen >= 0 ==> chosen < |fatals| && (fatals[chosen].cause.Real? <==> exists f :: f in fatals && f.cause.Real?)
    ensures chosen >= 0 ==> forall f :: f in fatals && (f.cause.Real? || fatals[chosen].cause.Cancelled?) ==> fatals[chosen].index <= f.index
  {
    chosen := -1;
    for i := 0 to |fatals|
      invariant -1 <= chosen < i
      invariant chosen < 0 <==> forall k :: 0 <= k < i ==> fatals[k].cause.Cancelled?
      invariant chosen >= 0 ==> fatals[chosen].cause.Real? && forall k :: 0 <= k < i && fatals[k].cause.Real? ==> fatals[chosen].index <= fatals[k].index
    {
      if fatals[i].cause.Cancelled? {
        continue;
      }
      if chosen < 0 || fatals[i].index < fatals[chosen].index {
        chosen := i;
      }
    }
    if chosen < 0 {
      for i := 0 to |fatals|
        invariant -1 <= chosen < i && (chosen < 0 <==> i == 0)
        invariant chosen >= 0 ==> forall k :: 0 <= k < i ==> fatals[chosen].index <= fatals[k].index
      {
        if chosen < 0 || fatals[i].index < fatals[chosen].index {
          chosen := i;
        }
      }
    }
  }
}
