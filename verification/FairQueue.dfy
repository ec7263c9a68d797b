/** The order in which waiters are granted over whole runs of the tool scheduler: nobody is passed
    over who could have been granted, and permit requests are granted in the order in which they
    arrived (core/tools/coordinator.go:121-193). */
module FairQueue {
  import opened Claims
  import opened Scheduler
  import opened SchedulerRuns
  import C = CoordState

  predicate Arrives(a: Action)
  {
    a.AskPlan? || a.Join?
  }

  /** How many requests a run has made. */
  function Arrivals(actions: seq<Action>): nat
  {
    if actions == [] then 0 else Arrivals(actions[..|actions| - 1]) + if Arrives(actions[|actions| - 1]) then 1 else 0
  }

  /** The waiter is the request that the i-th action made. */
  ghost predicate AskedAt(actions: seq<Action>, i: nat, w: C.Waiter)
  {
    && i < |actions| && w.seqNo == Arrivals(actions[..i + 1])
    && if w.owner.Permit? then actions[i].AskPlan? else actions[i] == Join(w.owner.ticket)
  }

  ghost predicate Asked(actions: seq<Action>, w: C.Waiter)
  {
    exists i :: AskedAt(actions, i, w)
  }

  /** Every waiter is a request of the run, and they stand in the order of their arrival. */
  ghost predicate InLine(c: C.Coord, actions: seq<Action>)
  {
    && c.waitSeq == Arrivals(actions)
    && (forall k :: 0 <= k < |c.waiters| ==> c.waiters[k].seqNo <= c.waitSeq && Asked(actions, c.waiters[k]))
    && (forall j, k :: 0 <= j < k < |c.waiters| ==> c.waiters[j].seqNo < c.waiters[k].seqNo)
  }

  lemma AskedEarlier(actions: seq<Action>, a: Action, w: C.Waiter)
    requires Asked(actions, w)
    ensures Asked(actions + [a], w)
  {
    var i :| AskedAt(actions, i, w);
    assert (actions + [a])[..i + 1] == actions[..i + 1];
    assert AskedAt(actions + [a], i, w);
  }

  lemma OneMoreAction(actions: seq<Action>, a: Action)
    ensures Arrivals(actions + [a]) == Arrivals(actions) + if Arrives(a) then 1 else 0
    ensures (actions + [a])[..|actions| + 1] == actions + [a]
  {
    assert (actions + [a])[..|actions|] == actions;
  }

  lemma InLineStep(s: Sys, actions: seq<Action>, a: Action)
    requires InLine(s.c, actions) && Enabled(s, a)
    ensures InLine(Step(s, a).c, actions + [a])
  {
    hide InLine, Enabled, Step;
    if Arrives(a) {
      JoinInLine(s, actions, a);
    } else {
      StayInLine(s, actions, a);
    }
  }

  lemma JoinInLine(s: Sys, actions: seq<Action>, a: Action)
    requires InLine(s.c, actions) && Enabled(s, a) && Arrives(a)
    ensures InLine(Step(s, a).c, actions + [a])
  {
    hide Asked, Arrivals, Enabled, Step;
    var n, more := Step(s, a), actions + [a];
    OneMoreAction(actions, a);
    JoinsTheEnd(s, a);
    forall k | 0 <= k < |n.c.waiters| ensures n.c.waiters[k].seqNo <= n.c.waitSeq && Asked(more, n.c.waiters[k]) {
      if k < |s.c.waiters| {
        assert n.c.waiters[k] == s.c.waiters[k];
        AskedEarlier(actions, a, s.c.waiters[k]);
      } else {
        AskedNow(s, actions, a, n.c.waiters[k]);
      }
    }
  }

  lemma StayInLine(s: Sys, actions: seq<Action>, a: Action)
    requires InLine(s.c, actions) && Enabled(s, a) && !Arrives(a)
    ensures InLine(Step(s, a).c, actions + [a])
  {
    hide Asked, Arrivals, Enabled, Step;
    var n, more := Step(s, a), actions + [a];
    OneMoreAction(actions, a);
    StaysInLine(s, a);
    forall k | 0 <= k < |n.c.waiters| ensures n.c.waiters[k].seqNo <= n.c.waitSeq && Asked(more, n.c.waiters[k]) {
      var j :| 0 <= j < |s.c.waiters| && n.c.waiters[k] == s.c.waiters[j];
      AskedEarlier(actions, a, s.c.waiters[j]);
    }
  }

  lemma AskedNow(s: Sys, actions: seq<Action>, a: Action, w: C.Waiter)
    requires Arrives(a) && w.seqNo == Arrivals(actions) + 1 && w.owner == if a.AskPlan? then C.Permit else C.Ticket(a.t)
    ensures Asked(actions + [a], w)
  {
    OneMoreAction(actions, a);
    assert AskedAt(actions + [a], |actions|, w);
  }

  lemma JoinsTheEnd(s: Sys, a: Action)
    requires Enabled(s, a) && Arrives(a)
    ensures var c, d := s.c, Step(s, a).c;
      && d.waitSeq == c.waitSeq + 1 && |d.waiters| == |c.waiters| + 1 && d.waiters[..|c.waiters|] == c.waiters
      && (forall k :: 0 <= k < |c.waiters| ==> d.waiters[k] == c.waiters[k])
      && d.waiters[|c.waiters|].seqNo == c.waitSeq + 1
      && d.waiters[|c.waiters|].owner == if a.AskPlan? then C.Permit else C.Ticket(a.t)
  {
  }

  /** Leaving the queue keeps the others in their order. */
  lemma StaysInLine(s: Sys, a: Action)
    requires Enabled(s, a) && !Arrives(a)
    ensures var c, d := s.c, Step(s, a).c;
      && d.waitSeq == c.waitSeq
      && (forall k :: 0 <= k < |d.waiters| ==> exists j :: 0 <= j < |c.waiters| && d.waiters[k] == c.waiters[j])
      && ((forall j, k :: 0 <= j < k < |c.waiters| ==> c.waiters[j].seqNo < c.waiters[k].seqNo) ==>
            forall j, k :: 0 <= j < k < |d.waiters| ==> d.waiters[j].seqNo < d.waiters[k].seqNo)
  {
    hide Conflict, Normal, WellPlanned, Extendable, IsNormalFormOf, C.Advance, C.AddCalls, C.ClaimsFree;
    if a.Grant? || a.Cancel? {
      hide Enabled, Step;
      LeavesLine(s, a);
    } else {
      assert Step(s, a).c.waiters == s.c.waiters;
    }
  }

  lemma LeavesLine(s: Sys, a: Action)
    requires Enabled(s, a) && (a.Grant? || a.Cancel?)
    ensures var c, d := s.c, Step(s, a).c;
      && d.waitSeq == c.waitSeq && a.k < |c.waiters| && |d.waiters| == |c.waiters| - 1
      && forall k :: 0 <= k < |d.waiters| ==> d.waiters[k] == c.waiters[if k < a.k then k else k + 1]
  {
    hide Conflict, C.ClaimsFree;
  }

  lemma {:induction false} RunInLine(parallel: nat, actions: seq<Action>)
    requires Legal(Init(parallel), actions)
    ensures InLine(Exec(Init(parallel), actions).c, actions)
    decreases |actions|
  {
    if actions != [] {
      hide Legal, Exec, Enabled, Step, InLine;
      var front, last := actions[..|actions| - 1], actions[|actions| - 1];
      assert actions == front + [last];
      LastAction(Init(parallel), front, last);
      RunInLine(parallel, front);
      InLineStep(Exec(Init(parallel), front), front, last);
    }
  }

  lemma LastAction(s: Sys, front: seq<Action>, last: Action)
    ensures (if front + [last] == [] then [] else (front + [last])[..|front|]) == front
    ensures Legal(s, front + [last]) <==> Legal(s, front) && Enabled(Exec(s, front), last)
    ensures Legal(s, front + [last]) ==> Exec(s, front + [last]) == Step(Exec(s, front), last)
  {
    hide Enabled, Step;
    RunConcat(s, front, [last]);
    assert [last][1..] == [];
  }

  // ---- nobody is passed over ----

  /** Nothing stands in the way of a waiter: a permit is free, and for a call the frontier has
      reached its ticket and its claims conflict with no other holder and with no known claims
      of an earlier call that is not released. */
  ghost predicate NothingInTheWay(c: C.Coord, w: C.Waiter)
  {
    && c.inUse < c.parallel
    && (w.owner.Ticket? ==>
          && w.owner.ticket <= c.frontier
          && (forall t :: t in c.held && t != w.owner.ticket ==> !Conflict(c.held[t], w.claims))
          && (forall t :: t in c.final && t < w.owner.ticket && t !in c.released ==> !Conflict(c.final[t], w.claims)))
  }

  /** In every run: a waiter is granted exactly when nothing stands in its way, but something in
      the way of everybody who arrived before. */
  lemma NobodyPassedOver(parallel: nat, actions: seq<Action>, k: nat)
    requires Legal(Init(parallel), actions)
    ensures var s := Exec(Init(parallel), actions); var c := s.c;
      Enabled(s, Grant(k)) <==>
        && k < |c.waiters| && NothingInTheWay(c, c.waiters[k])
        && forall j :: 0 <= j < |c.waiters| && c.waiters[j].seqNo < c.waiters[k].seqNo ==> !NothingInTheWay(c, c.waiters[j])
  {
    hide Legal, Exec, Init, Conflict, Domains, AllTickets, NoOvertaking, HoldersDisjoint, Capacity, FrontierInv, Asked;
    RunInLine(parallel, actions);
    ReachableInv(parallel, actions);
    var s := Exec(Init(parallel), actions);
    if k < |s.c.waiters| && s.c.waiters[k].owner.Ticket? {
      QueuedWaiter(s, k);
    }
  }

  // ---- permits in the order of arrival ----

  /** The permit requests granted, in the order in which they were. */
  ghost function PermitsGranted(s: Sys, actions: seq<Action>): seq<nat>
    requires Legal(s, actions)
    decreases |actions|
  {
    if actions == [] then []
    else
      var a := actions[0];
      (if a.Grant? && s.c.waiters[a.k].owner.Permit? then [s.c.waiters[a.k].seqNo] else []) + PermitsGranted(Step(s, a), actions[1..])
  }

  lemma {:induction false} LastGranted(s: Sys, front: seq<Action>, last: Action)
    requires Legal(s, front) && Enabled(Exec(s, front), last) && Legal(s, front + [last])
    ensures var z := Exec(s, front);
      PermitsGranted(s, front + [last])
      == PermitsGranted(s, front) + if last.Grant? && z.c.waiters[last.k].owner.Permit? then [z.c.waiters[last.k].seqNo] else []
    decreases |front|
  {
    hide Enabled, Step;
    if front == [] {
      assert front + [last] == [last] && [last][1..] == [];
    } else {
      assert (front + [last])[0] == front[0] && (front + [last])[1..] == front[1..] + [last];
      LastGranted(Step(s, front[0]), front[1..], last);
    }
  }

  ghost predicate Increasing(s: seq<nat>)
  {
    forall i, j :: 0 <= i < j < |s| ==> s[i] < s[j]
  }

  /** Whoever still waits for a permit arrived after all who got one. */
  ghost predicate StillToCome(c: C.Coord, granted: seq<nat>)
  {
    && (forall i :: 0 <= i < |granted| ==> granted[i] <= c.waitSeq)
    && (forall i, k :: 0 <= i < |granted| && 0 <= k < |c.waiters| && c.waiters[k].owner.Permit? ==> granted[i] < c.waiters[k].seqNo)
  }

  lemma {:induction false} GrantedInOrder(parallel: nat, actions: seq<Action>)
    requires Legal(Init(parallel), actions)
    ensures Increasing(PermitsGranted(Init(parallel), actions))
    ensures StillToCome(Exec(Init(parallel), actions).c, PermitsGranted(Init(parallel), actions))
    decreases |actions|
  {
    if actions != [] {
      hide Legal, Exec, Init, Enabled, Step, PermitsGranted, InLine, NothingInTheWay, StillToCome, Increasing;
      var s0 := Init(parallel);
      var front, last := actions[..|actions| - 1], actions[|actions| - 1];
      assert actions == front + [last];
      LastAction(s0, front, last);
      GrantedInOrder(parallel, front);
      LastGranted(s0, front, last);
      var s := Exec(s0, front);
      RunInLine(parallel, front);
      if last.Grant? {
        NobodyPassedOver(parallel, front, last.k);
        GrantStillToCome(s, front, last, PermitsGranted(s0, front));
      } else {
        OtherStillToCome(s, front, last, PermitsGranted(s0, front));
      }
    }
  }

  lemma GrantStillToCome(s: Sys, front: seq<Action>, a: Action, granted: seq<nat>)
    requires Enabled(s, a) && a.Grant? && a.k < |s.c.waiters| && InLine(s.c, front) && NothingInTheWay(s.c, s.c.waiters[a.k])
    requires forall j :: 0 <= j < |s.c.waiters| && s.c.waiters[j].seqNo < s.c.waiters[a.k].seqNo ==> !NothingInTheWay(s.c, s.c.waiters[j])
    requires Increasing(granted) && StillToCome(s.c, granted)
    ensures var w := s.c.waiters[a.k]; var now := granted + if w.owner.Permit? then [w.seqNo] else [];
      Increasing(now) && StillToCome(Step(s, a).c, now)
  {
    hide Enabled, Step, Asked;
    LeavesLine(s, a);
    forall j | 0 <= j < |s.c.waiters| && s.c.waiters[j].owner.Permit? ensures s.c.waiters[a.k].seqNo <= s.c.waiters[j].seqNo {
      assert NothingInTheWay(s.c, s.c.waiters[j]);
    }
  }

  lemma OtherStillToCome(s: Sys, front: seq<Action>, a: Action, granted: seq<nat>)
    requires Enabled(s, a) && !a.Grant? && InLine(s.c, front) && StillToCome(s.c, granted)
    ensures StillToCome(Step(s, a).c, granted)
    ensures granted + [] == granted
  {
    hide Enabled, Step, Asked;
    if Arrives(a) {
      JoinsTheEnd(s, a);
    } else {
      StaysInLine(s, a);
    }
  }

  /** Permit requests are granted in the order in which they arrived, in every run. */
  lemma PermitsInOrder(parallel: nat, before: seq<Action>, k: nat, after: seq<Action>, later: nat)
    requires Legal(Init(parallel), before) && Enabled(Exec(Init(parallel), before), Grant(k)) && Exec(Init(parallel), before).c.waiters[k].owner.Permit?
    requires Legal(Step(Exec(Init(parallel), before), Grant(k)), after)
    requires Enabled(Exec(Step(Exec(Init(parallel), before), Grant(k)), after), Grant(later))
    requires Exec(Step(Exec(Init(parallel), before), Grant(k)), after).c.waiters[later].owner.Permit?
    ensures Exec(Init(parallel), before).c.waiters[k].seqNo < Exec(Step(Exec(Init(parallel), before), Grant(k)), after).c.waiters[later].seqNo
  {
    hide Enabled, Step, Init, Conflict;
    var s0 := Init(parallel);
    var s := Exec(s0, before);
    var mid := before + [Grant(k)];
    EnabledGrant(s, k);
    LastAction(s0, before, Grant(k));
    LastGranted(s0, before, Grant(k));
    RunConcat(s0, mid, after);
    GrantedInOrder(parallel, mid + after);
    GrantedFirst(s0, mid, after);
    var granted := PermitsGranted(s0, mid + after);
    assert granted[|PermitsGranted(s0, before)|] == s.c.waiters[k].seqNo;
    EnabledGrant(Exec(s0, mid + after), later);
  }

  lemma EnabledGrant(s: Sys, k: nat)
    requires Enabled(s, Grant(k))
    ensures k < |s.c.waiters|
  {
  }

  lemma {:induction false} GrantedFirst(s: Sys, a: seq<Action>, b: seq<Action>)
    requires Legal(s, a) && Legal(s, a + b)
    ensures |PermitsGranted(s, a)| <= |PermitsGranted(s, a + b)|
    ensures PermitsGranted(s, a + b)[..|PermitsGranted(s, a)|] == PermitsGranted(s, a)
    decreases |a|
  {
    hide Enabled, Step;
    if a != [] {
      assert (a + b)[0] == a[0] && (a + b)[1..] == a[1..] + b;
      GrantedFirst(Step(s, a[0]), a[1..], b);
    }
  }
}
