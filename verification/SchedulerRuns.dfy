/** What holds over whole runs of the tool scheduler: mutual exclusion of conflicting
    calls, ticket order, capacity, and exactly when a run can deadlock. */
module SchedulerRuns {
  import opened Claims
  import opened Scheduler
  import C = CoordState

  const MAX_PARALLEL := 32

  // ---- runs ----

  lemma {:induction false} RunKeepsInv(s: Sys, actions: seq<Action>)
    requires Inv(s) && Legal(s, actions)
    ensures Inv(Exec(s, actions))
    decreases |actions|
  {
    hide Inv, Enabled, Step;
    if actions != [] {
      StepKeeps(s, actions[0]);
      RunKeepsInv(Step(s, actions[0]), actions[1..]);
    }
  }

  /** Every state of every run satisfies the scheduler's invariant. */
  lemma ReachableInv(parallel: nat, actions: seq<Action>)
    requires Legal(Init(parallel), actions)
    ensures Inv(Exec(Init(parallel), actions))
  {
    hide Inv;
    InitInv(parallel);
    RunKeepsInv(Init(parallel), actions);
  }

  lemma InitInv(parallel: nat)
    ensures Inv(Init(parallel))
  {
  }

  lemma {:induction false} RunConcat(s: Sys, a: seq<Action>, b: seq<Action>)
    ensures Legal(s, a + b) <==> Legal(s, a) && Legal(Exec(s, a), b)
    ensures Legal(s, a + b) ==> Exec(s, a + b) == Exec(Exec(s, a), b)
    decreases |a|
  {
    hide Enabled, Step;
    if a == [] {
      assert a + b == b;
    } else {
      assert (a + b)[0] == a[0] && (a + b)[1..] == a[1..] + b;
      if Enabled(s, a[0]) {
        RunConcat(Step(s, a[0]), a[1..], b);
      }
    }
  }

  // ---- exclusion and order ----

  /** Calls that are inside Run at the same time never conflict. */
  lemma RunningCallsNeverConflict(parallel: nat, actions: seq<Action>, t: nat, u: nat)
    requires Legal(Init(parallel), actions)
    requires var s := Exec(Init(parallel), actions); At(s, t, Running) && At(s, u, Running) && t != u
    ensures var s := Exec(Init(parallel), actions);
      t in s.c.final && u in s.c.final && !Conflict(s.c.final[t], s.c.final[u])
  {
    hide Conflict, Normal, TouchesRoot, QueueInv, NoOvertaking, Legal, Exec, Init;
    ReachableInv(parallel, actions);
    var s := Exec(Init(parallel), actions);
    assert TicketInv(s, t) && TicketInv(s, u);
  }

  /** Claims, once final, are never taken back. */
  lemma StepKeepsFinal(s: Sys, a: Action, t: nat)
    requires Inv(s) && Enabled(s, a) && t in s.c.final
    ensures var n := Step(s, a); t in n.c.final && n.c.final[t] == s.c.final[t]
  {
    hide *;
    if a.Register? {
      RegisterKeepsFinal(s, a.specs, t);
    } else if a.Discover? {
      DiscoverKeepsFinal(s, a, t);
    } else {
      OthersKeepFinal(s, a, t);
    }
  }

  lemma RegisterKeepsFinal(s: Sys, specs: seq<C.CallSpec>, t: nat)
    requires Inv(s) && Enabled(s, Register(specs)) && t in s.c.final
    ensures var n := Step(s, Register(specs)); t in n.c.final && n.c.final[t] == s.c.final[t]
  {
    hide Conflict, Normal, TouchesRoot, QueueInv, NoOvertaking, HoldersDisjoint, AllTickets, C.Advance;
    C.BatchMember(s.c, s.c.next, specs, t);
  }

  /** Only a pending ticket is discovered, and its claims were not final. */
  lemma DiscoverKeepsFinal(s: Sys, a: Action, t: nat)
    requires Inv(s) && Enabled(s, a) && a.Discover? && t in s.c.final
    ensures var n := Step(s, a); t in n.c.final && n.c.final[t] == s.c.final[t]
  {
    hide Conflict, Normal, TouchesRoot, QueueInv, NoOvertaking, HoldersDisjoint, IsNormalFormOf, Extendable, C.Advance;
    assert TicketInv(s, t);
  }

  lemma OthersKeepFinal(s: Sys, a: Action, t: nat)
    requires Enabled(s, a) && !a.Register? && !a.Discover? && t in s.c.final
    ensures var n := Step(s, a); t in n.c.final && n.c.final[t] == s.c.final[t]
  {
    hide Conflict, Normal, TouchesRoot, IsNormalFormOf, Extendable, C.Advance, C.Grantable, C.ClaimsFree;
  }

  lemma {:induction false} RunKeepsFinal(s: Sys, actions: seq<Action>, t: nat)
    requires Inv(s) && Legal(s, actions) && t in s.c.final
    ensures var n := Exec(s, actions); t in n.c.final && n.c.final[t] == s.c.final[t]
    decreases |actions|
  {
    hide Inv, Enabled, Step;
    if actions != [] {
      StepKeeps(s, actions[0]);
      StepKeepsFinal(s, actions[0], t);
      RunKeepsFinal(Step(s, actions[0]), actions[1..], t);
    }
  }

  /** A running call's final claims are known and clash with no earlier unreleased call. */
  lemma RunningIsSeparate(s: Sys, e: nat, t: nat)
    requires Inv(s) && At(s, t, Running) && e < t
    ensures t in s.c.final
    ensures e in s.c.released || (e in s.c.final && !Conflict(s.c.final[e], s.c.final[t]))
  {
    hide Conflict, Normal, TouchesRoot, QueueInv, HoldersDisjoint;
    assert TicketInv(s, t);
    assert TicketInv(s, e);
  }

  lemma StartReleasesNobody(s: Sys, a: Action, t: nat, e: nat)
    requires Enabled(s, a) && !At(s, t, Running) && At(Step(s, a), t, Running)
    ensures Step(s, a).c.released == s.c.released
  {
    hide Conflict, Normal, IsNormalFormOf, Extendable, WellPlanned, C.Advance, C.AddCalls, C.Grantable, C.ClaimsFree;
  }

  /** Submission order: when `t` starts to run, every earlier call whose final claims turn
      out to conflict with t's has been released, however late either set became known. */
  lemma RunsInTicketOrder(parallel: nat, before: seq<Action>, a: Action, after: seq<Action>, e: nat, t: nat)
    requires Legal(Init(parallel), before) && Enabled(Exec(Init(parallel), before), a)
    requires Legal(Step(Exec(Init(parallel), before), a), after)
    requires var s := Exec(Init(parallel), before); !At(s, t, Running) && At(Step(s, a), t, Running)
    requires e < t
    requires var z := Exec(Step(Exec(Init(parallel), before), a), after);
      e in z.c.final && t in z.c.final && Conflict(z.c.final[e], z.c.final[t])
    ensures e in Exec(Init(parallel), before).c.released
  {
    hide Inv, Conflict, Enabled, Step, Legal, Exec, Init;
    ReachableInv(parallel, before);
    var s := Exec(Init(parallel), before);
    StepKeeps(s, a);
    var n := Step(s, a);
    RunningIsSeparate(n, e, t);
    if e !in n.c.released {
      RunKeepsFinal(n, after, e);
      RunKeepsFinal(n, after, t);
    } else {
      StartReleasesNobody(s, a, t, e);
    }
  }

  /** Permits are conserved: one per holder and per outstanding Plan, never more than allowed. */
  lemma CapacityConserved(parallel: nat, actions: seq<Action>)
    requires Legal(Init(parallel), actions)
    ensures var s := Exec(Init(parallel), actions); s.c.inUse == |s.c.held| + s.plans <= parallel
  {
    hide AllTickets, NoOvertaking, HoldersDisjoint, QueueInv, Domains, FrontierInv, Step, Enabled;
    ReachableInv(parallel, actions);
    ParallelFixed(Init(parallel), actions);
  }

  lemma {:induction false} ParallelFixed(s: Sys, actions: seq<Action>)
    requires Legal(s, actions)
    ensures Exec(s, actions).c.parallel == s.c.parallel
    decreases |actions|
  {
    if actions != [] {
      StepParallel(s, actions[0]);
      ParallelFixed(Step(s, actions[0]), actions[1..]);
    }
  }

  lemma StepParallel(s: Sys, a: Action)
    requires Enabled(s, a)
    ensures Step(s, a).c.parallel == s.c.parallel
  {
  }

  // ---- progress ----

  ghost predicate Lowest(s: Sys, m: nat)
  {
    m in s.phase && s.phase[m] != Done && forall t :: t in s.phase && t < m ==> s.phase[t] == Done
  }

  /** The lowest unreleased call is never held up by claims: not before it is granted, and
      not when it extends. */
  lemma LowestIsNeverBlocked(s: Sys, m: nat)
    requires Inv(s) && Lowest(s, m)
    ensures m <= s.c.frontier
    ensures !Holds(s.phase[m]) ==> C.ClaimsFree(s.c, m, s.spec[m].planned)
    ensures s.phase[m] == Extending ==> m in s.c.final && C.ClaimsFree(s.c, m, s.c.final[m])
  {
    hide Conflict, Normal, TouchesRoot, QueueInv;
    assert TicketInv(s, m);
    assert s.c.frontier < s.c.next ==> TicketInv(s, s.c.frontier);
    assert m <= s.c.frontier;
    forall t | t in s.c.held && t != m
      ensures m in s.c.final && !Conflict(s.c.held[t], s.c.final[m])
    {
      assert TicketInv(s, t);
      ConflictSymmetric(s.c.final[m], s.c.held[t]);
    }
    forall t | t in s.c.final && t < m ensures t in s.c.released {
      assert TicketInv(s, t);
    }
  }

  /** Actions that move a call forward without cancelling it: joining the queue, being
      granted or extended, or a tool callback returning. */
  ghost predicate Productive(s: Sys, a: Action)
  {
    && Enabled(s, a)
    && match a
       case PlanReturns => true
       case Join(_) => true
       case Grant(_) => true
       case Extend(_) => true
       case Release(t) => At(s, t, Activating) || At(s, t, Running) || At(s, t, Abandoned)
       case _ => false
  }

  /** Deadlock: some call is unreleased and nothing can move. */
  ghost predicate Stuck(s: Sys)
  {
    (exists t :: t in s.phase && s.phase[t] != Done) && forall a :: !Productive(s, a)
  }

  /** Planned claims of a call without an Activator that cannot take part in a deadlock. */
  ghost predicate SafePlan(parallel: nat, plan: seq<Claim>)
  {
    ROOT_WRITE in plan || (parallel >= 2 && forall c :: c in plan ==> c.resource == ROOT)
  }

  ghost predicate PlansSafe(s: Sys)
  {
    forall t :: t in s.spec && !s.spec[t].rejected && !s.spec[t].hasActivator ==> SafePlan(s.c.parallel, s.spec[t].planned)
  }

  ghost predicate UsesOnly(actions: seq<Action>, allowed: iset<seq<Claim>>)
  {
    forall k :: 0 <= k < |actions| && actions[k].Register? ==>
      forall i :: 0 <= i < |actions[k].specs| ==> SpecAllowed(actions[k].specs[i], allowed)
  }

  ghost predicate SpecAllowed(spec: C.CallSpec, allowed: iset<seq<Claim>>)
  {
    !spec.rejected && !spec.hasActivator ==> spec.planned in allowed
  }

  lemma MinOf(s: set<nat>) returns (m: nat)
    requires s != {}
    ensures m in s && forall t :: t in s ==> m <= t
    decreases s
  {
    m :| m in s;
    var others := s - {m};
    assert forall t :: t in s ==> t == m || t in others;
    if others != {} {
      var rest := MinOf(others);
      if rest < m {
        m := rest;
      }
    }
  }

  lemma FirstGrantable(c: C.Coord, k: nat) returns (g: nat)
    requires k < |c.waiters| && C.CanGrant(c, c.waiters[k])
    ensures C.Grantable(c, g)
    decreases k
  {
    hide C.CanGrant;
    if forall j :: 0 <= j < k ==> !C.CanGrant(c, c.waiters[j]) {
      g := k;
    } else {
      var j :| 0 <= j < k && C.CanGrant(c, c.waiters[j]);
      g := FirstGrantable(c, j);
    }
  }

  /** With a free permit and the lowest call queued, some waiter can be granted. */
  lemma SomebodyGranted(s: Sys, m: nat) returns (a: Action)
    requires Inv(s) && Lowest(s, m) && s.phase[m] == Queued && s.c.inUse < s.c.parallel
    ensures Productive(s, a)
  {
    hide Conflict, Normal, TouchesRoot, NoOvertaking, HoldersDisjoint, AllTickets, C.ClaimsFree;
    LowestIsNeverBlocked(s, m);
    assert At(s, m, Queued);
    var i :| 0 <= i < |s.c.waiters| && s.c.waiters[i].owner == C.Ticket(m);
    var g := FirstGrantable(s.c, i);
    a := Grant(g);
  }

  /** A queued call below a holder has no Activator, so its plan is final. */
  lemma QueuedBelowHolder(s: Sys, e: nat, t: nat)
    requires Inv(s) && e < t && t in s.c.held && At(s, e, Queued)
    ensures !s.spec[e].hasActivator && !s.spec[e].rejected
    ensures e in s.c.final && s.c.final[e] == s.spec[e].planned && !Conflict(s.spec[e].planned, s.c.held[t])
  {
    hide Conflict, Normal, TouchesRoot, QueueInv, HoldersDisjoint;
    assert TicketInv(s, e);
    assert TicketInv(s, t);
  }

  lemma HolderTouchesRoot(s: Sys, t: nat)
    requires Inv(s) && t in s.c.held
    ensures TouchesRoot(s.c.held[t])
  {
    hide Conflict, Normal, TouchesRoot, QueueInv, HoldersDisjoint, NoOvertaking;
    assert TicketInv(s, t);
  }

  /** A queued call below a holder cannot be a root writer: the holder would have clashed. */
  lemma QueuedBelowHolderReadsRoot(s: Sys, e: nat, t: nat)
    requires Inv(s) && PlansSafe(s) && e < t && t in s.c.held && At(s, e, Queued)
    ensures s.c.parallel >= 2 && forall c :: c in s.c.final[e] ==> c == ROOT_READ
  {
    hide Conflict, TouchesRoot, Normal, AllTickets, NoOvertaking, HoldersDisjoint, QueueInv;
    QueuedBelowHolder(s, e, t);
    HolderTouchesRoot(s, t);
    var plan := s.spec[e].planned;
    if ROOT_WRITE in plan {
      RootWriterConflicts(plan, s.c.held[t]);
    }
    assert SafePlan(s.c.parallel, plan);
    forall c | c in plan ensures c == ROOT_READ {
      assert c != ROOT_WRITE && c.resource == ROOT;
      match c
      case Claim(r, Read) =>
      case Claim(r, Write) =>
    }
  }

  /** Below another holder no discovered set writes the root. */
  lemma HolderBelowHolder(s: Sys, h: nat, u: nat)
    requires Inv(s) && h < u && u in s.c.held && At(s, h, Extending)
    ensures h in s.c.final && ROOT_WRITE !in s.c.final[h] && !Conflict(s.c.held[u], s.c.final[h])
  {
    hide Conflict, Normal, TouchesRoot, QueueInv, HoldersDisjoint, AllTickets;
    HolderTouchesRoot(s, u);
    if ROOT_WRITE in s.c.final[h] {
      RootWriterConflicts(s.c.final[h], s.c.held[u]);
    }
    ConflictSymmetric(s.c.final[h], s.c.held[u]);
  }

  lemma RootReaderConflict(a: seq<Claim>, b: seq<Claim>)
    requires forall c :: c in a ==> c == ROOT_READ
    requires ROOT_WRITE !in b
    ensures !Conflict(a, b)
  {
    assert forall c, d :: c in a && d in b && Clash(c, d) ==> d == ROOT_WRITE;
  }

  /** When permits have run out and everybody waits, the lowest holder can extend. */
  lemma LowestHolderExtends(s: Sys, m: nat, h: nat, u: nat)
    requires Inv(s) && PlansSafe(s) && Lowest(s, m) && s.phase[m] == Queued
    requires forall t :: t in s.phase && s.phase[t] != Done ==> s.phase[t] == Queued || s.phase[t] == Extending
    requires h in s.c.held && u in s.c.held && h < u && forall t :: t in s.c.held ==> h <= t
    ensures Productive(s, Extend(h))
  {
    hide Conflict, Normal, TouchesRoot, QueueInv, HoldersDisjoint, PlansSafe, NoOvertaking;
    assert TicketInv(s, h);
    assert At(s, h, Extending);
    forall t | t in s.c.held && t != h ensures !Conflict(s.c.held[t], s.c.final[h]) {
      HolderBelowHolder(s, h, t);
    }
    HolderBelowHolder(s, h, u);
    forall t | t in s.c.final && t < h && t !in s.c.released ensures !Conflict(s.c.final[t], s.c.final[h]) {
      assert TicketInv(s, t);
      assert At(s, t, Queued);
      QueuedBelowHolderReadsRoot(s, t, h);
      RootReaderConflict(s.c.final[t], s.c.final[h]);
    }
  }

  lemma TwoHolders(held: set<nat>, h: nat) returns (u: nat)
    requires h in held && |held| >= 2
    ensures u in held && u != h
  {
    assert |held - {h}| >= 1;
    u :| u in held - {h};
  }

  /** No permit is free: somebody holds one, and the lowest holder can go on. */
  lemma FullHouseMoves(s: Sys, m: nat) returns (a: Action)
    requires Inv(s) && PlansSafe(s) && Lowest(s, m) && s.phase[m] == Queued
    requires s.plans == 0 && s.c.inUse == s.c.parallel >= 1
    requires forall t :: t in s.phase && s.phase[t] != Done ==> s.phase[t] == Queued || s.phase[t] == Extending
    ensures Productive(s, a)
  {
    hide Conflict, Normal, TouchesRoot, QueueInv, HoldersDisjoint, PlansSafe, NoOvertaking, AllTickets, Productive;
    var h := MinOf(s.c.held.Keys);
    NotHeldUnlessHolding(s, m);
    assert m < h by {
      NotHeldUnlessHolding(s, h);
    }
    QueuedBelowHolderReadsRoot(s, m, h);
    var u := TwoHolders(s.c.held.Keys, h);
    LowestHolderExtends(s, m, h, u);
    a := Extend(h);
  }

  /** While a call is unreleased and every plan is safe, something can move. */
  lemma Progress(s: Sys) returns (a: Action)
    requires Inv(s) && PlansSafe(s) && s.c.parallel >= 1
    requires exists t :: t in s.phase && s.phase[t] != Done
    ensures Productive(s, a)
  {
    hide Conflict, Normal, TouchesRoot, QueueInv, HoldersDisjoint, NoOvertaking, AllTickets, PlansSafe;
    var w :| w in s.phase && s.phase[w] != Done;
    var open := set t | t in s.phase && s.phase[t] != Done;
    assert w in open;
    var m := MinOf(open);
    assert Lowest(s, m) by {
      assert forall t :: t in s.phase && t < m ==> t !in open;
    }
    if s.plans > 0 {
      a := PlanReturns;
    } else if t :| t in s.phase && s.phase[t] == New {
      a := Join(t);
    } else if t :| t in s.phase && (s.phase[t] == Activating || s.phase[t] == Running || s.phase[t] == Abandoned) {
      a := Release(t);
    } else if s.phase[m] == Extending {
      LowestIsNeverBlocked(s, m);
      a := Extend(m);
    } else if s.c.inUse < s.c.parallel {
      a := SomebodyGranted(s, m);
    } else {
      a := FullHouseMoves(s, m);
    }
  }

  lemma StepPlansSafe(s: Sys, a: Action, allowed: iset<seq<Claim>>)
    requires PlansSafe(s) && Enabled(s, a) && forall plan :: plan in allowed ==> SafePlan(s.c.parallel, plan)
    requires a.Register? ==> forall i :: 0 <= i < |a.specs| ==> SpecAllowed(a.specs[i], allowed)
    ensures PlansSafe(Step(s, a))
  {
    hide SafePlan;
    StepParallel(s, a);
  }

  lemma {:induction false} RunPlansSafe(s: Sys, actions: seq<Action>, allowed: iset<seq<Claim>>)
    requires PlansSafe(s) && Legal(s, actions) && UsesOnly(actions, allowed)
    requires forall plan :: plan in allowed ==> SafePlan(s.c.parallel, plan)
    ensures PlansSafe(Exec(s, actions))
    decreases |actions|
  {
    hide SafePlan, PlansSafe, Enabled, Step;
    if actions != [] {
      StepParallel(s, actions[0]);
      StepPlansSafe(s, actions[0], allowed);
      assert forall k :: 0 <= k < |actions[1..]| ==> actions[1..][k] == actions[k + 1];
      RunPlansSafe(Step(s, actions[0]), actions[1..], allowed);
    }
  }

  lemma SafePlansNeverDeadlock(parallel: nat, actions: seq<Action>, allowed: iset<seq<Claim>>)
    requires 1 <= parallel && forall plan :: plan in allowed ==> SafePlan(parallel, plan)
    requires Legal(Init(parallel), actions) && UsesOnly(actions, allowed)
    ensures !Stuck(Exec(Init(parallel), actions))
  {
    hide Inv, SafePlan, Productive, Legal, Exec;
    var s := Exec(Init(parallel), actions);
    ReachableInv(parallel, actions);
    RunPlansSafe(Init(parallel), actions, allowed);
    ParallelFixed(Init(parallel), actions);
    if exists t :: t in s.phase && s.phase[t] != Done {
      var a := Progress(s);
    }
  }
}
