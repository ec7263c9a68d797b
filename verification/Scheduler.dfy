/** Any number of concurrent batches driving one coordinator. Every action is one
    locked section of core/tools/coordinator.go taken by one call as runCall does
    (core/tools/batch.go), so a run is any interleaving of the calls. */
module Scheduler {
  import opened Claims
  import C = CoordState

  /** Where a call stands in runCall. `Activating` and `Running` are inside a tool
      callback; `Abandoned` has left the queue on cancellation and must still release. */
  datatype Phase = New | Queued | Abandoned | Activating | Extending | Running | Done

  datatype Sys = Sys(c: C.Coord, phase: map<nat, Phase>, spec: map<nat, C.CallSpec>, plans: nat)

  datatype Action =
    | Register(specs: seq<C.CallSpec>)
    | AskPlan
    | PlanReturns
    | Join(t: nat)
    | Grant(k: nat)
    | Cancel(k: nat)
    | Discover(t: nat, extra: seq<Claim>, complete: seq<Claim>)
    | Extend(t: nat)
    | Release(t: nat)

  function Init(parallel: nat): Sys
  {
    Sys(C.Fresh(parallel), map[], map[], 0)
  }

  predicate At(s: Sys, t: nat, p: Phase)
  {
    t in s.phase && s.phase[t] == p
  }

  predicate Holds(p: Phase)
  {
    p == Activating || p == Extending || p == Running
  }

  /** Start gives every call that is not rejected normal claims that touch the root
      (core/tools/batch.go:186-194). */
  ghost predicate WellPlanned(spec: C.CallSpec)
  {
    !spec.rejected ==> Normal(spec.planned) && TouchesRoot(spec.planned)
  }

  ghost predicate Enabled(s: Sys, a: Action)
  {
    match a
    case Register(specs) => s.c.frontier <= s.c.next && C.Registrable(s.c, |specs|) && forall i :: 0 <= i < |specs| ==> WellPlanned(specs[i])
    case AskPlan => true
    case PlanReturns => s.plans > 0
    case Join(t) => At(s, t, New) && t in s.spec
    case Grant(k) => C.Grantable(s.c, k) && (s.c.waiters[k].owner.Ticket? ==> s.c.waiters[k].owner.ticket in s.spec)
    case Cancel(k) => k < |s.c.waiters|
    case Discover(t, extra, complete) =>
      && At(s, t, Activating) && t in s.c.pending && t in s.spec && s.c.frontier <= s.c.next
      && Extendable(s.spec[t].planned, extra) && IsNormalFormOf(complete, s.spec[t].planned + extra)
    case Extend(t) => At(s, t, Extending) && t in s.c.final && C.ClaimsFree(s.c, t, s.c.final[t])
    case Release(t) =>
      s.c.frontier <= s.c.next && (At(s, t, New) || At(s, t, Abandoned) || At(s, t, Activating) || At(s, t, Extending) || At(s, t, Running))
  }

  function FirstPhase(spec: C.CallSpec): Phase
  {
    if spec.rejected then Done else New
  }

  ghost function Step(s: Sys, a: Action): Sys
    requires Enabled(s, a)
  {
    match a
    case Register(specs) =>
      s.(c := C.Register(s.c, specs),
         phase := s.phase + map t: nat | s.c.next <= t < s.c.next + |specs| && C.InBatch(s.c.next, specs, t) :: FirstPhase(C.SpecOf(s.c.next, specs, t)),
         spec := s.spec + map t: nat | s.c.next <= t < s.c.next + |specs| && C.InBatch(s.c.next, specs, t) :: C.SpecOf(s.c.next, specs, t))
    case AskPlan => s.(c := C.Enqueue(s.c, C.Permit, []))
    case PlanReturns => s.(c := C.ReleasePermit(s.c), plans := s.plans - 1)
    case Join(t) => s.(c := C.Enqueue(s.c, C.Ticket(t), s.spec[t].planned), phase := s.phase[t := Queued])
    case Grant(k) =>
      var w := s.c.waiters[k];
      if w.owner.Permit? then s.(c := C.Grant(s.c, k), plans := s.plans + 1)
      else s.(c := C.Grant(s.c, k), phase := s.phase[w.owner.ticket := if s.spec[w.owner.ticket].Pends() then Activating else Running])
    case Cancel(k) =>
      var w := s.c.waiters[k];
      if w.owner.Permit? then s.(c := C.Drop(s.c, k))
      else s.(c := C.Drop(s.c, k), phase := s.phase[w.owner.ticket := Abandoned])
    case Discover(t, _, complete) => s.(c := C.Discover(s.c, t, complete), phase := s.phase[t := Extending])
    case Extend(t) => s.(c := C.Extend(s.c, t, s.c.final[t]), phase := s.phase[t := Running])
    case Release(t) => s.(c := C.Release(s.c, t), phase := s.phase[t := Done])
  }

  ghost predicate Legal(s: Sys, actions: seq<Action>)
    decreases |actions|
  {
    actions != [] ==> Enabled(s, actions[0]) && Legal(Step(s, actions[0]), actions[1..])
  }

  ghost function Exec(s: Sys, actions: seq<Action>): Sys
    requires Legal(s, actions)
    decreases |actions|
  {
    if actions == [] then s else Exec(Step(s, actions[0]), actions[1..])
  }

  // ---- the invariant ----

  ghost predicate FrontierInv(c: C.Coord)
  {
    && c.frontier <= c.next
    && (forall t :: t in c.pending ==> c.frontier <= t)
    && (c.frontier < c.next ==> c.frontier in c.pending)
  }

  ghost predicate Domains(s: Sys)
  {
    && (forall t: nat :: t in s.phase <==> t < s.c.next)
    && (forall t: nat :: t in s.spec <==> t < s.c.next)
    && (forall t :: t in s.c.pending ==> t in s.phase)
    && (forall t :: t in s.c.final ==> t in s.phase)
    && (forall t :: t in s.c.held ==> t in s.phase)
    && (forall t :: t in s.c.released ==> t in s.phase)
  }

  /** How the coordinator's maps follow from the call's phase. */
  ghost predicate TicketInv(s: Sys, t: nat)
    requires t in s.phase && t in s.spec
  {
    var p, spec := s.phase[t], s.spec[t];
    && WellPlanned(spec)
    && (spec.rejected ==> p == Done)
    && (t in s.c.pending <==> spec.Pends() && (p == New || p == Queued || p == Abandoned || p == Activating))
    && (t in s.c.final <==> t !in s.c.pending)
    && (t in s.c.released <==> p == Done)
    && (t in s.c.held <==> Holds(p))
    && (t in s.c.held ==> t <= s.c.frontier)
    && (p == Activating || p == Extending ==> spec.Pends() && s.c.held[t] == spec.planned)
    && (p == Running ==> s.c.held[t] == s.c.final[t])
    && (!spec.Pends() && p != Done ==> s.c.final[t] == spec.planned)
    && (t in s.c.final && p != Done ==> TouchesRoot(s.c.final[t]))
  }

  ghost predicate AllTickets(s: Sys)
    requires Domains(s)
  {
    forall t :: t in s.phase ==> TicketInv(s, t)
  }

  /** Every holder is known not to clash with any earlier call that is not released. */
  ghost predicate NoOvertaking(s: Sys)
    requires Domains(s)
  {
    forall e, t :: e in s.phase && t in s.c.held && e < t && s.phase[e] != Done ==>
      e in s.c.final && !Conflict(s.c.final[e], s.c.held[t])
  }

  ghost predicate HoldersDisjoint(c: C.Coord)
  {
    forall t, u :: t in c.held && u in c.held && t != u ==> !Conflict(c.held[t], c.held[u])
  }

  ghost predicate QueueInv(s: Sys)
  {
    && (forall i :: 0 <= i < |s.c.waiters| && s.c.waiters[i].owner.Ticket? ==>
          var t := s.c.waiters[i].owner.ticket;
          At(s, t, Queued) && t in s.spec && s.c.waiters[i].claims == s.spec[t].planned)
    && (forall i, j :: 0 <= i < j < |s.c.waiters| && s.c.waiters[i].owner.Ticket? ==> s.c.waiters[i].owner != s.c.waiters[j].owner)
    && (forall t :: At(s, t, Queued) ==> exists i :: 0 <= i < |s.c.waiters| && s.c.waiters[i].owner == C.Ticket(t))
  }

  ghost predicate Capacity(s: Sys)
  {
    s.c.inUse == |s.c.held| + s.plans && s.c.inUse <= s.c.parallel
  }

  ghost predicate Inv(s: Sys)
  {
    && FrontierInv(s.c) && Domains(s) && AllTickets(s)
    && NoOvertaking(s) && HoldersDisjoint(s.c) && QueueInv(s) && Capacity(s)
  }

  // ---- preservation: each action, one part of the invariant at a time ----

  /** What an action leaves alone about a ticket it does not act on. */
  ghost predicate SameTicket(s: Sys, n: Sys, t: nat)
    requires t in s.phase && t in s.spec
  {
    && t in n.phase && t in n.spec && n.phase[t] == s.phase[t] && n.spec[t] == s.spec[t]
    && (t in n.c.pending <==> t in s.c.pending)
    && (t in n.c.released <==> t in s.c.released)
    && (t in n.c.final <==> t in s.c.final)
    && (t in n.c.final ==> n.c.final[t] == s.c.final[t])
    && (t in n.c.held <==> t in s.c.held)
    && (t in n.c.held ==> n.c.held[t] == s.c.held[t])
    && s.c.frontier <= n.c.frontier
  }

  lemma SameKeepsTicket(s: Sys, n: Sys, t: nat)
    requires t in s.phase && t in s.spec && TicketInv(s, t) && SameTicket(s, n, t)
    ensures TicketInv(n, t)
  {
    hide Conflict, Normal, TouchesRoot;
  }

  /** All tickets but one unchanged: only that one needs looking at. */
  lemma TicketsButOne(s: Sys, n: Sys, g: nat)
    requires Domains(s) && AllTickets(s) && Domains(n)
    requires forall t :: t in n.phase && t != g ==> t in s.phase && SameTicket(s, n, t)
    requires g in n.phase ==> TicketInv(n, g)
    ensures AllTickets(n)
  {
    hide Conflict, Normal, TouchesRoot, TicketInv, SameTicket;
    forall t | t in n.phase && t != g ensures TicketInv(n, t) {
      SameKeepsTicket(s, n, t);
    }
  }

  lemma NewTicket(s: Sys, specs: seq<C.CallSpec>, t: nat)
    requires FrontierInv(s.c) && Domains(s) && Enabled(s, Register(specs)) && C.InBatch(s.c.next, specs, t)
    ensures var n := Step(s, Register(specs)); t in n.phase && t in n.spec && TicketInv(n, t)
  {
    hide Conflict, Normal, TouchesRoot, C.Advance, C.AddCalls;
    C.BatchMember(s.c, s.c.next, specs, t);
    var spec := C.SpecOf(s.c.next, specs, t);
    assert WellPlanned(spec) by { assert specs[t - s.c.next] == spec; }
    var n := Step(s, Register(specs));
    assert n.phase[t] == FirstPhase(spec) && n.spec[t] == spec;
  }

  lemma OldTicket(s: Sys, specs: seq<C.CallSpec>, t: nat)
    requires FrontierInv(s.c) && Domains(s) && Enabled(s, Register(specs)) && !C.InBatch(s.c.next, specs, t)
    ensures var n := Step(s, Register(specs));
      if t in s.phase then SameTicket(s, n, t)
      else t !in n.c.pending && t !in n.c.final && t !in n.c.released && t !in n.c.held
  {
    hide Conflict, Normal, TouchesRoot, C.Advance, C.AddCalls, WellPlanned;
    C.BatchMember(s.c, s.c.next, specs, t);
  }

  lemma RegisterTicket(s: Sys, specs: seq<C.CallSpec>, t: nat)
    requires FrontierInv(s.c) && Domains(s) && Enabled(s, Register(specs))
    ensures var n := Step(s, Register(specs));
      if t in s.phase then SameTicket(s, n, t)
      else if C.InBatch(s.c.next, specs, t) then t in n.phase && t in n.spec && TicketInv(n, t)
      else t !in n.c.pending && t !in n.c.final && t !in n.c.released && t !in n.c.held
  {
    hide Step, TicketInv, SameTicket;
    if C.InBatch(s.c.next, specs, t) {
      NewTicket(s, specs, t);
    } else {
      OldTicket(s, specs, t);
    }
  }

  lemma RegisterTickets(s: Sys, specs: seq<C.CallSpec>)
    requires FrontierInv(s.c) && Domains(s) && AllTickets(s) && Enabled(s, Register(specs))
    ensures var n := Step(s, Register(specs)); FrontierInv(n.c) && Domains(n) && AllTickets(n)
  {
    hide Conflict, Normal, TouchesRoot, TicketInv, SameTicket;
    var n := Step(s, Register(specs));
    assert Domains(n) by {
      forall t: nat ensures t in n.c.pending || t in n.c.final || t in n.c.released || t in n.c.held ==> t < n.c.next {
        RegisterTicket(s, specs, t);
      }
    }
    assert forall t :: t in n.c.pending ==> n.c.frontier <= t by {
      forall t | t in n.c.pending ensures s.c.frontier <= t {
        RegisterTicket(s, specs, t);
        if t in s.phase {
          SameTicketFacts(s, n, t);
        }
      }
    }
    forall t | t in n.phase ensures TicketInv(n, t) {
      RegisterTicket(s, specs, t);
      if t in s.phase {
        SameKeepsTicket(s, n, t);
      }
    }
  }

  lemma SameTicketFacts(s: Sys, n: Sys, t: nat)
    requires t in s.phase && t in s.spec && SameTicket(s, n, t)
    ensures t in n.c.pending <==> t in s.c.pending
    ensures t in n.c.final <==> t in s.c.final
    ensures t in n.c.final ==> n.c.final[t] == s.c.final[t]
    ensures t in n.phase && n.phase[t] == s.phase[t]
  {
  }

  lemma RegisterSeparate(s: Sys, specs: seq<C.CallSpec>)
    requires FrontierInv(s.c) && Domains(s) && AllTickets(s) && NoOvertaking(s) && Enabled(s, Register(specs))
    requires Domains(Step(s, Register(specs)))
    ensures NoOvertaking(Step(s, Register(specs)))
  {
    hide Conflict, Normal, TouchesRoot, TicketInv, SameTicket, AllTickets, FrontierInv, Enabled, Step;
    var n := Step(s, Register(specs));
    assert n.c.held == s.c.held by { RegisterFacts(s, specs); }
    forall e, t | e in n.phase && t in n.c.held && e < t && n.phase[e] != Done
      ensures e in n.c.final && !Conflict(n.c.final[e], n.c.held[t])
    {
      assert e in s.phase;
      RegisterTicket(s, specs, e);
      SameTicketFacts(s, n, e);
    }
  }

  lemma RegisterFacts(s: Sys, specs: seq<C.CallSpec>)
    requires Enabled(s, Register(specs))
    ensures var n := Step(s, Register(specs));
      && n.c.held == s.c.held && n.c.waiters == s.c.waiters && n.c.inUse == s.c.inUse && n.c.parallel == s.c.parallel && n.plans == s.plans
      && (forall t :: t in s.phase && t < s.c.next ==> t in n.phase && n.phase[t] == s.phase[t])
      && (forall t :: t in s.spec && t < s.c.next ==> t in n.spec && n.spec[t] == s.spec[t])
      && (forall t :: At(n, t, Queued) ==> At(s, t, Queued))
  {
  }

  lemma RegisterKeeps(s: Sys, specs: seq<C.CallSpec>)
    requires Inv(s) && Enabled(s, Register(specs))
    ensures Inv(Step(s, Register(specs)))
  {
    hide Conflict, Normal, TouchesRoot, TicketInv, AllTickets, NoOvertaking, FrontierInv, Enabled, Step;
    RegisterTickets(s, specs);
    RegisterSeparate(s, specs);
    RegisterFacts(s, specs);
    var n := Step(s, Register(specs));
    assert QueueInv(n) by {
      forall t | At(n, t, Queued) ensures exists i :: 0 <= i < |n.c.waiters| && n.c.waiters[i].owner == C.Ticket(t) {
        assert At(s, t, Queued);
      }
    }
  }

  lemma JoinQueue(s: Sys, a: Action)
    requires QueueInv(s) && Enabled(s, a) && (a.AskPlan? || a.Join?)
    ensures QueueInv(Step(s, a))
  {
    var n := Step(s, a);
    var last := |s.c.waiters|;
    assert forall i :: 0 <= i < last ==> n.c.waiters[i] == s.c.waiters[i];
    forall t | At(n, t, Queued) ensures exists i :: 0 <= i < |n.c.waiters| && n.c.waiters[i].owner == C.Ticket(t) {
      if At(s, t, Queued) {
        var i :| 0 <= i < last && s.c.waiters[i].owner == C.Ticket(t);
        assert n.c.waiters[i].owner == C.Ticket(t);
      } else {
        assert n.c.waiters[last].owner == C.Ticket(t);
      }
    }
  }

  lemma JoinTickets(s: Sys, a: Action)
    requires FrontierInv(s.c) && Domains(s) && AllTickets(s) && Enabled(s, a) && (a.AskPlan? || a.Join?)
    ensures var n := Step(s, a); Domains(n) && AllTickets(n)
  {
    hide Conflict, Normal, TouchesRoot;
    var n := Step(s, a);
    if a.Join? {
      assert TicketInv(s, a.t);
      TicketsButOne(s, n, a.t);
    } else {
      TicketsButOne(s, n, s.c.next);
    }
  }

  lemma JoinKeeps(s: Sys, a: Action)
    requires Inv(s) && Enabled(s, a) && (a.AskPlan? || a.Join?)
    ensures Inv(Step(s, a))
  {
    hide Conflict, Normal, TouchesRoot, QueueInv, TicketInv, AllTickets;
    JoinQueue(s, a);
    JoinTickets(s, a);
  }

  /** What is left of the queue once waiter `k` is gone. */
  lemma DropKeepsQueue(s: Sys, k: nat, n: Sys)
    requires QueueInv(s) && k < |s.c.waiters| && n.c.waiters == C.Drop(s.c, k).waiters && n.spec == s.spec
    requires n.phase.Keys == s.phase.Keys
    requires forall t :: t in s.phase && s.c.waiters[k].owner != C.Ticket(t) ==> n.phase[t] == s.phase[t]
    requires s.c.waiters[k].owner.Ticket? ==> s.c.waiters[k].owner.ticket in n.phase && n.phase[s.c.waiters[k].owner.ticket] != Queued
    ensures QueueInv(n)
  {
    var ws := n.c.waiters;
    assert forall i :: 0 <= i < |ws| ==> ws[i] == s.c.waiters[if i < k then i else i + 1];
    forall i | 0 <= i < |ws| && ws[i].owner.Ticket?
      ensures At(n, ws[i].owner.ticket, Queued) && ws[i].owner.ticket in n.spec && ws[i].claims == n.spec[ws[i].owner.ticket].planned
    {
      var j := if i < k then i else i + 1;
      assert s.c.waiters[j] == ws[i] && s.c.waiters[j].owner != s.c.waiters[k].owner;
    }
    forall t | At(n, t, Queued) ensures exists i :: 0 <= i < |ws| && ws[i].owner == C.Ticket(t) {
      var j :| 0 <= j < |s.c.waiters| && s.c.waiters[j].owner == C.Ticket(t);
      assert ws[if j < k then j else j - 1].owner == C.Ticket(t);
    }
  }

  /** A ticket at or below the frontier sees the final claims of everything before it. */
  lemma KnownBelow(s: Sys, e: nat, g: nat)
    requires FrontierInv(s.c) && Domains(s) && AllTickets(s) && e < g <= s.c.frontier && e in s.phase
    ensures e in s.c.final
  {
    hide Conflict, Normal, TouchesRoot;
    assert TicketInv(s, e);
  }

  /** A claim set that ClaimsFree lets in keeps both separation invariants. */
  lemma AdmittedIsSeparate(s: Sys, n: Sys, g: nat, claims: seq<Claim>)
    requires FrontierInv(s.c) && Domains(s) && AllTickets(s) && NoOvertaking(s) && HoldersDisjoint(s.c)
    requires g in s.phase && g <= s.c.frontier && C.ClaimsFree(s.c, g, claims)
    requires Domains(n) && n.c.final == s.c.final && n.c.held == s.c.held[g := claims]
    requires n.phase.Keys == s.phase.Keys && forall t :: t in s.phase ==> (n.phase[t] == Done <==> s.phase[t] == Done)
    ensures NoOvertaking(n) && HoldersDisjoint(n.c)
  {
    hide Conflict, Normal, TouchesRoot, TicketInv;
    forall e, t | e in n.phase && t in n.c.held && e < t && n.phase[e] != Done
      ensures e in n.c.final && !Conflict(n.c.final[e], n.c.held[t])
    {
      if t == g {
        KnownBelow(s, e, g);
        ReleasedIsDone(s, e);
      }
    }
    forall t, u | t in n.c.held && u in n.c.held && t != u ensures !Conflict(n.c.held[t], n.c.held[u]) {
      ConflictSymmetric(n.c.held[t], n.c.held[u]);
    }
  }

  lemma ReleasedIsDone(s: Sys, t: nat)
    requires Domains(s) && AllTickets(s) && t in s.phase
    ensures t in s.c.released <==> s.phase[t] == Done
  {
    hide Conflict, Normal, TouchesRoot;
    assert TicketInv(s, t);
  }

  lemma GrantTickets(s: Sys, k: nat)
    requires FrontierInv(s.c) && Domains(s) && AllTickets(s) && QueueInv(s) && Enabled(s, Grant(k)) && s.c.waiters[k].owner.Ticket?
    ensures var n := Step(s, Grant(k)); Domains(n) && AllTickets(n)
  {
    hide Conflict, Normal, TouchesRoot, QueueInv;
    var n := Step(s, Grant(k));
    var g := s.c.waiters[k].owner.ticket;
    QueuedWaiter(s, k);
    assert TicketInv(s, g);
    TicketsButOne(s, n, g);
  }

  lemma GrantTicketKeeps(s: Sys, k: nat)
    requires Inv(s) && Enabled(s, Grant(k)) && s.c.waiters[k].owner.Ticket?
    ensures Inv(Step(s, Grant(k)))
  {
    hide Conflict, Normal, TouchesRoot, QueueInv, NoOvertaking, HoldersDisjoint, AllTickets, TicketInv, Capacity;
    var n := Step(s, Grant(k));
    var w := s.c.waiters[k];
    var g := w.owner.ticket;
    QueuedWaiter(s, k);
    GrantTickets(s, k);
    DropKeepsQueue(s, k, n);
    AdmittedIsSeparate(s, n, g, w.claims);
    NotHeldUnlessHolding(s, g);
    GrantCapacity(s, k, n);
  }

  lemma GrantCapacity(s: Sys, k: nat, n: Sys)
    requires Enabled(s, Grant(k)) && s.c.waiters[k].owner.Ticket? && n == Step(s, Grant(k))
    requires Capacity(s) && s.c.waiters[k].owner.ticket !in s.c.held
    ensures Capacity(n)
  {
    hide Conflict, C.ClaimsFree;
    assert n.c.held.Keys == s.c.held.Keys + {s.c.waiters[k].owner.ticket};
  }

  lemma NotHeldUnlessHolding(s: Sys, t: nat)
    requires Domains(s) && AllTickets(s) && t in s.phase
    ensures t in s.c.held <==> Holds(s.phase[t])
    ensures t in s.c.held ==> t <= s.c.frontier
  {
    hide Conflict, Normal, TouchesRoot;
    assert TicketInv(s, t);
  }

  lemma QueuedWaiter(s: Sys, k: nat)
    requires QueueInv(s) && k < |s.c.waiters| && s.c.waiters[k].owner.Ticket?
    ensures var t := s.c.waiters[k].owner.ticket;
      At(s, t, Queued) && t in s.spec && s.c.waiters[k].claims == s.spec[t].planned
  {
  }

  lemma PermitTickets(s: Sys, a: Action)
    requires FrontierInv(s.c) && Domains(s) && AllTickets(s) && Enabled(s, a)
    requires a.PlanReturns? || ((a.Grant? || a.Cancel?) && s.c.waiters[a.k].owner.Permit?)
    ensures var n := Step(s, a); Domains(n) && AllTickets(n)
  {
    hide Conflict, Normal, TouchesRoot;
    TicketsButOne(s, Step(s, a), s.c.next);
  }

  lemma PermitKeeps(s: Sys, a: Action)
    requires Inv(s) && Enabled(s, a)
    requires a.PlanReturns? || ((a.Grant? || a.Cancel?) && s.c.waiters[a.k].owner.Permit?)
    ensures Inv(Step(s, a))
  {
    hide Conflict, Normal, TouchesRoot, QueueInv, TicketInv, AllTickets;
    var n := Step(s, a);
    PermitTickets(s, a);
    if a.PlanReturns? {
      SameQueue(s, n);
    } else {
      DropKeepsQueue(s, a.k, n);
    }
  }

  lemma SameQueue(s: Sys, n: Sys)
    requires QueueInv(s) && n.c.waiters == s.c.waiters && n.spec == s.spec && n.phase == s.phase
    ensures QueueInv(n)
  {
    forall u | At(n, u, Queued) ensures exists i :: 0 <= i < |n.c.waiters| && n.c.waiters[i].owner == C.Ticket(u) {
      assert At(s, u, Queued);
    }
  }

  lemma CancelTickets(s: Sys, k: nat)
    requires FrontierInv(s.c) && Domains(s) && AllTickets(s) && QueueInv(s) && Enabled(s, Cancel(k)) && s.c.waiters[k].owner.Ticket?
    ensures var n := Step(s, Cancel(k)); Domains(n) && AllTickets(n)
  {
    hide Conflict, Normal, TouchesRoot, QueueInv;
    QueuedWaiter(s, k);
    var g := s.c.waiters[k].owner.ticket;
    assert TicketInv(s, g);
    TicketsButOne(s, Step(s, Cancel(k)), g);
  }

  lemma CancelTicketKeeps(s: Sys, k: nat)
    requires Inv(s) && Enabled(s, Cancel(k)) && s.c.waiters[k].owner.Ticket?
    ensures Inv(Step(s, Cancel(k)))
  {
    hide Conflict, Normal, TouchesRoot, QueueInv, TicketInv, AllTickets;
    QueuedWaiter(s, k);
    CancelTickets(s, k);
    DropKeepsQueue(s, k, Step(s, Cancel(k)));
  }

  lemma QueueUnchanged(s: Sys, n: Sys, t: nat)
    requires QueueInv(s) && n.c.waiters == s.c.waiters && n.spec == s.spec && n.phase.Keys == s.phase.Keys
    requires t in s.phase && s.phase[t] != Queued && n.phase[t] != Queued
    requires forall u :: u in s.phase && u != t ==> n.phase[u] == s.phase[u]
    ensures QueueInv(n)
  {
    forall u | At(n, u, Queued) ensures exists i :: 0 <= i < |n.c.waiters| && n.c.waiters[i].owner == C.Ticket(u) {
      assert At(s, u, Queued);
    }
  }

  lemma DiscoverTickets(s: Sys, a: Action)
    requires FrontierInv(s.c) && Domains(s) && AllTickets(s) && a.Discover? && Enabled(s, a)
    ensures var n := Step(s, a); FrontierInv(n.c) && Domains(n) && AllTickets(n)
  {
    hide Conflict, Normal, TouchesRoot, IsNormalFormOf, Extendable;
    assert TicketInv(s, a.t);
    ExtensionTouchesRoot(s.spec[a.t].planned, a.extra, a.complete);
    TicketsButOne(s, Step(s, a), a.t);
  }

  lemma DiscoverSeparate(s: Sys, a: Action)
    requires FrontierInv(s.c) && Domains(s) && AllTickets(s) && NoOvertaking(s) && a.Discover? && Enabled(s, a) && Domains(Step(s, a))
    ensures NoOvertaking(Step(s, a))
  {
    hide Conflict, Normal, TouchesRoot, IsNormalFormOf, Extendable, TicketInv, AllTickets;
    var n := Step(s, a);
    forall e, t | e in n.phase && t in n.c.held && e < t && n.phase[e] != Done
      ensures e in n.c.final && !Conflict(n.c.final[e], n.c.held[t])
    {
      NotHeldUnlessHolding(s, t);  // no holder is above a pending ticket, so e is not the discovered one
    }
  }

  lemma DiscoverKeeps(s: Sys, a: Action)
    requires Inv(s) && a.Discover? && Enabled(s, a)
    ensures Inv(Step(s, a))
  {
    hide Conflict, Normal, TouchesRoot, IsNormalFormOf, Extendable, QueueInv, TicketInv, AllTickets, NoOvertaking;
    DiscoverTickets(s, a);
    DiscoverSeparate(s, a);
    QueueUnchanged(s, Step(s, a), a.t);
  }

  lemma ExtendTickets(s: Sys, g: nat)
    requires FrontierInv(s.c) && Domains(s) && AllTickets(s) && Enabled(s, Extend(g))
    ensures var n := Step(s, Extend(g)); Domains(n) && AllTickets(n)
  {
    hide Conflict, Normal, TouchesRoot;
    assert TicketInv(s, g);
    TicketsButOne(s, Step(s, Extend(g)), g);
  }

  lemma ExtendKeeps(s: Sys, g: nat)
    requires Inv(s) && Enabled(s, Extend(g))
    ensures Inv(Step(s, Extend(g)))
  {
    hide Conflict, Normal, TouchesRoot, QueueInv, NoOvertaking, HoldersDisjoint, TicketInv, AllTickets;
    var n := Step(s, Extend(g));
    NotHeldUnlessHolding(s, g);
    ExtendTickets(s, g);
    AdmittedIsSeparate(s, n, g, s.c.final[g]);
    QueueUnchanged(s, n, g);
    assert n.c.held.Keys == s.c.held.Keys;
  }

  lemma ReleaseSeparate(s: Sys, n: Sys, g: nat)
    requires Domains(s) && Domains(n) && NoOvertaking(s) && HoldersDisjoint(s.c)
    requires n.phase == s.phase[g := Done] && n.c.held == s.c.held - {g}
    requires forall t :: t in s.c.final ==> t in n.c.final && n.c.final[t] == s.c.final[t]
    ensures NoOvertaking(n) && HoldersDisjoint(n.c)
  {
    hide Conflict;
  }

  lemma ReleaseTickets(s: Sys, g: nat)
    requires FrontierInv(s.c) && Domains(s) && AllTickets(s) && Enabled(s, Release(g))
    ensures var n := Step(s, Release(g)); FrontierInv(n.c) && Domains(n) && AllTickets(n)
  {
    hide Conflict, Normal, TouchesRoot;
    assert TicketInv(s, g);
    ReleaseOthers(s, g);
    ReleaseOwn(s, g);
    hide TicketInv, SameTicket, Step;
    TicketsButOne(s, Step(s, Release(g)), g);
  }

  lemma ReleaseOthers(s: Sys, g: nat)
    requires FrontierInv(s.c) && Domains(s) && Enabled(s, Release(g))
    ensures var n := Step(s, Release(g));
      FrontierInv(n.c) && Domains(n) && forall t :: t in n.phase && t != g ==> t in s.phase && SameTicket(s, n, t)
  {
    hide Conflict, Normal, TouchesRoot;
  }

  lemma ReleaseOwn(s: Sys, g: nat)
    requires FrontierInv(s.c) && Domains(s) && Enabled(s, Release(g)) && TicketInv(s, g)
    ensures var n := Step(s, Release(g)); g in n.phase && g in n.spec && TicketInv(n, g)
  {
    hide Conflict, Normal, TouchesRoot, C.Advance;
  }

  lemma ReleaseKeeps(s: Sys, g: nat)
    requires Inv(s) && Enabled(s, Release(g))
    ensures Inv(Step(s, Release(g)))
  {
    hide Conflict, Normal, TouchesRoot, QueueInv, NoOvertaking, HoldersDisjoint, TicketInv, AllTickets;
    var n := Step(s, Release(g));
    ReleaseTickets(s, g);
    ReleaseSeparate(s, n, g);
    QueueUnchanged(s, n, g);
    assert n.c.held.Keys == s.c.held.Keys - {g};
  }

  lemma StepKeeps(s: Sys, a: Action)
    requires Inv(s) && Enabled(s, a)
    ensures Inv(Step(s, a))
  {
    hide Inv, Step;
    match a
    case Register(specs) => RegisterKeeps(s, specs);
    case AskPlan => JoinKeeps(s, a);
    case Join(_) => JoinKeeps(s, a);
    case PlanReturns => PermitKeeps(s, a);
    case Grant(k) => if s.c.waiters[k].owner.Ticket? { GrantTicketKeeps(s, k); } else { PermitKeeps(s, a); }
    case Cancel(k) => if s.c.waiters[k].owner.Ticket? { CancelTicketKeeps(s, k); } else { PermitKeeps(s, a); }
    case Discover(_, _, _) => DiscoverKeeps(s, a);
    case Extend(t) => ExtendKeeps(s, t);
    case Release(t) => ReleaseKeeps(s, t);
  }
}
