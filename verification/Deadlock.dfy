/** Exactly when the tool scheduler can deadlock. A call that plans claims but has no
    Activator can starve behind Activator calls that hold every permit while they wait to
    extend onto its claims; which plans allow that is decided here. */
module Deadlock {
  import opened Claims
  import opened Scheduler
  import opened SchedulerRuns
  import C = CoordState

  /** The jam after `i` of `p` Activator calls have been granted and have discovered `complete`. */
  ghost function Jam(p: nat, plan: seq<Claim>, complete: seq<Claim>, i: nat): Sys
    requires i <= p
  {
    Sys(C.Coord(p + 1, i + 1, p + 1 == C.MAX_UINT64,
                set t: nat | i < t <= p && Upto(t, p),
                map t: nat | 0 <= t <= i && Upto(t, i) :: if t == 0 then plan else complete,
                {},
                map t: nat | 1 <= t <= i && Upto(t, i) :: [ROOT_READ],
                p, i, i, []),
        map t: nat | 0 <= t <= p && Upto(t, p) :: if 1 <= t <= i then Extending else New,
        map t: nat | 0 <= t <= p && Upto(t, p) :: SpecIn(plan, t),
        0)
  }

  predicate Upto(t: nat, hi: nat)
  {
    t <= hi
  }

  lemma FrontierIs(frontier: nat, next: nat, pending: set<nat>, v: nat)
    requires frontier <= v <= next && (forall t :: frontier <= t < v ==> t !in pending) && (v < next ==> v in pending)
    ensures C.Advance(frontier, next, pending) == v
  {
  }

  function SpecIn(plan: seq<Claim>, t: nat): C.CallSpec
  {
    if t == 0 then C.CallSpec(false, false, plan) else C.CallSpec(false, true, [ROOT_READ])
  }

  function Specs(p: nat, plan: seq<Claim>): seq<C.CallSpec>
  {
    seq(p + 1, i requires 0 <= i => SpecIn(plan, i))
  }

  /** An extra claim that makes the complete set clash with the plan, without blocking the
      other Activator calls from being granted. */
  ghost predicate Jams(p: nat, plan: seq<Claim>, extra: Claim, complete: seq<Claim>)
  {
    && 1 <= p <= MAX_PARALLEL
    && Normal(plan) && TouchesRoot(plan) && ROOT_WRITE !in plan
    && Extendable([ROOT_READ], [extra]) && IsNormalFormOf(complete, [ROOT_READ] + [extra])
    && Conflict(plan, complete) && (p > 1 ==> !Conflict(complete, [ROOT_READ]))
  }

  lemma RootReadPlanned()
    ensures Normal([ROOT_READ]) && TouchesRoot([ROOT_READ])
  {
    assert ROOT_READ in [ROOT_READ];
  }

  lemma RootReadsAgree(plan: seq<Claim>)
    requires ROOT_WRITE !in plan
    ensures !Conflict(plan, [ROOT_READ])
  {
    forall c, d | c in plan && d in [ROOT_READ] ensures !Clash(c, d) {
      match c
      case Claim(r, Read) =>
      case Claim(r, Write) =>
    }
  }

  lemma JamClassified(p: nat, plan: seq<Claim>, complete: seq<Claim>)
    requires 1 <= p
    ensures var r, j := C.AddCalls(C.Fresh(p), 0, Specs(p, plan)), Jam(p, plan, complete, 0).c;
      r.pending == j.pending && r.final == j.final && r.released == j.released
  {
    var r, j := C.AddCalls(C.Fresh(p), 0, Specs(p, plan)), Jam(p, plan, complete, 0).c;
    forall t: nat
      ensures t in r.pending <==> t in j.pending
      ensures t in r.final <==> t in j.final
      ensures t in r.final ==> r.final[t] == j.final[t]
      ensures t !in r.released
    {
      C.BatchMember(C.Fresh(p), 0, Specs(p, plan), t);
      hide C.AddCalls;
      if t <= p {
        assert C.InBatch(0, Specs(p, plan), t) && C.SpecOf(0, Specs(p, plan), t) == SpecIn(plan, t);
      }
    }
  }

  lemma JamStarts(p: nat, plan: seq<Claim>, complete: seq<Claim>)
    requires 1 <= p <= MAX_PARALLEL && Normal(plan) && TouchesRoot(plan)
    ensures Enabled(Init(p), Register(Specs(p, plan)))
    ensures Step(Init(p), Register(Specs(p, plan))) == Jam(p, plan, complete, 0)
  {
    hide Normal, TouchesRoot, C.AddCalls, C.Advance;
    RootReadPlanned();
    var s, specs := Init(p), Specs(p, plan);
    var n, j := Step(s, Register(specs)), Jam(p, plan, complete, 0);
    JamClassified(p, plan, complete);
    FrontierIs(0, p + 1, n.c.pending, 1);
    assert n.c == j.c;
    assert n.phase == j.phase && n.spec == j.spec;
  }

  ghost function Round(extra: Claim, complete: seq<Claim>, t: nat): seq<Action>
  {
    [Join(t), Grant(0), Discover(t, [extra], complete)]
  }

  lemma JamJoins(p: nat, plan: seq<Claim>, extra: Claim, complete: seq<Claim>, i: nat) returns (s: Sys)
    requires Jams(p, plan, extra, complete) && i < p
    ensures Enabled(Jam(p, plan, complete, i), Join(i + 1)) && s == Step(Jam(p, plan, complete, i), Join(i + 1))
    ensures Enabled(s, Grant(0))
  {
    hide Normal, TouchesRoot, Conflict, IsNormalFormOf, Extendable;
    var j := Jam(p, plan, complete, i);
    s := Step(j, Join(i + 1));
    RootReadsAgree(plan);
    RootReadsAgree([ROOT_READ]);
    assert C.ClaimsFree(s.c, i + 1, [ROOT_READ]);
  }

  lemma JamNext(p: nat, plan: seq<Claim>, complete: seq<Claim>, i: nat)
    requires i < p
    ensures var j, k := Jam(p, plan, complete, i), Jam(p, plan, complete, i + 1);
      && k.c.pending == j.c.pending - {i + 1}
      && k.c.final == j.c.final[i + 1 := complete]
      && k.c.held == j.c.held[i + 1 := [ROOT_READ]]
      && k.phase == j.phase[i + 1 := Extending]
  {
  }

  lemma JamDiscovers(p: nat, plan: seq<Claim>, extra: Claim, complete: seq<Claim>, i: nat, g: Sys)
    requires Jams(p, plan, extra, complete) && i < p
    requires var j := Jam(p, plan, complete, i);
      g == j.(c := j.c.(held := j.c.held[i + 1 := [ROOT_READ]], inUse := i + 1, waitSeq := i + 1), phase := j.phase[i + 1 := Activating])
    ensures Enabled(g, Discover(i + 1, [extra], complete))
    ensures Step(g, Discover(i + 1, [extra], complete)) == Jam(p, plan, complete, i + 1)
  {
    hide Normal, TouchesRoot, Conflict, IsNormalFormOf, Extendable, C.Advance;
    var j, k := Jam(p, plan, complete, i), Jam(p, plan, complete, i + 1);
    JamNext(p, plan, complete, i);
    FrontierIs(i + 1, p + 1, k.c.pending, i + 2);
    assert j.phase[i + 1 := Activating][i + 1 := Extending] == j.phase[i + 1 := Extending];
  }

  lemma JamGrows(p: nat, plan: seq<Claim>, extra: Claim, complete: seq<Claim>, i: nat)
    requires Jams(p, plan, extra, complete) && i < p
    ensures Legal(Jam(p, plan, complete, i), Round(extra, complete, i + 1))
    ensures Exec(Jam(p, plan, complete, i), Round(extra, complete, i + 1)) == Jam(p, plan, complete, i + 1)
  {
    hide Normal, TouchesRoot, Conflict, IsNormalFormOf, Extendable, C.Advance, Legal, Exec, C.ClaimsFree;
    var j := Jam(p, plan, complete, i);
    var s := JamJoins(p, plan, extra, complete, i);
    var g := Step(s, Grant(0));
    JamDiscovers(p, plan, extra, complete, i, g);
    ThreeSteps(j, Join(i + 1), Grant(0), Discover(i + 1, [extra], complete));
  }

  lemma ThreeSteps(s: Sys, a: Action, b: Action, c: Action)
    requires Enabled(s, a) && Enabled(Step(s, a), b) && Enabled(Step(Step(s, a), b), c)
    ensures Legal(s, [a, b, c]) && Exec(s, [a, b, c]) == Step(Step(Step(s, a), b), c)
  {
    hide Enabled, Step;
    var s1 := Step(s, a);
    var s2 := Step(s1, b);
    assert [a, b, c][1..] == [b, c] && [b, c][1..] == [c] && [c][1..] == [];
    assert Legal(s2, [c]) && Exec(s2, [c]) == Step(s2, c);
    assert Legal(s1, [b, c]) && Exec(s1, [b, c]) == Exec(s2, [c]);
  }

  ghost function Rounds(extra: Claim, complete: seq<Claim>, i: nat): seq<Action>
  {
    if i == 0 then [] else Rounds(extra, complete, i - 1) + Round(extra, complete, i)
  }

  lemma {:induction false} JamFills(p: nat, plan: seq<Claim>, extra: Claim, complete: seq<Claim>, i: nat)
    requires Jams(p, plan, extra, complete) && i <= p
    ensures Legal(Jam(p, plan, complete, 0), Rounds(extra, complete, i))
    ensures Exec(Jam(p, plan, complete, 0), Rounds(extra, complete, i)) == Jam(p, plan, complete, i)
  {
    hide Jams, Jam, Round, Enabled, Step;
    if i > 0 {
      JamFills(p, plan, extra, complete, i - 1);
      JamGrows(p, plan, extra, complete, i - 1);
      RunConcat(Jam(p, plan, complete, 0), Rounds(extra, complete, i - 1), Round(extra, complete, i));
    }
  }

  /** All permits are held by calls that wait for call 0, and call 0 waits for a permit. */
  lemma JamIsStuck(p: nat, plan: seq<Claim>, extra: Claim, complete: seq<Claim>)
    requires Jams(p, plan, extra, complete)
    ensures Enabled(Jam(p, plan, complete, p), Join(0))
    ensures Stuck(Step(Jam(p, plan, complete, p), Join(0)))
  {
    hide Normal, TouchesRoot, Conflict, IsNormalFormOf, Extendable;
    var s := Step(Jam(p, plan, complete, p), Join(0));
    assert s.phase[0] == Queued;
    forall a ensures !Productive(s, a) {
      if a.Extend? && At(s, a.t, Extending) {
        assert 0 in s.c.final && 0 < a.t && 0 !in s.c.released;
      }
    }
  }

  ghost function JamRun(p: nat, plan: seq<Claim>, extra: Claim, complete: seq<Claim>): seq<Action>
  {
    [Register(Specs(p, plan))] + Rounds(extra, complete, p) + [Join(0)]
  }

  lemma JamRunDeadlocks(p: nat, plan: seq<Claim>, extra: Claim, complete: seq<Claim>)
    requires Jams(p, plan, extra, complete)
    ensures Legal(Init(p), JamRun(p, plan, extra, complete))
    ensures Stuck(Exec(Init(p), JamRun(p, plan, extra, complete)))
  {
    hide Jam, Round, Enabled, Step, Stuck, Init, Normal, TouchesRoot, Conflict, IsNormalFormOf, Extendable;
    var s, j := Init(p), Jam(p, plan, complete, 0);
    JamStarts(p, plan, complete);
    JamFills(p, plan, extra, complete, p);
    JamIsStuck(p, plan, extra, complete);
    var start := [Register(Specs(p, plan))];
    assert start[1..] == [];
    assert Legal(j, []) && Exec(j, []) == j;
    assert Legal(s, start) && Exec(s, start) == Exec(j, []);
    RunConcat(s, start, Rounds(extra, complete, p));
    var full := Exec(s, start + Rounds(extra, complete, p));
    var jammed := Step(full, Join(0));
    assert [Join(0)][1..] == [] && Legal(jammed, []) && Exec(jammed, []) == jammed;
    assert Legal(full, [Join(0)]) && Exec(full, [Join(0)]) == Exec(jammed, []);
    RunConcat(s, start + Rounds(extra, complete, p), [Join(0)]);
  }

  lemma {:induction false} RoundsRegisterNothing(extra: Claim, complete: seq<Claim>, i: nat)
    ensures forall k :: 0 <= k < |Rounds(extra, complete, i)| ==> !Rounds(extra, complete, i)[k].Register?
  {
    if i > 0 {
      RoundsRegisterNothing(extra, complete, i - 1);
    }
  }

  lemma JamRunUses(p: nat, plan: seq<Claim>, extra: Claim, complete: seq<Claim>, allowed: iset<seq<Claim>>)
    requires plan in allowed
    ensures UsesOnly(JamRun(p, plan, extra, complete), allowed)
  {
    RoundsRegisterNothing(extra, complete, p);
    var r := JamRun(p, plan, extra, complete);
    forall k | 0 <= k < |r| && r[k].Register?
      ensures forall i :: 0 <= i < |r[k].specs| ==> SpecAllowed(r[k].specs[i], allowed)
    {
      assert r[k] == Register(Specs(p, plan));
    }
  }

  lemma NormalFormOfPair(extra: Claim) returns (complete: seq<Claim>)
    requires ValidClaim(extra)
    ensures IsNormalFormOf(complete, [ROOT_READ] + [extra])
  {
    RootReadPlanned();
    var input := [ROOT_READ] + [extra];
    if extra.resource == ROOT {
      complete := [extra];
      match extra
      case Claim(r, Read) =>
      case Claim(r, Write) =>
      assert forall c :: c in complete <==> c in input && (c.access == Write || Claim(c.resource, Write) !in input);
    } else {
      complete := Insert([ROOT_READ], extra);
      assert Normal(complete);
    }
  }

  lemma RootWriteJams(plan: seq<Claim>) returns (complete: seq<Claim>)
    requires Normal(plan) && TouchesRoot(plan) && ROOT_WRITE !in plan
    ensures Jams(1, plan, ROOT_WRITE, complete)
  {
    hide Conflict, Normal, TouchesRoot, IsNormalFormOf, Extendable, ValidClaim;
    RootIsValid();
    WriteExtends(ROOT_WRITE);
    complete := NormalFormOfPair(ROOT_WRITE);
    InNormalForm(complete, ROOT_WRITE);
    RootWriterConflicts(complete, plan);
    ConflictSymmetric(complete, plan);
  }

  lemma RootIsValid()
    ensures ValidClaim(ROOT_READ) && ValidClaim(ROOT_WRITE)
  {
  }

  lemma WriteExtends(extra: Claim)
    requires ValidClaim(extra) && extra.access == Write
    ensures Extendable([ROOT_READ], [extra])
  {
    RootIsValid();
    hide ValidClaim;
  }

  lemma InNormalForm(complete: seq<Claim>, extra: Claim)
    requires IsNormalFormOf(complete, [ROOT_READ] + [extra]) && extra.access == Write
    ensures extra in complete && (extra.resource != ROOT ==> ROOT_WRITE !in complete)
  {
    var input := [ROOT_READ] + [extra];
    assert extra in input;
    assert ROOT_WRITE in input ==> ROOT_WRITE == extra;
  }

  lemma OtherWriteJams(p: nat, plan: seq<Claim>, c: Claim) returns (complete: seq<Claim>)
    requires 1 <= p <= MAX_PARALLEL && Normal(plan) && TouchesRoot(plan) && ROOT_WRITE !in plan && c in plan && c.resource != ROOT
    ensures Jams(p, plan, Claim(c.resource, Write), complete)
  {
    var extra := Claim(c.resource, Write);
    assert ValidClaim(extra);
    hide Normal, TouchesRoot, IsNormalFormOf, Extendable, ValidClaim;
    WriteExtends(extra);
    complete := NormalFormOfPair(extra);
    InNormalForm(complete, extra);
    RootReadsAgree(complete);
    assert Clash(c, extra);
  }

  /** An unsafe plan always has an extra claim that jams the scheduler. */
  lemma UnsafePlanJams(p: nat, plan: seq<Claim>) returns (extra: Claim, complete: seq<Claim>)
    requires 1 <= p <= MAX_PARALLEL && Normal(plan) && TouchesRoot(plan) && !SafePlan(p, plan)
    ensures Jams(p, plan, extra, complete)
  {
    hide Normal, TouchesRoot, Jams;
    if p == 1 {
      extra := ROOT_WRITE;
      complete := RootWriteJams(plan);
    } else {
      var c :| c in plan && c.resource != ROOT;
      extra := Claim(c.resource, Write);
      complete := OtherWriteJams(p, plan, c);
    }
  }

  /** The exact condition: over every run of every interleaving, no deadlock is reachable if
      and only if every plan that calls without an Activator may use either writes the root or,
      with at least two permits, touches nothing but the root. */
  lemma DeadlockFreeIff(p: nat, allowed: iset<seq<Claim>>)
    requires 1 <= p <= MAX_PARALLEL
    requires forall plan :: plan in allowed ==> Normal(plan) && TouchesRoot(plan)
    ensures (forall plan :: plan in allowed ==> SafePlan(p, plan)) <==>
            (forall run :: Legal(Init(p), run) && UsesOnly(run, allowed) ==> !Stuck(Exec(Init(p), run)))
  {
    hide Stuck, Legal, Exec, Init, Normal, TouchesRoot, SafePlan, UsesOnly, Jams;
    if forall plan :: plan in allowed ==> SafePlan(p, plan) {
      forall run | Legal(Init(p), run) && UsesOnly(run, allowed) ensures !Stuck(Exec(Init(p), run)) {
        SafePlansNeverDeadlock(p, run, allowed);
      }
    } else {
      var plan :| plan in allowed && !SafePlan(p, plan);
      var extra, complete := UnsafePlanJams(p, plan);
      JamRunDeadlocks(p, plan, extra, complete);
      JamRunUses(p, plan, extra, complete, allowed);
    }
  }
}
