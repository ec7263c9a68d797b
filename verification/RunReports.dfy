/** What a stream reports when a run stops: a decided stop is always delivered, and exactly when
    a failed run delivers its end too (runtime/loops/stream.go:15-20, 87-134, 165-208, 356-394,
    655-674). */
module RunReports {
  import opened ToolHistory
  import opened RunMachine

  // ---- what else every section keeps ----

  /** An error inside a Next, or at the end of the run, comes from Close; a closed run has its
      context cancelled, and has an error unless its stop was decided before. */
  ghost predicate Closing(s: Run)
  {
    && (!s.err.NoErr? && (!s.pc.Idle? || Ready(s)) ==> s.closed)
    && (s.closed ==> !s.ctx.NoErr?)
    && (s.closed || s.finished ==> !s.err.NoErr? || Ready(s))
  }

  ghost predicate Good(s: Run)
  {
    Outcome(s) && Closing(s)
  }

  lemma ClosingKept(s: Run, a: Action)
    requires Good(s) && Enabled(s, a)
    ensures Closing(Step(s, a))
  {
    OutcomeFacts(s);
    hide Outcome, Enabled, Step;
    if ModelSide(a) {
      ClosingByModel(s, a);
    } else {
      ClosingByTools(s, a);
    }
  }

  lemma ClosingByModel(s: Run, a: Action)
    requires Facts(s) && Closing(s) && Enabled(s, a) && ModelSide(a)
    ensures Closing(Step(s, a))
  {
    hide FromModel, Calls;
  }

  lemma ClosingByTools(s: Run, a: Action)
    requires Facts(s) && Closing(s) && Enabled(s, a) && !ModelSide(a)
    ensures Closing(Step(s, a))
  {
    hide Acceptable, Matching, StopBeforeTools, Calls, Results, FromModel;
  }

  /** What is needed of `Outcome` here. */
  ghost predicate Facts(s: Run)
  {
    && (Ready(s) ==> !s.reason.NoReason? && !AtWork(s.pc))
    && (!s.reason.NoReason? && s.err.NoErr? ==> Ready(s))
    && (s.phase.RunEnd? ==> s.pc.Top? || s.pc.Stepping?)
    && (s.pc.Failing? ==> !s.pc.err.NoErr?)
    && (s.pc.Delivering? && s.pc.event.RunEnded? ==> s.phase.Done?)
    && (s.phase.Done? && s.pc.Delivering? ==> s.pc.event.RunEnded?)
  }

  lemma OutcomeFacts(s: Run)
    requires Outcome(s)
    ensures Facts(s)
    ensures !s.phase.Done? ==> RunEnds(s.delivered) == 0
    ensures s.phase.Done? && !s.pc.Delivering? ==> RunEnds(s.delivered) == 1
  {
    hide RunEnds;
  }

  lemma {:induction false} GoodRuns(s: Run, actions: seq<Action>)
    requires Good(s) && Legal(s, actions)
    ensures Good(Exec(s, actions))
    decreases |actions|
  {
    hide Good, Enabled, Step;
    if actions != [] {
      GoodKept(s, actions[0]);
      GoodRuns(Step(s, actions[0]), actions[1..]);
    }
  }

  lemma GoodKept(s: Run, a: Action)
    requires Good(s) && Enabled(s, a)
    ensures Good(Step(s, a))
  {
    hide Outcome, Closing, Enabled, Step;
    OutcomeKept(s, a);
    ClosingKept(s, a);
  }

  lemma InitialGood(s: Run)
    requires Initial(s)
    ensures Good(s)
  {
    InitialHolds(s);
    hide Data, Outcome;
  }

  // ---- a decided stop is delivered ----

  lemma ReadyStays(s: Run, a: Action)
    requires Facts(s) && Enabled(s, a) && Ready(s)
    ensures Ready(Step(s, a)) && Step(s, a).err == s.err
  {
    hide Acceptable, Matching, StopBeforeTools, Calls, Results, FromModel;
  }

  lemma {:induction false} ReadyRuns(s: Run, actions: seq<Action>)
    requires Good(s) && Legal(s, actions) && Ready(s)
    ensures Ready(Exec(s, actions)) && Exec(s, actions).err == s.err && Exec(s, actions).reason == s.reason
    decreases |actions|
  {
    if actions != [] {
      OutcomeFacts(s);
      hide Good, Enabled, Step, Ready, Facts;
      ReadyStays(s, actions[0]);
      SameReason(s, actions[0]);
      GoodKept(s, actions[0]);
      ReadyRuns(Step(s, actions[0]), actions[1..]);
    }
  }

  lemma SameReason(s: Run, a: Action)
    requires Facts(s) && Enabled(s, a) && Ready(s)
    ensures Step(s, a).reason == s.reason
  {
    hide Step, Enabled;
    ReasonStays(s, a);
  }

  /** How many more sections of its own the reader runs before Next returns. */
  function ToGo(s: Run): nat
  {
    match s.pc
    case Top => if s.phase.Done? then 2 else 4
    case Stepping => if s.phase.Done? then 1 else 3
    case Delivering(_) => 1
    case _ => 0
  }

  predicate OfReader(a: Action)
  {
    !a.Close? && !a.CancelContext?
  }

  /** At the end of a run the reader always has a section to run, each brings it nearer to its
      return, and neither Close nor a cancellation changes how near it is. */
  lemma EndComesNearer(s: Run, a: Action)
    requires Good(s) && Ready(s) && Enabled(s, a) && !s.pc.Idle?
    ensures if OfReader(a) then ToGo(Step(s, a)) < ToGo(s) else ToGo(Step(s, a)) == ToGo(s)
    ensures exists b :: OfReader(b) && Enabled(s, b)
  {
    OutcomeFacts(s);
    hide Outcome, Acceptable, Matching, StopBeforeTools, Calls, Results, FromModel;
    var b := if s.pc.Top? then Check else if s.pc.Delivering? then Deliver else if s.phase.Done? then Exhaust else EmitRunEnd;
    assert OfReader(b) && Enabled(s, b);
  }

  /** Once a stop is decided, whatever Close and the context do, a Next that returns has
      delivered the end of the run with its reason. */
  lemma DecidedStopIsReported(s: Run, actions: seq<Action>)
    requires Good(s) && Ready(s) && Legal(s, actions)
    ensures var t := Exec(s, actions);
      t.pc.Idle? ==> RunEnds(t.delivered) == 1 && RunEnded(s.reason) in t.delivered
  {
    hide Legal, Exec, Closing;
    ReadyRuns(s, actions);
    GoodRuns(s, actions);
    var t := Exec(s, actions);
    OutcomeFacts(t);
    if t.pc.Idle? {
      var i := EndIsThere(t.delivered);
    }
  }

  lemma {:induction false} EndIsThere(events: seq<Event>) returns (i: nat)
    requires RunEnds(events) >= 1
    ensures i < |events| && events[i].RunEnded?
  {
    if events[|events| - 1].RunEnded? {
      i := |events| - 1;
    } else {
      i := EndIsThere(events[..|events| - 1]);
    }
  }

  // ---- an error and the end of the run ----

  /** Both were reported. */
  ghost predicate Both(s: Run)
  {
    !s.err.NoErr? && RunEnds(s.delivered) >= 1
  }

  ghost predicate CanReportBoth(s: Run)
  {
    exists actions: seq<Action> :: Legal(s, actions) && Both(Exec(s, actions))
  }

  /** Between the check of the context and a section that may decide to stop, which does not
      check again: the policy decision after a model turn, or a model turn that is one too
      many. */
  predicate Window(s: Run)
  {
    s.pc.Stepping? && (s.phase.Decide? || (s.phase.ModelStart? && s.turns >= s.limits.modelTurns))
  }

  /** Failed, not at its end, and past every point that could still decide to stop. */
  ghost predicate Dead(s: Run)
  {
    !s.err.NoErr? && !Ready(s) && !Window(s)
  }

  lemma DeadStays(s: Run, a: Action)
    requires Good(s) && Dead(s) && Enabled(s, a)
    ensures Dead(Step(s, a))
  {
    OutcomeFacts(s);
    hide Outcome;
    hide Enabled, Step;
    if ModelSide(a) {
      DeadByModel(s, a);
    } else {
      DeadByTools(s, a);
    }
  }

  lemma DeadByModel(s: Run, a: Action)
    requires Facts(s) && Closing(s) && Dead(s) && Enabled(s, a) && ModelSide(a)
    ensures Dead(Step(s, a))
  {
    hide FromModel, Calls;
  }

  lemma DeadByTools(s: Run, a: Action)
    requires Facts(s) && Closing(s) && Dead(s) && Enabled(s, a) && !ModelSide(a)
    ensures Dead(Step(s, a))
  {
    hide Acceptable, Matching, StopBeforeTools, Calls, Results, FromModel;
  }

  lemma {:induction false} DeadRuns(s: Run, actions: seq<Action>)
    requires Good(s) && Dead(s) && Legal(s, actions)
    ensures !Both(Exec(s, actions))
    decreases |actions|
  {
    if actions == [] {
      OutcomeFacts(s);
    } else {
      hide Good, Dead, Enabled, Step, Both;
      DeadStays(s, actions[0]);
      GoodKept(s, actions[0]);
      DeadRuns(Step(s, actions[0]), actions[1..]);
    }
  }

  /** From the end of the run the reader delivers it. */
  lemma {:induction false} EndIsDelivered(s: Run) returns (actions: seq<Action>)
    requires Good(s) && Ready(s)
    ensures Legal(s, actions) && RunEnds(Exec(s, actions).delivered) >= 1
    decreases ToGo(s)
  {
    OutcomeFacts(s);
    if s.phase.Done? && !s.pc.Delivering? {
      actions := [];
    } else {
      hide Outcome;
      EndComesNearer(s, Close);
      var a :| OfReader(a) && Enabled(s, a);
      EndComesNearer(s, a);
      ReadyStays(s, a);
      hide Step, Enabled, OfReader, Ready, Facts, Closing;
      GoodKept(s, a);
      var rest := EndIsDelivered(Step(s, a));
      One(s, a);
      LegalTwice(s, [a], rest);
      actions := [a] + rest;
    }
  }

  /** An assistant message that ends a run. */
  function SomeAnswer(): (m: Message)
    ensures FromModel(m) && Calls(m) == []
  {
    var m := Message(Assistant, []);
    assert CallsIn([]) == [] && ResultsIn([]) == [];
    m
  }

  lemma WindowStops(s: Run)
    requires Window(s)
    ensures var a := if s.phase.Decide? then Answer(SomeAnswer()) else BeginTurn;
      Enabled(s, a) && Ready(Step(s, a)) && Step(s, a).err == s.err
  {
    hide SomeAnswer;
  }

  lemma WindowReports(s: Run)
    requires Good(s) && !s.err.NoErr? && (Window(s) || Ready(s))
    ensures CanReportBoth(s)
  {
    hide Outcome, Closing;
    var first: seq<Action> := [];
    var t := s;
    if !Ready(s) {
      WindowStops(s);
      var a := if s.phase.Decide? then Answer(SomeAnswer()) else BeginTurn;
      hide Step, Enabled;
      GoodKept(s, a);
      One(s, a);
      first, t := [a], Step(s, a);
    }
    hide Ready, Window;
    var rest := EndIsDelivered(t);
    ReadyRuns(t, rest);
    LegalTwice(s, first, rest);
    assert Both(Exec(s, first + rest));
  }

  /** Exactly when a Close makes it possible that the stream reports both an error and the end
      of the run: when it falls between the check of the context and a section that decides to
      stop. (A second Close changes nothing: then it is possible if it was before.) */
  lemma CloseReportsBothIff(s: Run)
    requires Good(s)
    ensures Good(Step(s, Close))
    ensures CanReportBoth(Step(s, Close)) <==> Window(s) || (s.closed && !s.err.NoErr? && Ready(s))
    ensures Window(s) && !s.closed ==> s.err.NoErr? && s.reason.NoReason? && !s.finished
  {
    OutcomeFacts(s);
    GoodKept(s, Close);
    var t := Step(s, Close);
    assert t == CloseRun(s);
    if Window(s) {
      assert !t.err.NoErr? && Window(t);
      hide Outcome, Closing, Window, Ready;
      WindowReports(t);
    } else if s.closed && !s.err.NoErr? && Ready(s) {
      hide Outcome, Closing, Window, Ready;
      WindowReports(t);
    } else if t.err.NoErr? {
      NeverAnError(t);
    } else {
      assert Dead(t);
      forall actions | Legal(t, actions) ensures !Both(Exec(t, actions)) {
        DeadRuns(t, actions);
      }
    }
  }

  /** A run that was closed without an error has none later. */
  lemma NeverAnError(t: Run)
    requires Good(t) && t.closed && t.err.NoErr?
    ensures !CanReportBoth(t)
  {
    forall actions | Legal(t, actions) ensures !Both(Exec(t, actions)) {
      ReadyRuns(t, actions);
    }
  }

  // ---- with at least one model turn allowed, the policy decision is the only such place ----

  /** Each call between two sections belongs to one phase. */
  predicate InPhase(s: Run)
  {
    && (s.pc.Committing? ==> s.phase.AfterTools?)
    && (s.pc.Preparing? ==> s.phase.ModelStart?)
    && (s.pc.Starting? ==> s.phase.Decide?)
    && (s.pc.Failing? ==> !s.pc.err.NoErr?)
  }

  /** A turn begins only while another one is allowed. */
  predicate TurnsLeft(s: Run)
  {
    && s.limits.modelTurns > 0
    && (s.phase.RunStart? ==> s.turns == 0)
    && (s.phase.ToolDrain? || s.phase.AfterTools? || s.pc.Starting? ==> s.turns < s.limits.modelTurns)
    && (s.phase.ModelStart? ==> s.pc.Preparing? || s.pc.Failing? || (s.pc.Idle? && !s.err.NoErr?) || s.turns < s.limits.modelTurns)
  }

  lemma TurnsLeftKept(s: Run, a: Action)
    requires InPhase(s) && TurnsLeft(s) && Enabled(s, a)
    ensures InPhase(Step(s, a)) && TurnsLeft(Step(s, a))
  {
    hide InPhase, TurnsLeft, Enabled, Step;
    if ModelSide(a) {
      TurnsLeftByModel(s, a);
    } else {
      TurnsLeftByTools(s, a);
    }
  }

  lemma TurnsLeftByModel(s: Run, a: Action)
    requires InPhase(s) && TurnsLeft(s) && Enabled(s, a) && ModelSide(a)
    ensures InPhase(Step(s, a)) && TurnsLeft(Step(s, a))
  {
    hide FromModel, Calls;
  }

  lemma TurnsLeftByTools(s: Run, a: Action)
    requires InPhase(s) && TurnsLeft(s) && Enabled(s, a) && !ModelSide(a)
    ensures InPhase(Step(s, a)) && TurnsLeft(Step(s, a))
  {
    hide AdmitCalls, CommitResults, Matching, Calls, Results, FromModel;
    match a {
      case Admit(m) => TurnsLeftAdmit(s, m);
      case Commit(stalled) => TurnsLeftCommit(s, stalled);
      case _ =>
    }
  }

  lemma TurnsLeftAdmit(s: Run, m: Message)
    requires InPhase(s) && TurnsLeft(s) && s.pc.Stepping? && s.phase.Decide?
    ensures var t := AdmitCalls(s, m); InPhase(t) && TurnsLeft(t)
  {
    hide Acceptable, Calls, IDs;
  }

  lemma TurnsLeftCommit(s: Run, stalled: bool)
    requires InPhase(s) && TurnsLeft(s) && s.pc.Committing?
    ensures var t := CommitResults(s, stalled); InPhase(t) && TurnsLeft(t)
  {
    hide Matching, Calls, Results;
  }

  lemma {:induction false} TurnsLeftRuns(s: Run, actions: seq<Action>)
    requires InPhase(s) && TurnsLeft(s) && Legal(s, actions)
    ensures TurnsLeft(Exec(s, actions))
    decreases |actions|
  {
    hide InPhase, TurnsLeft, Enabled, Step;
    if actions != [] {
      TurnsLeftKept(s, actions[0]);
      TurnsLeftRuns(Step(s, actions[0]), actions[1..]);
    }
  }

  /** In every run: the first Close can make the stream report both exactly when it falls
      between the check of the context and the policy decision after a model turn. */
  lemma ReachableCloseReportsBothIff(s: Run, actions: seq<Action>)
    requires Initial(s) && s.limits.modelTurns > 0 && Legal(s, actions) && !Exec(s, actions).closed
    ensures var t := Exec(s, actions);
      CanReportBoth(Step(t, Close)) <==> t.pc.Stepping? && t.phase.Decide? && t.err.NoErr? && t.reason.NoReason? && !t.finished
  {
    InitialGood(s);
    GoodRuns(s, actions);
    TurnsLeftRuns(s, actions);
    hide Legal, Exec, Good, CanReportBoth;
    CloseReportsBothIff(Exec(s, actions));
  }

  // ---- which runs report both ----

  /** The state after the first n actions. */
  ghost function After(s: Run, actions: seq<Action>, n: nat): Run
    requires Legal(s, actions) && n <= |actions|
    decreases n
  {
    if n == 0 then s else After(Step(s, actions[0]), actions[1..], n - 1)
  }

  lemma {:induction false} AfterNext(s: Run, actions: seq<Action>, n: nat)
    requires Legal(s, actions) && n < |actions|
    ensures Enabled(After(s, actions, n), actions[n])
    ensures After(s, actions, n + 1) == Step(After(s, actions, n), actions[n])
    decreases n
  {
    hide Enabled, Step;
    if n > 0 {
      AfterNext(Step(s, actions[0]), actions[1..], n - 1);
    }
  }

  lemma {:induction false} AfterAll(s: Run, actions: seq<Action>)
    requires Legal(s, actions)
    ensures After(s, actions, |actions|) == Exec(s, actions)
    decreases |actions|
  {
    hide Enabled, Step;
    if actions != [] {
      AfterAll(Step(s, actions[0]), actions[1..]);
    }
  }

  /** The i-th action is the Close that ends the run while a decision is under way. */
  ghost predicate ClosesInWindow(s: Run, actions: seq<Action>, i: nat)
    requires Legal(s, actions)
  {
    i < |actions| && actions[i].Close? && !After(s, actions, i).closed && Window(After(s, actions, i))
  }

  /** Nothing but Close and cancellations strictly between two actions. */
  predicate ReaderWaits(actions: seq<Action>, i: nat, j: nat)
    requires j <= |actions|
  {
    forall k :: i < k < j ==> !OfReader(actions[k])
  }

  /** A Close fell into the window and the reader's next section, the j-th action, stopped the
      run. */
  ghost predicate StopsAfterClose(s: Run, actions: seq<Action>, i: nat, j: nat)
    requires Legal(s, actions)
  {
    && i < j < |actions| && ClosesInWindow(s, actions, i) && ReaderWaits(actions, i, j)
    && OfReader(actions[j]) && Ready(After(s, actions, j + 1))
  }

  ghost predicate Late(s: Run)
  {
    !s.err.NoErr? && Window(s)
  }

  ghost predicate Doomed(s: Run)
  {
    !s.err.NoErr? && Ready(s)
  }

  /** What one action does to a failed run. */
  ghost predicate FailedStep(s: Run, a: Action)
    requires Enabled(s, a)
  {
    && (Late(Step(s, a)) <==> (a.Close? && !s.closed && Window(s)) || (Late(s) && !OfReader(a)))
    && (Doomed(Step(s, a)) <==> Doomed(s) || (Late(s) && OfReader(a) && Ready(Step(s, a))))
  }

  lemma FailedSteps(s: Run, a: Action)
    requires Good(s) && Enabled(s, a)
    ensures FailedStep(s, a)
  {
    OutcomeFacts(s);
    hide Outcome, Enabled, FailedStep;
    if ModelSide(a) {
      FailedByModel(s, a);
    } else {
      FailedByTools(s, a);
    }
  }

  lemma FailedByModel(s: Run, a: Action)
    requires Facts(s) && Closing(s) && Enabled(s, a) && ModelSide(a)
    ensures FailedStep(s, a)
  {
    hide FromModel, Calls;
  }

  lemma FailedByTools(s: Run, a: Action)
    requires Facts(s) && Closing(s) && Enabled(s, a) && !ModelSide(a)
    ensures FailedStep(s, a)
  {
    hide Acceptable, Matching, StopBeforeTools, Calls, Results, FromModel, IDs;
  }

  lemma {:induction false} GoodAfter(s: Run, actions: seq<Action>, n: nat)
    requires Good(s) && Legal(s, actions) && n <= |actions|
    ensures Good(After(s, actions, n))
    decreases n
  {
    hide Good, Enabled, Step;
    if n > 0 {
      GoodKept(s, actions[0]);
      GoodAfter(Step(s, actions[0]), actions[1..], n - 1);
    }
  }

  lemma {:induction false} LateIff(s: Run, actions: seq<Action>, n: nat)
    requires Good(s) && s.err.NoErr? && Legal(s, actions) && n <= |actions|
    ensures Late(After(s, actions, n)) <==> exists i: nat :: i < n && ClosesInWindow(s, actions, i) && ReaderWaits(actions, i, n)
  {
    hide Good, Enabled, Step, Window;
    if n > 0 {
      var m := n - 1;
      LateIff(s, actions, m);
      AfterNext(s, actions, m);
      GoodAfter(s, actions, m);
      FailedSteps(After(s, actions, m), actions[m]);
      hide Late, After, Legal;
      if exists i: nat :: i < n && ClosesInWindow(s, actions, i) && ReaderWaits(actions, i, n) {
        var i: nat :| i < n && ClosesInWindow(s, actions, i) && ReaderWaits(actions, i, n);
        if i < m {
          assert ReaderWaits(actions, i, m);
        }
      } else if exists i: nat :: i < m && ClosesInWindow(s, actions, i) && ReaderWaits(actions, i, m) {
        var i: nat :| i < m && ClosesInWindow(s, actions, i) && ReaderWaits(actions, i, m);
        assert !ReaderWaits(actions, i, n);
      } else {
        assert ReaderWaits(actions, m, n);
      }
    }
  }

  lemma {:induction false} DoomedIff(s: Run, actions: seq<Action>, n: nat)
    requires Good(s) && s.err.NoErr? && Legal(s, actions) && n <= |actions|
    ensures Doomed(After(s, actions, n)) <==> exists i: nat, j: nat :: j < n && StopsAfterClose(s, actions, i, j)
  {
    hide Good, Enabled, Step, Window, OfReader, Ready;
    if n > 0 {
      var m := n - 1;
      DoomedIff(s, actions, m);
      AfterNext(s, actions, m);
      GoodAfter(s, actions, m);
      FailedSteps(After(s, actions, m), actions[m]);
      LateIff(s, actions, m);
      hide Late, Doomed, After, Legal, ClosesInWindow, ReaderWaits;
      if Doomed(After(s, actions, n)) && !Doomed(After(s, actions, m)) {
        var i: nat :| i < m && ClosesInWindow(s, actions, i) && ReaderWaits(actions, i, m);
        assert StopsAfterClose(s, actions, i, m);
      }
    }
  }

  /** Exactly which runs report both an error and their end: those in which a Close fell between
      the check of the context and a decision, and that decision stopped the run. */
  lemma RunReportsBothIff(s: Run, actions: seq<Action>)
    requires Initial(s) && Legal(s, actions)
    ensures var t := Exec(s, actions);
      && (Both(t) <==> RunEnds(t.delivered) >= 1 && exists i: nat, j: nat :: StopsAfterClose(s, actions, i, j))
      && (t.pc.Idle? ==> (Both(t) <==> exists i: nat, j: nat :: StopsAfterClose(s, actions, i, j)))
  {
    InitialGood(s);
    var t := Exec(s, actions);
    GoodRuns(s, actions);
    OutcomeFacts(t);
    DoomedIff(s, actions, |actions|);
    AfterAll(s, actions);
    hide Legal, Exec, After, Outcome, ClosesInWindow, ReaderWaits;
    assert forall i: nat, j: nat :: StopsAfterClose(s, actions, i, j) ==> j < |actions|;
  }

  /** A run in which no first Close overlaps a decision reports an error or its end, never
      both. */
  lemma FailuresHaveNoEnd(s: Run, actions: seq<Action>)
    requires Initial(s) && Legal(s, actions)
    requires forall i: nat :: i < |actions| ==> !ClosesInWindow(s, actions, i)
    ensures var t := Exec(s, actions); !t.err.NoErr? ==> RunEnds(t.delivered) == 0
  {
    RunReportsBothIff(s, actions);
  }

  // ---- a run that reports both ----

  /** For every request there is one: the first Close comes while the answer of the first turn
      is being judged. */
  lemma OverlappingCloseReportsBoth(s: Run)
    requires Initial(s) && s.limits.modelTurns > 0
    ensures CanReportBoth(s)
  {
    hide Initial;
    var before, t := FirstTurn(s);
    One(t, Close);
    InitialGood(s);
    GoodRuns(s, before);
    assert Window(t);
    CloseReportsBothIff(t);
    hide Good, Window, Step;
    var rest :| Legal(Step(t, Close), rest) && Both(Exec(Step(t, Close), rest));
    LegalTwice(t, [Close], rest);
    LegalTwice(s, before, [Close] + rest);
    assert Legal(s, before + ([Close] + rest));
  }

  lemma FirstTurn(s: Run) returns (actions: seq<Action>, t: Run)
    requires Initial(s) && s.limits.modelTurns > 0
    ensures Legal(s, actions) && t == Exec(s, actions)
    ensures t.pc.Stepping? && t.phase.Decide? && !t.closed && !t.finished && t.err.NoErr? && t.reason.NoReason? && t.ctx.NoErr?
    ensures t == s.(turns := 1, phase := Decide, pc := Stepping, delivered := t.delivered)
  {
    hide Initial;
    InitialFields(s);
    var a := [Enter, Check, EmitRunStart, Deliver];
    var s1 := s.(phase := ModelStart, delivered := s.delivered + [RunStarted]);
    Four(s, Enter, Check, EmitRunStart, Deliver);
    var b := [Enter, Check, BeginTurn, Prepared(NoErr)];
    var s2 := s1.(turns := s1.turns + 1, phase := ModelStream, pc := Delivering(ModelStarted));
    Four(s1, Enter, Check, BeginTurn, Prepared(NoErr));
    var c := [Deliver, Enter, Check, StreamDone(0)];
    var s3 := s2.(delivered := s2.delivered + [ModelStarted], phase := ModelEnd, pc := Top);
    Four(s2, Deliver, Enter, Check, StreamDone(0));
    var d := [Check, EmitModelEnd, Deliver, Enter];
    var s4 := s3.(delivered := s3.delivered + [ModelEnded], phase := Decide, pc := Top);
    Four(s3, Check, EmitModelEnd, Deliver, Enter);
    One(s4, Check);
    LegalTwice(s3, d, [Check]);
    LegalTwice(s2, c, d + [Check]);
    LegalTwice(s1, b, c + (d + [Check]));
    LegalTwice(s, a, b + (c + (d + [Check])));
    actions := a + (b + (c + (d + [Check])));
    t := Exec(s, actions);
  }

  lemma InitialFields(s: Run)
    requires Initial(s)
    ensures s.turns == 0 && s.delivered == [] && s.pc.Idle? && s.phase.RunStart? && !s.closed && !s.finished
    ensures s.err.NoErr? && s.reason.NoReason? && s.ctx.NoErr? && s.tokens == 0
  {
  }

  lemma Four(s: Run, a: Action, b: Action, c: Action, d: Action)
    requires Enabled(s, a)
    requires Enabled(Step(s, a), b)
    requires Enabled(Step(Step(s, a), b), c)
    requires Enabled(Step(Step(Step(s, a), b), c), d)
    ensures Legal(s, [a, b, c, d]) && Exec(s, [a, b, c, d]) == Step(Step(Step(Step(s, a), b), c), d)
  {
    hide Step, Enabled, Legal, Exec;
    One(s, a);
    One(Step(s, a), b);
    One(Step(Step(s, a), b), c);
    One(Step(Step(Step(s, a), b), c), d);
    LegalTwice(s, [a], [b]);
    LegalTwice(s, [a] + [b], [c]);
    LegalTwice(s, [a] + [b] + [c], [d]);
    assert [a] + [b] + [c] + [d] == [a, b, c, d];
  }

  // ---- every reason is true ----

  /** What makes a run end for a reason, with the limits written out. The limits on turns, tokens
      and calls are looked at in this order when the model asks for tools. */
  ghost predicate Causes(s: Run, a: Action, reason: Reason)
  {
    match reason
    case NoReason => false
    case Completed => a.Answer?
    case MaxModelTurns => (a.BeginTurn? || a.Admit?) && s.turns >= s.limits.modelTurns
    case MaxObservedTokens =>
      a.Admit? && s.turns < s.limits.modelTurns && s.limits.observedTokens > 0 && s.tokens > s.limits.observedTokens
    case MaxToolCalls =>
      && a.Admit? && s.turns < s.limits.modelTurns && (s.limits.observedTokens == 0 || s.tokens <= s.limits.observedTokens)
      && s.calls + |Calls(a.assistant)| > s.limits.toolCalls
    case Stalled => a == Commit(true)
    case Failed => a.Fail? && s.pc.Failing? && s.pc.err == Other
    case Cancelled => (a.Fail? && s.pc.Failing? && s.pc.err == Canceled) || (a.Close? && !s.closed && !s.finished)
  }

  lemma ReasonCaused(s: Run, a: Action)
    requires Facts(s) && Enabled(s, a) && s.reason.NoReason? && !Step(s, a).reason.NoReason?
    ensures Causes(s, a, Step(s, a).reason)
  {
    hide Step, Enabled;
    if ModelSide(a) {
      CausedByModel(s, a);
    } else {
      CausedByTools(s, a);
    }
  }

  lemma CausedByModel(s: Run, a: Action)
    requires Facts(s) && Enabled(s, a) && ModelSide(a) && s.reason.NoReason? && !Step(s, a).reason.NoReason?
    ensures Causes(s, a, Step(s, a).reason)
  {
    hide FromModel, Calls;
  }

  lemma CausedByTools(s: Run, a: Action)
    requires Facts(s) && Enabled(s, a) && !ModelSide(a) && s.reason.NoReason? && !Step(s, a).reason.NoReason?
    ensures Causes(s, a, Step(s, a).reason)
  {
    hide AdmitCalls, CommitResults, Matching, Calls, Results, FromModel;
    match a {
      case Admit(m) => AdmitCaused(s, m);
      case Commit(stalled) => CommitCaused(s, stalled);
      case _ =>
    }
  }

  lemma AdmitCaused(s: Run, m: Message)
    requires s.reason.NoReason? && !AdmitCalls(s, m).reason.NoReason?
    ensures Causes(s, Admit(m), AdmitCalls(s, m).reason)
  {
    hide Acceptable, Calls, IDs;
  }

  lemma CommitCaused(s: Run, stalled: bool)
    requires s.pc.Committing? && s.reason.NoReason? && !CommitResults(s, stalled).reason.NoReason?
    ensures Causes(s, Commit(stalled), CommitResults(s, stalled).reason)
  {
    hide Matching, Calls, Results;
  }

  /** Whenever a model that asks for tools meets a limit, the run stops. */
  lemma LimitsStop(s: Run, a: Action)
    requires Enabled(s, a) && s.reason.NoReason?
    ensures a.Answer? ==> Step(s, a).reason.Completed?
    ensures a.Admit? || a.BeginTurn? ==> (Step(s, a).reason.MaxModelTurns? <==> s.turns >= s.limits.modelTurns)
    ensures a.Admit? && s.turns < s.limits.modelTurns ==>
      (Step(s, a).reason.MaxObservedTokens? <==> s.limits.observedTokens > 0 && s.tokens > s.limits.observedTokens)
    ensures a.Admit? && s.turns < s.limits.modelTurns && (s.limits.observedTokens == 0 || s.tokens <= s.limits.observedTokens) ==>
      (Step(s, a).reason.MaxToolCalls? <==> s.calls + |Calls(a.assistant)| > s.limits.toolCalls)
  {
    hide Acceptable, Matching, Calls, Results, FromModel, IDs;
  }

  /** In every run a reason is only there because of an action that caused it. */
  lemma {:induction false} ReasonHasCause(s: Run, actions: seq<Action>, n: nat) returns (i: nat)
    requires Good(s) && s.reason.NoReason? && Legal(s, actions) && n <= |actions| && !After(s, actions, n).reason.NoReason?
    ensures i < n && Causes(After(s, actions, i), actions[i], After(s, actions, n).reason)
  {
    hide Good, Enabled, Step, Causes;
    var m := n - 1;
    AfterNext(s, actions, m);
    GoodAfter(s, actions, m);
    var before := After(s, actions, m);
    if before.reason.NoReason? {
      GoodFacts(before);
      ReasonCaused(before, actions[m]);
      i := m;
    } else {
      ReasonStays(before, actions[m]);
      i := ReasonHasCause(s, actions, m);
    }
  }

  lemma GoodFacts(s: Run)
    requires Good(s)
    ensures Facts(s)
  {
    OutcomeFacts(s);
  }

  // ---- a run that uses tools ----

  /** For every request, every acceptable batch of calls and every answer to it that fits the
      budgets there is a run that stores both, answers and completes. */
  lemma ToolTurnCompletes(s: Run, assistant: Message, result: Message, retained: nat, canonical: nat) returns (actions: seq<Action>)
    requires Initial(s) && s.limits.modelTurns >= 2 && FromModel(assistant) && 0 < |Calls(assistant)| <= s.limits.toolCalls
    requires Acceptable(s.limits.isObject, s.seen, Calls(assistant)) && result.role == User && Calls(result) == []
    requires Matching(Calls(assistant), Results(result)) && retained <= s.limits.retained && s.canonical + canonical <= s.limits.canonical
    ensures Legal(s, actions) && Completes(Exec(s, actions), s.request + [assistant, result, SomeAnswer()])
  {
    InitialData(s);
    hide Initial, Acceptable, Matching, Calls, Results, FromModel, SomeAnswer, IDs, Legal, Exec, Enabled, Step, Completes;
    var before, t := FirstTurn(s);
    var first, u := ToolsAnswered(t, assistant, result, retained, canonical);
    var second, v := NextAnswer(u);
    LegalTwice(t, first, second);
    LegalTwice(s, before, first + second);
    actions := before + (first + second);
    assert s.request + [assistant, result] + [SomeAnswer()] == s.request + [assistant, result, SomeAnswer()];
  }

  lemma InitialData(s: Run)
    requires Initial(s)
    ensures s.messages == s.request && s.calls == 0 && s.tokens == 0 && s.retained == 0 && s.batches == 0
  {
  }

  /** The run ended well, with this transcript. */
  ghost predicate Completes(t: Run, transcript: seq<Message>)
  {
    t.pc.Idle? && t.err.NoErr? && t.reason.Completed? && t.messages == transcript
    && t.delivered != [] && t.delivered[|t.delivered| - 1] == RunEnded(Completed)
  }

  lemma AdmitOne(t: Run, assistant: Message)
    requires t.pc.Stepping? && t.phase.Decide? && FromModel(assistant) && Calls(assistant) != []
    requires t.turns < t.limits.modelTurns && t.tokens == 0 && t.calls + |Calls(assistant)| <= t.limits.toolCalls
    requires Acceptable(t.limits.isObject, t.seen, Calls(assistant))
    ensures Enabled(t, Admit(assistant))
    ensures Step(t, Admit(assistant)) == t.(seen := t.seen + IDs(Calls(assistant)), pending := [assistant], pc := Starting)
  {
    hide Acceptable, Calls, FromModel, IDs;
  }

  lemma DrainAll(t: Run)
    requires t.pc.Starting? && t.ctx.NoErr?
    ensures Legal(t, [Started(NoErr), Check, Drained, Check]) && Exec(t, [Started(NoErr), Check, Drained, Check]) == t.(phase := AfterTools, pc := Stepping)
  {
    Four(t, Started(NoErr), Check, Drained, Check);
    hide Legal, Exec;
  }

  lemma CommitOne(t: Run, assistant: Message, result: Message, retained: nat, canonical: nat)
    requires t.pc == Committing(result, retained, canonical) && t.ctx.NoErr? && t.pending == [assistant] && Matching(Calls(assistant), Results(result))
    ensures Enabled(t, Commit(false))
    ensures var u := Step(t, Commit(false));
      u == t.(retained := t.retained + retained, canonical := t.canonical + canonical, messages := t.messages + [assistant, result], pending := [],
              calls := t.calls + |Results(result)|, batches := t.batches + 1, phase := ModelStart, pc := Top)
  {
    hide Matching, Calls, Results;
  }

  lemma ToolsAnswered(t: Run, assistant: Message, result: Message, retained: nat, canonical: nat) returns (actions: seq<Action>, u: Run)
    requires t.pc.Stepping? && t.phase.Decide? && !t.closed && t.ctx.NoErr? && t.err.NoErr? && t.reason.NoReason?
    requires t.turns < t.limits.modelTurns && t.tokens == 0 && t.calls + |Calls(assistant)| <= t.limits.toolCalls
    requires FromModel(assistant) && Calls(assistant) != [] && Acceptable(t.limits.isObject, t.seen, Calls(assistant))
    requires result.role == User && Calls(result) == [] && Matching(Calls(assistant), Results(result))
    requires t.retained + retained <= t.limits.retained && t.canonical + canonical <= t.limits.canonical
    ensures Legal(t, actions) && u == Exec(t, actions) && u.pc.Stepping? && u.phase.ModelStart? && u.turns == t.turns
    ensures u.messages == t.messages + [assistant, result] && u.limits == t.limits
    ensures !u.closed && u.finished == t.finished && u.ctx.NoErr? && u.err.NoErr? && u.reason.NoReason?
  {
    hide Acceptable, Matching, Calls, Results, FromModel, IDs, Legal, Exec;
    AdmitOne(t, assistant);
    One(t, Admit(assistant));
    var t1 := Step(t, Admit(assistant));
    DrainAll(t1);
    LegalTwice(t, [Admit(assistant)], [Started(NoErr), Check, Drained, Check]);
    var t2 := t1.(phase := AfterTools, pc := Stepping);
    var last := CommitThree(t2, assistant, result, retained, canonical);
    actions := [Admit(assistant)] + [Started(NoErr), Check, Drained, Check];
    LegalTwice(t, actions, last);
    actions := actions + last;
    u := Exec(t, actions);
  }

  lemma CommitThree(t: Run, assistant: Message, result: Message, retained: nat, canonical: nat) returns (actions: seq<Action>)
    requires t.pc.Stepping? && t.phase.AfterTools? && t.ctx.NoErr? && t.pending == [assistant]
    requires result.role == User && Calls(result) == [] && Matching(Calls(assistant), Results(result))
    requires t.retained + retained <= t.limits.retained && t.canonical + canonical <= t.limits.canonical
    ensures Legal(t, actions)
    ensures Exec(t, actions)
      == t.(retained := t.retained + retained, canonical := t.canonical + canonical, messages := t.messages + [assistant, result], pending := [],
            calls := t.calls + |Results(result)|, batches := t.batches + 1, phase := ModelStart, pc := Stepping)
  {
    hide Matching, Calls, Results, Legal, Exec;
    var finish := Finish(result, retained, canonical);
    One(t, finish);
    var t1 := Step(t, finish);
    CommitOne(t1, assistant, result, retained, canonical);
    One(t1, Commit(false));
    var t2 := Step(t1, Commit(false));
    One(t2, Check);
    LegalTwice(t, [finish], [Commit(false)]);
    LegalTwice(t, [finish] + [Commit(false)], [Check]);
    actions := [finish] + [Commit(false)] + [Check];
  }

  lemma NextAnswer(u: Run) returns (actions: seq<Action>, v: Run)
    requires u.pc.Stepping? && u.phase.ModelStart? && u.turns < u.limits.modelTurns
    requires !u.closed && u.ctx.NoErr? && u.err.NoErr? && u.reason.NoReason? && !u.finished
    ensures Legal(u, actions) && v == Exec(u, actions) && Completes(v, u.messages + [SomeAnswer()])
  {
    hide SomeAnswer, Legal, Exec;
    StreamOpens(u);
    var a := [BeginTurn, Prepared(NoErr), Deliver, Enter];
    var u1 := Exec(u, a);
    StreamEnds(u1);
    var b := [Check, StreamDone(0), Check, EmitModelEnd];
    var u2 := Exec(u1, b);
    AnswerGiven(u2);
    var c := [Deliver, Enter, Check, Answer(SomeAnswer())];
    var u3 := Exec(u2, c);
    Three(u3);
    var d := [Check, EmitRunEnd, Deliver];
    LegalTwice(u2, c, d);
    LegalTwice(u1, b, c + d);
    LegalTwice(u, a, b + (c + d));
    actions := a + (b + (c + d));
    v := Exec(u, actions);
  }

  lemma StreamOpens(u: Run)
    requires u.pc.Stepping? && u.phase.ModelStart? && u.turns < u.limits.modelTurns
    requires !u.closed && u.ctx.NoErr? && u.err.NoErr? && !u.finished
    ensures Legal(u, [BeginTurn, Prepared(NoErr), Deliver, Enter])
    ensures Exec(u, [BeginTurn, Prepared(NoErr), Deliver, Enter])
      == u.(turns := u.turns + 1, phase := ModelStream, pc := Top, delivered := u.delivered + [ModelStarted])
  {
    Four(u, BeginTurn, Prepared(NoErr), Deliver, Enter);
    hide Legal, Exec;
  }

  lemma StreamEnds(u: Run)
    requires u.pc.Top? && u.phase.ModelStream? && u.ctx.NoErr?
    ensures Legal(u, [Check, StreamDone(0), Check, EmitModelEnd])
    ensures Exec(u, [Check, StreamDone(0), Check, EmitModelEnd]) == u.(phase := Decide, pc := Delivering(ModelEnded))
  {
    Four(u, Check, StreamDone(0), Check, EmitModelEnd);
    hide Legal, Exec;
  }

  lemma AnswerGiven(u: Run)
    requires u.pc == Delivering(ModelEnded) && u.phase.Decide? && !u.closed && u.ctx.NoErr? && u.err.NoErr? && u.reason.NoReason? && !u.finished
    ensures Legal(u, [Deliver, Enter, Check, Answer(SomeAnswer())])
    ensures Exec(u, [Deliver, Enter, Check, Answer(SomeAnswer())])
      == u.(phase := RunEnd, pc := Top, reason := Completed, delivered := u.delivered + [ModelEnded], messages := u.messages + [SomeAnswer()])
  {
    hide SomeAnswer;
    Four(u, Deliver, Enter, Check, Answer(SomeAnswer()));
    hide Legal, Exec;
  }

  lemma Three(u: Run)
    requires u.pc.Top? && u.phase.RunEnd? && !u.closed && u.ctx.NoErr? && u.err.NoErr? && u.reason.Completed?
    ensures Legal(u, [Check, EmitRunEnd, Deliver])
    ensures Completes(Exec(u, [Check, EmitRunEnd, Deliver]), u.messages)
  {
    var a, b := Step(u, Check), Step(Step(u, Check), EmitRunEnd);
    One(u, Check);
    One(a, EmitRunEnd);
    One(b, Deliver);
    hide Legal, Exec;
    LegalTwice(u, [Check], [EmitRunEnd]);
    LegalTwice(u, [Check] + [EmitRunEnd], [Deliver]);
    assert [Check] + [EmitRunEnd] + [Deliver] == [Check, EmitRunEnd, Deliver];
  }
}
