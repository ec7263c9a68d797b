/** What the counters of a run add up to, what a cancellation leaves behind, and that a run that
    is over stays over (runtime/loops/stream.go:87-222, 330-394, 566-635,
    runtime/loops/run_state.go:35-152, runtime/loops/conversation.go:97-117). */
module RunAccounts {
  import opened Utf8
  import opened Wrappers
  import opened Int64
  import opened Wire
  import opened ToolHistory
  import opened RunMachine
  import opened RunReports

  // ---- what a history holds ----

  /** The tool results in a history. */
  function AnswersIn(ms: seq<Message>): nat
  {
    if ms == [] then 0 else AnswersIn(ms[..|ms| - 1]) + |Results(ms[|ms| - 1])|
  }

  /** The messages of the user in a history; those added by a run are the answers to tool calls. */
  function UserMessages(ms: seq<Message>): nat
  {
    if ms == [] then 0 else UserMessages(ms[..|ms| - 1]) + if ms[|ms| - 1].role == User then 1 else 0
  }

  lemma OneMore(ms: seq<Message>, m: Message)
    ensures AnswersIn(ms + [m]) == AnswersIn(ms) + |Results(m)|
    ensures UserMessages(ms + [m]) == UserMessages(ms) + if m.role == User then 1 else 0
  {
    assert (ms + [m])[..|ms|] == ms;
  }

  lemma TwoMore(ms: seq<Message>, a: Message, b: Message)
    ensures AnswersIn(ms + [a, b]) == AnswersIn(ms) + |Results(a)| + |Results(b)|
    ensures UserMessages(ms + [a, b]) == UserMessages(ms) + (if a.role == User then 1 else 0) + (if b.role == User then 1 else 0)
  {
    OneMore(ms, a);
    OneMore(ms + [a], b);
    assert ms + [a] + [b] == ms + [a, b];
  }

  // ---- what the steps of a run add up to ----

  function TokensBy(a: Action): nat { if a.StreamDone? then a.tokens else 0 }

  function RequestsBy(a: Action): nat { if a.Prepared? then 1 else 0 }

  function RetainedBy(a: Action): nat { if a.Finish? then a.retained else 0 }

  function CanonicalBy(a: Action): nat { if a.Finish? then a.canonical else 0 }

  /** The sum of what each action contributes. */
  function Sum(actions: seq<Action>, part: Action -> nat): nat
  {
    if actions == [] then 0 else part(actions[0]) + Sum(actions[1..], part)
  }

  /** The run has not failed and is not about to. */
  predicate Well(s: Run)
  {
    s.err.NoErr? && !s.pc.Failing?
  }

  /** What is kept, and what a turn between its check and its commit asks for. */
  function RetainedWith(s: Run): nat
  {
    s.retained + if s.pc.Committing? then s.pc.retained else 0
  }

  function CanonicalWith(s: Run): nat
  {
    s.canonical + if s.pc.Committing? then s.pc.canonical else 0
  }

  /** The tool turns committed; the last one may have been found to stall. */
  function TurnsCommitted(s: Run): nat
  {
    s.batches + if s.reason.Stalled? then 1 else 0
  }

  /** The requests the counted turns made; one of them may be on its way. */
  function TurnsAsked(s: Run): int
  {
    s.turns - if s.pc.Preparing? then 1 else 0
  }

  ghost predicate Counted(s: Run)
  {
    s.calls + AnswersIn(s.request) == AnswersIn(s.messages)
    && (Well(s) ==> TurnsCommitted(s) + UserMessages(s.request) == UserMessages(s.messages))
  }

  lemma StepCounts(s: Run, a: Action)
    requires Invariant(s) && Enabled(s, a) && Counted(s)
    ensures Counted(Step(s, a))
  {
    OutcomeFacts(s);
    hide Outcome, Data, Counted, Facts, Enabled, Step;
    if a.Answer? {
      AnswerCounts(s, a.assistant);
    } else if a.Commit? {
      CommitCounts(s, a.stalled);
    } else if ModelSide(a) {
      ModelCounts(s, a);
    } else {
      ToolsCount(s, a);
    }
  }

  lemma AnswerCounts(s: Run, m: Message)
    requires Facts(s) && Enabled(s, Answer(m)) && Counted(s)
    ensures Counted(Step(s, Answer(m)))
  {
    hide AnswersIn, UserMessages, Calls, Results;
    OneMore(s.messages, m);
  }

  lemma CommitCounts(s: Run, stalled: bool)
    requires Facts(s) && Data(s) && s.pc.Committing? && Counted(s)
    ensures Counted(CommitResults(s, stalled))
  {
    hide AnswersIn, UserMessages, Calls, Results, Matching, Transcript, AllIDs, IDs, DistinctIDs;
    if s.pending != [] {
      TwoMore(s.messages, s.pending[0], s.pc.result);
    }
  }

  lemma ModelCounts(s: Run, a: Action)
    requires Facts(s) && Enabled(s, a) && Counted(s) && ModelSide(a) && !a.Answer?
    ensures Counted(Step(s, a))
  {
    hide AnswersIn, UserMessages, Calls, Results, FromModel;
  }

  lemma ToolsCount(s: Run, a: Action)
    requires Facts(s) && Enabled(s, a) && Counted(s) && !ModelSide(a) && !a.Commit?
    ensures Counted(Step(s, a))
  {
    hide AnswersIn, UserMessages, Calls, Results, Acceptable, IDs, FromModel;
  }

  /** What one step adds. */
  ghost predicate Adds(s: Run, a: Action)
    requires Enabled(s, a)
  {
    var t := Step(s, a);
    && t.tokens == s.tokens + TokensBy(a) && TurnsAsked(t) == TurnsAsked(s) + RequestsBy(a)
    && (Well(t) ==>
          Well(s) && RetainedWith(t) == RetainedWith(s) + RetainedBy(a) && CanonicalWith(t) == CanonicalWith(s) + CanonicalBy(a))
  }

  lemma StepAdds(s: Run, a: Action)
    requires Facts(s) && Enabled(s, a)
    ensures Adds(s, a)
  {
    hide Facts, Enabled, Adds;
    if ModelSide(a) {
      ModelAdds(s, a);
    } else if a.Commit? || a.Admit? {
      TurnsAdd(s, a);
    } else {
      ToolsAdd(s, a);
    }
  }

  lemma ModelAdds(s: Run, a: Action)
    requires Facts(s) && Enabled(s, a) && ModelSide(a)
    ensures Adds(s, a)
  {
    hide Calls, Results, FromModel, SetReason;
  }

  lemma TurnsAdd(s: Run, a: Action)
    requires Facts(s) && Enabled(s, a) && (a.Commit? || a.Admit?)
    ensures Adds(s, a)
  {
    hide Calls, Results, Acceptable, Matching, StopBeforeTools, IDs, FromModel, SetReason;
  }

  lemma ToolsAdd(s: Run, a: Action)
    requires Facts(s) && Enabled(s, a) && !ModelSide(a) && !a.Commit? && !a.Admit?
    ensures Adds(s, a)
  {
    hide Calls, Results, FromModel, SetReason;
  }

  lemma {:induction false} RunAdds(s: Run, actions: seq<Action>)
    requires Invariant(s) && Counted(s) && Legal(s, actions)
    ensures var t := Exec(s, actions);
      && Counted(t) && t.limits == s.limits
      && t.tokens == s.tokens + Sum(actions, TokensBy) && TurnsAsked(t) == TurnsAsked(s) + Sum(actions, RequestsBy)
      && (Well(t) ==>
            && Well(s) && RetainedWith(t) == RetainedWith(s) + Sum(actions, RetainedBy)
            && CanonicalWith(t) == CanonicalWith(s) + Sum(actions, CanonicalBy))
    decreases |actions|
  {
    hide Outcome, Data, Counted, RetainedWith, CanonicalWith, TurnsAsked, Enabled, Step, Well, Facts, TokensBy, RequestsBy, RetainedBy, CanonicalBy;
    if actions != [] {
      var a := actions[0];
      OutcomeFacts(s);
      StepCounts(s, a);
      StepAdds(s, a);
      SameLimits(s, a);
      OutcomeKept(s, a);
      DataKept(s, a);
      RunAdds(Step(s, a), actions[1..]);
    }
  }

  lemma SameLimits(s: Run, a: Action)
    requires Enabled(s, a)
    ensures Step(s, a).limits == s.limits
  {
    hide Acceptable, Matching, StopBeforeTools, Calls, Results, FromModel, IDs, SetReason;
  }

  /** In every run the counters are exact and within their limits: the calls counted are the
      results added to the history, the tokens those of the finished streams, the turns the
      requests made. Until the run fails, the tool turns counted are the answers added, and what
      is retained is what the checked turns asked for. */
  lemma CountersAreExact(s: Run, actions: seq<Action>)
    requires Initial(s) && Legal(s, actions)
    ensures var t := Exec(s, actions);
      && t.calls + AnswersIn(s.request) == AnswersIn(t.messages)
      && t.tokens == Sum(actions, TokensBy) && TurnsAsked(t) == Sum(actions, RequestsBy)
      && (Well(t) ==>
            && TurnsCommitted(t) + UserMessages(s.request) == UserMessages(t.messages)
            && RetainedWith(t) == Sum(actions, RetainedBy) && CanonicalWith(t) == s.canonical + Sum(actions, CanonicalBy))
    ensures var t := Exec(s, actions);
      && t.calls <= s.limits.toolCalls && t.turns <= s.limits.modelTurns
      && RetainedWith(t) <= s.limits.retained && CanonicalWith(t) <= s.limits.canonical
  {
    hide Legal, Exec, Outcome, Sum;
    InitialHolds(s);
    RunAdds(s, actions);
    RunsKeepInvariant(s, actions);
  }

  // ---- cancelling ----

  /** What the context was first cancelled with. */
  function FirstCancel(actions: seq<Action>): Err
  {
    if actions == [] then NoErr
    else if actions[0].Close? then Canceled
    else if actions[0].CancelContext? then actions[0].err
    else FirstCancel(actions[1..])
  }

  /** What a step does to the cancellation. */
  ghost predicate Cancels(s: Run, a: Action)
    requires Enabled(s, a)
  {
    var t := Step(s, a);
    && (t.closed <==> s.closed || a.Close?) && (t.closed ==> !t.ctx.NoErr?)
    && t.ctx == (if !s.ctx.NoErr? then s.ctx else if a.Close? then Canceled else if a.CancelContext? then a.err else NoErr)
    && (a.CancelContext? ==> !a.err.NoErr?)
  }

  lemma CancelStep(s: Run, a: Action)
    requires Enabled(s, a) && (s.closed ==> !s.ctx.NoErr?)
    ensures Cancels(s, a)
  {
    hide Enabled, Cancels;
    if ModelSide(a) {
      ModelCancels(s, a);
    } else {
      ToolsCancel(s, a);
    }
  }

  lemma ModelCancels(s: Run, a: Action)
    requires Enabled(s, a) && (s.closed ==> !s.ctx.NoErr?) && ModelSide(a)
    ensures Cancels(s, a)
  {
    hide Calls, Results, FromModel, SetReason;
  }

  lemma ToolsCancel(s: Run, a: Action)
    requires Enabled(s, a) && (s.closed ==> !s.ctx.NoErr?) && !ModelSide(a)
    ensures Cancels(s, a)
  {
    hide Acceptable, Matching, StopBeforeTools, Calls, Results, FromModel, IDs, SetReason;
  }

  /** A run is closed exactly when it was told to, and its context holds what cancelled it
      first, be it a Close or its caller. */
  lemma {:induction false} FirstCancelWins(s: Run, actions: seq<Action>)
    requires Legal(s, actions) && (s.closed ==> !s.ctx.NoErr?)
    ensures var t := Exec(s, actions);
      && (t.closed <==> s.closed || Close in actions)
      && t.ctx == if s.ctx.NoErr? then FirstCancel(actions) else s.ctx
    decreases |actions|
  {
    hide Enabled, Step;
    if actions != [] {
      CancelStep(s, actions[0]);
      FirstCancelWins(Step(s, actions[0]), actions[1..]);
      assert actions == [actions[0]] + actions[1..];
    }
  }

  // ---- over is over ----

  /** The run is closed, or failed, or has produced its end. */
  ghost predicate FinishedRight(s: Run)
  {
    s.finished <==> s.closed || !s.err.NoErr? || (s.phase.Done? && !s.pc.Delivering?)
  }

  lemma FinishedStep(s: Run, a: Action)
    requires Facts(s) && Enabled(s, a) && FinishedRight(s)
    ensures FinishedRight(Step(s, a))
  {
    hide Acceptable, Matching, StopBeforeTools, Calls, Results, FromModel, IDs, SetReason;
  }

  lemma {:induction false} FinishedKept(s: Run, actions: seq<Action>)
    requires Outcome(s) && FinishedRight(s) && Legal(s, actions)
    ensures FinishedRight(Exec(s, actions)) && Outcome(Exec(s, actions))
    decreases |actions|
  {
    hide Outcome, FinishedRight, Enabled, Step;
    if actions != [] {
      OutcomeFacts(s);
      FinishedStep(s, actions[0]);
      OutcomeKept(s, actions[0]);
      FinishedKept(Step(s, actions[0]), actions[1..]);
    }
  }

  /** A run is finished exactly when it was closed, has failed, or has delivered its end. */
  lemma FinishedExactly(s: Run, actions: seq<Action>)
    requires Initial(s) && Legal(s, actions)
    ensures var t := Exec(s, actions);
      t.finished <==> t.closed || !t.err.NoErr? || RunEnds(t.delivered) == 1
  {
    hide Legal, Exec, Data;
    InitialHolds(s);
    FinishedKept(s, actions);
    OutcomeFacts(Exec(s, actions));
  }

  /** Between two calls of Next, with nothing more to come. */
  predicate Over(s: Run)
  {
    s.pc.Idle? && (!s.err.NoErr? || (s.finished && !Ready(s)))
  }

  /** Once a Next has returned from a run that has failed, or was closed before its stop was
      decided, nothing that anybody does changes what was delivered, the history, the error or
      the reason. */
  lemma {:induction false} OverIsOver(s: Run, actions: seq<Action>)
    requires Over(s) && Legal(s, actions)
    ensures var t := Exec(s, actions);
      Over(t) && t.delivered == s.delivered && t.messages == s.messages && t.err == s.err && t.reason == s.reason
    decreases |actions|
  {
    if actions != [] {
      OverIsOver(Step(s, actions[0]), actions[1..]);
    }
  }

  lemma ClosedStep(s: Run, a: Action)
    requires Enabled(s, a) && s.closed
    ensures var t := Step(s, a);
      && t.closed
      && (t.delivered == s.delivered || (s.pc.Delivering? && s.pc.event.RunEnded? && t.delivered == s.delivered + [s.pc.event]))
  {
    hide Acceptable, Matching, StopBeforeTools, Calls, Results, FromModel, IDs, SetReason;
  }

  /** After a Close nothing but the end of the run is still delivered. */
  lemma {:induction false} ClosedDeliversOnlyTheEnd(s: Run, actions: seq<Action>)
    requires s.closed && Legal(s, actions)
    ensures var t := Exec(s, actions);
      && |s.delivered| <= |t.delivered| && t.delivered[..|s.delivered|] == s.delivered
      && forall i :: |s.delivered| <= i < |t.delivered| ==> t.delivered[i].RunEnded?
    decreases |actions|
  {
    hide Enabled, Step;
    if actions != [] {
      ClosedStep(s, actions[0]);
      ClosedDeliversOnlyTheEnd(Step(s, actions[0]), actions[1..]);
    }
  }

  // ---- counting tokens in 64 bits ----

  /** accumulateObservedTokens: refused when negative, and held at the largest number when the
      sum leaves 64 bits, which is remembered. */
  datatype Tokens = Tokens(total: int64, overflow: bool)

  function Accumulate(now: Tokens, reported: int64): Option<Tokens>
  {
    if reported < 0 then None
    else if now.total > MAX_INT64 - reported then Some(Tokens(MAX_INT64, true))
    else Some(Tokens(now.total + reported, now.overflow))
  }

  function Accumulated(reports: seq<int64>): (r: Option<Tokens>)
    ensures r.Some? ==> r.value.total >= 0
  {
    if reports == [] then Some(Tokens(0, false))
    else
      var before := Accumulated(reports[..|reports| - 1]);
      if before.None? then None else Accumulate(before.value, reports[|reports| - 1])
  }

  function Total(reports: seq<int64>): int
  {
    if reports == [] then 0 else Total(reports[..|reports| - 1]) + reports[|reports| - 1]
  }

  /** A report is refused exactly when one is negative; otherwise the number held at 64 bits,
      with its mark, exceeds a limit exactly when the true sum does. */
  lemma {:induction false} SaturationDecides(reports: seq<int64>, limit: int64)
    requires limit > 0
    ensures Accumulated(reports).None? <==> exists n :: n in reports && n < 0
    ensures Accumulated(reports).Some? ==>
      var t := Accumulated(reports).value;
      && t.total == (if Total(reports) <= MAX_INT64 then Total(reports) else MAX_INT64)
      && (t.overflow <==> Total(reports) > MAX_INT64)
      && (t.overflow || t.total > limit <==> Total(reports) > limit)
  {
    if reports != [] {
      var front, last := reports[..|reports| - 1], reports[|reports| - 1];
      SaturationDecides(front, limit);
      assert forall n :: n in reports <==> n in front || n == last by { assert reports == front + [last]; }
      if Accumulated(front).None? {
        var n :| n in front && n < 0;
        assert n in reports;
      } else if last < 0 {
        assert last in reports;
      }
    }
  }
}
