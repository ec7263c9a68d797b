/** One run as a pull machine with a concurrent Close. Every action is one section the code
    runs under its lock, or one call it makes between two such sections, whose outcome is the
    action's argument; Close and the cancellation of the context may come between any two
    (runtime/loops/stream.go:87-222, 252-268, 283-394, 414-460, 566-635, 655-674,
    runtime/loops/result.go:64-69, runtime/loops/run_state.go:35-152,
    runtime/loops/conversation.go:97-117). */
module RunMachine {
  import opened Utf8
  import opened Wire
  import opened ToolHistory

  datatype Reason = NoReason | Completed | MaxModelTurns | MaxToolCalls | MaxObservedTokens | Stalled | Failed | Cancelled

  /** The outcomes policy decides on. */
  predicate Controlled(r: Reason)
  {
    r.Completed? || r.MaxModelTurns? || r.MaxToolCalls? || r.MaxObservedTokens? || r.Stalled?
  }

  datatype Err = NoErr | Canceled | Other

  datatype Phase = RunStart | ModelStart | ModelStream | ModelEnd | Decide | ToolDrain | AfterTools | RunEnd | Done

  datatype Event = RunStarted | ModelStarted | ModelEvent | ModelEnded | ToolEvent | RunEnded(reason: Reason)

  /** Where the reader is inside Next. */
  datatype Pc =
    | Idle
    | Top
    | Stepping
    | Preparing
    | Starting
    | Committing(result: Message, retained: nat, canonical: nat)
    | Delivering(event: Event)
    | Failing(err: Err)

  /** The limits of a run, and which arguments are a JSON object. */
  datatype RunLimits = RunLimits(modelTurns: nat, toolCalls: nat, observedTokens: nat, retained: nat, canonical: nat, isObject: Bytes -> bool)

  datatype Run = Run(
    request: seq<Message>, limits: RunLimits,
    messages: seq<Message>, pending: seq<Message>, seen: set<Bytes>,
    turns: nat, calls: nat, batches: nat, tokens: nat, retained: nat, canonical: nat,
    err: Err, ctx: Err, closed: bool, finished: bool, reason: Reason, phase: Phase,
    pc: Pc, delivered: seq<Event>)

  datatype Action =
    | Enter
    | Check
    | EmitRunStart
    | BeginTurn
    | Prepared(err: Err)
    | StreamEvent
    | StreamFailed(err: Err)
    | StreamDone(tokens: nat)
    | EmitModelEnd
    | DecideFailed(err: Err)
    | Answer(assistant: Message)
    | Admit(assistant: Message)
    | Started(err: Err)
    | DrainEvent
    | DrainFailed(err: Err)
    | Drained
    | FinishFailed(err: Err)
    | Finish(result: Message, retained: nat, canonical: nat)
    | Commit(stalled: bool)
    | EmitRunEnd
    | Exhaust
    | Deliver
    | Fail
    | Close
    | CancelContext(err: Err)

  predicate Ready(s: Run)
  {
    s.phase.RunEnd? || s.phase.Done?
  }

  /** setStopReason: the first writer wins. */
  function SetReason(current: Reason, reason: Reason): (r: Reason)
    ensures !current.NoReason? ==> r == current
    ensures r.NoReason? <==> current.NoReason? && reason.NoReason?
  {
    if reason.NoReason? || !current.NoReason? then current else reason
  }

  // ---- policy ----

  /** stopBeforeTools. */
  function StopBeforeTools(s: Run, n: nat): Reason
  {
    if s.turns >= s.limits.modelTurns then MaxModelTurns
    else if s.limits.observedTokens > 0 && s.tokens > s.limits.observedTokens then MaxObservedTokens
    else if s.calls + n > s.limits.toolCalls then MaxToolCalls
    else NoReason
  }

  function IDs(calls: seq<Call>): set<Bytes>
  {
    set i | 0 <= i < |calls| :: calls[i].id
  }

  /** Every call has an ID of its own that was not seen before. */
  ghost predicate NewIDs(seen: set<Bytes>, calls: seq<Call>)
  {
    DistinctIDs(calls) && forall i :: 0 <= i < |calls| ==> calls[i].id != [] && calls[i].id !in seen
  }

  /** What callLedger.accept demands of a batch. */
  ghost predicate Acceptable(isObject: Bytes -> bool, seen: set<Bytes>, calls: seq<Call>)
  {
    NewIDs(seen, calls) && forall i :: 0 <= i < |calls| ==> isObject(calls[i].arguments)
  }

  /** The tool-calling messages the model may return; results never come from it. */
  predicate FromModel(m: Message)
  {
    m.role == Assistant && Results(m) == []
  }

  // ---- which action can come next ----

  ghost predicate Enabled(s: Run, a: Action)
  {
    match a
    case Close => true
    case CancelContext(err) => !err.NoErr?
    case Enter => s.pc.Idle?
    case Check => s.pc.Top?
    case EmitRunStart => s.pc.Stepping? && s.phase.RunStart?
    case BeginTurn => s.pc.Stepping? && s.phase.ModelStart?
    case Prepared(err) => s.pc.Preparing?
    case StreamEvent => s.pc.Stepping? && s.phase.ModelStream?
    case StreamFailed(err) => s.pc.Stepping? && s.phase.ModelStream? && !err.NoErr?
    case StreamDone(tokens) => s.pc.Stepping? && s.phase.ModelStream?
    case EmitModelEnd => s.pc.Stepping? && s.phase.ModelEnd?
    case DecideFailed(err) => s.pc.Stepping? && s.phase.Decide? && !err.NoErr?
    case Answer(m) => s.pc.Stepping? && s.phase.Decide? && FromModel(m) && Calls(m) == []
    case Admit(m) => s.pc.Stepping? && s.phase.Decide? && FromModel(m) && Calls(m) != []
    case Started(err) => s.pc.Starting?
    case DrainEvent => s.pc.Stepping? && s.phase.ToolDrain?
    case DrainFailed(err) => s.pc.Stepping? && s.phase.ToolDrain? && !err.NoErr?
    case Drained => s.pc.Stepping? && s.phase.ToolDrain?
    case FinishFailed(err) => s.pc.Stepping? && s.phase.AfterTools? && !err.NoErr?
    case Finish(result, retained, canonical) =>
      && s.pc.Stepping? && s.phase.AfterTools? && result.role == User && Calls(result) == []
      && s.retained + retained <= s.limits.retained && s.canonical + canonical <= s.limits.canonical
    case Commit(stalled) => s.pc.Committing?
    case EmitRunEnd => s.pc.Stepping? && s.phase.RunEnd?
    case Exhaust => s.pc.Stepping? && s.phase.Done?
    case Deliver => s.pc.Delivering?
    case Fail => s.pc.Failing?
  }

  // ---- what each action does ----

  function Stop(s: Run, reason: Reason): Run
  {
    s.(reason := SetReason(s.reason, reason), phase := RunEnd, pc := Top)
  }

  function EnterNext(s: Run): Run
  {
    if !s.err.NoErr? || ((s.finished || s.closed) && !Ready(s)) then s else s.(pc := Top)
  }

  function CheckContext(s: Run): Run
  {
    if !s.ctx.NoErr? && !Ready(s) then s.(pc := Failing(s.ctx)) else s.(pc := Stepping)
  }

  function BeginModelTurn(s: Run): Run
  {
    if s.turns >= s.limits.modelTurns then Stop(s, MaxModelTurns) else s.(turns := s.turns + 1, pc := Preparing)
  }

  /** The stream is attached unless the run was closed while the request was prepared. */
  function AttachStream(s: Run, err: Err): Run
  {
    if !err.NoErr? then s.(pc := Failing(err))
    else if s.closed || !s.ctx.NoErr? then s.(pc := Failing(if s.ctx.NoErr? then Canceled else s.ctx))
    else s.(phase := ModelStream, pc := Delivering(ModelStarted))
  }

  ghost function AdmitCalls(s: Run, assistant: Message): Run
  {
    var calls := Calls(assistant);
    var reason := StopBeforeTools(s, |calls|);
    if !reason.NoReason? then Stop(s, reason)
    else if !Acceptable(s.limits.isObject, s.seen, calls) then s.(pc := Failing(Other))
    else s.(seen := s.seen + IDs(calls), pending := [assistant], pc := Starting)
  }

  ghost function CommitResults(s: Run, stalled: bool): Run
    requires s.pc.Committing?
  {
    if !s.ctx.NoErr? then s.(pc := Failing(s.ctx))
    else
      var t := s.(retained := s.retained + s.pc.retained, canonical := s.canonical + s.pc.canonical);
      if s.pending == [] || !Matching(Calls(s.pending[0]), Results(s.pc.result)) then t.(pc := Failing(Other))
      else
        var u := t.(messages := s.messages + [s.pending[0], s.pc.result], pending := [], calls := s.calls + |Results(s.pc.result)|);
        if stalled then Stop(u, Stalled) else u.(batches := s.batches + 1, phase := ModelStart, pc := Top)
  }

  function DeliverEvent(s: Run): Run
    requires s.pc.Delivering?
  {
    if s.closed && !s.pc.event.RunEnded? then s.(pc := Idle)
    else s.(delivered := s.delivered + [s.pc.event], finished := s.finished || s.phase.Done?, pc := Idle)
  }

  function FailRun(s: Run): Run
    requires s.pc.Failing?
  {
    if !s.err.NoErr? then s.(pc := Idle)
    else s.(err := s.pc.err, reason := SetReason(s.reason, if s.pc.err.Canceled? then Cancelled else Failed), finished := true, pc := Idle)
  }

  function CloseRun(s: Run): Run
  {
    if s.closed then s
    else
      var t := s.(closed := true, ctx := if s.ctx.NoErr? then Canceled else s.ctx, finished := true);
      if !s.finished && s.err.NoErr? && s.reason.NoReason? then t.(err := Canceled, reason := SetReason(s.reason, Cancelled)) else t
  }

  ghost function Step(s: Run, a: Action): Run
    requires Enabled(s, a)
  {
    match a
    case Enter => EnterNext(s)
    case Check => CheckContext(s)
    case EmitRunStart => s.(phase := ModelStart, pc := Delivering(RunStarted))
    case BeginTurn => BeginModelTurn(s)
    case Prepared(err) => AttachStream(s, err)
    case StreamEvent => s.(pc := Delivering(ModelEvent))
    case StreamFailed(err) => s.(pc := Failing(err))
    case StreamDone(tokens) => s.(tokens := s.tokens + tokens, phase := ModelEnd, pc := Top)
    case EmitModelEnd => s.(phase := Decide, pc := Delivering(ModelEnded))
    case DecideFailed(err) => s.(pc := Failing(err))
    case Answer(m) => Stop(s.(messages := s.messages + [m]), Completed)
    case Admit(m) => AdmitCalls(s, m)
    case Started(err) => if err.NoErr? then s.(phase := ToolDrain, pc := Top) else s.(pc := Failing(err))
    case DrainEvent => s.(pc := Delivering(ToolEvent))
    case DrainFailed(err) => s.(pc := Failing(err))
    case Drained => s.(phase := AfterTools, pc := Top)
    case FinishFailed(err) => s.(pc := Failing(err))
    case Finish(result, retained, canonical) => s.(pc := Committing(result, retained, canonical))
    case Commit(stalled) => CommitResults(s, stalled)
    case EmitRunEnd => s.(phase := Done, pc := Delivering(RunEnded(s.reason)))
    case Exhaust => s.(finished := true, pc := Idle)
    case Deliver => DeliverEvent(s)
    case Fail => FailRun(s)
    case Close => CloseRun(s)
    case CancelContext(err) => if s.ctx.NoErr? then s.(ctx := err) else s
  }

  // ---- runs ----

  /** newConversation and newCallLedger: what a run starts from. */
  ghost predicate Initial(s: Run)
  {
    && WellPaired(s.request) && RolesFit(s.request) && UniqueCalls(s.request) && s.seen == AllIDs(s.request)
    && s.messages == s.request && s.pending == []
    && s.turns == s.calls == s.batches == s.tokens == s.retained == 0 && s.canonical <= s.limits.canonical
    && s.err.NoErr? && s.ctx.NoErr? && !s.closed && !s.finished && s.reason.NoReason? && s.phase.RunStart? && s.pc.Idle?
    && s.delivered == []
  }

  ghost predicate Legal(s: Run, actions: seq<Action>)
    decreases |actions|
  {
    actions == [] || (Enabled(s, actions[0]) && Legal(Step(s, actions[0]), actions[1..]))
  }

  ghost function Exec(s: Run, actions: seq<Action>): Run
    requires Legal(s, actions)
    decreases |actions|
  {
    if actions == [] then s else Exec(Step(s, actions[0]), actions[1..])
  }

  // ---- the calls of a history ----

  ghost function AllIDs(ms: seq<Message>): set<Bytes>
  {
    if ms == [] then {} else AllIDs(ms[..|ms| - 1]) + IDs(Calls(ms[|ms| - 1]))
  }

  /** No call ID occurs twice in the whole history. */
  ghost predicate UniqueCalls(ms: seq<Message>)
  {
    ms == [] || (
      var last := ms[|ms| - 1];
      UniqueCalls(ms[..|ms| - 1]) && DistinctIDs(Calls(last)) && AllIDs(ms[..|ms| - 1]) !! IDs(Calls(last)))
  }

  // ---- what every step keeps: outcomes ----

  function RunEnds(events: seq<Event>): nat
  {
    if events == [] then 0 else RunEnds(events[..|events| - 1]) + if events[|events| - 1].RunEnded? then 1 else 0
  }

  ghost predicate AtWork(pc: Pc)
  {
    pc.Preparing? || pc.Starting? || pc.Committing? || pc.Failing?
  }

  /** Errors and reasons agree, and the run's end is produced at most once, with its reason. */
  ghost predicate Outcome(s: Run)
  {
    && (!s.err.NoErr? ==> s.reason == if s.err.Canceled? then Cancelled else Failed)
    && (!s.reason.NoReason? && s.err.NoErr? ==> Controlled(s.reason) && Ready(s))
    && (Ready(s) ==> !s.reason.NoReason? && !AtWork(s.pc))
    && (s.pc.Failing? ==> !s.pc.err.NoErr?)
    && (s.pc.Delivering? && s.pc.event.RunEnded? ==> s.phase.Done? && s.pc.event.reason == s.reason)
    && RunEnds(s.delivered) == (if s.phase.Done? && !(s.pc.Delivering? && s.pc.event.RunEnded?) then 1 else 0)
    && (s.phase.Done? && s.pc.Delivering? ==> s.pc.event.RunEnded?)
    && (s.phase.RunEnd? ==> s.pc.Top? || s.pc.Stepping?)
    && (forall i :: 0 <= i < |s.delivered| && s.delivered[i].RunEnded? ==> s.phase.Done? && s.delivered[i].reason == s.reason)
  }

  /** The sections up to the end of a model turn. */
  predicate ModelSide(a: Action)
  {
    a.Enter? || a.Check? || a.EmitRunStart? || a.BeginTurn? || a.Prepared? || a.StreamEvent? || a.StreamFailed? || a.StreamDone?
    || a.EmitModelEnd? || a.DecideFailed? || a.Answer?
  }

  lemma OutcomeKept(s: Run, a: Action)
    requires Outcome(s) && Enabled(s, a)
    ensures Outcome(Step(s, a))
  {
    hide Outcome, Enabled, Step;
    if ModelSide(a) {
      OutcomeKeptByModel(s, a);
    } else {
      OutcomeKeptByTools(s, a);
    }
  }

  lemma OutcomeKeptByModel(s: Run, a: Action)
    requires Outcome(s) && Enabled(s, a) && ModelSide(a)
    ensures Outcome(Step(s, a))
  {
    hide RunEnds, FromModel, Calls, Outcome;
    match a {
      case Enter => EnterKeeps(s);
      case Check => CheckKeeps(s);
      case BeginTurn => BeginKeeps(s);
      case Prepared(err) => AttachKeeps(s, err);
      case Answer(m) => AnswerStops(s, m);
      case EmitRunStart => GoesOn(s, Step(s, a));
      case StreamEvent => GoesOn(s, Step(s, a));
      case StreamFailed(err) => GoesOn(s, Step(s, a));
      case StreamDone(tokens) => GoesOn(s, Step(s, a));
      case EmitModelEnd => GoesOn(s, Step(s, a));
      case DecideFailed(err) => GoesOn(s, Step(s, a));
      case _ =>
    }
  }

  lemma EnterKeeps(s: Run)
    requires Outcome(s) && s.pc.Idle?
    ensures Outcome(EnterNext(s))
  {
    hide RunEnds;
  }

  lemma CheckKeeps(s: Run)
    requires Outcome(s) && s.pc.Top?
    ensures Outcome(CheckContext(s))
  {
    hide RunEnds;
  }

  lemma BeginKeeps(s: Run)
    requires Outcome(s) && s.pc.Stepping? && s.phase.ModelStart?
    ensures Outcome(BeginModelTurn(s))
  {
    hide RunEnds;
  }

  lemma AttachKeeps(s: Run, err: Err)
    requires Outcome(s) && s.pc.Preparing?
    ensures Outcome(AttachStream(s, err))
  {
    hide RunEnds;
  }

  lemma AnswerStops(s: Run, m: Message)
    requires Outcome(s) && s.pc.Stepping? && s.phase.Decide?
    ensures Outcome(Stop(s.(messages := s.messages + [m]), Completed))
  {
    hide RunEnds;
  }

  /** A section that leaves the outcome alone and does not touch the end of the run. */
  lemma GoesOn(s: Run, t: Run)
    requires Outcome(s) && !Ready(s) && !Ready(t)
    requires t.err == s.err && t.reason == s.reason && t.delivered == s.delivered
    requires t.pc.Failing? ==> !t.pc.err.NoErr?
    requires t.pc.Delivering? ==> !t.pc.event.RunEnded?
    ensures Outcome(t)
  {
    hide RunEnds;
  }

  lemma OutcomeKeptByTools(s: Run, a: Action)
    requires Outcome(s) && Enabled(s, a) && !ModelSide(a)
    ensures Outcome(Step(s, a))
  {
    hide Acceptable, Matching, StopBeforeTools, RunEnds, Calls, Results, FromModel;
    match a {
      case Deliver => DeliverKeeps(s);
      case Admit(m) => AdmitKeeps(s, m);
      case Commit(stalled) => CommitKeeps(s, stalled);
      case _ =>
    }
  }

  lemma RunEndsMore(events: seq<Event>, e: Event)
    ensures RunEnds(events + [e]) == RunEnds(events) + if e.RunEnded? then 1 else 0
  {
    assert (events + [e])[..|events|] == events;
  }

  lemma DeliverKeeps(s: Run)
    requires Outcome(s) && s.pc.Delivering?
    ensures Outcome(DeliverEvent(s))
  {
    hide RunEnds, Controlled;
    RunEndsMore(s.delivered, s.pc.event);
  }

  lemma AdmitKeeps(s: Run, m: Message)
    requires Outcome(s) && s.pc.Stepping? && s.phase.Decide?
    ensures Outcome(AdmitCalls(s, m))
  {
    hide Acceptable, RunEnds;
  }

  lemma CommitKeeps(s: Run, stalled: bool)
    requires Outcome(s) && s.pc.Committing?
    ensures Outcome(CommitResults(s, stalled))
  {
    hide Matching, RunEnds;
  }

  // ---- what every step keeps: the transcript and the budgets ----

  ghost predicate PendingFits(s: Run)
  {
    s.pending == [] || (
      && |s.pending| == 1 && FromModel(s.pending[0]) && DistinctIDs(Calls(s.pending[0]))
      && IDs(Calls(s.pending[0])) <= s.seen && IDs(Calls(s.pending[0])) !! AllIDs(s.messages)
      && s.calls + |Calls(s.pending[0])| <= s.limits.toolCalls)
  }

  ghost predicate Transcript(request: seq<Message>, ms: seq<Message>)
  {
    |request| <= |ms| && ms[..|request|] == request && WellPaired(ms) && RolesFit(ms) && UniqueCalls(ms)
  }

  /** The transcript extends the request as a well-paired history without a repeated call, and
      every counter is within its limit. */
  ghost predicate Data(s: Run)
  {
    && Transcript(s.request, s.messages) && AllIDs(s.messages) <= s.seen
    && PendingFits(s)
    && s.turns <= s.limits.modelTurns && s.calls <= s.limits.toolCalls
    && s.retained <= s.limits.retained && s.canonical <= s.limits.canonical
    && (s.pc.Committing? ==>
          && s.pc.result.role == User && Calls(s.pc.result) == []
          && s.retained + s.pc.retained <= s.limits.retained && s.canonical + s.pc.canonical <= s.limits.canonical)
  }

  lemma DataKept(s: Run, a: Action)
    requires Data(s) && Enabled(s, a)
    ensures Data(Step(s, a)) && Step(s, a).request == s.request && Step(s, a).limits == s.limits
  {
    hide Data, Calls, Results, FromModel, Acceptable, Matching, StopBeforeTools, SameData;
    match a {
      case Answer(m) => AnswerKeeps(s, m);
      case Admit(m) => AdmitKeepsData(s, m);
      case Commit(stalled) => CommitKeepsData(s, stalled);
      case BeginTurn => TurnKeeps(s);
      case Finish(result, retained, canonical) => FinishKeeps(s, result, retained, canonical);
      case _ => NothingTouched(s, a); Untouched(s, Step(s, a));
    }
  }

  lemma NothingTouched(s: Run, a: Action)
    requires Enabled(s, a) && !(a.Answer? || a.Admit? || a.Commit? || a.BeginTurn? || a.Finish?)
    ensures SameData(s, Step(s, a))
  {
    hide Calls, Results, FromModel, Acceptable, Matching, StopBeforeTools;
  }

  ghost predicate SameData(s: Run, t: Run)
  {
    && t.request == s.request && t.limits == s.limits && t.messages == s.messages && t.pending == s.pending && t.seen == s.seen
    && t.turns == s.turns && t.calls == s.calls && t.retained == s.retained && t.canonical == s.canonical
    && (t.pc == s.pc || !t.pc.Committing?)
  }

  lemma Untouched(s: Run, t: Run)
    requires Data(s) && SameData(s, t)
    ensures Data(t)
  {
    hide Transcript, AllIDs, Calls, Results, FromModel, DistinctIDs;
  }

  lemma TurnKeeps(s: Run)
    requires Data(s)
    ensures Data(BeginModelTurn(s))
  {
    hide Transcript, AllIDs, Calls, Results, FromModel, DistinctIDs;
  }

  lemma FinishKeeps(s: Run, result: Message, retained: nat, canonical: nat)
    requires Data(s) && result.role == User && Calls(result) == []
    requires s.retained + retained <= s.limits.retained && s.canonical + canonical <= s.limits.canonical
    ensures Data(s.(pc := Committing(result, retained, canonical)))
  {
    hide Transcript, AllIDs, Calls, Results, FromModel, DistinctIDs;
  }

  lemma AnswerKeeps(s: Run, m: Message)
    requires Data(s) && FromModel(m) && Calls(m) == []
    ensures Data(Stop(s.(messages := s.messages + [m]), Completed))
  {
    hide CallsIn, ResultsIn, WellPaired, RolesFit, UniqueCalls, AllIDs;
    NoIDs(m);
    AppendOrdinary(s.messages, m);
    AppendRoles(s.messages, m);
    AppendUnique(s.messages, m);
    assert (s.messages + [m])[..|s.request|] == s.messages[..|s.request|];
  }

  lemma NoIDs(m: Message)
    requires Calls(m) == []
    ensures IDs(Calls(m)) == {} && DistinctIDs(Calls(m))
  {
  }

  lemma AdmitKeepsData(s: Run, m: Message)
    requires Data(s) && FromModel(m)
    ensures Data(AdmitCalls(s, m))
  {
    hide Transcript, AllIDs, CallsIn, ResultsIn, DistinctIDs;
    var calls := Calls(m);
    if StopBeforeTools(s, |calls|).NoReason? && Acceptable(s.limits.isObject, s.seen, calls) {
      assert IDs(calls) !! s.seen;
    }
  }

  lemma CommitKeepsData(s: Run, stalled: bool)
    requires Data(s) && s.pc.Committing?
    ensures Data(CommitResults(s, stalled))
  {
    hide CallsIn, ResultsIn, CallKeys, ResultKeys, WellPaired, RolesFit, UniqueCalls, AllIDs;
    if s.ctx.NoErr? && s.pending != [] && Matching(Calls(s.pending[0]), Results(s.pc.result)) {
      var call, result := s.pending[0], s.pc.result;
      SameCount(Calls(call), Results(result));
      AppendExchange(s.messages, call, result);
      AppendRoles(s.messages, call);
      AppendRoles(s.messages + [call], result);
      AppendUnique(s.messages, call);
      AppendUnique(s.messages + [call], result);
      assert s.messages + [call] + [result] == s.messages + [call, result];
      assert (s.messages + [call, result])[..|s.request|] == s.messages[..|s.request|];
    }
  }

  lemma SameCount(calls: seq<Call>, results: seq<ToolResult>)
    requires Matching(calls, results)
    ensures |calls| == |results|
  {
    assert |multiset(CallKeys(calls))| == |multiset(ResultKeys(results))|;
  }

  lemma {:induction false} AppendOrdinary(ms: seq<Message>, m: Message)
    requires WellPaired(ms) && Calls(m) == [] && Results(m) == []
    ensures WellPaired(ms + [m])
  {
    hide CallsIn, ResultsIn, DistinctIDs, CallKeys, ResultKeys;
    if ms == [] {
      assert (ms + [m])[1..] == [];
    } else {
      var n := if Calls(ms[0]) == [] then 1 else 2;
      assert (ms + [m])[n..] == ms[n..] + [m];
      AppendOrdinary(ms[n..], m);
    }
  }

  lemma {:induction false} AppendExchange(ms: seq<Message>, call: Message, result: Message)
    requires WellPaired(ms) && IsExchange(call, result)
    ensures WellPaired(ms + [call, result])
  {
    hide CallsIn, ResultsIn, DistinctIDs, CallKeys, ResultKeys;
    if ms == [] {
      assert (ms + [call, result])[2..] == [];
    } else {
      var n := if Calls(ms[0]) == [] then 1 else 2;
      assert (ms + [call, result])[n..] == ms[n..] + [call, result];
      AppendExchange(ms[n..], call, result);
    }
  }

  lemma AppendRoles(ms: seq<Message>, m: Message)
    requires RolesFit(ms) && (Calls(m) != [] ==> m.role == Assistant) && (Results(m) != [] ==> m.role == User)
    ensures RolesFit(ms + [m])
  {
    hide CallsIn, ResultsIn;
  }

  lemma AppendUnique(ms: seq<Message>, m: Message)
    requires UniqueCalls(ms) && DistinctIDs(Calls(m)) && AllIDs(ms) !! IDs(Calls(m))
    ensures UniqueCalls(ms + [m]) && AllIDs(ms + [m]) == AllIDs(ms) + IDs(Calls(m))
  {
    hide CallsIn;
    assert (ms + [m])[..|ms|] == ms;
  }

  // ---- over whole runs ----

  ghost predicate Invariant(s: Run)
  {
    Outcome(s) && Data(s)
  }

  lemma InitialHolds(s: Run)
    requires Initial(s)
    ensures Invariant(s)
  {
    hide WellPaired, RolesFit, UniqueCalls, AllIDs;
    assert s.messages[..|s.request|] == s.request;
  }

  /** In every reachable state the outcome fields agree, the transcript is a well-paired
      extension of the request without a repeated call, and the budgets hold. */
  lemma {:induction false} RunsKeepInvariant(s: Run, actions: seq<Action>)
    requires Invariant(s) && Legal(s, actions)
    ensures Invariant(Exec(s, actions)) && Exec(s, actions).request == s.request
    decreases |actions|
  {
    hide Outcome, Data;
    if actions != [] {
      OutcomeKept(s, actions[0]);
      DataKept(s, actions[0]);
      RunsKeepInvariant(Step(s, actions[0]), actions[1..]);
    }
  }

  lemma ReasonStays(s: Run, a: Action)
    requires Enabled(s, a) && !s.reason.NoReason?
    ensures Step(s, a).reason == s.reason
  {
    hide Acceptable, Matching, Calls, Results, StopBeforeTools, IDs;
  }

  /** The stop reason, once written, never changes. */
  lemma {:induction false} ReasonWrittenOnce(s: Run, actions: seq<Action>)
    requires Legal(s, actions) && !s.reason.NoReason?
    ensures Exec(s, actions).reason == s.reason
    decreases |actions|
  {
    if actions != [] {
      ReasonStays(s, actions[0]);
      ReasonWrittenOnce(Step(s, actions[0]), actions[1..]);
    }
  }

  /** A controlled reason means there is no error, now and in every later state; an error means
      the run was cancelled when the error says so and failed otherwise; the end of the run is delivered at most once, with the
      reason the run ended for. */
  lemma OutcomesAgree(s: Run, actions: seq<Action>, more: seq<Action>)
    requires Initial(s) && Legal(s, actions) && Legal(Exec(s, actions), more)
    ensures var t := Exec(s, actions); var u := Exec(t, more);
      && (Controlled(t.reason) ==> u.err.NoErr? && u.reason == t.reason)
      && (!t.err.NoErr? ==> t.reason == if t.err.Canceled? then Cancelled else Failed)
      && RunEnds(u.delivered) <= 1
      && (forall i :: 0 <= i < |u.delivered| && u.delivered[i].RunEnded? ==> u.delivered[i].reason == u.reason)
  {
    hide Data, Legal, Exec, Initial;
    var t := Exec(s, actions);
    InitialHolds(s);
    RunsKeepInvariant(s, actions);
    RunsKeepInvariant(t, more);
    if Controlled(t.reason) {
      ReasonWrittenOnce(t, more);
    }
  }

  lemma {:induction false} LegalTwice(s: Run, a: seq<Action>, b: seq<Action>)
    requires Legal(s, a) && Legal(Exec(s, a), b)
    ensures Legal(s, a + b) && Exec(s, a + b) == Exec(Exec(s, a), b)
    decreases |a|
  {
    if a == [] {
      assert a + b == b;
    } else {
      assert (a + b)[1..] == a[1..] + b;
      LegalTwice(Step(s, a[0]), a[1..], b);
    }
  }

  lemma One(s: Run, a: Action)
    requires Enabled(s, a)
    ensures Legal(s, [a]) && Exec(s, [a]) == Step(s, a)
  {
    assert [a][1..] == [];
  }
}
