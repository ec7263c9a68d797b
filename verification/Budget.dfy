/** From a batch's admission quota to the size of its stored message: the quota computed
    before the calls run, its shares, and the session ceiling that holds afterwards
    (core/tools/limits.go:227-254, core/tools/input.go:140-160, core/tools/batch.go:449-478,
    runtime/loops/message_budget.go:50-128, runtime/loops/stream.go:414-447, 566-594). */
module Budget {
  import opened Utf8
  import opened Int64
  import opened Wrappers
  import opened Frame
  import opened Marker
  import opened Truncate
  import opened CollectorOutput
  import opened Finalize
  import opened Wire
  import WireMessage

  const PER_CALL_ERROR_RESERVE: nat := 1024
  const PER_CALL_RAW_RESERVE: nat := 1024
  const RAW_QUOTA_DIVISOR: nat := 6

  // ---- shares of the batch quota ----

  function Sum(s: seq<nat>): nat
  {
    if s == [] then 0 else Sum(s[..|s| - 1]) + s[|s| - 1]
  }

  /** The share of the i-th of n calls. */
  function Share(batch: nat, maxFramed: nat, n: nat, i: nat): nat
    requires n > 0
  {
    Truncate.Min(batch / n + if i < batch % n then 1 else 0, maxFramed)
  }

  datatype Shares = Shares(each: seq<nat>) | BelowReserve

  /** allocateCallQuotas: every call gets at least its reserve, no more than one output may
      take, and together no more than the batch has; equal shares differ by at most one, and
      nothing is left over unless one output may not take more. */
  method AllocateCallQuotas(batch: int64, maxFramed: nat, n: nat) returns (r: Shares)
    requires n <= MAX_INT64
    ensures r.BelowReserve? <==> n == 0 || batch < n * PER_CALL_ERROR_RESERVE
    ensures r.Shares? ==> |r.each| == n && Sum(r.each) <= batch
    ensures r.Shares? ==> forall i :: 0 <= i < n ==> r.each[i] == Share(batch, maxFramed, n, i)
    ensures r.Shares? ==> forall i :: 0 <= i < n ==> r.each[i] <= maxFramed
    ensures r.Shares? ==> forall i :: 0 <= i < n ==> r.each[i] >= PER_CALL_ERROR_RESERVE || r.each[i] == maxFramed
    ensures r.Shares? ==> forall i, j :: 0 <= i < j < n ==> r.each[j] <= r.each[i] <= r.each[j] + 1
    ensures r.Shares? && (forall i :: 0 <= i < n ==> r.each[i] < maxFramed) ==> Sum(r.each) == batch
  {
    if n == 0 {
      return BelowReserve;
    }
    var need := Mul64(n, PER_CALL_ERROR_RESERVE);
    if need.Overflow? || batch < need.value {
      return BelowReserve;
    }
    assert need.value >= 0;
    var base := batch / n;
    var rem := batch % n;
    DivisionFacts(batch, n);
    var out: seq<nat> := [];
    for i := 0 to n
      invariant |out| == i
      invariant forall k :: 0 <= k < i ==> out[k] == Share(batch, maxFramed, n, k)
    {
      var share := base;
      if i < rem {
        share := share + 1;
      }
      if share > maxFramed {
        share := maxFramed;
      }
      out := out + [share];
    }
    assert out == AllShares(batch, maxFramed, n, n);
    SharesSum(batch, maxFramed, n, n);
    r := Shares(out);
  }

  function AllShares(batch: nat, maxFramed: nat, n: nat, k: nat): (r: seq<nat>)
    requires n > 0
    ensures |r| == k
  {
    seq(k, i requires 0 <= i < k => Share(batch, maxFramed, n, i))
  }

  lemma {:induction false} SharesSum(batch: nat, maxFramed: nat, n: nat, k: nat)
    requires n > 0 && k <= n
    ensures Sum(AllShares(batch, maxFramed, n, k)) <= k * (batch / n) + Truncate.Min(k, batch % n)
    ensures (forall i :: 0 <= i < k ==> Share(batch, maxFramed, n, i) < maxFramed) ==>
      Sum(AllShares(batch, maxFramed, n, k)) == k * (batch / n) + Truncate.Min(k, batch % n)
  {
    if k > 0 {
      SharesSum(batch, maxFramed, n, k - 1);
      assert AllShares(batch, maxFramed, n, k)[..k - 1] == AllShares(batch, maxFramed, n, k - 1);
      assert k * (batch / n) == (k - 1) * (batch / n) + batch / n;
    }
  }

  lemma DivisionFacts(batch: nat, n: nat)
    requires n > 0 && batch >= n * PER_CALL_ERROR_RESERVE
    ensures batch == n * (batch / n) + batch % n && 0 <= batch % n < n && batch / n >= PER_CALL_ERROR_RESERVE
  {
    var q := batch / n;
    assert (q + 1) * n == q * n + n;
    if q < PER_CALL_ERROR_RESERVE {
      Times(q + 1, PER_CALL_ERROR_RESERVE, n);
    }
  }

  // ---- admission ----

  datatype Call = Call(id: Bytes, name: Bytes)

  /** The smallest message the batch could store: every call failed with an empty text. */
  function Minimum(calls: seq<Call>): (r: seq<ToolResult>)
    ensures |r| == |calls| && forall i :: 0 <= i < |r| ==> r[i] == ToolResult(calls[i].id, calls[i].name, true, [Text([])])
  {
    if calls == [] then [] else [ToolResult(calls[0].id, calls[0].name, true, [Text([])])] + Minimum(calls[1..])
  }

  datatype Admission =
    | Admitted(quota: int64, reserved: int64, assistantBytes: int64, minimumGroup: int64)
    | CannotFrame
    | OverCeiling
    | OverRunBudget

  ghost function Fixed(calls: seq<Call>): nat
  {
    |JsonMessage(Minimum(calls))| + |calls| * PER_CALL_RAW_RESERVE
  }

  /** The fixed part fits under the ceiling and in what is left of the run's budgets. */
  ghost predicate Admissible(calls: seq<Call>, assistantBytes: nat, ceiling: int, retainedRemaining: int, canonicalRemaining: int)
  {
    && MessageEncodes(Minimum(calls)) && |JsonMessage(Minimum(calls))| <= MAX_INT64 && Fixed(calls) <= ceiling
    && assistantBytes + Fixed(calls) <= retainedRemaining && assistantBytes + Fixed(calls) <= canonicalRemaining
  }

  /** What is left under the ceiling, divided by six, but no more than what is left of the
      run's budgets. */
  ghost function Quota(calls: seq<Call>, assistantBytes: nat, ceiling: int, retainedRemaining: int, canonicalRemaining: int): int
  {
    var group := assistantBytes + Fixed(calls);
    var left := if retainedRemaining < canonicalRemaining then retainedRemaining - group else canonicalRemaining - group;
    var quota := (ceiling - Fixed(calls)) / RAW_QUOTA_DIVISOR;
    if quota < left then quota else left
  }

  method SafeAddBytes(left: int64, right: int64) returns (r: Checked)
    ensures r == if left < 0 || right < 0 || left + right > MAX_INT64 then Overflow else Exact(left + right)
  {
    if left < 0 || right < 0 || right > MAX_INT64 - left {
      return Overflow;
    }
    r := Exact(left + right);
  }

  /** toolExchangeAdmission: admitted exactly when the fixed part fits everywhere; six times
      the quota then fits under the ceiling beside the fixed part, and the quota itself fits
      what is left of the run's budgets. */
  method ToolExchangeAdmission(calls: seq<Call>, assistantBytes: int64, ceiling: int64, retainedRemaining: int64, canonicalRemaining: int64)
    returns (r: Admission)
    requires assistantBytes >= 0 && |calls| <= 0x1_0000_0000
    ensures r.CannotFrame? <==> !MessageEncodes(Minimum(calls)) || |JsonMessage(Minimum(calls))| > MAX_INT64
    ensures r.OverCeiling? <==> !r.CannotFrame? && Fixed(calls) > ceiling
    ensures r.OverRunBudget? <==>
      && !r.CannotFrame? && Fixed(calls) <= ceiling
      && (assistantBytes + Fixed(calls) > retainedRemaining || assistantBytes + Fixed(calls) > canonicalRemaining)
    ensures r.Admitted? ==>
      && r.reserved == Fixed(calls) && r.assistantBytes == assistantBytes && r.minimumGroup == assistantBytes + Fixed(calls)
      && r.quota >= 0 && 6 * r.quota + Fixed(calls) <= ceiling
      && r.minimumGroup + r.quota <= retainedRemaining && r.minimumGroup + r.quota <= canonicalRemaining
    ensures r.Admitted? <==> Admissible(calls, assistantBytes, ceiling, retainedRemaining, canonicalRemaining)
    ensures r.Admitted? ==> r.quota == Quota(calls, assistantBytes, ceiling, retainedRemaining, canonicalRemaining)
  {
    hide JsonMessage, MessageEncodes, Minimum;
    var minimum := WireMessage.ResultsSize(Minimum(calls));
    if minimum.Overflow? {
      return CannotFrame;
    }
    var fixed := SafeAddBytes(minimum.value, |calls| * PER_CALL_RAW_RESERVE);
    if fixed.Overflow? || fixed.value > ceiling {
      return OverCeiling;
    }
    var group := SafeAddBytes(assistantBytes, fixed.value);
    if group.Overflow? || group.value > retainedRemaining || group.value > canonicalRemaining {
      return OverRunBudget;
    }
    var quota := (ceiling - fixed.value) / RAW_QUOTA_DIVISOR;
    if quota > retainedRemaining - group.value {
      quota := retainedRemaining - group.value;
    }
    if quota > canonicalRemaining - group.value {
      quota := canonicalRemaining - group.value;
    }
    r := Admitted(quota, fixed.value, assistantBytes, group.value);
  }

  function ClampTo(quota: int64, ceiling: int64): (r: int64)
    ensures r <= quota && (ceiling > 0 ==> r <= ceiling)
  {
    if ceiling > 0 && quota > ceiling then ceiling else quota
  }

  // ---- the stored message ----

  datatype Finished = Finished(blocks: seq<Block>, isError: bool)

  /** The results of the calls that finished, in call order. */
  function ResultsOf(calls: seq<Call>, outs: seq<Option<Finished>>): seq<ToolResult>
    requires |calls| == |outs|
  {
    if calls == [] then []
    else
      (if outs[0].None? then []
       else [ToolResult(calls[0].id, calls[0].name, outs[0].value.isError, outs[0].value.blocks)])
      + ResultsOf(calls[1..], outs[1..])
  }

  function FrameTotal(outs: seq<Option<Finished>>): nat
  {
    if outs == [] then 0 else (if outs[0].None? then 0 else FrameSize(outs[0].value.blocks)) + FrameTotal(outs[1..])
  }

  /** One result costs at most its empty error form and six times its frame. */
  lemma ResultCost(call: Call, out: Finished)
    ensures |JsonResult(ToolResult(call.id, call.name, out.isError, out.blocks))|
      <= |JsonResult(ToolResult(call.id, call.name, true, [Text([])]))| + 6 * FrameSize(out.blocks)
  {
    hide JsonField, Ascii, Join, JsonBlocks;
    BlocksCost(out.blocks, 0);
    assert out.blocks[0..] == out.blocks;
  }

  lemma {:induction false} ResultsCost(calls: seq<Call>, outs: seq<Option<Finished>>)
    requires |calls| == |outs|
    ensures |ResultsOf(calls, outs)| <= |calls|
    ensures |Join(JsonResults(ResultsOf(calls, outs)))| <= |Join(JsonResults(Minimum(calls)))| + 6 * FrameTotal(outs)
  {
    hide JsonResult, Join, FrameSize;
    NoItems();
    if calls == [] {
      assert JsonResults(ResultsOf(calls, outs)) == JsonResults(Minimum(calls));
    } else {
      var rest, restOuts := calls[1..], outs[1..];
      ResultsCost(rest, restOuts);
      var least := ToolResult(calls[0].id, calls[0].name, true, [Text([])]);
      ResultsCons(least, Minimum(rest));
      if outs[0].None? {
        assert ResultsOf(calls, outs) == ResultsOf(rest, restOuts);
      } else {
        var out := outs[0].value;
        ResultCost(calls[0], out);
        ResultsCons(ToolResult(calls[0].id, calls[0].name, out.isError, out.blocks), ResultsOf(rest, restOuts));
      }
    }
  }

  lemma NoItems()
    ensures Join([]) == []
  {
  }

  lemma ResultsCons(r: ToolResult, rest: seq<ToolResult>)
    ensures |Join(JsonResults([r] + rest))| == |JsonResult(r)| + (if rest == [] then 0 else 1 + |Join(JsonResults(rest))|)
  {
    hide JsonResult;
    assert ([r] + rest)[1..] == rest;
    JoinCons(JsonResult(r), JsonResults(rest));
  }

  lemma {:induction false} FrameTotalWithin(outs: seq<Option<Finished>>, shares: seq<nat>)
    requires |outs| == |shares| && forall i :: 0 <= i < |outs| && outs[i].Some? ==> FrameSize(outs[i].value.blocks) <= shares[i]
    ensures FrameTotal(outs) <= Sum(shares)
  {
    hide FrameSize;
    if outs != [] {
      FrameTotalWithin(outs[1..], shares[1..]);
      SumFront(shares);
    }
  }

  lemma {:induction false} SumFront(s: seq<nat>)
    requires s != []
    ensures Sum(s) == s[0] + Sum(s[1..])
  {
    if |s| == 1 {
      assert s[..0] == [] && s[1..] == [];
    } else {
      SumFront(s[..|s| - 1]);
      assert s[1..][..|s| - 2] == s[..|s| - 1][1..];
    }
  }

  /** The message of a batch admitted with a quota and kept within its shares stays under the
      session ceiling, whichever of its calls finished and whatever they returned. */
  lemma SessionCeilingHolds(calls: seq<Call>, outs: seq<Option<Finished>>, shares: seq<nat>, quota: nat, ceiling: nat)
    requires |calls| == |outs| == |shares|
    requires forall i :: 0 <= i < |outs| && outs[i].Some? ==> FrameSize(outs[i].value.blocks) <= shares[i]
    requires Sum(shares) <= quota && 6 * quota + Fixed(calls) <= ceiling
    ensures |JsonMessage(ResultsOf(calls, outs))| + |calls| * PER_CALL_RAW_RESERVE <= ceiling
  {
    hide Join, JsonResults, FrameSize, Ascii, Sum, FrameTotal, ResultsOf;
    ResultsCost(calls, outs);
    FrameTotalWithin(outs, shares);
  }

  // ---- a whole tool turn ----

  datatype Raw = Raw(blocks: seq<Block>, isError: bool, receipt: Option<Receipt>)

  datatype Turn =
    | Stored(results: seq<ToolResult>, retained: int64, canonical: int64)
    | NotAdmitted
    | BatchFailed
    | CannotEncode
    | CeilingExceeded
    | SizeOverflow
    | ReserveExceeded

  /** An output that goes through as it is. */
  ghost predicate KeptWhole(look: Look, raw: Raw, limits: Limits)
  {
    raw.receipt.None? && Accepted(look, raw.blocks, limits) && Fits(raw.blocks, limits)
  }

  /** A receipt is only handed out with content within the limit on text. */
  ghost predicate HonestReceipt(raw: Raw, limits: Limits)
  {
    raw.receipt.Some? ==> TextTotal(raw.blocks) <= limits.maxTextBytes
  }

  /** What is returned for an output: within every limit, and with no image of its own. */
  ghost predicate Derived(raw: Raw, out: seq<Block>, limits: Limits)
  {
    && 0 < |out| <= limits.maxBlocks && FrameSize(out) <= limits.maxFramedBytes && AllValid(out)
    && (HonestReceipt(raw, limits) ==> TextTotal(out) <= limits.maxTextBytes)
    && ImageTotal(out) <= limits.maxImageBytes
    && forall i :: 0 <= i < |out| && out[i].Image? ==> out[i] in raw.blocks
  }

  /** How a call of a finished batch ends. */
  ghost predicate Settled(look: Look, raw: Raw, limits: Limits, out: Option<Finished>)
  {
    && (out.None? ==> raw.receipt.Some? || !Accepted(look, raw.blocks, limits))
    && (out.Some? ==> Derived(raw, out.value.blocks, limits))
    && (KeptWhole(look, raw, limits) ==> out == Some(Finished(raw.blocks, raw.isError)))
  }

  /** runCall's last step: an output over budget is replaced by the fixed one, which fits. */
  method FinalizeCall(sha: Bytes -> Digest, look: Look, raw: Raw, limits: Limits) returns (r: Option<Finished>)
    requires limits.maxBlocks >= 1 && limits.maxTextBytes >= MIN_TEXT_BYTES && limits.maxFramedBytes >= MIN_FRAMED_BYTES
    ensures Settled(look, raw, limits, r)
  {
    hide *;
    var final := FinalizeOutput(sha, look, raw.blocks, raw.isError, raw.receipt, limits);
    if final.Budgeted? {
      SettledByBudget(sha, look, raw, limits, final);
      final := BudgetOutput(sha, look, limits);
      r := Some(Finished(final.blocks, final.isError));
      return;
    }
    if !final.Sealed? {
      SettledByNone(sha, look, raw, limits, final);
      return None;
    }
    r := Some(Finished(final.blocks, final.isError));
    SettledBySeal(sha, look, raw, limits, final);
  }

  lemma SettledByNone(sha: Bytes -> Digest, look: Look, raw: Raw, limits: Limits, final: Final)
    requires final.Refused?
    requires Accepted(look, raw.blocks, limits) && raw.receipt.None? ==> SettledBy(sha, raw.blocks, limits, final)
    ensures Settled(look, raw, limits, None)
  {
    hide Accepted, Fits;
  }

  lemma SettledByBudget(sha: Bytes -> Digest, look: Look, raw: Raw, limits: Limits, final: Final)
    requires final.Budgeted?
    requires limits.maxBlocks >= 1 && limits.maxTextBytes >= MIN_TEXT_BYTES && limits.maxFramedBytes >= MIN_FRAMED_BYTES
    requires Accepted(look, raw.blocks, limits) && raw.receipt.None? ==> SettledBy(sha, raw.blocks, limits, final)
    ensures Settled(look, raw, limits, Some(Finished([Text(BUDGET_ERROR)], true)))
  {
    hide FrameSize, TextTotal, AllValid, FitsAt, HasText, Truncation, Structured, SoundBlock;
    BudgetErrorFits(look, limits);
    AcceptedValid(look, [Text(BUDGET_ERROR)], limits);
    AcceptedImages(look, [Text(BUDGET_ERROR)], limits);
  }

  lemma AcceptedImages(look: Look, blocks: seq<Block>, limits: Limits)
    requires Accepted(look, blocks, limits)
    ensures 0 < |blocks| <= limits.maxBlocks && ImageTotal(blocks) <= limits.maxImageBytes
  {
    hide SoundBlock, TagsFit, MetadataFits;
  }

  lemma SettledBySeal(sha: Bytes -> Digest, look: Look, raw: Raw, limits: Limits, final: Final)
    requires final.Sealed? && AllValid(final.blocks) && final.isError == raw.isError && FrameSize(final.blocks) <= limits.maxFramedBytes
    requires Accepted(look, raw.blocks, limits)
    requires raw.receipt.None? ==> SettledBy(sha, raw.blocks, limits, final)
    requires raw.receipt.Some? ==> final.blocks == raw.blocks
    ensures Settled(look, raw, limits, Some(Finished(final.blocks, final.isError)))
  {
    hide FrameSize, TextTotal, AllValid, FitsAt, HasText, Structured, SoundBlock, FormatMarker, Before, After, AllText;
    AcceptedImages(look, raw.blocks, limits);
    if raw.receipt.None? && !Fits(raw.blocks, limits) {
      SameImages(raw.blocks, final.blocks);
    }
  }

  lemma {:induction false} SameImages(blocks: seq<Block>, out: seq<Block>)
    requires |out| == |blocks|
    requires forall i :: 0 <= i < |blocks| ==> (out[i].Text? <==> blocks[i].Text?) && (!blocks[i].Text? ==> out[i] == blocks[i])
    ensures ImageTotal(out) == ImageTotal(blocks)
  {
    if blocks != [] {
      SameImages(blocks[..|blocks| - 1], out[..|out| - 1]);
    }
  }

  method FinalizeAll(sha: Bytes -> Digest, look: Look, raws: seq<Raw>, shares: seq<nat>, limits: Limits) returns (outs: seq<Option<Finished>>)
    requires |raws| == |shares| && limits.maxBlocks >= 1 && limits.maxTextBytes >= MIN_TEXT_BYTES
    requires forall i :: 0 <= i < |shares| ==> MIN_FRAMED_BYTES <= shares[i] <= limits.maxFramedBytes
    ensures |outs| == |raws|
    ensures forall i :: 0 <= i < |outs| ==> Settled(look, raws[i], limits.(maxFramedBytes := shares[i]), outs[i])
  {
    hide Settled;
    outs := [];
    for i := 0 to |raws|
      invariant |outs| == i
      invariant forall j :: 0 <= j < i ==> Settled(look, raws[j], limits.(maxFramedBytes := shares[j]), outs[j])
    {
      var out := FinalizeCall(sha, look, raws[i], limits.(maxFramedBytes := shares[i]));
      outs := outs + [out];
    }
  }

  /** What a turn finds when its calls were requested. */
  datatype Setting = Setting(
    limits: Limits, batchLimit: int64, providerQuota: int64,
    assistantBytes: int64, providerState: int64, ceiling: int64, retainedRemaining: int64, canonicalRemaining: int64)

  ghost predicate Configured(at: Setting)
  {
    && at.limits.maxBlocks >= 1 && at.limits.maxTextBytes >= MIN_TEXT_BYTES && at.limits.maxFramedBytes >= MIN_FRAMED_BYTES
    && 0 <= at.assistantBytes && 0 <= at.providerState <= MAX_INT64 - 32
  }

  /** The quota of the batch after both clamps. */
  ghost function TurnQuota(calls: seq<Call>, at: Setting): int
    requires Configured(at) && Admissible(calls, at.assistantBytes, at.ceiling, at.retainedRemaining, at.canonicalRemaining)
  {
    ClampTo(ClampTo(Quota(calls, at.assistantBytes, at.ceiling, at.retainedRemaining, at.canonicalRemaining), at.batchLimit), at.providerQuota)
  }

  /** So many bytes are within every limit of the turn: six times as many fit under the ceiling
      beside the fixed part, as many fit what is left of the run, and neither the batch limit nor
      the provider's, where there is one, is passed. */
  ghost predicate WithinLimitsOf(calls: seq<Call>, at: Setting, q: int)
  {
    var fixed := |JsonMessage(Minimum(calls))| + |calls| * 1024;
    && 6 * q + fixed <= at.ceiling
    && at.assistantBytes + fixed + q <= at.retainedRemaining && at.assistantBytes + fixed + q <= at.canonicalRemaining
    && (at.batchLimit > 0 ==> q <= at.batchLimit) && (at.providerQuota > 0 ==> q <= at.providerQuota)
  }

  /** The quota of a turn is the largest number within all of its limits. */
  lemma QuotaIsLargest(calls: seq<Call>, at: Setting)
    requires Configured(at) && Admissible(calls, at.assistantBytes, at.ceiling, at.retainedRemaining, at.canonicalRemaining)
    ensures WithinLimitsOf(calls, at, TurnQuota(calls, at))
    ensures forall q :: WithinLimitsOf(calls, at, q) ==> q <= TurnQuota(calls, at)
  {
    hide JsonMessage, Minimum, MessageEncodes;
  }

  /** A batch can start: some number that covers 1024 bytes for each call is within all limits. */
  ghost predicate MayStart(calls: seq<Call>, at: Setting)
  {
    && calls != [] && MessageEncodes(Minimum(calls)) && |JsonMessage(Minimum(calls))| <= MAX_INT64
    && exists q :: q >= |calls| * 1024 && WithinLimitsOf(calls, at, q)
  }

  lemma StartsWhenPossible(calls: seq<Call>, at: Setting)
    requires Configured(at)
    ensures Starts(calls, at) <==> MayStart(calls, at)
  {
    hide JsonMessage, Minimum, MessageEncodes, TurnQuota, WithinLimitsOf;
    if Admissible(calls, at.assistantBytes, at.ceiling, at.retainedRemaining, at.canonicalRemaining) {
      QuotaIsLargest(calls, at);
    } else if MayStart(calls, at) {
      var q :| q >= |calls| * 1024 && WithinLimitsOf(calls, at, q);
      LimitsAdmit(calls, at, q);
    }
  }

  lemma LimitsAdmit(calls: seq<Call>, at: Setting, q: int)
    requires q >= 0 && WithinLimitsOf(calls, at, q) && MessageEncodes(Minimum(calls)) && |JsonMessage(Minimum(calls))| <= MAX_INT64
    requires at.assistantBytes >= 0
    ensures Admissible(calls, at.assistantBytes, at.ceiling, at.retainedRemaining, at.canonicalRemaining)
  {
    hide JsonMessage, Minimum, MessageEncodes;
  }

  /** The batch is started: it was admitted, and the quota covers the reserve of every call. */
  ghost predicate Starts(calls: seq<Call>, at: Setting)
    requires Configured(at)
  {
    && Admissible(calls, at.assistantBytes, at.ceiling, at.retainedRemaining, at.canonicalRemaining)
    && TurnQuota(calls, at) >= |calls| * PER_CALL_RAW_RESERVE && calls != []
  }

  ghost function TurnShares(calls: seq<Call>, at: Setting): (r: seq<nat>)
    requires Configured(at) && Starts(calls, at)
    ensures |r| == |calls|
  {
    var quota := TurnQuota(calls, at);
    seq(|calls|, i requires 0 <= i < |calls| => Share(quota, at.limits.maxFramedBytes, |calls|, i))
  }

  /** How a turn ends: it is not started, a call of it fails, or the outputs, each within its
      share, are checked against what is left. */
  ghost predicate TurnOutcome(look: Look, calls: seq<Call>, raws: seq<Raw>, at: Setting, r: Turn)
    requires |calls| == |raws| && Configured(at)
  {
    if !Starts(calls, at) then r.NotAdmitted?
    else if r.BatchFailed? then exists i :: 0 <= i < |raws| && (raws[i].receipt.Some? || !Accepted(look, raws[i].blocks, CallLimits(calls, at, i)))
    else exists outs :: SettledAll(look, calls, raws, at, outs) && CheckedAs(r, ResultsOf(calls, outs), at)
  }

  ghost function CallLimits(calls: seq<Call>, at: Setting, i: nat): Limits
    requires Configured(at) && Starts(calls, at) && i < |calls|
  {
    at.limits.(maxFramedBytes := TurnShares(calls, at)[i])
  }

  ghost predicate SettledAll(look: Look, calls: seq<Call>, raws: seq<Raw>, at: Setting, outs: seq<Option<Finished>>)
    requires |calls| == |raws| && Configured(at) && Starts(calls, at)
  {
    && |outs| == |raws|
    && forall i :: 0 <= i < |outs| ==> outs[i].Some? && Settled(look, raws[i], CallLimits(calls, at, i), outs[i])
  }

  /** Admission, shares, finalization and the checks before the exchange is committed. The
      ceiling check never fails: whatever the tools return, an admitted batch that finishes
      makes a message within the session ceiling. The batch starts exactly when some quota that
      covers every call is within all limits. */
  method ToolTurn(sha: Bytes -> Digest, look: Look, calls: seq<Call>, raws: seq<Raw>, at: Setting) returns (r: Turn)
    requires |raws| == |calls| <= 0x1_0000_0000 && Configured(at)
    ensures !r.CeilingExceeded?
    ensures r.Stored? ==> |JsonMessage(r.results)| <= at.ceiling
    ensures r.Stored? ==> r.retained == at.assistantBytes + |JsonMessage(r.results)| <= at.retainedRemaining
    ensures r.Stored? ==> r.canonical == r.retained + at.providerState + 32 <= at.canonicalRemaining
    ensures !r.NotAdmitted? <==> MayStart(calls, at)
    ensures r.Stored? ==> Answered(look, calls, raws, at, r.results)
    ensures TurnOutcome(look, calls, raws, at, r)
  {
    hide *;
    r := SettleTurn(sha, look, calls, raws, at);
    StartsWhenPossible(calls, at);
    OutcomeStarts(look, calls, raws, at, r);
    if r.Stored? {
      StoredAnswers(look, calls, raws, at, r);
    }
  }

  /** Every call is answered in its place, under its own ID and name, with what its output was
      settled to within its share. */
  ghost predicate Answered(look: Look, calls: seq<Call>, raws: seq<Raw>, at: Setting, results: seq<ToolResult>)
    requires |calls| == |raws|
  {
    && Configured(at) && Starts(calls, at) && |results| == |calls|
    && forall i :: 0 <= i < |results| ==>
         var r := results[i];
         && r.callID == calls[i].id && r.name == calls[i].name
         && Settled(look, raws[i], CallLimits(calls, at, i), Some(Finished(r.children, r.isError)))
  }

  lemma StoredAnswers(look: Look, calls: seq<Call>, raws: seq<Raw>, at: Setting, r: Turn)
    requires |calls| == |raws| && Configured(at) && TurnOutcome(look, calls, raws, at, r) && r.Stored?
    ensures Answered(look, calls, raws, at, r.results)
  {
    hide Starts, Settled, CallLimits, ResultsOf, JsonMessage, MessageEncodes, WithinReserve;
    var outs :| SettledAll(look, calls, raws, at, outs) && CheckedAs(r, ResultsOf(calls, outs), at);
    ResultsInPlace(calls, outs);
  }

  lemma {:induction false} ResultsInPlace(calls: seq<Call>, outs: seq<Option<Finished>>)
    requires |calls| == |outs| && forall i :: 0 <= i < |outs| ==> outs[i].Some?
    ensures |ResultsOf(calls, outs)| == |calls|
    ensures forall i :: 0 <= i < |calls| ==>
      ResultsOf(calls, outs)[i] == ToolResult(calls[i].id, calls[i].name, outs[i].value.isError, outs[i].value.blocks)
  {
    if calls != [] {
      ResultsInPlace(calls[1..], outs[1..]);
    }
  }

  lemma OutcomeStarts(look: Look, calls: seq<Call>, raws: seq<Raw>, at: Setting, r: Turn)
    requires |calls| == |raws| && Configured(at) && TurnOutcome(look, calls, raws, at, r)
    ensures !r.NotAdmitted? <==> Starts(calls, at)
  {
    hide Starts, TurnShares, SettledAll, JsonMessage, MessageEncodes, WithinReserve, Accepted, ResultsOf;
  }

  method SettleTurn(sha: Bytes -> Digest, look: Look, calls: seq<Call>, raws: seq<Raw>, at: Setting) returns (r: Turn)
    requires |raws| == |calls| <= 0x1_0000_0000 && Configured(at)
    ensures !r.CeilingExceeded?
    ensures r.Stored? ==> |JsonMessage(r.results)| <= at.ceiling
    ensures r.Stored? ==> r.retained == at.assistantBytes + |JsonMessage(r.results)| <= at.retainedRemaining
    ensures r.Stored? ==> r.canonical == r.retained + at.providerState + 32 <= at.canonicalRemaining
    ensures TurnOutcome(look, calls, raws, at, r)
  {
    hide JsonMessage, FrameSize, Sum, MessageEncodes, Fixed, ResultsOf, CheckedAs, Settled, Quota, Accepted, Share;
    NoCallsNoMessage(calls);
    var admission := ToolExchangeAdmission(calls, at.assistantBytes, at.ceiling, at.retainedRemaining, at.canonicalRemaining);
    if !admission.Admitted? {
      return NotAdmitted;
    }
    var quota := ClampTo(ClampTo(admission.quota, at.batchLimit), at.providerQuota);
    var shares := AllocateCallQuotas(quota, at.limits.maxFramedBytes, |calls|);
    if shares.BelowReserve? {
      return NotAdmitted;
    }
    assert Starts(calls, at);
    assert shares.each == TurnShares(calls, at);
    var outs := FinalizeAll(sha, look, raws, shares.each, at.limits);
    SettledMeans(look, calls, raws, at, outs);
    if exists i :: 0 <= i < |outs| && outs[i].None? {
      return BatchFailed;
    }
    SessionCeilingHolds(calls, outs, shares.each, quota, at.ceiling);
    r := CheckStored(ResultsOf(calls, outs), at);
    CheckedMeans(r, ResultsOf(calls, outs), at);
    assert SettledAll(look, calls, raws, at, outs);
  }

  lemma SettledMeans(look: Look, calls: seq<Call>, raws: seq<Raw>, at: Setting, outs: seq<Option<Finished>>)
    requires |calls| == |raws| == |outs| && Configured(at) && Starts(calls, at)
    requires forall i :: 0 <= i < |outs| ==> Settled(look, raws[i], CallLimits(calls, at, i), outs[i])
    ensures forall i :: 0 <= i < |outs| && outs[i].Some? ==> FrameSize(outs[i].value.blocks) <= TurnShares(calls, at)[i]
    ensures forall i :: 0 <= i < |outs| && outs[i].None? ==> raws[i].receipt.Some? || !Accepted(look, raws[i].blocks, CallLimits(calls, at, i))
  {
    hide Starts, TurnShares, Accepted, FrameSize, AllValid, TextTotal, ImageTotal, Fits;
  }

  lemma NoCallsNoMessage(calls: seq<Call>)
    ensures MessageEncodes(Minimum(calls)) ==> calls != []
  {
  }

  lemma CheckedMeans(r: Turn, results: seq<ToolResult>, at: Setting)
    requires CheckedAs(r, results, at)
    ensures !r.NotAdmitted? && !r.BatchFailed? && (r.CeilingExceeded? ==> |JsonMessage(results)| > at.ceiling)
    ensures r.Stored? ==> r.results == results && |JsonMessage(results)| <= at.ceiling
    ensures r.Stored? ==> r.retained == at.assistantBytes + |JsonMessage(results)| <= at.retainedRemaining
    ensures r.Stored? ==> r.canonical == r.retained + at.providerState + 32 <= at.canonicalRemaining
  {
    hide JsonMessage, MessageEncodes;
  }

  /** The comparison with what is left of the run: the exchange as it is retained, and with the
      provider's state and 32 bytes as it is stored. */
  ghost predicate WithinReserve(results: seq<ToolResult>, assistantBytes: int, providerState: int, retainedRemaining: int, canonicalRemaining: int)
  {
    var retained := assistantBytes + |JsonMessage(results)|;
    retained <= retainedRemaining && retained + providerState + 32 <= canonicalRemaining
  }

  /** How the last check decides. */
  ghost predicate CheckedAs(r: Turn, results: seq<ToolResult>, at: Setting)
  {
    var size := |JsonMessage(results)|;
    var canonical := at.assistantBytes + size + at.providerState + 32;
    if !MessageEncodes(results) || size > MAX_INT64 then r.CannotEncode?
    else if size > at.ceiling then r.CeilingExceeded?
    else if canonical > MAX_INT64 then r.SizeOverflow?
    else if !WithinReserve(results, at.assistantBytes, at.providerState, at.retainedRemaining, at.canonicalRemaining) then r.ReserveExceeded?
    else r.Stored? && r.results == results && r.retained == at.assistantBytes + size && r.canonical == canonical
  }

  /** The end of finishToolBatch: every verdict and when it is given. */
  method CheckStored(results: seq<ToolResult>, at: Setting) returns (r: Turn)
    requires 0 <= at.assistantBytes && 0 <= at.providerState <= MAX_INT64 - 32
    ensures CheckedAs(r, results, at)
  {
    hide JsonMessage, MessageEncodes;
    var size := WireMessage.ResultsSize(results);
    if size.Overflow? {
      return CannotEncode;
    }
    if size.value > at.ceiling {
      return CeilingExceeded;
    }
    var retained := SafeAddBytes(at.assistantBytes, size.value);
    if retained.Overflow? {
      return SizeOverflow;
    }
    if retained.value > MAX_INT64 - at.providerState - 32 {
      return SizeOverflow;
    }
    var canonical := retained.value + at.providerState + 32;
    if retained.value > at.retainedRemaining || canonical > at.canonicalRemaining {
      return ReserveExceeded;
    }
    r := Stored(results, retained.value, canonical);
  }
}
