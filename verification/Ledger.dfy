/** The ledger of call IDs a run has seen: a batch is checked as a whole before any of its IDs
    is taken (runtime/loops/run_state.go:109-152). */
module Ledger {
  import opened Utf8
  import opened ToolHistory
  import opened RunMachine

  class CallLedger {
    var seen: set<Bytes>

    constructor Empty()
      ensures seen == {}
    {
      seen := {};
    }

    /** newCallLedger: accepts exactly a history in which every call has an ID of its own, and
        then knows all of them. */
    method Load(ms: seq<Message>) returns (ok: bool)
      requires seen == {}
      modifies this
      ensures ok <==> UniqueCalls(ms) && [] !in AllIDs(ms)
      ensures ok ==> seen == AllIDs(ms)
    {
      hide Calls;
      assert ms[..0] == [];
      for i := 0 to |ms|
        invariant seen == AllIDs(ms[..i]) && UniqueCalls(ms[..i]) && [] !in AllIDs(ms[..i])
      {
        assert ms[..i + 1][..i] == ms[..i] && ms[..i + 1][i] == ms[i];
        ok := Add(Calls(ms[i]));
        if !ok {
          PrefixFails(ms, i + 1);
          return;
        }
      }
      assert ms[..|ms|] == ms;
      ok := true;
    }

    method Add(calls: seq<Call>) returns (ok: bool)
      modifies this
      ensures ok <==> NewIDs(old(seen), calls)
      ensures ok ==> seen == old(seen) + IDs(calls)
    {
      for j := 0 to |calls|
        invariant seen == old(seen) + IDs(calls[..j])
        invariant NewIDs(old(seen), calls[..j])
      {
        if calls[j].id == [] || calls[j].id in seen {
          Repeated(old(seen), calls, j);
          return false;
        }
        FreshID(old(seen), calls, j);
        seen := seen + {calls[j].id};
      }
      assert calls[..|calls|] == calls;
      ok := true;
    }

    /** accept: refused without any effect, or all IDs are taken at once. */
    method Accept(isObject: Bytes -> bool, calls: seq<Call>) returns (ok: bool)
      modifies this
      ensures ok <==> Acceptable(isObject, old(seen), calls)
      ensures seen == if ok then old(seen) + IDs(calls) else old(seen)
    {
      var batch: set<Bytes> := {};
      for j := 0 to |calls|
        invariant seen == old(seen) && batch == IDs(calls[..j]) && NewIDs(seen, calls[..j])
        invariant forall i :: 0 <= i < j ==> isObject(calls[i].arguments)
      {
        if calls[j].id == [] {
          Repeated(seen, calls, j);
          return false;
        }
        if !isObject(calls[j].arguments) {
          return false;
        }
        if calls[j].id in batch || calls[j].id in seen {
          Repeated(seen, calls, j);
          return false;
        }
        FreshID(seen, calls, j);
        batch := batch + {calls[j].id};
      }
      assert calls[..|calls|] == calls;
      seen := seen + batch;
      ok := true;
    }
  }

  lemma Repeated(seen: set<Bytes>, calls: seq<Call>, j: nat)
    requires j < |calls| && (calls[j].id == [] || calls[j].id in seen + IDs(calls[..j]))
    ensures !NewIDs(seen, calls)
  {
    if calls[j].id in IDs(calls[..j]) {
      var i :| 0 <= i < j && calls[..j][i].id == calls[j].id;
      assert calls[i].id == calls[j].id;
    }
  }

  lemma FreshID(seen: set<Bytes>, calls: seq<Call>, j: nat)
    requires j < |calls| && calls[j].id != [] && calls[j].id !in seen + IDs(calls[..j]) && NewIDs(seen, calls[..j])
    ensures NewIDs(seen, calls[..j + 1]) && IDs(calls[..j + 1]) == IDs(calls[..j]) + {calls[j].id}
  {
    var more := calls[..j + 1];
    assert forall i :: 0 <= i < j ==> more[i] == calls[..j][i];
    assert more[j] == calls[j];
    forall i | 0 <= i < j ensures calls[i].id != calls[j].id {
      assert calls[..j][i].id in IDs(calls[..j]);
    }
    assert IDs(more) == IDs(calls[..j]) + {calls[j].id} by {
      forall x | x in IDs(calls[..j]) + {calls[j].id} ensures x in IDs(more) {
        if x != calls[j].id {
          var i :| 0 <= i < j && calls[..j][i].id == x;
          assert more[i].id == x;
        }
      }
    }
  }

  lemma {:induction false} PrefixFails(ms: seq<Message>, i: nat)
    requires i <= |ms| && !(UniqueCalls(ms[..i]) && [] !in AllIDs(ms[..i]))
    ensures !(UniqueCalls(ms) && [] !in AllIDs(ms))
    decreases |ms|
  {
    hide Calls;
    if i < |ms| {
      assert ms[..|ms| - 1][..i] == ms[..i];
      PrefixFails(ms[..|ms| - 1], i);
    } else {
      assert ms[..i] == ms;
    }
  }
}
