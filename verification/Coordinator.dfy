/** The coordinator object: each method is one locked section, proved to be the
    corresponding step of `CoordState` (core/tools/coordinator.go). */
module Coordinator {
  import opened Claims
  import opened CoordState

  datatype Registration = Registered(tickets: seq<nat>) | Refused(reason: string)

  class Coordinator {
    var next: nat
    var frontier: nat
    var exhausted: bool
    var pending: set<nat>
    var final: map<nat, seq<Claim>>
    var released: set<nat>
    var held: map<nat, seq<Claim>>
    const parallel: nat
    var inUse: nat
    var waitSeq: nat
    var waiters: seq<Waiter>

    ghost function View(): Coord
      reads this
    {
      Coord(next, frontier, exhausted, pending, final, released, held, parallel, inUse, waitSeq, waiters)
    }

    ghost predicate Valid()
      reads this
    {
      && frontier <= next
      && (forall t :: t in final ==> Normal(final[t]))
      && (forall t :: t in held ==> Normal(held[t]))
      && (forall i :: 0 <= i < |waiters| ==> Normal(waiters[i].claims) && waiters[i].seqNo <= waitSeq)
      && (forall i, j :: 0 <= i < j < |waiters| ==> waiters[i].seqNo < waiters[j].seqNo)
    }

    constructor (parallel: nat)
      ensures Valid() && View() == Fresh(parallel)
    {
      next, frontier, exhausted := 0, 0, false;
      pending, final, released, held := {}, map[], {}, map[];
      this.parallel := parallel;
      inUse, waitSeq, waiters := 0, 0, [];
    }

    method AdvanceFrontier()
      requires Valid()
      modifies this`frontier
      ensures Valid() && View() == old(View()).(frontier := Advance(old(frontier), next, pending))
    {
      while frontier < next && frontier !in pending
        invariant old(frontier) <= frontier <= next
        invariant Advance(old(frontier), next, pending) == Advance(frontier, next, pending)
      {
        frontier := frontier + 1;
      }
    }

    /** One turn of the loop of registerBatch. */
    method ClassifyOne(ticket: nat, call: CallSpec)
      requires Valid() && Normal(call.planned)
      modifies this`pending, this`final, this`released
      ensures Valid() && View() == AddCall(old(View()), ticket, call)
    {
      NothingNormal();
      hide Normal;
      if call.rejected {
        final := final[ticket := []];
        released := released + {ticket};
      } else if call.hasActivator {
        pending := pending + {ticket};
      } else {
        final := final[ticket := call.planned];
      }
    }

    /** The loop of registerBatch: sorts the new tickets into pending, final and released. */
    method Classify(first: nat, calls: seq<CallSpec>) returns (tickets: seq<nat>)
      requires Valid() && forall i :: 0 <= i < |calls| ==> Normal(calls[i].planned)
      modifies this`pending, this`final, this`released
      ensures Valid() && View() == AddCalls(old(View()), first, calls)
      ensures |tickets| == |calls| && forall i :: 0 <= i < |calls| ==> tickets[i] == first + i
    {
      hide Valid, AddCall, Normal;
      tickets := [];
      for i := 0 to |calls|
        modifies this`pending, this`final, this`released
        invariant Valid() && View() == AddCalls(old(View()), first, calls[..i])
        invariant |tickets| == i && forall j :: 0 <= j < i ==> tickets[j] == first + j
      {
        assert calls[..i + 1][..i] == calls[..i];
        tickets := tickets + [first + i];
        ClassifyOne(first + i, calls[i]);
      }
      assert calls[..|calls|] == calls;
    }

    method RegisterBatch(calls: seq<CallSpec>) returns (r: Registration)
      requires Valid() && forall i :: 0 <= i < |calls| ==> Normal(calls[i].planned)
      modifies this
      ensures Valid()
      ensures r.Registered? <==> old(Registrable(View(), |calls|))
      ensures r.Registered? ==> View() == CoordState.Register(old(View()), calls)
      ensures r.Registered? ==> |r.tickets| == |calls| && forall i :: 0 <= i < |calls| ==> r.tickets[i] == old(next) + i
      ensures r.Refused? ==> View() == old(View())
    {
      var n := |calls|;
      if n == 0 {
        return Refused("cannot register an empty batch");
      }
      if exhausted || next > MAX_UINT64 - n {
        return Refused("tool submission ticket space exhausted");
      }
      var tickets := Classify(next, calls);
      next := next + n;
      if next == MAX_UINT64 {
        exhausted := true;
      }
      AdvanceFrontier();
      r := Registered(tickets);
    }

    /** Fails, changing nothing, when the ticket is not pending. */
    method Discover(ticket: nat, claims: seq<Claim>) returns (ok: bool)
      requires Valid() && Normal(claims)
      modifies this
      ensures Valid()
      ensures ok <==> ticket in old(pending)
      ensures View() == if ok then CoordState.Discover(old(View()), ticket, claims) else old(View())
    {
      if ticket !in pending {
        return false;
      }
      final := final[ticket := claims];
      pending := pending - {ticket};
      AdvanceFrontier();
      ok := true;
    }

    method ClaimsFreeExcept(ticket: nat, claims: seq<Claim>) returns (free: bool)
      requires Valid() && Normal(claims)
      ensures free <==> ClaimsFree(View(), ticket, claims)
    {
      var todo := held.Keys;
      while todo != {}
        invariant todo <= held.Keys
        invariant forall t :: t in held.Keys - todo && t != ticket ==> !Conflict(held[t], claims)
        decreases todo
      {
        var other :| other in todo;
        todo := todo - {other};
        if other != ticket {
          var clash := ClaimsConflict(held[other], claims);
          if clash {
            return false;
          }
        }
      }
      todo := final.Keys;
      while todo != {}
        invariant todo <= final.Keys
        invariant forall t :: t in final.Keys - todo && t < ticket && t !in released ==> !Conflict(final[t], claims)
        decreases todo
      {
        var other :| other in todo;
        todo := todo - {other};
        if other < ticket && other !in released {
          var clash := ClaimsConflict(final[other], claims);
          if clash {
            return false;
          }
        }
      }
      return true;
    }

    method CanGrantNow(w: Waiter) returns (ok: bool)
      requires Valid() && Normal(w.claims)
      ensures ok <==> CanGrant(View(), w)
    {
      if inUse >= parallel {
        return false;
      }
      if w.owner.Permit? {
        return true;
      }
      if w.owner.ticket > frontier {
        return false;
      }
      ok := ClaimsFreeExcept(w.owner.ticket, w.claims);
    }

    method EarlierGrantable(k: nat) returns (earlier: bool)
      requires Valid() && k < |waiters|
      ensures earlier <==> exists j :: 0 <= j < k && CanGrant(View(), waiters[j])
    {
      for i := 0 to k
        invariant forall j :: 0 <= j < i ==> !CanGrant(View(), waiters[j])
      {
        if waiters[i].seqNo < waiters[k].seqNo {
          var can := CanGrantNow(waiters[i]);
          if can {
            return true;
          }
        }
      }
      return false;
    }

    /** The first half of acquireWaiter: join the queue. */
    method Join(owner: Owner, claims: seq<Claim>) returns (k: nat)
      requires Valid() && Normal(claims)
      modifies this`waitSeq, this`waiters
      ensures Valid() && View() == CoordState.Enqueue(old(View()), owner, claims)
      ensures k == |old(waiters)|
    {
      k := |waiters|;
      waitSeq := waitSeq + 1;
      waiters := waiters + [Waiter(waitSeq, owner, claims)];
    }

    method RemoveWaiter(k: nat)
      requires Valid() && k < |waiters|
      modifies this`waiters
      ensures Valid() && View() == Drop(old(View()), k)
    {
      waiters := waiters[..k] + waiters[k + 1..];
    }

    /** One turn of the wait loop: granted exactly when the waiter is grantable. */
    method TryGrant(k: nat) returns (granted: bool)
      requires Valid() && k < |waiters|
      modifies this
      ensures Valid()
      ensures granted <==> old(Grantable(View(), k))
      ensures View() == if granted then CoordState.Grant(old(View()), k) else old(View())
    {
      var w := waiters[k];
      var can := CanGrantNow(w);
      if !can {
        return false;
      }
      var earlier := EarlierGrantable(k);
      if earlier {
        return false;
      }
      RemoveWaiter(k);
      inUse := inUse + 1;
      if w.owner.Ticket? {
        held := held[w.owner.ticket := w.claims];
      }
      granted := true;
    }

    method GiveBackPermit()
      requires Valid()
      modifies this`inUse
      ensures Valid() && View() == CoordState.ReleasePermit(old(View()))
    {
      if inUse > 0 {
        inUse := inUse - 1;
      }
    }

    /** One turn of extend's wait loop. */
    method TryExtend(ticket: nat, claims: seq<Claim>) returns (extended: bool)
      requires Valid() && Normal(claims)
      modifies this`held
      ensures Valid()
      ensures extended <==> old(ClaimsFree(View(), ticket, claims))
      ensures View() == if extended then CoordState.Extend(old(View()), ticket, claims) else old(View())
    {
      extended := ClaimsFreeExcept(ticket, claims);
      if extended {
        held := held[ticket := claims];
      }
    }

    method Release(ticket: nat)
      requires Valid()
      modifies this
      ensures Valid() && View() == CoordState.Release(old(View()), ticket)
    {
      NothingNormal();
      hide Normal;
      if ticket in held {
        held := held - {ticket};
        if inUse > 0 {
          inUse := inUse - 1;
        }
      }
      pending := pending - {ticket};
      if ticket !in final {
        final := final[ticket := []];
      }
      released := released + {ticket};
      AdvanceFrontier();
    }
  }

  lemma NothingNormal()
    ensures Normal([])
  {
  }
}
