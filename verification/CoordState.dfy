/** The coordinator's state as a value, and what each locked section does to it
    (core/tools/coordinator.go). */
module CoordState {
  import opened Claims

  const MAX_UINT64: nat := 0xFFFF_FFFF_FFFF_FFFF

  datatype Owner = Ticket(ticket: nat) | Permit

  datatype Waiter = Waiter(seqNo: nat, owner: Owner, claims: seq<Claim>)

  /** What dispatch knows of a call when it asks for a ticket. */
  datatype CallSpec = CallSpec(rejected: bool, hasActivator: bool, planned: seq<Claim>) {
    predicate Pends() { !rejected && hasActivator }
    function Known(): seq<Claim> { if rejected then [] else planned }
  }

  datatype Coord = Coord(
    next: nat,
    frontier: nat,
    exhausted: bool,
    pending: set<nat>,
    final: map<nat, seq<Claim>>,
    released: set<nat>,
    held: map<nat, seq<Claim>>,
    parallel: nat,
    inUse: nat,
    waitSeq: nat,
    waiters: seq<Waiter>)

  function Fresh(parallel: nat): Coord
  {
    Coord(0, 0, false, {}, map[], {}, map[], parallel, 0, 0, [])
  }

  /** The first ticket from `frontier` on whose activation is still pending, else `next`. */
  function Advance(frontier: nat, next: nat, pending: set<nat>): (r: nat)
    requires frontier <= next
    ensures frontier <= r <= next
    ensures forall t :: frontier <= t < r ==> t !in pending
    ensures r < next ==> r in pending
    decreases next - frontier
  {
    if frontier == next || frontier in pending then frontier else Advance(frontier + 1, next, pending)
  }

  predicate Registrable(c: Coord, n: nat)
  {
    n != 0 && !c.exhausted && c.next + n <= MAX_UINT64
  }

  predicate InBatch(first: nat, specs: seq<CallSpec>, t: nat)
  {
    first <= t < first + |specs|
  }

  function SpecOf(first: nat, specs: seq<CallSpec>, t: nat): CallSpec
    requires InBatch(first, specs, t)
  {
    specs[t - first]
  }

  /** A rejected call is final and released at once, an activator is pending, and any
      other call's planned claims are already its final ones. */
  function AddCall(c: Coord, ticket: nat, spec: CallSpec): Coord
  {
    if spec.rejected then c.(final := c.final[ticket := []], released := c.released + {ticket})
    else if spec.hasActivator then c.(pending := c.pending + {ticket})
    else c.(final := c.final[ticket := spec.planned])
  }

  function AddCalls(c: Coord, first: nat, specs: seq<CallSpec>): (r: Coord)
    ensures r == c.(pending := r.pending, final := r.final, released := r.released)
  {
    if specs == [] then c
    else
      var k := |specs| - 1;
      AddCall(AddCalls(c, first, specs[..k]), first + k, specs[k])
  }

  /** Each ticket of a batch is classified by its own call alone. */
  lemma {:induction false} BatchMember(c: Coord, first: nat, specs: seq<CallSpec>, t: nat)
    requires forall u :: u in c.final ==> u < first
    ensures var r := AddCalls(c, first, specs);
      if InBatch(first, specs, t) then
        var spec := SpecOf(first, specs, t);
        && (t in r.pending <==> t in c.pending || spec.Pends())
        && (t in r.released <==> t in c.released || spec.rejected)
        && (t in r.final <==> !spec.Pends())
        && (t in r.final ==> r.final[t] == spec.Known())
      else
        && (t in r.pending <==> t in c.pending)
        && (t in r.released <==> t in c.released)
        && (t in r.final <==> t in c.final)
        && (t in r.final ==> r.final[t] == c.final[t])
  {
    if specs != [] {
      BatchMember(c, first, specs[..|specs| - 1], t);
    }
  }

  function Register(c: Coord, specs: seq<CallSpec>): Coord
    requires c.frontier <= c.next && Registrable(c, |specs|)
  {
    var next := c.next + |specs|;
    var added := AddCalls(c, c.next, specs);
    added.(next := next, exhausted := next == MAX_UINT64, frontier := Advance(c.frontier, next, added.pending))
  }

  function Discover(c: Coord, ticket: nat, complete: seq<Claim>): Coord
    requires c.frontier <= c.next
  {
    var pending := c.pending - {ticket};
    c.(final := c.final[ticket := complete], pending := pending, frontier := Advance(c.frontier, c.next, pending))
  }

  /** No other holder clashes, and no earlier unreleased call has a known claim that does. */
  ghost predicate ClaimsFree(c: Coord, ticket: nat, claims: seq<Claim>)
  {
    && (forall t :: t in c.held && t != ticket ==> !Conflict(c.held[t], claims))
    && (forall t :: t in c.final && t < ticket && t !in c.released ==> !Conflict(c.final[t], claims))
  }

  ghost predicate CanGrant(c: Coord, w: Waiter)
  {
    c.inUse < c.parallel && (w.owner.Ticket? ==> w.owner.ticket <= c.frontier && ClaimsFree(c, w.owner.ticket, w.claims))
  }

  /** Waiter `k` may go: it can be granted and nobody queued before it can. */
  ghost predicate Grantable(c: Coord, k: nat)
  {
    k < |c.waiters| && CanGrant(c, c.waiters[k]) && forall j :: 0 <= j < k ==> !CanGrant(c, c.waiters[j])
  }

  function Enqueue(c: Coord, owner: Owner, claims: seq<Claim>): Coord
  {
    c.(waitSeq := c.waitSeq + 1, waiters := c.waiters + [Waiter(c.waitSeq + 1, owner, claims)])
  }

  function Drop(c: Coord, k: nat): Coord
    requires k < |c.waiters|
  {
    c.(waiters := c.waiters[..k] + c.waiters[k + 1..])
  }

  function Grant(c: Coord, k: nat): Coord
    requires k < |c.waiters|
  {
    var w := c.waiters[k];
    Drop(c, k).(inUse := c.inUse + 1, held := if w.owner.Ticket? then c.held[w.owner.ticket := w.claims] else c.held)
  }

  function ReleasePermit(c: Coord): Coord
  {
    c.(inUse := if c.inUse > 0 then c.inUse - 1 else 0)
  }

  function Extend(c: Coord, ticket: nat, claims: seq<Claim>): Coord
  {
    c.(held := c.held[ticket := claims])
  }

  function Release(c: Coord, ticket: nat): Coord
    requires c.frontier <= c.next
  {
    var pending := c.pending - {ticket};
    c.(held := c.held - {ticket},
       inUse := if ticket in c.held && c.inUse > 0 then c.inUse - 1 else c.inUse,
       pending := pending,
       final := if ticket in c.final then c.final else c.final[ticket := []],
       released := c.released + {ticket},
       frontier := Advance(c.frontier, c.next, pending))
  }
}
