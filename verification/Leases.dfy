/** Per-session leases and the commit of a turn. Every action is one section run under the
    manager's lock, one receive or send on a lock's token, or one operation of the store; any
    number of workers interleave (runtime/sessions/manager.go:111-167,
    runtime/sessions/manager_ops.go:111-145, 219-290, compose/turn.go:106-139, 252-274). */
module Leases {
  import opened Wrappers
  import opened Order
  import opened Sets
  import opened ToolHistory

  type ID = string
  type Messages = seq<Message>

  /** A lock object: how many refer to it, and whether its token is in its channel. */
  datatype Lock = Lock(refs: int, token: bool)

  /** What a worker does once it has its leases. A turn's commit remembers the messages it was
      begun with and the transcript it ended with. */
  datatype Job =
    | Append(id: ID, more: Messages)
    | CommitTurn(id: ID, seen: Messages, transcript: Messages)
    | Patch(id: ID)
    | Fork(id: ID, child: ID)

  /** The leases a job takes, in this order: two are taken in the order of their IDs. */
  function Needs(job: Job): (r: seq<ID>)
    ensures 1 <= |r| <= 2 && job.id in r
  {
    if !job.Fork? then [job.id] else if Less(job.child, job.id) then [job.child, job.id] else [job.id, job.child]
  }

  /** `held` counts the leases a worker has, the first ones of its job. */
  datatype Stage =
    | Resting
    | Turn(id: ID, seen: Messages)                 // a run is under way
    | Asking(job: Job, held: nat)
    | Waiting(job: Job, held: nat)
    | Working(job: Job)
    | Loaded(job: Job, current: Messages)
    | Leaving(job: Job, held: nat)
    | Dropping(job: Job, held: nat)                // the token is back, the reference still counts

  /** A worker and the lock objects it refers to. */
  datatype Worker = Worker(stage: Stage, refs: map<ID, nat>)

  datatype Sys = Sys(store: map<ID, Messages>, table: map<ID, nat>, locks: map<nat, Lock>, workers: map<nat, Worker>)

  datatype Action =
    | BeginTurn(w: nat, id: ID)
    | EndRun(w: nat, transcript: Messages)
    | Start(w: nat, job: Job)
    | Ask(w: nat, unused: nat)
    | Take(w: nat)
    | GiveUp(w: nat)
    | Load(w: nat)
    | Save(w: nat)
    | Refuse(w: nat)
    | PutToken(w: nat)
    | DropRef(w: nat)
    | Rest(w: nat)

  // ---- what a stage holds and refers to ----

  predicate Sound(stage: Stage)
  {
    match stage
    case Resting => true
    case Turn(_, _) => true
    case Asking(job, held) => held < |Needs(job)| && SoundJob(job)
    case Waiting(job, held) => held < |Needs(job)| && SoundJob(job)
    case Working(job) => SoundJob(job)
    case Loaded(job, _) => SoundJob(job)
    case Leaving(job, held) => held <= |Needs(job)| && SoundJob(job)
    case Dropping(job, held) => held < |Needs(job)| && SoundJob(job)
  }

  predicate SoundJob(job: Job)
  {
    job.Fork? ==> job.id != job.child
  }

  function Held(stage: Stage): seq<ID>
    requires Sound(stage)
  {
    match stage
    case Resting => []
    case Turn(_, _) => []
    case Asking(job, held) => Needs(job)[..held]
    case Waiting(job, held) => Needs(job)[..held]
    case Working(job) => Needs(job)
    case Loaded(job, _) => Needs(job)
    case Leaving(job, held) => Needs(job)[..held]
    case Dropping(job, held) => Needs(job)[..held]
  }

  /** Holding a lease, waiting for one or being about to drop one counts as a reference. */
  function Referred(stage: Stage): seq<ID>
    requires Sound(stage)
  {
    if stage.Waiting? || stage.Dropping? then Needs(stage.job)[..stage.held + 1] else Held(stage)
  }

  // ---- the steps ----

  predicate At(s: Sys, w: nat)
  {
    w in s.workers
  }

  predicate CanSave(s: Sys, job: Job, current: Messages)
  {
    match job
    case Append(_, _) => true
    case CommitTurn(_, seen, _) => |current| == |seen|
    case Patch(_) => true
    case Fork(_, child) => child !in s.store
  }

  function Saved(s: Sys, job: Job, current: Messages): map<ID, Messages>
    requires job.CommitTurn? ==> |job.seen| <= |job.transcript|
  {
    match job
    case Append(id, more) => s.store[id := current + more]
    case CommitTurn(id, seen, transcript) => s.store[id := current + transcript[|seen|..]]
    case Patch(id) => s.store[id := current]
    case Fork(_, child) => s.store[child := current]
  }

  predicate IsPrefix(a: Messages, b: Messages)
  {
    |a| <= |b| && b[..|a|] == a
  }

  predicate Enabled(s: Sys, a: Action)
  {
    a.w in s.workers &&
    var stage := s.workers[a.w].stage;
    match a
    case BeginTurn(w, id) => stage.Resting? && id in s.store
    case EndRun(w, transcript) => stage.Turn? && IsPrefix(stage.seen, transcript) && |stage.seen| < |transcript|
    case Start(w, job) => stage.Resting? && SoundJob(job) && !job.CommitTurn?
    case Ask(w, unused) => stage.Asking? && unused !in s.locks
    case Take(w) => stage.Waiting? && Sound(stage) && var id := Needs(stage.job)[stage.held];
      id in s.workers[w].refs && s.workers[w].refs[id] in s.locks && s.locks[s.workers[w].refs[id]].token
    case GiveUp(w) => stage.Waiting?
    case Load(w) => stage.Working? && stage.job.id in s.store
    case Save(w) => stage.Loaded? && CanSave(s, stage.job, stage.current) && (stage.job.CommitTurn? ==> |stage.job.seen| <= |stage.job.transcript|)
    case Refuse(w) => stage.Working? || stage.Loaded?
    case PutToken(w) => stage.Leaving? && stage.held > 0
    case DropRef(w) => stage.Dropping?
    case Rest(w) => stage.Leaving? && stage.held == 0
  }

  function To(s: Sys, w: nat, stage: Stage): Sys
    requires w in s.workers
  {
    s.(workers := s.workers[w := s.workers[w].(stage := stage)])
  }

  /** acquire, its locked section: the lock of the ID, or a new one, gets one more reference. */
  function AddRef(s: Sys, w: nat, id: ID, unused: nat, stage: Stage): Sys
    requires w in s.workers
  {
    var n := if id in s.table then s.table[id] else unused;
    var lock := if id in s.table && n in s.locks then s.locks[n] else Lock(0, true);
    s.(table := s.table[id := n],
       locks := s.locks[n := lock.(refs := lock.refs + 1)],
       workers := s.workers[w := Worker(stage, s.workers[w].refs[id := n])])
  }

  /** releaseRef: the last reference takes the lock out of the table. */
  function ReleaseRef(s: Sys, w: nat, id: ID, stage: Stage): Sys
    requires w in s.workers
  {
    var me := s.workers[w];
    if id !in me.refs || me.refs[id] !in s.locks then To(s, w, stage)
    else
      var n := me.refs[id];
      var lock := s.locks[n].(refs := s.locks[n].refs - 1);
      s.(table := if lock.refs == 0 && id in s.table && s.table[id] == n then s.table - {id} else s.table,
         locks := s.locks[n := lock],
         workers := s.workers[w := Worker(stage, me.refs - {id})])
  }

  function SetToken(s: Sys, w: nat, id: ID, token: bool, stage: Stage): Sys
    requires w in s.workers
  {
    var me := s.workers[w];
    if id !in me.refs || me.refs[id] !in s.locks then To(s, w, stage)
    else
      var n := me.refs[id];
      s.(locks := s.locks[n := s.locks[n].(token := token)], workers := s.workers[w := me.(stage := stage)])
  }

  function Step(s: Sys, a: Action): Sys
    requires Enabled(s, a) && Sound(s.workers[a.w].stage)
  {
    var stage := s.workers[a.w].stage;
    match a
    case BeginTurn(w, id) => To(s, w, Turn(id, s.store[id]))
    case EndRun(w, transcript) => To(s, w, Asking(CommitTurn(stage.id, stage.seen, transcript), 0))
    case Start(w, job) => To(s, w, Asking(job, 0))
    case Ask(w, unused) => AddRef(s, w, Needs(stage.job)[stage.held], unused, Waiting(stage.job, stage.held))
    case Take(w) =>
      SetToken(s, w, Needs(stage.job)[stage.held], false,
               if stage.held + 1 == |Needs(stage.job)| then Working(stage.job) else Asking(stage.job, stage.held + 1))
    case GiveUp(w) => ReleaseRef(s, w, Needs(stage.job)[stage.held], Leaving(stage.job, stage.held))
    case Load(w) => To(s, w, Loaded(stage.job, s.store[stage.job.id]))
    case Save(w) => To(s.(store := Saved(s, stage.job, stage.current)), w, Leaving(stage.job, |Needs(stage.job)|))
    case Refuse(w) => To(s, w, Leaving(stage.job, |Needs(stage.job)|))
    case PutToken(w) => SetToken(s, w, Needs(stage.job)[stage.held - 1], true, Dropping(stage.job, stage.held - 1))
    case DropRef(w) => ReleaseRef(s, w, Needs(stage.job)[stage.held], Leaving(stage.job, stage.held))
    case Rest(w) => To(s, w, Resting)
  }

  // ---- what every step keeps: the leases ----

  predicate Holds(s: Sys, w: nat, id: ID)
  {
    w in s.workers && Sound(s.workers[w].stage) && id in Held(s.workers[w].stage)
  }

  predicate Refers(s: Sys, w: nat, id: ID)
  {
    w in s.workers && id in s.workers[w].refs
  }

  ghost function Referrers(s: Sys, id: ID): set<nat>
  {
    set w | w in s.workers && Refers(s, w, id)
  }

  /** Each worker refers to the locks its stage calls for. */
  ghost predicate Tidy(s: Sys)
  {
    forall w :: w in s.workers ==>
      && Sound(s.workers[w].stage)
      && (forall id: ID :: id in s.workers[w].refs <==> id in Referred(s.workers[w].stage))
  }

  /** Everyone who refers to an ID means the lock in the table, which counts them all; no lock
      serves two IDs. */
  ghost predicate Counted(s: Sys)
  {
    && (forall w, id :: Refers(s, w, id) ==> id in s.table && s.workers[w].refs[id] == s.table[id])
    && (forall id :: id in s.table ==> s.table[id] in s.locks && s.locks[s.table[id]].refs == |Referrers(s, id)| > 0)
    && (forall a, b :: a in s.table && b in s.table && s.table[a] == s.table[b] ==> a == b)
  }

  /** A lease has one holder at most, and its token is in its channel when it has none. */
  ghost predicate Exclusive(s: Sys)
  {
    && (forall v, w, id :: Holds(s, v, id) && Holds(s, w, id) ==> v == w)
    && (forall w, id :: Holds(s, w, id) && id in s.table && s.table[id] in s.locks ==> !s.locks[s.table[id]].token)
    && (forall id :: id in s.table && s.table[id] in s.locks && !s.locks[s.table[id]].token ==> exists w :: Holds(s, w, id))
  }

  ghost predicate Leased(s: Sys)
  {
    Tidy(s) && Counted(s) && Exclusive(s)
  }

  lemma Distinct(job: Job, i: nat)
    requires SoundJob(job) && i < |Needs(job)|
    ensures Needs(job)[i] !in Needs(job)[..i] && forall id: ID :: id in Needs(job)[..i + 1] <==> id in Needs(job)[..i] || id == Needs(job)[i]
  {
    assert Needs(job)[..i + 1] == Needs(job)[..i] + [Needs(job)[i]];
  }

  /** The same leases and references under another stage. */
  ghost predicate SameLeases(a: Stage, b: Stage)
  {
    Sound(a) && Sound(b) && (forall id: ID :: id in Held(a) <==> id in Held(b)) && (forall id: ID :: id in Referred(a) <==> id in Referred(b))
  }

  lemma StageChange(s: Sys, t: Sys, w: nat, stage: Stage)
    requires Leased(s) && w in s.workers && t == To(s.(store := t.store), w, stage) && SameLeases(s.workers[w].stage, stage)
    ensures Leased(t)
  {
    assert forall v, id :: Holds(t, v, id) <==> Holds(s, v, id);
    assert forall v, id :: Refers(t, v, id) <==> Refers(s, v, id);
    forall id ensures Referrers(t, id) == Referrers(s, id) {
    }
  }

  // A worker asks for its next lock.

  lemma AskTidy(s: Sys, w: nat, unused: nat)
    requires Tidy(s) && w in s.workers && s.workers[w].stage.Asking?
    ensures var stage := s.workers[w].stage; Tidy(AddRef(s, w, Needs(stage.job)[stage.held], unused, Waiting(stage.job, stage.held)))
  {
    var stage := s.workers[w].stage;
    Distinct(stage.job, stage.held);
  }

  lemma OneReferrerMore(s: Sys, t: Sys, w: nat, id: ID)
    requires t.workers.Keys == s.workers.Keys && w in s.workers
    requires forall v: nat, x: ID :: Refers(t, v, x) <==> Refers(s, v, x) || (v == w && x == id)
    ensures Referrers(t, id) == Referrers(s, id) + {w} && forall x :: x != id ==> Referrers(t, x) == Referrers(s, x)
  {
    hide Refers;
  }

  lemma AskRefers(s: Sys, w: nat, id: ID, unused: nat, stage: Stage)
    requires w in s.workers
    ensures var t := AddRef(s, w, id, unused, stage);
      t.workers.Keys == s.workers.Keys && forall v: nat, x: ID :: Refers(t, v, x) <==> Refers(s, v, x) || (v == w && x == id)
  {
  }

  lemma AskCounted(s: Sys, w: nat, id: ID, unused: nat, stage: Stage)
    requires Counted(s) && w in s.workers && !Refers(s, w, id) && unused !in s.locks
    ensures Counted(AddRef(s, w, id, unused, stage))
  {
    hide Counted, Referrers;
    var t := AddRef(s, w, id, unused, stage);
    AskRefers(s, w, id, unused, stage);
    OneReferrerMore(s, t, w, id);
    NotAReferrer(s, w, id);
    AskMeans(s, w, id, unused, stage);
    AskCounts(s, t, w, id, unused);
    CountedFrom(t);
  }

  lemma CountedFrom(t: Sys)
    requires forall w, id :: Refers(t, w, id) ==> id in t.table && t.workers[w].refs[id] == t.table[id]
    requires forall id :: id in t.table ==> t.table[id] in t.locks && t.locks[t.table[id]].refs == |Referrers(t, id)| > 0
    requires forall a, b :: a in t.table && b in t.table && t.table[a] == t.table[b] ==> a == b
    ensures Counted(t)
  {
  }

  lemma AskMeans(s: Sys, w: nat, id: ID, unused: nat, stage: Stage)
    requires Counted(s) && w in s.workers && unused !in s.locks
    ensures var t := AddRef(s, w, id, unused, stage);
      && (forall v, x :: Refers(t, v, x) ==> x in t.table && t.workers[v].refs[x] == t.table[x])
      && (forall a, b :: a in t.table && b in t.table && t.table[a] == t.table[b] ==> a == b)
  {
    hide Referrers;
    var t := AddRef(s, w, id, unused, stage);
    forall v, x | Refers(t, v, x) ensures x in t.table && t.workers[v].refs[x] == t.table[x] {
      if !(v == w && x == id) {
        assert Refers(s, v, x);
      }
    }
  }

  lemma AskCounts(s: Sys, t: Sys, w: nat, id: ID, unused: nat)
    requires Counted(s) && w !in Referrers(s, id) && unused !in s.locks && (id !in s.table ==> Referrers(s, id) == {})
    requires Referrers(t, id) == Referrers(s, id) + {w} && forall x :: x != id ==> Referrers(t, x) == Referrers(s, x)
    requires var n := if id in s.table then s.table[id] else unused;
      var refs := if id in s.table then s.locks[n].refs else 0;
      t.table == s.table[id := n] && n in t.locks && t.locks == s.locks[n := t.locks[n]] && t.locks[n].refs == refs + 1
    ensures forall x :: x in t.table ==> t.table[x] in t.locks && t.locks[t.table[x]].refs == |Referrers(t, x)| > 0
  {
    hide Referrers;
  }

  lemma NotAReferrer(s: Sys, w: nat, id: ID)
    requires Counted(s) && !Refers(s, w, id)
    ensures w !in Referrers(s, id) && (id !in s.table ==> Referrers(s, id) == {})
    ensures id in s.table ==> s.table[id] in s.locks
  {
  }

  lemma AskExclusive(s: Sys, w: nat, unused: nat)
    requires Leased(s) && w in s.workers && s.workers[w].stage.Asking? && unused !in s.locks
    ensures var stage := s.workers[w].stage; Exclusive(AddRef(s, w, Needs(stage.job)[stage.held], unused, Waiting(stage.job, stage.held)))
  {
    var stage := s.workers[w].stage;
    var id := Needs(stage.job)[stage.held];
    var t := AddRef(s, w, id, unused, Waiting(stage.job, stage.held));
    assert forall v, x :: Holds(t, v, x) <==> Holds(s, v, x);
    HoldersRefer(s);
  }

  /** Who holds a lease refers to it, so its lock is in the table. */
  lemma HoldersRefer(s: Sys)
    requires Tidy(s) && Counted(s)
    ensures forall w, id :: Holds(s, w, id) ==> Refers(s, w, id) && id in s.table && s.table[id] in s.locks
  {
    forall w, id | Holds(s, w, id) ensures Refers(s, w, id) {
      HeldIsReferred(s.workers[w].stage, id);
    }
  }

  lemma HeldIsReferred(stage: Stage, id: ID)
    requires Sound(stage) && id in Held(stage)
    ensures id in Referred(stage)
  {
    if stage.Waiting? || stage.Dropping? {
      assert Needs(stage.job)[..stage.held + 1] == Needs(stage.job)[..stage.held] + [Needs(stage.job)[stage.held]];
    }
  }

  // A worker takes a token, or puts one back.

  lemma TokenCounted(s: Sys, w: nat, id: ID, token: bool, stage: Stage)
    requires Counted(s) && w in s.workers
    ensures Counted(SetToken(s, w, id, token, stage))
  {
    hide Counted, Referrers, Refers;
    var t := SetToken(s, w, id, token, stage);
    SameRefs(s, t);
    SameCounts(s, t);
  }

  lemma SameCounts(s: Sys, t: Sys)
    requires Counted(s) && t.table == s.table && t.locks.Keys == s.locks.Keys
    requires forall n :: n in s.locks ==> t.locks[n].refs == s.locks[n].refs
    requires t.workers.Keys == s.workers.Keys && forall v :: v in s.workers ==> t.workers[v].refs == s.workers[v].refs
    requires forall v, x :: Refers(t, v, x) <==> Refers(s, v, x)
    requires forall x :: Referrers(t, x) == Referrers(s, x)
    ensures Counted(t)
  {
    hide Referrers;
    forall x | x in t.table ensures t.table[x] in t.locks && t.locks[t.table[x]].refs == |Referrers(t, x)| > 0 {
    }
    forall v, x | Refers(t, v, x) ensures x in t.table && t.workers[v].refs[x] == t.table[x] {
      assert Refers(s, v, x);
    }
  }

  lemma SameRefs(s: Sys, t: Sys)
    requires t.workers.Keys == s.workers.Keys && forall v :: v in s.workers ==> t.workers[v].refs == s.workers[v].refs
    ensures forall v, x :: Refers(t, v, x) <==> Refers(s, v, x)
    ensures forall x :: Referrers(t, x) == Referrers(s, x)
  {
    forall x ensures Referrers(t, x) == Referrers(s, x) {
    }
  }

  lemma TakeKeeps(s: Sys, w: nat)
    requires Leased(s) && Enabled(s, Take(w))
    ensures Leased(Step(s, Take(w)))
  {
    hide Needs, Counted, Exclusive;
    var stage := s.workers[w].stage;
    var id := Needs(stage.job)[stage.held];
    var t := Step(s, Take(w));
    var next := t.workers[w].stage;
    Distinct(stage.job, stage.held);
    assert Needs(stage.job)[..|Needs(stage.job)|] == Needs(stage.job);
    assert forall x: ID :: x in Held(next) <==> x in Held(stage) || x == id;
    assert forall x: ID :: x in Referred(next) <==> x in Referred(stage);
    TokenCounted(s, w, id, false, next);
    assert Refers(s, w, id);
    SameLock(s, w, id);
    TakeExclusive(s, t, w, id);
  }

  lemma TakeExclusive(s: Sys, t: Sys, w: nat, id: ID)
    requires Exclusive(s) && Counted(s) && Tidy(s) && Refers(s, w, id) && s.locks[s.table[id]].token
    requires t.table == s.table && t.locks == s.locks[s.table[id] := s.locks[s.table[id]].(token := false)]
    requires forall v: nat, x: ID :: Holds(t, v, x) <==> Holds(s, v, x) || (v == w && x == id)
    ensures Exclusive(t)
  {
    HoldersRefer(s);
    assert forall v :: !Holds(s, v, id);
    assert Holds(t, w, id);
  }

  lemma PutKeeps(s: Sys, w: nat)
    requires Leased(s) && Enabled(s, PutToken(w))
    ensures Leased(Step(s, PutToken(w)))
  {
    hide Needs, Counted, Exclusive;
    var stage := s.workers[w].stage;
    var id := Needs(stage.job)[stage.held - 1];
    var next := Dropping(stage.job, stage.held - 1);
    PutStages(stage, id, next);
    assert Holds(s, w, id);
    HoldersRefer(s);
    SameLock(s, w, id);
    var t := SetToken(s, w, id, true, next);
    assert t == Step(s, PutToken(w));
    hide Step, Enabled;
    TokenCounted(s, w, id, true, next);
    PutTidy(s, w, id, next);
    PutHolds(s, w, id, next);
    PutExclusive(s, t, w, id);
  }

  lemma PutStages(stage: Stage, id: ID, next: Stage)
    requires Sound(stage) && stage.Leaving? && stage.held > 0 && id == Needs(stage.job)[stage.held - 1] && next == Dropping(stage.job, stage.held - 1)
    ensures Sound(next) && id in Held(stage)
    ensures forall x: ID :: x in Held(next) <==> x in Held(stage) && x != id
    ensures forall x: ID :: x in Referred(next) <==> x in Referred(stage)
  {
    Distinct(stage.job, stage.held - 1);
    hide Needs;
  }

  lemma PutTidy(s: Sys, w: nat, id: ID, next: Stage)
    requires Tidy(s) && w in s.workers && Sound(next)
    requires forall x: ID :: x in Referred(next) <==> x in Referred(s.workers[w].stage)
    ensures Tidy(SetToken(s, w, id, true, next))
  {
    hide Held, Referred, Needs, Sound;
    var t := SetToken(s, w, id, true, next);
    forall v | v in t.workers
      ensures Sound(t.workers[v].stage) && forall x: ID :: x in t.workers[v].refs <==> x in Referred(t.workers[v].stage)
    {
      assert t.workers[v].refs == s.workers[v].refs;
    }
  }

  lemma PutHolds(s: Sys, w: nat, id: ID, next: Stage)
    requires Tidy(s) && w in s.workers && Sound(next)
    requires forall x: ID :: x in Held(next) <==> x in Held(s.workers[w].stage) && x != id
    ensures forall v: nat, x: ID :: Holds(SetToken(s, w, id, true, next), v, x) <==> Holds(s, v, x) && !(v == w && x == id)
  {
    hide Held, Referred;
  }

  lemma SameLock(s: Sys, w: nat, id: ID)
    requires Counted(s) && Refers(s, w, id)
    ensures id in s.table && s.workers[w].refs[id] == s.table[id] && s.table[id] in s.locks
  {
  }

  lemma PutExclusive(s: Sys, t: Sys, w: nat, id: ID)
    requires Exclusive(s) && Counted(s) && Tidy(s) && Holds(s, w, id) && id in s.table && s.table[id] in s.locks
    requires t.table == s.table && t.locks == s.locks[s.table[id] := s.locks[s.table[id]].(token := true)]
    requires forall v: nat, x: ID :: Holds(t, v, x) <==> Holds(s, v, x) && !(v == w && x == id)
    ensures Exclusive(t)
  {
    HoldersRefer(s);
    assert forall v :: !Holds(t, v, id);
    forall x | x in t.table && t.table[x] in t.locks && !t.locks[t.table[x]].token ensures exists v :: Holds(t, v, x) {
      assert x != id;
      var v :| Holds(s, v, x);
      assert Holds(t, v, x);
    }
  }

  // A worker drops a reference.

  lemma DropTidy(s: Sys, w: nat, next: Stage)
    requires Tidy(s) && w in s.workers && (s.workers[w].stage.Waiting? || s.workers[w].stage.Dropping?)
    requires next == Leaving(s.workers[w].stage.job, s.workers[w].stage.held)
    requires var stage := s.workers[w].stage; Refers(s, w, Needs(stage.job)[stage.held]) && s.workers[w].refs[Needs(stage.job)[stage.held]] in s.locks
    ensures var stage := s.workers[w].stage; Tidy(ReleaseRef(s, w, Needs(stage.job)[stage.held], next))
  {
    var stage := s.workers[w].stage;
    Distinct(stage.job, stage.held);
  }

  lemma OneReferrerLess(s: Sys, t: Sys, w: nat, id: ID)
    requires t.workers.Keys == s.workers.Keys && Refers(s, w, id)
    requires forall v: nat, x: ID :: Refers(t, v, x) <==> Refers(s, v, x) && !(v == w && x == id)
    ensures Referrers(t, id) == Referrers(s, id) - {w} && w in Referrers(s, id)
    ensures forall x :: x != id ==> Referrers(t, x) == Referrers(s, x)
    ensures forall v: nat :: Refers(t, v, id) ==> |Referrers(t, id)| > 0
  {
    forall v: nat | Refers(t, v, id) ensures |Referrers(t, id)| > 0 {
      assert v in Referrers(t, id);
    }
  }

  lemma DropRefers(s: Sys, w: nat, id: ID, next: Stage)
    requires Refers(s, w, id) && s.workers[w].refs[id] in s.locks
    ensures var t := ReleaseRef(s, w, id, next);
      t.workers.Keys == s.workers.Keys && forall v: nat, x: ID :: Refers(t, v, x) <==> Refers(s, v, x) && !(v == w && x == id)
  {
  }

  lemma DropCounted(s: Sys, w: nat, id: ID, next: Stage)
    requires Counted(s) && Refers(s, w, id)
    ensures Counted(ReleaseRef(s, w, id, next))
  {
    var t := ReleaseRef(s, w, id, next);
    DropRefers(s, w, id, next);
    OneReferrerLess(s, t, w, id);
    hide Referrers;
    assert |Referrers(t, id)| == |Referrers(s, id)| - 1;
    forall x | x in t.table
      ensures t.table[x] in t.locks && t.locks[t.table[x]].refs == |Referrers(t, x)| > 0
    {
      if x != id {
        assert t.table[x] == s.table[x] && s.table[x] != s.table[id];
      }
    }
    forall v, x | Refers(t, v, x) ensures x in t.table && t.workers[v].refs[x] == t.table[x] {
      assert Refers(s, v, x);
    }
  }

  lemma DropExclusive(s: Sys, t: Sys, id: ID, n: nat)
    requires Exclusive(s) && id in s.table && s.table[id] == n && n in s.locks
    requires n in t.locks && t.locks == s.locks[n := t.locks[n]] && t.locks[n].token == s.locks[n].token
    requires (t.table == s.table || t.table == s.table - {id})
    requires forall v: nat, x: ID :: Holds(t, v, x) <==> Holds(s, v, x)
    ensures Exclusive(t)
  {
    forall x | x in t.table && t.table[x] in t.locks && !t.locks[t.table[x]].token ensures exists v :: Holds(t, v, x) {
      assert x in s.table && s.table[x] in s.locks && !s.locks[s.table[x]].token;
      var v :| Holds(s, v, x);
      assert Holds(t, v, x);
    }
  }

  lemma DropKeeps(s: Sys, a: Action)
    requires Leased(s) && Enabled(s, a) && (a.GiveUp? || a.DropRef?)
    ensures Leased(Step(s, a))
  {
    hide Needs, Counted, Exclusive;
    var w := a.w;
    var stage := s.workers[w].stage;
    var id := Needs(stage.job)[stage.held];
    var next := Leaving(stage.job, stage.held);
    Distinct(stage.job, stage.held);
    assert Refers(s, w, id);
    SameLock(s, w, id);
    DropTidy(s, w, next);
    DropCounted(s, w, id, next);
    var t := ReleaseRef(s, w, id, next);
    DropHolds(s, w, id, next);
    DropExclusive(s, t, id, s.table[id]);
  }

  lemma DropHolds(s: Sys, w: nat, id: ID, next: Stage)
    requires Tidy(s) && w in s.workers && (s.workers[w].stage.Waiting? || s.workers[w].stage.Dropping?)
    requires next == Leaving(s.workers[w].stage.job, s.workers[w].stage.held)
    ensures forall v: nat, x: ID :: Holds(ReleaseRef(s, w, id, next), v, x) <==> Holds(s, v, x)
  {
    hide Needs;
  }

  /** Every step keeps the leases in order. */
  lemma LeasesKept(s: Sys, a: Action)
    requires Leased(s) && Enabled(s, a)
    ensures Leased(Step(s, a))
  {
    var w := a.w;
    var stage := s.workers[w].stage;
    match a {
      case Ask(_, unused) =>
        var id := Needs(stage.job)[stage.held];
        Distinct(stage.job, stage.held);
        AskTidy(s, w, unused);
        AskCounted(s, w, id, unused, Waiting(stage.job, stage.held));
        AskExclusive(s, w, unused);
      case Take(_) => TakeKeeps(s, w);
      case GiveUp(_) => DropKeeps(s, a);
      case DropRef(_) => DropKeeps(s, a);
      case PutToken(_) => PutKeeps(s, w);
      case _ =>
        PlainStages(s, a);
        StageChange(s, Step(s, a), w, Step(s, a).workers[w].stage);
    }
  }

  predicate PlainAction(a: Action)
  {
    !(a.Ask? || a.Take? || a.GiveUp? || a.DropRef? || a.PutToken?)
  }

  lemma PlainStages(s: Sys, a: Action)
    requires Tidy(s) && Enabled(s, a) && PlainAction(a)
    ensures a.w in Step(s, a).workers && SameLeases(s.workers[a.w].stage, Step(s, a).workers[a.w].stage)
    ensures Step(s, a) == To(s.(store := Step(s, a).store), a.w, Step(s, a).workers[a.w].stage)
  {
    PlainStep(s, a);
    if a.Save? || a.Refuse? {
      LastStages(s, a);
    } else {
      FirstStages(s, a);
    }
  }

  lemma PlainStep(s: Sys, a: Action)
    requires Tidy(s) && Enabled(s, a) && PlainAction(a)
    ensures a.w in Step(s, a).workers && Step(s, a) == To(s.(store := Step(s, a).store), a.w, Step(s, a).workers[a.w].stage)
  {
    hide Needs, Saved, CanSave, IsPrefix, Sound, Tidy, Held, Referred;
  }

  lemma LastStages(s: Sys, a: Action)
    requires Tidy(s) && Enabled(s, a) && (a.Save? || a.Refuse?)
    ensures a.w in Step(s, a).workers && SameLeases(s.workers[a.w].stage, Step(s, a).workers[a.w].stage)
  {
    hide Needs, Saved, CanSave, IsPrefix;
    var stage := s.workers[a.w].stage;
    assert Needs(stage.job)[..|Needs(stage.job)|] == Needs(stage.job);
  }

  lemma FirstStages(s: Sys, a: Action)
    requires Tidy(s) && Enabled(s, a) && PlainAction(a) && !a.Save? && !a.Refuse?
    ensures a.w in Step(s, a).workers && SameLeases(s.workers[a.w].stage, Step(s, a).workers[a.w].stage)
  {
    hide Needs, Saved, CanSave, IsPrefix;
  }

  // ---- what every step keeps: the stored messages ----

  /** Loaded messages are still what is stored, and what a turn has seen is still a prefix. */
  ghost predicate Current(s: Sys)
  {
    forall w :: w in s.workers ==> StageCurrent(s, s.workers[w].stage)
  }

  ghost predicate StageCurrent(s: Sys, stage: Stage)
  {
    match stage
    case Turn(id, seen) => StillPrefix(s, id, seen)
    case Asking(job, _) => JobCurrent(s, job)
    case Waiting(job, _) => JobCurrent(s, job)
    case Working(job) => JobCurrent(s, job)
    case Loaded(job, current) => JobCurrent(s, job) && job.id in s.store && s.store[job.id] == current
    case _ => true
  }

  predicate StillPrefix(s: Sys, id: ID, seen: Messages)
  {
    id in s.store && IsPrefix(seen, s.store[id])
  }

  predicate JobCurrent(s: Sys, job: Job)
  {
    job.CommitTurn? ==> StillPrefix(s, job.id, job.seen) && IsPrefix(job.seen, job.transcript) && |job.seen| < |job.transcript|
  }

  /** Stored messages only grow. */
  ghost predicate Grows(s: Sys, t: Sys)
  {
    forall id :: id in s.store ==> id in t.store && IsPrefix(s.store[id], t.store[id])
  }

  lemma GrowsKeepsJob(s: Sys, t: Sys, job: Job)
    requires Grows(s, t) && JobCurrent(s, job)
    ensures JobCurrent(t, job)
  {
    if job.CommitTurn? {
      PrefixTwice(job.seen, s.store[job.id], t.store[job.id]);
    }
  }

  lemma PrefixTwice(a: Messages, b: Messages, c: Messages)
    requires IsPrefix(a, b) && IsPrefix(b, c)
    ensures IsPrefix(a, c)
  {
    assert c[..|a|] == c[..|b|][..|a|];
  }

  /** Saving extends one session or creates one, and touches no session another worker works
      on. */
  lemma SaveGrows(s: Sys, w: nat)
    requires Current(s) && Enabled(s, Save(w)) && Sound(s.workers[w].stage)
    ensures Grows(s, Step(s, Save(w)))
    ensures forall id :: id in s.store && id !in Needs(s.workers[w].stage.job) ==>
      id in Step(s, Save(w)).store && Step(s, Save(w)).store[id] == s.store[id]
  {
    var stage := s.workers[w].stage;
    var t := Step(s, Save(w));
    match stage.job
    case Append(id, more) => assert (stage.current + more)[..|stage.current|] == stage.current;
    case CommitTurn(id, seen, transcript) => assert (stage.current + transcript[|seen|..])[..|stage.current|] == stage.current;
    case Patch(id) => assert stage.current[..|stage.current|] == stage.current;
    case Fork(id, child) => assert child in Needs(stage.job);
  }

  lemma CurrentKept(s: Sys, a: Action)
    requires Leased(s) && Current(s) && Enabled(s, a)
    ensures Current(Step(s, a)) && Grows(s, Step(s, a))
  {
    SelfPrefix(s);
    if a.Save? {
      SaveGrows(s, a.w);
      SavedElsewhere(s, a.w);
    } else {
      StoreSame(s, a);
      NextCurrent(s, a);
      var t := Step(s, a);
      forall v | v in t.workers && v != a.w ensures v in s.workers && t.workers[v] == s.workers[v] {
        OthersStay(s, a, v);
      }
      hide Step, Enabled, Leased, Current, StageCurrent;
      OthersCurrent(s, t, a.w);
    }
  }

  lemma OthersCurrent(s: Sys, t: Sys, w: nat)
    requires Current(s) && t.store == s.store && w in t.workers && StageCurrent(s, t.workers[w].stage)
    requires forall v :: v in t.workers && v != w ==> v in s.workers && t.workers[v] == s.workers[v]
    ensures Current(t)
  {
    forall v | v in t.workers ensures StageCurrent(t, t.workers[v].stage) {
      assert StageCurrent(s, t.workers[v].stage);
    }
  }

  lemma SelfPrefix(s: Sys)
    ensures Grows(s, s)
  {
    forall id | id in s.store ensures IsPrefix(s.store[id], s.store[id]) {
      assert s.store[id][..|s.store[id]|] == s.store[id];
    }
  }

  lemma StoreSame(s: Sys, a: Action)
    requires Tidy(s) && Enabled(s, a) && !a.Save?
    ensures Step(s, a).store == s.store
  {
    hide Needs;
  }

  lemma OthersStay(s: Sys, a: Action, w: nat)
    requires Tidy(s) && Enabled(s, a) && w != a.w
    ensures w in Step(s, a).workers <==> w in s.workers
    ensures w in s.workers ==> Step(s, a).workers[w] == s.workers[w]
  {
    hide Needs, Saved;
  }

  lemma NextCurrent(s: Sys, a: Action)
    requires Leased(s) && Current(s) && Enabled(s, a) && !a.Save?
    ensures a.w in Step(s, a).workers && StageCurrent(s, Step(s, a).workers[a.w].stage)
  {
    hide Needs, Counted, Exclusive;
    SelfPrefix(s);
    assert StageCurrent(s, s.workers[a.w].stage);
  }

  /** No other worker has loaded the session that is saved: it would hold the same lease. */
  lemma SavedElsewhere(s: Sys, w: nat)
    requires Leased(s) && Current(s) && Enabled(s, Save(w))
    ensures Current(Step(s, Save(w)))
  {
    var t := Step(s, Save(w));
    SaveGrows(s, w);
    forall v | v in t.workers ensures StageCurrent(t, t.workers[v].stage) {
      if v != w {
        OthersStay(s, Save(w), v);
        OtherStageKept(s, w, v);
      }
    }
  }

  lemma OtherStageKept(s: Sys, w: nat, v: nat)
    requires Leased(s) && Current(s) && Enabled(s, Save(w)) && v in s.workers && v != w
    requires Grows(s, Step(s, Save(w)))
    requires forall id :: id in s.store && id !in Needs(s.workers[w].stage.job) ==>
      id in Step(s, Save(w)).store && Step(s, Save(w)).store[id] == s.store[id]
    ensures StageCurrent(Step(s, Save(w)), s.workers[v].stage)
  {
    hide Needs, Counted, Saved;
    var t, stage := Step(s, Save(w)), s.workers[v].stage;
    assert StageCurrent(s, stage);
    match stage {
      case Turn(id, seen) => PrefixTwice(seen, s.store[id], t.store[id]);
      case Asking(job, _) => GrowsKeepsJob(s, t, job);
      case Waiting(job, _) => GrowsKeepsJob(s, t, job);
      case Working(job) => GrowsKeepsJob(s, t, job);
      case Loaded(job, current) =>
        GrowsKeepsJob(s, t, job);
        var both := Holds(s, v, job.id) && Holds(s, w, job.id);
      case _ =>
    }
  }

  // ---- over whole runs ----

  ghost predicate Invariant(s: Sys)
  {
    Leased(s) && Current(s)
  }

  ghost predicate Initial(s: Sys)
  {
    s.table == map[] && forall w :: w in s.workers ==> s.workers[w] == Worker(Resting, map[])
  }

  lemma InitialHolds(s: Sys)
    requires Initial(s)
    ensures Invariant(s)
  {
  }

  ghost predicate Legal(s: Sys, actions: seq<Action>)
    decreases |actions|
  {
    actions == [] || (Enabled(s, actions[0]) && Sound(s.workers[actions[0].w].stage) && Legal(Step(s, actions[0]), actions[1..]))
  }

  ghost function Exec(s: Sys, actions: seq<Action>): Sys
    requires Legal(s, actions)
    decreases |actions|
  {
    if actions == [] then s else Exec(Step(s, actions[0]), actions[1..])
  }

  /** In every run: the leases stay in order, and every stored session only grows. */
  lemma {:induction false} RunsKeep(s: Sys, actions: seq<Action>)
    requires Invariant(s) && Legal(s, actions)
    ensures Invariant(Exec(s, actions)) && Grows(s, Exec(s, actions))
    decreases |actions|
  {
    hide Leased, Current, Grows, Enabled, Step;
    SelfPrefix(s);
    if actions != [] {
      var t := Step(s, actions[0]);
      LeasesKept(s, actions[0]);
      CurrentKept(s, actions[0]);
      RunsKeep(t, actions[1..]);
      GrowsTwice(s, t, Exec(s, actions));
    }
  }

  lemma GrowsTwice(s: Sys, t: Sys, u: Sys)
    requires Grows(s, t) && Grows(t, u)
    ensures Grows(s, u)
  {
    forall id | id in s.store ensures id in u.store && IsPrefix(s.store[id], u.store[id]) {
      PrefixTwice(s.store[id], t.store[id], u.store[id]);
    }
  }

  /** At most one worker holds the lease of an ID, in every state of every run. */
  lemma OneHolder(s: Sys, actions: seq<Action>, v: nat, w: nat, id: ID)
    requires Initial(s) && Legal(s, actions) && Holds(Exec(s, actions), v, id) && Holds(Exec(s, actions), w, id)
    ensures v == w
  {
    hide Legal, Exec, Holds;
    InitialHolds(s);
    RunsKeep(s, actions);
  }

  /** A turn whose commit succeeds leaves exactly its run's transcript in the store, and every
      other session as it was, whatever the other workers did in the meantime. */
  lemma CommitStoresTranscript(s: Sys, actions: seq<Action>, w: nat)
    requires Initial(s) && Legal(s, actions)
    requires var t := Exec(s, actions); Enabled(t, Save(w)) && Sound(t.workers[w].stage) && t.workers[w].stage.job.CommitTurn?
    ensures var t := Exec(s, actions); var job := t.workers[w].stage.job; var u := Step(t, Save(w));
      u.store == t.store[job.id := job.transcript]
  {
    hide Legal, Exec;
    InitialHolds(s);
    RunsKeep(s, actions);
    var t := Exec(s, actions);
    var stage := t.workers[w].stage;
    assert StageCurrent(t, stage);
    assert stage.current == stage.job.seen;
    assert stage.job.seen + stage.job.transcript[|stage.job.seen|..] == stage.job.transcript;
  }

  /** The worker has loaded its session and is about to save. */
  ghost predicate AboutToSave(s: Sys, w: nat)
  {
    w in s.workers && Sound(s.workers[w].stage) && s.workers[w].stage.Loaded?
  }

  /** In every run: an append can always be saved, leaves the messages stored at that moment
      followed by its own, and touches no other session. */
  lemma AppendStores(s: Sys, actions: seq<Action>, w: nat, id: ID, more: Messages)
    requires Initial(s) && Legal(s, actions) && AboutToSave(Exec(s, actions), w) && Exec(s, actions).workers[w].stage.job == Append(id, more)
    ensures var t := Exec(s, actions); id in t.store && Enabled(t, Save(w)) && Step(t, Save(w)).store == t.store[id := t.store[id] + more]
  {
    hide Legal, Exec;
    LoadedIsStored(s, actions, w);
  }

  /** A fork can be saved exactly while there is no child; then the child is equal to the source
      at that moment, and no other session is touched. */
  lemma ForkStores(s: Sys, actions: seq<Action>, w: nat, id: ID, child: ID)
    requires Initial(s) && Legal(s, actions) && AboutToSave(Exec(s, actions), w) && Exec(s, actions).workers[w].stage.job == Fork(id, child)
    ensures var t := Exec(s, actions); id in t.store && (Enabled(t, Save(w)) <==> child !in t.store)
    ensures var t := Exec(s, actions); Enabled(t, Save(w)) ==> Step(t, Save(w)).store == t.store[child := t.store[id]]
  {
    hide Legal, Exec;
    LoadedIsStored(s, actions, w);
  }

  /** A patch can always be saved and changes no messages. */
  lemma PatchStores(s: Sys, actions: seq<Action>, w: nat, id: ID)
    requires Initial(s) && Legal(s, actions) && AboutToSave(Exec(s, actions), w) && Exec(s, actions).workers[w].stage.job == Patch(id)
    ensures var t := Exec(s, actions); Enabled(t, Save(w)) && Step(t, Save(w)).store == t.store
  {
    hide Legal, Exec;
    LoadedIsStored(s, actions, w);
  }

  lemma LoadedIsStored(s: Sys, actions: seq<Action>, w: nat)
    requires Initial(s) && Legal(s, actions) && AboutToSave(Exec(s, actions), w)
    ensures var t := Exec(s, actions); var stage := t.workers[w].stage;
      Tidy(t) && stage.job.id in t.store && t.store[stage.job.id] == stage.current
  {
    hide Legal, Exec, Counted, Exclusive;
    InitialHolds(s);
    RunsKeep(s, actions);
    assert StageCurrent(Exec(s, actions), Exec(s, actions).workers[w].stage);
  }

  /** Nothing but a save changes what is stored. */
  lemma OnlySavesStore(s: Sys, actions: seq<Action>, a: Action)
    requires Initial(s) && Legal(s, actions) && Enabled(Exec(s, actions), a) && Sound(Exec(s, actions).workers[a.w].stage) && !a.Save?
    ensures Step(Exec(s, actions), a).store == Exec(s, actions).store
  {
    hide Legal, Exec, Counted, Exclusive, Current, Enabled, Step;
    InitialHolds(s);
    RunsKeep(s, actions);
    StoreSame(Exec(s, actions), a);
  }

  /** A turn that began before another writer extended the session cannot commit: its save is
      not possible, and refusing it changes no session. */
  lemma LosingTurnChangesNothing(s: Sys, actions: seq<Action>, w: nat)
    requires Initial(s) && Legal(s, actions)
    requires var t := Exec(s, actions); w in t.workers && t.workers[w].stage.Loaded? && Sound(t.workers[w].stage) && t.workers[w].stage.job.CommitTurn?
    ensures var t := Exec(s, actions); var job := t.workers[w].stage.job;
      && job.id in t.store
      && (Enabled(t, Save(w)) <==> t.store[job.id] == job.seen)
      && Enabled(t, Refuse(w)) && Step(t, Refuse(w)).store == t.store
  {
    hide Legal, Exec;
    InitialHolds(s);
    RunsKeep(s, actions);
    var t := Exec(s, actions);
    var stage := t.workers[w].stage;
    assert StageCurrent(t, stage);
    assert stage.current[..|stage.current|] == stage.current;
  }

  // ---- nobody waits forever for each other ----

  /** A worker that can go on without anyone else. */
  ghost predicate Free(s: Sys, w: nat)
  {
    w in s.workers && var stage := s.workers[w].stage;
      stage.Asking? || stage.Working? || stage.Loaded? || stage.Leaving? || stage.Dropping? || Enabled(s, Take(w))
  }

  lemma FreeCanStep(s: Sys, w: nat, unused: nat)
    requires Leased(s) && Free(s, w) && unused !in s.locks
    ensures Enabled(s, Ask(w, unused)) || Enabled(s, Refuse(w)) || Enabled(s, PutToken(w)) || Enabled(s, DropRef(w))
      || Enabled(s, Rest(w)) || Enabled(s, Take(w))
  {
  }

  ghost function Above(s: Sys, id: ID): set<ID>
  {
    set x | x in s.table && Less(id, x)
  }

  /** Whoever waits for a lease that is not free waits for somebody who holds it; if that one
      waits too, it is for a greater ID, so the chain ends at a worker that can go on. */
  lemma {:induction false} ChainEnds(s: Sys, w: nat) returns (free: nat)
    requires Leased(s) && w in s.workers && s.workers[w].stage.Waiting?
    ensures Free(s, free)
    decreases |Above(s, Needs(s.workers[w].stage.job)[s.workers[w].stage.held])|
  {
    var stage := s.workers[w].stage;
    var id := Needs(stage.job)[stage.held];
    Distinct(stage.job, stage.held);
    assert Refers(s, w, id);
    if s.locks[s.table[id]].token {
      free := w;
    } else {
      var v :| Holds(s, v, id);
      var other := s.workers[v].stage;
      if other.Waiting? {
        GreaterSecond(other.job, other.held, id);
        var next := Needs(other.job)[other.held];
        Distinct(other.job, other.held);
        assert Refers(s, v, next);
        FewerAbove(s, id, next);
        free := ChainEnds(s, v);
      } else {
        free := v;
      }
    }
  }

  lemma GreaterSecond(job: Job, held: nat, id: ID)
    requires SoundJob(job) && held < |Needs(job)| && id in Needs(job)[..held]
    ensures Less(id, Needs(job)[held])
  {
    Total(job.id, if job.Fork? then job.child else job.id);
  }

  lemma FewerAbove(s: Sys, id: ID, next: ID)
    requires Less(id, next) && next in s.table
    ensures |Above(s, next)| < |Above(s, id)|
  {
    forall x | x in Above(s, next) ensures x in Above(s, id) {
      Transitive(id, next, x);
    }
    Irreflexive(next);
    assert next in Above(s, id) - Above(s, next);
    Fewer(Above(s, next), Above(s, id), next);
  }

  /** In every reachable state in which some worker is after a lease, some worker can go on. */
  lemma LeasesNeverDeadlock(s: Sys, actions: seq<Action>, w: nat) returns (free: nat)
    requires Initial(s) && Legal(s, actions)
    requires var t := Exec(s, actions); w in t.workers && !t.workers[w].stage.Resting? && !t.workers[w].stage.Turn?
    ensures Free(Exec(s, actions), free)
  {
    hide Legal, Exec, Leased, Current;
    InitialHolds(s);
    RunsKeep(s, actions);
    var t := Exec(s, actions);
    if t.workers[w].stage.Waiting? {
      free := ChainEnds(t, w);
    } else {
      free := w;
    }
  }

  // ---- what can be done ----

  lemma Done(s: Sys)
    ensures Legal(s, []) && Exec(s, []) == s
  {
  }

  lemma Then(s: Sys, a: Action, rest: seq<Action>)
    requires Enabled(s, a) && Sound(s.workers[a.w].stage) && Legal(Step(s, a), rest)
    ensures Legal(s, [a] + rest) && Exec(s, [a] + rest) == Exec(Step(s, a), rest)
  {
    assert ([a] + rest)[1..] == rest;
  }

  /** A worker with nothing to do, in a store where nobody holds a lease. */
  ghost predicate Quiet(s: Sys, w: nat)
  {
    s.table == map[] && w in s.workers && s.workers[w] == Worker(Resting, map[])
  }

  /** From asking for its one lease to saving: a job that nobody disturbs can be done. */
  lemma JobDone(s: Sys, w: nat, job: Job, unused: nat) returns (actions: seq<Action>)
    requires s.table == map[] && w in s.workers && s.workers[w] == Worker(Asking(job, 0), map[]) && unused !in s.locks
    requires !job.Fork? && job.id in s.store
    requires job.CommitTurn? ==> job.seen == s.store[job.id] && |job.seen| <= |job.transcript|
    ensures Legal(s, actions) && Exec(s, actions).store == Saved(s, job, s.store[job.id])
  {
    hide Saved;
    var s1 := Step(s, Ask(w, unused));
    assert s1.workers[w] == Worker(Waiting(job, 0), map[job.id := unused]) && s1.locks[unused] == Lock(1, true);
    var s2 := Step(s1, Take(w));
    assert s2.workers[w].stage == Working(job) && s2.store == s.store;
    var s3 := Step(s2, Load(w));
    assert s3.workers[w].stage == Loaded(job, s.store[job.id]) && s3.store == s.store;
    var s4 := Step(s3, Save(w));
    SavedAlike(s, s3, job);
    hide Legal, Exec, Step, Enabled;
    Done(s4);
    Then(s3, Save(w), []);
    Then(s2, Load(w), [Save(w)] + []);
    Then(s1, Take(w), [Load(w)] + ([Save(w)] + []));
    Then(s, Ask(w, unused), [Take(w)] + ([Load(w)] + ([Save(w)] + [])));
    actions := [Ask(w, unused)] + ([Take(w)] + ([Load(w)] + ([Save(w)] + [])));
  }

  lemma SavedAlike(s: Sys, t: Sys, job: Job)
    requires t.store == s.store && job.id in s.store && (job.CommitTurn? ==> |job.seen| <= |job.transcript|)
    ensures Saved(t, job, s.store[job.id]) == Saved(s, job, s.store[job.id])
  {
  }

  /** A turn that nobody disturbs can be begun, run and committed: its session then holds exactly
      the transcript. */
  lemma TurnCanCommit(s: Sys, w: nat, id: ID, more: Messages, unused: nat) returns (actions: seq<Action>)
    requires Quiet(s, w) && id in s.store && more != [] && unused !in s.locks
    ensures Legal(s, actions) && Exec(s, actions).store == s.store[id := s.store[id] + more]
  {
    var seen := s.store[id];
    var transcript := seen + more;
    assert transcript[..|seen|] == seen && transcript[|seen|..] == more;
    var s1 := Step(s, BeginTurn(w, id));
    var s2 := Step(s1, EndRun(w, transcript));
    var rest := JobDone(s2, w, CommitTurn(id, seen, transcript), unused);
    hide Legal, Exec;
    Then(s1, EndRun(w, transcript), rest);
    Then(s, BeginTurn(w, id), [EndRun(w, transcript)] + rest);
    actions := [BeginTurn(w, id)] + ([EndRun(w, transcript)] + rest);
  }

  /** And an append can be made. */
  lemma AppendCanBeMade(s: Sys, w: nat, id: ID, more: Messages, unused: nat) returns (actions: seq<Action>)
    requires Quiet(s, w) && id in s.store && unused !in s.locks
    ensures Legal(s, actions) && Exec(s, actions).store == s.store[id := s.store[id] + more]
  {
    var s1 := Step(s, Start(w, Append(id, more)));
    var rest := JobDone(s1, w, Append(id, more), unused);
    hide Legal, Exec;
    Then(s, Start(w, Append(id, more)), rest);
    actions := [Start(w, Append(id, more))] + rest;
  }
}
