/**
 The boss and its worker threads as a machine of interleaved steps. A step is
 one pthread call, one queue operation, or one system call of a transfer; any
 enabled step may come next. pthread_cond_wait releases the mutex and starts to
 wait in one step, and may return without a signal (POSIX.1-2008).
 */
module BossWorker {
  import opened Wrappers
  import opened CString
  import opened Files
  import opened Content
  import opened Transfers

  /** The content table as content_init left it, and the files it opened. */
  datatype Config = Config(items: seq<Item>, files: Descriptors)

  datatype Holder = Nobody | Boss | Worker(i: nat)

  /** The boss is about to do this; the number is the request it carries. */
  datatype BossPc = Idle | Locking(id: nat) | Enqueuing(id: nat) | Unlocking | Signalling

  /** A worker is about to do this, or is blocked in the wait. */
  datatype WorkerPc =
    | ToLock
    | Testing
    | ToWait
    | Waiting
    | Relocking
    | Popping
    | ToUnlock(id: nat)
    | Serving(id: nat, t: Transfer)

  /** A request is named by its place in `paths`, the requests malloc'ed so far;
      `blocks` holds what lay in the memory of each behind the copy of its path.
      `heap` holds those not freed; `enqueued`, `popped` and `served` are the
      histories of the queue and of the finished requests. */
  datatype State = State(
    incoming: seq<Bytes>,
    paths: seq<Bytes>,
    blocks: seq<Bytes>,
    heap: set<nat>,
    boss: BossPc,
    workers: seq<WorkerPc>,
    mutex: Holder,
    queue: seq<nat>,
    fds: Descriptors,
    enqueued: seq<nat>,
    popped: seq<nat>,
    served: map<nat, Transfer>,
    underflow: bool)

  datatype Label =
    | Arrive(block: Bytes) // what lies in the new request's memory behind the copied path
    | BossLock
    | Enqueue
    | BossUnlock
    | Signal(woken: Option<nat>)
    | Lock(i: nat)
    | Test(i: nat)
    | Wait(i: nat)
    | Wake(i: nat) // a wait that returns without a signal
    | Relock(i: nat)
    | Pop(i: nat)
    | Unlock(i: nat)
    | Serve(i: nat, e: Event)
    | Free(i: nat)

  function Init(c: Config, n: nat, connections: seq<Bytes>): State {
    State(connections, [], [], {}, Idle, seq(n, _ => ToLock), Nobody, [], c.files, [], [], map[], false)
  }

  /** The string a worker reads where `path` was copied without its NUL, and
      `block` lay behind it. */
  function Copied(path: Bytes, block: Bytes): (r: Bytes)
    ensures NUL !in r
  {
    CStr(path + block)
  }

  /** It is the path exactly when the next byte of the memory is NUL. */
  lemma CopiedWhole(path: Bytes, block: Bytes)
    requires NUL !in path
    ensures Copied(path, block) == path <==> block == [] || block[0] == NUL
  {
    CStrAppend(path, block);
    assert path + CStr(block) == path <==> CStr(block) == [];
  }

  /** In memory that held a longer path, only the front of it is overwritten. */
  lemma CopiedOverLonger(path: Bytes, was: Bytes, block: Bytes)
    requires NUL !in path && NUL !in was && |path| <= |was|
    ensures Copied(path, (was + block)[|path|..]) == path + Copied(was, block)[|path|..]
  {
    var rest := was[|path|..];
    assert (was + block)[|path|..] == rest + block;
    CStrAppend(path, rest + block);
    CStrAppend(rest, block);
    CStrAppend(was, block);
    assert (was + CStr(block))[|path|..] == rest + CStr(block);
  }

  /** The path a worker reads in request `id`. */
  function PathOf(s: State, id: nat): Bytes {
    if id < |s.paths| && id < |s.blocks| then Copied(s.paths[id], s.blocks[id]) else []
  }

  /** What the C types guarantee: descriptors stay open, and a transfer's locals fit its file. */
  ghost predicate Typed(c: Config, s: State) {
    && OpenIn(c.items, c.files) && SameFiles(s.fds, c.files)
    && forall i | 0 <= i < |s.workers| && s.workers[i].Serving? :: PhaseOk(c.files, s.workers[i].t.phase)
  }

  ghost predicate Enabled(s: State, l: Label) {
    match l
    case Arrive(_) => s.boss.Idle? && s.incoming != []
    case BossLock => s.boss.Locking? && s.mutex == Nobody
    case Enqueue => s.boss.Enqueuing?
    case BossUnlock => s.boss.Unlocking?
    case Signal(w) =>
      && s.boss.Signalling?
      && (w.Some? ==> w.value < |s.workers| && s.workers[w.value].Waiting?)
      && (w.None? ==> forall i | 0 <= i < |s.workers| :: !s.workers[i].Waiting?)
    case Lock(i) => i < |s.workers| && s.workers[i].ToLock? && s.mutex == Nobody
    case Test(i) => i < |s.workers| && s.workers[i].Testing?
    case Wait(i) => i < |s.workers| && s.workers[i].ToWait?
    case Wake(i) => i < |s.workers| && s.workers[i].Waiting?
    case Relock(i) => i < |s.workers| && s.workers[i].Relocking? && s.mutex == Nobody
    case Pop(i) => i < |s.workers| && s.workers[i].Popping?
    case Unlock(i) => i < |s.workers| && s.workers[i].ToUnlock?
    case Serve(i, e) => i < |s.workers| && s.workers[i].Serving? && Possible(s.workers[i].t.phase, e)
    case Free(i) => i < |s.workers| && s.workers[i].Serving? && s.workers[i].t.phase.Done?
  }

  function At(s: State, i: nat, pc: WorkerPc): State
    requires i < |s.workers|
  {
    s.(workers := s.workers[i := pc])
  }

  ghost function Apply(c: Config, s: State, l: Label): State
    requires Typed(c, s) && Enabled(s, l)
  {
    match l
    case Arrive(block) =>
      // handler_get: allocate the request and copy the path into it, without its NUL
      var id := |s.paths|;
      s.(incoming := s.incoming[1..], paths := s.paths + [s.incoming[0]], blocks := s.blocks + [block],
        heap := s.heap + {id}, boss := Locking(id))
    case BossLock => s.(mutex := Boss, boss := Enqueuing(s.boss.id))
    case Enqueue => s.(queue := s.queue + [s.boss.id], enqueued := s.enqueued + [s.boss.id], boss := Unlocking)
    case BossUnlock => s.(mutex := Nobody, boss := Signalling)
    case Signal(w) =>
      var s' := s.(boss := Idle);
      if w.Some? then At(s', w.value, Relocking) else s'
    case Lock(i) => At(s, i, Testing).(mutex := Worker(i))
    case Test(i) => At(s, i, if s.queue == [] then ToWait else Popping)
    case Wait(i) => At(s, i, Waiting).(mutex := Nobody)
    case Wake(i) => At(s, i, Relocking)
    case Relock(i) => At(s, i, Testing).(mutex := Worker(i))
    case Pop(i) =>
      if s.queue == [] then s.(underflow := true)
      else At(s, i, ToUnlock(s.queue[0])).(queue := s.queue[1..], popped := s.popped + [s.queue[0]])
    case Unlock(i) => At(s, i, Serving(s.workers[i].id, START)).(mutex := Nobody)
    case Serve(i, e) =>
      var Serving(id, t) := s.workers[i];
      var (fds, t') := Step(c.items, PathOf(s, id), s.fds, t, e);
      At(s, i, Serving(id, t')).(fds := fds)
    case Free(i) =>
      var Serving(id, t) := s.workers[i];
      At(s, i, ToLock).(heap := s.heap - {id}, served := s.served[id := t])
  }

  lemma ApplyTyped(c: Config, s: State, l: Label)
    requires Typed(c, s) && Enabled(s, l)
    ensures Typed(c, Apply(c, s, l))
  {
    hide Step;
  }

  /** The state a schedule leads to; None if some step of it was not enabled. */
  ghost function Run(c: Config, n: nat, connections: seq<Bytes>, ls: seq<Label>): (r: Option<State>)
    requires OpenIn(c.items, c.files)
    ensures r.Some? ==> Typed(c, r.value)
    decreases |ls|
  {
    if ls == [] then Some(Init(c, n, connections))
    else
      match Run(c, n, connections, ls[..|ls| - 1])
      case None => None
      case Some(s) => TryApply(c, s, ls[|ls| - 1])
  }

  ghost function TryApply(c: Config, s: State, l: Label): (r: Option<State>)
    requires Typed(c, s)
    ensures r.Some? ==> Typed(c, r.value)
  {
    if Enabled(s, l) then ApplyTyped(c, s, l); Some(Apply(c, s, l)) else None
  }

  // ---- The mutex

  /** Between lock and unlock. */
  predicate Inside(w: WorkerPc) {
    w.Testing? || w.ToWait? || w.Popping? || w.ToUnlock?
  }

  predicate BossInside(b: BossPc) {
    b.Enqueuing? || b.Unlocking?
  }

  /** The mutex names the one thread inside; whoever is about to pop finds an
      item, and whoever is about to wait would find none. */
  ghost predicate Exclusive(s: State) {
    && (s.mutex == Boss <==> BossInside(s.boss))
    && (forall i | 0 <= i < |s.workers| :: s.mutex == Worker(i) <==> Inside(s.workers[i]))
    && (s.mutex.Worker? ==> s.mutex.i < |s.workers|)
    && (forall i | 0 <= i < |s.workers| :: s.workers[i].Popping? ==> s.queue != [])
    && (forall i | 0 <= i < |s.workers| :: s.workers[i].ToWait? ==> s.queue == [])
    && !s.underflow
  }

  predicate OfBoss(l: Label) {
    l.Arrive? || l.BossLock? || l.Enqueue? || l.BossUnlock? || l.Signal?
  }

  lemma BossKeepsExclusive(c: Config, s: State, l: Label)
    requires Typed(c, s) && Enabled(s, l) && Exclusive(s) && OfBoss(l)
    ensures Exclusive(Apply(c, s, l))
  {
    hide Step, Possible, Typed;
  }

  lemma WorkerKeepsExclusive(c: Config, s: State, l: Label)
    requires Typed(c, s) && Enabled(s, l) && Exclusive(s) && !OfBoss(l)
    ensures Exclusive(Apply(c, s, l))
  {
    hide Step, Possible, Typed;
  }

  lemma ExclusiveStep(c: Config, s: State, l: Label)
    requires Typed(c, s) && Enabled(s, l) && Exclusive(s)
    ensures Exclusive(Apply(c, s, l))
  {
    hide Apply, Exclusive;
    if OfBoss(l) {
      BossKeepsExclusive(c, s, l);
    } else {
      WorkerKeepsExclusive(c, s, l);
    }
  }

  // ---- Wake-ups

  predicate AwakeEmptyHanded(w: WorkerPc) {
    w.ToLock? || w.Testing? || w.Relocking? || w.Popping?
  }

  function Count(ws: seq<WorkerPc>): nat {
    if ws == [] then 0 else (if AwakeEmptyHanded(ws[0]) then 1 else 0) + Count(ws[1..])
  }

  lemma {:induction false} CountUpdate(ws: seq<WorkerPc>, i: nat, w: WorkerPc)
    requires i < |ws|
    ensures Count(ws[i := w])
         == Count(ws) - (if AwakeEmptyHanded(ws[i]) then 1 else 0) + (if AwakeEmptyHanded(w) then 1 else 0)
  {
    if i == 0 {
      assert ws[0 := w][1..] == ws[1..];
    } else {
      CountUpdate(ws[1..], i - 1, w);
      assert ws[i := w][1..] == ws[1..][i - 1 := w];
    }
  }

  /** Enqueued, and the signal for it not sent yet. */
  function Unsignalled(b: BossPc): nat {
    if b.Unlocking? || b.Signalling? then 1 else 0
  }

  ghost predicate NoLostWakeup(s: State) {
    (exists i | 0 <= i < |s.workers| :: s.workers[i].Waiting?)
    ==> |s.queue| <= Count(s.workers) + Unsignalled(s.boss)
  }

  /** A step of worker `k` that leaves the queue as it is, or takes one item off it. */
  lemma WorkerKeepsWakeups(s: State, s': State, k: nat)
    requires NoLostWakeup(s) && k < |s.workers|
    requires |s'.workers| == |s.workers| && s'.workers == s.workers[k := s'.workers[k]] && s'.boss == s.boss
    requires !s.workers[k].ToWait? ==> !s'.workers[k].Waiting?
    requires s.workers[k].ToWait? || s.workers[k].Testing? ==> AwakeEmptyHanded(s'.workers[k]) || s'.queue == []
    requires s.workers[k].ToLock? || s.workers[k].Relocking? ==> AwakeEmptyHanded(s'.workers[k])
    requires |s'.queue| <= |s.queue| - (if s.workers[k].Popping? then 1 else 0)
    ensures NoLostWakeup(s')
  {
    hide Count;
    CountUpdate(s.workers, k, s'.workers[k]);
    if i :| 0 <= i < |s'.workers| && s'.workers[i].Waiting? {
      assert s'.queue != [] ==> i < |s.workers| && s.workers[i].Waiting?;
    }
  }

  /** A step of the boss, who may wake worker `k`. */
  lemma BossKeepsWakeups(c: Config, s: State, l: Label)
    requires Typed(c, s) && Enabled(s, l) && NoLostWakeup(s)
    requires OfBoss(l)
    ensures NoLostWakeup(Apply(c, s, l))
  {
    hide Step, Count, Typed, Possible;
    var s' := Apply(c, s, l);
    if i :| 0 <= i < |s'.workers| && s'.workers[i].Waiting? {
      assert s.workers[i].Waiting?;
      if l.Signal? {
        CountUpdate(s.workers, l.woken.value, Relocking);
      }
    }
  }

  lemma NoLostWakeupStep(c: Config, s: State, l: Label)
    requires Typed(c, s) && Enabled(s, l) && Exclusive(s) && NoLostWakeup(s)
    ensures NoLostWakeup(Apply(c, s, l))
  {
    hide Step, Count, Typed, Possible, NoLostWakeup;
    if OfBoss(l) {
      BossKeepsWakeups(c, s, l);
    } else {
      WorkerKeepsWakeups(s, Apply(c, s, l), l.i);
    }
  }

  // ---- Ownership of requests

  /** A worker between popping a request and freeing it. */
  predicate Carries(w: WorkerPc) {
    w.ToUnlock? || w.Serving?
  }

  predicate BossCarries(b: BossPc) {
    b.Locking? || b.Enqueuing?
  }

  /** Requests are enqueued in the order they were accepted and popped in the
      order they were enqueued, none lost and none twice. */
  ghost predicate Fifo(s: State, connections: seq<Bytes>) {
    && s.popped + s.queue == s.enqueued
    && (forall k | 0 <= k < |s.enqueued| :: s.enqueued[k] == k)
    && |s.paths| == |s.enqueued| + (if BossCarries(s.boss) then 1 else 0)
    && (BossCarries(s.boss) ==> s.boss.id == |s.enqueued|)
    && s.paths + s.incoming == connections && |s.blocks| == |s.paths|
  }

  lemma FifoStep(c: Config, s: State, l: Label, connections: seq<Bytes>)
    requires Typed(c, s) && Enabled(s, l) && Exclusive(s) && Fifo(s, connections)
    ensures Fifo(Apply(c, s, l), connections)
  {
    hide Step;
    match l
    case Pop(i) =>
      assert s.popped + [s.queue[0]] + s.queue[1..] == s.popped + s.queue;
    case Arrive(_) =>
      assert s.paths + [s.incoming[0]] + s.incoming[1..] == s.paths + s.incoming;
    case Enqueue =>
      assert s.popped + (s.queue + [s.boss.id]) == s.popped + s.queue + [s.boss.id];
    case _ =>
  }

  /** No two workers carry the same request, and none carries a served one. */
  ghost predicate Unshared(s: State) {
    && (forall i | 0 <= i < |s.workers| && Carries(s.workers[i]) ::
          s.workers[i].id < |s.popped| && s.workers[i].id !in s.served)
    && (forall i, j | 0 <= i < j < |s.workers| && Carries(s.workers[i]) && Carries(s.workers[j]) ::
          s.workers[i].id != s.workers[j].id)
  }

  /** Every popped request is carried or served; what is not freed is exactly
      what is not served. */
  ghost predicate Owned(s: State) {
    && Unshared(s)
    && (forall id: nat | id < |s.popped| && id !in s.served :: CarriedByWorker(s, id))
    && (forall id | id in s.served :: id < |s.popped|)
    && (forall id: nat :: id in s.heap <==> id < |s.paths| && id !in s.served)
  }

  ghost predicate CarriedByWorker(s: State, id: nat) {
    exists i | 0 <= i < |s.workers| :: Carries(s.workers[i]) && s.workers[i].id == id
  }

  lemma NextPopped(s: State, connections: seq<Bytes>)
    requires Fifo(s, connections) && s.queue != []
    ensures s.queue[0] == |s.popped| < |s.paths|
  {
    assert s.enqueued[|s.popped|] == s.queue[0];
  }

  /** A request stays with the worker that carries it until it is served. */
  lemma CarrierStays(c: Config, s: State, l: Label, i: nat)
    requires Typed(c, s) && Enabled(s, l) && i < |s.workers| && Carries(s.workers[i])
    requires s.workers[i].id !in Apply(c, s, l).served
    ensures var s' := Apply(c, s, l);
            |s'.workers| == |s.workers| && Carries(s'.workers[i]) && s'.workers[i].id == s.workers[i].id
  {
    hide Step, Typed, Possible;
  }

  lemma CarriedStep(c: Config, s: State, l: Label, connections: seq<Bytes>, id: nat)
    requires Typed(c, s) && Enabled(s, l) && Exclusive(s) && Fifo(s, connections) && Owned(s)
    requires id < |Apply(c, s, l).popped| && id !in Apply(c, s, l).served
    ensures CarriedByWorker(Apply(c, s, l), id)
  {
    hide Step, Typed, Possible;
    var s' := Apply(c, s, l);
    if id < |s.popped| {
      assert CarriedByWorker(s, id);
      var i :| 0 <= i < |s.workers| && Carries(s.workers[i]) && s.workers[i].id == id;
      CarrierStays(c, s, l, i);
    } else {
      NextPopped(s, connections);
      assert Carries(s'.workers[l.i]) && s'.workers[l.i].id == id;
    }
  }

  /** Whoever carries a request after a step has just popped it, or carried it before. */
  lemma CarrierWas(c: Config, s: State, l: Label, i: nat)
    requires Typed(c, s) && Enabled(s, l) && i < |Apply(c, s, l).workers| && Carries(Apply(c, s, l).workers[i])
    ensures var s' := Apply(c, s, l); var id := s'.workers[i].id;
            && |s'.workers| == |s.workers| && l != Free(i)
            && if l == Pop(i) then s.queue != [] && id == s.queue[0] else Carries(s.workers[i]) && id == s.workers[i].id
  {
    hide Step, Typed, Possible;
  }

  /** What a step adds to the histories. */
  lemma HistoriesAfter(c: Config, s: State, l: Label)
    requires Typed(c, s) && Enabled(s, l)
    ensures var s' := Apply(c, s, l);
            && s'.popped == s.popped + (if l.Pop? && s.queue != [] then [s.queue[0]] else [])
            && (forall id | id in s'.served :: id in s.served || (l.Free? && id == s.workers[l.i].id))
  {
    hide Step, Typed, Possible;
    assert s.popped + [] == s.popped;
  }

  lemma UnsharedStep(c: Config, s: State, l: Label, connections: seq<Bytes>)
    requires Typed(c, s) && Enabled(s, l) && Exclusive(s) && Fifo(s, connections) && Owned(s)
    ensures Unshared(Apply(c, s, l))
  {
    HistoriesAfter(c, s, l);
    assert l.Free? ==> l.i < |s.workers| && Carries(s.workers[l.i]);
    if s.queue != [] {
      NextPopped(s, connections);
    }
    hide Apply, Enabled, Typed, Fifo, Exclusive, CarriedByWorker;
    forall i | 0 <= i < |Apply(c, s, l).workers| && Carries(Apply(c, s, l).workers[i])
      ensures var s' := Apply(c, s, l); var id := s'.workers[i].id;
              && |s'.workers| == |s.workers| && id < |s'.popped| && id !in s'.served
              && if l == Pop(i) then id == |s.popped| else Carries(s.workers[i]) && id == s.workers[i].id
    {
      CarrierWas(c, s, l, i);
    }
  }

  lemma OwnedStep(c: Config, s: State, l: Label, connections: seq<Bytes>)
    requires Typed(c, s) && Enabled(s, l) && Exclusive(s) && Fifo(s, connections) && Owned(s)
    ensures Owned(Apply(c, s, l))
  {
    hide Step, CarriedByWorker;
    UnsharedStep(c, s, l, connections);
    forall id: nat | id < |Apply(c, s, l).popped| && id !in Apply(c, s, l).served
      ensures CarriedByWorker(Apply(c, s, l), id)
    {
      CarriedStep(c, s, l, connections, id);
    }
    hide Unshared;
  }

  // ---- Each request is served as the single-threaded handler serves it

  /** The transfer is where the handler alone comes to, from the descriptors as
      opened, when the system gives it the same answers. */
  ghost predicate AsAlone(c: Config, path: Bytes, t: Transfer)
    requires OpenIn(c.items, c.files)
  {
    var r := Alone(c.items, path, c.files, t.io);
    r.Some? && r.value.1 == t
  }

  ghost predicate ServedAlone(c: Config, s: State)
    requires OpenIn(c.items, c.files)
  {
    && (forall i | 0 <= i < |s.workers| && s.workers[i].Serving? ::
          AsAlone(c, PathOf(s, s.workers[i].id), s.workers[i].t))
    && (forall id | id in s.served :: AsAlone(c, PathOf(s, id), s.served[id]) && s.served[id].phase.Done?)
  }

  /** Other threads move the offsets of shared descriptors between any two calls
      of a transfer; the transfer still does what it would do alone. */
  lemma ServeAsAlone(c: Config, fds: Descriptors, path: Bytes, t: Transfer, e: Event)
    requires OpenIn(c.items, c.files) && SameFiles(fds, c.files) && OpenIn(c.items, fds)
    requires PhaseOk(fds, t.phase) && Possible(t.phase, e)
    requires AsAlone(c, path, t)
    ensures AsAlone(c, path, Step(c.items, path, fds, t, e).1)
  {
    hide Step;
    var (now, _) := Alone(c.items, path, c.files, t.io).value;
    StepIgnoresOffsets(c.items, path, fds, now, t, e);
    assert (t.io + [e])[..|t.io|] == t.io;
  }

  lemma PathStays(c: Config, s: State, l: Label, id: nat)
    requires Typed(c, s) && Enabled(s, l) && id < |s.paths| == |s.blocks|
    ensures PathOf(Apply(c, s, l), id) == PathOf(s, id)
  {
    hide Step;
  }

  /** Whoever serves after a step has just begun, has made a call, or was where it is. */
  lemma ServerWas(c: Config, s: State, l: Label, i: nat)
    requires Typed(c, s) && Enabled(s, l) && i < |Apply(c, s, l).workers| && Apply(c, s, l).workers[i].Serving?
    ensures var s' := Apply(c, s, l);
            && |s'.workers| == |s.workers| && Carries(s.workers[i]) && s'.workers[i].id == s.workers[i].id
            && s'.workers[i].t == if l == Unlock(i) then START
                                  else if l.Serve? && l.i == i then
                                    Step(c.items, PathOf(s, s.workers[i].id), s.fds, s.workers[i].t, l.e).1
                                  else s.workers[i].t
    ensures l != Unlock(i) ==> s.workers[i].Serving?
  {
    hide Step;
  }

  lemma ServeStepAsAlone(c: Config, s: State, i: nat, e: Event)
    requires Typed(c, s) && Enabled(s, Serve(i, e))
    requires AsAlone(c, PathOf(s, s.workers[i].id), s.workers[i].t)
    ensures var Serving(id, t) := s.workers[i]; var path := PathOf(s, id);
            Possible(t.phase, e) && OpenIn(c.items, s.fds) && PhaseOk(s.fds, t.phase)
            && AsAlone(c, path, Step(c.items, path, s.fds, t, e).1)
  {
    hide Step, AsAlone, PathOf;
    var Serving(id, t) := s.workers[i];
    ServeAsAlone(c, s.fds, PathOf(s, id), t, e);
  }

  lemma WorkersServeAlone(c: Config, s: State, l: Label, connections: seq<Bytes>, i: nat)
    requires Typed(c, s) && Enabled(s, l) && Fifo(s, connections) && Owned(s) && ServedAlone(c, s)
    requires i < |Apply(c, s, l).workers| && Apply(c, s, l).workers[i].Serving?
    ensures var s' := Apply(c, s, l); AsAlone(c, PathOf(s', s'.workers[i].id), s'.workers[i].t)
  {
    ServerWas(c, s, l, i);
    var id := s.workers[i].id;
    assert id < |s.popped| <= |s.paths| == |s.blocks|;
    assert s.workers[i].Serving? ==> AsAlone(c, PathOf(s, id), s.workers[i].t);
    hide Step, AsAlone, Apply, Possible, PathOf, Typed, Enabled, Owned, Fifo, ServedAlone;
    PathStays(c, s, l, id);
    StartAsAlone(c, PathOf(s, id));
    if l.Serve? && l.i == i {
      ServeStepAsAlone(c, s, i, l.e);
    }
  }

  lemma ServedAloneStep(c: Config, s: State, l: Label, connections: seq<Bytes>)
    requires Typed(c, s) && Enabled(s, l) && Fifo(s, connections) && Owned(s) && ServedAlone(c, s)
    ensures ServedAlone(c, Apply(c, s, l))
  {
    hide Step, AsAlone, CarriedByWorker;
    var s' := Apply(c, s, l);
    forall i | 0 <= i < |s'.workers| && s'.workers[i].Serving?
      ensures AsAlone(c, PathOf(s', s'.workers[i].id), s'.workers[i].t)
    {
      WorkersServeAlone(c, s, l, connections, i);
    }
    forall id | id in s'.served
      ensures AsAlone(c, PathOf(s', id), s'.served[id]) && s'.served[id].phase.Done?
    {
      PathStays(c, s, l, id);
    }
  }

  lemma StartAsAlone(c: Config, path: Bytes)
    requires OpenIn(c.items, c.files)
    ensures AsAlone(c, path, START)
  {
  }

  // ---- Every run

  ghost predicate Inv(c: Config, s: State, connections: seq<Bytes>) {
    Typed(c, s) && Exclusive(s) && NoLostWakeup(s) && Fifo(s, connections) && Owned(s) && ServedAlone(c, s)
  }

  ghost predicate Reachable(c: Config, n: nat, connections: seq<Bytes>, ls: seq<Label>, s: State) {
    OpenIn(c.items, c.files) && Run(c, n, connections, ls) == Some(s)
  }

  lemma InvInit(c: Config, n: nat, connections: seq<Bytes>)
    requires OpenIn(c.items, c.files)
    ensures Inv(c, Init(c, n, connections), connections)
  {
  }

  /** The invariant holds after every schedule. */
  lemma {:induction false} InvAlways(c: Config, n: nat, connections: seq<Bytes>, ls: seq<Label>, s: State)
    requires Reachable(c, n, connections, ls, s)
    ensures Inv(c, s, connections) && |s.workers| == n
    decreases |ls|
  {
    if ls == [] {
      InvInit(c, n, connections);
    } else {
      var l := ls[|ls| - 1];
      var r := Run(c, n, connections, ls[..|ls| - 1]).value;
      InvAlways(c, n, connections, ls[..|ls| - 1], r);
      InvStep(c, r, l, connections);
    }
  }

  /** The descriptors are shared: looking a path up sends the offset of its file
      back to the start for all threads, measuring the file sends it to the end,
      and no other step of any thread moves an offset; pread does not. */
  lemma OffsetsMove(c: Config, s: State, l: Label, k: nat)
    requires Typed(c, s) && Enabled(s, l) && k < |s.fds|
    ensures |Apply(c, s, l).fds| == |s.fds|
    ensures Apply(c, s, l).fds[k].offset
         == if !l.Serve? then s.fds[k].offset
            else
              var Serving(id, t) := s.workers[l.i];
              if t.phase.Find? && Lookup(c.items, PathOf(s, id)) == k then 0
              else if t.phase == Measure(k) then |s.fds[k].data|
              else s.fds[k].offset
  {
    hide PathOf, Lookup;
  }

  /** Every step of every thread keeps the invariant. */
  lemma InvStep(c: Config, s: State, l: Label, connections: seq<Bytes>)
    requires Inv(c, s, connections) && Enabled(s, l)
    ensures Inv(c, Apply(c, s, l), connections) && |Apply(c, s, l).workers| == |s.workers|
  {
    ApplyTyped(c, s, l);
    ExclusiveStep(c, s, l);
    NoLostWakeupStep(c, s, l);
    FifoStep(c, s, l, connections);
    OwnedStep(c, s, l, connections);
    ServedAloneStep(c, s, l, connections);
    hide Apply;
    WorkersStay(c, s, l);
  }

  lemma WorkersStay(c: Config, s: State, l: Label)
    requires Typed(c, s) && Enabled(s, l)
    ensures |Apply(c, s, l).workers| == |s.workers|
  {
    hide Step;
  }

  /** Mutual exclusion, and no pop of an empty queue, in every reachable state. */
  lemma MutualExclusion(c: Config, n: nat, connections: seq<Bytes>, ls: seq<Label>, s: State)
    requires Reachable(c, n, connections, ls, s)
    ensures !s.underflow && |s.workers| == n
    ensures forall i, j | 0 <= i < j < n && Inside(s.workers[i]) :: !Inside(s.workers[j])
    ensures forall i | 0 <= i < n && Inside(s.workers[i]) :: !BossInside(s.boss)
    ensures forall i | 0 <= i < n && s.workers[i].Popping? :: s.queue != []
  {
    InvAlways(c, n, connections, ls, s);
  }

  /** No wake-up is lost, although the boss signals only after it has unlocked:
      while any worker sleeps, there are awake workers without a request, or
      signals still to be sent, for everything in the queue. */
  lemma NoWakeupIsLost(c: Config, n: nat, connections: seq<Bytes>, ls: seq<Label>, s: State)
    requires Reachable(c, n, connections, ls, s)
    ensures (exists i | 0 <= i < |s.workers| :: s.workers[i].Waiting?)
            ==> |s.queue| <= Count(s.workers) + Unsignalled(s.boss)
  {
    InvAlways(c, n, connections, ls, s);
  }

  /** First in, first out, exactly once: what was popped, followed by the queue,
      is what was enqueued, and that is the requests in the order of arrival. */
  lemma FirstInFirstOut(c: Config, n: nat, connections: seq<Bytes>, ls: seq<Label>, s: State)
    requires Reachable(c, n, connections, ls, s)
    ensures s.popped + s.queue == s.enqueued == seq(|s.enqueued|, k => k)
    ensures s.paths <= connections && |s.paths| - 1 <= |s.enqueued| <= |s.paths|
  {
    InvAlways(c, n, connections, ls, s);
  }

  function Indicator(b: bool): nat {
    if b then 1 else 0
  }

  /** Every request accepted has exactly one owner: the boss, a place in the
      queue, a worker, or the record of served requests; it is on the heap until
      it is served, and whatever a thread still refers to is on the heap. */
  lemma ExactlyOneOwner(c: Config, n: nat, connections: seq<Bytes>, ls: seq<Label>, s: State, id: nat)
    requires Reachable(c, n, connections, ls, s) && id < |s.paths|
    ensures id < |connections| && s.paths[id] == connections[id]
    ensures id in s.heap <==> id !in s.served
    ensures Indicator(BossCarries(s.boss) && s.boss.id == id) + Indicator(id in s.queue)
          + Indicator(CarriedByWorker(s, id)) + Indicator(id in s.served) == 1
    ensures |s.workers| == n
    ensures forall i, j | 0 <= i < j < n && Carries(s.workers[i]) && Carries(s.workers[j]) ::
              s.workers[i].id != s.workers[j].id
    ensures forall k, m | 0 <= k < m < |s.queue| :: s.queue[k] < s.queue[m]
  {
    InvAlways(c, n, connections, ls, s);
    QueueIs(s, connections);
    if id < |s.popped| {
    } else if id < |s.enqueued| {
      assert s.queue[id - |s.popped|] == id;
    }
  }

  /** A request a thread refers to is on the heap: each is freed once, and not
      used afterwards. */
  lemma LiveWhenUsed(c: Config, n: nat, connections: seq<Bytes>, ls: seq<Label>, s: State)
    requires Reachable(c, n, connections, ls, s)
    ensures BossCarries(s.boss) ==> s.boss.id in s.heap
    ensures forall k | 0 <= k < |s.queue| :: s.queue[k] in s.heap
    ensures forall i | 0 <= i < |s.workers| && Carries(s.workers[i]) :: s.workers[i].id in s.heap
    ensures forall i: nat | Enabled(s, Free(i)) :: s.workers[i].id !in Apply(c, s, Free(i)).heap
  {
    InvAlways(c, n, connections, ls, s);
    QueueIs(s, connections);
    hide Step, Run, NoLostWakeup, ServedAlone, Exclusive;
  }

  lemma QueueIs(s: State, connections: seq<Bytes>)
    requires Fifo(s, connections)
    ensures forall k | 0 <= k < |s.queue| :: s.queue[k] == |s.popped| + k < |s.enqueued|
  {
    assert forall k | 0 <= k < |s.queue| :: s.enqueued[|s.popped| + k] == s.queue[k];
  }

  /** What lay in the memory of each request behind its path, as the schedule has it. */
  function BlocksOf(ls: seq<Label>): seq<Bytes> {
    if ls == [] then []
    else BlocksOf(ls[..|ls| - 1]) + (if ls[|ls| - 1].Arrive? then [ls[|ls| - 1].block] else [])
  }

  lemma {:induction false} BlocksAre(c: Config, n: nat, connections: seq<Bytes>, ls: seq<Label>, s: State)
    requires Reachable(c, n, connections, ls, s)
    ensures s.blocks == BlocksOf(ls)
    decreases |ls|
  {
    if ls != [] {
      var before := ls[..|ls| - 1];
      var r := Run(c, n, connections, before).value;
      BlocksAre(c, n, connections, before, r);
      BlocksStep(c, r, ls[|ls| - 1]);
    }
  }

  lemma BlocksStep(c: Config, s: State, l: Label)
    requires Typed(c, s) && Enabled(s, l)
    ensures Apply(c, s, l).blocks == s.blocks + (if l.Arrive? then [l.block] else [])
  {
    hide Step, Possible, Typed;
  }

  /** Threaded refines sequential: in every interleaving, a served request was
      answered with exactly the bytes, the return value and the connection state
      that the single-threaded handler comes to when it is run by itself on the
      path the worker reads and given the same answers by the system. */
  lemma ThreadedRefinesSequential(c: Config, n: nat, connections: seq<Bytes>, ls: seq<Label>, s: State, id: nat)
    requires Reachable(c, n, connections, ls, s) && id in s.served
    ensures id < |connections| && id < |BlocksOf(ls)|
    ensures var t := s.served[id]; var path := Copied(connections[id], BlocksOf(ls)[id]);
            && Alone(c.items, path, c.files, t.io).Some?
            && Alone(c.items, path, c.files, t.io).value.1 == t
            && t.phase.Done?
            && Finished(FileOf(c.items, c.files, path), t, t.phase.ret)
  {
    InvAlways(c, n, connections, ls, s);
    BlocksAre(c, n, connections, ls, s);
    AloneStaysOnTrack(c.items, PathOf(s, id), c.files, s.served[id].io);
  }
}
