/**
 The server gets its work done: a weight that every step lowers, except a
 spurious wake-up, and the one kind of state in which nothing can move.
 */
module Liveness {
  import opened Wrappers
  import opened CString
  import opened Files
  import opened Content
  import opened Transfers
  import opened BossWorker

  function Sum(ns: seq<nat>): nat {
    if ns == [] then 0 else ns[0] + Sum(ns[1..])
  }

  lemma {:induction false} SumUpdate(ns: seq<nat>, i: nat, v: nat)
    requires i < |ns|
    ensures Sum(ns[i := v]) == Sum(ns) - ns[i] + v
  {
    if i == 0 {
      assert ns[0 := v][1..] == ns[1..];
    } else {
      SumUpdate(ns[1..], i - 1, v);
      assert ns[i := v][1..] == ns[1..][i - 1 := v];
    }
  }

  lemma {:induction false} SumSnoc(ns: seq<nat>, v: nat)
    ensures Sum(ns + [v]) == Sum(ns) + v
  {
    if ns == [] {
      assert [v][1..] == [];
    } else {
      SumSnoc(ns[1..], v);
      assert (ns + [v])[1..] == ns[1..] + [v];
    }
  }

  // ---- Weights

  /** The most steps one request can still cause after it is enqueued. */
  function RequestWeight(c: Config, path: Bytes): nat
    requires OpenIn(c.items, c.files)
  {
    9 + 2 * LengthOf(c.items, c.files, path)
  }

  function WorkerWeight(c: Config, s: State, w: WorkerPc): nat
    requires OpenIn(c.items, c.files)
  {
    match w
    case Waiting => 0
    case ToWait | Popping => 1
    case Testing => 2
    case ToLock | Relocking => 3
    case ToUnlock(id) => RequestWeight(c, PathOf(s, id))
    case Serving(id, t) => 4 + Remaining(t.phase, LengthOf(c.items, c.files, PathOf(s, id)))
  }

  function BossWeight(c: Config, s: State): nat
    requires OpenIn(c.items, c.files)
  {
    match s.boss
    case Idle => 0
    case Signalling => 4
    case Unlocking => 5
    case Enqueuing(id) => 6 + RequestWeight(c, PathOf(s, id))
    case Locking(id) => 7 + RequestWeight(c, PathOf(s, id))
  }

  function WorkerWeights(c: Config, s: State): (ns: seq<nat>)
    requires OpenIn(c.items, c.files)
    ensures |ns| == |s.workers|
  {
    seq(|s.workers|, i requires 0 <= i < |s.workers| => WorkerWeight(c, s, s.workers[i]))
  }

  function QueueWeights(c: Config, s: State): (ns: seq<nat>)
    requires OpenIn(c.items, c.files)
    ensures |ns| == |s.queue|
  {
    seq(|s.queue|, k requires 0 <= k < |s.queue| => RequestWeight(c, PathOf(s, s.queue[k])))
  }

  /** The length of the longest file. */
  function Longest(fds: Descriptors): (n: nat)
    ensures forall i | 0 <= i < |fds| :: |fds[i].data| <= n
  {
    if fds == [] then 0
    else
      var rest := Longest(fds[1..]);
      if |fds[0].data| > rest then |fds[0].data| else rest
  }

  /** Which file a request will be for is open until its path is copied. */
  function IncomingWeights(c: Config, s: State): (ns: seq<nat>)
    requires OpenIn(c.items, c.files)
    ensures |ns| == |s.incoming|
  {
    seq(|s.incoming|, _ => 8 + 9 + 2 * Longest(c.files))
  }

  /** The most steps the server can still take, spurious wake-ups apart. */
  function Weight(c: Config, s: State): nat
    requires OpenIn(c.items, c.files)
  {
    Sum(WorkerWeights(c, s)) + Sum(QueueWeights(c, s)) + Sum(IncomingWeights(c, s)) + BossWeight(c, s)
  }

  lemma SameWorkerWeight(c: Config, s: State, s': State, w: WorkerPc)
    requires OpenIn(c.items, c.files) && s'.paths == s.paths && s'.blocks == s.blocks
    ensures WorkerWeight(c, s', w) == WorkerWeight(c, s, w)
  {
  }

  /** Steps that leave the paths alone change the weight of one worker at most. */
  lemma WeightsOfWorkers(c: Config, s: State, s': State, i: nat)
    requires OpenIn(c.items, c.files)
    requires i < |s.workers| && |s'.workers| == |s.workers| && s'.paths == s.paths && s'.blocks == s.blocks
    requires s'.workers == s.workers[i := s'.workers[i]]
    ensures Sum(WorkerWeights(c, s')) == Sum(WorkerWeights(c, s))
                                         - WorkerWeight(c, s, s.workers[i]) + WorkerWeight(c, s, s'.workers[i])
  {
    var ns := WorkerWeights(c, s)[i := WorkerWeight(c, s, s'.workers[i])];
    hide WorkerWeight, Sum;
    SumUpdate(WorkerWeights(c, s), i, WorkerWeight(c, s, s'.workers[i]));
    forall k | 0 <= k < |s.workers|
      ensures WorkerWeights(c, s')[k] == ns[k]
    {
      SameWorkerWeight(c, s, s', s'.workers[k]);
    }
    assert WorkerWeights(c, s') == ns;
  }

  lemma SameWeights(c: Config, s: State, s': State)
    requires OpenIn(c.items, c.files) && s'.paths == s.paths && s'.blocks == s.blocks
    ensures s'.workers == s.workers ==> WorkerWeights(c, s') == WorkerWeights(c, s)
    ensures s'.queue == s.queue ==> QueueWeights(c, s') == QueueWeights(c, s)
    ensures s'.incoming == s.incoming ==> IncomingWeights(c, s') == IncomingWeights(c, s)
  {
  }

  /** A transfer being served is where the handler alone would be, on the files as they are now. */
  lemma ServingOnTrack(c: Config, s: State, i: nat, connections: seq<Bytes>)
    requires Inv(c, s, connections) && i < |s.workers| && s.workers[i].Serving?
    ensures var Serving(id, t) := s.workers[i]; var path := PathOf(s, id);
            && OpenIn(c.items, s.fds) && PhaseOk(s.fds, t.phase) && OnTrack(c.items, s.fds, path, t)
            && LengthOf(c.items, s.fds, path) == LengthOf(c.items, c.files, path)
  {
    hide Alone, OnTrack, Exclusive, NoLostWakeup, Fifo, Owned;
    var Serving(id, t) := s.workers[i];
    var path := PathOf(s, id);
    AloneStaysOnTrack(c.items, path, c.files, t.io);
    OnTrackIgnoresOffsets(c.items, path, c.files, s.fds, t);
  }

  lemma ServeLowers(c: Config, s: State, i: nat, e: Event, connections: seq<Bytes>)
    requires Inv(c, s, connections) && Enabled(s, Serve(i, e))
    ensures var s' := Apply(c, s, Serve(i, e));
            WorkerWeight(c, s, s'.workers[i]) < WorkerWeight(c, s, s.workers[i])
  {
    ServingOnTrack(c, s, i, connections);
    var Serving(id, t) := s.workers[i];
    hide Step, OnTrack, LengthOf, Remaining, Possible, Exclusive, NoLostWakeup, Fifo, Owned, ServedAlone;
    StepProgresses(c.items, PathOf(s, id), s.fds, t, e);
  }

  lemma ServeWeight(c: Config, s: State, i: nat, e: Event, connections: seq<Bytes>)
    requires Inv(c, s, connections) && Enabled(s, Serve(i, e))
    ensures Weight(c, Apply(c, s, Serve(i, e))) < Weight(c, s)
  {
    ServeLowers(c, s, i, e, connections);
    hide Step, Sum, WorkerWeight, Possible, QueueWeights, IncomingWeights, WorkerWeights;
    var s' := Apply(c, s, Serve(i, e));
    WeightsOfWorkers(c, s, s', i);
    SameWeights(c, s, s');
  }

  lemma WorkerStepWeight(c: Config, s: State, l: Label)
    requires Typed(c, s) && Enabled(s, l)
    requires l.Lock? || l.Test? || l.Wait? || l.Wake? || l.Relock? || l.Unlock? || l.Free?
    ensures Weight(c, Apply(c, s, l)) <= Weight(c, s) - 1 + (if l.Wake? then 4 else 0)
  {
    hide Step, Sum, LengthOf, Possible, QueueWeights, IncomingWeights, WorkerWeights;
    var s' := Apply(c, s, l);
    WeightsOfWorkers(c, s, s', l.i);
    SameWeights(c, s, s');
  }

  lemma PopWeight(c: Config, s: State, i: nat, connections: seq<Bytes>)
    requires Inv(c, s, connections) && Enabled(s, Pop(i))
    ensures Weight(c, Apply(c, s, Pop(i))) < Weight(c, s)
  {
    hide Step, Possible, LengthOf, NoLostWakeup, Owned, ServedAlone;
    var s' := Apply(c, s, Pop(i));
    WeightsOfWorkers(c, s, s', i);
    SameWeights(c, s, s');
    assert QueueWeights(c, s') == QueueWeights(c, s)[1..];
  }

  lemma BossStepWeight(c: Config, s: State, l: Label, connections: seq<Bytes>)
    requires Inv(c, s, connections) && Enabled(s, l)
    requires l.BossLock? || l.Enqueue? || l.BossUnlock? || l.Signal?
    ensures Weight(c, Apply(c, s, l)) < Weight(c, s)
  {
    hide Step, Sum, Possible, IncomingWeights, WorkerWeights;
    var s' := Apply(c, s, l);
    SameWeights(c, s, s');
    if l.Enqueue? {
      var w := RequestWeight(c, PathOf(s, s.boss.id));
      SumSnoc(QueueWeights(c, s), w);
      assert QueueWeights(c, s') == QueueWeights(c, s) + [w];
    } else if l.Signal? && l.woken.Some? {
      WeightsOfWorkers(c, s, s', l.woken.value);
    }
  }

  lemma NoLongerThanLongest(c: Config, path: Bytes)
    requires OpenIn(c.items, c.files)
    ensures LengthOf(c.items, c.files, path) <= Longest(c.files)
  {
  }

  /** The weights of the requests accepted before stay. */
  lemma OldWeights(c: Config, s: State, block: Bytes, connections: seq<Bytes>)
    requires Inv(c, s, connections) && Enabled(s, Arrive(block))
    ensures var s' := Apply(c, s, Arrive(block));
            WorkerWeights(c, s') == WorkerWeights(c, s) && QueueWeights(c, s') == QueueWeights(c, s)
  {
    hide Step, Possible, LengthOf, CarriedByWorker, Copied, ServedAlone, NoLostWakeup;
    var s' := Apply(c, s, Arrive(block));
    QueueIs(s, connections);
    assert forall id: nat | id < |s.paths| :: PathOf(s', id) == PathOf(s, id);
  }

  lemma ArriveWeight(c: Config, s: State, block: Bytes, connections: seq<Bytes>)
    requires Inv(c, s, connections) && Enabled(s, Arrive(block))
    ensures Weight(c, Apply(c, s, Arrive(block))) < Weight(c, s)
  {
    OldWeights(c, s, block, connections);
    var s' := Apply(c, s, Arrive(block));
    NoLongerThanLongest(c, PathOf(s', |s.paths|));
    assert IncomingWeights(c, s') == IncomingWeights(c, s)[1..];
    hide Step, LengthOf, Longest, PathOf, Exclusive, NoLostWakeup, Fifo, Owned, ServedAlone, WorkerWeights,
         QueueWeights;
  }

  /** Every step but a spurious wake-up lowers the weight; that one adds 3. */
  lemma StepWeight(c: Config, s: State, l: Label, connections: seq<Bytes>)
    requires Inv(c, s, connections) && Enabled(s, l)
    ensures Weight(c, Apply(c, s, l)) <= Weight(c, s) - 1 + (if l.Wake? then 4 else 0)
  {
    match l
    case Arrive(block) => ArriveWeight(c, s, block, connections);
    case Pop(i) => PopWeight(c, s, i, connections);
    case BossLock | Enqueue | BossUnlock | Signal(_) => BossStepWeight(c, s, l, connections);
    case Serve(i, e) => ServeWeight(c, s, i, e, connections);
    case _ => WorkerStepWeight(c, s, l);
  }

  function Spurious(ls: seq<Label>): nat {
    if ls == [] then 0
    else Spurious(ls[..|ls| - 1]) + (if ls[|ls| - 1].Wake? then 1 else 0)
  }

  /** No run goes on for ever: its length is bounded by the work it was given and
      by the number of times a wait returned without a signal. */
  lemma {:induction false} RunsAreBounded(c: Config, n: nat, connections: seq<Bytes>, ls: seq<Label>, s: State)
    requires Reachable(c, n, connections, ls, s)
    ensures |ls| + Weight(c, s) <= Weight(c, Init(c, n, connections)) + 4 * Spurious(ls)
    decreases |ls|
  {
    if ls != [] {
      var l := ls[|ls| - 1];
      var before := ls[..|ls| - 1];
      var r := Run(c, n, connections, before).value;
      RunsAreBounded(c, n, connections, before, r);
      InvAlways(c, n, connections, before, r);
      StepWeight(c, r, l, connections);
    }
  }

  // ---- Where nothing can move

  /** No step is enabled, spurious wake-ups apart. */
  ghost predicate Stuck(s: State) {
    forall l | Enabled(s, l) :: l.Wake?
  }

  /** Every connection taken, the queue empty, and every worker asleep. */
  ghost predicate AllDone(s: State) {
    s.incoming == [] && s.boss.Idle? && s.queue == []
    && forall i | 0 <= i < |s.workers| :: s.workers[i].Waiting?
  }

  /** A step without a spurious wake-up or an answer that falls short, which
      finds the given bytes behind the path it copies. */
  predicate Smooth(s: State, blocks: seq<Bytes>, l: Label) {
    && !l.Wake?
    && (l.Serve? ==> FullAnswer(l.e))
    && (l.Arrive? ==> |s.paths| < |blocks| && l.block == blocks[|s.paths|])
  }

  ghost predicate CanMove(s: State, blocks: seq<Bytes>) {
    exists l :: Enabled(s, l) && Smooth(s, blocks, l)
  }

  /** A thread that is not waiting can move, or the holder of the mutex can. */
  lemma AwakeCanMove(c: Config, s: State, connections: seq<Bytes>, i: nat, blocks: seq<Bytes>)
    requires Inv(c, s, connections) && i < |s.workers| && !s.workers[i].Waiting?
    ensures CanMove(s, blocks)
  {
    if (s.workers[i].ToLock? || s.workers[i].Relocking?) && s.mutex != Nobody {
      HolderCanMove(c, s, connections, blocks);
    } else {
      var l := WorkerLabel(c, s, connections, i);
      assert Enabled(s, l) && Smooth(s, blocks, l);
    }
  }

  lemma HolderCanMove(c: Config, s: State, connections: seq<Bytes>, blocks: seq<Bytes>)
    requires Inv(c, s, connections) && s.mutex != Nobody
    ensures CanMove(s, blocks)
  {
    if s.mutex == Boss {
      var l := BossLabel(s, []);
      assert Enabled(s, l) && Smooth(s, blocks, l);
    } else {
      assert Inside(s.workers[s.mutex.i]);
      var l := WorkerLabel(c, s, connections, s.mutex.i);
      assert Enabled(s, l) && Smooth(s, blocks, l);
    }
  }

  lemma BossCanMove(c: Config, s: State, connections: seq<Bytes>, blocks: seq<Bytes>)
    requires Inv(c, s, connections) && (s.boss.Idle? ==> s.incoming != []) && |blocks| == |connections|
    ensures CanMove(s, blocks)
  {
    if s.boss.Locking? && s.mutex != Nobody {
      HolderCanMove(c, s, connections, blocks);
    } else {
      assert s.boss.Idle? ==> |s.paths| + |s.incoming| == |connections|;
      var l := BossLabel(s, if s.boss.Idle? then blocks[|s.paths|] else []);
      assert Enabled(s, l) && Smooth(s, blocks, l);
    }
  }

  /** Whichever worker a step is of. */
  predicate Moves(l: Label, i: nat) {
    !OfBoss(l) && l.i == i
  }

  /** Nothing but the mutex holds a worker up (a waiter may wake at any time), and
      nothing but the mutex the boss while there are connections; a signal may
      wake any waiter, and every answer of the system is possible. */
  lemma OnlyTheMutexBlocks(c: Config, s: State, connections: seq<Bytes>, i: nat)
    requires Inv(c, s, connections) && i < |s.workers|
    ensures (exists l | Moves(l, i) :: Enabled(s, l))
            <==> !((s.workers[i].ToLock? || s.workers[i].Relocking?) && s.mutex != Nobody)
    ensures (exists l | OfBoss(l) :: Enabled(s, l))
            <==> !(s.boss.Locking? && s.mutex != Nobody) && (s.boss.Idle? ==> s.incoming != [])
    ensures s.boss.Idle? && s.incoming != [] ==> forall block :: Enabled(s, Arrive(block))
    ensures s.boss.Signalling? && s.workers[i].Waiting? ==> Enabled(s, Signal(Some(i)))
    ensures s.workers[i].Waiting? ==> Enabled(s, Wake(i))
    ensures s.workers[i].Serving? ==> forall e | Possible(s.workers[i].t.phase, e) :: Enabled(s, Serve(i, e))
  {
    if !((s.workers[i].ToLock? || s.workers[i].Relocking?) && s.mutex != Nobody) {
      var l := WorkerLabel(c, s, connections, i);
      assert Moves(l, i) && Enabled(s, l);
    }
    if !(s.boss.Locking? && s.mutex != Nobody) && (s.boss.Idle? ==> s.incoming != []) {
      var l := BossLabel(s, []);
      assert OfBoss(l) && Enabled(s, l);
    }
  }

  lemma WorkerLabel(c: Config, s: State, connections: seq<Bytes>, i: nat) returns (l: Label)
    requires Inv(c, s, connections) && i < |s.workers|
    requires !((s.workers[i].ToLock? || s.workers[i].Relocking?) && s.mutex != Nobody)
    ensures Moves(l, i) && Enabled(s, l) && (l.Wake? <==> s.workers[i].Waiting?)
    ensures l.Serve? ==> FullAnswer(l.e)
  {
    match s.workers[i]
    case ToLock => l := Lock(i);
    case Relocking => l := Relock(i);
    case Testing => l := Test(i);
    case ToWait => l := Wait(i);
    case Waiting => l := Wake(i);
    case Popping => l := Pop(i);
    case ToUnlock(_) => l := Unlock(i);
    case Serving(_, t) =>
      if t.phase.Done? {
        l := Free(i);
      } else {
        var e := FullAnswerIsPossible(c.files, t.phase);
        l := Serve(i, e);
      }
  }

  lemma BossLabel(s: State, block: Bytes) returns (l: Label)
    requires !(s.boss.Locking? && s.mutex != Nobody) && (s.boss.Idle? ==> s.incoming != [])
    ensures OfBoss(l) && Enabled(s, l) && (l.Arrive? <==> s.boss.Idle?) && (l.Arrive? ==> l.block == block)
  {
    match s.boss
    case Idle => l := Arrive(block);
    case Locking(_) => l := BossLock;
    case Enqueuing(_) => l := Enqueue;
    case Unlocking => l := BossUnlock;
    case Signalling =>
      if i :| 0 <= i < |s.workers| && s.workers[i].Waiting? {
        l := Signal(Some(i));
      } else {
        l := Signal(None);
      }
  }

  lemma {:induction false} NobodyAwake(ws: seq<WorkerPc>)
    requires forall i | 0 <= i < |ws| :: ws[i].Waiting?
    ensures Count(ws) == 0
  {
    if ws != [] {
      NobodyAwake(ws[1..]);
    }
  }

  /** While the work is not done, the server can go on, and go on well. */
  lemma NotDoneCanMove(c: Config, s: State, connections: seq<Bytes>, blocks: seq<Bytes>)
    requires Inv(c, s, connections) && |s.workers| >= 1 && |blocks| == |connections|
    ensures AllDone(s) || CanMove(s, blocks)
  {
    if i :| 0 <= i < |s.workers| && !s.workers[i].Waiting? {
      AwakeCanMove(c, s, connections, i, blocks);
    } else if !s.boss.Idle? || s.incoming != [] {
      BossCanMove(c, s, connections, blocks);
    } else {
      NobodyAwake(s.workers);
      assert s.workers[0].Waiting?;
    }
  }

  /** No deadlock: with at least one worker, the reachable states in which
      nothing can move are exactly those where the work is done. */
  lemma StuckOnlyWhenDone(c: Config, n: nat, connections: seq<Bytes>, ls: seq<Label>, s: State)
    requires Reachable(c, n, connections, ls, s) && n >= 1
    ensures Stuck(s) <==> AllDone(s)
  {
    InvAlways(c, n, connections, ls, s);
    NotDoneCanMove(c, s, connections, connections);
  }

  /** A run that cannot go on has served every connection, in full or with the
      outcome the handler alone would have come to, and freed every request. */
  lemma MaximalRunsServeEverything(c: Config, n: nat, connections: seq<Bytes>, ls: seq<Label>, s: State)
    requires Reachable(c, n, connections, ls, s) && n >= 1 && Stuck(s)
    ensures forall id: nat :: id in s.served <==> id < |connections|
    ensures s.heap == {}
    ensures s.enqueued == s.popped == seq(|connections|, k => k)
    ensures |BlocksOf(ls)| == |connections|
    ensures forall id: nat | id < |connections| ::
              && s.served[id].phase.Done?
              && Finished(FileOf(c.items, c.files, Copied(connections[id], BlocksOf(ls)[id])),
                   s.served[id], s.served[id].phase.ret)
  {
    InvAlways(c, n, connections, ls, s);
    StuckOnlyWhenDone(c, n, connections, ls, s);
    BlocksAre(c, n, connections, ls, s);
    assert s.paths + [] == s.paths;
    forall id: nat | id < |connections|
      ensures id in s.served
    {
      assert id in s.served || CarriedByWorker(s, id);
    }
    forall id: nat | id < |connections|
      ensures s.served[id].phase.Done?
      ensures Finished(FileOf(c.items, c.files, Copied(connections[id], BlocksOf(ls)[id])),
                s.served[id], s.served[id].phase.ret)
    {
      ThreadedRefinesSequential(c, n, connections, ls, s, id);
    }
    assert s.popped == s.enqueued;
  }

  // ---- Runs in which all goes well

  /** No answer to any transfer has fallen short. */
  ghost predicate AllWell(s: State) {
    && (forall i | 0 <= i < |s.workers| && s.workers[i].Serving? :: FaultFree(s.workers[i].t.io))
    && (forall id | id in s.served :: FaultFree(s.served[id].io))
  }

  lemma SmoothStaysWell(c: Config, s: State, l: Label, blocks: seq<Bytes>)
    requires Typed(c, s) && Enabled(s, l) && Smooth(s, blocks, l) && AllWell(s)
    ensures AllWell(Apply(c, s, l))
  {
    hide Step, FaultFree, Possible, FullAnswer;
    if l.Serve? {
      FaultFreeSnoc(s.workers[l.i].t.io, l.e);
    }
    StartIsFaultFree();
  }

  lemma StartIsFaultFree()
    ensures FaultFree(START.io)
  {
  }

  lemma RunOn(c: Config, n: nat, connections: seq<Bytes>, ls: seq<Label>, s: State, l: Label)
    requires Reachable(c, n, connections, ls, s) && Enabled(s, l)
    ensures Typed(c, s) && Reachable(c, n, connections, ls + [l], Apply(c, s, l))
  {
    hide Apply, Enabled;
    assert (ls + [l])[..|ls|] == ls;
  }

  /** From every reachable state the server can go on to serve everything, with
      anything behind the paths still to be copied, and without a further fault. */
  lemma {:induction false} CanFinish(
      c: Config, n: nat, connections: seq<Bytes>, ls: seq<Label>, s: State, blocks: seq<Bytes>)
      returns (ls': seq<Label>, s': State)
    requires Reachable(c, n, connections, ls, s) && n >= 1
    requires |blocks| == |connections| && s.blocks <= blocks && AllWell(s)
    ensures Reachable(c, n, connections, ls', s') && AllDone(s')
    ensures ls <= ls' && s'.blocks <= blocks && AllWell(s')
    decreases Weight(c, s)
  {
    ls', s' := ls, s;
    InvAlways(c, n, connections, ls, s);
    NotDoneCanMove(c, s, connections, blocks);
    if !AllDone(s) {
      hide Apply, Inv, Reachable, AllWell, Weight;
      var l :| Enabled(s, l) && Smooth(s, blocks, l);
      StepWeight(c, s, l, connections);
      BlocksGrow(c, s, l, connections, blocks);
      SmoothStaysWell(c, s, l, blocks);
      RunOn(c, n, connections, ls, s, l);
      ls', s' := CanFinish(c, n, connections, ls + [l], Apply(c, s, l), blocks);
    }
  }

  lemma BlocksGrow(c: Config, s: State, l: Label, connections: seq<Bytes>, blocks: seq<Bytes>)
    requires Inv(c, s, connections) && Enabled(s, l) && Smooth(s, blocks, l) && s.blocks <= blocks
    ensures Typed(c, s) && Apply(c, s, l).blocks <= blocks
  {
    BlocksStep(c, s, l);
  }

  /** For any connections, and any bytes behind the copies of their paths, there
      is a run that serves all of them, and in which no call falls short. */
  lemma AllCanBeServed(c: Config, n: nat, connections: seq<Bytes>, blocks: seq<Bytes>)
      returns (ls: seq<Label>, s: State)
    requires OpenIn(c.items, c.files) && n >= 1 && |blocks| == |connections|
    ensures Reachable(c, n, connections, ls, s) && Stuck(s) && BlocksOf(ls) == blocks
    ensures forall id: nat | id < |connections| :: id in s.served && FaultFree(s.served[id].io)
  {
    var s0 := Init(c, n, connections);
    assert Reachable(c, n, connections, [], s0);
    ls, s := CanFinish(c, n, connections, [], s0, blocks);
    StuckOnlyWhenDone(c, n, connections, ls, s);
    MaximalRunsServeEverything(c, n, connections, ls, s);
    BlocksAre(c, n, connections, ls, s);
  }
}
