/**
 add_item and remove_item on the real queue: the globals of the server, and the
 steps threads take on them. Every step is the step of the same name of the boss
 and worker machine, so the invariants proved there hold of the linked list too,
 on every run.
 */
module ThreadPools {
  import opened Wrappers
  import opened CString
  import opened BossWorker
  import opened Steques
  import Transfers

  class ThreadPool {
    const queue: Steque<nat> // g_queue, holding request numbers
    var mutex: Holder // g_mutex_queue
    var boss: BossPc // the boss, with the request in its hands
    var accepted: nat // requests allocated
    ghost const c: Config
    ghost const connections: seq<Bytes>
    ghost var s: State // the machine state these globals are part of

    ghost predicate Valid()
      reads this, queue, queue.spine
    {
      && queue.Valid() && queue.Contents() == s.queue
      && mutex == s.mutex && boss == s.boss && accepted == |s.paths|
      && Inv(c, s, connections)
    }

    /** worker_threads_init, and the boss about to accept. */
    constructor (ghost c: Config, n: nat, ghost connections: seq<Bytes>)
      requires Typed(c, Init(c, n, connections))
      ensures Valid() && s == Init(c, n, connections) && this.c == c && this.connections == connections
      ensures fresh(queue) && queue.spine == []
    {
      queue := new Steque();
      mutex, boss, accepted := Nobody, Idle, 0;
      this.c, this.connections := c, connections;
      s := Init(c, n, connections);
      new;
      InvInit(c, n, connections);
      hide Inv;
    }

    // add_item and remove_item, where they use the queue

    method AddItemEnqueue()
      requires Valid() && Enabled(s, Enqueue)
      modifies this, queue, queue.spine
      ensures Valid() && s == Apply(c, old(s), Enqueue)
      ensures forall n | n in queue.spine :: n in old(queue.spine) || fresh(n)
    {
      InvStep(c, s, Enqueue, connections);
      hide Inv;
      queue.Enqueue(boss.id);
      boss := Unlocking;
      s := Apply(c, s, Enqueue);
    }

    /** The loop test looks at the count of the list. */
    method RemoveItemTest(i: nat) returns (empty: bool)
      requires Valid() && Enabled(s, Test(i))
      modifies this`s
      ensures Valid() && s == Apply(c, old(s), Test(i))
      ensures s.workers[i] == if empty then ToWait else Popping
    {
      InvStep(c, s, Test(i), connections);
      hide Inv;
      empty := queue.IsEmpty();
      s := Apply(c, s, Test(i));
    }

    /** The pop looks at the front pointer of the list. The test passed, so its
        underflow branch, which would exit the server, is not taken. */
    method RemoveItemPop(i: nat) returns (item: Option<nat>)
      requires Valid() && Enabled(s, Pop(i))
      modifies this`s, queue
      ensures Valid() && s == Apply(c, old(s), Pop(i))
      ensures item.Some? && item.value == old(s).queue[0] == |old(s).popped|
      ensures forall n | n in queue.spine :: n in old(queue.spine)
    {
      NextPopped(s, connections);
      InvStep(c, s, Pop(i), connections);
      hide Inv;
      item := queue.Pop();
      s := Apply(c, s, Pop(i));
    }

    /** Any step of any thread: the three above, and those that use the mutex,
        the boss's local variables, or none of the globals. */
    method Take(l: Label)
      requires Valid() && Enabled(s, l)
      modifies this, queue, queue.spine
      ensures Valid() && s == Apply(c, old(s), l)
      ensures forall n | n in queue.spine :: n in old(queue.spine) || fresh(n)
    {
      assert Typed(c, s);
      hide Inv, Apply, Enabled;
      if l.Enqueue? {
        AddItemEnqueue();
      } else if l.Test? {
        var _ := RemoveItemTest(l.i);
      } else if l.Pop? {
        var _ := RemoveItemPop(l.i);
      } else {
        InvStep(c, s, l, connections);
        ApplyControl(c, s, l);
        var control := Control(mutex, boss, accepted, l);
        mutex, boss, accepted := control.0, control.1, control.2;
        s := Apply(c, s, l);
      }
    }
  }

  /** What a step without the queue makes of the mutex, the boss and the count of requests. */
  function Control(mutex: Holder, boss: BossPc, accepted: nat, l: Label): (Holder, BossPc, nat) {
    match l
    case Arrive(_) => (mutex, Locking(accepted), accepted + 1)
    case BossLock => (Boss, if boss.Locking? then Enqueuing(boss.id) else boss, accepted)
    case BossUnlock => (Nobody, Signalling, accepted)
    case Signal(_) => (mutex, Idle, accepted)
    case Lock(i) => (Worker(i), boss, accepted)
    case Relock(i) => (Worker(i), boss, accepted)
    case Wait(_) => (Nobody, boss, accepted)
    case Unlock(_) => (Nobody, boss, accepted)
    case _ => (mutex, boss, accepted)
  }

  lemma ApplyControl(c: Config, s: State, l: Label)
    requires Typed(c, s) && Enabled(s, l) && !l.Enqueue? && !l.Pop?
    ensures var s' := Apply(c, s, l);
            s'.queue == s.queue && (s'.mutex, s'.boss, |s'.paths|) == Control(s.mutex, s.boss, |s.paths|, l)
  {
    hide Transfers.Step, Transfers.Possible;
  }

  /** What a schedule leads to is led to by its prefixes, step by step. */
  lemma {:induction false} RunPrefix(c: Config, n: nat, connections: seq<Bytes>, ls: seq<Label>, k: nat)
    requires Typed(c, Init(c, n, connections)) && Run(c, n, connections, ls).Some? && k < |ls|
    ensures Run(c, n, connections, ls[..k]).Some?
    ensures Enabled(Run(c, n, connections, ls[..k]).value, ls[k])
    ensures Run(c, n, connections, ls[..k + 1]) == Some(Apply(c, Run(c, n, connections, ls[..k]).value, ls[k]))
    decreases |ls|
  {
    hide Apply, Enabled;
    var before := ls[..|ls| - 1];
    if k < |before| {
      RunPrefix(c, n, connections, before, k);
      assert before[..k] == ls[..k] && before[..k + 1] == ls[..k + 1];
    } else {
      assert ls[..k] == before && ls[..k + 1] == ls;
    }
  }

  /** Every run of the machine can be carried out on the real globals: at its
      end, and so at every point of it, the linked list is the machine's queue. */
  method CarryOut(ghost c: Config, n: nat, ghost connections: seq<Bytes>, ls: seq<Label>) returns (pool: ThreadPool)
    requires Typed(c, Init(c, n, connections)) && Run(c, n, connections, ls).Some?
    ensures fresh(pool) && pool.Valid()
    ensures Run(c, n, connections, ls) == Some(pool.s)
  {
    hide Apply, Enabled, Inv;
    pool := new ThreadPool(c, n, connections);
    for k := 0 to |ls|
      invariant fresh(pool) && fresh(pool.queue) && forall n | n in pool.queue.spine :: fresh(n)
      invariant pool.Valid() && pool.c == c && pool.connections == connections
      invariant Run(c, n, connections, ls[..k]) == Some(pool.s)
    {
      RunPrefix(c, n, connections, ls, k);
      assert forall i | 0 <= i < |pool.queue.spine| :: pool.queue.spine[i] in pool.queue.spine;
      pool.Take(ls[k]);
    }
    assert ls[..|ls|] == ls;
  }
}
