/**
 The client threads taking paths from the shared workload: request_thread holds
 an outer mutex around workload_get_path, which increments the shared counter
 under an inner mutex and reads it again after the inner unlock.
 */
module Workload {
  import opened Wrappers

  /** A thread is about to do this. `counter++` is a load and a store; `mine` is
      the value the thread stored. */
  datatype Pc =
    | Rest
    | OuterLock
    | InnerLock
    | Load
    | Store(v: int)
    | InnerUnlock(mine: int)
    | Fetch(mine: int)
    | OuterUnlock

  /** `handed` lists the indices of the paths handed out, in order. */
  datatype State = State(
    counter: int,
    outer: Option<nat>,
    inner: Option<nat>,
    threads: seq<Pc>,
    handed: seq<nat>)

  /** `guarded`: the outer mutex is used, as in the program. */
  function Init(threads: nat): State {
    State(0, None, None, seq(threads, _ => Rest), [])
  }

  predicate Enabled(s: State, i: nat) {
    i < |s.threads|
    && (s.threads[i].OuterLock? ==> s.outer == None)
    && (s.threads[i].InnerLock? ==> s.inner == None)
  }

  /** The next step of thread `i`, with `paths` paths in the workload. */
  function Step(s: State, i: nat, paths: nat, guarded: bool): State
    requires Enabled(s, i) && paths > 0
  {
    var (s', pc) := match s.threads[i]
      case Rest => (s, if guarded then OuterLock else InnerLock)
      case OuterLock => (s.(outer := Some(i)), InnerLock)
      case InnerLock => (s.(inner := Some(i)), Load)
      case Load => (s, Store(s.counter))
      case Store(v) => (s.(counter := v + 1), InnerUnlock(v + 1))
      case InnerUnlock(mine) => (s.(inner := None), Fetch(mine))
      case Fetch(_) => (s.(handed := s.handed + [s.counter % paths]), if guarded then OuterUnlock else Rest)
      case OuterUnlock => (s.(outer := None), Rest);
    s'.(threads := s'.threads[i := pc])
  }

  /** The state after a schedule, a list of thread numbers. */
  function Run(threads: nat, paths: nat, guarded: bool, schedule: seq<nat>): Option<State>
    requires paths > 0
    decreases |schedule|
  {
    if schedule == [] then Some(Init(threads))
    else
      match Run(threads, paths, guarded, schedule[..|schedule| - 1])
      case None => None
      case Some(s) =>
        var i := schedule[|schedule| - 1];
        if Enabled(s, i) then Some(Step(s, i, paths, guarded)) else None
  }

  predicate InOuter(pc: Pc) {
    !pc.Rest? && !pc.OuterLock?
  }

  predicate InInner(pc: Pc) {
    pc.Load? || pc.Store? || pc.InnerUnlock?
  }

  /** Counted, but not handed out yet. */
  predicate Due(pc: Pc) {
    pc.InnerUnlock? || pc.Fetch?
  }

  /** The k-th path handed out, counting from 1, is path k mod n. */
  ghost predicate InTurn(handed: seq<nat>, paths: nat)
    requires paths > 0
  {
    forall k | 0 <= k < |handed| :: handed[k] == (k + 1) % paths
  }

  ghost predicate Inv(s: State, paths: nat)
    requires paths > 0
  {
    && (forall i | 0 <= i < |s.threads| :: s.outer == Some(i) <==> InOuter(s.threads[i]))
    && (forall i | 0 <= i < |s.threads| :: s.inner == Some(i) <==> InInner(s.threads[i]))
    && (s.outer.Some? ==> s.outer.value < |s.threads|)
    && (s.inner.Some? ==> s.inner.value < |s.threads|)
    && (forall i | 0 <= i < |s.threads| && s.threads[i].Store? :: s.threads[i].v == s.counter)
    && (forall i | 0 <= i < |s.threads| && Due(s.threads[i]) :: s.threads[i].mine == s.counter)
    && s.counter == |s.handed| + (if s.outer.Some? && Due(s.threads[s.outer.value]) then 1 else 0)
    && InTurn(s.handed, paths)
  }

  lemma InvStep(s: State, i: nat, paths: nat)
    requires paths > 0 && Inv(s, paths) && Enabled(s, i)
    ensures Inv(Step(s, i, paths, true), paths)
  {
    var t := Step(s, i, paths, true);
    if s.threads[i].Fetch? {
      assert s.outer == Some(i);
      assert s.counter == |s.handed| + 1;
    }
  }

  /** Round robin: under every interleaving of any number of threads, the k-th
      path handed out, counting from 1, is path k mod n; and a thread about to
      read the counter again finds the value it stored. */
  lemma {:induction false} RoundRobin(threads: nat, paths: nat, schedule: seq<nat>, s: State)
    requires paths > 0 && Run(threads, paths, true, schedule) == Some(s)
    ensures InTurn(s.handed, paths)
    ensures forall i | 0 <= i < |s.threads| && s.threads[i].Fetch? :: s.counter == s.threads[i].mine
    ensures Inv(s, paths)
    decreases |schedule|
  {
    if schedule != [] {
      var r := Run(threads, paths, true, schedule[..|schedule| - 1]).value;
      RoundRobin(threads, paths, schedule[..|schedule| - 1], r);
      InvStep(r, schedule[|schedule| - 1], paths);
    }
  }

  function Times(handed: seq<nat>, p: nat): nat {
    if handed == [] then 0
    else Times(handed[..|handed| - 1], p) + (if handed[|handed| - 1] == p then 1 else 0)
  }

  lemma DivUnique(t: nat, n: nat, q: nat, r: nat)
    requires n > 0 && t == n * q + r && r < n
    ensures t / n == q && t % n == r
  {
    var q', r' := t / n, t % n;
    assert t == n * q' + r' && r' < n;
    assert n * q' - n * q == n * (q' - q) == r - r';
    assert n * (q - q') == -(n * (q' - q));
    if q' - q >= 1 {
      MulAtLeast(n, q' - q);
    } else if q' - q <= -1 {
      MulAtLeast(n, q - q');
    }
  }

  lemma MulAtLeast(n: nat, k: nat)
    requires k >= 1
    ensures n * k >= n
  {
    assert n * k == n * (k - 1) + n;
  }

  lemma DivNext(t: nat, n: nat)
    requires n > 0
    ensures if t % n + 1 == n then (t + 1) / n == t / n + 1 && (t + 1) % n == 0
            else (t + 1) / n == t / n && (t + 1) % n == t % n + 1
  {
    var q, r := t / n, t % n;
    assert t == n * q + r;
    if r + 1 == n {
      assert t + 1 == n * (q + 1) + 0;
      DivUnique(t + 1, n, q + 1, 0);
    } else {
      DivUnique(t + 1, n, q, r + 1);
    }
  }

  /** The share of path `p` in `t` calls: floor(t/n), and one more for 1 .. t mod n. */
  function Share(t: nat, n: nat, p: nat): nat
    requires n > 0
  {
    t / n + (if 1 <= p <= t % n then 1 else 0)
  }

  lemma ShareNext(t: nat, n: nat, p: nat)
    requires n > 0 && p < n
    ensures Share(t + 1, n, p) == Share(t, n, p) + (if (t + 1) % n == p then 1 else 0)
  {
    DivNext(t, n);
  }

  lemma {:induction false} Shares(handed: seq<nat>, n: nat, p: nat)
    requires n > 0 && p < n
    requires InTurn(handed, n)
    ensures Times(handed, p) == Share(|handed|, n, p)
  {
    if handed == [] {
      DivUnique(0, n, 0, 0);
    } else {
      var t := |handed| - 1;
      hide Share;
      Shares(handed[..t], n, p);
      ShareNext(t, n, p);
    }
  }

  /** In every run, each of the n paths has been handed out floor(T/n) times in T
      calls, or once more; which ones got the extra turn is known too. */
  lemma FairShares(threads: nat, paths: nat, schedule: seq<nat>, s: State, p: nat)
    requires paths > 0 && Run(threads, paths, true, schedule) == Some(s) && p < paths
    ensures var t := |s.handed|;
            && Times(s.handed, p) == t / paths + (if 1 <= p <= t % paths then 1 else 0)
            && t / paths <= Times(s.handed, p) <= t / paths + 1
  {
    RoundRobin(threads, paths, schedule, s);
    Shares(s.handed, paths, p);
  }

  lemma RunSnoc(threads: nat, paths: nat, guarded: bool, schedule: seq<nat>, i: nat)
    requires paths > 0 && Run(threads, paths, guarded, schedule).Some?
    requires Enabled(Run(threads, paths, guarded, schedule).value, i)
    ensures Run(threads, paths, guarded, schedule + [i])
         == Some(Step(Run(threads, paths, guarded, schedule).value, i, paths, guarded))
  {
    assert (schedule + [i])[..|schedule|] == schedule;
  }

  /** A thread that runs from Rest to the second read of the counter, unguarded. */
  lemma UpToFetch(threads: nat, paths: nat, schedule: seq<nat>, s: State, i: nat)
    requires paths > 0 && Run(threads, paths, false, schedule) == Some(s)
    requires i < |s.threads| && s.threads[i].Rest? && s.inner == None
    ensures Run(threads, paths, false, schedule + [i] + [i] + [i] + [i] + [i])
         == Some(s.(counter := s.counter + 1, threads := s.threads[i := Fetch(s.counter + 1)]))
  {
    hide Run;
    var ts, c := s.threads, s.counter;
    RunSnoc(threads, paths, false, schedule, i);
    var s1 := s.(threads := ts[i := InnerLock]);
    RunSnoc(threads, paths, false, schedule + [i], i);
    var s2 := s.(inner := Some(i), threads := ts[i := Load]);
    assert Step(s1, i, paths, false) == s2;
    RunSnoc(threads, paths, false, schedule + [i] + [i], i);
    var s3 := s2.(threads := ts[i := Store(c)]);
    assert Step(s2, i, paths, false) == s3;
    RunSnoc(threads, paths, false, schedule + [i] + [i] + [i], i);
    var s4 := s2.(counter := c + 1, threads := ts[i := InnerUnlock(c + 1)]);
    assert Step(s3, i, paths, false) == s4;
    RunSnoc(threads, paths, false, schedule + [i] + [i] + [i] + [i], i);
    assert Step(s4, i, paths, false) == s.(counter := c + 1, threads := ts[i := Fetch(c + 1)]);
  }

  /** The inner mutex alone does not do: without the outer one, two of any number
      of threads can both be handed path 2, and path 1 is passed over. */
  lemma InnerMutexIsNotEnough(threads: nat, paths: nat) returns (schedule: seq<nat>)
    requires threads > 1 && paths > 1
    ensures Run(threads, paths, false, schedule).Some?
    ensures Run(threads, paths, false, schedule).value.handed == [2 % paths, 2 % paths]
    ensures !InTurn([2 % paths, 2 % paths], paths)
  {
    var s0 := Init(threads);
    assert Run(threads, paths, false, []) == Some(s0);
    hide Run, Step, Enabled;
    UpToFetch(threads, paths, [], s0, 0);
    var one := [] + [0] + [0] + [0] + [0] + [0];
    var s1 := s0.(counter := 1, threads := s0.threads[0 := Fetch(1)]);
    assert Run(threads, paths, false, one) == Some(s1);
    UpToFetch(threads, paths, one, s1, 1);
    var two := one + [1] + [1] + [1] + [1] + [1];
    var s2 := s1.(counter := 2, threads := s1.threads[1 := Fetch(2)]);
    assert Run(threads, paths, false, two) == Some(s2);
    schedule := two + [0] + [1];
    BothFetch(threads, paths, two, s2);
    OneAndTwoDiffer(paths);
    assert [2 % paths, 2 % paths][0] != (0 + 1) % paths;
  }

  lemma OneAndTwoDiffer(paths: nat)
    requires paths > 1
    ensures 1 % paths != 2 % paths
  {
    assert 1 % paths == 1;
    assert paths == 2 ==> 2 % paths == 0;
  }

  /** Two threads about to read the counter, unguarded, read the same value. */
  lemma BothFetch(threads: nat, paths: nat, schedule: seq<nat>, s: State)
    requires paths > 0 && Run(threads, paths, false, schedule) == Some(s)
    requires |s.threads| > 1 && s.threads[0].Fetch? && s.threads[1].Fetch? && s.handed == []
    ensures Run(threads, paths, false, schedule + [0] + [1]).Some?
    ensures Run(threads, paths, false, schedule + [0] + [1]).value.handed == [s.counter % paths, s.counter % paths]
  {
    hide Run;
    RunSnoc(threads, paths, false, schedule, 0);
    RunSnoc(threads, paths, false, schedule + [0], 1);
  }

  /** A thread that takes its whole turn with nobody else inside, guarded. */
  lemma WholeTurn(threads: nat, paths: nat, schedule: seq<nat>, s: State, i: nat)
    requires paths > 0 && Run(threads, paths, true, schedule) == Some(s)
    requires i < |s.threads| && s.threads[i].Rest? && s.outer == s.inner == None
    ensures Run(threads, paths, true, schedule + [i] + [i] + [i] + [i] + [i] + [i] + [i] + [i])
         == Some(s.(counter := s.counter + 1, handed := s.handed + [(s.counter + 1) % paths]))
  {
    hide Run;
    var ts, c := s.threads, s.counter;
    RunSnoc(threads, paths, true, schedule, i);
    var s1 := s.(threads := ts[i := OuterLock]);
    RunSnoc(threads, paths, true, schedule + [i], i);
    var s2 := s.(outer := Some(i), threads := ts[i := InnerLock]);
    assert Step(s1, i, paths, true) == s2;
    RunSnoc(threads, paths, true, schedule + [i] + [i], i);
    var s3 := s2.(inner := Some(i), threads := ts[i := Load]);
    assert Step(s2, i, paths, true) == s3;
    RunSnoc(threads, paths, true, schedule + [i] + [i] + [i], i);
    var s4 := s3.(threads := ts[i := Store(c)]);
    assert Step(s3, i, paths, true) == s4;
    RunSnoc(threads, paths, true, schedule + [i] + [i] + [i] + [i], i);
    var s5 := s3.(counter := c + 1, threads := ts[i := InnerUnlock(c + 1)]);
    assert Step(s4, i, paths, true) == s5;
    SecondHalf(threads, paths, schedule + [i] + [i] + [i] + [i] + [i], s5, i);
    assert ts[i := InnerUnlock(c + 1)][i := Rest] == ts;
  }

  lemma SecondHalf(threads: nat, paths: nat, schedule: seq<nat>, s: State, i: nat)
    requires paths > 0 && Run(threads, paths, true, schedule) == Some(s)
    requires i < |s.threads| && s.threads[i].InnerUnlock?
    ensures Run(threads, paths, true, schedule + [i] + [i] + [i])
         == Some(s.(outer := None, inner := None, threads := s.threads[i := Rest],
                   handed := s.handed + [s.counter % paths]))
  {
    hide Run;
    var ts := s.threads;
    RunSnoc(threads, paths, true, schedule, i);
    var s1 := s.(inner := None, threads := ts[i := Fetch(ts[i].mine)]);
    assert Step(s, i, paths, true) == s1;
    RunSnoc(threads, paths, true, schedule + [i], i);
    var s2 := s1.(handed := s.handed + [s.counter % paths], threads := ts[i := OuterUnlock]);
    assert Step(s1, i, paths, true) == s2;
    RunSnoc(threads, paths, true, schedule + [i] + [i], i);
    assert Step(s2, i, paths, true).threads == ts[i := Rest];
  }

  /** The threads can take their turns in any order: for every list of threads
      there is a run in which they are handed a path each, one after the other. */
  lemma {:induction false} AnyOrderOfTurns(threads: nat, paths: nat, turns: seq<nat>) returns (schedule: seq<nat>)
    requires paths > 0 && forall k | 0 <= k < |turns| :: turns[k] < threads
    ensures Run(threads, paths, true, schedule)
         == Some(Init(threads).(counter := |turns|, handed := seq(|turns|, k => (k + 1) % paths)))
    ensures forall i | i in schedule :: i in turns
    decreases |turns|
  {
    if turns == [] {
      schedule := [];
    } else {
      var before, i := turns[..|turns| - 1], turns[|turns| - 1];
      var prefix := AnyOrderOfTurns(threads, paths, before);
      var s := Run(threads, paths, true, prefix).value;
      WholeTurn(threads, paths, prefix, s, i);
      schedule := prefix + [i] + [i] + [i] + [i] + [i] + [i] + [i] + [i];
      assert seq(|turns|, k => (k + 1) % paths) == s.handed + [(s.counter + 1) % paths];
    }
  }

  // ---- Exactly when paths are handed out in turn

  /** A single thread does without the outer mutex. */
  ghost predicate OneThread(s: State, paths: nat)
    requires paths > 0
  {
    && |s.threads| <= 1 && InTurn(s.handed, paths)
    && (|s.threads| == 1 ==>
          && (s.threads[0].Store? ==> s.threads[0].v == s.counter)
          && s.counter == |s.handed| + (if Due(s.threads[0]) then 1 else 0))
  }

  lemma {:induction false} OneThreadIsInTurn(threads: nat, paths: nat, guarded: bool, schedule: seq<nat>, s: State)
    requires paths > 0 && threads <= 1 && Run(threads, paths, guarded, schedule) == Some(s)
    ensures OneThread(s, paths)
    decreases |schedule|
  {
    if schedule != [] {
      var r := Run(threads, paths, guarded, schedule[..|schedule| - 1]).value;
      OneThreadIsInTurn(threads, paths, guarded, schedule[..|schedule| - 1], r);
    }
  }

  /** What is handed out is in the workload. */
  lemma {:induction false} HandedIsAPath(threads: nat, paths: nat, guarded: bool, schedule: seq<nat>, s: State)
    requires paths > 0 && Run(threads, paths, guarded, schedule) == Some(s)
    ensures forall k | 0 <= k < |s.handed| :: s.handed[k] < paths
    decreases |schedule|
  {
    if schedule != [] {
      var r := Run(threads, paths, guarded, schedule[..|schedule| - 1]).value;
      HandedIsAPath(threads, paths, guarded, schedule[..|schedule| - 1], r);
    }
  }

  ghost predicate AlwaysInTurn(threads: nat, paths: nat, guarded: bool)
    requires paths > 0
  {
    forall schedule | Run(threads, paths, guarded, schedule).Some? ::
      InTurn(Run(threads, paths, guarded, schedule).value.handed, paths)
  }

  /** Every run hands the paths out in turn if and only if the outer mutex is
      used, or there is no second thread, or no second path. */
  lemma InTurnExactlyWhen(threads: nat, paths: nat, guarded: bool)
    requires paths > 0
    ensures AlwaysInTurn(threads, paths, guarded) <==> guarded || threads <= 1 || paths == 1
  {
    if guarded || threads <= 1 || paths == 1 {
      forall schedule | Run(threads, paths, guarded, schedule).Some?
        ensures InTurn(Run(threads, paths, guarded, schedule).value.handed, paths)
      {
        var s := Run(threads, paths, guarded, schedule).value;
        if guarded {
          RoundRobin(threads, paths, schedule, s);
        } else if threads <= 1 {
          OneThreadIsInTurn(threads, paths, guarded, schedule, s);
        } else {
          HandedIsAPath(threads, paths, guarded, schedule, s);
        }
      }
    } else {
      var schedule := InnerMutexIsNotEnough(threads, paths);
      assert !InTurn(Run(threads, paths, guarded, schedule).value.handed, paths);
    }
  }
}
