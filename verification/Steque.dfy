/**
 The steque: a singly linked list with front and back pointers and a count.
 Nodes live on the heap and are rewired in place; `Contents()` is the sequence
 they stand for.
 */
module Steques {
  import opened Wrappers

  class Node<T> {
    var item: T
    var next: Node?<T>

    constructor (item: T, next: Node?<T>)
      ensures this.item == item && this.next == next
    {
      this.item := item;
      this.next := next;
    }
  }

  class Steque<T> {
    var front: Node?<T>
    var back: Node?<T>
    var N: int
    ghost var spine: seq<Node<T>> // the nodes, from front to back

    ghost predicate Valid()
      reads this, spine
    {
      && N == |spine|
      && (spine == [] ==> front == null && back == null)
      && (spine != [] ==> front == spine[0] && back == spine[|spine| - 1])
      && (forall i | 0 <= i < |spine| - 1 :: spine[i].next == spine[i + 1])
      && (spine != [] ==> spine[|spine| - 1].next == null)
      && (forall i, j | 0 <= i < j < |spine| :: spine[i] != spine[j])
    }

    ghost function Contents(): (s: seq<T>)
      reads this, spine
      ensures |s| == |spine|
    {
      seq(|spine|, i requires 0 <= i < |spine| reads this, spine => spine[i].item)
    }

    constructor ()
      ensures Valid() && Contents() == [] && spine == []
    {
      front, back, N := null, null, 0;
      spine := [];
    }

    method Enqueue(item: T)
      requires Valid()
      modifies this, spine
      ensures Valid() && Contents() == old(Contents()) + [item]
      ensures forall n | n in spine :: n in old(spine) || fresh(n)
    {
      var node := new Node(item, null);
      if back == null {
        front := node;
      } else {
        back.next := node;
      }
      back := node;
      N := N + 1;
      spine := spine + [node];
    }

    method Push(item: T)
      requires Valid()
      modifies this
      ensures Valid() && Contents() == [item] + old(Contents())
      ensures forall n | n in spine :: n in old(spine) || fresh(n)
    {
      var node := new Node(item, front);
      if back == null {
        back := node;
      }
      front := node;
      N := N + 1;
      spine := [node] + spine;
      assert forall i | 1 <= i < |spine| :: spine[i] == old(spine)[i - 1];
    }

    method Size() returns (n: int)
      requires Valid()
      ensures n == |Contents()|
    {
      n := N;
    }

    /** Looks at the count only. */
    method IsEmpty() returns (empty: bool)
      requires Valid()
      ensures empty <==> Contents() == []
      ensures empty <==> front == null
      ensures empty <==> back == null
    {
      empty := N == 0;
    }

    /** Looks at the front pointer only. None: the underflow branch, which exits
        the process. Otherwise the front node leaves the list and is freed. */
    method Pop() returns (r: Option<T>)
      requires Valid()
      modifies this
      ensures Valid()
      ensures r.None? <==> old(Contents()) == []
      ensures r.None? ==> Contents() == [] && spine == []
      ensures r.Some? ==> old(Contents()) == [r.value] + Contents()
      ensures r.Some? ==> old(spine) == [old(front)] + spine && old(front) !in spine
    {
      if front == null {
        return None;
      }
      r := Some(front.item);
      ghost var was := Contents();
      assert |spine| > 1 ==> spine[0].next == spine[1];
      front := front.next;
      if front == null {
        back := null;
      }
      N := N - 1;
      spine := spine[1..];
      assert forall i | 0 <= i < |spine| :: spine[i] == old(spine)[i + 1];
      assert was == [r.value] + Contents();
    }

    /** Rotates by one; an empty or one-element list is left as it is. */
    method Cycle()
      requires Valid()
      modifies this, spine
      ensures Valid() && spine == (if old(spine) == [] then [] else old(spine)[1..] + [old(spine)[0]])
      ensures Contents() == if old(Contents()) == [] then [] else old(Contents())[1..] + [old(Contents())[0]]
    {
      if back == null {
        return;
      }
      back.next := front;
      back := front;
      front := front.next;
      back.next := null;
      spine := spine[1..] + [spine[0]];
    }

    /** None: the underflow branch. */
    method Front() returns (r: Option<T>)
      requires Valid()
      ensures r == if Contents() == [] then None else Some(Contents()[0])
    {
      r := if front == null then None else Some(front.item);
    }

    method Destroy()
      requires Valid()
      modifies this
      ensures Valid() && Contents() == [] && front == null && back == null && N == 0
      ensures spine == []
    {
      var empty := IsEmpty();
      while !empty
        invariant Valid()
        invariant forall n | n in spine :: n in old(spine)
        invariant empty <==> Contents() == []
        decreases N
      {
        var _ := Pop();
        empty := IsEmpty();
      }
    }
  }

  /** The operations of one run on a steque, and their meaning on sequences. */
  datatype Op<T> = EnqueueOp(item: T) | PushOp(item: T) | PopOp | CycleOp | DestroyOp

  function Rotate<T>(s: seq<T>): (r: seq<T>)
    ensures multiset(r) == multiset(s)
  {
    if s == [] then [] else
      assert s == [s[0]] + s[1..];
      s[1..] + [s[0]]
  }

  /** None once a pop has found the steque empty, which exits the process. */
  function Meaning<T>(s: seq<T>, op: Op<T>): Option<seq<T>> {
    match op
    case EnqueueOp(x) => Some(s + [x])
    case PushOp(x) => Some([x] + s)
    case PopOp => if s == [] then None else Some(s[1..])
    case CycleOp => Some(Rotate(s))
    case DestroyOp => Some([])
  }

  function MeaningOfRun<T>(s: seq<T>, ops: seq<Op<T>>): Option<seq<T>>
    decreases |ops|
  {
    if ops == [] then Some(s)
    else
      match Meaning(s, ops[0])
      case None => None
      case Some(s') => MeaningOfRun(s', ops[1..])
  }

  lemma {:induction false} MeaningOfRunSnoc<T>(s: seq<T>, ops: seq<Op<T>>, op: Op<T>)
    ensures MeaningOfRun(s, ops + [op])
         == match MeaningOfRun(s, ops) case None => None case Some(t) => Meaning(t, op)
    decreases |ops|
  {
    if ops == [] {
      assert MeaningOfRun(s, [op]) == match Meaning(s, op) case None => None case Some(t) => MeaningOfRun(t, []);
    } else {
      assert (ops + [op])[1..] == ops[1..] + [op];
      match Meaning(s, ops[0])
      case None =>
      case Some(s') => MeaningOfRunSnoc(s', ops[1..], op);
    }
  }

  /** One operation, carried out on the list. */
  method Perform<T>(q: Steque<T>, op: Op<T>) returns (ok: bool)
    requires q.Valid()
    modifies q, q.spine
    ensures q.Valid()
    ensures forall n | n in q.spine :: n in old(q.spine) || fresh(n)
    ensures Meaning(old(q.Contents()), op) == if ok then Some(q.Contents()) else None
  {
    ok := true;
    match op
    case EnqueueOp(x) => q.Enqueue(x);
    case PushOp(x) => q.Push(x);
    case PopOp =>
      ghost var was := q.Contents();
      var r := q.Pop();
      ok := r.Some?;
      assert ok ==> was[1..] == q.Contents();
    case CycleOp => q.Cycle();
    case DestroyOp => q.Destroy();
  }

  /** Any run of operations on the list does what the run means on sequences,
      and exits exactly where the sequence run pops an empty sequence. */
  method PerformAll<T>(ops: seq<Op<T>>) returns (q: Steque<T>, ok: bool)
    ensures fresh(q) && q.Valid()
    ensures MeaningOfRun([], ops) == if ok then Some(q.Contents()) else None
  {
    q := new Steque();
    ok := true;
    var k := 0;
    while k < |ops| && ok
      invariant 0 <= k <= |ops|
      invariant fresh(q) && q.Valid() && forall n | n in q.spine :: fresh(n)
      invariant MeaningOfRun([], ops[..k]) == if ok then Some(q.Contents()) else None
    {
      MeaningOfRunSnoc([], ops[..k], ops[k]);
      assert ops[..k + 1] == ops[..k] + [ops[k]];
      assert forall i | 0 <= i < |q.spine| :: q.spine[i] in q.spine;
      ok := Perform(q, ops[k]);
      k := k + 1;
    }
    if ok {
      assert ops[..k] == ops;
    } else {
      StopsForGood([], ops, k);
    }
  }

  lemma {:induction false} StopsForGood<T>(s: seq<T>, ops: seq<Op<T>>, k: nat)
    requires k <= |ops| && MeaningOfRun(s, ops[..k]) == None
    ensures MeaningOfRun(s, ops) == None
    decreases k
  {
    if k > 0 && Meaning(s, ops[0]).Some? {
      assert ops[..k][1..] == ops[1..][..k - 1];
      StopsForGood(Meaning(s, ops[0]).value, ops[1..], k - 1);
    }
  }

  /** Cycling as many times as there are items brings the contents back. */
  function RotateBy<T>(s: seq<T>, k: nat): seq<T> {
    if k == 0 then s else Rotate(RotateBy(s, k - 1))
  }

  lemma RotateStep<T>(s: seq<T>, k: nat)
    requires k < |s|
    ensures Rotate(s[k..] + s[..k]) == s[k + 1..] + s[..k + 1]
  {
    var r := s[k..] + s[..k];
    assert r[1..] + [r[0]] == s[k + 1..] + (s[..k] + [s[k]]);
  }

  lemma {:induction false} RotateByIs<T>(s: seq<T>, k: nat)
    requires k <= |s|
    ensures RotateBy(s, k) == s[k..] + s[..k]
  {
    hide Rotate;
    if k == 0 {
      assert s[0..] + s[..0] == s;
    } else {
      assert RotateBy(s, k) == Rotate(RotateBy(s, k - 1));
      hide RotateBy;
      RotateByIs(s, k - 1);
      RotateStep(s, k - 1);
    }
  }

  lemma CycleAllTheWay<T>(s: seq<T>)
    ensures RotateBy(s, |s|) == s
  {
    RotateByIs(s, |s|);
  }
}
