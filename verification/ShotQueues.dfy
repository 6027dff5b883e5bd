/** SIPLEX's shot queues in memory: sabots linked through `next`, popped at the head and put at the tail. */
module ShotQueues {
  import opened Basics
  import S = Shots

  class Shot {
    var status: Byte
    var intent: Byte
  }

  class Sabot {
    var shot: Shot?
    var next: Sabot?
  }

  /** From head to tail the links run through q and end. */
  ghost predicate Chain(head: Sabot?, tail: Sabot?, q: seq<Sabot>)
    reads (set s | s in q)`next
  {
    && Distinct(q)
    && head == (if q == [] then null else q[0])
    && tail == (if q == [] then null else q[|q| - 1])
    && forall i {:trigger q[i].next} :: 0 <= i < |q| ==> q[i].next == if i + 1 < |q| then q[i + 1] else null
  }

  class Queue {
    var head: Sabot?
    var tail: Sabot?

    constructor ()
      ensures Holds([])
    {
      head, tail := null, null;
    }

    /** The queue holds exactly q, in order. */
    ghost predicate Holds(q: seq<Sabot>)
      reads this, (set s | s in q)`next
    {
      Chain(head, tail, q)
    }

    lemma TailInside(q: seq<Sabot>)
      requires Holds(q)
      ensures tail != null ==> tail in q
    {
    }

    /** pop_shot: takes the first sabot, if any. Its link is left as it was. */
    method Pop(ghost q: seq<Sabot>) returns (s: Sabot?)
      requires Holds(q)
      modifies this
      ensures if q == [] then s == null && Holds([]) else s == q[0] && Holds(q[1..])
    {
      s := head;
      if s == null {
        tail := null;
        return;
      }
      assert s.next == if 1 < |q| then q[1] else null;
      head := s.next;
      if head == null {
        tail := null;
      }
    }

    /** put_shot: links a sabot in behind the last. */
    method Put(s: Sabot, ghost q: seq<Sabot>)
      requires Holds(q) && s !in q
      modifies this, s`next, (if tail == null then {} else {tail})`next
      ensures Holds(q + [s])
    {
      ghost var r := q + [s];
      s.next := null;
      if tail == null {
        head, tail := s, s;
      } else {
        assert tail in q;
        tail.next := s;
        tail := s;
      }
      forall i {:trigger r[i].next} | 0 <= i < |r| ensures r[i].next == if i + 1 < |r| then r[i + 1] else null {
        assert i < |q| ==> r[i] == q[i];
      }
    }
  }

  /** Links up to n of the sabots, null-terminated. */
  ghost predicate LinkedUpTo(sabots: seq<Sabot>, n: nat)
    requires n <= |sabots|
    reads (set s | s in sabots)`next
  {
    forall k {:trigger sabots[k].next} :: 0 <= k < n ==> sabots[k].next == if k + 1 < n then sabots[k + 1] else null
  }

  /** Sabots up to n carry their shot, free, or none. */
  ghost predicate LoadedUpTo(sabots: seq<Sabot>, shots: seq<Shot>, n: nat)
    requires n <= |sabots|
    reads (set s | s in sabots)`shot, (set x | x in shots)`status
  {
    && (forall k :: 0 <= k < n ==> sabots[k].shot == if k < |shots| then shots[k] else null)
    && (forall k :: 0 <= k < n && k < |shots| ==> shots[k].status == S.SHOT_FRE)
  }

  method LinkOne(sabots: seq<Sabot>, i: nat)
    requires Distinct(sabots) && i < |sabots| && LinkedUpTo(sabots, i)
    modifies (set s | s in sabots)`next
    ensures LinkedUpTo(sabots, i + 1)
  {
    if i > 0 {
      sabots[i - 1].next := sabots[i];
    }
    sabots[i].next := null;
  }

  method LoadOne(sabots: seq<Sabot>, shots: seq<Shot>, i: nat)
    requires Distinct(sabots) && Distinct(shots) && i < |sabots| && LoadedUpTo(sabots, shots, i)
    modifies (set s | s in sabots)`shot, (set x | x in shots)`status
    ensures LoadedUpTo(sabots, shots, i + 1)
  {
    if i < |shots| {
      shots[i].status := S.SHOT_FRE;
    }
    sabots[i].shot := if i < |shots| then shots[i] else null;
  }

  /** init_queues: every shot is attached to a sabot and marked free, and the sabots are linked and cut
      into the magazine and the empty shells. */
  method InitPools(sabots: seq<Sabot>, shots: seq<Shot>) returns (magazine: Queue, shells: Queue)
    requires Distinct(sabots) && Distinct(shots) && 0 < |shots| <= |sabots|
    modifies (set s | s in sabots), (set x | x in shots)
    ensures magazine != shells && magazine.Holds(sabots[..|shots|]) && shells.Holds(sabots[|shots|..])
    ensures LoadedUpTo(sabots, shots, |sabots|)
  {
    var i := 0;
    while i < |sabots|
      invariant i <= |sabots| && LinkedUpTo(sabots, i) && LoadedUpTo(sabots, shots, i)
    {
      hide *;
      LinkOne(sabots, i);
      LoadOne(sabots, shots, i);
      i := i + 1;
    }
    hide LoadedUpTo;
    magazine := new Queue();
    shells := new Queue();
    CutAt(sabots, |shots|, magazine, shells);
  }

  /** The linked sabots become two queues. */
  method CutAt(sabots: seq<Sabot>, n: nat, magazine: Queue, shells: Queue)
    requires Distinct(sabots) && 0 < n <= |sabots| && LinkedUpTo(sabots, |sabots|)
    requires magazine != shells && shells.head == null && shells.tail == null
    modifies magazine, shells, (set s | s in sabots)`next
    ensures magazine.Holds(sabots[..n]) && shells.Holds(sabots[n..])
  {
    ghost var e := sabots[n..];
    assert forall k :: 0 <= k < |e| ==> e[k] == sabots[n + k];
    magazine.head, magazine.tail := sabots[0], sabots[n - 1];
    magazine.tail.next := null;
    if |sabots| > n {
      shells.head, shells.tail := sabots[n], sabots[|sabots| - 1];
    }
  }
}
