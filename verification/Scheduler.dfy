/** OS$: four strands sorted in place through the schedule links, then spliced into one schedule. */
module Scheduler {
  import opened Basics
  import opened Dispatches

  /** The strand from head to tail is q, null-terminated. */
  ghost predicate Strand(head: Dispatch?, tail: Dispatch?, q: seq<Dispatch>)
    reads (set d | d in q)`nx_sched
  {
    && Distinct(q)
    && head == (if q == [] then null else q[0])
    && tail == (if q == [] then null else q[|q| - 1])
    && forall i {:trigger q[i].nx_sched} :: 0 <= i < |q| ==> q[i].nx_sched == if i + 1 < |q| then q[i + 1] else null
  }

  /** Priorities never rise along the strand. */
  ghost predicate Descending(q: seq<Dispatch>)
    reads (set d | d in q)`priority
  {
    forall i, j :: 0 <= i < j < |q| ==> q[i].priority >= q[j].priority
  }

  /** One sorted strand. */
  ghost predicate Sorted(head: Dispatch?, tail: Dispatch?, q: seq<Dispatch>)
    reads (set d | d in q)`nx_sched, (set d | d in q)`priority
  {
    Strand(head, tail, q) && Descending(q)
  }

  /** The place k splits q at x: all before it have at least x's priority, all after it at most. */
  ghost predicate Fits(q: seq<Dispatch>, x: Dispatch, k: nat)
    reads (set d | d in q)`priority, x`priority
  {
    && k <= |q|
    && (forall i :: 0 <= i < k ==> q[i].priority >= x.priority)
    && (forall i :: k <= i < |q| ==> q[i].priority <= x.priority)
  }

  ghost function With<T>(q: seq<T>, k: nat, x: T): seq<T>
    requires k <= |q|
  {
    q[..k] + [x] + q[k..]
  }

  lemma FitsKeepsDescending(q: seq<Dispatch>, x: Dispatch, k: nat)
    requires Descending(q) && Fits(q, x, k)
    ensures Descending(With(q, k, x))
  {
  }

  /** The place the code chooses for x: before a head of lower priority, else behind the head and all after it
      of higher priority, before the first of at most x's own. */
  ghost predicate Spot(q: seq<Dispatch>, x: Dispatch, k: nat)
    reads (set d | d in q)`priority, x`priority
  {
    && k <= |q|
    && (k == 0 <==> q == [] || q[0].priority < x.priority)
    && (forall i :: 1 <= i < k ==> q[i].priority > x.priority)
    && (0 < k < |q| ==> q[k].priority <= x.priority)
  }

  /** Walks the strand until the next dispatch's priority is no higher than x's. */
  method Walk(head: Dispatch, tail: Dispatch, x: Dispatch, ghost q: seq<Dispatch>)
    returns (splice: Dispatch, ghost k: nat)
    requires Sorted(head, tail, q) && q != [] && head.priority >= x.priority
    ensures 1 <= k <= |q| && splice == q[k - 1] && splice in q && Descending(With(q, k, x)) && Spot(q, x, k)
  {
    splice := head;
    k := 1;
    while splice.nx_sched != null
      invariant 1 <= k <= |q| && splice == q[k - 1]
      invariant forall i :: 1 <= i < k ==> q[i].priority > x.priority
      decreases |q| - k
    {
      assert splice.nx_sched == q[k];
      if splice.nx_sched.priority <= x.priority {
        break;
      }
      splice := splice.nx_sched;
      k := k + 1;
    }
    assert splice.nx_sched == if k < |q| then q[k] else null;
    FitsKeepsDescending(q, x, k);
  }

  /** Links x in behind the k-th dispatch of the strand. */
  method SpliceIn(tail: Dispatch, x: Dispatch, splice: Dispatch, ghost head: Dispatch, ghost q: seq<Dispatch>,
                  ghost k: nat)
    returns (tail': Dispatch)
    requires Strand(head, tail, q) && x !in q && x.nx_sched == null && 1 <= k <= |q| && splice == q[k - 1]
    requires Descending(With(q, k, x))
    modifies x`nx_sched, splice`nx_sched
    ensures Sorted(head, tail', With(q, k, x))
  {
    hide Descending;
    assert splice.nx_sched == if k < |q| then q[k] else null;
    assert splice == tail <==> k == |q|;
    if splice.nx_sched != null {
      x.nx_sched := splice.nx_sched;
    }
    splice.nx_sched := x;
    tail' := if splice == tail then x else tail;
    ghost var r := With(q, k, x);
    forall i {:trigger r[i].nx_sched} | 0 <= i < |r| ensures r[i].nx_sched == if i + 1 < |r| then r[i + 1] else null {
      if i < k {
        assert r[i] == q[i];
      } else if i > k {
        assert r[i] == q[i - 1] && q[i - 1] != splice;
      }
    }
  }

  lemma FrontKeepsDescending(q: seq<Dispatch>, x: Dispatch)
    requires Descending(q) && q != [] && q[0].priority < x.priority
    ensures Descending(With(q, 0, x))
  {
  }

  /** x goes before the head, whose priority is lower. */
  method Front(head: Dispatch, tail: Dispatch, x: Dispatch, ghost q: seq<Dispatch>)
    requires Sorted(head, tail, q) && x !in q && x.nx_sched == null && head.priority < x.priority && q != []
    modifies x`nx_sched
    ensures Sorted(x, tail, With(q, 0, x))
  {
    hide Descending;
    FrontKeepsDescending(q, x);
    x.nx_sched := head;
    assert With(q, 0, x) == [x] + q;
  }

  lemma SortedEnds(head: Dispatch?, tail: Dispatch?, q: seq<Dispatch>)
    requires Sorted(head, tail, q) && head != null
    ensures tail != null && head in q && q != [] && head == q[0] && Strand(head, tail, q)
  {
  }

  lemma SortedOne(x: Dispatch)
    requires x.nx_sched == null
    ensures Sorted(x, x, With([], 0, x))
  {
    assert With([], 0, x) == [x];
  }

  /** Sorted insertion of one dispatch into a strand. */
  method Insert(head: Dispatch?, tail: Dispatch?, x: Dispatch, ghost q: seq<Dispatch>)
    returns (head': Dispatch, tail': Dispatch, ghost k: nat)
    requires Sorted(head, tail, q) && x !in q && x.nx_sched == null
    modifies x`nx_sched, (set d | d in q)`nx_sched
    ensures Spot(q, x, k) && Sorted(head', tail', With(q, k, x))
  {
    assert head == null ==> q == [];
    hide Strand, Descending, Sorted, With;
    head', tail', k := x, x, 0;
    if head == null {
      SortedOne(x);
      return;
    }
    SortedEnds(head, tail, q);
    if head.priority < x.priority {
      Front(head, tail, x, q);
      tail' := tail;
    } else {
      var splice;
      splice, k := Walk(head, tail, x, q);
      tail' := SpliceIn(tail, x, splice, head, q, k);
      head' := head;
    }
  }

  predicate Schedulable(s: Byte) { s <= DS_EXEC_IDLE }

  /** The strand that a scheduling or executor code names. */
  function StrandOf(s: Byte): int { s % 16 - 3 }

  predicate Sortable(s: Byte) { Schedulable(s) ==> 0 <= StrandOf(s) < 4 }

  /** The four strands, each sorted in place. */
  ghost predicate Strands(heads: seq<Dispatch?>, tails: seq<Dispatch?>, strands: seq<seq<Dispatch>>)
    requires |strands| == 4
    reads (set d | d in strands[0] + strands[1] + strands[2] + strands[3])`nx_sched
    reads (set d | d in strands[0] + strands[1] + strands[2] + strands[3])`priority
  {
    && |heads| == |tails| == 4
    && Sorted(heads[0], tails[0], strands[0]) && Sorted(heads[1], tails[1], strands[1])
    && Sorted(heads[2], tails[2], strands[2]) && Sorted(heads[3], tails[3], strands[3])
  }

  /** d's code schedules it on strand k. */
  ghost predicate Names(codes: map<Dispatch, Byte>, d: Dispatch, k: int) {
    d in codes && Schedulable(codes[d]) && StrandOf(codes[d]) == k
  }

  ghost predicate Coded(q: seq<Dispatch>, codes: map<Dispatch, Byte>) {
    forall d :: d in q ==> d in codes && Sortable(codes[d])
  }

  /** Strand k holds those of q whose code names it. */
  ghost predicate Holds(strands: seq<seq<Dispatch>>, q: seq<Dispatch>, codes: map<Dispatch, Byte>)
    requires |strands| == 4
  {
    && (forall k, d :: 0 <= k < 4 && d in strands[k] ==> d in q && Names(codes, d, k))
    && (forall k, d :: 0 <= k < 4 && d in q && Names(codes, d, k) ==> d in strands[k])
  }

  lemma HoldsMore(strands: seq<seq<Dispatch>>, q: seq<Dispatch>, codes: map<Dispatch, Byte>, x: Dispatch, i: nat,
                  k: nat)
    requires |strands| == 4 && Holds(strands, q, codes) && i < 4 && Names(codes, x, i) && k <= |strands[i]|
    ensures Holds(strands[i := With(strands[i], k, x)], q + [x], codes)
  {
    var r := With(strands[i], k, x);
    assert r[k] == x;
    forall d | d in strands[i] ensures d in r {
      var j :| 0 <= j < |strands[i]| && strands[i][j] == d;
      assert r[if j < k then j else j + 1] == d;
    }
  }

  lemma HoldsSkip(strands: seq<seq<Dispatch>>, q: seq<Dispatch>, codes: map<Dispatch, Byte>, n: nat)
    requires n < |q| && q[n] in codes && !Schedulable(codes[q[n]])
    requires |strands| == 4 && Holds(strands, q[..n], codes)
    ensures Holds(strands, q[..n + 1], codes)
  {
    assert q[..n + 1] == q[..n] + [q[n]];
  }

  lemma StrandsApart(strands: seq<seq<Dispatch>>, q: seq<Dispatch>, codes: map<Dispatch, Byte>, n: nat)
    requires Distinct(q) && n < |q| && |strands| == 4 && Holds(strands, q[..n], codes)
    ensures forall k, d :: 0 <= k < 4 && d in strands[k] ==> d in q
    ensures forall k, m :: 0 <= k < 4 && n <= m < |q| ==> q[m] !in strands[k]
    ensures forall j, k, d :: 0 <= j < 4 && 0 <= k < 4 && j != k && d in strands[j] ==> d !in strands[k]
    ensures forall m :: 0 <= m < |q| && m != n ==> q[m] != q[n]
  {
    assert forall d :: d in q[..n] ==> d in q;
    assert forall m :: n <= m < |q| ==> q[m] !in q[..n];
    forall j, k, d | 0 <= j < 4 && 0 <= k < 4 && j != k && d in strands[j] ensures d !in strands[k] {
      assert Names(codes, d, j) && !Names(codes, d, k);
    }
  }

  /** Nothing before the n-th of q goes on strand k. */
  ghost predicate Opens(q: seq<Dispatch>, codes: map<Dispatch, Byte>, n: nat, k: int)
    requires n < |q|
  {
    forall m :: 0 <= m < n ==> !Names(codes, q[m], k)
  }

  lemma OpensIffEmpty(strands: seq<seq<Dispatch>>, q: seq<Dispatch>, codes: map<Dispatch, Byte>, n: nat, k: nat)
    requires n < |q| && k < 4 && |strands| == 4 && Holds(strands, q[..n], codes)
    ensures strands[k] == [] <==> Opens(q, codes, n, k)
  {
    if strands[k] != [] {
      var d := strands[k][0];
      assert d in q[..n] && Names(codes, d, k);
    }
    if m :| 0 <= m < n && Names(codes, q[m], k) {
      assert q[m] in q[..n];
    }
  }

  /** The status a dispatch is left with by stage 1: scheduled, unless it opened its strand. */
  ghost function Mark(q: seq<Dispatch>, codes: map<Dispatch, Byte>, n: nat): Byte
    requires n < |q| && q[n] in codes
  {
    if Schedulable(codes[q[n]]) && !Opens(q, codes, n, StrandOf(codes[q[n]])) then DS_SCH else codes[q[n]]
  }

  /** The first n of q are marked; the rest are untouched. */
  ghost predicate Marked(q: seq<Dispatch>, codes: map<Dispatch, Byte>, n: nat)
    requires n <= |q| && Coded(q, codes)
    reads (set d | d in q)`nx_sched, (set d | d in q)`status
  {
    && (forall m :: 0 <= m < n ==> q[m].status == Mark(q, codes, m))
    && (forall m :: n <= m < |q| ==> q[m].status == codes[q[m]] && q[m].nx_sched == null)
  }

  /** Attaches one dispatch to strand i, marking it scheduled unless it opens the strand. */
  method Attach(heads: seq<Dispatch?>, tails: seq<Dispatch?>, x: Dispatch, i: nat, ghost strands: seq<seq<Dispatch>>,
                opens: bool)
    returns (heads': seq<Dispatch?>, tails': seq<Dispatch?>, ghost k: nat)
    requires |strands| == 4 && Strands(heads, tails, strands) && i < 4
    requires opens == (heads[i] == null) && x.nx_sched == null
    requires forall j :: 0 <= j < 4 ==> x !in strands[j]
    requires forall j, d :: 0 <= j < 4 && j != i && d in strands[j] ==> d !in strands[i]
    modifies x`nx_sched, x`status, (set d | d in strands[i])`nx_sched
    ensures k <= |strands[i]| && Strands(heads', tails', strands[i := With(strands[i], k, x)])
    ensures x.status == if opens then old(x.status) else DS_SCH
  {
    hide Sorted, With;
    var head, tail;
    head, tail, k := Insert(heads[i], tails[i], x, strands[i]);
    heads', tails' := heads[i := head], tails[i := tail];
    if !opens {
      x.status := DS_SCH;
    }
  }

  lemma BinderNext(mission: Dispatch?, q: seq<Dispatch>, n: nat)
    requires Binder(mission, q) && n < |q|
    ensures q[n].nx_binder == if n + 1 < |q| then q[n + 1] else null
    ensures Distinct(q) && q[n] in q
  {
  }

  lemma MarkedNext(q: seq<Dispatch>, codes: map<Dispatch, Byte>, n: nat)
    requires n < |q| && Coded(q, codes) && Marked(q, codes, n)
    ensures q[n] in q && q[n].status == codes[q[n]] && forall m :: n <= m < |q| ==> q[m].nx_sched == null
    ensures !Schedulable(codes[q[n]]) ==> Marked(q, codes, n + 1)
  {
  }

  /** Puts the n-th dispatch of the binder onto its strand. */
  method Take(heads: seq<Dispatch?>, tails: seq<Dispatch?>, x: Dispatch, ghost strands: seq<seq<Dispatch>>,
              ghost q: seq<Dispatch>, ghost codes: map<Dispatch, Byte>, ghost n: nat)
    returns (heads': seq<Dispatch?>, tails': seq<Dispatch?>, ghost strands': seq<seq<Dispatch>>)
    requires Distinct(q) && n < |q| && Coded(q, codes) && x == q[n] && Schedulable(x.status) && Marked(q, codes, n)
    requires |strands| == 4 && Strands(heads, tails, strands) && Holds(strands, q[..n], codes)
    modifies (set d | d in q)`nx_sched, (set d | d in q)`status
    ensures |strands'| == 4 && Strands(heads', tails', strands') && Holds(strands', q[..n + 1], codes)
    ensures Marked(q, codes, n + 1)
  {
    MarkedNext(q, codes, n);
    assert Sortable(codes[x]) && q[..n + 1] == q[..n] + [x];
    var i := x.status % 16 - 3;
    OpensIffEmpty(strands, q, codes, n, i);
    StrandsApart(strands, q, codes, n);
    assert heads[i] == null <==> strands[i] == [];
    hide Sorted, With, Distinct, Opens, Holds;
    ghost var k;
    heads', tails', k := Attach(heads, tails, x, i, strands, heads[i] == null);
    HoldsMore(strands, q[..n], codes, x, i, k);
    strands' := strands[i := With(strands[i], k, x)];
  }

  /** Stage 1 of opsec_os: sorts the mission's schedulable dispatches onto the strands. */
  method Sort(mission: Dispatch?, ghost q: seq<Dispatch>, ghost codes: map<Dispatch, Byte>)
    returns (heads: seq<Dispatch?>, tails: seq<Dispatch?>, ghost strands: seq<seq<Dispatch>>)
    requires Binder(mission, q) && Coded(q, codes) && Marked(q, codes, 0)
    modifies (set d | d in q)`nx_sched, (set d | d in q)`status
    ensures |strands| == 4 && Strands(heads, tails, strands)
    ensures Holds(strands, q, codes) && Marked(q, codes, |q|)
  {
    heads, tails, strands := [null, null, null, null], [null, null, null, null], [[], [], [], []];
    var finger := mission;
    ghost var n := 0;
    assert Strands(heads, tails, strands) && Holds(strands, q[..0], codes);
    assert finger == if n < |q| then q[n] else null;
    hide Strands, Holds, Sorted, Names, Opens, Binder, Marked, Distinct, Coded;
    while finger != null
      invariant 0 <= n <= |q| && finger == (if n < |q| then q[n] else null)
      invariant |strands| == 4 && Strands(heads, tails, strands) && Holds(strands, q[..n], codes)
      invariant Marked(q, codes, n)
      decreases |q| - n
    {
      BinderNext(mission, q, n);
      MarkedNext(q, codes, n);
      if finger.status <= DS_EXEC_IDLE {
        heads, tails, strands := Take(heads, tails, finger, strands, q, codes, n);
      } else {
        HoldsSkip(strands, q, codes, n);
      }
      finger := finger.nx_binder;
      n := n + 1;
    }
    assert q[..n] == q;
  }

  // --------------------------------------------------------------------- The schedule

  /** The schedule, in order: strand 0 first. */
  ghost function Flat(strands: seq<seq<Dispatch>>, n: nat): seq<Dispatch>
    requires n <= |strands|
  {
    if n == 0 then [] else Flat(strands, n - 1) + strands[n - 1]
  }

  /** From sched the links run through q, and from its last dispatch to `end`. */
  ghost predicate Linked(sched: Dispatch?, q: seq<Dispatch>, end: Dispatch?)
    reads (set d | d in q)`nx_sched
  {
    && Distinct(q) && q != [] && sched == q[0]
    && forall i {:trigger q[i].nx_sched} :: 0 <= i < |q| ==> q[i].nx_sched == if i + 1 < |q| then q[i + 1] else end
  }

  /** Sorted strands that share no dispatch. */
  ghost predicate Apart(strands: seq<seq<Dispatch>>)
  {
    forall j, k, d :: 0 <= j < |strands| && 0 <= k < |strands| && j != k && d in strands[j] ==> d !in strands[k]
  }

  lemma DistinctJoin(q: seq<Dispatch>, r: seq<Dispatch>)
    requires Distinct(q) && Distinct(r) && forall d :: d in r ==> d !in q
    ensures Distinct(q + r)
  {
    var s := q + r;
    forall i, j | 0 <= i < j < |s| ensures s[i] != s[j] {
      if i < |q| <= j {
        assert s[i] in q && s[j] in r;
      }
    }
  }

  /** Points the last dispatch of a linked list at `head`: the list then ends there, or continues
      through r where that is a strand of others. */
  method LinkTail(last: Dispatch, head: Dispatch?, ghost tail: Dispatch?, ghost sched: Dispatch?,
                  ghost q: seq<Dispatch>, ghost end: Dispatch?, ghost r: seq<Dispatch>)
    requires Linked(sched, q, end) && last == q[|q| - 1]
    modifies last`nx_sched
    ensures Linked(sched, q, head)
    ensures old(Strand(head, tail, r)) && (forall d :: d in r ==> d !in q) ==> Linked(sched, q + r, null)
  {
    last.nx_sched := head;
    if old(Strand(head, tail, r)) && forall d :: d in r ==> d !in q {
      ghost var s := q + r;
      DistinctJoin(q, r);
      assert last in q;
      forall i {:trigger s[i].nx_sched} | 0 <= i < |s| ensures s[i].nx_sched == if i + 1 < |s| then s[i + 1] else null {
        if i < |q| {
          assert s[i] == q[i];
        } else {
          assert s[i] == r[i - |q|] && r[i - |q|] in r;
        }
      }
    }
  }

  lemma {:induction false} FlatHas(strands: seq<seq<Dispatch>>, n: nat, d: Dispatch)
    requires n <= |strands|
    ensures d in Flat(strands, n) <==> exists k :: 0 <= k < n && d in strands[k]
  {
    if n > 0 {
      FlatHas(strands, n - 1, d);
    }
  }

  /** The first strand that has a dispatch. */
  ghost predicate FirstFull(strands: seq<seq<Dispatch>>, m: nat) {
    m < |strands| && strands[m] != [] && forall k :: 0 <= k < m ==> strands[k] == []
  }

  lemma {:induction false} EmptyFlat(strands: seq<seq<Dispatch>>, n: nat)
    requires n <= |strands| && forall k :: 0 <= k < n ==> strands[k] == []
    ensures Flat(strands, n) == []
  {
    if n > 0 {
      EmptyFlat(strands, n - 1);
    }
  }

  ghost function All(strands: seq<seq<Dispatch>>): set<Dispatch>
    requires |strands| == 4
  {
    set d | d in strands[0] + strands[1] + strands[2] + strands[3]
  }

  /** The strands from `lim` on are as they were sorted. */
  ghost predicate Later(heads: seq<Dispatch?>, tails: seq<Dispatch?>, strands: seq<seq<Dispatch>>, lim: int)
    requires |strands| == |heads| == |tails| == 4
    reads All(strands)`nx_sched
  {
    && (lim <= 0 ==> Strand(heads[0], tails[0], strands[0]))
    && (lim <= 1 ==> Strand(heads[1], tails[1], strands[1]))
    && (lim <= 2 ==> Strand(heads[2], tails[2], strands[2]))
    && (lim <= 3 ==> Strand(heads[3], tails[3], strands[3]))
  }

  lemma FlatApart(strands: seq<seq<Dispatch>>, i: nat)
    requires |strands| == 4 && i <= 4 && Apart(strands)
    ensures forall d :: d in Flat(strands, i) ==> d in All(strands)
    ensures forall d, k :: d in Flat(strands, i) && i <= k < 4 ==> d !in strands[k]
  {
    forall d | d in Flat(strands, i) ensures d in All(strands) && forall k :: i <= k < 4 ==> d !in strands[k] {
      FlatHas(strands, i, d);
    }
  }

  ghost function Max(a: int, b: int): int { if a < b then b else a }

  lemma StrandEnds(head: Dispatch?, tail: Dispatch?, q: seq<Dispatch>)
    requires Strand(head, tail, q)
    ensures if q == [] then head == null && tail == null else head == q[0] && tail == q[|q| - 1] && tail in q
    ensures q != [] ==> Linked(head, q, null)
  {
  }

  /** With strands linked up to i, q is the list so far, running to `end`; the rest are as sorted. */
  ghost predicate Midway(heads: seq<Dispatch?>, tails: seq<Dispatch?>, strands: seq<seq<Dispatch>>, m: nat,
                         i: nat, q: seq<Dispatch>)
    requires |strands| == |heads| == |tails| == 4 && m < 4 && 1 <= i <= 4
    reads All(strands)`nx_sched, (set d | d in q)`nx_sched
  {
    && q == Flat(strands, Max(i, m + 1))
    && Linked(heads[m], q, if i == m + 1 && m > 0 then heads[m] else null)
    && Later(heads, tails, strands, Max(i, m + 1))
  }

  /** What the ends of the sorted strands say, whatever the links. */
  ghost predicate Ends(heads: seq<Dispatch?>, tails: seq<Dispatch?>, strands: seq<seq<Dispatch>>) {
    && |strands| == |heads| == |tails| == 4
    && forall k :: 0 <= k < 4 ==>
         && ((heads[k] == null) <==> (strands[k] == [])) && ((tails[k] == null) <==> (strands[k] == []))
         && (tails[k] != null ==> tails[k] in All(strands))
  }

  lemma EndsAt(heads: seq<Dispatch?>, tails: seq<Dispatch?>, strands: seq<seq<Dispatch>>, m: nat, k: nat)
    requires Ends(heads, tails, strands) && FirstFull(strands, m) && k < 4
    ensures k < m ==> heads[k] == null && tails[k] == null
    ensures k == m ==> heads[k] != null && tails[k] != null
    ensures (heads[k] == null) <==> (tails[k] == null)
    ensures tails[k] != null ==> tails[k] in All(strands)
  {
  }

  lemma SpliceStart(heads: seq<Dispatch?>, tails: seq<Dispatch?>, strands: seq<seq<Dispatch>>, m: nat)
    requires |strands| == |heads| == |tails| == 4 && FirstFull(strands, m) && Later(heads, tails, strands, 0)
    ensures Ends(heads, tails, strands)
    ensures strands[m] != [] && tails[m] == strands[m][|strands[m]| - 1]
    ensures Midway(heads, tails, strands, m, 1, strands[m])
  {
    EmptyFlat(strands, m);
    assert Flat(strands, m + 1) == strands[m];
    forall k | 0 <= k < 4
      ensures (heads[k] == null) <==> (strands[k] == [])
      ensures (tails[k] == null) <==> (strands[k] == [])
      ensures tails[k] != null ==> tails[k] in All(strands)
    {
      LaterEnds(heads, tails, strands, k);
    }
    LaterEnds(heads, tails, strands, m);
  }

  lemma LaterEnds(heads: seq<Dispatch?>, tails: seq<Dispatch?>, strands: seq<seq<Dispatch>>, k: nat)
    requires |strands| == |heads| == |tails| == 4 && k < 4 && Later(heads, tails, strands, 0)
    ensures if strands[k] == [] then heads[k] == null && tails[k] == null
            else heads[k] == strands[k][0] && tails[k] == strands[k][|strands[k]| - 1] && tails[k] in All(strands)
    ensures strands[k] != [] ==> Linked(heads[k], strands[k], null)
  {
    if k == 0 {
      StrandEnds(heads[0], tails[0], strands[0]);
    } else if k == 1 {
      StrandEnds(heads[1], tails[1], strands[1]);
    } else if k == 2 {
      StrandEnds(heads[2], tails[2], strands[2]);
    } else {
      StrandEnds(heads[3], tails[3], strands[3]);
    }
  }

  /** Links strand i on behind the list q, which shares no dispatch with the strands from it on. */
  method LinkStrand(heads: seq<Dispatch?>, tails: seq<Dispatch?>, ghost strands: seq<seq<Dispatch>>, ghost lim: nat,
                    ghost sched: Dispatch?, last: Dispatch, i: nat, ghost q: seq<Dispatch>, ghost end: Dispatch?)
    requires |strands| == |heads| == |tails| == 4 && i < 4 && i <= lim
    requires Linked(sched, q, end) && last == q[|q| - 1] && Later(heads, tails, strands, lim)
    requires forall k :: lim <= k < 4 ==> last !in strands[k]
    requires i == lim ==> forall d :: d in strands[i] ==> d !in q
    modifies last`nx_sched
    ensures Linked(sched, if i == lim then q + strands[i] else q, if i == lim then null else heads[i])
    ensures Later(heads, tails, strands, lim + 1) && (i < lim ==> Later(heads, tails, strands, lim))
  {
    if i == lim {
      LaterAt(heads, tails, strands, lim, i);
    }
    assert lim < 1 ==> last !in strands[0] && last !in strands[1];
    assert lim <= 1 ==> last !in strands[1];
    assert lim <= 2 ==> last !in strands[2];
    assert lim <= 3 ==> last !in strands[3];
    hide Strand, Linked, All;
    LinkTail(last, heads[i], tails[i], sched, q, end, strands[i]);
  }

  lemma LaterAt(heads: seq<Dispatch?>, tails: seq<Dispatch?>, strands: seq<seq<Dispatch>>, lim: nat, k: nat)
    requires |strands| == |heads| == |tails| == 4 && lim <= k < 4 && Later(heads, tails, strands, lim)
    ensures Strand(heads[k], tails[k], strands[k])
  {
    hide Strand;
    if k == 0 {
    } else if k == 1 {
    } else if k == 2 {
    } else {
      assert k == 3;
    }
  }

  lemma SpliceEnd(heads: seq<Dispatch?>, tails: seq<Dispatch?>, strands: seq<seq<Dispatch>>, m: nat, q: seq<Dispatch>)
    requires |strands| == |heads| == |tails| == 4 && m < 4 && Midway(heads, tails, strands, m, 4, q)
    ensures Linked(heads[m], Flat(strands, 4), if m == 3 then heads[m] else null)
  {
    hide Linked, Later, Flat;
  }

  method LinkMidway(heads: seq<Dispatch?>, tails: seq<Dispatch?>, ghost strands: seq<seq<Dispatch>>, ghost m: nat,
                    last: Dispatch, i: nat, ghost q: seq<Dispatch>)
    returns (ghost q': seq<Dispatch>)
    requires |strands| == |heads| == |tails| == 4 && Apart(strands) && m < 4 && 1 <= i < 4
    requires i < m ==> heads[i] == null && tails[i] == null
    requires last in All(strands) && q != [] && last == q[|q| - 1] && Midway(heads, tails, strands, m, i, q)
    modifies last`nx_sched
    ensures Midway(heads, tails, strands, m, i + 1, q')
    ensures q' != [] && q'[|q'| - 1] == if i > m && heads[i] != null then tails[i] else last
  {
    ghost var lim := Max(i, m + 1);
    FlatApart(strands, lim);
    assert last in q;
    if i == lim {
      LaterAt(heads, tails, strands, lim, i);
      StrandEnds(heads[i], tails[i], strands[i]);
    }
    hide Strand, Linked, Apart, All, Later;
    LinkStrand(heads, tails, strands, lim, heads[m], last, i, q, if i == m + 1 && m > 0 then heads[m] else null);
    q' := if i == lim then q + strands[i] else q;
  }

  /** Stage 3 of opsec_os: splices the strands tail to head. While it looks for the first full strand
      it does not advance. The last strand, where it is the only full one, is left closed on itself. */
  method Splice(heads: seq<Dispatch?>, tails: seq<Dispatch?>, ghost strands: seq<seq<Dispatch>>, ghost m: nat)
    returns (sched: Dispatch?)
    requires |strands| == |heads| == |tails| == 4 && m < 4 && Apart(strands) && FirstFull(strands, m)
    requires Later(heads, tails, strands, 0)
    modifies All(strands)`nx_sched
    ensures Linked(sched, Flat(strands, 4), if m == 3 then sched else null)
  {
    hide *;
    SpliceStart(heads, tails, strands, m);
    ghost var q := strands[m];
    var j, i := 0, 1;
    sched := heads[0];
    while i < 4
      invariant 0 <= j < 4 && 1 <= i <= 4 && (j < m ==> i == 1 && sched == heads[j])
      invariant q != [] && Midway(heads, tails, strands, m, i, q) && (i == 1 ==> q == strands[m])
      invariant j >= m ==> sched == heads[m] && tails[j] == q[|q| - 1] && (i <= m ==> j == m)
      decreases 4 - i, 4 - j
    {
      EndsAt(heads, tails, strands, m, j);
      EndsAt(heads, tails, strands, m, i);
      if tails[j] == null {
        j := j + 1;
        sched := heads[j];
      } else {
        q := LinkMidway(heads, tails, strands, m, tails[j], i, q);
        if heads[i] != null {
          j := i;
        }
        i := i + 1;
      }
    }
    SpliceEnd(heads, tails, strands, m, q);
  }

  // --------------------------------------------------------------------- The whole day change

  /** The status every dispatch's day closes with. */
  ghost function Closed(q: seq<Dispatch>, c: Config): (codes: map<Dispatch, Byte>)
    reads (set d | d in q)
    ensures (forall d :: d in q ==> d in codes) && forall d :: d in codes ==> d in q
  {
    map d | d in q :: EndOfDay(d.Value(), c).status
  }

  /** Something is schedulable. */
  ghost predicate Busy(codes: map<Dispatch, Byte>) {
    exists d :: d in codes && Schedulable(codes[d])
  }

  /** d runs no later than e: it has a stronger strand, or the same one and no less priority. */
  ghost predicate Ahead(codes: map<Dispatch, Byte>, d: Dispatch, e: Dispatch)
    reads d`priority, e`priority
  {
    && d in codes && e in codes
    && (StrandOf(codes[d]) < StrandOf(codes[e])
        || (StrandOf(codes[d]) == StrandOf(codes[e]) && d.priority >= e.priority))
  }

  /** order has every schedulable dispatch of q exactly once, strongest strand first, by falling priority in each. */
  ghost predicate IsSchedule(order: seq<Dispatch>, q: seq<Dispatch>, codes: map<Dispatch, Byte>)
    reads (set d | d in order)`priority
  {
    && Distinct(order)
    && (forall d :: d in order ==> d in q && d in codes && Schedulable(codes[d]))
    && (forall d :: d in q && d in codes && Schedulable(codes[d]) ==> d in order)
    && forall i, j :: 0 <= i < j < |order| ==> Ahead(codes, order[i], order[j])
  }

  /** Every dispatch of the schedule is slack. */
  ghost predicate AllSlack(order: seq<Dispatch>, codes: map<Dispatch, Byte>) {
    forall d :: d in order ==> d in codes && StrandOf(codes[d]) == 3
  }

  /** From sched the links run through the schedule the codes call for; they close on its head if all are slack. */
  ghost predicate Drawn(sched: Dispatch?, order: seq<Dispatch>, q: seq<Dispatch>, codes: map<Dispatch, Byte>)
    reads (set d | d in order)`nx_sched, (set d | d in order)`priority
  {
    IsSchedule(order, q, codes) && Linked(sched, order, if AllSlack(order, codes) then sched else null)
  }

  lemma DrawnHead(sched: Dispatch?, order: seq<Dispatch>, q: seq<Dispatch>, codes: map<Dispatch, Byte>)
    requires Drawn(sched, order, q, codes)
    ensures sched != null && sched in q && forall d :: d in order ==> d in q
  {
  }

  lemma {:induction false} FlatAhead(strands: seq<seq<Dispatch>>, n: nat, q: seq<Dispatch>, codes: map<Dispatch, Byte>)
    requires |strands| == 4 && n <= 4 && Holds(strands, q, codes)
    requires forall k :: 0 <= k < 4 ==> Descending(strands[k])
    ensures forall i, j :: 0 <= i < j < |Flat(strands, n)| ==> Ahead(codes, Flat(strands, n)[i], Flat(strands, n)[j])
    ensures forall d :: d in Flat(strands, n) ==> d in codes && StrandOf(codes[d]) < n
  {
    if n > 0 {
      FlatAhead(strands, n - 1, q, codes);
      var f, s := Flat(strands, n - 1), strands[n - 1];
      forall d | d in f + s ensures d in codes && StrandOf(codes[d]) < n {
        assert d in f || Names(codes, d, n - 1);
      }
      forall i, j | 0 <= i < j < |f + s| ensures Ahead(codes, (f + s)[i], (f + s)[j]) {
        if i < |f| {
          assert (f + s)[i] == f[i] && f[i] in f;
          assert j < |f| || (s[j - |f|] in s && Names(codes, s[j - |f|], n - 1));
        } else {
          var a, b := i - |f|, j - |f|;
          assert s[a] in s && s[b] in s && Names(codes, s[a], n - 1) && Names(codes, s[b], n - 1);
        }
      }
    }
  }

  lemma HeldApart(strands: seq<seq<Dispatch>>, q: seq<Dispatch>, codes: map<Dispatch, Byte>)
    requires |strands| == 4 && Holds(strands, q, codes)
    ensures Apart(strands)
  {
    forall j, k, d | 0 <= j < 4 && 0 <= k < 4 && j != k && d in strands[j] ensures d !in strands[k] {
      assert Names(codes, d, j) && !Names(codes, d, k);
    }
  }

  lemma FlatIsSchedule(strands: seq<seq<Dispatch>>, q: seq<Dispatch>, codes: map<Dispatch, Byte>)
    requires |strands| == 4 && Holds(strands, q, codes) && Coded(q, codes) && Distinct(Flat(strands, 4))
    requires forall k :: 0 <= k < 4 ==> Descending(strands[k])
    ensures IsSchedule(Flat(strands, 4), q, codes)
  {
    FlatAhead(strands, 4, q, codes);
    forall d | d in q && Schedulable(codes[d]) ensures d in Flat(strands, 4) {
      assert Names(codes, d, StrandOf(codes[d]));
      FlatHas(strands, 4, d);
    }
    forall d | d in Flat(strands, 4) ensures d in q && Schedulable(codes[d]) {
      FlatHas(strands, 4, d);
    }
  }

  lemma FullStrand(strands: seq<seq<Dispatch>>, q: seq<Dispatch>, codes: map<Dispatch, Byte>) returns (m: nat)
    requires |strands| == 4 && Holds(strands, q, codes) && Coded(q, codes)
    requires exists d :: d in q && Schedulable(codes[d])
    ensures FirstFull(strands, m) && m < 4 && (m == 3 <==> AllSlack(Flat(strands, 4), codes))
  {
    var d :| d in q && Schedulable(codes[d]);
    assert Names(codes, d, StrandOf(codes[d]));
    assert d in strands[StrandOf(codes[d])];
    m := if strands[0] != [] then 0 else if strands[1] != [] then 1 else if strands[2] != [] then 2 else 3;
    if m == 3 {
      forall e | e in Flat(strands, 4) ensures e in codes && StrandOf(codes[e]) == 3 {
        FlatHas(strands, 4, e);
        assert Names(codes, e, 3);
      }
    } else {
      var e := strands[m][0];
      assert Names(codes, e, m);
      FlatHas(strands, 4, e);
    }
  }

  lemma StrandsAre(heads: seq<Dispatch?>, tails: seq<Dispatch?>, strands: seq<seq<Dispatch>>)
    requires |strands| == 4 && Strands(heads, tails, strands)
    ensures |heads| == |tails| == 4 && Later(heads, tails, strands, 0)
    ensures forall k :: 0 <= k < 4 ==> Descending(strands[k])
  {
    hide Strand, Descending;
  }

  lemma AllHeld(strands: seq<seq<Dispatch>>, q: seq<Dispatch>, codes: map<Dispatch, Byte>)
    requires |strands| == 4 && Holds(strands, q, codes)
    ensures forall d :: d in All(strands) ==> d in q
  {
    forall d | d in All(strands) ensures d in q {
      assert d in strands[0] || d in strands[1] || d in strands[2] || d in strands[3];
    }
  }

  /** Stages 1 and 3 together, on dispatches whose codes are set. */
  method Schedule(mission: Dispatch?, ghost q: seq<Dispatch>, ghost codes: map<Dispatch, Byte>)
    returns (sched: Dispatch?, ghost order: seq<Dispatch>)
    requires Binder(mission, q) && Coded(q, codes) && Marked(q, codes, 0)
    requires exists d :: d in q && Schedulable(codes[d])
    modifies (set d | d in q)`nx_sched, (set d | d in q)`status
    ensures Drawn(sched, order, q, codes)
    ensures forall m :: 0 <= m < |q| ==> q[m].status == Mark(q, codes, m)
  {
    hide Binder, Linked, Strands, Holds, Apart, Later, Descending, Flat, AllSlack, IsSchedule, All, Distinct;
    var heads, tails;
    ghost var strands;
    heads, tails, strands := Sort(mission, q, codes);
    StrandsAre(heads, tails, strands);
    HeldApart(strands, q, codes);
    AllHeld(strands, q, codes);
    ghost var m := FullStrand(strands, q, codes);
    sched := Splice(heads, tails, strands, m);
    order := Flat(strands, 4);
    assert Distinct(order) by { LinkedDistinct(sched, order, if m == 3 then sched else null); }
    FlatIsSchedule(strands, q, codes);
  }

  lemma LinkedDistinct(sched: Dispatch?, q: seq<Dispatch>, end: Dispatch?)
    requires Linked(sched, q, end)
    ensures Distinct(q)
  {
  }

  lemma ClosedIsCoded(q: seq<Dispatch>, c: Config)
    ensures Coded(q, Closed(q, c))
  {
    forall d | d in q ensures Sortable(EndOfDay(d.Value(), c).status) {
      StatusNamesStrand(d.Value(), c);
    }
  }

  lemma BusyHas(q: seq<Dispatch>, c: Config)
    requires Busy(Closed(q, c))
    ensures exists d :: d in q && Schedulable(Closed(q, c)[d])
  {
    var d :| d in Closed(q, c) && Schedulable(Closed(q, c)[d]);
    assert d in q;
  }

  // --------------------------------------------------------------------- The schedule by its codes

  /** The codes that put a dispatch on the schedule, the executors' among them. */
  predicate Runs(s: Byte) {
    s in {DS_DEX, DS_DAP, DS_PRO, DS_SLK, DS_EXEC_EMRG, DS_EXEC_OP, DS_EXEC_IDLE}
  }

  /** Two codes of one class: expedite and the emergency executor, approach and the operational one, promoted and the
      idle one, or slack. */
  predicate Peers(s: Byte, t: Byte) {
    || s == t
    || (s in {DS_DEX, DS_EXEC_EMRG} && t in {DS_DEX, DS_EXEC_EMRG})
    || (s in {DS_DAP, DS_EXEC_OP} && t in {DS_DAP, DS_EXEC_OP})
    || (s in {DS_PRO, DS_EXEC_IDLE} && t in {DS_PRO, DS_EXEC_IDLE})
  }

  /** The first class comes before the second, in that order. */
  predicate Stronger(s: Byte, t: Byte) {
    || (s in {DS_DEX, DS_EXEC_EMRG} && t in {DS_DAP, DS_EXEC_OP, DS_PRO, DS_EXEC_IDLE, DS_SLK})
    || (s in {DS_DAP, DS_EXEC_OP} && t in {DS_PRO, DS_EXEC_IDLE, DS_SLK})
    || (s in {DS_PRO, DS_EXEC_IDLE} && t == DS_SLK)
  }

  /** order has the dispatches whose codes run, each once: expedite first, then approach, promoted and slack, and by
      falling priority in each class. */
  ghost predicate ByClass(order: seq<Dispatch>, q: seq<Dispatch>, codes: map<Dispatch, Byte>)
    reads (set d | d in order)`priority
  {
    && Distinct(order)
    && (forall d :: d in order ==> d in q && d in codes && Runs(codes[d]))
    && (forall d :: d in q && d in codes && Runs(codes[d]) ==> d in order)
    && forall i, j :: 0 <= i < j < |order| ==>
         var s, t := codes[order[i]], codes[order[j]];
         Stronger(s, t) || (Peers(s, t) && order[i].priority >= order[j].priority)
  }

  /** The links close on the head of the schedule exactly when all of it is slack. */
  ghost predicate ClosesOnSlack(sched: Dispatch?, order: seq<Dispatch>, codes: map<Dispatch, Byte>)
    reads (set d | d in order)`nx_sched
  {
    Linked(sched, order, if forall d :: d in order ==> d in codes && codes[d] == DS_SLK then sched else null)
  }

  /** The n-th dispatch is marked scheduled, unless it is the first of its class, or does not run at all. */
  ghost predicate MarkedByClass(q: seq<Dispatch>, codes: map<Dispatch, Byte>, n: nat, status: Byte)
    requires n < |q| && forall d :: d in q ==> d in codes
  {
    status == if Runs(codes[q[n]]) && exists m :: 0 <= m < n && Peers(codes[q[m]], codes[q[n]]) then DS_SCH
              else codes[q[n]]
  }

  /** A day closes with one of these codes, or one that is not scheduled. */
  ghost predicate Proper(q: seq<Dispatch>, codes: map<Dispatch, Byte>) {
    forall d :: d in q ==> d in codes && (Runs(codes[d]) || codes[d] > DS_EXEC_IDLE)
  }

  lemma ClosedIsProper(q: seq<Dispatch>, c: Config)
    ensures Proper(q, Closed(q, c))
  {
  }

  /** The strand's number orders the classes. */
  lemma StrandIsClass(s: Byte, t: Byte)
    requires Runs(s) && Runs(t)
    ensures Schedulable(s) && (StrandOf(s) == 3 <==> s == DS_SLK)
    ensures StrandOf(s) < StrandOf(t) <==> Stronger(s, t)
    ensures StrandOf(s) == StrandOf(t) <==> Peers(s, t)
  {
  }

  lemma ScheduleIsByClass(order: seq<Dispatch>, q: seq<Dispatch>, codes: map<Dispatch, Byte>)
    requires IsSchedule(order, q, codes) && Proper(q, codes)
    ensures ByClass(order, q, codes)
  {
    hide Distinct, StrandOf, Stronger, Peers, Runs;
    forall d | d in q && d in codes ensures Schedulable(codes[d]) <==> Runs(codes[d]) {
      if Runs(codes[d]) {
        StrandIsClass(codes[d], codes[d]);
      }
    }
    forall i, j | 0 <= i < j < |order|
      ensures var s, t := codes[order[i]], codes[order[j]];
              Stronger(s, t) || (Peers(s, t) && order[i].priority >= order[j].priority)
    {
      assert order[i] in order && order[j] in order && Ahead(codes, order[i], order[j]);
      StrandIsClass(codes[order[i]], codes[order[j]]);
    }
  }

  lemma SlackByClass(order: seq<Dispatch>, q: seq<Dispatch>, codes: map<Dispatch, Byte>)
    requires ByClass(order, q, codes)
    ensures AllSlack(order, codes) <==> forall d :: d in order ==> d in codes && codes[d] == DS_SLK
  {
    hide Distinct, StrandOf, Stronger, Peers, Runs;
    forall d | d in order ensures d in codes && (StrandOf(codes[d]) == 3 <==> codes[d] == DS_SLK) {
      StrandIsClass(codes[d], codes[d]);
    }
  }

  lemma DrawnByClass(sched: Dispatch?, order: seq<Dispatch>, q: seq<Dispatch>, codes: map<Dispatch, Byte>)
    requires Drawn(sched, order, q, codes) && Proper(q, codes)
    ensures ByClass(order, q, codes) && ClosesOnSlack(sched, order, codes)
  {
    hide Linked, IsSchedule, ByClass, AllSlack, Proper;
    ScheduleIsByClass(order, q, codes);
    SlackByClass(order, q, codes);
  }

  lemma MarkByClass(q: seq<Dispatch>, codes: map<Dispatch, Byte>, n: nat)
    requires n < |q| && Proper(q, codes)
    ensures MarkedByClass(q, codes, n, Mark(q, codes, n))
  {
    forall m | 0 <= m < n && Runs(codes[q[n]])
      ensures Peers(codes[q[m]], codes[q[n]]) <==> Names(codes, q[m], StrandOf(codes[q[n]]))
    {
      assert q[m] in q && q[n] in q;
    }
  }

  /** opsec_os: closes the day of every mission dispatch and draws up the new schedule. */
  method OpsecOs(mission: Dispatch?, c: Config, ghost q: seq<Dispatch>)
    returns (sched: Dispatch?, ghost order: seq<Dispatch>)
    requires Binder(mission, q) && Busy(Closed(q, c))
    modifies (set d | d in q)
    ensures Binder(mission, q) && Drawn(sched, order, q, old(Closed(q, c)))
    ensures ByClass(order, q, old(Closed(q, c))) && ClosesOnSlack(sched, order, old(Closed(q, c)))
    ensures forall m :: 0 <= m < |q| ==> MarkedByClass(q, old(Closed(q, c)), m, q[m].status)
    ensures forall m :: 0 <= m < |q| ==>
              q[m].Value() == old(EndOfDay(q[m].Value(), c)).(status := Mark(q, old(Closed(q, c)), m))
  {
    hide EndOfDay, Drawn, Coded, Busy, Mark, Binder, ByClass, ClosesOnSlack, MarkedByClass, Proper;
    ghost var codes := Closed(q, c);
    ClosedIsProper(q, c);
    BusyHas(q, c);
    ClosedIsCoded(q, c);
    CloseDays(mission, c, q);
    assert Marked(q, codes, 0);
    sched, order := Schedule(mission, q, codes);
    DrawnByClass(sched, order, q, codes);
    forall m | 0 <= m < |q| ensures MarkedByClass(q, codes, m, q[m].status) {
      MarkByClass(q, codes, m);
    }
  }

  /** Where XS$ goes when d's claim is used up. */
  function Successor(d: Dispatch, sched: Dispatch): Dispatch
    reads d`nx_sched
  {
    if d.nx_sched != null then d.nx_sched else sched
  }

  /** The rule "nx_sched, else sched" goes round the schedule, closed or not. */
  lemma SuccessorIsCyclic(sched: Dispatch, order: seq<Dispatch>, codes: map<Dispatch, Byte>, i: nat)
    requires Linked(sched, order, if AllSlack(order, codes) then sched else null) && i < |order|
    ensures Successor(order[i], sched) == order[(i + 1) % |order|]
  {
    assert order[i].nx_sched ==
           if i + 1 < |order| then order[i + 1] else if AllSlack(order, codes) then sched else null;
  }
}
