/** f/rdc%'s double-buffered ledgers: transaction cards and dispatch cards linked in place, seen
    from two copies of the queue ends that TX$ swaps at each commit. */
module RdcLedger {
  import opened Basics
  import opened RdcQueues

  class DispatchCard {
    var next: DispatchCard?

    constructor ()
      ensures next == null
    {
      next := null;
    }
  }

  class TxCard {
    var next: TxCard?
    var op: Op
    var dispatch: DispatchCard?

    constructor (op: Op, dispatch: DispatchCard?)
      ensures next == null && this.op == op && this.dispatch == dispatch
    {
      next, this.op, this.dispatch := null, op, dispatch;
    }
  }

  datatype DispatchQ = DispatchQ(first: DispatchCard?, last: DispatchCard?)

  const EMPTY: DispatchQ := DispatchQ(null, null)

  class Ledger {
    var e_first: TxCard?
    var e_last: TxCard?
    var d_dispatch: DispatchQ
    var d_free: DispatchQ

    constructor ()
    {
      e_first, e_last, d_dispatch, d_free := null, null, EMPTY, EMPTY;
    }
  }

  function Maybe(d: DispatchCard?): Option<DispatchCard> { if d == null then None else Some(d) }

  /** The ends name q and the links run through it; what the last card's link holds is free. */
  ghost predicate TxChain(first: TxCard?, last: TxCard?, q: seq<TxCard>)
    reads (set c | c in q)`next
  {
    && Distinct(q)
    && (q == [] ==> first == null && last == null)
    && (q != [] ==> first == q[0] && last == q[|q| - 1])
    && (forall i :: 0 <= i < |q| - 1 ==> q[i].next == q[i + 1])
  }

  ghost predicate Chain(ends: DispatchQ, q: seq<DispatchCard>)
    reads (set d | d in q)`next
  {
    && Distinct(q)
    && (q == [] ==> ends == EMPTY)
    && (q != [] ==> ends.first == q[0] && ends.last == q[|q| - 1])
    && (forall i :: 0 <= i < |q| - 1 ==> q[i].next == q[i + 1])
  }

  function Elems<T>(q: seq<T>): set<T> { set x | x in q }

  ghost predicate Queued(d: DispatchCard, queues: Queues<DispatchCard>) {
    d in queues.dispatch || d in queues.free
  }

  /** d may be given to a card that is to push it: it is in no queue, and no card of `others` is to
      push it. */
  ghost predicate Held(d: DispatchCard?, others: set<TxCard>, queues: Queues<DispatchCard>, pool: set<DispatchCard>)
    reads others`op, others`dispatch
  {
    && d != null && d in pool && !Queued(d, queues)
    && forall o :: o in others && IsPush(o.op) ==> o.dispatch != d
  }

  /** Every waiting card that is to push holds a dispatch card of its own. */
  ghost predicate Pending(waiting: set<TxCard>, queues: Queues<DispatchCard>, pool: set<DispatchCard>)
    reads waiting`op, waiting`dispatch
  {
    forall c :: c in waiting && IsPush(c.op) ==> Held(c.dispatch, waiting - {c}, queues, pool)
  }

  lemma PendingJoin(waiting: set<TxCard>, card: TxCard, queues: Queues<DispatchCard>, pool: set<DispatchCard>)
    requires Pending(waiting, queues, pool) && card !in waiting
    requires IsPush(card.op) ==> Held(card.dispatch, waiting, queues, pool)
    ensures Pending(waiting + {card}, queues, pool)
  {
    forall c | c in waiting + {card} && IsPush(c.op)
      ensures Held(c.dispatch, waiting + {card} - {c}, queues, pool)
    {
      if c == card {
        assert waiting + {card} - {c} == waiting;
      } else {
        assert Held(c.dispatch, waiting - {c}, queues, pool);
      }
    }
  }

  ghost predicate QueuesApart(queues: Queues<DispatchCard>, pool: set<DispatchCard>) {
    && (forall d :: d in queues.dispatch ==> d in pool && d !in queues.free)
    && (forall d :: d in queues.free ==> d in pool)
  }

  ghost function LastOf<T>(q: seq<T>): set<T> { if q == [] then {} else {q[|q| - 1]} }

  ghost function FirstOf<T>(q: seq<T>): set<T> { if q == [] then {} else {q[0]} }

  method PopDispatch(card: TxCard, tq: DispatchQ, ghost q: seq<DispatchCard>) returns (tq': DispatchQ)
    requires Chain(tq, q)
    modifies card`dispatch
    ensures Maybe(card.dispatch) == if q == [] then None else Some(q[0])
    ensures Chain(tq', if q == [] then [] else q[1..])
  {
    card.dispatch := tq.first;
    if tq.first == tq.last || tq.first == null {
      tq' := EMPTY;
    } else {
      assert q[0].next == q[1];
      tq' := tq.(first := tq.first.next);
    }
  }

  /** Cut short after its first write, or after its second, the push leaves q as it was. */
  method PushDispatch(d: DispatchCard, tq: DispatchQ, ghost q: seq<DispatchCard>, stop: nat)
    returns (tq': DispatchQ, finished: bool)
    requires Chain(tq, q) && d !in q
    modifies d`next, LastOf(q)`next
    ensures Chain(tq, q)
    ensures stop >= 2 ==> finished
    ensures finished ==> Chain(tq', q + [d])
  {
    finished := false;
    tq' := tq;
    d.next := null;
    if stop == 0 { return; }
    if tq.first == null || tq.last == null {
      tq' := DispatchQ(d, d);
    } else {
      tq.last.next := d;
      if stop == 1 { return; }
      tq' := tq.(last := d);
    }
    finished := true;
  }

  ghost function Pushed(card: TxCard): set<DispatchCard>
    reads card`op, card`dispatch
  {
    if IsPush(card.op) && card.dispatch != null then {card.dispatch} else {}
  }

  /** Executes the operation of a card on the queue it names, q; the other queue is o. */
  method ExecuteCard(card: TxCard, tq: DispatchQ, ghost q: seq<DispatchCard>, ghost ends: DispatchQ,
                     ghost o: seq<DispatchCard>, stop: nat)
    returns (tq': DispatchQ, finished: bool)
    requires Chain(tq, q) && Chain(ends, o) && forall d :: d in q ==> d !in o
    requires IsPush(card.op) ==> card.dispatch != null && card.dispatch !in q && card.dispatch !in o
    modifies card`dispatch, Pushed(card)`next, LastOf(q)`next
    ensures Chain(tq, q) && Chain(ends, o)
    ensures IsPush(card.op) ==> card.dispatch == old(card.dispatch)
    ensures stop >= 4 ==> finished
    ensures finished ==>
              var e := Execute(Queues(q, q), card.op, old(Maybe(card.dispatch)));
              Chain(tq', Target(e.queues, card.op)) && Maybe(card.dispatch) == e.dispatch
  {
    tq' := tq;
    finished := true;
    if IsPop(card.op) {
      tq' := PopDispatch(card, tq, q);
    }
    if IsPush(card.op) {
      if stop == 0 { return tq, false; }
      tq', finished := PushDispatch(card.dispatch, tq, q, stop - 1);
    }
  }

  /** Taking the front card out and executing it leaves the rest apart as they were. */
  lemma PendingLeave(q: seq<TxCard>, queues: Queues<DispatchCard>, pool: set<DispatchCard>)
    requires q != [] && Distinct(q) && Pending(Elems(q), queues, pool) && QueuesApart(queues, pool)
    requires Distinct(queues.dispatch) && Distinct(queues.free)
    ensures IsPush(q[0].op) ==> q[0].dispatch != null
    ensures var after := Execute(queues, q[0].op, Maybe(q[0].dispatch)).queues;
            Pending(Elems(q[1..]), after, pool) && QueuesApart(after, pool)
  {
    assert q[0] in Elems(q);
    var after := Execute(queues, q[0].op, Maybe(q[0].dispatch)).queues;
    assert forall d :: d in Target(after, q[0].op) ==> d in Target(queues, q[0].op) || Some(d) == Maybe(q[0].dispatch);
    forall c | c in Elems(q[1..]) && IsPush(c.op)
      ensures Held(c.dispatch, Elems(q[1..]) - {c}, after, pool)
    {
      assert c != q[0] && c in Elems(q);
      assert Held(c.dispatch, Elems(q) - {c}, queues, pool);
      assert q[0] in Elems(q) - {c};
    }
    if IsPop(q[0].op) && Target(queues, q[0].op) != [] {
      var t := Target(queues, q[0].op);
      assert forall d :: d in t[1..] ==> d in t;
    }
  }

  /** Executes the card on a ledger's pair of queues. */
  method ExecuteOn(card: TxCard, d: DispatchQ, f: DispatchQ, ghost queues: Queues<DispatchCard>,
                   ghost pool: set<DispatchCard>, ghost after: Effect<DispatchCard>, stop: nat)
    returns (d': DispatchQ, f': DispatchQ, finished: bool)
    requires Chain(d, queues.dispatch) && Chain(f, queues.free) && QueuesApart(queues, pool)
    requires IsPush(card.op) ==> card.dispatch != null && card.dispatch in pool && !Queued(card.dispatch, queues)
    requires after == Execute(queues, card.op, Maybe(card.dispatch))
    modifies card`dispatch, pool`next
    ensures Chain(d, queues.dispatch) && Chain(f, queues.free)
    ensures IsPush(card.op) ==> card.dispatch == old(card.dispatch)
    ensures stop >= 4 ==> finished
    ensures finished ==>
              && Chain(d', after.queues.dispatch) && Chain(f', after.queues.free)
              && Maybe(card.dispatch) == after.dispatch
  {
    d', f' := d, f;
    ghost var q, o := queues.dispatch, queues.free;
    assert LastOf(q) <= pool && LastOf(o) <= pool;
    if OnDispatch(card.op) {
      d', finished := ExecuteCard(card, d, q, f, o, stop);
    } else {
      f', finished := ExecuteCard(card, f, o, d, q, stop);
    }
  }

  class Rdc {
    var current: Ledger
    var event: Ledger
    ghost const pool: set<DispatchCard>
    ghost var txq: seq<TxCard>
    ghost var queues: Queues<DispatchCard>

    ghost function LastCard(): set<TxCard>
      reads `txq
    {
      if txq == [] then {} else {txq[|txq| - 1]}
    }

    ghost predicate Valid()
      reads this, current, txq, queues.dispatch, queues.free
    {
      && current != event
      && TxChain(current.e_first, current.e_last, txq)
      && Chain(current.d_dispatch, queues.dispatch)
      && Chain(current.d_free, queues.free)
      && QueuesApart(queues, pool) && Pending(Elems(txq), queues, pool)
    }

    /** init(), after the first ledger has been made current: threads the dispatch cards into the
        free queue of the second and publishes it. */
    constructor (lega: Ledger, legb: Ledger, stack: array<DispatchCard>)
      requires lega != legb && stack.Length > 0 && Distinct(stack[..])
      modifies legb, stack[..]
      ensures Valid() && current == legb && event == lega
      ensures txq == [] && queues == Queues([], stack[..]) && pool == (set d | d in stack[..])
    {
      current, event := legb, lega;
      txq, queues := [], Queues([], stack[..]);
      pool := set d | d in stack[..];
      new;
      var n := stack.Length;
      stack[n - 1].next := null;
      for i := 1 to n
        modifies stack[..]
        invariant stack[n - 1].next == null
        invariant forall k :: 0 <= k < i - 1 ==> stack[k].next == stack[k + 1]
      {
        assert forall k :: 0 <= k < i - 1 ==> stack[..][k] != stack[..][i - 1];
        stack[i - 1].next := stack[i];
      }
      legb.e_first, legb.e_last := null, null;
      legb.d_dispatch := EMPTY;
      legb.d_free := DispatchQ(stack[0], stack[n - 1]);
    }

    /** TX$ commits: the ledger written as the event becomes the current one. */
    method Publish(ghost cards: seq<TxCard>, ghost after: Queues<DispatchCard>)
      requires current != event
      requires TxChain(event.e_first, event.e_last, cards)
      requires Chain(event.d_dispatch, after.dispatch) && Chain(event.d_free, after.free)
      requires QueuesApart(after, pool) && Pending(Elems(cards), after, pool)
      modifies this
      ensures Valid() && current == old(event) && event == old(current)
      ensures txq == cards && queues == after
    {
      current, event := event, current;
      txq, queues := cards, after;
    }

    method PrepEvent()
      modifies event
      ensures event.e_first == current.e_first && event.e_last == current.e_last
      ensures event.d_dispatch == current.d_dispatch && event.d_free == current.d_free
    {
      event.e_first, event.e_last := current.e_first, current.e_last;
      event.d_dispatch, event.d_free := current.d_dispatch, current.d_free;
    }

    /** The body of txp for an ordinary card, cut short after `stop` of its statements when TX$
        rolls it back. */
    method TxpBody(card: TxCard, stop: nat) returns (finished: bool)
      requires Valid() && card !in txq
      modifies event, card`next, LastCard()`next
      ensures TxChain(current.e_first, current.e_last, txq)
      ensures stop >= 4 ==> finished
      ensures finished ==> TxChain(event.e_first, event.e_last, txq + [card])
      ensures finished ==> event.d_dispatch == current.d_dispatch && event.d_free == current.d_free
    {
      finished := false;
      if stop == 0 { return; }
      PrepEvent();
      if stop == 1 { return; }
      card.next := null;
      if stop == 2 { return; }
      if event.e_last == null || event.e_first == null {
        event.e_first := card;
        event.e_last := card;
      } else {
        event.e_last.next := card;
        if stop == 3 { return; }
        event.e_last := card;
      }
      finished := true;
    }

    /** txp$ committed: the card joins the end of the transaction queue. */
    method Txp(card: TxCard)
      requires Valid() && card !in txq && card.op < TX_INIT1
      requires IsPush(card.op) ==> Held(card.dispatch, Elems(txq), queues, pool)
      modifies this, event, card`next, LastCard()`next
      ensures Valid() && current == old(event) && event == old(current)
      ensures txq == old(txq) + [card] && queues == old(queues)
      ensures TxChain(event.e_first, event.e_last, old(txq))
    {
      var done := TxpBody(card, 4);
      PendingJoin(Elems(txq), card, queues, pool);
      assert Elems(txq + [card]) == Elems(txq) + {card};
      Publish(txq + [card], queues);
    }

    /** A body of txp that TX$ rolled back leaves the queues as they were. */
    method TxpRolledBack(card: TxCard, stop: nat)
      requires Valid() && card !in txq
      modifies event, card`next, LastCard()`next
      ensures Valid() && txq == old(txq) && queues == old(queues)
    {
      var done := TxpBody(card, stop);
    }

    /** Moves the event ledger's transaction queue past the front card. */
    method AdvanceEvent()
      requires current != event && txq != [] && TxChain(current.e_first, current.e_last, txq)
      modifies event`e_first, event`e_last
      ensures TxChain(event.e_first, event.e_last, txq[1..])
    {
      if current.e_first == current.e_last {
        event.e_first, event.e_last := null, null;
      } else {
        assert txq[0].next == txq[1];
        event.e_first := current.e_first.next;
        event.e_last := current.e_last;
      }
    }

    /** The body of txe from where it starts on the front card's operation, cut short after `stop`
        more statements. Whatever it has written by then, the current ledger reads as it did. */
    method TxeFront(card: TxCard, ghost after: Effect<DispatchCard>, stop: nat) returns (finished: bool)
      requires current != event
      requires Chain(current.d_dispatch, queues.dispatch) && Chain(current.d_free, queues.free)
      requires QueuesApart(queues, pool)
      requires IsPush(card.op) ==> card.dispatch != null && card.dispatch in pool && !Queued(card.dispatch, queues)
      requires after == Execute(queues, card.op, Maybe(card.dispatch))
      modifies event`d_dispatch, event`d_free, card`op, card`dispatch, pool`next
      ensures Chain(current.d_dispatch, queues.dispatch) && Chain(current.d_free, queues.free)
      ensures finished <==> stop >= 6
      ensures !finished ==> card.op == old(card.op) && (IsPush(card.op) ==> card.dispatch == old(card.dispatch))
      ensures finished ==>
                && Chain(event.d_dispatch, after.queues.dispatch) && Chain(event.d_free, after.queues.free)
                && card.op == TX_COMMIT && Maybe(card.dispatch) == after.dispatch
    {
      hide Chain, QueuesApart;
      var d, f, done := ExecuteOn(card, current.d_dispatch, current.d_free, queues, pool, after, stop);
      finished := false;
      if done {
        finished := Record(card, d, f, stop > 5);
      }
    }

    /** Writes the queue ends of an executed card to the event ledger, and marks it committed. */
    method Record(card: TxCard, d: DispatchQ, f: DispatchQ, commit: bool) returns (committed: bool)
      modifies event`d_dispatch, event`d_free, card`op
      ensures event.d_dispatch == d && event.d_free == f && committed == commit
      ensures card.op == if commit then TX_COMMIT else old(card.op)
    {
      event.d_dispatch, event.d_free := d, f;
      if commit {
        card.op := TX_COMMIT;
      }
      committed := commit;
    }

    /** The body of txe, cut short after `stop` of its statements when TX$ rolls it back. */
    method TxeBody(ghost after: Effect<DispatchCard>, stop: nat) returns (finished: bool)
      requires Valid()
      requires txq != [] ==> (IsPush(txq[0].op) ==> txq[0].dispatch != null)
                             && after == Execute(queues, txq[0].op, Maybe(txq[0].dispatch))
      modifies event, FirstOf(txq)`op, FirstOf(txq)`dispatch, pool`next
      ensures Chain(current.d_dispatch, queues.dispatch) && Chain(current.d_free, queues.free)
      ensures txq != [] ==> (finished <==> stop >= 9)
      ensures txq == [] ==> (finished <==> stop >= 1)
      ensures txq != [] && !finished ==>
                txq[0].op == old(txq[0].op) && (IsPush(txq[0].op) ==> txq[0].dispatch == old(txq[0].dispatch))
      ensures finished && txq != [] ==>
                && TxChain(event.e_first, event.e_last, txq[1..])
                && Chain(event.d_dispatch, after.queues.dispatch) && Chain(event.d_free, after.queues.free)
                && txq[0].op == TX_COMMIT && Maybe(txq[0].dispatch) == after.dispatch
      ensures finished && txq == [] ==>
                && event.e_first == event.e_last == null
                && event.d_dispatch == current.d_dispatch && event.d_free == current.d_free
    {
      finished := false;
      if stop == 0 { return; }
      PrepEvent();
      var card := current.e_first;
      if card == null {
        event.e_first, event.e_last := null, null;
        return true;
      }
      assert card == txq[0] && card in Elems(txq);
      assert IsPush(card.op) ==> Held(card.dispatch, Elems(txq) - {card}, queues, pool);
      if stop == 1 { return; }
      AdvanceEvent();
      if stop == 2 { return; }
      finished := TxeFront(card, after, stop - 3);
    }

    /** txe$ committed: the front card, if there is one, leaves the transaction queue executed. */
    method Txe()
      requires Valid()
      modifies this, event, FirstOf(txq)`op, FirstOf(txq)`dispatch, pool`next
      ensures Valid() && current == old(event) && event == old(current)
      ensures old(txq) == [] ==> txq == [] && queues == old(queues)
      ensures old(txq) != [] ==> (IsPush(old(txq[0].op)) ==> old(txq[0].dispatch) != null)
      ensures old(txq) != [] ==>
                var card := old(txq)[0];
                var e := Execute(old(queues), old(card.op), old(Maybe(card.dispatch)));
                && txq == old(txq)[1..] && queues == e.queues
                && card.op == TX_COMMIT && Maybe(card.dispatch) == e.dispatch
    {
      ghost var after, rest := Effect(queues, None), txq;
      if txq != [] {
        PendingLeave(txq, queues, pool);
        after, rest := Execute(queues, txq[0].op, Maybe(txq[0].dispatch)), txq[1..];
      }
      assert FirstOf(txq) !! Elems(rest);
      hide Chain, Pending, QueuesApart;
      var done := TxeBody(after, 9);
      Publish(rest, after.queues);
    }

    /** A body of txe that TX$ rolled back leaves both queues as they were; the front card keeps its
        order unless all nine statements, of which the last marks it committed, had been executed. */
    method TxeRolledBack(stop: nat) returns (marked: bool)
      requires Valid()
      modifies event, FirstOf(txq)`op, FirstOf(txq)`dispatch, pool`next
      ensures Valid() && txq == old(txq) && queues == old(queues) && current == old(current) && event == old(event)
      ensures marked <==> txq != [] && stop >= 9
      ensures marked ==> txq[0].op == TX_COMMIT
      ensures txq != [] && !marked ==>
                txq[0].op == old(txq[0].op) && (IsPush(txq[0].op) ==> txq[0].dispatch == old(txq[0].dispatch))
    {
      ghost var after := Effect(queues, None);
      if txq != [] {
        PendingLeave(txq, queues, pool);
        after := Execute(queues, txq[0].op, Maybe(txq[0].dispatch));
      }
      var card := current.e_first;
      hide Chain, QueuesApart, Execute;
      var done := TxeBody(after, stop);
      forall c | c in Elems(txq) && IsPush(c.op) ensures Held(c.dispatch, Elems(txq) - {c}, queues, pool) {
        assert c.op == old(c.op) && c.dispatch == old(c.dispatch);
        assert old(Held(c.dispatch, Elems(txq) - {c}, queues, pool));
        assert forall o :: o in Elems(txq) - {c} && IsPush(o.op) ==> o.dispatch == old(o.dispatch) && IsPush(old(o.op));
      }
      marked := done && card != null;
    }

    /** A rolled back txe, retried to its commit: the front card is executed exactly once, unless the
        rollback came behind the last statement. Then it leaves the queue unexecuted. */
    method TxeRetried(stop: nat) returns (marked: bool)
      requires Valid() && txq != []
      modifies this, event, FirstOf(txq)`op, FirstOf(txq)`dispatch, pool`next
      ensures Valid() && txq == old(txq)[1..] && old(txq[0]).op == TX_COMMIT
      ensures IsPush(old(txq[0].op)) ==> old(txq[0].dispatch) != null
      ensures marked <==> stop >= 9
      ensures var e := Execute(old(queues), old(txq[0].op), old(Maybe(txq[0].dispatch)));
              queues == if marked then old(queues) else e.queues
    {
      assert IsPush(txq[0].op) ==> txq[0].dispatch != null by { PendingLeave(txq, queues, pool); }
      marked := TxeRolledBack(stop);
      Txe();
    }

    /** Both ledgers name the same ends of all three queues. */
    predicate SameEnds()
      reads this, current, event
    {
      && event.e_first == current.e_first && event.e_last == current.e_last
      && event.d_dispatch == current.d_dispatch && event.d_free == current.d_free
    }

    /** A second INIT card, or a malformed case board, makes txp return before it copies the ledger;
        TX$ still swaps the pair. The queues survive that exactly when the ledger that was current
        before the last commit has the same ends. */
    method Refused()
      requires Valid()
      modifies this
      ensures current == old(event) && event == old(current) && txq == old(txq) && queues == old(queues)
      ensures Valid() <==> old(SameEnds())
    {
      current, event := event, current;
    }

    /** Never so behind a txp: the ledger goes back to before it, and its card is lost. */
    method TxpThenRefused(card: TxCard)
      requires Valid() && card !in txq && card.op < TX_INIT1
      requires IsPush(card.op) ==> Held(card.dispatch, Elems(txq), queues, pool)
      modifies this, event, card`next, LastCard()`next
      ensures txq == old(txq) + [card] && !Valid()
      ensures TxChain(current.e_first, current.e_last, old(txq))
    {
      Txp(card);
      Refused();
    }
  }
}
