/** f/rdc%'s submitters and agents in memory: each with a transaction card on its own stack, all over one
    pair of ledgers, in step with the machine that passes dispatch cards along. */
module RdcActors {
  import opened Basics
  import opened RdcQueues
  import L = RdcLedger
  import P = RdcProtocol

  /** Each of the n dispatch cards is in exactly one place. */
  ghost predicate Placed(s: P.State, n: nat) { forall d: nat :: P.Places(s)[d] == if d < n then 1 else 0 }

  lemma RunsStayPlaced(s: P.State, n: nat, run: seq<P.Step>)
    requires P.Start(s, n) && P.Legal(s, run)
    ensures Placed(P.End(s, run), n)
  {
    forall d: nat ensures P.Places(P.End(s, run))[d] == if d < n then 1 else 0 {
      P.EveryCardInOnePlace(s, n, run, d);
    }
  }

  lemma StepStaysPlaced(s: P.State, n: nat, st: P.Step)
    requires P.Inv(s) && P.Enabled(s, st) && Placed(s, n)
    ensures P.Inv(P.Next(s, st)) && Placed(P.Next(s, st), n)
  {
    hide P.Next, P.Places, P.Enabled;
    P.StepKeepsInv(s, st);
    P.StepConserves(s, st);
  }

  ghost predicate Below(q: seq<nat>, n: nat) { forall i :: 0 <= i < |q| ==> q[i] < n }

  /** A dispatch card in an actor's hands is in no queue and in nobody else's hands. */
  lemma HandsAreApart(s: P.State, n: nat, a: nat, d: nat)
    requires Placed(s, n) && a < |s.actors| && d in s.actors[a].Hands()
    ensures d < n && d !in s.queues.dispatch && d !in s.queues.free
    ensures forall b :: 0 <= b < |s.actors| && b != a ==> d !in s.actors[b].Hands()
  {
    P.HandsCount(s.actors, a, d);
    assert P.Places(s)[d] == multiset(s.queues.free)[d] + multiset(s.queues.dispatch)[d] + multiset(s.shots)[d]
                             + multiset(P.InHands(s.actors))[d];
  }

  lemma QueueIsGood(s: P.State)
    requires P.Inv(s)
    ensures forall i :: 0 <= i < |s.txq| ==>
              && s.txq[i] < |s.actors|
              && (IsPush(s.actors[s.txq[i]].card.op) ==> s.actors[s.txq[i]].card.d.Some?)
  {
    forall i | 0 <= i < |s.txq|
      ensures IsPush(s.actors[s.txq[i]].card.op) ==> s.actors[s.txq[i]].card.d.Some?
    {
      P.ActorIsSound(s, s.txq[i]);
    }
  }

  /** The two ledgers, the actors' transaction cards, and the dispatch cards that the numbers stand for. */
  class Desk {
    const rdc: L.Rdc
    const cards: seq<L.TxCard>
    const stack: seq<L.DispatchCard>

    ghost predicate Sized(s: P.State) {
      && |cards| == |s.actors| && Distinct(cards) && Distinct(stack)
      && rdc.pool == (set d | d in stack)
      && Below(s.queues.dispatch, |stack|) && Below(s.queues.free, |stack|) && Below(s.txq, |cards|)
    }

    /** The dispatch cards of these numbers. */
    ghost function Named(q: seq<nat>): (r: seq<L.DispatchCard>)
      requires Below(q, |stack|)
      ensures |r| == |q| && forall i :: 0 <= i < |q| ==> r[i] == stack[q[i]]
    {
      seq(|q|, i requires 0 <= i < |q| => stack[q[i]])
    }

    ghost function Cards(q: seq<nat>): (r: seq<L.TxCard>)
      requires Below(q, |cards|)
      ensures |r| == |q| && forall i :: 0 <= i < |q| ==> r[i] == cards[q[i]]
    {
      seq(|q|, i requires 0 <= i < |q| => cards[q[i]])
    }

    /** A keying actor's transaction card says what the machine's does. */
    ghost predicate CardIs(s: P.State, a: nat)
      requires a < |s.actors| == |cards|
      reads {cards[a]}`op, {cards[a]}`dispatch
    {
      var me := s.actors[a];
      me.Keying() ==>
        && cards[a].op == me.card.op
        && (me.card.d.Some? ==> me.card.d.value < |stack|)
        && cards[a].dispatch == (if me.card.d.Some? then stack[me.card.d.value] else null)
    }

    ghost predicate QueuesAre(s: P.State)
      requires Sized(s)
      reads rdc
    {
      && rdc.txq == Cards(s.txq)
      && rdc.queues == Queues(Named(s.queues.dispatch), Named(s.queues.free))
    }

    ghost predicate Matches(s: P.State)
      reads rdc, rdc.current, rdc.txq, rdc.queues.dispatch, rdc.queues.free, cards`op, cards`dispatch
    {
      && Sized(s) && rdc.Valid() && QueuesAre(s)
      && forall a :: 0 <= a < |cards| ==> CardIs(s, a)
    }

    /** Memory matches a state in which the machine's invariants hold. */
    ghost predicate InStep(s: P.State)
      reads rdc, rdc.current, rdc.txq, rdc.queues.dispatch, rdc.queues.free, cards`op, cards`dispatch
    {
      Matches(s) && P.Inv(s) && Placed(s, |stack|)
    }

    /** After initialisation memory is the machine's start. */
    constructor (rdc: L.Rdc, cards: seq<L.TxCard>, stack: seq<L.DispatchCard>, ghost s: P.State)
      requires rdc.Valid() && rdc.txq == [] && rdc.queues == Queues([], stack)
      requires rdc.pool == (set d | d in stack) && Distinct(cards) && Distinct(stack)
      requires P.Start(s, |stack|) && |s.actors| == |cards|
      ensures this.rdc == rdc && this.cards == cards && this.stack == stack && InStep(s)
    {
      RunsStayPlaced(s, |stack|, []);
      this.rdc, this.cards, this.stack := rdc, cards, stack;
    }

    lemma SameName(p: nat, q: seq<nat>)
      requires Distinct(stack) && Below(q, |stack|) && p < |stack| && p !in q
      ensures stack[p] !in Named(q)
    {
    }

    lemma IsNotQueued(s: P.State, a: nat)
      requires Matches(s) && P.Inv(s) && a < |s.actors| && !s.actors[a].Waits()
      ensures cards[a] !in rdc.txq
    {
      hide L.Rdc.Valid;
    }

    /** A card in the transaction queue that is to push holds a dispatch card in its owner's hands. */
    lemma QueuedPush(s: P.State, i: nat)
      requires Matches(s) && P.Inv(s) && i < |rdc.txq| && IsPush(rdc.txq[i].op)
      ensures var me := s.actors[s.txq[i]];
              && me.Waits() && me.card.d.Some? && me.card.d.value in me.Hands() && me.card.d.value < |stack|
              && rdc.txq[i].dispatch == stack[me.card.d.value]
    {
      hide L.Rdc.Valid;
      assert CardIs(s, s.txq[i]);
      P.ActorIsSound(s, s.txq[i]);
    }

    /** What an actor is about to push is held by it alone, in memory too. */
    lemma PushIsHeld(s: P.State, a: nat, d: nat)
      requires Matches(s) && P.Inv(s) && Placed(s, |stack|)
      requires a < |s.actors| && !s.actors[a].Waits() && d in s.actors[a].Hands()
      ensures d < |stack| && L.Held(stack[d], L.Elems(rdc.txq), rdc.queues, rdc.pool)
    {
      hide L.Rdc.Valid, P.Inv, Placed, P.Places, P.InHands;
      HandsAreApart(s, |stack|, a, d);
      SameName(d, s.queues.dispatch);
      SameName(d, s.queues.free);
      forall i | 0 <= i < |rdc.txq| && IsPush(rdc.txq[i].op) ensures rdc.txq[i].dispatch != stack[d] {
        QueuedPush(s, i);
      }
    }

    /** An actor that does not wait fills in its card and runs txp$. */
    method Submit(a: nat, op: Op, dispatch: L.DispatchCard?, ghost s: P.State, ghost phase: P.Phase,
                  ghost d: Option<nat>)
      requires Matches(s) && P.Inv(s) && Placed(s, |stack|)
      requires a < |s.actors| && !s.actors[a].Waits() && op < TX_INIT1
      requires var me := P.Actor(phase, P.TCard(op, d));
               me.Sound() && me.Waits() && me.Hands() == s.actors[a].Hands()
      requires d.Some? ==> IsPush(op) && d.value < |stack|
      requires dispatch == if d.Some? then stack[d.value] else null
      modifies rdc, rdc.event, cards
      ensures Matches(P.Txp(s, a, phase, P.TCard(op, d)))
    {
      hide L.TxChain, L.Chain, L.Held, L.Pending, L.QueuesApart, L.Rdc.Valid, P.Inv, P.Places, Placed;
      var card := cards[a];
      IsNotQueued(s, a);
      if d.Some? {
        PushIsHeld(s, a, d.value);
      }
      card.op, card.dispatch := op, dispatch;
      rdc.Txp(card);
      ghost var t := P.Txp(s, a, phase, P.TCard(op, d));
      assert Cards(t.txq) == Cards(s.txq) + [card];
      forall b | 0 <= b < |cards| ensures CardIs(t, b) {
        assert old(CardIs(s, b));
        assert b != a ==> cards[b] != card;
      }
    }

    ghost predicate Known(d: Option<nat>) { d.Some? ==> d.value < |stack| }

    ghost function Name(d: Option<nat>): Option<L.DispatchCard>
      requires Known(d)
    {
      if d.Some? then Some(stack[d.value]) else None
    }

    ghost function Names(q: Queues<nat>): Queues<L.DispatchCard>
      requires Below(q.dispatch, |stack|) && Below(q.free, |stack|)
    {
      Queues(Named(q.dispatch), Named(q.free))
    }

    /** Executing a card does the same to dispatch cards as to their numbers. */
    lemma ExecuteNamed(q: Queues<nat>, op: Op, d: Option<nat>)
      requires Below(q.dispatch, |stack|) && Below(q.free, |stack|) && Known(d) && (IsPush(op) ==> d.Some?)
      ensures var e := Execute(q, op, d);
              && Below(e.queues.dispatch, |stack|) && Below(e.queues.free, |stack|) && Known(e.dispatch)
              && Execute(Names(q), op, Name(d)) == Effect(Names(e.queues), Name(e.dispatch))
    {
      var t, e := Target(q, op), Execute(q, op, d);
      if IsPop(op) && t != [] {
        assert Named(t[1..]) == Named(t)[1..];
      } else if IsPush(op) {
        assert Named(t + [d.value]) == Named(t) + [stack[d.value]];
      }
    }

    /** The front card as memory has it. */
    lemma Front(s: P.State)
      requires Matches(s) && P.Inv(s) && s.txq != []
      ensures var me := s.actors[s.txq[0]];
              && rdc.txq != [] && rdc.txq[0] == cards[s.txq[0]] && (IsPush(me.card.op) ==> me.card.d.Some?)
              && rdc.txq[0].op == me.card.op && Known(me.card.d) && L.Maybe(rdc.txq[0].dispatch) == Name(me.card.d)
              && Cards(s.txq[1..]) == Cards(s.txq)[1..]
    {
      hide L.Rdc.Valid;
      assert CardIs(s, s.txq[0]);
    }

    /** txe$ in memory, on whatever card is at the front. */
    method ExecuteFront(ghost s: P.State)
      requires Matches(s) && P.Inv(s)
      modifies rdc, rdc.event, cards, stack
      ensures Matches(P.Txe(s))
    {
      hide L.Rdc.Valid, P.Inv, Execute, IsPush;
      QueueIsGood(s);
      ghost var t := P.Txe(s);
      if s.txq != [] {
        Front(s);
        var me := s.actors[s.txq[0]];
        ExecuteNamed(s.queues, me.card.op, me.card.d);
      }
      rdc.Txe();
      forall b | 0 <= b < |cards| ensures CardIs(t, b) {
        assert old(CardIs(s, b));
        assert s.txq != [] && b != s.txq[0] ==> cards[b] != cards[s.txq[0]];
      }
    }

    // ----------------------------------------------------------------- The steps of the machine

    /** A submitter, or the lead agent, asks for a card. */
    method Begin(a: nat, role: P.Role, ghost s: P.State)
      requires InStep(s) && P.Enabled(s, P.Begin(a, role))
      modifies rdc, rdc.event, cards
      ensures InStep(P.Next(s, P.Begin(a, role)))
    {
      hide Matches, Placed, P.Inv;
      StepStaysPlaced(s, |stack|, P.Begin(a, role));
      Submit(a, if role == P.Submitter then TX_FREE + TX_POP else TX_DISPATCH + TX_POP, null, s, P.Popping(role), None);
    }

    /** Anyone who keys through runs txe$. */
    method Key(ghost a: nat, ghost s: P.State)
      requires InStep(s) && P.Enabled(s, P.Key(a))
      modifies rdc, rdc.event, cards, stack
      ensures InStep(P.Next(s, P.Key(a)))
    {
      hide Matches, Placed, P.Inv;
      StepStaysPlaced(s, |stack|, P.Key(a));
      ExecuteFront(s);
    }

    /** The steps that push: a filled card, a card for which there was no shot, and a served card. */
    ghost predicate Pushes(st: P.Step) { st.Fill? || st.Finish? || (st.Lease? && !st.accepted) }

    method PutBack(st: P.Step, dispatch: L.DispatchCard, ghost s: P.State)
      requires InStep(s) && P.Enabled(s, st) && Pushes(st)
      requires s.actors[st.a].phase.d < |stack| && dispatch == stack[s.actors[st.a].phase.d]
      modifies rdc, rdc.event, cards
      ensures InStep(P.Next(s, st))
    {
      hide Matches, Placed, P.Inv;
      StepStaysPlaced(s, |stack|, st);
      var op := (if st.Finish? && !st.confirmed then TX_FREE else TX_DISPATCH) + TX_PUSH;
      Submit(st.a, op, dispatch, s, P.Pushing(s.actors[st.a].phase.role), Some(s.actors[st.a].phase.d));
    }

    /** The others touch neither ledger. */
    lemma QuietStep(s: P.State, st: P.Step)
      requires InStep(s) && P.Enabled(s, st) && !Pushes(st) && !st.Begin? && !st.Key?
      ensures InStep(P.Next(s, st))
    {
      StepStaysPlaced(s, |stack|, st);
      hide L.Rdc.Valid, P.Inv, Placed;
      forall b | 0 <= b < |cards| ensures CardIs(P.Next(s, st), b) {
        assert CardIs(s, b);
      }
    }
  }
}
