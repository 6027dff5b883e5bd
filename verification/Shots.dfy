/** Sabots and shots on the move: leases, interrupts and executors sharing SIPLEX's pools. */
module Shots {
  import opened Basics

  const SHOT_UNL: Byte := 0x00
  const SHOT_HOT: Byte := 0x02
  const SHOT_FIR: Byte := 0x03
  const SHOT_FRE: Byte := 0x04

  const SHOT_CMD: Byte := 0x00
  const SHOT_TRA: Byte := 0x01
  const SHOT_CYC: Byte := 0x02
  const SHOT_PER: Byte := 0x04
  const SHOT_PRV: Byte := 0x10

  /** The four mainline queues, then the pools. */
  const CMD := 0
  const CYC := 1
  const TRA := 2
  const INT := 3
  const MAGAZINE := 4
  const SHELLS := 5

  /** What an actor's own code has hold of between two atomic operations. An executor gets a sabot from
      feeder k, fires it and puts it back; a submitter draws one from the magazine and primes it. */
  datatype Hand =
    | Empty
    | Got(s: nat, k: nat)
    | Flying(s: nat, k: nat)
    | Drawn(s: nat, k: nat, intent: Byte)
    | Back(s: nat, k: nat)

  datatype Card = Card(status: Byte, intent: Byte)

  datatype Place = Pool(k: nat) | InHand(a: nat)

  /** The pools in order, the actors' hands, the shot attached to each sabot, the shots, and as history the
      place each sabot was last moved to. */
  datatype State = State(
    pools: seq<seq<nat>>, hands: seq<Hand>, attached: seq<Option<nat>>, cards: seq<Card>, place: seq<Place>)

  datatype Order = Lease(intent: Byte) | Interrupt

  datatype Step =
    | Draw(a: nat, order: Order)
    | Prime(a: nat)
    | Feed(a: nat, k: nat)
    | Judge(a: nat)
    | Land(a: nat)
    | Put(a: nat)

  /** siplex_route: the queue for an intent. */
  function Route(intent: Byte): Option<nat> {
    if intent == SHOT_CMD then Some(CMD)
    else if intent == SHOT_TRA then Some(TRA)
    else if intent == SHOT_CYC then Some(CYC)
    else None
  }

  /** Where an order wants its shot, and with what intent; none if it is refused. */
  function Wanted(order: Order): Option<(nat, Byte)> {
    match order
    case Interrupt => Some((INT, SHOT_CMD))
    case Lease(intent) =>
      if intent > SHOT_PER then None
      else match Route(intent) case None => None case Some(k) => Some((k, intent))
  }

  predicate Shaped(s: State) {
    |s.pools| == 6 && |s.attached| == |s.place|
  }

  predicate Carries(s: State, id: nat) {
    id < |s.attached| && s.attached[id].Some? && s.attached[id].value < |s.cards|
  }

  predicate Enabled(s: State, e: Step) {
    Shaped(s) && e.a < |s.hands|
    && match e
       case Draw(a, order) => s.hands[a] == Empty
       case Prime(a) => s.hands[a].Drawn? && Carries(s, s.hands[a].s)
       case Feed(a, k) => s.hands[a] == Empty && k < MAGAZINE
       case Judge(a) => s.hands[a].Got? && Carries(s, s.hands[a].s)
       case Land(a) => s.hands[a].Flying? && Carries(s, s.hands[a].s)
       case Put(a) => s.hands[a].Back? && s.hands[a].k < 6 && s.hands[a].s < |s.place|
  }

  /** pop_shot on pool k into the hand of a. */
  function Pop(s: State, a: nat, k: nat, hand: nat -> Hand): State
    requires Shaped(s) && a < |s.hands| && k < 6
  {
    if s.pools[k] == [] then s
    else
      var id := s.pools[k][0];
      s.(pools := s.pools[k := s.pools[k][1..]], hands := s.hands[a := hand(id)],
         place := if id < |s.place| then s.place[id := InHand(a)] else s.place)
  }

  /** a has done with its sabot's shot what `card` says and now holds it as `hand` says. */
  function Mark(s: State, a: nat, card: Card, hand: Hand): State
    requires Shaped(s) && a < |s.hands| && s.hands[a] != Empty && Carries(s, s.hands[a].s)
  {
    s.(cards := s.cards[s.attached[s.hands[a].s].value := card], hands := s.hands[a := hand])
  }

  function CardOf(s: State, id: nat): Card
    requires Carries(s, id)
  {
    s.cards[s.attached[id].value]
  }

  function Next(s: State, e: Step): State
    requires Enabled(s, e)
  {
    var a := e.a;
    match e
    case Draw(_, order) =>
      (match Wanted(order)
       case None => s
       case Some(w) => Pop(s, a, MAGAZINE, (id: nat) => Drawn(id, w.0, w.1)))
    case Prime(_) =>
      var h := s.hands[a];
      Mark(s, a, Card(SHOT_HOT, h.intent), Back(h.s, h.k))
    case Feed(_, k) => Pop(s, a, k, (id: nat) => Got(id, k))
    case Judge(_) =>
      var h := s.hands[a];
      var card := CardOf(s, h.s);
      if card.status % 0x10 == SHOT_HOT then Mark(s, a, card.(status := SHOT_FIR), Flying(h.s, h.k))
      else Mark(s, a, card.(status := SHOT_FRE), Back(h.s, MAGAZINE))
    case Land(_) =>
      var h := s.hands[a];
      var card := CardOf(s, h.s);
      if card.intent % 0x10 == SHOT_CYC then Mark(s, a, card.(status := SHOT_HOT), Back(h.s, h.k))
      else if card.intent / SHOT_PRV % 2 == 1 then
        Mark(s, a, card.(status := SHOT_UNL), Back(h.s, SHELLS)).(attached := s.attached[h.s := None])
      else Mark(s, a, card.(status := SHOT_FRE), Back(h.s, MAGAZINE))
    case Put(_) =>
      var h := s.hands[a];
      s.(pools := s.pools[h.k := s.pools[h.k] + [h.s]], hands := s.hands[a := Empty],
         place := s.place[h.s := Pool(h.k)])
  }

  /** The shots that each mainline queue is for; interrupts make command shots. */
  predicate Fits(intent: Byte, k: nat) {
    || (intent == SHOT_CMD && (k == CMD || k == INT))
    || (intent == SHOT_TRA && k == TRA)
    || (intent == SHOT_CYC && k == CYC)
  }

  /** A shot's card as it must be in pool k. */
  predicate Kept(c: Card, k: nat) {
    if k < MAGAZINE then c.status == SHOT_HOT && Fits(c.intent, k) else k == MAGAZINE && c.status == SHOT_FRE
  }

  /** A shot's card as it must be in a hand. */
  predicate Handled(c: Card, h: Hand) {
    match h
    case Empty => false
    case Got(_, k) => k < MAGAZINE && Kept(c, k)
    case Flying(_, k) => k < MAGAZINE && c.status == SHOT_FIR && Fits(c.intent, k)
    case Drawn(_, k, intent) => k < MAGAZINE && Kept(c, MAGAZINE) && Fits(intent, k)
    case Back(_, k) => Kept(c, k)
  }

  /** The sabot is where it was last moved to, and outside the shells it carries a shot as that place demands. */
  ghost predicate SabotOk(s: State, id: nat)
    requires Shaped(s) && id < |s.place|
  {
    match s.place[id]
    case Pool(k) => k < 6 && id in s.pools[k] && (k == SHELLS || (Carries(s, id) && Kept(CardOf(s, id), k)))
    case InHand(a) =>
      a < |s.hands| && s.hands[a] != Empty && s.hands[a].s == id && Carries(s, id) && Handled(CardOf(s, id), s.hands[a])
  }

  /** The pool holds only sabots placed in it, each once. */
  ghost predicate PoolOk(s: State, k: nat)
    requires Shaped(s) && k < 6
  {
    Distinct(s.pools[k]) && forall id :: id in s.pools[k] ==> id < |s.place| && s.place[id] == Pool(k)
  }

  ghost predicate HandOk(s: State, a: nat)
    requires Shaped(s) && a < |s.hands|
  {
    s.hands[a] != Empty ==> s.hands[a].s < |s.place| && s.place[s.hands[a].s] == InHand(a)
  }

  /** No shot is attached to two sabots. */
  ghost predicate Injective(attached: seq<Option<nat>>) {
    forall i, j :: 0 <= i < j < |attached| && attached[i].Some? && attached[j].Some? ==> attached[i] != attached[j]
  }

  ghost predicate Inv(s: State) {
    && Shaped(s) && Injective(s.attached)
    && (forall id :: 0 <= id < |s.place| ==> SabotOk(s, id))
    && (forall k :: 0 <= k < 6 ==> PoolOk(s, k))
    && (forall a :: 0 <= a < |s.hands| ==> HandOk(s, a))
  }

  lemma PopKeepsInv(s: State, a: nat, k: nat, hand: nat -> Hand)
    requires Inv(s) && a < |s.hands| && s.hands[a] == Empty && k <= MAGAZINE
    requires forall id :: hand(id) != Empty && hand(id).s == id
    requires forall id, c :: Kept(c, k) ==> Handled(c, hand(id))
    ensures Inv(Pop(s, a, k, hand))
  {
    if s.pools[k] != [] {
      var t, id := Pop(s, a, k, hand), s.pools[k][0];
      assert PoolOk(s, k) && id in s.pools[k];
      assert SabotOk(s, id);
      forall x | 0 <= x < |t.place| ensures SabotOk(t, x) {
        assert SabotOk(s, x);
        assert x in s.pools[k] ==> x == id || x in s.pools[k][1..];
      }
      forall j | 0 <= j < 6 ensures PoolOk(t, j) {
        assert PoolOk(s, j) && id !in s.pools[k][1..];
        assert j == k || id !in s.pools[j];
        assert forall x :: x in s.pools[k][1..] ==> x in s.pools[k];
      }
      forall b | 0 <= b < |t.hands| ensures HandOk(t, b) {
        assert HandOk(s, b);
      }
    }
  }

  lemma MarkKeepsInv(s: State, a: nat, c: Card, h: Hand)
    requires Inv(s) && a < |s.hands| && s.hands[a] != Empty && Carries(s, s.hands[a].s)
    requires h != Empty && h.s == s.hands[a].s && Handled(c, h)
    ensures Inv(Mark(s, a, c, h))
  {
    var t := Mark(s, a, c, h);
    assert HandOk(s, a);
    forall x | 0 <= x < |t.place| ensures SabotOk(t, x) {
      assert SabotOk(s, x);
    }
    forall j | 0 <= j < 6 ensures PoolOk(t, j) {
      assert PoolOk(s, j);
    }
    forall b | 0 <= b < |t.hands| ensures HandOk(t, b) {
      assert HandOk(s, b);
    }
  }

  lemma PutKeepsInv(s: State, a: nat)
    requires Inv(s) && Enabled(s, Put(a))
    ensures Inv(Next(s, Put(a)))
  {
    var t, h := Next(s, Put(a)), s.hands[a];
    assert HandOk(s, a) && SabotOk(s, h.s) && PoolOk(s, h.k);
    assert t.pools[h.k] == s.pools[h.k] + [h.s];
    forall x | 0 <= x < |t.place| ensures SabotOk(t, x) {
      assert SabotOk(s, x);
    }
    forall j | 0 <= j < 6 ensures PoolOk(t, j) {
      assert PoolOk(s, j);
    }
    forall b | 0 <= b < |t.hands| ensures HandOk(t, b) {
      assert HandOk(s, b);
    }
  }

  /** In a state of the invariant an executor finds only hot shots in its feeders, and never a private one. */
  lemma OnlyHotPublicShotsFly(s: State, a: nat)
    requires Inv(s) && a < |s.hands|
    ensures s.hands[a].Got? ==> Carries(s, s.hands[a].s) && CardOf(s, s.hands[a].s).status % 0x10 == SHOT_HOT
    ensures s.hands[a].Flying? ==> Carries(s, s.hands[a].s) && CardOf(s, s.hands[a].s).intent / SHOT_PRV % 2 == 0
  {
    if s.hands[a] != Empty {
      assert HandOk(s, a) && SabotOk(s, s.hands[a].s);
    }
  }

  lemma StepKeepsInv(s: State, e: Step)
    requires Inv(s) && Enabled(s, e)
    ensures Inv(Next(s, e))
  {
    var a := e.a;
    var h := s.hands[a];
    if h != Empty {
      assert HandOk(s, a) && SabotOk(s, h.s);
    }
    OnlyHotPublicShotsFly(s, a);
    hide Inv, SabotOk, HandOk, PoolOk;
    match e
    case Draw(_, order) =>
      if w :| Wanted(order) == Some(w) {
        PopKeepsInv(s, a, MAGAZINE, (id: nat) => Drawn(id, w.0, w.1));
      }
    case Prime(_) => MarkKeepsInv(s, a, Card(SHOT_HOT, h.intent), Back(h.s, h.k));
    case Feed(_, k) => PopKeepsInv(s, a, k, (id: nat) => Got(id, k));
    case Judge(_) => MarkKeepsInv(s, a, CardOf(s, h.s).(status := SHOT_FIR), Flying(h.s, h.k));
    case Land(_) =>
      var card := CardOf(s, h.s);
      if card.intent % 0x10 == SHOT_CYC {
        MarkKeepsInv(s, a, card.(status := SHOT_HOT), Back(h.s, h.k));
      } else {
        MarkKeepsInv(s, a, card.(status := SHOT_FRE), Back(h.s, MAGAZINE));
      }
    case Put(_) => PutKeepsInv(s, a);
  }

  // --------------------------------------------------------------------- Over whole runs

  ghost predicate Runs(s: State, run: seq<Step>, t: State)
    decreases |run|
  {
    if run == [] then s == t else Enabled(s, run[0]) && Runs(Next(s, run[0]), run[1..], t)
  }

  function Span(lo: nat, hi: nat): (q: seq<nat>)
    requires lo <= hi
    ensures |q| == hi - lo && forall i :: 0 <= i < |q| ==> q[i] == lo + i
  {
    seq(hi - lo, i requires 0 <= i => lo + i)
  }

  /** As init_queues leaves `shots` shots and `shells` empty shells, before the primer is loaded. */
  function Init(shots: nat, shells: nat, actors: nat): State {
    State([[], [], [], [], Span(0, shots), Span(shots, shots + shells)], seq(actors, _ => Empty),
          seq(shots + shells, i => if i < shots then Some(i) else None), seq(shots, _ => Card(SHOT_FRE, 0)),
          seq(shots + shells, i => if i < shots then Pool(MAGAZINE) else Pool(SHELLS)))
  }

  lemma InitIsInv(shots: nat, shells: nat, actors: nat)
    ensures Inv(Init(shots, shells, actors))
  {
    var s := Init(shots, shells, actors);
    forall id | 0 <= id < |s.place| ensures SabotOk(s, id) {
      assert id < shots ==> s.pools[MAGAZINE][id] == id;
      assert id >= shots ==> s.pools[SHELLS][id - shots] == id;
    }
  }

  lemma {:induction false} RunKeepsInv(s: State, run: seq<Step>, t: State)
    requires Inv(s) && Runs(s, run, t)
    ensures Inv(t) && |t.place| == |s.place| && |t.hands| == |s.hands|
    decreases |run|
  {
    if run != [] {
      StepKeepsInv(s, run[0]);
      RunKeepsInv(Next(s, run[0]), run[1..], t);
    }
  }

  /** Where a sabot is found. */
  ghost predicate At(s: State, id: nat, p: Place)
  {
    match p
    case Pool(k) => k < |s.pools| && id in s.pools[k]
    case InHand(a) => a < |s.hands| && s.hands[a] != Empty && s.hands[a].s == id
  }

  /** However leases, interrupts and executors interleave, each sabot of the fixed pool is in exactly one
      place, and no pool has it twice; whatever is found anywhere is a sabot of the pool. */
  lemma SabotsArePartitioned(shots: nat, shells: nat, actors: nat, run: seq<Step>, t: State, id: nat)
    requires Runs(Init(shots, shells, actors), run, t)
    ensures (exists p :: At(t, id, p)) <==> id < shots + shells
    ensures forall p, q :: At(t, id, p) && At(t, id, q) ==> p == q
    ensures forall k :: 0 <= k < |t.pools| ==> Distinct(t.pools[k])
  {
    InitIsInv(shots, shells, actors);
    RunKeepsInv(Init(shots, shells, actors), run, t);
    forall p | At(t, id, p) ensures id < shots + shells && t.place[id] == p {
      match p
      case Pool(k) => assert PoolOk(t, k);
      case InHand(a) => assert HandOk(t, a);
    }
    if id < shots + shells {
      assert SabotOk(t, id) && At(t, id, t.place[id]);
    }
    forall k | 0 <= k < |t.pools| ensures Distinct(t.pools[k]) {
      assert PoolOk(t, k);
    }
  }

  /** In every run magazine shots are free and shots in the four queues hot; in a hand, one just fetched is hot, one
      being fired carries that mark and one just drawn is free; and no shot is attached to two sabots. */
  lemma ShotsAreAsTheirPool(shots: nat, shells: nat, actors: nat, run: seq<Step>, t: State)
    requires Runs(Init(shots, shells, actors), run, t)
    ensures |t.pools| == 6 && Injective(t.attached)
    ensures forall k, id :: 0 <= k < 6 && id in t.pools[k] && k != SHELLS ==>
              Carries(t, id) && CardOf(t, id).status == if k == MAGAZINE then SHOT_FRE else SHOT_HOT
    ensures forall a :: 0 <= a < |t.hands| && (t.hands[a].Flying? || t.hands[a].Got? || t.hands[a].Drawn?) ==>
              var h := t.hands[a];
              && Carries(t, h.s)
              && CardOf(t, h.s).status == if h.Flying? then SHOT_FIR else if h.Got? then SHOT_HOT else SHOT_FRE
    ensures forall k, id :: 0 <= k < 4 && id in t.pools[k] ==> Carries(t, id) && Fits(CardOf(t, id).intent, k)
  {
    InitIsInv(shots, shells, actors);
    RunKeepsInv(Init(shots, shells, actors), run, t);
    hide Runs, Init;
    forall a | 0 <= a < |t.hands| && t.hands[a] != Empty
      ensures Carries(t, t.hands[a].s) && Handled(CardOf(t, t.hands[a].s), t.hands[a])
    {
      assert HandOk(t, a) && SabotOk(t, t.hands[a].s);
    }
    forall k, id | 0 <= k < 6 && id in t.pools[k] && k != SHELLS
      ensures Carries(t, id) && CardOf(t, id).status == if k == MAGAZINE then SHOT_FRE else SHOT_HOT
      ensures k < 4 ==> Fits(CardOf(t, id).intent, k)
    {
      assert PoolOk(t, k) && SabotOk(t, id);
    }
  }

  /** In every run an executor fires whatever its feeder gives it: its branches for a shot that is not hot and for a
      private shot are never taken. A shot that has been fired goes back to its feeder, hot again, if and only if it is
      cyclic; any other is freed and goes to the magazine. */
  lemma ExecutorNeverRecovers(shots: nat, shells: nat, actors: nat, run: seq<Step>, t: State, a: nat)
    requires Runs(Init(shots, shells, actors), run, t)
    ensures Enabled(t, Judge(a)) ==> Next(t, Judge(a)).hands[a] == Flying(t.hands[a].s, t.hands[a].k)
    ensures Enabled(t, Land(a)) ==> LandsBack(t, a)
  {
    InitIsInv(shots, shells, actors);
    RunKeepsInv(Init(shots, shells, actors), run, t);
    hide Init, Runs, LandsBack;
    if a < |t.hands| {
      FlyingShot(t, a);
      if Enabled(t, Land(a)) {
        ShotLands(t, a);
      }
    }
  }

  ghost predicate LandsBack(t: State, a: nat)
    requires Enabled(t, Land(a))
  {
    var h, u := t.hands[a], Next(t, Land(a));
    var card := CardOf(t, h.s);
    && u.attached == t.attached && Carries(u, h.s)
    && (card.intent == SHOT_CYC ==>
          u.hands[a] == Back(h.s, h.k) && h.k == CYC && CardOf(u, h.s) == Card(SHOT_HOT, card.intent))
    && (card.intent != SHOT_CYC ==>
          u.hands[a] == Back(h.s, MAGAZINE) && CardOf(u, h.s) == Card(SHOT_FRE, card.intent))
  }

  lemma ShotLands(t: State, a: nat)
    requires Enabled(t, Land(a)) && Handled(CardOf(t, t.hands[a].s), t.hands[a])
    ensures LandsBack(t, a)
  {
  }

  lemma FlyingShot(s: State, a: nat)
    requires Inv(s) && a < |s.hands|
    ensures s.hands[a] != Empty ==> Carries(s, s.hands[a].s) && Handled(CardOf(s, s.hands[a].s), s.hands[a])
  {
    if s.hands[a] != Empty {
      assert HandOk(s, a) && SabotOk(s, s.hands[a].s);
    }
  }

  /** A lease is refused if and only if its intent is none that a queue is for; else its shot is drawn for that queue,
      if the magazine has one. An interrupt's always is. */
  lemma DrawnForItsQueue(s: State, a: nat, order: Order)
    requires Inv(s) && Enabled(s, Draw(a, order)) && s.pools[MAGAZINE] != []
    ensures var t, id := Next(s, Draw(a, order)), s.pools[MAGAZINE][0];
            match order
            case Interrupt => t.hands[a] == Drawn(id, INT, SHOT_CMD)
            case Lease(intent) =>
              if exists k :: 0 <= k < INT && Fits(intent, k)
              then t.hands[a].Drawn? && t.hands[a].s == id && t.hands[a].k < INT
                   && Fits(intent, t.hands[a].k) && t.hands[a].intent == intent
              else t == s
  {
    assert Fits(SHOT_CMD, CMD) && Fits(SHOT_TRA, TRA) && Fits(SHOT_CYC, CYC);
  }

  // --------------------------------------------------------------------- How often a shot is fired

  /** The step fires the shot on this sabot. */
  predicate Fires(s: State, e: Step, id: nat)
    requires Enabled(s, e)
  {
    e.Judge? && s.hands[e.a].s == id && Next(s, e).hands[e.a].Flying?
  }

  predicate Draws(s: State, e: Step, id: nat)
    requires Enabled(s, e)
  {
    e.Draw? && Next(s, e).hands[e.a].Drawn? && Next(s, e).hands[e.a].s == id
  }

  ghost function Firings(s: State, run: seq<Step>, t: State, id: nat): nat
    requires Runs(s, run, t)
    decreases |run|
  {
    if run == [] then 0
    else (if Fires(s, run[0], id) then 1 else 0) + Firings(Next(s, run[0]), run[1..], t, id)
  }

  /** A submitter or an interrupt takes the sabot out of the magazine. */
  ghost predicate Drawing(s: State, run: seq<Step>, t: State, id: nat)
    requires Runs(s, run, t)
    decreases |run|
  {
    run != [] && (Draws(s, run[0], id) || Drawing(Next(s, run[0]), run[1..], t, id))
  }

  /** The sabot carries a shot, and nobody is about to prime it. */
  ghost predicate Loaded(s: State, id: nat) {
    Carries(s, id) && forall a :: 0 <= a < |s.hands| && s.hands[a].Drawn? ==> s.hands[a].s != id
  }

  function Hot(s: State, id: nat): nat
    requires Carries(s, id)
  {
    if CardOf(s, id).status == SHOT_HOT then 1 else 0
  }

  lemma OtherShot(s: State, id: nat, other: nat)
    requires Inv(s) && Carries(s, id) && Carries(s, other) && id != other
    ensures s.attached[id].value != s.attached[other].value
  {
    assert s.attached[id] != s.attached[other] by {
      if id < other {
        assert s.attached[id] != s.attached[other];
      } else {
        assert s.attached[other] != s.attached[id];
      }
    }
  }

  lemma StepFires(s: State, e: Step, id: nat)
    requires Inv(s) && Enabled(s, e) && Loaded(s, id) && !Draws(s, e, id) && CardOf(s, id).intent != SHOT_CYC
    ensures var t := Next(s, e);
            && Loaded(t, id) && CardOf(t, id).intent == CardOf(s, id).intent
            && Hot(t, id) + (if Fires(s, e, id) then 1 else 0) == Hot(s, id)
  {
    FlyingShot(s, e.a);
    if s.hands[e.a] != Empty && s.hands[e.a].s != id {
      OtherShot(s, id, s.hands[e.a].s);
    }
    hide Inv;
  }

  /** Until its sabot is drawn again, a hot shot that is not cyclic is fired once or is still hot. */
  lemma {:induction false} FiredOnce(s: State, run: seq<Step>, t: State, id: nat)
    requires Inv(s) && Runs(s, run, t) && Loaded(s, id) && CardOf(s, id).intent != SHOT_CYC && !Drawing(s, run, t, id)
    ensures Carries(t, id) && CardOf(t, id).intent == CardOf(s, id).intent
    ensures Firings(s, run, t, id) + Hot(t, id) == Hot(s, id)
    decreases |run|
  {
    hide Inv, Fires, Draws, Loaded;
    LoadedCarries(s, id);
    if run != [] {
      StepKeepsInv(s, run[0]);
      StepFires(s, run[0], id);
      FiredOnce(Next(s, run[0]), run[1..], t, id);
    }
  }

  lemma LoadedCarries(s: State, id: nat)
    requires Loaded(s, id)
    ensures Carries(s, id)
  {
  }

  /** A cyclic shot that is hot or in flight stays in use: it is never freed. */
  ghost predicate Cycles(s: State, id: nat) {
    && Loaded(s, id) && CardOf(s, id).intent == SHOT_CYC
    && (CardOf(s, id).status == SHOT_HOT || CardOf(s, id).status == SHOT_FIR)
  }

  lemma StepCycles(s: State, e: Step, id: nat)
    requires Inv(s) && Enabled(s, e) && Cycles(s, id)
    ensures Cycles(Next(s, e), id)
  {
    FlyingShot(s, e.a);
    if s.hands[e.a] != Empty && s.hands[e.a].s != id {
      OtherShot(s, id, s.hands[e.a].s);
    }
    if e.Draw? && s.pools[MAGAZINE] != [] {
      var drawn := s.pools[MAGAZINE][0];
      assert PoolOk(s, MAGAZINE) && drawn in s.pools[MAGAZINE] && SabotOk(s, drawn);
    }
    hide Inv;
  }

  lemma {:induction false} CyclicGoesOn(s: State, run: seq<Step>, t: State, id: nat)
    requires Inv(s) && Runs(s, run, t) && Cycles(s, id)
    ensures Cycles(t, id)
    decreases |run|
  {
    hide Inv, Cycles;
    if run != [] {
      StepKeepsInv(s, run[0]);
      StepCycles(s, run[0], id);
      CyclicGoesOn(Next(s, run[0]), run[1..], t, id);
    }
  }

  /** In every run of the system a lease that is not cyclic is fired at most once before its sabot is drawn again, and
      not at all exactly while it is still hot; a cyclic one is never freed. */
  lemma LeasesFireAsIntended(shots: nat, shells: nat, actors: nat, run: seq<Step>, s: State, more: seq<Step>, t: State,
                             id: nat)
    requires Runs(Init(shots, shells, actors), run, s) && Runs(s, more, t)
    requires Loaded(s, id) && CardOf(s, id).status == SHOT_HOT
    ensures Carries(t, id)
    ensures CardOf(s, id).intent != SHOT_CYC && !Drawing(s, more, t, id) ==>
              && Firings(s, more, t, id) <= 1
              && (Firings(s, more, t, id) == 0 <==> CardOf(t, id).status == SHOT_HOT)
    ensures CardOf(s, id).intent == SHOT_CYC ==>
              CardOf(t, id).intent == SHOT_CYC && CardOf(t, id).status in {SHOT_HOT, SHOT_FIR}
  {
    InitIsInv(shots, shells, actors);
    RunKeepsInv(Init(shots, shells, actors), run, s);
    hide Init, Inv;
    if CardOf(s, id).intent == SHOT_CYC {
      CyclicGoesOn(s, more, t, id);
    } else if !Drawing(s, more, t, id) {
      FiredOnce(s, more, t, id);
    } else {
      RunCarries(s, more, t, id);
    }
  }

  /** No step takes the shot off a sabot. */
  lemma {:induction false} RunCarries(s: State, run: seq<Step>, t: State, id: nat)
    requires Inv(s) && Runs(s, run, t) && Carries(s, id)
    ensures Carries(t, id)
    decreases |run|
  {
    if run != [] {
      StepKeepsInv(s, run[0]);
      if run[0].a < |s.hands| {
        FlyingShot(s, run[0].a);
      }
      hide Inv;
      RunCarries(Next(s, run[0]), run[1..], t, id);
    }
  }

  // --------------------------------------------------------------------- The order of the pools

  /** What the step puts into a pool. */
  function PutIn(s: State, e: Step, k: nat): seq<nat>
    requires Enabled(s, e)
  {
    if e.Put? && s.hands[e.a].k == k then [s.hands[e.a].s] else []
  }

  /** What it takes out of one: an executor out of the feeder that it looks into, anyone else out of the magazine. */
  function TakenOut(s: State, e: Step, k: nat): seq<nat>
    requires Enabled(s, e)
  {
    var h := Next(s, e).hands[e.a];
    if (e.Feed? && e.k == k && h.Got?) || (e.Draw? && k == MAGAZINE && h.Drawn?) then [h.s] else []
  }

  ghost function AllPut(s: State, run: seq<Step>, t: State, k: nat): seq<nat>
    requires Runs(s, run, t)
    decreases |run|
  {
    if run == [] then [] else PutIn(s, run[0], k) + AllPut(Next(s, run[0]), run[1..], t, k)
  }

  ghost function AllTaken(s: State, run: seq<Step>, t: State, k: nat): seq<nat>
    requires Runs(s, run, t)
    decreases |run|
  {
    if run == [] then [] else TakenOut(s, run[0], k) + AllTaken(Next(s, run[0]), run[1..], t, k)
  }

  lemma StepIsFifo(s: State, e: Step, k: nat)
    requires Enabled(s, e) && k < 6
    ensures Shaped(Next(s, e)) && TakenOut(s, e, k) + Next(s, e).pools[k] == s.pools[k] + PutIn(s, e, k)
  {
  }

  lemma {:induction false} Joins(out: seq<nat>, outs: seq<nat>, a: seq<nat>, b: seq<nat>, c: seq<nat>, into: seq<nat>,
                                 intos: seq<nat>)
    requires out + b == a + into && outs + c == b + intos
    ensures (out + outs) + c == a + (into + intos)
  {
    assert (out + outs) + c == out + (outs + c) == (out + b) + intos == a + (into + intos);
  }

  /** Every pool is first in, first out, over every run: what it gave out and then what it has is what it had and then
      what was put into it, in order. */
  lemma {:induction false} PoolsAreFifo(s: State, run: seq<Step>, t: State, k: nat)
    requires Shaped(s) && Runs(s, run, t) && k < 6
    ensures Shaped(t) && AllTaken(s, run, t, k) + t.pools[k] == s.pools[k] + AllPut(s, run, t, k)
    decreases |run|
  {
    hide PutIn, TakenOut, Enabled;
    if run != [] {
      var u := Next(s, run[0]);
      StepIsFifo(s, run[0], k);
      PoolsAreFifo(u, run[1..], t, k);
      hide Next;
      Joins(TakenOut(s, run[0], k), AllTaken(u, run[1..], t, k), s.pools[k], u.pools[k], t.pools[k],
            PutIn(s, run[0], k), AllPut(u, run[1..], t, k));
    }
  }
}
