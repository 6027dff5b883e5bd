/** f/rdc%'s callers: submitters, lead agents and executive agents passing dispatch cards along
    through transaction cards on their own stacks, any of them executing the front card. */
module RdcProtocol {
  import opened Basics
  import opened RdcQueues

  datatype Role = Submitter | Lead | Exec

  /** Popping and Pushing: keying through until the own card reads TX_COMMIT. Holding: owns the
      dispatch card d. */
  datatype Phase = Idle | Popping(role: Role) | Holding(role: Role, d: nat) | Pushing(role: Role)

  datatype TCard = TCard(op: Op, d: Option<nat>)

  datatype Actor = Actor(phase: Phase, card: TCard)
  {
    predicate Keying() { phase.Popping? || phase.Pushing? }

    /** The actor's card is in the transaction queue. */
    predicate Waits() { Keying() && card.op != TX_COMMIT }

    /** The dispatch cards in this actor's hands. */
    function Hands(): seq<nat> {
      match phase
      case Idle => []
      case Holding(_, d) => [d]
      case Popping(_) => if card.op == TX_COMMIT && card.d.Some? then [card.d.value] else []
      case Pushing(_) => if card.op != TX_COMMIT && card.d.Some? then [card.d.value] else []
    }

    predicate Sound() {
      && (phase.Popping? ==> IsPop(card.op) || card.op == TX_COMMIT)
      && (phase.Pushing? ==> (IsPush(card.op) && card.d.Some?) || card.op == TX_COMMIT)
    }
  }

  datatype Entry = Entry(owner: nat, card: TCard)
  {
    predicate Good() { IsPush(card.op) ==> card.d.Some? }
  }

  /** `log` lists every transaction card committed by txp, `results` what the executed ones got. */
  datatype State = State(
    actors: seq<Actor>, txq: seq<nat>, queues: Queues<nat>, shots: seq<nat>,
    log: seq<Entry>, results: seq<Option<nat>>)

  datatype Step =
    | Begin(a: nat, role: Role)             // sub$, or the lead agent, asks for a card
    | Key(a: nat)                           // a keying actor runs txe$
    | Leave(a: nat)                         // a keying actor finds its card committed
    | Fill(a: nat)                          // a submitter pushes its filled card for dispatch
    | Lease(a: nat, accepted: bool)         // a lead agent's card goes to a shot, or back
    | Serve(a: nat, k: nat)                 // an executive agent takes the card of a shot
    | Finish(a: nat, confirmed: bool)       // and puts it back, or frees it

  predicate Enabled(s: State, st: Step) {
    && st.a < |s.actors|
    && var me := s.actors[st.a];
       match st
       case Begin(_, role) => me.phase.Idle? && role != Exec
       case Key(_) => me.Keying()
       case Leave(_) => me.Keying() && me.card.op == TX_COMMIT
       case Fill(_) => me.phase.Holding? && me.phase.role == Submitter
       case Lease(_, _) => me.phase.Holding? && me.phase.role == Lead
       case Serve(_, k) => me.phase.Idle? && k < |s.shots|
       case Finish(_, _) => me.phase.Holding? && me.phase.role == Exec
  }

  /** txp$: actor a's card joins the transaction queue. */
  function Txp(s: State, a: nat, phase: Phase, card: TCard): State
    requires a < |s.actors|
  {
    s.(actors := s.actors[a := Actor(phase, card)], txq := s.txq + [a], log := s.log + [Entry(a, card)])
  }

  /** txe$: the front card is executed and marked. */
  function Txe(s: State): State
    requires forall i :: 0 <= i < |s.txq| ==>
               && s.txq[i] < |s.actors|
               && (IsPush(s.actors[s.txq[i]].card.op) ==> s.actors[s.txq[i]].card.d.Some?)
  {
    if s.txq == [] then s
    else
      var f := s.txq[0];
      var e := Execute(s.queues, s.actors[f].card.op, s.actors[f].card.d);
      s.(actors := s.actors[f := s.actors[f].(card := TCard(TX_COMMIT, e.dispatch))],
         txq := s.txq[1..], queues := e.queues, results := s.results + [e.dispatch])
  }

  function Push(s: State, a: nat, role: Role, d: nat, target: Op): State
    requires a < |s.actors|
  {
    Txp(s, a, Pushing(role), TCard(target, Some(d)))
  }

  function Next(s: State, st: Step): State
    requires Inv(s) && Enabled(s, st)
  {
    var me := s.actors[st.a];
    match st
    case Begin(a, role) =>
      Txp(s, a, Popping(role), TCard(if role == Submitter then TX_FREE + TX_POP else TX_DISPATCH + TX_POP, None))
    case Key(_) => Txe(s)
    case Leave(a) =>
      var after := if me.phase.Popping? && me.card.d.Some? then Holding(me.phase.role, me.card.d.value) else Idle;
      s.(actors := s.actors[a := me.(phase := after)])
    case Fill(a) => Push(s, a, Submitter, me.phase.d, TX_DISPATCH + TX_PUSH)
    case Lease(a, accepted) =>
      if accepted then s.(actors := s.actors[a := me.(phase := Idle)], shots := s.shots + [me.phase.d])
      else Push(s, a, Lead, me.phase.d, TX_DISPATCH + TX_PUSH)
    case Serve(a, k) =>
      s.(actors := s.actors[a := me.(phase := Holding(Exec, s.shots[k]))], shots := s.shots[..k] + s.shots[k + 1..])
    case Finish(a, confirmed) =>
      Push(s, a, Exec, me.phase.d, (if confirmed then TX_DISPATCH else TX_FREE) + TX_PUSH)
  }

  // ------------------------------------------------------------------ The queue's invariant

  /** The transaction queue holds exactly the waiting actors' cards, in the order of the log. */
  ghost predicate Inv(s: State) {
    && (forall a :: 0 <= a < |s.actors| ==> s.actors[a].Sound())
    && (forall i :: 0 <= i < |s.txq| ==> s.txq[i] < |s.actors| && s.actors[s.txq[i]].Waits())
    && (forall a :: 0 <= a < |s.actors| && s.actors[a].Waits() ==> a in s.txq)
    && Distinct(s.txq)
    && |s.log| == |s.results| + |s.txq|
    && (forall e :: e in s.log ==> e.Good())
    && (forall i :: 0 <= i < |s.txq| ==>
          s.log[|s.results| + i] == Entry(s.txq[i], s.actors[s.txq[i]].card))
  }

  lemma TxpKeepsInv(s: State, a: nat, phase: Phase, card: TCard)
    requires Inv(s) && a < |s.actors| && !s.actors[a].Waits()
    requires Actor(phase, card).Sound() && Actor(phase, card).Waits()
    ensures Inv(Txp(s, a, phase, card))
  {
    var s' := Txp(s, a, phase, card);
    assert a !in s.txq;
    forall b | 0 <= b < |s'.actors| && s'.actors[b].Waits() ensures b in s'.txq {
      assert s'.txq[|s.txq|] == a;
      if b != a {
        var i :| 0 <= i < |s.txq| && s.txq[i] == b;
        assert s'.txq[i] == b;
      }
    }
  }

  /** An execution changes the front actor's card, and takes it off the queue. */
  lemma TxeIs(s: State)
    requires Inv(s) && s.txq != []
    ensures var s', f := Txe(s), s.txq[0];
            && f < |s.actors| && s'.actors == s.actors[f := s'.actors[f]]
            && s'.actors[f].phase == s.actors[f].phase && s'.actors[f].card.op == TX_COMMIT
            && s'.txq == s.txq[1..] && s'.log == s.log && |s'.results| == |s.results| + 1
  {
    hide Execute;
  }

  lemma TxeKeepsQueue(s: State)
    requires Inv(s) && s.txq != []
    ensures var s' := Txe(s);
            && (forall i :: 0 <= i < |s'.txq| ==> s'.txq[i] < |s'.actors| && s'.actors[s'.txq[i]].Waits())
            && (forall a :: 0 <= a < |s'.actors| && s'.actors[a].Waits() ==> a in s'.txq)
            && Distinct(s'.txq)
  {
    hide Txe, Execute;
    TxeIs(s);
    var s' := Txe(s);
    assert forall i :: 0 <= i < |s'.txq| ==> s'.txq[i] == s.txq[i + 1] != s.txq[0];
    forall b | 0 <= b < |s'.actors| && s'.actors[b].Waits() ensures b in s'.txq {
      var i :| 0 <= i < |s.txq| && s.txq[i] == b;
      assert s'.txq[i - 1] == b;
    }
  }

  lemma TxeKeepsLog(s: State)
    requires Inv(s) && s.txq != []
    ensures var s' := Txe(s);
            && |s'.log| == |s'.results| + |s'.txq| && (forall e :: e in s'.log ==> e.Good())
            && forall i :: 0 <= i < |s'.txq| ==>
                 && s'.txq[i] < |s'.actors|
                 && s'.log[|s'.results| + i] == Entry(s'.txq[i], s'.actors[s'.txq[i]].card)
  {
    hide Txe, Execute;
    TxeIs(s);
    var s' := Txe(s);
    forall i | 0 <= i < |s'.txq|
      ensures s'.txq[i] < |s'.actors| && s'.log[|s'.results| + i] == Entry(s'.txq[i], s'.actors[s'.txq[i]].card)
    {
      assert s'.txq[i] == s.txq[i + 1] != s.txq[0];
      assert s.log[|s.results| + (i + 1)] == Entry(s.txq[i + 1], s.actors[s.txq[i + 1]].card);
    }
  }

  lemma TxeKeepsInv(s: State)
    requires Inv(s)
    ensures Inv(Txe(s))
  {
    if s.txq != [] {
      TxeIs(s);
      TxeKeepsQueue(s);
      TxeKeepsLog(s);
      hide Txe, Execute;
    }
  }

  lemma StepKeepsInv(s: State, st: Step)
    requires Inv(s) && Enabled(s, st)
    ensures Inv(Next(s, st))
  {
    var me := s.actors[st.a];
    match st
    case Begin(a, role) =>
      var queue := if role == Submitter then TX_FREE else TX_DISPATCH;
      TxpKeepsInv(s, a, Popping(role), TCard(queue + TX_POP, None));
    case Key(_) => TxeKeepsInv(s);
    case Leave(a) =>
    case Fill(a) => TxpKeepsInv(s, a, Pushing(Submitter), TCard(TX_DISPATCH + TX_PUSH, Some(me.phase.d)));
    case Lease(a, accepted) =>
      if !accepted {
        TxpKeepsInv(s, a, Pushing(Lead), TCard(TX_DISPATCH + TX_PUSH, Some(me.phase.d)));
      }
    case Serve(_, _) =>
    case Finish(a, confirmed) =>
      TxpKeepsInv(s, a, Pushing(Exec), TCard((if confirmed then TX_DISPATCH else TX_FREE) + TX_PUSH, Some(me.phase.d)));
  }

  // ------------------------------------------------------------------------ Runs

  ghost predicate Legal(s: State, run: seq<Step>)
    requires Inv(s)
    decreases |run|
  {
    run == [] || (Enabled(s, run[0]) && (StepKeepsInv(s, run[0]); Legal(Next(s, run[0]), run[1..])))
  }

  ghost function End(s: State, run: seq<Step>): (e: State)
    requires Inv(s) && Legal(s, run)
    ensures Inv(e)
    decreases |run|
  {
    if run == [] then s
    else
      StepKeepsInv(s, run[0]);
      End(Next(s, run[0]), run[1..])
  }

  // ------------------------------------------------------- Sequential execution of the log

  /** The cards executed one after another, in the order in which txp committed them. */
  function Replay(q: Queues<nat>, log: seq<Entry>): (Queues<nat>, seq<Option<nat>>)
    requires forall e :: e in log ==> e.Good()
  {
    if log == [] then (q, [])
    else
      var n := |log| - 1;
      var (before, results) := Replay(q, log[..n]);
      assert log[n] in log && log[n].Good();
      var e := Execute(before, log[n].card.op, log[n].card.d);
      (e.queues, results + [e.dispatch])
  }

  ghost predicate Replayed(s: State, q: Queues<nat>) {
    Inv(s) && Replay(q, s.log[..|s.results|]) == (s.queues, s.results)
  }

  lemma StepKeepsReplayed(s: State, st: Step, q: Queues<nat>)
    requires Replayed(s, q) && Enabled(s, st)
    ensures Replayed(Next(s, st), q)
  {
    StepKeepsInv(s, st);
    var s' := Next(s, st);
    if st.Key? && s.txq != [] {
      var n := |s.results|;
      assert s.log[n + 0] == Entry(s.txq[0], s.actors[s.txq[0]].card);
      assert s'.log[..n + 1][..n] == s.log[..n];
    } else {
      assert s'.log[..|s.results|] == s.log[..|s.results|];
    }
  }

  // --------------------------------------------------- Every dispatch card is in one place

  function InHands(actors: seq<Actor>): seq<nat> {
    if actors == [] then [] else actors[0].Hands() + InHands(actors[1..])
  }

  /** The dispatch cards in the queues and in shots. */
  ghost function Shelved(s: State): multiset<nat> {
    multiset(s.queues.free) + multiset(s.queues.dispatch) + multiset(s.shots)
  }

  /** Every dispatch card, in whatever place it is, as often as it is in one. */
  ghost function Places(s: State): multiset<nat> { Shelved(s) + multiset(InHands(s.actors)) }

  /** Two balanced exchanges cancel out. */
  lemma Cancel(a: multiset<nat>, a': multiset<nat>, b: multiset<nat>, b': multiset<nat>, h: multiset<nat>,
               h': multiset<nat>)
    requires a' + h' == a + h && b' + h == b + h'
    ensures a' + b' == a + b
  {
    forall x: nat ensures (a' + b')[x] == (a + b)[x] {
      assert (a' + h')[x] == (a + h)[x] && (b' + h)[x] == (b + h')[x];
    }
  }

  lemma {:induction false} HandsChange(actors: seq<Actor>, a: nat, b: Actor)
    requires a < |actors|
    ensures multiset(InHands(actors[a := b])) + multiset(actors[a].Hands())
         == multiset(InHands(actors)) + multiset(b.Hands())
  {
    hide Actor.Hands;
    var actors' := actors[a := b];
    assert multiset(InHands(actors)) == multiset(actors[0].Hands()) + multiset(InHands(actors[1..]));
    assert multiset(InHands(actors')) == multiset(actors'[0].Hands()) + multiset(InHands(actors'[1..]));
    if a == 0 {
      assert actors'[1..] == actors[1..];
    } else {
      HandsChange(actors[1..], a - 1, b);
      assert actors'[1..] == actors[1..][a - 1 := b];
      var c, r, r' := multiset(actors[0].Hands()), multiset(InHands(actors[1..])), multiset(InHands(actors'[1..]));
      var h, h' := multiset(actors[a].Hands()), multiset(b.Hands());
      assert (c + r') + h == c + (r' + h) == c + (r + h') == (c + r) + h';
    }
  }

  /** The actor whose hands a step changes. */
  function Touched(s: State, st: Step): nat { if st.Key? && s.txq != [] then s.txq[0] else st.a }

  lemma ExecuteBalance(q: Queues<nat>, card: TCard)
    requires IsPush(card.op) ==> card.d.Some?
    ensures var e := Execute(q, card.op, card.d);
            multiset(e.queues.free) + multiset(e.queues.dispatch)
              + (if IsPop(card.op) && e.dispatch.Some? then multiset{e.dispatch.value} else multiset{})
            == multiset(q.free) + multiset(q.dispatch)
              + (if IsPush(card.op) then multiset{card.d.value} else multiset{})
  {
    var t := Target(q, card.op);
    if IsPop(card.op) && t != [] {
      assert t == [t[0]] + t[1..];
    }
  }

  lemma KeyBalances(s: State)
    requires Inv(s) && s.txq != []
    ensures var a := s.txq[0];
            Shelved(Txe(s)) + multiset(Txe(s).actors[a].Hands()) == Shelved(s) + multiset(s.actors[a].Hands())
  {
    var me := s.actors[s.txq[0]];
    assert me.Waits() && me.Sound();
    ExecuteBalance(s.queues, me.card);
    var q, q' := s.queues, Txe(s).queues;
    var h, h' := multiset(me.Hands()), multiset(Txe(s).actors[s.txq[0]].Hands());
    assert multiset(q'.free) + multiset(q'.dispatch) + h' == multiset(q.free) + multiset(q.dispatch) + h;
    var shots := multiset(s.shots);
    assert multiset(q'.free) + multiset(q'.dispatch) + shots + h'
        == (multiset(q'.free) + multiset(q'.dispatch) + h') + shots;
    assert multiset(q.free) + multiset(q.dispatch) + shots + h == (multiset(q.free) + multiset(q.dispatch) + h) + shots;
  }

  /** An actor's exchange with the shots, the queues untouched. */
  ghost predicate Exchanged(s: State, s': State, a: nat) {
    && a < |s.actors| == |s'.actors| && s'.actors == s.actors[a := s'.actors[a]]
    && s'.queues == s.queues
    && multiset(s'.shots) + multiset(s'.actors[a].Hands()) == multiset(s.shots) + multiset(s.actors[a].Hands())
  }

  lemma TakeOut(q: seq<nat>, k: nat)
    requires k < |q|
    ensures multiset(q) == multiset(q[..k] + q[k + 1..]) + multiset{q[k]}
  {
    assert q == q[..k] + [q[k]] + q[k + 1..];
  }

  lemma TxpExchanges(s: State, a: nat, phase: Phase, card: TCard)
    requires a < |s.actors| && Actor(phase, card).Hands() == s.actors[a].Hands()
    ensures Exchanged(s, Txp(s, a, phase, card), a)
  {
  }

  lemma ActorIsSound(s: State, a: nat)
    requires Inv(s) && a < |s.actors|
    ensures s.actors[a].Sound()
  {
  }

  lemma {:induction false} ShotExchanges(s: State, st: Step)
    requires Inv(s) && Enabled(s, st) && ((st.Lease? && st.accepted) || st.Serve? || st.Leave?)
    ensures Exchanged(s, Next(s, st), st.a)
  {
    hide Inv, Txe, InHands, Txp;
    ActorIsSound(s, st.a);
    if st.Serve? {
      TakeOut(s.shots, st.k);
    }
  }

  lemma {:induction false} ActorExchanges(s: State, st: Step)
    requires Inv(s) && Enabled(s, st) && !st.Key?
    ensures Exchanged(s, Next(s, st), st.a)
  {
    hide Inv, Txe, InHands, Txp, Exchanged;
    var me := s.actors[st.a];
    match st
    case Begin(a, role) =>
      var queue := if role == Submitter then TX_FREE else TX_DISPATCH;
      TxpExchanges(s, a, Popping(role), TCard(queue + TX_POP, None));
    case Fill(a) => TxpExchanges(s, a, Pushing(Submitter), TCard(TX_DISPATCH + TX_PUSH, Some(me.phase.d)));
    case Finish(a, confirmed) =>
      var queue := if confirmed then TX_DISPATCH else TX_FREE;
      TxpExchanges(s, a, Pushing(Exec), TCard(queue + TX_PUSH, Some(me.phase.d)));
    case Lease(a, accepted) =>
      if accepted {
        ShotExchanges(s, st);
      } else {
        TxpExchanges(s, a, Pushing(Lead), TCard(TX_DISPATCH + TX_PUSH, Some(me.phase.d)));
      }
    case _ => ShotExchanges(s, st);
  }

  lemma StepBalances(s: State, st: Step)
    requires Inv(s) && Enabled(s, st)
    ensures var s', a := Next(s, st), Touched(s, st);
            && a < |s.actors| && |s'.actors| == |s.actors| && s'.actors == s.actors[a := s'.actors[a]]
            && Shelved(s') + multiset(s'.actors[a].Hands()) == Shelved(s) + multiset(s.actors[a].Hands())
  {
    if st.Key? {
      if s.txq != [] {
        KeyBalances(s);
      }
    } else {
      ActorExchanges(s, st);
      hide Next, Inv, Enabled;
      var s', a := Next(s, st), st.a;
      var q := multiset(s.queues.free) + multiset(s.queues.dispatch);
      var h, h' := multiset(s.actors[a].Hands()), multiset(s'.actors[a].Hands());
      assert q + multiset(s'.shots) + h' == q + (multiset(s'.shots) + h');
      assert q + multiset(s.shots) + h == q + (multiset(s.shots) + h);
    }
  }

  lemma StepConserves(s: State, st: Step)
    requires Inv(s) && Enabled(s, st)
    ensures Places(Next(s, st)) == Places(s)
  {
    hide Next;
    StepBalances(s, st);
    var s', a := Next(s, st), Touched(s, st);
    HandsChange(s.actors, a, s'.actors[a]);
    Cancel(Shelved(s), Shelved(s'), multiset(InHands(s.actors)), multiset(InHands(s'.actors)),
           multiset(s.actors[a].Hands()), multiset(s'.actors[a].Hands()));
  }

  // ------------------------------------------------------------------- Results over all runs

  function Ids(n: nat): seq<nat> { seq(n, i => i) }

  /** After initialisation every dispatch card is free and no actor has begun. */
  ghost predicate Start(s: State, n: nat) {
    && s.txq == [] && s.queues == Queues([], Ids(n)) && s.shots == [] && s.log == [] && s.results == []
    && forall a :: 0 <= a < |s.actors| ==> s.actors[a] == Actor(Idle, TCard(TX_COMMIT, None))
  }

  lemma {:induction false} IdleHands(actors: seq<Actor>)
    requires forall a :: 0 <= a < |actors| ==> actors[a].phase.Idle?
    ensures InHands(actors) == []
  {
    if actors != [] {
      IdleHands(actors[1..]);
    }
  }

  lemma {:induction false} RunKeeps(s: State, run: seq<Step>, q: Queues<nat>)
    requires Inv(s) && Legal(s, run) && Replayed(s, q)
    ensures Replayed(End(s, run), q) && Places(End(s, run)) == Places(s)
    decreases |run|
  {
    if run != [] {
      StepKeepsReplayed(s, run[0], q);
      StepConserves(s, run[0]);
      RunKeeps(Next(s, run[0]), run[1..], q);
    }
  }

  lemma StartIsReplayed(s: State, n: nat)
    requires Start(s, n)
    ensures Replayed(s, Queues([], Ids(n)))
  {
  }

  /** Whoever executes whose card, the queues and every result are those of executing the cards one
      by one in the order in which txp committed them. */
  lemma RunsAreSequential(s: State, n: nat, run: seq<Step>)
    requires Start(s, n) && Legal(s, run)
    ensures var e := End(s, run);
            && |e.results| <= |e.log| && (forall x :: x in e.log[..|e.results|] ==> x.Good())
            && Replay(Queues([], Ids(n)), e.log[..|e.results|]) == (e.queues, e.results)
  {
    RunKeeps(s, run, Queues([], Ids(n)));
  }

  lemma {:induction false} IdsOnce(n: nat, d: nat)
    ensures multiset(Ids(n))[d] == if d < n then 1 else 0
  {
    if n > 0 {
      IdsOnce(n - 1, d);
      assert Ids(n) == Ids(n - 1) + [n - 1];
    }
  }

  /** Each of the n dispatch cards is always in exactly one place: free, queued for dispatch, in a
      shot, or in the hands of one actor. */
  lemma EveryCardInOnePlace(s: State, n: nat, run: seq<Step>, d: nat)
    requires Start(s, n) && Legal(s, run)
    ensures Places(End(s, run))[d] == if d < n then 1 else 0
  {
    hide Inv, Legal, End;
    IdleHands(s.actors);
    StartIsReplayed(s, n);
    RunKeeps(s, run, Queues([], Ids(n)));
    IdsOnce(n, d);
  }

  lemma {:induction false} HandsCount(actors: seq<Actor>, a: nat, d: nat)
    requires a < |actors| && d in actors[a].Hands()
    ensures multiset(InHands(actors))[d] >= 1
    ensures multiset(InHands(actors))[d] == 1 ==> forall b :: 0 <= b < |actors| && b != a ==> d !in actors[b].Hands()
  {
    hide Actor.Hands;
    var rest := actors[1..];
    assert multiset(InHands(actors)) == multiset(actors[0].Hands()) + multiset(InHands(rest));
    if a > 0 {
      HandsCount(rest, a - 1, d);
      forall b | 0 <= b < |actors| && b != a && multiset(InHands(actors))[d] == 1 ensures d !in actors[b].Hands() {
        if b > 0 {
          assert actors[b] == rest[b - 1];
        }
      }
    } else {
      forall b | 1 <= b < |actors| && multiset(InHands(actors))[d] == 1 ensures d !in actors[b].Hands() {
        if d in actors[b].Hands() {
          HandsCount(rest, b - 1, d);
        }
      }
    }
  }

  /** A card in someone's hands, about to be pushed, is in neither queue, in no shot, and in nobody
      else's hands: no push ever inserts a card that is already queued. */
  lemma PushesAreFresh(s: State, n: nat, run: seq<Step>, a: nat, d: nat)
    requires Start(s, n) && Legal(s, run)
    requires a < |End(s, run).actors| && d in End(s, run).actors[a].Hands()
    ensures var e := End(s, run);
            && d !in e.queues.free && d !in e.queues.dispatch && d !in e.shots
            && (forall b :: 0 <= b < |e.actors| && b != a ==> d !in e.actors[b].Hands())
  {
    var e := End(s, run);
    EveryCardInOnePlace(s, n, run, d);
    HandsCount(e.actors, a, d);
    assert multiset(e.queues.free)[d] == 0 && multiset(e.queues.dispatch)[d] == 0 && multiset(e.shots)[d] == 0;
  }

  // ------------------------------------------------------------------- The life of a dispatch card

  /** Where a dispatch card is on its way: free, with an actor of a role, about to be pushed, queued for dispatch, or in
      a shot. */
  datatype Stage = Free | With(role: Role) | ToDispatch | Dispatched | InShot | ToFree

  /** The actor has the card because of its role. */
  predicate Keeps(me: Actor, role: Role, d: nat) {
    || me.phase == Holding(role, d)
    || (me.phase == Popping(role) && me.card.op == TX_COMMIT && me.card.d == Some(d))
  }

  /** The actor's order to push the card is in the transaction queue. */
  predicate Sends(me: Actor, op: Op, d: nat) { me.phase.Pushing? && me.card == TCard(op, Some(d)) }

  ghost predicate At(s: State, d: nat, g: Stage) {
    match g
    case Free => d in s.queues.free
    case With(role) => exists a :: 0 <= a < |s.actors| && Keeps(s.actors[a], role, d)
    case ToDispatch => exists a :: 0 <= a < |s.actors| && Sends(s.actors[a], TX_DISPATCH + TX_PUSH, d)
    case Dispatched => d in s.queues.dispatch
    case InShot => d in s.shots
    case ToFree => exists a :: 0 <= a < |s.actors| && Sends(s.actors[a], TX_FREE + TX_PUSH, d)
  }

  /** Submitters ask for free cards and lead agents for dispatched ones. */
  predicate Asks(me: Actor) {
    && (me.phase.Popping? && me.card.op != TX_COMMIT ==>
          || (me.phase.role == Submitter && me.card.op == TX_FREE + TX_POP)
          || (me.phase.role == Lead && me.card.op == TX_DISPATCH + TX_POP))
    && (me.phase.Pushing? && me.card.op != TX_COMMIT ==>
          me.card.op == TX_DISPATCH + TX_PUSH || me.card.op == TX_FREE + TX_PUSH)
  }

  /** One of the four operations that the protocol uses. */
  predicate Used(op: Op) {
    op in {TX_DISPATCH + TX_PUSH, TX_DISPATCH + TX_POP, TX_FREE + TX_PUSH, TX_FREE + TX_POP}
  }

  ghost predicate Asked(s: State) {
    && (forall a :: 0 <= a < |s.actors| ==> Asks(s.actors[a]))
    && forall e :: e in s.log ==> Used(e.card.op)
  }

  lemma StepKeepsAsked(s: State, st: Step)
    requires Inv(s) && Asked(s) && Enabled(s, st)
    ensures Asked(Next(s, st))
  {
  }

  /** How a step may move a card. Submitting, leasing, serving and finishing move the card in the actor's hands, or in
      the shot it takes; an execution moves cards into queues and out of them. */
  ghost predicate Goes(s: State, st: Step, d: nat, g: Stage, g': Stage)
    requires Enabled(s, st)
  {
    var me := s.actors[st.a];
    match st
    case Fill(_) => if me.phase.d == d then g == With(Submitter) && g' == ToDispatch else g' == g
    case Lease(_, accepted) =>
      if me.phase.d == d then g == With(Lead) && g' == (if accepted then InShot else ToDispatch) else g' == g
    case Serve(_, k) => if s.shots[k] == d then g == InShot && g' == With(Exec) else g' == g
    case Finish(_, confirmed) =>
      if me.phase.d == d then g == With(Exec) && g' == (if confirmed then ToDispatch else ToFree) else g' == g
    case Key(_) =>
      || g' == g
      || (g == Free && g' == With(Submitter))
      || (g == ToDispatch && g' == Dispatched)
      || (g == Dispatched && g' == With(Lead))
      || (g == ToFree && g' == Free)
    case _ => g' == g
  }

  /** A card that is in one place, as every reachable state has it. */
  ghost predicate Once(s: State, d: nat) { Inv(s) && Asked(s) && Places(s)[d] == 1 }

  lemma {:induction false} SomeHands(actors: seq<Actor>, d: nat) returns (a: nat)
    requires d in InHands(actors)
    ensures a < |actors| && d in actors[a].Hands()
  {
    hide Actor.Hands;
    if d in actors[0].Hands() {
      a := 0;
    } else {
      a := SomeHands(actors[1..], d);
      a := a + 1;
    }
  }

  /** A card in an actor's hands is nowhere else. */
  lemma HeldOnce(s: State, a: nat, d: nat)
    requires Once(s, d) && a < |s.actors| && d in s.actors[a].Hands()
    ensures d !in s.queues.free && d !in s.queues.dispatch && d !in s.shots
    ensures forall b :: 0 <= b < |s.actors| && b != a ==> d !in s.actors[b].Hands()
  {
    HandsCount(s.actors, a, d);
    hide Inv, Asked, InHands;
    assert multiset(s.queues.free)[d] == 0 && multiset(s.queues.dispatch)[d] == 0 && multiset(s.shots)[d] == 0;
  }

  lemma HandsAre(me: Actor, d: nat)
    requires me.Sound() && Asks(me)
    ensures d in me.Hands() <==>
            || (exists role :: Keeps(me, role, d))
            || Sends(me, TX_DISPATCH + TX_PUSH, d) || Sends(me, TX_FREE + TX_PUSH, d)
    ensures forall r, q :: Keeps(me, r, d) && Keeps(me, q, d) ==> r == q
    ensures !(Sends(me, TX_DISPATCH + TX_PUSH, d) && Sends(me, TX_FREE + TX_PUSH, d))
    ensures forall r :: Keeps(me, r, d) ==> !Sends(me, TX_DISPATCH + TX_PUSH, d) && !Sends(me, TX_FREE + TX_PUSH, d)
  {
    if me.phase.Holding? && me.phase.d == d {
      assert Keeps(me, me.phase.role, d);
    } else if me.phase.Popping? && me.card == TCard(TX_COMMIT, Some(d)) {
      assert Keeps(me, me.phase.role, d);
    }
  }

  /** Whoever is said to have the card at a stage has it in hand. */
  predicate HasIt(me: Actor, d: nat, g: Stage) {
    match g
    case With(role) => Keeps(me, role, d)
    case ToDispatch => Sends(me, TX_DISPATCH + TX_PUSH, d)
    case ToFree => Sends(me, TX_FREE + TX_PUSH, d)
    case _ => false
  }

  predicate InHand(g: Stage) { g.With? || g.ToDispatch? || g.ToFree? }

  lemma AtIs(s: State, d: nat, g: Stage)
    requires InHand(g)
    ensures At(s, d, g) <==> exists a :: 0 <= a < |s.actors| && HasIt(s.actors[a], d, g)
  {
    if At(s, d, g) {
      match g
      case With(role) => var a :| 0 <= a < |s.actors| && Keeps(s.actors[a], role, d); assert HasIt(s.actors[a], d, g);
      case ToDispatch =>
        var a :| 0 <= a < |s.actors| && Sends(s.actors[a], TX_DISPATCH + TX_PUSH, d);
        assert HasIt(s.actors[a], d, g);
      case ToFree =>
        var a :| 0 <= a < |s.actors| && Sends(s.actors[a], TX_FREE + TX_PUSH, d);
        assert HasIt(s.actors[a], d, g);
    }
  }

  lemma Holder(s: State, d: nat, g: Stage) returns (a: nat)
    requires Once(s, d) && At(s, d, g) && InHand(g)
    ensures a < |s.actors| && HasIt(s.actors[a], d, g) && d in s.actors[a].Hands()
  {
    AtIs(s, d, g);
    a :| 0 <= a < |s.actors| && HasIt(s.actors[a], d, g);
    HandsAre(s.actors[a], d);
    assert g.With? ==> Keeps(s.actors[a], g.role, d);
  }

  /** A card is at one stage, and at no other. */
  lemma OneStage(s: State, d: nat)
    requires Once(s, d)
    ensures exists g :: At(s, d, g)
    ensures forall g, h :: At(s, d, g) && At(s, d, h) ==> g == h
  {
    SomeStage(s, d);
    forall g, h | At(s, d, g) && At(s, d, h) ensures g == h {
      SameStage(s, d, g, h);
    }
  }

  lemma SomeStage(s: State, d: nat)
    requires Once(s, d)
    ensures exists g :: At(s, d, g)
  {
    if d in s.queues.free {
      assert At(s, d, Free);
    } else if d in s.queues.dispatch {
      assert At(s, d, Dispatched);
    } else if d in s.shots {
      assert At(s, d, InShot);
    } else {
      assert multiset(s.queues.free)[d] == multiset(s.queues.dispatch)[d] == multiset(s.shots)[d] == 0;
      assert multiset(InHands(s.actors))[d] == 1;
      var a := SomeHands(s.actors, d);
      var me := s.actors[a];
      HandsAre(me, d);
      if role :| Keeps(me, role, d) {
        assert At(s, d, With(role));
      } else if Sends(me, TX_DISPATCH + TX_PUSH, d) {
        assert At(s, d, ToDispatch);
      } else {
        assert At(s, d, ToFree);
      }
    }
  }

  lemma SameStage(s: State, d: nat, g: Stage, h: Stage)
    requires Once(s, d) && At(s, d, g) && At(s, d, h)
    ensures g == h
  {
    if InHand(g) {
      var a := Holder(s, d, g);
      HeldOnce(s, a, d);
      if InHand(h) {
        var b := Holder(s, d, h);
        assert a == b;
        HandsAre(s.actors[a], d);
      }
    } else if InHand(h) {
      var b := Holder(s, d, h);
      HeldOnce(s, b, d);
    } else {
      hide Inv, Asked;
      var free, dispatch, shots := multiset(s.queues.free), multiset(s.queues.dispatch), multiset(s.shots);
      assert (free + dispatch + shots + multiset(InHands(s.actors)))[d] == 1;
    }
  }

  lemma StepKeepsOnce(s: State, st: Step, d: nat)
    requires Once(s, d) && Enabled(s, st)
    ensures Once(Next(s, st), d)
  {
    StepKeepsInv(s, st);
    StepKeepsAsked(s, st);
    StepConserves(s, st);
  }

  /** The actors that a step leaves alone keep what they have. */
  lemma OthersKeep(s: State, s': State, d: nat, g: Stage, a: nat)
    requires InHand(g) && a < |s.actors| == |s'.actors| && s'.actors[a] == s.actors[a] && HasIt(s.actors[a], d, g)
    ensures At(s', d, g)
  {
    AtIs(s', d, g);
  }

  /** Where an execution moves a card. */
  lemma KeyGoes(s: State, d: nat, g: Stage) returns (g': Stage)
    requires Once(s, d) && At(s, d, g)
    ensures At(Txe(s), d, g')
    ensures || g' == g || (g == Free && g' == With(Submitter)) || (g == ToDispatch && g' == Dispatched)
            || (g == Dispatched && g' == With(Lead)) || (g == ToFree && g' == Free)
  {
    g' := g;
    if s.txq == [] {
      return;
    }
    var f, t := s.txq[0], Txe(s);
    QueuedWaits(s, 0);
    var me := s.actors[f];
    ActorIsSound(s, f);
    assert Asks(me);
    if InHand(g) {
      var a := Holder(s, d, g);
      if a == f {
        g' := if g == ToDispatch then Dispatched else Free;
      } else {
        OthersKeep(s, t, d, g, a);
      }
    } else if g == Free || g == Dispatched {
      var q := Target(s.queues, me.card.op);
      if IsPop(me.card.op) && q != [] && q[0] == d && (g == Free <==> !OnDispatch(me.card.op)) {
        g' := With(me.phase.role);
        assert Keeps(t.actors[f], me.phase.role, d);
      }
    }
  }

  /** Where an actor's step moves the card in its hands. */
  lemma Moved(s: State, st: Step, d: nat, g: Stage) returns (g': Stage)
    requires Once(s, d) && Enabled(s, st) && !st.Key? && InHand(g) && HasIt(s.actors[st.a], d, g)
    ensures At(Next(s, st), d, g') && Goes(s, st, d, g, g')
  {
    var t, me := Next(s, st), s.actors[st.a];
    ActorIsSound(s, st.a);
    match st
    case Leave(a) =>
      g' := g;
      assert Keeps(t.actors[a], g.role, d);
    case Fill(a) =>
      g' := ToDispatch;
      assert Sends(t.actors[a], TX_DISPATCH + TX_PUSH, d);
    case Lease(a, accepted) =>
      g' := if accepted then InShot else ToDispatch;
      if accepted {
        assert t.shots[|s.shots|] == d;
      } else {
        assert Sends(t.actors[a], TX_DISPATCH + TX_PUSH, d);
      }
    case Finish(a, confirmed) =>
      g' := if confirmed then ToDispatch else ToFree;
      assert Sends(t.actors[a], (if confirmed then TX_DISPATCH else TX_FREE) + TX_PUSH, d);
    case _ =>
  }

  lemma StepIsLocal(s: State, st: Step)
    requires Inv(s) && Enabled(s, st) && !st.Key?
    ensures var t := Next(s, st);
            && |t.actors| == |s.actors| && t.queues == s.queues
            && forall a :: 0 <= a < |s.actors| && a != st.a ==> t.actors[a] == s.actors[a]
  {
  }

  /** A card that the actor does not have stays, unless it is in the shot that is taken. */
  lemma ShelfGoes(s: State, st: Step, d: nat, g: Stage) returns (g': Stage)
    requires Inv(s) && Enabled(s, st) && !st.Key? && !InHand(g) && At(s, d, g) && d !in s.actors[st.a].Hands()
    requires st.Serve? && s.shots[st.k] == d ==> g == InShot
    ensures At(Next(s, st), d, g') && (g' == if st.Serve? && s.shots[st.k] == d then With(Exec) else g)
  {
    StepIsLocal(s, st);
    hide Inv;
    var t := Next(s, st);
    g' := g;
    if st.Serve? {
      if s.shots[st.k] == d {
        g' := With(Exec);
        assert Keeps(t.actors[st.a], Exec, d);
      } else if g == InShot {
        var i :| 0 <= i < |s.shots| && s.shots[i] == d;
        assert t.shots[if i < st.k then i else i - 1] == d;
      }
    }
  }

  lemma HoldsInHands(s: State, st: Step, d: nat)
    requires Enabled(s, st) && d !in s.actors[st.a].Hands()
    ensures st.Fill? || st.Lease? || st.Finish? ==> s.actors[st.a].phase.d != d
  {
  }

  lemma ShotIsStage(s: State, st: Step, d: nat, g: Stage)
    requires Once(s, d) && Enabled(s, st) && st.Serve? && s.shots[st.k] == d && At(s, d, g)
    ensures g == InShot
  {
    assert At(s, d, InShot);
    SameStage(s, d, g, InShot);
  }

  /** Where a step moves a card. */
  lemma CardGoes(s: State, st: Step, d: nat, g: Stage) returns (g': Stage)
    requires Once(s, d) && Enabled(s, st) && At(s, d, g)
    ensures At(Next(s, st), d, g') && Goes(s, st, d, g, g')
  {
    hide At, Inv, Asked, Next, Places, HasIt, Txe, Actor.Hands;
    if st.Key? {
      KeyIsTxe(s, st);
      g' := KeyGoes(s, d, g);
    } else if InHand(g) {
      var a := Holder(s, d, g);
      HeldOnce(s, a, d);
      if a == st.a {
        g' := Moved(s, st, d, g);
      } else {
        StepIsLocal(s, st);
        OthersKeep(s, Next(s, st), d, g, a);
        HoldsInHands(s, st, d);
        g' := g;
      }
    } else {
      if d in s.actors[st.a].Hands() {
        HeldOnce(s, st.a, d);
        NotOnShelf(s, d, g);
      }
      if st.Serve? && s.shots[st.k] == d {
        ShotIsStage(s, st, d, g);
      }
      HoldsInHands(s, st, d);
      g' := ShelfGoes(s, st, d, g);
    }
  }

  lemma KeyIsTxe(s: State, st: Step)
    requires Inv(s) && Enabled(s, st) && st.Key?
    ensures Next(s, st) == Txe(s)
  {
  }

  lemma NotOnShelf(s: State, d: nat, g: Stage)
    requires d !in s.queues.free && d !in s.queues.dispatch && d !in s.shots && At(s, d, g)
    ensures InHand(g)
  {
  }

  /** The step fills in the card, or is the last to have it in service. */
  predicate Handles(s: State, st: Step, d: nat)
    requires Enabled(s, st)
  {
    (st.Fill? || st.Finish?) && s.actors[st.a].phase.d == d
  }

  /** Whether a card has been submitted, by the last time that its holder filled it in or left it unconfirmed. */
  ghost predicate Submitted(s: State, run: seq<Step>, d: nat, was: bool)
    requires Inv(s) && Legal(s, run)
    decreases |run|
  {
    if run == [] then was
    else
      var st := run[0];
      StepKeepsInv(s, st);
      Submitted(Next(s, st), run[1..], d, if Handles(s, st, d) then st.Fill? || st.confirmed else was)
  }

  /** In service: on its way to a shot, in one, or behind it. */
  predicate Serving(g: Stage) {
    g in {ToDispatch, Dispatched, InShot, With(Lead), With(Exec)}
  }

  lemma GoesServing(s: State, st: Step, d: nat, g: Stage, g': Stage)
    requires Enabled(s, st) && Goes(s, st, d, g, g')
    ensures Serving(g') <==> if Handles(s, st, d) then st.Fill? || st.confirmed else Serving(g)
  {
  }

  lemma {:induction false} RunKeepsServing(s: State, run: seq<Step>, d: nat, g: Stage) returns (g': Stage)
    requires Once(s, d) && Legal(s, run) && At(s, d, g)
    ensures Once(End(s, run), d) && At(End(s, run), d, g')
    ensures Serving(g') <==> Submitted(s, run, d, Serving(g))
    decreases |run|
  {
    g' := g;
    if run != [] {
      hide Inv, Next, Once, At, Places, Goes, Serving, Handles;
      OnceIsInv(s, d);
      StepKeepsInv(s, run[0]);
      StepKeepsOnce(s, run[0], d);
      var h := CardGoes(s, run[0], d, g);
      GoesServing(s, run[0], d, g, h);
      g' := RunKeepsServing(Next(s, run[0]), run[1..], d, h);
    }
  }

  lemma OnceIsInv(s: State, d: nat)
    requires Once(s, d)
    ensures Inv(s)
  {
  }

  lemma StartsOnce(s: State, n: nat, d: nat)
    requires Start(s, n) && d < n
    ensures Once(s, d) && At(s, d, Free)
  {
    IdleHands(s.actors);
    IdsOnce(n, d);
  }

  /** In every run a dispatch card is in service exactly from when a submitter has filled it in until an executive agent
      gives it back unconfirmed. While it is, it is on its way into the dispatch queue, in it, with a lead agent, in a
      shot or with an executive agent, and never free; otherwise it is free, with a submitter, or on its way back. */
  lemma SubmittedUntilFreed(s: State, n: nat, run: seq<Step>, d: nat)
    requires Start(s, n) && Legal(s, run) && d < n
    ensures var e := End(s, run);
            if Submitted(s, run, d, false) then
              && d !in e.queues.free
              && (|| At(e, d, ToDispatch) || d in e.queues.dispatch || At(e, d, With(Lead)) || d in e.shots
                  || At(e, d, With(Exec)))
            else
              && d !in e.queues.dispatch && d !in e.shots
              && (d in e.queues.free || At(e, d, With(Submitter)) || At(e, d, ToFree))
  {
    StartsOnce(s, n, d);
    var g := RunKeepsServing(s, run, d, Free);
    hide Once, Submitted, End, Legal, Start;
    forall h | At(End(s, run), d, h) ensures h == g {
      OneStage(End(s, run), d);
    }
    assert d in End(s, run).queues.free ==> At(End(s, run), d, Free);
    assert d in End(s, run).queues.dispatch ==> At(End(s, run), d, Dispatched);
    assert d in End(s, run).shots ==> At(End(s, run), d, InShot);
    StagesServe(g);
  }

  lemma StagesServe(g: Stage)
    ensures !Serving(g) ==> g in {Free, With(Submitter), ToFree}
  {
    match g
    case With(Submitter) =>
    case With(Lead) =>
    case With(Exec) =>
    case _ =>
  }

  // ------------------------------------------------------------------- The order of the queues

  /** The cards that executed orders of one kind have put into a queue, in order. */
  function Into(log: seq<Entry>, op: Op): seq<nat> {
    if log == [] then []
    else
      var last := log[|log| - 1].card;
      Into(log[..|log| - 1], op) + if last.op == op && last.d.Some? then [last.d.value] else []
  }

  /** And those that they have got out of one. */
  function OutOf(log: seq<Entry>, results: seq<Option<nat>>, op: Op): seq<nat>
    requires |log| == |results|
  {
    if log == [] then []
    else
      var n := |log| - 1;
      OutOf(log[..n], results[..n], op)
      + if log[n].card.op == op && results[n].Some? then [results[n].value] else []
  }

  /** First in, first out. */
  ghost predicate Fifo(start: seq<nat>, log: seq<Entry>, results: seq<Option<nat>>, push: Op, pop: Op, q: seq<nat>) {
    |log| == |results| && OutOf(log, results, pop) + q == start + Into(log, push)
  }

  /** A push puts its card last into its queue, a pop takes the first out of its own, if there is one. */
  lemma ExecuteIsFifo(q: Queues<nat>, card: TCard)
    requires Used(card.op) && (IsPush(card.op) ==> card.d.Some?)
    ensures var e := Execute(q, card.op, card.d);
            && (if card.op == TX_DISPATCH + TX_PUSH then e.queues.dispatch == q.dispatch + [card.d.value]
                else if card.op == TX_DISPATCH + TX_POP && e.dispatch.Some? then
                  q.dispatch == [e.dispatch.value] + e.queues.dispatch
                else e.queues.dispatch == q.dispatch)
            && (if card.op == TX_FREE + TX_PUSH then e.queues.free == q.free + [card.d.value]
                else if card.op == TX_FREE + TX_POP && e.dispatch.Some? then
                  q.free == [e.dispatch.value] + e.queues.free
                else e.queues.free == q.free)
  {
  }

  lemma {:induction false} ReplayIsFifo(q: Queues<nat>, log: seq<Entry>)
    requires forall e :: e in log ==> e.Good() && Used(e.card.op)
    ensures var (q', results) := Replay(q, log);
            && Fifo(q.dispatch, log, results, TX_DISPATCH + TX_PUSH, TX_DISPATCH + TX_POP, q'.dispatch)
            && Fifo(q.free, log, results, TX_FREE + TX_PUSH, TX_FREE + TX_POP, q'.free)
  {
    if log != [] {
      var n := |log| - 1;
      forall e | e in log[..n] ensures e in log {
      }
      ReplayIsFifo(q, log[..n]);
      var (before, results) := Replay(q, log[..n]);
      assert log[n] in log;
      var e := Execute(before, log[n].card.op, log[n].card.d);
      var more := results + [e.dispatch];
      assert more[..n] == results;
      ExecuteIsFifo(before, log[n].card);
      hide Execute, Fifo;
      FifoOn(q.dispatch, log, more, TX_DISPATCH + TX_PUSH, TX_DISPATCH + TX_POP, before.dispatch, e.queues.dispatch);
      FifoOn(q.free, log, more, TX_FREE + TX_PUSH, TX_FREE + TX_POP, before.free, e.queues.free);
    }
  }

  lemma FifoOn(start: seq<nat>, log: seq<Entry>, results: seq<Option<nat>>, push: Op, pop: Op, q: seq<nat>,
               q': seq<nat>)
    requires log != [] && |log| == |results| && push != pop
    requires Fifo(start, log[..|log| - 1], results[..|log| - 1], push, pop, q)
    requires var (card, r) := (log[|log| - 1].card, results[|log| - 1]);
             if card.op == push && card.d.Some? then q' == q + [card.d.value]
             else if card.op == pop && r.Some? then q == [r.value] + q'
             else q' == q
    ensures Fifo(start, log, results, push, pop, q')
  {
    var n := |log| - 1;
    var out, into := OutOf(log[..n], results[..n], pop), Into(log[..n], push);
    assert out + q == start + into;
    if log[n].card.op == push && log[n].card.d.Some? {
      assert out + q' == (out + q) + [log[n].card.d.value];
      assert start + Into(log, push) == (start + into) + [log[n].card.d.value];
    } else if log[n].card.op == pop && results[n].Some? {
      var r := [results[n].value];
      assert OutOf(log, results, pop) == out + r && out + r + q' == out + (r + q');
      assert Into(log, push) == into;
    } else {
      assert OutOf(log, results, pop) == out && Into(log, push) == into;
    }
  }

  lemma {:induction false} RunKeepsAsked(s: State, run: seq<Step>)
    requires Inv(s) && Asked(s) && Legal(s, run)
    ensures Asked(End(s, run))
    decreases |run|
  {
    hide Next, Asked;
    if run != [] {
      StepKeepsInv(s, run[0]);
      StepKeepsAsked(s, run[0]);
      RunKeepsAsked(Next(s, run[0]), run[1..]);
    }
  }

  lemma StartIsAsked(s: State, n: nat)
    requires Start(s, n)
    ensures Inv(s) && Asked(s)
  {
  }

  /** In every run both queues are first in, first out, by the orders executed so far: the free queue gives out the
      cards it had at the start and then those put back into it, the dispatch queue those submitted, refused by the lead
      agents or confirmed, each in the order in which they were put in. */
  lemma QueuesAreFifo(s: State, n: nat, run: seq<Step>)
    requires Start(s, n) && Legal(s, run)
    ensures var e := End(s, run);
            && |e.results| <= |e.log|
            && Fifo([], e.log[..|e.results|], e.results, TX_DISPATCH + TX_PUSH, TX_DISPATCH + TX_POP, e.queues.dispatch)
            && Fifo(Ids(n), e.log[..|e.results|], e.results, TX_FREE + TX_PUSH, TX_FREE + TX_POP, e.queues.free)
  {
    var e := End(s, run);
    RunsAreSequential(s, n, run);
    StartIsAsked(s, n);
    RunKeepsAsked(s, run);
    forall x | x in e.log[..|e.results|] ensures Used(x.card.op) {
      assert x in e.log;
    }
    ReplayIsFifo(Queues([], Ids(n)), e.log[..|e.results|]);
  }

  // ------------------------------------------------------------------- Keying through

  function Keys(run: seq<Step>): nat {
    if run == [] then 0 else (if run[0].Key? then 1 else 0) + Keys(run[1..])
  }

  lemma StepAdvances(s: State, st: Step, a: nat, p: nat)
    requires Inv(s) && Enabled(s, st) && !(st.Leave? && st.a == a)
    requires p < |s.txq| && s.txq[p] == a
    ensures a < |Next(s, st).actors| && s.actors[a].Waits()
    ensures var s' := Next(s, st);
            if st.Key? && p == 0 then s'.actors[a].Keying() && s'.actors[a].card.op == TX_COMMIT && a !in s'.txq
            else
              var p' := if st.Key? then p - 1 else p;
              p' < |s'.txq| && s'.txq[p'] == a
  {
  }

  lemma StepKeepsCommitted(s: State, st: Step, a: nat)
    requires Inv(s) && Enabled(s, st) && !(st.Leave? && st.a == a)
    requires a < |s.actors| && s.actors[a].Keying() && s.actors[a].card.op == TX_COMMIT
    ensures a < |Next(s, st).actors| && Next(s, st).actors[a] == s.actors[a]
  {
  }

  lemma {:induction false} CommittedStays(s: State, run: seq<Step>, a: nat)
    requires Inv(s) && Legal(s, run) && Leave(a) !in run
    requires a < |s.actors| && s.actors[a].Keying() && s.actors[a].card.op == TX_COMMIT
    ensures a < |End(s, run).actors| && End(s, run).actors[a] == s.actors[a]
    decreases |run|
  {
    hide Inv, Next, Enabled;
    if run != [] {
      assert run[0] in run;
      StepKeepsInv(s, run[0]);
      StepKeepsCommitted(s, run[0], a);
      CommittedStays(Next(s, run[0]), run[1..], a);
    }
  }

  lemma QueuedWaits(s: State, p: nat)
    requires Inv(s) && p < |s.txq|
    ensures s.txq[p] < |s.actors| && s.actors[s.txq[p]].Waits()
  {
  }

  lemma CommittedIsNotQueued(s: State, a: nat)
    requires Inv(s)
    ensures a < |s.actors| && s.actors[a].card.op == TX_COMMIT ==> a !in s.txq
  {
  }

  /** Keying through ends. Of a card at position p of the transaction queue, after k executions by
      anyone (its owner still in its loop) it stands at p - k, and after p + 1 it is committed and
      no longer in the queue, whatever is pushed behind it meanwhile. */
  lemma {:induction false} KeyThroughEnds(s: State, run: seq<Step>, a: nat, p: nat)
    requires Inv(s) && Legal(s, run) && Leave(a) !in run && p < |s.txq| && s.txq[p] == a
    ensures var e := End(s, run);
            && a < |e.actors|
            && (Keys(run) <= p ==> p - Keys(run) < |e.txq| && e.txq[p - Keys(run)] == a && e.actors[a].Waits())
            && (Keys(run) > p ==> e.actors[a].Keying() && e.actors[a].card.op == TX_COMMIT && a !in e.txq)
    decreases |run|
  {
    hide Inv, Next, Enabled;
    QueuedWaits(s, p);
    CommittedIsNotQueued(End(s, run), a);
    if run != [] {
      assert run[0] in run;
      StepKeepsInv(s, run[0]);
      StepAdvances(s, run[0], a, p);
      var s' := Next(s, run[0]);
      if run[0].Key? && p == 0 {
        CommittedStays(s', run[1..], a);
      } else {
        KeyThroughEnds(s', run[1..], a, if run[0].Key? then p - 1 else p);
      }
    }
  }
}
