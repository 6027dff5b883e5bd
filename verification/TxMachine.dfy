/** TX$ under XS$ preemption: two lanes share one transaction account.

    A transaction body is a sequence of small steps, each reading the ledger that is current and
    writing the event slip and the lane's own registers; XS$ may take the processor between any
    two of them. A lane whose check failed is Doomed until its rollback's critical section runs,
    because checktx releases the XS$ lock first: XS$ may preempt it again in that window. */
module TxMachine {
  import opened Basics
  import opened TxAccount

  datatype Work<S, R> = Work(slip: S, regs: R)

  /** A step maps (current ledger, event slip, registers) to the new slip and registers. */
  type Micro<!S, !R> = (S, S, R) -> Work<S, R>

  datatype Transaction<!S, !R> = Transaction(body: seq<Micro<S, R>>, regs: R)

  datatype Phase<R> = Idle | Running(pc: nat, regs: R) | Doomed

  /** A lane, with what the history says about its open transaction: the event slip it found at
      its last start or restart, whether the other lane has started, restarted or committed since
      (`overrun`), and how many times the other lane has committed since. */
  datatype LaneState<!S, !R> = LaneState(
    file: TxFile, phase: Phase<R>, tx: Transaction<S, R>, found: S, overrun: bool, since: nat)
  {
    predicate Open() { !phase.Idle? }
  }

  datatype State<!S, !R> = State(
    xta: Xta, ledgers: seq<S>, lanes: seq<LaneState<S, R>>, active: nat,
    committed: seq<Transaction<S, R>>)
  {
    predicate Shaped() {
      && |ledgers| == 2 && |lanes| == 2 && active < 2
      && xta.current < 2 && xta.event == 1 - xta.current
    }

    function Current(): S
      requires Shaped()
    {
      ledgers[xta.current]
    }

    function Event(): S
      requires Shaped()
    {
      ledgers[xta.event]
    }
  }

  datatype Step<!S, !R> =
    | Enter(tx: Transaction<S, R>)
    | Do
    | Commit(left: Word)
    | Preempt(next: nat)
    | Rollback

  predicate Enabled<S, R>(s: State<S, R>, st: Step<S, R>)
    requires s.Shaped()
  {
    var l := s.lanes[s.active];
    match st
    case Enter(_) => l.phase.Idle?
    case Do => l.phase.Running? && l.phase.pc < |l.tx.body|
    case Commit(_) => l.phase.Running? && l.phase.pc == |l.tx.body|
    case Preempt(next) => next < 2
    case Rollback => l.phase.Doomed?
  }

  /** The other lane's history after this lane starts, restarts or commits. */
  function Overrun<S, R>(l: LaneState<S, R>, commits: nat): LaneState<S, R> {
    if l.Open() then l.(overrun := true, since := l.since + commits) else l
  }

  function Put<S, R>(s: State<S, R>, me: LaneState<S, R>, other: LaneState<S, R>): seq<LaneState<S, R>>
    requires s.Shaped()
  {
    if s.active == 0 then [me, other] else [other, me]
  }

  function Next<S, R>(s: State<S, R>, st: Step<S, R>): (s': State<S, R>)
    requires s.Shaped() && Enabled(s, st)
    ensures s'.Shaped()
  {
    var me, other := s.lanes[s.active], s.lanes[1 - s.active];
    match st
    case Enter(tx) =>
      s.(xta := EnterXta(s.xta),
         lanes := Put(s, LaneState(EnterFile(s.xta), Running(0, tx.regs), tx, s.Event(), false, 0),
                      Overrun(other, 0)))
    case Do =>
      var w := me.tx.body[me.phase.pc](s.Current(), s.Event(), me.phase.regs);
      s.(ledgers := s.ledgers[s.xta.event := w.slip],
         lanes := Put(s, me.(phase := Running(me.phase.pc + 1, w.regs)), other))
    case Commit(left) =>
      s.(xta := CommitXta(s.xta, left),
         lanes := Put(s, me.(file := me.file.(mark := false), phase := Idle), Overrun(other, 1)),
         committed := s.committed + [me.tx])
    case Preempt(next) =>
      var l := s.lanes[next];
      var l' := if l.file.mark && !CheckPasses(s.xta, l.file) then l.(phase := Doomed) else l;
      s.(active := next, lanes := s.lanes[next := l'])
    case Rollback =>
      s.(xta := RollbackXta(s.xta, me.file),
         lanes := Put(s, LaneState(me.file.(ctarget := s.xta.com), Running(0, me.tx.regs), me.tx,
                                   s.Event(), false, 0),
                      Overrun(other, 0)))
  }

  /** The work of the first k steps of a body started over `slip`, with `current` held still. */
  function After<S, R>(tx: Transaction<S, R>, current: S, slip: S, k: nat): Work<S, R>
    requires k <= |tx.body|
  {
    if k == 0 then Work(slip, tx.regs)
    else
      var w := After(tx, current, slip, k - 1);
      tx.body[k - 1](current, w.slip, w.regs)
  }

  function Outcome<S, R>(tx: Transaction<S, R>, current: S, slip: S): S {
    After(tx, current, slip, |tx.body|).slip
  }

  // ---------------------------------------------------------------- The protocol's invariant

  /** One open lane, the other idle. A lane that has been overrun sees either the semaphore back
      at its own mark (the other lane was above it) or two below (the other lane was below it). */
  ghost predicate Alone<S, R>(z: Xta, l: LaneState<S, R>) {
    if !l.overrun then CheckPasses(z, l.file)
    else l.since >= 1 && (z.act == l.file.amark || z.act + 2 == l.file.amark)
  }

  /** Both open: neighbouring marks, and the later starter alone passes the check. */
  ghost predicate Pair<S, R>(z: Xta, l: LaneState<S, R>, o: LaneState<S, R>) {
    && (l.file.amark == o.file.amark + 1 || o.file.amark == l.file.amark + 1)
    && l.overrun != o.overrun
    && (!l.overrun ==> CheckPasses(z, l.file))
    && (!o.overrun ==> CheckPasses(z, o.file))
  }

  /** An open lane that has not been overrun has done exactly its own work over the slip. */
  ghost predicate OwnWork<S, R>(s: State<S, R>, l: LaneState<S, R>)
    requires s.Shaped()
  {
    && l.phase.Running? && l.phase.pc <= |l.tx.body|
    && Work(s.Event(), l.phase.regs) == After(l.tx, s.Current(), l.found, l.phase.pc)
  }

  ghost predicate LaneInv<S, R>(s: State<S, R>, i: nat)
    requires s.Shaped() && i < 2
  {
    var l := s.lanes[i];
    && l.file.mark == l.Open()
    && (l.Open() ==> l.file.amark >= 1)
    && (l.Open() && !l.overrun ==> OwnWork(s, l))
    && (l.phase.Running? && s.active == i ==> !l.overrun)
    && (l.phase.Running? ==> l.phase.pc <= |l.tx.body|)
  }

  ghost predicate Inv<S, R>(s: State<S, R>) {
    && s.Shaped() && LaneInv(s, 0) && LaneInv(s, 1)
    && var l, o := s.lanes[0], s.lanes[1];
       && (l.Open() && o.Open() ==> Pair(s.xta, l, o))
       && (l.Open() && !o.Open() ==> Alone(s.xta, l))
       && (!l.Open() && o.Open() ==> Alone(s.xta, o))
  }

  /** An overrun lane about to be resumed would pass the check. */
  ghost predicate Hit<S, R>(s: State<S, R>, i: nat)
    requires s.Shaped() && i < 2
  {
    s.lanes[i].Open() && s.lanes[i].overrun && CheckPasses(s.xta, s.lanes[i].file)
  }

  /** The two guards under which the protocol is sound: no entry on a full semaphore, and no
      resumption of an overrun lane whose commit target has come round again. */
  ghost predicate Guarded<S, R>(s: State<S, R>, st: Step<S, R>)
    requires s.Shaped()
  {
    match st
    case Enter(_) => s.xta.act != WORD - 1
    case Preempt(next) => next < 2 && !Hit(s, next)
    case _ => true
  }

  lemma StepKeepsInv<S, R>(s: State<S, R>, st: Step<S, R>)
    requires Inv(s) && Enabled(s, st) && Guarded(s, st)
    ensures Inv(Next(s, st))
  {
  }

  // ------------------------------------------------------------------------ Runs

  ghost predicate Legal<S, R>(s: State<S, R>, run: seq<Step<S, R>>)
    requires s.Shaped()
    decreases |run|
  {
    run == [] || (Enabled(s, run[0]) && Legal(Next(s, run[0]), run[1..]))
  }

  function End<S, R>(s: State<S, R>, run: seq<Step<S, R>>): (e: State<S, R>)
    requires s.Shaped() && Legal(s, run)
    ensures e.Shaped()
    decreases |run|
  {
    if run == [] then s else End(Next(s, run[0]), run[1..])
  }

  /** Every step of the run is taken under its guard. */
  ghost predicate GuardedRun<S, R>(s: State<S, R>, run: seq<Step<S, R>>)
    requires s.Shaped() && Legal(s, run)
    decreases |run|
  {
    run == [] || (Guarded(s, run[0]) && GuardedRun(Next(s, run[0]), run[1..]))
  }

  ghost predicate Start<S, R>(s: State<S, R>) {
    && s.Shaped() && s.xta.act == 0 && s.xta.com == 0 && s.committed == []
    && !s.lanes[0].Open() && !s.lanes[1].Open()
    && !s.lanes[0].file.mark && !s.lanes[1].file.mark
  }

  /** The body leaves nothing of the old event slip: it first copies the current ledger over it. */
  ghost predicate Determined<S(!new), R(!new)>(tx: Transaction<S, R>) {
    forall c, e, e' :: Outcome(tx, c, e) == Outcome(tx, c, e')
  }

  /** One transaction after the other, with nothing in between. */
  function Serial<S, R>(first: S, txs: seq<Transaction<S, R>>): S {
    if txs == [] then first
    else
      var c := Serial(first, txs[..|txs| - 1]);
      Outcome(txs[|txs| - 1], c, c)
  }

  ghost predicate EntersDetermined<S(!new), R(!new)>(run: seq<Step<S, R>>) {
    forall i :: 0 <= i < |run| && run[i].Enter? ==> Determined(run[i].tx)
  }

  ghost predicate OpenDetermined<S(!new), R(!new)>(s: State<S, R>)
    requires s.Shaped()
  {
    forall i :: 0 <= i < 2 && s.lanes[i].Open() ==> Determined(s.lanes[i].tx)
  }

  ghost predicate Serialized<S(!new), R(!new)>(s: State<S, R>, first: S) {
    Inv(s) && OpenDetermined(s) && s.Current() == Serial(first, s.committed)
  }

  lemma StepKeepsSerialized<S(!new), R(!new)>(s: State<S, R>, st: Step<S, R>, first: S)
    requires Serialized(s, first) && Enabled(s, st) && Guarded(s, st)
    requires st.Enter? ==> Determined(st.tx)
    ensures Serialized(Next(s, st), first)
  {
    StepKeepsInv(s, st);
    var s' := Next(s, st);
    if st.Commit? {
      var me := s.lanes[s.active];
      assert s'.committed[..|s'.committed| - 1] == s.committed;
      assert Outcome(me.tx, s.Current(), me.found) == Outcome(me.tx, s.Current(), s.Current());
    }
  }

  lemma {:induction false} RunKeepsSerialized<S(!new), R(!new)>(s: State<S, R>, run: seq<Step<S, R>>, first: S)
    requires Serialized(s, first) && Legal(s, run) && GuardedRun(s, run) && EntersDetermined(run)
    ensures Serialized(End(s, run), first)
    decreases |run|
  {
    if run != [] {
      StepKeepsSerialized(s, run[0], first);
      forall i | 0 <= i < |run[1..]| && run[1..][i].Enter? ensures Determined(run[1..][i].tx) {
        assert run[1..][i] == run[i + 1];
      }
      RunKeepsSerialized(Next(s, run[0]), run[1..], first);
    }
  }

  /** Serializability: whatever the preemptions and rollbacks of a guarded run, the current ledger
      is the one that the committed transactions leave when executed one by one in commit order. */
  lemma GuardedRunsAreSerializable<S(!new), R(!new)>(s: State<S, R>, run: seq<Step<S, R>>)
    requires Start(s) && Legal(s, run) && GuardedRun(s, run) && EntersDetermined(run)
    ensures End(s, run).Current() == Serial(s.Current(), End(s, run).committed)
  {
    RunKeepsSerialized(s, run, s.Current());
  }

  lemma {:induction false} RunKeepsInv<S, R>(s: State<S, R>, run: seq<Step<S, R>>)
    requires Inv(s) && Legal(s, run) && GuardedRun(s, run)
    ensures Inv(End(s, run))
    decreases |run|
  {
    if run != [] {
      StepKeepsInv(s, run[0]);
      RunKeepsInv(Next(s, run[0]), run[1..]);
    }
  }

  /** Whenever a lane commits after a guarded run, no other lane has started, restarted or committed
      since its own last (re)start, its check would still pass, and the ledger it publishes is its
      own body's work over the ledger that is current at that very commit. */
  lemma CommitsAreIsolated<S, R>(s: State<S, R>, run: seq<Step<S, R>>, left: Word)
    requires Start(s) && Legal(s, run) && GuardedRun(s, run) && Enabled(End(s, run), Commit(left))
    ensures var e := End(s, run);
            var me := e.lanes[e.active];
            && !me.overrun && e.xta.act == me.file.amark >= 1 && e.xta.com == me.file.ctarget
            && Next(e, Commit(left)).Current() == Outcome(me.tx, e.Current(), me.found)
  {
    RunKeepsInv(s, run);
  }

  // ------------------------------------------------------- When the resume check is exact

  /** The check accepts an overrun lane exactly when the other lane is idle again, was above it,
      and the commit count has come back to the overrun lane's target. */
  lemma OverrunAcceptedIff<S, R>(s: State<S, R>, i: nat)
    requires Inv(s) && i < 2 && s.lanes[i].Open() && s.lanes[i].overrun
    ensures CheckPasses(s.xta, s.lanes[i].file) <==>
              && !s.lanes[1 - i].Open()
              && s.xta.act == s.lanes[i].file.amark
              && s.xta.com == s.lanes[i].file.ctarget
  {
  }

  /** Resuming a lane that has not been overrun never rolls it back. */
  lemma FreshLaneSurvives<S, R>(s: State<S, R>, i: nat)
    requires Inv(s) && i < 2 && s.lanes[i].Open() && !s.lanes[i].overrun
    ensures Next(s, Preempt(i)) == s.(active := i)
  {
    assert s.lanes[i := s.lanes[i]] == s.lanes;
  }

  /** The register pair holds `com` when the commit section adds one to it. */
  ghost predicate Reloads<S, R>(s: State<S, R>, st: Step<S, R>) {
    st.Commit? ==> st.left == s.xta.com
  }

  /** `i` is below the other lane, which is open or has committed and gone. */
  ghost predicate Below<S, R>(s: State<S, R>, i: nat)
    requires s.Shaped() && i < 2
  {
    var l, o := s.lanes[i], s.lanes[1 - i];
    l.Open() && if o.Open() then o.file.amark == l.file.amark + 1 else s.xta.act == l.file.amark
  }

  /** A lane's `since` is the distance of `com` from its commit target, while it can be fooled. */
  ghost predicate LaneCounted<S, R>(s: State<S, R>, i: nat)
    requires s.Shaped() && i < 2
  {
    var l := s.lanes[i];
    && (l.Open() && !l.overrun ==> l.since == 0)
    && (Below(s, i) ==> s.xta.com == (l.file.ctarget + l.since) % WORD)
  }

  ghost predicate Counted<S, R>(s: State<S, R>)
    requires s.Shaped()
  {
    LaneCounted(s, 0) && LaneCounted(s, 1)
  }

  lemma CommitKeepsLaneCounted<S, R>(s: State<S, R>, i: nat)
    requires Inv(s) && Counted(s) && Enabled(s, Commit(s.xta.com)) && i < 2
    ensures LaneCounted(Next(s, Commit(s.xta.com)), i)
  {
    var s' := Next(s, Commit(s.xta.com));
    var l, o := s.lanes[i], s.lanes[1 - i];
    if s.active != i && Below(s', i) {
      assert s'.lanes[i] == Overrun(l, 1) && l.Open();
      assert s'.xta.act == l.file.amark && s.xta.act == s'.xta.act + 1;
      assert Below(s, i);
      assert s'.xta.com == (s.xta.com + 1) % WORD == (l.file.ctarget + l.since + 1) % WORD;
    }
  }

  lemma StepKeepsCounted<S, R>(s: State<S, R>, st: Step<S, R>)
    requires Inv(s) && Counted(s) && Enabled(s, st) && Guarded(s, st) && Reloads(s, st)
    ensures Counted(Next(s, st))
  {
    match st
    case Commit(_) =>
      CommitKeepsLaneCounted(s, 0);
      CommitKeepsLaneCounted(s, 1);
    case Preempt(_) =>
    case Rollback =>
    case Enter(_) =>
    case Do =>
  }

  /** With `com` reloaded, the check wrongly accepts an overrun lane exactly when the other lane,
      from above it, has committed a multiple of 65536 times since. */
  lemma OverrunAcceptedIffFullTurn<S, R>(s: State<S, R>, i: nat)
    requires Inv(s) && Counted(s) && i < 2 && s.lanes[i].Open() && s.lanes[i].overrun
    ensures Hit(s, i) <==>
              && !s.lanes[1 - i].Open()
              && s.xta.act == s.lanes[i].file.amark
              && s.lanes[i].since % WORD == 0
  {
  }

  /** Every commit of the run adds one to `com`. */
  ghost predicate Reloaded<S, R>(s: State<S, R>, run: seq<Step<S, R>>)
    requires s.Shaped() && Legal(s, run)
    decreases |run|
  {
    run == [] || (Reloads(s, run[0]) && Reloaded(Next(s, run[0]), run[1..]))
  }

  /** No suspension is long enough for `com` to come round. */
  ghost predicate ShortSuspensions<S, R>(s: State<S, R>, run: seq<Step<S, R>>)
    requires s.Shaped() && Legal(s, run)
    decreases |run|
  {
    run == [] ||
    ((run[0].Preempt? ==> s.lanes[run[0].next].since < WORD) && ShortSuspensions(Next(s, run[0]), run[1..]))
  }

  /** No entry is made while the semaphore is full. */
  ghost predicate NeverFull<S, R>(s: State<S, R>, run: seq<Step<S, R>>)
    requires s.Shaped() && Legal(s, run)
    decreases |run|
  {
    run == [] || ((run[0].Enter? ==> s.xta.act != WORD - 1) && NeverFull(Next(s, run[0]), run[1..]))
  }

  lemma {:induction false} ShortSuspensionsAreGuarded<S, R>(s: State<S, R>, run: seq<Step<S, R>>)
    requires Inv(s) && Counted(s) && Legal(s, run)
    requires Reloaded(s, run) && ShortSuspensions(s, run) && NeverFull(s, run)
    ensures GuardedRun(s, run)
    decreases |run|
  {
    if run != [] {
      if run[0].Preempt? && Hit(s, run[0].next) {
        OverrunAcceptedIffFullTurn(s, run[0].next);
        assert false;
      }
      StepKeepsInv(s, run[0]);
      StepKeepsCounted(s, run[0]);
      ShortSuspensionsAreGuarded(Next(s, run[0]), run[1..]);
    }
  }

  /** With `com` reloaded, fewer than 65536 commits during any one suspension and no entry on a full
      semaphore, every run is serializable. */
  lemma ReloadedRunsAreSerializable<S(!new), R(!new)>(s: State<S, R>, run: seq<Step<S, R>>)
    requires Start(s) && Legal(s, run) && EntersDetermined(run)
    requires Reloaded(s, run) && ShortSuspensions(s, run) && NeverFull(s, run)
    ensures End(s, run).Current() == Serial(s.Current(), End(s, run).committed)
  {
    ShortSuspensionsAreGuarded(s, run);
    GuardedRunsAreSerializable(s, run);
  }

  // ----------------------------------------------------------- What the semaphore counts

  /** The value the semaphore returns to when the open transactions end by nesting. */
  function Floor<S, R>(s: State<S, R>): int
    requires s.Shaped()
  {
    var l, o := s.lanes[0], s.lanes[1];
    if l.Open() && o.Open() then (if l.file.amark < o.file.amark then l.file.amark else o.file.amark) - 1
    else if l.Open() then (if s.xta.act + 2 == l.file.amark then s.xta.act else l.file.amark - 1)
    else if o.Open() then (if s.xta.act + 2 == o.file.amark then s.xta.act else o.file.amark - 1)
    else s.xta.act
  }

  /** A lone lane rolled back after the lane below it committed first. */
  predicate Leaks<S, R>(s: State<S, R>, st: Step<S, R>)
    requires s.Shaped()
  {
    st.Rollback? && !s.lanes[1 - s.active].Open() && s.xta.act + 2 == s.lanes[s.active].file.amark
  }

  lemma FloorMovesByLeaks<S, R>(s: State<S, R>, st: Step<S, R>)
    requires Inv(s) && Enabled(s, st) && Guarded(s, st)
    ensures Floor(Next(s, st)) == Floor(s) + if Leaks(s, st) then 1 else 0
  {
  }

  function LeakCount<S, R>(s: State<S, R>, run: seq<Step<S, R>>): nat
    requires s.Shaped() && Legal(s, run)
    decreases |run|
  {
    if run == [] then 0
    else (if Leaks(s, run[0]) then 1 else 0) + LeakCount(Next(s, run[0]), run[1..])
  }

  lemma {:induction false} FloorCountsLeaks<S, R>(s: State<S, R>, run: seq<Step<S, R>>)
    requires Inv(s) && Legal(s, run) && GuardedRun(s, run)
    ensures Floor(End(s, run)) == Floor(s) + LeakCount(s, run)
    decreases |run|
  {
    if run != [] {
      StepKeepsInv(s, run[0]);
      FloorMovesByLeaks(s, run[0]);
      FloorCountsLeaks(Next(s, run[0]), run[1..]);
    }
  }

  /** `act` is meant to count the open slips. With no slip open at the end of a guarded run it is
      the number of leaking rollbacks, so it is zero exactly when there was none. */
  lemma IdleSemaphoreIsLeakCount<S, R>(s: State<S, R>, run: seq<Step<S, R>>)
    requires Start(s) && Legal(s, run) && GuardedRun(s, run)
    requires !End(s, run).lanes[0].Open() && !End(s, run).lanes[1].Open()
    ensures End(s, run).xta.act == LeakCount(s, run)
  {
    FloorCountsLeaks(s, run);
  }

  // ------------------------------------------------------------------------ Longer runs

  /** One more step at the end of a run. */
  lemma {:induction false} Append<S, R>(s: State<S, R>, run: seq<Step<S, R>>, st: Step<S, R>)
    requires s.Shaped() && Legal(s, run) && Enabled(End(s, run), st)
    ensures Legal(s, run + [st]) && End(s, run + [st]) == Next(End(s, run), st)
    ensures Reloaded(s, run) && Reloads(End(s, run), st) ==> Reloaded(s, run + [st])
    ensures ShortSuspensions(s, run) && (st.Preempt? ==> End(s, run).lanes[st.next].since < WORD) ==>
              ShortSuspensions(s, run + [st])
    ensures NeverFull(s, run) && (st.Enter? ==> End(s, run).xta.act != WORD - 1) ==> NeverFull(s, run + [st])
    decreases |run|
  {
    if run == [] {
      assert (run + [st])[0] == st && (run + [st])[1..] == [];
    } else {
      Append(Next(s, run[0]), run[1..], st);
      assert (run + [st])[0] == run[0] && (run + [st])[1..] == run[1..] + [st];
    }
  }
}
