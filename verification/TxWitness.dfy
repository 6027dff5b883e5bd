/** Runs of TX$ from its start that show what each condition of serializability is for: every transaction
    increments, so the current ledger should count the commits. */
module TxWitness {
  import opened Basics
  import opened TxAccount
  import opened TxMachine

  function Increment(): Transaction<int, int> {
    Transaction([(c: int, e: int, r: int) => Work(c + 1, r)], 0)
  }

  function Blank(): State<int, int> {
    var l := LaneState(CLEAR, Idle, Transaction([], 0), 0, false, 0);
    State(Xta(0, 1, 0, 0), [0, 0], [l, l], 0, [])
  }

  function Increments(n: nat): (q: seq<Transaction<int, int>>)
    ensures |q| == n
  {
    seq(n, _ => Increment())
  }

  lemma IncrementDetermined()
    ensures Determined(Increment())
  {
    forall c: int, e: int, e': int ensures Outcome(Increment(), c, e) == Outcome(Increment(), c, e') {
      assert After(Increment(), c, e, 0).slip == e && After(Increment(), c, e', 0).slip == e';
    }
  }

  lemma {:induction false} SerialCounts(n: nat)
    ensures Serial(0, Increments(n)) == n
  {
    if n > 0 {
      SerialCounts(n - 1);
      assert Increments(n)[..n - 1] == Increments(n - 1);
      assert After(Increment(), n - 1, n - 1, 0).slip == n - 1;
      assert Outcome(Increment(), n - 1, n - 1) == n;
    }
  }

  // --------------------------------------------------------------------- Runs seen from outside

  /** A lane that increments: out of any transaction, in one, or waiting for its rollback. */
  datatype Seat =
    | Out(since: nat)
    | In(pc: nat, amark: Word, ctarget: Word, since: nat)
    | Down(amark: Word, ctarget: Word, since: nat)

  /** A state as far as it decides what comes next. */
  datatype View = View(act: Word, com: Word, cur: int, ev: int, active: nat, seats: seq<Seat>, done: nat)

  ghost predicate Seen(l: LaneState<int, int>, v: Seat) {
    && l.since == v.since
    && match v
       case Out(_) => l.phase.Idle? && !l.file.mark
       case In(pc, amark, ctarget, _) =>
         l.phase == Running(pc, 0) && l.file == TxFile(true, ctarget, amark) && l.tx == Increment()
       case Down(amark, ctarget, _) =>
         l.phase.Doomed? && l.file == TxFile(true, ctarget, amark) && l.tx == Increment()
  }

  ghost predicate Looks(s: State<int, int>, w: View) {
    && s.Shaped() && |w.seats| == 2 && w.active == s.active
    && w.act == s.xta.act && w.com == s.xta.com && w.cur == s.Current() && w.ev == s.Event()
    && Seen(s.lanes[0], w.seats[0]) && Seen(s.lanes[1], w.seats[1])
    && s.committed == Increments(w.done)
  }

  datatype Move = Begin | Add | Close(left: Word) | Switch(to: nat) | Restart

  function StepOf(m: Move): Step<int, int> {
    match m
    case Begin => Enter(Increment())
    case Add => Do
    case Close(left) => Commit(left)
    case Switch(to) => Preempt(to)
    case Restart => Rollback
  }

  predicate CanMove(w: View, m: Move) {
    && |w.seats| == 2 && w.active < 2
    && var me := w.seats[w.active];
       match m
       case Begin => me.Out?
       case Add => me.In? && me.pc == 0
       case Close(_) => me.In? && me.pc == 1
       case Switch(to) => to < 2
       case Restart => me.Down?
  }

  function Passed(v: Seat): Seat { if v.Out? then v else v.(since := v.since + 1) }

  function Moved(w: View, m: Move): View
    requires CanMove(w, m)
  {
    var me, a, o := w.seats[w.active], w.active, 1 - w.active;
    match m
    case Begin => w.(act := Inc(w.act), seats := w.seats[a := In(0, Inc(w.act), w.com, 0)])
    case Add => w.(ev := w.cur + 1, seats := w.seats[a := me.(pc := 1)])
    case Close(left) =>
      var act := if w.act == 0 then 0 else w.act - 1;
      w.(act := act, com := if act == 0 then 0 else Inc(left), cur := w.ev, ev := w.cur,
         seats := w.seats[a := Out(me.since)][o := Passed(w.seats[o])], done := w.done + 1)
    case Switch(to) =>
      var v := w.seats[to];
      w.(active := to,
         seats := if v.In? && !(v.ctarget == w.com && v.amark == w.act)
                  then w.seats[to := Down(v.amark, v.ctarget, v.since)] else w.seats)
    case Restart => w.(act := me.amark, seats := w.seats[a := In(0, me.amark, w.com, 0)])
  }

  lemma MoveIsStep(s: State<int, int>, w: View, m: Move)
    requires Looks(s, w) && CanMove(w, m)
    ensures Enabled(s, StepOf(m)) && Looks(Next(s, StepOf(m)), Moved(w, m))
  {
    if m.Close? {
      assert Increments(w.done) + [Increment()] == Increments(w.done + 1);
    }
  }

  /** Which of the conditions of serializability a run has kept so far. */
  datatype Kept = Kept(reloaded: bool, short: bool, roomy: bool)

  const ALL: Kept := Kept(true, true, true)

  function Keep(k: Kept, w: View, m: Move): Kept
    requires CanMove(w, m)
  {
    match m
    case Begin => k.(roomy := k.roomy && w.act != WORD - 1)
    case Close(left) => k.(reloaded := k.reloaded && left == w.com)
    case Switch(to) => k.(short := k.short && w.seats[to].since < WORD)
    case _ => k
  }

  /** The run leads from the blank start to what `w` shows, and keeps what `k` says. */
  ghost predicate Goes(run: seq<Step<int, int>>, w: View, k: Kept) {
    && Legal(Blank(), run) && Looks(End(Blank(), run), w) && EntersDetermined(run)
    && (k.reloaded ==> Reloaded(Blank(), run))
    && (k.short ==> ShortSuspensions(Blank(), run))
    && (k.roomy ==> NeverFull(Blank(), run))
  }

  lemma Setout() returns (run: seq<Step<int, int>>, w: View)
    ensures Goes(run, w, ALL) && w == View(0, 0, 0, 0, 0, [Out(0), Out(0)], 0)
  {
    run, w := [], View(0, 0, 0, 0, 0, [Out(0), Out(0)], 0);
  }

  lemma Advance(run: seq<Step<int, int>>, w: View, k: Kept, m: Move)
    returns (run': seq<Step<int, int>>, w': View, k': Kept)
    requires Goes(run, w, k) && CanMove(w, m)
    ensures Goes(run', w', k') && w' == Moved(w, m) && k' == Keep(k, w, m)
  {
    run', w', k' := run + [StepOf(m)], Moved(w, m), Keep(k, w, m);
    MoveIsStep(End(Blank(), run), w, m);
    Append(Blank(), run, StepOf(m));
    IncrementDetermined();
    forall i | 0 <= i < |run'| && run'[i].Enter? ensures Determined(run'[i].tx) {
      if i < |run| { assert run'[i] == run[i]; }
    }
  }

  /** What such a run means for the ledger, which should have counted the commits. */
  lemma LedgerShouldCount(run: seq<Step<int, int>>, w: View, k: Kept)
    requires Goes(run, w, k)
    ensures Start(Blank()) && Legal(Blank(), run) && EntersDetermined(run)
    ensures k.reloaded ==> Reloaded(Blank(), run)
    ensures k.short ==> ShortSuspensions(Blank(), run)
    ensures k.roomy ==> NeverFull(Blank(), run)
    ensures End(Blank(), run).Current() == w.cur
    ensures |End(Blank(), run).committed| == Serial(Blank().Current(), End(Blank(), run).committed) == w.done
  {
    SerialCounts(w.done);
  }

  // ------------------------------------------------------------------- The semaphore leaks

  /** No slip open after n leaks, two commits each. */
  ghost predicate Leaked(w: View, n: nat) {
    && w.act == n && w.com == (if n == 0 then 0 else (2 * n - 1) % WORD) && w.active < 2
    && w.cur == 2 * n && w.done == 2 * n && w.seats == [Out(0), Out(0)]
  }

  /** The lower lane is overtaken, restarts and commits under the upper one. */
  lemma CommitBelow(run: seq<Step<int, int>>, w: View, n: nat)
    returns (run': seq<Step<int, int>>, w': View)
    requires Goes(run, w, ALL) && Leaked(w, n) && n < 0xfffe
    ensures Goes(run', w', ALL)
    ensures w'.act == n && w'.com == 2 * n % WORD && w'.cur == w'.done == 2 * n + 1 && w'.active == 0
    ensures w'.seats == [Out(0), In(0, n + 2, w.com, 1)]
  {
    hide Goes;
    var k := ALL;
    run', w', k := Advance(run, w, k, Switch(0));
    run', w', k := Advance(run', w', k, Begin);
    run', w', k := Advance(run', w', k, Switch(1));
    run', w', k := Advance(run', w', k, Begin);
    assert w'.seats == [In(0, n + 1, w.com, 0), In(0, n + 2, w.com, 0)];
    run', w', k := Advance(run', w', k, Switch(0));
    run', w', k := Advance(run', w', k, Restart);
    assert w'.seats == [In(0, n + 1, w.com, 0), In(0, n + 2, w.com, 0)];
    run', w', k := Advance(run', w', k, Add);
    run', w', k := Advance(run', w', k, Close(w'.com));
  }

  /** Then the upper one restarts alone, and its rollback puts the semaphore back above it. */
  lemma Leak(run: seq<Step<int, int>>, w: View, n: nat)
    returns (run': seq<Step<int, int>>, w': View)
    requires Goes(run, w, ALL) && Leaked(w, n) && n < 0xfffe
    ensures Goes(run', w', ALL) && Leaked(w', n + 1)
  {
    hide Goes;
    var k := ALL;
    run', w' := CommitBelow(run, w, n);
    run', w', k := Advance(run', w', k, Switch(1));
    run', w', k := Advance(run', w', k, Restart);
    run', w', k := Advance(run', w', k, Add);
    run', w', k := Advance(run', w', k, Close(w'.com));
  }

  lemma {:induction false} LeakTo(n: nat) returns (run: seq<Step<int, int>>, w: View)
    requires n <= 0xfffe
    ensures Goes(run, w, ALL) && Leaked(w, n)
  {
    if n == 0 {
      run, w := Setout();
    } else {
      run, w := LeakTo(n - 1);
      run, w := Leak(run, w, n - 1);
    }
  }

  /** Every idle value of the semaphore below 0xffff is reached by a run that keeps all conditions. */
  lemma EveryLeakCountIsReached(n: nat) returns (run: seq<Step<int, int>>)
    requires n <= 0xfffe
    ensures Start(Blank()) && Legal(Blank(), run) && GuardedRun(Blank(), run)
    ensures var e := End(Blank(), run);
            !e.lanes[0].Open() && !e.lanes[1].Open() && e.xta.act == n == LeakCount(Blank(), run)
  {
    var w;
    run, w := LeakTo(n);
    ShortSuspensionsAreGuarded(Blank(), run);
    IdleSemaphoreIsLeakCount(Blank(), run);
  }

  // ------------------------------------------------------- Runs that break one condition each

  /** With 0xffff in r23:r22 at one commit, the lane below is resumed over a count that looks untouched. */
  lemma StaleRegisterLosesUpdates() returns (run: seq<Step<int, int>>)
    ensures Start(Blank()) && Legal(Blank(), run) && EntersDetermined(run)
    ensures ShortSuspensions(Blank(), run) && NeverFull(Blank(), run)
    ensures var e := End(Blank(), run);
            |e.committed| == 2 && Serial(Blank().Current(), e.committed) == 2 && e.Current() == 0
  {
    hide Goes;
    var w, k := View(0, 0, 0, 0, 0, [], 0), ALL;
    run, w := Setout();
    run, w, k := Advance(run, w, k, Begin);
    run, w, k := Advance(run, w, k, Add);
    run, w, k := Advance(run, w, k, Switch(1));
    run, w, k := Advance(run, w, k, Begin);
    run, w, k := Advance(run, w, k, Add);
    run, w, k := Advance(run, w, k, Close(0xffff));
    run, w, k := Advance(run, w, k, Switch(0));
    run, w, k := Advance(run, w, k, Close(0));
    LedgerShouldCount(run, w, k);
  }

  /** The upper lane commits n times while the lower one, its work done, stays suspended. */
  lemma {:induction false} CommitAbove(n: nat) returns (run: seq<Step<int, int>>, w: View, k: Kept)
    requires n <= WORD
    ensures Goes(run, w, k) && k == ALL
    ensures w.act == 1 && w.com == n % WORD && w.cur == n && w.done == n && w.active == 1
    ensures w.seats == [In(1, 1, 0, n), Out(0)] && (n > 0 ==> w.ev == n - 1)
  {
    hide Goes;
    if n == 0 {
      run, w := Setout();
      k := ALL;
      run, w, k := Advance(run, w, k, Begin);
      run, w, k := Advance(run, w, k, Add);
      run, w, k := Advance(run, w, k, Switch(1));
    } else {
      run, w, k := CommitAbove(n - 1);
      run, w, k := Advance(run, w, k, Begin);
      run, w, k := Advance(run, w, k, Add);
      run, w, k := Advance(run, w, k, Close(w.com));
    }
  }

  /** After 65536 commits above it a suspended lane finds the count where it left it. */
  lemma LongSuspensionLosesUpdates() returns (run: seq<Step<int, int>>)
    ensures Start(Blank()) && Legal(Blank(), run) && EntersDetermined(run)
    ensures Reloaded(Blank(), run) && NeverFull(Blank(), run)
    ensures var e := End(Blank(), run);
            Serial(Blank().Current(), e.committed) == WORD + 1 && e.Current() == WORD - 1
  {
    var w, k;
    run, w, k := CommitAbove(WORD);
    run, w, k := Advance(run, w, k, Switch(0));
    run, w, k := Advance(run, w, k, Close(w.com));
    LedgerShouldCount(run, w, k);
  }

  /** The upper lane entered on a full semaphore, so its mark is zero; the lower one has committed twice since. */
  lemma EnterFull() returns (run: seq<Step<int, int>>, w: View, k: Kept)
    ensures Goes(run, w, k) && k == Kept(true, true, false)
    ensures w.act == 0 && w.com == 0 && w.cur == w.done == 131070 && w.active == 0
    ensures w.seats == [Out(0), In(0, 0, 65532, 1)]
  {
    hide Goes;
    run, w := LeakTo(0xfffe);
    k := ALL;
    run, w, k := Advance(run, w, k, Switch(0));
    run, w, k := Advance(run, w, k, Begin);
    run, w, k := Advance(run, w, k, Switch(1));
    run, w, k := Advance(run, w, k, Begin);
    run, w, k := Advance(run, w, k, Switch(0));
    run, w, k := Advance(run, w, k, Restart);
    run, w, k := Advance(run, w, k, Add);
    run, w, k := Advance(run, w, k, Close(w.com));
    run, w, k := Advance(run, w, k, Switch(1));
    run, w, k := Advance(run, w, k, Restart);
    run, w, k := Advance(run, w, k, Switch(0));
    run, w, k := Advance(run, w, k, Begin);
    run, w, k := Advance(run, w, k, Add);
    run, w, k := Advance(run, w, k, Close(w.com));
  }

  /** Entering on a full semaphore marks a lane zero, and zero is what every commit then leaves. */
  lemma FullSemaphoreLosesUpdates() returns (run: seq<Step<int, int>>)
    ensures Start(Blank()) && Legal(Blank(), run) && EntersDetermined(run)
    ensures Reloaded(Blank(), run) && ShortSuspensions(Blank(), run)
    ensures var e := End(Blank(), run);
            Serial(Blank().Current(), e.committed) == 131072 && e.Current() == 131070
  {
    hide Goes;
    var w, k;
    run, w, k := EnterFull();
    run, w, k := Advance(run, w, k, Switch(1));
    run, w, k := Advance(run, w, k, Restart);
    run, w, k := Advance(run, w, k, Add);
    run, w, k := Advance(run, w, k, Switch(0));
    run, w, k := Advance(run, w, k, Begin);
    run, w, k := Advance(run, w, k, Add);
    run, w, k := Advance(run, w, k, Close(w.com));
    run, w, k := Advance(run, w, k, Switch(1));
    run, w, k := Advance(run, w, k, Close(w.com));
    LedgerShouldCount(run, w, k);
  }
}
