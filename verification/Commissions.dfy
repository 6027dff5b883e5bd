/** The account of one lane's dispatch over its whole life: its executor fills it in statement by statement,
    and the day may end between any two of them. */
module Commissions {
  import opened Basics
  import opened Dispatches
  import D = Days

  /** Where the executor is: seeking a shot, before the n-th statement that fills in the dispatch file, or out,
      with the shot fired. */
  datatype Point = Seeking | Filling(n: nat) | Out

  datatype Lane = Lane(a: Account, at: Point)

  datatype Step =
    | Idle                        // the feeders are dry
    | Retry                       // and are tried again
    | Found                       // a hot shot
    | Fill(value: Word)           // the next statement, with the priority or contract it writes
    | Release                     // the file is filled in
    | Return                      // the shot's dispatch is complete
    | Pose                        // the interrupt supervisor, out of sabots, poses as an executor
    | Unpose(contract: Byte)      // until it has one
    | Day(joined: bool)           // the day ends, and the dispatch may join a strand behind others

  predicate Enabled(l: Lane, st: Step) {
    match st
    case Idle => l.at.Seeking?
    case Retry => l.at.Seeking?
    case Found => l.at.Seeking?
    case Fill(value) => l.at.Filling? && l.at.n < 4 && (l.at.n == 2 ==> value < 0x100)
    case Release => l.at == Filling(4)
    case Return => l.at.Out?
    case Pose => l.at.Out?
    case Unpose(_) => l.at.Out?
    case Day(_) => true
  }

  function Next(l: Lane, c: Config, st: Step): Lane
    requires Enabled(l, st)
  {
    match st
    case Idle => l.(a := l.a.(status := DS_EXEC_IDLE, contract := 1))
    case Retry => l.(a := l.a.(status := DS_EXEC_OP))
    case Found => l.(at := Filling(0))
    case Fill(value) =>
      Lane(if l.at.n == 0 then l.a.(priority := value)
           else if l.at.n == 1 then l.a.(deadline := 0xffff)
           else if l.at.n == 2 then l.a.(contract := value)
           else l.a.(sideline := 0),
           Filling(l.at.n + 1))
    case Release => Lane(l.a.(status := DS_EXE), Out)
    case Return => Lane(l.a.(status := DS_EXEC_OP), Seeking)
    case Pose => l.(a := l.a.(status := DS_EXEC_IDLE, contract := 1))
    case Unpose(contract) => l.(a := l.a.(status := DS_EXE, contract := contract))
    case Day(joined) => l.(a := D.Opened(EndOfDay(l.a, c), joined))
  }

  ghost predicate Legal(l: Lane, c: Config, run: seq<Step>)
    decreases |run|
  {
    run == [] || (Enabled(l, run[0]) && Legal(Next(l, c, run[0]), c, run[1..]))
  }

  function End(l: Lane, c: Config, run: seq<Step>): Lane
    requires Legal(l, c, run)
    decreases |run|
  {
    if run == [] then l else End(Next(l, c, run[0]), c, run[1..])
  }

  /** As core initialisation and the seeding of the lanes leave it. */
  predicate Start(l: Lane) {
    l.at.Seeking? && l.a.status == DS_RLS && l.a.deadline == 0xffff && l.a.sideline == 0
  }

  /** The new deadline is written and the sideline counter not yet cleared. */
  predicate InWindow(l: Lane) { l.at.Filling? && 2 <= l.at.n <= 3 }

  ghost predicate Inv(l: Lane, c: Config) {
    !InWindow(l) && l.a.deadline > 0 && l.a.deadline >= c.dlmark ==> l.a.sideline < c.prothr
  }

  lemma StepKeepsInv(l: Lane, c: Config, st: Step)
    requires Inv(l, c) && Enabled(l, st) && c.dllimt <= c.dlmark && c.prothr > 0
    ensures Inv(Next(l, c, st), c)
  {
  }

  lemma {:induction false} RunKeepsInv(l: Lane, c: Config, run: seq<Step>)
    requires Inv(l, c) && Legal(l, c, run) && c.dllimt <= c.dlmark && c.prothr > 0
    ensures Inv(End(l, c, run), c)
    decreases |run|
  {
    if run != [] {
      StepKeepsInv(l, c, run[0]);
      RunKeepsInv(Next(l, c, run[0]), c, run[1..]);
    }
  }

  /** Whatever its life so far, a dispatch that keeps joining strands behind others is promoted within prothr
      days while its deadline is above the mark, unless its executor stands between those two statements. */
  lemma ReachablePromotedInTime(l: Lane, c: Config, run: seq<Step>)
    requires Start(l) && Legal(l, c, run) && c.dllimt <= c.dlmark
    requires var e := End(l, c, run);
             !InWindow(e) && e.a.status == DS_SCH && e.a.deadline - D.Days(c) >= c.dlmark
    ensures exists k :: 0 <= k < D.Days(c) && D.Close(End(l, c, run).a, c, Trues(k)).status == DS_PRO
  {
    if c.prothr > 0 {
      RunKeepsInv(l, c, run);
    }
    D.PromotedInTime(End(l, c, run).a, c);
  }

  /** A shot found and filled in with no day ending meanwhile: the dispatch runs with the priority and contract written,
      a full deadline and no days waited; its claim is left alone. While it is filled in its executor's code stays. */
  lemma FilledInIsReleased(l: Lane, c: Config, priority: Word, any: Word, contract: Byte, other: Word)
    requires l.at.Seeking?
    ensures var found := Next(l, c, Found);
            && Enabled(found, Fill(priority))
            && var first := Next(found, c, Fill(priority));
               && Enabled(first, Fill(any))
               && var second := Next(first, c, Fill(any));
                  && Enabled(second, Fill(contract))
                  && var third := Next(second, c, Fill(contract));
                     && Enabled(third, Fill(other))
                     && var filled := Next(third, c, Fill(other));
                        && filled.a.status == l.a.status && Enabled(filled, Release) && !Enabled(filled, Fill(other))
                        && Next(filled, c, Release)
                           == Lane(Account(DS_EXE, priority, 0xffff, contract, l.a.claim, 0), Out)
  {
  }

  /** With no shot to be had an executor idles on the least contract; when one returns it is the operational executor
      again, and so it is when it tries again. */
  lemma ExecutorCodes(l: Lane, c: Config, st: Step)
    requires Enabled(l, st) && (st.Idle? || st.Retry? || st.Return? || st.Pose? || st.Unpose?)
    ensures Next(l, c, st).a ==
            if st.Idle? || st.Pose? then l.a.(status := DS_EXEC_IDLE, contract := 1)
            else if st.Unpose? then l.a.(status := DS_EXE, contract := st.contract)
            else l.a.(status := DS_EXEC_OP)
    ensures Next(l, c, st).at.Seeking? <==> st.Idle? || st.Retry? || st.Return?
  {
  }

  // ------------------------------------------------------------------- A run that is not promoted

  lemma {:induction false} Append(l: Lane, c: Config, run: seq<Step>, st: Step)
    requires Legal(l, c, run) && Enabled(End(l, c, run), st)
    ensures Legal(l, c, run + [st]) && End(l, c, run + [st]) == Next(End(l, c, run), c, st)
    decreases |run|
  {
    if run == [] {
      assert (run + [st])[0] == st && (run + [st])[1..] == [];
    } else {
      Append(Next(l, c, run[0]), c, run[1..], st);
      assert (run + [st])[0] == run[0] && (run + [st])[1..] == run[1..] + [st];
    }
  }

  lemma Then(l: Lane, c: Config, run: seq<Step>, st: Step) returns (run': seq<Step>)
    requires Legal(l, c, run) && Enabled(End(l, c, run), st)
    ensures Legal(l, c, run') && End(l, c, run') == Next(End(l, c, run), c, st)
  {
    Append(l, c, run, st);
    run' := run + [st];
  }

  /** Waiting for long enough to miss its deadline, and as long again, a dispatch has any sideline count. */
  lemma LongWait(l: Lane, c: Config, run: seq<Step>, sideline: Word) returns (run': seq<Step>)
    requires Legal(l, c, run) && End(l, c, run).a.status == DS_SCH
    ensures Legal(l, c, run')
    ensures var e' := End(l, c, run');
            && e'.at == End(l, c, run).at && e'.a.status == DS_SCH
            && e'.a.deadline == 0 && e'.a.sideline == sideline
    decreases End(l, c, run).a.deadline, (sideline - End(l, c, run).a.sideline) % 0x1_0000
  {
    if End(l, c, run).a.deadline == 0 && End(l, c, run).a.sideline == sideline {
      run' := run;
    } else {
      run' := Then(l, c, run, Day(true));
      run' := LongWait(l, c, run', sideline);
    }
  }

  /** The executor is at the statement that clears the sideline counter, and that counter is full. */
  predicate AboutToWrap(l: Lane) {
    l.at == Filling(2) && l.a.status == DS_SCH && l.a.deadline == 0xffff == l.a.sideline
  }

  /** A shot is out until its dispatch's counter is full; the day ends as it returns, and the next shot is found. */
  lemma ReachesWrap(l: Lane, c: Config) returns (run: seq<Step>)
    requires Start(l)
    ensures Legal(l, c, run) && AboutToWrap(End(l, c, run))
  {
    hide Legal, End;
    run := Fired(l, c);
    run := Then(l, c, run, Day(true));
    run := LongWait(l, c, run, 0xffff);
    run := Then(l, c, run, Return);
    run := Then(l, c, run, Day(true));
    run := Then(l, c, run, Found);
    run := Then(l, c, run, Fill(0));
    run := Then(l, c, run, Fill(0));
  }

  lemma Fired(l: Lane, c: Config) returns (run: seq<Step>)
    requires Start(l)
    ensures Legal(l, c, run) && End(l, c, run).at.Out? && End(l, c, run).a.status == DS_EXE
  {
    run := Then(l, c, [], Found);
    hide Legal, End;
    run := Then(l, c, run, Fill(0));
    run := Then(l, c, run, Fill(0));
    run := Then(l, c, run, Fill(0));
    run := Then(l, c, run, Fill(0));
    run := Then(l, c, run, Release);
  }

  /** From there it waits prothr days without a promotion. */
  lemma MissedInWindow(l: Lane, c: Config) returns (run: seq<Step>)
    requires Start(l) && c.dllimt <= c.dlmark && 0 < c.prothr <= 0xffff - c.dlmark
    ensures Legal(l, c, run) && AboutToWrap(End(l, c, run))
    ensures forall k :: 0 <= k < c.prothr ==> D.Close(End(l, c, run).a, c, Trues(k)).status != DS_PRO
  {
    run := ReachesWrap(l, c);
    D.PromotedInTime(End(l, c, run).a, c);
  }
}
