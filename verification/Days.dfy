/** The accounting of one dispatch over many days: the phases it goes through and its promotions. */
module Days {
  import opened Basics
  import opened Dispatches

  /** How OS$ leaves a dispatch for the day: marked scheduled when it joined a strand behind others. */
  function Opened(a: Account, joined: bool): Account {
    if joined then a.(status := DS_SCH) else a
  }

  /** The dispatch after |joined| days. */
  function After(a: Account, c: Config, joined: seq<bool>): Account {
    if joined == [] then a
    else Opened(EndOfDay(After(a, c, joined[..|joined| - 1]), c), joined[|joined| - 1])
  }

  /** The close of the day that follows them. */
  function Close(a: Account, c: Config, joined: seq<bool>): Account {
    EndOfDay(After(a, c, joined), c)
  }

  /** What day |joined| + 1 closes with, from the deadline left: slack or promoted, then approach,
      then expedite with a growing contract, then slack on the least contract. */
  ghost predicate Phase(a: Account, c: Config, left: int, e: Account) {
    && e.deadline == (if left < 0 then 0 else left)
    && e.claim == 0
    && (left >= c.dlmark ==> (e.status == DS_SLK || e.status == DS_PRO) && e.contract == a.contract)
    && (c.dllimt <= left < c.dlmark ==> e.status == DS_DAP && e.contract == a.contract)
    && (0 <= left < c.dllimt ==>
          && e.status == DS_DEX
          && e.contract == (a.contract + c.dlbump * (Min(a.deadline, c.dllimt) - left)) % 0x100)
    && (left < 0 ==> e.status == DS_SLK && e.contract == 1)
  }

  lemma BumpAgain(k: int, bump: int, n: int)
    ensures ((k + bump * n) % 0x100 + bump) % 0x100 == (k + bump * (n + 1)) % 0x100
  {
    assert bump * (n + 1) == bump * n + bump;
  }

  lemma NextPhase(a: Account, c: Config, left: int, e: Account, joined: bool)
    requires c.dllimt <= c.dlmark && left < a.deadline && Phase(a, c, left, e)
    ensures Phase(a, c, left - 1, EndOfDay(Opened(e, joined), c))
  {
    var days := Min(a.deadline, c.dllimt) - left;
    if left > 0 {
      assert 0 <= left - 1 < c.dllimt && left >= c.dllimt ==> days == 0;
      BumpAgain(a.contract, c.dlbump, days);
      BumpNone(a.contract, c.dlbump);
    }
  }

  lemma BumpNone(k: Byte, bump: int)
    ensures (k + bump * 0) % 0x100 == k
  {
  }

  /** The phase of every day, whatever strands the dispatch joined. */
  lemma {:induction false} PhaseOfDay(a: Account, c: Config, joined: seq<bool>)
    requires a.status < DS_EXEC_EMRG && c.dllimt <= c.dlmark
    ensures Phase(a, c, a.deadline - |joined| - 1, Close(a, c, joined))
  {
    if joined == [] {
      BumpAgain(a.contract, c.dlbump, 0);
      BumpNone(a.contract, c.dlbump);
    } else {
      var before := joined[..|joined| - 1];
      PhaseOfDay(a, c, before);
      NextPhase(a, c, a.deadline - |joined|, Close(a, c, before), joined[|joined| - 1]);
    }
  }

  /** Expedite is exactly the last min(deadline, dllimt) days before the deadline is missed. */
  lemma ExpediteDays(a: Account, c: Config, joined: seq<bool>)
    requires a.status < DS_EXEC_EMRG && c.dllimt <= c.dlmark
    ensures Close(a, c, joined).status == DS_DEX <==>
            a.deadline - Min(a.deadline, c.dllimt) <= |joined| < a.deadline
  {
    PhaseOfDay(a, c, joined);
  }

  /** Where a closed day stands in the order of phases. */
  function Rank(a: Account): int {
    if a.status == DS_DEX then 2 else if a.status == DS_DAP then 1
    else if a.status == DS_SLK && a.deadline == 0 && a.contract == 1 then 3 else 0
  }

  /** No day closes in an earlier phase than the day before, once the deadline counts. */
  lemma NeverBackwards(a: Account, c: Config, joined: seq<bool>, day: bool)
    requires a.status < DS_EXEC_EMRG && c.dllimt <= c.dlmark
    ensures Rank(Close(a, c, joined)) <= Rank(Close(a, c, joined + [day]))
  {
    PhaseOfDay(a, c, joined);
    PhaseOfDay(a, c, joined + [day]);
  }

  lemma WaitsOneDay(e: Account, c: Config)
    requires e.status == DS_SCH && c.dllimt <= c.dlmark && e.deadline > c.dlmark
    ensures EndOfDay(e, c).status == DS_PRO <==> (e.sideline + 1) % 0x1_0000 >= c.prothr
    ensures EndOfDay(e, c).status == DS_PRO || EndOfDay(e, c).sideline == (e.sideline + 1) % 0x1_0000
    ensures EndOfDay(e, c).deadline == e.deadline - 1
  {
  }

  /** The sideline counter of a dispatch that waits n days without being promoted. */
  lemma {:induction false} SidelineGrows(a: Account, c: Config, n: nat)
    requires a.status == DS_SCH && c.dllimt <= c.dlmark && a.deadline - n >= c.dlmark
    requires forall k :: 0 <= k < n ==> Close(a, c, Trues(k)).status != DS_PRO
    ensures After(a, c, Trues(n)).status == DS_SCH && After(a, c, Trues(n)).sideline == (a.sideline + n) % 0x1_0000
    ensures After(a, c, Trues(n)).deadline == a.deadline - n
  {
    hide EndOfDay;
    if n > 0 {
      SidelineGrows(a, c, n - 1);
      WaitsOneDay(After(a, c, Trues(n - 1)), c);
      assert Trues(n)[..n - 1] == Trues(n - 1);
    }
  }

  lemma PromotedByThen(a: Account, c: Config, n: nat)
    requires a.status == DS_SCH && c.dllimt <= c.dlmark && a.deadline - n > c.dlmark
    requires forall k :: 0 <= k < n ==> Close(a, c, Trues(k)).status != DS_PRO
    requires (a.sideline + n + 1) % 0x1_0000 >= c.prothr
    ensures Close(a, c, Trues(n)).status == DS_PRO
  {
    hide EndOfDay;
    SidelineGrows(a, c, n);
    WaitsOneDay(After(a, c, Trues(n)), c);
  }

  /** While its deadline is above the mark, a dispatch that keeps joining behind others is promoted
      within prothr days; the one exception is a sideline counter that is about to wrap. */
  lemma PromotedInTime(a: Account, c: Config)
    requires a.status == DS_SCH && c.dllimt <= c.dlmark && a.deadline - Days(c) >= c.dlmark
    ensures (exists k :: 0 <= k < Days(c) && Close(a, c, Trues(k)).status == DS_PRO) <==>
            (c.prothr == 0 || a.sideline != 0xffff)
  {
    var n := if c.prothr <= a.sideline then 0 else c.prothr - a.sideline - 1;
    if c.prothr > 0 && a.sideline == 0xffff {
      NoneWhenWrapping(a, c, c.prothr);
    } else if k :| 0 <= k < n && Close(a, c, Trues(k)).status == DS_PRO {
      assert k < Days(c);
    } else {
      PromotedByThen(a, c, n);
    }
  }

  // --------------------------------------------------------------------- What else a day leaves

  /** The days a dispatch has waited scheduled since it was last promoted, by what its days closed with. */
  function Waited(a: Account, c: Config, joined: seq<bool>): nat {
    if joined == [] then a.sideline
    else
      var before := joined[..|joined| - 1];
      var waits := if before == [] then a.status == DS_SCH else before[|before| - 1];
      if Close(a, c, before).status == DS_PRO then 0 else Waited(a, c, before) + if waits then 1 else 0
  }

  lemma DayOfWait(e: Account, c: Config, joined: bool)
    requires e.status < DS_EXEC_EMRG
    ensures var f := Opened(EndOfDay(e, c), joined);
            && f.priority == e.priority && f.status < DS_EXEC_EMRG
            && (joined ==> f.status == DS_SCH) && (!joined ==> f.status == EndOfDay(e, c).status != DS_SCH)
            && f.sideline == if EndOfDay(e, c).status == DS_PRO then 0
                             else (e.sideline + if e.status == DS_SCH then 1 else 0) % 0x1_0000
  {
  }

  lemma WaitedAgain(n: nat, w: nat)
    ensures (n % 0x1_0000 + w) % 0x1_0000 == (n + w) % 0x1_0000
  {
  }

  /** The sideline counter of any dispatch but an executor, after any days, counts those in sixteen bits; it goes up on
      no day on which the dispatch was first on its strand. The priority is left alone. */
  lemma {:induction false} SidelineCountsWaits(a: Account, c: Config, joined: seq<bool>)
    requires a.status < DS_EXEC_EMRG
    ensures var e := After(a, c, joined);
            && e.sideline == Waited(a, c, joined) % 0x1_0000 && e.priority == a.priority
            && e.status < DS_EXEC_EMRG
            && (joined != [] ==> (e.status == DS_SCH <==> joined[|joined| - 1]))
  {
    hide EndOfDay;
    if joined != [] {
      var before := joined[..|joined| - 1];
      SidelineCountsWaits(a, c, before);
      DayOfWait(After(a, c, before), c, joined[|joined| - 1]);
      WaitedAgain(Waited(a, c, before), if After(a, c, before).status == DS_SCH then 1 else 0);
    }
  }

  /** A day takes an executor's priority and nothing else, as long as it is first on its strand. */
  lemma {:induction false} ExecutorsKeepTheirs(a: Account, c: Config, joined: seq<bool>)
    requires a.status >= DS_EXEC_EMRG && joined != [] && forall i :: 0 <= i < |joined| ==> !joined[i]
    ensures After(a, c, joined) == a.(priority := 0)
  {
    var before := joined[..|joined| - 1];
    if before != [] {
      ExecutorsKeepTheirs(a, c, before);
    }
  }

  function Days(c: Config): nat { if c.prothr == 0 then 1 else c.prothr }

  lemma {:induction false} NoneWhenWrapping(a: Account, c: Config, n: nat)
    requires a.status == DS_SCH && a.sideline == 0xffff && c.dllimt <= c.dlmark && n <= c.prothr
    requires a.deadline - n >= c.dlmark
    ensures forall k :: 0 <= k < n ==> Close(a, c, Trues(k)).status != DS_PRO
  {
    hide EndOfDay;
    if n > 0 {
      NoneWhenWrapping(a, c, n - 1);
      SidelineGrows(a, c, n - 1);
      WaitsOneDay(After(a, c, Trues(n - 1)), c);
    }
  }
}
