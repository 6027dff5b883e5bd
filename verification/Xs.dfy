/** XS$: slots, claims and the change of day, and the turns they give the dispatches of a schedule. */
module Xs {
  import opened Basics
  import opened Dispatches
  import opened Scheduler

  // --------------------------------------------------------------------- One day, as turns

  /** What a dispatch is held to: its contract, and whether its claim is locked at it. */
  datatype Term = Term(contract: Byte, locks: bool)

  /** The claims made on the schedule so far today, and whose turn it is. */
  datatype Day = Day(claims: seq<Byte>, at: nat)

  predicate Fit(terms: seq<Term>, d: Day) { |d.claims| == |terms| && d.at < |terms| }

  /** An eight-bit claim, n slots on. */
  function Claim(claim: Byte, n: nat): Byte { (claim + n) % 0x100 }

  lemma ClaimAdds(claim: Byte, n: nat, m: nat)
    ensures Claim(Claim(claim, n), m) == Claim(claim, n + m)
  {
  }

  /** One slot. `ready` says whether the zone of the next dispatch lets it be marshalled in. */
  function Slot(terms: seq<Term>, d: Day, ready: bool): (r: Day)
    requires Fit(terms, d)
    ensures Fit(terms, r)
  {
    var claim := Claim(d.claims[d.at], 1);
    if claim > terms[d.at].contract then
      Day(d.claims[d.at := if terms[d.at].locks then terms[d.at].contract else claim],
          if ready then (d.at + 1) % |terms| else d.at)
    else
      Day(d.claims[d.at := claim], d.at)
  }

  function Run(terms: seq<Term>, d: Day, ready: seq<bool>): (r: Day)
    requires Fit(terms, d)
    ensures Fit(terms, r)
  {
    if ready == [] then d
    else Slot(terms, Run(terms, d, ready[..|ready| - 1]), ready[|ready| - 1])
  }

  /** The top of a new day. */
  function Morning(terms: seq<Term>): Day { Day(seq(|terms|, _ => 0), 0) }

  /** Claims can expire and are locked when they do. */
  predicate Bounded(terms: seq<Term>) {
    terms != [] && forall k :: 0 <= k < |terms| ==> terms[k].contract < 0xff && terms[k].locks
  }

  /** The slots the first n of the schedule have before the next one starts: each its contract and one. */
  function Owed(terms: seq<Term>, n: nat): nat
    requires n <= |terms|
  {
    if n == 0 then 0 else Owed(terms, n - 1) + terms[n - 1].contract + 1
  }

  /** Before a the claims are at their contracts, at a there are x, and behind it none. */
  ghost predicate Claimed(terms: seq<Term>, a: nat, x: nat, claims: seq<Byte>) {
    |claims| == |terms| && forall k :: 0 <= k < |terms| ==>
      claims[k] == if k < a then terms[k].contract else if k == a then x else 0
  }

  /** The state after t slots: in the first round the dispatch whose share t falls in has its turn;
      after that each has one slot in a fixed cycle. */
  ghost predicate Timed(terms: seq<Term>, t: nat, d: Day) {
    && Fit(terms, d)
    && if t < Owed(terms, |terms|) then
         && Owed(terms, d.at) <= t < Owed(terms, d.at + 1)
         && Claimed(terms, d.at, t - Owed(terms, d.at), d.claims)
       else
         && d.at == (t - Owed(terms, |terms|)) % |terms|
         && Claimed(terms, |terms|, 0, d.claims)
  }

  lemma {:induction false} OwedGrows(terms: seq<Term>, i: nat, j: nat)
    requires i <= j <= |terms|
    ensures Owed(terms, i) <= Owed(terms, j)
  {
    if i < j {
      OwedGrows(terms, i, j - 1);
    }
  }

  lemma MulLess(n: nat, a: nat, b: nat)
    requires a < b
    ensures n * a + n <= n * b
  {
    assert n * (b - 1) + n == n * b;
    if a + 1 < b {
      MulLess(n, a, b - 1);
    }
  }

  lemma Quotient(x: nat, n: nat, q: nat, r: nat)
    requires x == n * q + r && r < n
    ensures x % n == r
  {
    var q', r' := x / n, x % n;
    assert x == n * q' + r';
    if q < q' {
      MulLess(n, q, q');
    } else if q' < q {
      MulLess(n, q', q);
    }
  }

  lemma NextAt(a: nat, n: nat)
    requires a < n
    ensures (a + 1) % n == if a + 1 < n then a + 1 else 0
  {
    if a + 1 < n {
      Quotient(a + 1, n, 0, a + 1);
    } else {
      Quotient(n, n, 1, 0);
    }
  }

  lemma CycleOn(x: nat, n: nat)
    requires n > 0
    ensures (x % n + 1) % n == (x + 1) % n
  {
    var q, r := x / n, x % n;
    assert x == n * q + r;
    NextAt(r, n);
    if r + 1 < n {
      Quotient(x + 1, n, q, r + 1);
    } else {
      assert n * (q + 1) == n * q + n;
      Quotient(x + 1, n, q + 1, 0);
    }
  }

  lemma SlotIs(terms: seq<Term>, d: Day)
    requires Fit(terms, d) && Bounded(terms) && d.claims[d.at] <= terms[d.at].contract
    ensures Slot(terms, d, true) ==
            if d.claims[d.at] < terms[d.at].contract then Day(d.claims[d.at := d.claims[d.at] + 1], d.at)
            else Day(d.claims, if d.at + 1 < |terms| then d.at + 1 else 0)
  {
    NextAt(d.at, |terms|);
    assert d.claims[d.at := d.claims[d.at]] == d.claims;
  }

  lemma TimedFirstRound(terms: seq<Term>, t: nat, d: Day)
    requires Bounded(terms) && Timed(terms, t, d) && t < Owed(terms, |terms|)
    ensures Timed(terms, t + 1, Slot(terms, d, true))
  {
    var n, a := |terms|, d.at;
    OwedGrows(terms, a + 1, n);
    SlotIs(terms, d);
    hide Slot;
    if a + 1 < n {
      OwedGrows(terms, a + 2, n);
    } else {
      assert t + 1 == Owed(terms, n) ==> (t + 1 - Owed(terms, n)) % n == 0;
    }
  }

  lemma TimedCycle(terms: seq<Term>, t: nat, d: Day)
    requires Bounded(terms) && Timed(terms, t, d) && t >= Owed(terms, |terms|)
    ensures Timed(terms, t + 1, Slot(terms, d, true))
  {
    CycleOn(t - Owed(terms, |terms|), |terms|);
    assert d.claims[d.at := terms[d.at].contract] == d.claims;
  }

  /** A refused marshal: the claim is at its contract, and the next dispatch's zone is not ready. */
  predicate Refused(terms: seq<Term>, d: Day, ready: bool)
    requires Fit(terms, d)
  {
    d.claims[d.at] == terms[d.at].contract && !ready
  }

  function Refusals(terms: seq<Term>, d: Day, ready: seq<bool>): (n: nat)
    requires Fit(terms, d)
    ensures n <= |ready|
  {
    if ready == [] then 0
    else
      var before := ready[..|ready| - 1];
      Refusals(terms, d, before)
      + if Refused(terms, Run(terms, d, before), ready[|ready| - 1]) then 1 else 0
  }

  lemma TimedStep(terms: seq<Term>, t: nat, d: Day, ready: bool)
    requires Bounded(terms) && Timed(terms, t, d)
    ensures Timed(terms, if Refused(terms, d, ready) then t else t + 1, Slot(terms, d, ready))
  {
    assert d.claims[d.at] <= terms[d.at].contract;
    if Refused(terms, d, ready) {
      assert d.claims[d.at := terms[d.at].contract] == d.claims;
    } else {
      assert Slot(terms, d, ready) == Slot(terms, d, true);
      if t < Owed(terms, |terms|) {
        TimedFirstRound(terms, t, d);
      } else {
        TimedCycle(terms, t, d);
      }
    }
  }

  lemma TimedMorning(terms: seq<Term>)
    requires Bounded(terms)
    ensures Timed(terms, 0, Morning(terms))
  {
    OwedGrows(terms, 1, |terms|);
  }

  /** The day in closed form: a refused slot is as if it had not been, and all others count. */
  lemma {:induction false} DayInClosedForm(terms: seq<Term>, ready: seq<bool>)
    requires Bounded(terms)
    ensures Timed(terms, |ready| - Refusals(terms, Morning(terms), ready), Run(terms, Morning(terms), ready))
  {
    TimedMorning(terms);
    hide Timed, Slot, Refused, Bounded, Morning;
    if ready != [] {
      var before, last := ready[..|ready| - 1], ready[|ready| - 1];
      DayInClosedForm(terms, before);
      TimedStep(terms, |before| - Refusals(terms, Morning(terms), before), Run(terms, Morning(terms), before), last);
    }
  }

  /** A contract of 255 slots is never exhausted: its eight-bit claim wraps first. */
  lemma {:induction false} FullContractNeverYields(terms: seq<Term>, d: Day, ready: seq<bool>)
    requires Fit(terms, d) && terms[d.at].contract == 0xff
    ensures Run(terms, d, ready).at == d.at
  {
    if ready != [] {
      FullContractNeverYields(terms, d, ready[..|ready| - 1]);
    }
  }

  /** An active dispatch is switched out, some number of ready slots later, if and only if its contract
      is below 255. */
  lemma YieldsIff(terms: seq<Term>, d: Day)
    requires Fit(terms, d) && |terms| > 1
    ensures (exists n: nat :: Run(terms, d, Trues(n)).at != d.at) <==> terms[d.at].contract < 0xff
  {
    if terms[d.at].contract == 0xff {
      forall n: nat ensures Run(terms, d, Trues(n)).at == d.at {
        FullContractNeverYields(terms, d, Trues(n));
      }
    } else {
      var need := if d.claims[d.at] <= terms[d.at].contract then terms[d.at].contract - d.claims[d.at]
                  else if d.claims[d.at] < 0xff then 0 else terms[d.at].contract + 1;
      Yields(terms, d, need);
      assert Run(terms, d, Trues(need + 1)).at != d.at;
    }
  }

  lemma {:induction false} Climbs(terms: seq<Term>, d: Day, n: nat)
    requires Fit(terms, d)
    requires forall k :: 0 < k <= n ==> Claim(d.claims[d.at], k) <= terms[d.at].contract
    ensures Run(terms, d, Trues(n)) == Day(d.claims[d.at := Claim(d.claims[d.at], n)], d.at)
  {
    assert Claim(d.claims[d.at], 0) == d.claims[d.at];
    hide Claim;
    if n == 0 {
      assert d.claims[d.at := d.claims[d.at]] == d.claims;
    } else {
      Climbs(terms, d, n - 1);
      assert Trues(n)[..n - 1] == Trues(n - 1);
      ClaimAdds(d.claims[d.at], n - 1, 1);
    }
  }

  lemma Yields(terms: seq<Term>, d: Day, n: nat)
    requires Fit(terms, d) && |terms| > 1
    requires forall k :: 0 < k <= n ==> Claim(d.claims[d.at], k) <= terms[d.at].contract
    requires Claim(d.claims[d.at], n + 1) > terms[d.at].contract
    ensures Run(terms, d, Trues(n + 1)).at == (d.at + 1) % |terms| != d.at
  {
    NextAt(d.at, |terms|);
    hide Claim;
    Climbs(terms, d, n);
    assert Trues(n + 1)[..n] == Trues(n);
    ClaimAdds(d.claims[d.at], n, 1);
  }

  /** How many of the slots the k-th dispatch had. */
  function Had(terms: seq<Term>, d: Day, ready: seq<bool>, k: nat): nat
    requires Fit(terms, d)
  {
    if ready == [] then 0
    else
      var before := ready[..|ready| - 1];
      Had(terms, d, before, k) + if Run(terms, d, before).at == k then 1 else 0
  }

  /** Where claims are not locked, as the idle executors' are not, each counts the slots of its dispatch in eight bits,
      and nothing else. */
  lemma {:induction false} UnlockedClaimsCount(terms: seq<Term>, d: Day, ready: seq<bool>, k: nat)
    requires Fit(terms, d) && k < |terms| && !terms[k].locks
    ensures Run(terms, d, ready).claims[k] == Claim(d.claims[k], Had(terms, d, ready, k))
  {
    if ready == [] {
    } else {
      var before := ready[..|ready| - 1];
      UnlockedClaimsCount(terms, d, before, k);
      ClaimAdds(d.claims[k], Had(terms, d, before, k), 1);
    }
  }

  /** The sixteen-bit slot counter, t slots into a day. */
  function Tick(t: nat): Word { t % 0x1_0000 }

  /** The counter as n calls of opsec_xs leave it, each adding one. */
  function TickAfter(n: nat): Word { if n == 0 then 0 else Tick(TickAfter(n - 1) + 1) }

  lemma TickAdds(n: nat)
    ensures Tick(Tick(n) + 1) == Tick(n + 1)
  {
  }

  lemma {:induction false} TickAfterIs(n: nat)
    ensures TickAfter(n) == Tick(n)
  {
    if n == 0 {
    } else {
      TickAfterIs(n - 1);
      TickAdds(n - 1);
      hide Tick;
    }
  }

  lemma SmallTick(n: Word)
    ensures TickAfter(n) == n
  {
    hide TickAfter;
    TickAfterIs(n);
  }

  /** The n-th call of a day is the first that finds more than sslots counted. */
  ghost predicate DayEndsAt(sslots: Word, n: nat) {
    n > 0 && TickAfter(n) > sslots && forall k :: 0 < k < n ==> TickAfter(k) <= sslots
  }

  /** A day ends at the call after the sslots-th, and never if sslots is the counter's top. */
  lemma DayEndsIff(sslots: Word, n: nat)
    ensures DayEndsAt(sslots, n) <==> sslots < 0xffff && n == sslots + 1
  {
    hide Tick;
    if sslots < 0xffff {
      SmallTick(sslots + 1);
      forall k | 0 < k <= sslots + 1 ensures TickAfter(k) == k {
        SmallTick(k);
      }
    }
  }

  /** Up to there, no call finds the day over. */
  lemma StillOpen(sslots: Word, n: nat)
    requires forall k :: 0 < k <= n ==> !DayEndsAt(sslots, k)
    ensures TickAfter(n) <= sslots
    ensures DayEndsAt(sslots, n + 1) <==> Tick(TickAfter(n) + 1) > sslots
  {
    hide Tick, DayEndsAt;
    DayEndsIff(sslots, n + 1);
    DayEndsIff(sslots, sslots + 1);
    if sslots < 0xffff {
      assert n <= sslots;
      SmallTick(n);
      SmallTick(n + 1);
    }
  }

  // --------------------------------------------------------------------- The operational control file

  /** What the order of a schedule holds its dispatches to. */
  function Terms(order: seq<Dispatch>): (terms: seq<Term>)
    reads (set d | d in order)`contract, (set d | d in order)`status
    ensures |terms| == |order|
    ensures forall k :: 0 <= k < |order| ==> terms[k] == Term(order[k].contract, order[k].status < DS_EXEC_IDLE)
  {
    if order == [] then []
    else
      var last := order[|order| - 1];
      Terms(order[..|order| - 1]) + [Term(last.contract, last.status < DS_EXEC_IDLE)]
  }

  /** The claim of every dispatch on the schedule is locked, its executor's too, but for the idle executor's. */
  lemma ClaimsLockUnlessIdle(order: seq<Dispatch>, k: nat)
    requires k < |order|
    ensures Terms(order)[k].contract == order[k].contract
    ensures order[k].status in {DS_SCH, DS_EXE, DS_RLS, DS_DEX, DS_DAP, DS_PRO, DS_SLK, DS_EXEC_EMRG, DS_EXEC_OP} ==>
              Terms(order)[k].locks
    ensures order[k].status == DS_EXEC_IDLE ==> !Terms(order)[k].locks
  {
  }

  class Opcon {
    var mission: Dispatch?
    var active: Dispatch
    var sched: Dispatch
    var xs_tick: Word
    const sslots: Word
    const config: Config

    constructor (mission: Dispatch?, active: Dispatch, sched: Dispatch, sslots: Word, config: Config)
      ensures this.mission == mission && this.active == active && this.sched == sched && xs_tick == 0
      ensures this.sslots == sslots && this.config == config
    {
      this.mission, this.active, this.sched, this.xs_tick := mission, active, sched, 0;
      this.sslots, this.config := sslots, config;
    }

    /** The schedule order is in force, and d is how far the day has come on it. */
    ghost predicate OnDay(order: seq<Dispatch>, codes: map<Dispatch, Byte>, d: Day)
      reads `active, `sched, (set x | x in order)`nx_sched, (set x | x in order)`claim
    {
      && Linked(sched, order, if AllSlack(order, codes) then sched else null)
      && |d.claims| == |order| && d.at < |order| && active == order[d.at]
      && forall k :: 0 <= k < |order| ==> order[k].claim == d.claims[k]
    }

    /** opsec_xs within a day: the claim, and the switch when it is used up. */
    method WithinDay(ready: bool)
      requires Tick(xs_tick + 1) <= sslots
      modifies `active, `xs_tick, active`claim
      ensures xs_tick == Tick(old(xs_tick) + 1)
      ensures var claim := Claim(old(active.claim), 1);
              var term := Term(old(active.contract), old(active.status) < DS_EXEC_IDLE);
              if claim > term.contract then
                && old(active).claim == (if term.locks then term.contract else claim)
                && active == (if ready then old(Successor(active, sched)) else old(active))
              else
                old(active).claim == claim && active == old(active)
    {
      active.claim := Claim(active.claim, 1);
      xs_tick := Tick(xs_tick + 1);
      if active.claim > active.contract {
        if active.status < DS_EXEC_IDLE {
          active.claim := active.contract;
        }
        if ready {
          active := Successor(active, sched);
        }
      }
    }

    /** A slot within a day takes the whole schedule on by exactly one slot. */
    method SlotWithinDay(ready: bool, ghost order: seq<Dispatch>, ghost codes: map<Dispatch, Byte>, ghost d: Day)
      requires OnDay(order, codes, d) && Tick(xs_tick + 1) <= sslots
      modifies `active, `xs_tick, active`claim
      ensures OnDay(order, codes, Slot(Terms(order), d, ready)) && Terms(order) == old(Terms(order))
      ensures xs_tick == Tick(old(xs_tick) + 1)
    {
      SuccessorIsCyclic(sched, order, codes, d.at);
      OthersAreNotActive(order, codes, d);
      hide Linked, AllSlack, Distinct, Claim, Successor;
      WithinDay(ready);
    }

    /** All calls of a day up to its end, whatever zones are ready: the abstract day in place. */
    method Slots(ready: seq<bool>, ghost order: seq<Dispatch>, ghost codes: map<Dispatch, Byte>)
      requires OnDay(order, codes, Morning(Terms(order))) && xs_tick == 0
      requires forall n :: 0 < n <= |ready| ==> !DayEndsAt(sslots, n)
      modifies `active, `xs_tick, (set x | x in order)`claim
      ensures OnDay(order, codes, Run(Terms(order), Morning(Terms(order)), ready)) && Terms(order) == old(Terms(order))
      ensures xs_tick == TickAfter(|ready|)
      ensures Tick(xs_tick + 1) > sslots <==> DayEndsAt(sslots, |ready| + 1)
    {
      hide Opcon.OnDay, Slot, Tick, DayEndsAt, Morning;
      ghost var terms := Terms(order);
      for i := 0 to |ready|
        invariant Terms(order) == terms && Fit(terms, Morning(terms))
        invariant OnDay(order, codes, Run(terms, Morning(terms), ready[..i])) && xs_tick == TickAfter(i)
      {
        StillOpen(sslots, i + 1);
        ActiveIsOn(order, codes, Run(terms, Morning(terms), ready[..i]));
        assert ready[..i + 1][..i] == ready[..i];
        SlotWithinDay(ready[i], order, codes, Run(terms, Morning(terms), ready[..i]));
      }
      assert ready[..|ready|] == ready;
      StillOpen(sslots, |ready|);
    }

    /** A schedule just drawn up, started at its head with no claims, is the morning of the closed form. */
    lemma DayStarts(order: seq<Dispatch>, q: seq<Dispatch>, codes: map<Dispatch, Byte>)
      requires Drawn(sched, order, q, codes) && active == sched
      requires forall k :: 0 <= k < |order| ==> order[k].claim == 0
      ensures OnDay(order, codes, Morning(Terms(order)))
    {
      hide Ahead, AllSlack;
    }

    lemma ActiveIsOn(order: seq<Dispatch>, codes: map<Dispatch, Byte>, d: Day)
      requires OnDay(order, codes, d)
      ensures active in order
    {
    }

    lemma OthersAreNotActive(order: seq<Dispatch>, codes: map<Dispatch, Byte>, d: Day)
      requires OnDay(order, codes, d)
      ensures forall k :: 0 <= k < |order| && k != d.at ==> order[k] != active
    {
    }

    /** A dispatch's account once the slot just used is claimed. */
    function Charged(d: Dispatch): Account
      reads `active, d
    {
      if d == active then d.Value().(claim := Claim(d.claim, 1)) else d.Value()
    }

    /** The account of the m-th of the binder on a new day, from the one it closed the old with. */
    ghost function Opening(a: Account, q: seq<Dispatch>, codes: map<Dispatch, Byte>, m: nat): Account
      requires m < |q| && q[m] in codes
    {
      EndOfDay(a, config).(status := Mark(q, codes, m))
    }

    /** The slot just used is claimed and counted; that changes no dispatch's schedule. */
    method Charge(ghost q: seq<Dispatch>)
      requires active in q
      modifies `xs_tick, active`claim
      ensures Closed(q, config) == old(Closed(q, config))
      ensures forall m :: 0 <= m < |q| ==> q[m].Value() == old(Charged(q[m]))
      ensures active.claim == Claim(old(active.claim), 1) && xs_tick == Tick(old(xs_tick) + 1)
    {
      active.claim := Claim(active.claim, 1);
      xs_tick := Tick(xs_tick + 1);
    }

    /** opsec_os seen from XS$: the new schedule, on which no claim is made except by executors. */
    method DrawUp(ghost q: seq<Dispatch>) returns (ghost order: seq<Dispatch>)
      requires Binder(mission, q) && Busy(Closed(q, config))
      modifies `sched, (set x | x in q)
      ensures Binder(mission, q) && Drawn(sched, order, q, old(Closed(q, config)))
      ensures forall m :: 0 <= m < |q| ==> q[m].Value() == Opening(old(q[m].Value()), q, old(Closed(q, config)), m)
    {
      hide EndOfDay, Drawn, Binder, Mark;
      var top: Dispatch?;
      top, order := OpsecOs(mission, config, q);
      DrawnHead(top, order, q, old(Closed(q, config)));
      sched := top;
    }

    /** opsec_xs at the end of a day: OS$ draws up a schedule, which starts at its head. A head whose
        zone is not ready is not marshalled in. */
    method SlotAtDayEnd(ready: bool, ghost q: seq<Dispatch>) returns (ghost order: seq<Dispatch>)
      requires Binder(mission, q) && Tick(xs_tick + 1) > sslots && active in q
      requires Busy(Closed(q, config))
      modifies `active, `sched, `xs_tick, (set x | x in q)
      ensures Binder(mission, q) && xs_tick == 0 && Drawn(sched, order, q, old(Closed(q, config)))
      ensures active == if ready then sched else old(active)
      ensures sched.claim == 0
      ensures forall m :: 0 <= m < |q| ==>
                var a := Opening(old(Charged(q[m])), q, old(Closed(q, config)), m);
                q[m].Value() == if q[m] == sched then a.(claim := 0) else a
    {
      ghost var codes := Closed(q, config);
      hide *;
      Charge(q);
      order := DrawUp(q);
      DrawnHead(sched, order, q, codes);
      StartDay(ready);
    }

    /** The new day starts at the head of its schedule. */
    method StartDay(ready: bool)
      modifies `active, `xs_tick, sched`claim
      ensures xs_tick == 0 && sched.claim == 0 && sched.Value() == old(sched.Value()).(claim := 0)
      ensures active == if ready then sched else old(active)
    {
      sched.claim := 0;
      xs_tick := 0;
      if ready {
        active := sched;
      }
    }
  }
}
