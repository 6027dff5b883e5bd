/** The dispatch file and the end-of-day accounting that OS$ does on it. */
module Dispatches {
  import opened Basics

  const DS_SCH: Byte := 0x00
  const DS_EXE: Byte := 0x01
  const DS_RLS: Byte := 0x02
  const DS_DEX: Byte := 0x03
  const DS_DAP: Byte := 0x04
  const DS_PRO: Byte := 0x05
  const DS_SLK: Byte := 0x06
  const DS_EXEC_EMRG: Byte := 0x13
  const DS_EXEC_OP: Byte := 0x14
  const DS_EXEC_IDLE: Byte := 0x15

  /** The operational control file's scheduling parameters. */
  datatype Config = Config(prothr: Word, dlmark: Word, dllimt: Word, dlbump: Byte)

  /** The accounting fields of a dispatch. */
  datatype Account = Account(status: Byte, priority: Word, deadline: Word, contract: Byte, claim: Byte, sideline: Word)

  /** One dispatch at the end of a day. The guard on the contract bump compares an eight-bit value
      with at least 0xff00, so it never fails and the sum wraps. */
  function EndOfDay(a: Account, c: Config): Account {
    if a.status >= DS_EXEC_EMRG then a.(priority := 0)
    else
      var sideline := if a.status == DS_SCH then (a.sideline + 1) % 0x1_0000 else a.sideline;
      if a.deadline == 0 then
        Account(DS_SLK, a.priority, 0, 1, 0, sideline)
      else
        var left := a.deadline - 1;
        if left < c.dllimt then
          Account(DS_DEX, a.priority, left, (a.contract + c.dlbump) % 0x100, 0, sideline)
        else if left < c.dlmark then
          Account(DS_DAP, a.priority, left, a.contract, 0, sideline)
        else if sideline >= c.prothr then
          Account(DS_PRO, a.priority, left, a.contract, 0, 0)
        else
          Account(DS_SLK, a.priority, left, a.contract, 0, sideline)
  }

  class Dispatch {
    var status: Byte
    var priority: Word
    var deadline: Word
    var contract: Byte
    var claim: Byte
    var sideline: Word
    var nx_binder: Dispatch?
    var nx_sched: Dispatch?

    constructor (a: Account)
      ensures Value() == a && nx_binder == null && nx_sched == null
    {
      status, priority, deadline := a.status, a.priority, a.deadline;
      contract, claim, sideline := a.contract, a.claim, a.sideline;
      nx_binder, nx_sched := null, null;
    }

    function Value(): Account
      reads `status, `priority, `deadline, `contract, `claim, `sideline
    {
      Account(status, priority, deadline, contract, claim, sideline)
    }

    method CloseDay(c: Config)
      modifies `status, `priority, `deadline, `contract, `claim, `sideline, `nx_sched
      ensures Value() == EndOfDay(old(Value()), c) && nx_sched == null
    {
      nx_sched := null;
      if status >= DS_EXEC_EMRG {
        priority := 0;
        return;
      }
      if status == DS_SCH {
        sideline := (sideline + 1) % 0x1_0000;
      }
      status := DS_SLK;
      claim := 0;
      if deadline > 0 {
        deadline := deadline - 1;
        if deadline < c.dllimt {
          if contract < 0xffff - c.dlbump {
            contract := (contract + c.dlbump) % 0x100;
          }
          status := DS_DEX;
        } else if deadline < c.dlmark {
          status := DS_DAP;
        } else if sideline >= c.prothr {
          sideline := 0;
          status := DS_PRO;
        }
      } else {
        contract := 1;
      }
    }
  }

  /** The binder lists q, from the mission's first dispatch to a null link. */
  ghost predicate Binder(mission: Dispatch?, q: seq<Dispatch>)
    reads (set d | d in q)`nx_binder
  {
    && Distinct(q)
    && mission == (if q == [] then null else q[0])
    && forall i {:trigger q[i].nx_binder} :: 0 <= i < |q| ==> q[i].nx_binder == if i + 1 < |q| then q[i + 1] else null
  }

  /** opsec_os_eod: closes the day of every mission dispatch and clears the old schedule. */
  method CloseDays(mission: Dispatch?, c: Config, ghost q: seq<Dispatch>)
    requires Binder(mission, q)
    modifies (set d | d in q)
    ensures Binder(mission, q)
    ensures forall d :: d in q ==> d.Value() == EndOfDay(old(d.Value()), c) && d.nx_sched == null
  {
    var finger := mission;
    ghost var n := 0;
    while finger != null
      invariant 0 <= n <= |q| && finger == (if n < |q| then q[n] else null)
      invariant Binder(mission, q)
      invariant forall i :: 0 <= i < n ==> q[i].Value() == EndOfDay(old(q[i].Value()), c) && q[i].nx_sched == null
      invariant forall i :: n <= i < |q| ==> q[i].Value() == old(q[i].Value())
      decreases |q| - n
    {
      finger.CloseDay(c);
      assert q[n].nx_binder == if n + 1 < |q| then q[n + 1] else null;
      finger := finger.nx_binder;
      n := n + 1;
    }
  }

  /** After the end of a day a schedulable dispatch's status names one of the four strands. */
  lemma StatusNamesStrand(a: Account, c: Config)
    ensures var s := EndOfDay(a, c).status;
            s <= DS_EXEC_IDLE ==> 0 <= s % 16 - 3 < 4
  {
  }
}
