/** The double-buffered interrupt mailbox: interrupts post into one queue while the supervisor drains the other. */
module IntMailbox {
  import opened Basics

  const QUEUE: nat := 10

  datatype Imsg = Imsg(irq: Byte, msg: Byte)

  const NONE := Imsg(0, 0)

  /** Where the supervisor is: it finds the queue in use, checks it for messages, switches the interrupts
      to the other one, and drains it from the top. */
  datatype Phase = Idle | Found(out: nat) | Due(out: nat) | Drain(out: nat, i: nat)

  /** The two queues, the one in use with its next free slot, and the history: messages accepted from
      interrupts and messages put on the interrupt service queue. */
  datatype State = State(banks: seq<seq<Imsg>>, bank: nat, pos: nat, dtimer: Word, sigpre: bool, phase: Phase,
                         accepted: seq<Imsg>, delivered: seq<Imsg>)

  datatype Step = Post(m: Imsg) | Find | Check | Swap | Deliver | Done

  predicate Shaped(s: State) {
    |s.banks| == 2 && |s.banks[0]| == |s.banks[1]| == QUEUE && s.bank < 2 && s.pos < QUEUE
    && (s.phase.Idle? || s.phase.out < 2) && (s.phase.Drain? ==> s.phase.i <= QUEUE)
  }

  /** Whether a message sets the preemption signal instead of being queued. */
  predicate Preempts(s: State, m: Imsg) { s.dtimer % 0x100 == m.irq && m.msg == 1 }

  predicate Accepts(s: State, m: Imsg) { m.msg != 0 && !Preempts(s, m) && s.pos != QUEUE - 1 }

  predicate Enabled(s: State, e: Step) {
    Shaped(s)
    && match e
       case Post(_) => true
       case Find => s.phase.Idle?
       case Check => s.phase.Found?
       case Swap => s.phase.Due?
       case Deliver => s.phase.Drain? && s.phase.i < QUEUE && s.banks[s.phase.out][s.phase.i].msg != 0
       case Done => s.phase.Drain? && (s.phase.i == QUEUE || s.banks[s.phase.out][s.phase.i].msg == 0)
  }

  function Next(s: State, e: Step): State
    requires Enabled(s, e)
  {
    match e
    case Post(m) =>
      if m.msg == 0 then s
      else if Preempts(s, m) then s.(sigpre := true)
      else if s.pos == QUEUE - 1 then s
      else s.(banks := s.banks[s.bank := s.banks[s.bank][s.pos := m]], pos := s.pos + 1, accepted := s.accepted + [m])
    case Find => s.(phase := Found(s.bank))
    case Check => s.(phase := if s.banks[s.phase.out][0].msg == 0 then Idle else Due(s.phase.out))
    case Swap => s.(bank := 1 - s.phase.out, pos := 0, phase := Drain(s.phase.out, 0))
    case Deliver =>
      var (out, i) := (s.phase.out, s.phase.i);
      s.(banks := s.banks[out := s.banks[out][i := NONE]], phase := Drain(out, i + 1),
         delivered := s.delivered + [s.banks[out][i]])
    case Done => s.(phase := Idle)
  }

  /** The messages from the top of q to its first empty slot. */
  function Messages(q: seq<Imsg>): seq<Imsg> {
    if q == [] || q[0].msg == 0 then [] else [q[0]] + Messages(q[1..])
  }

  /** What the supervisor has still to deliver of the queue it drains. */
  function Pending(s: State): seq<Imsg>
    requires Shaped(s)
  {
    if s.phase.Drain? then Messages(s.banks[s.phase.out][s.phase.i..]) else []
  }

  ghost predicate Clear(q: seq<Imsg>) { forall k :: 0 <= k < |q| ==> q[k] == NONE }

  /** From i on q holds messages without a gap, then empty slots. */
  ghost predicate Filled(q: seq<Imsg>, i: nat, n: nat) {
    && i <= n < |q|
    && (forall k :: 0 <= k < |q| && !(i <= k < n) ==> q[k] == NONE)
    && (forall k :: i <= k < n ==> q[k].msg != 0)
  }

  ghost predicate Inv(s: State) {
    && Shaped(s)
    && Filled(s.banks[s.bank], 0, s.pos)
    && (if s.phase.Drain? then
          && s.phase.out != s.bank
          && (exists n: nat :: s.phase.i <= n && Filled(s.banks[s.phase.out], s.phase.i, n))
        else Clear(s.banks[1 - s.bank]) && (s.phase.Idle? || s.phase.out == s.bank) && (s.phase.Due? ==> s.pos > 0))
    && s.accepted == s.delivered + Pending(s) + s.banks[s.bank][..s.pos]
  }

  lemma {:induction false} MessagesOfFilled(q: seq<Imsg>, i: nat, n: nat)
    requires Filled(q, i, n)
    ensures Messages(q[i..]) == q[i..n]
    decreases n - i
  {
    if i == n {
      assert q[i..][0] == NONE;
    } else {
      var r := q[i := NONE];
      MessagesOfFilled(r, i + 1, n);
      assert q[i..][1..] == r[i + 1..] && r[i + 1..n] == q[i + 1..n];
    }
  }

  lemma PostKeepsInv(s: State, m: Imsg)
    requires Inv(s)
    ensures Inv(Next(s, Post(m)))
  {
    if Accepts(s, m) {
      var t := Next(s, Post(m));
      assert t.banks[s.bank][..s.pos + 1] == s.banks[s.bank][..s.pos] + [m];
      assert t.banks[1 - s.bank] == s.banks[1 - s.bank];
    }
  }

  lemma SwapKeepsInv(s: State)
    requires Inv(s) && Enabled(s, Swap)
    ensures Inv(Next(s, Swap))
  {
    var out := s.phase.out;
    MessagesOfFilled(s.banks[out], 0, s.pos);
    assert s.banks[out][0..] == s.banks[out];
    assert s.banks[out][0..s.pos] == s.banks[out][..s.pos];
    assert Filled(s.banks[1 - out], 0, 0) && Filled(s.banks[out], 0, s.pos);
  }

  lemma DeliverKeepsInv(s: State)
    requires Inv(s) && Enabled(s, Deliver)
    ensures Inv(Next(s, Deliver))
  {
    var out, i, t := s.phase.out, s.phase.i, Next(s, Deliver);
    var q, r := s.banks[out], t.banks[out];
    var n: nat :| i <= n && Filled(q, i, n);
    assert i < n && Filled(r, i + 1, n);
    assert q[i..][1..] == r[i + 1..];
    assert s.delivered + Messages(q[i..]) == t.delivered + Messages(r[i + 1..]);
    assert t.banks[s.bank] == s.banks[s.bank];
  }

  lemma StepKeepsInv(s: State, e: Step)
    requires Inv(s) && Enabled(s, e)
    ensures Inv(Next(s, e))
  {
    match e
    case Post(m) => PostKeepsInv(s, m);
    case Find =>
    case Check =>
    case Swap => SwapKeepsInv(s);
    case Deliver => DeliverKeepsInv(s);
    case Done =>
      var out, i := s.phase.out, s.phase.i;
      var n: nat :| i <= n && Filled(s.banks[out], i, n);
      assert n == i;
      assert out == 1 - s.bank;
  }

  ghost predicate Runs(s: State, run: seq<Step>, t: State)
    decreases |run|
  {
    if run == [] then s == t else Enabled(s, run[0]) && Runs(Next(s, run[0]), run[1..], t)
  }

  /** As siplex_int_init leaves it. */
  ghost predicate Init(s: State) {
    && Shaped(s) && s.bank == 0 && s.pos == 0 && s.phase == Idle
    && Clear(s.banks[0]) && Clear(s.banks[1]) && s.accepted == s.delivered == []
  }

  lemma {:induction false} RunKeepsInv(s: State, run: seq<Step>, t: State)
    requires Inv(s) && Runs(s, run, t)
    ensures Inv(t)
    decreases |run|
  {
    if run != [] {
      StepKeepsInv(s, run[0]);
      RunKeepsInv(Next(s, run[0]), run[1..], t);
    }
  }

  /** However posts and the supervisor's steps interleave, what was accepted is what was delivered, then
      what is left in the drained queue, then what is in the queue in use: nothing is lost, doubled or moved.
      Whenever the supervisor is not draining, the other queue is empty. */
  lemma MailboxConserves(s: State, run: seq<Step>, t: State)
    requires Init(s) && Runs(s, run, t)
    ensures Shaped(t) && t.accepted == t.delivered + Pending(t) + t.banks[t.bank][..t.pos]
    ensures !t.phase.Drain? ==> Clear(t.banks[1 - t.bank])
  {
    RunKeepsInv(s, run, t);
  }

  /** A post to be queued is dropped exactly when the queue in use holds one message less than it has slots. */
  lemma DroppedIffFull(s: State, run: seq<Step>, t: State, m: Imsg)
    requires Init(s) && Runs(s, run, t) && m.msg != 0
    ensures Shaped(t) && |Messages(t.banks[t.bank])| == t.pos
    ensures !Preempts(t, m) ==>
              (Next(t, Post(m)).accepted == t.accepted + [m] <==> |Messages(t.banks[t.bank])| != 9)
    ensures Preempts(t, m) ==> Next(t, Post(m)) == t.(sigpre := true)
  {
    RunKeepsInv(s, run, t);
    MessagesOfFilled(t.banks[t.bank], 0, t.pos);
    assert t.banks[t.bank][0..] == t.banks[t.bank];
  }

  /** Some interrupt of the run has posted message 1 for the timer that the dispatch watches. */
  ghost predicate Signalled(run: seq<Step>, dtimer: Word) {
    exists i :: 0 <= i < |run| && run[i].Post? && run[i].m.msg == 1 && run[i].m.irq == dtimer % 0x100
  }

  /** The preemption signal is set by exactly those posts, and they are not queued. */
  lemma {:induction false} SignalledIff(s: State, run: seq<Step>, t: State)
    requires Runs(s, run, t)
    ensures t.dtimer == s.dtimer && (t.sigpre <==> s.sigpre || Signalled(run, s.dtimer))
    decreases |run|
  {
    if run != [] {
      SignalledIff(Next(s, run[0]), run[1..], t);
      var rest := run[1..];
      if Signalled(rest, s.dtimer) {
        var i :| 0 <= i < |rest| && rest[i].Post? && rest[i].m.msg == 1 && rest[i].m.irq == s.dtimer % 0x100;
        assert run[i + 1] == rest[i];
      }
      if Signalled(run, s.dtimer) && !(run[0].Post? && run[0].m.msg == 1 && run[0].m.irq == s.dtimer % 0x100) {
        var i :| 0 <= i < |run| && run[i].Post? && run[i].m.msg == 1 && run[i].m.irq == s.dtimer % 0x100;
        assert rest[i - 1] == run[i];
      }
    }
  }

  /** The posts of a run that are to be queued. */
  function Posted(run: seq<Step>, dtimer: Word): seq<Imsg> {
    if run == [] then []
    else
      (if run[0].Post? && run[0].m.msg != 0 && !(run[0].m.msg == 1 && run[0].m.irq == dtimer % 0x100)
       then [run[0].m] else []) + Posted(run[1..], dtimer)
  }

  /** Nothing else is ever accepted: what has been is some of those posts, in their order. */
  ghost predicate Among(q: seq<Imsg>, posts: seq<Imsg>)
    decreases |posts|
  {
    q == [] || (posts != [] && (Among(q, posts[1..]) || (q[0] == posts[0] && Among(q[1..], posts[1..]))))
  }

  lemma {:induction false} AcceptedArePosted(s: State, run: seq<Step>, t: State)
    requires Runs(s, run, t)
    ensures s.accepted <= t.accepted && Among(t.accepted[|s.accepted|..], Posted(run, s.dtimer))
    decreases |run|
  {
    if run != [] {
      var u := Next(s, run[0]);
      AcceptedArePosted(u, run[1..], t);
      var more, posts := t.accepted[|s.accepted|..], Posted(run, s.dtimer);
      var rest := Posted(run[1..], s.dtimer);
      if u.accepted != s.accepted {
        assert more[0] == run[0].m && more[1..] == t.accepted[|u.accepted|..] && posts[1..] == rest;
      } else if posts != rest {
        assert posts[1..] == rest;
      }
    }
  }

  // --------------------------------------------------------------------- In place

  /** The posts of some interrupts as steps. */
  function PostAll(posts: seq<Imsg>): seq<Step> {
    if posts == [] then [] else PostAll(posts[..|posts| - 1]) + [Post(posts[|posts| - 1])]
  }

  lemma {:induction false} RunsJoin(s: State, run: seq<Step>, t: State, more: seq<Step>, u: State)
    requires Runs(s, run, t) && Runs(t, more, u)
    ensures Runs(s, run + more, u)
    decreases |run|
  {
    if run == [] {
      assert run + more == more;
    } else {
      RunsJoin(Next(s, run[0]), run[1..], t, more, u);
      assert (run + more)[1..] == run[1..] + more;
    }
  }

  lemma RunsOn(s: State, run: seq<Step>, t: State, e: Step)
    requires Runs(s, run, t) && Enabled(t, e)
    ensures Runs(s, run + [e], Next(t, e))
  {
    assert Runs(Next(t, e), [e][1..], Next(t, e));
    RunsJoin(s, run, t, [e], Next(t, e));
  }

  /** What posts leave alone. */
  ghost predicate Settled(s: State, t: State) {
    && s.phase == t.phase && s.bank == t.bank && s.delivered == t.delivered && s.accepted <= t.accepted
    && Shaped(s) && Shaped(t) && Pending(s) == Pending(t)
  }

  lemma PostSettles(s: State, m: Imsg)
    requires Inv(s)
    ensures Enabled(s, Post(m)) && Settled(s, Next(s, Post(m)))
  {
  }

  /** A queue found empty has nothing behind it; a queue found due is all there is to deliver. */
  lemma CheckTells(s: State)
    requires Inv(s) && s.phase.Found?
    ensures Next(s, Check).phase.Idle? <==> s.banks[s.bank][0].msg == 0
    ensures s.banks[s.bank][0].msg == 0 ==> s.delivered == s.accepted
  {
  }

  lemma SwapTells(s: State)
    requires Inv(s) && s.phase.Due?
    ensures var t := Next(s, Swap); Shaped(t) && t.delivered + Pending(t) == s.accepted && t.delivered == s.delivered
  {
    SwapKeepsInv(s);
    assert Next(s, Swap).banks[1 - s.phase.out][..0] == [];
  }

  lemma DeliverTells(s: State)
    requires Inv(s) && Enabled(s, Deliver)
    ensures var t := Next(s, Deliver); Shaped(t) && t.delivered + Pending(t) == s.delivered + Pending(s)
  {
    var q, i, r := s.banks[s.phase.out], s.phase.i, Next(s, Deliver).banks[s.phase.out];
    assert q[i..][1..] == r[i + 1..];
  }

  /** OPSEC's interrupt file and the two message arrays. The queue pointers are a queue and a slot in it. */
  class Mailbox {
    const intmsg0: array<Imsg>
    const intmsg1: array<Imsg>
    var bank: nat
    var pos: nat
    var dtimer: Word
    var sigpre: bool
    var intq: seq<Imsg>
    ghost var accepted: seq<Imsg>

    /** siplex_int_init: clears both queues and puts the first in use. */
    constructor (dtimer: Word)
      ensures Init(At(Idle)) && fresh(intmsg0) && fresh(intmsg1) && intmsg0 != intmsg1 && this.dtimer == dtimer
    {
      intmsg0, intmsg1 := new Imsg[QUEUE](_ => NONE), new Imsg[QUEUE](_ => NONE);
      bank, pos, this.dtimer, sigpre, intq, accepted := 0, 0, dtimer, false, [], [];
    }

    /** The mailbox with the supervisor at a phase. */
    ghost function At(phase: Phase): State
      reads this, intmsg0, intmsg1
    {
      State([intmsg0[..], intmsg1[..]], bank, pos, dtimer, sigpre, phase, accepted, intq)
    }

    /** In a reachable state, with two separate arrays. */
    ghost predicate Valid(phase: Phase)
      reads this, intmsg0, intmsg1
    {
      intmsg0 != intmsg1 && Inv(At(phase))
    }

    function Peek(b: nat, slot: nat): Imsg
      requires b < 2 && intmsg0.Length == intmsg1.Length == QUEUE && slot < QUEUE
      reads intmsg0, intmsg1
    {
      if b == 0 then intmsg0[slot] else intmsg1[slot]
    }

    method Write(b: nat, slot: nat, m: Imsg)
      requires b < 2 && intmsg0.Length == intmsg1.Length == QUEUE && slot < QUEUE && intmsg0 != intmsg1
      modifies intmsg0, intmsg1
      ensures [intmsg0[..], intmsg1[..]] ==
              old([intmsg0[..], intmsg1[..]])[b := old([intmsg0[..], intmsg1[..]][b])[slot := m]]
    {
      if b == 0 {
        intmsg0[slot] := m;
        assert intmsg0[..] == old(intmsg0[..])[slot := m];
      } else {
        intmsg1[slot] := m;
        assert intmsg1[..] == old(intmsg1[..])[slot := m];
      }
    }

    /** opsec_int_postmsg. */
    method PostMsg(m: Imsg, ghost phase: Phase)
      requires Valid(phase)
      modifies this, intmsg0, intmsg1
      ensures Valid(phase) && At(phase) == Next(old(At(phase)), Post(m))
    {
      PostKeepsInv(At(phase), m);
      if m.msg == 0 {
        return;
      }
      if dtimer % 0x100 == m.irq && m.msg == 1 {
        sigpre := true;
        return;
      }
      if pos == QUEUE - 1 {
        return;
      }
      Write(bank, pos, m);
      pos, accepted := pos + 1, accepted + [m];
    }

    /** Some interrupts, one after the other, at any point of the supervisor. */
    method Interrupts(posts: seq<Imsg>, ghost phase: Phase, ghost start: State, ghost run: seq<Step>)
      returns (ghost longer: seq<Step>)
      requires Valid(phase) && Runs(start, run, At(phase))
      modifies this, intmsg0, intmsg1
      ensures Valid(phase) && Settled(old(At(phase)), At(phase))
      ensures longer == run + PostAll(posts) && Runs(start, longer, At(phase))
    {
      var n := 0;
      longer := run;
      assert Shaped(At(phase));
      hide Inv, Next, Runs, Enabled, Pending;
      while n < |posts|
        invariant n <= |posts| && Valid(phase)
        invariant longer == run + PostAll(posts[..n])
        invariant Settled(old(At(phase)), At(phase)) && Runs(start, longer, At(phase))
      {
        PostSettles(At(phase), posts[n]);
        RunsOn(start, longer, At(phase), Post(posts[n]));
        assert posts[..n + 1][..n] == posts[..n];
        longer := longer + [Post(posts[n])];
        PostMsg(posts[n], phase);
        n := n + 1;
      }
      assert posts[..n] == posts;
    }

    /** int_swmq: switches the interrupts to the other queue. */
    method SwitchQueue(ghost out: nat, to: nat)
      requires Valid(Due(out)) && to == 1 - out
      modifies `bank, `pos
      ensures Valid(Drain(out, 0)) && At(Drain(out, 0)) == Next(old(At(Due(out))), Swap)
    {
      SwapKeepsInv(At(Due(out)));
      bank, pos := to, 0;
    }

    /** One message of the drained queue becomes a shot on the interrupt service queue. */
    method DeliverOne(out: nat, i: nat)
      requires Valid(Drain(out, i)) && Enabled(At(Drain(out, i)), Deliver)
      modifies intmsg0, intmsg1, `intq
      ensures Valid(Drain(out, i + 1)) && At(Drain(out, i + 1)) == Next(old(At(Drain(out, i))), Deliver)
    {
      DeliverKeepsInv(At(Drain(out, i)));
      intq := intq + [Peek(out, i)];
      Write(out, i, NONE);
    }

    /** The queue in use is the one to drain. */
    method FindQueue() returns (out: nat)
      requires Valid(Idle)
      ensures Valid(Found(out)) && At(Found(out)) == Next(At(Idle), Find)
    {
      out := bank;
    }

    /** Nothing to do if its first slot is empty. */
    method CheckQueue(out: nat) returns (due: bool)
      requires Valid(Found(out))
      ensures if due then Valid(Due(out)) && At(Due(out)) == Next(At(Found(out)), Check)
              else Valid(Idle) && At(Idle) == Next(At(Found(out)), Check) && accepted == intq
    {
      StepKeepsInv(At(Found(out)), Check);
      CheckTells(At(Found(out)));
      due := Peek(out, 0).msg != 0;
    }

    /** Drains queue `out` from the top, with interrupts before each message. */
    method DrainQueue(out: nat, arrivals: nat -> seq<Imsg>, ghost start: State, ghost before: seq<Step>)
      returns (ghost run: seq<Step>)
      requires Valid(Drain(out, 0)) && Runs(start, before, At(Drain(out, 0)))
      modifies this, intmsg0, intmsg1
      ensures Valid(Idle) && Runs(start, run, At(Idle))
      ensures intq == old(intq + Pending(At(Drain(out, 0))))
    {
      ghost var due := intq + Pending(At(Drain(out, 0)));
      run := before;
      var i := 0;
      while i < QUEUE
        invariant i <= QUEUE && Valid(Drain(out, i)) && Shaped(At(Drain(out, i)))
        invariant Runs(start, run, At(Drain(out, i))) && intq + Pending(At(Drain(out, i))) == due
      {
        hide Inv, Messages, Runs, PostAll;
        run := Interrupts(arrivals(i), Drain(out, i), start, run);
        if Peek(out, i).msg == 0 {
          break;
        }
        RunsOn(start, run, At(Drain(out, i)), Deliver);
        DeliverTells(At(Drain(out, i)));
        run := run + [Deliver];
        DeliverOne(out, i);
        i := i + 1;
      }
      RunsOn(start, run, At(Drain(out, i)), Done);
      StepKeepsInv(At(Drain(out, i)), Done);
      run := run + [Done];
    }

    /** siplex_int_supr, with the interrupts that come before each of its steps. It is a run of the
        machine, and when it returns every message accepted before it was called has been delivered. */
    method Supervise(arrivals: nat -> seq<Imsg>) returns (ghost run: seq<Step>)
      requires Valid(Idle)
      modifies this, intmsg0, intmsg1
      ensures Valid(Idle) && Runs(old(At(Idle)), run, At(Idle)) && old(accepted) <= intq
    {
      ghost var start := At(Idle);
      var out := FindQueue();
      run := [Find];
      assert Runs(Next(start, Find), [Find][1..], Next(start, Find));
      hide Inv, Messages, Runs, PostAll;
      run := Interrupts(arrivals(0), Found(out), start, run);
      RunsOn(start, run, At(Found(out)), Check);
      run := run + [Check];
      var due := CheckQueue(out);
      if due {
        run := Interrupts(arrivals(1), Due(out), start, run);
        RunsOn(start, run, At(Due(out)), Swap);
        SwapTells(At(Due(out)));
        run := run + [Swap];
        SwitchQueue(out, 1 - out);
        run := DrainQueue(out, (k: nat) => arrivals(2 + k), start, run);
      }
    }
  }
}
