/** The XS$ lock across context switches. Each lane has the calls of opsec_xs that it is inside of, the innermost
    last, each at a point of its code; the timer may call it again at any of them. A call that takes the lock may
    be switched out before it releases it, and free_xs clears the lock whatever it is. */
module XsLock {

  datatype Point =
    | Entry        // before lock_xs
    | Refused      // lock_xs has failed
    | Holding      // lock_xs has succeeded
    | Unscheduled  // OS$ has found nothing to schedule, before free_xs
    | Marshalling  // before opsec_xdm
    | Outside      // marshalled out, inside opsec_xdm
    | Checking     // before the look at the transaction mark
    | Comparing    // in checktx
    | Failed       // in checktx, before free_xs
    | RollingBack  // in checktx, before opsec_tx_rollback
    | Freeing      // before free_xs
    | Returning    // behind free_xs
    | Seeded       // in new_exec, which the stack of a lane not yet started returns into

  /** `handed` says that the call has been marshalled out and in again. */
  datatype Frame = Frame(at: Point, handed: bool)

  datatype Releaser = Same | MarshalledIn | CheckTx | NewExec

  datatype Event = Take(lane: nat) | Switch(lane: nat, to: nat) | Free(lane: nat, who: Releaser)

  datatype State = State(locked: bool, active: nat, stacks: seq<seq<Frame>>, log: seq<Event>)
  {
    predicate Shaped() { active < |stacks| }

    function Stack(): seq<Frame>
      requires Shaped()
    {
      stacks[active]
    }

    predicate In(p: Point)
      requires Shaped()
    {
      Stack() != [] && Stack()[|Stack()| - 1].at == p
    }

    function Top(): Frame
      requires Shaped() && Stack() != []
    {
      Stack()[|Stack()| - 1]
    }

    function Popped(): State
      requires Shaped() && Stack() != []
    {
      this.(stacks := stacks[active := Stack()[..|Stack()| - 1]])
    }

    /** The innermost call goes on to another point. */
    function To(p: Point): State
      requires Shaped() && Stack() != []
    {
      this.(stacks := stacks[active := Stack()[|Stack()| - 1 := Top().(at := p)]])
    }

    /** free_xs: the lock is clear, whoever had it. */
    function Freed(who: Releaser): State
      requires Shaped()
    {
      this.(locked := false, log := log + [Free(active, who)])
    }
  }

  datatype Choice = Stay | Yield | Nothing

  datatype Step =
    | Call                               // at any point of the running lane
    | Lock
    | Decide(choice: Choice)             // go on, switch, or find nothing to schedule
    | Marshal(to: nat, ready: bool)      // opsec_xdm, with the state of the zone
    | Resume
    | Look(marked: bool)
    | Compare(pass: bool)
    | Release
    | Return
    | Rollback

  predicate Enabled(s: State, e: Step) {
    s.Shaped()
    && match e
       case Call => true
       case Lock => s.In(Entry)
       case Decide(_) => s.In(Holding)
       case Marshal(to, _) => s.In(Marshalling) && to < |s.stacks|
       case Resume => s.In(Outside)
       case Look(_) => s.In(Checking)
       case Compare(_) => s.In(Comparing)
       case Release => s.In(Freeing) || s.In(Failed) || s.In(Unscheduled) || s.In(Seeded)
       case Return => s.In(Refused) || s.In(Returning)
       case Rollback => s.In(RollingBack)
  }

  /** The rollback resets the stack to the start of the transaction, from which no call was open. */
  function Next(s: State, e: Step): State
    requires Enabled(s, e)
  {
    match e
    case Call => s.(stacks := s.stacks[s.active := s.Stack() + [Frame(Entry, false)]])
    case Lock =>
      if s.locked then s.To(Refused) else s.To(Holding).(locked := true, log := s.log + [Take(s.active)])
    case Decide(choice) =>
      s.To(match choice case Stay => Checking case Yield => Marshalling case Nothing => Unscheduled)
    case Marshal(to, ready) =>
      if !ready then s.To(Checking)
      else
        s.(stacks := s.stacks[s.active := s.Stack()[|s.Stack()| - 1 := Frame(Outside, true)]],
           active := to, log := s.log + [Switch(s.active, to)])
    case Resume => s.To(Checking)
    case Look(marked) => s.To(if marked then Comparing else Freeing)
    case Compare(pass) => s.To(if pass then Freeing else Failed)
    case Release =>
      if s.In(Seeded) then s.Popped().Freed(NewExec)
      else if s.In(Failed) then s.To(RollingBack).Freed(CheckTx)
      else s.To(Returning).Freed(if s.Top().handed then MarshalledIn else Same)
    case Return => s.Popped()
    case Rollback => s.(stacks := s.stacks[s.active := []])
  }

  /** After boot: lane 0 is cranked, the others are seeded. */
  ghost predicate Init(s: State) {
    && s.Shaped() && s.active == 0 && !s.locked && s.log == [] && s.stacks[0] == []
    && forall k :: 0 < k < |s.stacks| ==> s.stacks[k] == [Frame(Seeded, true)]
  }

  /** The code from this point on comes to a free_xs. */
  predicate Owes(f: Frame) { f.at !in {Entry, Refused, RollingBack, Returning} }

  predicate Called(f: Frame) { f.at in {Entry, Refused} }

  /** The p-th call of a lane has a release to make, those above it got no lock, and none below it has one. */
  ghost predicate Owner(q: seq<Frame>, p: nat) {
    && p < |q| && Owes(q[p])
    && (forall k :: 0 <= k < p ==> !Owes(q[k]))
    && (forall k :: p < k < |q| ==> Called(q[k]))
  }

  ghost predicate NoOwner(q: seq<Frame>) { forall k :: 0 <= k < |q| ==> !Owes(q[k]) }

  /** A lane switched out resumes into opsec_xdm, or into new_exec. */
  ghost predicate Waiting(q: seq<Frame>) {
    q != [] && q[|q| - 1].at in {Outside, Seeded} && q[|q| - 1].handed && Owner(q, |q| - 1)
  }

  /** What an event of the log comes behind. */
  ghost predicate Follows(log: seq<Event>, i: nat)
    requires i < |log|
  {
    match log[i]
    case Take(_) => i == 0 || log[i - 1].Free?
    case Switch(lane, _) => i > 0 && log[i - 1] == Take(lane)
    case Free(lane, who) =>
      && i > 0
      && (who == Same ==> log[i - 1] == Take(lane))
      && (who == CheckTx ==> log[i - 1] == Take(lane) || (log[i - 1].Switch? && log[i - 1].to == lane))
      && (who == MarshalledIn || who == NewExec ==> log[i - 1].Switch? && log[i - 1].to == lane)
  }

  ghost predicate Paired(log: seq<Event>) { forall i :: 0 <= i < |log| ==> Follows(log, i) }

  lemma PairedGrows(log: seq<Event>, e: Event)
    requires Paired(log) && Follows(log + [e], |log|)
    ensures Paired(log + [e])
  {
    forall i | 0 <= i < |log| + 1 ensures Follows(log + [e], i) {
      assert i < |log| ==> Follows(log, i);
    }
  }

  /** The open end of the log is the running lane's: what it took, or was handed. */
  ghost predicate Ends(s: State, f: Frame) {
    s.log != [] && (if f.handed then s.log[|s.log| - 1].Switch? && s.log[|s.log| - 1].to == s.active
                    else s.log[|s.log| - 1] == Take(s.active))
  }

  /** A call that has not been out has not been handed anything. */
  predicate Fit(f: Frame) {
    && (f.at in {Entry, Refused, Holding, Unscheduled, Marshalling} ==> !f.handed)
    && (f.at in {Outside, Seeded} ==> f.handed)
  }

  ghost predicate AllFit(q: seq<Frame>) { forall i :: 0 <= i < |q| ==> Fit(q[i]) }

  ghost predicate Inv(s: State) {
    && s.Shaped() && Paired(s.log)
    && (forall k :: 0 <= k < |s.stacks| ==> AllFit(s.stacks[k]))
    && (forall k :: 0 <= k < |s.stacks| && k != s.active ==> Waiting(s.stacks[k]))
    && (!s.locked ==> NoOwner(s.Stack()) && (s.log == [] || s.log[|s.log| - 1].Free?))
    && (s.locked ==> exists p: nat :: Owner(s.Stack(), p) && Ends(s, s.Stack()[p]))
  }

  // ----------------------------------------------------------------------- Every step keeps it

  lemma OwnerIsTop(q: seq<Frame>, p: nat)
    requires Owner(q, p)
    ensures p == |q| - 1 || Called(q[|q| - 1])
  {
  }

  /** A call that owes a release is innermost, and is the one that has the lock. */
  lemma TopOwes(s: State)
    requires Inv(s) && s.Stack() != [] && Owes(s.Top())
    ensures s.locked && Owner(s.Stack(), |s.Stack()| - 1) && Ends(s, s.Top()) && Fit(s.Top())
  {
    if s.locked {
      var p: nat :| Owner(s.Stack(), p) && Ends(s, s.Stack()[p]);
      OwnerIsTop(s.Stack(), p);
    }
  }

  /** A call that is behind its release has no lock below it. */
  lemma TopIsDone(s: State)
    requires Inv(s) && s.Stack() != [] && !Owes(s.Top()) && !Called(s.Top())
    ensures !s.locked
  {
    if s.locked {
      var p: nat :| Owner(s.Stack(), p) && Ends(s, s.Stack()[p]);
      OwnerIsTop(s.Stack(), p);
    }
  }

  /** The running lane's stack changes, and nothing that the others wait for. */
  lemma StackChanges(s: State, q: seq<Frame>)
    requires Inv(s)
    requires AllFit(q)
    requires s.locked ==> exists p: nat :: Owner(q, p) && Ends(s, q[p])
    requires !s.locked ==> NoOwner(q)
    ensures Inv(s.(stacks := s.stacks[s.active := q]))
  {
    var t := s.(stacks := s.stacks[s.active := q]);
    if s.locked {
      var p: nat :| Owner(q, p) && Ends(s, q[p]);
      assert Owner(t.Stack(), p) && Ends(t, t.Stack()[p]);
    }
  }

  lemma StepKeepsInv(s: State, e: Step)
    requires Inv(s) && Enabled(s, e)
    ensures Inv(Next(s, e))
  {
    match e
    case Call => CallKeepsInv(s);
    case Lock => LockKeepsInv(s);
    case Marshal(to, ready) => MarshalKeepsInv(s, to, ready);
    case Release => ReleaseKeepsInv(s);
    case Return => ReturnKeepsInv(s);
    case Rollback => TopIsDone(s); StackChanges(s, []);
    case _ =>
      TopOwes(s);
      var n, f := |s.Stack()| - 1, Next(s, e).Top();
      assert Owner(s.Stack()[n := f], n) && Ends(s, s.Stack()[n := f][n]);
      StackChanges(s, s.Stack()[n := f]);
  }

  lemma CallKeepsInv(s: State)
    requires Inv(s)
    ensures Inv(Next(s, Call))
  {
    var q := s.Stack() + [Frame(Entry, false)];
    if s.locked {
      var p: nat :| Owner(s.Stack(), p) && Ends(s, s.Stack()[p]);
      assert Owner(q, p) && Ends(s, q[p]);
    }
    StackChanges(s, q);
  }

  lemma LockKeepsInv(s: State)
    requires Inv(s) && Enabled(s, Lock)
    ensures Inv(Next(s, Lock))
  {
    var n := |s.Stack()| - 1;
    if s.locked {
      var p: nat :| Owner(s.Stack(), p) && Ends(s, s.Stack()[p]);
      var q := s.Stack()[n := Frame(Refused, s.Top().handed)];
      assert Owner(q, p) && Ends(s, q[p]);
      StackChanges(s, q);
    } else {
      var t := Next(s, Lock);
      PairedGrows(s.log, Take(s.active));
      assert Owner(t.Stack(), n) && Ends(t, t.Stack()[n]);
    }
  }

  lemma MarshalKeepsInv(s: State, to: nat, ready: bool)
    requires Inv(s) && Enabled(s, Marshal(to, ready))
    ensures Inv(Next(s, Marshal(to, ready)))
  {
    TopOwes(s);
    var n := |s.Stack()| - 1;
    if ready {
      var t := Next(s, Marshal(to, ready));
      PairedGrows(s.log, Switch(s.active, to));
      assert Waiting(t.stacks[s.active]);
      assert Waiting(t.Stack());
      assert Owner(t.Stack(), |t.Stack()| - 1) && Ends(t, t.Top());
    } else {
      var q := s.Stack()[n := Frame(Checking, s.Top().handed)];
      assert Owner(q, n) && Ends(s, q[n]);
      StackChanges(s, q);
    }
  }

  lemma ReleaseKeepsInv(s: State)
    requires Inv(s) && Enabled(s, Release)
    ensures Inv(Next(s, Release))
  {
    TopOwes(s);
    var t := Next(s, Release);
    PairedGrows(s.log, t.log[|s.log|]);
    assert AllFit(t.Stack()) && NoOwner(t.Stack());
  }

  lemma ReturnKeepsInv(s: State)
    requires Inv(s) && Enabled(s, Return)
    ensures Inv(Next(s, Return))
  {
    var q := s.Stack()[..|s.Stack()| - 1];
    if s.locked {
      var p: nat :| Owner(s.Stack(), p) && Ends(s, s.Stack()[p]);
      assert Owner(q, p) && Ends(s, q[p]);
    }
    StackChanges(s, q);
  }

  // ----------------------------------------------------------------------------------- Runs

  ghost predicate Runs(s: State, run: seq<Step>, t: State)
    decreases |run|
  {
    if run == [] then s == t else Enabled(s, run[0]) && Runs(Next(s, run[0]), run[1..], t)
  }

  lemma {:induction false} RunKeepsInv(s: State, run: seq<Step>, t: State)
    requires Inv(s) && Runs(s, run, t)
    ensures Inv(t)
    decreases |run|
  {
    if run != [] {
      StepKeepsInv(s, run[0]);
      RunKeepsInv(Next(s, run[0]), run[1..], t);
    }
  }

  lemma InitIsInv(s: State)
    requires Init(s)
    ensures Inv(s)
  {
    forall k | 0 < k < |s.stacks| ensures Waiting(s.stacks[k]) {
      assert Owner(s.stacks[k], 0);
    }
  }

  // ------------------------------------------------------------------ Lanes that start

  ghost predicate Began(log: seq<Event>, lane: nat) {
    exists j :: 0 <= j < |log| && log[j].Free? && log[j].lane == lane
  }

  /** Only the bottom of a stack may be seeded. */
  ghost predicate HasSeed(q: seq<Frame>) { q != [] && q[0].at == Seeded }

  ghost predicate OnlySeed(q: seq<Frame>) { forall i :: 0 < i < |q| ==> q[i].at != Seeded }

  /** new_exec makes the first release of every lane but the cranked one, and no other. */
  ghost predicate FirstIsNew(log: seq<Event>) {
    forall i :: 0 <= i < |log| && log[i].Free? ==>
      (log[i].who == NewExec <==> log[i].lane != 0 && !Began(log[..i], log[i].lane))
  }

  ghost predicate Seeds(s: State) {
    && s.Shaped() && FirstIsNew(s.log)
    && forall k :: 0 <= k < |s.stacks| ==>
         OnlySeed(s.stacks[k]) && (HasSeed(s.stacks[k]) <==> k != 0 && !Began(s.log, k))
  }

  lemma BeganGrows(log: seq<Event>, e: Event, lane: nat)
    ensures Began(log + [e], lane) <==> Began(log, lane) || (e.Free? && e.lane == lane)
  {
    if Began(log, lane) {
      var j :| 0 <= j < |log| && log[j].Free? && log[j].lane == lane;
      assert (log + [e])[j] == log[j];
    }
    if e.Free? && e.lane == lane {
      assert (log + [e])[|log|] == e;
    }
  }

  lemma FirstGrows(log: seq<Event>, e: Event)
    requires FirstIsNew(log) && (e.Free? ==> (e.who == NewExec <==> e.lane != 0 && !Began(log, e.lane)))
    ensures FirstIsNew(log + [e])
  {
    forall i | 0 <= i < |log| + 1 && (log + [e])[i].Free?
      ensures (log + [e])[i].who == NewExec <==>
              (log + [e])[i].lane != 0 && !Began((log + [e])[..i], (log + [e])[i].lane)
    {
      assert (log + [e])[..i] == log[..i];
      assert log[..|log|] == log;
    }
  }

  /** A release is new_exec's exactly in a lane that still has its seed. */
  lemma ReleaseOfSeed(s: State)
    requires Inv(s) && Enabled(s, Release) && OnlySeed(s.Stack())
    ensures s.In(Seeded) <==> HasSeed(s.Stack())
  {
    TopOwes(s);
  }

  lemma SeedsStay(s: State, e: Step)
    requires Inv(s) && Enabled(s, e) && OnlySeed(s.Stack())
    ensures var t := Next(s, e);
            && (forall k :: 0 <= k < |s.stacks| && k != s.active ==> t.stacks[k] == s.stacks[k])
            && OnlySeed(t.stacks[s.active])
            && (HasSeed(t.stacks[s.active]) <==> HasSeed(s.Stack()) && !(e.Release? && s.In(Seeded)))
  {
    match e
    case Rollback => TopIsDone(s);
    case Call =>
    case Return =>
    case _ =>
  }

  lemma StepKeepsSeeds(s: State, e: Step)
    requires Inv(s) && Seeds(s) && Enabled(s, e)
    ensures Seeds(Next(s, e))
  {
    var t := Next(s, e);
    SeedsStay(s, e);
    if e.Release? {
      ReleaseOfSeed(s);
    }
    LogOfStep(s, e);
    hide HasSeed, OnlySeed, Next, Inv, Began;
    if t.log != s.log {
      var event := t.log[|s.log|];
      forall k ensures Began(t.log, k) <==> Began(s.log, k) || (event.Free? && event.lane == k) {
        BeganGrows(s.log, event, k);
      }
      FirstGrows(s.log, event);
    }
  }

  lemma LogOfStep(s: State, e: Step)
    requires Enabled(s, e)
    ensures var t := Next(s, e);
            && |t.stacks| == |s.stacks| && t.Shaped()
            && (t.log != s.log ==> |t.log| == |s.log| + 1 && t.log == s.log + [t.log[|s.log|]])
            && (e.Release? ==> t.log == s.log + [Free(s.active, t.log[|s.log|].who)]
                               && (t.log[|s.log|].who == NewExec <==> s.In(Seeded)))
            && (!e.Release? && t.log != s.log ==> !t.log[|s.log|].Free?)
  {
  }

  lemma {:induction false} RunKeepsSeeds(s: State, run: seq<Step>, t: State)
    requires Inv(s) && Seeds(s) && Runs(s, run, t)
    ensures Inv(t) && Seeds(t)
    decreases |run|
  {
    if run != [] {
      StepKeepsInv(s, run[0]);
      StepKeepsSeeds(s, run[0]);
      RunKeepsSeeds(Next(s, run[0]), run[1..], t);
    }
  }

  // ------------------------------------------------------------------ The lock is never lost

  /** How many steps of its own a call is from a release. */
  function Steps(at: Point): nat {
    match at
    case Entry => 2
    case Refused => 1
    case Holding => 7
    case Marshalling => 6
    case Outside => 5
    case Checking => 4
    case Comparing => 3
    case Failed => 1
    case Freeing => 1
    case Unscheduled => 1
    case Seeded => 1
    case RollingBack => 0
    case Returning => 0
  }

  /** How many steps of its own a stack is from its owner's release. */
  function Rank(q: seq<Frame>): nat {
    if q == [] then 0
    else
      var n := |q| - 1;
      if Owes(q[n]) then Steps(q[n].at) else Steps(q[n].at) + Rank(q[..n])
  }

  /** While the lock is set the running lane's code can go on, and every step of it but a further call releases the
      lock or comes nearer to it, on whatever lane that is then. */
  lemma StepGoesOn(s: State, e: Step)
    requires Inv(s) && s.locked && Enabled(s, e) && !e.Call?
    ensures var t := Next(s, e);
            if t.locked then Rank(t.Stack()) < Rank(s.Stack())
            else |t.log| == |s.log| + 1 && t.log[|s.log|].Free?
  {
    var p: nat :| Owner(s.Stack(), p) && Ends(s, s.Stack()[p]);
    var n := |s.Stack()| - 1;
    OwnerIsTop(s.Stack(), p);
    var t := Next(s, e);
    if e.Lock? || e.Return? {
      assert t.Stack()[..n] == s.Stack()[..n];
    } else if e.Marshal? && e.ready && e.to != s.active {
      assert Waiting(s.stacks[e.to]);
    }
  }

  lemma SomeStep(s: State) returns (e: Step)
    requires Inv(s) && s.locked
    ensures Enabled(s, e) && !e.Call? && Rank(s.Stack()) > 0
  {
    var p: nat :| Owner(s.Stack(), p) && Ends(s, s.Stack()[p]);
    OwnerIsTop(s.Stack(), p);
    match s.Top().at
    case Entry => e := Lock;
    case Refused => e := Return;
    case Holding => e := Decide(Stay);
    case Marshalling => e := Marshal(s.active, false);
    case Outside => e := Resume;
    case Checking => e := Look(false);
    case Comparing => e := Compare(true);
    case _ => e := Release;
  }

  ghost predicate Frees(log: seq<Event>, n: nat) { exists i :: n <= i < |log| && log[i].Free? }

  lemma {:induction false} LogGrows(s: State, run: seq<Step>, t: State)
    requires Runs(s, run, t)
    ensures s.log <= t.log
    decreases |run|
  {
    if run != [] {
      LogGrows(Next(s, run[0]), run[1..], t);
    }
  }

  /** The lock is not lost: within Rank steps of whatever runs, not counting a timer that never lets it, a release. */
  lemma {:induction false} LockIsReleased(s: State, run: seq<Step>, t: State)
    requires Inv(s) && s.locked && Runs(s, run, t) && Call !in run && |run| >= Rank(s.Stack())
    ensures Frees(t.log, |s.log|)
    decreases |run|
  {
    var e := SomeStep(s);
    if run != [] {
      var u := Next(s, run[0]);
      assert run[0] in run;
      StepKeepsInv(s, run[0]);
      StepGoesOn(s, run[0]);
      LogGrows(u, run[1..], t);
      if u.locked {
        LockIsReleased(u, run[1..], t);
      } else {
        assert t.log[|s.log|] == u.log[|s.log|];
      }
    }
  }

  // ------------------------------------------------------------------ What a call may do

  /** A call that got the lock and stays looks at the transaction mark. With no transaction, or one that passes, it
      releases the lock itself and returns; with one that does not pass, checktx releases it and rolls the lane back. */
  lemma StayingCall(s: State, marked: bool, pass: bool)
    requires s.Shaped() && s.In(Holding) && !s.Top().handed
    ensures Enabled(s, Decide(Stay))
    ensures var t := Next(s, Decide(Stay));
            && Enabled(t, Look(marked)) && !Enabled(t, Release) && t.log == s.log
            && var u := Next(t, Look(marked));
               && (Enabled(u, Compare(pass)) <==> marked) && (Enabled(u, Release) <==> !marked) && u.log == s.log
               && var v := if marked then Next(u, Compare(pass)) else u;
                  && Enabled(v, Release)
                  && var w := Next(v, Release);
                     if marked && !pass then
                       && w.log == s.log + [Free(s.active, CheckTx)] && !Enabled(w, Return)
                       && Enabled(w, Rollback) && Next(w, Rollback).stacks[s.active] == []
                     else
                       && w.log == s.log + [Free(s.active, Same)] && Enabled(w, Return) && !Enabled(w, Rollback)
                       && Next(w, Return).stacks[s.active] == s.Stack()[..|s.Stack()| - 1]
  {
  }

  /** A call that is to yield is switched out exactly if the next zone is ready, and else goes on as one that stays; one
      for which there is nothing to schedule releases the lock at once. */
  lemma LeavingCall(s: State, to: nat, ready: bool)
    requires s.Shaped() && s.In(Holding) && !s.Top().handed && to < |s.stacks|
    ensures Enabled(s, Decide(Yield)) && Enabled(Next(s, Decide(Yield)), Marshal(to, ready))
    ensures var t := Next(Next(s, Decide(Yield)), Marshal(to, ready));
            if ready then t.log == s.log + [Switch(s.active, to)] && t.active == to
            else t == Next(s, Decide(Stay))
    ensures Enabled(s, Decide(Nothing)) && Enabled(Next(s, Decide(Nothing)), Release)
    ensures var u := Next(Next(s, Decide(Nothing)), Release);
            u.log == s.log + [Free(s.active, Same)] && Enabled(u, Return)
  {
    if !ready {
      var n := |s.Stack()| - 1;
      assert s.Stack()[n := s.Top().(at := Marshalling)][n := s.Top().(at := Checking)]
          == s.Stack()[n := s.Top().(at := Checking)];
      assert Next(Next(s, Decide(Yield)), Marshal(to, ready)).stacks == Next(s, Decide(Stay)).stacks;
    }
  }

  /** A call gets the lock if nobody has it, and else returns. A lane that is switched in goes on behind the switch. */
  lemma EnteringCall(s: State)
    requires s.Shaped()
    ensures Enabled(s, Call) && Enabled(Next(s, Call), Lock)
    ensures var t := Next(Next(s, Call), Lock);
            if s.locked then t.log == s.log && Enabled(t, Return) && Next(t, Return) == s
            else t.locked && t.log == s.log + [Take(s.active)] && t.In(Holding) && !t.Top().handed
    ensures s.In(Outside) ==> Enabled(s, Resume) && Next(s, Resume) == s.To(Checking)
  {
    if s.locked {
      assert Next(Next(Next(s, Call), Lock), Return).stacks == s.stacks;
    }
  }

  // ------------------------------------------------------------------ In every run

  /** Each take of the lock is paired with exactly one release, although free_xs asks nobody: the next event is a
      release by the same lane, in its call or in checktx before a rollback; or a switch, and after that a release by
      the lane switched to, in the call it was marshalled out of, in checktx, or, exactly at the first release of a
      lane that was seeded, in new_exec. Nothing else is ever released. */
  lemma EveryTakeIsReleasedOnce(s: State, run: seq<Step>, t: State, i: nat)
    requires Init(s) && Runs(s, run, t) && i < |t.log|
    ensures var e := t.log[i];
            match e
            case Take(_) => i == 0 || t.log[i - 1].Free?
            case Switch(lane, to) => i > 0 && t.log[i - 1] == Take(lane)
            case Free(lane, who) =>
              && i > 0
              && (t.log[i - 1] == Take(lane) ==> who in {Same, CheckTx})
              && (t.log[i - 1] != Take(lane) ==>
                    && t.log[i - 1].Switch? && t.log[i - 1].to == lane && who in {MarshalledIn, CheckTx, NewExec}
                    && (who == NewExec <==> lane != 0 && !Began(t.log[..i], lane)))
  {
    InitIsInv(s);
    RunKeepsSeeds(s, run, t);
    assert Follows(t.log, i);
  }

  /** The lock is set exactly between a take and its release, and then the running lane alone is inside a call that
      has a release to make; every other lane, once switched in, has one before it can do anything else. */
  lemma LockHasOneOwner(s: State, run: seq<Step>, t: State)
    requires Init(s) && Runs(s, run, t)
    ensures t.Shaped() && (t.locked <==> t.log != [] && !t.log[|t.log| - 1].Free?)
    ensures if t.locked then exists p: nat :: Owner(t.Stack(), p) else NoOwner(t.Stack())
    ensures forall k :: 0 <= k < |t.stacks| && k != t.active ==> Waiting(t.stacks[k])
  {
    InitIsInv(s);
    RunKeepsInv(s, run, t);
  }

  /** And it is always released, within as many steps as the running lane's stack says, unless further calls keep
      coming. */
  lemma LockIsNeverLost(s: State, run: seq<Step>, t: State, more: seq<Step>, u: State)
    requires Init(s) && Runs(s, run, t) && t.Shaped() && t.locked
    requires Runs(t, more, u) && Call !in more && |more| >= Rank(t.Stack())
    ensures Frees(u.log, |t.log|)
  {
    InitIsInv(s);
    RunKeepsInv(s, run, t);
    LockIsReleased(t, more, u);
  }
}
