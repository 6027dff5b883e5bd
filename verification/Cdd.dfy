/** CDD$: calls between secretariats. Each runs under its own certificate and is entered only when cleared. */
module Cdd {
  import opened Basics
  import opened Dispatches

  const XST_RPT: Byte := 0x10
  const XST_DNY: Byte := 0x15
  const XST_TLM: Byte := 0x18
  const XST_SYS: Byte := 0x1f

  /** The desk that telemetry sent to secretariat 0 goes to. */
  const TELEMETRY_DESK: Word := 0x8000

  /** A secretariat's operational certificate: its number, the security it asks of callers, the security it
      calls with, and whether it has a transaction account. */
  datatype Soc = Soc(sid: Word, usec: Word, dsec: Word, account: bool)

  datatype Zone = Ready | Warning | Local | Excursion

  datatype Code =
    | ZoneThreshold | LocalExcursion | ZoneExcursion | EmergencyLockdown | SysStub | EventContainment
    | NoAccount | NoTelcom | AccessDenied

  datatype Ticket = Report(code: Code) | Telemetry(sec: Word) | Other(data: int)

  datatype Stamp = Stamp(sid: Word, dsk: Word, sec: Word)

  /** A case file: the desk it is for, the type of its ticket, the ticket and the stamp. */
  datatype CaseFile = CaseFile(d: Word, s: Byte, t: Ticket, stamp: Stamp)

  /** What a desk does when it is entered, to the end: it overwrites its case file, calls other
      secretariats, and returns zero or a secretariat to be called in its turn. A call carries the state
      of the stack zone it is made in and what the desk it reaches does. */
  datatype Work =
    | Return
    | Kick(to: Word, zone: Zone, work: Work)
    | Write(cf: CaseFile, rest: Work)
    | Call(insec: Word, zone: Zone, work: Work, rest: Work)

  /** What ATRIA answers for a secretariat: its certificate, or a refusal. */
  datatype Answer = Certified(soc: Soc) | Refused(s: Byte, t: Ticket)

  /** A desk entered, or run as an event, with its case file as it found it; and a step of a desk's code, with the
      certificate it was entered under, the one in force, the case file before it, and all that is left to do. */
  datatype Event =
    | Entered(caller: Soc, callee: Soc, insec: Word, cf: CaseFile)
    | Began(desk: Soc, cf: CaseFile)
    | Acted(desk: Soc, cisec: Soc, cf: CaseFile, work: Work)

  /** The dispatch's status, the telemetry commissioner, and ATRIA's register. */
  datatype Env = Env(status: Byte, telcom: Word, registry: Word -> Answer)

  /** The certificate in force, the case file, whether the dispatch is in an event, whether it lives, and the
      history of what ran. */
  datatype State = State(cisec: Soc, cf: CaseFile, mark: bool, alive: bool, log: seq<Event>)

  /** What becomes of a call. */
  datatype Verdict =
    | Terminate(cf: CaseFile)
    | Deny(cf: CaseFile)
    | Idle
    | Transact
    | DryRun(soc: Soc, cf: CaseFile)
    | Enter(soc: Soc, to: Word, cf: CaseFile)

  // --------------------------------------------------------------------- What a call is to do

  function Refuse(cf: CaseFile, code: Code): CaseFile { cf.(s := XST_SYS, t := Report(code)) }

  /** Where a call goes: secretariat 0 stands for the telemetry commissioner. */
  function Target(e: Env, insec: Word): Word { if insec == 0 then e.telcom else insec }

  /** The case file as it goes out: what is sent to secretariat 0 goes to the telemetry desk, and a report
      becomes telemetry from the secretariat it is stamped with. */
  function Outgoing(cf: CaseFile, insec: Word): CaseFile {
    if insec != 0 then cf
    else if cf.s == XST_RPT then cf.(d := TELEMETRY_DESK, s := XST_TLM, t := Telemetry(cf.stamp.sid))
    else cf.(d := TELEMETRY_DESK)
  }

  /** The checks that come before any certificate is looked up: the case file of a call they stop. */
  function Screen(e: Env, s: State, zone: Zone): Option<CaseFile> {
    match zone
    case Warning => Some(Refuse(s.cf, ZoneThreshold).(d := 0))
    case Local => Some(Refuse(s.cf, LocalExcursion).(d := 0))
    case Excursion => Some(Refuse(s.cf, ZoneExcursion).(d := 0))
    case Ready =>
      if e.status == DS_EXEC_EMRG && s.cisec.sid > 0x000f then Some(Refuse(s.cf, EmergencyLockdown))
      else if e.status != DS_EXEC_EMRG && s.cf.s == XST_SYS then Some(Refuse(s.cf, SysStub))
      else if s.mark then Some(Refuse(s.cf, EventContainment))
      else None
  }

  function Judge(e: Env, s: State, insec: Word, zone: Zone): Verdict {
    var stopped := Screen(e, s, zone);
    if stopped.Some? then (if zone == Excursion then Terminate(stopped.value) else Deny(stopped.value))
    else if e.status == DS_EXEC_IDLE then Idle
    else if insec == s.cisec.sid then (if s.cisec.account then Transact else Deny(Refuse(s.cf, NoAccount)))
    else if Target(e, insec) == 0 then Deny(Refuse(s.cf, NoTelcom))
    else
      var to, out := Target(e, insec), Outgoing(s.cf, insec);
      match e.registry(to)
      case Refused(rs, rt) =>
        if e.status >= DS_EXEC_OP then DryRun(s.cisec, out)
        else if to != e.telcom then Deny(out.(s := rs, t := rt))
        else Deny(Refuse(out, NoTelcom))
      case Certified(soc) =>
        if e.status >= DS_EXEC_OP then DryRun(soc, out)
        else if soc.usec > s.cisec.dsec && !(to == e.telcom && out.s == XST_TLM) then
          Deny(out.(s := XST_DNY, t := Report(AccessDenied)))
        else
          var from := if s.cisec.sid != 0 then s.cisec.sid else soc.sid;
          Enter(soc, to, out.(stamp := Stamp(from, out.stamp.dsk, s.cisec.dsec)))
  }

  /** A call, with what all desks below it do. */
  function CallTo(e: Env, s: State, insec: Word, zone: Zone, work: Work): State
    decreases work, 1
  {
    match Judge(e, s, insec, zone)
    case Terminate(cf) => s.(cf := cf, alive := false)
    case Deny(cf) => s.(cf := cf)
    case Idle => s
    case DryRun(soc, cf) => s.(cisec := soc, cf := cf)
    case Transact =>
      var cf := s.cf.(stamp := s.cf.stamp.(sid := s.cisec.sid, sec := s.cisec.dsec));
      var t := Run(e, s.(cf := cf, mark := true, log := s.log + [Began(s.cisec, cf)]), s.cisec, work);
      if t.alive then t.(mark := false, cf := t.cf.(d := s.cf.d)) else t
    case Enter(soc, to, cf) =>
      var t := Run(e, s.(cisec := soc, cf := cf, log := s.log + [Entered(s.cisec, soc, to, cf)]), soc, work);
      if t.alive then
        t.(cisec := s.cisec, cf := t.cf.(d := cf.d, stamp := if to == e.telcom then Stamp(0, 0, 0) else t.cf.stamp))
      else t
  }

  /** The code of a desk, from `work` on. A secretariat it returns is called before anything is restored;
      in an event what it returns is dropped. */
  function Run(e: Env, s: State, desk: Soc, work: Work): State
    decreases work, 0
  {
    var t := s.(log := s.log + [Acted(desk, s.cisec, s.cf, work)]);
    match work
    case Return => t
    case Kick(to, zone, next) => if to != 0 && !t.mark then CallTo(e, t, to, zone, next) else t
    case Write(cf, rest) => Run(e, t.(cf := cf), desk, rest)
    case Call(insec, zone, next, rest) =>
      var u := CallTo(e, t, insec, zone, next);
      if u.alive then Run(e, u, desk, rest) else u
  }

  // --------------------------------------------------------------------- What every call keeps

  /** An event is lawful if a desk is entered only when cleared, or with telemetry for the telemetry
      commissioner, under the stamp of its immediate caller (its own where the caller has no number), and
      if a desk's code runs only under the certificate it was entered with. */
  predicate Lawful(telcom: Word, e: Event) {
    match e
    case Entered(caller, callee, insec, cf) =>
      && (callee.usec <= caller.dsec || (insec == telcom && cf.s == XST_TLM))
      && cf.stamp.sid == (if caller.sid != 0 then caller.sid else callee.sid)
      && cf.stamp.sec == caller.dsec
    case Began(desk, cf) => desk.account && cf.stamp.sid == desk.sid && cf.stamp.sec == desk.dsec
    case Acted(desk, cisec, _, _) => desk == cisec
  }

  /** t continues s lawfully, and, if the dispatch lives, under the certificate that was in force. */
  ghost predicate Continues(e: Env, s: State, t: State) {
    && s.log <= t.log && (forall i :: |s.log| <= i < |t.log| ==> Lawful(e.telcom, t.log[i]))
    && (t.alive ==> t.cisec == s.cisec && t.mark == s.mark)
  }

  /** For every finite tree of calls, whatever its desks do, a call that returns has restored the certificate
      in force, and everything that ran meanwhile was lawful. */
  lemma {:induction false} CallContinues(e: Env, s: State, insec: Word, zone: Zone, work: Work)
    requires s.alive && (e.status < DS_EXEC_OP || s.mark)
    ensures Continues(e, s, CallTo(e, s, insec, zone, work))
    decreases work, 1
  {
    match Judge(e, s, insec, zone)
    case Transact =>
      var cf := s.cf.(stamp := s.cf.stamp.(sid := s.cisec.sid, sec := s.cisec.dsec));
      RunContinues(e, s.(cf := cf, mark := true, log := s.log + [Began(s.cisec, cf)]), s.cisec, work);
    case Enter(soc, to, cf) =>
      RunContinues(e, s.(cisec := soc, cf := cf, log := s.log + [Entered(s.cisec, soc, to, cf)]), soc, work);
    case _ =>
  }

  lemma {:induction false} RunContinues(e: Env, s: State, desk: Soc, work: Work)
    requires s.alive && s.cisec == desk && (e.status < DS_EXEC_OP || s.mark)
    ensures Continues(e, s, Run(e, s, desk, work))
    decreases work, 0
  {
    var t := s.(log := s.log + [Acted(desk, s.cisec, s.cf, work)]);
    match work
    case Return =>
    case Kick(to, zone, next) =>
      if to != 0 && !t.mark {
        CallContinues(e, t, to, zone, next);
      }
    case Write(cf, rest) => RunContinues(e, t.(cf := cf), desk, rest);
    case Call(insec, zone, next, rest) =>
      CallContinues(e, t, insec, zone, next);
      var u := CallTo(e, t, insec, zone, next);
      if u.alive {
        RunContinues(e, u, desk, rest);
      }
  }

  /** Past the first checks, a call of a dispatch that no executor runs enters its desk if and only if it is
      for a certified other secretariat that the caller is cleared for, or brings telemetry to the commissioner. */
  lemma EntersIffCleared(e: Env, s: State, insec: Word, zone: Zone)
    requires e.status < DS_EXEC_OP && Screen(e, s, zone) == None
    ensures Judge(e, s, insec, zone).Enter? <==>
            && insec != s.cisec.sid && Target(e, insec) != 0 && e.registry(Target(e, insec)).Certified?
            && (e.registry(Target(e, insec)).soc.usec <= s.cisec.dsec
                || (Target(e, insec) == e.telcom && Outgoing(s.cf, insec).s == XST_TLM))
  {
  }

  /** A report sent to secretariat 0 reaches a certified commissioner whatever its clearance. */
  lemma ReportsReachTelcom(e: Env, s: State)
    requires e.status < DS_EXEC_OP && Screen(e, s, Ready) == None && s.cisec.sid != 0
    requires e.telcom != 0 && e.registry(e.telcom).Certified? && s.cf.s == XST_RPT
    ensures Judge(e, s, 0, Ready).Enter? && Judge(e, s, 0, Ready).cf.t == Telemetry(s.cf.stamp.sid)
  {
  }

  /** The desk number a caller had is back when its call returns, unless the call was to secretariat 0 and
      got as far as the register. */
  lemma DeskRestoredUnless(e: Env, s: State, insec: Word, zone: Zone, work: Work)
    requires s.alive && e.status < DS_EXEC_OP && Screen(e, s, zone) == None && CallTo(e, s, insec, zone, work).alive
    ensures var d := CallTo(e, s, insec, zone, work).cf.d;
            d == if insec == 0 && s.cisec.sid != 0 && e.telcom != 0 then TELEMETRY_DESK else s.cf.d
  {
  }

  /** An executor's dry run loads the client's certificate, unless that is the one already in force: the
      call then counts as a transaction event. */
  lemma DryRunIff(e: Env, s: State, client: Word)
    requires e.status == DS_EXEC_OP && Screen(e, s, Ready) == None && client != 0
    ensures Judge(e, s, client, Ready).DryRun? <==> client != s.cisec.sid
    ensures Judge(e, s, client, Ready) == Transact <==> client == s.cisec.sid && s.cisec.account
  {
  }

  // --------------------------------------------------------------------- What runs, by the log alone

  /** The checks on the zone, the stubs and the event containment that every call goes through first. */
  predicate Passes(e: Env, caller: Soc, cf: CaseFile, event: bool, zone: Zone) {
    && zone == Ready && !event
    && (if e.status == DS_EXEC_EMRG then caller.sid <= 0x000f else cf.s != XST_SYS)
  }

  /** The call enters the desk of another secretariat: of a certified one, which asks for no more security than the
      caller has, or of the telemetry commissioner with telemetry, or a report that becomes telemetry. */
  predicate Reaches(e: Env, caller: Soc, cf: CaseFile, event: bool, insec: Word, zone: Zone) {
    && Passes(e, caller, cf, event, zone) && e.status < DS_EXEC_OP && insec != caller.sid
    && var to := if insec == 0 then e.telcom else insec;
       && to != 0
       && match e.registry(to)
          case Refused(_, _) => false
          case Certified(soc) =>
            soc.usec <= caller.dsec
            || (to == e.telcom && (cf.s == XST_TLM || (insec == 0 && cf.s == XST_RPT)))
  }

  /** The call is one to oneself, with an account to have an event on. */
  predicate Begins(e: Env, caller: Soc, cf: CaseFile, event: bool, insec: Word, zone: Zone) {
    Passes(e, caller, cf, event, zone) && e.status != DS_EXEC_IDLE && insec == caller.sid && caller.account
  }

  /** The case file that a called desk finds: that of the caller under its stamp, and, if it goes to secretariat 0, for
      the telemetry desk, a report as telemetry. */
  ghost predicate Delivered(caller: Soc, callee: Soc, cf: CaseFile, insec: Word, found: CaseFile) {
    && found.stamp == Stamp(if caller.sid != 0 then caller.sid else callee.sid, cf.stamp.dsk, caller.dsec)
    && (insec != 0 ==> found.d == cf.d && found.s == cf.s && found.t == cf.t)
    && (insec == 0 ==>
          && found.d == TELEMETRY_DESK
          && (if cf.s == XST_RPT then found.s == XST_TLM && found.t == Telemetry(cf.stamp.sid)
              else found.s == cf.s && found.t == cf.t))
  }

  /** From i to j the log is that of a call: of the desk it reaches, of its own event, or of nothing. Only a call in the
      zone of excursion ends the dispatch. */
  ghost predicate Calls(e: Env, log: seq<Event>, i: nat, j: nat, caller: Soc, cf: CaseFile, event: bool, insec: Word,
                        zone: Zone, work: Work, alive: bool)
    decreases work, 2
  {
    if zone == Excursion then i == j && !alive
    else if Reaches(e, caller, cf, event, insec, zone) then
      && i + 1 < j <= |log| && log[i].Entered? && log[i].caller == caller
      && log[i].insec == (if insec == 0 then e.telcom else insec)
      && e.registry(log[i].insec) == Certified(log[i].callee)
      && Delivered(caller, log[i].callee, cf, insec, log[i].cf)
      && log[i + 1].Acted? && log[i + 1].cf == log[i].cf
      && Performs(e, log, i + 1, j, log[i].callee, false, work, alive)
    else if Begins(e, caller, cf, event, insec, zone) then
      && i + 1 < j <= |log| && log[i].Began? && log[i].desk == caller
      && log[i].cf == cf.(stamp := Stamp(caller.sid, cf.stamp.dsk, caller.dsec))
      && log[i + 1].Acted? && log[i + 1].cf == log[i].cf
      && Performs(e, log, i + 1, j, caller, true, work, alive)
    else i == j && alive
  }

  /** From i to j the log is that of a desk's work, done in order under its own certificate to its end, or until the
      dispatch ends: each of its calls is made, and the secretariat it returns is called, unless in an event. */
  ghost predicate Performs(e: Env, log: seq<Event>, i: nat, j: nat, desk: Soc, event: bool, work: Work, alive: bool)
    decreases work, 1
  {
    && i < j <= |log| && log[i].Acted? && log[i].desk == log[i].cisec == desk && log[i].work == work
    && match work
       case Return => j == i + 1 && alive
       case Kick(to, zone, next) =>
         if to == 0 || event then j == i + 1 && alive
         else Calls(e, log, i + 1, j, desk, log[i].cf, event, to, zone, next, alive)
       case Write(cf, rest) =>
         && i + 1 < j && log[i + 1].Acted? && log[i + 1].cf == cf
         && Performs(e, log, i + 1, j, desk, event, rest, alive)
       case Call(_, _, _, _) =>
         exists k: nat, lives: bool :: Resumes(e, log, i, k, j, desk, event, work, lives, alive)
  }

  /** Up to k the log is that of the call at i, and from there on, if the dispatch lives, of the rest of the work. */
  ghost predicate Resumes(e: Env, log: seq<Event>, i: nat, k: nat, j: nat, desk: Soc, event: bool, work: Work,
                          lives: bool, alive: bool)
    requires i < |log| && log[i].Acted? && work.Call?
    decreases work, 0
  {
    && i + 1 <= k <= j
    && Calls(e, log, i + 1, k, desk, log[i].cf, event, work.insec, work.zone, work.work, lives)
    && if lives then Performs(e, log, k, j, desk, event, work.rest, alive) else k == j && !alive
  }

  /** What comes behind does not matter. */
  lemma {:induction false} CallsLater(e: Env, log: seq<Event>, more: seq<Event>, i: nat, j: nat, caller: Soc,
                                      cf: CaseFile, event: bool, insec: Word, zone: Zone, work: Work, alive: bool)
    requires Calls(e, log, i, j, caller, cf, event, insec, zone, work, alive)
    ensures Calls(e, log + more, i, j, caller, cf, event, insec, zone, work, alive)
    decreases work, 1
  {
    if zone == Excursion {
    } else if Reaches(e, caller, cf, event, insec, zone) {
      PerformsLater(e, log, more, i + 1, j, log[i].callee, false, work, alive);
    } else if Begins(e, caller, cf, event, insec, zone) {
      PerformsLater(e, log, more, i + 1, j, caller, true, work, alive);
    }
  }

  lemma {:induction false} PerformsLater(e: Env, log: seq<Event>, more: seq<Event>, i: nat, j: nat, desk: Soc,
                                         event: bool, work: Work, alive: bool)
    requires Performs(e, log, i, j, desk, event, work, alive)
    ensures Performs(e, log + more, i, j, desk, event, work, alive)
    decreases work, 0
  {
    match work
    case Return =>
    case Kick(to, zone, next) =>
      if to != 0 && !event {
        CallsLater(e, log, more, i + 1, j, desk, log[i].cf, event, to, zone, next, alive);
      }
    case Write(cf, rest) => PerformsLater(e, log, more, i + 1, j, desk, event, rest, alive);
    case Call(insec, zone, next, rest) =>
      var k: nat, lives: bool :| Resumes(e, log, i, k, j, desk, event, work, lives, alive);
      CallsLater(e, log, more, i + 1, k, desk, log[i].cf, event, insec, zone, next, lives);
      if lives {
        PerformsLater(e, log, more, k, j, desk, event, rest, alive);
      }
      assert Resumes(e, log + more, i, k, j, desk, event, work, lives, alive);
  }

  /** The log of every finite tree of calls is exactly what its works ask for: all that is to run runs, in order, and
      nothing else. */
  lemma {:induction false} CallRuns(e: Env, s: State, insec: Word, zone: Zone, work: Work)
    requires s.alive && (e.status < DS_EXEC_OP || s.mark)
    ensures var t := CallTo(e, s, insec, zone, work);
            && s.log <= t.log
            && Calls(e, t.log, |s.log|, |t.log|, s.cisec, s.cf, s.mark, insec, zone, work, t.alive)
    decreases work, 1
  {
    hide Run, Performs;
    var verdict, t := Judge(e, s, insec, zone), CallTo(e, s, insec, zone, work);
    if verdict.Transact? {
      var cf := s.cf.(stamp := s.cf.stamp.(sid := s.cisec.sid, sec := s.cisec.dsec));
      DeskRuns(e, s.(cf := cf, mark := true, log := s.log + [Began(s.cisec, cf)]), s.cisec, work);
    } else if verdict.Enter? {
      var entered := s.log + [Entered(s.cisec, verdict.soc, verdict.to, verdict.cf)];
      DeskRuns(e, s.(cisec := verdict.soc, cf := verdict.cf, log := entered), verdict.soc, work);
    }
  }

  lemma {:induction false} DeskRuns(e: Env, s: State, desk: Soc, work: Work)
    requires s.alive && s.cisec == desk && (e.status < DS_EXEC_OP || s.mark)
    ensures var t := Run(e, s, desk, work);
            && s.log <= t.log && |s.log| < |t.log| && t.log[|s.log|] == Acted(desk, desk, s.cf, work)
            && Performs(e, t.log, |s.log|, |t.log|, desk, s.mark, work, t.alive)
    decreases work, 0
  {
    hide CallTo, Calls, Judge, Lawful;
    var i, t := |s.log|, s.(log := s.log + [Acted(desk, s.cisec, s.cf, work)]);
    match work
    case Return =>
    case Kick(to, zone, next) =>
      if to != 0 && !t.mark {
        CallRuns(e, t, to, zone, next);
      }
    case Write(cf, rest) => DeskRuns(e, t.(cf := cf), desk, rest);
    case Call(insec, zone, next, rest) =>
      CallRuns(e, t, insec, zone, next);
      CallContinues(e, t, insec, zone, next);
      var u := CallTo(e, t, insec, zone, next);
      var v := if u.alive then Run(e, u, desk, rest) else u;
      if u.alive {
        DeskRuns(e, u, desk, rest);
        var more := v.log[|u.log|..];
        assert v.log == u.log + more;
        CallsLater(e, u.log, more, i + 1, |u.log|, desk, s.cf, s.mark, insec, zone, next, true);
      }
      assert Resumes(e, v.log, i, |u.log|, |v.log|, desk, s.mark, work, u.alive, v.alive);
  }

  // --------------------------------------------------------------------- What a call that does not get through leaves

  /** The case file with a report from the system. */
  predicate Reported(was: CaseFile, cf: CaseFile, code: Code) {
    cf == was.(s := XST_SYS, t := Report(code))
  }

  /** What stops a call before it is looked at says why, and nothing else changes: first the zones, which also clear the
      desk number, and of which excursion ends the dispatch; then the lockdown, the stubs and the event. */
  lemma StoppedTellsWhy(e: Env, s: State, insec: Word, zone: Zone, work: Work)
    requires !Passes(e, s.cisec, s.cf, s.mark, zone)
    ensures var t := CallTo(e, s, insec, zone, work);
            && t == s.(cf := t.cf, alive := if zone == Excursion then false else s.alive)
            && (zone == Warning ==> Reported(s.cf.(d := 0), t.cf, ZoneThreshold))
            && (zone == Local ==> Reported(s.cf.(d := 0), t.cf, LocalExcursion))
            && (zone == Excursion ==> Reported(s.cf.(d := 0), t.cf, ZoneExcursion))
            && (zone == Ready && e.status == DS_EXEC_EMRG && s.cisec.sid > 0x000f ==>
                  Reported(s.cf, t.cf, EmergencyLockdown))
            && (zone == Ready && e.status != DS_EXEC_EMRG && s.cf.s == XST_SYS ==> Reported(s.cf, t.cf, SysStub))
            && (zone == Ready && Passes(e, s.cisec, s.cf, false, zone) ==> Reported(s.cf, t.cf, EventContainment))
  {
  }

  /** A call that reaches no desk and begins no event says why: there is no account, no telemetry commissioner, what
      ATRIA answered, or that the caller is not cleared. The idle executor's changes nothing. */
  lemma RefusedTellsWhy(e: Env, s: State, insec: Word, work: Work)
    requires e.status < DS_EXEC_OP || e.status == DS_EXEC_IDLE
    requires Passes(e, s.cisec, s.cf, s.mark, Ready)
    requires !Reaches(e, s.cisec, s.cf, s.mark, insec, Ready) && !Begins(e, s.cisec, s.cf, s.mark, insec, Ready)
    ensures var t := CallTo(e, s, insec, Ready, work);
            var to := if insec == 0 then e.telcom else insec;
            && t == s.(cf := t.cf)
            && if e.status == DS_EXEC_IDLE then t == s
               else if insec == s.cisec.sid then Reported(s.cf, t.cf, NoAccount)
               else if to == 0 then Reported(s.cf, t.cf, NoTelcom)
               else
                 && t.cf.stamp == s.cf.stamp && t.cf.d == (if insec == 0 then TELEMETRY_DESK else s.cf.d)
                 && match e.registry(to)
                    case Refused(rs, rt) =>
                      if to == e.telcom then t.cf.s == XST_SYS && t.cf.t == Report(NoTelcom)
                      else t.cf.s == rs && t.cf.t == rt
                    case Certified(_) => t.cf.s == XST_DNY && t.cf.t == Report(AccessDenied)
  {
  }

  /** When a call that has reached its desk returns, the desk number is as it went out, and the commissioner's stamp is
      gone; when an event ends, the desk number is the caller's. */
  lemma ReturnedAsSent(e: Env, s: State, insec: Word, work: Work)
    requires s.alive && CallTo(e, s, insec, Ready, work).alive
    ensures var t := CallTo(e, s, insec, Ready, work);
            && (Reaches(e, s.cisec, s.cf, s.mark, insec, Ready) ==>
                  && t.cf.d == (if insec == 0 then TELEMETRY_DESK else s.cf.d) && t.cisec == s.cisec
                  && ((if insec == 0 then e.telcom else insec) == e.telcom ==> t.cf.stamp == Stamp(0, 0, 0)))
            && (Begins(e, s.cisec, s.cf, s.mark, insec, Ready) ==> t.cf.d == s.cf.d && !t.mark)
  {
  }

  /** What an executor's dry run loads: the certificate of the client, if it has one, and the case file made ready. */
  lemma DryRunLoads(e: Env, s: State, insec: Word, work: Work)
    requires e.status >= DS_EXEC_OP && e.status != DS_EXEC_IDLE && Passes(e, s.cisec, s.cf, s.mark, Ready)
    requires insec != s.cisec.sid && (insec != 0 || e.telcom != 0)
    ensures var t, to := CallTo(e, s, insec, Ready, work), if insec == 0 then e.telcom else insec;
            && t == s.(cisec := t.cisec, cf := t.cf) && t.cf.stamp == s.cf.stamp
            && t.cisec == (match e.registry(to) case Certified(soc) => soc case Refused(_, _) => s.cisec)
            && (insec != 0 ==> t.cf == s.cf)
            && (insec == 0 ==> t.cf.d == TELEMETRY_DESK)
  {
  }

  // --------------------------------------------------------------------- In place

  /** The supervisor file of one dispatch, with its case file and its transaction mark. */
  class Super {
    var cisec: Soc
    var cosec: Soc
    var cf: CaseFile
    var mark: bool
    const env: Env
    ghost var log: seq<Event>

    constructor (cisec: Soc, cf: CaseFile, env: Env)
      ensures Now(true) == State(cisec, cf, false, true, []) && this.env == env
    {
      this.cisec, this.cosec, this.cf, this.env, mark, log := cisec, cisec, cf, env, false, [];
    }

    ghost function Now(alive: bool): State
      reads this
    {
      State(cisec, cf, mark, alive, log)
    }

    /** opsec_cdd: a call that the dispatch survives returns. */
    method OpsecCdd(insec: Word, zone: Zone, work: Work) returns (alive: bool)
      modifies this
      ensures Now(alive) == CallTo(env, old(Now(true)), insec, zone, work)
      decreases work, 3
    {
      alive := true;
      match zone {
        case Ready =>
        case Warning => cf := cf.(d := 0, s := XST_SYS, t := Report(ZoneThreshold)); return;
        case Local => cf := cf.(d := 0, s := XST_SYS, t := Report(LocalExcursion)); return;
        case Excursion => cf := cf.(d := 0, s := XST_SYS, t := Report(ZoneExcursion)); return false;
      }
      if env.status == DS_EXEC_EMRG {
        if cisec.sid > 0x000f {
          cf := Refuse(cf, EmergencyLockdown);
          return;
        }
      } else if cf.s == XST_SYS {
        cf := cf.(t := Report(SysStub));
        return;
      }
      if mark {
        cf := Refuse(cf, EventContainment);
        return;
      }
      if env.status == DS_EXEC_IDLE {
        return;
      }
      if insec == cisec.sid {
        alive := OwnEvent(insec, work);
      } else {
        alive := Transfer(insec, work);
      }
    }

    /** A call to oneself, which is a request for a transaction event. */
    method OwnEvent(insec: Word, work: Work) returns (alive: bool)
      requires Screen(env, Now(true), Ready) == None && env.status != DS_EXEC_IDLE && insec == cisec.sid
      modifies this
      ensures Now(alive) == CallTo(env, old(Now(true)), insec, Ready, work)
      decreases work, 2
    {
      if !cisec.account {
        cf := Refuse(cf, NoAccount);
        return true;
      }
      cf := cf.(stamp := cf.stamp.(sid := cisec.sid, sec := cisec.dsec));
      var popdesk := cf.d;
      mark := true;
      log := log + [Began(cisec, cf)];
      alive := Desk(cisec, work);
      if alive {
        mark := false;
        cf := cf.(d := popdesk);
      }
    }

    /** Makes the case file ready to go out. */
    method Address(insec: Word) returns (to: Word)
      modifies `cf
      ensures to == Target(env, insec)
      ensures cf == if to == 0 then Refuse(old(cf), NoTelcom) else Outgoing(old(cf), insec)
    {
      to := insec;
      if to == 0 {
        to := env.telcom;
        if to == 0 {
          cf := Refuse(cf, NoTelcom);
          return;
        }
        cf := cf.(d := TELEMETRY_DESK);
        if cf.s == XST_RPT {
          cf := cf.(s := XST_TLM, t := Telemetry(cf.stamp.sid));
        }
      }
    }

    /** Stamps the case file and runs the desk of the certificate just loaded, between a push and a pop. */
    method Execute(to: Word, work: Work) returns (alive: bool)
      modifies this
      ensures var s := old(State(cosec, cf, mark, true, log));
              var sid := if s.cisec.sid != 0 then s.cisec.sid else old(cisec.sid);
              var out := s.cf.(stamp := Stamp(sid, s.cf.stamp.dsk, s.cisec.dsec));
              var entered := Entered(s.cisec, old(cisec), to, out);
              var t := Run(env, State(old(cisec), out, s.mark, true, s.log + [entered]), old(cisec), work);
              Now(alive) == if t.alive then
                t.(cisec := s.cisec,
                   cf := t.cf.(d := out.d, stamp := if to == env.telcom then Stamp(0, 0, 0) else t.cf.stamp))
              else t
      decreases work, 1
    {
      var popsec, popop := cosec, cf.d;
      cf := cf.(stamp := Stamp(if cosec.sid != 0 then cosec.sid else cisec.sid, cf.stamp.dsk, cosec.dsec));
      log := log + [Entered(cosec, cisec, to, cf)];
      alive := Desk(cisec, work);
      if alive {
        cisec := popsec;
        cf := cf.(d := popop);
        if to == env.telcom {
          cf := cf.(stamp := Stamp(0, 0, 0));
        }
      }
    }

    /** A call to another secretariat, past the first checks. */
    method Transfer(insec: Word, work: Work) returns (alive: bool)
      requires Screen(env, Now(true), Ready) == None && env.status != DS_EXEC_IDLE && insec != cisec.sid
      modifies this
      ensures Now(alive) == CallTo(env, old(Now(true)), insec, Ready, work)
      decreases work, 2
    {
      alive := true;
      var to := Address(insec);
      if to == 0 {
        return;
      }
      cosec := cisec;
      var popsec := cisec;
      var scase := env.registry(to);
      if scase.Certified? {
        cisec := scase.soc;
      }
      if env.status >= DS_EXEC_OP {
        return;
      }
      if scase.Refused? {
        cf := if to != env.telcom then cf.(s := scase.s, t := scase.t) else Refuse(cf, NoTelcom);
        cisec := popsec;
        return;
      }
      if cisec.usec > cosec.dsec && !(to == env.telcom && cf.s == XST_TLM) {
        cf := cf.(s := XST_DNY, t := Report(AccessDenied));
        cisec := popsec;
        return;
      }
      alive := Execute(to, work);
    }

    /** The code of a desk. */
    method Desk(desk: Soc, work: Work) returns (alive: bool)
      modifies this
      ensures Now(alive) == Run(env, old(Now(true)), desk, work)
      decreases work, 0
    {
      log := log + [Acted(desk, cisec, cf, work)];
      match work
      case Return => alive := true;
      case Kick(to, zone, next) =>
        alive := true;
        if to != 0 && !mark {
          alive := OpsecCdd(to, zone, next);
        }
      case Write(written, rest) =>
        cf := written;
        alive := Desk(desk, rest);
      case Call(insec, zone, next, rest) =>
        alive := OpsecCdd(insec, zone, next);
        if alive {
          alive := Desk(desk, rest);
        }
    }
  }
}
