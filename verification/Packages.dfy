/** What a registration asks of the simulator behind its overlays, and what that makes of each word of the image. */
module Packages {
  import opened Basics
  import opened Layout
  import R = Reloc

  const INTR_MAX: nat := 25
  const FLATLINE_SID: Word := 1
  const ATRIA_SID: Word := 2

  /** Words of the interrupt service table. */
  const SISR_TABLE: nat := 65

  function TableSpan(top: nat): Span { Span(top, top + SISR_TABLE - 1) }

  function JumpSpan(at: nat): Span { Span(at, at + 1) }

  /** Where a package is commissioned: where its text and its partitions start, where the register's first block is,
      and the interrupt service table. */
  datatype Site = Site(exe: nat, op1: nat, alpha: nat, top: nat)
  {
    function Base(): R.Base { R.Base(exe, op1) }
  }

  /** A relocated immediate, jump, or word; two instructions that load the address of the register or of the table; an
      interrupt handler; where OPSEC's jump to FLATLINE or ATRIA is; and the dispatch desk of the secretariat. */
  datatype Commission =
    | Imm(offset: nat, kind: R.Kind, ref: R.Commission)
    | Jmp(offset: nat, ref: R.Commission)
    | Mod(offset: nat, form: R.Form, ref: R.Commission)
    | Link(toTable: bool, offset: nat)
    | Isr(intr: Byte, offset: nat, office: Word)
    | JumpPoint(toFlatline: bool, offset: nat)
    | Desk(offset: nat)

  datatype Job = Job(sid: Word, p: Package, text: seq<Word>, data: seq<Word>, commissions: seq<Commission>,
                     record: seq<Word>)

  /** What the image's header says: OPSEC's jumps, the table if there is one, and the slots these have been in. */
  datatype Header = Header(flatline: nat, atria: nat, table: Option<nat>, slots: set<Span>)
  {
    /** The words that a later registration may write. */
    function Open(): set<Span> {
      slots + {JumpSpan(flatline), JumpSpan(atria)} + if table.Some? then {TableSpan(table.value)} else {}
    }

    function Jump(toFlatline: bool): nat { if toFlatline then flatline else atria }

    /** All that is open lies below an address. */
    ghost predicate Below(off: nat) { forall s :: s in Open() ==> s.lo <= s.hi < off }
  }

  /** A header that says nothing. */
  const BLANK: Header := Header(0, 0, None, {})

  /** The endpoint of a commission lies in the text, and an interrupt entry in the table. */
  ghost predicate Within(c: Commission, p: Package) {
    match c
    case Imm(offset, _, _) => offset <= p.text
    case Jmp(offset, ref) => offset + 1 <= p.text && (ref.part == R.Exe ==> ref.ref >= 0)
    case Mod(offset, _, _) => offset <= p.text
    case Link(_, offset) => offset + 1 <= p.text
    case Isr(intr, _, _) => intr <= INTR_MAX
    case JumpPoint(_, offset) => offset + 1 <= p.text
    case Desk(_) => true
  }

  function Endpoint(c: Commission): nat {
    match c
    case Imm(offset, _, _) => offset
    case Jmp(offset, _) => offset
    case Mod(offset, _, _) => offset
    case Link(_, offset) => offset
    case JumpPoint(_, offset) => offset
    case _ => 0
  }

  /** Whether a commission is carried out, from the word at its endpoint. */
  predicate Accepts(c: Commission, sid: Word, w: Word) {
    match c
    case Imm(_, _, ref) => R.TakesImmediate(w) && ref.part != R.Nul
    case Jmp(_, ref) => R.IsJump(w) && ref.part == R.Exe && ref.annex == None
    case Mod(_, _, ref) => ref.part != R.Nul
    case Link(_, _) => sid <= 2
    case Isr(_, _, _) => sid != 0
    case JumpPoint(_, _) => sid <= 2
    case Desk(_) => true
  }

  /** Byte m of the table once an entry is in. */
  function EntryByte(intr: Byte, entry: seq<Byte>, m: nat, was: Byte): Byte
    requires |entry| == 5
  {
    if 5 * intr <= m < 5 * intr + 5 then entry[m - 5 * intr] else was
  }

  function Pair(low: Byte, high: Byte): Word { high * 0x100 + low }

  lemma PairSplits(low: Byte, high: Byte)
    ensures Pair(low, high) % 0x100 == low && Pair(low, high) / 0x100 == high
  {
  }

  /** Word k of the table once an entry is in. */
  function Entered(w: Word, k: nat, intr: Byte, entry: seq<Byte>): Word
    requires |entry| == 5
  {
    Pair(EntryByte(intr, entry, 2 * k, w % 0x100), EntryByte(intr, entry, 2 * k + 1, w / 0x100))
  }

  /** A handler's entry: its flags, the handler, and the office it reports to. */
  function HandlerEntry(handler: nat, office: Word): (entry: seq<Byte>)
    ensures |entry| == 5
  {
    [0x7f, handler % 0x100, handler / 0x100 % 0x100, office % 0x100, office / 0x100]
  }

  /** A word once two instructions at j load an address, in bytes. */
  function Addressed(j: nat, to: nat, at: nat, w: Word): Word {
    if at == j then R.WithImmediate(w, 2 * to % 0x100)
    else if at == j + 1 then R.WithImmediate(w, 2 * to / 0x100 % 0x100)
    else w
  }

  /** A word once the jump at j leads to a desk. */
  function Relinked(j: nat, desk: Word, at: nat, w: Word): Word {
    if at == j then R.WithTarget(w, 0) else if at == j + 1 then desk else w
  }

  /** What a commission that is carried out makes of the word at an address. b.exe is where the text is. */
  function WordAfter(c: Commission, sid: Word, b: Site, h: Header, at: nat, w: Word): Word {
    match c
    case Imm(offset, kind, ref) =>
      if at == b.exe + offset && ref.part != R.Nul
      then R.WithImmediate(w, R.Half(kind, R.Objective(ref, kind, b.Base()))) else w
    case Jmp(offset, ref) =>
      if ref.ref < 0 then w
      else if at == b.exe + offset then R.WithTarget(w, (ref.ref + b.exe) / 0x1_0000 % 0x40)
      else if at == b.exe + offset + 1 then (ref.ref + b.exe) % 0x1_0000
      else w
    case Mod(offset, form, ref) =>
      if at == b.exe + offset && ref.part != R.Nul then R.Modified(w, form, R.Value(ref, b.Base())) else w
    case Link(toTable, offset) => Addressed(b.exe + offset, if toTable then b.top else b.alpha, at, w)
    case Isr(intr, offset, office) =>
      if sid != 0 && h.table.Some? && Holds(TableSpan(h.table.value), at)
      then Entered(w, at - h.table.value, intr, HandlerEntry(b.exe + offset, office)) else w
    case JumpPoint(_, _) => w
    case Desk(offset) =>
      var desk := (b.exe + offset) % 0x1_0000;
      if sid == FLATLINE_SID then Relinked(h.flatline, desk, at, w)
      else if sid == ATRIA_SID then Relinked(h.atria, desk, at, w) else w
  }

  /** And of the header. */
  function HeadAfter(c: Commission, sid: Word, b: Site, h: Header): Header {
    match c
    case JumpPoint(toFlatline, offset) =>
      var h' := h.(slots := h.slots + {JumpSpan(b.exe + offset)});
      if toFlatline then h'.(flatline := b.exe + offset) else h'.(atria := b.exe + offset)
    case Desk(_) =>
      if sid == FLATLINE_SID then h.(slots := h.slots + {JumpSpan(h.flatline)})
      else if sid == ATRIA_SID then h.(slots := h.slots + {JumpSpan(h.atria)}) else h
    case _ => h
  }

  function HeadThrough(cs: seq<Commission>, sid: Word, b: Site, h: Header): Header {
    if cs == [] then h
    else HeadAfter(cs[|cs| - 1], sid, b, HeadThrough(cs[..|cs| - 1], sid, b, h))
  }

  function WordThrough(cs: seq<Commission>, sid: Word, b: Site, h: Header, at: nat, w: Word): Word {
    if cs == [] then w
    else
      var before := cs[..|cs| - 1];
      WordAfter(cs[|cs| - 1], sid, b, HeadThrough(before, sid, b, h), at, WordThrough(before, sid, b, h, at, w))
  }

  /** What a registration has carried out, and where. */
  datatype Visit = Visit(sid: Word, b: Site, carried: seq<Commission>)

  /** What a sequence of registrations makes of the header. */
  function HeadOver(visits: seq<Visit>, h: Header): Header {
    if visits == [] then h
    else
      var v := visits[|visits| - 1];
      HeadThrough(v.carried, v.sid, v.b, HeadOver(visits[..|visits| - 1], h))
  }

  /** And of a word. */
  function WordOver(visits: seq<Visit>, h: Header, at: nat, w: Word): Word {
    if visits == [] then w
    else
      var before, v := visits[..|visits| - 1], visits[|visits| - 1];
      WordThrough(v.carried, v.sid, v.b, HeadOver(before, h), at, WordOver(before, h, at, w))
  }

  lemma OverOne(visits: seq<Visit>, v: Visit, h: Header, at: nat, w: Word)
    ensures HeadOver(visits + [v], h) == HeadThrough(v.carried, v.sid, v.b, HeadOver(visits, h))
    ensures WordOver(visits + [v], h, at, w)
         == WordThrough(v.carried, v.sid, v.b, HeadOver(visits, h), at, WordOver(visits, h, at, w))
  {
    assert (visits + [v])[..|visits|] == visits;
    hide HeadThrough, WordThrough;
  }

  lemma {:induction false} OverSplit(visits: seq<Visit>, n: nat, h: Header)
    requires n <= |visits|
    ensures HeadOver(visits[n..], HeadOver(visits[..n], h)) == HeadOver(visits, h)
  {
    if n == |visits| {
      assert visits[n..] == [] && visits[..n] == visits;
    } else {
      var before := visits[..|visits| - 1];
      OverSplit(before, n, h);
      assert visits[n..][..|visits| - 1 - n] == before[n..] && before[..n] == visits[..n];
    }
    hide HeadThrough;
  }

  // --------------------------------------------------------------------- What commissions leave alone

  /** A jump that one of these declares. */
  ghost predicate OwnSpan(cs: seq<Commission>, b: Site, s: Span) {
    exists c :: c in cs && c.JumpPoint? && s == JumpSpan(b.exe + c.offset)
  }

  lemma {:induction false} OpenThrough(cs: seq<Commission>, sid: Word, b: Site, h: Header)
    ensures var h' := HeadThrough(cs, sid, b, h);
            && h'.table == h.table && h.slots <= h'.slots
            && forall s :: s in h'.Open() ==> s in h.Open() || OwnSpan(cs, b, s)
  {
    if cs != [] {
      var before, c := cs[..|cs| - 1], cs[|cs| - 1];
      OpenThrough(before, sid, b, h);
      assert c in cs;
      var h' := HeadThrough(cs, sid, b, h);
      forall s | s in h'.Open() && s !in h.Open() ensures OwnSpan(cs, b, s) {
        assert s in HeadThrough(before, sid, b, h).Open() || (c.JumpPoint? && s == JumpSpan(b.exe + c.offset));
        if OwnSpan(before, b, s) {
          var d :| d in before && d.JumpPoint? && s == JumpSpan(b.exe + d.offset);
          assert d in cs;
        }
      }
    }
  }

  /** In OPSEC's own package only what it declares becomes a slot. */
  lemma {:induction false} SlotsThrough(cs: seq<Commission>, b: Site, h: Header)
    ensures forall s :: s in HeadThrough(cs, 0, b, h).slots ==> s in h.slots || OwnSpan(cs, b, s)
  {
    if cs != [] {
      var before, c := cs[..|cs| - 1], cs[|cs| - 1];
      SlotsThrough(before, b, h);
      assert c in cs;
      forall s | s in HeadThrough(cs, 0, b, h).slots && s !in h.slots ensures OwnSpan(cs, b, s) {
        if OwnSpan(before, b, s) {
          var d :| d in before && d.JumpPoint? && s == JumpSpan(b.exe + d.offset);
          assert d in cs;
        }
      }
    }
  }

  /** A jump is where it was, unless one of these declares it. */
  lemma {:induction false} JumpThrough(cs: seq<Commission>, sid: Word, b: Site, h: Header, t: bool)
    ensures var j := HeadThrough(cs, sid, b, h).Jump(t);
            if exists c :: c in cs && c.JumpPoint? && c.toFlatline == t then OwnSpan(cs, b, JumpSpan(j))
            else j == h.Jump(t)
  {
    if cs != [] {
      var before, c := cs[..|cs| - 1], cs[|cs| - 1];
      JumpThrough(before, sid, b, h, t);
      forall d | d in before ensures d in cs {
      }
      assert forall d :: d in cs ==> d in before || d == c;
      assert c in cs;
    }
  }

  /** A word outside the text and all open spans is left alone. */
  lemma {:induction false} WordElsewhere(cs: seq<Commission>, sid: Word, b: Site, h: Header, p: Package, at: nat,
                                         w: Word)
    requires forall c :: c in cs ==> Within(c, p)
    requires !(b.exe <= at <= b.exe + p.text) && (sid != 0 ==> !InSome(h.Open(), at))
    ensures WordThrough(cs, sid, b, h, at, w) == w
  {
    if cs != [] {
      var before, c := cs[..|cs| - 1], cs[|cs| - 1];
      forall d | d in before ensures d in cs {
      }
      WordElsewhere(before, sid, b, h, p, at, w);
      OpenThrough(before, sid, b, h);
      assert c in cs && Within(c, p);
      var h' := HeadThrough(before, sid, b, h);
      forall s | s in h'.Open() && Holds(s, at) ensures sid == 0 {
        if s in h.Open() {
          assert InSome(h.Open(), at);
        }
      }
      assert JumpSpan(h'.flatline) in h'.Open() && JumpSpan(h'.atria) in h'.Open();
      assert h'.table.Some? ==> TableSpan(h'.table.value) in h'.Open();
    }
  }

  /** The two headers have the same jumps, but for such as lie below the text, where the table lies too. */
  ghost predicate Alike(h: Header, h': Header, off: nat) {
    && (h.flatline == h'.flatline || (h.flatline + 1 < off && h'.flatline + 1 < off))
    && (h.atria == h'.atria || (h.atria + 1 < off && h'.atria + 1 < off))
    && (h.table.Some? ==> h.table.value + SISR_TABLE <= off) && (h'.table.Some? ==> h'.table.value + SISR_TABLE <= off)
  }

  lemma {:induction false} AlikeThrough(cs: seq<Commission>, sid: Word, b: Site, h: Header, h': Header)
    requires Alike(h, h', b.exe)
    ensures Alike(HeadThrough(cs, sid, b, h), HeadThrough(cs, sid, b, h'), b.exe)
  {
    if cs != [] {
      AlikeThrough(cs[..|cs| - 1], sid, b, h, h');
    }
  }

  /** What becomes of a word of the text does not depend on what the header said before. */
  lemma {:induction false} SameThrough(cs: seq<Commission>, sid: Word, b: Site, h: Header, h': Header, at: nat,
                                       w: Word)
    requires at >= b.exe && (sid == 0 || Alike(h, h', b.exe))
    ensures WordThrough(cs, sid, b, h, at, w) == WordThrough(cs, sid, b, h', at, w)
  {
    if cs != [] {
      SameThrough(cs[..|cs| - 1], sid, b, h, h', at, w);
      if sid != 0 {
        AlikeThrough(cs[..|cs| - 1], sid, b, h, h');
      }
    }
  }

  /** FLATLINE's or ATRIA's desk, if it comes last, is where OPSEC's jump leads. */
  lemma LastDeskLinks(cs: seq<Commission>, sid: Word, b: Site, h: Header, w0: Word, w1: Word)
    requires cs != [] && cs[|cs| - 1].Desk? && (sid == FLATLINE_SID || sid == ATRIA_SID)
    requires forall c :: c in cs ==> !(c.JumpPoint? && c.toFlatline == (sid == FLATLINE_SID))
    ensures var j := h.Jump(sid == FLATLINE_SID);
            R.JumpTarget(WordThrough(cs, sid, b, h, j, w0), WordThrough(cs, sid, b, h, j + 1, w1))
            == (b.exe + cs[|cs| - 1].offset) % 0x1_0000
  {
    var before, j := cs[..|cs| - 1], h.Jump(sid == FLATLINE_SID);
    forall c | c in before ensures c in cs {
    }
    JumpThrough(before, sid, b, h, sid == FLATLINE_SID);
    R.OnlyTargetChanges(WordThrough(before, sid, b, h, j, w0), 0, (b.exe + cs[|cs| - 1].offset) % 0x1_0000);
    hide R.JumpTarget, R.WithTarget, R.JumpOpcode;
  }

  // --------------------------------------------------------------------- A package in place

  /** Word i of a package's text, as it is to be in the image. */
  function TextWord(job: Job, b: Site, i: nat): Word
    requires i < |job.text|
  {
    WordThrough(job.commissions, job.sid, b, BLANK, b.exe + i, job.text[i])
  }

  /** Whether a package's k-th commission is carried out once those before it have been: the word at its endpoint
      decides, as it is then. */
  ghost predicate Takes(job: Job, b: Site, k: nat) {
    && k < |job.commissions| && Endpoint(job.commissions[k]) < |job.text|
    && var at := Endpoint(job.commissions[k]);
       Accepts(job.commissions[k], job.sid,
               WordThrough(job.commissions[..k], job.sid, b, BLANK, b.exe + at, job.text[at]))
  }

  /** Of a package's commissions the first n are carried out, and no more. */
  ghost predicate StopsAt(job: Job, b: Site, n: nat) {
    n <= |job.commissions| && (forall k :: 0 <= k < n ==> Takes(job, b, k))
    && (n < |job.commissions| ==> !Takes(job, b, n))
  }

  /** A core package may declare jumps in its own text. */
  ghost predicate OwnJump(job: Job, i: int) {
    job.sid <= 2 && exists c :: c in job.commissions && c.JumpPoint? && c.offset <= i <= c.offset + 1
  }

  /** The words that a package takes in the image, if its .data is even. */
  function Words(job: Job): nat { |job.text| + if job.p.data.Some? then |job.data| else 0 }

  /** The last byte of its partitions, or the one before, if it has none. */
  function OpTop(off: nat, p: Package): int {
    if p.bss.Some? then BssOff(off, p) + p.bss.value else if p.data.Some? then off + p.data.value else off - 1
  }

  /** A package that is loaded at these bases, with every commission carried out. */
  ghost predicate Suits(job: Job, b: Site) {
    && Loadable(job.p, |job.text|, |job.data|, b.op1)
    && forall k :: 0 <= k < |job.commissions| ==> Takes(job, b, k)
  }

  /** What is carried out of a package's commissions at these bases: nothing if it is not loaded, or else all up to the
      first that is refused. */
  ghost predicate Visited(job: Job, v: Visit) {
    && v.sid == job.sid && v.carried <= job.commissions
    && if Loadable(job.p, |job.text|, |job.data|, v.b.op1) then StopsAt(job, v.b, |v.carried|) else v.carried == []
  }

  /** One of the jobs that were accepted has this number. */
  ghost predicate TakenBy(jobs: seq<Job>, oks: seq<bool>, sid: Word) {
    exists i :: 0 <= i < |oks| && i < |jobs| && oks[i] && jobs[i].sid == sid
  }

  lemma TakenOn(jobs: seq<Job>, oks: seq<bool>, ok: bool)
    requires |oks| < |jobs|
    ensures forall t: Word :: TakenBy(jobs, oks + [ok], t) <==> TakenBy(jobs, oks, t) || (ok && jobs[|oks|].sid == t)
  {
    forall t: Word | TakenBy(jobs, oks, t) ensures TakenBy(jobs, oks + [ok], t) {
      var i :| 0 <= i < |oks| && oks[i] && jobs[i].sid == t;
      assert (oks + [ok])[i];
    }
    if ok {
      assert (oks + [ok])[|oks|];
    }
  }

  /** Exactly those jobs are accepted that suit and have a number that nobody had. */
  ghost predicate Judged(jobs: seq<Job>, oks: seq<bool>, visits: seq<Visit>, known: iset<Word>) {
    && |oks| == |visits| <= |jobs|
    && forall i :: 0 <= i < |visits| ==>
         && Visited(jobs[i], visits[i])
         && (oks[i] <==> jobs[i].sid !in known && !TakenBy(jobs, oks[..i], jobs[i].sid) && Suits(jobs[i], visits[i].b))
  }

  lemma JudgedOn(jobs: seq<Job>, oks: seq<bool>, visits: seq<Visit>, known: iset<Word>, ok: bool, v: Visit)
    requires Judged(jobs, oks, visits, known) && |oks| < |jobs| && Visited(jobs[|oks|], v)
    requires var job := jobs[|oks|];
             ok <==> job.sid !in known && !TakenBy(jobs, oks, job.sid) && Suits(job, v.b)
    ensures Judged(jobs, oks + [ok], visits + [v], known)
  {
    hide Visited, TakenBy, Suits;
    forall i | 0 <= i <= |oks| ensures (oks + [ok])[..i] == oks[..i] {
    }
    assert oks[..|oks|] == oks;
  }

  lemma OrderIsBehind(jobs: seq<Job>, oks: seq<bool>, visits: seq<Visit>, ext: nat, op: nat)
    requires InOrder(jobs, oks, visits, ext, op)
    ensures forall i :: 0 <= i < |visits| ==> visits[i].b.exe > ext
  {
  }

  /** All packages are commissioned with the same register and table. */
  ghost predicate Rooted(visits: seq<Visit>, alpha: nat, top: nat) {
    forall i :: 0 <= i < |visits| ==> visits[i].b.alpha == alpha && visits[i].b.top == top
  }

  /** All that a package takes lies before the base of another. */
  ghost predicate Ahead(job: Job, b: Site, next: Site) {
    b.exe + Words(job) <= next.exe && OpTop(b.op1, job.p) < next.op1
  }

  /** Then no word or byte of the package is the other's. */
  lemma AheadIsApart(job: Job, b: Site, next: Site)
    requires Ahead(job, b, next) && Loadable(job.p, |job.text|, |job.data|, b.op1)
    ensures forall s :: s in TextSpans(b.exe, job.p) ==> s.hi < next.exe
    ensures forall s :: s in OpSpans(b.op1, job.p) ==> s.hi < next.op1
  {
  }

  ghost predicate AllAhead(jobs: seq<Job>, oks: seq<bool>, visits: seq<Visit>, next: Site) {
    |oks| == |visits| <= |jobs| && forall i :: 0 <= i < |visits| && oks[i] ==> Ahead(jobs[i], visits[i].b, next)
  }

  /** The packages of the jobs that were accepted lie behind all that there was, and each before the bases of all
      later jobs, in the image and in operational memory. */
  ghost predicate InOrder(jobs: seq<Job>, oks: seq<bool>, visits: seq<Visit>, ext: nat, op: nat) {
    && |oks| == |visits| <= |jobs|
    && (forall i :: 0 <= i < |visits| ==> visits[i].b.exe > ext && visits[i].b.op1 > op)
    && forall i, j :: 0 <= i < j < |visits| && oks[i] ==> Ahead(jobs[i], visits[i].b, visits[j].b)
  }

  lemma InOrderOn(jobs: seq<Job>, oks: seq<bool>, visits: seq<Visit>, ext: nat, op: nat, ok: bool, v: Visit,
                  next: Site)
    requires InOrder(jobs, oks, visits, ext, op) && AllAhead(jobs, oks, visits, v.b) && |oks| < |jobs|
    requires v.b.exe > ext && v.b.op1 > op && v.b.exe <= next.exe && v.b.op1 <= next.op1
    requires ok ==> Ahead(jobs[|oks|], v.b, next)
    ensures InOrder(jobs, oks + [ok], visits + [v], ext, op) && AllAhead(jobs, oks + [ok], visits + [v], next)
  {
    hide Words, OpTop;
  }

  /** The words that one commission patches. */
  predicate Touches(c: Commission, i: int) {
    match c
    case Imm(offset, _, _) => i == offset
    case Jmp(offset, _) => offset <= i <= offset + 1
    case Mod(offset, _, _) => i == offset
    case Link(_, offset) => offset <= i <= offset + 1
    case _ => false
  }

  /** Of all commissions the k-th alone patches word i. */
  ghost predicate Alone(cs: seq<Commission>, k: nat, i: int) {
    k < |cs| && forall j :: 0 <= j < |cs| && j != k ==> !Touches(cs[j], i)
  }

  /** No jump can be linked at word i of the text, and the table lies below it. */
  ghost predicate Calm(cs: seq<Commission>, sid: Word, b: Site, h: Header, i: nat) {
    sid != 0 ==>
      && h.flatline + 1 < b.exe && h.atria + 1 < b.exe && (h.table.Some? ==> h.table.value + SISR_TABLE <= b.exe)
      && (sid <= 2 ==> forall c :: c in cs ==> !(c.JumpPoint? && c.offset <= i <= c.offset + 1))
  }

  lemma {:induction false} CalmThrough(cs: seq<Commission>, sid: Word, b: Site, h: Header, i: nat)
    requires Calm(cs, sid, b, h, i)
    ensures var h' := HeadThrough(cs, sid, b, h);
            && (0 < sid <= 2 ==> !Holds(JumpSpan(h'.flatline), b.exe + i) && !Holds(JumpSpan(h'.atria), b.exe + i))
            && h'.table == h.table
  {
    if cs != [] {
      forall c | c in cs[..|cs| - 1] ensures c in cs {
      }
      assert cs[|cs| - 1] in cs;
      CalmThrough(cs[..|cs| - 1], sid, b, h, i);
    }
  }

  lemma {:induction false} NothingTouches(cs: seq<Commission>, sid: Word, b: Site, h: Header, i: nat, w: Word)
    requires Calm(cs, sid, b, h, i) && forall c :: c in cs ==> !Touches(c, i)
    ensures WordThrough(cs, sid, b, h, b.exe + i, w) == w
  {
    if cs != [] {
      var before := cs[..|cs| - 1];
      forall c | c in before ensures c in cs {
      }
      assert cs[|cs| - 1] in cs;
      NothingTouches(before, sid, b, h, i, w);
      CalmThrough(before, sid, b, h, i);
    }
  }

  /** A word that one commission alone patches is what that one makes of it. */
  lemma {:induction false} OneTouches(cs: seq<Commission>, sid: Word, b: Site, h: Header, k: nat, i: nat, w: Word)
    requires Calm(cs, sid, b, h, i) && Alone(cs, k, i) && Touches(cs[k], i)
    ensures WordThrough(cs, sid, b, h, b.exe + i, w) == WordAfter(cs[k], sid, b, h, b.exe + i, w)
  {
    var n := |cs| - 1;
    var before := cs[..n];
    forall c | c in before ensures c in cs {
    }
    if k == n {
      forall c | c in before ensures !Touches(c, i) {
        var j :| 0 <= j < n && before[j] == c;
        assert cs[j] == c;
      }
      NothingTouches(before, sid, b, h, i, w);
    } else {
      assert before[k] == cs[k] && Alone(before, k, i);
      OneTouches(before, sid, b, h, k, i, w);
      CalmThrough(before, sid, b, h, i);
      assert !Touches(cs[n], i);
    }
  }

  /** The text of every package but OPSEC's lies behind another. */
  predicate Based(job: Job, b: Site) { job.sid == 0 || b.exe >= 2 }

  lemma CalmInText(job: Job, b: Site, i: nat)
    requires Based(job, b) && !OwnJump(job, i)
    ensures Calm(job.commissions, job.sid, b, BLANK, i)
  {
  }

  /** A relocated immediate that no other commission patches and that is no jump of OPSEC's is in place. */
  lemma ImmInPlace(job: Job, b: Site, k: nat)
    requires Based(job, b) && k < |job.commissions| && job.commissions[k].Imm?
    requires var c := job.commissions[k];
             && c.ref.part != R.Nul && c.offset < |job.text|
             && Alone(job.commissions, k, c.offset) && !OwnJump(job, c.offset)
    ensures var c := job.commissions[k];
            TextWord(job, b, c.offset)
            == R.WithImmediate(job.text[c.offset], R.Half(c.kind, R.Objective(c.ref, c.kind, b.Base())))
  {
    CalmInText(job, b, job.commissions[k].offset);
    OneTouches(job.commissions, job.sid, b, BLANK, k, job.commissions[k].offset,
               job.text[job.commissions[k].offset]);
  }

  /** So is a relocated word. */
  lemma ModInPlace(job: Job, b: Site, k: nat)
    requires Based(job, b) && k < |job.commissions| && job.commissions[k].Mod?
    requires var c := job.commissions[k];
             && c.ref.part != R.Nul && c.offset < |job.text|
             && Alone(job.commissions, k, c.offset) && !OwnJump(job, c.offset)
    ensures var c := job.commissions[k];
            TextWord(job, b, c.offset) == R.Modified(job.text[c.offset], c.form, R.Value(c.ref, b.Base()))
  {
    hide WordThrough, Calm, R.Modified, R.Value;
    CalmInText(job, b, job.commissions[k].offset);
    OneTouches(job.commissions, job.sid, b, BLANK, k, job.commissions[k].offset,
               job.text[job.commissions[k].offset]);
  }

  /** So are two instructions that load an address. */
  lemma LinkInPlace(job: Job, b: Site, k: nat)
    requires Based(job, b) && k < |job.commissions| && job.commissions[k].Link?
    requires var c := job.commissions[k];
             && c.offset + 1 < |job.text|
             && Alone(job.commissions, k, c.offset) && Alone(job.commissions, k, c.offset + 1)
             && !OwnJump(job, c.offset) && !OwnJump(job, c.offset + 1)
    ensures var c := job.commissions[k];
            R.Immediate(TextWord(job, b, c.offset)) + 0x100 * R.Immediate(TextWord(job, b, c.offset + 1))
            == 2 * (if c.toTable then b.top else b.alpha) % 0x1_0000
  {
    hide WordThrough, Calm, R.WithImmediate, R.Immediate;
    var c := job.commissions[k];
    var to := 2 * if c.toTable then b.top else b.alpha;
    CalmInText(job, b, c.offset);
    CalmInText(job, b, c.offset + 1);
    OneTouches(job.commissions, job.sid, b, BLANK, k, c.offset, job.text[c.offset]);
    OneTouches(job.commissions, job.sid, b, BLANK, k, c.offset + 1, job.text[c.offset + 1]);
    R.OnlyImmediateChanges(job.text[c.offset], to % 0x100);
    R.OnlyImmediateChanges(job.text[c.offset + 1], to / 0x100 % 0x100);
    LowAndHigh(to);
  }

  lemma LowAndHigh(to: nat)
    ensures to % 0x100 + 0x100 * (to / 0x100 % 0x100) == to % 0x1_0000
  {
    var q, r := to / 0x1_0000, to % 0x1_0000;
    assert to / 0x100 == q * 0x100 + r / 0x100 && to % 0x100 == r % 0x100;
  }

  /** So is a relocated jump or call. */
  lemma JmpInPlace(job: Job, b: Site, k: nat)
    requires Based(job, b) && k < |job.commissions| && job.commissions[k].Jmp?
    requires var c := job.commissions[k];
             && c.ref.ref >= 0 && c.offset + 1 < |job.text|
             && Alone(job.commissions, k, c.offset) && Alone(job.commissions, k, c.offset + 1)
             && !OwnJump(job, c.offset) && !OwnJump(job, c.offset + 1)
    ensures var c := job.commissions[k];
            R.JumpTarget(TextWord(job, b, c.offset), TextWord(job, b, c.offset + 1)) == (c.ref.ref + b.exe) % 0x40_0000
  {
    hide R.WithTarget, R.JumpTarget, R.JumpOpcode, WordThrough, Calm;
    var c := job.commissions[k];
    var to := c.ref.ref + b.exe;
    CalmInText(job, b, c.offset);
    CalmInText(job, b, c.offset + 1);
    OneTouches(job.commissions, job.sid, b, BLANK, k, c.offset, job.text[c.offset]);
    OneTouches(job.commissions, job.sid, b, BLANK, k, c.offset + 1, job.text[c.offset + 1]);
    R.OnlyTargetChanges(job.text[c.offset], to / 0x1_0000 % 0x40, to % 0x1_0000);
    HighAndLow(to);
  }

  lemma HighAndLow(to: nat)
    ensures to / 0x1_0000 % 0x40 * 0x1_0000 + to % 0x1_0000 == to % 0x40_0000
  {
    var q, r := to / 0x40_0000, to % 0x40_0000;
    assert to / 0x1_0000 == q * 0x40 + r / 0x1_0000 && to % 0x1_0000 == r % 0x1_0000;
  }

  // --------------------------------------------------------------------- The interrupt service table

  /** The commission writes byte m of the table. */
  predicate Covers(c: Commission, m: nat) { c.Isr? && 5 * c.intr <= m < 5 * c.intr + 5 }

  /** Byte m of the table after commissions, the last that covers it. */
  ghost function TableByte(cs: seq<Commission>, sid: Word, b: Site, m: nat, was: Byte): Byte {
    if cs == [] then was
    else
      var c := cs[|cs| - 1];
      if sid != 0 && Covers(c, m) then HandlerEntry(b.exe + c.offset, c.office)[m - 5 * c.intr]
      else TableByte(cs[..|cs| - 1], sid, b, m, was)
  }

  /** OPSEC's jumps share no word with the table. */
  ghost predicate JumpsOff(h: Header) {
    h.table.Some? ==>
      && (h.flatline + 1 < h.table.value || h.table.value + SISR_TABLE <= h.flatline)
      && (h.atria + 1 < h.table.value || h.table.value + SISR_TABLE <= h.atria)
  }

  /** The text of the site lies behind the table. */
  ghost predicate BehindTable(b: Site, h: Header) { h.table.Some? && h.table.value + SISR_TABLE <= b.exe }

  lemma {:induction false} JumpsOffThrough(cs: seq<Commission>, sid: Word, b: Site, h: Header)
    requires JumpsOff(h) && BehindTable(b, h)
    ensures var h' := HeadThrough(cs, sid, b, h); JumpsOff(h') && h'.table == h.table
  {
    if cs != [] {
      JumpsOffThrough(cs[..|cs| - 1], sid, b, h);
    }
  }

  lemma TableByteOne(c: Commission, sid: Word, b: Site, h: Header, k: nat, w: Word)
    requires JumpsOff(h) && BehindTable(b, h) && k < SISR_TABLE
    ensures var w' := WordAfter(c, sid, b, h, h.table.value + k, w);
            && w' % 0x100 == (if sid != 0 && Covers(c, 2 * k)
                              then HandlerEntry(b.exe + c.offset, c.office)[2 * k - 5 * c.intr] else w % 0x100)
            && w' / 0x100 == (if sid != 0 && Covers(c, 2 * k + 1)
                              then HandlerEntry(b.exe + c.offset, c.office)[2 * k + 1 - 5 * c.intr] else w / 0x100)
  {
    if c.Isr? && sid != 0 {
      var entry := HandlerEntry(b.exe + c.offset, c.office);
      PairSplits(EntryByte(c.intr, entry, 2 * k, w % 0x100), EntryByte(c.intr, entry, 2 * k + 1, w / 0x100));
    }
    hide HandlerEntry, R.WithTarget, R.WithImmediate, R.Modified, R.Value, R.Objective, R.Half;
  }

  /** What commissions make of a word of the table, byte by byte. */
  lemma {:induction false} TableThrough(cs: seq<Commission>, sid: Word, b: Site, h: Header, k: nat, w: Word)
    requires JumpsOff(h) && BehindTable(b, h) && k < SISR_TABLE
    ensures var w' := WordThrough(cs, sid, b, h, h.table.value + k, w);
            && w' % 0x100 == TableByte(cs, sid, b, 2 * k, w % 0x100)
            && w' / 0x100 == TableByte(cs, sid, b, 2 * k + 1, w / 0x100)
  {
    hide WordAfter, HeadAfter, HandlerEntry, JumpsOff, BehindTable, Covers;
    if cs != [] {
      var before := cs[..|cs| - 1];
      JumpsOffThrough(before, sid, b, h);
      SameTable(b, h, HeadThrough(before, sid, b, h));
      TableThrough(before, sid, b, h, k, w);
      TableByteOne(cs[|cs| - 1], sid, b, HeadThrough(before, sid, b, h), k,
                   WordThrough(before, sid, b, h, h.table.value + k, w));
    }
  }

  lemma SameTable(b: Site, h: Header, h': Header)
    requires BehindTable(b, h) && h'.table == h.table
    ensures BehindTable(b, h') && h.table.Some?
  {
  }

  ghost function TableByteOver(visits: seq<Visit>, m: nat, was: Byte): Byte {
    if visits == [] then was
    else
      var v := visits[|visits| - 1];
      TableByte(v.carried, v.sid, v.b, m, TableByteOver(visits[..|visits| - 1], m, was))
  }

  lemma {:induction false} TableOver(visits: seq<Visit>, h: Header, k: nat, w: Word)
    requires JumpsOff(h) && k < SISR_TABLE && h.table.Some?
    requires forall i :: 0 <= i < |visits| ==> BehindTable(visits[i].b, h)
    ensures JumpsOff(HeadOver(visits, h)) && HeadOver(visits, h).table == h.table
    ensures var w' := WordOver(visits, h, h.table.value + k, w);
            && w' % 0x100 == TableByteOver(visits, 2 * k, w % 0x100)
            && w' / 0x100 == TableByteOver(visits, 2 * k + 1, w / 0x100)
  {
    hide JumpsOff, BehindTable, TableByte, HeadThrough, WordThrough;
    if visits != [] {
      var before, v := visits[..|visits| - 1], visits[|visits| - 1];
      TableOver(before, h, k, w);
      SameTable(v.b, h, HeadOver(before, h));
      JumpsOffThrough(v.carried, v.sid, v.b, HeadOver(before, h));
      TableThrough(v.carried, v.sid, v.b, HeadOver(before, h), k, WordOver(before, h, h.table.value + k, w));
    }
  }

  /** The k-th commission carried out for the i-th job is the last for its interrupt. */
  ghost predicate LastIsr(visits: seq<Visit>, i: nat, k: nat) {
    && i < |visits| && k < |visits[i].carried| && visits[i].carried[k].Isr? && visits[i].sid != 0
    && (forall l :: k < l < |visits[i].carried| ==> !Names(visits[i].carried[l], visits[i].carried[k].intr))
    && forall j :: i < j < |visits| ==> !Asks(visits[j], visits[i].carried[k].intr)
  }

  predicate Names(c: Commission, intr: int) { c.Isr? && c.intr == intr }

  /** One of the commissions is for that interrupt. */
  ghost predicate Asks(v: Visit, intr: int) { exists c :: c in v.carried && Names(c, intr) }

  lemma {:induction false} NobodyAsks(cs: seq<Commission>, sid: Word, b: Site, m: nat, was: Byte)
    requires forall c :: c in cs ==> !Names(c, m / 5)
    ensures TableByte(cs, sid, b, m, was) == was
  {
    if cs != [] {
      forall c | c in cs[..|cs| - 1] ensures c in cs {
      }
      assert cs[|cs| - 1] in cs;
      NobodyAsks(cs[..|cs| - 1], sid, b, m, was);
    }
  }

  lemma {:induction false} NobodyAsksOver(visits: seq<Visit>, m: nat, was: Byte)
    requires forall v :: v in visits ==> !Asks(v, m / 5)
    ensures TableByteOver(visits, m, was) == was
  {
    if visits != [] {
      var v := visits[|visits| - 1];
      forall u | u in visits[..|visits| - 1] ensures u in visits {
      }
      assert v in visits;
      NobodyAsksOver(visits[..|visits| - 1], m, was);
      NobodyAsks(v.carried, v.sid, v.b, m, was);
    }
  }

  lemma {:induction false} LastInVisit(cs: seq<Commission>, sid: Word, b: Site, k: nat, m: nat, was: Byte)
    requires k < |cs| && Covers(cs[k], m) && sid != 0
    requires forall l :: k < l < |cs| ==> !Names(cs[l], cs[k].intr)
    ensures TableByte(cs, sid, b, m, was) == HandlerEntry(b.exe + cs[k].offset, cs[k].office)[m - 5 * cs[k].intr]
  {
    hide HandlerEntry;
    if k < |cs| - 1 {
      LastInVisit(cs[..|cs| - 1], sid, b, k, m, was);
    }
  }

  /** The last handler of an interrupt is what its entry holds. */
  lemma {:induction false} LastIsHeld(visits: seq<Visit>, i: nat, k: nat, m: nat, was: Byte)
    requires LastIsr(visits, i, k) && Covers(visits[i].carried[k], m)
    ensures var (v, c) := (visits[i], visits[i].carried[k]);
            TableByteOver(visits, m, was) == HandlerEntry(v.b.exe + c.offset, c.office)[m - 5 * c.intr]
  {
    hide HandlerEntry;
    var n := |visits| - 1;
    if i == n {
      LastInVisit(visits[n].carried, visits[n].sid, visits[n].b, k, m, TableByteOver(visits[..n], m, was));
    } else {
      LastIsHeld(visits[..n], i, k, m, was);
      forall c | c in visits[n].carried ensures !Names(c, m / 5) {
        assert !Asks(visits[n], visits[i].carried[k].intr);
      }
      NobodyAsks(visits[n].carried, visits[n].sid, visits[n].b, m, TableByteOver(visits[..n], m, was));
    }
  }

  // --------------------------------------------------------------------- Which commissions are carried out

  /** An immediate is patched in the six instructions that have one, and a word anywhere, if the symbol is in a
      partition; a jump or call if it is in EXE and there is no addend. Only core packages have jump points and links,
      and all but OPSEC's have handlers. */
  lemma AcceptedAre(c: Commission, sid: Word, w: Word)
    ensures match c
            case Imm(_, _, ref) =>
              Accepts(c, sid, w) <==>
              ref.part != R.Nul && exists m, r, k :: 16 <= r < 32 && w == R.Encoded(m, r, k)
            case Jmp(_, ref) =>
              Accepts(c, sid, w) <==> ref.part == R.Exe && ref.annex == None && w % 0x10 >= 0xc
            case Mod(_, _, ref) => Accepts(c, sid, w) <==> ref.part in {R.Exe, R.Op1, R.Op2}
            case Link(_, _) => Accepts(c, sid, w) <==> sid in {0, 1, 2}
            case JumpPoint(_, _) => Accepts(c, sid, w) <==> sid in {0, 1, 2}
            case Isr(_, _, _) => Accepts(c, sid, w) <==> sid > 0
            case Desk(_) => Accepts(c, sid, w)
  {
    R.ImmediatesAre(w);
    R.LooksAtThreeBits(w);
    hide R.TakesImmediate, R.IsJump, R.Encoded;
  }
}
