/** The simulator's image: partitions loaded one behind the other, index blocks, trap, interrupt service table and
    records put in between, and operational memory beside it. */
module ImageFile {
  import opened Basics
  import opened Layout
  import opened NibbleTrie
  import opened Packages
  import R = Reloc

  /** The register of secretariats: a trie over four nibbles, linked by byte pointers. Words of an index block and of a
      registration file (29 bytes). */
  const SRF: Shape := Shape(4, 1, true, Some(15))
  const BLOCK: nat := 17
  const RECORD: nat := 15

  /** A registration file as it reads back: the last word counts by its low half. */
  function Record(words: seq<Word>): seq<Word> {
    if words == [] then [] else words[|words| - 1 := words[|words| - 1] % 0x100]
  }

  lemma RecordReadsBack(record: seq<Word>, high: Byte)
    requires |record| == RECORD && record[RECORD - 1] < 0x100
    ensures Record(record[RECORD - 1 := high * 0x100 + record[RECORD - 1]]) == record
  {
  }

  function Answer(words: Option<seq<Word>>): Option<seq<Word>> {
    if words.Some? then Some(Record(words.value)) else None
  }

  const ISR_TRAP_1: Word := 0x2788
  const ISR_TRAP_2: Word := 0x9508

  /** Byte n of a table of five-byte entries that all link to the trap. */
  function TrapByte(trap: Word, n: nat): Byte {
    if n % 5 == 1 then trap % 0x100 else if n % 5 == 2 then trap / 0x100 else 0
  }

  /** Byte n of the words from top on. */
  function ByteAt(img: seq<Word>, top: nat, n: nat): Byte
    requires top + n / 2 < |img|
  {
    if n % 2 == 0 then img[top + n / 2] % 0x100 else img[top + n / 2] / 0x100
  }

  /** The table at top has an entry of five bytes in the place of its number, and else what it had. */
  ghost predicate Stored(img: seq<Word>, img': seq<Word>, top: nat, intr: Byte, entry: seq<Byte>) {
    && top + SISR_TABLE <= |img| == |img'| && |entry| == 5
    && forall m :: 0 <= m < 2 * SISR_TABLE ==>
         ByteAt(img', top, m) == if 5 * intr <= m < 5 * intr + 5 then entry[m - 5 * intr] else ByteAt(img, top, m)
  }

  lemma StoredWord(img: seq<Word>, img': seq<Word>, top: nat, intr: Byte, entry: seq<Byte>, k: nat)
    requires Stored(img, img', top, intr, entry) && k < SISR_TABLE
    ensures img'[top + k] == Entered(img[top + k], k, intr, entry)
  {
    assert ByteAt(img', top, 2 * k) == EntryByte(intr, entry, 2 * k, img[top + k] % 0x100);
    assert ByteAt(img', top, 2 * k + 1) == EntryByte(intr, entry, 2 * k + 1, img[top + k] / 0x100);
  }

  /** The table of words whose bytes all link to the trap. */
  function TrapWord(trap: Word, w: nat): Word { Pair(TrapByte(trap, 2 * w), TrapByte(trap, 2 * w + 1)) }

  lemma TrapTable(img: seq<Word>, top: nat, trap: Word, n: nat)
    requires n < 2 * SISR_TABLE && top + SISR_TABLE <= |img|
    requires forall w :: 0 <= w < SISR_TABLE ==> img[top + w] == TrapWord(trap, w)
    ensures ByteAt(img, top, n) == TrapByte(trap, n)
  {
    assert img[top + n / 2] == TrapWord(trap, n / 2);
    PairSplits(TrapByte(trap, 2 * (n / 2)), TrapByte(trap, 2 * (n / 2) + 1));
    assert n == 2 * (n / 2) + n % 2;
  }

  datatype Outcome = Done | Taken | BadInterrupt

  /** Every span lies behind the one before, and apart from every node of the trie. */
  ghost predicate Clear(spans: seq<Span>, ext: nat, nodes: map<Path, Node>) {
    && Stacked(spans, ext)
    && (forall i :: 0 <= i < |spans| ==> spans[i].lo >= 0)
    && (forall i, p :: 0 <= i < |spans| && p in nodes ==> SpanApart(spans[i], nodes[p]))
  }

  ghost predicate SpanApart(s: Span, n: Node) { s.hi < n.at || n.at + n.size <= s.lo }

  lemma ClearStays(spans: seq<Span>, t: Trie, t': Trie)
    requires Clear(spans, t.ext, t.nodes) && Behind(t, t')
    ensures Clear(spans, t'.ext, t'.nodes)
  {
    forall i, p | 0 <= i < |spans| && p in t'.nodes ensures SpanApart(spans[i], t'.nodes[p]) {
      assert spans[i].hi <= t.ext;
    }
  }

  /** A slot is within one of the spans. */
  ghost predicate Inside(spans: seq<Span>, s: Span) {
    exists i :: 0 <= i < |spans| && spans[i].lo <= s.lo && s.hi <= spans[i].hi
  }

  lemma InsideMore(spans: seq<Span>, more: seq<Span>, s: Span)
    requires Inside(spans, s)
    ensures Inside(spans + more, s)
  {
    var i :| 0 <= i < |spans| && spans[i].lo <= s.lo && s.hi <= spans[i].hi;
    assert (spans + more)[i] == spans[i];
  }

  lemma InsideIsClear(spans: seq<Span>, ext: nat, nodes: map<Path, Node>, s: Span)
    requires Clear(spans, ext, nodes) && Inside(spans, s) && s.lo <= s.hi
    ensures 0 <= s.lo && s.hi <= ext
    ensures forall p :: p in nodes ==> Apart(Node(s.lo, s.hi - s.lo + 1), nodes[p])
  {
    var i :| 0 <= i < |spans| && spans[i].lo <= s.lo && s.hi <= spans[i].hi;
    forall p | p in nodes ensures Apart(Node(s.lo, s.hi - s.lo + 1), nodes[p]) {
      assert SpanApart(spans[i], nodes[p]);
    }
  }

  /** The trap and the table behind the first block. */
  lemma FirstSpans(spans: seq<Span>, ext: nat, trap: nat, ext': nat)
    requires Clear(spans, ext, map[]) && trap == ext + 1 + BLOCK && ext' == trap + 1 + SISR_TABLE
    ensures Clear(spans + [Span(trap, trap + 1), TableSpan(trap + 2)], ext', map[[] := Node(ext + 1, BLOCK)])
  {
    StackedOn(spans, ext, Span(trap, trap + 1), trap + 1);
    StackedOn(spans + [Span(trap, trap + 1)], trap + 1, TableSpan(trap + 2), ext');
    assert spans + [Span(trap, trap + 1), TableSpan(trap + 2)]
        == spans + [Span(trap, trap + 1)] + [TableSpan(trap + 2)];
  }

  /** Words changed in one slot. */
  lemma SlotFills(img: seq<Word>, t: Trie, img': seq<Word>, slots: set<Span>, s: Span)
    requires t.ext < |img| == |img'| && s in slots
    requires forall i :: 0 <= i < |img| && !Holds(s, i) ==> img'[i] == img[i]
    ensures Filled(img, t, img', slots)
  {
    assert forall i :: Holds(s, i) ==> InSome(slots, i);
  }

  lemma TextIsBehind(off: nat, p: Package)
    ensures forall s :: s in TextSpans(off, p) ==> off <= s.lo <= s.hi
  {
  }

  lemma TextIsIn(spans: seq<Span>, off: nat, p: Package)
    ensures Inside(spans + TextSpans(off, p), Span(off, off + p.text))
    ensures p.data.Some? ==>
              Inside(spans + TextSpans(off, p), Span(off + p.text + 1, off + p.text + Loaded(p.data.value)))
  {
    assert (spans + TextSpans(off, p))[|spans|] == TextSpans(off, p)[0];
    if p.data.Some? {
      assert (spans + TextSpans(off, p))[|spans| + 1] == TextSpans(off, p)[1];
    }
  }

  /** Text and overlay, as far as they are counted for, behind all that is there. */
  lemma ClearText(spans: seq<Span>, ext: nat, nodes: map<Path, Node>, text: seq<Span>, off: nat, ext': nat)
    requires Clear(spans, ext, nodes) && Stacked(spans + text, ext')
    requires forall s :: s in text ==> off <= s.lo <= s.hi
    requires forall p :: p in nodes ==> nodes[p].at + nodes[p].size <= off
    ensures Clear(spans + text, ext', nodes)
  {
    forall i, p | 0 <= i < |spans + text| && p in nodes ensures SpanApart((spans + text)[i], nodes[p]) {
      if i < |spans| {
        assert SpanApart(spans[i], nodes[p]);
      } else {
        assert (spans + text)[i] in text;
      }
    }
    forall i | 0 <= i < |spans + text| ensures (spans + text)[i].lo >= 0 {
      if i < |spans| {
        assert (spans + text)[i] == spans[i];
      } else {
        assert (spans + text)[i] in text;
      }
    }
  }

  ghost predicate Sound(job: Job) {
    && (forall c :: c in job.commissions ==> Within(c, job.p))
    && EvenData(job.p) && |job.record| == RECORD && job.record[RECORD - 1] < 0x100
  }

  /** Whether the k-th commission is carried out, from the words before the first. */
  ghost predicate Allowed(img: seq<Word>, cs: seq<Commission>, k: nat, sid: Word, b: Site, h: Header) {
    && k < |cs| && b.exe + Endpoint(cs[k]) < |img|
    && var at := b.exe + Endpoint(cs[k]);
       Accepts(cs[k], sid, WordThrough(cs[..k], sid, b, h, at, img[at]))
  }

  /** What an image holds. */
  datatype Holding = Holding(img: seq<Word>, trie: Trie, spans: seq<Span>, ops: seq<Span>, head: Header)

  /** What was there stays where it is, and as it is but for empty indices and what was open already; what is new, and
      what is newly open, lies behind it. */
  ghost predicate Stays(h: Holding, h': Holding) {
    && Behind(h.trie, h'.trie) && Filled(h.img, h.trie, h'.img, h.head.Open())
    && h.spans <= h'.spans && h.ops <= h'.ops
    && forall s :: s in h'.head.Open() ==> s in h.head.Open() || s.lo > h.trie.ext
  }

  lemma StaysIf(h: Holding, h': Holding)
    requires Behind(h.trie, h'.trie) && Filled(h.img, h.trie, h'.img, h.head.Open())
    requires h.spans <= h'.spans && h.ops <= h'.ops
    requires forall s :: s in h'.head.Open() ==> s in h.head.Open() || s.lo > h.trie.ext
    ensures Stays(h, h')
  {
  }

  lemma StaysOn(h: Holding, h': Holding, h'': Holding)
    requires Stays(h, h') && Stays(h', h'')
    ensures Stays(h, h'')
  {
    FilledOn(h.img, h.trie, h'.img, h'.trie, h''.img, h.head.Open(), h'.head.Open());
    BehindOn(h.trie, h'.trie, h''.trie);
  }

  /** The words of an image after commissions. */
  ghost predicate Through(img: seq<Word>, cs: seq<Commission>, sid: Word, b: Site, h: Header, img': seq<Word>) {
    |img'| == |img| && forall i :: 0 <= i < |img| ==> img'[i] == WordThrough(cs, sid, b, h, i, img[i])
  }

  lemma NothingDone(img: seq<Word>, sid: Word, b: Site, h: Header)
    ensures Through(img, [], sid, b, h, img) && HeadThrough([], sid, b, h) == h
  {
  }

  /** One commission more. */
  lemma ThroughOn(img: seq<Word>, cs: seq<Commission>, i: nat, sid: Word, b: Site, h: Header, img': seq<Word>,
                  img'': seq<Word>)
    requires i < |cs| && Through(img, cs[..i], sid, b, h, img') && |img''| == |img'|
    requires forall k :: 0 <= k < |img'| ==>
               img''[k] == WordAfter(cs[i], sid, b, HeadThrough(cs[..i], sid, b, h), k, img'[k])
    ensures Through(img, cs[..i + 1], sid, b, h, img'')
    ensures HeadThrough(cs[..i + 1], sid, b, h) == HeadAfter(cs[i], sid, b, HeadThrough(cs[..i], sid, b, h))
  {
    assert cs[..i + 1][..i] == cs[..i] && cs[..i + 1][i] == cs[i];
    hide WordAfter, HeadAfter;
  }

  /** A commission is judged by the word that those before it have left. */
  lemma AllowedIff(img: seq<Word>, cs: seq<Commission>, i: nat, sid: Word, b: Site, h: Header, now: seq<Word>)
    requires i < |cs| && Through(img, cs[..i], sid, b, h, now)
    ensures Allowed(img, cs, i, sid, b, h) <==>
            && b.exe + Endpoint(cs[i]) < |now|
            && Accepts(cs[i], sid, now[b.exe + Endpoint(cs[i])])
  {
    hide Accepts, WordThrough;
  }

  /** In a package that has been loaded, what its own text decides. */
  lemma AllowedInText(img: seq<Word>, b: Site, h: Header, job: Job, k: nat)
    requires Sound(job) && |job.text| == job.p.text + 1 && b.exe + |job.text| <= |img|
    requires img[b.exe..b.exe + |job.text|] == job.text && (job.sid == 0 || h.Below(b.exe))
    ensures Allowed(img, job.commissions, k, job.sid, b, h) <==> Takes(job, b, k)
  {
    BelowBased(b, h);
    if k < |job.commissions| {
      var c := job.commissions[k];
      assert c in job.commissions && Within(c, job.p);
      assert img[b.exe..b.exe + |job.text|][Endpoint(c)] == img[b.exe + Endpoint(c)];
      SameThrough(job.commissions[..k], job.sid, b, h, BLANK, b.exe + Endpoint(c), job.text[Endpoint(c)]);
    }
    hide Accepts, WordThrough, Alike;
  }

  lemma StopsInText(img: seq<Word>, b: Site, h: Header, job: Job, n: nat)
    requires Sound(job) && |job.text| == job.p.text + 1 && b.exe + |job.text| <= |img|
    requires img[b.exe..b.exe + |job.text|] == job.text && (job.sid == 0 || h.Below(b.exe))
    requires n <= |job.commissions| && forall k :: 0 <= k < n ==> Allowed(img, job.commissions, k, job.sid, b, h)
    requires n < |job.commissions| ==> !Allowed(img, job.commissions, n, job.sid, b, h)
    ensures StopsAt(job, b, n)
  {
    hide Allowed, Takes, Sound;
    forall k | 0 <= k <= n ensures Allowed(img, job.commissions, k, job.sid, b, h) <==> Takes(job, b, k) {
      AllowedInText(img, b, h, job, k);
    }
  }

  /** Commissions of a package behind the image write there only what is open. */
  lemma ThroughFills(img: seq<Word>, t: Trie, cs: seq<Commission>, sid: Word, b: Site, h: Header, p: Package,
                     img': seq<Word>)
    requires Through(img, cs, sid, b, h, img') && t.ext < |img| && t.ext < b.exe
    requires forall c :: c in cs ==> Within(c, p)
    ensures Filled(img, t, img', h.Open())
  {
    forall i | 0 <= i <= t.ext && !InSome(h.Open(), i) ensures img'[i] == img[i] {
      WordElsewhere(cs, sid, b, h, p, i, img[i]);
    }
  }

  /** A span and this package share no word, unless it is one of the package's own jumps. */
  ghost predicate Spared(s: Span, off: nat, job: Job) {
    || s.hi < off || s.lo >= off + Words(job)
    || (off <= s.lo <= s.hi <= s.lo + 1 && s.hi < off + |job.text|
        && OwnJump(job, s.lo - off) && OwnJump(job, s.hi - off))
  }

  /** A package lies in the image: every word of its text as loaded and commissioned, but for its own jumps, every
      word of its data, and its partitions in operational memory. */
  ghost predicate Laid(h: Holding, b: Site, job: Job) {
    && Based(job, b)
    && Inside(h.spans, Span(b.exe, b.exe + |job.text| - 1)) && job.text != [] && b.exe + Words(job) <= |h.img|
    && (forall i :: 0 <= i < |job.text| && !OwnJump(job, i) ==> h.img[b.exe + i] == TextWord(job, b, i))
    && (job.p.data.Some? ==>
          var at := b.exe + |job.text|;
          && Inside(h.spans, Span(at, at + |job.data| - 1)) && job.data != []
          && forall i :: 0 <= i < |job.data| ==> h.img[at + i] == job.data[i])
    && forall s :: s in OpSpans(b.op1, job.p) ==> s in h.ops
  }

  /** A package's text, its own jumps too, as its commissions make it with such a header. */
  ghost predicate Texted(h: Holding, head: Header, b: Site, job: Job) {
    && b.exe + |job.text| <= |h.img|
    && forall i :: 0 <= i < |job.text| ==>
         h.img[b.exe + i] == WordThrough(job.commissions, job.sid, b, head, b.exe + i, job.text[i])
  }

  /** And nothing else that is open is in it. */
  ghost predicate PackageAt(h: Holding, b: Site, job: Job) {
    Laid(h, b, job) && forall s :: s in h.head.Open() ==> Spared(s, b.exe, job)
  }

  /** A package says where both of OPSEC's jumps are. */
  ghost predicate Declares(job: Job) {
    && (exists c :: c in job.commissions && c.JumpPoint? && c.toFlatline)
    && (exists c :: c in job.commissions && c.JumpPoint? && !c.toFlatline)
  }

  /** Spans and nodes lie apart. */
  ghost predicate Sorted(h: Holding) {
    && Clear(h.spans, h.trie.ext, h.trie.nodes)
    && forall p :: h.trie.IsBlock(p) ==> h.trie.nodes[p].size == h.trie.shape.Block()
  }

  /** A word of a span is no index, so it stays unless it is open. */
  lemma SpanStays(h: Holding, h': Holding, s: Span, at: int)
    requires Stays(h, h') && Sorted(h) && Inside(h.spans, s) && Holds(s, at)
    ensures 0 <= at <= h.trie.ext < |h.img| == |h'.img|
    ensures !InSome(h.head.Open(), at) ==> h'.img[at] == h.img[at]
  {
    InsideIsClear(h.spans, h.trie.ext, h.trie.nodes, s);
    assert !IsIndex(h.trie, at);
  }

  lemma SpansStay(h: Holding, h': Holding, s: Span)
    requires Stays(h, h') && Inside(h.spans, s)
    ensures Inside(h'.spans, s)
  {
    InsideMore(h.spans, h'.spans[|h.spans|..], s);
    assert h'.spans == h.spans + h'.spans[|h.spans|..];
  }

  /** No word of a package is open but its own jumps. */
  lemma NotOpen(h: Holding, b: Site, job: Job, i: nat)
    requires PackageAt(h, b, job) && i < Words(job) && InSome(h.head.Open(), b.exe + i)
    ensures i < |job.text| && OwnJump(job, i)
  {
    var s :| s in h.head.Open() && Holds(s, b.exe + i);
    assert Spared(s, b.exe, job);
    assert i == s.lo - b.exe || i == s.hi - b.exe;
  }

  /** Whatever is open after a package's commissions was so below it, or is one of its jumps. */
  lemma OpenIsSpared(cs: seq<Commission>, b: Site, h: Header, job: Job)
    requires job.commissions == cs && forall c :: c in cs ==> Within(c, job.p)
    requires |job.text| == job.p.text + 1 && forall c :: c in cs && c.JumpPoint? ==> job.sid <= 2
    requires h.Below(b.exe) || (job.sid == 0 && h.slots == {} && h.table == None && Declares(job))
    ensures forall s :: s in HeadThrough(cs, job.sid, b, h).Open() ==> Spared(s, b.exe, job)
  {
    OpenThrough(cs, job.sid, b, h);
    if !h.Below(b.exe) {
      JumpThrough(cs, 0, b, h, true);
      JumpThrough(cs, 0, b, h, false);
      SlotsThrough(cs, b, h);
    }
    hide HeadThrough;
    forall s | s in HeadThrough(cs, job.sid, b, h).Open() && OwnSpan(cs, b, s) ensures Spared(s, b.exe, job) {
      OwnIsSpared(b, job, s);
    }
  }

  lemma OwnIsSpared(b: Site, job: Job, s: Span)
    requires OwnSpan(job.commissions, b, s) && forall c :: c in job.commissions ==> Within(c, job.p)
    requires |job.text| == job.p.text + 1 && forall c :: c in job.commissions && c.JumpPoint? ==> job.sid <= 2
    ensures Spared(s, b.exe, job)
  {
    var c :| c in job.commissions && c.JumpPoint? && s == JumpSpan(b.exe + c.offset);
    assert Within(c, job.p);
    assert OwnJump(job, s.lo - b.exe) && OwnJump(job, s.hi - b.exe);
  }

  /** The words below what has been loaded. */
  lemma WordsBelow(img: seq<Word>, loaded: seq<Word>, img': seq<Word>, ext: nat, cs: seq<Commission>, sid: Word,
                   b: Site, h: Header)
    requires Through(loaded, cs, sid, b, h, img') && ext < |img| == |loaded|
    requires forall i :: 0 <= i <= ext ==> loaded[i] == img[i]
    ensures forall i :: 0 <= i <= ext ==> img'[i] == WordThrough(cs, sid, b, h, i, img[i])
  {
    hide WordThrough;
  }

  lemma BelowBased(b: Site, h: Header)
    ensures h.Below(b.exe) ==> b.exe >= 2 && Alike(h, BLANK, b.exe)
  {
    if h.Below(b.exe) {
      assert JumpSpan(h.flatline) in h.Open() && JumpSpan(h.atria) in h.Open();
      assert h.table.Some? ==> TableSpan(h.table.value) in h.Open();
    }
  }

  lemma ThroughLength(img: seq<Word>, cs: seq<Commission>, sid: Word, b: Site, h: Header, img': seq<Word>)
    requires Through(img, cs, sid, b, h, img')
    ensures |img'| == |img|
  {
  }

  lemma TextIs(img: seq<Word>, b: Site, h: Header, job: Job, loaded: seq<Word>, i: nat)
    requires b.exe + |job.text| <= |loaded| && loaded[b.exe..b.exe + |job.text|] == job.text && i < |job.text|
    requires Through(loaded, job.commissions, job.sid, b, h, img) && (job.sid == 0 || h.Below(b.exe))
    ensures b.exe + i < |img| && img[b.exe + i] == TextWord(job, b, i)
  {
    BelowBased(b, h);
    assert loaded[b.exe..b.exe + |job.text|][i] == loaded[b.exe + i];
    SameThrough(job.commissions, job.sid, b, h, BLANK, b.exe + i, job.text[i]);
    hide WordThrough, Alike;
  }

  lemma DataIs(img: seq<Word>, b: Site, h: Header, job: Job, loaded: seq<Word>, i: nat)
    requires Sound(job) && |job.text| == job.p.text + 1 && job.p.data.Some? && b.exe + Words(job) <= |loaded|
    requires loaded[b.exe + |job.text|..b.exe + Words(job)] == job.data && i < |job.data|
    requires Through(loaded, job.commissions, job.sid, b, h, img) && (job.sid == 0 || h.Below(b.exe))
    ensures b.exe + |job.text| + i < |img| && img[b.exe + |job.text| + i] == job.data[i]
  {
    var at := b.exe + |job.text|;
    assert loaded[at..b.exe + Words(job)][i] == loaded[at + i];
    WordElsewhere(job.commissions, job.sid, b, h, job.p, at + i, loaded[at + i]);
    hide WordThrough;
  }

  lemma AllTextIs(img: seq<Word>, b: Site, h: Header, job: Job, loaded: seq<Word>)
    requires b.exe + |job.text| <= |loaded| && loaded[b.exe..b.exe + |job.text|] == job.text
    requires Through(loaded, job.commissions, job.sid, b, h, img) && (job.sid == 0 || h.Below(b.exe))
    ensures b.exe + |job.text| <= |img| && forall i :: 0 <= i < |job.text| ==> img[b.exe + i] == TextWord(job, b, i)
  {
    hide Through, TextWord, WordThrough;
    ThroughLength(loaded, job.commissions, job.sid, b, h, img);
    forall i | 0 <= i < |job.text| ensures img[b.exe + i] == TextWord(job, b, i) {
      TextIs(img, b, h, job, loaded, i);
    }
  }

  lemma AllDataIs(img: seq<Word>, b: Site, h: Header, job: Job, loaded: seq<Word>)
    requires Sound(job) && |job.text| == job.p.text + 1 && job.p.data.Some? && b.exe + Words(job) <= |loaded|
    requires loaded[b.exe + |job.text|..b.exe + Words(job)] == job.data
    requires Through(loaded, job.commissions, job.sid, b, h, img) && (job.sid == 0 || h.Below(b.exe))
    ensures b.exe + Words(job) <= |img|
    ensures forall i :: 0 <= i < |job.data| ==> img[b.exe + |job.text| + i] == job.data[i]
  {
    hide Through, Sound, WordThrough;
    ThroughLength(loaded, job.commissions, job.sid, b, h, img);
    forall i | 0 <= i < |job.data| ensures img[b.exe + |job.text| + i] == job.data[i] {
      DataIs(img, b, h, job, loaded, i);
    }
  }

  /** What has been loaded and commissioned is the package. */
  lemma PackageIs(h': Holding, b: Site, h: Header, job: Job, loaded: seq<Word>)
    requires Sound(job) && |job.text| == job.p.text + 1 && b.exe + Words(job) <= |loaded|
    requires loaded[b.exe..b.exe + |job.text|] == job.text
    requires Through(loaded, job.commissions, job.sid, b, h, h'.img)
    requires job.sid == 0 || h.Below(b.exe)
    requires Inside(h'.spans, Span(b.exe, b.exe + job.p.text))
    requires job.p.data.Some? ==>
               && job.data != [] && loaded[b.exe + |job.text|..b.exe + Words(job)] == job.data
               && Inside(h'.spans, Span(b.exe + |job.text|, b.exe + Words(job) - 1))
    requires forall s :: s in OpSpans(b.op1, job.p) ==> s in h'.ops
    ensures Laid(h', b, job)
  {
    hide Inside, Through, OwnJump, TextWord, Within, OpSpans, WordThrough, EvenData;
    AllTextIs(h'.img, b, h, job, loaded);
    if job.p.data.Some? {
      AllDataIs(h'.img, b, h, job, loaded);
    }
    ThroughLength(loaded, job.commissions, job.sid, b, h, h'.img);
    BelowBased(b, h);
  }

  lemma TextedIs(h': Holding, b: Site, h: Header, job: Job, loaded: seq<Word>)
    requires b.exe + |job.text| <= |loaded| && loaded[b.exe..b.exe + |job.text|] == job.text
    requires Through(loaded, job.commissions, job.sid, b, h, h'.img)
    ensures Texted(h', h, b, job)
  {
    hide WordThrough;
    forall i | 0 <= i < |job.text| ensures loaded[b.exe + i] == job.text[i] {
      assert loaded[b.exe..b.exe + |job.text|][i] == loaded[b.exe + i];
    }
  }

  /** A package's words, if it is sorted in, are below the extent. */
  lemma PackageBelow(h: Holding, b: Site, job: Job)
    requires Sorted(h) && Laid(h, b, job)
    ensures b.exe + Words(job) <= h.trie.ext + 1
  {
    InsideIsClear(h.spans, h.trie.ext, h.trie.nodes, Span(b.exe, b.exe + |job.text| - 1));
    if job.p.data.Some? {
      var at := b.exe + |job.text|;
      InsideIsClear(h.spans, h.trie.ext, h.trie.nodes, Span(at, at + |job.data| - 1));
    }
  }

  lemma TextStays(h: Holding, h': Holding, b: Site, job: Job, i: nat)
    requires Stays(h, h') && Sorted(h) && PackageAt(h, b, job) && i < |job.text| && !OwnJump(job, i)
    ensures b.exe + i < |h'.img| && h'.img[b.exe + i] == TextWord(job, b, i)
  {
    hide Stays, Sorted, Inside, InSome, OwnJump, TextWord;
    SpanStays(h, h', Span(b.exe, b.exe + |job.text| - 1), b.exe + i);
    if InSome(h.head.Open(), b.exe + i) {
      NotOpen(h, b, job, i);
    }
  }

  lemma DataStays(h: Holding, h': Holding, b: Site, job: Job, i: nat)
    requires Stays(h, h') && Sorted(h) && PackageAt(h, b, job) && job.p.data.Some? && i < |job.data|
    ensures b.exe + |job.text| + i < |h'.img| && h'.img[b.exe + |job.text| + i] == job.data[i]
  {
    hide Stays, Sorted, Inside, InSome, OwnJump, TextWord;
    var at := b.exe + |job.text|;
    SpanStays(h, h', Span(at, at + |job.data| - 1), at + i);
    if InSome(h.head.Open(), at + i) {
      NotOpen(h, b, job, |job.text| + i);
    }
  }

  /** A package stays where it is and as it is. */
  lemma PackageStays(h: Holding, h': Holding, b: Site, job: Job)
    requires Stays(h, h') && Sorted(h) && PackageAt(h, b, job)
    ensures PackageAt(h', b, job)
  {
    hide Sorted, Inside, InSome, Filled, Behind, OwnJump, TextWord;
    PackageBelow(h, b, job);
    SpansStay(h, h', Span(b.exe, b.exe + |job.text| - 1));
    forall i | 0 <= i < |job.text| && !OwnJump(job, i)
      ensures b.exe + i < |h'.img| && h'.img[b.exe + i] == TextWord(job, b, i)
    {
      TextStays(h, h', b, job, i);
    }
    if job.p.data.Some? {
      SpansStay(h, h', Span(b.exe + |job.text|, b.exe + Words(job) - 1));
      forall i | 0 <= i < |job.data|
        ensures b.exe + |job.text| + i < |h'.img| && h'.img[b.exe + |job.text| + i] == job.data[i]
      {
        DataStays(h, h', b, job, i);
      }
    }
    SameSize(h, h');
  }

  lemma SameSize(h: Holding, h': Holding)
    requires Stays(h, h')
    ensures |h.img| == |h'.img|
  {
  }

  lemma AtStays(h: Holding, h': Holding, b: Site, job: Job)
    requires Stays(h, h') && Sorted(h)
    ensures PackageAt(h, b, job) ==> PackageAt(h', b, job)
  {
    hide Stays, Sorted, PackageAt;
    if PackageAt(h, b, job) {
      PackageStays(h, h', b, job);
    }
  }

  /** What is open behind the image is not in a package. */
  lemma LaidInside(h: Holding, b: Site, job: Job)
    requires Laid(h, b, job)
    ensures PackageAt(h.(head := Header(|h.img|, |h.img|, None, {})), b, job)
  {
    hide OwnJump, TextWord, OpSpans;
  }

  /** No word of a text is an index. */
  lemma TextIsNoIndex(h: Holding, b: Site, job: Job, i: nat)
    requires Sorted(h) && Laid(h, b, job) && i < |job.text|
    ensures b.exe + i <= h.trie.ext && !IsIndex(h.trie, b.exe + i)
  {
    hide TextWord, OwnJump, OpSpans;
    InsideIsClear(h.spans, h.trie.ext, h.trie.nodes, Span(b.exe, b.exe + |job.text| - 1));
  }

  lemma TextedStays(h: Holding, h': Holding, head: Header, b: Site, job: Job)
    requires Sorted(h) && Laid(h, b, job) && Filled(h.img, h.trie, h'.img, {}) && Texted(h, head, b, job)
    ensures Texted(h', head, b, job)
  {
    hide Sorted, TextWord, OwnJump, OpSpans, Inside, IsIndex, WordThrough;
    forall i | 0 <= i < |job.text|
      ensures h'.img[b.exe + i] == WordThrough(job.commissions, job.sid, b, head, b.exe + i, job.text[i])
    {
      TextIsNoIndex(h, b, job, i);
    }
  }

  /** Where a package is does not depend on the header. */
  lemma LaidIsSame(h: Holding, h': Holding, b: Site, job: Job)
    requires h' == h.(head := h'.head) && Laid(h, b, job)
    ensures Laid(h', b, job)
  {
  }

  /** The same of a package that words at indices alone may have changed around. */
  lemma LaidStays(h: Holding, h': Holding, b: Site, job: Job)
    requires Behind(h.trie, h'.trie) && Filled(h.img, h.trie, h'.img, {}) && h.spans <= h'.spans && h.ops <= h'.ops
    requires Sorted(h) && Laid(h, b, job)
    ensures Laid(h', b, job)
  {
    hide Filled, Behind, Stacked, SpanApart, Laid, Inside, OpSpans;
    var head := Header(|h.img|, |h.img|, None, {});
    var g, g' := h.(head := head), h'.(head := head);
    LaidInside(h, b, job);
    FilledMore(h.img, h.trie, h'.img, head.Open());
    StaysIf(g, g');
    PackageStays(g, g', b, job);
    LaidIsSame(g', h', b, job);
  }

  /** What becomes of an image that has a register when the first commissions of a job are carried out: of its header,
      of every word that was there, but for empty indices; and all stays. */
  ghost predicate Carried(h: Holding, h': Holding, job: Job, b: Site, done: nat) {
    && done <= |job.commissions| && h.trie.ext < |h.img| == |h'.img|
    && h'.head == HeadThrough(job.commissions[..done], job.sid, b, h.head)
    && (forall i :: 0 <= i <= h.trie.ext && !IsIndex(h.trie, i) ==>
          h'.img[i] == WordThrough(job.commissions[..done], job.sid, b, h.head, i, h.img[i]))
    && Stays(h, h')
  }

  /** Indices filled in and nodes added behind change nothing about that. */
  lemma CarriedOn(h: Holding, h': Holding, h'': Holding, job: Job, b: Site, done: nat)
    requires Carried(h, h', job, b, done) && h''.head == h'.head && h''.spans == h'.spans && h''.ops == h'.ops
    requires Filled(h'.img, h'.trie, h''.img, {}) && Behind(h'.trie, h''.trie) && h'.trie.nodes == h.trie.nodes
    ensures Carried(h, h'', job, b, done)
  {
    hide HeadThrough, WordThrough, IsIndex, InSome;
    FilledMore(h'.img, h'.trie, h''.img, h'.head.Open());
    StaysIf(h', h'');
    StaysOn(h, h', h'');
    forall i | 0 <= i <= h.trie.ext && !IsIndex(h.trie, i) ensures h''.img[i] == h'.img[i] {
      StillNoIndex(h.trie, h'.trie, i);
      UntouchedIn(h'.img, h'.trie, h''.img, i);
    }
  }

  /** New nodes lie behind, so a word that was there does not become an index. */
  lemma StillNoIndex(t: Trie, t': Trie, i: nat)
    requires Behind(t, t') && i <= t.ext && !IsIndex(t, i)
    ensures !IsIndex(t', i)
  {
  }

  lemma UntouchedIn(img: seq<Word>, t: Trie, img': seq<Word>, i: nat)
    requires Filled(img, t, img', {}) && i <= t.ext && !IsIndex(t, i)
    ensures img'[i] == img[i]
  {
  }

  /** What becomes of an image that has a register over a sequence of registrations. */
  ghost predicate Passed(h: Holding, h': Holding, visits: seq<Visit>) {
    && h.trie.ext < |h.img| == |h'.img| && h'.head == HeadOver(visits, h.head)
    && (forall i :: 0 <= i <= h.trie.ext && !IsIndex(h.trie, i) ==>
          h'.img[i] == WordOver(visits, h.head, i, h.img[i]))
    && Stays(h, h')
  }

  lemma CarriedStays(h: Holding, h': Holding, job: Job, b: Site, done: nat)
    requires Carried(h, h', job, b, done)
    ensures Stays(h, h') && h.trie.ext <= h'.trie.ext
  {
  }

  /** A job whose number is taken is refused only behind its commissions: a second package for FLATLINE or ATRIA takes
      over OPSEC's jump all the same. */
  lemma RefusedStillLinks(h: Holding, h': Holding, job: Job, b: Site)
    requires Carried(h, h', job, b, |job.commissions|) && (job.sid == FLATLINE_SID || job.sid == ATRIA_SID)
    requires job.commissions != [] && job.commissions[|job.commissions| - 1].Desk?
    requires forall c :: c in job.commissions ==> !(c.JumpPoint? && c.toFlatline == (job.sid == FLATLINE_SID))
    requires Sorted(h) && Inside(h.spans, JumpSpan(h.head.Jump(job.sid == FLATLINE_SID)))
    ensures var j := h.head.Jump(job.sid == FLATLINE_SID);
            && j + 1 < |h'.img|
            && R.JumpTarget(h'.img[j], h'.img[j + 1])
               == (b.exe + job.commissions[|job.commissions| - 1].offset) % 0x1_0000
  {
    hide WordThrough, HeadThrough, R.JumpTarget, Stays;
    var j := h.head.Jump(job.sid == FLATLINE_SID);
    InsideIsClear(h.spans, h.trie.ext, h.trie.nodes, JumpSpan(j));
    assert !IsIndex(h.trie, j) && !IsIndex(h.trie, j + 1);
    assert job.commissions[..|job.commissions|] == job.commissions;
    LastDeskLinks(job.commissions, job.sid, b, h.head, h.img[j], h.img[j + 1]);
  }

  /** What the register of an image has for a secretariat. */
  ghost function RecordOf(h: Holding, sid: Word): Option<seq<Word>> {
    Answer(Entry(h.img, h.trie, PathOf(sid)))
  }

  /** A job's record is in the register, and its package in the image. */
  ghost predicate Seated(h: Holding, job: Job, b: Site) {
    RecordOf(h, job.sid) == Some(job.record) && PackageAt(h, b, job)
  }

  ghost predicate AllSeated(h: Holding, jobs: seq<Job>, oks: seq<bool>, visits: seq<Visit>) {
    |oks| == |visits| <= |jobs| && forall i :: 0 <= i < |visits| && oks[i] ==> Seated(h, jobs[i], visits[i].b)
  }

  lemma AllSeatedOn(h: Holding, h': Holding, jobs: seq<Job>, oks: seq<bool>, visits: seq<Visit>, ok: bool, v: Visit)
    requires Sorted(h) && Stays(h, h') && AllSeated(h, jobs, oks, visits) && |oks| < |jobs|
    requires forall t: Word :: RecordOf(h, t).Some? ==> RecordOf(h', t) == RecordOf(h, t)
    requires ok ==> Seated(h', jobs[|oks|], v.b)
    ensures AllSeated(h', jobs, oks + [ok], visits + [v])
  {
    hide Sorted, Stays, PackageAt, RecordOf;
    forall i | 0 <= i < |visits| && oks[i] ensures Seated(h', jobs[i], visits[i].b) {
      AtStays(h, h', visits[i].b, jobs[i]);
    }
  }

  /** Every word of the text of the i-th job is what all commissions carried out from its own on make of it. */
  ghost predicate TextOver(h: Holding, job: Job, visits: seq<Visit>, i: nat, head: Header)
    requires i < |visits|
  {
    var b := visits[i].b;
    && b.exe + |job.text| <= |h.img|
    && forall k :: 0 <= k < |job.text| ==>
         h.img[b.exe + k] == WordOver(visits[i..], HeadOver(visits[..i], head), b.exe + k, job.text[k])
  }

  ghost predicate AllTexts(h: Holding, jobs: seq<Job>, oks: seq<bool>, visits: seq<Visit>, head: Header) {
    && |oks| == |visits| <= |jobs|
    && forall i :: 0 <= i < |visits| && oks[i] ==> TextOver(h, jobs[i], visits, i, head)
  }

  lemma TextOverOn(h: Holding, h': Holding, text: Job, visits: seq<Visit>, i: nat, head: Header, job: Job, b: Site,
                   done: nat)
    requires i < |visits| && TextOver(h, text, visits, i, head) && h.head == HeadOver(visits, head)
    requires Sorted(h) && Laid(h, visits[i].b, text) && Carried(h, h', job, b, done)
    ensures TextOver(h', text, visits + [Visit(job.sid, b, job.commissions[..done])], i, head)
  {
    hide Sorted, Laid, IsIndex, Stays, HeadOver, WordOver, HeadThrough, WordThrough;
    var v := Visit(job.sid, b, job.commissions[..done]);
    assert (visits + [v])[i..] == visits[i..] + [v] && (visits + [v])[..i] == visits[..i];
    OverSplit(visits, i, head);
    forall k | 0 <= k < |text.text|
      ensures var at := visits[i].b.exe + k;
              h'.img[at] == WordOver(visits[i..] + [v], HeadOver(visits[..i], head), at, text.text[k])
    {
      TextIsNoIndex(h, visits[i].b, text, k);
      OverOne(visits[i..], v, HeadOver(visits[..i], head), visits[i].b.exe + k, text.text[k]);
    }
  }

  lemma TextOverNew(h: Holding, job: Job, visits: seq<Visit>, head: Header, v: Visit)
    requires v.sid == job.sid && v.carried == job.commissions && Texted(h, HeadOver(visits, head), v.b, job)
    ensures TextOver(h, job, visits + [v], |visits|, head)
  {
    hide HeadThrough, WordThrough;
    assert (visits + [v])[|visits|..] == [] + [v] && (visits + [v])[..|visits|] == visits;
    forall k | 0 <= k < |job.text|
      ensures var at := v.b.exe + k;
              h.img[at] == WordOver([] + [v], HeadOver(visits, head), at, job.text[k])
    {
      OverOne([], v, HeadOver(visits, head), v.b.exe + k, job.text[k]);
    }
  }

  lemma AllTextsOn(h: Holding, h': Holding, jobs: seq<Job>, oks: seq<bool>, visits: seq<Visit>, head: Header, ok: bool,
                   b: Site, done: nat)
    requires Sorted(h) && AllSeated(h, jobs, oks, visits) && AllTexts(h, jobs, oks, visits, head) && |oks| < |jobs|
    requires done <= |jobs[|oks|].commissions|
    requires h.head == HeadOver(visits, head) && Carried(h, h', jobs[|oks|], b, done)
    requires ok ==> done == |jobs[|oks|].commissions| && Texted(h', h.head, b, jobs[|oks|])
    ensures AllTexts(h', jobs, oks + [ok], visits + [Visit(jobs[|oks|].sid, b, jobs[|oks|].commissions[..done])], head)
  {
    hide Sorted, Laid, TextOver, HeadOver, Texted, Carried, RecordOf;
    var n, job := |oks|, jobs[|oks|];
    var v := Visit(job.sid, b, job.commissions[..done]);
    forall i | 0 <= i <= n && (oks + [ok])[i] ensures TextOver(h', jobs[i], visits + [v], i, head) {
      if i < n {
        TextOverOn(h, h', jobs[i], visits, i, head, job, b, done);
      } else {
        assert job.commissions[..done] == job.commissions;
        TextOverNew(h', job, visits, head, v);
      }
    }
  }

  lemma NothingJudged(h: Holding, jobs: seq<Job>, known: iset<Word>, ext: nat, op: nat, next: Site)
    ensures Judged(jobs, [], [], known) && AllSeated(h, jobs, [], []) && InOrder(jobs, [], [], ext, op)
    ensures AllAhead(jobs, [], [], next) && AllTexts(h, jobs, [], [], h.head) && forall t: Word :: !TakenBy(jobs, [], t)
  {
  }

  lemma NothingPassed(h: Holding)
    requires Stays(h, h)
    ensures Passed(h, h, [])
  {
  }

  lemma PassedHead(h: Holding, h': Holding, visits: seq<Visit>)
    requires Passed(h, h', visits)
    ensures h'.head == HeadOver(visits, h.head)
  {
  }

  lemma PassedOn(h: Holding, h': Holding, h'': Holding, visits: seq<Visit>, job: Job, b: Site, done: nat)
    requires Passed(h, h', visits) && Carried(h', h'', job, b, done)
    ensures Passed(h, h'', visits + [Visit(job.sid, b, job.commissions[..done])])
  {
    hide HeadThrough, WordThrough, HeadOver, WordOver, IsIndex, Stays;
    var v := Visit(job.sid, b, job.commissions[..done]);
    StaysOn(h, h', h'');
    OverOne(visits, v, h.head, 0, 0);
    forall i | 0 <= i <= h.trie.ext && !IsIndex(h.trie, i)
      ensures h''.img[i] == WordOver(visits + [v], h.head, i, h.img[i])
    {
      StaysBehind(h, h');
      StillNoIndex(h.trie, h'.trie, i);
      OverOne(visits, v, h.head, i, h.img[i]);
    }
  }

  lemma StaysBehind(h: Holding, h': Holding)
    requires Stays(h, h')
    ensures Behind(h.trie, h'.trie)
  {
  }

  lemma PartInside(spans: seq<Span>, s: Span, part: Span)
    requires Inside(spans, s) && s.lo <= part.lo && part.hi <= s.hi
    ensures Inside(spans, part)
  {
  }

  // --------------------------------------------------------------------- Interrupt handlers in place

  /** An entry of the table at top: its flags, the handler, and the office that it reports to. */
  ghost predicate EntryAt(img: seq<Word>, top: nat, intr: nat, flags: Byte, handler: int, office: int)
    requires top + SISR_TABLE <= |img| && intr <= INTR_MAX
  {
    && ByteAt(img, top, 5 * intr) == flags
    && ByteAt(img, top, 5 * intr + 1) + 0x100 * ByteAt(img, top, 5 * intr + 2) == handler
    && ByteAt(img, top, 5 * intr + 3) + 0x100 * ByteAt(img, top, 5 * intr + 4) == office
  }

  /** After a sequence of registrations each interrupt has the last handler that one asked for, where its text then
      lies, and the office with it; an interrupt that none asked for has what it had. */
  ghost predicate Handled(img: seq<Word>, img': seq<Word>, top: nat, visits: seq<Visit>)
    requires top + SISR_TABLE <= |img| == |img'|
  {
    && (forall i: nat, k: nat :: LastIsr(visits, i, k) && visits[i].carried[k].intr <= INTR_MAX ==>
          var (v, c) := (visits[i], visits[i].carried[k]);
          EntryAt(img', top, c.intr, 0x7f, (v.b.exe + c.offset) % 0x1_0000, c.office))
    && forall m :: 0 <= m < 2 * SISR_TABLE && (forall v :: v in visits ==> !Asks(v, m / 5)) ==>
         ByteAt(img', top, m) == ByteAt(img, top, m)
  }

  /** The words of a table are there, and no indices. */
  ghost predicate TableIn(img: seq<Word>, t: Trie, top: nat) {
    && top + SISR_TABLE <= t.ext + 1 && t.ext < |img|
    && forall k :: top <= k < top + SISR_TABLE ==> !IsIndex(t, k)
  }

  /** And OPSEC's jumps are elsewhere. */
  ghost predicate Tabled(h: Holding) {
    h.head.table.Some? && JumpsOff(h.head) && TableIn(h.img, h.trie, h.head.table.value)
  }

  /** Indices filled in leave a table as it is. */
  lemma EntriesStay(img: seq<Word>, t: Trie, img': seq<Word>, top: nat, intr: nat, flags: Byte, handler: int,
                    office: int)
    requires TableIn(img, t, top) && Filled(img, t, img', {}) && intr <= INTR_MAX
    requires EntryAt(img, top, intr, flags, handler, office)
    ensures EntryAt(img', top, intr, flags, handler, office)
  {
    hide IsIndex;
    forall k | top <= k < top + SISR_TABLE ensures img'[k] == img[k] {
      UntouchedIn(img, t, img', k);
    }
  }

  ghost predicate AllTrapped(img: seq<Word>, top: nat, trap: nat)
    requires top + SISR_TABLE <= |img|
  {
    forall intr :: 0 <= intr <= INTR_MAX ==> EntryAt(img, top, intr, 0, trap, 0)
  }

  lemma TrapsAreSet(img: seq<Word>, top: nat, trap: Word)
    requires top + SISR_TABLE <= |img|
    requires forall n :: 0 <= n < 5 * (INTR_MAX + 1) ==> ByteAt(img, top, n) == TrapByte(trap, n)
    ensures AllTrapped(img, top, trap)
  {
    hide ByteAt;
    forall intr | 0 <= intr <= INTR_MAX ensures EntryAt(img, top, intr, 0, trap, 0) {
      assert ByteAt(img, top, 5 * intr) == 0 && ByteAt(img, top, 5 * intr + 3) == 0
             && ByteAt(img, top, 5 * intr + 4) == 0;
      assert ByteAt(img, top, 5 * intr + 1) == trap % 0x100 && ByteAt(img, top, 5 * intr + 2) == trap / 0x100;
    }
  }

  lemma TrapsStay(img: seq<Word>, t: Trie, img': seq<Word>, top: nat, trap: nat)
    requires TableIn(img, t, top) && Filled(img, t, img', {}) && AllTrapped(img, top, trap)
    ensures AllTrapped(img', top, trap)
  {
    hide EntryAt, IsIndex, InSome;
    forall intr | 0 <= intr <= INTR_MAX ensures EntryAt(img', top, intr, 0, trap, 0) {
      EntriesStay(img, t, img', top, intr, 0, trap, 0);
    }
  }

  lemma TableWordIs(h: Holding, h': Holding, visits: seq<Visit>, at: nat)
    requires Passed(h, h', visits) && at <= h.trie.ext && !IsIndex(h.trie, at)
    ensures at < |h.img| == |h'.img| && h'.img[at] == WordOver(visits, h.head, at, h.img[at])
  {
    hide IsIndex, Stays, HeadOver, WordOver;
  }

  lemma TableByteIs(h: Holding, h': Holding, visits: seq<Visit>, m: nat)
    requires Passed(h, h', visits) && Tabled(h) && m < 2 * SISR_TABLE
    requires forall i :: 0 <= i < |visits| ==> visits[i].b.exe > h.trie.ext
    ensures h.head.table.Some? && h.head.table.value + SISR_TABLE <= |h.img| == |h'.img|
    ensures var top := h.head.table.value;
            ByteAt(h'.img, top, m) == TableByteOver(visits, m, ByteAt(h.img, top, m))
  {
    hide IsIndex, Passed, HeadOver, WordOver, TableByteOver, JumpsOff;
    var k, top := m / 2, h.head.table.value;
    TableWordIs(h, h', visits, top + k);
    TableOver(visits, h.head, k, h.img[top + k]);
    assert m == 2 * k + m % 2;
  }

  lemma HandlerByte(h: Holding, h': Holding, visits: seq<Visit>, i: nat, k: nat, n: nat)
    requires Passed(h, h', visits) && Tabled(h) && forall j :: 0 <= j < |visits| ==> visits[j].b.exe > h.trie.ext
    requires LastIsr(visits, i, k) && visits[i].carried[k].intr <= INTR_MAX && n < 5
    ensures h.head.table.Some? && h.head.table.value + SISR_TABLE <= |h'.img|
    ensures var (v, c) := (visits[i], visits[i].carried[k]);
            ByteAt(h'.img, h.head.table.value, 5 * c.intr + n) == HandlerEntry(v.b.exe + c.offset, c.office)[n]
  {
    hide Passed, Tabled, ByteAt, TableByteOver, HandlerEntry, Asks;
    TabledFits(h, h', visits);
    var c := visits[i].carried[k];
    TableByteIs(h, h', visits, 5 * c.intr + n);
    LastIsHeld(visits, i, k, 5 * c.intr + n, ByteAt(h.img, h.head.table.value, 5 * c.intr + n));
  }

  lemma HandlerIs(h: Holding, h': Holding, visits: seq<Visit>, i: nat, k: nat)
    requires Passed(h, h', visits) && Tabled(h) && forall j :: 0 <= j < |visits| ==> visits[j].b.exe > h.trie.ext
    requires LastIsr(visits, i, k) && visits[i].carried[k].intr <= INTR_MAX
    ensures var (v, c) := (visits[i], visits[i].carried[k]);
            EntryAt(h'.img, h.head.table.value, c.intr, 0x7f, (v.b.exe + c.offset) % 0x1_0000, c.office)
  {
    hide Passed, Tabled, LastIsr, ByteAt, TableByteOver;
    TabledFits(h, h', visits);
    LastFits(visits, i, k);
    var (v, c) := (visits[i], visits[i].carried[k]);
    HandlerByte(h, h', visits, i, k, 0);
    HandlerByte(h, h', visits, i, k, 1);
    HandlerByte(h, h', visits, i, k, 2);
    HandlerByte(h, h', visits, i, k, 3);
    HandlerByte(h, h', visits, i, k, 4);
    Halves(v.b.exe + c.offset);
  }

  lemma Halves(x: nat)
    ensures x % 0x100 + 0x100 * (x / 0x100 % 0x100) == x % 0x1_0000
  {
    LowAndHigh(x);
  }

  lemma TabledFits(h: Holding, h': Holding, visits: seq<Visit>)
    requires Passed(h, h', visits) && Tabled(h)
    ensures h.head.table.Some? && h.head.table.value + SISR_TABLE <= |h.img| == |h'.img|
  {
  }

  lemma LastFits(visits: seq<Visit>, i: nat, k: nat)
    requires LastIsr(visits, i, k)
    ensures i < |visits| && k < |visits[i].carried| && visits[i].carried[k].Isr?
  {
  }

  lemma HandlersStand(h: Holding, h': Holding, visits: seq<Visit>)
    requires Passed(h, h', visits) && Tabled(h) && forall j :: 0 <= j < |visits| ==> visits[j].b.exe > h.trie.ext
    ensures h.head.table.Some? && h.head.table.value + SISR_TABLE <= |h.img| == |h'.img|
    ensures Handled(h.img, h'.img, h.head.table.value, visits)
  {
    hide Passed, Tabled, ByteAt, TableByteOver, EntryAt, Asks;
    TabledFits(h, h', visits);
    var top := h.head.table.value;
    forall i: nat, k: nat | LastIsr(visits, i, k) && visits[i].carried[k].intr <= INTR_MAX
      ensures var (v, c) := (visits[i], visits[i].carried[k]);
              EntryAt(h'.img, top, c.intr, 0x7f, (v.b.exe + c.offset) % 0x1_0000, c.office)
    {
      HandlerIs(h, h', visits, i, k);
    }
    forall m | 0 <= m < 2 * SISR_TABLE && (forall v :: v in visits ==> !Asks(v, m / 5))
      ensures ByteAt(h'.img, top, m) == ByteAt(h.img, top, m)
    {
      TableByteIs(h, h', visits, m);
      NobodyAsksOver(visits, m, ByteAt(h.img, top, m));
    }
  }

  // --------------------------------------------------------------------- Relocations in place

  /** Two commissions of a package that are the low and the high half of one relocation, each on a word that no other
      commission patches. */
  ghost predicate IsPair(job: Job, k: nat, l: nat) {
    && k < |job.commissions| && l < |job.commissions|
    && var lo, hi := job.commissions[k], job.commissions[l];
       && lo.Imm? && hi.Imm? && lo.ref == hi.ref && lo.ref.part != R.Nul
       && !lo.kind.hi && hi.kind == lo.kind.(hi := true)
       && lo.offset < |job.text| && Alone(job.commissions, k, lo.offset) && !OwnJump(job, lo.offset)
       && hi.offset < |job.text| && Alone(job.commissions, l, hi.offset) && !OwnJump(job, hi.offset)
  }

  /** The address that two instructions load. */
  function PairIn(img: seq<Word>, lo: nat, hi: nat): int
    requires lo < |img| && hi < |img|
  {
    R.Immediate(img[lo]) + 0x100 * R.Immediate(img[hi])
  }

  /** The pair loads its symbol's moved address, or the complement, exactly when the packager has kept all of it. */
  ghost predicate PairTranslates(h: Holding, b: Site, lo: Commission, hi: Commission)
    requires lo.Imm? && hi.Imm? && b.exe + lo.offset < |h.img| && b.exe + hi.offset < |h.img|
  {
    forall part: R.Part, value: nat, addend: int :: lo.ref == R.Package(part, value, addend) && part != R.Nul ==>
      var to := R.Moved(part, value, addend, lo.kind.word, b.Base());
      PairIn(h.img, b.exe + lo.offset, b.exe + hi.offset) == (if lo.kind.neg then -to else to) % 0x1_0000
      <==> R.Kept(part, value, addend, lo.kind.word)
  }

  lemma PairInPlace(h: Holding, b: Site, job: Job, k: nat, l: nat)
    requires Laid(h, b, job) && IsPair(job, k, l)
    ensures PairTranslates(h, b, job.commissions[k], job.commissions[l])
  {
    hide R.Immediate, R.WithImmediate, R.Half, R.Objective, R.Moved, R.Kept, OwnJump, Alone, Inside, OpSpans;
    var lo, hi := job.commissions[k], job.commissions[l];
    ImmInPlace(job, b, k);
    ImmInPlace(job, b, l);
    forall part: R.Part, value: nat, addend: int | lo.ref == R.Package(part, value, addend) && part != R.Nul
      ensures var to := R.Moved(part, value, addend, lo.kind.word, b.Base());
              PairIn(h.img, b.exe + lo.offset, b.exe + hi.offset) == (if lo.kind.neg then -to else to) % 0x1_0000
              <==> R.Kept(part, value, addend, lo.kind.word)
    {
      R.TranslatesIffKept(job.text[lo.offset], job.text[hi.offset], part, value, addend, lo.kind.word, lo.kind.neg,
                          b.Base());
    }
  }

  /** A relocated jump or call whose words no other commission patches. */
  ghost predicate IsJmp(job: Job, k: nat) {
    && k < |job.commissions|
    && var c := job.commissions[k];
       && c.Jmp? && c.ref.ref >= 0 && c.ref.annex == None && c.offset + 1 < |job.text|
       && Alone(job.commissions, k, c.offset) && Alone(job.commissions, k, c.offset + 1)
       && !OwnJump(job, c.offset) && !OwnJump(job, c.offset + 1)
  }

  lemma JmpIsInPlace(h: Holding, b: Site, job: Job, k: nat)
    requires Laid(h, b, job) && IsJmp(job, k)
    ensures var at := b.exe + job.commissions[k].offset;
            R.FollowsSymbol(h.img[at], h.img[at + 1], job.commissions[k].ref, b.Base())
  {
    hide R.JumpTarget, R.WithTarget, R.FollowsSymbol, OwnJump, Alone, Inside, OpSpans;
    var at := b.exe + job.commissions[k].offset;
    JmpInPlace(job, b, k);
    R.JumpFollowsSymbol(h.img[at], h.img[at + 1], job.commissions[k].ref, b.Base());
  }

  /** A relocated word that no other commission patches. */
  ghost predicate IsMod(job: Job, k: nat) {
    && k < |job.commissions|
    && var c := job.commissions[k];
       && c.Mod? && c.ref.part != R.Nul && c.offset < |job.text|
       && Alone(job.commissions, k, c.offset) && !OwnJump(job, c.offset)
  }

  /** The word, or the half of it that is relocated, has its symbol's moved address in it if the packager has kept all
      of it; and a whole word only then. */
  ghost predicate ModTranslates(w: Word, was: Word, c: Commission, b: Site)
    requires c.Mod?
  {
    forall part: R.Part, value: nat, addend: int :: c.ref == R.Package(part, value, addend) && part != R.Nul ==>
      var to := R.Moved(part, value, addend, false, b.Base()) % 0x1_0000;
      if R.KeptInWord(part, value, addend) then w == R.Modified(was, c.form, to) else c.form.Full? ==> w != to
  }

  lemma ModIsInPlace(h: Holding, b: Site, job: Job, k: nat)
    requires Laid(h, b, job) && IsMod(job, k)
    ensures var c := job.commissions[k];
            ModTranslates(h.img[b.exe + c.offset], job.text[c.offset], c, b)
  {
    hide R.Value, R.Moved, R.KeptInWord, OwnJump, Alone, Inside, OpSpans, TextWord;
    var c := job.commissions[k];
    ModInPlace(job, b, k);
    forall part: R.Part, value: nat, addend: int | c.ref == R.Package(part, value, addend) && part != R.Nul
      ensures R.Value(c.ref, b.Base()) == R.Moved(part, value, addend, false, b.Base()) % 0x1_0000
              <==> R.KeptInWord(part, value, addend)
    {
      R.ModTranslatesIff(part, value, addend, b.Base());
    }
  }

  /** Two instructions that load the address of the register or the table, and that no other commission patches. */
  ghost predicate IsLink(job: Job, k: nat) {
    && k < |job.commissions|
    && var c := job.commissions[k];
       && c.Link? && c.offset + 1 < |job.text|
       && Alone(job.commissions, k, c.offset) && Alone(job.commissions, k, c.offset + 1)
       && !OwnJump(job, c.offset) && !OwnJump(job, c.offset + 1)
  }

  lemma LinkIsInPlace(h: Holding, b: Site, job: Job, k: nat)
    requires Laid(h, b, job) && IsLink(job, k)
    ensures var c := job.commissions[k];
            PairIn(h.img, b.exe + c.offset, b.exe + c.offset + 1)
            == 2 * (if c.toTable then b.top else b.alpha) % 0x1_0000
  {
    hide R.Immediate, OwnJump, Alone, Inside, OpSpans, TextWord;
    LinkInPlace(job, b, k);
    assert h.img[b.exe + (job.commissions[k].offset + 1)] == TextWord(job, b, job.commissions[k].offset + 1);
  }

  /** Every relocation of a package works as the ELF file means it, exactly when the packager has kept all of it, and
      instructions that are to load the register's address or the table's do so. */
  ghost predicate Relocated(h: Holding, b: Site, job: Job)
    requires Laid(h, b, job)
  {
    && (forall k: nat, l: nat :: IsPair(job, k, l) ==> PairTranslates(h, b, job.commissions[k], job.commissions[l]))
    && (forall k: nat :: IsJmp(job, k) ==>
          var at := b.exe + job.commissions[k].offset;
          R.FollowsSymbol(h.img[at], h.img[at + 1], job.commissions[k].ref, b.Base()))
    && (forall k: nat :: IsMod(job, k) ==>
          var c := job.commissions[k];
          ModTranslates(h.img[b.exe + c.offset], job.text[c.offset], c, b))
    && forall k: nat :: IsLink(job, k) ==>
         var c := job.commissions[k];
         PairIn(h.img, b.exe + c.offset, b.exe + c.offset + 1) == 2 * (if c.toTable then b.top else b.alpha) % 0x1_0000
  }

  lemma PackageRelocates(h: Holding, b: Site, job: Job)
    requires Laid(h, b, job)
    ensures Relocated(h, b, job)
  {
    hide R.FollowsSymbol, OwnJump, Alone, OpSpans, Inside, R.Moved, R.Kept, R.KeptInWord, TextWord, R.Immediate,
      R.Modified, R.Value;
    forall k: nat, l: nat | IsPair(job, k, l) ensures PairTranslates(h, b, job.commissions[k], job.commissions[l]) {
      PairInPlace(h, b, job, k, l);
    }
    forall k: nat | IsJmp(job, k)
      ensures var at := b.exe + job.commissions[k].offset;
              R.FollowsSymbol(h.img[at], h.img[at + 1], job.commissions[k].ref, b.Base())
    {
      JmpIsInPlace(h, b, job, k);
    }
    forall k: nat | IsMod(job, k)
      ensures var c := job.commissions[k];
              ModTranslates(h.img[b.exe + c.offset], job.text[c.offset], c, b)
    {
      ModIsInPlace(h, b, job, k);
    }
    forall k: nat | IsLink(job, k)
      ensures var c := job.commissions[k];
              PairIn(h.img, b.exe + c.offset, b.exe + c.offset + 1)
              == 2 * (if c.toTable then b.top else b.alpha) % 0x1_0000
    {
      LinkIsInPlace(h, b, job, k);
    }
  }

  /** So do those of every package accepted in a session, at its end: with the register and the table that are there
      then. */
  lemma SessionRelocates(h: Holding, jobs: seq<Job>, oks: seq<bool>, visits: seq<Visit>, i: nat)
    requires AllSeated(h, jobs, oks, visits) && i < |oks| && oks[i]
    requires h.head.table.Some? && Rooted(visits, h.trie.alpha, h.head.table.value)
    ensures var b := Site(visits[i].b.exe, visits[i].b.op1, h.trie.alpha, h.head.table.value);
            Laid(h, b, jobs[i]) && Relocated(h, b, jobs[i])
  {
    hide Laid, Relocated, RecordOf;
    PackageRelocates(h, visits[i].b, jobs[i]);
  }

  class Image {
    const exe: array<Word>
    var img_ext: nat
    var op_ext: nat
    var srf_alpha: nat
    var sisr_top: nat
    var flatline: nat
    var atria: nat

    /** The nodes of the register by path, and what else lies in the image: texts and overlays, the trap and the
        interrupt service table. */
    ghost var nodes: map<Path, Node>
    ghost var spans: seq<Span>

    /** The partitions in operational memory. */
    ghost var ops: seq<Span>

    /** The table and OPSEC's jumps to FLATLINE and ATRIA, the slots in spans that later registrations fill in. */
    ghost var slots: set<Span>

    constructor (exe: array<Word>)
      requires exe.Length > 0
      ensures Whole() && srf_alpha == 0 && this.exe == exe
    {
      this.exe := exe;
      img_ext, op_ext, srf_alpha, sisr_top, flatline, atria := 0, 0, 0, 0, 0, 0;
      nodes, spans, ops, slots := map[], [], [], {};
    }

    /** The words of the image. */
    function Img(): (img: seq<Word>)
      reads exe
      ensures |img| == exe.Length
    {
      exe[..]
    }

    function Read(i: nat): (word: Word)
      requires i < exe.Length
      reads exe
      ensures word == Img()[i]
    {
      exe[i]
    }

    /** The register's trie. */
    ghost function T(): Trie
      reads `img_ext, `srf_alpha, `nodes
    {
      Trie(SRF, srf_alpha, img_ext, nodes)
    }

    ghost predicate Valid()
      reads `img_ext, `srf_alpha, `nodes, exe
    {
      Stands(Img(), T())
    }

    /** The register as a map: what it has for a secretariat. */
    ghost function Registered(sid: Word): Option<seq<Word>>
      reads `img_ext, `srf_alpha, `nodes, exe
    {
      Answer(Entry(Img(), T(), PathOf(sid)))
    }

    /** Operational memory: what is placed there lies one behind the other, up to op_ext, within bounds. */
    ghost predicate OpValid()
      reads `op_ext, `ops
    {
      Stacked(ops, op_ext) && forall i :: 0 <= i < |ops| ==> OP_MIN <= ops[i].lo && ops[i].hi <= OP_MAX
    }

    /** What the header says. */
    ghost function Head(): Header
      reads `flatline, `atria, `srf_alpha, `sisr_top, `slots
    {
      Header(flatline, atria, if srf_alpha == 0 then None else Some(sisr_top), slots)
    }

    /** All that is in the image lies apart: spans, nodes, and nothing behind img_ext. */
    ghost predicate Placed()
      reads `img_ext, `nodes, `spans, `slots
    {
      && Clear(spans, img_ext, nodes)
      && (forall s :: s in slots ==> s.lo <= s.hi && Inside(spans, s))
    }

    /** Nothing is registered yet, or the trie and the table stand. */
    ghost predicate Whole()
      reads `img_ext, `op_ext, `srf_alpha, `sisr_top, `nodes, `spans, `ops, `slots, exe
    {
      && OpValid() && Placed() && img_ext < exe.Length
      && if srf_alpha == 0 then nodes == map[]
         else Valid() && OP_MIN <= op_ext && TableSpan(sisr_top) in slots && sisr_top + SISR_TABLE <= img_ext + 1
    }

    /** sim_pull_srf. */
    method Pull(sid: Word) returns (entry: Option<seq<Word>>)
      requires Valid()
      ensures entry == Registered(sid)
    {
      hide Stands, PathOf, Record, Img, Nibbles;
      var path := PathOf(sid);
      var block, i := srf_alpha, 0;
      assert path[..4] == path;
      Root(Img(), T(), path);
      while i < 4
        invariant 0 <= i <= 4 && path[..i] in nodes && block == nodes[path[..i]].at
      {
        Follow(Img(), T(), path, i);
        if Read(block + 1 + path[i]) == 0 {
          return None;
        }
        block := Read(block + 1 + path[i]) / 2;
        i := i + 1;
      }
      NodeInside(Img(), T(), path);
      entry := Some(Record(Img()[block..block + RECORD]));
    }

    /** An index of the register holds its node's byte address, behind the one word that a block has before them. */
    lemma IndicesHoldAddresses(p: Path, k: nat)
      requires Valid() && p in nodes && |p| < 4 && k < 16
      ensures nodes[p].at + 1 + k < exe.Length && nodes[p].size == 17
      ensures exe[nodes[p].at + 1 + k] == if p + [k] in nodes then 2 * nodes[p + [k]].at else 0
    {
      LinkAt(Img(), T(), p, k);
    }

    /** Writes a new node behind the image and a pointer to it. */
    method WriteNode(slot: nat, words: seq<Word>)
      requires slot <= img_ext && img_ext + 1 + |words| <= exe.Length && 2 * (img_ext + 1) < 0x1_0000
      modifies exe
      ensures Grown(old(Img()), Img(), T(), slot, |words|)
      ensures Img()[img_ext + 1..img_ext + 1 + |words|] == words
    {
      var at := img_ext + 1;
      exe[slot] := 2 * at;
      forall i | at <= i < at + |words| {
        exe[i] := words[i - at];
      }
      assert Img()[at..at + |words|] == words;
    }

    /** Links a new node behind the image to index k of the block for p. A block starts empty. */
    method Grow(block: nat, k: nat, words: seq<Word>, ghost p: Path, ghost leaf: Path)
      requires Valid() && p in nodes && block == nodes[p].at && Child(T(), leaf, p, k) && leaf !in nodes
      requires SRF.Fits(leaf, |words|) && (|leaf| < 4 ==> Zeros(words))
      requires img_ext + 1 + |words| <= exe.Length && 2 * (img_ext + 1) < 0x1_0000
      modifies `img_ext, `nodes, exe
      ensures Valid() && T() == old(T()).Put(leaf, |words|) && img_ext == old(img_ext) + |words|
      ensures Img()[old(img_ext) + 1..img_ext + 1] == words
      ensures Grown(old(Img()), Img(), old(T()), old(T()).Slot(p, k), |words|)
    {
      hide Img, Stands, Grown, Zeros, Child;
      ghost var was := Img();
      SlotInside(was, T(), leaf, p, k);
      WriteNode(block + 1 + k, words);
      GrowKeepsTrie(was, Img(), T(), leaf, p, k, words);
      Adopt(|words|, T().Put(leaf, |words|).nodes);
    }

    /** The words written behind the image become part of it. */
    method Adopt(size: nat, ghost grown: map<Path, Node>)
      modifies `img_ext, `nodes
      ensures img_ext == old(img_ext) + size && nodes == grown
    {
      img_ext := img_ext + size;
      nodes := grown;
    }

    /** There is room for n more words, of which the record at their end is within reach of a byte pointer. */
    ghost predicate Fits(n: nat)
      reads `img_ext
    {
      img_ext + n < exe.Length && 2 * (img_ext + 1 + n - RECORD) < 0x1_0000
    }

    /** The words that a path not yet registered takes from its i-th step on. */
    ghost function Need(path: Path, i: nat): nat
      requires i <= 3 && |path| == 4
      reads `img_ext, `srf_alpha, `nodes
    {
      BLOCK * Missing(T(), path, i) + RECORD
    }

    /** Puts in the block that is missing for the next step of a path. */
    method AddBlock(block: nat, path: Path, i: nat) returns (next: nat)
      requires Valid() && |path| == 4 && Nibbles(path) && i < 3 && path[..i] in nodes
      requires block == nodes[path[..i]].at && path[..i + 1] !in nodes && path !in nodes && Fits(BLOCK + RECORD)
      modifies `img_ext, `nodes, exe
      ensures Valid() && T() == old(T()).Put(path[..i + 1], BLOCK) && next == old(img_ext) + 1
      ensures Kept(old(Img()), old(T()), Img(), T(), path)
    {
      hide Img, Stands, Grown, Child, Kept;
      ghost var was, t := Img(), T();
      next := img_ext + 1;
      ChildOf(t, path, i);
      Grow(block, path[i], seq(BLOCK, _ => 0), path[..i], path[..i + 1]);
      GrowKeeps(was, Img(), t, path, i, seq(BLOCK, _ => 0));
    }

    /** A missing block leaves room for the rest of the path. */
    lemma NeedLess(path: Path, i: nat)
      requires |path| == 4 && i < 3
      ensures Need(path, i) == Need(path, i + 1) + if path[..i + 1] in nodes then 0 else BLOCK
    {
    }

    /** One step along the path, putting in the block if it is missing. */
    method Descend(block: nat, path: Path, i: nat) returns (next: nat)
      requires Valid() && |path| == 4 && Nibbles(path) && i < 3 && path[..i] in nodes
      requires block == nodes[path[..i]].at && (path !in nodes ==> Fits(Need(path, i)))
      modifies `img_ext, `nodes, exe
      ensures Valid() && path[..i + 1] in nodes && next == nodes[path[..i + 1]].at
      ensures path !in nodes ==> img_ext + Need(path, i + 1) == old(img_ext + Need(path, i))
      ensures Kept(old(Img()), old(T()), Img(), T(), path)
    {
      hide Img, Stands, Nibbles, Kept, Missing;
      Root(Img(), T(), path);
      Follow(Img(), T(), path, i);
      NeedLess(path, i);
      var word := Read(block + 1 + path[i]);
      if word == 0 {
        MissingLater(T(), path, i, BLOCK);
        next := AddBlock(block, path, i);
      } else {
        next := word / 2;
      }
    }

    /** Follows the path to its last index block, putting in the blocks that are missing. */
    method Trace(path: Path) returns (block: nat)
      requires Valid() && |path| == 4 && Nibbles(path) && (path !in nodes ==> Fits(Need(path, 0)))
      modifies `img_ext, `nodes, exe
      ensures Valid() && path[..3] in nodes && block == nodes[path[..3]].at
      ensures path !in nodes ==> img_ext + RECORD == old(img_ext + Need(path, 0))
      ensures Kept(old(Img()), old(T()), Img(), T(), path)
    {
      hide Img, Stands, Kept, Nibbles;
      Root(Img(), T(), path);
      block := srf_alpha;
      var i := 0;
      while i < 3
        invariant 0 <= i <= 3 && Valid() && path[..i] in nodes && block == nodes[path[..i]].at
        invariant path in nodes <==> path in old(nodes)
        invariant path !in nodes ==> img_ext + Need(path, i) == old(img_ext + Need(path, 0))
        invariant Kept(old(Img()), old(T()), Img(), T(), path)
      {
        ghost var img, t := Img(), T();
        block := Descend(block, path, i);
        KeptOn(old(Img()), old(T()), img, t, Img(), T(), path);
        KeptSays(img, t, Img(), T(), path);
        i := i + 1;
      }
    }

    /** Adds the record at the end of its path. */
    method AddRecord(block: nat, path: Path, record: seq<Word>)
      requires Valid() && |path| == 4 && Nibbles(path) && path !in nodes && Fits(RECORD)
      requires path[..3] in nodes && block == nodes[path[..3]].at
      requires |record| == RECORD && record[RECORD - 1] < 0x100
      modifies `img_ext, `nodes, exe
      ensures Valid() && T() == old(T()).Put(path, RECORD) && Answer(Entry(Img(), T(), path)) == Some(record)
      ensures forall q: Path :: q != path ==> Entry(Img(), T(), q) == Entry(old(Img()), old(T()), q)
      ensures Behind(old(T()), T()) && Filled(old(Img()), old(T()), Img(), {})
    {
      hide Img, Child, Record, Stands, Grown, Entry, Behind, Nibbles, Zeros, Filled;
      ghost var was, t := Img(), T();
      ChildOf(t, path, 3);
      assert path[..4] == path;
      var high := exe[img_ext + RECORD] / 0x100;
      var words := record[RECORD - 1 := high * 0x100 + record[RECORD - 1]];
      RecordReadsBack(record, high);
      Grow(block, path[3], words, path[..3], path);
      GrowAddsEntry(was, Img(), t, path, path[..3], path[3], words);
      GrowFills(was, Img(), t, path, path[..3], path[3], RECORD);
    }

    // ------------------------------------------------------------------- Registration

    /** The first index block, the trap, and a table whose slots all link to it, behind the image. */
    method WriteRegister(alpha: nat, trap: nat)
      requires trap == alpha + BLOCK && trap + 2 + SISR_TABLE <= exe.Length && trap < 0x1_0000
      modifies exe
      ensures forall i :: alpha <= i < alpha + BLOCK ==> Img()[i] == 0
      ensures exe[trap] == ISR_TRAP_1 && exe[trap + 1] == ISR_TRAP_2
      ensures forall w :: 0 <= w < SISR_TABLE ==> Img()[trap + 2 + w] == TrapWord(trap, w)
      ensures forall i :: 0 <= i < alpha ==> exe[i] == old(exe[i])
    {
      forall i | alpha <= i < alpha + BLOCK {
        exe[i] := 0;
      }
      exe[trap] := ISR_TRAP_1;
      exe[trap + 1] := ISR_TRAP_2;
      forall w | 0 <= w < SISR_TABLE {
        exe[trap + 2 + w] := TrapWord(trap, w);
      }
    }

    /** The words that setting the register up takes. */
    static const REGISTER: nat := BLOCK + 2 + SISR_TABLE

    /** The table is a slot of its own span. */
    lemma SlotsWithTable(more: seq<Span>)
      requires |more| == 2 && more[1] == TableSpan(sisr_top)
      requires forall s :: s in slots ==> s.lo <= s.hi && Inside(spans, s)
      ensures forall s :: s in slots + {TableSpan(sisr_top)} ==> s.lo <= s.hi && Inside(spans + more, s)
    {
      forall s | s in slots + {TableSpan(sisr_top)} ensures s.lo <= s.hi && Inside(spans + more, s) {
        if s in slots {
          InsideMore(spans, more, s);
        } else {
          assert (spans + more)[|spans| + 1] == s;
        }
      }
    }

    /** The first registration sets the register up. */
    method InitRegister()
      requires Whole() && srf_alpha == 0 && OP_MIN <= op_ext
      requires img_ext + REGISTER < exe.Length && img_ext + 1 + BLOCK < 0x1_0000
      modifies `img_ext, `srf_alpha, `sisr_top, `nodes, `spans, `slots, exe
      ensures Whole() && srf_alpha == old(img_ext) + 1 && sisr_top == srf_alpha + BLOCK + 2
      ensures img_ext == old(img_ext) + REGISTER && nodes == map[[] := Node(srf_alpha, BLOCK)]
      ensures spans == old(spans) + [Span(srf_alpha + BLOCK, srf_alpha + BLOCK + 1), TableSpan(sisr_top)]
      ensures slots == old(slots) + {TableSpan(sisr_top)}
      ensures forall q: Path :: Entry(Img(), T(), q) == None
      ensures forall n :: 0 <= n < 5 * (INTR_MAX + 1) ==> ByteAt(Img(), sisr_top, n) == TrapByte(srf_alpha + BLOCK, n)
      ensures Trapped() && exe[srf_alpha + BLOCK] == ISR_TRAP_1 && exe[srf_alpha + BLOCK + 1] == ISR_TRAP_2
      ensures Img()[..old(img_ext) + 1] == old(Img())[..old(img_ext) + 1] && Behind(old(T()), T())
    {
      hide TrapWord, TrapByte, ByteAt, Stands, Entry, Clear, Stacked, Inside, AllTrapped;
      ghost var ext, trap := img_ext, img_ext + 1 + BLOCK;
      srf_alpha := img_ext + 1;
      WriteRegister(srf_alpha, srf_alpha + BLOCK);
      sisr_top, img_ext := srf_alpha + BLOCK + 2, img_ext + REGISTER;
      FirstBlock(Img(), SRF, srf_alpha, img_ext);
      FirstSpans(spans, ext, trap, img_ext);
      ghost var more := [Span(trap, trap + 1), TableSpan(sisr_top)];
      SlotsWithTable(more);
      nodes, spans, slots := map[[] := Node(srf_alpha, BLOCK)], spans + more, slots + {TableSpan(sisr_top)};
      forall n | 0 <= n < 5 * (INTR_MAX + 1) ensures ByteAt(Img(), sisr_top, n) == TrapByte(srf_alpha + BLOCK, n) {
        TrapTable(Img(), sisr_top, srf_alpha + BLOCK, n);
      }
      TrapsAreSet(Img(), sisr_top, srf_alpha + BLOCK);
    }

    method PutByte(n: nat, v: Byte)
      requires n < 2 * SISR_TABLE && sisr_top + SISR_TABLE <= exe.Length
      modifies exe
      ensures forall m :: 0 <= m < 2 * SISR_TABLE ==>
                ByteAt(Img(), sisr_top, m) == if m == n then v else ByteAt(old(Img()), sisr_top, m)
      ensures forall i :: 0 <= i < exe.Length && !(sisr_top <= i < sisr_top + SISR_TABLE) ==> Img()[i] == old(Img())[i]
    {
      var at := sisr_top + n / 2;
      var low, high := if n % 2 == 0 then v else exe[at] % 0x100, if n % 2 == 0 then exe[at] / 0x100 else v;
      PairSplits(low, high);
      exe[at] := Pair(low, high);
      hide Pair;
    }

    /** What is changed in a slot changes no node. */
    lemma SlotIsOutside(s: Span)
      requires Whole() && s in slots
      ensures 0 <= s.lo <= s.hi <= img_ext < exe.Length
      ensures forall p :: p in nodes ==> Apart(Node(s.lo, s.hi - s.lo + 1), nodes[p])
    {
      hide Stands, OpValid;
      InsideIsClear(spans, img_ext, nodes, s);
    }

    /** Copies an entry into its slot of the interrupt service table. The trie is not touched. */
    method StoreSisr(intr: Byte, entry: seq<Byte>)
      requires Whole() && srf_alpha != 0 && intr <= INTR_MAX && |entry| == 5
      modifies exe
      ensures Whole() && SameEntries(old(Img()), old(T()), Img(), T())
      ensures Stored(old(Img()), Img(), sisr_top, intr, entry)
      ensures forall i :: 0 <= i < exe.Length && !Holds(TableSpan(sisr_top), i) ==> Img()[i] == old(Img())[i]
      ensures forall i :: 0 <= i < exe.Length && Holds(TableSpan(sisr_top), i) ==>
                Img()[i] == Entered(old(Img())[i], i - sisr_top, intr, entry)
    {
      hide Stands, Spread, Stacked, Clear;
      SlotIsOutside(TableSpan(sisr_top));
      ghost var was := Img();
      var i := 0;
      while i < 5
        invariant 0 <= i <= 5
        invariant forall m :: 0 <= m < 2 * SISR_TABLE ==>
                    ByteAt(Img(), sisr_top, m) ==
                    if 5 * intr <= m < 5 * intr + i then entry[m - 5 * intr] else ByteAt(was, sisr_top, m)
        invariant forall k :: 0 <= k < exe.Length && !(sisr_top <= k < sisr_top + SISR_TABLE) ==> Img()[k] == was[k]
      {
        hide ByteAt;
        PutByte(5 * intr + i, entry[i]);
        i := i + 1;
      }
      OutsideTrie(was, Img(), T(), img_ext, sisr_top, SISR_TABLE);
      forall k | 0 <= k < exe.Length && Holds(TableSpan(sisr_top), k)
        ensures Img()[k] == Entered(was[k], k - sisr_top, intr, entry)
      {
        StoredWord(was, Img(), sisr_top, intr, entry, k - sisr_top);
      }
    }

    /** The trie has grown behind all that there was. */
    lemma GrownIsWhole(was: Trie)
      requires OpValid() && Valid() && srf_alpha != 0 && OP_MIN <= op_ext
      requires Clear(spans, was.ext, was.nodes) && Behind(was, T())
      requires forall s :: s in slots ==> s.lo <= s.hi && Inside(spans, s)
      requires TableSpan(sisr_top) in slots && sisr_top + SISR_TABLE <= was.ext + 1
      ensures Whole()
    {
      ClearStays(spans, was, T());
      hide Clear, Inside;
    }

    /** Traces the path and tells whether it is registered. */
    method Reach(path: Path) returns (block: nat, taken: bool)
      requires Whole() && srf_alpha != 0 && |path| == 4 && Nibbles(path) && (path !in nodes ==> Fits(Need(path, 0)))
      modifies `img_ext, `nodes, exe
      ensures Whole() && path[..3] in nodes && block == nodes[path[..3]].at
      ensures path !in nodes ==> img_ext + RECORD == old(img_ext + Need(path, 0))
      ensures Kept(old(Img()), old(T()), Img(), T(), path)
      ensures taken <==> path in nodes
    {
      hide Img, Stands, Entry, Behind, SameEntries, Nibbles, Clear, Stacked, Missing, Filled;
      ghost var was := T();
      block := Trace(path);
      GrownIsWhole(was);
      assert path[..4] == path;
      Follow(Img(), T(), path, 3);
      taken := Read(block + 1 + path[3]) != 0;
    }

    /** Puts the record in, unless the path has one. */
    method Place(path: Path, record: seq<Word>) returns (taken: bool)
      requires Whole() && srf_alpha != 0 && |path| == 4 && Nibbles(path) && (path !in nodes ==> Fits(Need(path, 0)))
      requires |record| == RECORD && record[RECORD - 1] < 0x100
      modifies `img_ext, `nodes, exe
      ensures Whole() && (taken <==> path in old(nodes))
      ensures taken ==> Img() == old(Img()) && T() == old(T())
      ensures !taken ==> Answer(Entry(Img(), T(), path)) == Some(record) && img_ext == old(img_ext + Need(path, 0))
      ensures forall q: Path :: q != path ==> Entry(Img(), T(), q) == Entry(old(Img()), old(T()), q)
      ensures Filled(old(Img()), old(T()), Img(), {}) && old(img_ext) <= img_ext
      ensures Behind(old(T()), T())
    {
      hide Img, Stands, Entry, Nibbles, Filled, Clear, Stacked, Missing;
      var block;
      block, taken := Reach(path);
      if !taken {
        ghost var was, img := T(), Img();
        AddRecord(block, path, record);
        GrownIsWhole(was);
        FilledOn(old(Img()), old(T()), img, was, Img(), {}, {});
        BehindOn(old(T()), was, T());
      }
    }

    /** Registration once the register is set up. */
    method Insert(path: Path, record: seq<Word>, sisr: Option<(Byte, seq<Byte>)>) returns (r: Outcome)
      requires Whole() && srf_alpha != 0 && |path| == 4 && Nibbles(path) && (path !in nodes ==> Fits(Need(path, 0)))
      requires |record| == RECORD && record[RECORD - 1] < 0x100 && (sisr.Some? ==> |sisr.value.1| == 5)
      modifies `img_ext, `nodes, exe
      ensures Whole() && (r == Taken <==> path in old(nodes))
      ensures r == Taken ==> Img() == old(Img()) && T() == old(T())
      ensures r == BadInterrupt <==> r != Taken && sisr.Some? && sisr.value.0 > INTR_MAX
      ensures r != Taken ==> Answer(Entry(Img(), T(), path)) == Some(record) && img_ext == old(img_ext + Need(path, 0))
      ensures forall q: Path :: q != path ==> Entry(Img(), T(), q) == Entry(old(Img()), old(T()), q)
      ensures Filled(old(Img()), old(T()), Img(), if sisr.Some? then {TableSpan(sisr_top)} else {})
      ensures old(img_ext) <= img_ext && Behind(old(T()), T())
    {
      hide Img, Entry, Stands, ByteAt, IsIndex, Clear, Stacked, Missing, Filled, Behind, Nibbles;
      var taken := Place(path, record);
      FilledMore(old(Img()), old(T()), Img(), {TableSpan(sisr_top)});
      if taken {
        return Taken;
      }
      match sisr
      case None => r := Done;
      case Some(entry) =>
        if entry.0 > INTR_MAX {
          return BadInterrupt;
        }
        ghost var was, img := T(), Img();
        StoreSisr(entry.0, entry.1);
        SlotFills(img, was, Img(), {TableSpan(sisr_top)}, TableSpan(sisr_top));
        FilledOn(old(Img()), old(T()), img, was, Img(), {TableSpan(sisr_top)}, {TableSpan(sisr_top)});
        r := Done;
    }

    /** The words that registering a path that has no record takes. */
    ghost function Demand(path: Path): nat
      requires |path| == 4
      reads `img_ext, `srf_alpha, `nodes
    {
      if srf_alpha == 0 then REGISTER + 3 * BLOCK + RECORD else Need(path, 0)
    }

    /** Every entry of the table links to the trap in front of it. */
    ghost predicate Trapped()
      reads `srf_alpha, `sisr_top, exe
    {
      sisr_top + SISR_TABLE <= exe.Length && AllTrapped(Img(), sisr_top, srf_alpha + BLOCK)
    }

    /** sim_register_srf. A secretariat not yet registered gets exactly this record and no other answer
        changes; one that is registered is refused and nothing changes. A bad interrupt number is reported
        only after the record is in. Earlier words change only at empty indices and in the slots. */
    method Register(sid: Word, record: seq<Word>, sisr: Option<(Byte, seq<Byte>)>) returns (r: Outcome)
      requires Whole() && OP_MIN <= op_ext && (Registered(sid) == None ==> Fits(Demand(PathOf(sid))))
      requires |record| == RECORD && record[RECORD - 1] < 0x100 && (sisr.Some? ==> |sisr.value.1| == 5)
      modifies `img_ext, `srf_alpha, `sisr_top, `nodes, `spans, `slots, exe
      ensures Whole() && srf_alpha != 0
      ensures r == Taken <==> old(Registered(sid)).Some?
      ensures r == Taken ==> Img() == old(Img()) && T() == old(T())
      ensures r == BadInterrupt <==> old(Registered(sid)) == None && sisr.Some? && sisr.value.0 > INTR_MAX
      ensures r != Taken ==> Registered(sid) == Some(record) && img_ext == old(img_ext + Demand(PathOf(sid)))
      ensures forall t: Word :: t != sid ==> Registered(t) == old(Registered(t))
      ensures Filled(old(Img()), old(T()), Img(), if sisr.Some? then {TableSpan(sisr_top)} else {})
      ensures old(img_ext) <= img_ext && Behind(old(T()), T()) && old(spans) <= spans
      ensures if old(srf_alpha) != 0 then spans == old(spans) && Head() == old(Head()) && srf_alpha == old(srf_alpha)
              else
                && sisr_top > old(img_ext) && slots == old(slots) + {TableSpan(sisr_top)}
                && (sisr == None ==> Trapped())
    {
      hide Img, Stands, Entry, PathOf, ByteAt, TrapByte, Filled, Clear, Stacked, Missing, Nibbles, AllTrapped, TableIn;
      ghost var img, was, path := Img(), T(), PathOf(sid);
      NothingYet(img, was);
      if srf_alpha == 0 {
        FreshNeed(SRF, path, img_ext + 1, img_ext + REGISTER);
        InitRegister();
      }
      ghost var open := if sisr.Some? then {TableSpan(sisr_top)} else {};
      SameIsFilled(img, was, Img(), open);
      ghost var img1, was1 := Img(), T();
      EntryIff(Img(), T(), path);
      forall t: Word | t != sid ensures PathOf(t) != path {
        PathsDiffer(sid, t);
      }
      TableIsThere();
      r := Insert(PathOf(sid), record, sisr);
      if was.alpha == 0 && sisr == None {
        TrapsStay(img1, was1, Img(), sisr_top, srf_alpha + BLOCK);
      }
      FilledOn(img, was, img1, was1, Img(), open, open);
      BehindOn(was, was1, T());
    }

    // ------------------------------------------------------------------- Loading a package

    /** Where the next registration's text and data go. */
    function ExeOff(): nat
      reads `srf_alpha, `img_ext
    {
      if srf_alpha == 0 then EXE_MIN else img_ext + 1
    }

    function OpOff(): nat
      reads `srf_alpha, `op_ext
    {
      if srf_alpha == 0 then OP_MIN else op_ext + 1
    }

    /** What stays of the spans placed before: until OPSEC is registered, each load starts over. */
    ghost function Standing(q: seq<Span>): seq<Span>
      reads `srf_alpha
    {
      if srf_alpha == 0 then [] else q
    }

    /** The offsets of a new registration. */
    method Begin() returns (off: nat, op1: nat)
      requires Whole()
      modifies `img_ext, `op_ext, `spans, `ops, `slots
      ensures Whole() && off == old(ExeOff()) == ExeOff() && op1 == old(OpOff())
      ensures spans == Standing(old(spans)) && ops == Standing(old(ops))
      ensures srf_alpha != 0 ==> slots == old(slots) && img_ext == old(img_ext) && op_ext == old(op_ext)
      ensures srf_alpha == 0 ==> slots == {} && img_ext == EXE_MIN && op_ext == OP_MIN
    {
      off, op1 := ExeOff(), OpOff();
      if srf_alpha == 0 {
        img_ext, op_ext := EXE_MIN, OP_MIN;
        spans, ops, slots := [], [], {};
      }
    }

    /** Words behind the image change nothing that is in it. */
    method WriteWords(at: nat, words: seq<Word>)
      requires Whole() && (srf_alpha != 0 ==> at > img_ext) && at + |words| <= exe.Length
      modifies exe
      ensures Whole() && SameEntries(old(Img()), old(T()), Img(), T())
      ensures Img()[at..at + |words|] == words
      ensures forall i :: 0 <= i < exe.Length && !(at <= i < at + |words|) ==> Img()[i] == old(Img())[i]
    {
      hide Clear, Stacked, Stands, OpValid;
      ghost var was := Img();
      forall i | 0 <= i < |words| {
        exe[at + i] := words[i];
      }
      if srf_alpha != 0 {
        BehindIsOutside(was, Img(), T(), at, |words|);
        OutsideTrie(was, Img(), T(), img_ext, at, |words|);
      }
    }

    /** Takes the next stretch of operational memory, from `off` on. */
    method PlaceOp(off: nat, ext: nat, limit: nat) returns (ok: bool)
      requires OpValid() && OP_MIN <= off && (ops == [] || op_ext < off) && limit <= OP_MAX
      modifies `op_ext, `ops
      ensures ok <==> off + ext <= limit
      ensures OpValid() && ops == if ok then old(ops) + [Span(off, off + ext)] else old(ops)
      ensures op_ext == if ok then off + ext else old(op_ext)
    {
      ok := off + ext <= limit;
      if ok {
        op_ext := off + ext;
        ops := ops + [Span(off, off + ext)];
      }
    }

    /** Places .data and .bss. When .bss does not fit, .data has been placed all the same. */
    method PlaceBoth(off: nat, p: Package) returns (ok: bool)
      requires OpValid() && OP_MIN <= off && op_ext <= off <= op_ext + 1 && (ops == [] || op_ext < off)
      modifies `op_ext, `ops
      ensures OpValid() && op_ext >= old(op_ext) && old(ops) <= ops && (ok ==> op_ext >= OpTop(off, p))
      ensures ok <==> && (p.data.Some? ==> off + p.data.value + 1 <= OP_MAX)
                      && (p.bss.Some? ==> BssOff(off, p) + p.bss.value <= OP_MAX)
      ensures ok ==> ops == old(ops) + OpSpans(off, p)
    {
      ok := true;
      var op2 := off;
      if p.data.Some? {
        ok := PlaceOp(off, p.data.value, OP_MAX - 1);
        op2 := off + p.data.value + 1;
      }
      if ok && p.bss.Some? {
        ok := PlaceOp(op2, p.bss.value, OP_MAX);
      }
    }

    /** With an even .data, what is counted for a package may join the image. */
    lemma TextFits(p: Package)
      requires Whole() && (srf_alpha == 0 ==> spans == [] && slots == {}) && EvenData(p)
      requires ExeOff() + TextWords(p) < exe.Length
      ensures var off := ExeOff();
              && Clear(spans + TextSpans(off, p), off + TextWords(p), nodes)
              && (forall s :: s in slots ==> s.lo <= s.hi && Inside(spans + TextSpans(off, p), s))
              && (srf_alpha != 0 ==> Stands(Img(), T().(ext := off + TextWords(p))))
    {
      hide TextSpans, TextWords, Stacked, Stands, Clear, Inside, OpValid, EvenData;
      var off := ExeOff();
      StandingStacks();
      TextStacksIffEven(spans, if srf_alpha == 0 then -1 else img_ext, off, p);
      TextIsBehind(off, p);
      NodesBefore(off);
      ClearText(spans, img_ext, nodes, TextSpans(off, p), off, off + TextWords(p));
      forall s | s in slots ensures Inside(spans + TextSpans(off, p), s) {
        InsideMore(spans, TextSpans(off, p), s);
      }
      if srf_alpha != 0 {
        TrieFits(off, off + TextWords(p));
      }
    }

    /** The trie stands in a longer image. */
    lemma TrieFits(off: nat, ext: nat)
      requires Valid() && img_ext < off && img_ext <= ext < exe.Length
      ensures Stands(Img(), T().(ext := ext))
    {
      BehindIsOutside(Img(), Img(), T(), off, 0);
      OutsideTrie(Img(), Img(), T(), ext, off, 0);
    }

    lemma NodesBefore(off: nat)
      requires Whole() && off == ExeOff()
      ensures forall p :: p in nodes ==> nodes[p].at + nodes[p].size <= off
    {
    }

    /** The words counted for a package become part of the image. */
    method Extend(p: Package)
      requires Whole() && (srf_alpha == 0 ==> spans == [] && slots == {}) && ExeOff() + TextWords(p) < exe.Length
      modifies `img_ext, `spans
      ensures img_ext == old(ExeOff()) + TextWords(p) && spans == old(spans) + TextSpans(old(ExeOff()), p)
      ensures EvenData(p) ==> Whole()
      ensures Stacked(spans, img_ext) <==> EvenData(p)
    {
      hide TextSpans, TextWords, Stacked, Stands, Clear, Inside, EvenData;
      var off := ExeOff();
      if EvenData(p) {
        TextFits(p);
      }
      StandingStacks();
      TextStacksIffEven(spans, if srf_alpha == 0 then -1 else img_ext, off, p);
      spans := spans + TextSpans(off, p);
      img_ext := off + TextWords(p);
    }

    lemma StandingStacks()
      requires Whole() && (srf_alpha == 0 ==> spans == [])
      ensures Stacked(spans, if srf_alpha == 0 then -1 else img_ext)
    {
    }

    /** Both overlays, behind the image, unless text or .data is too large or an overlay has another size. */
    method LoadOverlays(off: nat, op1: nat, p: Package, text: seq<Word>, data: seq<Word>) returns (ok: bool)
      requires Whole() && (srf_alpha != 0 ==> off > img_ext) && off + |text| + |data| <= exe.Length
      modifies exe
      ensures ok <==> Loadable(p.(bss := None), |text|, |data|, op1)
      ensures Whole() && SameEntries(old(Img()), old(T()), Img(), T())
      ensures forall i :: 0 <= i < off ==> Img()[i] == old(Img())[i]
      ensures ok ==> Img()[off..off + |text|] == text
      ensures ok && p.data.Some? ==> Img()[off + |text|..off + |text| + |data|] == data
    {
      hide Clear, Stacked, Stands, Entry, Inside, SameEntries, OpValid;
      ghost var img := Img();
      SameEntriesOn(img, T(), img, T(), img, T());
      if p.text > EXE_MAX {
        return false;
      }
      WriteWords(off, text);
      if |text| != p.text + 1 {
        return false;
      }
      ok := true;
      if p.data.Some? {
        if op1 + p.data.value + 1 > OP_MAX || p.text + Counted(p.data.value) > EXE_MAX {
          return false;
        }
        ghost var loaded := Img();
        WriteWords(off + p.text + 1, data);
        SameEntriesOn(img, T(), loaded, T(), Img(), T());
        ok := |data| == Loaded(p.data.value);
        assert Img()[off..off + |text|] == loaded[off..off + |text|];
      }
    }

    /** sim_load_master, up to the commissions: loads a package's text and data and places its partitions. A load
        that fails takes no words of the image. After one that succeeds all is apart, and below what is counted, if
        and only if its .data has an even number of bytes; the overlay of an odd one ends one word behind. */
    method Load(p: Package, text: seq<Word>, data: seq<Word>) returns (ok: bool)
      requires Whole() && ExeOff() + |text| + |data| <= exe.Length
      modifies `img_ext, `op_ext, `spans, `ops, `slots, exe
      ensures ok <==> Loadable(p, |text|, |data|, old(OpOff()))
      ensures SameEntries(old(Img()), old(T()), Img(), T())
      ensures forall i :: 0 <= i < old(ExeOff()) ==> Img()[i] == old(Img())[i]
      ensures if srf_alpha != 0 then slots == old(slots) && old(ops) <= ops else slots == {}
      ensures !ok ==> Whole() && (srf_alpha != 0 ==> img_ext == old(img_ext) && spans == old(spans))
      ensures ok ==> img_ext == old(ExeOff()) + TextWords(p) && op_ext >= OP_MIN && op_ext >= OpTop(old(OpOff()), p)
      ensures srf_alpha != 0 ==> op_ext >= old(op_ext)
      ensures ok ==> spans == Standing(old(spans)) + TextSpans(old(ExeOff()), p)
      ensures ok ==> ops == Standing(old(ops)) + OpSpans(old(OpOff()), p)
      ensures ok ==> Img()[old(ExeOff())..old(ExeOff()) + |text|] == text
      ensures ok && p.data.Some? ==>
                Img()[old(ExeOff()) + |text|..old(ExeOff()) + |text| + |data|] == data
      ensures ok ==> OpValid() && (EvenData(p) ==> Whole()) && (Stacked(spans, img_ext) <==> EvenData(p))
    {
      hide Clear, Stacked, Stands, Entry, Inside, SameEntries, TextSpans, OpSpans, EvenData;
      ghost var img, t := Img(), T();
      var off, op1 := Begin();
      ghost var u := T();
      ok := LoadOverlays(off, op1, p, text, data);
      EntriesIgnoreExt(img, u, t, Img(), u, u);
      if ok {
        ok := PlaceBoth(op1, p);
      }
      if ok {
        Extend(p);
        EntriesIgnoreExt(img, t, t, Img(), u, T());
      }
    }

    // ------------------------------------------------------------------- Commissions

    /** Changes within a span leave the register standing, and every answer. */
    lemma TextStays(was: seq<Word>, at: nat, n: nat)
      requires Clear(spans, img_ext, nodes) && Inside(spans, Span(at, at + n - 1)) && n > 0
      requires |was| == exe.Length && img_ext < exe.Length
      requires if srf_alpha == 0 then nodes == map[] else Stands(was, T())
      requires forall i :: 0 <= i < |was| && !(at <= i < at + n) ==> Img()[i] == was[i]
      ensures SameEntries(was, T(), Img(), T()) && (srf_alpha != 0 ==> Valid())
    {
      hide Clear, Stands, Inside;
      InsideIsClear(spans, img_ext, nodes, Span(at, at + n - 1));
      if srf_alpha != 0 {
        OutsideTrie(was, Img(), T(), img_ext, at, n);
      }
    }

    /** A relocated word of a text, or half of one, in place. */
    method PatchMod(at: nat, form: R.Form, ref: R.Commission, b: R.Base) returns (ok: bool)
      requires Whole() && Inside(spans, Span(at, at))
      modifies exe
      ensures at < exe.Length && (ok <==> ref.part != R.Nul)
      ensures Img() == if ok then old(Img())[at := R.Modified(old(exe[at]), form, R.Value(ref, b))] else old(Img())
      ensures Whole() && SameEntries(old(Img()), old(T()), Img(), T())
    {
      hide Clear, Stacked, Inside, OpValid, Stands, SameEntries, Entry, R.Modified, R.Value;
      InsideIsClear(spans, img_ext, nodes, Span(at, at));
      ok := R.PatchMod(exe, at, form, ref, b);
      TextStays(old(Img()), at, 1);
    }

    /** Two instructions of a text get an address to load, low byte and high byte. */
    method LinkAddress(at: nat, to: nat)
      requires Whole() && Inside(spans, Span(at, at + 1))
      modifies exe
      ensures Whole() && at + 1 < exe.Length && SameEntries(old(Img()), old(T()), Img(), T())
      ensures forall i :: 0 <= i < exe.Length ==> Img()[i] == Addressed(at, to, i, old(Img())[i])
    {
      hide Clear, Stacked, Inside, OpValid, Stands, SameEntries, Entry, R.WithImmediate;
      InsideIsClear(spans, img_ext, nodes, Span(at, at + 1));
      exe[at] := R.WithImmediate(exe[at], 2 * to % 0x100);
      exe[at + 1] := R.WithImmediate(exe[at + 1], 2 * to / 0x100 % 0x100);
      TextStays(old(Img()), at, 2);
    }

    /** A relocated immediate, in place. */
    method PatchImm(at: nat, kind: R.Kind, ref: R.Commission, b: R.Base) returns (ok: bool)
      requires Whole() && Inside(spans, Span(at, at))
      modifies exe
      ensures at < exe.Length && (ok <==> old(R.TakesImmediate(exe[at])) && ref.part != R.Nul)
      ensures Img() == if ok
                       then old(Img())[at := R.WithImmediate(old(exe[at]), R.Half(kind, R.Objective(ref, kind, b)))]
                       else old(Img())
      ensures Whole() && SameEntries(old(Img()), old(T()), Img(), T())
    {
      hide Clear, Stacked, Inside, OpValid, Stands, SameEntries, Entry, R.WithImmediate, R.Half, R.Objective,
        R.TakesImmediate;
      InsideIsClear(spans, img_ext, nodes, Span(at, at));
      ok := R.PatchImmediate(exe, at, kind, ref, b);
      TextStays(old(Img()), at, 1);
    }

    /** A relocated jump or call, in place. */
    method PatchJmp(at: nat, ref: R.Commission, b: R.Base) returns (ok: bool)
      requires Whole() && Inside(spans, Span(at, at + 1)) && (ref.part == R.Exe ==> ref.ref >= 0)
      modifies exe
      ensures at + 1 < exe.Length && (ok <==> old(R.IsJump(exe[at])) && ref.part == R.Exe && ref.annex == None)
      ensures ok ==> exe[at] == R.WithTarget(old(exe[at]), (ref.ref + b.exe) / 0x1_0000 % 0x40)
      ensures ok ==> exe[at + 1] == (ref.ref + b.exe) % 0x1_0000
      ensures forall i :: 0 <= i < exe.Length && !(ok && at <= i <= at + 1) ==> Img()[i] == old(Img())[i]
      ensures Whole() && SameEntries(old(Img()), old(T()), Img(), T())
    {
      hide Clear, Stacked, Inside, OpValid, Stands, SameEntries, Entry, R.WithTarget, R.JumpTarget, R.JumpOpcode,
        R.FollowsSymbol, R.IsJump;
      InsideIsClear(spans, img_ext, nodes, Span(at, at + 1));
      ok := R.PatchJump(exe, at, ref, b);
      TextStays(old(Img()), at, 2);
    }

    /** OPSEC's text says where its jump to FLATLINE or ATRIA is. */
    method DeclareJump(toFlatline: bool, at: nat)
      requires Whole() && Inside(spans, Span(at, at + 1))
      modifies `flatline, `atria, `slots
      ensures Whole() && slots == old(slots) + {JumpSpan(at)}
      ensures flatline == (if toFlatline then at else old(flatline)) && atria == (if toFlatline then old(atria) else at)
    {
      hide Stands, Clear, Stacked, OpValid, TableSpan;
      if toFlatline {
        flatline := at;
      } else {
        atria := at;
      }
      slots := slots + {JumpSpan(at)};
    }

    /** The jump at a slot gets a dispatch desk as its target, and stays the jump it was. */
    method LinkJump(at: nat, desk: Word)
      requires Whole() && Inside(spans, Span(at, at + 1))
      modifies `slots, exe
      ensures Whole() && slots == old(slots) + {JumpSpan(at)} && at + 1 < exe.Length
      ensures SameEntries(old(Img()), old(T()), Img(), T())
      ensures forall i :: 0 <= i < exe.Length ==> Img()[i] == Relinked(at, desk, i, old(Img())[i])
      ensures R.JumpTarget(exe[at], exe[at + 1]) == desk && R.JumpOpcode(exe[at]) == old(R.JumpOpcode(exe[at]))
    {
      hide Clear, Stacked, Inside, OpValid, Stands, SameEntries, Entry, R.JumpTarget, R.JumpOpcode, R.WithTarget;
      InsideIsClear(spans, img_ext, nodes, Span(at, at + 1));
      R.OnlyTargetChanges(exe[at], 0, desk);
      exe[at] := R.WithTarget(exe[at], 0);
      exe[at + 1] := desk;
      slots := slots + {JumpSpan(at)};
      TextStays(old(Img()), at, 2);
    }

    /** A jump shares no word with the interrupt service table. */
    ghost predicate OffTable(at: nat)
      reads `sisr_top
    {
      at + 1 < sisr_top || sisr_top + SISR_TABLE <= at
    }

    /** Where the header says that OPSEC's jumps are, there is a text. */
    ghost predicate Linkable()
      reads `srf_alpha, `sisr_top, `spans, `flatline, `atria
    {
      srf_alpha != 0 ==>
        && Inside(spans, JumpSpan(flatline)) && Inside(spans, JumpSpan(atria))
        && OffTable(flatline) && OffTable(atria)
    }

    /** The jump is within a text. */
    ghost predicate JumpIn(toFlatline: bool)
      reads `spans, `flatline, `atria
    {
      Inside(spans, JumpSpan(if toFlatline then flatline else atria))
    }

    /** What the jump at these words leads to. */
    ghost function Target(at: nat): Option<int>
      reads exe
    {
      if at + 1 < exe.Length then Some(R.JumpTarget(exe[at], exe[at + 1])) else None
    }

    /** The dispatch desk of FLATLINE or ATRIA becomes the target of OPSEC's jump. */
    method CommitDesk(offset: nat, sid: Word, b: Site)
      requires Whole() && Linkable() && (srf_alpha == 0 ==> sid == 0)
      modifies `slots, exe
      ensures Whole() && Linkable() && SameEntries(old(Img()), old(T()), Img(), T())
      ensures Head() == HeadAfter(Desk(offset), sid, b, old(Head()))
      ensures forall i :: 0 <= i < exe.Length ==>
                Img()[i] == WordAfter(Desk(offset), sid, b, old(Head()), i, old(Img())[i])
      ensures sid == FLATLINE_SID ==> Target(flatline) == Some((b.exe + offset) % 0x1_0000)
      ensures sid == ATRIA_SID ==> Target(atria) == Some((b.exe + offset) % 0x1_0000)
    {
      hide Clear, Stacked, Stands, Entry, Inside, SameEntries, OpValid, R.JumpTarget, R.JumpOpcode, Relinked;
      ghost var img := Img();
      var desk := (b.exe + offset) % 0x1_0000;
      SameEntriesOn(img, T(), img, T(), img, T());
      if sid == FLATLINE_SID {
        LinkJump(flatline, desk);
      } else if sid == ATRIA_SID {
        LinkJump(atria, desk);
      }
    }

    /** A commission on words of the text at b.exe. */
    method CommitText(c: Commission, sid: Word, b: Site, p: Package) returns (ok: bool)
      requires Whole() && Within(c, p) && Inside(spans, Span(b.exe, b.exe + p.text))
      requires b.alpha == srf_alpha && b.top == sisr_top && (c.Imm? || c.Jmp? || c.Mod? || c.Link?)
      modifies exe
      ensures b.exe + Endpoint(c) < exe.Length && (ok <==> old(Accepts(c, sid, exe[b.exe + Endpoint(c)])))
      ensures Whole() && SameEntries(old(Img()), old(T()), Img(), T())
      ensures forall i :: 0 <= i < exe.Length ==>
                Img()[i] == if ok then WordAfter(c, sid, b, Head(), i, old(Img())[i]) else old(Img())[i]
    {
      hide Clear, Stacked, Stands, Entry, Inside, SameEntries, OpValid, R.WithTarget, R.WithImmediate, R.Half,
        R.Objective, R.TakesImmediate, R.IsJump, R.Modified, R.Value, Addressed;
      var at := b.exe + Endpoint(c);
      ghost var img := Img();
      SameEntriesOn(img, T(), img, T(), img, T());
      OffIsInside(b.exe, p);
      PartInside(spans, Span(b.exe, b.exe + p.text), Span(at, at));
      match c
      case Imm(_, kind, ref) => ok := PatchImm(at, kind, ref, b.Base());
      case Jmp(_, ref) =>
        PartInside(spans, Span(b.exe, b.exe + p.text), Span(at, at + 1));
        ok := PatchJmp(at, ref, b.Base());
      case Mod(_, form, ref) => ok := PatchMod(at, form, ref, b.Base());
      case Link(toTable, _) =>
        ok := sid <= 2;
        if ok {
          PartInside(spans, Span(b.exe, b.exe + p.text), Span(at, at + 1));
          LinkAddress(at, if toTable then sisr_top else srf_alpha);
        }
    }

    /** A handler's entry goes into the table, unless OPSEC asks for it. */
    method CommitIsr(intr: Byte, offset: nat, office: Word, sid: Word, b: Site) returns (ok: bool)
      requires Whole() && intr <= INTR_MAX && (srf_alpha == 0 ==> sid == 0)
      modifies exe
      ensures Whole() && SameEntries(old(Img()), old(T()), Img(), T()) && (ok <==> sid != 0)
      ensures forall i :: 0 <= i < exe.Length ==>
                Img()[i] == if ok then WordAfter(Isr(intr, offset, office), sid, b, Head(), i, old(Img())[i])
                            else old(Img())[i]
      ensures ok ==> Stored(old(Img()), Img(), sisr_top, intr, HandlerEntry(b.exe + offset, office))
    {
      hide Clear, Stacked, Stands, Entry, Inside, SameEntries, OpValid, Stored, Entered, HandlerEntry;
      ghost var img := Img();
      SameEntriesOn(img, T(), img, T(), img, T());
      ok := sid != 0;
      if ok {
        StoreSisr(intr, HandlerEntry(b.exe + offset, office));
      }
    }

    /** A core package says where one of OPSEC's jumps is. */
    method CommitJumpPoint(toFlatline: bool, offset: nat, sid: Word, b: Site, p: Package) returns (ok: bool)
      requires Whole() && Linkable() && offset + 1 <= p.text && Inside(spans, Span(b.exe, b.exe + p.text))
      requires srf_alpha != 0 ==> sisr_top + SISR_TABLE <= b.exe
      modifies `flatline, `atria, `slots
      ensures Whole() && Linkable() && (ok <==> sid <= 2) && (ok ==> JumpIn(toFlatline))
      ensures Head() == if ok then HeadAfter(JumpPoint(toFlatline, offset), sid, b, old(Head())) else old(Head())
      ensures forall t :: !(ok && toFlatline == t) && old(JumpIn(t)) ==> JumpIn(t)
    {
      hide Clear, Stacked, Stands, Inside, OpValid;
      ok := sid <= 2;
      if ok {
        PartInside(spans, Span(b.exe, b.exe + p.text), JumpSpan(b.exe + offset));
        DeclareJump(toFlatline, b.exe + offset);
      }
    }

    /** sim_exec_commission, for the package whose text is at b.exe and whose partitions start at b.op1: what it makes
        of every word of the image, and of the header. */
    method Commit(c: Commission, sid: Word, b: Site, p: Package) returns (ok: bool)
      requires Whole() && Linkable() && Within(c, p) && Inside(spans, Span(b.exe, b.exe + p.text))
      requires b.alpha == srf_alpha && b.top == sisr_top
      requires if srf_alpha == 0 then sid == 0 else sisr_top + SISR_TABLE <= b.exe
      modifies `flatline, `atria, `slots, exe
      ensures b.exe + Endpoint(c) < exe.Length && (ok <==> old(Accepts(c, sid, exe[b.exe + Endpoint(c)])))
      ensures Whole() && Linkable() && SameEntries(old(Img()), old(T()), Img(), T())
      ensures Head() == if ok then HeadAfter(c, sid, b, old(Head())) else old(Head())
      ensures forall i :: 0 <= i < exe.Length ==>
                Img()[i] == if ok then WordAfter(c, sid, b, old(Head()), i, old(Img())[i]) else old(Img())[i]
      ensures c.Isr? && ok ==>
                Stored(old(Img()), Img(), sisr_top, c.intr, HandlerEntry(b.exe + c.offset, c.office))
      ensures c.JumpPoint? && ok ==> JumpIn(c.toFlatline) && sid <= 2
      ensures forall t :: !(c.JumpPoint? && c.toFlatline == t) && old(JumpIn(t)) ==> JumpIn(t)
      ensures c.Desk? && sid == FLATLINE_SID ==> Target(flatline) == Some((b.exe + c.offset) % 0x1_0000)
      ensures c.Desk? && sid == ATRIA_SID ==> Target(atria) == Some((b.exe + c.offset) % 0x1_0000)
    {
      hide Whole, Linkable, JumpIn, Entry, Inside, SameEntries, Stored, Target, Entered, Relinked, HandlerEntry,
        Addressed, R.WithTarget, R.WithImmediate, R.Half, R.Objective, R.TakesImmediate, R.IsJump, R.Modified, R.Value;
      ghost var img := Img();
      ok := true;
      SameEntriesOn(img, T(), img, T(), img, T());
      OffIsInside(b.exe, p);
      match c
      case Isr(intr, offset, office) => ok := CommitIsr(intr, offset, office, sid, b);
      case JumpPoint(toFlatline, offset) => ok := CommitJumpPoint(toFlatline, offset, sid, b, p);
      case Desk(offset) => CommitDesk(offset, sid, b);
      case _ => ok := CommitText(c, sid, b, p);
    }

    lemma OffIsInside(off: nat, p: Package)
      requires Whole() && Inside(spans, Span(off, off + p.text))
      ensures off + p.text <= img_ext < exe.Length
    {
      InsideIsClear(spans, img_ext, nodes, Span(off, off + p.text));
    }

    /** The commissions of a package, up to the first that is refused. */
    method CommitAll(cs: seq<Commission>, sid: Word, b: Site, p: Package) returns (ok: bool, ghost done: nat)
      requires Whole() && Linkable() && Inside(spans, Span(b.exe, b.exe + p.text))
      requires if srf_alpha == 0 then sid == 0 else sisr_top + SISR_TABLE <= b.exe
      requires b.alpha == srf_alpha && b.top == sisr_top && forall c :: c in cs ==> Within(c, p)
      modifies `flatline, `atria, `slots, exe
      ensures Whole() && Linkable() && SameEntries(old(Img()), old(T()), Img(), T())
      ensures done <= |cs| && (ok <==> done == |cs|)
      ensures Head() == HeadThrough(cs[..done], sid, b, old(Head()))
      ensures Through(old(Img()), cs[..done], sid, b, old(Head()), Img())
      ensures forall k :: 0 <= k < done ==> Allowed(old(Img()), cs, k, sid, b, old(Head()))
      ensures !ok ==> !Allowed(old(Img()), cs, done, sid, b, old(Head()))
      ensures ok ==> forall c :: c in cs && c.JumpPoint? ==> JumpIn(c.toFlatline) && sid <= 2
    {
      hide Whole, Linkable, JumpIn, Allowed, Entry, Inside, SameEntries, Within, Through, WordAfter, HeadAfter, Accepts,
        Endpoint;
      ghost var img, h := Img(), Head();
      SameEntriesOn(img, T(), img, T(), img, T());
      NothingDone(img, sid, b, h);
      ok, done := true, 0;
      for i := 0 to |cs|
        invariant Whole() && Linkable() && SameEntries(img, T(), Img(), T()) && ok && done == i
        invariant Head() == HeadThrough(cs[..i], sid, b, h) && Through(img, cs[..i], sid, b, h, Img())
        invariant forall k :: 0 <= k < i ==> Allowed(img, cs, k, sid, b, h)
        invariant forall k :: 0 <= k < i && cs[k].JumpPoint? ==> JumpIn(cs[k].toFlatline) && sid <= 2
      {
        ghost var now := Img();
        AllowedIff(img, cs, i, sid, b, h, now);
        ok := Commit(cs[i], sid, b, p);
        SameEntriesOn(img, T(), now, T(), Img(), T());
        if !ok {
          assert Img() == now;
          return;
        }
        ThroughOn(img, cs, i, sid, b, h, now, Img());
        done := i + 1;
      }
      assert cs[..|cs|] == cs;
    }

    // ------------------------------------------------------------------- Whole registrations

    ghost function Held(): Holding
      reads this, exe
    {
      Holding(Img(), T(), spans, ops, Head())
    }

    /** Where the next registration's package is commissioned. */
    function NextSite(): Site
      reads `srf_alpha, `sisr_top, `img_ext, `op_ext
    {
      Site(ExeOff(), OpOff(), srf_alpha, sisr_top)
    }

    lemma JumpsStay(before: seq<Span>)
      requires srf_alpha != 0 ==>
                 && Inside(before, JumpSpan(flatline)) && Inside(before, JumpSpan(atria)) && before <= spans
                 && OffTable(flatline) && OffTable(atria)
      ensures Linkable()
    {
      if srf_alpha != 0 {
        assert spans == before + spans[|before|..];
        InsideMore(before, spans[|before|..], JumpSpan(flatline));
        InsideMore(before, spans[|before|..], JumpSpan(atria));
      }
    }

    /** There is room for a job's overlays, and for its record if it comes to that. */
    ghost predicate RoomFor(job: Job)
      reads this, exe
    {
      && ExeOff() + |job.text| + |job.data| <= exe.Length
      && (Loadable(job.p, |job.text|, |job.data|, OpOff()) && Registered(job.sid) == None ==>
            var n := TextWords(job.p) + Demand(PathOf(job.sid));
            ExeOff() + n < exe.Length && 2 * (ExeOff() + 1 + n - RECORD) < 0x1_0000)
    }

    lemma SameAnswers(img: seq<Word>, t: Trie)
      requires SameEntries(img, t, Img(), T())
      ensures forall s: Word :: Registered(s) == Answer(Entry(img, t, PathOf(s)))
    {
      hide Entry, PathOf;
    }

    lemma SortedHere()
      requires Whole()
      ensures Sorted(Held())
    {
      hide Clear;
      forall p | T().IsBlock(p) ensures nodes[p].size == BLOCK {
        NodeInside(Img(), T(), p);
      }
    }

    lemma DemandIsSmall(path: Path)
      requires |path| == 4
      ensures srf_alpha != 0 ==> Demand(path) <= 3 * BLOCK + RECORD
    {
      MissingAtMost(T(), path, 0);
    }

    lemma OpenIsBelow()
      requires Whole() && Linkable() && srf_alpha != 0
      ensures Head().Below(img_ext + 1) && img_ext < exe.Length
    {
      hide Stands, OpValid;
      forall s | s in Head().Open() ensures s.lo <= s.hi <= img_ext {
        InsideIsClear(spans, img_ext, nodes, s);
      }
    }

    /** The commissions of a package just loaded have kept all that was in the image before. */
    lemma CommissionsStay(was: Holding, loaded: seq<Word>, job: Job, b: Site, done: nat)
      requires done <= |job.commissions| && Sound(job)
      requires was.trie.ext < b.exe && was.trie.ext < |was.img| == |loaded| && was.head.Below(b.exe)
      requires forall i :: 0 <= i <= was.trie.ext ==> loaded[i] == was.img[i]
      requires Through(loaded, job.commissions[..done], job.sid, b, was.head, Img())
      requires Head() == HeadThrough(job.commissions[..done], job.sid, b, was.head)
      requires was.spans <= spans && was.ops <= ops && was.trie == T().(ext := was.trie.ext) && was.trie.ext <= img_ext
      ensures Carried(was, Held(), job, b, done)
    {
      var cs := job.commissions[..done];
      ThroughFills(loaded, was.trie, cs, job.sid, b, was.head, job.p, Img());
      SameIsFilled(was.img, was.trie, loaded, was.head.Open());
      assert Behind(was.trie, was.trie);
      FilledOn(was.img, was.trie, loaded, was.trie, Img(), was.head.Open(), was.head.Open());
      OpenThrough(cs, job.sid, b, was.head);
      WordsBelow(was.img, loaded, Img(), was.trie.ext, cs, job.sid, b, was.head);
      hide HeadThrough, Through, Filled, Within, WordThrough;
      StaysIf(was, Held());
    }

    /** A package's text and data are in the image and its partitions in operational memory. */
    ghost predicate Ready(job: Job, b: Site)
      reads this, exe
    {
      && |job.text| == job.p.text + 1 && b.exe + Words(job) <= exe.Length
      && Inside(spans, Span(b.exe, b.exe + job.p.text)) && Img()[b.exe..b.exe + |job.text|] == job.text
      && (job.p.data.Some? ==>
            && job.data != [] && Img()[b.exe + |job.text|..b.exe + Words(job)] == job.data
            && Inside(spans, Span(b.exe + |job.text|, b.exe + Words(job) - 1)))
      && forall s :: s in OpSpans(b.op1, job.p) ==> s in ops
    }

    lemma LoadedIsReady(job: Job, b: Site, q: seq<Span>, o: seq<Span>)
      requires Sound(job) && Loadable(job.p, |job.text|, |job.data|, b.op1)
      requires b.exe + |job.text| + |job.data| <= exe.Length
      requires spans == q + TextSpans(b.exe, job.p) && ops == o + OpSpans(b.op1, job.p)
      requires Img()[b.exe..b.exe + |job.text|] == job.text
      requires job.p.data.Some? ==> Img()[b.exe + |job.text|..b.exe + |job.text| + |job.data|] == job.data
      ensures Ready(job, b)
    {
      hide Inside, OpSpans, TextSpans;
      TextIsIn(q, b.exe, job.p);
    }

    /** A package just loaded is commissioned. `done` is how many of its commissions have been carried out. */
    method CommitPackage(job: Job, b: Site) returns (ok: bool, ghost done: nat)
      requires Whole() && Linkable() && Sound(job) && Ready(job, b) && b.alpha == srf_alpha && b.top == sisr_top
      requires if srf_alpha == 0 then job.sid == 0 && slots == {} else Head().Below(b.exe)
      modifies `slots, `flatline, `atria, exe
      ensures Whole() && Linkable() && SameEntries(old(Img()), old(T()), Img(), T())
      ensures done <= |job.commissions| && (ok <==> done == |job.commissions|)
      ensures Head() == HeadThrough(job.commissions[..done], job.sid, b, old(Head()))
      ensures Through(old(Img()), job.commissions[..done], job.sid, b, old(Head()), Img())
      ensures StopsAt(job, b, done) && (ok ==> Laid(Held(), b, job) && Texted(Held(), old(Head()), b, job))
      ensures ok && (srf_alpha != 0 || Declares(job)) ==> PackageAt(Held(), b, job)
      ensures ok && Declares(job) ==> JumpIn(true) && JumpIn(false)
    {
      hide Clear, Stacked, Stands, Entry, Inside, SameEntries, OpValid, Within, EvenData, OpSpans, TextSpans,
        Through, HeadThrough, WordThrough, Laid, Spared, Allowed, StopsAt, Texted;
      ghost var loaded, h := Img(), Head();
      ok, done := CommitAll(job.commissions, job.sid, b, job.p);
      assert job.commissions[..|job.commissions|] == job.commissions;
      StopsInText(loaded, b, h, job, done);
      if ok {
        PackageIs(Held(), b, h, job, loaded);
        TextedIs(Held(), b, h, job, loaded);
        if srf_alpha != 0 || Declares(job) {
          OpenIsSpared(job.commissions, b, h, job);
        }
      }
    }

    /** A package is loaded and commissioned. */
    method Prepare(job: Job) returns (ok: bool, ghost done: nat)
      requires Whole() && Linkable() && Sound(job) && (srf_alpha == 0 ==> job.sid == 0)
      requires ExeOff() + |job.text| + |job.data| <= exe.Length
      modifies `img_ext, `op_ext, `spans, `ops, `slots, `flatline, `atria, exe
      ensures Whole() && Linkable() && SameEntries(old(Img()), old(T()), Img(), T())
      ensures done <= |job.commissions| && (srf_alpha != 0 ==> Carried(old(Held()), Held(), job, old(NextSite()), done))
      ensures srf_alpha != 0 ==> img_ext <= old(img_ext) + |job.text| + |job.data| && op_ext >= old(op_ext)
      ensures !Loadable(job.p, |job.text|, |job.data|, old(OpOff())) ==> done == 0
      ensures ok <==> Loadable(job.p, |job.text|, |job.data|, old(OpOff())) && done == |job.commissions|
      ensures Loadable(job.p, |job.text|, |job.data|, old(OpOff())) ==> StopsAt(job, old(NextSite()), done)
      ensures ok ==> op_ext >= OP_MIN && Laid(Held(), old(NextSite()), job)
      ensures ok ==> Texted(Held(), old(if srf_alpha == 0 then Head().(slots := {}) else Head()), old(NextSite()), job)
      ensures ok && srf_alpha == 0 ==>
                Head() == HeadThrough(job.commissions, 0, old(NextSite()), old(Head()).(slots := {}))
      ensures ok ==> op_ext >= OpTop(old(OpOff()), job.p)
      ensures ok ==> img_ext == old(ExeOff()) + TextWords(job.p)
      ensures ok ==> ops == Standing(old(ops)) + OpSpans(old(OpOff()), job.p)
      ensures ok && (srf_alpha != 0 || Declares(job)) ==> PackageAt(Held(), old(NextSite()), job)
      ensures ok && Declares(job) ==> JumpIn(true) && JumpIn(false)
    {
      hide Whole, Entry, Inside, SameEntries, Within, EvenData, OpSpans, PackageAt, TextSpans,
        Through, Stays, HeadThrough, WordThrough, Declares, Carried, Ready, Laid, Texted, StopsAt, TableSpan, InSome;
      ghost var was, t := Held(), T();
      var b := NextSite();
      if srf_alpha != 0 {
        OpenIsBelow();
      }
      ok := Load(job.p, job.text, job.data);
      ghost var loaded := Img();
      JumpsStay(was.spans);
      NothingDone(loaded, job.sid, b, Head());
      done := 0;
      assert job.commissions[..0] == [];
      if ok {
        LoadedIsReady(job, b, Standing(was.spans), Standing(was.ops));
        ok, done := CommitPackage(job, b);
        assert job.commissions[..|job.commissions|] == job.commissions;
        SameEntriesOn(was.img, t, loaded, T(), Img(), T());
      }
      if srf_alpha != 0 {
        CommissionsStay(was, loaded, job, b, done);
      }
    }

    /** The record of a package that is in place. It stays in place, with no open span in it if there was none. */
    method Enter(job: Job, ghost b: Site, ghost head: Header) returns (ok: bool)
      requires Whole() && OP_MIN <= op_ext && (Registered(job.sid) == None ==> Fits(Demand(PathOf(job.sid))))
      requires |job.record| == RECORD && job.record[RECORD - 1] < 0x100 && Laid(Held(), b, job)
      requires Texted(Held(), head, b, job)
      modifies `img_ext, `srf_alpha, `sisr_top, `nodes, `spans, `slots, exe
      ensures Whole() && srf_alpha != 0 && (ok <==> old(Registered(job.sid)) == None)
      ensures Registered(job.sid) == if ok then Some(job.record) else old(Registered(job.sid))
      ensures forall t: Word :: t != job.sid ==> Registered(t) == old(Registered(t))
      ensures Laid(Held(), b, job) && (old(PackageAt(Held(), b, job)) ==> PackageAt(Held(), b, job))
      ensures Texted(Held(), head, b, job)
      ensures Filled(old(Img()), old(T()), Img(), {}) && Behind(old(T()), T()) && old(spans) <= spans
      ensures old(srf_alpha) != 0 ==> srf_alpha == old(srf_alpha) && sisr_top == old(sisr_top)
      ensures old(srf_alpha) != 0 ==>
                spans == old(spans) && Head() == old(Head()) && img_ext <= old(img_ext) + 3 * BLOCK + RECORD
      ensures old(srf_alpha) == 0 ==>
                && Head() == Header(flatline, atria, Some(sisr_top), old(slots) + {TableSpan(sisr_top)})
                && sisr_top > old(img_ext) && Trapped()
    {
      hide Clear, Stacked, Stands, Entry, Inside, OpValid, PathOf, Missing, Laid, Texted, PackageAt, Sorted, Filled,
        Stays, Behind, AllTrapped;
      ghost var h := Held();
      SortedHere();
      DemandIsSmall(PathOf(job.sid));
      var r := Register(job.sid, job.record, None);
      LaidStays(h, Held(), b, job);
      TextedStays(h, Held(), head, b, job);
      FilledMore(h.img, h.trie, Img(), h.head.Open());
      StaysIf(h, Held());
      AtStays(h, Held(), b, job);
      ok := r == Done;
    }

    lemma JumpsBelow()
      requires Whole() && JumpIn(true) && JumpIn(false)
      ensures flatline < img_ext && atria < img_ext
    {
      InsideIsClear(spans, img_ext, nodes, JumpSpan(flatline));
      InsideIsClear(spans, img_ext, nodes, JumpSpan(atria));
    }

    lemma SuitsIff(job: Job, b: Site, done: nat)
      requires StopsAt(job, b, done) || !Loadable(job.p, |job.text|, |job.data|, b.op1)
      ensures Suits(job, b) <==> Loadable(job.p, |job.text|, |job.data|, b.op1) && done == |job.commissions|
    {
      hide Loadable, Takes;
    }

    /** A package is loaded, commissioned and registered. Until OPSEC is, no other can be; nor can one whose sizes do
        not fit, with a commission that is refused, or with a number that is taken. Whatever becomes of it, all that
        is in the image and in operational memory lies apart. Behind the first registration, what becomes of what was
        there is what the commissions carried out make of it, `done` in number; and the package lies behind it. */
    method Registration(job: Job) returns (ok: bool, ghost done: nat)
      requires Whole() && Linkable() && Sound(job) && RoomFor(job)
      modifies this, exe
      ensures Whole() && (old(srf_alpha) != 0 ==> srf_alpha != 0 && Linkable())
      ensures forall t: Word :: t != job.sid ==> Registered(t) == old(Registered(t))
      ensures if ok then Registered(job.sid) == Some(job.record) && srf_alpha != 0
              else Registered(job.sid) == old(Registered(job.sid))
      ensures done <= |job.commissions| && (ok ==> done == |job.commissions|)
      ensures old(NextSite()) == if old(srf_alpha) == 0 then Site(0, 0x100, 0, old(sisr_top))
                                 else Site(old(img_ext) + 1, old(op_ext) + 1, old(srf_alpha), old(sisr_top))
      ensures if old(srf_alpha) == 0 && job.sid != 0 then !ok && done == 0
              else Visited(job, Visit(job.sid, old(NextSite()), job.commissions[..done]))
                   && (ok <==> old(Registered(job.sid)) == None && Suits(job, old(NextSite())))
      ensures ok ==> Laid(Held(), old(NextSite()), job) && old(ExeOff()) + Words(job) <= img_ext + 1
      ensures ok ==> Texted(Held(), old(if srf_alpha == 0 then Head().(slots := {}) else Head()), old(NextSite()), job)
      ensures ok ==> ops == old(Standing(ops)) + OpSpans(old(OpOff()), job.p) && op_ext >= OpTop(old(OpOff()), job.p)
      ensures ok && (old(srf_alpha) != 0 || Declares(job)) ==> PackageAt(Held(), old(NextSite()), job) && Linkable()
      ensures ok && old(srf_alpha) == 0 ==>
                var first := HeadThrough(job.commissions, 0, old(NextSite()), old(Head()).(slots := {}));
                && Head() == Header(first.flatline, first.atria, Some(sisr_top), first.slots + {TableSpan(sisr_top)})
                && Trapped()
      ensures old(srf_alpha) != 0 ==>
                && Carried(old(Held()), Held(), job, old(NextSite()), done) && op_ext >= old(op_ext)
                && srf_alpha == old(srf_alpha) && sisr_top == old(sisr_top)
                && img_ext <= old(img_ext) + |job.text| + |job.data| + 3 * BLOCK + RECORD
    {
      hide Clear, Stacked, Stands, Entry, Inside, SameEntries, OpValid, Within, EvenData, TextSpans, OpSpans, Stays,
        PathOf, Missing, Declares, PackageAt, Laid, Texted, Sorted, Carried, StopsAt, Takes, HeadThrough, WordThrough,
        IsIndex, Filled, AllTrapped;
      ghost var was, b, head := Held(), NextSite(), if srf_alpha == 0 then Head().(slots := {}) else Head();
      done := 0;
      if srf_alpha == 0 && job.sid != 0 {
        return false, 0;
      }
      ok, done := Prepare(job);
      SameAnswers(was.img, was.trie);
      if ok {
        ghost var mid := Held();
        MissingSame(was.trie, T(), PathOf(job.sid), 0);
        if Declares(job) {
          JumpsBelow();
        }
        ok := Enter(job, b, head);
        if was.trie.alpha != 0 {
          CarriedOn(was, mid, Held(), job, b, done);
        }
        if was.trie.alpha != 0 || Declares(job) {
          JumpsStay(mid.spans);
        }
        SortedHere();
        PackageBelow(Held(), b, job);
      }
      SuitsIff(job, b, done);
    }

    /** The words that a sequence of jobs takes at most. */
    ghost function Bulk(jobs: seq<Job>): nat {
      if jobs == [] then 0
      else
        var last := jobs[|jobs| - 1];
        Bulk(jobs[..|jobs| - 1]) + |last.text| + |last.data| + 3 * BLOCK + RECORD
    }

    lemma {:induction false} BulkGrows(jobs: seq<Job>, n: nat)
      requires 0 < n <= |jobs|
      ensures Bulk(jobs) >= Bulk(jobs[..n])
           == Bulk(jobs[..n - 1]) + |jobs[n - 1].text| + |jobs[n - 1].data| + 3 * BLOCK + RECORD
    {
      assert jobs[..n][..n - 1] == jobs[..n - 1];
      if n < |jobs| {
        BulkGrows(jobs[..|jobs| - 1], n);
        assert jobs[..|jobs| - 1][..n] == jobs[..n] && jobs[..|jobs| - 1][..n - 1] == jobs[..n - 1];
      } else {
        assert jobs[..n] == jobs;
      }
    }

    lemma StaysHere()
      requires Whole()
      ensures Stays(Held(), Held())
    {
    }

    lemma TableIsThere()
      requires Whole() && srf_alpha != 0
      ensures TableIn(Img(), T(), sisr_top)
    {
      hide Stands, OpValid;
      SortedHere();
      InsideIsClear(spans, img_ext, nodes, TableSpan(sisr_top));
    }

    lemma TableIsOff()
      requires Whole() && Linkable() && srf_alpha != 0
      ensures Tabled(Held())
    {
      hide Whole, TableIn, Inside;
      TableIsThere();
    }

    lemma SameRecords()
      ensures forall t: Word :: Registered(t) == RecordOf(Held(), t)
    {
    }

    lemma RoomForNext(job: Job)
      requires Whole() && srf_alpha != 0
      requires img_ext + |job.text| + |job.data| + 3 * BLOCK + RECORD < exe.Length
      requires 2 * (img_ext + |job.text| + |job.data| + 3 * BLOCK + RECORD) < 0x1_0000
      ensures RoomFor(job)
    {
      hide Whole, Entry, Missing;
      DemandIsSmall(PathOf(job.sid));
    }

    /** The numbers in the register. */
    ghost function Known(): iset<Word>
      reads `img_ext, `srf_alpha, `nodes, exe
    {
      iset t: Word | Registered(t).Some?
    }

    /** Any sequence of registrations behind OPSEC's, successful or not. Of what was in the image, the header and
        every word but an empty index are what the commissions carried out make of them, and registrations stay. Each
        job that is accepted, and it is known which are, has its record and its package in the image at the end. The
        packages lie behind all that there was and in order, in the image and in operational memory. */
    method Session(jobs: seq<Job>) returns (oks: seq<bool>, ghost visits: seq<Visit>)
      requires Whole() && Linkable() && srf_alpha != 0 && forall job :: job in jobs ==> Sound(job)
      requires img_ext + Bulk(jobs) < exe.Length && 2 * (img_ext + Bulk(jobs)) < 0x1_0000
      modifies this, exe
      ensures Whole() && Linkable() && srf_alpha != 0 && |oks| == |visits| == |jobs|
      ensures Passed(old(Held()), Held(), visits)
      ensures forall t: Word :: t in old(Known()) ==> Registered(t) == old(Registered(t))
      ensures forall t: Word :: t in Known() <==> t in old(Known()) || TakenBy(jobs, oks, t)
      ensures Judged(jobs, oks, visits, old(Known()))
      ensures AllSeated(Held(), jobs, oks, visits) && AllTexts(Held(), jobs, oks, visits, old(Head()))
      ensures InOrder(jobs, oks, visits, old(img_ext), old(op_ext)) && Rooted(visits, srf_alpha, sisr_top)
      ensures sisr_top == old(sisr_top) && sisr_top + SISR_TABLE <= exe.Length
      ensures Handled(old(Img()), Img(), sisr_top, visits)
    {
      hide Whole, Linkable, Sound, Loadable, Sorted, Stays, PackageAt, Laid, Declares, Suits, Words, OpTop, Passed,
        Carried, Judged, AllSeated, AllTexts, Texted, InOrder, AllAhead, TakenBy, Entry, PathOf, HeadThrough, OpSpans,
        HeadOver, WordOver, TextOver, Visited, RoomFor, Bulk, Handled, Tabled;
      ghost var was, known, op := Held(), Known(), op_ext;
      StaysHere();
      TableIsOff();
      NothingPassed(was);
      NothingJudged(was, jobs, known, was.trie.ext, op, NextSite());
      oks, visits := [], [];
      for i := 0 to |jobs|
        invariant Whole() && Linkable() && srf_alpha != 0 && |oks| == |visits| == i
        invariant img_ext <= was.trie.ext + Bulk(jobs[..i]) && img_ext >= was.trie.ext && op_ext >= op
        invariant Passed(was, Held(), visits) && Judged(jobs, oks, visits, known)
        invariant AllSeated(Held(), jobs, oks, visits) && AllTexts(Held(), jobs, oks, visits, was.head)
        invariant Rooted(visits, srf_alpha, sisr_top) && sisr_top == old(sisr_top)
        invariant forall t: Word :: t in known ==> Registered(t) == old(Registered(t))
        invariant forall t: Word :: t in Known() <==> t in known || TakenBy(jobs, oks, t)
        invariant InOrder(jobs, oks, visits, was.trie.ext, op) && AllAhead(jobs, oks, visits, NextSite())
      {
        ghost var h, b := Held(), NextSite();
        BulkGrows(jobs, i + 1);
        RoomForNext(jobs[i]);
        SortedHere();
        SameRecords();
        var ok, done := Registration(jobs[i]);
        SameRecords();
        ghost var v := Visit(jobs[i].sid, b, jobs[i].commissions[..done]);
        CarriedStays(h, Held(), jobs[i], b, done);
        PassedOn(was, h, Held(), visits, jobs[i], b, done);
        JudgedOn(jobs, oks, visits, known, ok, v);
        AllSeatedOn(h, Held(), jobs, oks, visits, ok, v);
        PassedHead(was, h, visits);
        AllTextsOn(h, Held(), jobs, oks, visits, was.head, ok, b, done);
        InOrderOn(jobs, oks, visits, was.trie.ext, op, ok, v, NextSite());
        TakenOn(jobs, oks, ok);
        oks, visits := oks + [ok], visits + [v];
      }
      assert jobs[..|jobs|] == jobs;
      OrderIsBehind(jobs, oks, visits, was.trie.ext, op);
      HandlersStand(was, Held(), visits);
    }

    /** No word of the image belongs to two of: texts, overlays, trap, interrupt service table, index blocks, records;
        and no byte of operational memory, within its bounds, to two partitions. */
    lemma AllApart(at: int)
      requires Whole()
      ensures forall i, j :: 0 <= i < j < |spans| ==> !(Holds(spans[i], at) && Holds(spans[j], at))
      ensures forall i, p :: 0 <= i < |spans| && p in nodes ==>
                !(Holds(spans[i], at) && nodes[p].at <= at < nodes[p].at + nodes[p].size)
      ensures forall p, q :: p in nodes && q in nodes && p != q ==>
                !(nodes[p].at <= at < nodes[p].at + nodes[p].size && nodes[q].at <= at < nodes[q].at + nodes[q].size)
      ensures forall i, j :: 0 <= i < j < |ops| ==> !(Holds(ops[i], at) && Holds(ops[j], at))
      ensures forall i :: 0 <= i < |ops| && Holds(ops[i], at) ==> OP_MIN <= at <= OP_MAX
      ensures forall i :: 0 <= i < |spans| && Holds(spans[i], at) ==> 0 <= at <= img_ext
    {
      forall i, p | 0 <= i < |spans| && p in nodes
        ensures !(Holds(spans[i], at) && nodes[p].at <= at < nodes[p].at + nodes[p].size)
      {
        assert SpanApart(spans[i], nodes[p]);
      }
      forall p, q | p in nodes && q in nodes && p != q
        ensures !(nodes[p].at <= at < nodes[p].at + nodes[p].size && nodes[q].at <= at < nodes[q].at + nodes[q].size)
      {
        assert Apart(nodes[p], nodes[q]);
      }
    }
  }
}
