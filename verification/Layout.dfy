/** Where the simulator places registrations: text and data overlays in the EXE image, one behind the
    other, and the two operational partitions of each in operational memory. */
module Layout {
  import opened Basics

  const EXE_MIN: nat := 0x0000
  const EXE_MAX: nat := 0x3fff
  const OP_MIN: nat := 0x0100
  const OP_MAX: nat := 0x08ff

  /** The first and last address of a stretch of memory. */
  datatype Span = Span(lo: int, hi: int)

  predicate Holds(s: Span, at: int) { s.lo <= at <= s.hi }

  ghost predicate InSome(slots: set<Span>, at: int) { exists s :: s in slots && Holds(s, at) }

  /** A package: the extent of its text, in words, and of .data and .bss, in bytes, if it has any. An extent
      is the offset of the last one. */
  datatype Package = Package(text: nat, data: Option<nat>, bss: Option<nat>)

  /** Spans that follow one another, the last at or below `top`. */
  ghost predicate Stacked(q: seq<Span>, top: int) {
    && (forall i :: 0 <= i < |q| ==> q[i].lo <= q[i].hi <= top)
    && (forall i, j :: 0 <= i < j < |q| ==> q[i].hi < q[j].lo)
  }

  lemma StackedOn(q: seq<Span>, top: int, s: Span, top': int)
    requires Stacked(q, top) && top < s.lo <= s.hi && top <= top'
    ensures Stacked(q + [s], top') <==> s.hi <= top'
  {
    if s.hi > top' {
      assert (q + [s])[|q|].hi > top';
    }
  }

  /** Spans that follow one another share no address. */
  lemma StackedIsDisjoint(q: seq<Span>, top: int, i: nat, j: nat, at: int)
    requires Stacked(q, top) && i < |q| && j < |q| && i != j
    ensures !(q[i].lo <= at <= q[i].hi && q[j].lo <= at <= q[j].hi)
  {
    if i < j {
      assert q[i].hi < q[j].lo;
    } else {
      assert q[j].hi < q[i].lo;
    }
  }

  /** The words that the overlay of a .data section of this extent takes, and those that are counted for it. */
  function Loaded(data: nat): nat { data / 2 + 1 }

  function Counted(data: nat): nat { data / 2 + data % 2 }

  /** The counted words are enough exactly when the section has an even number of bytes. */
  lemma CountedIffEven(data: nat)
    ensures Loaded(data) <= Counted(data) <==> (data + 1) % 2 == 0
    ensures Loaded(data) - 1 <= Counted(data) <= Loaded(data)
  {
  }

  /** The spans of a package's text and of the overlay behind it. */
  function TextSpans(off: nat, p: Package): seq<Span> {
    [Span(off, off + p.text)]
    + if p.data.Some? then [Span(off + p.text + 1, off + p.text + Loaded(p.data.value))] else []
  }

  /** The words that are counted for them. */
  function TextWords(p: Package): nat { p.text + if p.data.Some? then Counted(p.data.value) else 0 }

  /** The spans of .data and .bss in operational memory. */
  function OpSpans(off: nat, p: Package): seq<Span> {
    (if p.data.Some? then [Span(off, off + p.data.value)] else [])
    + if p.bss.Some? then [Span(BssOff(off, p), BssOff(off, p) + p.bss.value)] else []
  }

  function BssOff(off: nat, p: Package): nat { if p.data.Some? then off + p.data.value + 1 else off }

  /** A package's spans keep the image stacked up to what is counted if and only if its .data is even. */
  lemma TextStacksIffEven(q: seq<Span>, top: int, off: nat, p: Package)
    requires Stacked(q, top) && top < off
    ensures Stacked(q + TextSpans(off, p), off + TextWords(p)) <==> EvenData(p)
  {
    var text := Span(off, off + p.text);
    StackedOn(q, top, text, off + p.text);
    if p.data.Some? {
      var overlay := Span(off + p.text + 1, off + p.text + Loaded(p.data.value));
      StackedOn(q + [text], off + p.text, overlay, off + TextWords(p));
      assert q + TextSpans(off, p) == q + [text] + [overlay];
      CountedIffEven(p.data.value);
    } else {
      assert TextSpans(off, p) == [text];
    }
  }

  /** Whether .data, if there is any, has an even number of bytes. */
  predicate EvenData(p: Package) { p.data.Some? ==> (p.data.value + 1) % 2 == 0 }

  /** Whether a package whose overlays have so many words is loaded, from `off` on in operational memory. */
  predicate Loadable(p: Package, text: nat, data: nat, off: nat) {
    && p.text <= EXE_MAX && text == p.text + 1
    && (p.data.Some? ==>
          && off + p.data.value + 1 <= OP_MAX && p.text + Counted(p.data.value) <= EXE_MAX
          && data == Loaded(p.data.value))
    && (p.bss.Some? ==> BssOff(off, p) + p.bss.value <= OP_MAX)
  }

  // --------------------------------------------------------------------- What is where

  /** An extent is the offset of the last one: text has one word more, overlay a word for every two bytes, or less. */
  lemma TextAdjoins(off: nat, p: Package)
    ensures var q := TextSpans(off, p);
            && |q| == (if p.data.Some? then 2 else 1)
            && q[0].lo == off && q[0].hi - q[0].lo + 1 == p.text + 1
            && (p.data.Some? ==>
                  && q[1].lo == q[0].hi + 1
                  && 2 * (q[1].hi - q[1].lo) < p.data.value + 1 <= 2 * (q[1].hi - q[1].lo + 1))
  {
  }

  /** .data comes first, and .bss right behind it, or where .data would be; each has one byte more than its extent. */
  lemma PartitionsAdjoin(off: nat, p: Package)
    ensures var q := OpSpans(off, p);
            && |q| == (if p.data.Some? then 1 else 0) + (if p.bss.Some? then 1 else 0)
            && (p.data.Some? ==> q[0].lo == off && q[0].hi - q[0].lo + 1 == p.data.value + 1)
            && (p.bss.Some? ==>
                  var bss := q[|q| - 1];
                  && bss.hi - bss.lo + 1 == p.bss.value + 1
                  && bss.lo == if p.data.Some? then q[0].hi + 1 else off)
  {
  }

  /** A package is loaded exactly when its overlays have the sizes that it gives, and it ends within both memories:
      .data one byte before the end of operational memory, .bss at it. */
  lemma LoadableIff(p: Package, text: nat, data: nat, off: nat)
    ensures Loadable(p, text, data, off) <==>
            && text == p.text + 1 && p.text <= EXE_MAX
            && (p.data.Some? ==>
                  && 2 * (data - 1) < p.data.value + 1 <= 2 * data
                  && off + p.data.value < OP_MAX && p.text + (p.data.value + 1) / 2 <= EXE_MAX)
            && (p.bss.Some? ==> OpSpans(off, p)[|OpSpans(off, p)| - 1].hi <= OP_MAX)
  {
  }
}
