/** The message chain of MAN%: strings under pairs of indices, or under one, packed two bytes to a word at the end of a
    trie in the words of a file. Its first word counts the words in use; indices count from the second. */
module Manchain {
  import opened Basics
  import opened Layout
  import opened NibbleTrie

  const CARET: Byte := 0x5e
  const SHOWN: nat := 120
  const LONGEST: nat := 1024

  // --------------------------------------------------------------------- Text

  /** What a step of the scan leaves of the text from where it stands: ^n is a line's end, ^l two. */
  function Formatted(s: seq<Byte>): (r: seq<Byte>)
    ensures |r| == |s|
  {
    if |s| >= 2 && s[0] == CARET && s[1] == 0x6e then [0x0d, 0x0a] + s[2..]
    else if |s| >= 2 && s[0] == CARET && s[1] == 0x6c then [0x0a, 0x0a] + s[2..]
    else s
  }

  /** The text after n steps. */
  function Expanded(s: seq<Byte>, n: nat): (r: seq<Byte>)
    ensures |r| == |s|
    decreases n
  {
    if n == 0 || s == [] then s
    else
      var t := Formatted(s);
      [t[0]] + Expanded(t[1..], n - 1)
  }

  ghost predicate NoZeros(s: seq<Byte>) { forall i :: 0 <= i < |s| ==> s[i] != 0 }

  lemma {:induction false} ExpandedHasNoZeros(s: seq<Byte>, n: nat)
    requires NoZeros(s)
    ensures NoZeros(Expanded(s, n))
    decreases n
  {
    if n > 0 && s != [] {
      ExpandedHasNoZeros(Formatted(s)[1..], n - 1);
    }
  }

  /** One step of the scan formats what is ahead, and goes on behind its first byte. */
  lemma ExpandStep(done: seq<Byte>, rest: seq<Byte>, n: nat)
    requires rest != []
    ensures done + Expanded(rest, n + 1) == done + [Formatted(rest)[0]] + Expanded(Formatted(rest)[1..], n)
  {
  }

  /** The scan for formatting, in place. */
  method Expand(line: array<Byte>, len: nat)
    requires len <= line.Length
    modifies line
    ensures line[..] == Expanded(old(line[..]), len)
  {
    hide Expanded, Formatted;
    for i := 0 to len
      invariant line[..i] + Expanded(line[i..], len - i) == Expanded(old(line[..]), len)
    {
      ghost var done, rest := line[..i], line[i..];
      ExpandStep(done, rest, len - i - 1);
      FormatAt(line, i);
      assert line[..i + 1] == done + [Formatted(rest)[0]] && line[i + 1..] == Formatted(rest)[1..];
    }
    NoSteps(line[len..]);
    assert line[..] == line[..len] + line[len..];
  }

  lemma NoSteps(s: seq<Byte>)
    ensures Expanded(s, 0) == s
  {
  }

  /** One step of the scan. */
  method FormatAt(line: array<Byte>, i: nat)
    requires i < line.Length
    modifies line
    ensures line[..i] == old(line[..i]) && line[i..] == Formatted(old(line[i..]))
  {
    ghost var rest := line[i..];
    if line[i] == CARET && i + 1 < line.Length {
      if line[i + 1] == 0x6e {
        line[i], line[i + 1] := 0x0d, 0x0a;
      } else if line[i + 1] == 0x6c {
        line[i], line[i + 1] := 0x0a, 0x0a;
      }
    }
    assert line[i..] == Formatted(rest);
  }

  /** The words that hold these bytes, the first of each pair in the low half; an odd end leaves a high half as it
      was. */
  function Packed(bytes: seq<Byte>, high: Byte): (words: seq<Word>)
    ensures |words| == |bytes| / 2 + |bytes| % 2
  {
    seq(|bytes| / 2 + |bytes| % 2, k requires 0 <= k < |bytes| / 2 + |bytes| % 2 =>
      bytes[2 * k] + 0x100 * if 2 * k + 1 < |bytes| then bytes[2 * k + 1] else high)
  }

  function ByteOf(words: seq<Word>, i: nat): Byte
    requires i < 2 * |words|
  {
    if i % 2 == 0 then words[i / 2] % 0x100 else words[i / 2] / 0x100
  }

  lemma PackedBytes(bytes: seq<Byte>, high: Byte, i: nat)
    requires i < |bytes|
    ensures ByteOf(Packed(bytes, high), i) == bytes[i]
  {
    assert i == 2 * (i / 2) + i % 2;
  }

  /** The text that is shown of the bytes from i on: up to the first zero, and no more than n bytes. */
  function Shown(words: seq<Word>, i: nat, n: nat): (s: seq<Byte>)
    ensures |s| <= n
    decreases n
  {
    if n == 0 || i >= 2 * |words| || ByteOf(words, i) == 0 then []
    else [ByteOf(words, i)] + Shown(words, i + 1, n - 1)
  }

  /** Whoever reads these words for a text finds its end in them. */
  ghost predicate Ended(words: seq<Word>) { 2 * |words| >= SHOWN || |Shown(words, 0, SHOWN)| < 2 * |words| }

  lemma NothingMore(words: seq<Word>)
    ensures Shown(words, SHOWN, 0) == []
  {
  }

  lemma ShownStep(words: seq<Word>, i: nat)
    requires i < 2 * |words| && i < SHOWN
    ensures Shown(words, i, SHOWN - i) ==
            if ByteOf(words, i) == 0 then [] else [ByteOf(words, i)] + Shown(words, i + 1, SHOWN - i - 1)
  {
  }

  /** A text that is not at its end yet goes on within its words. */
  lemma GoesOn(words: seq<Word>, text: seq<Byte>)
    requires Ended(words) && |text| < SHOWN && |text| <= 2 * |words|
    requires text + Shown(words, |text|, SHOWN - |text|) == Shown(words, 0, SHOWN)
    ensures |text| < 2 * |words|
  {
  }

  /** How much of a line is scanned, how many bytes of it are kept, with its closing zero if it is no longer, and what
      of a text is shown. */
  function Scanned(n: nat): nat { if n < LONGEST then n else LONGEST }

  function Stored(n: nat): nat { Scanned(n) + 1 }

  function Visible(s: seq<Byte>): seq<Byte> { if |s| < SHOWN then s else s[..SHOWN] }

  /** Packed with its closing zero, or cut off behind what is ever shown, a text reads back. */
  lemma {:induction false} TextReadsBack(text: seq<Byte>, bytes: seq<Byte>, high: Byte, i: nat)
    requires NoZeros(text) && i <= |text| && i <= SHOWN && |bytes| > 0
    requires |bytes| == |text| + 1 || SHOWN <= |bytes| <= |text|
    requires bytes == (text + [0])[..|bytes|]
    ensures Shown(Packed(bytes, high), i, SHOWN - i) == text[i..if |text| < SHOWN then |text| else SHOWN]
    ensures 2 * |Packed(bytes, high)| >= |bytes|
    decreases |text| - i
  {
    hide Packed, ByteOf;
    if i < |bytes| {
      PackedBytes(bytes, high, i);
    }
    if i < |text| && i < SHOWN {
      TextReadsBack(text, bytes, high, i + 1);
    }
  }

  /** The first byte of each pair is the low half of its word. */
  lemma PackedHalves(bytes: seq<Byte>, high: Byte, k: nat)
    requires k < |Packed(bytes, high)|
    ensures Packed(bytes, high)[k] % 0x100 == bytes[2 * k]
    ensures Packed(bytes, high)[k] / 0x100 == if 2 * k + 1 < |bytes| then bytes[2 * k + 1] else high
  {
  }

  // --------------------------------------------------------------------- What a text shows

  /** What the author of a string writes, piece by piece. */
  datatype Piece = Plain(b: Byte) | NewLine | TwoLines | Caret

  /** As it is written: ^n for a new line, ^l for two. */
  function Written(p: Piece): seq<Byte> {
    match p
    case Plain(b) => [b]
    case NewLine => [0x5e, 'n' as int]
    case TwoLines => [0x5e, 'l' as int]
    case Caret => [0x5e]
  }

  /** As it is shown: a carriage return and a line feed, or two line feeds. */
  function Displayed(p: Piece): seq<Byte> {
    match p
    case Plain(b) => [b]
    case NewLine => [0x0d, 0x0a]
    case TwoLines => [0x0a, 0x0a]
    case Caret => [0x5e]
  }

  function Source(q: seq<Piece>): seq<Byte> { if q == [] then [] else Written(q[0]) + Source(q[1..]) }

  function Display(q: seq<Piece>): seq<Byte> { if q == [] then [] else Displayed(q[0]) + Display(q[1..]) }

  /** A caret of its own is followed by neither letter, and plain bytes are no carets. */
  ghost predicate Proper(q: seq<Piece>) {
    forall i :: 0 <= i < |q| ==>
      && (q[i].Plain? ==> q[i].b != 0x5e)
      && (q[i].Caret? && i + 1 < |q| ==> q[i + 1] != Plain('n' as int) && q[i + 1] != Plain('l' as int))
  }

  lemma {:induction false} SourceStarts(q: seq<Piece>)
    requires q != []
    ensures |Source(q)| >= 1 && |Source(q)| == |Display(q)|
    ensures Source(q)[0] == if q[0].Plain? then q[0].b else 0x5e
    decreases |q|
  {
    if |q| > 1 {
      SourceStarts(q[1..]);
    }
  }

  /** Every text is the source of such pieces, so this says what the scan does to each: exactly the escapes are
      replaced, all of them. */
  lemma {:induction false} ScanShowsPieces(q: seq<Piece>)
    requires Proper(q)
    ensures Expanded(Source(q), |Source(q)|) == Display(q)
    decreases |q|
  {
    if q != [] {
      var s, rest := Source(q), q[1..];
      ScanShowsPieces(rest);
      if rest != [] {
        SourceStarts(rest);
      }
      match q[0]
      case Plain(b) => assert s[1..] == Source(rest);
      case Caret => assert s[1..] == Source(rest);
      case NewLine => EscapeShows(0x0d, s, Source(rest));
      case TwoLines => EscapeShows(0x0a, s, Source(rest));
    }
  }

  lemma {:induction false} ScanOne(s: seq<Byte>, n: nat)
    requires s != []
    ensures Expanded(s, n + 1) == [Formatted(s)[0]] + Expanded(Formatted(s)[1..], n)
  {
  }

  lemma {:induction false} EscapeShows(first: Byte, s: seq<Byte>, rest: seq<Byte>)
    requires first == 0x0d || first == 0x0a
    requires s == [0x5e, if first == 0x0d then 'n' as int else 'l' as int] + rest
    ensures Expanded(s, |s|) == [first, 0x0a] + Expanded(rest, |rest|)
  {
    hide Expanded;
    var t: seq<Byte> := [0x0a] + rest;
    assert Formatted(s) == [first] + t && Formatted(s)[1..] == t;
    assert Formatted(t) == t && t[1..] == rest;
    ScanOne(s, |rest| + 1);
    ScanOne(t, |rest|);
  }

  lemma {:induction false} EveryTextHasPieces(s: seq<Byte>) returns (q: seq<Piece>)
    ensures Proper(q) && Source(q) == s
    decreases |s|
  {
    if s == [] {
      return [];
    }
    var n := if |s| >= 2 && s[0] == 0x5e && (s[1] == 'n' as int || s[1] == 'l' as int) then 2 else 1;
    q := EveryTextHasPieces(s[n..]);
    if q != [] {
      SourceStarts(q);
    }
    var p := if n == 1 then (if s[0] == 0x5e then Caret else Plain(s[0]))
             else if s[1] == 'n' as int then NewLine else TwoLines;
    assert ([p] + q)[1..] == q && s == Written(p) + s[n..];
    q := [p] + q;
  }

  /** Of a line that is kept whole, what is shown is its display, cut off behind 120 bytes. */
  lemma WholeLineIsShown(q: seq<Piece>)
    requires Proper(q) && |Source(q)| <= 1024
    ensures var shown := Visible(Expanded(Source(q), Scanned(|Source(q)|)));
            shown == if |Display(q)| <= 120 then Display(q) else Display(q)[..120]
  {
    ScanShowsPieces(q);
    assert |Display(q)| == 120 ==> Display(q)[..120] == Display(q);
  }

  lemma NoneMissing(t: Trie, path: Path)
    requires path != []
    ensures Missing(t, path, |path| - 1) == 0
  {
  }

  // --------------------------------------------------------------------- The chain

  const BLOCK: nat := 16

  class Chain {
    /** The file's words, and whether its strings are under one index or under two. */
    const chain: array<Word>
    const single: bool
    ghost var nodes: map<Path, Node>

    /** The words that the indices count. */
    function Base(): (img: seq<Word>)
      requires chain.Length > 0
      reads chain
      ensures |img| == chain.Length - 1
    {
      chain[1..]
    }

    function Form(): Shape { Shape(if single then 4 else 8, 0, false, None) }

    ghost function T(): Trie
      requires chain.Length > 0 && chain[0] > 0
      reads `nodes, chain
    {
      Trie(Form(), 0, chain[0] - 1, nodes)
    }

    ghost predicate Valid()
      reads `nodes, chain
    {
      chain.Length > 0 && chain[0] > 0 && Stands(Base(), T())
    }

    /** And every string ends. */
    ghost predicate Whole()
      reads `nodes, chain
    {
      Valid() && forall p :: Says(p).Some? ==> Ended(Says(p).value)
    }

    /** The path of a string: one index, or one behind the other. */
    function PathTo(idxa: Word, idxb: Word): (p: Path)
      ensures |p| == Form().depth && Nibbles(p)
    {
      if single then PathOf(idxb) else PathOf(idxa) + PathOf(idxb)
    }

    /** The path spells its indices, the first before the second. */
    lemma PathSpells(idxa: Word, idxb: Word)
      ensures var p := PathTo(idxa, idxb);
              if single then |p| == 4 && idxb == 0x1000 * p[0] + 0x100 * p[1] + 0x10 * p[2] + p[3]
              else && |p| == 8 && idxa == 0x1000 * p[0] + 0x100 * p[1] + 0x10 * p[2] + p[3]
                   && idxb == 0x1000 * p[4] + 0x100 * p[5] + 0x10 * p[6] + p[7]
    {
      Digits(idxa);
      Digits(idxb);
    }

    /** An index holds its node's place in the file, in words that are counted from the second; a block has nothing but
        its indices. */
    lemma IndicesHoldPlaces(p: Path, k: nat)
      requires Valid() && p in nodes && |p| < Form().depth && k < 16
      ensures nodes[p].at + k + 1 < chain.Length && nodes[p].size == 16
      ensures chain[nodes[p].at + k + 1] == if p + [k] in nodes then nodes[p + [k]].at else 0
    {
      LinkAt(Base(), T(), p, k);
      assert Base()[nodes[p].at + k] == chain[nodes[p].at + k + 1];
    }

    /** The words under a path. */
    ghost function Says(p: Path): Option<seq<Word>>
      requires Valid()
      reads `nodes, chain
    {
      Entry(Base(), T(), p)
    }

    /** What lookup is to show. */
    ghost function Answer(idxa: Word, idxb: Word): Option<seq<Byte>>
      requires Valid()
      reads `nodes, chain
    {
      var words := Says(PathTo(idxa, idxb));
      if words == None then None else Some(Shown(words.value, 0, SHOWN))
    }

    /** A new file: an empty first block, and the counter. */
    constructor (chain: array<Word>, single: bool)
      requires chain.Length >= 34
      modifies chain
      ensures Whole() && this.chain == chain && this.single == single
      ensures forall p: Path :: Says(p) == None
    {
      this.chain, this.single := chain, single;
      nodes := map[[] := Node(0, BLOCK)];
      new;
      forall i | 0 <= i < chain.Length {
        chain[i] := 0;
      }
      chain[0] := 2 * 16 + 1;
      FirstBlock(Base(), Form(), 0, 32);
    }

    function Read(i: nat): (word: Word)
      requires i + 1 < chain.Length
      reads chain
      ensures word == Base()[i]
    {
      chain[i + 1]
    }

    /** Puts words behind all that there is, and their place into a slot. */
    method WriteNode(slot: nat, words: seq<Word>)
      requires chain.Length > 0 && slot < chain[0] && chain[0] as int + |words| < chain.Length <= 0x1_0000
      modifies chain
      ensures chain[0] == old(chain[0]) + |words| && Grown(old(Base()), Base(), old(T()), slot, |words|)
      ensures Base()[old(chain[0])..chain[0]] == words
    {
      var at := chain[0];
      chain[1 + slot] := at;
      forall i | at <= i < at + |words| {
        chain[1 + i] := words[i - at];
      }
      chain[0] := at + |words|;
      assert Base()[at..at + |words|] == words;
    }

    /** Links new words to the index of path's i-th nibble. A block starts empty. */
    method Grow(mark: nat, path: Path, i: nat, words: seq<Word>)
      requires Valid() && i < |path| == Form().depth && Nibbles(path)
      requires path[..i] in nodes && mark == nodes[path[..i]].at
      requires path[..i + 1] !in nodes && Form().Fits(path[..i + 1], |words|)
      requires (i + 1 < |path| ==> Zeros(words)) && chain[0] as int + |words| < chain.Length <= 0x1_0000
      modifies chain, `nodes
      ensures Valid() && T() == old(T()).Put(path[..i + 1], |words|)
      ensures Base()[old(chain[0])..chain[0]] == words && chain[0] == old(chain[0]) + |words|
      ensures Grown(old(Base()), Base(), old(T()), old(T()).Slot(path[..i], path[i]), |words|)
      ensures Child(old(T()), path[..i + 1], path[..i], path[i])
    {
      hide Stands, Grown, Zeros, Child, Base;
      ghost var was, t := Base(), T();
      ChildOf(t, path, i);
      SlotInside(was, t, path[..i + 1], path[..i], path[i]);
      WriteNode(mark + path[i], words);
      GrowKeepsTrie(was, Base(), t, path[..i + 1], path[..i], path[i], words);
      nodes := t.Put(path[..i + 1], |words|).nodes;
    }

    /** One step to an index block, putting it in if it is missing. */
    method Enter(mark: nat, path: Path, i: nat) returns (next: nat)
      requires Valid() && i + 1 < |path| == Form().depth && Nibbles(path)
      requires path[..i] in nodes && mark == nodes[path[..i]].at
      requires path !in nodes ==> chain[0] as int + BLOCK * Missing(T(), path, i) < chain.Length <= 0x1_0000
      modifies chain, `nodes
      ensures Valid() && path[..i + 1] in nodes && next == nodes[path[..i + 1]].at
      ensures path !in nodes ==>
                chain[0] as int + BLOCK * Missing(T(), path, i + 1)
                == old(chain[0] as int + BLOCK * Missing(T(), path, i))
      ensures Kept(old(Base()), old(T()), Base(), T(), path)
    {
      hide Stands, Nibbles, Kept, Base, Grown, Child;
      ghost var was, t := Base(), T();
      Root(was, t, path);
      Follow(was, t, path, i);
      if Read(mark + path[i]) == 0 {
        next := chain[0];
        ghost var zeros := seq(BLOCK, _ => 0);
        MissingLater(t, path, i, BLOCK);
        Grow(mark, path, i, seq(BLOCK, _ => 0));
        GrowKeeps(was, Base(), t, path, i, zeros);
      } else {
        next := Read(mark + path[i]);
      }
    }

    /** The steps from one nibble of the path to another, over index blocks. */
    method Walk(mark: nat, path: Path, i: nat, to: nat) returns (next: nat)
      requires Valid() && i <= to < |path| == Form().depth && Nibbles(path)
      requires path[..i] in nodes && mark == nodes[path[..i]].at
      requires path !in nodes ==> chain[0] as int + BLOCK * Missing(T(), path, i) < chain.Length <= 0x1_0000
      modifies chain, `nodes
      ensures Valid() && path[..to] in nodes && next == nodes[path[..to]].at
      ensures path !in nodes ==>
                chain[0] as int + BLOCK * Missing(T(), path, to) == old(chain[0] as int + BLOCK * Missing(T(), path, i))
      ensures Kept(old(Base()), old(T()), Base(), T(), path)
    {
      hide Stands, Nibbles, Kept, Base, Missing;
      Root(Base(), T(), path);
      next := mark;
      for j := i to to
        invariant Valid() && path[..j] in nodes && next == nodes[path[..j]].at
        invariant path in nodes <==> path in old(nodes)
        invariant path !in nodes ==>
                    chain[0] as int + BLOCK * Missing(T(), path, j)
                    == old(chain[0] as int + BLOCK * Missing(T(), path, i))
        invariant Kept(old(Base()), old(T()), Base(), T(), path)
      {
        ghost var was, t := Base(), T();
        next := Enter(next, path, j);
        KeptOn(old(Base()), old(T()), was, t, Base(), T(), path);
        KeptSays(was, t, Base(), T(), path);
      }
    }

    /** The words that a string takes which is not in the chain. */
    ghost function Need(path: Path, bytes: nat): nat
      requires Valid() && path != []
      reads `nodes, chain
    {
      BLOCK * Missing(T(), path, 0) + bytes / 2 + bytes % 2
    }

    /** Both passes, over the indices of the path, as far as its last block. */
    method Trace(path: Path) returns (mark: nat)
      requires Valid() && |path| == Form().depth && Nibbles(path)
      requires path !in nodes ==> chain[0] as int + BLOCK * Missing(T(), path, 0) < chain.Length <= 0x1_0000
      modifies chain, `nodes
      ensures Valid() && path[..|path| - 1] in nodes && mark == nodes[path[..|path| - 1]].at
      ensures path !in nodes ==> chain[0] as int == old(chain[0] as int + BLOCK * Missing(T(), path, 0))
      ensures Kept(old(Base()), old(T()), Base(), T(), path)
    {
      hide Stands, Nibbles, Kept, Base, Missing;
      NoneMissing(T(), path);
      Root(Base(), T(), path);
      mark := 0;
      if single {
        mark := Walk(mark, path, 0, 3);
      } else {
        mark := Walk(mark, path, 0, 4);
        ghost var was, t := Base(), T();
        KeptSays(old(Base()), old(T()), was, t, path);
        mark := Walk(mark, path, 4, 7);
        KeptOn(old(Base()), old(T()), was, t, Base(), T(), path);
      }
      NoneMissing(T(), path);
    }

    /** The string's words, behind all that there is. */
    method AddLeaf(mark: nat, path: Path, bytes: seq<Byte>) returns (ghost high: Byte)
      requires Valid() && |path| == Form().depth && Nibbles(path) && path !in nodes && bytes != []
      requires path[..|path| - 1] in nodes && mark == nodes[path[..|path| - 1]].at
      requires chain[0] as int + |bytes| / 2 + |bytes| % 2 < chain.Length <= 0x1_0000
      modifies chain, `nodes
      ensures Valid() && Says(path) == Some(Packed(bytes, high))
      ensures chain[0] as int == old(chain[0] as int) + |bytes| / 2 + |bytes| % 2
      ensures forall q: Path :: q != path ==> Says(q) == old(Says(q))
      ensures Filled(old(Base()), old(T()), Base(), {}) && Behind(old(T()), T())
    {
      hide Stands, Nibbles, Base, Entry, Grown, Child, Filled, Behind;
      ghost var was, t, n := Base(), T(), |path| - 1;
      assert path[..n + 1] == path;
      ChildOf(t, path, n);
      var top := chain[chain[0] as int + |bytes| / 2 + |bytes| % 2] / 0x100;
      high := top;
      var words := Packed(bytes, top);
      Grow(mark, path, |path| - 1, words);
      GrowAddsEntry(was, Base(), t, path, path[..n], path[n], words);
      GrowFills(was, Base(), t, path, path[..n], path[n], |words|);
    }

    /** The string's words at the end of its path, unless it has some. */
    method PutIn(path: Path, bytes: seq<Byte>) returns (added: bool, ghost high: Byte)
      requires Valid() && |path| == Form().depth && Nibbles(path) && bytes != []
      requires path !in nodes ==> chain[0] as int + Need(path, |bytes|) < chain.Length <= 0x1_0000
      modifies chain, `nodes
      ensures Valid() && (added <==> path !in old(nodes))
      ensures !added ==> Base() == old(Base()) && T() == old(T())
      ensures added ==> Says(path) == Some(Packed(bytes, high))
      ensures added ==> chain[0] as int == old(chain[0] as int + Need(path, |bytes|))
      ensures forall q: Path :: q != path ==> Says(q) == old(Says(q))
      ensures Filled(old(Base()), old(T()), Base(), {}) && Behind(old(T()), T())
    {
      hide Stands, Nibbles, Base, Missing, Entry, Packed, Filled, Behind;
      var n := |path| - 1;
      var mark := Trace(path);
      assert path[..n + 1] == path;
      Follow(Base(), T(), path, n);
      high := 0;
      added := Read(mark + path[n]) == 0;
      if added {
        ghost var was, t := Base(), T();
        high := AddLeaf(mark, path, bytes);
        FilledOn(old(Base()), old(T()), was, t, Base(), {}, {});
        BehindOn(old(T()), t, T());
      }
    }

    lemma CounterAndBase()
      requires chain.Length > 0
      ensures chain[..] == [chain[0]] + Base()
    {
    }

    lemma PathsAreApart(idxa: Word, idxb: Word, jdxa: Word, jdxb: Word)
      ensures PathTo(idxa, idxb) == PathTo(jdxa, jdxb) <==> idxb == jdxb && (single || idxa == jdxa)
    {
      PathsDiffer(idxb, jdxb);
      PathsDiffer(idxa, jdxa);
      if !single {
        assert PathTo(idxa, idxb)[..4] == PathOf(idxa) && PathTo(idxa, idxb)[4..] == PathOf(idxb);
        assert PathTo(jdxa, jdxb)[..4] == PathOf(jdxa) && PathTo(jdxa, jdxb)[4..] == PathOf(jdxb);
      }
    }

    /** add_new. A string under indices that have none is put in formatted, and no other answer changes; indices that
        have one keep it. Earlier words change only where an index was empty. */
    method AddNew(idxa: Word, idxb: Word, line: array<Byte>) returns (added: bool)
      requires Whole() && line as object != chain as object && NoZeros(line[..])
      requires Answer(idxa, idxb) == None ==>
                 chain[0] as int + Need(PathTo(idxa, idxb), Stored(line.Length)) < chain.Length <= 0x1_0000
      modifies chain, `nodes, line
      ensures Whole() && (added <==> old(Answer(idxa, idxb)) == None)
      ensures added ==> Answer(idxa, idxb) == Some(Visible(Expanded(old(line[..]), Scanned(line.Length))))
      ensures !added ==> chain[..] == old(chain[..])
      ensures forall a: Word, b: Word :: !added || b != idxb || (!single && a != idxa) ==>
                Answer(a, b) == old(Answer(a, b))
      ensures Filled(old(Base()), old(T()), Base(), {}) && Behind(old(T()), T())
    {
      hide Stands, Nibbles, Base, Missing, Entry, Packed, Filled, Behind, NoZeros, Expanded, Shown;
      var path, len := PathTo(idxa, idxb), Scanned(line.Length);
      CounterAndBase();
      EntryIff(Base(), T(), path);
      ExpandedHasNoZeros(line[..], len);
      Expand(line, len);
      ghost var text := line[..];
      var bytes := (line[..] + [0])[..len + 1];
      ghost var high;
      added, high := PutIn(path, bytes);
      CounterAndBase();
      if added {
        TextReadsBack(text, bytes, high, 0);
        assert text[0..|text|] == text;
      }
      forall p | Says(p).Some? ensures Ended(Says(p).value) {
        assert p != path ==> old(Says(p)) == Says(p);
      }
      forall a: Word, b: Word | !added || b != idxb || (!single && a != idxa)
        ensures Answer(a, b) == old(Answer(a, b))
      {
        PathsAreApart(idxa, idxb, a, b);
      }
    }

    /** Copies a text out of the words from mark on. */
    method CopyText(mark: nat, ghost words: seq<Word>) returns (text: seq<Byte>)
      requires chain.Length > 0 && mark + |words| <= |Base()| && Base()[mark..mark + |words|] == words && Ended(words)
      ensures text == Shown(words, 0, SHOWN)
    {
      hide Shown, Ended, Base, ByteOf;
      text := [];
      var i := 0;
      while i < SHOWN
        invariant |text| == i <= SHOWN && i <= 2 * |words|
        invariant text + Shown(words, i, SHOWN - i) == Shown(words, 0, SHOWN)
      {
        GoesOn(words, text);
        ShownStep(words, i);
        var byte := ReadByte(mark, i, words);
        if byte == 0 {
          return;
        }
        ghost var rest := Shown(words, i + 1, SHOWN - i - 1);
        assert text + ([byte] + rest) == text + [byte] + rest;
        text := text + [byte];
        i := i + 1;
      }
      NothingMore(words);
    }

    method ReadByte(mark: nat, i: nat, ghost words: seq<Word>) returns (byte: Byte)
      requires chain.Length > 0 && mark + |words| <= |Base()| && Base()[mark..mark + |words|] == words
      requires i < 2 * |words|
      ensures byte == ByteOf(words, i)
    {
      var word := Read(mark + i / 2);
      assert word == words[i / 2];
      byte := if i % 2 == 0 then word % 0x100 else word / 0x100;
    }

    /** lookup. */
    method Lookup(idxa: Word, idxb: Word) returns (shown: Option<seq<Byte>>)
      requires Whole()
      ensures shown == Answer(idxa, idxb)
    {
      hide Stands, Nibbles, Base, Shown, Ended, PathTo;
      var path, mark, i := PathTo(idxa, idxb), 0, 0;
      Root(Base(), T(), path);
      assert path[..|path|] == path;
      while i < |path|
        invariant 0 <= i <= |path| && path[..i] in nodes && mark == nodes[path[..i]].at
      {
        Follow(Base(), T(), path, i);
        if Read(mark + path[i]) == 0 {
          return None;
        }
        mark := Read(mark + path[i]);
        i := i + 1;
      }
      NodeInside(Base(), T(), path);
      assert Says(path).Some?;
      var text := CopyText(mark, Says(path).value);
      shown := Some(text);
    }

    /** Index blocks and strings share no word, and lie below the counter. */
    lemma AllApart(at: int)
      requires Valid()
      ensures forall p, q :: p in nodes && q in nodes && p != q ==>
                !(nodes[p].at <= at < nodes[p].at + nodes[p].size && nodes[q].at <= at < nodes[q].at + nodes[q].size)
      ensures forall p :: p in nodes && nodes[p].at <= at < nodes[p].at + nodes[p].size ==> at < chain[0]
    {
      forall p | p in nodes && nodes[p].at <= at < nodes[p].at + nodes[p].size ensures at < chain[0] {
        NodeInside(Base(), T(), p);
      }
      forall p, q | p in nodes && q in nodes && p != q
        ensures !(nodes[p].at <= at < nodes[p].at + nodes[p].size && nodes[q].at <= at < nodes[q].at + nodes[q].size)
      {
        NodesApart(Base(), T(), p, q);
      }
    }
  }
}
