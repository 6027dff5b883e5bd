/** Tries kept in an array of words: index blocks of sixteen pointers, one for each nibble of a key, with leaves at
    their end, every new node put behind all that there is. */
module NibbleTrie {
  import opened Basics
  import opened Layout

  type Path = seq<int>

  ghost predicate Nibbles(p: Path) { forall i :: 0 <= i < |p| ==> 0 <= p[i] < 16 }

  /** The nibbles of a key, the highest first. */
  function PathOf(key: Word): (p: Path)
    ensures |p| == 4 && Nibbles(p)
  {
    [key / 0x1000, key / 0x100 % 16, key / 0x10 % 16, key % 16]
  }

  lemma Digits(s: Word)
    ensures s == 0x1000 * PathOf(s)[0] + 0x100 * PathOf(s)[1] + 0x10 * PathOf(s)[2] + PathOf(s)[3]
  {
    assert s / 0x10 / 16 == s / 0x100 && s / 0x100 / 16 == s / 0x1000;
  }

  lemma PathsDiffer(s: Word, t: Word)
    ensures PathOf(s) == PathOf(t) <==> s == t
  {
    Digits(s);
    Digits(t);
  }

  /** Where a node's words begin, and how many it has. */
  datatype Node = Node(at: nat, size: nat)

  /** How many nibbles lead to a leaf, how many words a block has before its indices, whether an index counts bytes or
      words, and how many words every leaf has, if all have as many. */
  datatype Shape = Shape(depth: nat, head: nat, bytes: bool, leaf: Option<nat>)
  {
    predicate Fits(p: Path, size: nat) {
      size > 0 && if |p| < depth then size == Block() else leaf.Some? ==> size == leaf.value
    }

    function Block(): nat { head + 16 }

    function Pointer(at: nat): nat { if bytes then 2 * at else at }

    function Target(v: Word): nat { if bytes then v / 2 else v }
  }

  /** The nodes of a trie by path, in words up to ext. */
  datatype Trie = Trie(shape: Shape, alpha: nat, ext: nat, nodes: map<Path, Node>)
  {
    ghost predicate IsBlock(p: Path) { p in nodes && |p| < shape.depth }

    ghost predicate IsLeaf(p: Path) { p in nodes && |p| == shape.depth }

    /** The index k of the block for p. */
    ghost function Slot(p: Path, k: nat): nat
      requires p in nodes
    {
      nodes[p].at + shape.head + k
    }

    /** With a node of this many words put behind all others. */
    ghost function Put(p: Path, size: nat): Trie {
      this.(ext := ext + size, nodes := nodes[p := Node(ext + 1, size)])
    }
  }

  ghost predicate Apart(a: Node, b: Node) { a.at + a.size <= b.at || b.at + b.size <= a.at }

  /** The nodes lie apart, up to ext, and each but the first hangs from another. */
  ghost predicate Spread(t: Trie) {
    && [] in t.nodes && t.nodes[[]] == Node(t.alpha, t.shape.Block()) && t.shape.depth > 0
    && (forall p :: p in t.nodes ==> NodeOk(t, p))
    && (forall p, q :: p in t.nodes && q in t.nodes && p != q ==> Apart(t.nodes[p], t.nodes[q]))
    && (forall p :: p in t.nodes && p != [] ==> p[..|p| - 1] in t.nodes)
  }

  ghost predicate NodeOk(t: Trie, p: Path)
    requires p in t.nodes
  {
    && |p| <= t.shape.depth && t.shape.Fits(p, t.nodes[p].size)
    && t.nodes[p].at + t.nodes[p].size <= t.ext + 1
    && (p != [] ==> t.shape.Pointer(t.nodes[p].at) > 0)
  }

  /** The index k of the block for p points to the node for p + [k], or is zero if there is none. */
  ghost predicate Linked(img: seq<Word>, t: Trie, p: Path, k: nat)
    requires p in t.nodes && t.Slot(p, k) < |img|
  {
    img[t.Slot(p, k)] == if p + [k] in t.nodes then t.shape.Pointer(t.nodes[p + [k]].at) else 0
  }

  /** In the words every index links accordingly. */
  ghost predicate Stands(img: seq<Word>, t: Trie) {
    && t.ext < |img| && Spread(t)
    && (forall p, k :: t.IsBlock(p) && 0 <= k < 16 ==> Linked(img, t, p, k))
  }

  lemma {:induction false} PrefixIn(img: seq<Word>, t: Trie, p: Path, rest: Path)
    requires Stands(img, t) && p + rest in t.nodes
    ensures p in t.nodes
    decreases |rest|
  {
    if rest == [] {
      assert p + rest == p;
    } else {
      var shorter := rest[..|rest| - 1];
      assert (p + rest)[..|p + rest| - 1] == p + shorter;
      PrefixIn(img, t, p, shorter);
    }
  }

  /** leaf is the path one step below p. */
  ghost predicate Child(t: Trie, leaf: Path, p: Path, k: nat) { t.IsBlock(p) && k < 16 && leaf == p + [k] }

  lemma ChildOf(t: Trie, path: Path, i: nat)
    requires i < |path| == t.shape.depth && Nibbles(path) && path[..i] in t.nodes
    ensures 0 <= path[i] && Child(t, path[..i + 1], path[..i], path[i])
  {
  }

  lemma NodeInside(img: seq<Word>, t: Trie, path: Path)
    requires Stands(img, t) && path in t.nodes
    ensures t.nodes[path].at + t.nodes[path].size <= t.ext + 1 <= |img|
    ensures t.shape.Fits(path, t.nodes[path].size)
  {
    assert NodeOk(t, path);
  }

  lemma SlotInside(img: seq<Word>, t: Trie, leaf: Path, p: Path, k: nat)
    requires Stands(img, t) && Child(t, leaf, p, k)
    ensures t.Slot(p, k) <= t.ext < |img| && t.shape.Pointer(t.ext + 1) > 0
  {
    assert NodeOk(t, p);
  }

  lemma LinkAt(img: seq<Word>, t: Trie, p: Path, k: nat)
    requires Stands(img, t) && t.IsBlock(p) && k < 16
    ensures t.nodes[p].at <= t.Slot(p, k) < t.nodes[p].at + t.nodes[p].size <= t.ext + 1 <= |img|
    ensures t.nodes[p].size == t.shape.Block() && Linked(img, t, p, k)
  {
    assert NodeOk(t, p);
  }

  lemma NodesApart(img: seq<Word>, t: Trie, p: Path, q: Path)
    requires Stands(img, t) && p in t.nodes && q in t.nodes && p != q
    ensures Apart(t.nodes[p], t.nodes[q])
  {
  }

  lemma PointerIs(img: seq<Word>, t: Trie, p: Path)
    requires Stands(img, t) && p in t.nodes && p != []
    ensures t.shape.Pointer(t.nodes[p].at) > 0
  {
    assert NodeOk(t, p);
  }

  /** One step along a path: a nonzero index leads to the next node, a zero one means there is none below. */
  lemma Follow(img: seq<Word>, t: Trie, path: Path, i: nat)
    requires Stands(img, t) && i < |path| == t.shape.depth && Nibbles(path) && path[..i] in t.nodes
    ensures 0 <= path[i] && t.Slot(path[..i], path[i]) < |img|
    ensures var v := img[t.Slot(path[..i], path[i])];
            if v == 0 then path !in t.nodes && path[..i + 1] !in t.nodes
            else path[..i + 1] in t.nodes && t.shape.Target(v) == t.nodes[path[..i + 1]].at
    ensures path[..i + 1] == path[..i] + [path[i]]
  {
    hide Stands;
    LinkAt(img, t, path[..i], path[i]);
    assert path[..i + 1] == path[..i] + [path[i]];
    if path in t.nodes {
      assert path[..i + 1] + path[i + 1..] == path;
      PrefixIn(img, t, path[..i + 1], path[i + 1..]);
    }
    if path[..i + 1] in t.nodes {
      PointerIs(img, t, path[..i + 1]);
    }
  }

  /** After a new node is put behind all that there is and linked from a slot. */
  ghost predicate Grown(img: seq<Word>, img': seq<Word>, t: Trie, slot: nat, size: nat) {
    && |img'| == |img| && slot <= t.ext && t.ext + 1 + size <= |img|
    && img'[slot] == t.shape.Pointer(t.ext + 1) > 0
    && (forall i :: 0 <= i <= t.ext && i != slot ==> img'[i] == img[i])
  }

  lemma NoOrphan(img: seq<Word>, t: Trie, p: Path, k: nat)
    requires Stands(img, t) && p !in t.nodes
    ensures p + [k] !in t.nodes && p + [k] != p
  {
    assert (p + [k])[..|p + [k]| - 1] == p;
  }

  ghost predicate Zeros(q: seq<Word>) { forall i :: 0 <= i < |q| ==> q[i] == 0 }

  /** An index of an old block, after the trie has grown. */
  lemma GrowKeepsLink(img: seq<Word>, img': seq<Word>, t: Trie, leaf: Path, p: Path, k: nat, size: nat, q: Path, j: nat)
    requires Stands(img, t) && Child(t, leaf, p, k) && leaf !in t.nodes
    requires Grown(img, img', t, t.Slot(p, k), size) && t.IsBlock(q) && j < 16
    ensures var t' := t.Put(leaf, size);
            q in t'.nodes && t'.Slot(q, j) == t.Slot(q, j) <= t.ext < |img'| && Linked(img', t', q, j)
  {
    hide Stands;
    LinkAt(img, t, q, j);
    LinkAt(img, t, p, k);
    if q + [j] == p + [k] {
      assert q == (q + [j])[..|q|] && p == (p + [k])[..|p|];
      assert j == (q + [j])[|q|] && k == (p + [k])[|p|];
    } else if q != p {
      NodesApart(img, t, p, q);
    }
  }

  /** A new node behind all others lies apart from them and hangs from p. */
  lemma GrowKeepsSpread(img: seq<Word>, t: Trie, leaf: Path, p: Path, k: nat, size: nat)
    requires Stands(img, t) && Child(t, leaf, p, k) && leaf !in t.nodes && t.shape.Pointer(t.ext + 1) > 0
    requires t.shape.Fits(leaf, size)
    ensures Spread(t.Put(leaf, size))
  {
    var t' := t.Put(leaf, size);
    assert leaf[..|leaf| - 1] == p && leaf != [];
    forall q | q in t'.nodes ensures NodeOk(t', q) {
      assert q != leaf ==> NodeOk(t, q);
    }
    forall q, r | q in t'.nodes && r in t'.nodes && q != r ensures Apart(t'.nodes[q], t'.nodes[r]) {
      assert q != leaf ==> NodeOk(t, q);
      assert r != leaf ==> NodeOk(t, r);
      assert q != leaf && r != leaf ==> Apart(t.nodes[q], t.nodes[r]);
    }
  }

  lemma StandsIf(img: seq<Word>, t: Trie)
    requires t.ext < |img| && Spread(t)
    requires forall p, k :: t.IsBlock(p) && 0 <= k < 16 ==> t.Slot(p, k) < |img| && Linked(img, t, p, k)
    ensures Stands(img, t)
  {
  }

  lemma ZerosAre(q: seq<Word>, i: nat)
    requires Zeros(q) && i < |q|
    ensures q[i] == 0
  {
  }

  /** An index of a new block. */
  lemma NewLink(img: seq<Word>, img': seq<Word>, t: Trie, leaf: Path, words: seq<Word>, j: nat)
    requires Stands(img, t) && leaf !in t.nodes && |leaf| < t.shape.depth && j < 16
    requires |words| == t.shape.Block() && Zeros(words) && t.ext + 1 + |words| <= |img'|
    requires img'[t.ext + 1..t.ext + 1 + |words|] == words
    ensures var t' := t.Put(leaf, |words|);
            t'.Slot(leaf, j) < |img'| && Linked(img', t', leaf, j)
  {
    hide Stands, Zeros;
    ZerosAre(words, t.shape.head + j);
    assert img'[t.ext + 1..t.ext + 1 + |words|][t.shape.head + j] == 0;
    NoOrphan(img, t, leaf, j);
  }

  lemma GrowKeepsTrie(img: seq<Word>, img': seq<Word>, t: Trie, leaf: Path, p: Path, k: nat, words: seq<Word>)
    requires Stands(img, t) && Child(t, leaf, p, k) && leaf !in t.nodes
    requires Grown(img, img', t, t.Slot(p, k), |words|) && img'[t.ext + 1..t.ext + 1 + |words|] == words
    requires t.shape.Fits(leaf, |words|) && (|leaf| < t.shape.depth ==> Zeros(words))
    ensures Stands(img', t.Put(leaf, |words|))
  {
    hide Stands, Spread, Zeros, Linked, Child;
    var t' := t.Put(leaf, |words|);
    GrowKeepsSpread(img, t, leaf, p, k, |words|);
    forall q: Path, j: nat | t'.IsBlock(q) && 0 <= j < 16
      ensures t'.Slot(q, j) < |img'| && Linked(img', t', q, j)
    {
      if q == leaf {
        NewLink(img, img', t, leaf, words, j);
      } else {
        GrowKeepsLink(img, img', t, leaf, p, k, |words|, q, j);
      }
    }
    StandsIf(img', t');
  }

  /** An empty first block is a trie with nothing in it. */
  lemma FirstBlock(img: seq<Word>, shape: Shape, alpha: nat, ext: nat)
    requires alpha + shape.Block() <= ext + 1 <= |img| && shape.depth > 0
    requires forall i :: alpha <= i < alpha + shape.Block() ==> img[i] == 0
    ensures var t := Trie(shape, alpha, ext, map[[] := Node(alpha, shape.Block())]);
            Stands(img, t) && forall q: Path :: Entry(img, t, q) == None
  {
  }

  // --------------------------------------------------------------------- What the trie says

  /** The words the trie has for a path. */
  ghost function Entry(img: seq<Word>, t: Trie, path: Path): Option<seq<Word>> {
    if t.IsLeaf(path) && t.nodes[path].at + t.nodes[path].size <= |img|
    then Some(img[t.nodes[path].at..t.nodes[path].at + t.nodes[path].size]) else None
  }

  lemma EntryIff(img: seq<Word>, t: Trie, path: Path)
    requires Stands(img, t) && |path| == t.shape.depth
    ensures Entry(img, t, path).Some? <==> path in t.nodes
  {
    if path in t.nodes {
      NodeInside(img, t, path);
    }
  }

  ghost predicate SameEntries(img: seq<Word>, t: Trie, img': seq<Word>, t': Trie) {
    forall q :: Entry(img', t', q) == Entry(img, t, q)
  }

  lemma SameEntriesOn(img: seq<Word>, t: Trie, img': seq<Word>, t': Trie, img'': seq<Word>, t'': Trie)
    ensures SameEntries(img, t, img, t)
    ensures SameEntries(img, t, img', t') && SameEntries(img', t', img'', t'') ==> SameEntries(img, t, img'', t'')
  {
    hide Entry;
  }

  /** An entry does not depend on how far the words go. */
  lemma EntriesIgnoreExt(img: seq<Word>, t: Trie, u: Trie, img': seq<Word>, t': Trie, u': Trie)
    requires u == t.(ext := u.ext, alpha := u.alpha) && u' == t'.(ext := u'.ext, alpha := u'.alpha)
    ensures SameEntries(img, t, img', t') <==> SameEntries(img, u, img', u')
  {
    forall q ensures Entry(img, u, q) == Entry(img, t, q) && Entry(img', u', q) == Entry(img', t', q) {
    }
  }

  /** Growing changes no entry but the one that is added. */
  lemma GrowKeepsEntry(img: seq<Word>, img': seq<Word>, t: Trie, leaf: Path, p: Path, k: nat, size: nat, q: Path)
    requires Stands(img, t) && Child(t, leaf, p, k) && Grown(img, img', t, t.Slot(p, k), size) && q != leaf
    ensures Entry(img', t.Put(leaf, size), q) == Entry(img, t, q)
  {
    hide Stands;
    if t.IsLeaf(q) {
      LinkAt(img, t, p, k);
      NodeInside(img, t, q);
      NodesApart(img, t, p, q);
      var a, b := t.nodes[q].at, t.nodes[q].at + t.nodes[q].size;
      assert img'[a..b] == img[a..b];
    }
  }

  /** Putting in a block changes no entry, putting in a leaf adds its own. */
  lemma GrowAddsEntry(img: seq<Word>, img': seq<Word>, t: Trie, leaf: Path, p: Path, k: nat, words: seq<Word>)
    requires Stands(img, t) && Child(t, leaf, p, k) && leaf !in t.nodes && Grown(img, img', t, t.Slot(p, k), |words|)
    requires img'[t.ext + 1..t.ext + 1 + |words|] == words
    ensures forall q: Path :: q != leaf ==> Entry(img', t.Put(leaf, |words|), q) == Entry(img, t, q)
    ensures Entry(img', t.Put(leaf, |words|), leaf) == if |leaf| == t.shape.depth then Some(words) else None
    ensures Entry(img, t, leaf) == None
  {
    forall q: Path | q != leaf ensures Entry(img', t.Put(leaf, |words|), q) == Entry(img, t, q) {
      GrowKeepsEntry(img, img', t, leaf, p, k, |words|, q);
    }
  }

  // --------------------------------------------------------------------- What stays as it was

  /** Nodes that were not there before lie behind the old extent. */
  ghost predicate Behind(t: Trie, t': Trie) {
    && t.ext <= t'.ext && t'.shape == t.shape
    && forall p :: p in t'.nodes ==> (p in t.nodes && t'.nodes[p] == t.nodes[p]) || t'.nodes[p].at > t.ext
  }

  lemma BehindOn(t: Trie, t': Trie, t'': Trie)
    requires Behind(t, t') && Behind(t', t'')
    ensures Behind(t, t'')
  {
  }

  /** An index of one of the trie's blocks. */
  ghost predicate IsIndex(t: Trie, at: int) {
    exists p :: t.IsBlock(p) && t.nodes[p].at + t.shape.head <= at < t.nodes[p].at + t.shape.Block()
  }

  /** Of the words up to ext, only empty indices have changed, and those in the slots. */
  ghost predicate Filled(img: seq<Word>, t: Trie, img': seq<Word>, slots: set<Span>) {
    && t.ext < |img| == |img'|
    && forall i :: 0 <= i <= t.ext && !InSome(slots, i) && img'[i] != img[i] ==> img[i] == 0 && IsIndex(t, i)
  }

  /** Further changes in slots that are open already, or behind all that there was. */
  lemma FilledOn(img: seq<Word>, t: Trie, img': seq<Word>, t': Trie, img'': seq<Word>, slots: set<Span>,
                 slots': set<Span>)
    requires Filled(img, t, img', slots) && Filled(img', t', img'', slots') && Behind(t, t')
    requires forall s :: s in slots' ==> s in slots || s.lo > t.ext
    ensures Filled(img, t, img'', slots)
  {
    forall i | 0 <= i <= t.ext && !InSome(slots, i) && img''[i] != img[i] ensures img[i] == 0 && IsIndex(t, i) {
      if img'[i] == img[i] {
        assert !InSome(slots', i);
        assert IsIndex(t', i);
      }
    }
  }

  lemma FilledMore(img: seq<Word>, t: Trie, img': seq<Word>, slots: set<Span>)
    requires Filled(img, t, img', {})
    ensures Filled(img, t, img', slots)
  {
  }

  lemma SameIsFilled(img: seq<Word>, t: Trie, img': seq<Word>, slots: set<Span>)
    requires t.ext < |img| == |img'| && img'[..t.ext + 1] == img[..t.ext + 1]
    ensures Filled(img, t, img', slots)
  {
    assert forall i :: 0 <= i <= t.ext ==> img'[i] == img'[..t.ext + 1][i] && img[i] == img[..t.ext + 1][i];
  }

  /** Linking a new node fills one empty index. */
  lemma GrowFills(img: seq<Word>, img': seq<Word>, t: Trie, leaf: Path, p: Path, k: nat, size: nat)
    requires Stands(img, t) && Child(t, leaf, p, k) && leaf !in t.nodes && Grown(img, img', t, t.Slot(p, k), size)
    ensures Filled(img, t, img', {}) && Behind(t, t.Put(leaf, size))
  {
    assert Linked(img, t, p, k);
    assert t.nodes[p].at + t.shape.head <= t.Slot(p, k) < t.nodes[p].at + t.shape.Block();
  }

  lemma SpreadMore(img: seq<Word>, t: Trie, ext': nat)
    requires Stands(img, t) && t.ext <= ext'
    ensures Spread(t.(ext := ext'))
  {
    forall p | p in t.nodes ensures NodeOk(t.(ext := ext'), p) {
      assert NodeOk(t, p);
    }
  }

  /** The words outside the trie may be others. */
  ghost predicate Outside(img: seq<Word>, img': seq<Word>, t: Trie, lo: nat, n: nat) {
    && |img'| == |img|
    && (forall p :: p in t.nodes ==> Apart(Node(lo, n), t.nodes[p]))
    && (forall i :: 0 <= i < |img| && !(lo <= i < lo + n) ==> img'[i] == img[i])
  }

  /** Words behind all that there is are outside. */
  lemma BehindIsOutside(img: seq<Word>, img': seq<Word>, t: Trie, lo: nat, n: nat)
    requires Stands(img, t) && |img'| == |img| && lo > t.ext
    requires forall i :: 0 <= i < |img| && !(lo <= i < lo + n) ==> img'[i] == img[i]
    ensures Outside(img, img', t, lo, n)
  {
    hide Stands;
    forall p | p in t.nodes ensures Apart(Node(lo, n), t.nodes[p]) {
      NodeInside(img, t, p);
    }
  }

  lemma OutsideLink(img: seq<Word>, img': seq<Word>, t: Trie, ext': nat, lo: nat, n: nat, p: Path, k: nat)
    requires Stands(img, t) && Outside(img, img', t, lo, n) && t.IsBlock(p) && k < 16
    ensures t.Slot(p, k) < |img'| && Linked(img', t.(ext := ext'), p, k)
  {
    hide Stands;
    LinkAt(img, t, p, k);
    assert Apart(Node(lo, n), t.nodes[p]);
  }

  lemma OutsideEntry(img: seq<Word>, img': seq<Word>, t: Trie, lo: nat, n: nat, q: Path)
    requires Stands(img, t) && Outside(img, img', t, lo, n)
    ensures Entry(img', t, q) == Entry(img, t, q)
  {
    hide Stands;
    if t.IsLeaf(q) {
      NodeInside(img, t, q);
      assert Apart(Node(lo, n), t.nodes[q]);
      var a, b := t.nodes[q].at, t.nodes[q].at + t.nodes[q].size;
      assert img'[a..b] == img[a..b];
    }
  }

  /** Words changed outside the trie leave it, and every entry, as it was. */
  lemma OutsideTrie(img: seq<Word>, img': seq<Word>, t: Trie, ext': nat, lo: nat, n: nat)
    requires Stands(img, t) && Outside(img, img', t, lo, n) && t.ext <= ext' < |img|
    ensures var t' := t.(ext := ext'); Stands(img', t') && SameEntries(img, t, img', t')
  {
    hide Stands, Outside, Spread, Linked, Entry;
    var t' := t.(ext := ext');
    SpreadMore(img, t, ext');
    SameLength(img, img', t, lo, n);
    forall p: Path, k: nat | t'.IsBlock(p) && k < 16 ensures t'.Slot(p, k) < |img'| && Linked(img', t', p, k) {
      OutsideLink(img, img', t, ext', lo, n, p, k);
    }
    StandsIf(img', t');
    forall q: Path ensures Entry(img', t, q) == Entry(img, t, q) {
      OutsideEntry(img, img', t, lo, n, q);
    }
    EntriesIgnoreExt(img, t, t, img', t, t');
  }

  lemma SameLength(img: seq<Word>, img': seq<Word>, t: Trie, lo: nat, n: nat)
    requires Outside(img, img', t, lo, n)
    ensures |img'| == |img|
  {
  }

  // --------------------------------------------------------------------- On the way to a path

  /** Putting in index blocks on the way to path changes no entry, and nothing at all if path is there. */
  ghost predicate Kept(img: seq<Word>, t: Trie, img': seq<Word>, t': Trie, path: Path) {
    && SameEntries(img, t, img', t') && (path in t.nodes <==> path in t'.nodes)
    && (path in t.nodes ==> img == img' && t == t')
    && Behind(t, t') && Filled(img, t, img', {})
  }

  lemma KeptSays(img: seq<Word>, t: Trie, img': seq<Word>, t': Trie, path: Path)
    requires Kept(img, t, img', t', path)
    ensures (path in t.nodes <==> path in t'.nodes) && Behind(t, t') && t.ext <= t'.ext && t'.shape == t.shape
  {
  }

  lemma Root(img: seq<Word>, t: Trie, path: Path)
    requires Stands(img, t)
    ensures path[..0] in t.nodes && t.nodes[path[..0]].at == t.alpha && Kept(img, t, img, t, path)
  {
    assert path[..0] == [];
  }

  lemma KeptOn(img: seq<Word>, t: Trie, img': seq<Word>, t': Trie, img'': seq<Word>, t'': Trie, path: Path)
    requires Kept(img, t, img', t', path) && Kept(img', t', img'', t'', path)
    ensures Kept(img, t, img'', t'', path)
  {
    FilledOn(img, t, img', t', img'', {}, {});
    BehindOn(t, t', t'');
    SameEntriesOn(img, t, img', t', img'', t'');
  }

  /** A block put in on the way. */
  lemma GrowKeeps(img: seq<Word>, img': seq<Word>, t: Trie, path: Path, i: nat, words: seq<Word>)
    requires Stands(img, t) && i + 1 < |path| == t.shape.depth && Nibbles(path) && path !in t.nodes
    requires Child(t, path[..i + 1], path[..i], path[i]) && path[..i + 1] !in t.nodes
    requires Grown(img, img', t, t.Slot(path[..i], path[i]), |words|)
    requires img'[t.ext + 1..t.ext + 1 + |words|] == words
    ensures Kept(img, t, img', t.Put(path[..i + 1], |words|), path)
  {
    GrowFills(img, img', t, path[..i + 1], path[..i], path[i], |words|);
    GrowAddsEntry(img, img', t, path[..i + 1], path[..i], path[i], words);
    hide Entry, Stands, Grown, Filled, Behind;
    assert |path[..i + 1]| < t.shape.depth;
    var t' := t.Put(path[..i + 1], |words|);
    forall q ensures Entry(img', t', q) == Entry(img, t, q) {
      assert q == path[..i + 1] || q != path[..i + 1];
    }
  }

  /** The index blocks that are missing on a path, from its i-th step on. */
  ghost function Missing(t: Trie, path: Path, i: nat): nat
    requires i < |path|
    decreases |path| - i
  {
    if i == |path| - 1 then 0 else (if path[..i + 1] in t.nodes then 0 else 1) + Missing(t, path, i + 1)
  }

  lemma {:induction false} MissingAtMost(t: Trie, path: Path, i: nat)
    requires i < |path|
    ensures Missing(t, path, i) <= |path| - 1 - i
    decreases |path| - i
  {
    if i < |path| - 1 {
      MissingAtMost(t, path, i + 1);
    }
  }

  lemma MissingLater(t: Trie, path: Path, i: nat, size: nat)
    requires i + 1 < |path|
    ensures Missing(t.Put(path[..i + 1], size), path, i + 1) == Missing(t, path, i + 1)
  {
    forall j | i + 1 < j <= |path| ensures path[..j] != path[..i + 1] {
      assert |path[..j]| == j;
    }
    MissingSame(t, t.Put(path[..i + 1], size), path, i + 1);
  }

  lemma {:induction false} MissingSame(t: Trie, t': Trie, path: Path, i: nat)
    requires i < |path| && forall j :: i < j < |path| ==> (path[..j] in t.nodes <==> path[..j] in t'.nodes)
    ensures Missing(t, path, i) == Missing(t', path, i)
    decreases |path| - i
  {
    if i < |path| - 1 {
      MissingSame(t, t', path, i + 1);
    }
  }

  /** On a path of four steps in a trie of one block, three are missing. */
  lemma FreshNeed(shape: Shape, path: Path, alpha: nat, ext: nat)
    requires |path| == 4
    ensures Missing(Trie(shape, alpha, ext, map[[] := Node(alpha, shape.Block())]), path, 0) == 3
  {
    var t := Trie(shape, alpha, ext, map[[] := Node(alpha, shape.Block())]);
    assert forall j :: 0 < j <= 3 ==> |path[..j]| == j;
    assert Missing(t, path, 3) == 0;
    assert Missing(t, path, 2) == 1;
    assert Missing(t, path, 1) == 2;
  }

  lemma NothingYet(img: seq<Word>, t: Trie)
    ensures t.nodes == map[] ==> forall q: Path :: Entry(img, t, q) == None
  {
  }
}
