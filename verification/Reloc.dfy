/** Relocation across two programs: the packager turns an ELF relocation into a commission, and the
    simulator patches the instruction for where the partitions came to lie. */
module Reloc {
  import opened Basics

  const OP_MIN: Word := 0x0100

  /** The partition a symbol's section puts it in; none for a relocation without a symbol. */
  datatype Part = Exe | Op1 | Op2 | Nul

  /** What the packager records of a relocation: the reference into a partition, and the addend if any. */
  datatype Commission = Commission(part: Part, ref: int, annex: Option<int>)

  /** The six immediate forms: high or low half, of a word or byte address, negated or not. */
  datatype Kind = Kind(hi: bool, word: bool, neg: bool)

  /** Where a registration's partitions lie: EXE in words, OP in bytes. */
  datatype Base = Base(exe: nat, op1: nat)

  /** op_rela_com. A value of zero is left alone, and only a positive addend is kept. */
  function Package(part: Part, value: nat, addend: int): Commission {
    Commission(
      part,
      if value == 0 || part == Nul then value
      else if part == Exe then value / 2
      else value % 0x1_0000 - OP_MIN,
      if addend <= 0 then None else Some(if part == Exe then addend / 2 else addend))
  }

  function Sum(c: Commission): int { c.ref + match c.annex case None => 0 case Some(a) => a }

  /** The sixteen-bit address that sim_exec_gen_imm computes; none where it refuses the reference. */
  function Objective(c: Commission, k: Kind, b: Base): (r: int)
    requires c.part != Nul
    ensures 0 <= r < 0x1_0000
  {
    var at := Sum(c) + if c.part == Exe then b.exe else b.op1;
    var address := if c.part == Exe && !k.word then 2 * at else at;
    (if k.neg then -address else address) % 0x1_0000
  }

  /** The immediate of an ANDI, CPI, LDI, ORI, SBCI or SUBI instruction. */
  function Immediate(w: Word): Byte { w / 0x100 % 0x10 * 0x10 + w % 0x10 }

  /** The instruction with its immediate replaced. */
  function WithImmediate(w: Word, v: Byte): Word {
    w / 0x1000 * 0x1000 + v / 0x10 * 0x100 + w / 0x10 % 0x10 * 0x10 + v % 0x10
  }

  function Opcode(w: Word): int { w / 0x1000 }

  function Register(w: Word): int { 16 + w / 0x10 % 0x10 }

  predicate TakesImmediate(w: Word) { Opcode(w) in {0x7, 0x3, 0xe, 0x6, 0x4, 0x5} }

  /** Only the immediate changes. */
  lemma OnlyImmediateChanges(w: Word, v: Byte)
    ensures Immediate(WithImmediate(w, v)) == v
    ensures Opcode(WithImmediate(w, v)) == Opcode(w) && Register(WithImmediate(w, v)) == Register(w)
  {
    var o, r := w / 0x1000, w / 0x10 % 0x10;
    Nibbles(o, v / 0x10, r, v % 0x10);
  }

  lemma Split(x: nat, d: nat)
    requires d < 0x10
    ensures (0x10 * x + d) / 0x10 == x && (0x10 * x + d) % 0x10 == d
  {
  }

  lemma Nibbles(a: nat, b: nat, c: nat, d: nat)
    requires a < 16 && b < 16 && c < 16 && d < 16
    ensures var w := a * 0x1000 + b * 0x100 + c * 0x10 + d;
            w / 0x1000 == a && w / 0x100 % 0x10 == b && w / 0x10 % 0x10 == c && w % 0x10 == d
  {
    var x := a * 0x10 + b;
    var y := x * 0x10 + c;
    var w := y * 0x10 + d;
    Split(y, d);
    Split(x, c);
    Split(a, b);
    assert w / 0x100 == w / 0x10 / 0x10 && w / 0x1000 == w / 0x100 / 0x10;
  }

  /** The half of an address that an immediate of this form holds. */
  function Half(k: Kind, address: Word): Byte { if k.hi then address / 0x100 else address % 0x100 }

  lemma Shift(z: int, q: int)
    ensures (z + 0x1_0000 * q) % 0x1_0000 == z % 0x1_0000
  {
  }

  /** Wrapping at each step is wrapping at the end. */
  lemma WrapAdds(x: int, y: int)
    ensures (x % 0x1_0000 + y) % 0x1_0000 == (x + y) % 0x1_0000
    ensures 2 * (x % 0x1_0000) % 0x1_0000 == 2 * x % 0x1_0000
    ensures (0xffff - x % 0x1_0000 + 1) % 0x1_0000 == -x % 0x1_0000
  {
    var q, r := x / 0x1_0000, x % 0x1_0000;
    Shift(r + y, q);
    Shift(2 * r, 2 * q);
    Shift(-x, q + 1);
  }

  /** sim_exec_gen_imm: patches one instruction in place, unless it is of another kind or has no partition. */
  method PatchImmediate(exe: array<Word>, at: nat, k: Kind, c: Commission, b: Base) returns (ok: bool)
    requires at < exe.Length
    modifies exe
    ensures ok <==> old(TakesImmediate(exe[at])) && c.part != Nul
    ensures exe[..] ==
            if ok then old(exe[..])[at := WithImmediate(old(exe[at]), Half(k, Objective(c, k, b)))] else old(exe[..])
  {
    ok := TakesImmediate(exe[at]) && c.part != Nul;
    if !ok {
      return;
    }
    var objective := (Sum(c)) % 0x1_0000;
    WrapAdds(Sum(c), if c.part == Exe then b.exe else b.op1);
    objective := (objective + if c.part == Exe then b.exe else b.op1) % 0x1_0000;
    ghost var address := Sum(c) + if c.part == Exe then b.exe else b.op1;
    WrapAdds(address, 0);
    if c.part == Exe && !k.word {
      objective := 2 * objective % 0x1_0000;
      address := 2 * address;
    }
    WrapAdds(address, 0);
    if k.neg {
      objective := (0xffff - objective + 1) % 0x1_0000;
    }
    assert objective == Objective(c, k, b);
    objective := if k.hi then objective / 0x100 else objective % 0x100;
    exe[at] := exe[at] / 0x1000 * 0x1000 + exe[at] / 0x10 % 0x10 * 0x10;
    exe[at] := exe[at] + objective / 0x10 * 0x100 + objective % 0x10;
  }

  // --------------------------------------------------------------------- What the two programs do together

  /** What a pair of instructions of one form, low half and high half, loads once both are patched. */
  function Loaded(lo: Word, hi: Word, part: Part, value: nat, addend: int, word: bool, neg: bool, b: Base): int
    requires part != Nul
  {
    var c := Package(part, value, addend);
    Immediate(WithImmediate(lo, Half(Kind(false, word, neg), Objective(c, Kind(false, word, neg), b))))
    + 0x100 * Immediate(WithImmediate(hi, Half(Kind(true, word, neg), Objective(c, Kind(true, word, neg), b))))
  }

  /** The address as the ELF relocation defines it, moved with its partition. EXE addresses count bytes,
      and words in the word forms; OP addresses start from OP_MIN. */
  function Moved(part: Part, value: nat, addend: int, word: bool, b: Base): int {
    if part != Exe then value % 0x1_0000 + addend - OP_MIN + b.op1
    else if word then (value + addend) / 2 + b.exe
    else value + addend + 2 * b.exe
  }

  /** The pair loads what the objective says, whatever the instructions were. */
  lemma LoadedIs(lo: Word, hi: Word, part: Part, value: nat, addend: int, word: bool, neg: bool, b: Base)
    requires part != Nul
    ensures Loaded(lo, hi, part, value, addend, word, neg, b)
            == Objective(Package(part, value, addend), Kind(false, word, neg), b)
  {
    var c := Package(part, value, addend);
    var o := Objective(c, Kind(false, word, neg), b);
    assert o == Objective(c, Kind(true, word, neg), b);
    OnlyImmediateChanges(lo, o % 0x100);
    OnlyImmediateChanges(hi, o / 0x100);
    hide WithImmediate, Immediate;
  }

  /** Relocation is translation: with an even symbol and addend in EXE, and in OP with a symbol that is not
      zero, the patched pair loads the moved address, or its two's complement, modulo 2^16. */
  lemma RelocationTranslates(lo: Word, hi: Word, part: Part, value: nat, addend: nat, word: bool, neg: bool, b: Base)
    requires part != Nul && (if part == Exe then value % 2 == 0 && addend % 2 == 0 else value != 0)
    ensures var to := Moved(part, value, addend, word, b);
            Loaded(lo, hi, part, value, addend, word, neg, b) == (if neg then -to else to) % 0x1_0000
  {
    LoadedIs(lo, hi, part, value, addend, word, neg, b);
  }

  /** Whether the packager keeps all of a symbol and its addend. A negative addend is dropped, EXE values are
      halved, and an OP symbol of zero is taken for one at OP_MIN: each is wrong unless what is lost wraps away. */
  predicate Kept(part: Part, value: nat, addend: int, word: bool) {
    if part != Exe then
      if value == 0 then addend < 0 && (addend - OP_MIN) % 0x1_0000 == 0
      else addend >= 0 || addend % 0x1_0000 == 0
    else if addend < 0 then
      (if word then (value % 2 + addend) / 2 else value % 2 + addend) % 0x1_0000 == 0
    else if word then !(value % 2 == 1 && addend % 2 == 1)
    else value % 2 == 0 && addend % 2 == 0
  }

  /** What is lost of the moved address. */
  function Lost(part: Part, value: nat, addend: int, word: bool): int {
    if part != Exe then
      (if value == 0 then 0 - OP_MIN else 0) + (if addend < 0 then addend else 0)
    else if addend < 0 then
      if word then (value % 2 + addend) / 2 else value % 2 + addend
    else if word then (value % 2 + addend % 2) / 2
    else value % 2 + addend % 2
  }

  lemma LostIs(part: Part, value: nat, addend: int, word: bool, b: Base)
    requires part != Nul
    ensures var c := Package(part, value, addend);
            var at := Sum(c) + if part == Exe then b.exe else b.op1;
            Moved(part, value, addend, word, b)
              == (if part == Exe && !word then 2 * at else at) + Lost(part, value, addend, word)
  {
  }

  lemma KeptIffLostWraps(part: Part, value: nat, addend: int, word: bool)
    ensures Kept(part, value, addend, word) <==> Lost(part, value, addend, word) % 0x1_0000 == 0
  {
  }

  lemma SmallStep(x: int, d: int)
    requires 0 <= d < 0x1_0000
    ensures x % 0x1_0000 == (x + d) % 0x1_0000 <==> d == 0
  {
  }

  /** Adding d changes nothing modulo 2^16 exactly when d is a multiple of it. */
  lemma SameIffWraps(x: int, d: int)
    ensures x % 0x1_0000 == (x + d) % 0x1_0000 <==> d % 0x1_0000 == 0
  {
    Shift(x + d % 0x1_0000, d / 0x1_0000);
    SmallStep(x, d % 0x1_0000);
  }

  /** Relocation is translation exactly when the packager keeps everything: for every symbol and addend, in all
      six forms and every partition. */
  lemma TranslatesIffKept(lo: Word, hi: Word, part: Part, value: nat, addend: int, word: bool, neg: bool, b: Base)
    requires part != Nul
    ensures var to := Moved(part, value, addend, word, b);
            Loaded(lo, hi, part, value, addend, word, neg, b) == (if neg then -to else to) % 0x1_0000
            <==> Kept(part, value, addend, word)
  {
    LoadedIs(lo, hi, part, value, addend, word, neg, b);
    LostIs(part, value, addend, word, b);
    KeptIffLostWraps(part, value, addend, word);
    var lost := Lost(part, value, addend, word);
    var to := Moved(part, value, addend, word, b);
    SameIffWraps(to - lost, lost);
    SameIffWraps(-to, lost);
  }

  /** A negative addend is dropped, so the pair loads the symbol alone. */
  lemma NegativeAddendIsDropped(lo: Word, hi: Word, part: Part, value: nat, addend: int, word: bool, neg: bool, b: Base)
    requires part != Nul && addend < 0
    ensures Loaded(lo, hi, part, value, addend, word, neg, b) == Loaded(lo, hi, part, value, 0, word, neg, b)
  {
    assert Package(part, value, addend) == Package(part, value, 0);
  }

  /** An OP symbol of value zero is taken for one at OP_MIN. */
  lemma ZeroSymbolIsAtOpMin(lo: Word, hi: Word, part: Part, addend: nat, neg: bool, b: Base)
    requires part == Op1 || part == Op2
    ensures Loaded(lo, hi, part, 0, addend, false, neg, b) == Loaded(lo, hi, part, OP_MIN, addend, false, neg, b)
  {
    assert Package(part, 0, addend) == Package(part, OP_MIN, addend);
  }

  // --------------------------------------------------------------------- Jumps and calls

  /** The 22-bit target of a JMP or CALL: its high six bits are spread over the first word. */
  function JumpTarget(w0: Word, w1: Word): int { (w0 / 0x10 % 0x20 * 2 + w0 % 2) * 0x1_0000 + w1 }

  /** The bits of the first word that are not part of the target. */
  function JumpOpcode(w0: Word): (int, int) { (w0 / 0x200, w0 / 2 % 8) }

  predicate IsJump(w0: Word) { w0 / 2 % 8 == 6 || w0 / 2 % 8 == 7 }

  /** The first word with the high bits of a target in place of its own. */
  function WithTarget(w0: Word, high: int): Word
    requires 0 <= high < 0x40
  {
    w0 / 0x200 * 0x200 + high / 2 * 0x10 + w0 / 2 % 8 * 2 + high % 2
  }

  lemma OnlyTargetChanges(w0: Word, high: int, low: Word)
    requires 0 <= high < 0x40
    ensures JumpTarget(WithTarget(w0, high), low) == high * 0x1_0000 + low
    ensures JumpOpcode(WithTarget(w0, high)) == JumpOpcode(w0)
  {
    var x := w0 / 0x200 * 0x20 + high / 2;
    var y := x * 8 + w0 / 2 % 8;
    var w := WithTarget(w0, high);
    assert w == 2 * y + high % 2;
    assert w % 2 == high % 2 && w / 2 == y;
    assert y % 8 == w0 / 2 % 8 && w / 0x10 == y / 8 == x;
    assert w / 0x200 == x / 0x20 == w0 / 0x200 && x % 0x20 == high / 2;
  }

  /** A symbol without a positive addend is reached, counted in words, where its partition lies exactly when
      halving it and dropping the addend loses nothing of the 23-bit byte address. */
  lemma JumpTranslatesIff(value: nat, addend: int, b: Base)
    requires addend <= 0
    ensures 2 * ((Package(Exe, value, addend).ref + b.exe) % 0x40_0000) == (value + addend + 2 * b.exe) % 0x80_0000
            <==> (value % 2 + addend) % 0x80_0000 == 0
  {
    var at, d := value / 2 + b.exe, value % 2 + addend;
    var q, r := at / 0x40_0000, at % 0x40_0000;
    assert value + addend + 2 * b.exe == 2 * r + d + 0x80_0000 * (2 * q) - 0x80_0000 * q;
    JumpShift(2 * r + d, q);
    var e, f := d / 0x80_0000, d % 0x80_0000;
    JumpShift(2 * r + f, e);
  }

  lemma JumpShift(z: int, q: int)
    ensures (z + 0x80_0000 * q) % 0x80_0000 == z % 0x80_0000
  {
  }

  /** Two words that hold a commission's target reach its symbol exactly when nothing was lost of it. */
  ghost predicate FollowsSymbol(w0: Word, w1: Word, c: Commission, b: Base) {
    forall value: nat, addend: int :: c == Package(Exe, value, addend) ==>
      && addend <= 0
      && (2 * JumpTarget(w0, w1) == (value + addend + 2 * b.exe) % 0x80_0000
          <==> (value % 2 + addend) % 0x80_0000 == 0)
  }

  lemma JumpFollowsSymbol(w0: Word, w1: Word, c: Commission, b: Base)
    requires c.annex == None && JumpTarget(w0, w1) == (c.ref + b.exe) % 0x40_0000
    ensures FollowsSymbol(w0, w1, c, b)
  {
    forall value: nat, addend: int | c == Package(Exe, value, addend)
      ensures addend <= 0
      ensures 2 * JumpTarget(w0, w1) == (value + addend + 2 * b.exe) % 0x80_0000
              <==> (value % 2 + addend) % 0x80_0000 == 0
    {
      JumpTranslatesIff(value, addend, b);
    }
  }

  /** sim_exec_gen_jmp: retargets one jump or call in place. */
  method PatchJump(exe: array<Word>, at: nat, c: Commission, b: Base) returns (ok: bool)
    requires at + 1 < exe.Length && (c.part == Exe ==> c.ref >= 0)
    modifies exe
    ensures ok <==> old(IsJump(exe[at])) && c.part == Exe && c.annex == None
    ensures ok ==> JumpTarget(exe[at], exe[at + 1]) == (c.ref + b.exe) % 0x40_0000
    ensures ok ==> JumpOpcode(exe[at]) == old(JumpOpcode(exe[at]))
    ensures ok ==> exe[at] == WithTarget(old(exe[at]), (c.ref + b.exe) / 0x1_0000 % 0x40)
    ensures ok ==> exe[at + 1] == (c.ref + b.exe) % 0x1_0000
    ensures ok ==> FollowsSymbol(exe[at], exe[at + 1], c, b)
    ensures forall i :: 0 <= i < exe.Length && !(ok && at <= i <= at + 1) ==> exe[i] == old(exe[i])
  {
    hide FollowsSymbol, WithTarget, JumpTarget;
    ok := IsJump(exe[at]) && c.part == Exe && c.annex == None;
    if !ok {
      return;
    }
    var objective := c.ref + b.exe;
    var high, low := objective / 0x1_0000 % 0x40, objective % 0x1_0000;
    OnlyTargetChanges(exe[at], high, low);
    exe[at] := WithTarget(exe[at], high);
    exe[at + 1] := low;
    JumpFollowsSymbol(exe[at], exe[at + 1], c, b);
  }

  // --------------------------------------------------------------------- Addresses among the instructions

  /** A whole word, or the low or high byte of one. */
  datatype Form = Full | LowByte | HighByte

  /** A word with an address, or half of one, in its place. */
  function Modified(w: Word, form: Form, v: Word): Word {
    match form
    case Full => v
    case LowByte => w / 0x100 * 0x100 + v % 0x100
    case HighByte => v / 0x100 * 0x100 + w % 0x100
  }

  /** The address that sim_exec_gen_mod computes, in bytes; the addend is taken as it is recorded. */
  function Value(c: Commission, b: Base): Word
    requires c.part != Nul
  {
    var at := if c.part == Exe then 2 * (c.ref + b.exe) else c.ref + b.op1;
    (at + match c.annex case None => 0 case Some(a) => a) % 0x1_0000
  }

  /** The same in the simulator's sixteen-bit steps. */
  lemma ValueSteps(c: Commission, b: Base)
    requires c.part != Nul
    ensures var value := if c.part == Exe then 2 * (b.exe + c.ref) % 0x1_0000
                         else (c.ref % 0x1_0000 + b.op1) % 0x1_0000;
            Value(c, b) == match c.annex case None => value case Some(a) => (value + a) % 0x1_0000
  {
    WrapAdds(c.ref, b.op1);
    if c.annex.Some? {
      WrapAdds(if c.part == Exe then 2 * (b.exe + c.ref) else c.ref + b.op1, c.annex.value);
    }
  }

  /** sim_exec_gen_mod: patches one word in place, unless the reference has no partition. */
  method PatchMod(exe: array<Word>, at: nat, form: Form, c: Commission, b: Base) returns (ok: bool)
    requires at < exe.Length
    modifies exe
    ensures ok <==> c.part != Nul
    ensures exe[..] == if ok then old(exe[..])[at := Modified(old(exe[at]), form, Value(c, b))] else old(exe[..])
  {
    hide Value;
    ok := c.part != Nul;
    if !ok {
      return;
    }
    var value := c.ref % 0x1_0000;
    if c.part == Exe {
      value := 2 * (b.exe + c.ref) % 0x1_0000;
    } else {
      value := (value + b.op1) % 0x1_0000;
    }
    if c.annex.Some? {
      value := (value + c.annex.value) % 0x1_0000;
    }
    ValueSteps(c, b);
    match form
    case LowByte => exe[at] := exe[at] / 0x100 * 0x100 + value % 0x100;
    case HighByte => exe[at] := exe[at] % 0x100 + value / 0x100 * 0x100;
    case Full => exe[at] := value;
  }

  /** Whether all of a symbol and its addend comes into the word: in EXE the packager halves a positive addend, and
      nothing doubles it again. */
  predicate KeptInWord(part: Part, value: nat, addend: int) {
    if part != Exe then Kept(part, value, addend, false)
    else if addend > 0 then (value % 2 + (addend + 1) / 2) % 0x1_0000 == 0
    else (value % 2 + addend) % 0x1_0000 == 0
  }

  /** An address among the instructions is moved with its partition exactly when that is so. */
  lemma ModTranslatesIff(part: Part, value: nat, addend: int, b: Base)
    requires part != Nul
    ensures Value(Package(part, value, addend), b) == Moved(part, value, addend, false, b) % 0x1_0000
            <==> KeptInWord(part, value, addend)
  {
    var c := Package(part, value, addend);
    var at := if part == Exe then 2 * (c.ref + b.exe) else c.ref + b.op1;
    var held := at + match c.annex case None => 0 case Some(a) => a;
    SameIffWraps(held, Moved(part, value, addend, false, b) - held);
    if part != Exe {
      KeptIffLostWraps(part, value, addend, false);
      LostIs(part, value, addend, false, b);
    }
  }

  function ByteOf(w: Word, odd: bool): Byte { if odd then w / 0x100 else w % 0x100 }

  /** An eight-bit relocation as the ELF file means it: the byte gets its half of the address, its neighbour stays. */
  predicate PutsByte(w: Word, form: Form, v: Word, odd: bool) {
    && ByteOf(Modified(w, form, v), odd) == ByteOf(v, form == HighByte)
    && ByteOf(Modified(w, form, v), !odd) == ByteOf(w, !odd)
  }

  /** The simulator writes low bytes at even addresses and high bytes at odd ones, wherever the relocation is. */
  lemma PutsByteIff(v: Word, form: Form, odd: bool)
    requires form != Full
    ensures (forall w: Word :: PutsByte(w, form, v, odd)) <==> (odd <==> form == HighByte)
  {
    if odd != (form == HighByte) {
      var other: Byte := if ByteOf(v, form == HighByte) == 0 then 1 else 0;
      assert !PutsByte(other * 0x100 + other, form, v, odd);
    }
  }

  // --------------------------------------------------------------------- The instruction set

  /** The instructions with an eight-bit immediate and a register from r16 to r31. */
  datatype Mnemonic = Andi | Cpi | Ldi | Ori | Sbci | Subi

  function Code(m: Mnemonic): nat {
    match m
    case Andi => 0x7
    case Cpi => 0x3
    case Ldi => 0xe
    case Ori => 0x6
    case Sbci => 0x4
    case Subi => 0x5
  }

  /** oooo KKKK dddd KKKK. */
  function Encoded(m: Mnemonic, r: int, k: Byte): Word
    requires 16 <= r < 32
  {
    Code(m) * 0x1000 + k / 0x10 * 0x100 + (r - 16) * 0x10 + k % 0x10
  }

  /** An immediate is patched in exactly these instructions, of which it is the immediate that is replaced. */
  lemma ImmediatesAre(w: Word)
    ensures TakesImmediate(w) <==> exists m, r, k :: 16 <= r < 32 && w == Encoded(m, r, k)
  {
    if TakesImmediate(w) {
      var m := MnemonicOf(w);
      DigitsOf(w);
      assert w == Encoded(m, Register(w), Immediate(w)) by {
        Split(w / 0x100 % 0x10, w % 0x10);
        hide Opcode, TakesImmediate;
      }
    } else if m, r, k :| 16 <= r < 32 && w == Encoded(m, r, k) {
      EncodedIs(m, r, k, k);
    }
  }

  lemma MnemonicOf(w: Word) returns (m: Mnemonic)
    requires TakesImmediate(w)
    ensures Code(m) == w / 0x1000
  {
    m := match Opcode(w)
         case 0x7 => Andi
         case 0x3 => Cpi
         case 0xe => Ldi
         case 0x6 => Ori
         case 0x4 => Sbci
         case _ => Subi;
  }

  lemma DigitsOf(w: Word)
    ensures w == w / 0x1000 * 0x1000 + w / 0x100 % 0x10 * 0x100 + w / 0x10 % 0x10 * 0x10 + w % 0x10
  {
    assert w / 0x10 / 0x10 == w / 0x100 && w / 0x100 / 0x10 == w / 0x1000;
  }

  lemma EncodedIs(m: Mnemonic, r: int, k: Byte, v: Byte)
    requires 16 <= r < 32
    ensures var w := Encoded(m, r, k);
            && TakesImmediate(w) && Immediate(w) == k && Register(w) == r
            && WithImmediate(w, v) == Encoded(m, r, v)
  {
    Nibbles(Code(m), k / 0x10, r - 16, k % 0x10);
  }

  /** 1001 010k kkkk 11ck and the low word of a jump, or of a call if c is set. */
  function JumpTo(call: bool, k: nat): (Word, Word)
    requires k < 0x40_0000
  {
    var high := k / 0x1_0000;
    (0x9400 + high / 2 * 0x10 + (if call then 0xe else 0xc) + high % 2, k % 0x1_0000)
  }

  /** Jumps and calls are taken for what they are, their target is read whole, and another takes its place. */
  lemma JumpsAre(call: bool, k: nat, to: nat)
    requires k < 0x40_0000 && to < 0x40_0000
    ensures var (w0, w1) := JumpTo(call, k);
            IsJump(w0) && JumpTarget(w0, w1) == k && WithTarget(w0, to / 0x1_0000) == JumpTo(call, to).0
  {
    var high := k / 0x1_0000;
    var (w0, w1) := JumpTo(call, k);
    var low := (if call then 0xe else 0xc) + high % 2;
    assert w0 % 0x10 == low && w0 / 0x10 == 0x940 + high / 2 && w0 / 0x200 == 0x4a;
    assert w0 / 0x10 % 0x20 == high / 2;
    assert w0 % 2 == high % 2 && w0 / 2 % 8 == low / 2;
  }

  /** The simulator looks at three bits of the first word alone, so it takes words of other instructions too. */
  lemma LooksAtThreeBits(w: Word)
    ensures IsJump(w) <==> w % 0x10 >= 0xc
  {
  }
}
