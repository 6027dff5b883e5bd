/** The Intel HEX writer and reader that merge flash images. */
module Cathex {
  import opened Basics

  /** Bytes to a data record, and the record types that are told apart. */
  const LINE: nat := 16
  const REC_DATA: int := 0
  const REC_EOF: int := 1

  // --------------------------------------------------------------------- Hexadecimal

  function HexChar(d: int): char
    requires 0 <= d < 16
  {
    "0123456789ABCDEF"[d]
  }

  function Digit(c: char): (d: Option<int>)
    ensures d.Some? ==> 0 <= d.value < 16
  {
    if '0' <= c <= '9' then Some(c as int - '0' as int)
    else if 'A' <= c <= 'F' then Some(c as int - 'A' as int + 10)
    else if 'a' <= c <= 'f' then Some(c as int - 'a' as int + 10)
    else None
  }

  function Hex2(v: Byte): (s: string)
    ensures |s| == 2
  {
    [HexChar(v / 16), HexChar(v % 16)]
  }

  function Hex4(v: int): (s: string)
    requires 0 <= v < 0x1_0000
    ensures |s| == 4
  {
    Hex2(v / 0x100) + Hex2(v % 0x100)
  }

  /** The number that the leading hexadecimal digits of s make, after `acc`. */
  function ScanOn(acc: int, s: string): (r: int)
    ensures acc >= 0 ==> r >= 0
    decreases |s|
  {
    if s == [] || Digit(s[0]) == None then acc else ScanOn(16 * acc + Digit(s[0]).value, s[1..])
  }

  /** sscanf with %X: where s starts with no digit the variable keeps the value it had. */
  function Scan(s: string, stale: int): (r: int)
    ensures stale >= 0 ==> r >= 0
  {
    if s == [] || Digit(s[0]) == None then stale else ScanOn(0, s)
  }

  lemma DigitOf(d: int)
    requires 0 <= d < 16
    ensures Digit(HexChar(d)) == Some(d)
  {
    assert HexChar(d) == if d < 10 then ('0' as int + d) as char else ('A' as int + d - 10) as char;
  }

  lemma ScanOnDigit(acc: int, d: int, rest: string)
    requires 0 <= d < 16
    ensures ScanOn(acc, [HexChar(d)] + rest) == ScanOn(16 * acc + d, rest)
    ensures Digit(([HexChar(d)] + rest)[0]) != None
  {
    DigitOf(d);
    assert ([HexChar(d)] + rest)[1..] == rest;
  }

  lemma NoDigits(acc: int)
    ensures ScanOn(acc, []) == acc
  {
  }

  lemma Scan2(a: int, b: int, stale: int)
    requires 0 <= a < 16 && 0 <= b < 16
    ensures Scan([HexChar(a), HexChar(b)], stale) == 16 * a + b
  {
    hide HexChar, ScanOn, Digit;
    ScanOnDigit(0, a, [HexChar(b)]);
    ScanOnDigit(a, b, []);
    NoDigits(16 * a + b);
    assert [HexChar(a)] + [HexChar(b)] == [HexChar(a), HexChar(b)] && [HexChar(b)] + [] == [HexChar(b)];
  }

  lemma Scan4(a: int, b: int, c: int, d: int, stale: int)
    requires 0 <= a < 16 && 0 <= b < 16 && 0 <= c < 16 && 0 <= d < 16
    ensures Scan([HexChar(a), HexChar(b), HexChar(c), HexChar(d)], stale) == 0x1000 * a + 0x100 * b + 0x10 * c + d
  {
    hide HexChar, ScanOn, Digit;
    var cd := [HexChar(c), HexChar(d)];
    ScanOnDigit(0, a, [HexChar(b)] + cd);
    ScanOnDigit(a, b, cd);
    ScanOnDigit(16 * a + b, c, [HexChar(d)]);
    ScanOnDigit(16 * (16 * a + b) + c, d, []);
    NoDigits(16 * (16 * (16 * a + b) + c) + d);
    assert [HexChar(a)] + ([HexChar(b)] + cd) == [HexChar(a), HexChar(b), HexChar(c), HexChar(d)];
    assert [HexChar(c)] + [HexChar(d)] == cd && [HexChar(d)] + [] == [HexChar(d)];
  }

  lemma ScanHex2(v: Byte, stale: int)
    ensures Scan(Hex2(v), stale) == v
  {
    Scan2(v / 16, v % 16, stale);
  }

  lemma ScanHex4(v: int, stale: int)
    requires 0 <= v < 0x1_0000
    ensures Scan(Hex4(v), stale) == v
    ensures Scan(Hex4(v)[2..4], stale) == v % 0x100 && Scan(Hex4(v)[..2], stale) == v / 0x100
  {
    var a, b, c, d := v / 0x1000, v / 0x100 % 16, v % 0x100 / 16, v % 16;
    assert v / 0x100 / 16 == a && v % 0x100 % 16 == d;
    Scan4(a, b, c, d, stale);
    assert Hex4(v) == [HexChar(a), HexChar(b), HexChar(c), HexChar(d)];
    assert Hex4(v)[2..4] == Hex2(v % 0x100) && Hex4(v)[..2] == Hex2(v / 0x100);
    ScanHex2(v % 0x100, stale);
    ScanHex2(v / 0x100, stale);
  }

  // --------------------------------------------------------------------- Records

  function Sum(q: seq<Byte>): nat { if q == [] then 0 else Sum(q[..|q| - 1]) + q[|q| - 1] }

  /** The two's complement of the sum of all bytes of a record before it. */
  function Check(data: seq<Byte>, address: int): Byte
    requires 0 <= address < 0x1_0000
  {
    -(|data| + address / 0x100 + address % 0x100 + Sum(data)) % 0x100
  }

  function Bytes(data: seq<Byte>): (s: string)
    ensures |s| == 2 * |data|
  {
    if data == [] then [] else Bytes(data[..|data| - 1]) + Hex2(data[|data| - 1])
  }

  /** The start of a data record: its length, address and type. */
  function Head(n: Byte, address: int): (s: string)
    requires 0 <= address < 0x1_0000
    ensures |s| == 9
  {
    ":" + Hex2(n) + Hex4(address) + "00"
  }

  /** A data record, with its line end. */
  function Record(data: seq<Byte>, address: int): (s: string)
    requires |data| < 0x100 && 0 <= address < 0x1_0000
    ensures |s| == 13 + 2 * |data|
  {
    Head(|data|, address) + (Bytes(data) + (Hex2(Check(data, address)) + "\r\n"))
  }

  const END: string := ":00000001FF\r\n"

  /** The file from an address on: records of sixteen bytes, the last of what remains, and the end record. */
  function File(mem: seq<Byte>, address: nat, extent: nat): (file: string)
    requires extent <= |mem| && extent <= 0x1_0000
    ensures file != []
    decreases extent - address
  {
    if address >= extent then END
    else
      var lim := Min(LINE, extent - address);
      Record(mem[address..address + lim], address) + File(mem, address + lim, extent)
  }

  /** The bytes of every record, its checksum included, sum to zero modulo 256. */
  lemma RecordsSumToZero(data: seq<Byte>, address: int)
    requires 0 <= address < 0x1_0000
    ensures (|data| + address / 0x100 + address % 0x100 + REC_DATA + Sum(data) + Check(data, address)) % 0x100 == 0
  {
    var n := |data| + address / 0x100 + address % 0x100 + Sum(data);
    assert n + -n % 0x100 == 0x100 * ((n + -n % 0x100) / 0x100);
  }

  lemma CheckIs(data: seq<Byte>, address: int, checksum: int)
    requires 0 <= address < 0x1_0000 && checksum == (|data| + address / 0x100 + address % 0x100 + Sum(data)) % 0x100
    ensures (0xff - checksum + 1) % 0x100 == Check(data, address)
  {
    hide Sum;
    Complement(|data| + address / 0x100 + address % 0x100 + Sum(data));
  }

  lemma Complement(n: int)
    ensures (0xff - n % 0x100 + 1) % 0x100 == -n % 0x100
  {
    assert -n == 0x100 * -(n / 0x100) - n % 0x100;
  }

  lemma SumOn(data: seq<Byte>, b: Byte, n: nat, checksum: int)
    requires checksum == (n + Sum(data)) % 0x100
    ensures (checksum + b) % 0x100 == (n + Sum(data + [b])) % 0x100
    ensures Bytes(data + [b]) == Bytes(data) + Hex2(b)
  {
    assert (data + [b])[..|data|] == data;
  }

  /** One data record of writehex. */
  method WriteRecord(mmap: array<Byte>, address: nat, lim: nat) returns (line: string)
    requires lim < 0x100 && address < 0x1_0000 && address + lim <= mmap.Length
    ensures line == Record(mmap[address..address + lim], address)
  {
    hide Hex2, Head, Sum, Bytes, Check;
    line := Head(lim, address);
    var checksum := (lim + address / 0x100) % 0x100;
    checksum := (checksum + address % 0x100) % 0x100;
    ghost var head, n := line, lim + address / 0x100 + address % 0x100;
    ghost var data: seq<Byte> := [];
    var i := 1;
    NoBytes();
    while i <= lim
      invariant 1 <= i <= lim + 1 && data == mmap[address..address + i - 1]
      invariant checksum == (n + Sum(data)) % 0x100 && line == head + Bytes(data)
    {
      var b := mmap[address + i - 1];
      SumOn(data, b, n, checksum);
      data := data + [b];
      line := line + Hex2(b);
      checksum := (checksum + b) % 0x100;
      i := i + 1;
    }
    CheckIs(data, address, checksum);
    checksum := (0xff - checksum + 1) % 0x100;
    line := line + (Hex2(checksum) + "\r\n");
  }

  lemma NoBytes()
    ensures Sum([]) == 0 && Bytes([]) == []
  {
  }

  lemma FileStep(mem: seq<Byte>, address: nat, extent: nat)
    requires extent <= |mem| && extent <= 0x1_0000
    ensures address >= extent ==> File(mem, address, extent) == END
    ensures address < extent ==>
              var lim := if address + LINE >= extent then extent - address else LINE;
              File(mem, address, extent)
              == Record(mem[address..address + lim], address) + File(mem, address + lim, extent)
  {
    hide Record;
  }

  /** Sixteen bytes to a record while there are more, then what remains, then the end record. */
  lemma FileOpens(mem: seq<Byte>, address: nat, extent: nat)
    requires extent <= |mem| && extent <= 0x1_0000
    ensures var file := File(mem, address, extent);
            if address >= extent then file == ":00000001FF\r\n"
            else if address + 16 < extent then
              file == Record(mem[address..address + 16], address) + File(mem, address + 16, extent)
            else file == Record(mem[address..extent], address) + ":00000001FF\r\n"
  {
    FileStep(mem, address, extent);
    FileStep(mem, extent, extent);
    hide Record;
  }

  /** writehex. */
  method WriteHex(mmap: array<Byte>, extent: nat) returns (file: string)
    requires extent <= mmap.Length && extent <= 0x1_0000
    ensures file == File(mmap[..], 0, extent)
  {
    hide Record, File;
    file := "";
    ghost var whole := File(mmap[..], 0, extent);
    var address := 0;
    while address < extent
      invariant 0 <= address && whole == file + File(mmap[..], address, extent)
      decreases extent - address
    {
      var lim := if address + LINE >= extent then extent - address else LINE;
      var line := WriteRecord(mmap, address, lim);
      assert mmap[..][address..address + lim] == mmap[address..address + lim];
      FileStep(mmap[..], address, extent);
      file := file + line;
      address := address + lim;
    }
    FileStep(mmap[..], address, extent);
    file := file + END;
  }

  // --------------------------------------------------------------------- Reading back

  /** fgetc into an unsigned char: the end of the file reads as 0xff. */
  function CharAt(text: string, pos: nat): char { if pos < |text| then text[pos] else 0xff as char }

  /** text has s from pos on. */
  ghost predicate Has(text: string, pos: nat, s: string) {
    pos + |s| <= |text| && text[pos..pos + |s|] == s
  }

  lemma HasParts(text: string, pos: nat, a: string, b: string)
    requires Has(text, pos, a + b)
    ensures Has(text, pos, a) && Has(text, pos + |a|, b)
  {
    assert text[pos..pos + |a|] == text[pos..pos + |a + b|][..|a|];
    assert text[pos + |a|..pos + |a| + |b|] == text[pos..pos + |a + b|][|a|..];
  }

  lemma {:induction false} BytesFrom(data: seq<Byte>, i: nat)
    requires i < |data|
    ensures Bytes(data[i..]) == Hex2(data[i]) + Bytes(data[i + 1..])
    decreases |data|
  {
    var init := data[..|data| - 1];
    assert data[i..][..|data[i..]| - 1] == init[i..];
    if i == |data| - 1 {
      assert data[i + 1..] == [];
    } else {
      BytesFrom(init, i);
      assert data[i + 1..][..|data[i + 1..]| - 1] == init[i + 1..];
    }
  }

  /** The data bytes of a record. A record that holds `data` puts it at the offset. */
  method LoadBytes(text: string, start: nat, count: nat, mmap: array<Byte>, at: nat, sum: Byte, ghost data: seq<Byte>)
    returns (pos: nat, checksum: Byte)
    modifies mmap
    ensures pos == start + 2 * count
    ensures forall k :: 0 <= k < mmap.Length && !(at <= k < at + count) ==> mmap[k] == old(mmap[k])
    ensures Has(text, start, Bytes(data)) && |data| == count && at + count <= mmap.Length ==>
              mmap[at..at + count] == data && checksum == (sum + Sum(data)) % 0x100
  {
    hide Hex2, Bytes, Sum;
    pos, checksum := start, sum;
    NoBytes();
    var newbyte, i := 0, 0;
    ghost var good := Has(text, start, Bytes(data)) && |data| == count && at + count <= mmap.Length;
    assert good ==> data[0..] == data && data[..0] == [];
    while i < count
      invariant 0 <= i <= count && pos == start + 2 * i
      invariant forall k :: 0 <= k < mmap.Length && !(at <= k < at + i) ==> mmap[k] == old(mmap[k])
      invariant good ==> Has(text, pos, Bytes(data[i..]))
      invariant good ==> mmap[at..at + i] == data[..i] && checksum == (sum + Sum(data[..i])) % 0x100
    {
      var readbyte := [CharAt(text, pos), CharAt(text, pos + 1)];
      newbyte := Scan(readbyte, newbyte);
      if good {
        BytesFrom(data, i);
        HasParts(text, pos, Hex2(data[i]), Bytes(data[i + 1..]));
        assert readbyte == Hex2(data[i]);
        ScanHex2(data[i], newbyte);
        SumOn(data[..i], data[i], sum, checksum);
        assert data[..i + 1] == data[..i] + [data[i]];
      }
      var byte := newbyte % 0x100;
      if at + i < mmap.Length {
        mmap[at + i] := byte;
      }
      checksum := (checksum + byte) % 0x100;
      pos, i := pos + 2, i + 1;
    }
    assert good ==> data[..count] == data;
  }

  lemma {:induction false} RecordHas(text: string, pos: nat, data: seq<Byte>, address: int, rest: string)
    requires |data| < 0x100 && 0 <= address < 0x1_0000 && Has(text, pos, Record(data, address) + rest)
    ensures var n := |data|;
            && Has(text, pos, Head(n, address)) && Has(text, pos + 9, Bytes(data))
            && Has(text, pos + 9 + 2 * n, Hex2(Check(data, address))) && Has(text, pos + 11 + 2 * n, "\r\n")
            && Has(text, pos + 13 + 2 * n, rest)
  {
    hide Has, Bytes, Hex2, Head, Check;
    FiveParts(text, pos, Head(|data|, address), Bytes(data), Hex2(Check(data, address)), "\r\n", rest);
  }

  lemma FiveParts(text: string, pos: nat, a: string, b: string, c: string, d: string, e: string)
    requires Has(text, pos, (a + (b + (c + d))) + e)
    ensures Has(text, pos, a) && Has(text, pos + |a|, b) && Has(text, pos + |a| + |b|, c)
    ensures Has(text, pos + |a| + |b| + |c|, d) && Has(text, pos + |a| + |b| + |c| + |d|, e)
  {
    hide Has;
    HasParts(text, pos, a + (b + (c + d)), e);
    HasParts(text, pos, a, b + (c + d));
    HasParts(text, pos + |a|, b, c + d);
    HasParts(text, pos + |a| + |b|, c, d);
  }

  /** What is read of the head of a line: its length, its address as text, and its type. */
  datatype Line = Line(count: int, address: string, kind: int)

  /** The first nine characters of a line; none if the file ends before or the line starts otherwise. */
  method LoadHead(text: string, pos: nat, stale: Line) returns (line: Option<Line>)
    ensures line.Some? ==> pos + 9 <= |text| && |line.value.address| == 4
    ensures line.Some? && stale.count >= 0 ==> line.value.count >= 0
    ensures forall n: Byte, a: int :: 0 <= a < 0x1_0000 && Has(text, pos, Head(n, a)) ==>
              line == Some(Line(n, Hex4(a), REC_DATA))
    ensures Has(text, pos, END) ==> line.Some? && line.value.kind == REC_EOF
  {
    line := None;
    if pos >= |text| || text[pos] != ':' || pos + 3 > |text| {
      return;
    }
    var count := Scan(text[pos + 1..pos + 3], stale.count);
    if pos + 7 > |text| || pos + 9 > |text| {
      return;
    }
    var kind := Scan(text[pos + 7..pos + 9], stale.kind);
    line := Some(Line(count, text[pos + 3..pos + 7], kind));
    forall n: Byte, a: int | 0 <= a < 0x1_0000 && Has(text, pos, Head(n, a))
      ensures line == Some(Line(n, Hex4(a), REC_DATA))
    {
      HeadHas(text, pos, n, a);
      ScanHex2(n, stale.count);
      ScanHex2(0, stale.kind);
    }
    if Has(text, pos, END) {
      HasParts(text, pos, ":000000", "01FF\r\n");
      HasParts(text, pos + 7, "01", "FF\r\n");
      ScanHex2(1, stale.kind);
    }
  }

  lemma HeadHas(text: string, pos: nat, n: Byte, a: int)
    requires 0 <= a < 0x1_0000 && Has(text, pos, Head(n, a))
    ensures Has(text, pos, ":") && Has(text, pos + 1, Hex2(n))
    ensures Has(text, pos + 3, Hex4(a)) && Has(text, pos + 7, Hex2(0))
  {
    assert Hex2(0) == "00";
    hide Has, Hex2, Hex4;
    HasParts(text, pos, ":" + Hex2(n) + Hex4(a), "00");
    HasParts(text, pos, ":" + Hex2(n), Hex4(a));
    HasParts(text, pos, ":", Hex2(n));
  }

  lemma Wraps(x: int, y: int)
    ensures (x % 0x100 + y) % 0x100 == (x + y) % 0x100
  {
    assert x == 0x100 * (x / 0x100) + x % 0x100;
  }

  lemma {:induction false} ChecksumIs(data: seq<Byte>, address: int, checksum: int)
    requires 0 <= address < 0x1_0000
    requires checksum == ((|data| % 0x100 + address % 0x100 + address / 0x100) % 0x100 + Sum(data)) % 0x100
    ensures (0xff - checksum + 1) % 0x100 == Check(data, address)
  {
    var rest := address % 0x100 + address / 0x100;
    Wraps(|data| % 0x100 + rest, Sum(data));
    Wraps(|data|, rest + Sum(data));
    CheckIs(data, address, checksum);
  }

  /** The rest of a data record behind its head: the data, and the checksum. A record as it is written puts
      its data in place and has a good checksum. */
  method LoadData(text: string, start: nat, line: Line, offset: int, mmap: array<Byte>, ghost data: seq<Byte>,
                  ghost address: int)
    returns (pos: nat, good: bool)
    requires 0 <= offset && |line.address| == 4 && 0 <= line.count
    modifies mmap
    ensures pos > start
    ensures forall k :: 0 <= k < mmap.Length && !(offset <= k < offset + line.count) ==> mmap[k] == old(mmap[k])
    ensures 0 <= address < 0x1_0000 && line == Line(|data|, Hex4(address), REC_DATA) && offset == address
            && |data| < 0x100 && address + |data| <= mmap.Length && Has(text, start, Bytes(data))
            && Has(text, start + 2 * |data|, Hex2(Check(data, address)))
            ==> good && mmap[address..address + |data|] == data && pos == start + 2 * |data| + 2
  {
    hide Bytes, Sum, Hex2, Hex4, Scan, Check;
    var low := Scan(line.address[2..4], line.kind);
    var high := Scan(line.address[..2], low);
    var sum: int := (line.count % 0x100 + low + high) % 0x100;
    var checksum: int;
    pos, checksum := LoadBytes(text, start, line.count, mmap, offset, sum, data);
    var checkbyte := (0xff - checksum + 1) % 0x100;
    var read := Scan([CharAt(text, pos), CharAt(text, pos + 1)], line.count) % 0x100;
    good := read == checkbyte;
    pos := pos + 2;
    if 0 <= address < 0x1_0000 && line == Line(|data|, Hex4(address), REC_DATA) && Has(text, start, Bytes(data))
       && address + |data| <= mmap.Length && offset == address
       && Has(text, start + 2 * |data|, Hex2(Check(data, address)))
    {
      ScanHex4(address, line.kind);
      ScanHex4(address, low);
      ChecksumIs(data, address, checksum);
      ScanHex2(Check(data, address), line.count);
      assert [CharAt(text, pos - 2), CharAt(text, pos - 1)] == Hex2(Check(data, address));
    }
  }

  /** Skips a record of another type, up to its line end. */
  method SkipLine(text: string, start: nat) returns (pos: nat)
    ensures start <= pos && (start <= |text| ==> pos <= |text|)
    ensures forall k :: start <= k < pos && k < |text| ==> text[k] != '\r' && text[k] != '\n'
    ensures pos < |text| ==> text[pos] == '\r' || text[pos] == '\n'
  {
    pos := start;
    while pos < |text| && text[pos] != '\r' && text[pos] != '\n'
      invariant start <= pos && (start <= |text| ==> pos <= |text|)
      invariant forall k :: start <= k < pos && k < |text| ==> text[k] != '\r' && text[k] != '\n'
    {
      pos := pos + 1;
    }
  }

  lemma HasSome(text: string, pos: nat, s: string)
    requires Has(text, pos, s) && s != []
    ensures pos < |text|
  {
  }

  /** A data record as it is written. */
  ghost predicate IsRecord(text: string, pos: nat, data: seq<Byte>, address: int) {
    && 0 <= address < 0x1_0000 && |data| <= LINE
    && Has(text, pos, Head(|data|, address)) && Has(text, pos + 9, Bytes(data))
    && Has(text, pos + 9 + 2 * |data|, Hex2(Check(data, address))) && Has(text, pos + 11 + 2 * |data|, "\r\n")
  }

  /** What a written file has at a record boundary. */
  lemma FileHas(text: string, pos: nat, mem: seq<Byte>, address: nat, extent: nat, data: seq<Byte>)
    requires extent <= |mem| && extent <= 0x1_0000 && Has(text, pos, File(mem, address, extent))
    requires address < extent ==> data == mem[address..address + Min(LINE, extent - address)]
    ensures address >= extent ==> Has(text, pos, END)
    ensures address < extent ==>
              && IsRecord(text, pos, data, address) && address + |data| <= extent && data != []
              && Has(text, pos + 13 + 2 * |data|, File(mem, address + |data|, extent))
    ensures pos < |text|
  {
    hide Record, Has, Head, Check, Bytes, Hex2;
    HasSome(text, pos, File(mem, address, extent));
    FileStep(mem, address, extent);
    if address < extent {
      RecordHas(text, pos, data, address, File(mem, address + |data|, extent));
    }
  }

  datatype Progress = More | Ended | Broken

  /** One line of loadhex. */
  method LoadLine(text: string, start: nat, stale: Line, at: int, mmap: array<Byte>, ghost data: seq<Byte>,
                  ghost address: int)
    returns (pos: nat, line: Line, offset: int, good: bool, progress: Progress)
    requires 0 <= at && 0 <= stale.count
    modifies mmap
    ensures 0 <= offset && 0 <= line.count && (progress == More ==> pos > start)
    ensures progress == Ended ==> offset == at && good && mmap[..] == old(mmap[..])
    ensures IsRecord(text, start, data, address) && address + |data| <= mmap.Length ==>
              && progress == More && good && pos == start + 13 + 2 * |data| && offset == address + |data|
              && mmap[address..offset] == data
              && forall k :: 0 <= k < mmap.Length && !(address <= k < offset) ==> mmap[k] == old(mmap[k])
    ensures Has(text, start, END) ==> progress == Ended
  {
    hide Scan, Bytes, Head, Check, Hex2, Hex4;
    pos, line, offset, good, progress := start, stale, at, true, Broken;
    var head := LoadHead(text, start, stale);
    if head == None {
      return;
    }
    line, pos := head.value, start + 9;
    if line.kind == REC_EOF {
      progress := Ended;
      return;
    }
    if line.kind == REC_DATA {
      if IsRecord(text, start, data, address) {
        ScanHex4(address, at);
      }
      offset := Scan(line.address, at);
      pos, good := LoadData(text, pos, line, offset, mmap, data, address);
      offset := offset + line.count;
    } else {
      pos := SkipLine(text, pos);
    }
    if CharAt(text, pos) != '\n' {
      if CharAt(text, pos) != '\r' || CharAt(text, pos + 1) != '\n' {
        return;
      }
      pos := pos + 1;
    }
    pos, progress := pos + 1, More;
  }

  /** The record of a file that starts at an address. */
  ghost function DataAt(mem: seq<Byte>, address: nat, extent: nat): seq<Byte>
    requires extent <= |mem|
  {
    if address < extent then mem[address..address + Min(LINE, extent - address)] else []
  }

  /** The bytes up to an address are those of mem; the rest of the map is as it was. */
  ghost predicate Loaded(map0: seq<Byte>, map1: seq<Byte>, mem: seq<Byte>, address: nat) {
    && |map0| == |map1| && address <= |map1| && address <= |mem|
    && map1[..address] == mem[..address] && map1[address..] == map0[address..]
  }

  lemma LoadedOn(map0: seq<Byte>, map1: seq<Byte>, map2: seq<Byte>, mem: seq<Byte>, address: nat, to: nat)
    requires Loaded(map0, map1, mem, address) && address <= to <= |mem| && to <= |map2| == |map1|
    requires map2[address..to] == mem[address..to]
    requires forall k :: 0 <= k < |map2| && !(address <= k < to) ==> map2[k] == map1[k]
    ensures Loaded(map0, map2, mem, to)
  {
    assert map2[..to] == map2[..address] + map2[address..to];
    assert mem[..to] == mem[..address] + mem[address..to];
    assert map2[..address] == map1[..address];
    assert forall k :: to <= k < |map2| ==> map2[k] == map1[address..][k - address];
  }

  /** loadhex: reads a file of records into the memory map. It returns the offset behind the last data
      record, or zero if the file has no end record, and counts bad checksums. A file that writehex printed
      from mem brings back mem's bytes up to its extent and changes nothing else. */
  method LoadHex(text: string, mmap: array<Byte>, ghost mem: seq<Byte>, ghost extent: nat)
    returns (end: int, bad: nat, complete: bool)
    requires extent <= |mem| && extent <= 0x1_0000
    modifies mmap
    ensures !complete ==> end == 0
    ensures extent <= mmap.Length && text == File(mem, 0, extent) ==>
              complete && end == extent && bad == 0 && Loaded(old(mmap[..]), mmap[..], mem, extent)
  {
    hide Has, Head, Bytes, Check, Hex2, Hex4, File, IsRecord, Loaded;
    end, bad, complete := 0, 0, false;
    var pos, offset: int, line := 0, 0, Line(0, [], 0);
    ghost var written, address: nat := extent <= mmap.Length && text == File(mem, 0, extent), 0;
    HasAll(text);
    NothingLoaded(mmap[..], mem);
    while pos < |text|
      invariant 0 <= offset && 0 <= line.count && !complete && end == 0
      invariant written ==> 0 <= address <= extent && offset == address && bad == 0
      invariant written ==> Has(text, pos, File(mem, address, extent)) && Loaded(old(mmap[..]), mmap[..], mem, address)
      decreases |text| - pos
    {
      ghost var start, map1, data := pos, mmap[..], DataAt(mem, address, extent);
      if written {
        FileHas(text, pos, mem, address, extent, data);
      }
      var good, progress;
      pos, line, offset, good, progress := LoadLine(text, pos, line, offset, mmap, data, address);
      if progress == Broken {
        break;
      }
      if progress == Ended {
        return offset, bad, true;
      }
      if !good {
        bad := bad + 1;
      }
      if written {
        LoadedOn(old(mmap[..]), map1, mmap[..], mem, address, address + |data|);
      }
      address := address + |data|;
    }
    if written {
      HasSome(text, pos, File(mem, address, extent));
    }
  }

  lemma HasAll(text: string)
    ensures Has(text, 0, text)
  {
  }

  lemma NothingLoaded(map0: seq<Byte>, mem: seq<Byte>)
    ensures Loaded(map0, map0, mem, 0)
  {
  }

  // --------------------------------------------------------------------- A record as the specification has it

  const KNOWN: seq<Byte> := [0x02, 0x33, 0x7a]

  lemma KnownBytes()
    ensures Bytes(KNOWN) == "02337A" && Sum(KNOWN) == 0xaf
  {
    assert KNOWN[..2] == [0x02, 0x33] && KNOWN[..2][..1] == [0x02];
    NoBytes();
    assert Bytes([0x02]) == Hex2(0x02) && Bytes([0x02, 0x33]) == Hex2(0x02) + Hex2(0x33);
  }

  lemma KnownHead()
    ensures Head(3, 0x0030) == ":03003000"
  {
    assert Hex2(3) == "03" && Hex4(0x0030) == "00" + "30";
  }

  /** Three data bytes at 0x0030. */
  lemma KnownRecord()
    ensures Record(KNOWN, 0x0030) == ":0300300002337A1E\r\n"
  {
    hide Head, Bytes, Sum;
    KnownBytes();
    KnownHead();
    assert Check(KNOWN, 0x0030) == 0x1e && Hex2(0x1e) == "1E";
  }
}
