/** Motorola S-records as output_srec.c writes them, and how they are read. */
module Srec {
  import opened Sections

  /** A record: its type digit, its address and its data. */
  datatype Record = Record(kind: nat, address: nat, data: seq<Byte>)

  /** Bytes of the address: S0, S1 and S9 have two, S2 and S8 three, S3 and S7 four. */
  function AddressLength(kind: nat): nat {
    if kind == 3 || kind == 7 then 4 else if kind == 2 || kind == 8 then 3 else 2
  }

  function Limit(kind: nat): nat {
    if AddressLength(kind) == 4 then 0x1_0000_0000 else if AddressLength(kind) == 3 then 0x100_0000 else 0x1_0000
  }

  predicate Fits(r: Record) {
    r.kind < 10 && |r.data| <= 32 && r.address < Limit(r.kind)
  }

  // ----- writing -----

  function HexChar(n: int): char
    requires 0 <= n < 16
  {
    if n < 10 then '0' + n as char else 'A' + (n - 10) as char
  }

  function HexByte(b: Byte): string {
    [HexChar(b / 16), HexChar(b % 16)]
  }

  function HexBytes(bs: seq<Byte>): string {
    if bs == [] then "" else HexByte(bs[0]) + HexBytes(bs[1..])
  }

  function Sum(bs: seq<Byte>): nat {
    if bs == [] then 0 else bs[0] + Sum(bs[1..])
  }

  function AddressBytes(kind: nat, a: nat): seq<Byte> {
    (if AddressLength(kind) >= 4 then [a / 0x100_0000 % 256] else [])
    + (if AddressLength(kind) >= 3 then [a / 0x1_0000 % 256] else [])
    + [a / 256 % 256, a % 256]
  }

  /** Count, address and data; an S0 record has address 0. */
  function Body(r: Record): seq<Byte>
    requires |r.data| <= 32
  {
    [|r.data| + AddressLength(r.kind) + 1] + AddressBytes(r.kind, r.address) + r.data
  }

  function Checksum(bs: seq<Byte>): Byte {
    255 - Sum(bs) % 256
  }

  function Encode(r: Record): string
    requires |r.data| <= 32 && r.kind < 10
  {
    "S" + [HexChar(r.kind)] + HexBytes(Body(r)) + HexByte(Checksum(Body(r))) + "\n"
  }

  function EncodeAll(rs: seq<Record>): string
    requires forall r :: r in rs ==> |r.data| <= 32 && r.kind < 10
  {
    if rs == [] then "" else Encode(rs[0]) + EncodeAll(rs[1..])
  }

  // ----- reading -----

  function Unhex(c: char): int {
    if '0' <= c <= '9' then c as int - '0' as int
    else if 'A' <= c <= 'F' then c as int - 'A' as int + 10
    else -1
  }

  /** The hexadecimal bytes up to the end of the line, and the text behind it. */
  function ReadLine(t: string): (seq<Byte>, string) {
    if |t| < 2 || t[0] == '\n' then ([], if t == "" then t else t[1..])
    else if Unhex(t[0]) < 0 || Unhex(t[1]) < 0 then ([], "")
    else
      var (bs, rest) := ReadLine(t[2..]);
      ([16 * Unhex(t[0]) + Unhex(t[1])] + bs, rest)
  }

  lemma {:induction false} ReadLineShrinks(t: string)
    ensures |ReadLine(t).1| <= |t|
  {
    if !(|t| < 2 || t[0] == '\n') && !(Unhex(t[0]) < 0 || Unhex(t[1]) < 0) {
      ReadLineShrinks(t[2..]);
    }
  }

  function Number(bs: seq<Byte>): nat {
    if bs == [] then 0 else 256 * Number(bs[..|bs| - 1]) + bs[|bs| - 1]
  }

  /** The record that a line's bytes hold, if count and checksum are right. */
  function Interpret(kind: nat, bs: seq<Byte>): seq<Record> {
    var n := AddressLength(kind);
    if |bs| < n + 2 || bs[0] != |bs| - 1 || Sum(bs) % 256 != 255 then []
    else [Record(kind, Number(bs[1..1 + n]), bs[1 + n..|bs| - 1])]
  }

  function Decode(t: string): seq<Record>
    decreases |t|
  {
    if |t| < 2 || t[0] != 'S' || Unhex(t[1]) < 0 then [] else
      ReadLineShrinks(t[2..]);
      var (bs, rest) := ReadLine(t[2..]);
      Interpret(Unhex(t[1]), bs) + Decode(rest)
  }

  // ----- reading what was written -----

  lemma UnhexHex(n: int)
    requires 0 <= n < 16
    ensures Unhex(HexChar(n)) == n && HexChar(n) != '\n'
  {}

  lemma {:induction false} ReadWritten(bs: seq<Byte>, rest: string)
    ensures ReadLine(HexBytes(bs) + "\n" + rest) == (bs, rest)
  {
    if bs == [] {
      assert HexBytes(bs) + "\n" + rest == "\n" + rest;
      assert ("\n" + rest)[1..] == rest;
    } else {
      var t := HexBytes(bs) + "\n" + rest;
      var b := bs[0];
      UnhexHex(b / 16);
      UnhexHex(b % 16);
      assert t[0] == HexChar(b / 16) && t[1] == HexChar(b % 16);
      assert t[2..] == HexBytes(bs[1..]) + "\n" + rest;
      ReadWritten(bs[1..], rest);
      assert 16 * (b / 16) + b % 16 == b;
      assert [b] + bs[1..] == bs;
    }
  }

  lemma {:induction false} HexSnoc(bs: seq<Byte>, b: Byte)
    ensures HexBytes(bs + [b]) == HexBytes(bs) + HexByte(b)
  {
    if bs == [] {
      assert [b][1..] == [];
      assert HexBytes([b]) == HexByte(b) + HexBytes([]);
    } else {
      HexSnoc(bs[1..], b);
      assert (bs + [b])[1..] == bs[1..] + [b];
    }
  }

  lemma {:induction false} SumSnoc(bs: seq<Byte>, b: Byte)
    ensures Sum(bs + [b]) == Sum(bs) + b
  {
    if bs == [] {
      assert [b][1..] == [];
    } else {
      SumSnoc(bs[1..], b);
      assert (bs + [b])[1..] == bs[1..] + [b];
    }
  }

  /** The bytes of a record including the checksum sum to 0xFF modulo 256. */
  lemma ChecksumCompletes(bs: seq<Byte>)
    ensures Sum(bs + [Checksum(bs)]) % 256 == 255
  {
    SumSnoc(bs, Checksum(bs));
  }

  lemma AddressRead(kind: nat, a: nat)
    requires a < Limit(kind)
    ensures |AddressBytes(kind, a)| == AddressLength(kind) && Number(AddressBytes(kind, a)) == a
  {
    hide Number;
    var bs := AddressBytes(kind, a);
    Quotients(a);
    if AddressLength(kind) == 2 {
      NumberOfTwo(bs);
    } else if AddressLength(kind) == 3 {
      NumberOfThree(bs);
    } else {
      NumberOfFour(bs);
    }
  }

  lemma Quotients(a: nat)
    ensures a == 256 * (a / 256) + a % 256
    ensures a / 256 == 256 * (a / 0x1_0000) + a / 256 % 256
    ensures a / 0x1_0000 == 256 * (a / 0x100_0000) + a / 0x1_0000 % 256
  {
    assert a / 0x1_0000 == a / 256 / 256 && a / 0x100_0000 == a / 0x1_0000 / 256;
  }

  lemma NumberOfTwo(bs: seq<Byte>)
    requires |bs| == 2
    ensures Number(bs) == 256 * (bs[0] as int) + bs[1] as int
  {
    assert bs[..1] == [bs[0]] && bs[..1][..0] == [];
    assert Number(bs[..1]) == bs[0];
  }

  lemma NumberOfThree(bs: seq<Byte>)
    requires |bs| == 3
    ensures Number(bs) == 256 * (256 * (bs[0] as int) + bs[1] as int) + bs[2] as int
  {
    NumberOfTwo(bs[..2]);
  }

  lemma NumberOfFour(bs: seq<Byte>)
    requires |bs| == 4
    ensures Number(bs) == 256 * (256 * (256 * (bs[0] as int) + bs[1] as int) + bs[2] as int) + bs[3] as int
  {
    NumberOfThree(bs[..3]);
  }

  predicate AllFit(rs: seq<Record>) {
    forall r :: r in rs ==> Fits(r)
  }

  lemma InterpretWritten(r: Record)
    requires Fits(r)
    ensures Interpret(r.kind, Body(r) + [Checksum(Body(r))]) == [r]
  {
    hide Number, AddressBytes, Sum;
    var bs := Body(r) + [Checksum(Body(r))];
    var n := AddressLength(r.kind);
    AddressRead(r.kind, r.address);
    ChecksumCompletes(Body(r));
    assert bs[1..1 + n] == AddressBytes(r.kind, r.address);
    assert bs[1 + n..|bs| - 1] == r.data;
  }

  lemma DecodeOne(r: Record, rest: string)
    requires Fits(r)
    ensures Decode(Encode(r) + rest) == [r] + Decode(rest)
  {
    hide ReadLine, Interpret, Body, Checksum, HexBytes;
    var t := Encode(r) + rest;
    var bs := Body(r) + [Checksum(Body(r))];
    UnhexHex(r.kind);
    HexSnoc(Body(r), Checksum(Body(r)));
    assert t[2..] == HexBytes(bs) + "\n" + rest;
    assert t[0] == 'S' && t[1] == HexChar(r.kind);
    ReadWritten(bs, rest);
    InterpretWritten(r);
  }

  /** Reading gives back the records that were written. */
  lemma {:induction false} DecodeEncoded(rs: seq<Record>, rest: string)
    requires AllFit(rs)
    ensures Decode(EncodeAll(rs) + rest) == rs + Decode(rest)
  {
    hide Encode, Decode;
    if rs == [] {
      assert EncodeAll(rs) + rest == rest;
    } else {
      DecodeEncoded(rs[1..], rest);
      DecodeOne(rs[0], EncodeAll(rs[1..]) + rest);
      assert EncodeAll(rs) + rest == Encode(rs[0]) + (EncodeAll(rs[1..]) + rest);
    }
  }

  // ----- cutting a section into records -----

  /** The data records of bytes at address a: 32 bytes each, the last one with what remains. */
  function Chunks(kind: nat, a: nat, bytes: seq<Byte>): seq<Record>
    decreases |bytes|
  {
    if bytes == [] then []
    else if |bytes| <= 32 then [Record(kind, a, bytes)]
    else [Record(kind, a, bytes[..32])] + Chunks(kind, a + 32, bytes[32..])
  }

  lemma {:induction false} ChunksSnoc(kind: nat, a: nat, bytes: seq<Byte>, last: seq<Byte>)
    requires |bytes| % 32 == 0 && 0 < |last| <= 32
    ensures Chunks(kind, a, bytes + last) == Chunks(kind, a, bytes) + [Record(kind, a + |bytes|, last)]
    decreases |bytes|
  {
    if bytes == [] {
      assert bytes + last == last;
    } else if |bytes| == 32 {
      assert (bytes + last)[..32] == bytes && (bytes + last)[32..] == last;
    } else {
      assert (bytes + last)[..32] == bytes[..32] && (bytes + last)[32..] == bytes[32..] + last;
      ChunksSnoc(kind, a + 32, bytes[32..], last);
    }
  }

  lemma {:induction false} ChunksFit(kind: nat, a: nat, bytes: seq<Byte>)
    requires kind < 10 && a + |bytes| <= Limit(kind)
    ensures AllFit(Chunks(kind, a, bytes))
    ensures forall r :: r in Chunks(kind, a, bytes) ==> |r.data| <= 32 && r.kind == kind
    decreases |bytes|
  {
    if |bytes| > 32 {
      ChunksFit(kind, a + 32, bytes[32..]);
    }
  }

  lemma {:induction false} ChunksSmall(kind: nat, a: nat, bytes: seq<Byte>)
    ensures forall r :: r in Chunks(kind, a, bytes) ==> 0 < |r.data| <= 32 && r.kind == kind
    decreases |bytes|
  {
    if |bytes| > 32 {
      ChunksSmall(kind, a + 32, bytes[32..]);
    }
  }

  // ----- what a loader makes of it -----

  /** The bytes at a, a+1, ..., over whatever was there. */
  function Placed(mem: map<nat, Byte>, a: nat, bytes: seq<Byte>): map<nat, Byte> {
    if bytes == [] then mem else
      var n := |bytes| - 1;
      Placed(mem, a, bytes[..n])[a + n := bytes[n]]
  }

  lemma {:induction false} PlacedReads(mem: map<nat, Byte>, a: nat, bytes: seq<Byte>, i: nat)
    ensures var m := Placed(mem, a, bytes);
            if a <= i < a + |bytes| then i in m && m[i] == bytes[i - a]
            else (i in m <==> i in mem) && (i in mem ==> m[i] == mem[i])
  {
    if bytes != [] {
      PlacedReads(mem, a, bytes[..|bytes| - 1], i);
    }
  }

  /** A record's data stored at its address; headers and terminations store nothing. */
  function Load(mem: map<nat, Byte>, r: Record): map<nat, Byte> {
    if 1 <= r.kind <= 3 then Placed(mem, r.address, r.data) else mem
  }

  function LoadAll(mem: map<nat, Byte>, rs: seq<Record>): map<nat, Byte>
    decreases |rs|
  {
    if rs == [] then mem else LoadAll(Load(mem, rs[0]), rs[1..])
  }

  /** Storing every record at its address gives exactly the bytes of the section from its org on. */
  lemma {:induction false} ChunksLoad(mem: map<nat, Byte>, kind: nat, a: nat, bytes: seq<Byte>)
    requires 1 <= kind <= 3
    ensures LoadAll(mem, Chunks(kind, a, bytes)) == Placed(mem, a, bytes)
    decreases |bytes|
  {
    hide Placed;
    if bytes == [] {
      NothingPlaced(mem, a);
    } else if |bytes| <= 32 {
      var r := Record(kind, a, bytes);
      assert [r][1..] == [];
      assert LoadAll(Load(mem, r), []) == Load(mem, r);
    } else {
      var r := Record(kind, a, bytes[..32]);
      ChunksLoad(Load(mem, r), kind, a + 32, bytes[32..]);
      PlacedTwice(mem, a, bytes[..32], bytes[32..]);
      assert bytes[..32] + bytes[32..] == bytes;
    }
  }

  lemma NothingPlaced(mem: map<nat, Byte>, a: nat)
    ensures Placed(mem, a, []) == mem
  {}

  lemma {:induction false} PlacedTwice(mem: map<nat, Byte>, a: nat, x: seq<Byte>, y: seq<Byte>)
    ensures Placed(Placed(mem, a, x), a + |x|, y) == Placed(mem, a, x + y)
    decreases |y|
  {
    if y == [] {
      assert x + y == x;
    } else {
      var n := |y| - 1;
      PlacedTwice(mem, a, x, y[..n]);
      assert (x + y)[..|x + y| - 1] == x + y[..n];
    }
  }

  lemma {:induction false} LoadAllAppend(mem: map<nat, Byte>, rs: seq<Record>, ss: seq<Record>)
    ensures LoadAll(mem, rs + ss) == LoadAll(LoadAll(mem, rs), ss)
    decreases |rs|
  {
    hide Load;
    if rs == [] {
      assert rs + ss == ss;
    } else {
      assert (rs + ss)[1..] == rs[1..] + ss;
      LoadAllAppend(Load(mem, rs[0]), rs[1..], ss);
    }
  }
}
