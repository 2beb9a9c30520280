/** The S-record writer of output_srec.c with its static buffer and counters. */
module SrecOutput {
  import opened Sections
  import opened Srec

  lemma {:induction false} EncodeAllAppend(rs: seq<Record>, ss: seq<Record>)
    requires forall r :: r in rs + ss ==> |r.data| <= 32 && r.kind < 10
    ensures forall r :: r in rs || r in ss ==> r in rs + ss
    ensures EncodeAll(rs + ss) == EncodeAll(rs) + EncodeAll(ss)
    decreases |rs|
  {
    hide Encode;
    if rs == [] {
      assert rs + ss == ss;
    } else {
      assert (rs + ss)[1..] == rs[1..] + ss;
      EncodeAllAppend(rs[1..], ss);
    }
  }

  lemma {:induction false} HexAppend(x: seq<Byte>, y: seq<Byte>)
    ensures HexBytes(x + y) == HexBytes(x) + HexBytes(y)
    decreases |x|
  {
    if x == [] {
      assert x + y == y;
    } else {
      assert (x + y)[1..] == x[1..] + y;
      HexAppend(x[1..], y);
    }
  }

  class SrecWriter {
    const srecfmt: nat
    const data: array<Byte>
    var dataSize: nat
    var srecPc: nat
    var pc: nat
    var out: string
    var errors: nat
    ghost var org: nat
    ghost var done: seq<Byte>
    ghost var base: string

    ghost predicate Valid()
      reads this
    {
      data.Length == 32 && dataSize <= 32 && 1 <= srecfmt <= 3
    }

    constructor (fmt: nat)
      requires 1 <= fmt <= 3
      ensures Valid() && fresh(data) && out == "" && srecfmt == fmt && errors == 0
    {
      srecfmt := fmt;
      data := new Byte[32](_ => 0);
      dataSize, srecPc, pc, out, errors := 0, 0, 0, "", 0;
      org, done, base := 0, [], "";
    }

    /** write_hex_byte. */
    method WriteHexByte(b: Byte)
      modifies this`out
      ensures out == old(out) + HexByte(b)
    {
      out := out + [HexChar(b / 16)];
      out := out + [HexChar(b % 16)];
    }

    /** A byte that counts for the checksum. */
    method WriteCounted(b: Byte, checksum: Byte, ghost start: string, ghost bs: seq<Byte>) returns (c: Byte)
      requires Sums(start, out, bs, checksum)
      modifies this`out
      ensures Sums(start, out, bs + [b], c)
    {
      SumsOn(start, out, bs, checksum, b);
      WriteHexByte(b);
      var sum: int := checksum as int + b as int;
      c := sum % 256;
    }

    /** The address bytes of a record of this type. */
    method WriteAddress(kind: nat, checksum: Byte, ghost start: string, ghost bs: seq<Byte>) returns (c: Byte)
      requires kind <= 3 && Sums(start, out, bs, checksum)
      modifies this`out
      ensures Sums(start, out, bs + AddressBytes(kind, if kind == 0 then 0 else srecPc), c)
    {
      hide Sums;
      var a: nat := if kind == 0 then 0 else srecPc;
      ghost var so := bs;
      c := checksum;
      if kind > 2 {
        c := WriteCounted(a / 0x100_0000 % 256, c, start, so);
        so := so + [a / 0x100_0000 % 256];
      }
      if kind > 1 {
        c := WriteCounted(a / 0x1_0000 % 256, c, start, so);
        so := so + [a / 0x1_0000 % 256];
      }
      c := WriteCounted(a / 256 % 256, c, start, so);
      c := WriteCounted(a % 256, c, start, so + [a / 256 % 256]);
      assert so + [a / 256 % 256] + [a % 256] == bs + AddressBytes(kind, a);
    }

    /** The data bytes of a record. */
    method WriteData(checksum: Byte, ghost start: string, ghost bs: seq<Byte>) returns (c: Byte)
      requires Valid() && Sums(start, out, bs, checksum)
      modifies this`out
      ensures Sums(start, out, bs + data[..dataSize], c)
    {
      hide Sums;
      c := checksum;
      assert bs + data[..0] == bs;
      for i := 0 to dataSize
        invariant Sums(start, out, bs + data[..i], c)
      {
        c := WriteCounted(data[i], c, start, bs + data[..i]);
        assert bs + data[..i] + [data[i]] == bs + data[..i + 1];
      }
    }

    /** The bytes of a record behind its type. */
    method WriteBody(kind: nat, ghost r: Record)
      requires Valid() && kind <= 3 && r == Record(kind, if kind == 0 then 0 else srecPc, data[..dataSize])
      modifies this`out
      ensures out == old(out) + HexBytes(Body(r)) + HexByte(Checksum(Body(r)))
    {
      hide Sums, HexBytes, Sum;
      ghost var start := out;
      NoSum(start);
      var count: Byte := dataSize + (if kind == 3 then 5 else if kind == 2 then 4 else 3);
      var c := WriteCounted(count, 0, start, []);
      c := WriteAddress(kind, c, start, [] + [count]);
      c := WriteData(c, start, [] + [count] + AddressBytes(kind, r.address));
      assert [] + [count] + AddressBytes(kind, r.address) + data[..dataSize] == Body(r);
      SumsAre(start, out, Body(r), c);
      WriteHexByte(255 - c);
    }

    /** write_data_buffer: a record with what the buffer holds, unless it is empty; then the address moves on. */
    method WriteDataBuffer(kind: nat)
      requires Valid() && kind <= 3
      modifies this`out, this`srecPc, this`dataSize, this`errors
      ensures Valid() && dataSize == 0 && srecPc == old(srecPc) + old(dataSize)
      ensures errors == old(errors) + if old(dataSize) > 0 && kind > 0 && old(srecPc) >= Limit(kind) then 1 else 0
      ensures out == old(out) + if old(dataSize) == 0 && kind != 0 then ""
                                else Encode(Record(kind, if kind == 0 then 0 else old(srecPc), old(data[..dataSize])))
    {
      hide Body, Checksum, HexBytes, HexByte;
      ghost var r := Record(kind, if kind == 0 then 0 else srecPc, data[..dataSize]);
      if dataSize > 0 || kind == 0 {
        if kind > 0 && srecPc >= Limit(kind) {
          errors := errors + 1;
        }
        out := out + "S";
        out := out + [HexChar(kind)];
        WriteBody(kind, r);
        out := out + "\n";
        Assembled(old(out), [HexChar(kind)], HexBytes(Body(r)), HexByte(Checksum(Body(r))));
      }
      srecPc := srecPc + dataSize;
      dataSize := 0;
    }

    // ----- one section -----

    ghost predicate Streaming()
      reads this, data
    {
      Valid() && Streams(srecfmt, org, base, done, srecPc, data[..dataSize], pc, out)
    }

    /** put_byte_in_buffer. */
    method PutByte(b: Byte)
      requires Streaming()
      modifies this, data
      ensures Streaming() && done == old(done) + [b] && org == old(org) && base == old(base)
    {
      hide Streams, Encode, Limit;
      StreamsFacts(srecfmt, org, base, done, srecPc, data[..dataSize], pc, out);
      ghost var tail := data[..dataSize];
      StreamsOn(srecfmt, org, base, done, srecPc, tail, pc, out, b);
      data[dataSize] := b;
      done := done + [b];
      dataSize := dataSize + 1;
      assert data[..dataSize] == tail + [b];
      if dataSize >= 32 {
        WriteDataBuffer(srecfmt);
        assert data[..dataSize] == [];
      }
      pc := pc + 1;
    }

    /** addralign: the padding before an atom, byte by byte. */
    method Addralign(a: Atom, pad: seq<Byte>)
      requires Streaming() && WellFormed(a, pad)
      modifies this, data
      ensures Streaming() && done == old(done) + Padding(a, pad, old(pc)) && org == old(org) && base == old(base)
    {
      hide Streaming, Balign;
      var n: int := Balign(pc, a.align);
      if n != 0 {
        var pat := pad;
        if AlignsOnly(a) {
          if a.content.maxAlign != 0 && n > a.content.maxAlign {
            return;
          }
          pat := a.content.fill;
        }
        PutPattern(pat, n);
      }
    }

    /** Zeros until the rest is a multiple of the pattern's length. */
    method PutZeros(total: nat, patlen: nat) returns (n: nat)
      requires Streaming() && patlen > 0
      modifies this, data
      ensures Streaming() && done == old(done) + Zeros(total % patlen) && org == old(org) && base == old(base)
      ensures n == total - total % patlen
    {
      hide Streaming;
      n := total;
      ghost var zeros: nat := 0;
      RestOf(total, patlen, 0);
      while Rest(n, patlen) != 0
        invariant Streaming() && org == old(org) && base == old(base)
        invariant n + zeros == total && zeros + Rest(n, patlen) == total % patlen
        invariant done == old(done) + Zeros(zeros)
        decreases n
      {
        RestOf(total, patlen, zeros);
        PutByte(0);
        n := n - 1;
        zeros := zeros + 1;
        RestOf(total, patlen, zeros);
      }
    }

    /** A run of bytes, one by one. */
    method PutOnce(pat: seq<Byte>)
      requires Streaming()
      modifies this, data
      ensures Streaming() && done == old(done) + pat && org == old(org) && base == old(base)
    {
      hide Streaming;
      for i := 0 to |pat|
        invariant Streaming() && org == old(org) && base == old(base) && done == old(done) + pat[..i]
      {
        PutByte(pat[i]);
      }
      assert pat[..|pat|] == pat;
    }

    /** Zeros and then the pattern; what the code does after that, for a rest, does not happen. */
    method PutPattern(pat: seq<Byte>, total: nat)
      requires Streaming() && pat != []
      modifies this, data
      ensures Streaming() && done == old(done) + Pattern(pat, total) && org == old(org) && base == old(base)
    {
      hide Streaming, Zeros;
      var n := PutZeros(total, |pat|);
      ghost var times: nat, start := 0, done;
      WholePart(total, |pat|, n);
      while n >= |pat|
        invariant Streaming() && org == old(org) && base == old(base)
        invariant n == Times(|pat|, total / |pat| - times) && times <= total / |pat|
        invariant done == start + Repeat(pat, times)
        decreases n
      {
        PutOnce(pat);
        OneTimeLess(|pat|, total / |pat| - times);
        n := n - |pat|;
        times := times + 1;
      }
      NoTimesLeft(|pat|, total / |pat| - times);
    }

    /** The bytes of an atom itself. */
    method PutContent(a: Atom)
      requires Streaming()
      modifies this, data
      ensures Streaming() && done == old(done) + ContentBytes(a) && org == old(org) && base == old(base)
    {
      hide Streaming;
      match a.content {
        case Data(bytes) =>
          PutOnce(bytes);
        case Space(space, fill, _) =>
          for i := 0 to space
            invariant Streaming() && org == old(org) && base == old(base) && done == old(done) + Repeat(fill, i)
          {
            PutOnce(fill);
          }
        case NoBytes =>
      }
    }

    /** The S0 record with the section's name. */
    method WriteHeader(s: Section)
      requires Valid() && dataSize == 0
      modifies this, data
      ensures Valid() && dataSize == 0 && out == old(out) + Encode(Header(s))
    {
      hide Encode;
      while dataSize < |s.name| && dataSize < 32
        invariant Valid() && dataSize <= |s.name| && out == old(out) && data[..dataSize] == s.name[..dataSize]
        decreases 32 - dataSize
      {
        data[dataSize] := s.name[dataSize];
        dataSize := dataSize + 1;
      }
      assert data[..dataSize] == Header(s).data;
      WriteDataBuffer(0);
    }

    /** The atoms of a section with their padding. */
    method PutAtoms(s: Section)
      requires Streaming() && done == [] && pc == s.org && org == s.org && AllWellFormed(s.atoms, s.pad)
      modifies this, data
      ensures Streaming() && done == Bytes(s.atoms, s.pad, s.org) && org == s.org && base == old(base)
    {
      hide Streams, Bytes, Padding;
      var k := 0;
      assert s.atoms[0..] == s.atoms;
      while k < |s.atoms|
        invariant 0 <= k <= |s.atoms| && Streaming() && org == s.org && base == old(base)
        invariant AllWellFormed(s.atoms[k..], s.pad) && pc == s.org + |done|
        invariant done + Bytes(s.atoms[k..], s.pad, pc) == Bytes(s.atoms, s.pad, s.org)
      {
        BytesStep(s.atoms[k..], s.pad, pc);
        assert s.atoms[k..][0] == s.atoms[k] && s.atoms[k..][1..] == s.atoms[k + 1..];
        Addralign(s.atoms[k], s.pad);
        PutContent(s.atoms[k]);
        StreamsFacts(srecfmt, org, base, done, srecPc, data[..dataSize], pc, out);
        k := k + 1;
      }
      BytesStep(s.atoms[k..], s.pad, pc);
    }

    /** One section: the header record with its name and the data records. */
    method WriteSection(s: Section)
      requires Valid() && dataSize == 0 && AllWellFormed(s.atoms, s.pad)
      modifies this, data
      ensures Valid() && dataSize == 0
      ensures out == old(out) + Encode(Header(s)) + ChunkText(srecfmt, s.org, Bytes(s.atoms, s.pad, s.org))
    {
      hide Encode, ChunkText, Streams, Bytes, AllWellFormed;
      WriteHeader(s);
      pc := s.org;
      srecPc := pc;
      org, done, base := s.org, [], out;
      StreamsBegin(srecfmt, org, base);
      assert data[..dataSize] == [];
      PutAtoms(s);
      StreamsFacts(srecfmt, org, base, done, srecPc, data[..dataSize], pc, out);
      StreamsEnd(srecfmt, org, base, done, srecPc, data[..dataSize], pc, out);
      WriteDataBuffer(srecfmt);
    }

    /** The S7, S8 or S9 record with the start address. */
    method WriteTermination(startAddr: nat)
      requires Valid() && dataSize == 0
      modifies this`out, this`errors, this`srecPc, this`dataSize
      ensures Valid() && dataSize == 0 && out == old(out) + Encode(Termination(srecfmt, startAddr))
      ensures errors == old(errors) + if startAddr >= Limit(srecfmt) then 1 else 0
    {
      hide HexBytes, Body, Checksum, AddressBytes;
      if startAddr >= Limit(srecfmt) {
        errors := errors + 1;
      }
      out := out + "S";
      out := out + [HexChar(10 - srecfmt)];
      srecPc := startAddr;
      assert data[..dataSize] == [];
      SameBody(srecfmt, startAddr);
      WriteBody(srecfmt, Record(srecfmt, startAddr, []));
      out := out + "\n";
      ghost var r := Termination(srecfmt, startAddr);
      Assembled(old(out), [HexChar(10 - srecfmt)], HexBytes(Body(r)), HexByte(Checksum(Body(r))));
    }

    /** write_output: every section, then the termination; without sections nothing. */
    method WriteOutput(sections: seq<Section>, startAddr: nat)
      requires Valid() && dataSize == 0 && out == ""
      requires forall s :: s in sections ==> AllWellFormed(s.atoms, s.pad)
      modifies this, data
      ensures out == Output(srecfmt, sections, startAddr)
    {
      hide Encode, ChunkText, AllWellFormed, Bytes;
      if |sections| == 0 {
        return;
      }
      for k := 0 to |sections|
        invariant Valid() && dataSize == 0
        invariant out == SectionsText(srecfmt, sections[..k])
      {
        assert sections[..k + 1][..k] == sections[..k] && sections[k] in sections;
        WriteSection(sections[k]);
      }
      assert sections[..|sections|] == sections;
      WriteTermination(startAddr);
    }
  }

  function Termination(fmt: nat, startAddr: nat): Record
    requires 1 <= fmt <= 3
  {
    Record(10 - fmt, startAddr, [])
  }

  lemma SameBody(fmt: nat, a: nat)
    requires 1 <= fmt <= 3
    ensures Body(Termination(fmt, a)) == Body(Record(fmt, a, []))
  {}

  ghost function SectionText(fmt: nat, s: Section): string
    requires fmt < 10 && AllWellFormed(s.atoms, s.pad)
  {
    Encode(Header(s)) + ChunkText(fmt, s.org, Bytes(s.atoms, s.pad, s.org))
  }

  ghost function SectionsText(fmt: nat, sections: seq<Section>): string
    requires fmt < 10 && forall s :: s in sections ==> AllWellFormed(s.atoms, s.pad)
  {
    if sections == [] then "" else
      var n := |sections| - 1;
      SectionsText(fmt, sections[..n]) + SectionText(fmt, sections[n])
  }

  ghost function Output(fmt: nat, sections: seq<Section>, startAddr: nat): string
    requires 1 <= fmt <= 3 && forall s :: s in sections ==> AllWellFormed(s.atoms, s.pad)
  {
    if sections == [] then "" else SectionsText(fmt, sections) + Encode(Termination(fmt, startAddr))
  }

  /** The S0 record: at most 32 characters of the section's name. */
  function Header(s: Section): Record {
    Record(0, 0, if |s.name| <= 32 then s.name else s.name[..32])
  }

  lemma BytesStep(atoms: seq<Atom>, pad: seq<Byte>, pc: nat)
    requires AllWellFormed(atoms, pad)
    ensures atoms == [] ==> Bytes(atoms, pad, pc) == []
    ensures atoms != [] ==>
      WellFormed(atoms[0], pad) && AllWellFormed(atoms[1..], pad)
      && Bytes(atoms, pad, pc) == Padding(atoms[0], pad, pc) + ContentBytes(atoms[0])
           + Bytes(atoms[1..], pad, pc + |Padding(atoms[0], pad, pc) + ContentBytes(atoms[0])|)
  {}

  lemma Assembled(o: string, k: string, body: string, sum: string)
    ensures o + "S" + k + body + sum + "\n" == o + ("S" + k + body + sum + "\n")
  {}

  /** bs has been written after start, and checksum is its sum so far. */
  ghost predicate Sums(start: string, out: string, bs: seq<Byte>, checksum: Byte) {
    out == start + HexBytes(bs) && checksum == Sum(bs) % 256
  }

  lemma SumsOn(start: string, out: string, bs: seq<Byte>, checksum: Byte, b: Byte)
    requires Sums(start, out, bs, checksum)
    ensures Sums(start, out + HexByte(b), bs + [b], (checksum as int + b as int) % 256)
  {
    hide HexBytes, Sum, HexByte;
    HexSnoc(bs, b);
    SumSnoc(bs, b);
    ModAdd(Sum(bs), b);
  }

  lemma ModAdd(x: nat, b: nat)
    ensures (x % 256 + b) % 256 == (x + b) % 256
  {}

  lemma NoSum(start: string)
    ensures Sums(start, start, [], 0)
  {}

  lemma SumsAre(start: string, out: string, bs: seq<Byte>, c: Byte)
    requires Sums(start, out, bs, c)
    ensures out == start + HexBytes(bs) && 255 - c == Checksum(bs)
  {}

  /** The bytes done since org are in records of 32, but for the last ones, which are in the buffer; the address of
      the next record and the buffer's size add up to the program counter. */
  ghost predicate Streams(fmt: nat, org: nat, base: string, done: seq<Byte>, srecPc: nat, buffer: seq<Byte>, pc: nat, out: string) {
    && 1 <= fmt <= 3 && |buffer| < 32 && pc == org + |done| && srecPc + |buffer| == pc
    && org <= srecPc && (srecPc - org) % 32 == 0 && buffer == done[srecPc - org..]
    && out == base + ChunkText(fmt, org, done[..srecPc - org])
  }

  lemma StreamsFacts(fmt: nat, org: nat, base: string, done: seq<Byte>, srecPc: nat, buffer: seq<Byte>, pc: nat, out: string)
    requires Streams(fmt, org, base, done, srecPc, buffer, pc, out)
    ensures |buffer| < 32 && pc == org + |done| && srecPc + |buffer| == pc
  {}

  /** One more byte, and a record when the buffer is full. */
  lemma StreamsOn(fmt: nat, org: nat, base: string, done: seq<Byte>, srecPc: nat, buffer: seq<Byte>, pc: nat, out: string, b: Byte)
    requires Streams(fmt, org, base, done, srecPc, buffer, pc, out)
    ensures |buffer| < 31 ==> Streams(fmt, org, base, done + [b], srecPc, buffer + [b], pc + 1, out)
    ensures |buffer| == 31 ==>
              Streams(fmt, org, base, done + [b], srecPc + 32, [], pc + 1, out + Encode(Record(fmt, srecPc, buffer + [b])))
  {
    hide ChunkText, Encode;
    var n := srecPc - org;
    assert (done + [b])[..n] == done[..n] && (done + [b])[n..] == buffer + [b];
    if |buffer| == 31 {
      ChunkTextSnoc(fmt, org, done[..n], buffer + [b]);
      assert (done + [b])[..n + 32] == done[..n] + (buffer + [b]);
      assert (done + [b])[n + 32..] == [];
      assert srecPc == org + n;
      assert out + Encode(Record(fmt, srecPc, buffer + [b])) == base + ChunkText(fmt, org, (done + [b])[..n + 32]);
      NextMultiple(n);
    }
  }

  lemma NextMultiple(n: nat)
    requires n % 32 == 0
    ensures (n + 32) % 32 == 0
  {}

  /** At the end, the record with the rest. */
  lemma StreamsEnd(fmt: nat, org: nat, base: string, done: seq<Byte>, srecPc: nat, buffer: seq<Byte>, pc: nat, out: string)
    requires Streams(fmt, org, base, done, srecPc, buffer, pc, out)
    ensures out + (if buffer == [] then "" else Encode(Record(fmt, srecPc, buffer))) == base + ChunkText(fmt, org, done)
  {
    hide ChunkText, Encode;
    var n := srecPc - org;
    assert done == done[..n] + buffer;
    if buffer != [] {
      ChunkTextSnoc(fmt, org, done[..n], buffer);
      assert srecPc == org + n;
      assert out + Encode(Record(fmt, srecPc, buffer)) == base + ChunkText(fmt, org, done);
    } else {
      assert done[..n] == done && out + "" == out;
    }
  }

  lemma StreamsBegin(fmt: nat, org: nat, base: string)
    requires 1 <= fmt <= 3
    ensures Streams(fmt, org, base, [], org, [], org, base)
  {
    var none: seq<Byte> := [];
    assert none[..0] == [];
  }

  ghost function ChunkText(kind: nat, a: nat, bytes: seq<Byte>): string
    requires kind < 10
  {
    ChunksSmall(kind, a, bytes);
    EncodeAll(Chunks(kind, a, bytes))
  }

  lemma ChunkTextSnoc(kind: nat, a: nat, bytes: seq<Byte>, last: seq<Byte>)
    requires kind < 10 && |bytes| % 32 == 0 && 0 < |last| <= 32
    ensures ChunkText(kind, a, bytes + last) == ChunkText(kind, a, bytes) + Encode(Record(kind, a + |bytes|, last))
  {
    hide Encode, Chunks;
    ChunksSnoc(kind, a, bytes, last);
    ChunksSmall(kind, a, bytes);
    ChunksSmall(kind, a, bytes + last);
    var r := Record(kind, a + |bytes|, last);
    EncodeAllAppend(Chunks(kind, a, bytes), [r]);
    assert [r][1..] == [];
    assert EncodeAll([r]) == Encode(r);
  }

  // ----- counting repetitions -----

  function Rest(n: nat, m: nat): nat
    requires m > 0
  {
    n % m
  }

  function Times(m: nat, k: int): int {
    m * k
  }

  /** As long as there is a rest, taking one off reduces it by one. */
  lemma RestOf(total: nat, m: nat, zeros: nat)
    requires m > 0 && zeros <= total % m
    ensures total % m <= total && Rest(total - zeros, m) == total % m - zeros
  {
    var q := total / m;
    assert total == m * q + total % m;
    SmallRest(m, q, total % m - zeros);
  }

  lemma SmallRest(m: nat, q: nat, r: nat)
    requires r < m
    ensures (m * q + r) % m == r
  {
    var x := m * q + r;
    assert x == m * (x / m) + x % m;
    assert m * (q - x / m) == x % m - r;
    ProductBounds(m, q - x / m);
  }

  lemma WholePart(total: nat, m: nat, n: nat)
    requires m > 0 && n == total - total % m
    ensures n == Times(m, total / m)
  {}

  lemma OneTimeLess(m: nat, k: int)
    requires m > 0 && Times(m, k) >= m
    ensures Times(m, k) - m == Times(m, k - 1) && k >= 1
  {
    ProductBounds(m, k);
  }

  lemma NoTimesLeft(m: nat, k: int)
    requires m > 0 && 0 <= k && Times(m, k) < m
    ensures k == 0
  {
    ProductBounds(m, k);
  }

  // ----- what the output means -----

  ghost function Records(fmt: nat, sections: seq<Section>): seq<Record>
    requires forall s :: s in sections ==> AllWellFormed(s.atoms, s.pad)
  {
    if sections == [] then [] else
      var n := |sections| - 1;
      var s := sections[n];
      Records(fmt, sections[..n]) + [Header(s)] + Chunks(fmt, s.org, Bytes(s.atoms, s.pad, s.org))
  }

  /** Memory after loading: the bytes of each section at its org, later sections over earlier ones. */
  ghost function Image(sections: seq<Section>): map<nat, Byte>
    requires forall s :: s in sections ==> AllWellFormed(s.atoms, s.pad)
  {
    if sections == [] then map[] else
      var n := |sections| - 1;
      var s := sections[n];
      Placed(Image(sections[..n]), s.org, Bytes(s.atoms, s.pad, s.org))
  }

  /** Every section ends within the addresses of the format. */
  ghost predicate InRange(fmt: nat, sections: seq<Section>)
    requires forall s :: s in sections ==> AllWellFormed(s.atoms, s.pad)
  {
    forall s :: s in sections ==> s.org + |Bytes(s.atoms, s.pad, s.org)| <= Limit(fmt)
  }

  lemma {:induction false} RecordsText(fmt: nat, sections: seq<Section>)
    requires 1 <= fmt <= 3 && (forall s :: s in sections ==> AllWellFormed(s.atoms, s.pad)) && InRange(fmt, sections)
    ensures AllFit(Records(fmt, sections)) && EncodeAll(Records(fmt, sections)) == SectionsText(fmt, sections)
  {
    hide Encode, Bytes, Chunks, AllWellFormed;
    if sections != [] {
      var n := |sections| - 1;
      var s := sections[n];
      RecordsText(fmt, sections[..n]);
      assert s in sections;
      SectionRecordsText(fmt, Records(fmt, sections[..n]), s);
    }
  }

  lemma SectionRecordsText(fmt: nat, before: seq<Record>, s: Section)
    requires 1 <= fmt <= 3 && AllWellFormed(s.atoms, s.pad) && AllFit(before)
    requires s.org + |Bytes(s.atoms, s.pad, s.org)| <= Limit(fmt)
    ensures var rs := before + [Header(s)] + Chunks(fmt, s.org, Bytes(s.atoms, s.pad, s.org));
            AllFit(rs) && EncodeAll(rs) == EncodeAll(before) + SectionText(fmt, s)
  {
    hide Encode, Bytes, Chunks, AllWellFormed;
    var chunks := Chunks(fmt, s.org, Bytes(s.atoms, s.pad, s.org));
    ChunksFit(fmt, s.org, Bytes(s.atoms, s.pad, s.org));
    EncodeAllAppend(before, [Header(s)]);
    EncodeAllAppend(before + [Header(s)], chunks);
    assert [Header(s)][1..] == [];
    assert EncodeAll([Header(s)]) == Encode(Header(s));
  }

  lemma {:induction false} RecordsLoad(fmt: nat, sections: seq<Section>)
    requires 1 <= fmt <= 3 && forall s :: s in sections ==> AllWellFormed(s.atoms, s.pad)
    ensures LoadAll(map[], Records(fmt, sections)) == Image(sections)
  {
    hide Bytes, Chunks, Placed, AllWellFormed;
    if sections != [] {
      var n := |sections| - 1;
      var s := sections[n];
      RecordsLoad(fmt, sections[..n]);
      var bytes := Bytes(s.atoms, s.pad, s.org);
      LoadAllAppend(map[], Records(fmt, sections[..n]) + [Header(s)], Chunks(fmt, s.org, bytes));
      LoadAllAppend(map[], Records(fmt, sections[..n]), [Header(s)]);
      assert [Header(s)][1..] == [];
      assert LoadAll(Image(sections[..n]), [Header(s)]) == LoadAll(Load(Image(sections[..n]), Header(s)), []);
      ChunksLoad(Image(sections[..n]), fmt, s.org, bytes);
    }
  }

  /** Decoding the output gives well-formed records, of which the data records hold at most 32 bytes, and storing
      each record's data at its address gives exactly the memory image of the sections. */
  lemma OutputIsImage(fmt: nat, sections: seq<Section>, startAddr: nat)
    requires 1 <= fmt <= 3 && (forall s :: s in sections ==> AllWellFormed(s.atoms, s.pad)) && InRange(fmt, sections)
    requires startAddr < Limit(fmt)
    ensures var rs := Decode(Output(fmt, sections, startAddr));
            rs == Records(fmt, sections) + (if sections == [] then [] else [Termination(fmt, startAddr)]) && AllFit(rs)
            && LoadAll(map[], rs) == Image(sections)
  {
    if sections != [] { OutputDecoded(fmt, sections, startAddr); }
  }

  lemma OutputDecoded(fmt: nat, sections: seq<Section>, startAddr: nat)
    requires 1 <= fmt <= 3 && (forall s :: s in sections ==> AllWellFormed(s.atoms, s.pad)) && InRange(fmt, sections)
    requires startAddr < Limit(fmt) && sections != []
    ensures var rs := Decode(Output(fmt, sections, startAddr));
            rs == Records(fmt, sections) + [Termination(fmt, startAddr)] && AllFit(rs)
            && LoadAll(map[], rs) == Image(sections)
  {
    hide Encode, Records, Image, SectionsText, Decode;
    var last := Termination(fmt, startAddr);
    RecordsText(fmt, sections);
    RecordsLoad(fmt, sections);
    DecodeEncoded(Records(fmt, sections), Encode(last));
    DecodeOne(last, "");
    assert Encode(last) + "" == Encode(last);
    assert Decode("") == [] by { NothingDecoded(); }
    LoadAllAppend(map[], Records(fmt, sections), [last]);
    assert [last][1..] == [];
    assert LoadAll(Image(sections), [last]) == LoadAll(Load(Image(sections), last), []);
  }

  lemma NothingDecoded()
    ensures Decode("") == []
  {}
}
