/** S-records character by character, and the memory that they describe. */
module SrecMeaning {
  import opened Sections
  import opened Srec
  import opened SrecOutput

  // ----- the text of a record -----

  /** How many bytes the address of a record of this type has. */
  predicate HasAddressBytes(kind: nat, n: nat) {
    (kind in {0, 1, 5, 9} && n == 2) || (kind in {2, 8} && n == 3) || (kind in {3, 7} && n == 4)
  }

  ghost function Shifted(a: nat, n: nat): nat {
    if n == 0 then a else Shifted(a, n - 1) / 256
  }

  ghost function Total(bs: seq<Byte>): nat {
    if bs == [] then 0 else Total(bs[..|bs| - 1]) + bs[|bs| - 1]
  }

  /** Two digits for a byte, the high one first. */
  ghost predicate IsHex(t: string, b: Byte) {
    t == ["0123456789ABCDEF"[b / 16], "0123456789ABCDEF"[b % 16]]
  }

  /** The bytes of a record with n bytes of address: count, address with the highest byte first, data and a checksum
      that completes their sum to 0xFF. */
  ghost predicate AreRecordBytes(bs: seq<Byte>, n: nat, address: nat, data: seq<Byte>) {
    && |bs| == 1 + n + |data| + 1 && bs[0] == |bs| - 1
    && (forall k :: 1 <= k <= n ==> bs[k] == Shifted(address, n - k) % 256)
    && bs[1 + n..|bs| - 1] == data && Total(bs) % 256 == 0xff
  }

  /** S, the type digit, the bytes in hexadecimal and the end of the line. */
  ghost predicate IsRecordText(t: string, kind: nat, n: nat, address: nat, data: seq<Byte>) {
    exists bs :: AreRecordBytes(bs, n, address, data) && kind < 10
      && |t| == 2 + 2 * |bs| + 1 && t[0] == 'S' && t[1] == "0123456789"[kind] && t[|t| - 1] == '\n'
      && forall i :: 0 <= i < |bs| ==> IsHex(t[2 + 2 * i..4 + 2 * i], bs[i])
  }

  lemma HexMeans(b: Byte)
    ensures IsHex(HexByte(b), b)
  {}

  lemma {:induction false} HexAt(bs: seq<Byte>, i: nat)
    requires i < |bs|
    ensures |HexBytes(bs)| == 2 * |bs| && IsHex(HexBytes(bs)[2 * i..2 * i + 2], bs[i])
  {
    hide HexByte, IsHex;
    HexMeans(bs[0]);
    HexSize(bs[0]);
    HexLength(bs[1..]);
    if i > 0 {
      HexAt(bs[1..], i - 1);
      PairBehind(HexByte(bs[0]), HexBytes(bs[1..]), i - 1);
    } else {
      assert HexBytes(bs)[0..2] == HexByte(bs[0]);
    }
  }

  lemma PairBehind(first: string, rest: string, i: nat)
    requires |first| == 2 && 2 * i + 2 <= |rest|
    ensures (first + rest)[2 * (i + 1)..2 * (i + 1) + 2] == rest[2 * i..2 * i + 2]
  {}

  lemma HexSize(b: Byte)
    ensures |HexByte(b)| == 2
  {}

  lemma {:induction false} HexLength(bs: seq<Byte>)
    ensures |HexBytes(bs)| == 2 * |bs|
  {
    if bs != [] { HexLength(bs[1..]); }
  }

  lemma {:induction false} TotalIsSum(bs: seq<Byte>)
    ensures Total(bs) == Sum(bs)
  {
    if bs != [] {
      var m := |bs| - 1;
      TotalIsSum(bs[..m]);
      SumSnoc(bs[..m], bs[m]);
      assert bs == bs[..m] + [bs[m]];
    }
  }

  lemma AddressMeans(kind: nat, a: nat, n: nat)
    requires HasAddressBytes(kind, n)
    ensures |AddressBytes(kind, a)| == n
    ensures forall k :: 0 <= k < n ==> AddressBytes(kind, a)[k] == Shifted(a, n - 1 - k) % 256
  {
    assert Shifted(a, 0) == a && Shifted(a, 1) == a / 256;
    assert Shifted(a, 2) == a / 256 / 256 == a / 0x1_0000;
    assert Shifted(a, 3) == a / 0x1_0000 / 256 == a / 0x100_0000;
  }

  /** The text of a record is what the format says. */
  lemma EncodeMeans(r: Record, n: nat)
    requires |r.data| <= 32 && HasAddressBytes(r.kind, n)
    ensures IsRecordText(Encode(r), r.kind, n, r.address, r.data)
  {
    hide HexBytes, AddressBytes, IsHex, Sum, Total;
    var bs := Body(r) + [Checksum(Body(r))];
    AddressMeans(r.kind, r.address, n);
    ChecksumCompletes(Body(r));
    TotalIsSum(bs);
    HexSnoc(Body(r), Checksum(Body(r)));
    HexLength(bs);
    var t := Encode(r);
    assert t == "S" + [HexChar(r.kind)] + HexBytes(bs) + "\n";
    forall i | 0 <= i < |bs|
      ensures IsHex(t[2 + 2 * i..4 + 2 * i], bs[i])
    {
      HexAt(bs, i);
      assert t[2 + 2 * i..4 + 2 * i] == HexBytes(bs)[2 * i..2 * i + 2];
    }
    assert bs[1 + n..|bs| - 1] == r.data;
    assert AreRecordBytes(bs, n, r.address, r.data);
  }

  // ----- the file -----

  /** The header of a section: type 0, and the first 32 characters of the name or fewer. */
  lemma HeaderMeans(s: Section)
    ensures Header(s).kind == 0 && Header(s).address == 0 && Header(s).data <= s.name
    ensures |Header(s).data| == 32 || Header(s).data == s.name
  {}

  ghost predicate IsChunk(r: Record, kind: nat, a: nat, bytes: seq<Byte>, k: nat) {
    && 32 * k < |bytes|
    && r == Record(kind, a + 32 * k, bytes[32 * k..if 32 * k + 32 <= |bytes| then 32 * k + 32 else |bytes|])
  }

  /** Record k of a section's data is the k-th run of 32 bytes at its address, and there are as many as needed. */
  lemma {:induction false} ChunksMean(kind: nat, a: nat, bytes: seq<Byte>)
    ensures var rs := Chunks(kind, a, bytes);
            32 * |rs| < |bytes| + 32 <= 32 * |rs| + 32 && forall k: nat :: k < |rs| ==> IsChunk(rs[k], kind, a, bytes, k)
    decreases |bytes|
  {
    if |bytes| > 32 {
      var rs := Chunks(kind, a, bytes);
      ChunksMean(kind, a + 32, bytes[32..]);
      forall k: nat | k < |rs|
        ensures IsChunk(rs[k], kind, a, bytes, k)
      {
        if k > 0 { assert IsChunk(rs[k], kind, a + 32, bytes[32..], k - 1); }
      }
    }
  }

  /** Where the records of section k begin. */
  ghost function Position(fmt: nat, sections: seq<Section>, k: nat): nat
    requires k <= |sections| && forall s :: s in sections ==> AllWellFormed(s.atoms, s.pad)
  {
    if k == 0 then 0 else
      var s := sections[k - 1];
      Position(fmt, sections, k - 1) + 1 + |Chunks(fmt, s.org, Bytes(s.atoms, s.pad, s.org))|
  }

  ghost predicate SectionAt(rs: seq<Record>, fmt: nat, s: Section, i: nat, j: nat)
    requires AllWellFormed(s.atoms, s.pad)
  {
    i < j <= |rs| && rs[i] == Header(s) && rs[i + 1..j] == Chunks(fmt, s.org, Bytes(s.atoms, s.pad, s.org))
  }

  lemma LastSection(fmt: nat, before: seq<Record>, s: Section)
    requires AllWellFormed(s.atoms, s.pad)
    ensures var chunks := Chunks(fmt, s.org, Bytes(s.atoms, s.pad, s.org));
            SectionAt(before + [Header(s)] + chunks, fmt, s, |before|, |before| + 1 + |chunks|)
  {
    hide Bytes, Chunks, Header, AllWellFormed;
  }

  lemma {:induction false} RecordsCount(fmt: nat, sections: seq<Section>)
    requires forall s :: s in sections ==> AllWellFormed(s.atoms, s.pad)
    ensures |Records(fmt, sections)| == Position(fmt, sections, |sections|)
  {
    hide Bytes, Chunks, Header, AllWellFormed;
    if sections != [] {
      var n := |sections| - 1;
      RecordsCount(fmt, sections[..n]);
      PositionPrefix(fmt, sections, n, n);
    }
  }

  /** The records are, section by section, the header and the data records. */
  lemma {:induction false} RecordsMean(fmt: nat, sections: seq<Section>, k: nat)
    requires k < |sections| && forall s :: s in sections ==> AllWellFormed(s.atoms, s.pad)
    ensures AllWellFormed(sections[k].atoms, sections[k].pad)
    ensures SectionAt(Records(fmt, sections), fmt, sections[k], Position(fmt, sections, k), Position(fmt, sections, k + 1))
    ensures |Records(fmt, sections)| == Position(fmt, sections, |sections|)
    decreases |sections|
  {
    hide Bytes, Chunks, Header, AllWellFormed, SectionAt, Position;
    var n := |sections| - 1;
    assert sections[k] in sections && sections[n] in sections;
    RecordsCount(fmt, sections);
    RecordsCount(fmt, sections[..n]);
    PositionPrefix(fmt, sections, n, n);
    var before := Records(fmt, sections[..n]);
    if k < n {
      RecordsMean(fmt, sections[..n], k);
      PositionPrefix(fmt, sections, n, k);
      PositionPrefix(fmt, sections, n, k + 1);
      StillAt(before, Records(fmt, sections), fmt, sections[k], Position(fmt, sections, k), Position(fmt, sections, k + 1));
    } else {
      LastSection(fmt, before, sections[n]);
      PositionStep(fmt, sections, n);
    }
  }

  lemma PositionStep(fmt: nat, sections: seq<Section>, k: nat)
    requires k < |sections| && forall s :: s in sections ==> AllWellFormed(s.atoms, s.pad)
    ensures AllWellFormed(sections[k].atoms, sections[k].pad)
    ensures var s := sections[k];
            Position(fmt, sections, k + 1) == Position(fmt, sections, k) + 1 + |Chunks(fmt, s.org, Bytes(s.atoms, s.pad, s.org))|
  {
    hide Bytes, Chunks, AllWellFormed;
    assert sections[k] in sections;
  }

  lemma StillAt(x: seq<Record>, y: seq<Record>, fmt: nat, s: Section, i: nat, j: nat)
    requires AllWellFormed(s.atoms, s.pad) && SectionAt(x, fmt, s, i, j) && x <= y
    ensures SectionAt(y, fmt, s, i, j)
  {
    hide Bytes, Chunks, Header, AllWellFormed;
    assert y[i + 1..j] == x[i + 1..j];
  }

  lemma {:induction false} PositionPrefix(fmt: nat, sections: seq<Section>, m: nat, k: nat)
    requires k <= m <= |sections| && forall s :: s in sections ==> AllWellFormed(s.atoms, s.pad)
    ensures Position(fmt, sections[..m], k) == Position(fmt, sections, k)
  {
    hide Bytes, Chunks, AllWellFormed;
    if k > 0 { PositionPrefix(fmt, sections, m, k - 1); }
  }

  /** The type of the last record for S19, S28 and S37. */
  function LastKind(fmt: nat): nat {
    if fmt == 1 then 9 else if fmt == 2 then 8 else 7
  }

  /** The file ends with the start address. */
  lemma StartAddressIsLast(fmt: nat, sections: seq<Section>, startAddr: nat)
    requires 1 <= fmt <= 3 && (forall s :: s in sections ==> AllWellFormed(s.atoms, s.pad)) && InRange(fmt, sections)
    requires startAddr < Limit(fmt)
    ensures var rs := Decode(Output(fmt, sections, startAddr));
            if sections == [] then rs == [] else
              rs != [] && rs[|rs| - 1] == Record(LastKind(fmt), startAddr, [])
  {
    hide Decode, Output, Records;
    OutputIsImage(fmt, sections, startAddr);
    if sections == [] { NoRecords(fmt); }
  }

  lemma NoRecords(fmt: nat)
    ensures Records(fmt, []) == []
  {}

  /** Section k has a byte for address i, and no later section has. */
  ghost predicate LastAt(sections: seq<Section>, i: nat, k: nat)
    requires forall s :: s in sections ==> AllWellFormed(s.atoms, s.pad)
  {
    && k < |sections| && HasByte(sections[k], i) && forall j :: k < j < |sections| ==> !HasByte(sections[j], i)
  }

  ghost predicate HasByte(s: Section, i: nat)
    requires AllWellFormed(s.atoms, s.pad)
  {
    s.org <= i < s.org + |Bytes(s.atoms, s.pad, s.org)|
  }

  lemma OneMore(sections: seq<Section>, i: nat)
    requires (forall s :: s in sections ==> AllWellFormed(s.atoms, s.pad)) && sections != []
    ensures var n := |sections| - 1;
      && AllWellFormed(sections[n].atoms, sections[n].pad)
      && (forall k: nat :: LastAt(sections, i, k)
                      <==> if HasByte(sections[n], i) then k == n else LastAt(sections[..n], i, k))
      && (forall k: nat :: LastAt(sections[..n], i, k) ==> k < n && sections[..n][k] == sections[k] && HasByte(sections[k], i))
  {
    hide AllWellFormed, HasByte;
    var n := |sections| - 1;
    assert sections[n] in sections;
    assert forall k :: 0 <= k < n ==> sections[..n][k] == sections[k];
  }

  /** What is in memory after loading: at each address the byte of the last section that has one there. */
  lemma {:induction false} ImageMeans(sections: seq<Section>, i: nat)
    requires forall s :: s in sections ==> AllWellFormed(s.atoms, s.pad)
    ensures i in Image(sections) <==> exists k: nat :: LastAt(sections, i, k)
    ensures forall k: nat :: LastAt(sections, i, k) ==>
              var s := sections[k]; i in Image(sections) && Image(sections)[i] == Bytes(s.atoms, s.pad, s.org)[i - s.org]
  {
    hide Bytes, Placed, AllWellFormed, LastAt;
    if sections != [] {
      var n := |sections| - 1;
      var s := sections[n];
      OneMore(sections, i);
      ImageMeans(sections[..n], i);
      PlacedReads(Image(sections[..n]), s.org, Bytes(s.atoms, s.pad, s.org), i);
      assert HasByte(s, i) ==> LastAt(sections, i, n);
    } else {
      NoneLast(i);
    }
  }

  lemma NoneLast(i: nat)
    ensures forall k: nat :: !LastAt([], i, k)
  {}
}
