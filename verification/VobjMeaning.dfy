/** What the parts of an object file are, apart from the functions that the writer and the reader share. */
module VobjMeaning {
  import opened Sections
  import opened SectionMeaning
  import opened Vobj
  import opened VobjOutput

  // ----- relocations -----

  /** How many standard relocations come before number i of a list. */
  function StandardBefore(rs: seq<Reloc>, i: nat): nat
    requires i <= |rs|
  {
    if i == 0 then 0 else StandardBefore(rs, i - 1) + if 0 <= rs[i - 1].kind <= 16 then 1 else 0
  }

  /** How many come before atom k of a section; only data and space have relocations. */
  function RelocsBefore(atoms: seq<RelocAtom>, k: nat): nat
    requires k <= |atoms|
  {
    if k == 0 then 0 else
      RelocsBefore(atoms, k - 1)
      + if atoms[k - 1].atom.content.NoBytes? then 0 else StandardBefore(atoms[k - 1].relocs, |atoms[k - 1].relocs|)
  }

  /** Relocation i of atom k goes into the file. */
  predicate Goes(atoms: seq<RelocAtom>, k: nat, i: nat) {
    k < |atoms| && !atoms[k].atom.content.NoBytes? && i < |atoms[k].relocs| && 0 <= atoms[k].relocs[i].kind <= 16
  }

  function RelocNumber(atoms: seq<RelocAtom>, k: nat, i: nat): nat
    requires Goes(atoms, k, i)
  {
    RelocsBefore(atoms, k) + StandardBefore(atoms[k].relocs, i)
  }

  lemma {:induction false} LocatedPrefix(rs: seq<Reloc>, start: nat, symbols: seq<SourceSymbol>, i: nat)
    requires i <= |rs|
    ensures |Located(rs[..i], start, symbols)| == StandardBefore(rs, i)
    ensures Located(rs[..i], start, symbols) <= Located(rs, start, symbols)
    ensures i < |rs| && 0 <= rs[i].kind <= 16 ==>
              && StandardBefore(rs, i) < |Located(rs, start, symbols)|
              && Located(rs, start, symbols)[StandardBefore(rs, i)]
                 == rs[i].(offset := start + rs[i].offset, symbol := SymbolIndex(symbols, rs[i].symbol))
    decreases |rs| - i
  {
    if i == |rs| {
      assert rs[..i] == rs;
      LocatedCount(rs, start, symbols);
    } else {
      LocatedPrefix(rs, start, symbols, i + 1);
      assert rs[..i + 1][..i] == rs[..i];
    }
  }

  lemma {:induction false} LocatedCount(rs: seq<Reloc>, start: nat, symbols: seq<SourceSymbol>)
    ensures |Located(rs, start, symbols)| == StandardBefore(rs, |rs|)
  {
    if rs != [] {
      LocatedCount(rs[..|rs| - 1], start, symbols);
      BeforePrefix(rs, |rs| - 1, |rs| - 1);
    }
  }

  lemma {:induction false} BeforePrefix(rs: seq<Reloc>, n: nat, i: nat)
    requires i <= n <= |rs|
    ensures StandardBefore(rs[..n], i) == StandardBefore(rs, i)
  {
    if i > 0 { BeforePrefix(rs, n, i - 1); }
  }

  lemma {:induction false} AllLocatedPrefix(atoms: seq<RelocAtom>, symbols: seq<SourceSymbol>, k: nat)
    requires k <= |atoms|
    ensures |AllLocated(atoms[..k], symbols)| == RelocsBefore(atoms, k)
    ensures AllLocated(atoms[..k], symbols) <= AllLocated(atoms, symbols)
    decreases |atoms| - k
  {
    hide Located, StartOf, PlaceOf;
    AllLocatedCount(atoms, symbols, k);
    if k == |atoms| {
      assert atoms[..k] == atoms;
    } else {
      AllLocatedPrefix(atoms, symbols, k + 1);
      assert atoms[..k + 1][..k] == atoms[..k];
    }
  }

  lemma {:induction false} AllLocatedCount(atoms: seq<RelocAtom>, symbols: seq<SourceSymbol>, k: nat)
    requires k <= |atoms|
    ensures |AllLocated(atoms[..k], symbols)| == RelocsBefore(atoms, k)
  {
    hide Located, StartOf, PlaceOf;
    if k > 0 {
      AllLocatedCount(atoms, symbols, k - 1);
      assert atoms[..k][..k - 1] == atoms[..k - 1];
      LocatedCount(atoms[k - 1].relocs, StartOf(atoms[k - 1], PlaceOf(atoms[..k - 1], 0)), symbols);
    }
  }

  lemma {:induction false} PlacesAgree(atoms: seq<RelocAtom>, k: nat)
    requires k <= |atoms|
    ensures PlaceOf(atoms[..k], 0) == Place(Plain(atoms)[..k], 0)
  {
    hide Pcalign, ContentBytes;
    if k > 0 {
      PlacesAgree(atoms, k - 1);
      assert atoms[..k][..k - 1] == atoms[..k - 1];
      PlaceStep(Plain(atoms), 0, k - 1);
    }
  }

  lemma {:induction false} PlacesGrow(atoms: seq<RelocAtom>, k: nat, l: nat)
    requires k <= l <= |atoms|
    ensures PlaceOf(atoms[..k], 0) <= PlaceOf(atoms[..l], 0)
  {
    hide Pcalign, ContentBytes;
    if k < l {
      PlacesGrow(atoms, k, l - 1);
      assert atoms[..l][..l - 1] == atoms[..l - 1];
      PlaceNotBack(atoms[l - 1].atom, PlaceOf(atoms[..l - 1], 0));
    }
  }

  lemma PlaceNotBack(a: Atom, pc: nat)
    ensures pc <= Pcalign(a, pc)
  {}

  /** The bytes in the file go to the end of the last atom that has data, relocations or a fill that is not zero. */
  lemma {:induction false} SizeCovers(atoms: seq<RelocAtom>, k: nat)
    requires k < |atoms| && InFile(atoms[k])
    ensures PlaceOf(atoms[..k + 1], 0) <= DataSize(atoms)
  {
    hide PlaceOf, InFile;
    var n := |atoms| - 1;
    if InFile(atoms[n]) {
      PlacesGrow(atoms, k + 1, n + 1);
      assert atoms[..n + 1] == atoms;
    } else {
      SizeCovers(atoms[..n], k);
      assert atoms[..n][..k + 1] == atoms[..k + 1];
    }
  }

  /** And no further. */
  lemma {:induction false} SizeIsEnd(atoms: seq<RelocAtom>)
    ensures DataSize(atoms) == 0 || exists k :: 0 <= k < |atoms| && InFile(atoms[k]) && DataSize(atoms) == PlaceOf(atoms[..k + 1], 0)
  {
    hide PlaceOf, InFile;
    if atoms != [] {
      var n := |atoms| - 1;
      if InFile(atoms[n]) {
        assert atoms[..n + 1] == atoms;
      } else {
        SizeIsEnd(atoms[..n]);
        if DataSize(atoms) != 0 {
          var k :| 0 <= k < |atoms[..n]| && InFile(atoms[..n][k]) && DataSize(atoms[..n]) == PlaceOf(atoms[..n][..k + 1], 0);
          assert atoms[..n][..k + 1] == atoms[..k + 1];
        }
      }
    }
  }

  /** The declared size of a section is the length of all its bytes. */
  lemma SizeIsLength(s: SourceSection)
    requires Writable(s)
    ensures PlaceOf(s.atoms, 0) == |Bytes(Plain(s.atoms), s.pad, 0)|
  {
    hide Contents, Writable;
    ContentsPlace(s, |s.atoms|);
    WholeContents(s);
    assert s.atoms[..|s.atoms|] == s.atoms;
  }

  /** Byte offset of the section is byte from of the atom, and so on for all bytes of the atom. */
  ghost predicate SameBytes(data: seq<Byte>, offset: int, content: seq<Byte>, from: int) {
    forall x :: 0 <= x < |content| ==> 0 <= x - from + offset < |data| && data[x - from + offset] == content[x]
  }

  ghost predicate NamesSymbol(index: int, file: seq<Symbol>, symbols: seq<SourceSymbol>, k: int) {
    0 <= k < |symbols| && SymValid(symbols[k]) ==> 1 <= index <= |file| && file[index - 1] == symbols[k].symbol
  }

  /** Where the contents of atom k lie in the file. */
  lemma AtomInFile(s: SourceSection, k: nat)
    requires Writable(s) && k < |s.atoms| && InFile(s.atoms[k])
    ensures var start := StartOf(s.atoms[k], PlaceOf(s.atoms[..k], 0));
            var content := ContentBytes(s.atoms[k].atom);
      && start + |content| <= |FileData(s)| && FileData(s)[start..start + |content|] == content
      && IsContent(content, s.atoms[k].atom) && AlignedFrom(s.atoms[k].atom, PlaceOf(s.atoms[..k], 0), start)
  {
    hide InFile, ContentBytes, Pcalign, Bytes, FileData, IsContent, AlignedFrom, WellFormed, Gap;
    var atoms := Plain(s.atoms);
    AtomPlaced(atoms, s.pad, 0, k);
    ContentIsMeant(s.atoms[k].atom);
    PlacesAgree(s.atoms, k);
    PlacesAgree(s.atoms, k + 1);
    PlaceStep(atoms, 0, k);
    SizeCovers(s.atoms, k);
    DeclaredSize(s);
    DataOfFile(s);
    var start := StartOf(s.atoms[k], PlaceOf(s.atoms[..k], 0));
    ContentUnique(Bytes(atoms, s.pad, 0)[start..start + |ContentBytes(s.atoms[k].atom)|], ContentBytes(s.atoms[k].atom), s.atoms[k].atom);
  }

  lemma ContentUnique(s: seq<Byte>, t: seq<Byte>, a: Atom)
    requires IsContent(s, a) && IsContent(t, a)
    ensures s == t
  {}

  lemma DataOfFile(s: SourceSection)
    requires Writable(s)
    ensures FileData(s) <= Bytes(Plain(s.atoms), s.pad, 0)
  {}

  /** Every standard relocation of every atom is in the file, at its number in the order of the list: its offset is
      where the byte it speaks of lies in the section's contents, its symbol number names its symbol among the symbols
      of the file, and the rest is as it was. */
  lemma RelocationMeans(s: SourceSection, symbols: seq<SourceSymbol>, k: nat, i: nat)
    requires Writable(s) && Goes(s.atoms, k, i)
    ensures var file := SectionOf(s, symbols);
            var m := RelocNumber(s.atoms, k, i);
            var r := s.atoms[k].relocs[i];
      && m < |file.relocs|
      && file.relocs[m] == r.(offset := file.relocs[m].offset, symbol := file.relocs[m].symbol)
      && SameBytes(file.data, file.relocs[m].offset, ContentBytes(s.atoms[k].atom), r.offset)
      && AlignedFrom(s.atoms[k].atom, PlaceOf(s.atoms[..k], 0), file.relocs[m].offset - r.offset)
      && NamesSymbol(file.relocs[m].symbol, ValidSymbols(symbols), symbols, r.symbol)
  {
    hide Writable, ContentBytes, AlignedFrom, IsContent, FileData, PlaceOf, DataSize, Pcalign, SymValid;
    var a := s.atoms[k];
    var r := a.relocs[i];
    AtomInFile(s, k);
    RelocListed(s.atoms, symbols, k, i);
    if 0 <= r.symbol < |symbols| && SymValid(symbols[r.symbol]) { IndexNames(symbols, r.symbol); }
  }

  lemma RelocListed(atoms: seq<RelocAtom>, symbols: seq<SourceSymbol>, k: nat, i: nat)
    requires Goes(atoms, k, i)
    ensures var m := RelocNumber(atoms, k, i);
            var r := atoms[k].relocs[i];
      && m < |AllLocated(atoms, symbols)|
      && AllLocated(atoms, symbols)[m]
         == r.(offset := StartOf(atoms[k], PlaceOf(atoms[..k], 0)) + r.offset, symbol := SymbolIndex(symbols, r.symbol))
  {
    hide Located, StartOf, PlaceOf, StandardBefore, SymbolIndex;
    var start := StartOf(atoms[k], PlaceOf(atoms[..k], 0));
    AllLocatedPrefix(atoms, symbols, k);
    AllLocatedPrefix(atoms, symbols, k + 1);
    assert atoms[..k + 1][..k] == atoms[..k];
    LocatedPrefix(atoms[k].relocs, start, symbols, i);
    var first, all := AllLocated(atoms[..k], symbols), AllLocated(atoms, symbols);
    assert first + Located(atoms[k].relocs, start, symbols) <= all;
  }

  // ----- exactly those -----

  lemma {:induction false} NumbersGrow(rs: seq<Reloc>, i: nat, j: nat)
    requires i <= j <= |rs|
    ensures StandardBefore(rs, i) <= StandardBefore(rs, j)
    ensures i < j && 0 <= rs[i].kind <= 16 ==> StandardBefore(rs, i) < StandardBefore(rs, j)
    decreases j
  {
    if i < j { NumbersGrow(rs, i, j - 1); }
  }

  lemma {:induction false} BeforeGrows(atoms: seq<RelocAtom>, k: nat, l: nat)
    requires k <= l <= |atoms|
    ensures RelocsBefore(atoms, k) <= RelocsBefore(atoms, l)
  {
    if k < l { BeforeGrows(atoms, k, l - 1); }
  }

  /** Different relocations have different numbers, in the order of the lists. */
  lemma RelocNumberOrder(atoms: seq<RelocAtom>, k: nat, i: nat, l: nat, j: nat)
    requires Goes(atoms, k, i) && Goes(atoms, l, j) && (k < l || (k == l && i < j))
    ensures RelocNumber(atoms, k, i) < RelocNumber(atoms, l, j)
  {
    NumbersGrow(atoms[k].relocs, i, |atoms[k].relocs|);
    if k < l { BeforeGrows(atoms, k + 1, l); } else { NumbersGrow(atoms[k].relocs, i, j); }
  }

  /** And every relocation in the file is one of them. */
  lemma RelocationComes(s: SourceSection, symbols: seq<SourceSymbol>, m: nat) returns (k: nat, i: nat)
    requires Writable(s) && m < |SectionOf(s, symbols).relocs|
    ensures Goes(s.atoms, k, i) && RelocNumber(s.atoms, k, i) == m
  {
    hide Writable, FileData, PlaceOf, AllLocated;
    AllLocatedCount(s.atoms, symbols, |s.atoms|);
    assert s.atoms[..|s.atoms|] == s.atoms;
    k := AtomOf(s.atoms, |s.atoms|, m);
    i := RelocOf(s.atoms[k].relocs, |s.atoms[k].relocs|, m - RelocsBefore(s.atoms, k));
  }

  lemma {:induction false} AtomOf(atoms: seq<RelocAtom>, n: nat, m: nat) returns (k: nat)
    requires n <= |atoms| && m < RelocsBefore(atoms, n)
    ensures k < n && RelocsBefore(atoms, k) <= m < RelocsBefore(atoms, k + 1)
  {
    if RelocsBefore(atoms, n - 1) <= m { k := n - 1; } else { k := AtomOf(atoms, n - 1, m); }
  }

  lemma {:induction false} RelocOf(rs: seq<Reloc>, n: nat, m: nat) returns (i: nat)
    requires n <= |rs| && m < StandardBefore(rs, n)
    ensures i < n && 0 <= rs[i].kind <= 16 && StandardBefore(rs, i) == m
  {
    if StandardBefore(rs, n - 1) <= m { i := n - 1; } else { i := RelocOf(rs, n - 1, m); }
  }

  // ----- symbols -----

  /** The characters of a text as bytes. */
  ghost predicate IsText(bs: seq<Byte>, t: string) {
    |bs| == |t| && forall i :: 0 <= i < |t| ==> bs[i] == t[i] as int
  }

  /** All symbols go into the file but vasm's own, of which only that of the current program counter does. */
  lemma ValidMeans(s: SourceSymbol)
    ensures SymValid(s) <==> !s.intern || IsText(s.symbol.name, " *current pc dummy*")
  {
    var t := " *current pc dummy*";
    assert IsText(CURRENT_PC, t);
    if IsText(s.symbol.name, t) { assert s.symbol.name == CURRENT_PC; }
  }

  /** The numbers of the valid symbols go up in the order of the list, and each symbol of the file has one. */
  lemma {:induction false} IndexOrder(ss: seq<SourceSymbol>, j: nat, k: nat)
    requires j < k < |ss| && SymValid(ss[j]) && SymValid(ss[k])
    ensures SymbolIndex(ss, j) < SymbolIndex(ss, k)
    decreases k
  {
    hide SymValid;
    IndexNames(ss[..k], j);
    assert ss[..k][..j] == ss[..j];
  }

  lemma {:induction false} IndexComes(ss: seq<SourceSymbol>, m: nat) returns (k: nat)
    requires m < |ValidSymbols(ss)|
    ensures k < |ss| && SymValid(ss[k]) && SymbolIndex(ss, k) == m + 1
    decreases |ss|
  {
    hide SymValid;
    var n := |ss| - 1;
    if m < |ValidSymbols(ss[..n])| {
      k := IndexComes(ss[..n], m);
      assert ss[..n][..k] == ss[..k];
    } else {
      k := n;
    }
  }

  // ----- the format -----

  /** A number is itself if it is small, else the count of bytes and that many bytes, the lowest first. */
  ghost predicate IsNumber(s: seq<Byte>, bpt: nat, v: int) {
    if 0 <= v <= 0x7f then s == [v]
    else |s| == 1 + bpt && s[0] == 0x80 + bpt && forall i :: 0 <= i < bpt ==> s[1 + i] == ShiftedRight(v, i) % 256
  }

  /** v shifted to the right by n bytes. */
  ghost function ShiftedRight(v: int, n: nat): int {
    if n == 0 then v else ShiftedRight(v, n - 1) / 0x100
  }

  lemma {:induction false} ShiftedTwice(v: int, n: nat)
    ensures ShiftedRight(v / 0x100, n) == ShiftedRight(v, n + 1)
  {
    if n > 0 { ShiftedTwice(v, n - 1); }
  }

  lemma {:induction false} LowByteAt(v: int, n: nat, i: nat)
    requires i < n
    ensures LowBytes(v, n)[i] == ShiftedRight(v, i) % 256
    decreases i
  {
    if i > 0 {
      LowByteAt(v / 256, n - 1, i - 1);
      ShiftedTwice(v, i - 1);
    }
  }

  lemma NumberFormat(bpt: nat, v: int)
    requires bpt < 128
    ensures IsNumber(NumberBytes(bpt, v), bpt, v)
  {
    forall i | 0 <= i < bpt
      ensures LowBytes(v, bpt)[i] == ShiftedRight(v, i) % 256
    {
      LowByteAt(v, bpt, i);
    }
  }

  function Joined(parts: seq<seq<Byte>>): seq<Byte> {
    if parts == [] then [] else parts[0] + Joined(parts[1..])
  }

  /** parts are the numbers vs, in that order. */
  ghost predicate AreNumbers(parts: seq<seq<Byte>>, bpt: nat, vs: seq<int>) {
    |parts| == |vs| && forall i :: 0 <= i < |vs| ==> IsNumber(parts[i], bpt, vs[i])
  }

  lemma {:induction false} NumbersFormat(bpt: nat, vs: seq<int>) returns (parts: seq<seq<Byte>>)
    requires bpt < 128
    ensures NumbersBytes(bpt, vs) == Joined(parts) && AreNumbers(parts, bpt, vs)
  {
    hide NumberBytes, IsNumber;
    if vs == [] {
      parts := [];
    } else {
      NumberFormat(bpt, vs[0]);
      var more := NumbersFormat(bpt, vs[1..]);
      parts := [NumberBytes(bpt, vs[0])] + more;
      assert parts[1..] == more;
      forall i | 0 <= i < |vs|
        ensures IsNumber(parts[i], bpt, vs[i])
      {
        if i > 0 { assert vs[1..][i - 1] == vs[i] && more[i - 1] == parts[i]; }
      }
    }
  }

  /** A standard relocation is type, byte offset, bit offset, size, mask, addend and symbol index. */
  ghost predicate IsReloc(s: seq<Byte>, bpt: nat, r: Reloc) {
    exists parts :: s == Joined(parts)
      && AreNumbers(parts, bpt, [r.kind, r.offset, r.bitOffset, r.size, r.mask, r.addend, r.symbol])
  }

  /** A symbol is its name, ended by a zero, then type, flags, section index, value and size. */
  ghost predicate IsSymbol(s: seq<Byte>, bpt: nat, sym: Symbol) {
    exists parts :: s == sym.name + [0] + Joined(parts)
      && AreNumbers(parts, bpt, [sym.kind, sym.flags, sym.section, sym.val, sym.size])
  }

  /** A section is name, attributes, flags, alignment, size, number of relocations, number of bytes, the bytes and the
      relocations. */
  ghost predicate IsSection(s: seq<Byte>, bpt: nat, sec: ObjectSection) {
    exists parts, relocs: seq<seq<Byte>> ::
      && s == sec.name + [0] + sec.attr + [0] + Joined(parts) + sec.data + Joined(relocs)
      && AreNumbers(parts, bpt, [sec.flags, sec.align, sec.size, |sec.relocs|, |sec.data|])
      && |relocs| == |sec.relocs| && forall i :: 0 <= i < |relocs| ==> IsReloc(relocs[i], bpt, sec.relocs[i])
  }

  /** An object is the letters VOBJ, the endianness, bits per byte, bytes per address, the name of the processor, the
      numbers of sections and of symbols, the symbols and the sections. */
  ghost predicate IsObject(s: seq<Byte>, o: Object) {
    exists sizes, counts, symbols: seq<seq<Byte>>, sections: seq<seq<Byte>> ::
      && s == ['V' as int, 'O' as int, 'B' as int, 'J' as int, o.endian] + Joined(sizes) + (o.cpu + [0]) + Joined(counts)
              + Joined(symbols) + Joined(sections)
      && AreNumbers(sizes, o.bytesPerTaddr, [8, o.bytesPerTaddr])
      && AreNumbers(counts, o.bytesPerTaddr, [|o.sections|, |o.symbols|])
      && |symbols| == |o.symbols| && (forall i :: 0 <= i < |symbols| ==> IsSymbol(symbols[i], o.bytesPerTaddr, o.symbols[i]))
      && |sections| == |o.sections| && forall i :: 0 <= i < |sections| ==> IsSection(sections[i], o.bytesPerTaddr, o.sections[i])
  }

  lemma {:induction false} RelocsFormat(bpt: nat, rs: seq<Reloc>) returns (relocs: seq<seq<Byte>>)
    requires bpt < 128
    ensures RelocsBytes(bpt, rs) == Joined(relocs) && |relocs| == |rs|
    ensures forall i :: 0 <= i < |rs| ==> IsReloc(relocs[i], bpt, rs[i])
  {
    hide NumbersBytes, AreNumbers;
    if rs == [] {
      relocs := [];
    } else {
      var parts := NumbersFormat(bpt, RelocFields(rs[0]));
      var more := RelocsFormat(bpt, rs[1..]);
      relocs := [NumbersBytes(bpt, RelocFields(rs[0]))] + more;
      assert relocs[1..] == more && IsReloc(relocs[0], bpt, rs[0]);
      assert forall i :: 0 < i < |rs| ==> relocs[i] == more[i - 1] && rs[i] == rs[1..][i - 1];
    }
  }

  lemma {:induction false} SymbolsFormat(bpt: nat, ss: seq<Symbol>) returns (symbols: seq<seq<Byte>>)
    requires bpt < 128
    ensures SymbolsBytes(bpt, ss) == Joined(symbols) && |symbols| == |ss|
    ensures forall i :: 0 <= i < |ss| ==> IsSymbol(symbols[i], bpt, ss[i])
  {
    hide NumbersBytes, AreNumbers;
    if ss == [] {
      symbols := [];
    } else {
      var parts := NumbersFormat(bpt, SymbolFields(ss[0]));
      var more := SymbolsFormat(bpt, ss[1..]);
      symbols := [StringBytes(ss[0].name) + NumbersBytes(bpt, SymbolFields(ss[0]))] + more;
      assert symbols[1..] == more && IsSymbol(symbols[0], bpt, ss[0]);
      assert forall i :: 0 < i < |ss| ==> symbols[i] == more[i - 1] && ss[i] == ss[1..][i - 1];
    }
  }

  lemma SectionFormat(bpt: nat, s: ObjectSection)
    requires bpt < 128
    ensures IsSection(SectionBytes(bpt, s), bpt, s)
  {
    hide NumbersBytes, AreNumbers, RelocsBytes, IsReloc;
    var parts := NumbersFormat(bpt, SectionFields(s));
    var relocs := RelocsFormat(bpt, s.relocs);
    assert SectionBytes(bpt, s) == s.name + [0] + s.attr + [0] + Joined(parts) + s.data + Joined(relocs);
  }

  lemma {:induction false} SectionsFormat(bpt: nat, ss: seq<ObjectSection>) returns (sections: seq<seq<Byte>>)
    requires bpt < 128
    ensures SectionsBytes(bpt, ss) == Joined(sections) && |sections| == |ss|
    ensures forall i :: 0 <= i < |ss| ==> IsSection(sections[i], bpt, ss[i])
  {
    hide SectionBytes, IsSection;
    if ss == [] {
      sections := [];
    } else {
      SectionFormat(bpt, ss[0]);
      var more := SectionsFormat(bpt, ss[1..]);
      sections := [SectionBytes(bpt, ss[0])] + more;
      assert sections[1..] == more;
      assert forall i :: 0 < i < |ss| ==> sections[i] == more[i - 1] && ss[i] == ss[1..][i - 1];
    }
  }

  /** The bytes that are written are an object file of the documented format. */
  lemma ObjectFormat(o: Object)
    requires o.bytesPerTaddr < 128 && 0 <= o.endian < 256
    ensures IsObject(ObjectBytes(o), o)
  {
    hide NumbersBytes, AreNumbers, SymbolsBytes, SectionsBytes, IsSymbol, IsSection;
    var bpt := o.bytesPerTaddr;
    var sizes := NumbersFormat(bpt, [8, bpt]);
    var counts := NumbersFormat(bpt, [|o.sections|, |o.symbols|]);
    var symbols := SymbolsFormat(bpt, o.symbols);
    var sections := SectionsFormat(bpt, o.sections);
    assert MAGIC + [o.endian] == ['V' as int, 'O' as int, 'B' as int, 'J' as int, o.endian];
    ObjectParts(o, sizes, counts, symbols, sections);
  }

  lemma ObjectParts(o: Object, sizes: seq<seq<Byte>>, counts: seq<seq<Byte>>, symbols: seq<seq<Byte>>, sections: seq<seq<Byte>>)
    requires o.bytesPerTaddr < 128 && 0 <= o.endian < 256
    requires NumbersBytes(o.bytesPerTaddr, [8, o.bytesPerTaddr]) == Joined(sizes)
    requires NumbersBytes(o.bytesPerTaddr, [|o.sections|, |o.symbols|]) == Joined(counts)
    requires SymbolsBytes(o.bytesPerTaddr, o.symbols) == Joined(symbols)
    requires SectionsBytes(o.bytesPerTaddr, o.sections) == Joined(sections)
    ensures ObjectBytes(o)
            == MAGIC + [o.endian] + Joined(sizes) + (o.cpu + [0]) + Joined(counts) + Joined(symbols) + Joined(sections)
  {
    hide NumbersBytes, SymbolsBytes, SectionsBytes, Joined;
  }

  // ----- what comes back -----

  /** A number that the file can hold without its sign, and one that it can hold with it. */
  ghost predicate Fits(bpt: nat, v: int) {
    0 <= v < Power(bpt)
  }

  ghost predicate FitsSigned(bpt: nat, v: int) {
    -(Power(bpt) as int) <= 2 * v < Power(bpt)
  }

  ghost predicate FitsInt(bpt: nat, v: int) {
    0 <= v < Power(bpt) && v < 0x8000_0000
  }

  /** Exactly which objects come back: those whose numbers fit, field by field. */
  lemma GoodRelocMeans(bpt: nat, r: Reloc)
    ensures GoodReloc(bpt, r) <==>
      && 0 <= r.kind <= 16 && Fits(bpt, r.kind) && Fits(bpt, r.offset) && FitsInt(bpt, r.bitOffset) && FitsInt(bpt, r.size)
      && FitsSigned(bpt, r.mask) && FitsSigned(bpt, r.addend) && FitsInt(bpt, r.symbol)
  {
    hide Representable;
    AsField(bpt, RELOC_SIGNS, RelocFields(r), 0);
    AsField(bpt, RELOC_SIGNS, RelocFields(r), 1);
    AsField(bpt, RELOC_SIGNS, RelocFields(r), 2);
    AsField(bpt, RELOC_SIGNS, RelocFields(r), 3);
    AsField(bpt, RELOC_SIGNS, RelocFields(r), 4);
    AsField(bpt, RELOC_SIGNS, RelocFields(r), 5);
    AsField(bpt, RELOC_SIGNS, RelocFields(r), 6);
  }

  lemma GoodSymbolMeans(bpt: nat, s: Symbol)
    ensures GoodSymbol(bpt, s) <==>
      && NoZero(s.name) && FitsInt(bpt, s.kind) && FitsInt(bpt, s.flags) && FitsInt(bpt, s.section)
      && FitsSigned(bpt, s.val) && FitsInt(bpt, s.size)
  {
    hide Representable;
    AsField(bpt, SYMBOL_SIGNS, SymbolFields(s), 0);
    AsField(bpt, SYMBOL_SIGNS, SymbolFields(s), 1);
    AsField(bpt, SYMBOL_SIGNS, SymbolFields(s), 2);
    AsField(bpt, SYMBOL_SIGNS, SymbolFields(s), 3);
    AsField(bpt, SYMBOL_SIGNS, SymbolFields(s), 4);
  }

  lemma GoodSectionMeans(bpt: nat, s: ObjectSection)
    ensures GoodSection(bpt, s) <==>
      && NoZero(s.name) && NoZero(s.attr) && Fits(bpt, s.flags) && FitsInt(bpt, s.align) && Fits(bpt, s.size)
      && FitsInt(bpt, |s.relocs|) && Fits(bpt, |s.data|)
      && forall i :: 0 <= i < |s.relocs| ==> GoodReloc(bpt, s.relocs[i])
  {
    hide Representable, GoodReloc;
    AsField(bpt, SECTION_SIGNS, SectionFields(s), 0);
    AsField(bpt, SECTION_SIGNS, SectionFields(s), 1);
    AsField(bpt, SECTION_SIGNS, SectionFields(s), 2);
    AsField(bpt, SECTION_SIGNS, SectionFields(s), 3);
    AsField(bpt, SECTION_SIGNS, SectionFields(s), 4);
  }

  lemma AsField(bpt: nat, signed: seq<bool>, vals: seq<int>, i: nat)
    requires |signed| == |vals| && i < |vals|
    ensures Representable(bpt, signed[i], vals[i]) <==> if signed[i] then FitsSigned(bpt, vals[i]) else Fits(bpt, vals[i])
  {}
}
