/** output_vobj.c: the object file of a list of sections and symbols. */
module VobjOutput {
  import opened Options
  import opened Sections
  import opened Vobj

  /** An atom with its relocations, whose offsets are relative to it and whose symbols are places in the list. */
  datatype RelocAtom = RelocAtom(atom: Atom, relocs: seq<Reloc>)

  datatype SourceSection = SourceSection(name: seq<Byte>, attr: seq<Byte>, flags: int, align: int, pad: seq<Byte>,
                                         atoms: seq<RelocAtom>)

  /** A symbol, whether it is one of vasm's internal ones, and what its idx holds before the output. */
  datatype SourceSymbol = SourceSymbol(symbol: Symbol, intern: bool, idx: int)

  /** " *current pc dummy*" */
  const CURRENT_PC: seq<Byte> :=
    [32, 42, 99, 117, 114, 114, 101, 110, 116, 32, 112, 99, 32, 100, 117, 109, 109, 121, 42]

  /** sym_valid. */
  predicate SymValid(s: SourceSymbol) {
    !s.intern || s.symbol.name == CURRENT_PC
  }

  function ValidSymbols(ss: seq<SourceSymbol>): seq<Symbol> {
    if ss == [] then [] else
      ValidSymbols(ss[..|ss| - 1]) + if SymValid(ss[|ss| - 1]) then [ss[|ss| - 1].symbol] else []
  }

  /** sym->idx when relocations are written: a valid symbol's number in the file, counted from 1; the others keep
      what they had. */
  function SymbolIndex(ss: seq<SourceSymbol>, k: int): int {
    if !(0 <= k < |ss|) then 0 else if SymValid(ss[k]) then |ValidSymbols(ss[..k])| + 1 else ss[k].idx
  }

  /** The number of a valid symbol is its place among the symbols of the file. */
  lemma {:induction false} IndexNames(ss: seq<SourceSymbol>, k: nat)
    requires k < |ss| && SymValid(ss[k])
    ensures 1 <= SymbolIndex(ss, k) <= |ValidSymbols(ss)| && ValidSymbols(ss)[SymbolIndex(ss, k) - 1] == ss[k].symbol
    decreases |ss|
  {
    var m := |ss| - 1;
    if k < m {
      assert ss[..m][..k] == ss[..k];
      IndexNames(ss[..m], k);
    }
  }

  function Plain(atoms: seq<RelocAtom>): (r: seq<Atom>)
    ensures |r| == |atoms|
  {
    seq(|atoms|, i requires 0 <= i < |atoms| => atoms[i].atom)
  }

  /** The place of an atom in the layout: the program counter at its start, after alignment. */
  function StartOf(a: RelocAtom, pc: nat): nat {
    Pcalign(a.atom, pc)
  }

  function EndOf(a: RelocAtom, pc: nat): nat {
    StartOf(a, pc) + |ContentBytes(a.atom)|
  }

  function PlaceOf(atoms: seq<RelocAtom>, pc: nat): nat {
    if atoms == [] then pc else EndOf(atoms[|atoms| - 1], PlaceOf(atoms[..|atoms| - 1], pc))
  }

  // ----- relocations -----

  /** The standard relocations of an atom at its place in the section, with file numbers for their symbols. */
  function Located(rs: seq<Reloc>, start: nat, symbols: seq<SourceSymbol>): seq<Reloc> {
    if rs == [] then [] else
      var r := rs[|rs| - 1];
      Located(rs[..|rs| - 1], start, symbols)
      + if Standard(r) then [r.(offset := start + r.offset, symbol := SymbolIndex(symbols, r.symbol))] else []
  }

  predicate HasRelocs(a: RelocAtom) {
    a.atom.content.Data? || a.atom.content.Space?
  }

  function AllLocated(atoms: seq<RelocAtom>, symbols: seq<SourceSymbol>): seq<Reloc> {
    if atoms == [] then [] else
      var n := |atoms| - 1;
      AllLocated(atoms[..n], symbols)
      + if HasRelocs(atoms[n]) then Located(atoms[n].relocs, StartOf(atoms[n], PlaceOf(atoms[..n], 0)), symbols) else []
  }

  // ----- section contents -----

  predicate AnyNonZero(s: seq<Byte>) {
    exists i :: 0 <= i < |s| && s[i] != 0
  }

  /** Atoms whose bytes must be in the file: data, and space with relocations or a fill that is not zero. */
  predicate InFile(a: RelocAtom) {
    a.atom.content.Data? || (a.atom.content.Space? && (a.relocs != [] || AnyNonZero(a.atom.content.fill)))
  }

  /** The size of the contents in the file: up to the last atom that must be there. */
  function DataSize(atoms: seq<RelocAtom>): nat {
    if atoms == [] then 0
    else if InFile(atoms[|atoms| - 1]) then PlaceOf(atoms, 0)
    else DataSize(atoms[..|atoms| - 1])
  }

  predicate Writable(s: SourceSection) {
    AllWellFormed(Plain(s.atoms), s.pad) && LimitsAlignOnly(Plain(s.atoms))
  }

  lemma PlainPrefix(atoms: seq<RelocAtom>, k: nat)
    requires k <= |atoms|
    ensures Plain(atoms[..k]) == Plain(atoms)[..k]
  {}

  lemma {:induction false} BytesAppend(atoms: seq<Atom>, a: Atom, pad: seq<Byte>, pc: nat)
    requires AllWellFormed(atoms + [a], pad)
    ensures AllWellFormed(atoms, pad) && WellFormed(a, pad)
    ensures var bs := Bytes(atoms, pad, pc);
            Bytes(atoms + [a], pad, pc) == bs + (Padding(a, pad, pc + |bs|) + ContentBytes(a))
  {
    hide Padding, ContentBytes, WellFormed;
    assert a in atoms + [a];
    forall x | x in atoms
      ensures WellFormed(x, pad)
    {
      assert x in atoms + [a];
    }
    if atoms == [] {
      assert [a][1..] == [];
    } else {
      assert (atoms + [a])[1..] == atoms[1..] + [a];
      BytesAppend(atoms[1..], a, pad, pc + |Padding(atoms[0], pad, pc) + ContentBytes(atoms[0])|);
    }
  }

  /** The contents of a section up to atom k. */
  function Contents(s: SourceSection, k: nat): seq<Byte>
    requires Writable(s) && k <= |s.atoms|
  {
    PlainPrefix(s.atoms, k);
    Bytes(Plain(s.atoms)[..k], s.pad, 0)
  }

  lemma ContentsStep(s: SourceSection, k: nat)
    requires Writable(s) && k < |s.atoms|
    ensures WellFormed(s.atoms[k].atom, s.pad)
    ensures var a := s.atoms[k].atom; var bs := Contents(s, k);
      && Contents(s, k + 1) == bs + (Padding(a, s.pad, |bs|) + ContentBytes(a))
      && |bs| + |Padding(a, s.pad, |bs|)| == StartOf(s.atoms[k], |bs|)
      && |Contents(s, k + 1)| == EndOf(s.atoms[k], |bs|)
  {
    hide Padding, ContentBytes, WellFormed;
    var atoms := Plain(s.atoms);
    assert atoms[k] in atoms;
    assert atoms[..k + 1] == atoms[..k] + [atoms[k]];
    BytesAppend(atoms[..k], atoms[k], s.pad, 0);
    PaddingLength(atoms[k], s.pad, |Contents(s, k)|);
  }

  lemma {:induction false} ContentsPlace(s: SourceSection, k: nat)
    requires Writable(s) && k <= |s.atoms|
    ensures |Contents(s, k)| == PlaceOf(s.atoms[..k], 0)
  {
    hide Bytes, Writable;
    if k > 0 {
      ContentsPlace(s, k - 1);
      ContentsStep(s, k - 1);
      assert s.atoms[..k][..k - 1] == s.atoms[..k - 1];
    } else {
      NoContents(s);
    }
  }

  lemma NoContents(s: SourceSection)
    requires Writable(s)
    ensures Contents(s, 0) == []
  {}

  lemma {:induction false} ContentsGrow(s: SourceSection, k: nat, l: nat)
    requires Writable(s) && k <= l <= |s.atoms|
    ensures Contents(s, k) <= Contents(s, l)
  {
    hide Contents, Writable;
    if k < l {
      ContentsGrow(s, k, l - 1);
      ContentsStep(s, l - 1);
    }
  }

  /** The declared size is the place behind some atom. */
  lemma {:induction false} DataSizeIsPlace(atoms: seq<RelocAtom>) returns (m: nat)
    ensures m <= |atoms| && DataSize(atoms) == PlaceOf(atoms[..m], 0)
  {
    if atoms == [] {
      m := 0;
    } else if InFile(atoms[|atoms| - 1]) {
      m := |atoms|;
      assert atoms[..m] == atoms;
    } else {
      m := DataSizeIsPlace(atoms[..|atoms| - 1]);
      assert atoms[..|atoms| - 1][..m] == atoms[..m];
    }
  }

  /** What is in the file of a section's contents. */
  function FileData(s: SourceSection): seq<Byte>
    requires Writable(s)
  {
    var bs := Bytes(Plain(s.atoms), s.pad, 0);
    if DataSize(s.atoms) <= |bs| then bs[..DataSize(s.atoms)] else bs
  }

  /** Where the writer stops, exactly the declared number of bytes has been written. */
  lemma StopsAtSize(s: SourceSection, k: nat)
    requires Writable(s) && k <= |s.atoms|
    requires forall j :: 0 <= j < k ==> |Contents(s, j)| < DataSize(s.atoms)
    requires k == |s.atoms| || |Contents(s, k)| >= DataSize(s.atoms)
    ensures |Contents(s, k)| == DataSize(s.atoms) && Contents(s, k) == FileData(s)
  {
    hide Contents, Writable;
    var m := DataSizeIsPlace(s.atoms);
    ContentsPlace(s, m);
    ContentsGrow(s, k, m);
    ContentsGrow(s, m, |s.atoms|);
    WholeContents(s);
  }

  lemma WholeContents(s: SourceSection)
    requires Writable(s)
    ensures Contents(s, |s.atoms|) == Bytes(Plain(s.atoms), s.pad, 0)
  {
    assert Plain(s.atoms)[..|s.atoms|] == Plain(s.atoms);
  }

  // ----- the whole object -----

  function SectionOf(s: SourceSection, symbols: seq<SourceSymbol>): ObjectSection
    requires Writable(s)
  {
    ObjectSection(s.name, s.attr, s.flags, s.align, PlaceOf(s.atoms, 0), FileData(s), AllLocated(s.atoms, symbols))
  }

  function SectionsOf(ss: seq<SourceSection>, symbols: seq<SourceSymbol>): seq<ObjectSection>
    requires forall s :: s in ss ==> Writable(s)
  {
    if ss == [] then [] else SectionsOf(ss[..|ss| - 1], symbols) + [SectionOf(ss[|ss| - 1], symbols)]
  }

  function ObjectOf(endian: int, bpt: nat, cpu: seq<Byte>, ss: seq<SourceSection>, symbols: seq<SourceSymbol>): Object
    requires forall s :: s in ss ==> Writable(s)
  {
    Object(endian, bpt, cpu, ValidSymbols(symbols), SectionsOf(ss, symbols))
  }

  // ----- the writer -----

  class VobjWriter {
    const bytesPerTaddr: nat
    var out: seq<Byte>
    /** sec->pc of the section being written. */
    var pc: nat

    ghost predicate Valid() {
      bytesPerTaddr < 128
    }

    constructor (bpt: nat)
      requires bpt < 128
      ensures Valid() && out == [] && bytesPerTaddr == bpt
    {
      bytesPerTaddr, out, pc := bpt, [], 0;
    }

    method WriteNumber(val: int)
      requires Valid()
      modifies this`out
      ensures out == old(out) + NumberBytes(bytesPerTaddr, val)
    {
      if 0 <= val <= 127 {
        out := out + [val];
        return;
      }
      var first: Byte := 0x80 + bytesPerTaddr;
      out := out + [first];
      WriteLowBytes(val, bytesPerTaddr);
    }

    method WriteLowBytes(val: int, n: nat)
      modifies this`out
      ensures out == old(out) + LowBytes(val, n)
    {
      hide LowBytes;
      var v := val;
      ghost var written: seq<Byte> := [];
      for i := 0 to n
        invariant out == old(out) + written && LowBytes(val, n) == written + LowBytes(v, n - i)
      {
        LowBytesStep(v, n - i);
        var b: Byte := v % 256;
        out := out + [b];
        written := written + [b];
        v := v / 256;
      }
      LowBytesStep(v, 0);
    }

    static lemma LowBytesStep(v: int, n: nat)
      ensures LowBytes(v, n) == if n == 0 then [] else [v % 256] + LowBytes(v / 256, n - 1)
    {}

    method WriteNumbers(vals: seq<int>)
      requires Valid()
      modifies this`out
      ensures out == old(out) + NumbersBytes(bytesPerTaddr, vals)
    {
      hide NumberBytes;
      assert vals[0..] == vals;
      for i := 0 to |vals|
        invariant out + NumbersBytes(bytesPerTaddr, vals[i..]) == old(out) + NumbersBytes(bytesPerTaddr, vals)
      {
        assert vals[i..][1..] == vals[i + 1..];
        WriteNumber(vals[i]);
      }
    }

    method WriteString(s: seq<Byte>)
      modifies this`out
      ensures out == old(out) + StringBytes(s)
    {
      for i := 0 to |s|
        invariant out == old(out) + s[..i]
      {
        out := out + [s[i]];
      }
      assert s[..|s|] == s;
      out := out + [0];
    }

    /** count_relocs: the relocations that will be written. */
    method CountRelocs(rs: seq<Reloc>, ghost start: nat, ghost symbols: seq<SourceSymbol>) returns (n: nat)
      ensures n == |Located(rs, start, symbols)|
    {
      n := 0;
      for i := 0 to |rs|
        invariant n == |Located(rs[..i], start, symbols)|
      {
        assert rs[..i + 1][..i] == rs[..i];
        if Standard(rs[i]) {
          n := n + 1;
        }
      }
      assert rs[..|rs|] == rs;
    }

    method NonZero(s: seq<Byte>) returns (r: bool)
      ensures r == AnyNonZero(s)
    {
      r := false;
      for i := 0 to |s|
        invariant r == AnyNonZero(s[..i])
      {
        assert s[..i + 1] == s[..i] + [s[i]];
        if s[i] != 0 {
          assert s[..i + 1][i] != 0;
          r := true;
        } else {
          StillZero(s, i);
        }
      }
      assert s[..|s|] == s;
    }

    static lemma StillZero(s: seq<Byte>, i: nat)
      requires i < |s| && s[i] == 0
      ensures AnyNonZero(s[..i + 1]) <==> AnyNonZero(s[..i])
    {
      if AnyNonZero(s[..i + 1]) {
        var k :| 0 <= k < i + 1 && s[..i + 1][k] != 0;
        assert s[..i][k] != 0;
      }
      if AnyNonZero(s[..i]) {
        var k :| 0 <= k < i && s[..i][k] != 0;
        assert s[..i + 1][k] != 0;
      }
    }

    /** get_section_sizes: size of the section, of its contents in the file, and the number of relocations. */
    method GetSectionSizes(s: SourceSection, ghost symbols: seq<SourceSymbol>) returns (size: nat, data: nat, nrelocs: nat)
      modifies this`pc
      ensures size == PlaceOf(s.atoms, 0) && data == DataSize(s.atoms) && nrelocs == |AllLocated(s.atoms, symbols)|
    {
      hide Pcalign, ContentBytes, Located, AnyNonZero;
      data, nrelocs := 0, 0;
      pc := 0;
      for k := 0 to |s.atoms|
        invariant pc == PlaceOf(s.atoms[..k], 0)
        invariant data == DataSize(s.atoms[..k]) && nrelocs == |AllLocated(s.atoms[..k], symbols)|
      {
        var p := s.atoms[k];
        assert s.atoms[..k + 1][..k] == s.atoms[..k];
        pc := Pcalign(p.atom, pc);
        ghost var start := pc;
        pc := pc + |ContentBytes(p.atom)|;
        if p.atom.content.Data? {
          data := pc;
          var n := CountRelocs(p.relocs, start, symbols);
          nrelocs := nrelocs + n;
        } else if p.atom.content.Space? {
          if p.relocs != [] {
            var n := CountRelocs(p.relocs, start, symbols);
            nrelocs := nrelocs + n;
            data := pc;
          } else {
            NoneLocated(start, symbols);
            var any := NonZero(p.atom.content.fill);
            if any {
              data := pc;
            }
          }
        }
      }
      assert s.atoms[..|s.atoms|] == s.atoms;
      size := pc;
    }

    static lemma NoneLocated(start: nat, symbols: seq<SourceSymbol>)
      ensures Located([], start, symbols) == []
    {}

    /** fwpcalign: the padding before an atom. */
    method WritePadding(a: Atom, pad: seq<Byte>)
      requires WellFormed(a, pad)
      modifies this
      ensures out == old(out) + Padding(a, pad, old(pc)) && pc == old(pc) + |Padding(a, pad, old(pc))|
    {
      hide Balign;
      var n := Balign(pc, a.align);
      if n != 0 {
        var pat := pad;
        if AlignsOnly(a) {
          if a.content.maxAlign != 0 && n > a.content.maxAlign {
            return;
          }
          pat := a.content.fill;
        }
        pc := pc + n;
        PatternLength(pat, n);
        WritePattern(pat, n);
      }
    }

    method WritePattern(pat: seq<Byte>, n: nat)
      requires pat != []
      modifies this`out
      ensures out == old(out) + Pattern(pat, n)
    {
      var zeros, times := n % |pat|, n / |pat|;
      for i := 0 to zeros
        invariant out == old(out) + Zeros(i)
      {
        out := out + [0];
      }
      for i := 0 to times
        invariant out == old(out) + Zeros(zeros) + Repeat(pat, i)
      {
        out := out + pat;
      }
    }

    /** write_data: atom after atom until the declared size is reached; exactly that many bytes are written. */
    method WriteData(s: SourceSection, data: nat)
      requires Writable(s) && data == DataSize(s.atoms)
      modifies this
      ensures out == old(out) + FileData(s) && |FileData(s)| == data
    {
      hide Padding, ContentBytes, WellFormed, Contents, Writable, FileData;
      pc := 0;
      NoContents(s);
      var k := 0;
      while k < |s.atoms| && pc < data
        invariant 0 <= k <= |s.atoms| && out == old(out) + Contents(s, k) && pc == |Contents(s, k)|
        invariant forall j :: 0 <= j < k ==> |Contents(s, j)| < data
      {
        ContentsStep(s, k);
        var a := s.atoms[k].atom;
        WritePadding(a, s.pad);
        out := out + ContentBytes(a);
        pc := pc + |ContentBytes(a)|;
        k := k + 1;
      }
      StopsAtSize(s, k);
    }

    /** write_relocs. */
    method WriteRelocs(s: SourceSection, symbols: seq<SourceSymbol>)
      requires Valid()
      modifies this
      ensures out == old(out) + RelocsBytes(bytesPerTaddr, AllLocated(s.atoms, symbols))
    {
      hide Pcalign, ContentBytes, Located, RelocsBytes;
      pc := 0;
      NoRelocs(bytesPerTaddr);
      for k := 0 to |s.atoms|
        invariant pc == PlaceOf(s.atoms[..k], 0)
        invariant out == old(out) + RelocsBytes(bytesPerTaddr, AllLocated(s.atoms[..k], symbols))
      {
        var p := s.atoms[k];
        assert s.atoms[..k + 1][..k] == s.atoms[..k];
        pc := Pcalign(p.atom, pc);
        if HasRelocs(p) {
          RelocsAppend(bytesPerTaddr, AllLocated(s.atoms[..k], symbols), Located(p.relocs, pc, symbols));
          WriteRlist(p.relocs, symbols);
        } else {
          assert AllLocated(s.atoms[..k + 1], symbols) == AllLocated(s.atoms[..k], symbols);
        }
        pc := pc + |ContentBytes(p.atom)|;
      }
      assert s.atoms[..|s.atoms|] == s.atoms;
    }

    /** write_rlist. */
    method WriteRlist(rs: seq<Reloc>, symbols: seq<SourceSymbol>)
      requires Valid()
      modifies this`out
      ensures out == old(out) + RelocsBytes(bytesPerTaddr, Located(rs, pc, symbols))
    {
      hide RelocsBytes, SymbolIndex;
      NoRelocs(bytesPerTaddr);
      for i := 0 to |rs|
        invariant out == old(out) + RelocsBytes(bytesPerTaddr, Located(rs[..i], pc, symbols))
      {
        assert rs[..i + 1][..i] == rs[..i];
        if Standard(rs[i]) {
          var r := rs[i].(offset := pc + rs[i].offset, symbol := SymbolIndex(symbols, rs[i].symbol));
          RelocsAppend(bytesPerTaddr, Located(rs[..i], pc, symbols), [r]);
          OneReloc(bytesPerTaddr, r);
          WriteNumbers(RelocFields(r));
        } else {
          assert Located(rs[..i + 1], pc, symbols) == Located(rs[..i], pc, symbols);
        }
      }
      assert rs[..|rs|] == rs;
    }

    /** The symbols that go into the file. */
    method WriteSymbols(symbols: seq<SourceSymbol>)
      requires Valid()
      modifies this`out
      ensures out == old(out) + SymbolsBytes(bytesPerTaddr, ValidSymbols(symbols))
    {
      hide SymbolsBytes, SymValid, NumbersBytes;
      SymbolsOne(bytesPerTaddr);
      for k := 0 to |symbols|
        invariant out == old(out) + SymbolsBytes(bytesPerTaddr, ValidSymbols(symbols[..k]))
      {
        assert symbols[..k + 1][..k] == symbols[..k];
        if SymValid(symbols[k]) {
          var sym := symbols[k].symbol;
          SymbolsAppend(bytesPerTaddr, ValidSymbols(symbols[..k]), sym);
          WriteString(sym.name);
          WriteNumbers(SymbolFields(sym));
        } else {
          assert ValidSymbols(symbols[..k + 1]) == ValidSymbols(symbols[..k]);
        }
      }
      assert symbols[..|symbols|] == symbols;
    }

    /** How many symbols go into the file. */
    method CountSymbols(symbols: seq<SourceSymbol>) returns (n: nat)
      ensures n == |ValidSymbols(symbols)|
    {
      hide SymValid;
      n := 0;
      for k := 0 to |symbols|
        invariant n == |ValidSymbols(symbols[..k])|
      {
        assert symbols[..k + 1][..k] == symbols[..k];
        if SymValid(symbols[k]) {
          n := n + 1;
        }
      }
      assert symbols[..|symbols|] == symbols;
    }

    method WriteSection(s: SourceSection, symbols: seq<SourceSymbol>)
      requires Valid() && Writable(s)
      modifies this
      ensures out == old(out) + SectionBytes(bytesPerTaddr, SectionOf(s, symbols))
    {
      hide Writable, FileData, AllLocated, PlaceOf, DataSize, RelocsBytes, NumbersBytes, StringBytes;
      WriteString(s.name);
      WriteString(s.attr);
      var size, data, nrelocs := GetSectionSizes(s, symbols);
      DeclaredSize(s);
      WriteNumbers([s.flags, s.align, size, nrelocs, data]);
      WriteData(s, data);
      WriteRelocs(s, symbols);
    }

    /** write_output. */
    method WriteOutput(endian: int, cpu: seq<Byte>, sections: seq<SourceSection>, symbols: seq<SourceSymbol>)
      requires Valid() && 0 <= endian < 256 && out == [] && forall s :: s in sections ==> Writable(s)
      modifies this
      ensures out == ObjectBytes(ObjectOf(endian, bytesPerTaddr, cpu, sections, symbols))
    {
      hide SectionBytes, SectionsBytes, SymbolsBytes, NumbersBytes, StringBytes, ValidSymbols, Writable, SectionOf;
      var nsyms := CountSymbols(symbols);
      SectionsCount(sections, symbols);
      out := MAGIC + [endian];
      WriteNumbers([8, bytesPerTaddr]);
      WriteString(cpu);
      WriteNumbers([|sections|, nsyms]);
      WriteSymbols(symbols);
      ghost var before := out;
      SectionsOne(bytesPerTaddr);
      for k := 0 to |sections|
        invariant out == before + SectionsBytes(bytesPerTaddr, SectionsOf(sections[..k], symbols))
      {
        assert sections[..k + 1][..k] == sections[..k] && sections[k] in sections;
        SectionsAppend(bytesPerTaddr, SectionsOf(sections[..k], symbols), SectionOf(sections[k], symbols));
        WriteSection(sections[k], symbols);
      }
      assert sections[..|sections|] == sections;
    }
  }

  lemma SymbolsOne(bpt: nat)
    requires bpt < 128
    ensures SymbolsBytes(bpt, []) == []
  {}

  lemma {:induction false} SymbolsAppend(bpt: nat, ss: seq<Symbol>, s: Symbol)
    requires bpt < 128
    ensures SymbolsBytes(bpt, ss + [s]) == SymbolsBytes(bpt, ss) + (StringBytes(s.name) + NumbersBytes(bpt, SymbolFields(s)))
  {
    hide NumbersBytes, StringBytes;
    if ss == [] {
      assert [s][1..] == [];
      assert SymbolsBytes(bpt, [s]) == StringBytes(s.name) + NumbersBytes(bpt, SymbolFields(s)) + SymbolsBytes(bpt, []);
    } else {
      assert (ss + [s])[1..] == ss[1..] + [s];
      SymbolsAppend(bpt, ss[1..], s);
    }
  }

  lemma SectionsOne(bpt: nat)
    requires bpt < 128
    ensures SectionsBytes(bpt, []) == []
  {}

  lemma {:induction false} SectionsAppend(bpt: nat, ss: seq<ObjectSection>, s: ObjectSection)
    requires bpt < 128
    ensures SectionsBytes(bpt, ss + [s]) == SectionsBytes(bpt, ss) + SectionBytes(bpt, s)
  {
    hide SectionBytes;
    if ss == [] {
      assert [s][1..] == [];
      assert SectionsBytes(bpt, [s]) == SectionBytes(bpt, s) + SectionsBytes(bpt, []);
    } else {
      assert (ss + [s])[1..] == ss[1..] + [s];
      SectionsAppend(bpt, ss[1..], s);
    }
  }

  lemma {:induction false} SectionsCount(ss: seq<SourceSection>, symbols: seq<SourceSymbol>)
    requires forall s :: s in ss ==> Writable(s)
    ensures |SectionsOf(ss, symbols)| == |ss|
  {
    hide SectionOf, Writable;
    if ss != [] { SectionsCount(ss[..|ss| - 1], symbols); }
  }

  /** The declared size of the contents is the size of the contents. */
  lemma DeclaredSize(s: SourceSection)
    requires Writable(s)
    ensures |FileData(s)| == DataSize(s.atoms)
  {
    hide Contents, Writable, FileData;
    var m := DataSizeIsPlace(s.atoms);
    ContentsPlace(s, m);
    ContentsGrow(s, m, |s.atoms|);
    WholeContents(s);
    FileDataSize(s);
  }

  lemma FileDataSize(s: SourceSection)
    requires Writable(s) && DataSize(s.atoms) <= |Bytes(Plain(s.atoms), s.pad, 0)|
    ensures |FileData(s)| == DataSize(s.atoms)
  {}

  /** Writing and reading are inverse: the object that vobjdump finds in what write_output writes is the one that the
      sections and symbols describe, provided its numbers fit. */
  lemma WrittenIsRead(endian: int, bpt: nat, cpu: seq<Byte>, sections: seq<SourceSection>, symbols: seq<SourceSymbol>)
    requires forall s :: s in sections ==> Writable(s)
    requires GoodObject(ObjectOf(endian, bpt, cpu, sections, symbols))
    ensures ReadObject(ObjectBytes(ObjectOf(endian, bpt, cpu, sections, symbols)))
            == Some(ObjectOf(endian, bpt, cpu, sections, symbols))
    ensures forall i :: 0 <= i < |sections| ==>
              i < |SectionsOf(sections, symbols)| && |SectionsOf(sections, symbols)[i].data| == DataSize(sections[i].atoms)
  {
    hide ReadObject, ObjectBytes, GoodObject, Writable;
    ObjectBack(ObjectOf(endian, bpt, cpu, sections, symbols));
    forall i | 0 <= i < |sections|
      ensures i < |SectionsOf(sections, symbols)| && |SectionsOf(sections, symbols)[i].data| == DataSize(sections[i].atoms)
    {
      SectionsAt(sections, symbols, i);
      assert sections[i] in sections;
      DeclaredSize(sections[i]);
    }
  }

  lemma {:induction false} SectionsAt(ss: seq<SourceSection>, symbols: seq<SourceSymbol>, i: nat)
    requires (forall s :: s in ss ==> Writable(s)) && i < |ss|
    ensures i < |SectionsOf(ss, symbols)| && Writable(ss[i]) && SectionsOf(ss, symbols)[i] == SectionOf(ss[i], symbols)
  {
    hide SectionOf, Writable;
    var n := |ss| - 1;
    SectionsCount(ss, symbols);
    SectionsCount(ss[..n], symbols);
    if i < n { SectionsAt(ss[..n], symbols, i); }
  }

  lemma NoRelocs(bpt: nat)
    requires bpt < 128
    ensures RelocsBytes(bpt, []) == []
  {}

  lemma OneReloc(bpt: nat, r: Reloc)
    requires bpt < 128
    ensures RelocsBytes(bpt, [r]) == NumbersBytes(bpt, RelocFields(r))
  {
    assert [r][1..] == [];
  }

  lemma {:induction false} RelocsAppend(bpt: nat, rs: seq<Reloc>, more: seq<Reloc>)
    requires bpt < 128
    ensures RelocsBytes(bpt, rs + more) == RelocsBytes(bpt, rs) + RelocsBytes(bpt, more)
    decreases |rs|
  {
    hide NumbersBytes;
    if rs == [] {
      assert rs + more == more;
    } else {
      assert (rs + more)[1..] == rs[1..] + more;
      RelocsAppend(bpt, rs[1..], more);
    }
  }
}
