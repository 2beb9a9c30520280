/** The VOBJ object format of vasm: what output_vobj.c writes and how vobjdump.c reads it. */
module Vobj {
  import opened Options
  import opened Sections

  datatype Reloc = Reloc(kind: int, offset: int, bitOffset: int, size: int, mask: int, addend: int, symbol: int)

  datatype Symbol = Symbol(name: seq<Byte>, kind: int, flags: int, section: int, val: int, size: int)

  datatype ObjectSection = ObjectSection(name: seq<Byte>, attr: seq<Byte>, flags: int, align: int, size: int,
                                         data: seq<Byte>, relocs: seq<Reloc>)

  datatype Object = Object(endian: int, bytesPerTaddr: nat, cpu: seq<Byte>, symbols: seq<Symbol>, sections: seq<ObjectSection>)

  // ----- writing -----

  ghost function Power(n: nat): (p: nat)
    ensures p >= 1
  {
    if n == 0 then 1 else 256 * Power(n - 1)
  }

  /** The n low bytes of a number, least significant first; the shift of a negative number rounds down. */
  function LowBytes(val: int, n: nat): (bs: seq<Byte>)
    ensures |bs| == n
    decreases n
  {
    if n == 0 then [] else [val % 256] + LowBytes(val / 256, n - 1)
  }

  /** write_number. */
  function NumberBytes(bpt: nat, val: int): seq<Byte>
    requires bpt < 128
  {
    if 0 <= val <= 127 then [val] else [0x80 + bpt] + LowBytes(val, bpt)
  }

  /** write_string. */
  function StringBytes(s: seq<Byte>): seq<Byte> {
    s + [0]
  }

  function NumbersBytes(bpt: nat, vals: seq<int>): seq<Byte>
    requires bpt < 128
  {
    if vals == [] then [] else NumberBytes(bpt, vals[0]) + NumbersBytes(bpt, vals[1..])
  }

  function RelocFields(r: Reloc): seq<int> {
    [r.kind, r.offset, r.bitOffset, r.size, r.mask, r.addend, r.symbol]
  }

  function RelocsBytes(bpt: nat, rs: seq<Reloc>): seq<Byte>
    requires bpt < 128
  {
    if rs == [] then [] else NumbersBytes(bpt, RelocFields(rs[0])) + RelocsBytes(bpt, rs[1..])
  }

  function SymbolFields(s: Symbol): seq<int> {
    [s.kind, s.flags, s.section, s.val, s.size]
  }

  function SymbolsBytes(bpt: nat, ss: seq<Symbol>): seq<Byte>
    requires bpt < 128
  {
    if ss == [] then [] else StringBytes(ss[0].name) + NumbersBytes(bpt, SymbolFields(ss[0])) + SymbolsBytes(bpt, ss[1..])
  }

  function SectionFields(s: ObjectSection): seq<int> {
    [s.flags, s.align, s.size, |s.relocs|, |s.data|]
  }

  function SectionBytes(bpt: nat, s: ObjectSection): seq<Byte>
    requires bpt < 128
  {
    StringBytes(s.name) + StringBytes(s.attr) + NumbersBytes(bpt, SectionFields(s)) + s.data + RelocsBytes(bpt, s.relocs)
  }

  function SectionsBytes(bpt: nat, ss: seq<ObjectSection>): seq<Byte>
    requires bpt < 128
  {
    if ss == [] then [] else SectionBytes(bpt, ss[0]) + SectionsBytes(bpt, ss[1..])
  }

  const MAGIC: seq<Byte> := [0x56, 0x4f, 0x42, 0x4a]

  function ObjectBytes(o: Object): seq<Byte>
    requires o.bytesPerTaddr < 128 && 0 <= o.endian < 256
  {
    var bpt := o.bytesPerTaddr;
    MAGIC + [o.endian] + NumbersBytes(bpt, [8, bpt]) + StringBytes(o.cpu) + NumbersBytes(bpt, [|o.sections|, |o.symbols|])
    + SymbolsBytes(bpt, o.symbols) + SectionsBytes(bpt, o.sections)
  }

  // ----- reading; a file that ends too early is refused -----

  function FromBytes(bs: seq<Byte>): nat {
    if bs == [] then 0 else bs[0] + 256 * FromBytes(bs[1..])
  }

  /** read_number: the value and what follows it. */
  ghost function ReadNumber(t: seq<Byte>, signed: bool): Option<(int, seq<Byte>)> {
    if t == [] then None
    else if t[0] <= 0x7f then Some((t[0], t[1..]))
    else
      var n: nat := t[0] - 0x80;
      if |t| < 1 + n then None else
        var val := FromBytes(t[1..1 + n]);
        Some((if signed && n > 0 && 2 * val >= Power(n) then val - Power(n) else val, t[1 + n..]))
  }

  function ReadString(t: seq<Byte>): Option<(seq<Byte>, seq<Byte>)> {
    if t == [] then None
    else if t[0] == 0 then Some(([], t[1..]))
    else match ReadString(t[1..])
      case None => None
      case Some((s, rest)) => Some(([t[0]] + s, rest))
  }

  ghost function ReadNumbers(t: seq<Byte>, signed: seq<bool>): Option<(seq<int>, seq<Byte>)>
    decreases |signed|
  {
    if signed == [] then Some(([], t)) else
      match ReadNumber(t, signed[0])
      case None => None
      case Some((v, rest)) =>
        match ReadNumbers(rest, signed[1..])
        case None => None
        case Some((vs, rest')) => Some(([v] + vs, rest'))
  }

  const INT_LIMIT := 0x8000_0000

  /** The conversion to a C int, which many fields go through. */
  function CInt(v: int): (i: int)
    ensures -INT_LIMIT <= i < INT_LIMIT && (-INT_LIMIT <= v < INT_LIMIT ==> i == v)
  {
    (v + INT_LIMIT) % (2 * INT_LIMIT) - INT_LIMIT
  }

  /** Which numbers of a relocation, a symbol and a section are read with their sign. */
  const RELOC_SIGNS: seq<bool> := [false, false, false, false, true, true, false]
  const SYMBOL_SIGNS: seq<bool> := [false, false, false, true, false]
  const SECTION_SIGNS: seq<bool> := [false, false, false, false, false]

  lemma {:induction false} ReadNumbersCount(t: seq<Byte>, signed: seq<bool>)
    ensures ReadNumbers(t, signed).Some? ==> |ReadNumbers(t, signed).value.0| == |signed|
    decreases |signed|
  {
    if signed != [] {
      match ReadNumber(t, signed[0]) {
        case None =>
        case Some((v, rest)) => ReadNumbersCount(rest, signed[1..]);
      }
    }
  }

  /** A standard relocation; any other kind is followed by its size and skipped. The table of names that decides
      has one entry more than there are kinds. */
  ghost function ReadReloc(t: seq<Byte>): Option<(seq<Reloc>, seq<Byte>)> {
    match ReadNumber(t, false)
    case None => None
    case Some((kind, _)) =>
      if kind % 256 < 18 then
        ReadNumbersCount(t, RELOC_SIGNS);
        match ReadNumbers(t, RELOC_SIGNS)
        case None => None
        case Some((v, rest)) => Some(([Reloc(v[0] % 256, v[1], CInt(v[2]), CInt(v[3]), v[4], v[5], CInt(v[6]))], rest))
      else
        ReadNumbersCount(t, [false, false]);
        match ReadNumbers(t, [false, false])
        case None => None
        case Some((v, rest)) => if v[1] < 0 || v[1] > |rest| then None else Some(([], rest[v[1]..]))
  }

  ghost function ReadRelocs(t: seq<Byte>, n: int): Option<(seq<Reloc>, seq<Byte>)>
    decreases n
  {
    if n <= 0 then Some(([], t)) else
      match ReadReloc(t)
      case None => None
      case Some((r, rest)) =>
        match ReadRelocs(rest, n - 1)
        case None => None
        case Some((rs, rest')) => Some((r + rs, rest'))
  }

  /** A negative count asks for more memory than there is. */
  ghost function ReadSymbols(t: seq<Byte>, n: int): Option<(seq<Symbol>, seq<Byte>)>
    decreases n
  {
    if n < 0 then None else if n == 0 then Some(([], t)) else
      match ReadString(t)
      case None => None
      case Some((name, rest)) =>
        ReadNumbersCount(rest, SYMBOL_SIGNS);
        match ReadNumbers(rest, SYMBOL_SIGNS)
        case None => None
        case Some((v, rest1)) =>
          match ReadSymbols(rest1, n - 1)
          case None => None
          case Some((ss, rest2)) => Some(([Symbol(name, CInt(v[0]), CInt(v[1]), CInt(v[2]), v[3], CInt(v[4]))] + ss, rest2))
  }

  ghost function ReadSection(t: seq<Byte>): Option<(ObjectSection, seq<Byte>)> {
    match ReadString(t)
    case None => None
    case Some((name, rest)) =>
      match ReadString(rest)
      case None => None
      case Some((attr, rest1)) =>
        ReadNumbersCount(rest1, SECTION_SIGNS);
        match ReadNumbers(rest1, SECTION_SIGNS)
        case None => None
        case Some((v, rest2)) =>
          if v[4] < 0 || v[4] > |rest2| then None else
            match ReadRelocs(rest2[v[4]..], CInt(v[3]))
            case None => None
            case Some((relocs, rest3)) => Some((ObjectSection(name, attr, v[0], CInt(v[1]), v[2], rest2[..v[4]], relocs), rest3))
  }

  ghost function ReadSections(t: seq<Byte>, n: int): Option<(seq<ObjectSection>, seq<Byte>)>
    decreases n
  {
    if n < 0 then None else if n == 0 then Some(([], t)) else
      match ReadSection(t)
      case None => None
      case Some((s, rest)) =>
        match ReadSections(rest, n - 1)
        case None => None
        case Some((ss, rest')) => Some(([s] + ss, rest'))
  }

  /** vobjdump: refuses a wrong identification, endianness, byte size, and addresses of more than eight bytes. */
  ghost function ReadObject(t: seq<Byte>): Option<Object> {
    if |t| <= 5 || t[..4] != MAGIC || t[4] < 1 || t[4] > 2 then None else
      ReadNumbersCount(t[5..], [false, false]);
      match ReadNumbers(t[5..], [false, false])
      case None => None
      case Some((v, rest)) =>
        if CInt(v[0]) != 8 || CInt(v[1]) > 8 || CInt(v[1]) < 0 then None else
          match ReadString(rest)
          case None => None
          case Some((cpu, rest1)) =>
            ReadNumbersCount(rest1, [false, false]);
            match ReadNumbers(rest1, [false, false])
            case None => None
            case Some((w, rest2)) =>
              match ReadSymbols(rest2, CInt(w[1]))
              case None => None
              case Some((symbols, rest3)) =>
                match ReadSections(rest3, CInt(w[0]))
                case None => None
                case Some((sections, _)) => Some(Object(t[4], CInt(v[1]), cpu, symbols, sections))
  }

  // ----- numbers and strings come back -----

  predicate NoZero(s: seq<Byte>) {
    forall i :: 0 <= i < |s| ==> s[i] != 0
  }

  /** The range of a number that is read with or without its sign. */
  ghost predicate Representable(bpt: nat, signed: bool, val: int) {
    if signed then -(Power(bpt) as int) <= 2 * val < Power(bpt) else 0 <= val < Power(bpt)
  }

  lemma {:induction false} LowBytesBack(val: int, n: nat)
    requires -(Power(n) as int) <= val < Power(n)
    ensures FromBytes(LowBytes(val, n)) == if val < 0 then val + Power(n) else val
    decreases n
  {
    if n > 0 {
      var bs := LowBytes(val, n);
      assert bs[1..] == LowBytes(val / 256, n - 1);
      LowBytesBack(val / 256, n - 1);
    }
  }

  lemma NumberBack(bpt: nat, signed: bool, val: int, rest: seq<Byte>)
    requires 1 <= bpt < 8 && Representable(bpt, signed, val)
    ensures ReadNumber(NumberBytes(bpt, val) + rest, signed) == Some((val, rest))
  {
    var t := NumberBytes(bpt, val) + rest;
    if 0 <= val <= 127 {
      assert t[1..] == rest;
    } else {
      assert t[1..1 + bpt] == LowBytes(val, bpt);
      assert t[1 + bpt..] == rest;
      LowBytesBack(val, bpt);
    }
  }

  ghost predicate AllRepresentable(bpt: nat, signed: seq<bool>, vals: seq<int>) {
    |signed| == |vals| && forall i :: 0 <= i < |vals| ==> Representable(bpt, signed[i], vals[i])
  }

  lemma {:induction false} NumbersBack(bpt: nat, signed: seq<bool>, vals: seq<int>, rest: seq<Byte>)
    requires 1 <= bpt < 8 && AllRepresentable(bpt, signed, vals)
    ensures ReadNumbers(NumbersBytes(bpt, vals) + rest, signed) == Some((vals, rest))
    decreases |vals|
  {
    hide ReadNumber, NumberBytes, Representable;
    if vals == [] {
      assert NumbersBytes(bpt, vals) + rest == rest;
    } else {
      var more := NumbersBytes(bpt, vals[1..]) + rest;
      assert NumbersBytes(bpt, vals) + rest == NumberBytes(bpt, vals[0]) + more;
      NumberBack(bpt, signed[0], vals[0], more);
      NumbersBack(bpt, signed[1..], vals[1..], rest);
      assert [vals[0]] + vals[1..] == vals;
    }
  }

  lemma {:induction false} StringBack(s: seq<Byte>, rest: seq<Byte>)
    requires NoZero(s)
    ensures ReadString(StringBytes(s) + rest) == Some((s, rest))
  {
    var t := StringBytes(s) + rest;
    if s == [] {
      assert t[1..] == rest;
    } else {
      assert t[1..] == StringBytes(s[1..]) + rest;
      StringBack(s[1..], rest);
      assert [s[0]] + s[1..] == s;
    }
  }

  // ----- objects come back -----

  /** The standard kinds, REL_NONE to REL_SECOFF. */
  predicate Standard(r: Reloc) {
    0 <= r.kind <= 16
  }

  ghost predicate GoodReloc(bpt: nat, r: Reloc) {
    Standard(r) && AllRepresentable(bpt, RELOC_SIGNS, RelocFields(r))
    && r.bitOffset < INT_LIMIT && r.size < INT_LIMIT && r.symbol < INT_LIMIT
  }

  ghost predicate GoodSymbol(bpt: nat, s: Symbol) {
    NoZero(s.name) && AllRepresentable(bpt, SYMBOL_SIGNS, SymbolFields(s))
    && s.kind < INT_LIMIT && s.flags < INT_LIMIT && s.section < INT_LIMIT && s.size < INT_LIMIT
  }

  ghost predicate GoodSection(bpt: nat, s: ObjectSection) {
    && NoZero(s.name) && NoZero(s.attr) && AllRepresentable(bpt, SECTION_SIGNS, SectionFields(s))
    && s.align < INT_LIMIT && |s.relocs| < INT_LIMIT
    && forall i :: 0 <= i < |s.relocs| ==> GoodReloc(bpt, s.relocs[i])
  }

  ghost predicate GoodObject(o: Object) {
    && 1 <= o.bytesPerTaddr < 8 && 1 <= o.endian <= 2 && NoZero(o.cpu)
    && AllRepresentable(o.bytesPerTaddr, [false, false], [|o.sections|, |o.symbols|])
    && |o.sections| < INT_LIMIT && |o.symbols| < INT_LIMIT
    && (forall i :: 0 <= i < |o.symbols| ==> GoodSymbol(o.bytesPerTaddr, o.symbols[i]))
    && (forall i :: 0 <= i < |o.sections| ==> GoodSection(o.bytesPerTaddr, o.sections[i]))
  }

  lemma RelocBack(bpt: nat, r: Reloc, rest: seq<Byte>)
    requires 1 <= bpt < 8 && GoodReloc(bpt, r)
    ensures ReadReloc(NumbersBytes(bpt, RelocFields(r)) + rest) == Some(([r], rest))
  {
    hide ReadNumbers, NumbersBytes, ReadNumber, NumberBytes;
    NumbersBack(bpt, RELOC_SIGNS, RelocFields(r), rest);
    FirstNumber(bpt, r, rest);
  }

  lemma FirstNumber(bpt: nat, r: Reloc, rest: seq<Byte>)
    requires 1 <= bpt < 8 && GoodReloc(bpt, r)
    ensures exists more :: ReadNumber(NumbersBytes(bpt, RelocFields(r)) + rest, false) == Some((r.kind, more))
  {
    hide ReadNumber, NumberBytes;
    var fields := RelocFields(r);
    var more := NumbersBytes(bpt, fields[1..]) + rest;
    assert NumbersBytes(bpt, fields) + rest == NumberBytes(bpt, r.kind) + more;
    assert Representable(bpt, RELOC_SIGNS[0], fields[0]);
    NumberBack(bpt, false, r.kind, more);
  }

  lemma {:induction false} RelocsBack(bpt: nat, rs: seq<Reloc>, rest: seq<Byte>)
    requires 1 <= bpt < 8 && forall i :: 0 <= i < |rs| ==> GoodReloc(bpt, rs[i])
    ensures ReadRelocs(RelocsBytes(bpt, rs) + rest, |rs|) == Some((rs, rest))
  {
    hide ReadReloc, NumbersBytes, AllRepresentable;
    if rs == [] {
      assert RelocsBytes(bpt, rs) + rest == rest;
    } else {
      var more := RelocsBytes(bpt, rs[1..]) + rest;
      assert RelocsBytes(bpt, rs) + rest == NumbersBytes(bpt, RelocFields(rs[0])) + more;
      RelocBack(bpt, rs[0], more);
      RelocsBack(bpt, rs[1..], rest);
      assert [rs[0]] + rs[1..] == rs;
    }
  }

  lemma FieldsAreInts(bpt: nat, signed: seq<bool>, vals: seq<int>, i: nat)
    requires AllRepresentable(bpt, signed, vals) && i < |vals| && !signed[i] && vals[i] < INT_LIMIT
    ensures CInt(vals[i]) == vals[i]
  {
    assert Representable(bpt, signed[i], vals[i]);
  }

  lemma {:induction false} SymbolsBack(bpt: nat, ss: seq<Symbol>, rest: seq<Byte>)
    requires 1 <= bpt < 8 && forall i :: 0 <= i < |ss| ==> GoodSymbol(bpt, ss[i])
    ensures ReadSymbols(SymbolsBytes(bpt, ss) + rest, |ss|) == Some((ss, rest))
  {
    hide ReadNumbers, NumbersBytes, AllRepresentable, StringBytes, ReadString;
    if ss == [] {
      assert SymbolsBytes(bpt, ss) + rest == rest;
    } else {
      var more := SymbolsBytes(bpt, ss[1..]) + rest;
      var fields := NumbersBytes(bpt, SymbolFields(ss[0])) + more;
      assert SymbolsBytes(bpt, ss) + rest == StringBytes(ss[0].name) + fields;
      StringBack(ss[0].name, fields);
      NumbersBack(bpt, SYMBOL_SIGNS, SymbolFields(ss[0]), more);
      SymbolsBack(bpt, ss[1..], rest);
      forall i | i in {0, 1, 2, 4}
        ensures CInt(SymbolFields(ss[0])[i]) == SymbolFields(ss[0])[i]
      {
        FieldsAreInts(bpt, SYMBOL_SIGNS, SymbolFields(ss[0]), i);
      }
      assert [ss[0]] + ss[1..] == ss;
    }
  }

  lemma SectionBack(bpt: nat, s: ObjectSection, rest: seq<Byte>)
    requires 1 <= bpt < 8 && GoodSection(bpt, s)
    ensures ReadSection(SectionBytes(bpt, s) + rest) == Some((s, rest))
  {
    hide ReadNumbers, NumbersBytes, AllRepresentable, StringBytes, ReadString, RelocsBytes, ReadRelocs;
    var relocs := RelocsBytes(bpt, s.relocs) + rest;
    var contents := s.data + relocs;
    var fields := NumbersBytes(bpt, SectionFields(s)) + contents;
    var attr := StringBytes(s.attr) + fields;
    assert SectionBytes(bpt, s) + rest == StringBytes(s.name) + attr;
    StringBack(s.name, attr);
    StringBack(s.attr, fields);
    NumbersBack(bpt, SECTION_SIGNS, SectionFields(s), contents);
    FieldsAreInts(bpt, SECTION_SIGNS, SectionFields(s), 1);
    FieldsAreInts(bpt, SECTION_SIGNS, SectionFields(s), 3);
    assert contents[..|s.data|] == s.data && contents[|s.data|..] == relocs;
    RelocsBack(bpt, s.relocs, rest);
  }

  lemma {:induction false} SectionsBack(bpt: nat, ss: seq<ObjectSection>, rest: seq<Byte>)
    requires 1 <= bpt < 8 && forall i :: 0 <= i < |ss| ==> GoodSection(bpt, ss[i])
    ensures ReadSections(SectionsBytes(bpt, ss) + rest, |ss|) == Some((ss, rest))
  {
    hide ReadSection, SectionBytes, GoodSection;
    if ss == [] {
      assert SectionsBytes(bpt, ss) + rest == rest;
    } else {
      var more := SectionsBytes(bpt, ss[1..]) + rest;
      assert SectionsBytes(bpt, ss) + rest == SectionBytes(bpt, ss[0]) + more;
      SectionBack(bpt, ss[0], more);
      SectionsBack(bpt, ss[1..], rest);
      assert [ss[0]] + ss[1..] == ss;
    }
  }

  lemma SmallRepresentable(bpt: nat)
    requires 1 <= bpt < 8
    ensures AllRepresentable(bpt, [false, false], [8, bpt])
  {
    assert Power(bpt) == 256 * Power(bpt - 1);
  }

  /** Reading the bytes of an object whose numbers fit gives the object: header, symbols, section contents and
      relocations. */
  lemma ObjectBack(o: Object)
    requires GoodObject(o)
    ensures ReadObject(ObjectBytes(o)) == Some(o)
  {
    hide ReadNumbers, NumbersBytes, AllRepresentable, StringBytes, ReadString, SymbolsBytes, SectionsBytes, ReadSymbols,
         ReadSections, GoodSymbol, GoodSection;
    var bpt := o.bytesPerTaddr;
    var sections := SectionsBytes(bpt, o.sections);
    var symbols := SymbolsBytes(bpt, o.symbols) + sections;
    var counts := NumbersBytes(bpt, [|o.sections|, |o.symbols|]) + symbols;
    var cpu := StringBytes(o.cpu) + counts;
    var sizes := NumbersBytes(bpt, [8, bpt]) + cpu;
    var t := ObjectBytes(o);
    assert t == MAGIC + [o.endian] + sizes;
    SmallRepresentable(bpt);
    NumbersBack(bpt, [false, false], [8, bpt], cpu);
    StringBack(o.cpu, counts);
    NumbersBack(bpt, [false, false], [|o.sections|, |o.symbols|], symbols);
    SymbolsBack(bpt, o.symbols, sections);
    SectionsBack(bpt, o.sections, []);
    assert sections + [] == sections;
    assert t[..4] == MAGIC && t[4] == o.endian && t[5..] == sizes;
    SizesNotEmpty(bpt, cpu);
  }

  lemma SizesNotEmpty(bpt: nat, rest: seq<Byte>)
    requires bpt < 128
    ensures |NumbersBytes(bpt, [8, bpt]) + rest| > 0
  {}
}
