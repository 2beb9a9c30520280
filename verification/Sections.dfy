/** Sections and atoms of vasm as the output modules find them: everything that has bytes is data or space. */
module Sections {
  type Byte = x: int | 0 <= x < 256

  /** Space is `space` repetitions of fill; maxAlign limits the padding before it, 0 meaning no limit. */
  datatype Content = Data(bytes: seq<Byte>) | Space(space: nat, fill: seq<Byte>, maxAlign: nat) | NoBytes

  datatype Atom = Atom(align: nat, content: Content)

  datatype Section = Section(name: seq<Byte>, org: nat, pad: seq<Byte>, atoms: seq<Atom>)

  /** balign: the bytes from addr to the next multiple of a, for a power of two; none without alignment. */
  function Balign(addr: nat, a: nat): (n: nat)
    ensures a > 0 ==> n < a && (addr + n) % a == 0
    ensures a == 0 ==> n == 0
  {
    if a == 0 then 0 else Aligning(addr, a)
  }

  function Aligning(addr: nat, a: nat): (n: nat)
    requires a > 0
    ensures n < a && (addr + n) % a == 0
  {
    AligningWorks(addr, a);
    if addr % a == 0 then 0 else a - addr % a
  }

  lemma AligningWorks(addr: nat, a: nat)
    requires a > 0
    ensures addr % a != 0 ==> (addr + (a - addr % a)) % a == 0
  {
    var q := addr / a;
    assert addr == a * q + addr % a;
    if addr % a != 0 {
      assert addr + (a - addr % a) == a * (q + 1);
      MultipleIsAligned(a, q + 1);
    }
  }

  lemma MultipleIsAligned(a: nat, q: nat)
    requires a > 0
    ensures (a * q) % a == 0
  {
    NoRest(a, q - (a * q) / a, (a * q) % a);
  }

  lemma ProductBounds(a: nat, k: int)
    ensures (k >= 1 ==> a * k >= a) && (k <= -1 ==> a * k + a <= 0)
  {}

  lemma NoRest(a: nat, k: int, r: int)
    requires a > 0 && a * k == r && 0 <= r < a
    ensures r == 0
  {
    ProductBounds(a, k);
    assert k == 0;
  }

  function Zeros(n: nat): (z: seq<Byte>)
    ensures |z| == n
  {
    seq(n, _ => 0)
  }

  function Repeat(p: seq<Byte>, k: nat): seq<Byte> {
    if k == 0 then [] else Repeat(p, k - 1) + p
  }

  /** Padding of n bytes with a pattern: zeros until the rest is a multiple of the pattern's length. */
  function Pattern(p: seq<Byte>, n: nat): seq<Byte>
    requires p != []
  {
    Zeros(n % |p|) + Repeat(p, n / |p|)
  }

  lemma {:induction false} RepeatLength(p: seq<Byte>, k: nat)
    ensures |Repeat(p, k)| == |p| * k
  {
    if k > 0 {
      RepeatLength(p, k - 1);
      assert |p| * k == |p| * (k - 1) + |p|;
    }
  }

  lemma PatternLength(p: seq<Byte>, n: nat)
    requires p != []
    ensures |Pattern(p, n)| == n
  {
    RepeatLength(p, n / |p|);
  }

  /** A space atom without space only aligns, with its own pattern and within its limit. */
  predicate AlignsOnly(a: Atom) {
    a.content.Space? && a.content.space == 0
  }

  /** The padding that the writers put before an atom at pc. */
  function Padding(a: Atom, pad: seq<Byte>, pc: nat): seq<Byte>
    requires WellFormed(a, pad)
  {
    var n := Balign(pc, a.align);
    if n == 0 then []
    else if AlignsOnly(a) then
      if a.content.maxAlign != 0 && n > a.content.maxAlign then [] else Pattern(a.content.fill, n)
    else Pattern(pad, n)
  }

  /** Patterns are never empty. */
  predicate WellFormed(a: Atom, pad: seq<Byte>) {
    pad != [] && (AlignsOnly(a) ==> a.content.fill != [])
  }

  predicate AllWellFormed(atoms: seq<Atom>, pad: seq<Byte>) {
    forall a :: a in atoms ==> WellFormed(a, pad)
  }

  function ContentBytes(a: Atom): seq<Byte> {
    match a.content
    case Data(bytes) => bytes
    case Space(space, fill, _) => Repeat(fill, space)
    case NoBytes => []
  }

  /** The bytes of a section from pc on. */
  function Bytes(atoms: seq<Atom>, pad: seq<Byte>, pc: nat): seq<Byte>
    requires AllWellFormed(atoms, pad)
  {
    if atoms == [] then [] else
      var bs := Padding(atoms[0], pad, pc) + ContentBytes(atoms[0]);
      bs + Bytes(atoms[1..], pad, pc + |bs|)
  }

  // ----- the layout that the assembler computed -----

  /** pcalign: the limit on padding also applies to a space atom that has space. */
  function Pcalign(a: Atom, pc: nat): nat {
    var n := Balign(pc, a.align);
    pc + if a.content.Space? && a.content.maxAlign != 0 && n > a.content.maxAlign then 0 else n
  }

  /** The program counter behind the atoms. */
  function Place(atoms: seq<Atom>, pc: nat): nat {
    if atoms == [] then pc else Place(atoms[1..], Pcalign(atoms[0], pc) + |ContentBytes(atoms[0])|)
  }

  /** Space atoms whose alignment is limited have no space. */
  predicate LimitsAlignOnly(atoms: seq<Atom>) {
    forall a :: a in atoms && a.content.Space? && a.content.maxAlign != 0 ==> a.content.space == 0
  }

  lemma PaddingLength(a: Atom, pad: seq<Byte>, pc: nat)
    requires WellFormed(a, pad) && (a.content.Space? && a.content.maxAlign != 0 ==> a.content.space == 0)
    ensures pc + |Padding(a, pad, pc)| == Pcalign(a, pc)
  {
    var n := Balign(pc, a.align);
    if n != 0 {
      PatternLength(pad, n);
      if AlignsOnly(a) { PatternLength(a.content.fill, n); }
    }
  }

  /** The writers' bytes fill exactly the layout, if limits on alignment are only put on atoms without space. */
  lemma {:induction false} BytesFillLayout(atoms: seq<Atom>, pad: seq<Byte>, pc: nat)
    requires AllWellFormed(atoms, pad) && LimitsAlignOnly(atoms)
    ensures pc + |Bytes(atoms, pad, pc)| == Place(atoms, pc)
  {
    if atoms != [] {
      assert atoms[0] in atoms;
      PaddingLength(atoms[0], pad, pc);
      BytesFillLayout(atoms[1..], pad, pc + |Padding(atoms[0], pad, pc) + ContentBytes(atoms[0])|);
    }
  }
}
