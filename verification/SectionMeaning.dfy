/** What the bytes of a section mean, atom by atom and byte by byte. */
module SectionMeaning {
  import opened Sections

  predicate IsMultiple(x: int, a: nat)
    requires a > 0
  {
    x % a == 0
  }

  /** Aligning went from before to start: to the first multiple, or nowhere where that is beyond the limit. */
  ghost predicate AlignedFrom(a: Atom, before: int, start: int) {
    if a.align == 0 then start == before
    else if a.content.Space? && a.content.maxAlign != 0
            && (forall x :: before <= x <= before + a.content.maxAlign ==> !IsMultiple(x, a.align)) then
      start == before
    else
      before <= start && IsMultiple(start, a.align) && forall x :: before <= x < start ==> !IsMultiple(x, a.align)
  }

  /** The gap before an atom: its own pattern if it only aligns, else the section's, ending with a whole pattern and
      beginning with zeros where the pattern does not fit. */
  ghost predicate Gap(s: seq<Byte>, a: Atom, pad: seq<Byte>)
    requires WellFormed(a, pad)
  {
    var p := if AlignsOnly(a) then a.content.fill else pad;
    forall i :: 0 <= i < |s| ==> s[i] == if i < |s| % |p| then 0 else p[(i - |s| % |p|) % |p|]
  }

  ghost predicate IsContent(s: seq<Byte>, a: Atom) {
    match a.content
    case Data(bytes) => s == bytes
    case Space(space, fill, _) => |s| == |fill| * space && forall i :: 0 <= i < |s| ==> fill != [] && s[i] == fill[i % |fill|]
    case NoBytes => s == []
  }

  lemma {:induction false} RepeatAt(p: seq<Byte>, k: nat, i: nat)
    requires p != [] && i < |p| * k
    ensures |Repeat(p, k)| == |p| * k && Repeat(p, k)[i] == p[i % |p|]
  {
    RepeatLength(p, k);
    RepeatLength(p, k - 1);
    assert |p| * k == |p| * (k - 1) + |p|;
    if i < |p| * (k - 1) {
      RepeatAt(p, k - 1, i);
    } else {
      LastOfRow(|p|, k - 1, i - |p| * (k - 1));
    }
  }

  lemma LastOfRow(n: nat, q: nat, r: nat)
    requires r < n
    ensures (n * q + r) % n == r
  {
    var x := n * q + r;
    assert n * (x / n) + x % n == n * q + r;
    NoRest(n, x / n - q, r - x % n) by {
      ProductBounds(n, x / n - q);
    }
  }

  lemma PatternIsGap(p: seq<Byte>, n: nat, i: nat)
    requires p != [] && i < n
    ensures |Pattern(p, n)| == n
    ensures Pattern(p, n)[i] == if i < n % |p| then 0 else p[(i - n % |p|) % |p|]
  {
    PatternLength(p, n);
    RepeatLength(p, n / |p|);
    assert n == |p| * (n / |p|) + n % |p|;
    if i >= n % |p| { RepeatAt(p, n / |p|, i - n % |p|); }
  }

  lemma AlignsFirst(a: Atom, pc: nat)
    ensures AlignedFrom(a, pc, Pcalign(a, pc))
  {
    if a.align > 0 {
      var n := Balign(pc, a.align);
      forall x | pc <= x < pc + n
        ensures !IsMultiple(x, a.align)
      {
        FirstMultiple(pc, a.align, x);
      }
      assert IsMultiple(pc + n, a.align);
    }
  }

  lemma FirstMultiple(addr: nat, a: nat, x: int)
    requires a > 0 && addr <= x < addr + Balign(addr, a)
    ensures x % a != 0
  {
    var q := addr / a;
    assert addr == a * q + addr % a;
    LastOfRow(a, q, addr % a + (x - addr));
  }

  lemma PaddingIsGap(a: Atom, pad: seq<Byte>, pc: nat)
    requires WellFormed(a, pad)
    ensures Gap(Padding(a, pad, pc), a, pad)
  {
    hide Balign, Pattern;
    var n := Balign(pc, a.align);
    var p := if AlignsOnly(a) then a.content.fill else pad;
    forall i | 0 <= i < n
      ensures |Pattern(p, n)| == n && Pattern(p, n)[i] == if i < n % |p| then 0 else p[(i - n % |p|) % |p|]
    {
      PatternIsGap(p, n, i);
    }
    PatternLength(p, n);
  }

  lemma ContentIsMeant(a: Atom)
    ensures IsContent(ContentBytes(a), a)
  {
    if a.content.Space? {
      var fill, k := a.content.fill, a.content.space;
      RepeatLength(fill, k);
      forall i | 0 <= i < |Repeat(fill, k)|
        ensures fill != [] && Repeat(fill, k)[i] == fill[i % |fill|]
      {
        RepeatAt(fill, k, i);
      }
    }
  }

  lemma {:induction false} BytesSplit(atoms: seq<Atom>, pad: seq<Byte>, pc: nat, k: nat)
    requires AllWellFormed(atoms, pad) && k <= |atoms|
    ensures AllWellFormed(atoms[..k], pad) && AllWellFormed(atoms[k..], pad)
    ensures var before := Bytes(atoms[..k], pad, pc);
            Bytes(atoms, pad, pc) == before + Bytes(atoms[k..], pad, pc + |before|)
  {
    hide Padding, ContentBytes, WellFormed;
    PartsWellFormed(atoms, pad, k);
    if k == 0 {
      assert atoms[0..] == atoms && atoms[..0] == [];
    } else {
      PartsWellFormed(atoms, pad, 1);
      var bs := Padding(atoms[0], pad, pc) + ContentBytes(atoms[0]);
      BytesSplit(atoms[1..], pad, pc + |bs|, k - 1);
      assert atoms[1..][..k - 1] == atoms[..k][1..] && atoms[1..][k - 1..] == atoms[k..];
    }
  }

  lemma PartsWellFormed(atoms: seq<Atom>, pad: seq<Byte>, k: nat)
    requires AllWellFormed(atoms, pad) && k <= |atoms|
    ensures AllWellFormed(atoms[..k], pad) && AllWellFormed(atoms[k..], pad)
    ensures forall i :: 0 <= i < |atoms| ==> WellFormed(atoms[i], pad)
  {
    forall a | a in atoms[..k] || a in atoms[k..]
      ensures WellFormed(a, pad)
    {
      assert a in atoms;
    }
  }

  lemma {:induction false} PlaceStep(atoms: seq<Atom>, pc: nat, k: nat)
    requires k < |atoms|
    ensures Place(atoms[..k + 1], pc) == Pcalign(atoms[k], Place(atoms[..k], pc)) + |ContentBytes(atoms[k])|
  {
    hide Pcalign, ContentBytes;
    if k == 0 {
      assert atoms[..1][1..] == [] && atoms[..0] == [];
    } else {
      assert atoms[..k + 1][1..] == atoms[1..][..k] && atoms[..k][1..] == atoms[1..][..k - 1];
      PlaceStep(atoms[1..], Pcalign(atoms[0], pc) + |ContentBytes(atoms[0])|, k - 1);
    }
  }

  /** Every atom of a section lies behind the one before, aligned and with the gap filled, and has its contents. With
      the layout's beginning and end, which Place gives, this says what every byte of a section is. */
  lemma AtomPlaced(atoms: seq<Atom>, pad: seq<Byte>, pc: nat, k: nat)
    requires AllWellFormed(atoms, pad) && LimitsAlignOnly(atoms) && k < |atoms|
    ensures WellFormed(atoms[k], pad)
    ensures var before := Place(atoms[..k], pc);
            var end := Place(atoms[..k + 1], pc);
            var start := end - |ContentBytes(atoms[k])|;
            var bs := Bytes(atoms, pad, pc);
      && pc <= before <= start <= end <= pc + |bs|
      && AlignedFrom(atoms[k], before, start)
      && Gap(bs[before - pc..start - pc], atoms[k], pad)
      && IsContent(bs[start - pc..end - pc], atoms[k])
  {
    hide Padding, ContentBytes, AlignedFrom, Gap, IsContent, Pcalign;
    var a := atoms[k];
    PartsWellFormed(atoms, pad, k);
    BytesSplit(atoms, pad, pc, k);
    var first := Bytes(atoms[..k], pad, pc);
    LimitsInPrefix(atoms, k);
    BytesFillLayout(atoms[..k], pad, pc);
    PlaceStep(atoms, pc, k);
    PaddingLength(a, pad, pc + |first|);
    AlignsFirst(a, pc + |first|);
    PaddingIsGap(a, pad, pc + |first|);
    ContentIsMeant(a);
    var gap, content := Padding(a, pad, pc + |first|), ContentBytes(a);
    var rest := Bytes(atoms[k..][1..], pad, pc + |first| + |gap + content|);
    var bs := Bytes(atoms, pad, pc);
    assert bs == first + (gap + content + rest);
    assert bs[|first|..|first| + |gap|] == gap;
    assert bs[|first| + |gap|..|first| + |gap| + |content|] == content;
  }

  lemma LimitsInPrefix(atoms: seq<Atom>, k: nat)
    requires LimitsAlignOnly(atoms) && k <= |atoms|
    ensures LimitsAlignOnly(atoms[..k])
    ensures forall i :: 0 <= i < |atoms| && atoms[i].content.Space? && atoms[i].content.maxAlign != 0 ==> atoms[i].content.space == 0
  {}
}
