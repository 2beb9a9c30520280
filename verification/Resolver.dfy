/** resolve_section in vasm.c: label positions and atom sizes are computed again and again until nothing changes. */
module Resolver {
  import Sections

  const MAXPASSES := 1000
  const FASTOPTPHASE := 50
  const MAXSIZECHANGES := 5

  /** A label's symbol is a place in the table of label positions. */
  datatype Kind = Label(symbol: nat) | Rorg(address: nat) | RorgEnd | Instruction | Other

  /** limit is the greatest padding of a space atom, 0 if there is none. */
  datatype Atom = Atom(kind: Kind, align: nat, limit: nat)

  /** atom_size: the size of atom k under the given label positions, at a program counter, with the warning flag that
      asks for a stable size and the section's ABSOLUTE flag. */
  type SizeFunction = (nat, seq<nat>, nat, bool, bool) -> nat

  /** The state of the walk: the program counter, the address of the open RORG block, 0 if there is none, and the
      program counter before it, and the ABSOLUTE flag. */
  datatype Walk = Walk(pc: nat, rorg: nat, orgPc: nat, absolute: bool)

  type Cursor = w: Walk | w.rorg != 0 ==> w.rorg <= w.pc witness Walk(0, 0, 0, false)

  function Pcalign(a: Atom, pc: nat): (r: nat)
    ensures r >= pc
  {
    var n := Sections.Balign(pc, a.align);
    if a.limit != 0 && n > a.limit then pc else pc + n
  }

  /** The cursor at an atom: after alignment, and inside or outside of the RORG block that it opens or closes. */
  function Enter(a: Atom, c: Cursor): Cursor {
    var d := c.(pc := Pcalign(a, c.pc));
    match a.kind
    case Rorg(address) => Walk(address, address, d.pc, true)
    case RorgEnd => if d.rorg != 0 then Walk(d.orgPc + (d.pc - d.rorg), 0, d.orgPc, false) else d
    case _ => d
  }

  function Pass(c: Cursor, size: nat): Cursor {
    c.(pc := c.pc + size)
  }

  /** The cursor before atom k in an aligned walk that uses the recorded sizes. */
  function CursorAt(atoms: seq<Atom>, start: Cursor, sizes: seq<nat>, k: nat): Cursor
    requires k <= |atoms| == |sizes|
  {
    if k == 0 then start else Pass(Enter(atoms[k - 1], CursorAt(atoms, start, sizes, k - 1)), sizes[k - 1])
  }

  function EntryAt(atoms: seq<Atom>, start: Cursor, sizes: seq<nat>, k: nat): Cursor
    requires k < |atoms| == |sizes|
  {
    Enter(atoms[k], CursorAt(atoms, start, sizes, k))
  }

  predicate Labelled(atoms: seq<Atom>, count: nat) {
    forall k :: 0 <= k < |atoms| && atoms[k].kind.Label? ==> atoms[k].kind.symbol < count
  }

  /** What is right about atom k: its label is where the walk with the recorded sizes puts it, and its size computed
      again under the label positions is the recorded one. */
  ghost predicate RightAt(atoms: seq<Atom>, start: Cursor, size: SizeFunction, labels: seq<nat>, sizes: seq<nat>,
                          changes: seq<nat>, k: nat)
    requires k < |atoms| == |sizes| == |changes| && Labelled(atoms, |labels|)
  {
    var c := EntryAt(atoms, start, sizes, k);
    && (atoms[k].kind.Label? ==> labels[atoms[k].kind.symbol] == c.pc)
    && size(k, labels, c.pc, changes[k] > MAXSIZECHANGES, c.absolute) == sizes[k]
  }

  /** The layout is a fixpoint. */
  ghost predicate Fixpoint(atoms: seq<Atom>, start: Cursor, size: SizeFunction, labels: seq<nat>, sizes: seq<nat>,
                           changes: seq<nat>)
    requires |atoms| == |sizes| == |changes| && Labelled(atoms, |labels|)
  {
    forall k :: 0 <= k < |atoms| ==> RightAt(atoms, start, size, labels, sizes, changes, k)
  }

  ghost predicate InstructionsKeptBut(atoms: seq<Atom>, before: seq<nat>, after: seq<nat>, j: nat)
    requires |atoms| == |before| == |after|
  {
    forall k :: 0 <= k < |atoms| && atoms[k].kind.Instruction? && k != j ==> after[k] == before[k]
  }

  /** At most one instruction has another size than before. */
  ghost predicate OneInstructionChanged(atoms: seq<Atom>, before: seq<nat>, after: seq<nat>)
    requires |atoms| == |before| == |after|
  {
    exists j: nat :: InstructionsKeptBut(atoms, before, after, j)
  }

  predicate NoRorg(atoms: seq<Atom>) {
    forall k :: 0 <= k < |atoms| ==> !atoms[k].kind.Rorg?
  }

  /** One pass over the section. In safe mode, once anything has changed, the following instructions keep their
      sizes. */
  method RunPass(atoms: seq<Atom>, org: nat, absolute: bool, size: SizeFunction, labels: array<nat>,
                 lastsize: array<nat>, changes: array<nat>, safe: bool)
    returns (done: bool, grew: bool, errors: nat, absoluteAfter: bool)
    requires |atoms| == lastsize.Length == changes.Length && Labelled(atoms, labels.Length)
    requires labels != lastsize && labels != changes && lastsize != changes
    modifies labels, lastsize, changes
    ensures done ==> labels[..] == old(labels[..]) && lastsize[..] == old(lastsize[..]) && changes[..] == old(changes[..])
    ensures done ==> Fixpoint(atoms, Walk(org, 0, 0, absolute), size, labels[..], lastsize[..], changes[..])
    ensures safe ==> OneInstructionChanged(atoms, old(lastsize[..]), lastsize[..])
    ensures !safe ==> changes[..] == old(changes[..])
    ensures NoRorg(atoms) ==> errors == 0
  {
    hide Enter;
    ghost var start: Cursor := Walk(org, 0, 0, absolute);
    ghost var labels0, sizes0, changes0 := labels[..], lastsize[..], changes[..];
    ghost var j: int := -1;
    var c: Cursor := Walk(org, 0, 0, absolute);
    done, grew, errors := true, false, 0;
    for k := 0 to |atoms|
      invariant done ==> labels[..] == labels0 && lastsize[..] == sizes0 && changes[..] == changes0
      invariant done ==> c == CursorAt(atoms, start, sizes0, k)
      invariant done ==> forall i :: 0 <= i < k ==> RightAt(atoms, start, size, labels0, sizes0, changes0, i)
      invariant -1 <= j < k && (done ==> j == -1)
      invariant forall i :: k <= i < |atoms| ==> lastsize[i] == sizes0[i]
      invariant safe ==> forall i :: 0 <= i < k && atoms[i].kind.Instruction? && i != j ==> lastsize[i] == sizes0[i]
      invariant !safe ==> changes[..] == changes0
      invariant NoRorg(atoms) ==> errors == 0
    {
      var a := atoms[k];
      if a.kind.Rorg? && c.rorg != 0 {
        errors := errors + 1;
      }
      c := Enter(a, c);
      if a.kind.Label? && labels[a.kind.symbol] != c.pc {
        done := false;
        labels[a.kind.symbol] := c.pc;
      }
      if safe && !done && a.kind.Instruction? {
        c := Pass(c, lastsize[k]);
      } else {
        var s := size(k, labels[..], c.pc, changes[k] > MAXSIZECHANGES, c.absolute);
        if s != lastsize[k] {
          if done { j := k; }
          done := false;
          if safe {
            changes[k] := changes[k] + 1;
          } else if s > lastsize[k] {
            grew := true;
          }
          lastsize[k] := s;
        }
        c := Pass(c, s);
      }
    }
    absoluteAfter := if c.rorg != 0 then false else c.absolute;
    if safe {
      ghost var one: nat := if j < 0 then 0 else j;
      assert InstructionsKeptBut(atoms, sizes0, lastsize[..], one);
    }
  }

  /** resolve_section. It always stops with done set or an error. Before MAXPASSES, done means a fixpoint;
      at MAXPASSES done is still set, but nothing is known of the layout. absoluteAtEnd is the ABSOLUTE flag with
      which the last pass began. */
  method ResolveSection(atoms: seq<Atom>, org: nat, absolute: bool, size: SizeFunction, labels: array<nat>,
                        lastsize: array<nat>, changes: array<nat>)
    returns (done: bool, errors: nat, passes: nat, ghost absoluteAtEnd: bool)
    requires |atoms| == lastsize.Length == changes.Length && Labelled(atoms, labels.Length)
    requires labels != lastsize && labels != changes && lastsize != changes
    modifies labels, lastsize, changes
    ensures passes <= MAXPASSES && (errors == 0 ==> done && passes < MAXPASSES)
    ensures passes == MAXPASSES ==> done && errors > 0
    ensures errors > 0 && NoRorg(atoms) ==> passes == MAXPASSES
    ensures done && passes < MAXPASSES ==>
              Fixpoint(atoms, Walk(org, 0, 0, absoluteAtEnd), size, labels[..], lastsize[..], changes[..])
    ensures errors == 0 && passes <= FASTOPTPHASE ==> changes[..] == old(changes[..])
  {
    hide Fixpoint, OneInstructionChanged;
    var fastphase, flag := FASTOPTPHASE, absolute;
    passes, errors, done := 0, 0, false;
    absoluteAtEnd := absolute;
    while errors == 0 && !done
      invariant passes < MAXPASSES && (NoRorg(atoms) ==> errors == 0)
      invariant fastphase >= FASTOPTPHASE
      invariant passes <= FASTOPTPHASE ==> changes[..] == old(changes[..])
      invariant done ==>
                  Fixpoint(atoms, Walk(org, 0, 0, absoluteAtEnd), size, labels[..], lastsize[..], changes[..])
      decreases MAXPASSES - passes, !done
    {
      passes := passes + 1;
      if passes >= MAXPASSES {
        errors := errors + 1;
        done := true;
        break;
      }
      var extrapass := passes <= fastphase;
      absoluteAtEnd := flag;
      var grew, more;
      done, grew, more, flag := RunPass(atoms, org, flag, size, labels, lastsize, changes, passes > fastphase);
      errors := errors + more;
      if extrapass && !grew {
        fastphase := fastphase + 1;
      }
    }
  }

  // ----- a size that never settles -----

  /** An instruction that is longer when the label behind it is at 1, and shorter otherwise. */
  const SWINGING: seq<Atom> := [Atom(Instruction, 0, 0), Atom(Label(0), 0, 0)]

  function Swing(k: nat, labels: seq<nat>, pc: nat, warn: bool, absolute: bool): nat {
    if k == 0 && |labels| > 0 then if labels[0] == 1 then 2 else 1 else 0
  }

  lemma NoLayoutFits(absolute: bool, labels: seq<nat>, sizes: seq<nat>, changes: seq<nat>)
    requires |labels| == 1 && |sizes| == |changes| == 2
    ensures Labelled(SWINGING, 1) && !Fixpoint(SWINGING, Walk(0, 0, 0, absolute), Swing, labels, sizes, changes)
  {
    var start: Cursor := Walk(0, 0, 0, absolute);
    assert CursorAt(SWINGING, start, sizes, 0) == start;
    assert EntryAt(SWINGING, start, sizes, 0) == start;
    assert CursorAt(SWINGING, start, sizes, 1).pc == sizes[0];
    assert EntryAt(SWINGING, start, sizes, 1).pc == sizes[0];
    assert !RightAt(SWINGING, start, Swing, labels, sizes, changes, 0)
        || !RightAt(SWINGING, start, Swing, labels, sizes, changes, 1);
  }

  /** Here resolve_section gives up at MAXPASSES, with done set, without a fixpoint. */
  method SwingingIsNotResolved(absolute: bool, labels: array<nat>, lastsize: array<nat>, changes: array<nat>)
    returns (done: bool, errors: nat, passes: nat)
    requires labels.Length == 1 && lastsize.Length == changes.Length == 2 && lastsize != changes
    modifies labels, lastsize, changes
    ensures done && errors > 0 && passes == MAXPASSES
    ensures forall a :: !Fixpoint(SWINGING, Walk(0, 0, 0, a), Swing, labels[..], lastsize[..], changes[..])
  {
    ghost var last;
    done, errors, passes, last := ResolveSection(SWINGING, 0, absolute, Swing, labels, lastsize, changes);
    NoLayoutFits(last, labels[..], lastsize[..], changes[..]);
    forall a
      ensures !Fixpoint(SWINGING, Walk(0, 0, 0, a), Swing, labels[..], lastsize[..], changes[..])
    {
      NoLayoutFits(a, labels[..], lastsize[..], changes[..]);
    }
  }
}
