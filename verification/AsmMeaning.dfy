/** From the text of a line to what the processor does with it: mnemonics, operands and flags by their spelling, assembled,
    loaded and executed. */
module AsmMeaning {
  import opened AsmText
  import opened Assembler
  import opened BranchToLabel
  import Disassembler
  import B = CpuBanks
  import C = Cpu
  import M = CpuMeaning

  // ----- operands by their spelling -----

  function Digit(c: char): int {
    c as int - '0' as int
  }

  /** t spells the register number n in one or two digits. */
  predicate SpellsNumber(t: string, n: int) {
    && 0 <= n < 16 && (forall i :: 0 <= i < |t| ==> '0' <= t[i] <= '9')
    && ((|t| == 1 && Digit(t[0]) == n) || (|t| == 2 && 10 * Digit(t[0]) + Digit(t[1]) == n))
  }

  /** s spells Rn, @Rn, @Rn++ or @--Rn. */
  predicate Spells(s: string, mode: int, n: int) {
    match mode
    case 0 => |s| >= 1 && (s[0] == 'R' || s[0] == 'r') && SpellsNumber(s[1..], n)
    case 1 => |s| >= 2 && s[..2] == "@R" && SpellsNumber(s[2..], n)
    case 2 => |s| >= 4 && s[..2] == "@R" && s[|s| - 2..] == "++" && SpellsNumber(s[2..|s| - 2], n)
    case 3 => |s| >= 4 && s[..4] == "@--R" && SpellsNumber(s[4..], n)
    case _ => false
  }

  /** A source operand: one of these, or a number, which is read as @R15++. */
  predicate SpellsSource(s: string, mode: int, n: int) {
    Spells(s, mode, n) || (IsNumber(s) && mode == 2 && n == C.PC)
  }

  predicate InRegister(t: OperandType) {
    t != Illegal && t != Missing && t != LabelEqu && t != Constant
  }

  lemma NumberRead(t: string, n: int, junk: int)
    requires SpellsNumber(t, n)
    ensures Str2Int(t, junk) == (n, false)
  {
    var m := t[1..];
    assert Decimal(t, 0) == Decimal(m, DigitValue(t[0]));
    if |t| == 2 {
      assert Decimal(m, DigitValue(t[0])) == Decimal(m[1..], n);
    }
  }

  lemma SpelledDigits(t: string, n: int)
    requires SpellsNumber(t, n)
    ensures 0 <= n < 16 && 1 <= |t| <= 2 && forall i :: 0 <= i < |t| ==> IsDigit(t[i])
  {}

  lemma SpelledOperand(s: string, mode: int, n: int, junk: int)
    requires Spells(s, mode, n)
    ensures InRegister(DecodeOperand(s, junk).0) && DecodeOperand(s, junk).1 == 4 * n + mode && 0 <= mode < 4 && 0 <= n < 16
    ensures !IsNumber(s)
  {
    hide Str2Int, SpellsNumber;
    if mode == 0 {
      SpelledDigits(s[1..], n);
      NumberRead(s[1..], n, junk);
      assert forall i :: 1 <= i < |s| ==> s[i] == s[1..][i - 1];
    } else if mode == 1 {
      SpelledDigits(s[2..], n);
      NumberRead(s[2..], n, junk);
      assert s[..2][0] == '@' && s[..2][1] == 'R';
      assert s[|s| - 1] == s[2..][|s| - 3];
    } else if mode == 2 {
      SpelledDigits(s[2..|s| - 2], n);
      NumberRead(s[2..|s| - 2], n, junk);
      assert s[..2][0] == '@' && s[..2][1] == 'R';
      assert s[|s| - 2..][0] == s[|s| - 2] && s[|s| - 2..][1] == s[|s| - 1];
    } else {
      SpelledDigits(s[4..], n);
      NumberRead(s[4..], n, junk);
      assert s[..4][0] == '@' && s[..4][1] == '-';
    }
  }

  lemma SpelledSource(s: string, mode: int, n: int, junk: int)
    requires SpellsSource(s, mode, n)
    ensures var (t, code) := DecodeOperand(s, junk);
            t != Illegal && t != Missing && t != LabelEqu && (t == Constant <==> IsNumber(s)) && code == 4 * n + mode
    ensures 0 <= mode < 4 && 0 <= n < 16
  {
    hide Str2Int;
    if Spells(s, mode, n) {
      SpelledOperand(s, mode, n, junk);
    } else {
      ConstantBits(s, junk);
    }
  }

  // ----- mnemonics by their spelling -----

  lemma SameKind(m: string)
    ensures KindOf(UpperAll(m)) == KindOf(m)
  {
    assert UpperAll(UpperAll(m)) == UpperAll(m);
  }

  lemma NormalMnemonic(m: string)
    ensures var u := UpperAll(m);
      && (u == "MOVE" ==> KindOf(m) == Normal(0)) && (u == "ADD" ==> KindOf(m) == Normal(1))
      && (u == "ADDC" ==> KindOf(m) == Normal(2)) && (u == "SUB" ==> KindOf(m) == Normal(3))
      && (u == "SUBC" ==> KindOf(m) == Normal(4)) && (u == "SHL" ==> KindOf(m) == Normal(5))
      && (u == "SHR" ==> KindOf(m) == Normal(6)) && (u == "SWAP" ==> KindOf(m) == Normal(7))
      && (u == "NOT" ==> KindOf(m) == Normal(8)) && (u == "AND" ==> KindOf(m) == Normal(9))
      && (u == "OR" ==> KindOf(m) == Normal(10)) && (u == "XOR" ==> KindOf(m) == Normal(11))
      && (u == "CMP" ==> KindOf(m) == Normal(12))
  {
    hide KindOf, UpperAll;
    SameKind(m);
    forall op | 0 <= op < 13
      ensures KindOf(NORMAL[op]) == Normal(op)
    {
      Disassembler.NormalKind(op);
    }
    assert NORMAL[0] == "MOVE" && NORMAL[1] == "ADD" && NORMAL[2] == "ADDC" && NORMAL[3] == "SUB" && NORMAL[4] == "SUBC";
    assert NORMAL[5] == "SHL" && NORMAL[6] == "SHR" && NORMAL[7] == "SWAP" && NORMAL[8] == "NOT";
    assert NORMAL[9] == "AND" && NORMAL[10] == "OR" && NORMAL[11] == "XOR" && NORMAL[12] == "CMP";
  }

  lemma BranchMnemonic(m: string)
    ensures var u := UpperAll(m);
      && (u == "ABRA" ==> KindOf(m) == Branch(0)) && (u == "ASUB" ==> KindOf(m) == Branch(1))
      && (u == "RBRA" ==> KindOf(m) == Branch(2)) && (u == "RSUB" ==> KindOf(m) == Branch(3))
  {
    hide KindOf, UpperAll;
    SameKind(m);
    forall op | 0 <= op < 4
      ensures KindOf(BRANCHES[op]) == Branch(op)
    {
      Disassembler.BranchKindOf(op);
    }
    assert BRANCHES[0] == "ABRA" && BRANCHES[1] == "ASUB" && BRANCHES[2] == "RBRA" && BRANCHES[3] == "RSUB";
  }

  lemma ControlMnemonic(m: string)
    ensures var u := UpperAll(m);
      && (u == "HALT" ==> KindOf(m) == Control(0)) && (u == "RTI" ==> KindOf(m) == Control(1))
      && (u == "INT" ==> KindOf(m) == Control(2)) && (u == "INCRB" ==> KindOf(m) == Control(3))
      && (u == "DECRB" ==> KindOf(m) == Control(4))
  {
    hide KindOf, UpperAll;
    SameKind(m);
    forall op | 0 <= op < 5
      ensures KindOf(CONTROLS[op]) == Control(op)
    {
      Disassembler.ControlKindOf(op);
    }
    assert CONTROLS[0] == "HALT" && CONTROLS[1] == "RTI" && CONTROLS[2] == "INT" && CONTROLS[3] == "INCRB" && CONTROLS[4] == "DECRB";
  }

  // ----- lines with two operands -----

  predicate TwoOperands(line: Line, sm: int, sa: int, dm: int, da: int) {
    |line.args| >= 2 && SpellsSource(line.args[0], sm, sa) && Spells(line.args[1], dm, da)
  }

  /** Nothing is left to the second pass. */
  predicate Finished(e: Entry) {
    e.srcType != LabelEqu && e.dstType != LabelEqu && e.kind != Dw
  }

  lemma FinishedStays(e: Entry, equs: seq<(string, int)>, entries: seq<Entry>, junk: Junk)
    requires Sound(e) && Finished(e)
    ensures SecondLine(e, equs, entries, junk) == (e, 0)
  {}

  lemma NormalEntry(line: Line, op: int, sm: int, sa: int, dm: int, da: int, pass: Pass, junk: Junk)
    requires TwoOperands(line, sm, sa, dm, da)
    ensures var e := FirstNormal(line, op, pass, junk).0;
      && Finished(e) && e.address == pass.address && e.kind == Normal(op)
      && |e.data| == (if IsNumber(line.args[0]) then 2 else 1)
      && e.data[0] == 4096 * op + 64 * (4 * sa + sm) + (4 * da + dm)
      && (IsNumber(line.args[0]) ==> e.data[1] == Str2Int(line.args[0], junk.number(2)).0 % 0x1_0000)
  {
    hide DecodeOperand, Str2Int, Spells, SpellsSource, IsNumber;
    SpelledSource(line.args[0], sm, sa, junk.number(0));
    SpelledOperand(line.args[1], dm, da, junk.number(1));
  }

  /** Entry k of an error-free program, when its line leaves nothing to the second pass. */
  lemma EntryStays(lines: seq<Line>, junk: nat -> Junk, k: nat) returns (pass: Pass)
    requires k < |lines| && Assemble(lines, junk).1 == 0
    ensures var e := FirstLine(lines[k], pass, junk(k)).0;
            Finished(e) ==> Assemble(lines, junk).0[k] == e
  {
    hide FirstPass, SecondPass, SecondLine, FirstLine, Sound, Finished;
    var (first, all) := FirstPass(lines, junk);
    FirstPassSound(lines, junk);
    SecondPassFills(first, all.equs, first, junk, k);
    pass := EntryMade(lines, junk, k);
    assert first[k] in first;
    if Finished(first[k]) { FinishedStays(first[k], all.equs, first, junk(k)); }
  }

  lemma NormalAssembled(lines: seq<Line>, junk: nat -> Junk, k: nat, op: int, sm: int, sa: int, dm: int, da: int)
    requires k < |lines| && Assemble(lines, junk).1 == 0
    requires lines[k].mnemonic != "" && KindOf(lines[k].mnemonic) == Normal(op) && TwoOperands(lines[k], sm, sa, dm, da)
    ensures var e := Assemble(lines, junk).0[k];
      && |e.data| >= 1 && e.data[0] == 4096 * op + 64 * (4 * sa + sm) + (4 * da + dm)
      && (IsNumber(lines[k].args[0]) ==>
            |e.data| == 2 && e.data[1] == Str2Int(lines[k].args[0], junk(k).number(2)).0 % 0x1_0000)
  {
    hide Assemble, FirstLine, FirstNormal, KindOf, TwoOperands, Str2Int, IsNumber;
    var pass := EntryStays(lines, junk, k);
    Disassembler.FirstLineIs(lines[k], pass, junk(k));
    TwoArgs(lines[k], sm, sa, dm, da);
    NormalEntry(lines[k], op, sm, sa, dm, da, pass, junk(k));
  }

  lemma TwoArgs(line: Line, sm: int, sa: int, dm: int, da: int)
    requires TwoOperands(line, sm, sa, dm, da)
    ensures |line.args| >= 2
  {}

  lemma WordDecoded(op: int, sm: int, sa: int, dm: int, da: int)
    requires 0 <= op < 16 && 0 <= sm < 4 && 0 <= sa < 16 && 0 <= dm < 4 && 0 <= da < 16
    ensures var w := 4096 * op + 64 * (4 * sa + sm) + (4 * da + dm);
            0 <= w < 0x1_0000 && C.Decode(w) == C.Instruction(op, sm, sa, dm, da)
  {
    var w := 4096 * op + 64 * (4 * sa + sm) + (4 * da + dm);
    var q := 64 * op + 4 * sa + sm;
    assert w == 64 * q + (4 * da + dm);
    assert w / 64 == q && w / 4 == 16 * q + da;
    assert w / 4096 == w / 64 / 64 && w / 256 == w / 64 / 4;
    assert q / 64 == op && q / 4 == 16 * op + sa;
  }

  /** The processor is about to execute entry e: what it fetches. */
  lemma FetchedWord(c: C.Machine, io: C.Devices, e: Entry)
    requires Reached(c, e) && |e.data| >= 1 && 0 <= e.data[0] < 0x1_0000
    ensures B.Fetched(c, io) == e.data[0] && !(c.intRequest && !c.intActive)
    ensures |e.data| >= 2 && 0 <= e.data[1] < 0x1_0000 ==> c.mem[e.address + 1] == e.data[1]
  {
    assert WordLoaded(c, e, 0);
    if |e.data| >= 2 { assert WordLoaded(c, e, 1); }
    hide C.StatusOf, C.Bank;
  }

  // ----- what the mnemonics say -----

  /** From the destination operand y, the source operand x and the flags f: the result v and the flags g. */
  predicate Says(m: string, y: C.Word, x: C.Word, f: C.Flags, v: C.Word, g: C.Flags) {
    if m == "MOVE" then v == x && M.Keeps(f, v, g)
    else if m == "ADD" then M.IsSum(y, x, 0, v, g)
    else if m == "ADDC" then M.IsSum(y, x, f.c, v, g)
    else if m == "SUB" then M.IsDifference(y, x, 0, v, g)
    else if m == "SUBC" then M.IsDifference(y, x, f.c, v, g)
    else if m == "SWAP" then M.IsSwap(x, v) && M.Keeps(f, v, g)
    else if m == "NOT" then M.IsComplement(x, v) && M.Keeps(f, v, g)
    else if m == "AND" then M.IsAnd(y, x, v) && M.Keeps(f, v, g)
    else if m == "OR" then M.IsOr(y, x, v) && M.Keeps(f, v, g)
    else m == "XOR" && M.IsXor(y, x, v) && M.Keeps(f, v, g)
  }

  predicate ComputingText(m: string) {
    m in ["MOVE", "ADD", "ADDC", "SUB", "SUBC", "SWAP", "NOT", "AND", "OR", "XOR"]
  }

  /** d is c after the instruction: the source's register steps, the result goes to the destination, whose register
      steps, and nothing else changes. */
  ghost predicate Done(m: string, c: C.Machine, d: C.Machine, io: C.Devices, sm: int, sa: int, dm: int, da: int)
    requires M.Steady(sm, sa) && 0 <= dm < 4 && 0 <= da < 16 && da != C.SR
  {
    var c1 := M.Stepped(c, sa, M.Moved(sm));
    var place := M.PlaceOf(c1, dm, da);
    exists v: C.Word, g :: M.Landed(M.Stepped(c1, da, M.Moved(dm)), d, place, v, g)
      && Says(m, M.Get(c1, io, place), M.Get(c, io, M.PlaceOf(c, sm, sa)), C.FlagsOf(C.StatusOf(c)), v, g)
  }

  lemma OpSays(m: string, op: int, y: C.Word, x: C.Word, f: C.Flags, v: C.Word, g: C.Flags)
    requires ComputingText(m) && KindOf(m) == Normal(op) && UpperAll(m) == m && M.Means(op, y, x, f, v, g)
    ensures Says(m, y, x, f, v, g)
  {
    NormalMnemonic(m);
    hide KindOf, UpperAll, M.IsSum, M.IsDifference, M.IsAnd, M.IsOr, M.IsXor, M.IsComplement, M.IsSwap, M.Keeps;
  }

  lemma UpperTwice(m: string)
    ensures UpperAll(UpperAll(m)) == UpperAll(m) && (UpperAll(m) != "" ==> m != "")
  {}

  lemma ComputingOp(m: string) returns (op: int)
    requires ComputingText(UpperAll(m))
    ensures KindOf(m) == KindOf(UpperAll(m)) == Normal(op) && UpperAll(UpperAll(m)) == UpperAll(m) && m != "" && M.Computing(op)
  {
    hide KindOf, UpperAll;
    UpperTwice(m);
    SameKind(m);
    NormalMnemonic(m);
    var u := UpperAll(m);
    assert u != "" by { Spelled(u); }
    if u == "MOVE" { op := 0; }
    else if u == "ADD" { op := 1; }
    else if u == "ADDC" { op := 2; }
    else if u == "SUB" { op := 3; }
    else if u == "SUBC" { op := 4; }
    else if u == "SWAP" { op := 7; }
    else if u == "NOT" { op := 8; }
    else if u == "AND" { op := 9; }
    else if u == "OR" { op := 10; }
    else { op := 11; }
  }

  lemma Spelled(m: string)
    requires ComputingText(m)
    ensures m != ""
  {}

  /** What the processor finds when it reaches a line with two operands. */
  lemma NormalReached(lines: seq<Line>, junk: nat -> Junk, k: nat, op: int, sm: int, sa: int, dm: int, da: int,
                      c: C.Machine, io: C.Devices)
    requires k < |lines| && Assemble(lines, junk).1 == 0 && Reached(c, Assemble(lines, junk).0[k])
    requires lines[k].mnemonic != "" && KindOf(lines[k].mnemonic) == Normal(op) && 0 <= op < 16
    requires TwoOperands(lines[k], sm, sa, dm, da)
    ensures C.Decode(B.Fetched(c, io)) == C.Instruction(op, sm, sa, dm, da) && !(c.intRequest && !c.intActive)
    ensures |lines[k].args| >= 2
    ensures IsNumber(lines[k].args[0]) ==>
              c.mem[Assemble(lines, junk).0[k].address + 1] == Str2Int(lines[k].args[0], junk(k).number(2)).0 % 0x1_0000
  {
    hide Assemble, B.Fetched, C.Decode, KindOf, Str2Int, IsNumber, Reached;
    SpelledSource(lines[k].args[0], sm, sa, 0);
    SpelledOperand(lines[k].args[1], dm, da, 0);
    hide TwoOperands;
    NormalAssembled(lines, junk, k, op, sm, sa, dm, da);
    WordDecoded(op, sm, sa, dm, da);
    FetchedWord(c, io, Assemble(lines, junk).0[k]);
  }

  /** MOVE, ADD, ADDC, SUB, SUBC, SWAP, NOT, AND, OR and XOR, written with any register operands or a number, assembled,
      loaded and reached: the step does what the mnemonic says. */
  lemma TextComputes(lines: seq<Line>, junk: nat -> Junk, k: nat, sm: int, sa: int, dm: int, da: int,
                     c: C.Machine, io: C.Devices)
    requires k < |lines| && Assemble(lines, junk).1 == 0 && Reached(c, Assemble(lines, junk).0[k])
    requires ComputingText(UpperAll(lines[k].mnemonic)) && TwoOperands(lines[k], sm, sa, dm, da)
    requires M.Steady(sm, sa) && 0 <= dm < 4 && 0 <= da < 16 && da != C.SR
    ensures var (d, stopped) := C.Step(c, io);
            !stopped && Done(UpperAll(lines[k].mnemonic), M.Stepped(c, C.PC, 1), d, io, sm, sa, dm, da)
    ensures |lines[k].args| >= 2
    ensures IsNumber(lines[k].args[0]) ==>
              c.mem[Assemble(lines, junk).0[k].address + 1] == Str2Int(lines[k].args[0], junk(k).number(2)).0 % 0x1_0000
  {
    hide Assemble, C.Step, B.Fetched, C.Decode, KindOf, UpperAll, ComputingText, TwoOperands, Says, M.Means, M.Landed, Str2Int,
         IsNumber, Reached, M.Stepped, M.Get, M.PlaceOf, C.FlagsOf, C.StatusOf;
    var m := UpperAll(lines[k].mnemonic);
    var op := ComputingOp(lines[k].mnemonic);
    NormalReached(lines, junk, k, op, sm, sa, dm, da, c, io);
    M.InstructionMeans(c, io);
    var c0, d := M.Stepped(c, C.PC, 1), C.Step(c, io).0;
    var c1 := M.Stepped(c0, sa, M.Moved(sm));
    var place := M.PlaceOf(c1, dm, da);
    var v: C.Word, g :| M.Landed(M.Stepped(c1, da, M.Moved(dm)), d, place, v, g)
      && M.Means(op, M.Get(c1, io, place), M.Get(c0, io, M.PlaceOf(c0, sm, sa)), C.FlagsOf(C.StatusOf(c0)), v, g);
    OpSays(m, op, M.Get(c1, io, place), M.Get(c0, io, M.PlaceOf(c0, sm, sa)), C.FlagsOf(C.StatusOf(c0)), v, g);
  }

  /** d is c after an instruction whose result replaces the status register. */
  ghost predicate DoneToStatus(m: string, c: C.Machine, d: C.Machine, io: C.Devices, sm: int, sa: int)
    requires M.Steady(sm, sa)
  {
    var c1 := M.Stepped(c, sa, M.Moved(sm));
    exists v: C.Word, g :: d == c1.(regs := c1.regs[C.SR := C.SetLsb(v)])
      && Says(m, C.StatusOf(c), M.Get(c, io, M.PlaceOf(c, sm, sa)), C.FlagsOf(C.StatusOf(c)), v, g)
  }

  /** The same instructions with R14 for their destination. */
  lemma TextSetsStatus(lines: seq<Line>, junk: nat -> Junk, k: nat, sm: int, sa: int, c: C.Machine, io: C.Devices)
    requires k < |lines| && Assemble(lines, junk).1 == 0 && Reached(c, Assemble(lines, junk).0[k])
    requires ComputingText(UpperAll(lines[k].mnemonic)) && TwoOperands(lines[k], sm, sa, 0, C.SR) && M.Steady(sm, sa)
    ensures var (d, stopped) := C.Step(c, io);
            !stopped && DoneToStatus(UpperAll(lines[k].mnemonic), M.Stepped(c, C.PC, 1), d, io, sm, sa)
  {
    hide Assemble, C.Step, B.Fetched, C.Decode, KindOf, UpperAll, ComputingText, TwoOperands, Says, M.Means, Str2Int,
         IsNumber, Reached, M.Stepped, M.Get, M.PlaceOf, C.FlagsOf, C.StatusOf, C.SetLsb;
    var m := UpperAll(lines[k].mnemonic);
    var op := ComputingOp(lines[k].mnemonic);
    NormalReached(lines, junk, k, op, sm, sa, 0, C.SR, c, io);
    M.ToStatusMeans(c, io);
    var c0, d := M.Stepped(c, C.PC, 1), C.Step(c, io).0;
    var c1 := M.Stepped(c0, sa, M.Moved(sm));
    var v: C.Word, g :| M.Means(op, C.StatusOf(c0), M.Get(c0, io, M.PlaceOf(c0, sm, sa)), C.FlagsOf(C.StatusOf(c0)), v, g)
                        && d == c1.(regs := c1.regs[C.SR := C.SetLsb(v)]);
    OpSays(m, op, C.StatusOf(c0), M.Get(c0, io, M.PlaceOf(c0, sm, sa)), C.FlagsOf(C.StatusOf(c0)), v, g);
  }

  /** d is c after a shift, to the left or to the right. */
  ghost predicate DoneShift(left: bool, c: C.Machine, d: C.Machine, io: C.Devices, sm: int, sa: int, dm: int, da: int)
    requires M.Steady(sm, sa) && 0 <= dm < 4 && 0 <= da < 16
  {
    var c1 := M.Stepped(c, sa, M.Moved(sm));
    var n, y, f := M.Get(c, io, M.PlaceOf(c, sm, sa)), M.Get(c1, io, M.PlaceOf(c1, dm, da)), C.FlagsOf(C.StatusOf(c));
    exists v: C.Word, g :: M.ShiftLeaves(c1, d, dm, da, n, v, g)
      && if left then M.IsShiftLeft(y, n, f, v, g) else M.IsShiftRight(y, n, f, v, g)
  }

  /** SHL and SHR. */
  lemma TextShifts(lines: seq<Line>, junk: nat -> Junk, k: nat, sm: int, sa: int, dm: int, da: int,
                   c: C.Machine, io: C.Devices)
    requires k < |lines| && Assemble(lines, junk).1 == 0 && Reached(c, Assemble(lines, junk).0[k])
    requires UpperAll(lines[k].mnemonic) in ["SHL", "SHR"] && TwoOperands(lines[k], sm, sa, dm, da)
    requires M.Steady(sm, sa) && 0 <= dm < 4 && 0 <= da < 16 && da != C.SR
    ensures var (d, stopped) := C.Step(c, io);
            !stopped && DoneShift(UpperAll(lines[k].mnemonic) == "SHL", M.Stepped(c, C.PC, 1), d, io, sm, sa, dm, da)
  {
    hide Assemble, C.Step, B.Fetched, C.Decode, KindOf, UpperAll, TwoOperands, Str2Int, IsNumber, Reached, M.Stepped, M.Get,
         M.PlaceOf, C.FlagsOf, C.StatusOf, M.ShiftLeaves, M.IsShiftLeft, M.IsShiftRight;
    var m := lines[k].mnemonic;
    NormalMnemonic(m);
    UpperTwice(m);
    var op := if UpperAll(m) == "SHL" then 5 else 6;
    NormalReached(lines, junk, k, op, sm, sa, dm, da, c, io);
    M.ShiftMeans(c, io);
  }

  /** CMP. */
  lemma TextCompares(lines: seq<Line>, junk: nat -> Junk, k: nat, sm: int, sa: int, dm: int, da: int,
                     c: C.Machine, io: C.Devices)
    requires k < |lines| && Assemble(lines, junk).1 == 0 && Reached(c, Assemble(lines, junk).0[k])
    requires UpperAll(lines[k].mnemonic) == "CMP" && TwoOperands(lines[k], sm, sa, dm, da)
    requires M.Steady(sm, sa) && M.Steady(dm, da)
    ensures var (d, stopped) := C.Step(c, io);
            !stopped && M.Compared(M.Stepped(c, C.PC, 1), d, io, C.Instruction(12, sm, sa, dm, da))
  {
    hide Assemble, C.Step, B.Fetched, C.Decode, KindOf, UpperAll, TwoOperands, Str2Int, IsNumber, Reached, M.Stepped, M.Compared;
    var m := lines[k].mnemonic;
    NormalMnemonic(m);
    UpperTwice(m);
    NormalReached(lines, junk, k, 12, sm, sa, dm, da, c, io);
    M.CompareMeans(c, io);
  }

  // ----- branches and calls -----

  /** What a flag text asks of the flags. */
  predicate Asks(s: string, f: C.Flags) {
    if s == "1" then true
    else if s == "X" then f.x == 1
    else if s == "C" then f.c == 1
    else if s == "Z" then f.z == 1
    else if s == "N" then f.n == 1
    else s == "V" && f.v == 1
  }

  predicate FlagText(s: string) {
    s in ["1", "X", "C", "Z", "N", "V"]
  }

  /** A flag, or its negation. */
  predicate TestText(s: string) {
    FlagText(s) || (s != "" && s[0] == '!' && FlagText(s[1..]))
  }

  predicate Tests(s: string, f: C.Flags) {
    if FlagText(s) then Asks(s, f) else s != "" && !Asks(s[1..], f)
  }

  lemma FlagOfText(s: string) returns (negate: bool, flag: int)
    requires TestText(s)
    ensures Flag(s) == (negate, flag) && 0 <= flag < 6
    ensures negate <==> !FlagText(s)
    ensures (if negate then s[1..] else s) == [['1', 'X', 'C', 'Z', 'N', 'V'][flag]]
  {
    negate := !FlagText(s);
    var t := if negate then s[1..] else s;
    flag := if t == "1" then 0 else if t == "X" then 1 else if t == "C" then 2 else if t == "Z" then 3 else if t == "N" then 4 else 5;
    assert t == [Disassembler.BRANCH_BITS[flag]];
    assert s == (if negate then "!" else "") + t;
    Disassembler.FlagRead(negate, flag);
  }

  lemma ConditionOfText(s: string, c: C.Machine, w: C.Word, negate: bool, flag: int)
    requires TestText(s) && Flag(s) == (negate, flag) && w % 8 == flag && w / 8 % 2 == (if negate then 1 else 0)
    ensures C.Condition(c, w) <==> Tests(s, C.FlagsOf(C.StatusOf(c)))
  {
    hide C.Condition, C.FlagsOf, C.StatusOf, Flag;
    var n, k := FlagOfText(s);
    M.ConditionMeans(c, w);
  }

  /** What the branch mnemonics say, when the test holds: A goes to x, R goes x words on; SUB pushes the address behind the
      instruction. */
  predicate JumpSays(m: string, c: C.Machine, d: C.Machine, x: C.Word) {
    var next := C.Reg(c, C.PC);
    var target := if m == "ABRA" || m == "ASUB" then x else C.Low(next + x);
    if m == "ABRA" || m == "RBRA" then d == c.(regs := c.regs[C.PC := target])
    else
      var sp := C.Low(C.Reg(c, C.SP) - 1);
      d == c.(regs := c.regs[C.SP := sp][C.PC := target], mem := if sp < C.IO_AREA_START then c.mem[sp := next] else c.mem)
  }

  predicate JumpText(m: string) {
    m in ["ABRA", "ASUB", "RBRA", "RSUB"]
  }

  lemma JumpedSays(m: string, c: C.Machine, x: C.Word, kind: int)
    requires JumpText(m) && kind == (if m == "ABRA" then 0 else if m == "ASUB" then 1 else if m == "RBRA" then 2 else 3)
    ensures JumpSays(m, c, M.Jumped(c, kind, x), x)
  {
    hide C.Reg;
  }

  lemma BranchEntry(line: Line, op: int, sm: int, sa: int, pass: Pass, junk: Junk)
    requires |line.args| >= 2 && SpellsSource(line.args[0], sm, sa) && TestText(line.args[1]) && line.mnemonic != "" && 0 <= op < 4
    ensures var e := FirstBranch(line, op, pass, junk).0;
            var (negate, flag) := Flag(line.args[1]);
      && Finished(e) && 0 <= flag < 6 && 0 <= 4 * sa + sm < 64
      && |e.data| == (if IsNumber(line.args[0]) then 2 else 1)
      && e.data[0] == WordWith(4 * sa + sm, op, negate, flag)
      && (IsNumber(line.args[0]) ==> e.data[1] == Str2Int(line.args[0], junk.number(2)).0 % 0x1_0000)
  {
    hide DecodeOperand, Str2Int, SpellsSource, IsNumber, Flag, TestText, FlagText;
    var n, f := FlagOfText(line.args[1]);
    SpelledSource(line.args[0], sm, sa, junk.number(0));
  }

  /** ABRA, ASUB, RBRA and RSUB to a register operand or a number. */
  lemma TextJumps(lines: seq<Line>, junk: nat -> Junk, k: nat, sm: int, sa: int, c: C.Machine, io: C.Devices)
    requires k < |lines| && Assemble(lines, junk).1 == 0 && Reached(c, Assemble(lines, junk).0[k])
    requires JumpText(UpperAll(lines[k].mnemonic)) && |lines[k].args| >= 2 && TestText(lines[k].args[1])
    requires SpellsSource(lines[k].args[0], sm, sa) && M.Steady(sm, sa)
    ensures var (d, stopped) := C.Step(c, io);
            var c0 := M.Stepped(c, C.PC, 1);
            var c1 := M.Stepped(c0, sa, M.Moved(sm));
      && !stopped
      && if Tests(lines[k].args[1], C.FlagsOf(C.StatusOf(c)))
         then JumpSays(UpperAll(lines[k].mnemonic), c1, d, M.Get(c0, io, M.PlaceOf(c0, sm, sa))) else d == c1
    ensures IsNumber(lines[k].args[0]) ==>
              c.mem[Assemble(lines, junk).0[k].address + 1] == Str2Int(lines[k].args[0], junk(k).number(2)).0 % 0x1_0000
  {
    hide Assemble, C.Step, B.Fetched, C.Decode, KindOf, UpperAll, Str2Int, IsNumber, Reached, M.Stepped, M.Get, M.PlaceOf,
         C.FlagsOf, C.StatusOf, C.Condition, JumpSays, M.Jumped, FirstLine, FirstBranch, WordWith, Flag, TestText, Tests,
         SpellsSource, Finished;
    var m := lines[k].mnemonic;
    BranchMnemonic(m);
    UpperTwice(m);
    var u := UpperAll(m);
    var kind := if u == "ABRA" then 0 else if u == "ASUB" then 1 else if u == "RBRA" then 2 else 3;
    var pass := EntryStays(lines, junk, k);
    Disassembler.FirstLineIs(lines[k], pass, junk(k));
    BranchEntry(lines[k], kind, sm, sa, pass, junk(k));
    var (negate, flag) := Flag(lines[k].args[1]);
    WordFields(4 * sa + sm, kind, negate, flag);
    var e := Assemble(lines, junk).0[k];
    FetchedWord(c, io, e);
    M.BranchMeans(c, io);
    ConditionOfText(lines[k].args[1], c, B.Fetched(c, io), negate, flag);
    var c0 := M.Stepped(c, C.PC, 1);
    JumpedSays(u, M.Stepped(c0, sa, M.Moved(sm)), M.Get(c0, io, M.PlaceOf(c0, sm, sa)), kind);
  }

  /** The same to a label or EQU: the step goes there by all four mnemonics, and pushes the next line's address by ASUB and
      RSUB. */
  lemma TextBranchesToLabel(lines: seq<Line>, junk: nat -> Junk, k: nat, c: C.Machine, io: C.Devices)
    requires BranchesToName(lines, junk, k) && Reached(c, Assemble(lines, junk).0[k])
    requires JumpText(UpperAll(lines[k].mnemonic)) && |lines[k].args| >= 2 && TestText(lines[k].args[1])
    requires !RegisterLike(lines[k].args[0])
    ensures var u := UpperAll(lines[k].mnemonic);
            var d := C.Step(c, io).0;
            var next, sp := C.Low(Assemble(lines, junk).0[k].address + 2), C.Low(C.Reg(c, C.SP) - 1);
            if !Tests(lines[k].args[1], C.FlagsOf(C.StatusOf(c))) then C.Reg(d, C.PC) == next && d.mem == c.mem
            else
              && C.Reg(d, C.PC) == LabelOf(lines, junk, k)
              && if u == "ABRA" || u == "RBRA" then C.Reg(d, C.SP) == C.Reg(c, C.SP) && d.mem == c.mem
                 else C.Reg(d, C.SP) == sp && d.mem == if sp < C.IO_AREA_START then c.mem[sp := next] else c.mem
  {
    hide C.Step, C.FlagsOf, C.StatusOf, C.Reg, FirstPass, SecondPass, KindOf, UpperAll, Flag, Tests, TestText, RegisterLike,
         Assemble, LabelOf, Reached, C.Bit;
    var u := UpperAll(lines[k].mnemonic);
    BranchMnemonic(lines[k].mnemonic);
    AssembledBranch(lines, junk, k, c, io);
    BranchLine(lines, junk, k);
    BranchOp(lines, junk, k);
    ReachedAddress(c, Assemble(lines, junk).0[k]);
    TakingTests(lines, k, c);
  }

  lemma ReachedAddress(c: C.Machine, e: Entry)
    requires Reached(c, e)
    ensures C.Reg(c, C.PC) == e.address
  {}

  lemma TakingTests(lines: seq<Line>, k: nat, c: C.Machine)
    requires k < |lines| && |lines[k].args| >= 2 && TestText(lines[k].args[1]) && Flag(lines[k].args[1]).1 < 8
    ensures Taking(lines, k, c) <==> Tests(lines[k].args[1], C.FlagsOf(C.StatusOf(c)))
  {
    hide C.FlagsOf, C.StatusOf, C.Bit, Flag, Tests;
    var (negate, flag) := Flag(lines[k].args[1]);
    WordFields(0, 0, negate, flag);
    var w := WordWith(0, 0, negate, flag);
    ConditionOfText(lines[k].args[1], c, w, negate, flag);
  }

  lemma BranchOp(lines: seq<Line>, junk: nat -> Junk, k: nat)
    requires BranchesToName(lines, junk, k)
    ensures Assemble(lines, junk).0[k].kind == KindOf(lines[k].mnemonic)
  {
    hide FirstPass, SecondPass, SecondLine, FirstLine, KindOf, Sound;
    var (first, all) := FirstPass(lines, junk);
    FirstPassSound(lines, junk);
    SecondPassFills(first, all.equs, first, junk, k);
    var pass := EntryMade(lines, junk, k);
    KindOfFirst(lines[k], pass, junk(k));
  }

  // ----- control instructions -----

  lemma ControlEntry(line: Line, op: int, pass: Pass, junk: Junk)
    requires op in {0, 1, 3, 4}
    ensures var e := FirstControl(line, op, pass, junk).0; Finished(e) && e.data == [0xe000 + 64 * op]
  {}

  lemma IntEntry(line: Line, dm: int, da: int, pass: Pass, junk: Junk)
    requires |line.args| >= 1 && Spells(line.args[0], dm, da)
    ensures var e := FirstControl(line, 2, pass, junk).0; Finished(e) && e.data == [0xe000 + 128 + (4 * da + dm)]
  {
    hide DecodeOperand, Str2Int, Spells, IsNumber;
    SpelledOperand(line.args[0], dm, da, junk.number(0));
  }

  lemma ControlWord(op: int, code: int)
    requires 0 <= op < 64 && 0 <= code < 64
    ensures var w := 0xe000 + 64 * op + code; 0 <= w < 0x1_0000 && B.IsControl(w, op) && w % 4 == code % 4 && w / 4 % 16 == code / 4
  {
    var w := 0xe000 + 64 * op + code;
    assert w == 64 * (896 + op) + code;
    assert w / 64 == 896 + op && w / 4096 == w / 64 / 64;
    assert w / 4 == 16 * (896 + op) + code / 4;
  }

  predicate ControlText(m: string) {
    m in ["HALT", "RTI", "INCRB", "DECRB"]
  }

  /** HALT, RTI, INCRB and DECRB. */
  lemma TextControls(lines: seq<Line>, junk: nat -> Junk, k: nat, c: C.Machine, io: C.Devices)
    requires k < |lines| && Assemble(lines, junk).1 == 0 && Reached(c, Assemble(lines, junk).0[k])
    requires ControlText(UpperAll(lines[k].mnemonic))
    ensures var u := UpperAll(lines[k].mnemonic);
            var (d, stopped) := C.Step(c, io);
      && (u == "HALT" ==> stopped && d == M.Stepped(c, C.PC, 1))
      && (u == "RTI" && c.intActive ==>
            !stopped && C.StatusOf(d) == C.SetLsb(c.int14) && C.Reg(d, C.PC) == c.int15
            && d == c.(intActive := false, regs := c.regs[C.SR := d.regs[C.SR]][C.PC := d.regs[C.PC]]))
      && (u == "RTI" && !c.intActive ==> stopped)
      && (u == "INCRB" ==> !stopped && d == M.InBank(M.Stepped(c, C.PC, 1), (C.Bank(c) + 1) % 256))
      && (u == "DECRB" ==> !stopped && d == M.InBank(M.Stepped(c, C.PC, 1), (C.Bank(c) - 1) % 256))
      && (u == "INCRB" || u == "DECRB" ==>
            forall b, r :: 0 <= b < 256 && 0 <= r < 8 ==> B.Banked(d, b, r) == B.Banked(c, b, r))
  {
    hide Assemble, C.Step, B.Fetched, KindOf, UpperAll, Reached, M.Stepped, C.StatusOf, FirstLine, FirstControl, Finished,
         B.IsControl, C.Bank, C.SetLsb, B.Banked, C.Reg, M.InBank;
    var m := lines[k].mnemonic;
    ControlMnemonic(m);
    UpperTwice(m);
    var u := UpperAll(m);
    var op := if u == "HALT" then 0 else if u == "RTI" then 1 else if u == "INCRB" then 3 else 4;
    var pass := EntryStays(lines, junk, k);
    Disassembler.FirstLineIs(lines[k], pass, junk(k));
    ControlEntry(lines[k], op, pass, junk(k));
    ControlWord(op, 0);
    FetchedWord(c, io, Assemble(lines, junk).0[k]);
    var w := B.Fetched(c, io);
    if op == 0 {
      M.HaltMeans(c, io);
    } else if op == 1 {
      if c.intActive { B.ReturnStep(c, io); } else { RogueReturn(c, io); }
    } else {
      NestingOf(w, op);
      B.NestingStep(c, io);
      M.NestMeans(c, io, op == 3);
    }
  }

  lemma NestingOf(w: C.Word, op: int)
    requires B.IsControl(w, op) && (op == 3 || op == 4)
    ensures B.Nesting(w) == if op == 3 then 1 else -1
  {}

  /** RTI outside of a service stops the processor. */
  lemma RogueReturn(c: C.Machine, io: C.Devices)
    requires B.IsControl(B.Fetched(c, io), 1) && !c.intActive && !c.intRequest
    ensures C.Step(c, io).1
  {
    hide B.Fetched, C.StatusOf, C.Bank, C.Perform, C.Step, B.AfterFetch;
    B.StepIs(c, io);
    B.IsControlOp(B.Fetched(c, io), 1);
    B.ControlPerformed(B.AfterFetch(c), io, B.Fetched(c, io));
    assert !B.AfterFetch(c).intActive by { B.FetchKeeps(c); }
  }

  /** INT with a register operand, outside of a service. */
  lemma TextInterrupts(lines: seq<Line>, junk: nat -> Junk, k: nat, dm: int, da: int, c: C.Machine, io: C.Devices)
    requires k < |lines| && Assemble(lines, junk).1 == 0 && Reached(c, Assemble(lines, junk).0[k])
    requires UpperAll(lines[k].mnemonic) == "INT" && |lines[k].args| >= 1 && Spells(lines[k].args[0], dm, da)
    requires M.Steady(dm, da) && da != C.SR && !c.intActive
    ensures var (d, stopped) := C.Step(c, io);
            var c0 := M.Stepped(c, C.PC, 1);
            !stopped && d == M.Stepped(c0, da, M.Moved(dm)).(intAddress := M.Get(c0, io, M.PlaceOf(c0, dm, da)), intRequest := true)
  {
    hide Assemble, C.Step, B.Fetched, KindOf, UpperAll, Reached, M.Stepped, M.Get, M.PlaceOf, FirstLine, FirstControl, Finished,
         B.IsControl, Spells;
    var m := lines[k].mnemonic;
    ControlMnemonic(m);
    UpperTwice(m);
    var pass := EntryStays(lines, junk, k);
    Disassembler.FirstLineIs(lines[k], pass, junk(k));
    IntEntry(lines[k], dm, da, pass, junk(k));
    ControlWord(2, 4 * da + dm);
    FetchedWord(c, io, Assemble(lines, junk).0[k]);
    M.IntMeans(c, io);
  }
}
