/** The assembler and the processor agree on branches to labels. */
module BranchToLabel {
  import opened AsmText
  import opened Assembler
  import C = Cpu

  /** The instruction word of a branch whose operand has these six bits. */
  function WordWith(code: int, op: int, negate: bool, flag: int): (w: C.Word)
    requires 0 <= code < 64 && 0 <= op < 4 && 0 <= flag < 8
  {
    0xf000 + 64 * code + 16 * op + (if negate then 8 else 0) + flag
  }

  /** The operand is a constant in the next word. */
  function BranchWord(op: int, negate: bool, flag: int): (w: C.Word)
    requires 0 <= op < 4 && 0 <= flag < 8
  {
    WordWith(CONSTANT_CODE, op, negate, flag)
  }

  lemma WordFields(code: int, op: int, negate: bool, flag: int)
    requires 0 <= code < 64 && 0 <= op < 4 && 0 <= flag < 8
    ensures var i := C.Decode(WordWith(code, op, negate, flag)); i.op == 15 && i.sm == code % 4 && i.sa == code / 4
    ensures var w := WordWith(code, op, negate, flag);
            w / 16 % 4 == op && w / 8 % 2 == (if negate then 1 else 0) && w % 8 == flag
  {
    hide WordWith;
    var n := if negate then 1 else 0;
    var w := WordWith(code, op, negate, flag);
    WordParts(code, op, negate, flag);
    HighFields(960 + code, 16 * op + 8 * n + flag);
    LowFields(960 + code, op, n, flag);
    CodeFields(code);
  }

  lemma WordParts(code: int, op: int, negate: bool, flag: int)
    requires 0 <= code < 64 && 0 <= op < 4 && 0 <= flag < 8
    ensures WordWith(code, op, negate, flag) == 64 * (960 + code) + 16 * op + 8 * (if negate then 1 else 0) + flag
  {}

  lemma CodeFields(code: int)
    requires 0 <= code < 64
    ensures (960 + code) % 4 == code % 4 && (960 + code) / 4 % 16 == code / 4
  {
    assert (960 + code) / 4 == 240 + code / 4;
  }

  lemma HighFields(q: int, r: int)
    requires 960 <= q < 1024 && 0 <= r < 64
    ensures var w := 64 * q + r; w / 64 == q && w / 4096 == 15 && w / 256 == q / 4
  {
    var w := 64 * q + r;
    assert w / 64 == q;
    assert w / 4096 == w / 64 / 64 && w / 256 == w / 64 / 4;
  }

  lemma ByEight(x: int, r: int)
    requires 0 <= r < 8
    ensures (8 * x + r) / 8 == x && (8 * x + r) % 8 == r
  {}

  lemma BySixteen(x: int, r: int)
    requires 0 <= r < 16
    ensures (16 * x + r) / 16 == x
  {}

  lemma LowFields(q: int, op: int, n: int, flag: int)
    requires 0 <= q && 0 <= op < 4 && 0 <= n < 2 && 0 <= flag < 8
    ensures var w := 64 * q + 16 * op + 8 * n + flag; w / 16 % 4 == op && w / 8 % 2 == n && w % 8 == flag
  {
    var w := 64 * q + 16 * op + 8 * n + flag;
    var y := 4 * q + op;
    assert w == 8 * (2 * y + n) + flag == 16 * y + (8 * n + flag);
    ByEight(2 * y + n, flag);
    BySixteen(y, 8 * n + flag);
  }

  lemma BranchWordFields(op: int, negate: bool, flag: int)
    requires 0 <= op < 4 && 0 <= flag < 8
    ensures var i := C.Decode(BranchWord(op, negate, flag)); i.op == 15 && i.sm == 2 && i.sa == C.PC
    ensures var w := BranchWord(op, negate, flag);
            w / 16 % 4 == op && w / 8 % 2 == (if negate then 1 else 0) && w % 8 == flag
  {
    WordFields(CONSTANT_CODE, op, negate, flag);
  }

  /** A branch instruction goes to target when its flag test holds and to next otherwise; the calls push next. */
  predicate BranchedBy(c: C.Machine, d: C.Machine, op: int, taken: bool, target: C.Word, next: C.Word) {
    && C.Reg(d, C.PC) == (if taken then target else next)
    && C.StatusOf(d) == C.StatusOf(c)
    && (if taken && op % 2 == 1 then
          var sp := C.Low(C.Reg(c, C.SP) as int - 1);
          C.Reg(d, C.SP) == sp && d.mem == C.Store(c, sp, next).mem
        else C.Reg(d, C.SP) == C.Reg(c, C.SP) && d.mem == c.mem)
    && (forall k :: 0 <= k < C.REGMEM_SIZE && k != C.PC && k != C.SP ==> d.regs[k] == c.regs[k])
    && d == c.(regs := d.regs, mem := d.mem)
  }

  /** A branch of two words: to the label's address, or on to the next line. */
  predicate Branched(c: C.Machine, d: C.Machine, op: int, taken: bool, target: C.Word) {
    BranchedBy(c, d, op, taken, target, C.Low(C.Reg(c, C.PC) + 2))
  }

  /** What happens instead when the operand's bits say R0: R0 is the target, or the displacement, and the next
      instruction is the word that holds the label's value. */
  function Misled(c: C.Machine, op: int): C.Word {
    if op < 2 then C.Reg(c, 0) else C.Low(C.Reg(c, C.PC) + 1 + C.Reg(c, 0))
  }

  /** What a step does with such a word and the constant v behind it. */
  lemma StepBranches(c: C.Machine, io: C.Devices, op: int, negate: bool, flag: int, v: C.Word)
    requires 0 <= op < 4 && 0 <= flag < 8 && !(c.intRequest && !c.intActive)
    requires C.Reg(c, C.PC) + 1 < C.IO_AREA_START
    requires c.mem[C.Reg(c, C.PC)] == BranchWord(op, negate, flag) && c.mem[C.Reg(c, C.PC) + 1] == v
    ensures var (d, stopped) := C.Step(c, io);
      && !stopped
      && Branched(c, d, op, (C.Bit(C.StatusOf(c), flag) == 1) != negate,
                  if op < 2 then v else C.Low(C.Reg(c, C.PC) + 2 + v))
  {
    hide BranchWord, C.Bit, C.Bank, C.SetLsb, BranchedBy, C.Push, C.Decode;
    var pc := C.Reg(c, C.PC);
    var w := BranchWord(op, negate, flag);
    BranchWordFields(op, negate, flag);
    var c1 := C.SetReg(c, C.PC, pc + 1);
    C.SetRegReads(c, C.PC, pc + 1, C.PC);
    C.SetRegReads(c, C.PC, pc + 1, C.SP);
    assert C.Reg(c1, C.PC) == pc + 1;
    var c2 := C.SetReg(c1, C.PC, pc + 2);
    C.SetRegReads(c1, C.PC, pc + 2, C.PC);
    C.SetRegReads(c1, C.PC, pc + 2, C.SP);
    assert C.ReadSource(c1, io, 2, C.PC, false) == (c2, v);
    assert C.Condition(c2, w) <==> (C.Bit(C.StatusOf(c), flag) == 1) != negate;
    BranchTaken(c, c2, op, v, 2, (C.Bit(C.StatusOf(c), flag) == 1) != negate);
    assert C.Step(c, io) == (C.Branching(c1, io, w), false);
    assert C.Branching(c1, io, w) == (if C.Condition(c2, w) then Taken(c2, op, v) else c2);
  }

  function Taken(c2: C.Machine, op: int, v: C.Word): C.Machine {
    var c3 := if op % 2 == 1 then C.Push(c2, C.Reg(c2, C.PC)) else c2;
    C.SetReg(c3, C.PC, if op < 2 then v else C.Reg(c3, C.PC) + v)
  }

  lemma BranchTaken(c: C.Machine, c2: C.Machine, op: int, v: C.Word, words: int, taken: bool)
    requires 0 <= op < 4 && 1 <= words <= 2 && C.Reg(c, C.PC) + 1 < C.IO_AREA_START
    requires c2 == c.(regs := c.regs[C.PC := C.Reg(c, C.PC) + words])
    ensures BranchedBy(c, if taken then Taken(c2, op, v) else c2, op, taken,
                       if op < 2 then v else C.Low(C.Reg(c, C.PC) + words + v), C.Low(C.Reg(c, C.PC) + words))
  {
    hide C.Bank, C.SetLsb;
  }

  /** A step at a branch word with the bits of R0. */
  lemma StepMisled(c: C.Machine, io: C.Devices, op: int, negate: bool, flag: int)
    requires 0 <= op < 4 && 0 <= flag < 8 && !(c.intRequest && !c.intActive)
    requires C.Reg(c, C.PC) + 1 < C.IO_AREA_START
    requires c.mem[C.Reg(c, C.PC)] == WordWith(0, op, negate, flag)
    ensures var (d, stopped) := C.Step(c, io);
      && !stopped
      && BranchedBy(c, d, op, (C.Bit(C.StatusOf(c), flag) == 1) != negate, Misled(c, op), C.Low(C.Reg(c, C.PC) + 1))
  {
    hide WordWith, C.Bit, C.Bank, C.SetLsb, BranchedBy, C.Push, C.Decode;
    var pc := C.Reg(c, C.PC);
    var w := WordWith(0, op, negate, flag);
    WordFields(0, op, negate, flag);
    var c1 := C.SetReg(c, C.PC, pc + 1);
    C.SetRegReads(c, C.PC, pc + 1, C.PC);
    C.SetRegReads(c, C.PC, pc + 1, 0);
    assert C.ReadSource(c1, io, 0, 0, false) == (c1, C.Reg(c, 0));
    assert C.Condition(c1, w) <==> (C.Bit(C.StatusOf(c), flag) == 1) != negate;
    BranchTaken(c, c1, op, C.Reg(c, 0), 1, (C.Bit(C.StatusOf(c), flag) == 1) != negate);
    assert C.Step(c, io) == (C.Branching(c1, io, w), false);
    assert C.Branching(c1, io, w) == (if C.Condition(c1, w) then Taken(c1, op, C.Reg(c, 0)) else c1);
  }

  /** The words of a branch line whose operand is a label or an EQU. */
  lemma BranchLineWords(line: Line, op: int, pass: Pass, equs: seq<(string, int)>, entries: seq<Entry>, junk: Junk)
    requires line.mnemonic != "" && 0 <= op < 4 && FirstBranch(line, op, pass, junk).1.errors == pass.errors
    requires var e := FirstBranch(line, op, pass, junk).0;
             e.srcType == LabelEqu && SecondLine(e, equs, entries, junk).1 == 0
    ensures |line.args| >= 2
    ensures var e := FirstBranch(line, op, pass, junk).0;
            var (negate, flag) := Flag(line.args[1]);
            var value := Resolve(equs, entries, e.src);
            flag < 8 && e.src == line.args[0]
            && SecondLine(e, equs, entries, junk).0.data
               == [WordWith(if RegisterLike(e.src) then 0 else CONSTANT_CODE, op, negate, flag),
                   if e.relative then (value - e.address - 2) % 0x1_0000 else value]
  {
    hide DecodeOperand, Str2Int, Resolve, Flag, RegisterLike;
    RegisterLikeOperand(line.args[0], junk.number(0));
  }

  lemma RelativeTarget(value: int, address: int)
    ensures C.Low(address + 2 + (value - address - 2) % 0x1_0000) == C.Low(value)
  {}

  lemma BranchKind(mnemonic: string)
    requires KindOf(mnemonic).Branch?
    ensures var op := KindOf(mnemonic).op;
            mnemonic != "" && 0 <= op < 4 && (Upper(mnemonic[0]) == 'R' <==> op >= 2)
  {
    var m := UpperAll(mnemonic);
    var op := IndexIn(BRANCHES, m);
    assert m == BRANCHES[op];
    assert m[0] == Upper(mnemonic[0]);
  }

  /** The line from which entry k was made, in an error-free source. */
  lemma EntryMade(lines: seq<Line>, junk: nat -> Junk, k: nat) returns (pass: Pass)
    requires k < |lines| && FirstPass(lines, junk).1.errors == 0
    ensures pass.errors == 0 && FirstLine(lines[k], pass, junk(k)).1.errors == 0
    ensures FirstPass(lines, junk).0[k] == FirstLine(lines[k], pass, junk(k)).0
  {
    hide FirstLine, FirstPass, Checked, HasLabel;
    FirstPassAt(lines, junk, k);
    var (entries, before) := FirstPass(lines[..k], junk);
    pass := Checked(lines[k], entries, before);
    CheckedGrows(lines[k], entries, before);
    FirstLineGrows(lines[k], pass, junk(k));
  }

  lemma KindOfFirst(line: Line, pass: Pass, junk: Junk)
    requires FirstLine(line, pass, junk).0.kind.Branch?
    ensures line.mnemonic != "" && KindOf(line.mnemonic).Branch?
    ensures FirstLine(line, pass, junk) == FirstBranch(line, KindOf(line.mnemonic).op, pass, junk)
    ensures FirstLine(line, pass, junk).0.kind == KindOf(line.mnemonic) && FirstLine(line, pass, junk).0.relative == (Upper(line.mnemonic[0]) == 'R')
  {
    hide DecodeOperand, Str2Int, KindOf, AsciiWords, Flag, UpperAll, HasEqu, EquValue;
  }

  predicate WordLoaded(c: C.Machine, e: Entry, i: nat)
    requires i < |e.data|
  {
    0 <= e.address + i < C.MEMORY_SIZE ==> c.mem[e.address + i] == C.Low(e.data[i])
  }

  /** The words of an entry are in memory at its address. */
  predicate Loaded(c: C.Machine, e: Entry) {
    forall i :: 0 <= i < |e.data| ==> WordLoaded(c, e, i)
  }

  /** The processor is about to execute the line that e was made from. */
  predicate Reached(c: C.Machine, e: Entry) {
    !(c.intRequest && !c.intActive) && C.Reg(c, C.PC) == e.address && e.address + 1 < C.IO_AREA_START && Loaded(c, e)
  }

  /** Line k of an error-free source branches to a label or EQU. */
  predicate BranchesToName(lines: seq<Line>, junk: nat -> Junk, k: nat) {
    k < |lines| && Assemble(lines, junk).1 == 0
    && Assemble(lines, junk).0[k].kind.Branch? && Assemble(lines, junk).0[k].srcType == LabelEqu
  }

  /** What the operand of line k stands for. */
  function LabelOf(lines: seq<Line>, junk: nat -> Junk, k: nat): C.Word
    requires k < |lines|
  {
    var (first, pass) := FirstPass(lines, junk);
    C.Low(Resolve(pass.equs, first, Assemble(lines, junk).0[k].src))
  }

  /** The flag test of line k. */
  predicate Taking(lines: seq<Line>, k: nat, c: C.Machine)
    requires k < |lines| && |lines[k].args| >= 2 && Flag(lines[k].args[1]).1 < 8
  {
    var (negate, flag) := Flag(lines[k].args[1]);
    (C.Bit(C.StatusOf(c), flag) == 1) != negate
  }

  lemma BranchLine(lines: seq<Line>, junk: nat -> Junk, k: nat)
    requires BranchesToName(lines, junk, k)
    ensures |lines[k].args| >= 2 && Flag(lines[k].args[1]).1 < 8
    ensures var e := Assemble(lines, junk).0[k];
            var (first, pass) := FirstPass(lines, junk);
            var (negate, flag) := Flag(lines[k].args[1]);
            var value := Resolve(pass.equs, first, e.src);
      && 0 <= e.kind.op < 4 && e.src == lines[k].args[0]
      && e.data == [WordWith(if RegisterLike(e.src) then 0 else CONSTANT_CODE, e.kind.op, negate, flag),
                    if e.kind.op >= 2 then (value - e.address - 2) % 0x1_0000 else value]
  {
    hide FirstPass, SecondPass, SecondLine, FirstLine, FirstBranch, Resolve, Flag, DecodeOperand, WordWith, KindOf, RegisterLike;
    var (first, all) := FirstPass(lines, junk);
    FirstPassSound(lines, junk);
    SecondPassFills(first, all.equs, first, junk, k);
    var pass := EntryMade(lines, junk, k);
    KindOfFirst(lines[k], pass, junk(k));
    BranchKind(lines[k].mnemonic);
    BranchLineWords(lines[k], KindOf(lines[k].mnemonic).op, pass, all.equs, first, junk(k));
  }

  /** A branch to a label or EQU, assembled and reached by the processor. If the name does not look like a register,
      the step goes to what it stands for when the flag test holds and to the next line otherwise, and ASUB and RSUB
      push the next line's address. If it does, R0 decides, and the next line is taken to be the word of the name. */
  lemma AssembledBranch(lines: seq<Line>, junk: nat -> Junk, k: nat, c: C.Machine, io: C.Devices)
    requires BranchesToName(lines, junk, k) && Reached(c, Assemble(lines, junk).0[k])
    ensures |lines[k].args| >= 2 && Flag(lines[k].args[1]).1 < 8
    ensures var e := Assemble(lines, junk).0[k];
            var (d, stopped) := C.Step(c, io);
      && 0 <= e.kind.op < 4 && !stopped && |e.data| == 2
      && if RegisterLike(e.src)
         then BranchedBy(c, d, e.kind.op, Taking(lines, k, c), Misled(c, e.kind.op), C.Low(e.address + 1))
         else Branched(c, d, e.kind.op, Taking(lines, k, c), LabelOf(lines, junk, k))
  {
    hide FirstPass, SecondPass, C.Step, C.Bit, C.StatusOf, C.Reg, BranchedBy, Resolve, Flag, WordWith, RegisterLike;
    BranchLine(lines, junk, k);
    var e := Assemble(lines, junk).0[k];
    var (negate, flag) := Flag(lines[k].args[1]);
    assert WordLoaded(c, e, 0) && WordLoaded(c, e, 1);
    if RegisterLike(e.src) {
      StepMisled(c, io, e.kind.op, negate, flag);
    } else {
      var (first, pass) := FirstPass(lines, junk);
      StepBranches(c, io, e.kind.op, negate, flag, C.Low(e.data[1]));
      RelativeTarget(Resolve(pass.equs, first, e.src), e.address);
    }
  }

  lemma Misdirected(c: C.Machine, d: C.Machine, op: int, taken: bool, target: C.Word)
    requires C.Reg(c, C.PC) + 1 < C.IO_AREA_START && BranchedBy(c, d, op, taken, Misled(c, op), C.Low(C.Reg(c, C.PC) + 1))
    ensures Branched(c, d, op, taken, target)
            <==> taken && Misled(c, op) == target
                 && (op % 2 == 1 ==> C.Low(C.Reg(c, C.SP) as int - 1) >= C.IO_AREA_START)
  {
    hide C.StatusOf, Misled;
    var sp := C.Low(C.Reg(c, C.SP) as int - 1);
    var pc := C.Reg(c, C.PC);
    if taken && op % 2 == 1 && sp < C.IO_AREA_START {
      assert C.Store(c, sp, C.Low(pc + 1)).mem[sp] == pc + 1;
      assert C.Store(c, sp, C.Low(pc + 2)).mem[sp] == C.Low(pc + 2);
    }
  }

  /** The step does what the label asks for if and only if the name does not look like a register, or R0 happens to
      lead there and, for a call, the return address is not stored in memory. */
  lemma BranchGoesToLabel(lines: seq<Line>, junk: nat -> Junk, k: nat, c: C.Machine, io: C.Devices)
    requires BranchesToName(lines, junk, k) && Reached(c, Assemble(lines, junk).0[k])
    ensures |lines[k].args| >= 2 && Flag(lines[k].args[1]).1 < 8
    ensures var e := Assemble(lines, junk).0[k];
            var op := e.kind.op;
      Branched(c, C.Step(c, io).0, op, Taking(lines, k, c), LabelOf(lines, junk, k))
      <==> !RegisterLike(e.src)
           || (Taking(lines, k, c) && Misled(c, op) == LabelOf(lines, junk, k)
               && (op % 2 == 1 ==> C.Low(C.Reg(c, C.SP) as int - 1) >= C.IO_AREA_START))
  {
    hide C.Step, Branched, BranchedBy, Misled, RegisterLike, Taking, LabelOf, Assemble;
    AssembledBranch(lines, junk, k, c, io);
    var e := Assemble(lines, junk).0[k];
    if RegisterLike(e.src) {
      Misdirected(c, C.Step(c, io).0, e.kind.op, Taking(lines, k, c), LabelOf(lines, junk, k));
    }
  }

  /** On every machine that reaches the line the step goes right if and only if the name does not look like a
      register. */
  lemma BranchAlwaysGoesToLabel(lines: seq<Line>, junk: nat -> Junk, k: nat, io: C.Devices)
    requires BranchesToName(lines, junk, k)
    requires 0 <= Assemble(lines, junk).0[k].address && Assemble(lines, junk).0[k].address + 1 < C.IO_AREA_START
    ensures |lines[k].args| >= 2 && Flag(lines[k].args[1]).1 < 8
    ensures var e := Assemble(lines, junk).0[k];
      (forall c: C.Machine :: Reached(c, e) ==>
         Branched(c, C.Step(c, io).0, e.kind.op, Taking(lines, k, c), LabelOf(lines, junk, k)))
      <==> !RegisterLike(e.src)
  {
    hide C.Step, Branched, Misled, RegisterLike, Taking, LabelOf, Assemble, Reached;
    BranchLine(lines, junk, k);
    var e := Assemble(lines, junk).0[k];
    forall c: C.Machine | Reached(c, e)
      ensures Branched(c, C.Step(c, io).0, e.kind.op, Taking(lines, k, c), LabelOf(lines, junk, k))
              <==> !RegisterLike(e.src) || (Taking(lines, k, c) && Misled(c, e.kind.op) == LabelOf(lines, junk, k)
                   && (e.kind.op % 2 == 1 ==> C.Low(C.Reg(c, C.SP) as int - 1) >= C.IO_AREA_START))
    {
      BranchGoesToLabel(lines, junk, k, c, io);
    }
    var c := MisledMachine(e, LabelOf(lines, junk, k));
    assert Reached(c, e);
  }

  /** A machine that reaches e with an R0 that leads past the label. */
  lemma MisledMachine(e: Entry, target: C.Word) returns (c: C.Machine)
    requires |e.data| == 2 && e.kind.Branch? && 0 <= e.address && e.address + 1 < C.IO_AREA_START
    ensures Reached(c, e) && Misled(c, e.kind.op) != target
  {
    var r0: C.Word := if e.kind.op < 2 then (target + 1) % 0x1_0000 else (target - e.address) % 0x1_0000;
    var regs: seq<C.Word> := seq(C.REGMEM_SIZE, _ => 0);
    var mem: seq<C.Word> := seq(C.MEMORY_SIZE, _ => 0);
    c := C.State(regs[0 := r0][C.PC := e.address],
                 mem[e.address := C.Low(e.data[0])][e.address + 1 := C.Low(e.data[1])], false, 0, false, 0, 0);
    assert C.Bank(c) == 0;
    assert WordLoaded(c, e, 0) && WordLoaded(c, e, 1);
    assert C.Low(e.address + 1 + (target - e.address) % 0x1_0000) == C.Low(target + 1);
  }
}
