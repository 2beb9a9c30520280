/** Small programs on which the QNICE assembler does not do what its source seems to say. */
module AsmExamples {
  import opened AsmText
  import opened Assembler
  import opened BranchToLabel
  import opened Disassembler
  import C = Cpu

  const START := Pass([], 0, 0)

  /** Both passes over a program of two lines. */
  lemma TwoLines(a: Line, b: Line, junk: nat -> Junk)
    ensures var (e0, p0) := FirstLine(a, START, junk(0));
            var (e1, p1) := FirstLine(b, Checked(b, [e0], p0), junk(1));
      && FirstPass([a, b], junk) == ([e0, e1], p1)
      && Sound(e0) && Sound(e1)
      && var (f0, n0) := SecondLine(e0, p1.equs, [e0, e1], junk(0));
         var (f1, n1) := SecondLine(e1, p1.equs, [e0, e1], junk(1));
         Assemble([a, b], junk) == ([f0, f1], p1.errors + n0 + n1)
  {
    hide FirstLine, SecondLine, Sound;
    FirstPassOn([], a, junk);
    FirstPassOn([a], b, junk);
    assert [] + [a] == [a] && [a] + [b] == [a, b];
    assert FirstPass([], junk) == ([], START) && Checked(a, [], START) == START;
    var (e0, p0) := FirstLine(a, START, junk(0));
    var (e1, p1) := FirstLine(b, Checked(b, [e0], p0), junk(1));
    assert [] + [e0] == [e0] && [e0] + [e1] == [e0, e1];
    FirstLineSound(a, START, junk(0));
    FirstLineSound(b, Checked(b, [e0], p0), junk(1));
    SecondPassOn([], e0, p1.equs, [e0, e1], junk);
    SecondPassOn([e0], e1, p1.equs, [e0, e1], junk);
    FirstPassSound([a, b], junk);
    var (f0, n0) := SecondLine(e0, p1.equs, [e0, e1], junk(0));
    var (f1, n1) := SecondLine(e1, p1.equs, [e0, e1], junk(1));
    assert SecondPass([], p1.equs, [e0, e1], junk) == ([], 0);
    assert [] + [f0] == [f0] && [f0] + [f1] == [f0, f1];
  }

  lemma FirstPassOn(lines: seq<Line>, line: Line, junk: nat -> Junk)
    ensures var (entries, pass) := FirstPass(lines, junk);
            var (entry, pass') := FirstLine(line, Checked(line, entries, pass), junk(|lines|));
            FirstPass(lines + [line], junk) == (entries + [entry], pass')
  {
    hide FirstLine;
    assert (lines + [line])[..|lines|] == lines;
  }

  lemma SecondPassOn(first: seq<Entry>, e: Entry, equs: seq<(string, int)>, entries: seq<Entry>, junk: nat -> Junk)
    requires Sound(e) && forall f :: f in first ==> Sound(f)
    ensures forall f :: f in first + [e] ==> Sound(f)
    ensures var (done, errors) := SecondPass(first, equs, entries, junk);
            var (entry, more) := SecondLine(e, equs, entries, junk(|first|));
            SecondPass(first + [e], equs, entries, junk) == (done + [entry], errors + more)
  {
    hide SecondLine, Sound;
    assert (first + [e])[..|first|] == first;
  }

  lemma OrgKind()
    ensures KindOf(".ORG") == Org
  {
    assert UpperAll(".ORG") == ".ORG";
    var m := ".ORG";
    assert Key(m) == (4, '.', 'R', 'G');
    NotIn(NORMAL, m);
    NotIn(BRANCHES, m);
    NotIn(CONTROLS, m);
  }

  lemma Number256(junk: int)
    ensures Str2Int("256", junk) == (256, false)
  {
    assert "256"[1..] == "56" && "56"[1..] == "6" && "6"[1..] == "";
    assert Decimal("256", 0) == Decimal("56", 2) == Decimal("6", 25) == Decimal("", 256);
    SignedDigits("256", junk);
    NotPrefixed("256");
  }

  /** A line with a control instruction without operands. */
  lemma ControlLine(line: Line, op: int, pass: Pass, junk: Junk)
    requires line.mnemonic != "" && KindOf(line.mnemonic) == Control(op) && op in {0, 1, 3, 4}
    ensures FirstLine(line, pass, junk)
            == (Entry(Control(op), line.name, pass.address, [0xe000 + 64 * op], Missing, "", Missing, "", false, []),
                pass.(address := pass.address + 1))
  {
    hide KindOf, UpperAll, AsciiWords, Str2Int, FirstNormal, FirstBranch, FirstEqu, FirstBlock, DecodeOperand, PutConstant;
  }

  /** The line HALT. */
  lemma HaltLine(name: string, pass: Pass, junk: Junk)
    ensures FirstLine(Line(name, "HALT", [], ""), pass, junk)
            == (Entry(Control(0), name, pass.address, [0xe000], Missing, "", Missing, "", false, []),
                pass.(address := pass.address + 1))
  {
    hide FirstLine, KindOf;
    ControlKindOf(0);
    ControlLine(Line(name, "HALT", [], ""), 0, pass, junk);
  }

  lemma HaltStays(e: Entry, equs: seq<(string, int)>, entries: seq<Entry>, junk: Junk)
    requires e.srcType == e.dstType == Missing && e.kind != Dw && Sound(e)
    ensures SecondLine(e, equs, entries, junk) == (e, 0)
  {}

  lemma OrgLine(junk: Junk)
    ensures FirstLine(Line("A", ".ORG", ["256"], ""), START, junk)
            == (NO_ENTRY.(kind := Org, name := "A"), START.(address := 256))
  {
    OrgKind();
    Number256(junk.number(0));
    hide KindOf, UpperAll, AsciiWords, DecodeOperand, Str2Int;
  }

  /** A .ORG 256 with the label A, and a word behind it: the word is at 256, but A stands for 0xFFFF. */
  lemma OrgLabelExample(junk: nat -> Junk)
    ensures var lines := [Line("A", ".ORG", ["256"], ""), Line("", "HALT", [], "")];
            var (entries, errors) := Assemble(lines, junk);
            var (first, pass) := FirstPass(lines, junk);
      && errors == 0 && entries[1].address == 256 && entries[1].data == [0xe000]
      && Resolve(pass.equs, first, "A") == 0xffff
  {
    hide FirstLine, SecondLine, Assemble, FirstPass;
    var a, b := Line("A", ".ORG", ["256"], ""), Line("", "HALT", [], "");
    TwoLines(a, b, junk);
    OrgLine(junk(0));
    var (e0, p0) := FirstLine(a, START, junk(0));
    HaltLine("", p0, junk(1));
    var (e1, p1) := FirstLine(b, Checked(b, [e0], p0), junk(1));
    HaltStays(e0, p1.equs, [e0, e1], junk(0));
    HaltStays(e1, p1.equs, [e0, e1], junk(1));
  }

  lemma Digit(junk: int)
    ensures Str2Int("5", junk) == (5, false) && DecodeOperand("5", junk) == (Constant, CONSTANT_CODE)
    ensures Str2Int("0", junk) == (0, false) && DecodeOperand("R0", junk) == (Rxx, 0)
    ensures DecodeOperand("L", junk) == (LabelEqu, CONSTANT_CODE)
  {
    assert "5"[1..] == "" && "0"[1..] == "" && "R0"[1..] == "0";
    assert Decimal("5", 0) == Decimal("", 5) && Decimal("0", 0) == Decimal("", 0);
    RegisterNumber("5", junk);
    RegisterNumber("0", junk);
    hide Str2Int;
  }

  lemma Digits()
    ensures forall junk: int ::
              Str2Int("5", junk) == (5, false) && DecodeOperand("5", junk) == (Constant, CONSTANT_CODE)
              && DecodeOperand("R0", junk) == (Rxx, 0) && DecodeOperand("L", junk) == (LabelEqu, CONSTANT_CODE)
  {
    hide DecodeOperand, Str2Int;
    forall junk: int {
      Digit(junk);
    }
  }

  lemma NinetyNine()
    ensures RegisterLike("R99") && forall junk: int :: DecodeOperand("R99", junk) == (LabelEqu, 0)
  {
    assert "R99"[1..] == "99" && "99"[1..] == "9" && "9"[1..] == "";
    assert Decimal("99", 0) == Decimal("9", 9) == Decimal("", 99);
    forall junk: int
      ensures DecodeOperand("R99", junk) == (LabelEqu, 0)
    {
      RegisterLikeOperand("R99", junk);
    }
  }

  lemma MoveLine(args: seq<string>, junk: Junk)
    ensures FirstLine(Line("", "MOVE", args, ""), START, junk) == FirstNormal(Line("", "MOVE", args, ""), 0, START, junk)
  {
    NormalKind(0);
    hide KindOf, UpperAll, AsciiWords, DecodeOperand, Str2Int, FirstNormal;
  }

  /** MOVE 5, L with L behind it assembles without error, but 5 is lost: word 1 is L's value, word 2 is as malloc
      left it. */
  lemma MixedExample(junk: nat -> Junk)
    ensures var lines := [Line("", "MOVE", ["5", "L"], ""), Line("L", "HALT", [], "")];
            var (entries, errors) := Assemble(lines, junk);
            errors == 0 && entries[1].address == 3 && entries[0].data == [64 * CONSTANT_CODE + CONSTANT_CODE, 3, junk(0).word(2)]
  {
    hide FirstLine, Assemble, FirstPass, DecodeOperand, Str2Int;
    var a, b := Line("", "MOVE", ["5", "L"], ""), Line("L", "HALT", [], "");
    TwoLines(a, b, junk);
    MoveLine(["5", "L"], junk(0));
    Digits();
    var (e0, p0) := FirstLine(a, START, junk(0));
    assert p0 == START.(address := 3) && e0.data == [64 * CONSTANT_CODE + CONSTANT_CODE, 5, junk(0).word(2)];
    HaltLine("L", Checked(b, [e0], p0), junk(1));
    var (e1, p1) := FirstLine(b, Checked(b, [e0], p0), junk(1));
    HaltStays(e1, p1.equs, [e0, e1], junk(1));
    LabelBehind(e0, e1, p1.equs, "L");
  }

  lemma LabelBehind(e0: Entry, e1: Entry, equs: seq<(string, int)>, name: string)
    requires e0.name != name && e1.name == name && equs == []
    ensures Known(equs, [e0, e1], name) && Resolve(equs, [e0, e1], name) == e1.address % 0x1_0000
  {
    assert [e0, e1][1..] == [e1] && [e0, e1][1].name == name;
    assert LabelValue([e1], name) == e1.address % 0x1_0000;
    assert LabelValue([e0, e1], name) == LabelValue([e1], name);
  }

  /** The label R99 on the second line, at address 2. */
  lemma R99Behind(a: Line, b: Line, junk: nat -> Junk)
    requires b == Line("R99", "HALT", [], "")
    requires var (e0, p0) := FirstLine(a, START, junk(0)); p0 == START.(address := 2) && e0.name == ""
    ensures var (e0, p0) := FirstLine(a, START, junk(0));
            var (e1, p1) := FirstLine(b, Checked(b, [e0], p0), junk(1));
      && p1 == START.(address := 3) && e1.address == 2 && Sound(e1) && SecondLine(e1, p1.equs, [e0, e1], junk(1)) == (e1, 0)
      && Known([], [e0, e1], "R99") && Resolve([], [e0, e1], "R99") == 2
  {
    hide FirstLine;
    var (e0, p0) := FirstLine(a, START, junk(0));
    HaltLine("R99", Checked(b, [e0], p0), junk(1));
    var (e1, p1) := FirstLine(b, Checked(b, [e0], p0), junk(1));
    HaltStays(e1, p1.equs, [e0, e1], junk(1));
    LabelBehind(e0, e1, p1.equs, "R99");
  }

  lemma MoveR99(junk: Junk)
    ensures var (e, pass) := FirstLine(Line("", "MOVE", ["R99", "R0"], ""), START, junk);
            && pass == START.(address := 2)
            && e == Entry(Normal(0), "", 0, [0, junk.word(1)], LabelEqu, "R99", Rxx, "R0", false, [])
  {
    hide FirstLine, DecodeOperand, Str2Int, RegisterLike;
    MoveLine(["R99", "R0"], junk);
    Digits();
    NinetyNine();
  }

  /** MOVE R99, R0 with R99 behind it assembles without error to MOVE R0, R0 and a stray word. */
  lemma RegisterLikeExample(junk: nat -> Junk)
    ensures var lines := [Line("", "MOVE", ["R99", "R0"], ""), Line("R99", "HALT", [], "")];
            var (entries, errors) := Assemble(lines, junk);
            errors == 0 && entries[1].address == 2 && entries[0].data == [0, 2]
  {
    hide FirstLine, Assemble, FirstPass, DecodeOperand, Str2Int, RegisterLike;
    var a, b := Line("", "MOVE", ["R99", "R0"], ""), Line("R99", "HALT", [], "");
    TwoLines(a, b, junk);
    MoveR99(junk(0));
    R99Behind(a, b, junk);
  }

  lemma AbraLine(args: seq<string>, junk: Junk)
    ensures FirstLine(Line("", "ABRA", args, ""), START, junk) == FirstBranch(Line("", "ABRA", args, ""), 0, START, junk)
  {
    BranchKindOf(0);
    hide KindOf, UpperAll, AsciiWords, DecodeOperand, Str2Int, FirstBranch;
  }

  const ABRA_R99: seq<Line> := [Line("", "ABRA", ["R99", "1"], ""), Line("R99", "HALT", [], "")]

  lemma AbraR99(junk: Junk)
    ensures var (e, pass) := FirstLine(Line("", "ABRA", ["R99", "1"], ""), START, junk);
            && pass == START.(address := 2)
            && e == Entry(Branch(0), "", 0, [0xf000, junk.word(1)], LabelEqu, "R99", Missing, "1", false, [])
  {
    hide FirstLine, DecodeOperand, Str2Int, Flag, RegisterLike;
    AbraLine(["R99", "1"], junk);
    NinetyNine();
    assert Flag("1") == (false, 0) by { FlagRead(false, 0); assert "" + [BRANCH_BITS[0]] == "1"; }
  }

  lemma AbraAssembled(junk: nat -> Junk)
    ensures var (entries, errors) := Assemble(ABRA_R99, junk);
      && errors == 0 && entries[0].data == [0xf000, 2] && entries[0].address == 0 && entries[1].address == 2
      && entries[0].kind == Branch(0) && entries[0].srcType == LabelEqu && entries[0].src == "R99"
  {
    hide FirstLine, Assemble, FirstPass, DecodeOperand, Str2Int, Flag, RegisterLike;
    var a, b := ABRA_R99[0], ABRA_R99[1];
    assert ABRA_R99 == [a, b];
    TwoLines(a, b, junk);
    AbraR99(junk(0));
    R99Behind(a, b, junk);
  }

  /** ABRA R99, 1 with the label R99 at 2: the processor goes to wherever R0 points. */
  lemma AbraGoesAstray(c: C.Machine, io: C.Devices, junk: nat -> Junk)
    requires Reached(c, Assemble(ABRA_R99, junk).0[0])
    ensures C.Reg(C.Step(c, io).0, C.PC) == C.Reg(c, 0)
    ensures |ABRA_R99[0].args| >= 2 && Flag(ABRA_R99[0].args[1]).1 < 8
    ensures C.Reg(c, 0) != 2 ==>
              !Branched(c, C.Step(c, io).0, 0, Taking(ABRA_R99, 0, c), 2)
  {
    hide Assemble, C.Step, Flag, C.Bit, RegisterLike;
    AbraAssembled(junk);
    NinetyNine();
    AssembledBranch(ABRA_R99, junk, 0, c, io);
    assert Flag("1") == (false, 0) by { FlagRead(false, 0); assert "" + [BRANCH_BITS[0]] == "1"; }
    assert C.Bit(C.StatusOf(c), 0) == 1 by { StatusBit(c); }
  }

  lemma StatusBit(c: C.Machine)
    ensures C.Bit(C.StatusOf(c), 0) == 1
  {}
}
