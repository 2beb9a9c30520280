/** The disassembler of qnice.c and the assembler of qasm.c undo each other. */
module Disassembler {
  import opened AsmText
  import opened Assembler

  type Word = x: int | 0 <= x < 0x1_0000

  // ----- the disassembler's text -----

  function DigitChar(d: int): char
    requires 0 <= d < 16
  {
    if d < 10 then '0' + d as char else 'A' + (d - 10) as char
  }

  /** %02d of a register number. */
  function Two(n: int): string
    requires 0 <= n < 16
  {
    [DigitChar(n / 10), DigitChar(n % 10)]
  }

  /** 0x%04X of a word. */
  function HexText(v: Word): string {
    "0x" + [DigitChar(v / 4096), DigitChar(v / 256 % 16), DigitChar(v / 16 % 16), DigitChar(v % 16)]
  }

  predicate TakesConstant(operand: int) {
    operand == CONSTANT_CODE
  }

  /** decode_operand of qnice.c, and the constant that takes the place of @R15++. */
  function Show(operand: int, constant: Word): string
    requires 0 <= operand < 64
  {
    var reg := Two(operand / 4);
    if TakesConstant(operand) then HexText(constant)
    else if operand % 4 == 0 then "R" + reg
    else if operand % 4 == 1 then "@R" + reg
    else if operand % 4 == 2 then "@R" + reg + "++"
    else "@--R" + reg
  }

  const BRANCH_BITS: string := "1XCZNV--"

  predicate HasSource(w: Word) {
    w / 4096 < 12 || w / 4096 == 15
  }

  predicate HasDestination(w: Word) {
    w / 4096 < 12 || (w / 4096 == 14 && w / 64 % 64 == 2)
  }

  function One(b: bool): int {
    if b then 1 else 0
  }

  /** The constants behind an instruction word. */
  function Constants(w: Word): nat {
    One(HasSource(w) && TakesConstant(w / 64 % 64)) + One(HasDestination(w) && TakesConstant(w % 64))
  }

  /** Instructions that the disassembler shows completely: the two-operand ones but CMP, branches on a named flag,
      and HALT, RTI, INT, INCRB, DECRB without stray bits. */
  predicate Shown(w: Word) {
    w / 4096 < 12
    || (w / 4096 == 14 && w / 64 % 64 < 5 && (w / 64 % 64 != 2 ==> w % 64 == 0))
    || (w / 4096 == 15 && w % 8 < 6)
  }

  function At(words: seq<Word>, i: nat): Word {
    if i < |words| then words[i] else 0
  }

  /** The text of the instruction at the start of words: mnemonic and operands. */
  function ShowOne(words: seq<Word>): Line
    requires words != [] && Shown(words[0])
  {
    var w := words[0];
    var op := w / 4096;
    var skip := One(HasSource(w) && TakesConstant(w / 64 % 64));
    if op < 12 then
      Line("", NORMAL[op], [Show(w / 64 % 64, At(words, 1)), Show(w % 64, At(words, skip + 1))], "")
    else if op == 14 then
      Line("", CONTROLS[w / 64 % 64], if w / 64 % 64 == 2 then [Show(w % 64, At(words, 1))] else [], "")
    else
      Line("", BRANCHES[w / 16 % 4],
           [Show(w / 64 % 64, At(words, 1)), (if w / 8 % 2 == 1 then "!" else "") + [BRANCH_BITS[w % 8]]], "")
  }

  /** A sequence of complete instructions. */
  predicate Complete(words: seq<Word>) {
    words == [] || (Shown(words[0]) && 1 + Constants(words[0]) <= |words| && Complete(words[1 + Constants(words[0])..]))
  }

  function Disassemble(words: seq<Word>): seq<Line>
    requires Complete(words)
  {
    if words == [] then [] else [ShowOne(words)] + Disassemble(words[1 + Constants(words[0])..])
  }

  // ----- reading the text back -----

  lemma DigitRead(d: int)
    requires 0 <= d < 16
    ensures IsHexDigit(DigitChar(d)) && DigitValue(DigitChar(d)) == d
    ensures d < 10 ==> IsDigit(DigitChar(d))
  {}

  lemma TwoRead(n: int, junk: int)
    requires 0 <= n < 16
    ensures Str2Int(Two(n), junk) == (n, false)
    ensures |Two(n)| == 2 && IsDigit(Two(n)[0]) && IsDigit(Two(n)[1])
  {
    var s := Two(n);
    DigitRead(n / 10);
    DigitRead(n % 10);
    assert s[1..] == [s[1]] && s[1..][1..] == [];
    assert Decimal([], n) == n;
    assert Decimal(s[1..], n / 10) == n;
    assert Decimal(s, 0) == n;
  }

  lemma HexRead(v: Word, junk: int)
    ensures Str2Int(HexText(v), junk) == (v, false)
  {
    var s := HexText(v);
    var a, b, c, d := v / 4096, v / 256 % 16, v / 16 % 16, v % 16;
    DigitRead(a); DigitRead(b); DigitRead(c); DigitRead(d);
    assert s[..2] == "0x";
    var t := s[2..];
    assert t == [DigitChar(a), DigitChar(b), DigitChar(c), DigitChar(d)];
    assert t[1..] == [DigitChar(b), DigitChar(c), DigitChar(d)];
    assert t[1..][1..] == [DigitChar(c), DigitChar(d)];
    assert t[1..][1..][1..] == [DigitChar(d)];
    assert t[1..][1..][1..][1..] == [];
    assert Hex(t, 0) == Hex(t[1..], a) == Hex(t[1..][1..], 16 * a + b) == Hex(t[1..][1..][1..], 16 * (16 * a + b) + c)
        == 16 * (16 * (16 * a + b) + c) + d;
    HexDigits(v);
  }

  lemma HexDigits(v: Word)
    ensures 16 * (16 * (16 * (v / 4096) + v / 256 % 16) + v / 16 % 16) + v % 16 == v
  {
    assert v / 16 / 16 == v / 256 && v / 256 / 16 == v / 4096;
  }

  /** The assembler gives an operand the bits it was shown for; only a constant asks for a word. */
  lemma OperandRead(operand: int, constant: Word, junk: int)
    requires 0 <= operand < 64
    ensures var (t, code) := DecodeOperand(Show(operand, constant), junk);
      && code == operand && t != Illegal && t != LabelEqu && t != Missing && (t == Constant <==> TakesConstant(operand))
    ensures TakesConstant(operand) ==> Str2Int(Show(operand, constant), junk) == (constant, false)
  {
    hide Str2Int, Two;
    var s := Show(operand, constant);
    var reg := Two(operand / 4);
    TwoRead(operand / 4, junk);
    if TakesConstant(operand) {
      HexRead(constant, junk);
      assert s[0] == '0' && s[..2][0] == '0';
    } else if operand % 4 == 0 {
      assert s[1..] == reg;
    } else if operand % 4 == 1 {
      assert s[..2] == "@R" && s[2..] == reg;
    } else if operand % 4 == 2 {
      assert s[..2] == "@R" && s[2..|s| - 2] == reg;
    } else {
      assert s[..2][1] == '-' && s[..4] == "@--R" && s[4..] == reg;
    }
  }

  // ----- mnemonics -----

  /** Tells the mnemonics apart. */
  function Key(s: string): (int, char, char, char) {
    if s == "" then (0, ' ', ' ', ' ') else (|s|, s[0], s[|s| / 2], s[|s| - 1])
  }

  predicate UpperCase(s: string) {
    forall i :: 0 <= i < |s| ==> !('a' <= s[i] <= 'z')
  }

  lemma UpperStays(s: string)
    requires UpperCase(s)
    ensures UpperAll(s) == s
  {}

  lemma FirstPlace(s: seq<string>, i: nat)
    requires i < |s| && forall j :: 0 <= j < i ==> Key(s[j]) != Key(s[i])
    ensures IndexIn(s, s[i]) == i
  {}

  lemma NotIn(s: seq<string>, x: string)
    requires forall j :: 0 <= j < |s| ==> Key(s[j]) != Key(x)
    ensures x !in s
  {}

  lemma NormalKind(op: int)
    requires 0 <= op < 13
    ensures KindOf(NORMAL[op]) == Normal(op)
  {
    var m := NORMAL[op];
    assert UpperCase(m);
    UpperStays(m);
    FirstPlace(NORMAL, op);
  }

  lemma BranchKindOf(op: int)
    requires 0 <= op < 4
    ensures KindOf(BRANCHES[op]) == Branch(op)
  {
    var m := BRANCHES[op];
    assert UpperCase(m);
    UpperStays(m);
    NotIn(NORMAL, m);
    FirstPlace(BRANCHES, op);
  }

  lemma ControlKindOf(op: int)
    requires 0 <= op < 5
    ensures KindOf(CONTROLS[op]) == Control(op)
  {
    var m := CONTROLS[op];
    assert UpperCase(m);
    UpperStays(m);
    NotIn(NORMAL, m);
    NotIn(BRANCHES, m);
    FirstPlace(CONTROLS, op);
  }

  lemma FlagRead(negate: bool, flag: int)
    requires 0 <= flag < 6
    ensures Flag((if negate then "!" else "") + [BRANCH_BITS[flag]]) == (negate, flag)
  {
    SameBits(flag);
    CharPlace(flag);
    FlagOf(negate, SR_BITS[flag]);
  }

  lemma SameBits(flag: int)
    requires 0 <= flag < 6
    ensures BRANCH_BITS[flag] == SR_BITS[flag] && SR_BITS[flag] != '!'
  {}

  lemma FlagOf(negate: bool, c: char)
    requires c != '!'
    ensures Flag((if negate then "!" else "") + [c]) == (negate, IndexIn(SR_BITS, c))
  {
    hide IndexIn;
    var s := (if negate then "!" else "") + [c];
    assert (if negate then s[1..] else s) == [c];
  }

  lemma CharPlace(flag: int)
    requires 0 <= flag < 6
    ensures IndexIn(SR_BITS, SR_BITS[flag]) == flag
  {
    var i := IndexIn(SR_BITS, SR_BITS[flag]);
    assert forall j :: 0 <= j < flag ==> SR_BITS[j] != SR_BITS[flag];
  }

  // ----- one instruction -----

  /** Entry e holds these words and leaves nothing to the second pass. */
  predicate Holds(e: Entry, words: seq<Word>) {
    e.data == words && e.srcType != LabelEqu && e.dstType != LabelEqu && e.kind != Dw && e.name == ""
  }

  lemma Joined(w: Word)
    ensures w == 4096 * (w / 4096) + 64 * (w / 64 % 64) + w % 64
    ensures w % 64 == 16 * (w / 16 % 4) + 8 * (w / 8 % 2) + w % 8
  {
    assert w / 64 / 64 == w / 4096;
    assert w / 8 / 2 == w / 16 && w / 16 / 4 == w / 64;
  }

  lemma FirstLineIs(line: Line, pass: Pass, junk: Junk)
    requires line.mnemonic != ""
    ensures match KindOf(line.mnemonic)
            case Normal(op) => FirstLine(line, pass, junk) == FirstNormal(line, op, pass, junk)
            case Branch(op) => FirstLine(line, pass, junk) == FirstBranch(line, op, pass, junk)
            case Control(op) => FirstLine(line, pass, junk) == FirstControl(line, op, pass, junk)
            case _ => true
  {
    hide FirstNormal, FirstBranch, FirstControl, FirstEqu, FirstBlock, KindOf, Str2Int, AsciiWords, UpperAll;
  }

  /** An operand that is read back as its six bits and, if it takes a constant, as that, whatever memory holds. */
  ghost predicate Read(s: string, operand: int, constant: Word) {
    && 0 <= operand < 64
    && (forall junk: int ::
          var (t, code) := DecodeOperand(s, junk);
          code == operand && t != Illegal && t != LabelEqu && t != Missing && (t == Constant <==> TakesConstant(operand)))
    && (TakesConstant(operand) ==> forall junk: int :: Str2Int(s, junk) == (constant, false))
  }

  lemma ShowRead(operand: int, constant: Word)
    requires 0 <= operand < 64
    ensures Read(Show(operand, constant), operand, constant)
  {
    hide DecodeOperand, Str2Int, Show;
    forall junk: int {
      OperandRead(operand, constant, junk);
    }
  }

  lemma NormalData(line: Line, op: int, pass: Pass, junk: Junk, words: seq<Word>, src: int, dst: int)
    requires line.name == "" && |line.args| == 2 && words != []
    requires words[0] == 4096 * op + 64 * src + dst
    requires Read(line.args[0], src, At(words, 1))
    requires Read(line.args[1], dst, At(words, One(TakesConstant(src)) + 1))
    requires 1 + One(TakesConstant(src)) + One(TakesConstant(dst)) <= |words|
    ensures var (e, pass') := FirstNormal(line, op, pass, junk);
            pass'.errors == pass.errors && Holds(e, words[..1 + One(TakesConstant(src)) + One(TakesConstant(dst))])
  {
    hide DecodeOperand, Str2Int;
  }

  lemma NormalReadBack(words: seq<Word>, pass: Pass, junk: Junk)
    requires words != [] && words[0] / 4096 < 12 && 1 + Constants(words[0]) <= |words|
    ensures var (e, pass') := FirstLine(ShowOne(words), pass, junk);
            pass'.errors == pass.errors && Holds(e, words[..1 + Constants(words[0])])
  {
    hide FirstLine, FirstNormal, Show, KindOf, Read, Holds;
    var w := words[0];
    var src, dst := w / 64 % 64, w % 64;
    NormalKind(w / 4096);
    Joined(w);
    ShowRead(src, At(words, 1));
    ShowRead(dst, At(words, One(TakesConstant(src)) + 1));
    FirstLineIs(ShowOne(words), pass, junk);
    NormalData(ShowOne(words), w / 4096, pass, junk, words, src, dst);
  }

  lemma BranchData(line: Line, op: int, pass: Pass, junk: Junk, words: seq<Word>, src: int, negate: bool, flag: nat)
    requires line.name == "" && line.mnemonic != "" && |line.args| == 2 && words != [] && flag < 8
    requires words[0] == 0xf000 + 64 * src + 16 * op + (if negate then 8 else 0) + flag
    requires Read(line.args[0], src, At(words, 1)) && Flag(line.args[1]) == (negate, flag)
    requires 1 + One(TakesConstant(src)) <= |words|
    ensures var (e, pass') := FirstBranch(line, op, pass, junk);
            pass'.errors == pass.errors && Holds(e, words[..1 + One(TakesConstant(src))])
  {
    hide DecodeOperand, Str2Int, Flag;
  }

  lemma BranchReadBack(words: seq<Word>, pass: Pass, junk: Junk)
    requires words != [] && words[0] / 4096 == 15 && words[0] % 8 < 6 && 1 + Constants(words[0]) <= |words|
    ensures var (e, pass') := FirstLine(ShowOne(words), pass, junk);
            pass'.errors == pass.errors && Holds(e, words[..1 + Constants(words[0])])
  {
    hide FirstLine, FirstBranch, Show, KindOf, Read, Holds, Flag;
    var w := words[0];
    BranchKindOf(w / 16 % 4);
    Joined(w);
    ShowRead(w / 64 % 64, At(words, 1));
    FlagRead(w / 8 % 2 == 1, w % 8);
    FirstLineIs(ShowOne(words), pass, junk);
    BranchData(ShowOne(words), w / 16 % 4, pass, junk, words, w / 64 % 64, w / 8 % 2 == 1, w % 8);
  }

  lemma ControlData(line: Line, op: int, pass: Pass, junk: Junk, words: seq<Word>, dst: int)
    requires line.name == "" && words != [] && 0 <= op < 5 && words[0] == 0xe000 + 64 * op + dst
    requires op != 2 ==> dst == 0
    requires op == 2 ==> |line.args| == 1 && Read(line.args[0], dst, At(words, 1))
    requires 1 + One(op == 2 && TakesConstant(dst)) <= |words|
    ensures var (e, pass') := FirstControl(line, op, pass, junk);
            pass'.errors == pass.errors && Holds(e, words[..1 + One(op == 2 && TakesConstant(dst))])
  {
    hide DecodeOperand, Str2Int;
  }

  lemma ControlReadBack(words: seq<Word>, pass: Pass, junk: Junk)
    requires words != [] && words[0] / 4096 == 14 && Shown(words[0]) && 1 + Constants(words[0]) <= |words|
    ensures var (e, pass') := FirstLine(ShowOne(words), pass, junk);
            pass'.errors == pass.errors && Holds(e, words[..1 + Constants(words[0])])
  {
    hide FirstLine, FirstControl, Show, KindOf, Read, Holds;
    var w := words[0];
    ControlKindOf(w / 64 % 64);
    Joined(w);
    ShowRead(w % 64, At(words, 1));
    FirstLineIs(ShowOne(words), pass, junk);
    ControlData(ShowOne(words), w / 64 % 64, pass, junk, words, w % 64);
  }

  lemma ReadBack(words: seq<Word>, pass: Pass, junk: Junk)
    requires words != [] && Shown(words[0]) && 1 + Constants(words[0]) <= |words|
    ensures var (e, pass') := FirstLine(ShowOne(words), pass, junk);
            pass'.errors == pass.errors && Holds(e, words[..1 + Constants(words[0])])
    ensures ShowOne(words).name == ""
  {
    hide FirstLine, ShowOne;
    if words[0] / 4096 < 12 {
      NormalReadBack(words, pass, junk);
    } else if words[0] / 4096 == 14 {
      ControlReadBack(words, pass, junk);
    } else {
      BranchReadBack(words, pass, junk);
    }
    NoName(words);
  }

  lemma NoName(words: seq<Word>)
    requires words != [] && Shown(words[0])
    ensures ShowOne(words).name == ""
  {}

  // ----- the whole sequence -----

  function WordsOf(entries: seq<Entry>): seq<int> {
    if entries == [] then [] else entries[0].data + WordsOf(entries[1..])
  }

  lemma {:induction false} WordsOfSnoc(entries: seq<Entry>, e: Entry)
    ensures WordsOf(entries + [e]) == WordsOf(entries) + e.data
  {
    if entries == [] {
      assert [e][1..] == [];
    } else {
      assert (entries + [e])[1..] == entries[1..] + [e];
      WordsOfSnoc(entries[1..], e);
    }
  }

  /** Nothing is left to the second pass. */
  predicate Settled(e: Entry) {
    e.srcType != LabelEqu && e.dstType != LabelEqu && e.kind != Dw
  }

  /** The first pass over lines gives these words, without error and without anything left to resolve. */
  predicate Gives(lines: seq<Line>, words: seq<Word>, junk: nat -> Junk) {
    var (entries, pass) := FirstPass(lines, junk);
    pass.errors == 0 && WordsOf(entries) == words && forall e :: e in entries ==> Settled(e)
  }

  lemma {:induction false} FirstPassGives(done: seq<Line>, doneWords: seq<Word>, words: seq<Word>, junk: nat -> Junk)
    requires Complete(words) && Gives(done, doneWords, junk)
    ensures Gives(done + Disassemble(words), doneWords + words, junk)
    decreases |words|
  {
    hide Gives, ShowOne, Shown, Constants;
    if words == [] {
      assert done + Disassemble(words) == done && doneWords + words == doneWords;
    } else {
      var n := 1 + Constants(words[0]);
      var line := ShowOne(words);
      OneMore(done, doneWords, words, junk);
      FirstPassGives(done + [line], doneWords + words[..n], words[n..], junk);
      assert done + [line] + Disassemble(words[n..]) == done + Disassemble(words);
      assert doneWords + words[..n] + words[n..] == doneWords + words;
    }
  }

  lemma OneMore(done: seq<Line>, doneWords: seq<Word>, words: seq<Word>, junk: nat -> Junk)
    requires words != [] && Shown(words[0]) && 1 + Constants(words[0]) <= |words| && Gives(done, doneWords, junk)
    ensures Gives(done + [ShowOne(words)], doneWords + words[..1 + Constants(words[0])], junk)
  {
    hide FirstLine, ShowOne, Shown;
    var line := ShowOne(words);
    var (entries, pass) := FirstPass(done, junk);
    ReadBack(words, pass, junk(|done|));
    assert (done + [line])[..|done|] == done;
    WordsOfSnoc(entries, FirstLine(line, pass, junk(|done|)).0);
  }

  lemma {:induction false} SecondPassSettled(es: seq<Entry>, equs: seq<(string, int)>, entries: seq<Entry>, junk: nat -> Junk)
    requires forall e :: e in es ==> Sound(e) && Settled(e)
    ensures SecondPass(es, equs, entries, junk) == (es, 0)
  {
    if es != [] {
      var m := |es| - 1;
      SecondPassSettled(es[..m], equs, entries, junk);
      assert es[m] in es && es == es[..m] + [es[m]];
    }
  }

  /** Disassembling and assembling again gives the same words, without an error. */
  lemma DisassembleAssemble(words: seq<Word>, junk: nat -> Junk)
    requires Complete(words)
    ensures var (entries, errors) := Assemble(Disassemble(words), junk);
            errors == 0 && WordsOf(entries) == words
  {
    hide FirstPass, SecondPass;
    var lines := Disassemble(words);
    assert Gives([], [], junk) by { NoLines(junk); }
    FirstPassGives([], [], words, junk);
    assert [] + lines == lines && [] + words == words;
    FirstPassSound(lines, junk);
    var (first, pass) := FirstPass(lines, junk);
    SecondPassSettled(first, pass.equs, first, junk);
  }

  lemma NoLines(junk: nat -> Junk)
    ensures FirstPass([], junk) == ([], Pass([], 0, 0))
  {}

  lemma DisassembleStep(words: seq<Word>, i: nat)
    requires i < |words| && Complete(words[i..])
    ensures Shown(words[i]) && i + 1 + Constants(words[i]) <= |words| && Complete(words[i + 1 + Constants(words[i])..])
    ensures Disassemble(words[i..]) == [ShowOne(words[i..])] + Disassemble(words[i + 1 + Constants(words[i])..])
  {
    hide ShowOne, Shown, Constants;
    assert words[i..][0] == words[i] && words[i..][1 + Constants(words[i])..] == words[i + 1 + Constants(words[i])..];
  }

  lemma DisassembleNothing()
    ensures Complete([]) && Disassemble([]) == []
  {}

  /** disassemble: a loop over the words that passes over the constants of the instruction before. */
  method DisassembleWords(words: seq<Word>) returns (lines: seq<Line>)
    requires Complete(words)
    ensures lines == Disassemble(words)
  {
    hide ShowOne, Shown, Constants, Complete, Disassemble;
    lines := [];
    assert words[0..] == words;
    var skip, i := 0, 0;
    while i < |words|
      invariant 0 <= i && 0 <= skip && i + skip <= |words|
      invariant Complete(words[i + skip..])
      invariant Disassemble(words) == lines + Disassemble(words[i + skip..])
    {
      if skip > 0 {
        skip := skip - 1;
      } else {
        DisassembleStep(words, i);
        lines := lines + [ShowOne(words[i..])];
        skip := Constants(words[i]);
      }
      i := i + 1;
    }
    DisassembleNothing();
  }
}
