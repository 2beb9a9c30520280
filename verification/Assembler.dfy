/** The two passes of the QNICE assembler: qasm.c, assemble and the image part of write_result. */
module Assembler {
  import opened AsmText

  /** A source line cut into tokens, with the double-quoted text of .ASCII_W and .ASCII_P. An empty label or
      mnemonic stands for none. */
  datatype Line = Line(name: string, mnemonic: string, args: seq<string>, text: string)

  datatype Kind = Empty | LabelOnly | Normal(op: int) | Branch(op: int) | Control(op: int) | Org | Equ | Block | Dw | AsciiText | Failed

  /** What the passes keep about a line: data has number_of_words words. */
  datatype Entry = Entry(kind: Kind, name: string, address: int, data: seq<int>,
                         srcType: OperandType, src: string, dstType: OperandType, dst: string,
                         relative: bool, dw: seq<string>)

  const NO_ENTRY := Entry(Empty, "", -1, [], Missing, "", Missing, "", false, [])

  /** What a line finds in memory that nothing has written: the words that malloc gives it, by their place, and the
      variable in each call of str2int, by the number of the call. */
  datatype Junk = Junk(word: nat -> CInt, number: nat -> CInt)

  /** The EQUs in the order of their definition, the address of the next word, the number of errors. */
  datatype Pass = Pass(equs: seq<(string, int)>, address: int, errors: nat)

  function KindOf(mnemonic: string): Kind {
    var m := UpperAll(mnemonic);
    if m in NORMAL then Normal(IndexIn(NORMAL, m))
    else if m in BRANCHES then Branch(IndexIn(BRANCHES, m))
    else if m in CONTROLS then Control(IndexIn(CONTROLS, m))
    else if m == ".ORG" then Org
    else if m == ".ASCII_W" || m == ".ASCII_P" then AsciiText
    else if m == ".EQU" then Equ
    else if m == ".BLOCK" then Block
    else if m == ".DW" then Dw
    else Failed
  }

  predicate HasEqu(equs: seq<(string, int)>, name: string) {
    exists i :: 0 <= i < |equs| && equs[i].0 == name
  }

  function EquValue(equs: seq<(string, int)>, name: string): int {
    if equs == [] then 0 else if equs[0].0 == name then equs[0].1 else EquValue(equs[1..], name)
  }

  function Fail(line: Line, pass: Pass): (Entry, Pass) {
    (NO_ENTRY.(kind := Failed, name := line.name, address := pass.address), pass.(errors := pass.errors + 1))
  }

  predicate NeedsWord(t: OperandType) {
    t == Constant || t == LabelEqu
  }

  function Wanted(t: OperandType): int {
    if NeedsWord(t) then 1 else 0
  }

  // ----- one line in the first pass -----

  /** The words of a line before anything is stored. */
  function Unset(junk: Junk, n: nat): (s: seq<int>)
    ensures |s| == n
  {
    seq(n, i requires 0 <= i < n => junk.word(i))
  }

  /** Put a constant operand into the data words; a text that is no number counts as an error. */
  function PutConstant(data: seq<int>, i: nat, t: OperandType, s: string, junk: int): (r: (seq<int>, int))
    requires t == Constant ==> i < |data|
    ensures |r.0| == |data|
  {
    if t == Constant then
      var (value, error) := Str2Int(s, junk);
      (data[i := value % 0x1_0000], if error then 1 else 0)
    else (data, 0)
  }

  /** Two-operand instructions. The word of a constant destination goes behind that of a constant source, but not
      behind that of a label. */
  function FirstNormal(line: Line, op: int, pass: Pass, junk: Junk): (Entry, Pass) {
    if |line.args| < 2 then Fail(line, pass) else
      var (st, sc) := DecodeOperand(line.args[0], junk.number(0));
      var (dt, dc) := DecodeOperand(line.args[1], junk.number(1));
      if st == Illegal || dt == Illegal then Fail(line, pass) else
        var n := 1 + Wanted(st) + Wanted(dt);
        var data := Unset(junk, n)[0 := 4096 * op + 64 * sc + dc];
        var (data1, e1) := PutConstant(data, 1, st, line.args[0], junk.number(2));
        var (data2, e2) := PutConstant(data1, if st == Constant then 2 else 1, dt, line.args[1], junk.number(3));
        (Entry(Normal(op), line.name, pass.address, data2, st, line.args[0], dt, line.args[1], false, []),
         pass.(address := pass.address + n, errors := pass.errors + e1 + e2))
  }

  function Flag(s: string): (bool, nat) {
    var negate := s != "" && s[0] == '!';
    var p := if negate then s[1..] else s;
    (negate, if p == "" then 8 else IndexIn(SR_BITS, p[0]))
  }

  function FirstBranch(line: Line, op: int, pass: Pass, junk: Junk): (Entry, Pass)
    requires line.mnemonic != ""
  {
    if |line.args| < 2 then Fail(line, pass) else
      var (st, sc) := DecodeOperand(line.args[0], junk.number(0));
      var (negate, flag) := Flag(line.args[1]);
      if st == Illegal || flag > 7 then Fail(line, pass) else
        var n := 1 + Wanted(st);
        var data := Unset(junk, n)[0 := 0xf000 + 64 * sc + 16 * op + (if negate then 8 else 0) + flag];
        var (data1, e1) := PutConstant(data, 1, st, line.args[0], junk.number(2));
        (Entry(Branch(op), line.name, pass.address, data1, st, line.args[0], Missing, line.args[1],
               Upper(line.mnemonic[0]) == 'R', []),
         pass.(address := pass.address + n, errors := pass.errors + e1))
  }

  function FirstControl(line: Line, op: int, pass: Pass, junk: Junk): (Entry, Pass) {
    var plain := Entry(Control(op), line.name, pass.address, [], Missing, "", Missing, "", false, []);
    if op == 0 || op == 1 || op == 3 || op == 4 then
      (plain.(data := [0xe000 + 64 * op]), pass.(address := pass.address + 1))
    else if op == 2 then
      if |line.args| < 1 then Fail(line, pass) else
        var (dt, dc) := DecodeOperand(line.args[0], junk.number(0));
        if dt == Illegal then Fail(line, pass) else
          var n := 1 + Wanted(dt);
          var data := Unset(junk, n)[0 := 0xe000 + 64 * op + dc];
          var (data1, e1) := PutConstant(data, 1, dt, line.args[0], junk.number(2));
          (plain.(data := data1, dstType := dt, dst := line.args[0]),
           pass.(address := pass.address + n, errors := pass.errors + e1))
    else Fail(line, pass)   // EXC is not part of this model
  }

  /** The words of a double-quoted text from place j on: \n gives CR and LF, \t a tab. special is set from a
      backslash to the next n or t. */
  function AsciiWords(text: string, j: nat, special: bool, out: seq<int>, junk: Junk): (r: seq<int>)
    requires special ==> out != [] && 0 < j
    decreases |text| - j
  {
    if j >= |text| || text[j] == '"' then out
    else if text[j] == '\\' then AsciiWords(text, j + 1, true, out + [junk.word(|out|)], junk)
    else if special && text[j] == 'n' then AsciiWords(text, j + 1, false, out[|out| - 1 := 13] + [10], junk)
    else if special && text[j] == 't' then AsciiWords(text, j + 1, false, out[|out| - 1 := 9], junk)
    else if special then
      AsciiWords(text, j + 1, true, out[|out| - 1 := text[j - 1] as int] + [text[j] as int], junk)
    else AsciiWords(text, j + 1, false, out + [text[j] as int % 256], junk)
  }

  function FirstBlock(line: Line, pass: Pass, junk: Junk): (Entry, Pass) {
    if line.args == [] then Fail(line, pass) else
      var (value, error) := if HasEqu(pass.equs, line.args[0]) then (EquValue(pass.equs, line.args[0]), false)
                            else Str2Int(line.args[0], junk.number(0));
      if error || value < 0 then Fail(line, pass) else
        (NO_ENTRY.(kind := Block, name := line.name, address := pass.address, data := seq(value, _ => 0)),
         pass.(address := pass.address + value))
  }

  /** A name that is defined already keeps its first value. */
  function FirstEqu(line: Line, pass: Pass, junk: Junk): (Entry, Pass) {
    var (value, error) := if line.args == [] then (0, false) else Str2Int(line.args[0], junk.number(0));
    if HasEqu(pass.equs, line.name) then
      (NO_ENTRY.(kind := Equ), pass.(errors := pass.errors + if error then 1 else 0))
    else (NO_ENTRY.(kind := Equ), pass.(equs := pass.equs + [(line.name, value)]))
  }

  function FirstLine(line: Line, pass: Pass, junk: Junk): (Entry, Pass) {
    if line.mnemonic == "" then
      if line.name == "" then (NO_ENTRY, pass)
      else (NO_ENTRY.(kind := LabelOnly, name := line.name, address := pass.address), pass)
    else
      match KindOf(line.mnemonic)
      case Normal(op) => FirstNormal(line, op, pass, junk)
      case Branch(op) => FirstBranch(line, op, pass, junk)
      case Control(op) => FirstControl(line, op, pass, junk)
      case Org =>
        var (value, error) := if line.args == [] then (0, false) else Str2Int(line.args[0], junk.number(0));
        (NO_ENTRY.(kind := Org, name := line.name), pass.(address := value, errors := pass.errors + if error then 1 else 0))
      case Equ => FirstEqu(line, pass, junk)
      case Block => FirstBlock(line, pass, junk)
      case Dw => (NO_ENTRY.(kind := Dw, name := line.name, address := pass.address, data := Unset(junk, |line.args|), dw := line.args),
                  pass.(address := pass.address + |line.args|))
      case AsciiText =>
        var words := AsciiWords(line.text, 0, false, [], junk) + if UpperAll(line.mnemonic) == ".ASCII_W" then [0] else [];
        (NO_ENTRY.(kind := AsciiText, name := line.name, address := pass.address, data := words),
         pass.(address := pass.address + |words|))
      case _ => Fail(line, pass)
  }

  predicate HasLabel(entries: seq<Entry>, name: string) {
    exists i :: 0 <= i < |entries| && entries[i].name == name
  }

  /** A label that is there already is an error. */
  function Checked(line: Line, entries: seq<Entry>, pass: Pass): Pass {
    if line.name != "" && HasLabel(entries, line.name) then pass.(errors := pass.errors + 1) else pass
  }

  function FirstPass(lines: seq<Line>, junk: nat -> Junk): (r: (seq<Entry>, Pass))
    ensures |r.0| == |lines|
  {
    if lines == [] then ([], Pass([], 0, 0)) else
      var (entries, pass) := FirstPass(lines[..|lines| - 1], junk);
      var line := lines[|lines| - 1];
      var (entry, pass') := FirstLine(line, Checked(line, entries, pass), junk(|lines| - 1));
      (entries + [entry], pass')
  }

  // ----- the second pass -----

  /** find_label: the address of the first entry with that label. */
  function LabelValue(entries: seq<Entry>, name: string): int {
    if entries == [] then 0
    else if entries[0].name == name then entries[0].address % 0x1_0000
    else LabelValue(entries[1..], name)
  }

  predicate Known(equs: seq<(string, int)>, entries: seq<Entry>, name: string) {
    HasEqu(equs, name) || HasLabel(entries, name)
  }

  /** An EQU goes before a label of the same name. */
  function Resolve(equs: seq<(string, int)>, entries: seq<Entry>, name: string): int {
    if HasEqu(equs, name) then EquValue(equs, name) else LabelValue(entries, name)
  }

  /** The words of .DW and the number of errors; an argument that is nothing known is passed over. */
  function DwWords(equs: seq<(string, int)>, entries: seq<Entry>, dw: seq<string>, junk: Junk): (r: (seq<int>, nat))
    ensures |r.0| + r.1 == |dw|
  {
    if dw == [] then ([], 0) else
      var (words, errors) := DwWords(equs, entries, dw[..|dw| - 1], junk);
      var arg := dw[|dw| - 1];
      var (value, error) := if Known(equs, entries, arg) then (Resolve(equs, entries, arg), false)
                            else Str2Int(arg, junk.number(|dw| - 1));
      if error then (words, errors + 1) else (words + [value], errors)
  }

  /** The words of labels and EQUs: the source's is word 1, the destination's the word behind it, or word 1 when the
      source is not a label. */
  function SecondLine(e: Entry, equs: seq<(string, int)>, entries: seq<Entry>, junk: Junk): (r: (Entry, nat))
    requires Sound(e)
    ensures |r.0.data| == |e.data|
  {
    if e.srcType == LabelEqu && !Known(equs, entries, e.src) then (e, 1)
    else
      var value := Resolve(equs, entries, e.src);
      var data1 := if e.srcType == LabelEqu
                   then e.data[1 := if e.relative then (value - e.address - 2) % 0x1_0000 else value] else e.data;
      if e.dstType == LabelEqu && !Known(equs, entries, e.dst) then (e.(data := data1), 1)
      else
        var data2 := if e.dstType == LabelEqu
                     then data1[(if e.srcType == LabelEqu then 2 else 1) := Resolve(equs, entries, e.dst)] else data1;
        if e.kind == Dw then
          var (words, errors) := DwWords(equs, entries, e.dw, junk);
          (e.(data := words + e.data[|words|..]), errors)
        else (e.(data := data2), 0)
  }

  predicate Sound(e: Entry) {
    && (e.srcType == LabelEqu ==> |e.data| >= 2)
    && (e.dstType == LabelEqu ==> |e.data| >= (if e.srcType == LabelEqu then 3 else 2))
    && (e.kind == Dw ==> |e.data| == |e.dw|)
    && (e.relative ==> e.kind.Branch?)
  }

  lemma FirstInstructionSound(line: Line, op: int, pass: Pass, junk: Junk)
    ensures Sound(FirstNormal(line, op, pass, junk).0) && Sound(FirstControl(line, op, pass, junk).0)
    ensures line.mnemonic != "" ==> Sound(FirstBranch(line, op, pass, junk).0)
  {
    hide DecodeOperand, Str2Int, Flag;
  }

  lemma FirstLineSound(line: Line, pass: Pass, junk: Junk)
    ensures Sound(FirstLine(line, pass, junk).0)
  {
    hide DecodeOperand, Str2Int, KindOf, AsciiWords, UpperAll, HasEqu, EquValue, FirstNormal, FirstBranch, FirstControl;
    if line.mnemonic != "" {
      match KindOf(line.mnemonic)
      case Normal(op) => FirstInstructionSound(line, op, pass, junk);
      case Branch(op) => FirstInstructionSound(line, op, pass, junk);
      case Control(op) => FirstInstructionSound(line, op, pass, junk);
      case _ =>
    }
  }

  lemma {:induction false} FirstPassSound(lines: seq<Line>, junk: nat -> Junk)
    ensures forall e :: e in FirstPass(lines, junk).0 ==> Sound(e)
  {
    if lines != [] {
      hide FirstLine, Sound;
      FirstPassSound(lines[..|lines| - 1], junk);
      var (entries, pass) := FirstPass(lines[..|lines| - 1], junk);
      var line := lines[|lines| - 1];
      FirstLineSound(line, Checked(line, entries, pass), junk(|lines| - 1));
    }
  }

  function SecondPass(first: seq<Entry>, equs: seq<(string, int)>, entries: seq<Entry>, junk: nat -> Junk): (r: (seq<Entry>, nat))
    requires forall e :: e in first ==> Sound(e)
    ensures |r.0| == |first|
  {
    if first == [] then ([], 0) else
      var (done, errors) := SecondPass(first[..|first| - 1], equs, entries, junk);
      assert first[|first| - 1] in first;
      var (entry, more) := SecondLine(first[|first| - 1], equs, entries, junk(|first| - 1));
      (done + [entry], errors + more)
  }

  /** assemble: the entries and the number of errors. */
  function Assemble(lines: seq<Line>, junk: nat -> Junk): (r: (seq<Entry>, nat))
    ensures |r.0| == |lines|
  {
    FirstPassSound(lines, junk);
    var (first, pass) := FirstPass(lines, junk);
    var (entries, errors) := SecondPass(first, pass.equs, first, junk);
    (entries, pass.errors + errors)
  }

  // ----- addresses -----

  /** The address counter before line k. */
  function Counter(lines: seq<Line>, junk: nat -> Junk, k: nat): int
    requires k <= |lines|
  {
    FirstPass(lines[..k], junk).1.address
  }

  lemma {:induction false} FirstPassPrefix(lines: seq<Line>, junk: nat -> Junk, k: nat)
    requires k <= |lines|
    ensures FirstPass(lines[..k], junk).0 == FirstPass(lines, junk).0[..k]
    ensures FirstPass(lines[..k], junk).1.errors <= FirstPass(lines, junk).1.errors
    ensures FirstPass(lines[..k], junk).1.equs <= FirstPass(lines, junk).1.equs
    decreases |lines| - k
  {
    hide FirstLine;
    if k == |lines| {
      assert lines[..k] == lines;
    } else {
      var m := |lines| - 1;
      if k < m {
        FirstPassPrefix(lines[..m], junk, k);
        assert lines[..m][..k] == lines[..k];
      }
      var (entries, pass) := FirstPass(lines[..m], junk);
      FirstLineGrows(lines[m], Checked(lines[m], entries, pass), junk(m));
      assert FirstPass(lines, junk).0[..k] == entries[..k];
    }
  }

  lemma FirstLineGrows(line: Line, pass: Pass, junk: Junk)
    ensures pass.errors <= FirstLine(line, pass, junk).1.errors
    ensures pass.equs <= FirstLine(line, pass, junk).1.equs
  {
    hide DecodeOperand, Str2Int, KindOf, AsciiWords, Flag, UpperAll, HasEqu, EquValue;
  }

  /** Without an error the address counter advances by exactly the words of the line, except that .ORG sets it;
      an entry with words or a label has the counter's value as its address. */
  predicate Placed(e: Entry, before: int, after: int) {
    && (e.kind != Org ==> after == before + |e.data|)
    && (e.kind != Org && e.kind != Equ && e.kind != Empty ==> e.address == before)
    && (e.kind == Org ==> e.address == -1)
    && (e.kind == Org || e.kind == Equ || e.kind == Empty || e.kind == LabelOnly ==> e.data == [])
    && (e.kind == Equ || e.kind == Empty ==> e.name == "")
  }

  lemma FirstInstructionPlaces(line: Line, op: int, pass: Pass, junk: Junk)
    ensures var (e, after) := FirstNormal(line, op, pass, junk);
            after.errors == pass.errors ==> Placed(e, pass.address, after.address) && e.name == line.name
    ensures line.mnemonic != "" ==>
            var (e, after) := FirstBranch(line, op, pass, junk);
            after.errors == pass.errors ==> Placed(e, pass.address, after.address) && e.name == line.name
    ensures var (e, after) := FirstControl(line, op, pass, junk);
            after.errors == pass.errors ==> Placed(e, pass.address, after.address) && e.name == line.name
  {
    hide DecodeOperand, Str2Int, Flag;
  }

  lemma FirstLinePlaces(line: Line, pass: Pass, junk: Junk)
    requires FirstLine(line, pass, junk).1.errors == pass.errors
    ensures Placed(FirstLine(line, pass, junk).0, pass.address, FirstLine(line, pass, junk).1.address)
    ensures FirstLine(line, pass, junk).0.name in {"", line.name}
  {
    hide DecodeOperand, Str2Int, KindOf, AsciiWords, UpperAll, HasEqu, EquValue, FirstNormal, FirstBranch, FirstControl;
    if line.mnemonic != "" {
      match KindOf(line.mnemonic)
      case Normal(op) => FirstInstructionPlaces(line, op, pass, junk);
      case Branch(op) => FirstInstructionPlaces(line, op, pass, junk);
      case Control(op) => FirstInstructionPlaces(line, op, pass, junk);
      case _ =>
    }
  }

  /** Line k in the first pass, with the entries and the pass as they are before it. */
  lemma FirstPassAt(lines: seq<Line>, junk: nat -> Junk, k: nat)
    requires k < |lines|
    ensures var (entries, pass) := FirstPass(lines[..k], junk);
            var (e, after) := FirstLine(lines[k], Checked(lines[k], entries, pass), junk(k));
      && FirstPass(lines, junk).0[k] == e && FirstPass(lines, junk).0[..k] == entries
      && FirstPass(lines[..k + 1], junk).1 == after && pass.errors <= after.errors <= FirstPass(lines, junk).1.errors
  {
    hide FirstLine, Checked, HasLabel;
    FirstPassPrefix(lines, junk, k);
    FirstPassPrefix(lines, junk, k + 1);
    assert lines[..k + 1][..k] == lines[..k] && lines[..k + 1][k] == lines[k];
    var (entries, pass) := FirstPass(lines[..k], junk);
    CheckedGrows(lines[k], entries, pass);
    FirstLineGrows(lines[k], Checked(lines[k], entries, pass), junk(k));
    assert FirstPass(lines, junk).0[..k + 1][k] == FirstPass(lines, junk).0[k];
  }

  lemma CheckedGrows(line: Line, entries: seq<Entry>, pass: Pass)
    ensures var p := Checked(line, entries, pass);
      && p == pass.(errors := p.errors) && pass.errors <= p.errors
      && (p.errors == pass.errors <==> line.name == "" || !HasLabel(entries, line.name))
  {}

  lemma EntryPlaced(lines: seq<Line>, junk: nat -> Junk, k: nat)
    requires k < |lines| && FirstPass(lines, junk).1.errors == 0
    ensures Placed(FirstPass(lines, junk).0[k], Counter(lines, junk, k), Counter(lines, junk, k + 1))
    ensures var e := FirstPass(lines, junk).0[k]; e.name != "" ==> !HasLabel(FirstPass(lines, junk).0[..k], e.name)
  {
    hide FirstLine, Placed, FirstPass, Checked, HasLabel;
    FirstPassAt(lines, junk, k);
    var (entries, pass) := FirstPass(lines[..k], junk);
    CheckedGrows(lines[k], entries, pass);
    FirstLineGrows(lines[k], Checked(lines[k], entries, pass), junk(k));
    FirstLinePlaces(lines[k], Checked(lines[k], entries, pass), junk(k));
  }

  // ----- what a label stands for -----

  lemma LabelInRest(entries: seq<Entry>, k: nat, name: string)
    requires 0 < k <= |entries|
    ensures HasLabel(entries[1..][..k - 1], name) ==> HasLabel(entries[..k], name)
  {
    var rest := entries[1..][..k - 1];
    if i :| 0 <= i < |rest| && rest[i].name == name {
      assert entries[..k][i + 1] == rest[i];
    }
  }

  lemma {:induction false} LabelFound(entries: seq<Entry>, k: nat)
    requires k < |entries| && !HasLabel(entries[..k], entries[k].name)
    ensures LabelValue(entries, entries[k].name) == entries[k].address % 0x1_0000
    ensures HasLabel(entries, entries[k].name)
  {
    if k > 0 {
      var rest := entries[1..];
      assert entries[..k][0] == entries[0];
      LabelInRest(entries, k, entries[k].name);
      assert rest[k - 1] == entries[k];
      LabelFound(rest, k - 1);
    }
  }

  /** No .ORG moves the address counter from line k to line l. */
  predicate Straight(entries: seq<Entry>, k: nat, l: nat) {
    forall i :: k <= i < l && i < |entries| ==> entries[i].kind != Org
  }

  function WordCount(entries: seq<Entry>, k: nat, l: nat): nat
    requires k <= l <= |entries|
  {
    if l == k then 0 else WordCount(entries, k, l - 1) + |entries[l - 1].data|
  }

  /** From line to line the address counter advances by the words of the lines between. */
  lemma {:induction false} CounterAdvances(lines: seq<Line>, junk: nat -> Junk, k: nat, l: nat)
    requires k <= l <= |lines| && FirstPass(lines, junk).1.errors == 0 && Straight(FirstPass(lines, junk).0, k, l)
    ensures Counter(lines, junk, l) == Counter(lines, junk, k) + WordCount(FirstPass(lines, junk).0, k, l)
  {
    hide FirstPass, Counter;
    if k < l {
      CounterAdvances(lines, junk, k, l - 1);
      EntryPlaced(lines, junk, l - 1);
    }
  }

  /** In an error-free source a label stands for the address of the next word that is emitted, unless an EQU has its
      name or a .ORG comes before that word. */
  lemma LabelIsNextAddress(lines: seq<Line>, junk: nat -> Junk, k: nat, l: nat)
    requires k <= l < |lines| && FirstPass(lines, junk).1.errors == 0
    requires var (entries, pass) := FirstPass(lines, junk);
      && entries[k].name != "" && !HasEqu(pass.equs, entries[k].name)
      && Straight(entries, k, l + 1) && WordCount(entries, k, l) == 0 && entries[l].data != []
    ensures var (entries, pass) := FirstPass(lines, junk);
      && Resolve(pass.equs, entries, entries[k].name) == entries[l].address % 0x1_0000
      && entries[l].address == Counter(lines, junk, k)
  {
    hide FirstPass, Counter;
    var (entries, pass) := FirstPass(lines, junk);
    EntryPlaced(lines, junk, k);
    EntryPlaced(lines, junk, l);
    CounterAdvances(lines, junk, k, l);
    LabelFound(entries, k);
  }

  /** What every label of an error-free source stands for. */
  lemma LabelStandsFor(lines: seq<Line>, junk: nat -> Junk, k: nat)
    requires k < |lines| && FirstPass(lines, junk).1.errors == 0 && FirstPass(lines, junk).0[k].name != ""
    ensures var (entries, pass) := FirstPass(lines, junk);
            Resolve(pass.equs, entries, entries[k].name)
            == if HasEqu(pass.equs, entries[k].name) then EquValue(pass.equs, entries[k].name)
               else if entries[k].kind == Org then 0xffff
               else Counter(lines, junk, k) % 0x1_0000
  {
    hide FirstPass, Counter;
    EntryPlaced(lines, junk, k);
    LabelFound(FirstPass(lines, junk).0, k);
  }

  // ----- the emitted image -----

  /** What write_result emits for an entry: addresses and words. */
  function Emitted(e: Entry): seq<(int, int)> {
    if e.address == -1 || e.kind == LabelOnly then []
    else seq(|e.data|, i requires 0 <= i < |e.data| =>
               (if i == 0 then e.address % 0x1_0000 else e.address + i, e.data[i] % 0x1_0000))
  }

  function Image(entries: seq<Entry>): seq<(int, int)> {
    if entries == [] then [] else Image(entries[..|entries| - 1]) + Emitted(entries[|entries| - 1])
  }

  /** The second pass fills in words; addresses, names and sizes stay. */
  predicate Filled(e: Entry, f: Entry) {
    f == e.(data := f.data) && |f.data| == |e.data|
  }

  lemma SecondLineFills(e: Entry, equs: seq<(string, int)>, entries: seq<Entry>, junk: Junk)
    requires Sound(e)
    ensures Filled(e, SecondLine(e, equs, entries, junk).0)
  {}

  lemma {:induction false} SecondPassFills(first: seq<Entry>, equs: seq<(string, int)>, entries: seq<Entry>, junk: nat -> Junk, k: nat)
    requires (forall e :: e in first ==> Sound(e)) && k < |first|
    ensures SecondPass(first, equs, entries, junk).0[k] == SecondLine(first[k], equs, entries, junk(k)).0
    ensures Filled(first[k], SecondPass(first, equs, entries, junk).0[k])
    ensures SecondLine(first[k], equs, entries, junk(k)).1 <= SecondPass(first, equs, entries, junk).1
  {
    hide SecondLine, Sound;
    var m := |first| - 1;
    SecondLineFills(first[k], equs, entries, junk(k));
    if k < m {
      SecondPassFills(first[..m], equs, entries, junk, k);
      assert first[..m][k] == first[k];
    }
  }

  /** The words emitted for lines k to l without .ORG lie one after the other from the counter before line k on. */
  lemma {:induction false} ImageIsContiguous(lines: seq<Line>, junk: nat -> Junk, k: nat, l: nat)
    requires k <= l <= |lines| && FirstPass(lines, junk).1.errors == 0 && Straight(FirstPass(lines, junk).0, k, l)
    requires 0 <= Counter(lines, junk, k) && Counter(lines, junk, l) <= 0x1_0000
    ensures var image := Image(Assemble(lines, junk).0[k..l]);
      && |image| == Counter(lines, junk, l) - Counter(lines, junk, k)
      && forall i :: 0 <= i < |image| ==> image[i].0 == Counter(lines, junk, k) + i
  {
    hide FirstPass, SecondPass, Counter, Emitted;
    if k < l {
      EntryPlaced(lines, junk, l - 1);
      CounterAdvances(lines, junk, k, l - 1);
      CounterAdvances(lines, junk, l - 1, l);
      ImageIsContiguous(lines, junk, k, l - 1);
      var entries := Assemble(lines, junk).0;
      var (first, pass) := FirstPass(lines, junk);
      FirstPassSound(lines, junk);
      SecondPassFills(first, pass.equs, first, junk, l - 1);
      EmittedAt(first[l - 1], entries[l - 1], Counter(lines, junk, l - 1), Counter(lines, junk, l));
      ImageSnoc(entries, k, l);
    } else {
      assert Assemble(lines, junk).0[k..l] == [];
    }
  }

  lemma ImageSnoc(entries: seq<Entry>, k: nat, l: nat)
    requires k < l <= |entries|
    ensures Image(entries[k..l]) == Image(entries[k..l - 1]) + Emitted(entries[l - 1])
  {
    assert entries[k..l][..l - 1 - k] == entries[k..l - 1];
  }

  lemma EmittedAt(e: Entry, f: Entry, before: int, after: int)
    requires Placed(e, before, after) && Filled(e, f) && e.kind != Org && 0 <= before && after <= 0x1_0000
    ensures var words := Emitted(f);
            |words| == after - before && forall i :: 0 <= i < |words| ==> words[i].0 == before + i
  {}

  // ----- the words of two-operand instructions -----

  /** The six bits that an operand asks for: constants and labels are read as @R15++. */
  function OperandBits(s: string, junk: int): int {
    var (t, code) := DecodeOperand(s, junk);
    if NeedsWord(t) then CONSTANT_CODE else code
  }

  function OperandWord(t: OperandType, s: string, equs: seq<(string, int)>, entries: seq<Entry>, junk: int): seq<int> {
    if t == Constant then [Str2Int(s, junk).0 % 0x1_0000]
    else if t == LabelEqu then [Resolve(equs, entries, s)] else []
  }

  /** The words of an instruction: opcode and operands, and the values of its constants and labels in order. */
  function Intended(line: Line, op: int, equs: seq<(string, int)>, entries: seq<Entry>, junk: Junk): seq<int>
    requires |line.args| >= 2
  {
    var (src, dst) := (line.args[0], line.args[1]);
    [4096 * op + 64 * OperandBits(src, junk.number(0)) + OperandBits(dst, junk.number(1))]
    + OperandWord(DecodeOperand(src, junk.number(0)).0, src, equs, entries, junk.number(2))
    + OperandWord(DecodeOperand(dst, junk.number(1)).0, dst, equs, entries, junk.number(3))
  }

  /** Both passes find no error in the line. */
  predicate Clean(line: Line, op: int, pass: Pass, equs: seq<(string, int)>, entries: seq<Entry>, junk: Junk) {
    && KindOf(line.mnemonic) == Normal(op) && |line.args| >= 2 && FirstNormal(line, op, pass, junk).1.errors == pass.errors
    && Sound(FirstNormal(line, op, pass, junk).0)
    && SecondLine(FirstNormal(line, op, pass, junk).0, equs, entries, junk).1 == 0
  }

  function WordsOfNormal(line: Line, op: int, pass: Pass, equs: seq<(string, int)>, entries: seq<Entry>, junk: Junk): seq<int>
    requires Clean(line, op, pass, equs, entries, junk)
  {
    SecondLine(FirstNormal(line, op, pass, junk).0, equs, entries, junk).0.data
  }

  /** A label gets the bits of R0 only if it looks like a register. */
  predicate Misread(s: string, junk: int) {
    DecodeOperand(s, junk).0 == LabelEqu && RegisterLike(s)
  }

  predicate AnyMisread(line: Line, junk: Junk)
    requires |line.args| >= 2
  {
    Misread(line.args[0], junk.number(0)) || Misread(line.args[1], junk.number(1))
  }

  /** With a number and a label, word 1 ends as the label's value and word 2 as it was allocated. */
  predicate Overwritten(line: Line, equs: seq<(string, int)>, entries: seq<Entry>, junk: Junk)
    requires |line.args| >= 2
  {
    var (src, dst) := (line.args[0], line.args[1]);
    var (st, dt) := (DecodeOperand(src, junk.number(0)).0, DecodeOperand(dst, junk.number(1)).0);
    || (st == Constant && dt == LabelEqu
        && !(Resolve(equs, entries, dst) == Str2Int(src, junk.number(2)).0 % 0x1_0000 == junk.word(2)))
    || (st == LabelEqu && dt == Constant && Str2Int(dst, junk.number(3)).0 % 0x1_0000 != junk.word(2))
  }

  lemma BitsInRange(s: string, junk: int)
    ensures 0 <= DecodeOperand(s, junk).1 < 64
  {
    hide Str2Int;
  }

  lemma BitsAsked(s: string, junk: int)
    ensures OperandBits(s, junk) == DecodeOperand(s, junk).1 <==> !Misread(s, junk)
    ensures 0 <= OperandBits(s, junk) < 64
  {
    hide RegisterLike, Str2Int;
    RegisterLikeOperand(s, junk);
    BitsInRange(s, junk);
    ConstantBits(s, junk);
  }

  lemma ConstantBits(s: string, junk: int)
    ensures DecodeOperand(s, junk).0 == Constant <==> IsNumber(s)
    ensures DecodeOperand(s, junk).0 == Constant ==> DecodeOperand(s, junk).1 == CONSTANT_CODE
  {
    hide Str2Int;
  }

  lemma SameFirstWord(op: int, a: int, b: int, x: int, y: int)
    requires 0 <= a < 64 && 0 <= b < 64 && 0 <= x < 64 && 0 <= y < 64
    ensures 4096 * op + 64 * a + b == 4096 * op + 64 * x + y <==> a == x && b == y
  {}

  /** A two-operand instruction that assembles without error, with junk for what malloc and sscanf leave: it gets its
      words if and only if no label looks like a register and no word is overwritten. */
  lemma NormalWords(line: Line, op: int, pass: Pass, equs: seq<(string, int)>, entries: seq<Entry>, junk: Junk)
    requires Clean(line, op, pass, equs, entries, junk)
    ensures WordsOfNormal(line, op, pass, equs, entries, junk) == Intended(line, op, equs, entries, junk)
            <==> !AnyMisread(line, junk) && !Overwritten(line, equs, entries, junk)
  {
    hide DecodeOperand, Str2Int, Resolve, RegisterLike, OperandBits, Misread, KindOf;
    var (src, dst) := (line.args[0], line.args[1]);
    var m, n := junk.number(0), junk.number(1);
    var (st, sc) := DecodeOperand(src, m);
    var (dt, dc) := DecodeOperand(dst, n);
    BitsAsked(src, m);
    BitsAsked(dst, n);
    BitsInRange(src, m);
    BitsInRange(dst, n);
    SameFirstWord(op, sc, dc, OperandBits(src, m), OperandBits(dst, n));
    var got, meant := WordsOfNormal(line, op, pass, equs, entries, junk), Intended(line, op, equs, entries, junk);
    assert |got| == |meant|;
    assert got[0] == 4096 * op + 64 * sc + dc;
    RestOfWords(line, op, pass, equs, entries, junk);
    assert got == [got[0]] + got[1..] && meant == [meant[0]] + meant[1..];
  }

  lemma RestOfWords(line: Line, op: int, pass: Pass, equs: seq<(string, int)>, entries: seq<Entry>, junk: Junk)
    requires Clean(line, op, pass, equs, entries, junk)
    ensures WordsOfNormal(line, op, pass, equs, entries, junk) != []
    ensures WordsOfNormal(line, op, pass, equs, entries, junk)[1..] == Intended(line, op, equs, entries, junk)[1..]
            <==> !Overwritten(line, equs, entries, junk)
  {
    hide DecodeOperand, Str2Int, Resolve, OperandBits, KindOf;
    var got, meant := WordsOfNormal(line, op, pass, equs, entries, junk), Intended(line, op, equs, entries, junk);
    if |got| == 1 {
    } else if |got| == 2 {
      assert got[1..] == [got[1]] && meant[1..] == [meant[1]];
    } else {
      assert got[1..] == [got[1], got[2]] && meant[1..] == [meant[1], meant[2]];
    }
  }

  /** What a maintainer can see in the source: the instruction is right whatever malloc and sscanf leave if and only
      if no operand looks like a register without being one and the operands do not mix a number with a name. */
  lemma NormalWordsAlways(line: Line, op: int, pass: Pass, equs: seq<(string, int)>, entries: seq<Entry>)
    requires |line.args| >= 2 && forall junk: Junk :: Clean(line, op, pass, equs, entries, junk)
    ensures var (src, dst) := (line.args[0], line.args[1]);
      (forall junk: Junk :: WordsOfNormal(line, op, pass, equs, entries, junk) == Intended(line, op, equs, entries, junk))
      <==> !RegisterLike(src) && !RegisterLike(dst) && !(IsNumber(src) && IsName(dst)) && !(IsName(src) && IsNumber(dst))
  {
    hide Clean, WordsOfNormal, Intended, DecodeOperand, Str2Int, Resolve, RegisterLike, IsNumber, IsName;
    var (src, dst) := (line.args[0], line.args[1]);
    forall junk: Junk
      ensures Clean(line, op, pass, equs, entries, junk)
      ensures WordsOfNormal(line, op, pass, equs, entries, junk) == Intended(line, op, equs, entries, junk)
              <==> !AnyMisread(line, junk) && !Overwritten(line, equs, entries, junk)
      ensures DecodeOperand(src, junk.number(0)).0 == Constant <==> IsNumber(src)
      ensures DecodeOperand(dst, junk.number(1)).0 == Constant <==> IsNumber(dst)
      ensures !RegisterLike(src) ==> (DecodeOperand(src, junk.number(0)).0 == LabelEqu <==> IsName(src))
      ensures !RegisterLike(dst) ==> (DecodeOperand(dst, junk.number(1)).0 == LabelEqu <==> IsName(dst))
    {
      NormalWords(line, op, pass, equs, entries, junk);
      ConstantBits(src, junk.number(0)); ConstantBits(dst, junk.number(1));
      NamesAreLabels(src, junk.number(0)); NamesAreLabels(dst, junk.number(1));
    }
    RegisterLikeMisread(src);
    RegisterLikeMisread(dst);
    if !RegisterLike(src) && !RegisterLike(dst) {
      if IsNumber(src) && IsName(dst) {
        var w: CInt := if Resolve(equs, entries, dst) == 0 then 1 else 0;
        assert Overwritten(line, equs, entries, Junk(_ => w, _ => 0));
      } else if IsName(src) && IsNumber(dst) {
        assert Overwritten(line, equs, entries, Junk(_ => -1, _ => 0));
      }
    } else {
      assert AnyMisread(line, Junk(_ => 0, _ => 16));
    }
  }

  lemma RegisterLikeMisread(s: string)
    ensures RegisterLike(s) ==> Misread(s, 16)
  {
    RegisterLikeOperand(s, 16);
  }

  // ----- the passes as the assembler performs them -----

  lemma LabelValueLater(entries: seq<Entry>, k: nat, name: string)
    requires k <= |entries| && !HasLabel(entries[..k], name)
    ensures LabelValue(entries, name) == LabelValue(entries[k..], name)
  {
    if k > 0 {
      assert entries[..k][0] == entries[0];
      LabelInRest(entries, k, name);
      LabelValueLater(entries[1..], k - 1, name);
      assert entries[1..][k - 1..] == entries[k..];
    }
  }

  /** find_label. */
  method FindLabel(entries: array<Entry>, n: nat, name: string) returns (found: bool, address: int)
    requires n <= entries.Length
    ensures found <==> HasLabel(entries[..n], name)
    ensures found ==> address == LabelValue(entries[..n], name)
  {
    for k := 0 to n
      invariant !HasLabel(entries[..k], name)
    {
      if entries[k].name == name {
        assert entries[..n][..k] == entries[..k];
        assert entries[..n][k].name == name;
        LabelValueLater(entries[..n], k, name);
        return true, entries[k].address % 0x1_0000;
      }
      assert entries[..k + 1] == entries[..k] + [entries[k]];
    }
    return false, 0;
  }

  lemma EquValueLater(equs: seq<(string, int)>, k: nat, name: string)
    requires k <= |equs| && forall i :: 0 <= i < k ==> equs[i].0 != name
    ensures EquValue(equs, name) == EquValue(equs[k..], name)
  {
    if k > 0 {
      EquValueLater(equs[1..], k - 1, name);
      assert equs[1..][k - 1..] == equs[k..];
    }
  }

  /** search_equ_list. */
  method SearchEquList(equs: seq<(string, int)>, name: string) returns (found: bool, value: int)
    ensures found <==> HasEqu(equs, name)
    ensures found ==> value == EquValue(equs, name)
  {
    for k := 0 to |equs|
      invariant forall i :: 0 <= i < k ==> equs[i].0 != name
    {
      if equs[k].0 == name {
        EquValueLater(equs, k, name);
        return true, equs[k].1;
      }
    }
    return false, 0;
  }

  /** What an unresolved operand stands for. */
  method Lookup(entries: array<Entry>, equs: seq<(string, int)>, name: string) returns (known: bool, value: int)
    ensures known <==> Known(equs, entries[..], name)
    ensures known ==> value == Resolve(equs, entries[..], name)
  {
    known, value := SearchEquList(equs, name);
    if !known {
      assert entries[..entries.Length] == entries[..];
      known, value := FindLabel(entries, entries.Length, name);
    }
  }

  method FillDw(entries: array<Entry>, equs: seq<(string, int)>, dw: seq<string>, junk: Junk) returns (words: seq<int>, errors: nat)
    ensures (words, errors) == DwWords(equs, entries[..], dw, junk)
  {
    words, errors := [], 0;
    for i := 0 to |dw|
      invariant (words, errors) == DwWords(equs, entries[..], dw[..i], junk)
    {
      assert dw[..i + 1][..i] == dw[..i];
      var known, value := Lookup(entries, equs, dw[i]);
      var error := false;
      if !known {
        var r := Str2Int(dw[i], junk.number(i));
        value, error := r.0, r.1;
      }
      if error {
        errors := errors + 1;
      } else {
        words := words + [value];
      }
    }
    assert dw[..|dw|] == dw;
  }

  /** The second pass for one line. */
  method FillLine(entries: array<Entry>, k: nat, equs: seq<(string, int)>, junk: Junk) returns (f: Entry, errors: nat)
    requires k < entries.Length && Sound(entries[k])
    ensures (f, errors) == SecondLine(entries[k], equs, entries[..], junk)
  {
    hide Known, Resolve, DwWords;
    var e := entries[k];
    f, errors := e, 0;
    var i := 1;
    if e.srcType == LabelEqu {
      var known, value := Lookup(entries, equs, e.src);
      if !known {
        return e, 1;
      }
      f := f.(data := f.data[i := if e.relative then (value - e.address - 2) % 0x1_0000 else value]);
      i := i + 1;
    }
    if e.dstType == LabelEqu {
      var known, value := Lookup(entries, equs, e.dst);
      if !known {
        return f, 1;
      }
      f := f.(data := f.data[i := value]);
    }
    if e.kind == Dw {
      var words, more := FillDw(entries, equs, e.dw, junk);
      f, errors := e.(data := words + e.data[|words|..]), more;
    }
  }

  ghost predicate SameLabels(x: seq<Entry>, y: seq<Entry>) {
    |x| == |y| && forall k :: 0 <= k < |x| ==> x[k].name == y[k].name && x[k].address == y[k].address
  }

  lemma {:induction false} SameLabelValue(x: seq<Entry>, y: seq<Entry>, name: string)
    requires SameLabels(x, y)
    ensures LabelValue(x, name) == LabelValue(y, name) && (HasLabel(x, name) <==> HasLabel(y, name))
  {
    if i :| 0 <= i < |x| && x[i].name == name { assert y[i].name == name; }
    if i :| 0 <= i < |y| && y[i].name == name { assert x[i].name == name; }
    if x != [] { SameLabelValue(x[1..], y[1..], name); }
  }

  lemma {:induction false} SameDwWords(equs: seq<(string, int)>, x: seq<Entry>, y: seq<Entry>, dw: seq<string>, junk: Junk)
    requires SameLabels(x, y)
    ensures DwWords(equs, x, dw, junk) == DwWords(equs, y, dw, junk)
  {
    if dw != [] {
      SameDwWords(equs, x, y, dw[..|dw| - 1], junk);
      SameLabelValue(x, y, dw[|dw| - 1]);
    }
  }

  lemma SameSecondLine(e: Entry, equs: seq<(string, int)>, x: seq<Entry>, y: seq<Entry>, junk: Junk)
    requires Sound(e) && SameLabels(x, y)
    ensures SecondLine(e, equs, x, junk) == SecondLine(e, equs, y, junk)
  {
    SameLabelValue(x, y, e.src);
    SameLabelValue(x, y, e.dst);
    SameDwWords(equs, x, y, e.dw, junk);
  }

  /** The first pass: the list is filled line by line, with the address counter running along. */
  method RunFirstPass(lines: seq<Line>, entries: array<Entry>, junk: nat -> Junk) returns (pass: Pass)
    requires entries.Length == |lines|
    modifies entries
    ensures (entries[..], pass) == FirstPass(lines, junk)
  {
    hide FirstLine;
    pass := Pass([], 0, 0);
    for k := 0 to |lines|
      invariant (entries[..k], pass) == FirstPass(lines[..k], junk)
    {
      assert lines[..k + 1][..k] == lines[..k];
      var line := lines[k];
      if line.name != "" {
        var found, _ := FindLabel(entries, k, line.name);
        if found {
          pass := pass.(errors := pass.errors + 1);
        }
      }
      var r := FirstLine(line, pass, junk(k));
      ghost var before := entries[..k];
      entries[k], pass := r.0, r.1;
      assert entries[..k + 1] == before + [r.0];
    }
    assert lines[..|lines|] == lines && entries[..|lines|] == entries[..];
  }

  ghost predicate AllSound(es: seq<Entry>) {
    forall e :: e in es ==> Sound(e)
  }

  lemma SecondPassSnoc(first: seq<Entry>, k: nat, equs: seq<(string, int)>, junk: nat -> Junk)
    requires AllSound(first) && k < |first|
    ensures AllSound(first[..k]) && AllSound(first[..k + 1]) && Sound(first[k])
    ensures var (done, errors) := SecondPass(first[..k], equs, first, junk);
            var (entry, more) := SecondLine(first[k], equs, first, junk(k));
            SecondPass(first[..k + 1], equs, first, junk) == (done + [entry], errors + more)
  {
    hide SecondLine, Sound;
    assert first[..k + 1][..k] == first[..k] && first[k] in first;
  }

  /** The second pass up to line k: what is done, what is left, and the labels as they were. */
  ghost predicate HalfDone(cur: seq<Entry>, first: seq<Entry>, k: nat, equs: seq<(string, int)>, junk: nat -> Junk, errors: nat)
    requires AllSound(first) && k <= |first|
  {
    && SameLabels(cur, first) && cur[k..] == first[k..]
    && AllSound(first[..k]) && (cur[..k], errors) == SecondPass(first[..k], equs, first, junk)
  }

  lemma HalfDoneStep(cur: seq<Entry>, first: seq<Entry>, k: nat, equs: seq<(string, int)>, junk: nat -> Junk, errors: nat)
    requires AllSound(first) && k < |first| && HalfDone(cur, first, k, equs, junk, errors)
    ensures Sound(cur[k])
    ensures var (f, more) := SecondLine(cur[k], equs, cur, junk(k));
            HalfDone(cur[k := f], first, k + 1, equs, junk, errors + more)
  {
    hide SecondLine, Sound, SecondPass;
    assert cur[k] == cur[k..][0] == first[k];
    SecondPassSnoc(first, k, equs, junk);
    SameSecondLine(first[k], equs, cur, first, junk(k));
    SecondLineFills(first[k], equs, first, junk(k));
    var (f, more) := SecondLine(cur[k], equs, cur, junk(k));
    assert cur[k := f][..k + 1] == cur[..k] + [f];
    assert cur[k := f][k + 1..] == cur[k..][1..];
  }

  /** assemble: two passes over the list. */
  method AssembleList(lines: seq<Line>, entries: array<Entry>, junk: nat -> Junk) returns (errors: nat)
    requires entries.Length == |lines|
    modifies entries
    ensures (entries[..], errors) == Assemble(lines, junk)
  {
    hide FirstLine, SecondLine, Sound, SecondPass, HalfDone, FirstPass;
    var pass := RunFirstPass(lines, entries, junk);
    ghost var first := entries[..];
    FirstPassSound(lines, junk);
    errors := 0;
    NothingDone(first, pass.equs, junk);
    for k := 0 to |lines|
      invariant HalfDone(entries[..], first, k, pass.equs, junk, errors)
    {
      ghost var cur := entries[..];
      HalfDoneStep(cur, first, k, pass.equs, junk, errors);
      var f, more := FillLine(entries, k, pass.equs, junk(k));
      entries[k] := f;
      errors := errors + more;
      assert entries[..] == cur[k := f];
    }
    AllDone(entries[..], first, pass.equs, junk, errors);
    errors := errors + pass.errors;
  }

  lemma NothingDone(first: seq<Entry>, equs: seq<(string, int)>, junk: nat -> Junk)
    requires AllSound(first)
    ensures HalfDone(first, first, 0, equs, junk, 0)
  {}

  lemma AllDone(cur: seq<Entry>, first: seq<Entry>, equs: seq<(string, int)>, junk: nat -> Junk, errors: nat)
    requires AllSound(first) && HalfDone(cur, first, |first|, equs, junk, errors)
    ensures (cur, errors) == SecondPass(first, equs, first, junk)
  {
    hide SecondPass;
    assert first[..|first|] == first && cur[..|first|] == cur;
  }
}
