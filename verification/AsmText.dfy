/** How the QNICE assembler reads numbers, mnemonics and operands: the text level of qasm.c. */
module AsmText {
  predicate IsDigit(c: char) {
    '0' <= c <= '9'
  }

  predicate IsHexDigit(c: char) {
    IsDigit(c) || 'A' <= c <= 'F' || 'a' <= c <= 'f'
  }

  function DigitValue(c: char): (d: int)
    requires IsHexDigit(c)
    ensures 0 <= d < 16
  {
    if IsDigit(c) then c as int - '0' as int
    else if c <= 'F' then c as int - 'A' as int + 10
    else c as int - 'a' as int + 10
  }

  function Upper(c: char): char {
    if 'a' <= c <= 'z' then c - 'a' + 'A' else c
  }

  function UpperAll(s: string): string {
    seq(|s|, i requires 0 <= i < |s| => Upper(s[i]))
  }

  predicate Prefixed(s: string, p: string) {
    |p| <= |s| && s[..|p|] == p
  }

  /** The values of C's int. */
  type CInt = x: int | -0x8000_0000 <= x < 0x8000_0000

  const INT_MAX := 0x7fff_ffff

  /** The digits at the start of s, as sscanf reads them; junk stands for what is in its variable when it leaves that
      alone or when the number does not fit, for which the C standard gives no value. */
  function Hex(s: string, value: int): int {
    if s == "" || !IsHexDigit(s[0]) then value else Hex(s[1..], 16 * value + DigitValue(s[0]))
  }

  function Decimal(s: string, value: int): int {
    if s == "" || !IsDigit(s[0]) then value else Decimal(s[1..], 10 * value + DigitValue(s[0]))
  }

  function ScanHex(s: string, junk: int): int {
    if s == "" || !IsHexDigit(s[0]) then junk
    else
      var v := Hex(s, 0);
      if v <= INT_MAX then v else if v <= 0xffff_ffff then v - 0x1_0000_0000 else junk
  }

  function Fitting(v: int, junk: int): int {
    if -INT_MAX - 1 <= v <= INT_MAX then v else junk
  }

  function ScanDecimal(s: string, junk: int): int {
    if s == "" then junk
    else if IsDigit(s[0]) then Fitting(Decimal(s, 0), junk)
    else if (s[0] == '-' || s[0] == '+') && |s| > 1 && IsDigit(s[1]) then
      var v := Decimal(s[1..], 0); Fitting(if s[0] == '-' then -v else v, junk)
    else junk
  }

  /** binstr2value: every character but 1 counts as 0. */
  function Binary(s: string, value: int): int {
    if s == "" then value % 0x1_0000 else Binary(s[1..], 2 * value + if s[0] == '1' then 1 else 0)
  }

  /** ascii2value of what stands between the quotes. */
  function Ascii(s: string, value: int): int {
    if s == "" || s[0] == '\'' then value % 0x1_0000 else Ascii(s[1..], 256 * value + s[0] as int)
  }

  predicate IsDecimal(s: string) {
    forall i :: 0 <= i < |s| ==> s[i] == '-' || s[i] == '+' || IsDigit(s[i])
  }

  /** str2int: a value, and whether the text was not a number. */
  function Str2Int(s: string, junk: int): (int, bool) {
    if s == "" then (0, false)
    else if Prefixed(s, "0X") || Prefixed(s, "0x") then (ScanHex(s[2..], junk), false)
    else if Prefixed(s, "-0X") || Prefixed(s, "-0x") then (-ScanHex(s[3..], junk) % 0x1_0000, false)
    else if Prefixed(s, "0B") || Prefixed(s, "0b") then (Binary(s[2..], 0), false)
    else if Prefixed(s, "-0B") || Prefixed(s, "-0b") then (-Binary(s[3..], 0) % 0x1_0000, false)
    else if s[0] == '$' then (ScanHex(s[1..], junk), false)
    else if s[0] == '\'' && s[|s| - 1] == '\'' then (Ascii(s[1..], 0), false)
    else if IsDecimal(s) then (ScanDecimal(s, junk), false)
    else (-1, true)
  }

  // ----- operands -----

  datatype OperandType = Illegal | Missing | LabelEqu | Constant | Rxx | AtRxx | AtRxxPP | AtMmRxx

  /** The six bits of @R15++, which is how constants are encoded. */
  const CONSTANT_CODE := 0x3e

  /** The type of an operand and the six bits that describe it; a register number out of range leaves the bits 0.
      As in the code, the name AtRxx is given to the form with increment and AtRxxPP to the one without. */
  function DecodeOperand(s: string, junk: int): (OperandType, int) {
    if s != "" && Upper(s[0]) == 'R' then
      if forall i :: 1 <= i < |s| - 1 ==> IsDigit(s[i]) then
        var (value, error) := Str2Int(s[1..], junk);
        if error then (Illegal, 0)
        else if value < 0 || value > 15 then (LabelEqu, 0)
        else (Rxx, 4 * value)
      else (LabelEqu, CONSTANT_CODE)
    else if Prefixed(s, "@R") then
      var increment := s[|s| - 1] == '+' && s[|s| - 2] == '+';
      var (value, error) := Str2Int(if increment then s[2..|s| - 2] else s[2..], junk);
      if error || value < 0 || value > 15 then (Illegal, 0)
      else if increment then (AtRxx, 4 * value + 2) else (AtRxxPP, 4 * value + 1)
    else if Prefixed(s, "@--R") then
      var (value, error) := Str2Int(s[4..], junk);
      if error || value < 0 || value > 15 then (Illegal, 0) else (AtMmRxx, 4 * value + 3)
    else if s != "" && (IsDigit(s[0]) || s[0] == '\'' || s[0] == '-') then (Constant, CONSTANT_CODE)
    else (LabelEqu, CONSTANT_CODE)
  }

  // ----- operands that look like registers -----

  /** R or r and decimal digits, of which the last may be a sign. */
  predicate RegisterName(s: string) {
    && |s| >= 2 && Upper(s[0]) == 'R' && IsDigit(s[1])
    && (forall i :: 1 <= i < |s| - 1 ==> IsDigit(s[i]))
    && (IsDigit(s[|s| - 1]) || s[|s| - 1] == '-' || s[|s| - 1] == '+')
  }

  /** A register number beyond 15. */
  predicate BeyondRegisters(s: string) {
    RegisterName(s) && 15 < Decimal(s[1..], 0) <= INT_MAX
  }

  /** The texts on which sscanf leaves its variable alone, and those that count as 0. */
  const UNSCANNED: seq<string> := ["$", "-", "+", "0X", "0x"]
  const ZEROS: seq<string> := ["", "0B", "0b", "'"]

  /** R or r and a text in which sscanf finds no number, though the loop over the digits lets it pass, or one that
      does not fit an int. */
  predicate Unscanned(s: string) {
    (s != "" && Upper(s[0]) == 'R' && s[1..] in UNSCANNED) || (RegisterName(s) && Decimal(s[1..], 0) > INT_MAX)
  }

  predicate RegisterLike(s: string) {
    BeyondRegisters(s) || Unscanned(s)
  }

  lemma {:induction false} DecimalNotNegative(s: string, value: int)
    requires value >= 0
    ensures Decimal(s, value) >= 0
    decreases s
  {
    if s != "" && IsDigit(s[0]) {
      DecimalNotNegative(s[1..], 10 * value + DigitValue(s[0]));
    }
  }

  lemma NotPrefixed(t: string)
    requires t != "" && (|t| >= 2 ==> IsDigit(t[0])) && (|t| >= 3 ==> IsDigit(t[1]))
    ensures !Prefixed(t, "-0X") && !Prefixed(t, "-0x") && !Prefixed(t, "-0B") && !Prefixed(t, "-0b")
    ensures Prefixed(t, "0X") <==> t == "0X"
    ensures Prefixed(t, "0x") <==> t == "0x"
    ensures Prefixed(t, "0B") <==> t == "0B"
    ensures Prefixed(t, "0b") <==> t == "0b"
  {
    if |t| >= 3 {
      assert t[..3][0] == t[0] && t[..2][1] == t[1];
    } else if |t| == 2 {
      assert t[..2] == t;
    }
  }

  /** Digits with a sign behind them at most. */
  lemma SignedDigits(t: string, junk: int)
    requires t != "" && IsDigit(t[0]) && forall i :: 0 <= i < |t| - 1 ==> IsDigit(t[i])
    ensures ScanDecimal(t, junk) == if Decimal(t, 0) <= INT_MAX then Decimal(t, 0) else junk
    ensures IsDecimal(t) <==> IsDigit(t[|t| - 1]) || t[|t| - 1] == '-' || t[|t| - 1] == '+'
  {
    DecimalNotNegative(t, 0);
    hide Decimal;
  }

  /** What str2int makes of a text that is digits but for its last character. */
  lemma RegisterNumber(t: string, junk: int)
    requires forall i :: 0 <= i < |t| - 1 ==> IsDigit(t[i])
    ensures t in UNSCANNED ==> Str2Int(t, junk) == (junk, false)
    ensures t in ZEROS ==> Str2Int(t, junk) == (0, false)
    ensures t !in UNSCANNED && t !in ZEROS ==>
              Str2Int(t, junk) == if IsDigit(t[0]) && (IsDigit(t[|t| - 1]) || t[|t| - 1] == '-' || t[|t| - 1] == '+')
                                  then (if Decimal(t, 0) <= INT_MAX then Decimal(t, 0) else junk, false) else (-1, true)
  {
    hide Decimal, Hex, IsDecimal, ScanDecimal, Prefixed;
    if t != "" {
      NotPrefixed(t);
      if IsDigit(t[0]) {
        SignedDigits(t, junk);
        assert t[0] != '$' && t[0] != '\'';
        TwoCharacters(t);
      } else {
        assert t == [t[0]];
        OneCharacter(t, junk);
      }
    }
  }

  lemma TwoCharacters(t: string)
    requires t != "" && IsDigit(t[0])
    ensures t in UNSCANNED <==> t == "0X" || t == "0x"
    ensures t in ZEROS <==> t == "0B" || t == "0b"
    ensures t == "0X" || t == "0x" ==> t[2..] == ""
    ensures t == "0B" || t == "0b" ==> t[2..] == ""
  {}

  lemma OneCharacter(t: string, junk: int)
    requires |t| == 1 && !IsDigit(t[0])
    ensures t in UNSCANNED <==> t[0] == '$' || t[0] == '-' || t[0] == '+'
    ensures t in ZEROS <==> t[0] == '\''
    ensures t[1..] == ""
    ensures IsDecimal(t) <==> t[0] == '-' || t[0] == '+'
    ensures ScanDecimal(t, junk) == junk
  {
    assert t == [t[0]];
  }

  /** The operand texts that are taken for labels and yet keep the six bits of R0. */
  lemma RegisterLikeOperand(s: string, junk: int)
    ensures DecodeOperand(s, junk) == (LabelEqu, 0) <==> BeyondRegisters(s) || (Unscanned(s) && !(0 <= junk <= 15))
    ensures DecodeOperand(s, junk).0 == LabelEqu ==>
              DecodeOperand(s, junk).1 == if RegisterLike(s) then 0 else CONSTANT_CODE
  {
    hide Decimal, Str2Int;
    if s != "" && Upper(s[0]) == 'R' && forall i :: 1 <= i < |s| - 1 ==> IsDigit(s[i]) {
      var t := s[1..];
      RegisterNumber(t, junk);
      DecimalNotNegative(t, 0);
      if t != "" { assert t[0] == s[1] && t[|t| - 1] == s[|s| - 1]; }
    } else if s != "" && Upper(s[0]) == 'R' {
      assert |s[1..]| > 2 || exists i :: 1 <= i < |s| - 1 && !IsDigit(s[i]);
    }
  }

  /** Operands that are read as numbers, and those that are read as names of labels and EQUs. */
  predicate IsNumber(s: string) {
    s != "" && (IsDigit(s[0]) || s[0] == '\'' || s[0] == '-')
  }

  predicate IsName(s: string) {
    if s != "" && Upper(s[0]) == 'R' then exists i :: 1 <= i < |s| - 1 && !IsDigit(s[i])
    else !Prefixed(s, "@R") && !Prefixed(s, "@--R") && !IsNumber(s)
  }

  lemma NamesAreLabels(s: string, junk: int)
    ensures !RegisterLike(s) ==> (DecodeOperand(s, junk).0 == LabelEqu <==> IsName(s))
  {
    hide Str2Int, RegisterLike;
    RegisterLikeOperand(s, junk);
  }

  // ----- mnemonics -----

  const NORMAL: seq<string> := ["MOVE", "ADD", "ADDC", "SUB", "SUBC", "SHL", "SHR", "SWAP", "NOT", "AND", "OR", "XOR", "CMP"]
  const BRANCHES: seq<string> := ["ABRA", "ASUB", "RBRA", "RSUB"]
  const CONTROLS: seq<string> := ["HALT", "RTI", "INT", "INCRB", "DECRB", "EXC"]
  const SR_BITS: string := "1XCZNVIM"

  /** The first place of x in s, or |s|. */
  function IndexIn<T(==)>(s: seq<T>, x: T): (i: nat)
    ensures i <= |s| && (i < |s| ==> s[i] == x) && forall j :: 0 <= j < i ==> s[j] != x
  {
    if s == [] then 0 else if s[0] == x then 0 else 1 + IndexIn(s[1..], x)
  }
}
