/** What numbers, character constants, .DW and .ASCII_W mean in the source text of the assembler. */
module AsmData {
  import opened AsmText
  import opened Assembler

  // ----- numbers -----

  function DigitOf(c: char): int {
    if '0' <= c <= '9' then c as int - '0' as int
    else if 'a' <= c <= 'f' then c as int - 'a' as int + 10
    else c as int - 'A' as int + 10
  }

  /** The number that digits spell to base b: the last digit counts once, those before it b times as much. */
  function Spelled(t: string, b: nat): int {
    if t == "" then 0 else b * Spelled(t[..|t| - 1], b) + DigitOf(t[|t| - 1])
  }

  predicate AllDigits(t: string) {
    t != "" && forall i :: 0 <= i < |t| ==> '0' <= t[i] <= '9'
  }

  predicate AllHexDigits(t: string) {
    t != "" && forall i :: 0 <= i < |t| ==> '0' <= t[i] <= '9' || 'A' <= t[i] <= 'F' || 'a' <= t[i] <= 'f'
  }

  predicate AllBits(t: string) {
    forall i :: 0 <= i < |t| ==> t[i] == '0' || t[i] == '1'
  }

  lemma {:induction false} DecimalSnoc(t: string, v: int, c: char)
    requires (forall i :: 0 <= i < |t| ==> IsDigit(t[i])) && IsDigit(c)
    ensures Decimal(t + [c], v) == 10 * Decimal(t, v) + DigitValue(c)
  {
    if t == "" {
      assert (t + [c])[1..] == "";
    } else {
      assert (t + [c])[1..] == t[1..] + [c];
      DecimalSnoc(t[1..], 10 * v + DigitValue(t[0]), c);
    }
  }

  lemma {:induction false} DecimalSpelled(t: string)
    requires forall i :: 0 <= i < |t| ==> IsDigit(t[i])
    ensures Decimal(t, 0) == Spelled(t, 10) >= 0
  {
    if t != "" {
      var m := |t| - 1;
      DecimalSpelled(t[..m]);
      DecimalSnoc(t[..m], 0, t[m]);
      assert t == t[..m] + [t[m]];
    }
  }

  lemma {:induction false} HexSnoc(t: string, v: int, c: char)
    requires (forall i :: 0 <= i < |t| ==> IsHexDigit(t[i])) && IsHexDigit(c)
    ensures Hex(t + [c], v) == 16 * Hex(t, v) + DigitValue(c)
  {
    if t == "" {
      assert (t + [c])[1..] == "";
    } else {
      assert (t + [c])[1..] == t[1..] + [c];
      HexSnoc(t[1..], 16 * v + DigitValue(t[0]), c);
    }
  }

  lemma {:induction false} HexSpelled(t: string)
    requires forall i :: 0 <= i < |t| ==> IsHexDigit(t[i])
    ensures Hex(t, 0) == Spelled(t, 16) >= 0
  {
    if t != "" {
      var m := |t| - 1;
      HexSpelled(t[..m]);
      HexSnoc(t[..m], 0, t[m]);
      assert t == t[..m] + [t[m]];
    }
  }

  /** Decimal numbers, as far as an int goes. */
  lemma DecimalText(t: string, junk: int)
    requires AllDigits(t) && Spelled(t, 10) <= INT_MAX
    ensures Str2Int(t, junk) == (Spelled(t, 10), false)
    ensures Str2Int("-" + t, junk) == (-Spelled(t, 10), false) && Str2Int("+" + t, junk) == (Spelled(t, 10), false)
  {
    hide Spelled, Decimal;
    forall i | 0 <= i < |t|
      ensures IsDigit(t[i])
    {}
    DecimalSpelled(t);
    SignedText(t, '-', junk);
    SignedText(t, '+', junk);
    DigitsAreDecimal(t, junk);
  }

  lemma DigitsAreDecimal(t: string, junk: int)
    requires t != "" && forall i :: 0 <= i < |t| ==> IsDigit(t[i])
    ensures Str2Int(t, junk) == (ScanDecimal(t, junk), false)
  {
    hide ScanDecimal, ScanHex, Binary, Ascii;
    if |t| >= 2 { assert t[1] != 'X' && t[1] != 'x' && t[1] != 'B' && t[1] != 'b'; }
  }

  predicate PlainStart(s: string) {
    && !Prefixed(s, "0X") && !Prefixed(s, "0x") && !Prefixed(s, "-0X") && !Prefixed(s, "-0x")
    && !Prefixed(s, "0B") && !Prefixed(s, "0b") && !Prefixed(s, "-0B") && !Prefixed(s, "-0b")
  }

  lemma SignsStartPlain(s: string)
    requires |s| >= 2 && (s[0] == '-' || s[0] == '+') && forall i :: 1 <= i < |s| ==> IsDigit(s[i])
    ensures PlainStart(s) && IsDecimal(s)
  {
    if |s| >= 3 {
      assert IsDigit(s[2]);
      assert s[..3][2] == s[2];
    }
    assert s[..2][0] == s[0];
  }

  lemma QuotesStartPlain(s: string)
    requires s != "" && s[0] == '\''
    ensures PlainStart(s)
  {
    if |s| >= 3 { assert s[..3][0] == s[0]; }
    if |s| >= 2 { assert s[..2][0] == s[0]; }
  }

  lemma PlainlyRead(s: string, junk: int)
    requires s != "" && PlainStart(s)
    ensures s[0] == '\'' && s[|s| - 1] == '\'' ==> Str2Int(s, junk) == (Ascii(s[1..], 0), false)
    ensures s[0] != '\'' && s[0] != '$' && IsDecimal(s) ==> Str2Int(s, junk) == (ScanDecimal(s, junk), false)
    ensures !(s[0] == '\'' && s[|s| - 1] == '\'') && s[0] != '$' && !IsDecimal(s) ==> Str2Int(s, junk) == (-1, true)
  {
    hide Prefixed, ScanHex, Binary, Ascii, ScanDecimal, IsDecimal;
  }

  lemma SignedText(t: string, sign: char, junk: int)
    requires t != "" && (sign == '-' || sign == '+') && (forall i :: 0 <= i < |t| ==> IsDigit(t[i])) && 0 <= Decimal(t, 0) <= INT_MAX
    ensures Str2Int([sign] + t, junk) == (if sign == '-' then -Decimal(t, 0) else Decimal(t, 0), false)
  {
    hide Decimal, Prefixed, IsDecimal, Str2Int, PlainStart;
    var s := [sign] + t;
    assert s[1..] == t && s[0] == sign && s[1] == t[0];
    forall i | 1 <= i < |s|
      ensures IsDigit(s[i])
    {
      assert s[i] == t[i - 1];
    }
    SignsStartPlain(s);
    PlainlyRead(s, junk);
  }

  /** What an int of 32 bits holds of an unsigned number. */
  function AsInt(v: int): int {
    if v <= INT_MAX then v else v - 0x1_0000_0000
  }

  /** Hexadecimal numbers of up to 32 bits; with a minus sign only 16 bits are left. */
  lemma HexText(t: string, junk: int)
    requires AllHexDigits(t) && Spelled(t, 16) <= 0xffff_ffff
    ensures Str2Int("0x" + t, junk) == Str2Int("0X" + t, junk) == Str2Int("$" + t, junk) == (AsInt(Spelled(t, 16)), false)
    ensures Str2Int("-0x" + t, junk) == Str2Int("-0X" + t, junk) == ((-Spelled(t, 16)) % 0x1_0000, false)
  {
    hide Spelled, ScanHex, Str2Int, AsInt, AllHexDigits;
    HexScanned(t, junk);
    PrefixedHex(t, junk);
    NegatedHex(t, junk);
    SameNegated(Spelled(t, 16));
  }

  lemma HexScanned(t: string, junk: int)
    requires AllHexDigits(t) && Spelled(t, 16) <= 0xffff_ffff
    ensures t != "" && ScanHex(t, junk) == AsInt(Spelled(t, 16))
  {
    hide Spelled, Hex;
    HexSpelled(t);
  }

  lemma SameNegated(v: int)
    ensures (-AsInt(v)) % 0x1_0000 == (-v) % 0x1_0000
  {}

  lemma Behind(p: string, t: string)
    ensures (p + t)[|p|..] == t && Prefixed(p + t, p)
  {}

  lemma PrefixedHex(t: string, junk: int)
    requires t != ""
    ensures Str2Int("0x" + t, junk) == Str2Int("0X" + t, junk) == Str2Int("$" + t, junk) == (ScanHex(t, junk), false)
  {
    hide ScanHex, Binary, Ascii, ScanDecimal, IsDecimal;
    Behind("0x", t);
    Behind("0X", t);
    Behind("$", t);
    assert ("$" + t)[0] == '$';
  }

  lemma NegatedHex(t: string, junk: int)
    requires t != ""
    ensures Str2Int("-0x" + t, junk) == Str2Int("-0X" + t, junk) == (-ScanHex(t, junk) % 0x1_0000, false)
  {
    hide ScanHex, Binary, Ascii, ScanDecimal, IsDecimal;
    Behind("-0x", t);
    Behind("-0X", t);
    assert ("-0x" + t)[0] == '-' && ("-0X" + t)[0] == '-';
  }

  lemma {:induction false} BinarySnoc(t: string, v: int, c: char)
    ensures Binary(t + [c], v) == (2 * Binary(t, v) + if c == '1' then 1 else 0) % 0x1_0000
  {
    if t == "" {
      assert (t + [c])[1..] == "";
      TwiceLow(v, if c == '1' then 1 else 0);
    } else {
      assert (t + [c])[1..] == t[1..] + [c];
      BinarySnoc(t[1..], 2 * v + if t[0] == '1' then 1 else 0, c);
    }
  }

  lemma TwiceLow(v: int, d: int)
    ensures (2 * v + d) % 0x1_0000 == (2 * (v % 0x1_0000) + d) % 0x1_0000
  {}

  lemma {:induction false} BinarySpelled(t: string)
    requires AllBits(t)
    ensures Binary(t, 0) == Spelled(t, 2) % 0x1_0000
  {
    if t != "" {
      var m := |t| - 1;
      BinarySpelled(t[..m]);
      BinarySnoc(t[..m], 0, t[m]);
      assert t == t[..m] + [t[m]];
      TwiceLow(Spelled(t[..m], 2), DigitOf(t[m]));
    }
  }

  /** Binary numbers, of which 16 bits are kept. */
  lemma BinaryText(t: string, junk: int)
    requires AllBits(t)
    ensures Str2Int("0b" + t, junk) == Str2Int("0B" + t, junk) == (Spelled(t, 2) % 0x1_0000, false)
    ensures Str2Int("-0b" + t, junk) == Str2Int("-0B" + t, junk) == ((-Spelled(t, 2)) % 0x1_0000, false)
  {
    hide Spelled, Binary, ScanHex, Ascii, ScanDecimal, IsDecimal;
    BinarySpelled(t);
    Behind("0b", t);
    Behind("0B", t);
    Behind("-0b", t);
    Behind("-0B", t);
    assert ("-0b" + t)[0] == '-' && ("-0B" + t)[0] == '-';
    assert (-(Spelled(t, 2) % 0x1_0000)) % 0x1_0000 == (-Spelled(t, 2)) % 0x1_0000;
  }

  /** The characters of a constant, as bytes of a number. */
  function Bytes(t: string): int {
    if t == "" then 0 else 256 * Bytes(t[..|t| - 1]) + t[|t| - 1] as int
  }

  lemma ByteBehind(v: int, c: int)
    ensures (256 * v + c) % 0x1_0000 == (256 * (v % 0x1_0000) + c) % 0x1_0000
  {
    var q := v / 0x1_0000;
    assert 256 * v + c == 256 * (v % 0x1_0000) + c + 0x1_0000 * (256 * q);
    Wrapped(256 * (v % 0x1_0000) + c, 256 * q);
  }

  lemma Wrapped(x: int, k: int)
    ensures (x + 0x1_0000 * k) % 0x1_0000 == x % 0x1_0000
  {}

  lemma {:induction false} AsciiSnoc(t: string, v: int, c: char)
    requires (forall i :: 0 <= i < |t| ==> t[i] != '\'') && c != '\''
    ensures Ascii(t + [c, '\''], v) == (256 * Ascii(t + "'", v) + c as int) % 0x1_0000
  {
    if t == "" {
      assert (t + [c, '\''])[1..] == "'";
      assert t + "'" == "'";
      ByteBehind(v, c as int);
    } else {
      assert (t + [c, '\''])[1..] == t[1..] + [c, '\''];
      assert (t + "'")[1..] == t[1..] + "'";
      AsciiSnoc(t[1..], 256 * v + t[0] as int, c);
    }
  }

  lemma {:induction false} AsciiBytes(t: string)
    requires forall i :: 0 <= i < |t| ==> t[i] != '\''
    ensures Ascii(t + "'", 0) == Bytes(t) % 0x1_0000
  {
    if t != "" {
      var m := |t| - 1;
      AsciiBytes(t[..m]);
      AsciiSnoc(t[..m], 0, t[m]);
      ByteBehind(Bytes(t[..m]), t[m] as int);
      assert t + "'" == t[..m] + [t[m], '\''];
    } else {
      assert t + "'" == "'";
    }
  }

  /** Characters between single quotes: the last two of them, the last in the low byte. */
  lemma CharacterText(t: string, junk: int)
    requires forall i :: 0 <= i < |t| ==> t[i] != '\''
    ensures Str2Int("'" + t + "'", junk) == (Bytes(t) % 0x1_0000, false)
  {
    hide Ascii, IsDecimal, Str2Int, PlainStart;
    var s := "'" + t + "'";
    assert s[0] == '\'' && s[|s| - 1] == '\'' && s[1..] == t + "'";
    QuotesStartPlain(s);
    PlainlyRead(s, junk);
    AsciiBytes(t);
  }

  /** Any other text is an error. */
  lemma NoNumberText(s: string, junk: int)
    requires s != "" && PlainStart(s) && s[0] != '$' && !(s[0] == '\'' && s[|s| - 1] == '\'')
    requires exists i :: 0 <= i < |s| && !('0' <= s[i] <= '9') && s[i] != '+' && s[i] != '-'
    ensures Str2Int(s, junk) == (-1, true)
  {
    hide Str2Int, PlainStart;
    PlainlyRead(s, junk);
  }

  // ----- .ASCII_W and .ASCII_P -----

  /** The words that a text in double quotes stands for: its characters up to the closing quote, a carriage return and a
      line feed for \n, a tab for \t. */
  function Meant(t: string): seq<int> {
    if t == "" || t[0] == '"' then []
    else if |t| >= 2 && t[0] == '\\' && t[1] == 'n' then [13, 10] + Meant(t[2..])
    else if |t| >= 2 && t[0] == '\\' && t[1] == 't' then [9] + Meant(t[2..])
    else [t[0] as int % 256] + Meant(t[1..])
  }

  /** Every backslash before the closing quote is followed by n or t. */
  predicate WellEscaped(t: string) {
    if t == "" || t[0] == '"' then true
    else if t[0] == '\\' then |t| >= 2 && (t[1] == 'n' || t[1] == 't') && WellEscaped(t[2..])
    else WellEscaped(t[1..])
  }

  lemma MeantStep(t: string, j: nat)
    requires j <= |t| && WellEscaped(t[j..])
    ensures j == |t| || t[j] == '"' ==> Meant(t[j..]) == []
    ensures j < |t| && t[j] != '"' && t[j] != '\\' ==>
              WellEscaped(t[j + 1..]) && Meant(t[j..]) == [t[j] as int % 256] + Meant(t[j + 1..])
    ensures j < |t| && t[j] == '\\' ==>
              && j + 1 < |t| && (t[j + 1] == 'n' || t[j + 1] == 't') && WellEscaped(t[j + 2..])
              && Meant(t[j..]) == (if t[j + 1] == 'n' then [13, 10] else [9]) + Meant(t[j + 2..])
  {
    var rest := t[j..];
    if j < |t| {
      assert rest[0] == t[j] && rest[1..] == t[j + 1..];
      if j + 1 < |t| { assert rest[1] == t[j + 1] && rest[2..] == t[j + 2..]; }
    }
  }

  lemma {:induction false} WordsMeant(t: string, j: nat, out: seq<int>, junk: Junk)
    requires j <= |t| && WellEscaped(t[j..])
    ensures AsciiWords(t, j, false, out, junk) == out + Meant(t[j..])
    decreases |t| - j
  {
    hide Meant, WellEscaped;
    MeantStep(t, j);
    if j < |t| && t[j] != '"' {
      if t[j] == '\\' {
        var o := out + [junk.word(|out|)];
        assert AsciiWords(t, j, false, out, junk) == AsciiWords(t, j + 1, true, o, junk);
        if t[j + 1] == 'n' {
          assert o[|o| - 1 := 13] + [10] == out + [13, 10];
          WordsMeant(t, j + 2, out + [13, 10], junk);
        } else {
          assert o[|o| - 1 := 9] == out + [9];
          WordsMeant(t, j + 2, out + [9], junk);
        }
      } else {
        WordsMeant(t, j + 1, out + [t[j] as int % 256], junk);
      }
    }
  }

  predicate TextMnemonic(m: string) {
    m in [".ASCII_W", ".ASCII_P", ".ascii_w", ".ascii_p"]
  }

  /** .ASCII_W ends the text with a zero word, .ASCII_P does not. */
  lemma TextLine(line: Line, pass: Pass, junk: Junk)
    requires TextMnemonic(line.mnemonic) && WellEscaped(line.text)
    ensures var (e, pass') := FirstLine(line, pass, junk);
      && e.data == Meant(line.text) + (if line.mnemonic in [".ASCII_W", ".ascii_w"] then [0] else [])
      && e.address == pass.address && e.name == line.name && pass' == pass.(address := pass.address + |e.data|)
  {
    hide AsciiWords, Meant, WellEscaped, KindOf, UpperAll;
    assert line.text[0..] == line.text;
    WordsMeant(line.text, 0, [], junk);
    TextKind(line.mnemonic);
  }

  lemma TextKind(m: string)
    requires TextMnemonic(m)
    ensures m != "" && KindOf(m) == AsciiText && (UpperAll(m) == ".ASCII_W" <==> m in [".ASCII_W", ".ascii_w"])
  {
    UpperTexts();
    NoMnemonic(UpperAll(m));
  }

  lemma UpperTexts()
    ensures UpperAll(".ASCII_W") == UpperAll(".ascii_w") == ".ASCII_W"
    ensures UpperAll(".ASCII_P") == UpperAll(".ascii_p") == ".ASCII_P"
  {}

  /** What begins with a full stop is no instruction. */
  lemma NoMnemonic(m: string)
    requires m != "" && m[0] == '.'
    ensures m !in NORMAL && m !in BRANCHES && m !in CONTROLS
  {}

  /** A backslash before another character keeps the state for later characters: the next n becomes a carriage return
      and a line feed, of which the first replaces the character before it. */
  lemma StrayBackslash(junk: Junk)
    ensures AsciiWords("\\an\"", 0, false, [], junk) == [92, 13, 10]
    ensures Meant("\\an\"") == [92, 97, 110]
  {
    var t := "\\an\"";
    assert t[0] == '\\' && t[1] == 'a' && t[2] == 'n' && t[3] == '"' && |t| == 4;
    assert AsciiWords(t, 3, false, [92, 13, 10], junk) == [92, 13, 10];
    assert [92, 97][1 := 13] + [10] == [92, 13, 10];
    assert AsciiWords(t, 2, true, [92, 97], junk) == [92, 13, 10];
    var w: int := junk.word(0);
    assert [w][0 := 92] + [97] == [92, 97];
    assert AsciiWords(t, 1, true, [w], junk) == [92, 13, 10];
    assert t[1..][0] == 'a' && t[1..][1..] == "n\"" && t[1..][1..][1..] == "\"";
  }

  // ----- .DW, .BLOCK and .ORG -----

  /** EQU number k is the first of that name. */
  ghost predicate FirstEquAt(equs: seq<(string, int)>, name: string, k: nat) {
    k < |equs| && equs[k].0 == name && forall j :: 0 <= j < k ==> equs[j].0 != name
  }

  /** Line number k is the first with that label. */
  ghost predicate FirstLabelAt(entries: seq<Entry>, name: string, k: nat) {
    k < |entries| && entries[k].name == name && forall j :: 0 <= j < k ==> entries[j].name != name
  }

  /** The value of an argument: that of the first EQU of its name, else the address of the first line with that label,
      else the number it spells. */
  ghost predicate StandsFor(equs: seq<(string, int)>, entries: seq<Entry>, arg: string, junk: int, v: int) {
    if exists k: nat :: FirstEquAt(equs, arg, k) then exists k: nat :: FirstEquAt(equs, arg, k) && v == equs[k].1
    else if exists k: nat :: FirstLabelAt(entries, arg, k) then
      exists k: nat :: FirstLabelAt(entries, arg, k) && v == entries[k].address % 0x1_0000
    else Str2Int(arg, junk) == (v, false)
  }

  lemma {:induction false} EquFound(equs: seq<(string, int)>, name: string)
    ensures HasEqu(equs, name) <==> exists k: nat :: FirstEquAt(equs, name, k)
    ensures forall k: nat :: FirstEquAt(equs, name, k) ==> EquValue(equs, name) == equs[k].1
  {
    if equs != [] {
      EquFound(equs[1..], name);
      if equs[0].0 == name {
        assert FirstEquAt(equs, name, 0);
      } else {
        forall k: nat
          ensures FirstEquAt(equs, name, k) <==> k > 0 && FirstEquAt(equs[1..], name, k - 1)
        {
          assert forall j :: 1 <= j < |equs| ==> equs[1..][j - 1] == equs[j];
        }
        if k: nat :| FirstEquAt(equs[1..], name, k) { assert FirstEquAt(equs, name, k + 1); }
        HasEquTail(equs, name);
      }
    }
  }

  lemma HasEquTail(equs: seq<(string, int)>, name: string)
    requires equs != [] && equs[0].0 != name
    ensures HasEqu(equs, name) <==> HasEqu(equs[1..], name)
  {
    if i :| 0 <= i < |equs| && equs[i].0 == name { assert equs[1..][i - 1].0 == name; }
    if i :| 0 <= i < |equs[1..]| && equs[1..][i].0 == name { assert equs[i + 1].0 == name; }
  }

  lemma {:induction false} LabelFound(entries: seq<Entry>, name: string)
    ensures HasLabel(entries, name) <==> exists k: nat :: FirstLabelAt(entries, name, k)
    ensures forall k: nat :: FirstLabelAt(entries, name, k) ==> LabelValue(entries, name) == entries[k].address % 0x1_0000
  {
    if entries != [] {
      LabelFound(entries[1..], name);
      if entries[0].name == name {
        assert FirstLabelAt(entries, name, 0);
      } else {
        forall k: nat
          ensures FirstLabelAt(entries, name, k) <==> k > 0 && FirstLabelAt(entries[1..], name, k - 1)
        {
          assert forall j :: 1 <= j < |entries| ==> entries[1..][j - 1] == entries[j];
        }
        if k: nat :| FirstLabelAt(entries[1..], name, k) { assert FirstLabelAt(entries, name, k + 1); }
        HasLabelTail(entries, name);
      }
    }
  }

  lemma HasLabelTail(entries: seq<Entry>, name: string)
    requires entries != [] && entries[0].name != name
    ensures HasLabel(entries, name) <==> HasLabel(entries[1..], name)
  {
    if i :| 0 <= i < |entries| && entries[i].name == name { assert entries[1..][i - 1].name == name; }
    if i :| 0 <= i < |entries[1..]| && entries[1..][i].name == name { assert entries[i + 1].name == name; }
  }

  /** Argument i of .DW has a value. */
  ghost predicate Valued(equs: seq<(string, int)>, entries: seq<Entry>, dw: seq<string>, junk: Junk, i: nat)
    requires i < |dw|
  {
    exists v :: StandsFor(equs, entries, dw[i], junk.number(i), v)
  }

  /** How many arguments before number n have one. */
  ghost function ValuedBefore(equs: seq<(string, int)>, entries: seq<Entry>, dw: seq<string>, junk: Junk, n: nat): nat
    requires n <= |dw|
  {
    if n == 0 then 0 else ValuedBefore(equs, entries, dw, junk, n - 1) + if Valued(equs, entries, dw, junk, n - 1) then 1 else 0
  }

  lemma OneValue(equs: seq<(string, int)>, entries: seq<Entry>, arg: string, junk: int)
    ensures var (value, error) := if Known(equs, entries, arg) then (Resolve(equs, entries, arg), false) else Str2Int(arg, junk);
            forall v :: StandsFor(equs, entries, arg, junk, v) <==> !error && v == value
  {
    hide Str2Int, HasEqu, HasLabel, EquValue, LabelValue, FirstEquAt, FirstLabelAt;
    EquFound(equs, arg);
    LabelFound(entries, arg);
  }

  lemma {:induction false} ValuedPrefix(equs: seq<(string, int)>, entries: seq<Entry>, dw: seq<string>, junk: Junk, m: nat, n: nat)
    requires n <= m <= |dw|
    ensures ValuedBefore(equs, entries, dw[..m], junk, n) == ValuedBefore(equs, entries, dw, junk, n)
  {
    hide StandsFor;
    if n > 0 { ValuedPrefix(equs, entries, dw, junk, m, n - 1); }
  }

  /** The words of .DW are the values of its arguments, in order; those that have none are errors and leave no gap. */
  lemma {:induction false} DwMeans(equs: seq<(string, int)>, entries: seq<Entry>, dw: seq<string>, junk: Junk)
    ensures var (words, errors) := DwWords(equs, entries, dw, junk);
      && |words| == ValuedBefore(equs, entries, dw, junk, |dw|) && errors == |dw| - |words|
      && forall i: nat :: i < |dw| && Valued(equs, entries, dw, junk, i) ==>
           ValuedBefore(equs, entries, dw, junk, i) < |words|
           && StandsFor(equs, entries, dw[i], junk.number(i), words[ValuedBefore(equs, entries, dw, junk, i)])
  {
    hide StandsFor, Str2Int, Known, Resolve;
    if dw != [] {
      var m := |dw| - 1;
      DwMeans(equs, entries, dw[..m], junk);
      ValuedPrefix(equs, entries, dw, junk, m, m);
      OneValue(equs, entries, dw[m], junk.number(m));
      var (value, error) := if Known(equs, entries, dw[m]) then (Resolve(equs, entries, dw[m]), false) else Str2Int(dw[m], junk.number(m));
      assert StandsFor(equs, entries, dw[m], junk.number(m), value) <==> !error;
      assert Valued(equs, entries, dw, junk, m) <==> !error;
      var (before, _) := DwWords(equs, entries, dw[..m], junk);
      var (words, _) := DwWords(equs, entries, dw, junk);
      assert before <= words && |before| == ValuedBefore(equs, entries, dw, junk, m);
      forall i: nat | i < |dw| && Valued(equs, entries, dw, junk, i)
        ensures ValuedBefore(equs, entries, dw, junk, i) < |words|
        ensures StandsFor(equs, entries, dw[i], junk.number(i), words[ValuedBefore(equs, entries, dw, junk, i)])
      {
        if i < m {
          ValuedPrefix(equs, entries, dw, junk, m, i);
          assert Valued(equs, entries, dw[..m], junk, i);
        } else {
          assert |words| == |before| + 1;
        }
      }
    }
  }
}
