/** 128-bit division of hugeint.c. */
module HugeInt {
  import opened Bits
  import opened Digits
  import opened Nonlinear
  import opened DigitShift
  import opened LongDivision
  import opened LiteralDivision
  import opened Options

  type Word64 = x: int | 0 <= x < 0x1_0000_0000_0000_0000

  const RANGE: int := 0x1_0000_0000_0000_0000_0000_0000_0000_0000

  datatype Huge = Huge(hi: Word64, lo: Word64)

  /** The 128-bit unsigned value. */
  function Val(h: Huge): (v: nat)
    ensures v < RANGE
  {
    h.hi * WORD + h.lo
  }

  /** Number of digits of x without leading zeros. */
  ghost function SigDigits(x: nat): nat {
    if x == 0 then 0 else 1 + SigDigits(x / BASE)
  }

  /** How far a leading digit moves left until its top bit is set. */
  ghost function Headroom(t: nat): nat
    decreases BASE - t
  {
    if t == 0 || t >= BASE / 2 then 0 else 1 + Headroom(2 * t)
  }

  ghost function LeadingDigitOf(x: nat): nat
    requires x > 0
  {
    Quo(x, Pow(SigDigits(x) - 1))
  }

  /** Exactly the operands on which divmod adds back in some round. */
  ghost predicate AddsBack(a: nat, b: nat)
    requires b > 0
  {
    var n := SigDigits(b);
    var e := Exp2(Headroom(LeadingDigitOf(b)));
    var us, v := OfNum(a * e, SigDigits(a) + 1), OfNum(b * e, n);
    n >= 2 && a >= b && Normal(us, v) && !NoAddBack(us, v, SigDigits(a) - n + 1)
  }

  /** The first round that adds back. */
  ghost predicate AddsBackFirstIn(a: nat, b: nat, f: nat)
    requires b > 0
  {
    var n := SigDigits(b);
    var e := Exp2(Headroom(LeadingDigitOf(b)));
    var us, v := OfNum(a * e, SigDigits(a) + 1), OfNum(b * e, n);
    && n >= 2 && a >= b && Normal(us, v) && f + n <= SigDigits(a)
    && NoAddBack(us, v, f) && AddsBackAt(us, v, f)
  }

  // ----- numbers and digits -----

  lemma SigDigitsOf(s: seq<Digit>)
    requires s != [] && s[0] != 0
    ensures SigDigits(Num(s)) == |s|
  {
    var k := |s| - 1;
    assert Num(s) == Num(s[..k]) * BASE + s[k];
    assert Num(s) / BASE == Num(s[..k]);
    if k > 0 {
      SigDigitsOf(s[..k]);
    } else {
      assert s[..k] == [];
    }
  }

  lemma ZerosAreZero(s: seq<Digit>)
    requires Zeros(s)
    ensures Num(s) == 0
  {
    if s != [] { ZerosAreZero(s[..|s| - 1]); }
  }

  lemma DropZeros(z: seq<Digit>, s: seq<Digit>)
    requires Zeros(z)
    ensures Num(z + s) == Num(s)
  {
    ZerosAreZero(z);
    NumAppend(z, s);
  }

  function Combine(x: Digit, y: Digit): (w: Word64)
    ensures w == x * BASE + y
  {
    Exp32();
    OrIsSum(x, y, 32);
    BitOr(x * BASE, y)
  }

  lemma Num4(s: seq<Digit>)
    requires |s| == 4
    ensures Num(s) == (s[0] * BASE + s[1]) * WORD + (s[2] * BASE + s[3])
  {
    Two(s[0], s[1]);
    Two(s[2], s[3]);
    assert s == [s[0], s[1]] + [s[2], s[3]];
    NumAppend([s[0], s[1]], [s[2], s[3]]);
    assert Pow(2) == BASE * (BASE * Pow(0));
  }

  /** The five digits of C's uspace and vspace, loaded from a 128-bit value. */
  method Load(h: Huge) returns (p: array<Digit>)
    ensures fresh(p) && p.Length == 5 && p[0] == 0 && Num(p[1..]) == Val(h)
  {
    p := new Digit[5];
    p[0] := 0;
    p[1], p[2] := h.hi / BASE, h.hi % BASE;
    p[3], p[4] := h.lo / BASE, h.lo % BASE;
    Num4(p[1..]);
  }

  method Store(p: array<Digit>) returns (h: Huge)
    requires p.Length == 5
    ensures Val(h) == Num(p[1..])
  {
    h := Huge(Combine(p[1], p[2]), Combine(p[3], p[4]));
    Num4(p[1..]);
  }

  /** Division by a single digit. */
  method ShortDivide(u: array<Digit>, t: Digit) returns (q: Huge, r: Huge)
    requires u.Length == 5 && t > 0
    ensures Num(u[1..]) == Val(q) * t + Val(r) && Val(r) < t
  {
    Num4(u[1..]);
    var q1, r1 := ShortDigit(0, u[1], t);
    var q2, r2 := ShortDigit(r1, u[2], t);
    var q3, r3 := ShortDigit(r2, u[3], t);
    var q4, r4 := ShortDigit(r3, u[4], t);
    q, r := Huge(Combine(q1, q2), Combine(q3, q4)), Huge(0, r4);
    ShortSum(u[1], u[2], u[3], u[4], q1, q2, q3, q4, r1, r2, r3, r4, t);
  }

  method ShortDigit(r: Digit, x: Digit, t: Digit) returns (q: Digit, r': Digit)
    requires r < t
    ensures r * BASE + x == q * t + r' && r' < t
  {
    var rbj := Combine(r, x);
    QuotientBelow(rbj, t, BASE);
    q, r' := rbj / t, rbj % t;
  }

  lemma ShortSum(u1: Digit, u2: Digit, u3: Digit, u4: Digit, q1: Digit, q2: Digit, q3: Digit, q4: Digit,
                 r1: nat, r2: nat, r3: nat, r4: nat, t: Digit)
    requires u1 == q1 * t + r1 && r1 * BASE + u2 == q2 * t + r2
    requires r2 * BASE + u3 == q3 * t + r3 && r3 * BASE + u4 == q4 * t + r4
    ensures (u1 * BASE + u2) * WORD + (u3 * BASE + u4)
            == ((q1 * BASE + q2) * WORD + (q3 * BASE + q4)) * t + r4
  {
    assert ((q1 * BASE + q2) * WORD + (q3 * BASE + q4)) * t
           == q1 * t * BASE * WORD + q2 * t * WORD + q3 * t * BASE + q4 * t;
  }

  /** hugeint.c's d: how far the leading digit of the divisor is shifted. */
  method CountHeadroom(v1: Digit) returns (d: nat)
    requires v1 > 0
    ensures d == Headroom(v1) && d < 32 && BASE / 2 <= v1 * Exp2(d) < BASE
  {
    d := 0;
    var t := v1;
    while t < BASE / 2
      invariant 0 < t < BASE && t == v1 * Exp2(d) && Headroom(v1) == d + Headroom(t)
      decreases BASE - t
    {
      t := t * 2;
      d := d + 1;
    }
    HeadroomBelow32(v1, d);
  }

  lemma HeadroomBelow32(v1: nat, d: nat)
    requires v1 > 0 && v1 * Exp2(d) < BASE
    ensures d < 32
  {
    if d >= 32 {
      Exp2Add(32, d - 32);
      Exp32();
      MulMono(BASE, 1, Exp2(d - 32));
      MulMono(Exp2(d), 1, v1);
    }
  }

  lemma ShlWithRoom(x: seq<Digit>, d: Shift)
    requires x != [] && x[0] * Exp2(d) < BASE
    ensures Num(Shl(x, d)) == Num(x) * Exp2(d)
    ensures x[0] * Exp2(d) <= Shl(x, d)[0] < x[0] * Exp2(d) + Exp2(d)
  {
    hide Exp2, ShlDigit, Num, Shl;
    ShlValue(x, d);
    ShlAt(x, d, 0);
    var y := if |x| == 1 then 0 else x[1];
    ShlDigitValue(x[0], y, d);
    TwoParts(d);
    LowPart(y, Exp2(d), Exp2(32 - d));
    TopStays(x[0], Exp2(d), Pow(|x|));
  }

  lemma LowPart(y: Digit, e: nat, f: nat)
    requires e > 0 && f > 0 && e * f == BASE
    ensures 0 <= y * e / BASE < e
  {
    Scale(y, e, f);
  }

  lemma TopStays(x: nat, e: nat, p: nat)
    requires x * e < BASE
    ensures x * e % BASE == x * e && x * e / BASE * p == 0
  {
    var t := x * e;
    assert 0 <= t;
    assert t / BASE == 0;
  }

  /** Shifts p[o..o+len] left by d, for a leading digit with room for it. */
  method ShiftUp(p: array<Digit>, o: nat, len: nat, d: nat)
    requires o + len < p.Length && d < 32 && p[o] * Exp2(d) < BASE
    modifies p
    ensures forall k :: 0 <= k < p.Length && (k < o || k > o + len) ==> p[k] == old(p[k])
    ensures Num(p[o..o + len + 1]) == Num(old(p[o..o + len + 1])) * Exp2(d)
    ensures old(p[o]) * Exp2(d) <= p[o] < old(p[o]) * Exp2(d) + Exp2(d)
  {
    hide Num, Shl;
    ghost var x := p[o..o + len + 1];
    if d > 0 {
      assert x[0] == p[o];
      ShlWithRoom(x, d);
      ShiftDigits(p, o, len, d);
      assert p[o] == p[o..o + len + 1][0];
    }
  }

  /** What divmod hands to its main loop. */
  ghost predicate Prepared(a: nat, b: nat, d: nat, us: seq<Digit>, v: seq<Digit>)
  {
    && |v| == SigDigits(b) && |us| == SigDigits(a) + 1 && Normal(us, v) && v[0] >= BASE / 2
    && b > 0 && d == Headroom(LeadingDigitOf(b)) && Num(us) == a * Exp2(d) && Num(v) == b * Exp2(d)
  }

  lemma AddsBackWhenPrepared(a: nat, b: nat, d: nat, us: seq<Digit>, v: seq<Digit>)
    requires Prepared(a, b, d, us, v) && b <= a
    ensures |us| - |v| == SigDigits(a) - SigDigits(b) + 1
    ensures AddsBack(a, b) == !NoAddBack(us, v, |us| - |v|)
  {
    OfNumOfNum(us);
    OfNumOfNum(v);
  }

  lemma LeadingDigitOfNum(s: seq<Digit>)
    requires s != [] && s[0] != 0
    ensures Num(s) > 0 && LeadingDigitOf(Num(s)) == s[0]
  {
    SigDigitsOf(s);
    LeadingDigit(s);
    var p := Pow(|s| - 1);
    MulMono(p, 1, s[0]);
    QuotientAtLeast(Num(s), p, s[0]);
    var next: nat := s[0] as int + 1;
    QuotientBelow(Num(s), p, next);
  }

  lemma PreparedBy(x: seq<Digit>, y: seq<Digit>, d: nat, us: seq<Digit>, v: seq<Digit>)
    requires |y| >= 2 && |x| > |y| && x[0] == 0 && x[1] != 0 && y[0] != 0
    requires |us| == |x| && |v| == |y| && d < 32 && d == Headroom(y[0])
    requires Num(us) == Num(x) * Exp2(d) && Num(v) == Num(y) * Exp2(d)
    requires us[0] < Exp2(d) && BASE / 2 <= v[0]
    ensures Prepared(Num(x), Num(y), d, us, v)
  {
    hide Num, Headroom, Exp2, LeadingDigitOf, SigDigits, Pow;
    assert x == [0] + x[1..];
    NumCons(0, x[1..]);
    SigDigitsOf(x[1..]);
    SigDigitsOf(y);
    LeadingDigitOfNum(y);
    HalfOfBase(d);
    GreaterLeadingDigit(v, us[..|v|]);
  }

  lemma HalfOfBase(d: nat)
    requires d < 32
    ensures Exp2(d) <= BASE / 2
  {
    Exp32();
    Exp2Add(d, 31 - d);
    MulMono(Exp2(d), 1, Exp2(31 - d));
    assert Exp2(32) == 2 * Exp2(31);
  }

  /** The remainder of the shifted operands is the shifted remainder. */
  lemma UnshiftedResult(a: nat, b: nat, d: nat, us: seq<Digit>, v: seq<Digit>, u: seq<Digit>, q: seq<Digit>)
    requires Prepared(a, b, d, us, v) && b <= a && Divided(us, v, |us| - |v|, u, q)
    ensures |u| == |us|
    ensures 0 <= a - Num(q) * b < b && Num(u[|us| - |v|..]) == (a - Num(q) * b) * Exp2(d)
  {
    hide Num, Exp2, Normal;
    var e, j := Exp2(d), |us| - |v|;
    assert us[..j + |v|] == us && u[j..j + |v|] == u[j..];
    Unshift(a, b, e, Num(q), Num(u[j..]));
  }

  lemma Unshift(a: nat, b: nat, e: nat, q: nat, r: nat)
    requires e > 0 && a * e == q * (b * e) + r && r < b * e
    ensures 0 <= a - q * b < b && r == (a - q * b) * e
  {
    var x := a - q * b;
    assert q * (b * e) == (q * b) * e;
    assert r == x * e;
    if x < 0 { MulMono(e, x, -1); }
    if x >= b { MulMono(e, b, x); }
  }

  /** Shifting the remainder back is exact. */
  lemma ShrExact(x: seq<Digit>, d: Shift, r: nat)
    requires x != [] && Num(x) == r * Exp2(d)
    ensures Num(Shr(0, x, d)) == r
  {
    hide Exp2, Shr;
    var e, last := Exp2(d), x[|x| - 1];
    ShrValue(0, x, d);
    TwoParts(d);
    LowBits(Num(x[..|x| - 1]), last, e, Exp2(32 - d), r);
    assert 0 % e == 0;
    CancelMul(Num(Shr(0, x, d)), r, e);
  }

  lemma LowBits(h: nat, last: nat, e: nat, f: nat, r: nat)
    requires e > 0 && e * f == BASE && h * BASE + last == r * e
    ensures last % e == 0
  {
    assert last == (r - h * f) * e by {
      assert h * BASE == (h * f) * e;
    }
    MultipleHasNoRest(r - h * f, e);
  }

  lemma MultipleHasNoRest(k: int, e: nat)
    requires e > 0
    ensures (k * e) % e == 0
  {
    var x := k * e;
    assert x == e * (x / e) + x % e;
    var z := k - x / e;
    assert z * e == x % e;
    if z >= 1 { MulMono(e, 1, z); }
    if z <= -1 { MulMono(e, z, -1); }
  }

  lemma CancelMul(x: nat, y: nat, e: nat)
    requires e > 0 && x * e == y * e
    ensures x == y
  {
    if x < y { MulMono(e, x + 1, y); }
    if y < x { MulMono(e, y + 1, x); }
  }

  lemma {:induction false} DigitWeight(s: seq<Digit>, i: nat)
    requires i < |s|
    ensures Num(s) >= s[i] * Pow(|s| - 1 - i)
  {
    assert s == s[..i] + s[i..];
    NumAppend(s[..i], s[i..]);
    LeadingDigit(s[i..]);
    MulMono(Pow(|s| - i), 0, Num(s[..i]));
  }

  lemma {:induction false} PowMono(j: nat, k: nat)
    requires j <= k
    ensures Pow(j) <= Pow(k)
  {
    if j < k { PowMono(j, k - 1); }
  }

  /** A leftover BASE - 1 above the remainder's n digits makes the remainder too large. */
  lemma LeftoverTooLarge(r: seq<Digit>, i: nat, n: nat, b: nat)
    requires i < |r| && r[i] == BASE - 1 && n <= |r| - 1 - i && b < Pow(n)
    ensures Num(r) >= b
  {
    DigitWeight(r, i);
    PowMono(n, |r| - 1 - i);
    MulMono(Pow(|r| - 1 - i), 1, BASE - 1);
  }

  /** So does one that is shifted into them. */
  lemma ShiftedLeftoverTooLarge(x: seq<Digit>, d: Shift, b: nat)
    requires x != [] && b * Exp2(d) < Pow(|x|)
    ensures Num(Shr(BASE - 1, x, d)) >= b
  {
    hide Exp2, Shr, Num;
    var e, r, c := Exp2(d), Num(Shr(BASE - 1, x, d)), BASE - 1;
    ShrValue(c, x, d);
    TwoParts(d);
    AllOnes(e, Exp2(32 - d));
    LastAtMost(x, e);
    assert r * e >= (e - 1) * Pow(|x|);
    MulMono(Pow(|x|), 1, e - 1);
    if r < b { MulMono(e, r, b); }
  }

  lemma AllOnes(e: nat, f: nat)
    requires e > 1 && e * f == BASE
    ensures (BASE - 1) % e == e - 1
  {
    var x := BASE - 1;
    assert x == (f - 1) * e + (e - 1);
    DivModUnique(x, e, f - 1, e - 1);
  }

  lemma LastAtMost(x: seq<Digit>, e: nat)
    requires x != [] && e > 0
    ensures x[|x| - 1] % e <= Num(x)
  {
    var l := x[|x| - 1];
    assert Num(x) == Num(x[..|x| - 1]) * BASE + l;
    ModAtMost(l, e);
  }

  lemma ModAtMost(l: nat, e: nat)
    requires e > 0
    ensures l % e <= l
  {
    assert l == e * (l / e) + l % e;
    MulMono(e, 0, l / e);
  }

  /** uspace before (u) and after (u') denormalising the digits below lo. */
  ghost predicate Denormalized(u: seq<Digit>, u': seq<Digit>, lo: nat, d: nat)
    requires |u| == |u'| == 5 && lo < 5 && d < 32
  {
    && (d == 0 ==> u' == u)
    && (d > 0 ==> u'[..lo] == u[..lo] && u'[lo] == 0 && u'[lo + 1..] == Shr(u[lo], u[lo + 1..], d))
  }

  lemma ExactResult(a: nat, b: nat, d: nat, us: seq<Digit>, v: seq<Digit>,
                    u: seq<Digit>, q: seq<Digit>, u': seq<Digit>, uo: nat, lo: nat, qo: nat)
    requires Prepared(a, b, d, us, v) && b <= a && d < 32
    requires |u| == |q| == |u'| == 5 && uo <= lo < 5 && 1 <= qo <= 5
    requires 2 <= |v| == 4 - lo && |us| == 5 - uo
    requires Divided(us, v, |us| - |v|, u[uo..], q[qo..])
    requires Zeros(u[..uo]) && Zeros(q[..qo]) && Denormalized(u, u', lo, d)
    ensures a == Num(q[1..]) * b + Num(u'[1..]) && Num(u'[1..]) < b
  {
    hide Num, Shr, Exp2, Normal, Prepared;
    UnshiftedResult(a, b, d, us, v, u[uo..], q[qo..]);
    var j := |us| - |v|;
    assert u[uo..][j..] == u[lo + 1..];
    assert q[1..] == q[1..qo] + q[qo..];
    DropZeros(q[1..qo], q[qo..]);
    assert u'[1..] == u'[1..lo + 1] + u'[lo + 1..];
    assert Zeros(u'[1..lo + 1]) by {
      forall i | 1 <= i <= lo
        ensures u'[i] == 0
      {
        if i < uo { assert u[..uo][i] == 0; } else { assert u[uo..][..j][i - uo] == 0; }
        if d > 0 && i < lo { assert u'[..lo][i] == u[..lo][i]; }
      }
    }
    DropZeros(u'[1..lo + 1], u'[lo + 1..]);
    if d > 0 {
      assert u[lo] == u[uo..][..j][lo - uo] == 0;
      ShrExact(u[lo + 1..], d, a - Num(q[qo..]) * b);
    } else {
      assert Exp2(0) == 1 by { Exp2Zero(); }
    }
  }

  lemma Exp2Zero()
    ensures Exp2(0) == 1
  {}

  /** A leftover of the add-back as written, at u[uo + f], spoils the remainder, unless it is in uspace[0]. */
  lemma SpoiltResult(b: nat, d: nat, v: seq<Digit>, u: seq<Digit>, u': seq<Digit>, uo: nat, lo: nat, f: nat)
    requires d < 32 && b * Exp2(d) == Num(v)
    requires |u| == |u'| == 5 && 2 <= |v| == 4 - lo && uo + f <= lo
    requires u[uo + f] == BASE - 1 && Denormalized(u, u', lo, d)
    requires uo + f >= 1 || (d > 0 && lo == 0)
    ensures Num(u'[1..]) >= b
  {
    hide Num, Shr, Exp2;
    NumBound(v);
    assert b < Pow(|v|) by { MulMono(b, 1, Exp2(d)); }
    var k := uo + f;
    if d > 0 && k == lo {
      ShiftedLeftoverTooLarge(u[lo + 1..], d, b);
      assert u'[1..] == u'[1..lo + 1] + u'[lo + 1..];
      NumAppend(u'[1..lo + 1], u'[lo + 1..]);
      MulMono(Pow(|u'| - lo - 1), 0, Num(u'[1..lo + 1]));
    } else {
      if d > 0 { assert u'[k] == u'[..lo][k] == u[..lo][k]; }
      assert u'[1..][k - 1] == u'[k];
      LeftoverTooLarge(u'[1..], k - 1, |v|, b);
    }
  }

  lemma {:induction false} CorrectedAtMost(qhat: nat, rhat: nat, u2: Digit, v1: Digit, v2: Digit)
    requires v1 > 0
    ensures Corrected(qhat, rhat, u2, v1, v2) <= qhat
    decreases BASE - rhat
  {
    if !(rhat >= BASE || v2 * qhat <= rhat * BASE + u2) {
      CorrectedAtMost(qhat - 1, rhat + v1, u2, v1, v2);
    }
  }

  lemma SingleWindow(us: seq<Digit>, v: seq<Digit>)
    requires Normal(us, v) && |us| == |v| + 1
    ensures TrueWindow(us, v, 0) == Num(us) && OfNum(Num(us), |us|) == us
  {
    var n := |v|;
    assert us == us[..n] + [us[n]];
    NumSnoc(us[..n], us[n]);
    DivModUnique(Num(us[..n]), Num(v), 0, Num(us[..n]));
    OfNumOfNum(us);
  }

  /** With nothing to shift, a quotient of one digit needs no add-back: it is 1, and so is the trial digit. */
  lemma UnshiftedSingleRound(us: seq<Digit>, v: seq<Digit>)
    requires Normal(us, v) && |us| == |v| + 1 && us[0] == 0 && v[0] >= BASE / 2 && Num(v) <= Num(us)
    ensures !AddsBackAt(us, v, 0)
  {
    hide Num, OfNum, Corrected, TrueWindow;
    SingleWindow(us, v);
    QuotientAtLeast(Num(us), Num(v), 1);
    TrialAtMostOne(us[1], us[2], v[0], v[1]);
  }

  lemma TrialAtMostOne(u1: Digit, u2: Digit, v1: Digit, v2: Digit)
    requires v1 >= BASE / 2
    ensures Trial(0, u1, u2, v1, v2) <= 1
  {
    hide Corrected;
    var q, r := if u1 < v1 then 0 else 1, if u1 < v1 then u1 else u1 - v1;
    DivModUnique(u1, v1, q, r);
    assert (0 * BASE + u1) / v1 == q && (0 * BASE + u1) % v1 == r;
    CorrectedAtMost(q, r, u2, v1, v2);
  }

  /** Shifts both operands left until the top bit of the divisor's leading digit is set. */
  method Normalize(u: array<Digit>, uo: nat, v: array<Digit>, vo: nat, m: nat, n: nat) returns (d: nat)
    requires u != v && u.Length == 5 && v.Length == 5 && n >= 2 && uo + m + n == 4 && vo + n == 4
    requires u[uo] == 0 && u[uo + 1] != 0 && v[vo + 1] != 0
    modifies u, v
    ensures d < 32 && u[..uo] == old(u[..uo])
    ensures Prepared(Num(old(u[uo..])), Num(old(v[vo + 1..])), d, u[uo..], v[vo + 1..])
    ensures d == 0 ==> u[uo] == 0 && v[vo + 1] >= BASE / 2
  {
    hide Num, Exp2, Prepared;
    ghost var x, y := u[uo..], v[vo + 1..];
    assert x == u[uo..uo + m + n + 1] && y == v[vo + 1..vo + 1 + (n - 1) + 1];
    d := CountHeadroom(v[vo + 1]);
    ShiftUp(u, uo, m + n, d);
    ShiftUp(v, vo + 1, n - 1, d);
    ghost var us, vs := u[uo..], v[vo + 1..];
    assert us == u[uo..uo + m + n + 1] && vs == v[vo + 1..vo + 1 + (n - 1) + 1];
    PreparedBy(x, y, d, us, vs);
    if d == 0 { Exp2Zero(); }
  }

  /** The main loop on the five-digit arrays. */
  method RunRounds(u: array<Digit>, uo: nat, v: array<Digit>, vo: nat, q: array<Digit>, m: nat, n: nat, wide: bool)
    requires u != v && u != q && v != q && u.Length == 5 && v.Length == 5 && q.Length == 5
    requires n >= 2 && uo + m + n == 4 && vo + n == 4
    requires Normal(u[uo..], v[vo + 1..]) && Zeros(u[..uo]) && Zeros(q[..4 - m])
    modifies u, q
    ensures Zeros(u[..uo]) && Zeros(q[..4 - m])
    ensures var us, vs := old(u[uo..]), v[vo + 1..];
      && (wide || NoAddBack(us, vs, m + 1) ==> Divided(us, vs, m + 1, u[uo..], q[4 - m..]))
      && (!wide && !NoAddBack(us, vs, m + 1) ==>
            exists f :: 0 <= f <= m && AddsBackAt(us, vs, f) && NoAddBack(us, vs, f) && u[uo + f] == BASE - 1)
      && (Playable(us, vs, m + 1, wide) ==> (u[uo..], q[4 - m..]) == PlayAll(us, vs, m + 1, wide))
      && (wide || NoAddBack(us, vs, m) ==> Num(q[4 - m..]) == Quo(Num(us), Num(vs)))
  {
    hide Divided, AddsBackAt, Num, PlayAll, Playable;
    assert u[uo..] == u[uo..uo + m + n + 1] && v[vo + 1..] == v[vo + 1..vo + n + 1];
    ghost var z, zq := u[..uo], q[..4 - m];
    Rounds(u, uo, v, vo, q, 4 - m, m, n, wide);
    assert u[uo..] == u[uo..uo + m + n + 1] && q[4 - m..] == q[4 - m..(4 - m) + m + 1];
    assert u[..uo] == z && q[..4 - m] == zq;
  }

  /** The denormalising branch. */
  method Undo(u: array<Digit>, lo: nat, n: nat, d: nat)
    requires u.Length == 5 && lo + n == 4 && d < 32
    modifies u
    ensures Denormalized(old(u[..]), u[..], lo, d)
  {
    hide Shr;
    ghost var u1 := u[..];
    if d > 0 {
      assert u1[lo + 1..] == u[lo + 1..lo + n + 1];
      Denormalize(u, lo, n, d);
      assert u[..][lo + 1..] == u[lo + 1..lo + n + 1];
      assert u[..][..lo] == u1[..lo];
    }
  }

  /** The multi-digit part of divmod. */
  method LongDivide(u: array<Digit>, uo: nat, v: array<Digit>, vo: nat, m: nat, n: nat, wide: bool)
    returns (qr: Huge, rr: Huge)
    requires u != v && u.Length == 5 && v.Length == 5 && n >= 2 && uo + m + n == 4 && vo + n == 4
    requires Zeros(u[..uo + 1]) && u[uo + 1] != 0 && v[vo + 1] != 0
    requires Num(v[vo + 1..]) <= Num(u[uo..])
    modifies u, v
    ensures Divides(Num(old(u[uo..])), Num(old(v[vo + 1..])), wide, qr, rr)
  {
    hide Num, Divided, Exp2, AddsBack, AddsBackAt, Normal, PlayAll, Playable, Divides;
    ghost var a, b := Num(u[uo..]), Num(v[vo + 1..]);
    assert u[uo] == u[..uo + 1][uo] == 0;
    assert Zeros(u[..uo]) by { assert forall k :: 0 <= k < uo ==> u[k] == u[..uo + 1][k]; }
    var d := Normalize(u, uo, v, vo, m, n);
    ghost var us, vs := u[uo..], v[vo + 1..];
    AddsBackWhenPrepared(a, b, d, us, vs);
    var q := ZeroQuotient(4 - m);
    RunRounds(u, uo, v, vo, q, m, n, wide);
    ghost var u1, q1 := u[..], q[..];
    Undo(u, uo + m, n, d);
    rr := Store(u);
    qr := Store(q);
    Conclude(a, b, d, us, vs, wide, u1, q1, u[..], uo, m, qr, rr);
  }

  /** Quotient and remainder of a division. */
  predicate IsDivision(a: nat, b: nat, q: Huge, r: Huge) {
    a == Val(q) * b + Val(r) && Val(r) < b
  }

  /** The operand pairs on which the add-back as written does no harm: no round adds back, or a four-digit dividend
      is divided by three digits, only the first of the two rounds adds back, and no carry is lost in it; then the
      leftover is in uspace[0], which is not stored. */
  ghost predicate Survives(a: nat, b: nat)
    requires b > 0
  {
    !AddsBack(a, b) || (
      var e := Exp2(Headroom(LeadingDigitOf(b)));
      var us, v := OfNum(a * e, SigDigits(a) + 1), OfNum(b * e, SigDigits(b));
      SigDigits(a) == 4 && SigDigits(b) == 3 && OnlyFirst(us, v))
  }

  /** The first round adds back without losing a carry, and the second round of the true division does not. */
  ghost predicate OnlyFirst(us: seq<Digit>, v: seq<Digit>) {
    && TwoRounds(us, v) && AddsBackAt(us, v, 0) && !AddsBackAt(us, v, 1)
    && Carry(Low(us[..4], v)[1], v[1]) == 0 && Carry(Low(us[..4], v)[2], v[2]) == 0
  }

  /** The operand pairs on which the quotient is right as written: no round before the last one adds back, or what
      the first of two rounds loses is not more than the last remainder. */
  ghost predicate QuotientSurvives(a: nat, b: nat)
    requires b > 0
  {
    !AddsBack(a, b) || (
      var e := Exp2(Headroom(LeadingDigitOf(b)));
      var us, v := OfNum(a * e, SigDigits(a) + 1), OfNum(b * e, SigDigits(b));
      AllButLast(us, v) || HarmlessLoss(us, v))
  }

  ghost predicate AllButLast(us: seq<Digit>, v: seq<Digit>) {
    Normal(us, v) && NoAddBack(us, v, |us| - |v| - 1)
  }

  ghost predicate HarmlessLoss(us: seq<Digit>, v: seq<Digit>) {
    && TwoRounds(us, v) && AddsBackAt(us, v, 0)
    && Missing(us[..4], v) * BASE <= Rem(TrueWindow(us, v, 1), Num(v))
  }

  /** What divmod does on a and b, for its two widths of the add-back sum. */
  ghost predicate Divides(a: nat, b: nat, wide: bool, q: Huge, r: Huge) {
    && b > 0
    && (IsDivision(a, b, q, r) <==> wide || Survives(a, b))
    && (Val(q) == Quo(a, b) <==> wide || QuotientSurvives(a, b))
    && (Val(r) == Rem(a, b) <==> wide || Survives(a, b))
  }

  lemma DivisionHasQuotient(a: nat, b: nat, q: Huge, r: Huge)
    requires b > 0 && IsDivision(a, b, q, r)
    ensures Val(q) == Quo(a, b) && Val(r) == Rem(a, b)
  {
    DivModUnique(a, b, Val(q), Val(r));
  }

  /** Where divmod does not reach its main loop. */
  lemma WithoutRounds(a: nat, b: nat, wide: bool, q: Huge, r: Huge)
    requires b > 0 && IsDivision(a, b, q, r) && (a < b || SigDigits(b) == 1)
    ensures Divides(a, b, wide, q, r)
  {
    hide IsDivision, SigDigits, Num, OfNum, Headroom, LeadingDigitOf, AllButLast, HarmlessLoss, OnlyFirst, Normal;
    DivisionHasQuotient(a, b, q, r);
  }

  lemma ScaledQuotient(a: nat, b: nat, e: nat)
    requires b > 0 && e > 0
    ensures b * e > 0 && Quo(a * e, b * e) == Quo(a, b)
  {
    QuoRem(a, b);
    var q, r := Quo(a, b), Rem(a, b);
    assert a * e == q * (b * e) + r * e;
    MulMono(e, r + 1, b);
    MulMono(e, 1, b);
    DivModUnique(a * e, b * e, q, r * e);
  }

  lemma Conclude(a: nat, b: nat, d: nat, us: seq<Digit>, v: seq<Digit>, wide: bool, u: seq<Digit>, q: seq<Digit>,
                 u': seq<Digit>, uo: nat, m: nat, qr: Huge, rr: Huge)
    requires Prepared(a, b, d, us, v) && b <= a && d < 32
    requires |u| == |q| == |u'| == 5 && m <= 4 && uo + m + |v| == 4 && |us| == 5 - uo
    requires Zeros(u[..uo]) && Zeros(q[..4 - m]) && Denormalized(u, u', uo + m, d)
    requires d == 0 ==> us[0] == 0 && v[0] >= BASE / 2
    requires wide || NoAddBack(us, v, m + 1) ==> Divided(us, v, m + 1, u[uo..], q[4 - m..])
    requires !wide && !NoAddBack(us, v, m + 1) ==>
      exists f :: 0 <= f <= m && AddsBackAt(us, v, f) && NoAddBack(us, v, f) && u[uo + f] == BASE - 1
    requires Playable(us, v, m + 1, wide) ==> (u[uo..], q[4 - m..]) == PlayAll(us, v, m + 1, wide)
    requires wide || NoAddBack(us, v, m) ==> Num(q[4 - m..]) == Quo(Num(us), Num(v))
    requires Val(qr) == Num(q[1..]) && Val(rr) == Num(u'[1..])
    ensures Divides(a, b, wide, qr, rr)
  {
    hide Num, Divided, Exp2, AddsBack, AddsBackAt, Denormalized, PlayAll, Playable, OnlyFirst, AllButLast, HarmlessLoss;
    AddsBackWhenPrepared(a, b, d, us, v);
    SurvivesWhenPrepared(a, b, d, us, v);
    QuotientDigits(a, b, d, us, v, q, m);
    if wide || !AddsBack(a, b) {
      ExactResult(a, b, d, us, v, u, q, u', uo, uo + m, 4 - m);
      DivisionHasQuotient(a, b, qr, rr);
    } else {
      var f :| 0 <= f <= m && AddsBackAt(us, v, f) && NoAddBack(us, v, f) && u[uo + f] == BASE - 1;
      if |v| == 2 {
        TwoDigitsNeverAddBack(us, v, f);
      } else if f == 0 && uo == 0 && m > 0 {
        SurvivingResult(a, b, d, us, v, u, q, u');
        LostBefore(us, v);
      } else {
        ShownLeftover(a, b, d, us, v, u, u', uo, uo + m, f);
        NotOnlyFirst(us, v, f);
        assert f == m;
        LastOnly(us, v, m);
      }
    }
  }

  lemma NotOnlyFirst(us: seq<Digit>, v: seq<Digit>, f: nat)
    requires Normal(us, v) && f + |v| < |us| && NoAddBack(us, v, f) && AddsBackAt(us, v, f)
    ensures f > 0 ==> !OnlyFirst(us, v)
  {}

  lemma LostBefore(us: seq<Digit>, v: seq<Digit>)
    requires Normal(us, v) && |us| == |v| + 2 && AddsBackAt(us, v, 0)
    ensures !AllButLast(us, v)
  {}

  lemma LastOnly(us: seq<Digit>, v: seq<Digit>, m: nat)
    requires Normal(us, v) && |us| == |v| + 1 + m && NoAddBack(us, v, m)
    ensures AllButLast(us, v)
  {}

  /** The digits of the quotient, and how the quotient of the shifted operands is that of the operands. */
  lemma QuotientDigits(a: nat, b: nat, d: nat, us: seq<Digit>, v: seq<Digit>, q: seq<Digit>, m: nat)
    requires Prepared(a, b, d, us, v) && |q| == 5 && m <= 4 && Zeros(q[..4 - m]) && d < 32
    ensures Num(q[1..]) == Num(if m < 4 then q[4 - m..] else q[1..]) && Quo(Num(us), Num(v)) == Quo(a, b)
  {
    hide Num, Exp2, Normal;
    ScaledQuotient(a, b, Exp2(d));
    if m < 4 {
      assert q[1..] == q[1..4 - m] + q[4 - m..];
      assert Zeros(q[1..4 - m]) by {
        forall i | 1 <= i < 4 - m ensures q[i] == 0 { assert q[..4 - m][i] == 0; }
      }
      DropZeros(q[1..4 - m], q[4 - m..]);
    }
  }

  lemma SurvivesWhenPrepared(a: nat, b: nat, d: nat, us: seq<Digit>, v: seq<Digit>)
    requires Prepared(a, b, d, us, v) && b <= a
    ensures Survives(a, b) <==> !AddsBack(a, b) || (|us| == 5 && |v| == 3 && OnlyFirst(us, v))
    ensures QuotientSurvives(a, b) <==> !AddsBack(a, b) || AllButLast(us, v) || HarmlessLoss(us, v)
  {
    hide OnlyFirst, AddsBack, Num, AllButLast, HarmlessLoss;
    OfNumOfNum(us);
    OfNumOfNum(v);
  }

  /** The case in which the leftover is not stored. */
  lemma SurvivingResult(a: nat, b: nat, d: nat, us: seq<Digit>, v: seq<Digit>, u: seq<Digit>, q: seq<Digit>, u': seq<Digit>)
    requires Prepared(a, b, d, us, v) && b <= a && d < 32
    requires |u| == |q| == |u'| == 5 && |v| == 3 && |us| == 5
    requires Zeros(q[..3]) && Denormalized(u, u', 1, d) && AddsBackAt(us, v, 0)
    requires Playable(us, v, 2, false) ==> (u[0..], q[3..]) == PlayAll(us, v, 2, false)
    ensures Num(q[1..]) == Quo(Num(us), Num(v)) <==> HarmlessLoss(us, v)
    ensures a == Num(q[1..]) * b + Num(u'[1..]) && Num(u'[1..]) < b <==> OnlyFirst(us, v)
    ensures Num(u'[1..]) == Rem(a, b) <==> OnlyFirst(us, v)
  {
    hide Num, Exp2, Rem, AddsBackAt, Denormalized, PlayAll, Playable, Missing, Low;
    LiteralEnd(us, v);
    assert u[0..] == u;
    assert q[1..] == q[1..3] + q[3..];
    assert Zeros(q[1..3]) by { assert q[1] == q[..3][1] && q[2] == q[..3][2]; }
    DropZeros(q[1..3], q[3..]);
    MissingIs(us[..4], v);
    QuoRem(a, b);
    if u[1] == BASE - 1 {
      SpoiltResult(b, d, v, u, u', 0, 1, 1);
    } else {
      ShortResult(a, b, d, us, v, u, u', Num(q[3..]), Missing(us[..4], v));
      if OnlyFirst(us, v) {
        DivModUnique(a, b, Num(q[1..]), Num(u'[1..]));
      } else {
        LossShows(us, v);
      }
    }
  }

  /** What is lost is no multiple of the divisor, so a remainder short of it is not the right one. */
  lemma LossShows(us: seq<Digit>, v: seq<Digit>)
    requires TwoRounds(us, v) && v[0] >= BASE / 2 && Missing(us[..4], v) > 0
    ensures forall k: nat :: Missing(us[..4], v) * BASE != Mul(k, Num(v))
  {
    hide Num, Low;
    ThreeDigits(v);
    forall k: nat
      ensures Missing(us[..4], v) * BASE != Mul(k, Num(v))
    {
      NoMultiple(v[0], v[1], v[2], Carry(Low(us[..4], v)[1], v[1]), Carry(Low(us[..4], v)[2], v[2]), k);
    }
  }

  lemma NoMultiple(v0: Digit, v1: Digit, v2: Digit, c1: nat, c2: nat, k: nat)
    requires v0 >= BASE / 2 && c1 <= 1 && c2 <= 1 && c1 + c2 > 0
    requires (c1 == 1 ==> v1 > 0) && (c2 == 1 ==> v2 > 0)
    ensures c2 * (BASE * BASE) + c1 * (BASE * BASE * BASE) != Mul(k, (v0 * BASE + v1) * BASE + v2)
  {
    var v := (v0 * BASE + v1) * BASE + v2;
    if k >= 3 {
      MulMono(v, 3, k);
    }
  }

  lemma MissingIs(w: seq<Digit>, v: seq<Digit>)
    requires |w| == 4 && |v| == 3 && v[0] > 0
    ensures Missing(w, v) == 0 <==> Carry(Low(w, v)[1], v[1]) == 0 && Carry(Low(w, v)[2], v[2]) == 0
  {}

  /** The remainder is short of the carries lost. */
  lemma ShortResult(a: nat, b: nat, d: nat, us: seq<Digit>, v: seq<Digit>, u: seq<Digit>, u': seq<Digit>, q: nat, lost: nat)
    requires d < 32 && a * Exp2(d) == Num(us) && b * Exp2(d) == Num(v)
    requires |u| == |u'| == 5 && u[1] == 0 && Denormalized(u, u', 1, d)
    requires Num(u[2..]) < Num(v) && q * Num(v) + Num(u[2..]) + lost * BASE == Num(us)
    ensures Num(u'[1..]) < b && (a == q * b + Num(u'[1..]) <==> lost == 0)
    ensures Num(u'[1..]) == Rem(a, b) ==> exists k: nat :: lost * BASE == Mul(k, Num(v))
  {
    hide Num, Shr, Exp2, Pow, Rem, Mul;
    var e, f := Exp2(d), Exp2(32 - d);
    Complements(d);
    var r := UnshiftShort(a, b, e, f, q, Num(u[2..]), lost);
    assert Num(u'[2..]) == r by {
      if d > 0 { ShrExact(u[2..], d, r); } else { Exp2Zero(); }
    }
    assert Num(u'[1..]) == r by {
      assert u'[1..] == [0] + u'[2..];
      NumCons(0, u'[2..]);
    }
    if lost > 0 { MulMono(f, 1, lost); }
    if r == Rem(a, b) {
      var k := LossIsMultiple(a, b, e, f, q, r, lost);
      assert lost * BASE == Mul(k, Num(v));
    }
  }

  /** If the remainder is right although something is lost, then that is a multiple of the divisor. */
  lemma LossIsMultiple(a: nat, b: nat, e: nat, f: nat, q: nat, r: nat, lost: nat) returns (k: nat)
    requires b > 0 && e * f == BASE && a == q * b + r + lost * f && r == Rem(a, b)
    ensures lost * BASE == Mul(k, b * e)
  {
    hide Rem;
    QuoRem(a, b);
    var x := Quo(a, b) - q;
    assert x * b == lost * f;
    if x < 0 { MulMono(b, x, -1); }
    k := x;
    assert lost * BASE == (lost * f) * e by { MulAssoc(lost, f, e); }
    MulAssoc(x, b, e);
  }

  lemma Complements(d: nat)
    requires d < 32
    ensures Exp2(d) > 0 && Exp2(32 - d) > 0 && Exp2(d) * Exp2(32 - d) == BASE
  {
    hide Exp2;
    if d > 0 { TwoParts(d); } else { Exp32(); Exp2Zero(); }
  }

  lemma UnshiftShort(a: nat, b: nat, e: nat, f: nat, q: nat, r: nat, lost: nat) returns (x: nat)
    requires e > 0 && f > 0 && e * f == BASE
    requires q * (b * e) + r + lost * BASE == a * e && r < b * e
    ensures r == x * e && x < b && a == q * b + x + lost * f
  {
    var y := a - q * b - lost * f;
    assert q * (b * e) == (q * b) * e && lost * BASE == (lost * f) * e by { MulAssoc(lost, f, e); MulAssoc(q, b, e); }
    assert r == y * e;
    if y < 0 { MulMono(e, y, -1); }
    if y >= b { MulMono(e, b, y); }
    x := y;
  }

  lemma ShownLeftover(a: nat, b: nat, d: nat, us: seq<Digit>, v: seq<Digit>,
                      u: seq<Digit>, u': seq<Digit>, uo: nat, lo: nat, f: nat)
    requires Prepared(a, b, d, us, v) && b <= a && d < 32
    requires |u| == |u'| == 5 && 2 <= |v| == 4 - lo && |us| == 5 - uo && uo + f <= lo
    requires d == 0 ==> us[0] == 0 && v[0] >= BASE / 2
    requires AddsBackAt(us, v, f) && u[uo + f] == BASE - 1 && Denormalized(u, u', lo, d)
    requires f > 0 || uo > 0 || lo == 0
    ensures Num(u'[1..]) >= b
  {
    hide Num, AddsBackAt, Denormalized;
    if uo + f == 0 && d == 0 && lo == 0 {
      assert Exp2(0) == 1;
      UnshiftedSingleRound(us, v);
    }
    SpoiltResult(b, d, v, u, u', uo, lo, f);
  }

  /** C's qspace, with zeros below the quotient's first digit. */
  method ZeroQuotient(k: nat) returns (q: array<Digit>)
    requires k <= 5
    ensures fresh(q) && q.Length == 5 && Zeros(q[..k])
  {
    q := new Digit[5];
    var i := k;
    while i > 0
      invariant 0 <= i <= k && forall j :: i <= j < k ==> q[j] == 0
    {
      i := i - 1;
      q[i] := 0;
    }
  }

  lemma OneDigit(t: nat)
    requires 0 < t < BASE
    ensures SigDigits(t) == 1
  {
    assert t / BASE == 0;
  }

  /** The first pointer loop of divmod: n is the number of significant digits of v[1..4], and
      for n >= 2 they start at v[vo + 1]. */
  method SkipDivisorZeros(v: array<Digit>) returns (n: nat, vo: nat)
    requires v.Length == 5 && Num(v[1..]) > 0
    ensures 1 <= n <= 4
    ensures n == 1 ==> v[4] == Num(v[1..])
    ensures n >= 2 ==> n + vo == 4 && v[vo + 1] != 0 && Num(v[vo + 1..]) == Num(v[1..])
  {
    hide Num;
    n, vo := 4, 0;
    while v[vo + 1] == 0
      invariant n >= 2 && n + vo == 4 && Num(v[vo + 1..]) == Num(v[1..])
      decreases n
    {
      StripZero(v[vo + 1..]);
      assert v[vo + 1..][1..] == v[vo + 2..];
      n := n - 1;
      if n == 1 {
        assert v[4..] == [v[4]];
        NumSingle(v[4]);
        return;
      }
      vo := vo + 1;
    }
  }

  /** The second pointer loop: skips the leading zeros of u, which has no fewer digits than v. */
  method SkipDividendZeros(u: array<Digit>, n: nat, ghost y: seq<Digit>) returns (m: nat, uo: nat)
    requires u.Length == 5 && u[0] == 0 && 2 <= n <= 4
    requires |y| == n && y[0] != 0 && Num(y) <= Num(u[1..])
    ensures uo + m + n == 4 && u[uo + 1] != 0 && Zeros(u[..uo + 1]) && Num(u[uo..]) == Num(u[1..])
  {
    hide Num;
    m, uo := 4 - n, 0;
    assert u[0..][1..] == u[1..];
    StripZero(u[0..]);
    while u[uo + 1] == 0
      invariant uo + m + n == 4
      invariant Zeros(u[..uo + 1]) && Num(u[uo..]) == Num(u[1..])
      decreases m
    {
      StripZero(u[uo..]);
      assert u[uo..][1..] == u[uo + 1..];
      if m == 0 {
        StripZero(u[uo + 1..]);
        assert u[uo + 1..][1..] == u[uo + 2..];
        ShorterIsLess(u[uo + 2..], y);
      }
      m := m - 1;
      uo := uo + 1;
    }
  }

  /** Quotient and remainder, or None for C's internal error on division by zero. The add-back
      sums are taken as hugeint.c:474 writes them, or (wide) at the width of the accumulator. */
  method Divmod(a: Huge, b: Huge, wide: bool) returns (res: Option<(Huge, Huge)>)
    ensures res.None? <==> Val(b) == 0
    ensures res.Some? ==> Divides(Val(a), Val(b), wide, res.value.0, res.value.1)
  {
    hide Num, Divides, SigDigits, Zeros;
    if b.hi == 0 && b.lo == 0 {
      return None;
    }
    if a.hi < b.hi || (a.hi == b.hi && a.lo < b.lo) {
      WithoutRounds(Val(a), Val(b), wide, Huge(0, 0), a);
      return Some((Huge(0, 0), a));
    }
    var u := Load(a);
    var v := Load(b);
    var n, vo := SkipDivisorZeros(v);
    if n == 1 {
      OneDigit(v[4]);
      var q, r := ShortDivide(u, v[4]);
      WithoutRounds(Val(a), Val(b), wide, q, r);
      return Some((q, r));
    }
    var m, uo := SkipDividendZeros(u, n, v[vo + 1..]);
    var q, r := LongDivide(u, uo, v, vo, m, n, wide);
    return Some((q, r));
  }

  lemma StripZero(s: seq<Digit>)
    requires s != [] && s[0] == 0
    ensures Num(s) == Num(s[1..])
  {
    SplitFirst(s);
  }

  lemma ShorterIsLess(x: seq<Digit>, y: seq<Digit>)
    requires |x| < |y| && y[0] != 0
    ensures Num(x) < Num(y)
  {
    NumBound(x);
    PowMono(|x|, |y| - 1);
    LeadingDigit(y);
    MulMono(Pow(|y| - 1), 1, y[0]);
  }

  // ----- an operand pair on which the add-back as written fails -----

  const DIVIDEND: nat := BASE * BASE * BASE
  const DIVISOR: nat := 0x8000_0000 * BASE * BASE + 1

  lemma ExampleDigits()
    ensures Num([1, 0, 0, 0]) == DIVIDEND && Num([0, 1, 0, 0, 0]) == DIVIDEND
    ensures Num([0x8000_0000, 0, 1]) == DIVISOR
    ensures Num([0, 1, 0, 0]) == BASE * BASE && Num([0, 1, 0]) == BASE
  {
    hide Num;
    assert [1, 0, 0, 0] == [1] + [0] + [0] + [0];
    assert [0, 1, 0] == [0] + [1] + [0];
    assert [0, 1, 0, 0] == [0, 1, 0] + [0];
    assert [0, 1, 0, 0, 0] == [0, 1, 0, 0] + [0];
    assert [0x8000_0000, 0, 1] == [0x8000_0000] + [0] + [1];
    NumSingle(1);
    NumSingle(0);
    NumSingle(0x8000_0000);
    NumSnoc([1], 0);
    NumSnoc([1] + [0], 0);
    NumSnoc([1] + [0] + [0], 0);
    NumSnoc([0], 1);
    NumSnoc([0] + [1], 0);
    NumSnoc([0, 1, 0], 0);
    NumSnoc([0, 1, 0, 0], 0);
    NumSnoc([0x8000_0000], 0);
    NumSnoc([0x8000_0000] + [0], 1);
  }

  /** 2^96 divided by 2^95 + 1: round 1 tries the digit 2 where 1 is right, and what the add-back as
      written leaves behind makes the remainder too large. */
  lemma AddBackExample()
    ensures AddsBack(DIVIDEND, DIVISOR) && AddsBackFirstIn(DIVIDEND, DIVISOR, 1)
    ensures !Survives(DIVIDEND, DIVISOR) && QuotientSurvives(DIVIDEND, DIVISOR)
  {
    hide Num, OfNum, WindowTrial;
    ExampleDigits();
    var us: seq<Digit>, v: seq<Digit> := [0, 1, 0, 0, 0], [0x8000_0000, 0, 1];
    SigDigitsOf([1, 0, 0, 0]);
    SigDigitsOf(v);
    LeadingDigitOfNum(v);
    assert Headroom(0x8000_0000) == 0 && Exp2(0) == 1;
    OfNumOfNum(us);
    OfNumOfNum(v);
    assert us[..3] == [0, 1, 0] && us[..4] == [0, 1, 0, 0];
    DivModUnique(BASE, DIVISOR, 0, BASE);
    DivModUnique(BASE * BASE, DIVISOR, 0, BASE * BASE);
    OfNumOfNum([0, 1, 0, 0]);
    OfNumOfNum([1, 0, 0, 0]);
    ExampleTrials();
    DivModUnique(DIVIDEND, DIVISOR, 1, DIVIDEND - DIVISOR);
    assert !AddsBackAt(us, v, 0);
    assert AddsBackAt(us, v, 1);
    assert !OnlyFirst(us, v) && AllButLast(us, v);
  }

  lemma ExampleTrials()
    ensures WindowTrial([0, 1, 0, 0], [0x8000_0000, 0, 1]) == 0
    ensures WindowTrial([1, 0, 0, 0], [0x8000_0000, 0, 1]) == 2
  {
    assert 1 / 0x8000_0000 == 0 && 1 % 0x8000_0000 == 1;
    assert BASE / 0x8000_0000 == 2 && BASE % 0x8000_0000 == 0;
  }

  // ----- and one on which it does no harm -----

  const LUCKY_DIVIDEND: nat := 0xC000_0000 * BASE * BASE * BASE
  const LUCKY_DIVISOR: nat := 0x4000_0000 * BASE * BASE + 5

  lemma LuckyDigits()
    ensures Num([0xC000_0000, 0, 0, 0]) == LUCKY_DIVIDEND && Num([0x4000_0000, 0, 5]) == LUCKY_DIVISOR
    ensures Num([1, 0x8000_0000, 0, 0, 0]) == 2 * LUCKY_DIVIDEND && Num([0x8000_0000, 0, 10]) == 2 * LUCKY_DIVISOR
    ensures Num([1, 0x8000_0000, 0, 0]) == 3 * 0x8000_0000 * BASE * BASE
    ensures Num([0x7fff_ffff, 0xffff_ffff, 0xffff_ffec, 0]) == (0x8000_0000 * BASE * BASE - 20) * BASE
  {
    hide Num;
    Num4([0xC000_0000, 0, 0, 0]);
    Num4([1, 0x8000_0000, 0, 0]);
    Num4([0x7fff_ffff, 0xffff_ffff, 0xffff_ffec, 0]);
    ThreeDigits([0x4000_0000, 0, 5]);
    ThreeDigits([0x8000_0000, 0, 10]);
    assert [1, 0x8000_0000, 0, 0, 0] == [1, 0x8000_0000, 0, 0] + [0];
    NumSnoc([1, 0x8000_0000, 0, 0], 0);
  }

  lemma LuckyTrials()
    ensures WindowTrial([1, 0x8000_0000, 0, 0], [0x8000_0000, 0, 10]) == 3
    ensures WindowTrial([0x7fff_ffff, 0xffff_ffff, 0xffff_ffec, 0], [0x8000_0000, 0, 10]) == BASE - 1
  {
    assert (1 * BASE + 0x8000_0000) / 0x8000_0000 == 3 && (1 * BASE + 0x8000_0000) % 0x8000_0000 == 0;
    assert (0x7fff_ffff * BASE + 0xffff_ffff) / 0x8000_0000 == BASE - 1;
  }

  lemma LuckySteps()
    ensures SubStep(0, 10, 3, 0) == (0xffff_ffe2, 1) && SubStep(0, 0, 3, 1) == (0xffff_ffff, 1)
    ensures SubStep(0x8000_0000, 0x8000_0000, 3, 1).0 == 0xffff_ffff
  {}

  lemma SubNone(k: nat)
    requires k < BASE
    ensures Sub([], [], k) == ([], 0)
  {}

  lemma SubCons(x: Digit, xs: seq<Digit>, y: Digit, ys: seq<Digit>, k: nat)
    requires |xs| == |ys|
    ensures Sub([x] + xs, [y] + ys, k)
            == (var (rest, t) := Sub(xs, ys, k);
                var (d, t') := SubStep(x, y, k, t);
                ([d] + rest, t'))
  {
    assert ([x] + xs)[1..] == xs && ([y] + ys)[1..] == ys;
  }

  /** Three times the divisor is taken from the first window: the digits left. */
  lemma LuckyDifference()
    ensures Sub([0x8000_0000, 0, 0], [0x8000_0000, 0, 10], 3).0 == [0xffff_ffff, 0xffff_ffff, 0xffff_ffe2]
  {
    hide SubStep, Sub;
    LuckySteps();
    var o1: seq<Digit>, v1: seq<Digit> := [0], [10];
    var o2, v2 := [0] + o1, [0] + v1;
    SubNone(3);
    SubCons(0, [], 10, [], 3);
    assert o1 == [0] + [] && v1 == [10] + [];
    assert Sub([0] + [], [10] + [], 3) == ([0xffff_ffe2] + [], 1);
    assert [0xffff_ffe2] + [] == [0xffff_ffe2];
    assert Sub(o1, v1, 3) == ([0xffff_ffe2], 1);
    SubCons(0, o1, 0, v1, 3);
    assert Sub(o2, v2, 3) == ([0xffff_ffff] + [0xffff_ffe2], 1);
    SubCons(0x8000_0000, o2, 0x8000_0000, v2, 3);
    assert [0x8000_0000] + o2 == [0x8000_0000, 0, 0] && [0x8000_0000] + v2 == [0x8000_0000, 0, 10];
  }

  /** 3 * 2^126 divided by 2^94 + 5 adds back, in round 0 only and without losing a carry: it is right as written. */
  lemma SurvivingExample()
    ensures AddsBack(LUCKY_DIVIDEND, LUCKY_DIVISOR) && Survives(LUCKY_DIVIDEND, LUCKY_DIVISOR)
  {
    hide Num, OfNum, WindowTrial, Sub;
    LuckyDigits();
    LuckyTrials();
    LuckyDifference();
    var us: seq<Digit>, v: seq<Digit> := [1, 0x8000_0000, 0, 0, 0], [0x8000_0000, 0, 10];
    SigDigitsOf([0xC000_0000, 0, 0, 0]);
    SigDigitsOf([0x4000_0000, 0, 5]);
    LeadingDigitOfNum([0x4000_0000, 0, 5]);
    assert Headroom(0x4000_0000) == 1 && Exp2(1) == 2 by { assert Headroom(0x8000_0000) == 0; assert Exp2(0) == 1; }
    OfNumOfNum(us);
    OfNumOfNum(v);
    assert us[..4] == [1, 0x8000_0000, 0, 0] && us[..4][1..] == [0x8000_0000, 0, 0];
    assert us[..3] == [1, 0x8000_0000, 0];
    ThreeDigits(us[..3]);
    assert TwoRounds(us, v);
    DivModUnique(Num(us[..4]), Num(v), 2, 0x8000_0000 * BASE * BASE - 20);
    FirstWindow(us, v);
    assert AddsBackAt(us, v, 0);
    TrueIs(us, v);
    var w: seq<Digit> := [0x7fff_ffff, 0xffff_ffff, 0xffff_ffec, 0];
    assert TrueWindow(us, v, 1) == Num(w);
    OfNumOfNum(w);
    DivModUnique(Num(w), Num(v), BASE - 1, Num(w) - (BASE - 1) * Num(v));
    assert !AddsBackAt(us, v, 1);
    assert OnlyFirst(us, v);
  }
}
