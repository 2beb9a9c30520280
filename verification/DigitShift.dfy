/** The digit shifts of hugeint.c around its main loop. */
module DigitShift {
  import opened Bits
  import opened Digits
  import opened Nonlinear

  // shift counts with which both `x << sh` and `x >> (32 - sh)` are defined
  type Shift = sh: nat | 0 < sh < 32 witness 1

  lemma Exp32()
    ensures Exp2(32) == BASE
  {
    assert Exp2(8) == 256;
    Exp2Add(8, 8);
    Exp2Add(16, 16);
  }

  lemma TwoParts(sh: Shift)
    ensures Exp2(sh) * Exp2(32 - sh) == BASE && 1 < Exp2(sh) && 1 < Exp2(32 - sh)
  {
    Exp2Add(sh, 32 - sh);
    Exp32();
  }

  /** `x << sh | y >> (32 - sh)`, cut to 32 bits. */
  function ShlDigit(x: Digit, y: Digit, sh: Shift): nat {
    BitOr(Mul(x, Exp2(sh)) % BASE, Quo(y, Exp2(32 - sh)))
  }

  lemma ShlDigitValue(x: Digit, y: Digit, sh: Shift)
    ensures ShlDigit(x, y, sh) == x * Exp2(sh) % BASE + y * Exp2(sh) / BASE < BASE
  {
    hide Exp2, BitOr;
    TwoParts(sh);
    JoinParts(x, y, Exp2(sh), Exp2(32 - sh));
    OrIsSum(Rem(x, Exp2(32 - sh)), Quo(y, Exp2(32 - sh)), sh);
  }

  /** What the two halves of a shifted digit are, for e * f == BASE. */
  lemma JoinParts(x: Digit, y: Digit, e: nat, f: nat)
    requires e > 0 && f > 0 && e * f == BASE
    ensures Mul(x, e) % BASE == x * e % BASE == Rem(x, f) * e
    ensures Quo(y, f) == y * e / BASE < e
    ensures Rem(x, f) * e + Quo(y, f) < BASE
  {
    Scale(x, e, f);
    Scale(y, e, f);
    var l := Rem(x, f);
    MulMono(e, l, f - 1);
    assert e * (f - 1) == BASE - e;
  }

  /** x * e split at the digit boundary e * f. */
  lemma Scale(x: Digit, e: nat, f: nat)
    requires e > 0 && f > 0 && e * f == BASE
    ensures x * e / BASE == x / f && x * e % BASE == x % f * e && x / f < e
  {
    var h, l := x / f, x % f;
    assert x == h * f + l;
    assert x * e == h * BASE + l * e by {
      assert (h * f) * e == h * (e * f);
    }
    MulMono(e, l, f - 1);
    assert 0 <= l * e < BASE;
    if h >= e { MulMono(f, e, h); }
  }

  ghost function Shl(x: seq<Digit>, sh: Shift): (r: seq<Digit>)
    ensures |r| == |x|
  {
    if x == [] then [] else
      ShlDigitValue(x[0], if |x| == 1 then 0 else x[1], sh);
      [ShlDigit(x[0], if |x| == 1 then 0 else x[1], sh)] + Shl(x[1..], sh)
  }

  /** The digits shifted left are the number times 2^sh, less what leaves at the top. */
  lemma {:induction false} ShlValue(x: seq<Digit>, sh: Shift)
    requires x != []
    ensures Num(Shl(x, sh)) + x[0] * Exp2(sh) / BASE * Pow(|x|) == Num(x) * Exp2(sh)
  {
    hide ShlDigit, Exp2;
    var e, p := Exp2(sh), Pow(|x| - 1);
    var y := if |x| == 1 then 0 else x[1];
    ShlDigitValue(x[0], y, sh);
    var r := Shl(x, sh);
    assert r == [r[0]] + Shl(x[1..], sh) && x == [x[0]] + x[1..];
    NumCons(r[0], Shl(x[1..], sh));
    NumCons(x[0], x[1..]);
    if |x| == 1 {
      assert x[1..] == [];
    } else {
      ShlValue(x[1..], sh);
    }
    Telescope(x[0], e, y, p, Num(x[1..]), Num(Shl(x[1..], sh)));
  }

  lemma Telescope(x: nat, e: nat, y: nat, p: nat, rest: nat, shifted: nat)
    requires shifted + y * e / BASE * p == rest * e
    ensures (x * e % BASE + y * e / BASE) * p + shifted + x * e / BASE * (BASE * p) == (x * p + rest) * e
  {
    var lo, hi, c := x * e % BASE, x * e / BASE, y * e / BASE;
    assert x * e == hi * BASE + lo;
    assert (lo + c) * p == lo * p + c * p;
    assert hi * (BASE * p) == (hi * BASE) * p;
    assert (lo + hi * BASE) * p == (x * e) * p == (x * p) * e;
  }

  /** hugeint.c's shift_digits: the digits p[o..o+len] times 2^sh, in place. */
  method ShiftDigits(p: array<Digit>, o: nat, len: nat, sh: Shift)
    requires o + len < p.Length
    modifies p
    ensures forall k :: 0 <= k < p.Length && (k < o || k > o + len) ==> p[k] == old(p[k])
    ensures p[o..o + len + 1] == Shl(old(p[o..o + len + 1]), sh)
  {
    hide ShlDigit;
    ghost var x := p[o..o + len + 1];
    var i := 0;
    while i < len
      invariant 0 <= i <= len
      invariant forall k :: 0 <= k < p.Length && (k < o + i || k > o + len) ==>
                  p[k] == if o <= k <= o + len then Shl(x, sh)[k - o] else old(p[k])
      invariant forall k :: o + i <= k <= o + len ==> p[k] == x[k - o]
    {
      ShlAt(x, sh, i);
      ShlDigitValue(p[o + i], p[o + i + 1], sh);
      p[o + i] := ShlDigit(p[o + i], p[o + i + 1], sh);
      i := i + 1;
    }
    ShlAt(x, sh, len);
    ShlDigitValue(p[o + len], 0, sh);
    p[o + len] := ShlDigit(p[o + len], 0, sh);
    assert p[o..o + len + 1] == Shl(x, sh);
  }

  lemma {:induction false} ShlAt(x: seq<Digit>, sh: Shift, i: nat)
    requires i < |x|
    ensures Shl(x, sh)[i] == ShlDigit(x[i], if i + 1 < |x| then x[i + 1] else 0, sh)
  {
    if i > 0 {
      ShlAt(x[1..], sh, i - 1);
    }
  }

  // ----- shifting back -----

  /** `y >> d | x << (32 - d)`, cut to 32 bits: digit y shifted right, with x the digit above it. */
  function ShrDigit(x: Digit, y: Digit, d: Shift): nat {
    BitOr(Mul(x, Exp2(32 - d)) % BASE, Quo(y, Exp2(d)))
  }

  lemma ShrDigitValue(x: Digit, y: Digit, d: Shift)
    ensures ShrDigit(x, y, d) < BASE
    ensures ShrDigit(x, y, d) * Exp2(d) == y - y % Exp2(d) + x % Exp2(d) * BASE
  {
    hide Exp2, BitOr;
    var e, f := Exp2(d), Exp2(32 - d);
    TwoParts(d);
    JoinParts(x, y, f, e);
    OrIsSum(Rem(x, e), Quo(y, e), 32 - d);
    Unscale(Rem(x, e), y, e, f);
  }

  lemma Unscale(h: nat, y: nat, e: nat, f: nat)
    requires e > 0 && e * f == BASE
    ensures (h * f + Quo(y, e)) * e == y - y % e + h * BASE
  {
    var l := y / e;
    assert y == l * e + y % e;
    assert (h * f + l) * e == h * (e * f) + l * e;
  }

  /** The digits x shifted right by d under the digit c. */
  ghost function Shr(c: Digit, x: seq<Digit>, d: Shift): (r: seq<Digit>)
    ensures |r| == |x|
    decreases x
  {
    if x == [] then [] else
      ShrDigitValue(c, x[0], d);
      [ShrDigit(c, x[0], d)] + Shr(x[0], x[1..], d)
  }

  ghost function Last(c: Digit, x: seq<Digit>): Digit {
    if x == [] then c else x[|x| - 1]
  }

  lemma {:induction false} ShrValue(c: Digit, x: seq<Digit>, d: Shift)
    ensures Num(Shr(c, x, d)) * Exp2(d) == Num(x) + c % Exp2(d) * Pow(|x|) - Last(c, x) % Exp2(d)
    decreases x
  {
    hide ShrDigit, Exp2;
    if x != [] {
      var e, p := Exp2(d), Pow(|x| - 1);
      ShrDigitValue(c, x[0], d);
      ShrValue(x[0], x[1..], d);
      var rest := Shr(x[0], x[1..], d);
      var r := ShrDigit(c, x[0], d);
      assert Shr(c, x, d) == [r] + rest && x == [x[0]] + x[1..];
      NumCons(r, rest);
      NumCons(x[0], x[1..]);
      assert Last(c, x) == Last(x[0], x[1..]);
      TelescopeBack(r, e, x[0], x[0] % e, c % e, p, Num(rest), Num(x[1..]), Last(c, x) % e);
    }
  }

  lemma TelescopeBack(r: int, e: int, x: int, xr: int, cr: int, p: int, rest: int, nx: int, last: int)
    requires r * e == x - xr + cr * BASE
    requires rest * e == nx + xr * p - last
    ensures (r * p + rest) * e == x * p + nx + cr * (BASE * p) - last
  {
    assert (r * p) * e == (r * e) * p;
    assert (x - xr + cr * BASE) * p == x * p - xr * p + cr * (BASE * p);
  }

  lemma {:induction false} ShrAt(c: Digit, x: seq<Digit>, d: Shift, i: nat)
    requires i < |x|
    ensures Shr(c, x, d)[i] == ShrDigit(if i == 0 then c else x[i - 1], x[i], d)
    decreases x
  {
    if i > 0 {
      ShrAt(x[0], x[1..], d, i - 1);
    }
  }

  /** The denormalising loop: u[lo+1..lo+n] shifted right by d under u[lo], which is cleared. */
  method Denormalize(u: array<Digit>, lo: nat, n: nat, d: Shift)
    requires lo + n < u.Length
    modifies u
    ensures forall k :: 0 <= k < u.Length && (k < lo || k > lo + n) ==> u[k] == old(u[k])
    ensures u[lo] == 0 && u[lo + 1..lo + n + 1] == Shr(old(u[lo]), old(u[lo + 1..lo + n + 1]), d)
  {
    hide ShrDigit;
    ghost var c, x := u[lo], u[lo + 1..lo + n + 1];
    var i := n;
    while i > 0
      invariant 0 <= i <= n
      invariant u[lo] == c
      invariant forall k :: 0 <= k < u.Length && (k < lo || k > lo + n) ==> u[k] == old(u[k])
      invariant forall k :: lo < k <= lo + n ==>
                  u[k] == if k <= lo + i then x[k - lo - 1] else Shr(c, x, d)[k - lo - 1]
    {
      ShrAt(c, x, d, i - 1);
      ShrDigitValue(u[lo + i - 1], u[lo + i], d);
      u[lo + i] := ShrDigit(u[lo + i - 1], u[lo + i], d);
      i := i - 1;
    }
    u[lo] := 0;
    forall k | 0 <= k < n
      ensures u[lo + 1..lo + n + 1][k] == Shr(c, x, d)[k]
    {
      assert u[lo + 1 + k] == Shr(c, x, d)[lo + 1 + k - lo - 1];
    }
  }
}
