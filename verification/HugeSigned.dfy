/** Signed division: hneg, hdiv and hmod of hugeint.c. */
module HugeSigned {
  import opened Digits
  import opened Nonlinear
  import opened LongDivision
  import opened HugeInt
  import opened LiteralDivision
  import opened Options

  const MIN: int := -0x8000_0000_0000_0000_0000_0000_0000_0000

  predicate Negative(h: Huge) {
    h.hi >= 0x8000_0000_0000_0000
  }

  /** The value of h in two's complement. */
  function SVal(h: Huge): (v: int)
    ensures MIN <= v < -MIN
    ensures (v < 0) == Negative(h)
  {
    if Negative(h) then Val(h) - RANGE else Val(h)
  }

  function Abs(x: int): nat {
    if x < 0 then -x else x
  }

  /** C's `/` on integers of unbounded width: truncation toward zero. */
  function Truncated(x: int, y: int): int
    requires y != 0
  {
    var q := Abs(x) / Abs(y);
    if (x < 0) == (y < 0) then q else -q
  }

  /** Two's complement negation, with the borrow into the high word as hugeint.c writes it. */
  method Hneg(a: Huge) returns (r: Huge)
    ensures Val(r) == (RANGE - Val(a)) % RANGE
    ensures SVal(a) == MIN ==> r == a
    ensures SVal(a) != MIN ==> SVal(r) == -SVal(a)
  {
    var hi: int, lo: int := a.hi, a.lo;
    r := Huge((if lo != 0 then -hi - 1 else -hi) % WORD, -lo % WORD);
    NegatedWords(a, r);
  }

  lemma Complement(x: int)
    requires 0 <= x < WORD
    ensures -x % WORD == if x == 0 then 0 else WORD - x
    ensures (-x - 1) % WORD == WORD - 1 - x
  {}

  lemma NegatedWords(a: Huge, r: Huge)
    requires r.hi == (if a.lo != 0 then -(a.hi as int) - 1 else -(a.hi as int)) % WORD && r.lo == -(a.lo as int) % WORD
    ensures Val(r) == (RANGE - Val(a)) % RANGE
    ensures SVal(a) == MIN ==> r == a
    ensures SVal(a) != MIN ==> SVal(r) == -SVal(a)
  {
    Complement(a.hi);
    Complement(a.lo);
    assert Val(r) == if Val(a) == 0 then 0 else RANGE - Val(a);
  }

  lemma Magnitude(h: Huge, m: Huge)
    requires if Negative(h) then Val(m) == (RANGE - Val(h)) % RANGE else m == h
    ensures Val(m) == Abs(SVal(h))
  {}

  /** The product-free form of truncation: the identity a == q * b + r determines it. */
  lemma TruncatedBy(x: int, y: int, q: int, r: int)
    requires y != 0 && q >= 0 && 0 <= r < Abs(y) && Abs(x) == q * Abs(y) + r
    ensures Truncated(x, y) == if (x < 0) == (y < 0) then q else -q
    ensures x == Truncated(x, y) * y + (if x < 0 then -r else r)
  {
    DivModUnique(Abs(x), Abs(y), q, r);
    var t := Truncated(x, y);
    assert (-q) * y == -(q * y) && q * (-y) == -(q * y);
  }

  /** What hdiv is to give: truncation toward zero, but for the one quotient that does not fit. */
  function Quotient(x: int, y: int): int
    requires y != 0
  {
    if x == MIN && y == -1 then MIN else Truncated(x, y)
  }

  /** Division truncates toward zero if and only if the digits of the quotient come out right. */
  method Hdiv(a: Huge, b: Huge, wide: bool) returns (res: Option<Huge>)
    ensures res.None? <==> SVal(b) == 0
    ensures res.Some? ==> (SVal(res.value) == Quotient(SVal(a), SVal(b))
                           <==> wide || QuotientSurvives(Abs(SVal(a)), Abs(SVal(b))))
  {
    hide Survives, QuotientSurvives, IsDivision, Quotient, Quo;
    var neg := false;
    var x, y := a, b;
    if Negative(a) {
      neg := !neg;
      x := Hneg(a);
    }
    if Negative(b) {
      neg := !neg;
      y := Hneg(b);
    }
    Magnitude(a, x);
    Magnitude(b, y);
    var qr := Divmod(x, y, wide);
    match qr {
      case None => return None;
      case Some(p) =>
        var r := p.0;
        if neg {
          r := Hneg(r);
        }
        SignedQuotient(SVal(a), SVal(b), p.0, r);
        return Some(r);
    }
  }

  /** The signed result is the truncated quotient exactly when the magnitude is the quotient of the magnitudes. */
  lemma SignedQuotient(x: int, y: int, q: Huge, r: Huge)
    requires MIN <= x < -MIN && MIN <= y < -MIN && y != 0
    requires if (x < 0) == (y < 0) then r == q else Val(r) == (RANGE - Val(q)) % RANGE
    ensures SVal(r) == Quotient(x, y) <==> Val(q) == Quo(Abs(x), Abs(y))
  {
    hide Quo, Rem, SVal, Val, Truncated;
    QuoRem(Abs(x), Abs(y));
    QuotientAtMost(Abs(x), Abs(y), Quo(Abs(x), Abs(y)), Rem(Abs(x), Abs(y)));
    TruncatedIs(x, y);
    SignedAs(x, y, Quo(Abs(x), Abs(y)), q, r);
  }

  lemma TruncatedIs(x: int, y: int)
    requires y != 0
    ensures var q: int := Quo(Abs(x), Abs(y)); Truncated(x, y) == if (x < 0) == (y < 0) then q else -q
  {}

  lemma SignedAs(x: int, y: int, t: nat, q: Huge, r: Huge)
    requires MIN <= x < -MIN && MIN <= y < -MIN && y != 0
    requires t <= Abs(x) && (x != 0 ==> (t == Abs(x) <==> Abs(y) == 1))
    requires if (x < 0) == (y < 0) then r == q else Val(r) == (RANGE - Val(q)) % RANGE
    ensures SVal(r) == (if x == MIN && y == -1 then MIN else if (x < 0) == (y < 0) then t else -(t as int))
            <==> Val(q) == t
  {
    SValIs(r);
    hide SVal, Val, Negative;
    assert (RANGE - Val(q)) % RANGE == if Val(q) == 0 then 0 else RANGE - Val(q);
  }

  lemma SValIs(h: Huge)
    ensures SVal(h) == if Val(h) < -MIN then Val(h) else Val(h) - RANGE
  {}

  lemma QuotientAtMost(x: nat, y: nat, q: nat, r: nat)
    requires x == q * y + r && r < y
    ensures q <= x && (x > 0 ==> (q == x <==> y == 1))
  {
    MulMono(q, 1, y);
    if y >= 2 { MulMono(q, 2, y); }
  }

  ghost function Remainder(x: int, y: int): int
    requires y != 0
  {
    x - Truncated(x, y) * y
  }

  /** The remainder completes the division if and only if its digits come out right: with the dividend's sign for a
      positive divisor. For a negative divisor the sign is inverted, so there only an exact division is completed. */
  method Hmod(a: Huge, b: Huge, wide: bool) returns (res: Option<Huge>)
    ensures res.None? <==> SVal(b) == 0
    ensures res.Some? ==> (Completes(SVal(a), SVal(b), SVal(res.value))
                           <==> wide || Survives(Abs(SVal(a)), Abs(SVal(b))))
  {
    hide Survives, QuotientSurvives, Truncated, Remainder, Completes;
    var neg := false;
    var x, y := a, b;
    if Negative(a) {
      neg := !neg;
      x := Hneg(a);
    }
    if Negative(b) {
      neg := !neg;
      y := Hneg(b);
    }
    Magnitude(a, x);
    Magnitude(b, y);
    var qr := Divmod(x, y, wide);
    match qr {
      case None => return None;
      case Some(p) =>
        var r := p.1;
        if neg {
          r := Hneg(r);
        }
        RemainderOf(SVal(a), SVal(b), p.1, r);
        return Some(r);
    }
  }

  ghost predicate Completes(x: int, y: int, r: int)
    requires y != 0
  {
    && Abs(r) < Abs(y)
    && r == (if y > 0 then Remainder(x, y) else -Remainder(x, y))
    && (x == Truncated(x, y) * y + r <==> y > 0 || r == 0)
    && (y > 0 ==> (x >= 0 ==> r >= 0) && (x <= 0 ==> r <= 0))
  }

  /** The signed result completes the division exactly when the magnitude is the remainder of the magnitudes. */
  lemma RemainderOf(x: int, y: int, m: Huge, r: Huge)
    requires MIN <= x < -MIN && MIN <= y < -MIN && y != 0
    requires if (x < 0) == (y < 0) then r == m else Val(r) == (RANGE - Val(m)) % RANGE
    ensures Completes(x, y, SVal(r)) <==> Val(m) == Rem(Abs(x), Abs(y))
  {
    var q := Abs(x) / Abs(y);
    var t: int := Rem(Abs(x), Abs(y));
    QuoRem(Abs(x), Abs(y));
    TruncatedBy(x, y, q, t);
    assert x == 0 ==> t == 0;
    assert (RANGE - Val(m)) % RANGE == if Val(m) == 0 then 0 else RANGE - Val(m);
    assert Remainder(x, y) == if x < 0 then -t else t;
  }
}
