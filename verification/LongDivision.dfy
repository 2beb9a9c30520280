/** The digit loops of divmod in hugeint.c, on digits in base 2^32 and 64-bit accumulators. */
module LongDivision {
  import opened Bits
  import opened Digits
  import opened Nonlinear

  const WORD: int := 0x1_0000_0000_0000_0000

  // ----- trial quotient digit -----

  /** The digit left by the correction loop, started at qhat with remainder rhat. */
  ghost function Corrected(qhat: nat, rhat: nat, u2: Digit, v1: Digit, v2: Digit): nat
    requires v1 > 0
    decreases BASE - rhat
  {
    if rhat >= BASE || v2 * qhat <= rhat * BASE + u2 then qhat
    else Corrected(qhat - 1, rhat + v1, u2, v1, v2)
  }

  /** The trial digit for a window starting u0 u1 u2 and a divisor starting v1 v2. */
  ghost function Trial(u0: Digit, u1: Digit, u2: Digit, v1: Digit, v2: Digit): nat
    requires v1 > 0
  {
    if u0 == v1 then Corrected(BASE - 1, u1 + v1, u2, v1, v2)
    else Corrected((u0 * BASE + u1) / v1, (u0 * BASE + u1) % v1, u2, v1, v2)
  }

  /** What the correction loop keeps: no digit below the true one, and the test's own remainder. */
  ghost predicate Plausible(qhat: nat, rhat: nat, nn: nat, v1: nat, w: nat, d: nat) {
    qhat <= BASE && qhat * v1 + rhat == nn && (d > 0 ==> w / d <= qhat)
  }

  lemma Decrement(qhat: nat, rhat: nat, nn: nat, u2: Digit, v1: Digit, v2: Digit, w: nat, d: nat, p: nat)
    requires v1 > 0 && d > 0 && p > 0
    requires Plausible(qhat, rhat, nn, v1, w, d)
    requires w < (nn * BASE + u2 + 1) * p && (v1 * BASE + v2) * p <= d
    requires v2 * qhat > rhat * BASE + u2
    ensures qhat > 0 && Plausible(qhat - 1, rhat + v1, nn, v1, w, d)
  {
    assert qhat * (v1 * BASE + v2) >= nn * BASE + u2 + 1 by {
      assert qhat * (v1 * BASE + v2) == (qhat * v1) * BASE + v2 * qhat;
    }
    assert qhat * d > w by {
      MulMono(qhat, (v1 * BASE + v2) * p, d);
      MulAssoc(qhat, v1 * BASE + v2, p);
      MulMono(p, nn * BASE + u2 + 1, qhat * (v1 * BASE + v2));
    }
    QuotientBelow(w, d, qhat);
    assert (qhat - 1) * v1 == qhat * v1 - v1;
  }

  lemma QuotientBelow(w: nat, d: nat, q: nat)
    requires d > 0 && q * d > w
    ensures w / d < q
  {
    if w / d >= q {
      MulMono(d, q, w / d);
    }
  }

  lemma QuotientAtLeast(w: nat, d: nat, q: nat)
    requires d > 0 && q * d <= w
    ensures q <= w / d
  {
    if w / d < q {
      MulMono(d, w / d + 1, q);
    }
  }

  /** When the loop stops, the digit is at most one too large. */
  lemma AtMostOneAbove(qhat: nat, rhat: nat, nn: nat, u2: Digit, v1: Digit, v2: Digit, w: nat, d: nat, p: nat)
    requires v1 > 0 && d > 0 && p > 0
    requires Plausible(qhat, rhat, nn, v1, w, d)
    requires (nn * BASE + u2) * p <= w && d < (v1 * BASE + v2 + 1) * p
    requires rhat >= BASE || v2 * qhat <= rhat * BASE + u2
    ensures qhat <= w / d + 1
  {
    var vv := v1 * BASE + v2;
    if rhat >= BASE {
      MulMono(qhat, v2, BASE - 1);
      MulMono(BASE - 1, qhat, BASE);
    }
    assert qhat * vv <= nn * BASE + u2 by {
      assert qhat * vv == (qhat * v1) * BASE + v2 * qhat;
    }
    if qhat > 0 {
      assert (qhat - 1) * d <= w by {
        MulMono(qhat - 1, d, (vv + 1) * p);
        MulAssoc(qhat - 1, vv + 1, p);
        assert (qhat - 1) * (vv + 1) == qhat * vv + (qhat - 1 - vv);
        assert (qhat - 1) * (vv + 1) <= nn * BASE + u2;
        MulMono(p, (qhat - 1) * (vv + 1), nn * BASE + u2);
      }
      QuotientAtLeast(w, d, qhat - 1);
    }
  }

  lemma {:induction false} CorrectedIsClose(qhat: nat, rhat: nat, nn: nat, u2: Digit, v1: Digit, v2: Digit,
                                            w: nat, d: nat, p: nat)
    requires v1 > 0 && d > 0 && p > 0
    requires Plausible(qhat, rhat, nn, v1, w, d)
    requires (nn * BASE + u2) * p <= w < (nn * BASE + u2 + 1) * p
    requires (v1 * BASE + v2) * p <= d < (v1 * BASE + v2 + 1) * p
    ensures w / d <= Corrected(qhat, rhat, u2, v1, v2) <= w / d + 1
    ensures Corrected(qhat, rhat, u2, v1, v2) <= qhat
    decreases BASE - rhat
  {
    if rhat >= BASE || v2 * qhat <= rhat * BASE + u2 {
      AtMostOneAbove(qhat, rhat, nn, u2, v1, v2, w, d, p);
    } else {
      Decrement(qhat, rhat, nn, u2, v1, v2, w, d, p);
      CorrectedIsClose(qhat - 1, rhat + v1, nn, u2, v1, v2, w, d, p);
    }
  }

  /** The test of the loop: the digit times the divisor's two leading digits does not exceed the window's three. */
  lemma {:induction false} CorrectedTest(qhat: nat, rhat: nat, nn: nat, u2: Digit, v1: Digit, v2: Digit)
    requires v1 > 0 && qhat <= BASE && qhat * v1 + rhat == nn
    ensures Corrected(qhat, rhat, u2, v1, v2) * (v1 * BASE + v2) <= nn * BASE + u2
    decreases BASE - rhat
  {
    if rhat >= BASE || v2 * qhat <= rhat * BASE + u2 {
      if rhat >= BASE {
        MulMono(qhat, v2, BASE - 1);
        MulMono(BASE - 1, qhat, BASE);
      }
      assert qhat * (v1 * BASE + v2) == (qhat * v1) * BASE + v2 * qhat;
    } else {
      assert qhat > 0;
      assert (qhat - 1) * v1 == qhat * v1 - v1;
      CorrectedTest(qhat - 1, rhat + v1, nn, u2, v1, v2);
    }
  }

  lemma Two(x: Digit, y: Digit)
    ensures Num([x, y]) == x * BASE + y
  {
    assert [x, y][..1] == [x];
    NumSingle(x);
  }

  lemma Leading3(w: seq<Digit>) returns (hi: nat)
    requires |w| >= 3
    ensures hi == (w[0] * BASE + w[1]) * BASE + w[2]
    ensures hi * Pow(|w| - 3) <= Num(w) < (hi + 1) * Pow(|w| - 3)
  {
    assert w == w[..3] + w[3..];
    NumAppend(w[..3], w[3..]);
    assert w[..3][..2] == w[..2] && w[..2][..1] == w[..1] && w[..1][..0] == [];
    NumBound(w[3..]);
    hi := Num(w[..3]);
    Two(w[0], w[1]);
    assert w[..2] == [w[0], w[1]];
  }

  lemma Leading2(v: seq<Digit>) returns (hi: nat)
    requires |v| >= 2
    ensures hi == v[0] * BASE + v[1]
    ensures hi * Pow(|v| - 2) <= Num(v) < (hi + 1) * Pow(|v| - 2)
  {
    assert v == v[..2] + v[2..];
    NumAppend(v[..2], v[2..]);
    assert v[..2][..1] == v[..1] && v[..1][..0] == [];
    NumBound(v[2..]);
    hi := Num(v[..2]);
    Two(v[0], v[1]);
    assert v[..2] == [v[0], v[1]];
  }

  lemma LeadingDigit(x: seq<Digit>)
    requires |x| >= 1
    ensures x[0] * Pow(|x| - 1) <= Num(x) < (x[0] + 1) * Pow(|x| - 1)
  {
    assert x == [x[0]] + x[1..];
    NumCons(x[0], x[1..]);
    NumBound(x[1..]);
  }

  /** A window and divisor as the main loop meets them: the quotient is one digit. */
  ghost predicate Step(w: seq<Digit>, v: seq<Digit>) {
    |w| == |v| + 1 && |v| >= 2 && v[0] > 0 && Num(w[..|v|]) < Num(v)
  }

  ghost function WindowTrial(w: seq<Digit>, v: seq<Digit>): nat
    requires |w| >= 3 && |v| >= 2 && v[0] > 0
  {
    Trial(w[0], w[1], w[2], v[0], v[1])
  }

  lemma GreaterLeadingDigit(x: seq<Digit>, y: seq<Digit>)
    requires |x| == |y| >= 1 && x[0] > y[0]
    ensures Num(x) > Num(y)
  {
    LeadingDigit(x);
    LeadingDigit(y);
    MulMono(Pow(|x| - 1), y[0] + 1, x[0]);
  }

  lemma StepQuotient(w: seq<Digit>, v: seq<Digit>)
    requires Step(w, v)
    ensures 0 < Num(v) && Num(w) < BASE * Num(v) && Quo(Num(w), Num(v)) < BASE && w[0] <= v[0]
  {
    var x := w[..|v|];
    assert w[..|w| - 1] == x;
    assert Num(w) == Num(x) * BASE + w[|v|];
    if w[0] > v[0] { GreaterLeadingDigit(x, v); }
    var d := Num(v);
    QuotientBelow(Num(w), d, BASE);
  }

  /** The trial digit is never below the true quotient digit and at most one above it. */
  lemma TrialIsClose(w: seq<Digit>, v: seq<Digit>)
    requires Step(w, v)
    ensures Num(v) > 0
    ensures Quo(Num(w), Num(v)) <= WindowTrial(w, v) <= Quo(Num(w), Num(v)) + 1
    ensures WindowTrial(w, v) < BASE
  {
    StepQuotient(w, v);
    var hi := Leading3(w);
    var vv := Leading2(v);
    TrialOnNumbers(w[0], w[1], w[2], v[0], v[1], hi, vv, Num(w), Num(v), Pow(|v| - 2));
  }

  lemma TrialTest(w: seq<Digit>, v: seq<Digit>)
    requires Step(w, v)
    ensures WindowTrial(w, v) * (v[0] * BASE + v[1]) <= (w[0] * BASE + w[1]) * BASE + w[2]
  {
    hide Trial;
    StepQuotient(w, v);
    TestOnNumbers(w[0], w[1], w[2], v[0], v[1]);
  }

  lemma TestOnNumbers(u0: Digit, u1: Digit, u2: Digit, v1: Digit, v2: Digit)
    requires 0 < v1 && u0 <= v1
    ensures Trial(u0, u1, u2, v1, v2) * (v1 * BASE + v2) <= (u0 * BASE + u1) * BASE + u2
  {
    hide Corrected;
    var nn := u0 * BASE + u1;
    if u0 == v1 {
      assert (BASE - 1) * v1 + (u1 + v1) == nn;
      CorrectedTest(BASE - 1, u1 + v1, nn, u2, v1, v2);
    } else {
      MulMono(BASE, u0 + 1, v1);
      QuotientBelow(nn, v1, BASE);
      var q, r := nn / v1, nn % v1;
      assert q * v1 + r == nn;
      CorrectedTest(q, r, nn, u2, v1, v2);
    }
  }

  lemma TrialOnNumbers(u0: Digit, u1: Digit, u2: Digit, v1: Digit, v2: Digit,
                       hi: nat, vv: nat, w: nat, d: nat, p: nat)
    requires 0 < v1 && u0 <= v1 && d > 0 && p > 0 && w / d < BASE
    requires hi == (u0 * BASE + u1) * BASE + u2 && vv == v1 * BASE + v2
    requires hi * p <= w < (hi + 1) * p
    requires vv * p <= d < (vv + 1) * p
    ensures w / d <= Trial(u0, u1, u2, v1, v2) <= w / d + 1
    ensures Trial(u0, u1, u2, v1, v2) < BASE
  {
    var nn := u0 * BASE + u1;
    if u0 == v1 {
      assert (BASE - 1) * v1 + (u1 + v1) == nn;
      CorrectedIsClose(BASE - 1, u1 + v1, nn, u2, v1, v2, w, d, p);
    } else {
      FirstEstimate(nn, u2, v1, v2, w, d, p);
      MulMono(BASE, u0 + 1, v1);
      QuotientBelow(nn, v1, BASE);
      var q, r := nn / v1, nn % v1;
      assert q * v1 + r == nn;
      CorrectedIsClose(q, r, nn, u2, v1, v2, w, d, p);
    }
  }

  lemma FirstEstimate(nn: nat, u2: Digit, v1: Digit, v2: Digit, w: nat, d: nat, p: nat)
    requires v1 > 0 && d > 0 && p > 0
    requires w < (nn * BASE + u2 + 1) * p && (v1 * BASE + v2) * p <= d
    ensures w / d <= nn / v1
  {
    var e := nn / v1 + 1;
    assert nn + 1 <= e * v1 by { assert nn == v1 * (nn / v1) + nn % v1; }
    assert w < e * d by {
      MulMono(p, nn * BASE + u2 + 1, (nn + 1) * BASE);
      MulMono(p * BASE, nn + 1, e * v1);
      assert p * ((nn + 1) * BASE) == (p * BASE) * (nn + 1);
      assert (p * BASE) * (e * v1) == e * ((v1 * BASE) * p);
      MulMono(p, v1 * BASE, v1 * BASE + v2);
      MulMono(e, (v1 * BASE) * p, d);
    }
    QuotientBelow(w, d, e);
  }

  // ----- the loops -----

  /** hugeint.c's trial digit, with the jump into the correction loop for equal leading digits. */
  method Estimate(uj0: Digit, uj1: Digit, uj2: Digit, v1: Digit, v2: Digit) returns (qhat: nat)
    requires v1 > 0
    ensures uj0 <= v1 ==> qhat == Trial(uj0, uj1, uj2, v1, v2)
  {
    var rhat: nat;
    var out := false;
    if uj0 == v1 {
      qhat, rhat := BASE - 1, uj1 + v1;
      out := rhat >= BASE;
    } else {
      var nn := uj0 * BASE + uj1;
      qhat, rhat := nn / v1, nn % v1;
      if uj0 < v1 {
        MulMono(BASE, uj0 + 1, v1);
        QuotientBelow(nn, v1, BASE);
      }
    }
    while !out && (v2 * qhat) % WORD > rhat * BASE + uj2
      invariant out == (rhat >= BASE)
      invariant uj0 <= v1 ==> qhat < BASE
      invariant uj0 <= v1 ==> Corrected(qhat, rhat, uj2, v1, v2) == Trial(uj0, uj1, uj2, v1, v2)
      decreases BASE - rhat
    {
      if qhat < BASE { SmallProduct(v2, qhat); }
      qhat, rhat := qhat - 1, rhat + v1;
      out := rhat >= BASE;
    }
    if qhat < BASE { SmallProduct(v2, qhat); }
  }

  lemma SmallProduct(x: Digit, y: nat)
    requires y < BASE
    ensures 0 <= x * y <= (BASE - 1) * (BASE - 1) < WORD
    ensures (x * y) % WORD == x * y
  {
    MulMono(x, y, BASE - 1);
    MulMono(BASE - 1, x, BASE - 1);
  }

  /** One digit of the multiply-and-subtract, on 64-bit unsigned values: the digit and the borrow. */
  function SubStep(o: Digit, v: Digit, qhat: nat, t: nat): (r: (Digit, nat))
    ensures r.1 < BASE
  {
    var x := (o - v * qhat - t) % WORD;
    (x % BASE, (BASE - x / BASE) % BASE)
  }

  /** The digits of o - qhat * v as the loop computes them, with the borrow out of the top one. */
  ghost function Sub(o: seq<Digit>, v: seq<Digit>, qhat: nat): (r: (seq<Digit>, nat))
    requires |o| == |v|
    ensures |r.0| == |o| && r.1 < BASE
  {
    if o == [] then ([], 0) else
      var (rest, t) := Sub(o[1..], v[1..], qhat);
      var (d, t') := SubStep(o[0], v[0], qhat, t);
      ([d] + rest, t')
  }

  lemma BorrowOut(o: Digit, v: Digit, qhat: nat, t: nat)
    requires qhat < BASE && t < BASE
    ensures var (d, t') := SubStep(o, v, qhat, t); d == o - v * qhat - t + t' * BASE
  {
    SmallProduct(v, qhat);
    BorrowDigits(o - v * qhat - t);
  }

  lemma BorrowDigits(y: int)
    requires -BASE * (BASE - 1) <= y < BASE
    ensures var x := y % WORD; y == x % BASE - (BASE - x / BASE) % BASE * BASE
  {
    var x := y % WORD;
    if y < 0 {
      assert x == y + WORD;
    }
  }

  lemma {:induction false} SubValue(o: seq<Digit>, v: seq<Digit>, qhat: nat)
    requires |o| == |v| && qhat < BASE
    ensures var (r, t) := Sub(o, v, qhat); Num(r) == Num(o) - qhat * Num(v) + t * Pow(|o|)
  {
    hide SubStep;
    if o != [] {
      SubValue(o[1..], v[1..], qhat);
      var (rest, t) := Sub(o[1..], v[1..], qhat);
      var (r, t') := Sub(o, v, qhat);
      BorrowOut(o[0], v[0], qhat, t);
      SplitFirst(r);
      SplitFirst(o);
      SplitFirst(v);
      assert r[1..] == rest;
      Distribute(r[0], o[0], v[0], qhat, t, t', Pow(|o| - 1), Num(rest), Num(o[1..]), Num(v[1..]));
    }
  }

  lemma SplitFirst(s: seq<Digit>)
    requires s != []
    ensures Num(s) == s[0] * Pow(|s| - 1) + Num(s[1..])
  {
    assert s == [s[0]] + s[1..];
    NumCons(s[0], s[1..]);
  }

  lemma Distribute(nd: int, o: int, v: int, qhat: int, t: int, t': int, p: int, nr: int, or: int, vr: int)
    requires nd == o - v * qhat - t + t' * BASE
    requires nr == or - qhat * vr + t * p
    ensures nd * p + nr == o * p + or - qhat * (v * p + vr) + t' * (BASE * p)
  {
    var vq := v * qhat;
    assert nd * p == o * p - vq * p - t * p + (t' * BASE) * p;
    assert vq * p == qhat * (v * p);
    assert qhat * (v * p + vr) == qhat * (v * p) + qhat * vr;
  }

  lemma SubUnfold(o: seq<Digit>, v: seq<Digit>, qhat: nat, i: nat)
    requires |o| == |v| && 0 < i <= |o|
    ensures Sub(o[i - 1..], v[i - 1..], qhat)
            == (var (rest, t) := Sub(o[i..], v[i..], qhat);
                var (d, t') := SubStep(o[i - 1], v[i - 1], qhat, t);
                ([d] + rest, t'))
  {
    assert o[i - 1..][1..] == o[i..] && v[i - 1..][1..] == v[i..];
  }

  /** The digits below the window's top one, u[lo+1..lo+n], less qhat * v; the borrow is left in t. */
  method SubLow(u: array<Digit>, lo: nat, v: array<Digit>, vo: nat, n: nat, qhat: nat) returns (t: nat)
    requires u != v && lo + n < u.Length && vo + n < v.Length
    modifies u
    ensures forall k :: 0 <= k < u.Length && (k <= lo || k > lo + n) ==> u[k] == old(u[k])
    ensures (u[lo + 1..lo + n + 1], t) == Sub(old(u[lo + 1..lo + n + 1]), v[vo + 1..vo + n + 1], qhat)
  {
    hide SubStep;
    t := 0;
    var i := n;
    ghost var o, w, r := u[lo + 1..lo + n + 1], v[vo + 1..vo + n + 1], [];
    while i > 0
      invariant 0 <= i <= n && t < BASE
      invariant (r, t) == Sub(o[i..], w[i..], qhat)
      invariant forall k :: 0 <= k < u.Length && (k <= lo + i || k > lo + n) ==> u[k] == old(u[k])
      invariant forall k :: lo + i < k <= lo + n ==> u[k] == r[k - lo - i - 1]
    {
      SubUnfold(o, w, qhat, i);
      assert u[lo + i] == o[i - 1] && v[vo + i] == w[i - 1];
      var (d, t') := SubStep(u[lo + i], v[vo + i], qhat, t);
      u[lo + i], t := d, t';
      r := [d] + r;
      i := i - 1;
    }
    assert o[0..] == o && w[0..] == w;
    assert u[lo + 1..lo + n + 1] == r;
  }

  /** u[lo..lo+n] := u[lo..lo+n] - qhat * v[vo+1..vo+n], telling whether it became negative. */
  method MulSub(u: array<Digit>, lo: nat, v: array<Digit>, vo: nat, n: nat, qhat: nat) returns (neg: bool)
    requires u != v && lo + n < u.Length && vo + n < v.Length
    modifies u
    ensures forall k :: 0 <= k < u.Length && (k < lo || k > lo + n) ==> u[k] == old(u[k])
    ensures var (r, t) := Sub(old(u[lo + 1..lo + n + 1]), v[vo + 1..vo + n + 1], qhat);
            u[lo + 1..lo + n + 1] == r && u[lo] == (old(u[lo]) - t) % BASE && neg == (old(u[lo]) < t)
  {
    hide Sub;
    var t := SubLow(u, lo, v, vo, n, qhat);
    ghost var r := u[lo + 1..lo + n + 1];
    var x := (u[lo] - t) % WORD;
    u[lo] := x % BASE;
    neg := x / BASE != 0;
    assert u[lo + 1..lo + n + 1] == r;
  }

  /** One digit of the add-back: the digit and the carry. The loop as written adds the two 32-bit digits
      at 32 bits; wide adds them at the width of the accumulator. */
  function AddStep(o: Digit, v: Digit, t: nat, wide: bool): (r: (Digit, nat))
    requires t < BASE
    ensures r.1 < BASE
  {
    var x := (t + if wide then o + v else (o + v) % BASE) % WORD;
    (x % BASE, x / BASE)
  }

  /** The digits of o + v as the add-back loop computes them, with the carry out of the top one. */
  ghost function Add(o: seq<Digit>, v: seq<Digit>, wide: bool): (r: (seq<Digit>, nat))
    requires |o| == |v|
    ensures |r.0| == |o| && r.1 < BASE
  {
    if o == [] then ([], 0) else
      var (rest, t) := Add(o[1..], v[1..], wide);
      var (d, t') := AddStep(o[0], v[0], t, wide);
      ([d] + rest, t')
  }

  lemma CarryOut(o: Digit, v: Digit, t: nat)
    requires t < BASE
    ensures var (d, t') := AddStep(o, v, t, true); d + t' * BASE == o + v + t
  {}

  lemma {:induction false} AddValue(o: seq<Digit>, v: seq<Digit>)
    requires |o| == |v|
    ensures var (r, t) := Add(o, v, true); Num(r) + t * Pow(|o|) == Num(o) + Num(v)
  {
    hide AddStep;
    if o != [] {
      AddValue(o[1..], v[1..]);
      CarryOut(o[0], v[0], Add(o[1..], v[1..], true).1);
      var (rest, t) := Add(o[1..], v[1..], true);
      var (r, t') := Add(o, v, true);
      SplitFirst(r);
      SplitFirst(o);
      SplitFirst(v);
      assert r[1..] == rest;
      AddDistribute(r[0], o[0], v[0], t, t', Pow(|o| - 1), Num(rest), Num(o[1..]), Num(v[1..]));
    }
  }

  lemma AddDistribute(nd: int, o: int, v: int, t: int, t': int, p: int, nr: int, or: int, vr: int)
    requires nd + t' * BASE == o + v + t
    requires nr + t * p == or + vr
    ensures nd * p + nr + t' * (BASE * p) == o * p + or + (v * p + vr)
  {
    assert (nd + t' * BASE) * p == o * p + v * p + t * p;
  }

  /** As written, no carry ever forms. */
  lemma {:induction false} LiteralHasNoCarry(o: seq<Digit>, v: seq<Digit>)
    requires |o| == |v|
    ensures Add(o, v, false).1 == 0
  {
    if o != [] {
      LiteralHasNoCarry(o[1..], v[1..]);
    }
  }

  lemma AddUnfold(o: seq<Digit>, v: seq<Digit>, wide: bool, i: nat)
    requires |o| == |v| && 0 < i <= |o|
    ensures Add(o[i - 1..], v[i - 1..], wide)
            == (var (rest, t) := Add(o[i..], v[i..], wide);
                var (d, t') := AddStep(o[i - 1], v[i - 1], t, wide);
                ([d] + rest, t'))
  {
    assert o[i - 1..][1..] == o[i..] && v[i - 1..][1..] == v[i..];
  }

  /** The digits below the window's top one, u[lo+1..lo+n], plus v; the carry is left in t. */
  method AddLow(u: array<Digit>, lo: nat, v: array<Digit>, vo: nat, n: nat, wide: bool) returns (t: nat)
    requires u != v && lo + n < u.Length && vo + n < v.Length
    modifies u
    ensures forall k :: 0 <= k < u.Length && (k <= lo || k > lo + n) ==> u[k] == old(u[k])
    ensures (u[lo + 1..lo + n + 1], t) == Add(old(u[lo + 1..lo + n + 1]), v[vo + 1..vo + n + 1], wide)
  {
    hide AddStep;
    t := 0;
    var i := n;
    ghost var o, w, r := u[lo + 1..lo + n + 1], v[vo + 1..vo + n + 1], [];
    while i > 0
      invariant 0 <= i <= n && t < BASE
      invariant (r, t) == Add(o[i..], w[i..], wide)
      invariant forall k :: 0 <= k < u.Length && (k <= lo + i || k > lo + n) ==> u[k] == old(u[k])
      invariant forall k :: lo + i < k <= lo + n ==> u[k] == r[k - lo - i - 1]
    {
      AddUnfold(o, w, wide, i);
      assert u[lo + i] == o[i - 1] && v[vo + i] == w[i - 1];
      var (d, t') := AddStep(u[lo + i], v[vo + i], t, wide);
      u[lo + i], t := d, t';
      r := [d] + r;
      i := i - 1;
    }
    assert o[0..] == o && w[0..] == w;
    assert u[lo + 1..lo + n + 1] == r;
  }

  /** u[lo..lo+n] := u[lo..lo+n] + v[vo+1..vo+n]. */
  method AddBack(u: array<Digit>, lo: nat, v: array<Digit>, vo: nat, n: nat, wide: bool)
    requires u != v && lo + n < u.Length && vo + n < v.Length
    modifies u
    ensures forall k :: 0 <= k < u.Length && (k < lo || k > lo + n) ==> u[k] == old(u[k])
    ensures var (r, t) := Add(old(u[lo + 1..lo + n + 1]), v[vo + 1..vo + n + 1], wide);
            u[lo + 1..lo + n + 1] == r && u[lo] == (old(u[lo]) + t) % BASE
  {
    hide Add;
    var t := AddLow(u, lo, v, vo, n, wide);
    ghost var r := u[lo + 1..lo + n + 1];
    u[lo] := (u[lo] + t) % BASE;
    assert u[lo + 1..lo + n + 1] == r;
  }

  // ----- one round of the main loop -----

  /** The window and the quotient digit a round leaves, and whether it entered the add-back branch. */
  datatype Round = Round(window: seq<Digit>, digit: Digit, addedBack: bool)

  ghost function Play(w: seq<Digit>, v: seq<Digit>, qhat: nat, wide: bool): (r: Round)
    requires |w| == |v| + 1
    ensures |r.window| == |w|
  {
    var (low, t) := Sub(w[1..], v, qhat);
    if w[0] < t then
      var (sum, c) := Add(low, v, wide);
      Round([((w[0] - t) % BASE + c) % BASE] + sum, (qhat - 1) % BASE, true)
    else
      Round([w[0] - t] + low, qhat % BASE, false)
  }

  lemma TopDigit(w0: Digit, t: nat, p: nat, low: nat, d: int, v: nat)
    requires low < p && v < p
    requires (w0 - t) * p + low == d && 0 <= d + v && d < v
    ensures (w0 < t) == (d < 0)
    ensures d >= 0 ==> w0 == t && low == d
    ensures d < 0 ==> w0 - t == -1 && low == d + p
  {
    if w0 - t >= 1 { MulMono(p, 1, w0 - t); }
    if w0 - t <= -2 { MulMono(p, w0 - t, -2); }
  }

  lemma RemainderRange(w: nat, v: nat, qhat: nat)
    requires v > 0 && w / v <= qhat <= w / v + 1
    ensures 0 <= w - qhat * v + v && w - qhat * v < v
    ensures qhat > w / v ==> w - qhat * v + v == w % v && w - qhat * v < 0
    ensures qhat == w / v ==> w - qhat * v == w % v
  {
    var q := w / v;
    assert w == v * q + w % v;
    assert v * q == q * v;
    if qhat == q + 1 {
      assert qhat * v == q * v + v;
    }
  }

  /** The multiply-and-subtract under the trial digit: a borrow out exactly when the digit is too large. */
  lemma SubtractTrial(w: seq<Digit>, v: seq<Digit>)
    requires Step(w, v)
    ensures var qhat, rem := WindowTrial(w, v), Rem(Num(w), Num(v));
            var (low, t) := Sub(w[1..], v, qhat);
            && (w[0] < t) == (qhat > Quo(Num(w), Num(v)))
            && (w[0] >= t ==> w[0] == t && Num(low) == rem)
            && (w[0] < t ==> w[0] - t == -1 && rem < Num(v) && Num(low) + Num(v) == rem + Pow(|v|))
  {
    hide WindowTrial, SubStep;
    TrialIsClose(w, v);
    var qhat, n := WindowTrial(w, v), |v|;
    var (low, t) := Sub(w[1..], v, qhat);
    SubValue(w[1..], v, qhat);
    SplitFirst(w);
    NumBound(low);
    NumBound(v);
    assert (w[0] - t) * Pow(n) == w[0] * Pow(n) - t * Pow(n);
    RemainderRange(Num(w), Num(v), qhat);
    TopDigit(w[0], t, Pow(n), Num(low), Num(w) - qhat * Num(v), Num(v));
  }

  /** A round whose add-back is wide, or which does not add back, leaves the true remainder and digit.
      A round that adds back as written leaves BASE - 1 where the true remainder has a zero. */
  lemma RoundIsExact(w: seq<Digit>, v: seq<Digit>, wide: bool)
    requires Step(w, v)
    ensures var r := Play(w, v, WindowTrial(w, v), wide);
      && r.addedBack == (WindowTrial(w, v) > Quo(Num(w), Num(v)))
      && r.digit == Quo(Num(w), Num(v))
      && (wide || !r.addedBack ==> r.window[0] == 0 && Num(r.window[1..]) == Rem(Num(w), Num(v)))
      && (!wide && r.addedBack ==> r.window[0] == BASE - 1)
  {
    hide WindowTrial, Sub, Add, Quo, Rem, Num;
    TrialIsClose(w, v);
    StepQuotient(w, v);
    SubtractTrial(w, v);
    var qhat := WindowTrial(w, v);
    var (low, t) := Sub(w[1..], v, qhat);
    var r := Play(w, v, qhat, wide);
    if w[0] < t {
      AddBackResult(low, v, Rem(Num(w), Num(v)), wide);
      assert r.window[1..] == Add(low, v, wide).0;
    } else {
      assert r.window[1..] == low;
    }
  }

  lemma AddBackResult(low: seq<Digit>, v: seq<Digit>, rem: nat, wide: bool)
    requires |low| == |v| && rem < Num(v) && Num(low) + Num(v) == rem + Pow(|v|)
    ensures var (sum, c) := Add(low, v, wide); if wide then c == 1 && Num(sum) == rem else c == 0
  {
    hide Add;
    var (sum, c) := Add(low, v, wide);
    if wide {
      AddValue(low, v);
      NumBound(sum);
      NumBound(v);
      CarryIsOne(c, Pow(|v|), Num(sum), rem);
    } else {
      LiteralHasNoCarry(low, v);
    }
  }

  lemma CarryIsOne(c: nat, p: nat, sum: nat, rem: nat)
    requires sum < p && rem < p && sum + c * p == rem + p
    ensures c == 1 && sum == rem
  {
    if c == 0 {
    } else if c >= 2 {
      MulMono(p, 2, c);
    }
  }

  /** hugeint.c's loop body for one quotient digit. */
  method PlayRound(u: array<Digit>, lo: nat, v: array<Digit>, vo: nat, n: nat, wide: bool) returns (digit: Digit)
    requires u != v && n >= 2 && lo + n < u.Length && vo + n < v.Length && v[vo + 1] > 0
    modifies u
    ensures forall k :: 0 <= k < u.Length && (k < lo || k > lo + n) ==> u[k] == old(u[k])
    ensures var w, d := old(u[lo..lo + n + 1]), v[vo + 1..vo + n + 1];
            w[0] <= d[0] ==> var r := Play(w, d, WindowTrial(w, d), wide);
                             u[lo..lo + n + 1] == r.window && digit == r.digit
  {
    hide Sub, Add, Trial;
    ghost var w, d := u[lo..lo + n + 1], v[vo + 1..vo + n + 1];
    assert w[1..] == u[lo + 1..lo + n + 1];
    var qhat := Estimate(u[lo], u[lo + 1], u[lo + 2], v[vo + 1], v[vo + 2]);
    var neg := MulSub(u, lo, v, vo, n, qhat);
    ghost var t := Sub(w[1..], d, qhat).1;
    if neg {
      ghost var low := u[lo + 1..lo + n + 1];
      AddBack(u, lo, v, vo, n, wide);
      digit := (qhat - 1) % BASE;
      assert u[lo..lo + n + 1] == [u[lo]] + u[lo + 1..lo + n + 1];
      assert u[lo] == ((w[0] - t) % BASE + Add(low, d, wide).1) % BASE;
    } else {
      digit := qhat % BASE;
      assert u[lo..lo + n + 1] == [u[lo]] + u[lo + 1..lo + n + 1];
    }
  }

  // ----- the main loop -----

  /** What round j of an exact division of us by v divides: the running remainder and the next digit. */
  ghost function TrueWindow(us: seq<Digit>, v: seq<Digit>, j: nat): nat
    requires j + |v| < |us| && Num(v) > 0
  {
    Rem(Num(us[..j + |v|]), Num(v)) * BASE + us[j + |v|]
  }

  /** The guard of the add-back branch in round j, as a property of the operands. */
  ghost predicate AddsBackAt(us: seq<Digit>, v: seq<Digit>, j: nat)
    requires j + |v| < |us| && |v| >= 2 && v[0] > 0 && Num(v) > 0
  {
    WindowTrial(OfNum(TrueWindow(us, v, j), |v| + 1), v) > Quo(TrueWindow(us, v, j), Num(v))
  }

  /** Operands as the main loop meets them. */
  ghost predicate Normal(us: seq<Digit>, v: seq<Digit>) {
    |v| >= 2 && |us| > |v| && v[0] > 0 && Num(v) > 0 && Num(us[..|v|]) < Num(v)
  }

  /** No round before j adds back. */
  ghost predicate NoAddBack(us: seq<Digit>, v: seq<Digit>, j: nat)
    requires Normal(us, v) && j + |v| <= |us|
  {
    forall i :: 0 <= i < j ==> !AddsBackAt(us, v, i)
  }

  ghost predicate Zeros(s: seq<Digit>) {
    forall i :: 0 <= i < |s| ==> s[i] == 0
  }

  /** After j exact rounds: zeros, the running remainder, untouched digits; and the digits of the quotient. */
  ghost predicate Divided(us: seq<Digit>, v: seq<Digit>, j: nat, u: seq<Digit>, q: seq<Digit>)
    requires j + |v| <= |us|
  {
    && |u| == |us| && |q| == j
    && Zeros(u[..j]) && u[j + |v|..] == us[j + |v|..]
    && Num(u[j..j + |v|]) < Num(v)
    && Num(us[..j + |v|]) == Num(q) * Num(v) + Num(u[j..j + |v|])
  }

  lemma DivModUnique(x: nat, d: nat, q: nat, r: nat)
    requires d > 0 && r < d && x == q * d + r
    ensures Quo(x, d) == q && Rem(x, d) == r
  {
    QuotientBelow(x, d, q + 1);
    QuotientAtLeast(x, d, q);
    assert d * (x / d) == q * d;
  }

  lemma DividedStart(us: seq<Digit>, v: seq<Digit>)
    requires Normal(us, v)
    ensures Divided(us, v, 0, us, [])
  {
    assert us[0..0 + |v|] == us[..|v|];
  }

  lemma RunningRemainder(us: seq<Digit>, v: seq<Digit>, j: nat, u: seq<Digit>, q: seq<Digit>)
    requires Normal(us, v) && j + |v| < |us| && Divided(us, v, j, u, q)
    ensures |u| == |us| && u[j + |v|] == us[j + |v|]
    ensures Rem(Num(us[..j + |v|]), Num(v)) == Num(u[j..j + |v|]) < Num(v)
  {
    hide Num, Rem, Quo;
    var n := |v|;
    assert u[j + n] == u[j + n..][0] == us[j + n..][0];
    DivModUnique(Num(us[..j + n]), Num(v), Num(q), Num(u[j..j + n]));
  }

  lemma WindowOfDivided(us: seq<Digit>, v: seq<Digit>, j: nat, u: seq<Digit>, q: seq<Digit>)
    requires Normal(us, v) && j + |v| < |us| && Divided(us, v, j, u, q)
    ensures |u| == |us|
    ensures Step(u[j..j + |v| + 1], v)
    ensures Num(u[j..j + |v| + 1]) == Num(u[j..j + |v|]) * BASE + us[j + |v|] == TrueWindow(us, v, j)
  {
    hide Divided, Num, Rem, Quo;
    RunningRemainder(us, v, j, u, q);
    SnocSlice(u, j, |v|);
    NumSnoc(u[j..j + |v|], us[j + |v|]);
  }

  lemma TrialOfDivided(us: seq<Digit>, v: seq<Digit>, j: nat, u: seq<Digit>, q: seq<Digit>)
    requires Normal(us, v) && j + |v| < |us| && Divided(us, v, j, u, q)
    ensures |u| == |us|
    ensures AddsBackAt(us, v, j)
            == (WindowTrial(u[j..j + |v| + 1], v) > Quo(Num(u[j..j + |v| + 1]), Num(v)))
  {
    hide Divided, Num, Rem, Quo, TrueWindow, WindowTrial, OfNum;
    WindowOfDivided(us, v, j, u, q);
    OfNumOfNum(u[j..j + |v| + 1]);
  }

  lemma ExactRoundValue(us: seq<Digit>, v: seq<Digit>, j: nat, u: seq<Digit>, q: seq<Digit>)
    requires Normal(us, v) && j + |v| < |us| && Divided(us, v, j, u, q)
    ensures |u| == |us|
    ensures var w := Num(u[j..j + |v| + 1]);
      Quo(w, Num(v)) < BASE && Rem(w, Num(v)) < Num(v)
      && Num(us[..j + 1 + |v|]) == Num(q + [Quo(w, Num(v))]) * Num(v) + Rem(w, Num(v))
  {
    hide Num, Rem, Quo;
    var n, w := |v|, u[j..j + |v| + 1];
    WindowOfDivided(us, v, j, u, q);
    StepQuotient(w, v);
    assert us[..j + 1 + n] == us[..j + n] + [us[j + n]];
    NumSnoc(us[..j + n], us[j + n]);
    NumSnoc(q, Quo(Num(w), Num(v)));
    Recombine(Num(us[..j + n]), Num(v), Num(q), Num(u[j..j + n]), us[j + n], Num(w));
  }

  /** An exact round takes Divided from j to j + 1. */
  lemma ExactRound(us: seq<Digit>, v: seq<Digit>, j: nat, u: seq<Digit>, q: seq<Digit>,
                   u': seq<Digit>, digit: Digit)
    requires Normal(us, v) && j + |v| < |us| && Divided(us, v, j, u, q)
    requires |u'| == |u| == |us| && forall k :: 0 <= k < |u| && (k < j || k > j + |v|) ==> u'[k] == u[k]
    requires u'[j] == 0
    requires var w := Num(u[j..j + |v| + 1]);
      digit == Quo(w, Num(v)) && Num(u'[j + 1..j + 1 + |v|]) == Rem(w, Num(v))
    ensures Divided(us, v, j + 1, u', q + [digit])
  {
    hide Num, Rem, Quo;
    ExactRoundValue(us, v, j, u, q);
    ExactRoundShape(us, |v|, j, u, u');
  }

  lemma ExactRoundShape(us: seq<Digit>, n: nat, j: nat, u: seq<Digit>, u': seq<Digit>)
    requires |u'| == |u| == |us| && j + n < |us|
    requires Zeros(u[..j]) && u[j + n..] == us[j + n..]
    requires u'[j] == 0 && forall k :: 0 <= k < |u| && (k < j || k > j + n) ==> u'[k] == u[k]
    ensures Zeros(u'[..j + 1]) && u'[j + 1 + n..] == us[j + 1 + n..]
  {
    assert u'[j + 1 + n..] == u[j + n..][1..];
    assert us[j + 1 + n..] == us[j + n..][1..];
    assert u'[..j + 1] == u[..j] + [0];
  }

  lemma Recombine(x: nat, v: nat, q: nat, r: nat, d: nat, w: nat)
    requires v > 0 && x == q * v + r && w == r * BASE + d
    ensures x * BASE + d == (q * BASE + Quo(w, v)) * v + Rem(w, v) && Rem(w, v) < v
  {
    assert w == v * (w / v) + w % v;
    assert (q * BASE + w / v) * v == (q * v) * BASE + v * (w / v);
  }

  // ----- all rounds as they are played, exact or not -----

  /** The window's digits and the quotient's after k rounds; a round is only defined on a window whose top digit does
      not exceed the divisor's. */
  ghost function PlayAll(us: seq<Digit>, v: seq<Digit>, k: nat, wide: bool): (r: (seq<Digit>, seq<Digit>))
    requires |v| >= 2 && v[0] > 0 && k + |v| <= |us|
    ensures |r.0| == |us| && |r.1| == k
  {
    if k == 0 then (us, []) else
      var (u, q) := PlayAll(us, v, k - 1, wide);
      var r := Play(u[k - 1..k + |v|], v, WindowTrial(u[k - 1..k + |v|], v), wide);
      (u[..k - 1] + r.window + u[k + |v|..], q + [r.digit])
  }

  ghost predicate Playable(us: seq<Digit>, v: seq<Digit>, k: nat, wide: bool)
    requires |v| >= 2 && v[0] > 0 && k + |v| <= |us|
  {
    forall j :: 0 <= j < k ==> PlayAll(us, v, j, wide).0[j] <= v[0]
  }

  lemma PlayedOn(us: seq<Digit>, v: seq<Digit>, j: nat, wide: bool, u: seq<Digit>, q: seq<Digit>,
                 u': seq<Digit>, digit: Digit)
    requires |v| >= 2 && v[0] > 0 && j + |v| < |us| && Playable(us, v, j + 1, wide)
    requires (u, q) == PlayAll(us, v, j, wide)
    requires |u'| == |u| && forall k :: 0 <= k < |u| && (k < j || k > j + |v|) ==> u'[k] == u[k]
    requires var w := u[j..j + |v| + 1];
      w[0] <= v[0] ==> var r := Play(w, v, WindowTrial(w, v), wide);
                       u'[j..j + |v| + 1] == r.window && digit == r.digit
    ensures (u', q + [digit]) == PlayAll(us, v, j + 1, wide)
  {
    hide Play, WindowTrial;
    var w := u[j..j + |v| + 1];
    assert w[0] == u[j];
    assert u' == u'[..j] + u'[j..j + |v| + 1] + u'[j + |v| + 1..];
    assert u'[..j] == u[..j] && u'[j + |v| + 1..] == u[j + |v| + 1..];
  }

  lemma ExactOrNot(us: seq<Digit>, v: seq<Digit>, j: nat, u: seq<Digit>, q: seq<Digit>,
                   u': seq<Digit>, digit: Digit, wide: bool)
    requires Normal(us, v) && j + |v| < |us| && Divided(us, v, j, u, q)
    requires |u'| == |u| && forall k :: 0 <= k < |u| && (k < j || k > j + |v|) ==> u'[k] == u[k]
    requires |u| == |us|
    requires var w := u[j..j + |v| + 1];
      w[0] <= v[0] ==> var r := Play(w, v, WindowTrial(w, v), wide);
                       u'[j..j + |v| + 1] == r.window && digit == r.digit
    ensures wide || !AddsBackAt(us, v, j) ==> Divided(us, v, j + 1, u', q + [digit])
    ensures !wide && AddsBackAt(us, v, j) ==> u'[j] == BASE - 1
    ensures Num(q + [digit]) == Quo(Num(us[..j + 1 + |v|]), Num(v))
  {
    hide Play, WindowTrial, Num, Rem, Quo, Divided, AddsBackAt;
    WindowOfDivided(us, v, j, u, q);
    TrialOfDivided(us, v, j, u, q);
    var w := u[j..j + |v| + 1];
    StepQuotient(w, v);
    RoundIsExact(w, v, wide);
    var r := Play(w, v, WindowTrial(w, v), wide);
    assert u'[j] == r.window[0] by { assert u'[j..j + |v| + 1][0] == u'[j]; }
    assert u'[j + 1..j + 1 + |v|] == r.window[1..];
    ExactRoundValue(us, v, j, u, q);
    DivModUnique(Num(us[..j + 1 + |v|]), Num(v), Num(q + [digit]), Rem(Num(w), Num(v)));
    if wide || !AddsBackAt(us, v, j) {
      ExactRound(us, v, j, u, q, u', digit);
    }
  }

  /** Round j of the main loop, on the digits u[uo..uo+m+n], v[vo+1..vo+n] and q[qo..qo+m]. */
  method RoundAt(u: array<Digit>, uo: nat, v: array<Digit>, vo: nat, q: array<Digit>, qo: nat,
                 m: nat, n: nat, wide: bool, j: nat)
    requires u != v && u != q && v != q && n >= 2 && j <= m
    requires uo + m + n < u.Length && vo + n < v.Length && qo + m < q.Length && v[vo + 1] > 0
    modifies u, q
    ensures forall k :: 0 <= k < u.Length && (k < uo + j || k > uo + j + n) ==> u[k] == old(u[k])
    ensures forall k :: 0 <= k < q.Length && k != qo + j ==> q[k] == old(q[k])
    ensures var b, a, d := old(u[uo..uo + m + n + 1]), u[uo..uo + m + n + 1], v[vo + 1..vo + n + 1];
      && a[j] == u[uo + j]
      && (forall k :: 0 <= k < |b| && (k < j || k > j + n) ==> a[k] == b[k])
      && (var w := b[j..j + n + 1];
          w[0] <= d[0] ==> var r := Play(w, d, WindowTrial(w, d), wide);
                           a[j..j + n + 1] == r.window && q[qo + j] == r.digit)
    ensures q[qo..qo + j + 1] == old(q[qo..qo + j]) + [q[qo + j]]
  {
    hide Play, WindowTrial;
    SubSlice(u[..], uo, uo + m + n + 1, j, j + n + 1);
    var digit := PlayRound(u, uo + j, v, vo, n, wide);
    q[qo + j] := digit;
    SubSlice(u[..], uo, uo + m + n + 1, j, j + n + 1);
  }

  /** What holds after j rounds: u and q are the window's and the quotient's digits, and dirty says that round f was
      the first to add back as written. */
  ghost predicate Ongoing(us: seq<Digit>, v: seq<Digit>, j: nat, u: seq<Digit>, q: seq<Digit>, dirty: bool, f: nat,
                          wide: bool)
    requires Normal(us, v) && j + |v| <= |us|
  {
    && |u| == |us| && |q| == j
    && (!dirty ==> (wide || NoAddBack(us, v, j)) && Divided(us, v, j, u, q))
    && (Playable(us, v, j, wide) ==> (u, q) == PlayAll(us, v, j, wide))
    && (j > 0 && (dirty ==> f == j - 1) ==> Num(q) == Quo(Num(us[..j + |v|]), Num(v)))
    && (dirty ==> !wide && f < j && AddsBackAt(us, v, f) && NoAddBack(us, v, f) && u[f] == BASE - 1)
  }

  lemma OngoingStart(us: seq<Digit>, v: seq<Digit>, wide: bool)
    requires Normal(us, v)
    ensures Ongoing(us, v, 0, us, [], false, 0, wide)
  {
    hide Divided, PlayAll, Playable, Num;
    DividedStart(us, v);
    NothingPlayed(us, v, wide);
  }

  lemma OngoingStep(us: seq<Digit>, v: seq<Digit>, j: nat, u: seq<Digit>, q: seq<Digit>, dirty: bool, f: nat,
                    u': seq<Digit>, digit: Digit, wide: bool) returns (dirty': bool, f': nat)
    requires Normal(us, v) && j + |v| < |us| && Ongoing(us, v, j, u, q, dirty, f, wide)
    requires |u'| == |u| && forall k :: 0 <= k < |u| && (k < j || k > j + |v|) ==> u'[k] == u[k]
    requires var w := u[j..j + |v| + 1];
      w[0] <= v[0] ==> var r := Play(w, v, WindowTrial(w, v), wide);
                       u'[j..j + |v| + 1] == r.window && digit == r.digit
    ensures Ongoing(us, v, j + 1, u', q + [digit], dirty', f', wide)
  {
    hide Play, WindowTrial, Num, AddsBackAt, Divided, PlayAll, Playable;
    dirty', f' := dirty, f;
    if Playable(us, v, j + 1, wide) {
      PlayableBefore(us, v, j, wide);
      PlayedOn(us, v, j, wide, u, q, u', digit);
    }
    if !dirty {
      ExactOrNot(us, v, j, u, q, u', digit, wide);
      if !wide && AddsBackAt(us, v, j) {
        dirty', f' := true, j;
      }
    }
  }

  lemma OngoingEnd(us: seq<Digit>, v: seq<Digit>, m: nat, u: seq<Digit>, q: seq<Digit>, dirty: bool, f: nat, wide: bool)
    requires Normal(us, v) && m + 1 + |v| == |us| && Ongoing(us, v, m + 1, u, q, dirty, f, wide)
    ensures wide || NoAddBack(us, v, m + 1) ==> Divided(us, v, m + 1, u, q)
    ensures !wide && !NoAddBack(us, v, m + 1) ==>
              exists g :: 0 <= g <= m && AddsBackAt(us, v, g) && NoAddBack(us, v, g) && u[g] == BASE - 1
    ensures Divided(us, v, m + 1, u, q) <==> wide || NoAddBack(us, v, m + 1)
    ensures Playable(us, v, m + 1, wide) ==> (u, q) == PlayAll(us, v, m + 1, wide)
    ensures wide || NoAddBack(us, v, m) ==> Num(q) == Quo(Num(us), Num(v))
  {
    hide Num, AddsBackAt, Divided, PlayAll, Playable;
    assert us[..m + 1 + |v|] == us;
    if dirty {
      LeftoverIsNoRemainder(us, v, m + 1, u, q, f);
    }
  }

  /** hugeint.c's main loop over the quotient digits q[qo..qo+m], with the add-back as written
      or (wide) with its digit sums at the width of the accumulator. */
  method Rounds(u: array<Digit>, uo: nat, v: array<Digit>, vo: nat, q: array<Digit>, qo: nat,
                m: nat, n: nat, wide: bool)
    requires u != v && u != q && v != q
    requires uo + m + n < u.Length && vo + n < v.Length && qo + m < q.Length && n >= 2
    requires Normal(u[uo..uo + m + n + 1], v[vo + 1..vo + n + 1])
    modifies u, q
    ensures forall k :: 0 <= k < u.Length && (k < uo || k > uo + m + n) ==> u[k] == old(u[k])
    ensures forall k :: 0 <= k < q.Length && (k < qo || k > qo + m) ==> q[k] == old(q[k])
    ensures var us, vs := old(u[uo..uo + m + n + 1]), v[vo + 1..vo + n + 1];
      && (wide || NoAddBack(us, vs, m + 1) ==>
            Divided(us, vs, m + 1, u[uo..uo + m + n + 1], q[qo..qo + m + 1]))
      && (!wide && !NoAddBack(us, vs, m + 1) ==>
            exists f :: 0 <= f <= m && AddsBackAt(us, vs, f) && NoAddBack(us, vs, f) && u[uo + f] == BASE - 1)
      && (Divided(us, vs, m + 1, u[uo..uo + m + n + 1], q[qo..qo + m + 1]) <==> wide || NoAddBack(us, vs, m + 1))
      && (Playable(us, vs, m + 1, wide) ==>
            (u[uo..uo + m + n + 1], q[qo..qo + m + 1]) == PlayAll(us, vs, m + 1, wide))
      && (wide || NoAddBack(us, vs, m) ==> Num(q[qo..qo + m + 1]) == Quo(Num(us), Num(vs)))
  {
    hide Play, WindowTrial, Num, AddsBackAt, Divided, PlayAll, Playable, Ongoing, NoAddBack;
    var j := 0;
    ghost var us, vs := u[uo..uo + m + n + 1], v[vo + 1..vo + n + 1];
    ghost var dirty, f := false, 0;
    OngoingStart(us, vs, wide);
    assert q[qo..qo + 0] == [];
    while j <= m
      invariant 0 <= j <= m + 1
      invariant forall k :: 0 <= k < u.Length && (k < uo || k > uo + m + n) ==> u[k] == old(u[k])
      invariant forall k :: 0 <= k < q.Length && (k < qo || k > qo + m) ==> q[k] == old(q[k])
      invariant Ongoing(us, vs, j, u[uo..uo + m + n + 1], q[qo..qo + j], dirty, f, wide)
    {
      ghost var before, qs := u[uo..uo + m + n + 1], q[qo..qo + j];
      RoundAt(u, uo, v, vo, q, qo, m, n, wide, j);
      dirty, f := OngoingStep(us, vs, j, before, qs, dirty, f, u[uo..uo + m + n + 1], q[qo + j], wide);
      j := j + 1;
    }
    ghost var ends, qs := u[uo..uo + m + n + 1], q[qo..qo + m + 1];
    OngoingEnd(us, vs, m, ends, qs, dirty, f, wide);
    assert forall g :: 0 <= g <= m ==> ends[g] == u[uo + g];
  }

  lemma PlayableBefore(us: seq<Digit>, v: seq<Digit>, j: nat, wide: bool)
    requires |v| >= 2 && v[0] > 0 && j + |v| < |us| && Playable(us, v, j + 1, wide)
    ensures Playable(us, v, j, wide)
  {}

  lemma NothingPlayed(us: seq<Digit>, v: seq<Digit>, wide: bool)
    requires |v| >= 2 && v[0] > 0 && |v| <= |us|
    ensures PlayAll(us, v, 0, wide) == (us, [])
  {}

  lemma LeftoverIsNoRemainder(us: seq<Digit>, v: seq<Digit>, j: nat, u: seq<Digit>, q: seq<Digit>, f: nat)
    requires j + |v| <= |us| == |u| && f < j && u[f] == BASE - 1
    ensures !Divided(us, v, j, u, q)
  {
    assert u[..j][f] == BASE - 1;
  }
}
