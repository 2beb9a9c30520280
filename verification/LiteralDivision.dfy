/** What the add-back as hugeint.c writes it does to a division, and when it does no harm. */
module LiteralDivision {
  import opened Digits
  import opened Nonlinear
  import opened LongDivision

  // ----- divisors of two digits -----

  lemma {:induction false} NumOfNum(x: nat, k: nat)
    requires x < Pow(k)
    ensures Num(OfNum(x, k)) == x
  {
    if k > 0 {
      NumOfNum(x / BASE, k - 1);
      NumSnoc(OfNum(x / BASE, k - 1), x % BASE);
    }
  }

  /** The true window of round j as digits: the running remainder and the next digit. */
  lemma TrueDigits(us: seq<Digit>, v: seq<Digit>, j: nat)
    requires Normal(us, v) && j + |v| < |us|
    ensures var rem := Rem(Num(us[..j + |v|]), Num(v));
            var w := OfNum(TrueWindow(us, v, j), |v| + 1);
      && w == OfNum(rem, |v|) + [us[j + |v|]] && Step(w, v)
      && Num(w) == TrueWindow(us, v, j) && Num(OfNum(rem, |v|)) == rem
  {
    var rem := Rem(Num(us[..j + |v|]), Num(v));
    NumBound(v);
    NumOfNum(rem, |v|);
    var r := OfNum(rem, |v|);
    var x := us[j + |v|];
    assert (rem * BASE + x) / BASE == rem && (rem * BASE + x) % BASE == x;
    NumSnoc(r, x);
    assert (r + [x])[..|v|] == r;
  }

  /** With two digits, the correction loop's test compares whole numbers: no round ever adds back. */
  lemma TwoDigitsNeverAddBack(us: seq<Digit>, v: seq<Digit>, j: nat)
    requires Normal(us, v) && |v| == 2 && j + 2 < |us|
    ensures !AddsBackAt(us, v, j)
  {
    hide WindowTrial, OfNum, TrueWindow, Num;
    TrueDigits(us, v, j);
    var w := OfNum(TrueWindow(us, v, j), 3);
    TrialTest(w, v);
    ThreeDigits(w);
    Two(v[0], v[1]);
    assert v == [v[0], v[1]];
    QuotientAtLeast(Num(w), Num(v), WindowTrial(w, v));
  }

  lemma ThreeDigits(s: seq<Digit>)
    requires |s| == 3
    ensures Num(s) == (s[0] * BASE + s[1]) * BASE + s[2]
  {
    assert s == [s[0], s[1]] + [s[2]];
    Two(s[0], s[1]);
    NumSnoc([s[0], s[1]], s[2]);
  }

  // ----- divisors of three digits -----

  lemma AddStepLiteral(x: Digit, y: Digit)
    ensures AddStep(x, y, 0, false).0 == x + y - Carry(x, y) * BASE
  {}

  lemma {:induction false} LiteralDigits(o: seq<Digit>, v: seq<Digit>, i: nat)
    requires |o| == |v| && i < |o|
    ensures Add(o, v, false).0[i] == o[i] + v[i] - Carry(o[i], v[i]) * BASE
  {
    LiteralHasNoCarry(o[1..], v[1..]);
    AddUnfold(o, v, false, 1);
    assert o[0..] == o && v[0..] == v;
    var rest := Add(o[1..], v[1..], false).0;
    assert Add(o, v, false).0 == [AddStep(o[0], v[0], 0, false).0] + rest;
    hide Add;
    if i > 0 {
      LiteralDigits(o[1..], v[1..], i - 1);
    } else {
      AddStepLiteral(o[0], v[0]);
    }
  }

  function Carry(x: Digit, y: Digit): (c: nat)
    ensures c <= 1
  {
    if x + y >= BASE then 1 else 0
  }

  /** The three-digit sum without carries falls short of the sum by the carries. */
  lemma LiteralSum(o: seq<Digit>, v: seq<Digit>)
    requires |o| == |v| == 3
    ensures Num(Add(o, v, false).0) + Carry(o[2], v[2]) * BASE + Carry(o[1], v[1]) * (BASE * BASE)
            + Carry(o[0], v[0]) * (BASE * BASE * BASE) == Num(o) + Num(v)
  {
    hide Add, Carry;
    var r := Add(o, v, false).0;
    LiteralDigits(o, v, 0);
    LiteralDigits(o, v, 1);
    LiteralDigits(o, v, 2);
    ThreeDigits(o);
    ThreeDigits(v);
    ThreeDigits(r);
    SumParts(o[0], o[1], o[2], v[0], v[1], v[2], r[0], r[1], r[2],
             Carry(o[0], v[0]), Carry(o[1], v[1]), Carry(o[2], v[2]));
  }

  lemma SumParts(o0: int, o1: int, o2: int, v0: int, v1: int, v2: int, r0: int, r1: int, r2: int, c0: int, c1: int, c2: int)
    requires r0 == o0 + v0 - c0 * BASE && r1 == o1 + v1 - c1 * BASE && r2 == o2 + v2 - c2 * BASE
    ensures ((r0 * BASE + r1) * BASE + r2) + c2 * BASE + c1 * (BASE * BASE) + c0 * (BASE * BASE * BASE)
            == ((o0 * BASE + o1) * BASE + o2) + ((v0 * BASE + v1) * BASE + v2)
  {}

  /** The digits of a window of four after the multiply-and-subtract. */
  ghost function Low(w: seq<Digit>, v: seq<Digit>): (low: seq<Digit>)
    requires |w| == 4 && |v| == 3 && v[0] > 0
    ensures |low| == 3
  {
    Sub(w[1..], v, WindowTrial(w, v)).0
  }

  /** By how much the sum as written falls short of the remainder: the carries out of the two lower digits. */
  ghost function Missing(w: seq<Digit>, v: seq<Digit>): nat
    requires |w| == 4 && |v| == 3 && v[0] > 0
  {
    Carry(Low(w, v)[2], v[2]) * BASE + Carry(Low(w, v)[1], v[1]) * (BASE * BASE)
  }

  lemma DifferenceBound(q: nat, vv: nat, v0: nat, hi: nat, w: nat)
    requires q * vv <= hi && hi * BASE <= w && q < BASE && v0 < BASE
    ensures q * (vv * BASE + v0) <= w + (BASE - 1) * (BASE - 1)
  {
    MulMono(q, v0, BASE - 1);
    MulMono(BASE - 1, q, BASE - 1);
    assert q * (vv * BASE + v0) == q * vv * BASE + q * v0;
  }

  /** Where a round adds back, the top digit of the difference is 2^32 - 1. */
  lemma TopOfDifference(w: seq<Digit>, v: seq<Digit>)
    requires Step(w, v) && |v| == 3 && WindowTrial(w, v) > Quo(Num(w), Num(v))
    ensures Low(w, v)[0] == BASE - 1
    ensures Num(Low(w, v)) + Num(v) == Rem(Num(w), Num(v)) + BASE * BASE * BASE
  {
    hide WindowTrial, Sub, Num;
    var q, low := WindowTrial(w, v), Low(w, v);
    SubtractTrial(w, v);
    TrialIsClose(w, v);
    TrialTest(w, v);
    RemainderRange(Num(w), Num(v), q);
    Cube();
    ThreeDigits(v);
    ThreeDigits(low);
    assert w == w[..3] + [w[3]];
    ThreeDigits(w[..3]);
    NumSnoc(w[..3], w[3]);
    DifferenceBound(q, v[0] * BASE + v[1], v[2], Num(w[..3]), Num(w));
    TopIs(low[0], low[1], low[2], Num(low));
  }

  lemma Cube()
    ensures Pow(3) == BASE * BASE * BASE && Pow(2) == BASE * BASE && Pow(1) == BASE
  {
    assert Pow(0) == 1;
  }

  lemma TopIs(x: Digit, y: Digit, z: Digit, n: nat)
    requires n == (x * BASE + y) * BASE + z && n >= BASE * BASE * BASE - (BASE - 1) * (BASE - 1)
    ensures x == BASE - 1
  {}

  /** A round of a three-digit division that adds back as written: the right digit, and a remainder that is short of
      the carries lost, and so still below the divisor. */
  lemma LiteralRound(w: seq<Digit>, v: seq<Digit>)
    requires Step(w, v) && |v| == 3 && WindowTrial(w, v) > Quo(Num(w), Num(v))
    ensures var r := Play(w, v, WindowTrial(w, v), false);
      && r.digit == Quo(Num(w), Num(v)) && r.window[0] == BASE - 1
      && Num(r.window[1..]) + Missing(w, v) == Rem(Num(w), Num(v)) < Num(v)
  {
    hide WindowTrial, Sub, Num, Add, Carry, Quo, Rem;
    RoundIsExact(w, v, false);
    TopOfDifference(w, v);
    SubtractTrial(w, v);
    var low := Low(w, v);
    LiteralSum(low, v);
    assert Carry(low[0], v[0]) == 1 by { TopCarries(low[0], v[0]); }
    var r := Play(w, v, WindowTrial(w, v), false);
    assert r.window[1..] == Add(low, v, false).0;
  }

  lemma TopCarries(x: Digit, y: Digit)
    requires x == BASE - 1 && y > 0
    ensures Carry(x, y) == 1
  {}

  // ----- a quotient of two digits by a divisor of three -----

  /** The two rounds of a five-digit window. */
  ghost predicate TwoRounds(us: seq<Digit>, v: seq<Digit>) {
    Normal(us, v) && |us| == 5 && |v| == 3
  }

  /** What the second round works on when the first adds back as written. */
  ghost function SecondWindow(us: seq<Digit>, v: seq<Digit>): seq<Digit>
    requires TwoRounds(us, v)
  {
    Play(us[..4], v, WindowTrial(us[..4], v), false).window[1..] + [us[4]]
  }

  lemma FirstWindow(us: seq<Digit>, v: seq<Digit>)
    requires TwoRounds(us, v)
    ensures Step(us[..4], v)
    ensures AddsBackAt(us, v, 0) == (WindowTrial(us[..4], v) > Quo(Num(us[..4]), Num(v)))
  {
    hide WindowTrial, AddsBackAt, Divided;
    DividedStart(us, v);
    WindowOfDivided(us, v, 0, us, []);
    TrialOfDivided(us, v, 0, us, []);
    assert us[0..4] == us[..4];
  }

  /** The second window is a proper one; it is the true one unless a carry was lost. */
  lemma SecondIsStep(us: seq<Digit>, v: seq<Digit>)
    requires TwoRounds(us, v) && AddsBackAt(us, v, 0)
    ensures var w := SecondWindow(us, v);
      && Step(w, v)
      && Num(w) + Missing(us[..4], v) * BASE == TrueWindow(us, v, 1)
      && (Missing(us[..4], v) == 0 ==> w == OfNum(TrueWindow(us, v, 1), 4))
  {
    hide WindowTrial, Play, Missing, Num, AddsBackAt, OfNum;
    FirstWindow(us, v);
    LiteralRound(us[..4], v);
    var l := Play(us[..4], v, WindowTrial(us[..4], v), false).window[1..];
    var w := SecondWindow(us, v);
    NumSnoc(l, us[4]);
    assert w[..3] == l && us[..1 + 3] == us[..4];
    OfNumOfNum(w);
  }

  lemma PlayTwo(us: seq<Digit>, v: seq<Digit>)
    requires TwoRounds(us, v) && AddsBackAt(us, v, 0)
    ensures Playable(us, v, 2, false)
    ensures var r0 := Play(us[..4], v, WindowTrial(us[..4], v), false);
            var w := SecondWindow(us, v);
            var r1 := Play(w, v, WindowTrial(w, v), false);
            PlayAll(us, v, 2, false) == ([r0.window[0]] + r1.window, [r0.digit, r1.digit])
  {
    hide WindowTrial, Play, Num, AddsBackAt, TrueWindow, Missing;
    FirstWindow(us, v);
    StepQuotient(us[..4], v);
    SecondIsStep(us, v);
    var w := SecondWindow(us, v);
    StepQuotient(w, v);
    var r0 := Play(us[..4], v, WindowTrial(us[..4], v), false);
    var (u0, q0) := PlayAll(us, v, 0, false);
    assert u0[0..4] == us[..4];
    var (u1, q1) := PlayAll(us, v, 1, false);
    assert u1 == r0.window + [us[4]] by { assert us[..0] == [] && us[4..] == [us[4]]; }
    assert u1[1..5] == w;
    assert q1 == [r0.digit];
    assert u1[..1] == [r0.window[0]] && u1[5..] == [];
    var r1 := Play(w, v, WindowTrial(w, v), false);
    assert PlayAll(us, v, 2, false) == (u1[..1] + r1.window + u1[5..], q1 + [r1.digit]);
    assert u1[..1] + r1.window + u1[5..] == [r0.window[0]] + r1.window;
    assert q1 + [r1.digit] == [r0.digit, r1.digit];
  }

  /** The two rounds in numbers: both digits are exact for the windows they work on. */
  lemma LiteralParts(us: seq<Digit>, v: seq<Digit>)
    requires TwoRounds(us, v) && AddsBackAt(us, v, 0)
    ensures Playable(us, v, 2, false)
    ensures var (u, q) := PlayAll(us, v, 2, false);
            var w := SecondWindow(us, v);
            var r1 := Play(w, v, WindowTrial(w, v), false);
      && Step(w, v) && u[1] == r1.window[0] && u[2..] == r1.window[1..]
      && Num(q) == Quo(Num(us[..4]), Num(v)) * BASE + Quo(Num(w), Num(v))
      && Num(us) == Num(us[..4]) * BASE + us[4]
      && Num(w) + Missing(us[..4], v) * BASE == Rem(Num(us[..4]), Num(v)) * BASE + us[4] == TrueWindow(us, v, 1)
  {
    hide WindowTrial, Play, Num, TrueWindow, Missing, Quo, Rem, OfNum, PlayAll, Playable, SecondWindow, Step;
    PlayTwo(us, v);
    FirstWindow(us, v);
    LiteralRound(us[..4], v);
    SecondIsStep(us, v);
    var w := SecondWindow(us, v);
    RoundIsExact(w, v, false);
    var r0 := Play(us[..4], v, WindowTrial(us[..4], v), false);
    var r1 := Play(w, v, WindowTrial(w, v), false);
    Two(r0.digit, r1.digit);
    assert us == us[..4] + [us[4]];
    NumSnoc(us[..4], us[4]);
    TrueIs(us, v);
  }

  /** The end of a division whose first round adds back as written: either the second round adds back as well and
      leaves its mark, or quotient and remainder are those of a dividend that is short of the carries lost. */
  lemma LiteralEnd(us: seq<Digit>, v: seq<Digit>)
    requires TwoRounds(us, v) && AddsBackAt(us, v, 0)
    ensures Playable(us, v, 2, false)
    ensures var (u, q) := PlayAll(us, v, 2, false);
      && (u[1] == BASE - 1
          || (u[1] == 0 && Num(u[2..]) < Num(v)
              && Num(q) * Num(v) + Num(u[2..]) + Missing(us[..4], v) * BASE == Num(us)))
      && (Missing(us[..4], v) == 0 ==> (u[1] == BASE - 1 <==> AddsBackAt(us, v, 1)))
      && (Num(q) == Quo(Num(us), Num(v)) <==> Missing(us[..4], v) * BASE <= Rem(TrueWindow(us, v, 1), Num(v)))
  {
    hide WindowTrial, Play, Num, TrueWindow, Missing, Quo, Rem, OfNum, PlayAll, Playable, SecondWindow, Step;
    LiteralParts(us, v);
    SecondIsStep(us, v);
    var w := SecondWindow(us, v);
    FirstWindow(us, v);
    RoundIsExact(w, v, false);
    NumBound(v);
    QuoRem(Num(us[..4]), Num(v));
    QuoRem(Num(w), Num(v));
    QuotientOfTwo(Num(us[..4]), Num(us), us[4], Num(v), Quo(Num(us[..4]), Num(v)), Rem(Num(us[..4]), Num(v)),
                  Num(w), Missing(us[..4], v) * BASE);
    Total(Num(us[..4]), Num(us), us[4], Num(v), Quo(Num(us[..4]), Num(v)), Quo(Num(w), Num(v)),
          Rem(Num(us[..4]), Num(v)), Rem(Num(w), Num(v)), Num(w), Missing(us[..4], v) * BASE);
  }

  lemma TrueIs(us: seq<Digit>, v: seq<Digit>)
    requires TwoRounds(us, v)
    ensures TrueWindow(us, v, 1) == Rem(Num(us[..4]), Num(v)) * BASE + us[4]
  {
    assert us[..1 + |v|] == us[..4];
  }

  lemma QuoRem(x: nat, d: nat)
    requires d > 0
    ensures x == Quo(x, d) * d + Rem(x, d) && Rem(x, d) < d
  {
    assert x == d * (x / d) + x % d;
  }

  /** The second digit of the quotient is right exactly when what is lost is not more than the last remainder. */
  lemma QuotientOfTwo(a: nat, n: nat, x: nat, v: nat, q0: nat, r0: nat, w: nat, lost: nat)
    requires v > 0 && a == q0 * v + r0 && r0 < v && n == a * BASE + x && w + lost == r0 * BASE + x
    ensures q0 * BASE + Quo(w, v) == Quo(n, v) <==> lost <= Rem(r0 * BASE + x, v)
  {
    var t := r0 * BASE + x;
    QuoRem(t, v);
    assert (q0 * BASE + Quo(t, v)) * v == (q0 * v) * BASE + Quo(t, v) * v;
    DivModUnique(n, v, q0 * BASE + Quo(t, v), Rem(t, v));
    if lost <= Rem(t, v) {
      DivModUnique(w, v, Quo(t, v), Rem(t, v) - lost);
    } else {
      QuotientBelow(w, v, Quo(t, v));
    }
  }

  lemma Total(a: nat, n: nat, x: nat, v: nat, q0: nat, q1: nat, r0: nat, r1: nat, w: nat, lost: nat)
    requires a == q0 * v + r0 && n == a * BASE + x && w + lost == r0 * BASE + x && w == q1 * v + r1
    ensures (q0 * BASE + q1) * v + r1 + lost == n
  {
    assert (q0 * BASE + q1) * v == (q0 * v) * BASE + q1 * v;
  }
}
