/** Big-endian numbers in base 2^32, the number representation of hugeint.c. */
module Digits {
  import opened Nonlinear

  const BASE: int := 0x1_0000_0000

  type Digit = x: int | 0 <= x < BASE

  /** BASE to the power k. */
  ghost function Pow(k: nat): (p: nat)
    ensures p >= 1
  {
    if k == 0 then 1 else BASE * Pow(k - 1)
  }

  /** The number whose digits, most significant first, are s. */
  ghost function Num(s: seq<Digit>): nat {
    if s == [] then 0 else Num(s[..|s| - 1]) * BASE + s[|s| - 1]
  }

  lemma {:induction false} PowAdd(j: nat, k: nat)
    ensures Pow(j + k) == Pow(j) * Pow(k)
  {
    if j == 0 {
    } else {
      PowAdd(j - 1, k);
      assert Pow(j + k) == BASE * Pow(j - 1 + k);
      assert Pow(j) * Pow(k) == BASE * (Pow(j - 1) * Pow(k)) by {
        MulAssoc(BASE, Pow(j - 1), Pow(k));
      }
    }
  }

  lemma {:induction false} NumAppend(x: seq<Digit>, y: seq<Digit>)
    ensures Num(x + y) == Num(x) * Pow(|y|) + Num(y)
    decreases |y|
  {
    if y == [] {
      assert x + y == x;
    } else {
      var y' := y[..|y| - 1];
      assert (x + y)[..|x + y| - 1] == x + y';
      NumAppend(x, y');
      assert Num(x + y) == (Num(x) * Pow(|y'|) + Num(y')) * BASE + y[|y| - 1];
      assert (Num(x) * Pow(|y'|)) * BASE == Num(x) * Pow(|y|) by {
        MulAssoc(Num(x), Pow(|y'|), BASE);
      }
    }
  }

  lemma {:induction false} NumBound(s: seq<Digit>)
    ensures Num(s) < Pow(|s|)
  {
    if s != [] {
      NumBound(s[..|s| - 1]);
    }
  }

  lemma NumSnoc(s: seq<Digit>, x: Digit)
    ensures Num(s + [x]) == Num(s) * BASE + x
  {
    assert (s + [x])[..|s|] == s;
  }

  lemma NumSingle(x: Digit)
    ensures Num([x]) == x
  {
    assert [x][..0] == [];
  }

  lemma NumCons(x: Digit, s: seq<Digit>)
    ensures Num([x] + s) == x * Pow(|s|) + Num(s)
  {
    NumAppend([x], s);
    NumSingle(x);
  }

  /** The same length and value means the same digits. */
  lemma {:induction false} NumInjective(x: seq<Digit>, y: seq<Digit>)
    requires |x| == |y| && Num(x) == Num(y)
    ensures x == y
  {
    if x != [] {
      var k := |x| - 1;
      assert x[k] == Num(x) % BASE && y[k] == Num(y) % BASE;
      NumInjective(x[..k], y[..k]);
      assert x == x[..k] + [x[k]] && y == y[..k] + [y[k]];
    }
  }

  /** The k least significant digits of x. */
  ghost function OfNum(x: nat, k: nat): (s: seq<Digit>)
    ensures |s| == k
  {
    if k == 0 then [] else OfNum(x / BASE, k - 1) + [x % BASE]
  }

  lemma {:induction false} OfNumOfNum(s: seq<Digit>)
    ensures OfNum(Num(s), |s|) == s
  {
    if s != [] {
      var k := |s| - 1;
      assert Num(s) / BASE == Num(s[..k]) && Num(s) % BASE == s[k];
      OfNumOfNum(s[..k]);
      assert s == s[..k] + [s[k]];
    }
  }

  lemma SubSlice<T>(s: seq<T>, a: nat, b: nat, c: nat, d: nat)
    requires a <= b <= |s| && c <= d <= b - a
    ensures s[a..b][c..d] == s[a + c..a + d]
  {
    var x, y := s[a..b][c..d], s[a + c..a + d];
    assert forall k :: 0 <= k < |x| ==> x[k] == s[a + c + k] == y[k];
  }

  lemma SnocSlice<T>(s: seq<T>, j: nat, n: nat)
    requires j + n < |s|
    ensures s[j..j + n + 1] == s[j..j + n] + [s[j + n]]
    ensures s[j..j + n + 1][..n] == s[j..j + n]
  {}
}
