/** What SHL and SHR of the QNICE processor compute, bit by bit and as a number. */
module CpuShift {
  import opened Bits
  import opened Cpu
  import opened Nonlinear

  lemma {:induction false} Exp2Sixteen(k: nat)
    requires k <= 15
    ensures Exp2(k + 1) * Exp2(15 - k) == 0x1_0000
    decreases 15 - k
  {
    if k == 15 {
      Exp2Is(16);
    } else {
      Exp2Sixteen(k + 1);
      assert Exp2(k + 2) == 2 * Exp2(k + 1);
      assert Exp2(15 - k) == 2 * Exp2(14 - k);
      MoveFactor(Exp2(k + 1), Exp2(14 - k));
    }
  }

  lemma MoveFactor(a: int, b: int)
    ensures (2 * a) * b == a * (2 * b)
  {}

  lemma Exp2Is(k: nat)
    requires k == 15 || k == 16
    ensures k == 15 ==> Exp2(k) == 0x8000
    ensures k == 16 ==> Exp2(k) == 0x1_0000
  {
    assert Exp2(4) == 16;
    assert Exp2(8) == 256;
    assert Exp2(12) == 4096;
  }

  // ----- bits -----

  lemma {:induction false} BitIgnoresAbove(v: nat, k: nat, t: nat)
    requires k < 17
    ensures v + Exp2(k + 1) * t >= 0 && Bit(v + Exp2(k + 1) * t, k) == Bit(v, k)
  {
    if k == 0 {
      assert Exp2(1) == 2;
    } else {
      var u := Exp2(k) * t;
      assert Exp2(k + 1) * t == 2 * u;
      assert (v + 2 * u) / 2 == v / 2 + u;
      BitIgnoresAbove(v / 2, k - 1, t);
    }
  }

  lemma Regroup(a: int, b: int, q: int)
    ensures a * (b * q) == (a * b) * q
  {}

  lemma BitOfLow(v: nat, k: nat)
    requires k < 16
    ensures Bit(v % 0x1_0000, k) == Bit(v, k)
  {
    hide Exp2, Bit;
    var q := v / 0x1_0000;
    Exp2Sixteen(k);
    var t := Mul(Exp2(15 - k), q);
    Regroup(Exp2(k + 1), Exp2(15 - k), q);
    assert Exp2(k + 1) * t == 0x1_0000 * q;
    BitIgnoresAbove(v % 0x1_0000, k, t);
  }

  lemma {:induction false} BitAtTop(u: nat, k: nat, c: int)
    requires k < 17 && u < Exp2(k) && 0 <= c < 2
    ensures Bit(u + Exp2(k) * c, k) == c
  {
    if k > 0 {
      var w := Exp2(k - 1) * c;
      assert Exp2(k) * c == 2 * w;
      assert (u + 2 * w) / 2 == u / 2 + w;
      BitAtTop(u / 2, k - 1, c);
    }
  }

  lemma TopIsBit(v: nat)
    ensures Bit(v, 15) == v / 0x8000 % 2
  {
    var u, c := v % 0x8000, v / 0x8000 % 2;
    var q := v / 0x1_0000;
    assert v == (u + 0x8000 * c) + 0x1_0000 * q;
    Exp2Is(15);
    Exp2Is(16);
    BitIgnoresAbove(u + 0x8000 * c, 15, q);
    BitAtTop(u, 15, c);
  }

  lemma LowOfLong(v: nat)
    ensures v % 0x1_0000_0000 % 0x1_0000 == v % 0x1_0000
  {}

  // ----- shifting left -----

  lemma {:induction false} ShiftLeftBits(d: Word, x: int, n: nat, k: nat)
    requires 0 <= x < 2 && k < 16
    ensures Bit(ShiftLeft(d, x, n).0, k) == if k < n then x else Bit(d, k - n)
  {
    if n > 0 {
      var e := ShiftLeft(d, x, n - 1).0;
      var r := (2 * e + x) % 0x1_0000_0000;
      LowOfLong(2 * e + x);
      BitOfLow(r, k);
      BitOfLow(2 * e + x, k);
      if k > 0 {
        assert (2 * e + x) / 2 == e;
        ShiftLeftBits(d, x, n - 1, k - 1);
      }
    }
  }

  /** The last bit shifted out: bit 16-n of the operand, the fill once all of it is gone. */
  lemma ShiftLeftOut(d: Word, x: int, n: nat)
    requires 0 <= x < 2 && n > 0
    ensures ShiftLeft(d, x, n).1 == if n <= 16 then Bit(d, 16 - n) else x
  {
    var e := ShiftLeft(d, x, n - 1).0;
    TopIsBit(e);
    ShiftLeftBits(d, x, n - 1, 15);
  }

  lemma {:induction false} ShiftLeftValue(d: Word, x: int, n: nat)
    requires 0 <= x < 2
    ensures d * Exp2(n) + x * (Exp2(n) - 1) >= 0
    ensures ShiftLeft(d, x, n).0 % 0x1_0000 == (d * Exp2(n) + x * (Exp2(n) - 1)) % 0x1_0000
  {
    if n > 0 {
      ShiftLeftValue(d, x, n - 1);
      Doubled(d, x, Exp2(n - 1));
      DoubledLow(ShiftLeft(d, x, n - 1).0, d * Exp2(n - 1) + x * (Exp2(n - 1) - 1), x);
    }
  }

  lemma Doubled(d: int, x: int, p: int)
    ensures d * (2 * p) + x * (2 * p - 1) == 2 * (d * p + x * (p - 1)) + x
  {
    assert d * (2 * p) == 2 * (d * p);
    assert x * (2 * p - 1) == 2 * (x * (p - 1)) + x;
  }

  lemma DoubledLow(e: nat, a: nat, x: nat)
    requires e % 0x1_0000 == a % 0x1_0000
    ensures (2 * e + x) % 0x1_0000_0000 % 0x1_0000 == (2 * a + x) % 0x1_0000
  {
    LowOfLong(2 * e + x);
    LowOfSum(2 * (e % 0x1_0000) + x, 2 * (e / 0x1_0000));
    LowOfSum(2 * (a % 0x1_0000) + x, 2 * (a / 0x1_0000));
  }

  lemma LowOfSum(r: nat, q: nat)
    ensures (r + 0x1_0000 * q) % 0x1_0000 == r % 0x1_0000
  {}

  // ----- shifting right -----

  lemma BitBelowTop(u: nat, k: nat, c: int)
    requires k < 15 && 0 <= c < 2
    ensures Bit(u + 0x8000 * c, k) == Bit(u, k)
  {
    hide Bit;
    Exp2Sixteen(k);
    var a, b := Exp2(k + 1), Exp2(14 - k);
    assert Exp2(15 - k) == 2 * b;
    HalvedProduct(a, b);
    var t := Mul(b, c);
    Regroup(a, b, c);
    BitIgnoresAbove(u, k, t);
  }

  lemma HalvedProduct(a: int, b: int)
    requires a * (2 * b) == 0x1_0000
    ensures a * b == 0x8000
  {
    assert a * (2 * b) == 2 * (a * b);
  }

  lemma {:induction false} ShiftRightBits(d: Word, c: int, n: nat, k: nat)
    requires 0 <= c < 2 && k < 16
    ensures Bit(ShiftRight(d, c, n).0, k) == if k + n < 16 then Bit(d, k + n) else c
  {
    if n > 0 {
      var e := ShiftRight(d, c, n - 1).0;
      Exp2Is(15);
      if k == 15 {
        BitAtTop(e / 2, 15, c);
      } else {
        BitBelowTop(e / 2, k, c);
        assert Bit(e / 2, k) == Bit(e, k + 1);
        ShiftRightBits(d, c, n - 1, k + 1);
      }
    }
  }

  lemma ShiftRightOut(d: Word, c: int, n: nat)
    requires 0 <= c < 2 && n > 0
    ensures ShiftRight(d, c, n).1 == if n <= 16 then Bit(d, n - 1) else c
  {
    var e := ShiftRight(d, c, n - 1).0;
    assert e % 2 == Bit(e, 0);
    ShiftRightBits(d, c, n - 1, 0);
  }

  // ----- the instructions -----

  predicate PlainTarget(i: Instruction) {
    Fields(i) && i.dm == 0 && i.da != SR && i.da != PC
  }

  /** What differs between two states is register a of the current bank and the flags. */
  predicate OnlyTarget(c: Machine, d: Machine, a: int, v: Word, f: Flags)
    requires 0 <= a < 16 && a != SR
  {
    && Reg(d, a) == v && FlagsOf(StatusOf(d)) == f && Bank(d) == Bank(c)
    && d == c.(regs := d.regs) && d.regs == c.regs[SR := d.regs[SR]][Slot(c, a) := v]
  }

  lemma ShiftingFrame(c: Machine, io: Devices, i: Instruction)
    requires PlainTarget(i) && (i.op == 5 || i.op == 6)
    requires ReadSource(c, io, i.sm, i.sa, false).1 > 0
    ensures var (c1, n) := ReadSource(c, io, i.sm, i.sa, false);
            var f := FlagsOf(StatusOf(c1));
            var (e, bit) := Shifted(i.op, Reg(c1, i.da), f, n);
            OnlyTarget(c1, Shifting(c, io, i), i.da, Low(e),
                       ShiftFlags(i.op, f, bit).(z := Ones(Low(e) == 0), n := Ones(Top(e))))
  {
    hide FlagsOf, WithFlags, Shifted, ReadSource, Top, Low;
    var (c1, n) := ReadSource(c, io, i.sm, i.sa, false);
    var f := FlagsOf(StatusOf(c1));
    PlainRead(c1, io, i.da);
    var (e, bit) := Shifted(i.op, Reg(c1, i.da), f, n);
    PlainShift(c1, i.op, i.da, n, f, e, bit);
  }

  /** The end of a shift into a plain register. */
  lemma PlainShift(c1: Machine, op: int, a: int, n: Word, f: Flags, e: Long, bit: int)
    requires 0 <= a < 14 && 0 <= bit < 2 && f == FlagsOf(StatusOf(c1))
    ensures var c2 := SetReg(c1, SR, WithFlags(StatusOf(c1), ShiftFlags(op, f, bit)));
            var d := UpdateStatus(WriteDestination(c2, 0, a, e, false), e, n, 0, KEEP_CXV, false);
            OnlyTarget(c1, d, a, Low(e), ShiftFlags(op, f, bit).(z := Ones(Low(e) == 0), n := Ones(Top(e))))
  {
    hide FlagsOf, WithFlags, Top, Low, UpdateStatus, SetReg, StatusOf, Bank;
    var f' := ShiftFlags(op, f, bit);
    var c2 := SetReg(c1, SR, WithFlags(StatusOf(c1), f'));
    SetFlags(c1, f');
    var c3 := SetReg(c2, a, e);
    SetRegReads(c2, a, e, a);
    UpdateStatusFlags(c3, e, n, 0, KEEP_CXV, false);
    var d := UpdateStatus(c3, e, n, 0, KEEP_CXV, false);
    ChangesCompose(c1, c2, c3, d, a, Low(e), f', ShiftFlags(op, f, bit).(z := Ones(Low(e) == 0), n := Ones(Top(e))));
  }

  lemma ChangesCompose(c1: Machine, c2: Machine, c3: Machine, d: Machine, a: int, v: Word, f: Flags, g: Flags)
    requires 0 <= a < 14 && OnlyFlags(c1, c2, f) && OnlyFlags(c3, d, g)
    requires c3 == c2.(regs := c2.regs[Slot(c2, a) := v]) && Bank(c3) == Bank(c2)
    ensures OnlyTarget(c1, d, a, v, g)
  {
    hide FlagsOf, StatusOf, Bank;
    assert Slot(c2, a) == Slot(c1, a) == Slot(d, a);
  }

  lemma PlainRead(c: Machine, io: Devices, a: int)
    requires 0 <= a < 16
    ensures ReadSource(c, io, 0, a, true) == (c, Reg(c, a))
  {}

  /** SHL with count n >= 1 into a plain register: d * 2^n + X * (2^n - 1) modulo 2^16, the last bit shifted out
      in C, Z and N as the result has them, X and V and everything else as they were. */
  lemma ShiftLeftPerformed(c: Machine, io: Devices, w: Word)
    requires Decode(w).op == 5 && PlainTarget(Decode(w))
    requires ReadSource(c, io, Decode(w).sm, Decode(w).sa, false).1 > 0
    ensures var a := Decode(w).da;
            var (c1, n) := ReadSource(c, io, Decode(w).sm, Decode(w).sa, false);
            var d, f := Reg(c1, a), FlagsOf(StatusOf(c1));
            var r := Low(d * Exp2(n) + f.x * (Exp2(n) - 1));
            OnlyTarget(c1, Perform(c, io, w).0, a, r,
                       Flags(f.x, if n <= 16 then Bit(d, 16 - n) else f.x, Ones(r == 0), Ones(r >= 0x8000), f.v))
            && !Perform(c, io, w).1
  {
    hide Shifting, FlagsOf, ReadSource, OnlyTarget, Bit, ShiftLeft, Exp2, Decode;
    var i := Decode(w);
    ShiftingFrame(c, io, i);
    var (c1, n) := ReadSource(c, io, i.sm, i.sa, false);
    var d, f := Reg(c1, i.da), FlagsOf(StatusOf(c1));
    ShiftLeftOut(d, f.x, n);
    ShiftLeftValue(d, f.x, n);
    TopOfLow(ShiftLeft(d, f.x, n).0);
  }

  lemma TopOfLow(e: Long)
    ensures Top(e) <==> Low(e) >= 0x8000
  {}

  /** SHR with count n >= 1 into a plain register: every bit moves n places down, C fills from above, the last
      bit shifted out is in X, Z and N are as the result has them. */
  lemma ShiftRightPerformed(c: Machine, io: Devices, w: Word)
    requires Decode(w).op == 6 && PlainTarget(Decode(w))
    requires ReadSource(c, io, Decode(w).sm, Decode(w).sa, false).1 > 0
    ensures var a := Decode(w).da;
            var (c1, n) := ReadSource(c, io, Decode(w).sm, Decode(w).sa, false);
            var d, f := Reg(c1, a), FlagsOf(StatusOf(c1));
            var r := Reg(Perform(c, io, w).0, a);
            && (forall k :: 0 <= k < 16 ==> Bit(r, k) == if k + n < 16 then Bit(d, k + n) else f.c)
            && OnlyTarget(c1, Perform(c, io, w).0, a, r,
                          Flags(if n <= 16 then Bit(d, n - 1) else f.c, f.c, Ones(r == 0), Ones(r >= 0x8000), f.v))
            && !Perform(c, io, w).1
  {
    hide Shifting, FlagsOf, ReadSource, Bit, ShiftRight, Decode, Slot, StatusOf, Bank, Top, Low;
    var i := Decode(w);
    ShiftingFrame(c, io, i);
    var (c1, n) := ReadSource(c, io, i.sm, i.sa, false);
    var d, f := Reg(c1, i.da), FlagsOf(StatusOf(c1));
    var r := ShiftRight(d, f.c, n).0;
    assert Low(r) == r by { LowOfWord(r); }
    forall k | 0 <= k < 16
      ensures Bit(r, k) == if k + n < 16 then Bit(d, k + n) else f.c
    {
      ShiftRightBits(d, f.c, n, k);
    }
    ShiftRightOut(d, f.c, n);
    TopOfLow(r);
  }

  lemma LowOfWord(r: Word)
    ensures Low(r) == r
  {}
}
