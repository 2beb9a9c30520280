/** What CMP of the QNICE processor says about its operands. */
module CpuCompare {
  import opened Cpu
  import opened CpuBanks

  /** The flags that tell how x compares with y: equal, greater as unsigned words, greater as signed words. */
  predicate Tells(f: Flags, x: Word, y: Word) {
    (f.z == 1 <==> x == y) && (f.n == 1 <==> x > y) && (f.v == 1 <==> Signed(x) > Signed(y))
  }

  /** CMP reads its operands and changes nothing but Z, N and V; X, C and the bank stay. */
  lemma ComparePerformed(c: Machine, io: Devices, w: Word)
    requires Decode(w).op == 12
    ensures var i := Decode(w);
            var (c1, x) := ReadSource(c, io, i.sm, i.sa, false);
            var (c2, y) := ReadSource(c1, io, i.dm, i.da, false);
            var (d, stopped) := Perform(c, io, w);
            var f, g := FlagsOf(StatusOf(c2)), FlagsOf(StatusOf(d));
            !stopped && OnlyFlags(c2, d, g) && g.x == f.x && g.c == f.c && Tells(g, x, y)
  {
    hide FlagsOf, WithFlags, SetReg, OnlyFlags, Signed, ReadSource;
    var i := Decode(w);
    var (c1, x) := ReadSource(c, io, i.sm, i.sa, false);
    var (c2, y) := ReadSource(c1, io, i.dm, i.da, false);
    var f := FlagsOf(StatusOf(c2));
    var g := Flags(f.x, f.c, Ones(x == y), Ones(x > y), Ones(Signed(x) > Signed(y)));
    SetFlags(c2, g);
    FlagsAre(c2, Perform(c, io, w).0, g);
  }

  lemma FlagsAre(c: Machine, d: Machine, f: Flags)
    requires OnlyFlags(c, d, f)
    ensures FlagsOf(StatusOf(d)) == f
  {}

  /** A step that compares two registers. */
  lemma CompareStep(c: Machine, io: Devices, a: int, b: int)
    requires 0 <= a < 14 && 0 <= b < 14 && Decode(Fetched(c, io)) == Instruction(12, 0, a, 0, b)
    requires !c.intRequest || c.intActive
    ensures var (d, stopped) := Step(c, io);
            var f, g := FlagsOf(StatusOf(c)), FlagsOf(StatusOf(d));
            && !stopped && g.x == f.x && g.c == f.c && Tells(g, Reg(c, a), Reg(c, b)) && Bank(d) == Bank(c)
            && Reg(d, PC) == Low(Reg(c, PC) + 1)
            && d == c.(regs := c.regs[PC := d.regs[PC]][SR := d.regs[SR]])
  {
    hide FlagsOf, Perform, Tells, Signed, Bank;
    StepIs(c, io);
    var c1 := AfterFetch(c);
    SetRegReads(c, PC, Reg(c, PC) + 1, a);
    SetRegReads(c, PC, Reg(c, PC) + 1, b);
    SetRegReads(c, PC, Reg(c, PC) + 1, PC);
    ComparePerformed(c1, io, Fetched(c, io));
    assert ReadSource(c1, io, 0, a, false) == (c1, Reg(c, a)) && ReadSource(c1, io, 0, b, false) == (c1, Reg(c, b));
  }
}
