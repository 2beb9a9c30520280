/** vobjdump.c as a parser: a buffer and a cursor that every read advances. */
module VobjDump {
  import opened Options
  import opened Sections
  import opened Vobj

  /** What has been read before is put in front of what a parser finds. */
  function Prepend<T>(s: seq<T>, o: Option<(seq<T>, seq<Byte>)>): Option<(seq<T>, seq<Byte>)> {
    match o
    case None => None
    case Some((u, rest)) => Some((s + u, rest))
  }

  lemma PrependNothing<T>(o: Option<(seq<T>, seq<Byte>)>)
    ensures Prepend([], o) == o
  {
    match o
    case None =>
    case Some((u, rest)) => assert [] + u == u;
  }

  lemma PrependTwice<T>(s: seq<T>, t: seq<T>, o: Option<(seq<T>, seq<Byte>)>)
    ensures Prepend(s, Prepend(t, o)) == Prepend(s + t, o)
  {
    match o
    case None =>
    case Some((u, rest)) => assert s + (t + u) == s + t + u;
  }

  lemma PrependLast<T>(s: seq<T>, rest: seq<Byte>)
    ensures Prepend(s, Some(([], rest))) == Some((s, rest))
  {
    assert s + [] == s;
  }

  class VobjReader {
    const vobj: seq<Byte>
    var p: nat

    ghost predicate Valid()
      reads this
    {
      p <= |vobj|
    }

    ghost function Rest(): seq<Byte>
      requires Valid()
      reads this
    {
      vobj[p..]
    }

    constructor (file: seq<Byte>)
      ensures Valid() && vobj == file && p == 0
    {
      vobj, p := file, 0;
    }

    /** read_number: the bytes are taken from the last one down. */
    method ReadNumber(signed: bool) returns (ok: bool, val: int)
      requires Valid()
      modifies this
      ensures Valid() && (Vobj.ReadNumber(old(Rest()), signed) == if ok then Some((val, Rest())) else None)
    {
      ghost var t := Rest();
      if p >= |vobj| {
        return false, 0;
      }
      var n: int := vobj[p] as int;
      p := p + 1;
      if n <= 0x7f {
        return true, n;
      }
      n := n - 0x80;
      if |vobj| - p < n {
        return false, 0;
      }
      ghost var digits := vobj[p..p + n];
      assert digits == t[1..1 + n];
      p := p + n;
      assert Rest() == t[1 + n..];
      var limit;
      val, limit := TakeBack(p, n);
      if signed && n > 0 && 2 * val >= limit {
        val := val - limit;
      }
      ok := true;
    }

    /** The number in the size bytes before q, the last byte being the highest. */
    method TakeBack(end: nat, size: nat) returns (val: nat, limit: nat)
      requires size <= end <= |vobj|
      ensures val == FromBytes(vobj[end - size..end]) && limit == Power(size)
    {
      ghost var digits := vobj[end - size..end];
      var n, q := size, end;
      val, limit := 0, 1;
      assert digits[n..] == [];
      while n > 0
        invariant 0 <= n <= size && q == end - size + n
        invariant val == FromBytes(digits[n..]) && limit == Power(size - n)
      {
        n := n - 1;
        q := q - 1;
        FromBytesStep(digits, n);
        assert digits[n] == vobj[q];
        val := 256 * val + vobj[q] as int;
        limit := 256 * limit;
      }
      assert digits[0..] == digits;
    }

    static lemma FromBytesStep(bs: seq<Byte>, n: nat)
      requires n < |bs|
      ensures FromBytes(bs[n..]) == bs[n] as int + 256 * FromBytes(bs[n + 1..])
    {
      assert bs[n..][1..] == bs[n + 1..];
    }

    /** skip_string, and the string skipped. */
    method SkipString() returns (ok: bool, s: seq<Byte>)
      requires Valid()
      modifies this
      ensures Valid() && (ReadString(old(Rest())) == if ok then Some((s, Rest())) else None)
    {
      s := [];
      ghost var t := Rest();
      PrependNothing(ReadString(t));
      while p < |vobj| && vobj[p] != 0
        invariant Valid()
        invariant ReadString(t) == Prepend(s, ReadString(Rest()))
        decreases |vobj| - p
      {
        ghost var before := Rest();
        assert before[0] == vobj[p] && before[1..] == vobj[p + 1..];
        PrependTwice(s, [vobj[p]], ReadString(before[1..]));
        s := s + [vobj[p]];
        p := p + 1;
      }
      if p < |vobj| {
        assert Rest()[0] == 0 && Rest()[1..] == vobj[p + 1..];
        PrependLast(s, vobj[p + 1..]);
        p := p + 1;
        ok := true;
      } else {
        ok := false;
      }
    }

    method ReadNumbers(signed: seq<bool>) returns (ok: bool, vals: seq<int>)
      requires Valid()
      modifies this
      ensures Valid() && (Vobj.ReadNumbers(old(Rest()), signed) == if ok then Some((vals, Rest())) else None)
      ensures ok ==> |vals| == |signed|
    {
      hide Vobj.ReadNumber;
      vals := [];
      ghost var t := Rest();
      assert signed[0..] == signed;
      PrependNothing(Vobj.ReadNumbers(t, signed));
      for i := 0 to |signed|
        invariant Valid() && |vals| == i
        invariant Vobj.ReadNumbers(t, signed) == Prepend(vals, Vobj.ReadNumbers(Rest(), signed[i..]))
      {
        assert signed[i..][1..] == signed[i + 1..];
        var good, v := ReadNumber(signed[i]);
        if !good {
          return false, [];
        }
        PrependTwice(vals, [v], Vobj.ReadNumbers(Rest(), signed[i + 1..]));
        vals := vals + [v];
      }
      assert signed[|signed|..] == [];
      PrependLast(vals, Rest());
      ok := true;
    }

    /** One relocation of a section; kinds that are not standard are skipped. */
    method ReadReloc() returns (ok: bool, rs: seq<Reloc>)
      requires Valid()
      modifies this
      ensures Valid() && (Vobj.ReadReloc(old(Rest())) == if ok then Some((rs, Rest())) else None)
    {
      hide Vobj.ReadNumber, Vobj.ReadNumbers;
      var start := p;
      var good, kind := ReadNumber(false);
      if !good {
        return false, [];
      }
      p := start;
      if kind % 256 < 18 {
        var v;
        ok, v := ReadNumbers(RELOC_SIGNS);
        rs := if ok then [Reloc(v[0] % 256, v[1], CInt(v[2]), CInt(v[3]), v[4], v[5], CInt(v[6]))] else [];
      } else {
        var v;
        ok, v := ReadNumbers([false, false]);
        rs := [];
        if ok {
          if v[1] < 0 || v[1] > |vobj| - p {
            return false, [];
          }
          assert Rest()[v[1]..] == vobj[p + v[1]..];
          p := p + v[1];
        }
      }
    }

    method ReadRelocs(n: int) returns (ok: bool, rs: seq<Reloc>)
      requires Valid()
      modifies this
      ensures Valid() && (Vobj.ReadRelocs(old(Rest()), n) == if ok then Some((rs, Rest())) else None)
    {
      hide Vobj.ReadReloc;
      rs := [];
      ghost var t := Rest();
      PrependNothing(Vobj.ReadRelocs(t, n));
      var i := 0;
      while i < n
        invariant Valid() && 0 <= i && (i <= n || n < 0)
        invariant Vobj.ReadRelocs(t, n) == Prepend(rs, Vobj.ReadRelocs(Rest(), n - i))
      {
        var good, r := ReadReloc();
        if !good {
          return false, [];
        }
        PrependTwice(rs, r, Vobj.ReadRelocs(Rest(), n - i - 1));
        rs := rs + r;
        i := i + 1;
      }
      PrependLast(rs, Rest());
      ok := true;
    }

    method ReadSymbols(n: int) returns (ok: bool, ss: seq<Symbol>)
      requires Valid()
      modifies this
      ensures Valid() && (Vobj.ReadSymbols(old(Rest()), n) == if ok then Some((ss, Rest())) else None)
    {
      hide ReadString, Vobj.ReadNumbers;
      ss := [];
      if n < 0 {
        return false, [];
      }
      ghost var t := Rest();
      PrependNothing(Vobj.ReadSymbols(t, n));
      var i := 0;
      while i < n
        invariant Valid() && 0 <= i <= n
        invariant Vobj.ReadSymbols(t, n) == Prepend(ss, Vobj.ReadSymbols(Rest(), n - i))
      {
        var good, name := SkipString();
        if !good {
          return false, [];
        }
        var v;
        good, v := ReadNumbers(SYMBOL_SIGNS);
        if !good {
          return false, [];
        }
        var sym := Symbol(name, CInt(v[0]), CInt(v[1]), CInt(v[2]), v[3], CInt(v[4]));
        PrependTwice(ss, [sym], Vobj.ReadSymbols(Rest(), n - i - 1));
        ss := ss + [sym];
        i := i + 1;
      }
      PrependLast(ss, Rest());
      ok := true;
    }

    method ReadSection() returns (ok: bool, s: Option<ObjectSection>)
      requires Valid()
      modifies this
      ensures Valid() && (ok <==> s.Some?)
      ensures Vobj.ReadSection(old(Rest())) == if ok then Some((s.value, Rest())) else None
    {
      hide ReadString, Vobj.ReadNumbers, Vobj.ReadRelocs;
      var good, name := SkipString();
      if !good {
        return false, None;
      }
      var attr;
      good, attr := SkipString();
      if !good {
        return false, None;
      }
      var v;
      good, v := ReadNumbers(SECTION_SIGNS);
      if !good || v[4] < 0 || v[4] > |vobj| - p {
        return false, None;
      }
      var data := vobj[p..p + v[4]];
      assert data == Rest()[..v[4]] && Rest()[v[4]..] == vobj[p + v[4]..];
      p := p + v[4];
      var relocs;
      good, relocs := ReadRelocs(CInt(v[3]));
      if !good {
        return false, None;
      }
      return true, Some(ObjectSection(name, attr, v[0], CInt(v[1]), v[2], data, relocs));
    }

    method ReadSections(n: int) returns (ok: bool, ss: seq<ObjectSection>)
      requires Valid()
      modifies this
      ensures Valid() && (Vobj.ReadSections(old(Rest()), n) == if ok then Some((ss, Rest())) else None)
    {
      hide Vobj.ReadSection;
      ss := [];
      if n < 0 {
        return false, [];
      }
      ghost var t := Rest();
      PrependNothing(Vobj.ReadSections(t, n));
      var i := 0;
      while i < n
        invariant Valid() && 0 <= i <= n
        invariant Vobj.ReadSections(t, n) == Prepend(ss, Vobj.ReadSections(Rest(), n - i))
      {
        var good, s := ReadSection();
        if !good {
          return false, [];
        }
        PrependTwice(ss, [s.value], Vobj.ReadSections(Rest(), n - i - 1));
        ss := ss + [s.value];
        i := i + 1;
      }
      PrependLast(ss, Rest());
      ok := true;
    }

    /** vobjdump: the object in the file. */
    method Dump() returns (o: Option<Object>)
      requires Valid() && p == 0
      modifies this
      ensures o == ReadObject(vobj)
    {
      hide ReadString, Vobj.ReadNumbers, Vobj.ReadSymbols, Vobj.ReadSections;
      if |vobj| <= 5 || vobj[..4] != MAGIC {
        return None;
      }
      p := p + 4;
      var endian := vobj[p];
      p := p + 1;
      if endian < 1 || endian > 2 {
        return None;
      }
      var good, v := ReadNumbers([false, false]);
      if !good || CInt(v[0]) != 8 || CInt(v[1]) > 8 || CInt(v[1]) < 0 {
        return None;
      }
      var cpu;
      good, cpu := SkipString();
      if !good {
        return None;
      }
      var w;
      good, w := ReadNumbers([false, false]);
      if !good {
        return None;
      }
      var symbols;
      good, symbols := ReadSymbols(CInt(w[1]));
      if !good {
        return None;
      }
      var sections;
      good, sections := ReadSections(CInt(w[0]));
      if !good {
        return None;
      }
      return Some(Object(endian, CInt(v[1]), cpu, symbols, sections));
    }
  }
}
