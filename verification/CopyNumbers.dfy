/** num_copies in cp.c: the numbering on which the analysis of available copies rests. */
module CopyNumbers {
  import opened FlowGraph
  import opened Numbering
  import opened CopyProp

  predicate IsCopy(p: IC) {
    p.code.Assign? && p.q1.Var? && p.z.Var?
  }

  predicate VariablesBelow(p: IC, vcount: nat) {
    (p.q1.Var? ==> p.q1.v < vcount) && (p.z.Var? ==> p.z.v < vcount)
  }

  /** The first loop: every copy gets a number of its own. */
  method Enumerate(ics: array<IC>) returns (ccount: nat, ghost places: seq<nat>)
    modifies ics
    ensures forall k :: 0 <= k < ics.Length ==> SameBut(CopyIndex, old(ics[k]), ics[k])
    ensures forall k :: 0 <= k < ics.Length ==> (ics[k].copyindex >= 0 <==> IsCopy(old(ics[k])))
    ensures |places| == ccount && Inverse(CopyIndex, ics[..], places)
  {
    hide IsCopy, Enumerated, Inverse;
    ccount := 0;
    places := [];
    NothingEnumerated(CopyIndex, ics[..]);
    for i := 0 to ics.Length
      invariant |places| == ccount && Enumerated(CopyIndex, ics[..], places, i)
      invariant forall k :: i <= k < ics.Length ==> ics[k] == old(ics[k])
      invariant forall k :: 0 <= k < i ==> SameBut(CopyIndex, old(ics[k]), ics[k])
      invariant forall k :: 0 <= k < i ==> (ics[k].copyindex >= 0 <==> IsCopy(old(ics[k])))
    {
      ghost var list := ics[..];
      EnumeratedOn(CopyIndex, list, places, i, list[i], IsCopy(list[i]));
      if IsCopy(ics[i]) {
        ics[i] := ics[i].(copyindex := ccount);
        assert ics[..] == list[i := Put(CopyIndex, list[i], |places|)];
        places := places + [i];
        ccount := ccount + 1;
      } else {
        ics[i] := ics[i].(copyindex := -1);
        assert ics[..] == list[i := Put(CopyIndex, list[i], -1)];
      }
    }
    EnumeratedAll(CopyIndex, ics[..], places);
  }

  /** The copies that table names are those of the instructions before place n. */
  ghost predicate TableOf(list: seq<IC>, table: map<nat, Copy>, n: nat) {
    && n <= |list|
    && (forall k :: 0 <= k < n ==> Numbered(list[k], table))
    && (forall c :: c in table ==> exists k :: 0 <= k < n && list[k].copyindex == c)
  }

  ghost predicate CopiesOnly(list: seq<IC>, vcount: nat) {
    forall k :: 0 <= k < |list| && list[k].copyindex >= 0 ==>
      IsCopy(list[k]) && list[k].q1.v < vcount && list[k].z.v < vcount
  }

  lemma TableOn(list: seq<IC>, table: map<nat, Copy>, n: nat, vcount: nat)
    requires TableOf(list, table, n) && n < |list| && CopiesOnly(list, vcount) && AllEqualNumbers(CopyIndex, list)
    ensures list[n].copyindex < 0 ==> TableOf(list, table, n + 1)
    ensures list[n].copyindex >= 0 ==>
              TableOf(list, table[list[n].copyindex := Copy(list[n].z.v, list[n].q1.v)], n + 1)
    ensures list[n].copyindex >= 0 && list[n].copyindex in table ==>
              table[list[n].copyindex] == Copy(list[n].z.v, list[n].q1.v)
  {
    hide CompareBy;
    var c := list[n].copyindex;
    if c >= 0 {
      var table' := table[c := Copy(list[n].z.v, list[n].q1.v)];
      forall k | 0 <= k < n
        ensures Numbered(list[k], table') && (list[k].copyindex == c ==> list[k].q1 == list[n].q1 && list[k].z == list[n].z)
      {
        if list[k].copyindex == c {
          assert Get(CopyIndex, list[k]) >= 0 && Get(CopyIndex, list[n]) >= 0;
          assert EqualNumbers(CopyIndex, list, k, n);
          SameNumberSameCopy(list[k], list[n]);
        }
      }
      forall d | d in table'
        ensures exists k :: 0 <= k < n + 1 && list[k].copyindex == d
      {
        if d == c {
          assert list[n].copyindex == d;
        } else {
          var k :| 0 <= k < n && list[k].copyindex == d;
        }
      }
    }
  }

  lemma SameNumberSameCopy(p: IC, q: IC)
    requires CompareBy(CopyIndex, p, q) == 0
    ensures p.q1 == q.q1 && p.z == q.z
  {
    CompareCpEqual(p, q);
  }

  lemma CopiesOfPut(table: map<nat, Copy>, c: nat, x: Copy, v: nat)
    requires c in table ==> table[c] == x
    ensures CopiesOf(table[c := x], v) == CopiesOf(table, v) + if v == x.z || v == x.y then {c} else {}
  {}

  /** The last loop: the matrix of copies, row by row of the variables. */
  method FillMatrix(ics: array<IC>, vcount: nat) returns (copies: array<set<nat>>, ghost table: map<nat, Copy>)
    requires CopiesOnly(ics[..], vcount) && AllEqualNumbers(CopyIndex, ics[..])
    ensures fresh(copies) && TableOf(ics[..], table, ics.Length) && IsMatrix(copies[..], table, vcount)
  {
    hide AllEqualNumbers, TableOf;
    copies := new set<nat>[vcount](_ => {});
    table := map[];
    EmptyTable(ics[..]);
    for n := 0 to ics.Length
      invariant TableOf(ics[..], table, n)
      invariant forall v :: 0 <= v < vcount ==> copies[v] == CopiesOf(table, v)
      modifies copies
    {
      var p := ics[n];
      TableOn(ics[..], table, n, vcount);
      assert ics[..][n] == p;
      if p.copyindex >= 0 {
        ghost var x := Copy(p.z.v, p.q1.v);
        forall v | 0 <= v < vcount
          ensures CopiesOf(table[p.copyindex := x], v) == CopiesOf(table, v) + if v == x.z || v == x.y then {p.copyindex} else {}
        {
          CopiesOfPut(table, p.copyindex, x, v);
        }
        copies[p.z.v] := copies[p.z.v] + {p.copyindex};
        copies[p.q1.v] := copies[p.q1.v] + {p.copyindex};
        table := table[p.copyindex := x];
      }
    }
  }

  lemma EmptyTable(list: seq<IC>)
    ensures TableOf(list, map[], 0)
  {}

  /** num_copies: two copies get the same number exactly when compare_cp calls them equal; the numbers name the
      copies, and the matrix has for each variable those that a change of it ends. */
  method NumCopies(ics: array<IC>, vcount: nat)
    returns (clist: array<nat>, copies: array<set<nat>>, ghost table: map<nat, Copy>)
    requires forall k :: 0 <= k < ics.Length ==> VariablesBelow(ics[k], vcount)
    modifies ics
    ensures forall k :: 0 <= k < ics.Length ==> SameBut(CopyIndex, old(ics[k]), ics[k])
    ensures forall k :: 0 <= k < ics.Length ==>
              (ics[k].copyindex >= 0 <==> old(ics[k].code.Assign? && ics[k].q1.Var? && ics[k].z.Var?))
    ensures AllEqualNumbers(CopyIndex, ics[..]) && Represents(CopyIndex, ics[..], clist[..])
    ensures forall k :: 0 <= k < ics.Length ==> Numbered(ics[k], table)
    ensures forall c :: c in table ==> exists k :: 0 <= k < ics.Length && ics[k].copyindex == c
    ensures forall c :: 0 <= c < clist.Length ==> clist[c] < ics.Length
    ensures IsMatrix(copies[..], table, vcount) && fresh(clist) && fresh(copies)
  {
    hide AllEqualNumbers, Represents, Numbered;
    var ccount;
    ghost var places;
    ccount, places := Enumerate(ics);
    ghost var list := ics[..];
    clist := new nat[ccount];
    ShareNumbers(ics, clist, CopyIndex, places);
    forall k | 0 <= k < ics.Length
      ensures SameBut(CopyIndex, old(ics[k]), ics[k]) && VariablesBelow(ics[k], vcount)
      ensures ics[k].copyindex >= 0 <==> IsCopy(ics[k])
    {
      assert SameBut(CopyIndex, list[k], ics[..][k]);
    }
    copies, table := FillMatrix(ics, vcount);
  }
}
