/** Numbering instructions so that equal ones share a number, as num_exp in cse.c and num_copies in cp.c do it with
    a comparison function of their own. */
module Numbering {
  import opened FlowGraph
  import opened Sorting

  // ----- comparing -----

  function Flags(q: Obj): int {
    match q
    case NoObj => 0
    case Konst(_) => 1
    case Var(_) => 2
  }

  function Sign(x: int, y: int): int {
    if x < y then -1 else if x > y then 1 else 0
  }

  function CompareObjs(o1: Obj, o2: Obj): int {
    if Flags(o1) != Flags(o2) then Sign(Flags(o1), Flags(o2))
    else match o1
      case NoObj => 0
      case Konst(k) => Sign(k, o2.val)
      case Var(v) => Sign(v, o2.v)
  }

  /** The opcodes' numbers, an operator standing for its code together with its type. */
  function OpNumber(c: Code): int {
    match c
    case Assign => 0
    case Address => 1
    case Compare => 2
    case Call(_) => 3
    case GetReturn => 4
    case SetReturn => 5
    case Nop => 6
    case Arith(op) => 7 + op
  }

  function CompareExp(p1: IC, p2: IC): int {
    var c := Sign(OpNumber(p1.code), OpNumber(p2.code));
    if c != 0 then c else
      var i := CompareObjs(p1.q1, p2.q1);
      if i != 0 then i else CompareObjs(p1.q2, p2.q2)
  }

  /** compare_exp finds two expressions equal exactly when they are the same operator on the same operands. */
  lemma CompareExpEqual(p1: IC, p2: IC)
    requires !p1.code.Call?
    ensures CompareExp(p1, p2) == 0 <==> p1.code == p2.code && p1.q1 == p2.q1 && p1.q2 == p2.q2
  {}

  lemma CompareExpFlips(p: IC, q: IC)
    ensures CompareExp(p, q) < 0 <==> CompareExp(q, p) > 0
  {}

  lemma ObjsChain(o1: Obj, o2: Obj, o3: Obj)
    requires CompareObjs(o1, o2) <= 0 && CompareObjs(o2, o3) <= 0
    ensures CompareObjs(o1, o3) <= 0
    ensures CompareObjs(o1, o3) == 0 ==> CompareObjs(o1, o2) == 0 && CompareObjs(o2, o3) == 0
    ensures CompareObjs(o1, o2) == 0 && CompareObjs(o2, o3) == 0 ==> CompareObjs(o1, o3) == 0
  {}

  lemma CompareExpChains(p: IC, q: IC, r: IC)
    requires CompareExp(p, q) <= 0 && CompareExp(q, r) <= 0
    ensures CompareExp(p, r) <= 0
  {
    hide CompareObjs;
    if CompareObjs(p.q1, q.q1) <= 0 && CompareObjs(q.q1, r.q1) <= 0 { ObjsChain(p.q1, q.q1, r.q1); }
    if CompareObjs(p.q2, q.q2) <= 0 && CompareObjs(q.q2, r.q2) <= 0 { ObjsChain(p.q2, q.q2, r.q2); }
  }

  function CompareCp(p1: IC, p2: IC): int {
    var i := CompareObjs(p1.q1, p2.q1);
    if i != 0 then i else CompareObjs(p1.z, p2.z)
  }

  /** compare_cp finds two copies equal exactly when they copy the same variable to the same variable. */
  lemma CompareCpEqual(p1: IC, p2: IC)
    ensures CompareCp(p1, p2) == 0 <==> p1.q1 == p2.q1 && p1.z == p2.z
  {}

  lemma CompareCpOrders(p: IC, q: IC, r: IC)
    ensures CompareCp(p, q) < 0 <==> CompareCp(q, p) > 0
    ensures CompareCp(p, q) <= 0 && CompareCp(q, r) <= 0 ==> CompareCp(p, r) <= 0
  {
    if CompareCp(p, q) <= 0 && CompareCp(q, r) <= 0 {
      hide CompareObjs;
      if CompareObjs(p.q1, q.q1) <= 0 && CompareObjs(q.q1, r.q1) <= 0 { ObjsChain(p.q1, q.q1, r.q1); }
      if CompareObjs(p.z, q.z) <= 0 && CompareObjs(q.z, r.z) <= 0 { ObjsChain(p.z, q.z, r.z); }
    }
  }

  // ----- the numbers -----

  /** What is numbered: expressions in their field expindex, or copies in copyindex. */
  datatype Field = ExpIndex | CopyIndex

  function Get(f: Field, p: IC): int {
    if f.ExpIndex? then p.expindex else p.copyindex
  }

  function Put(f: Field, p: IC, i: int): IC {
    if f.ExpIndex? then p.(expindex := i) else p.(copyindex := i)
  }

  function CompareBy(f: Field, p: IC, q: IC): int {
    if f.ExpIndex? then CompareExp(p, q) else CompareCp(p, q)
  }

  lemma CompareOrders(f: Field, p: IC, q: IC, r: IC)
    ensures CompareBy(f, p, p) == 0
    ensures CompareBy(f, p, q) < 0 <==> CompareBy(f, q, p) > 0
    ensures CompareBy(f, p, q) <= 0 && CompareBy(f, q, r) <= 0 ==> CompareBy(f, p, r) <= 0
  {
    hide CompareExp, CompareCp;
    if f.ExpIndex? {
      CompareExpFlips(p, q);
      CompareExpFlips(p, p);
      if CompareExp(p, q) <= 0 && CompareExp(q, r) <= 0 { CompareExpChains(p, q, r); }
    } else {
      CompareCpOrders(p, q, r);
      CompareCpOrders(p, p, p);
    }
  }

  function At(list: seq<IC>, k: nat): IC {
    if k < |list| then list[k] else IC(Nop, NoObj, NoObj, NoObj, [], [], -1, -1)
  }

  /** The sorted lists hold pointers to instructions; here their places in the program. */
  function Comparing(f: Field, list: seq<IC>): (nat, nat) -> int {
    (x: nat, y: nat) => CompareBy(f, At(list, x), At(list, y))
  }

  /** The comparison functions order totally, as the sort needs. */
  lemma ComparingCompares(f: Field, list: seq<IC>)
    ensures Compares<nat>(Comparing(f, list))
  {
    hide CompareBy, At;
    forall x: nat
      ensures Comparing(f, list)(x, x) == 0
    {
      CompareOrders(f, At(list, x), At(list, x), At(list, x));
    }
    forall x: nat, y: nat
      ensures Comparing(f, list)(x, y) < 0 <==> Comparing(f, list)(y, x) > 0
    {
      CompareOrders(f, At(list, x), At(list, y), At(list, y));
    }
    forall x: nat, y: nat, z: nat | Comparing(f, list)(x, y) <= 0 && Comparing(f, list)(y, z) <= 0
      ensures Comparing(f, list)(x, z) <= 0
    {
      CompareOrders(f, At(list, x), At(list, y), At(list, z));
    }
  }

  predicate SameBut(f: Field, p: IC, q: IC) {
    Put(f, p, Get(f, q)) == q
  }

  ghost predicate SameLists(f: Field, list: seq<IC>, list': seq<IC>) {
    |list| == |list'| && forall k :: 0 <= k < |list| ==> SameBut(f, list[k], list'[k])
  }

  /** elist and the numbers are inverse to each other. */
  ghost predicate Inverse(f: Field, list: seq<IC>, elist: seq<nat>) {
    && (forall c :: 0 <= c < |elist| ==> elist[c] < |list| && Get(f, list[elist[c]]) == c)
    && (forall k :: 0 <= k < |list| && Get(f, list[k]) >= 0 ==>
          Get(f, list[k]) < |elist| && elist[Get(f, list[k])] == k)
  }

  /** The instructions before place i have numbers of their own, in order, or -1. */
  ghost predicate Enumerated(f: Field, list: seq<IC>, places: seq<nat>, i: nat) {
    && i <= |list|
    && (forall c :: 0 <= c < |places| ==> places[c] < i && Get(f, list[places[c]]) == c)
    && (forall k :: 0 <= k < i ==> -1 <= Get(f, list[k]))
    && (forall k :: 0 <= k < i && Get(f, list[k]) >= 0 ==> Get(f, list[k]) < |places| && places[Get(f, list[k])] == k)
  }

  lemma NothingEnumerated(f: Field, list: seq<IC>)
    ensures Enumerated(f, list, [], 0)
  {}

  lemma EnumeratedOn(f: Field, list: seq<IC>, places: seq<nat>, i: nat, q: IC, chosen: bool)
    requires Enumerated(f, list, places, i) && i < |list|
    ensures Enumerated(f, list[i := Put(f, q, if chosen then |places| else -1)], if chosen then places + [i] else places, i + 1)
  {
    hide Put, Get;
    GetPut(f, q, if chosen then |places| else -1);
  }

  lemma GetPut(f: Field, q: IC, i: int)
    ensures Get(f, Put(f, q, i)) == i
  {}

  lemma EnumeratedAll(f: Field, list: seq<IC>, places: seq<nat>)
    requires Enumerated(f, list, places, |list|)
    ensures Inverse(f, list, places) && forall k :: 0 <= k < |list| ==> -1 <= Get(f, list[k])
  {}

  ghost predicate Below(f: Field, list: seq<IC>, count: nat) {
    forall k :: 0 <= k < |list| && Get(f, list[k]) >= 0 ==> Get(f, list[k]) < count
  }

  /** elist has, at every number in use, an instruction with that number. */
  ghost predicate Represents(f: Field, list: seq<IC>, elist: seq<nat>) {
    Below(f, list, |elist|) && forall k :: 0 <= k < |list| && Get(f, list[k]) >= 0 ==>
      var e := elist[Get(f, list[k])]; e < |list| && Get(f, list[e]) == Get(f, list[k])
  }

  /** The loops that enter every numbered instruction in the list at its number. */
  method Enter(ics: array<IC>, elist: array<nat>, f: Field)
    requires Below(f, ics[..], elist.Length)
    modifies elist
    ensures Represents(f, ics[..], elist[..])
    ensures forall c :: 0 <= c < elist.Length && old(elist[c]) < ics.Length ==> elist[c] < ics.Length
  {
    for i := 0 to ics.Length
      invariant forall c :: 0 <= c < elist.Length && old(elist[c]) < ics.Length ==> elist[c] < ics.Length
      invariant forall k :: 0 <= k < i && Get(f, ics[k]) >= 0 ==>
                  var e := elist[Get(f, ics[..][k])]; e < ics.Length && Get(f, ics[e]) == Get(f, ics[k])
    {
      assert ics[..][i] == ics[i];
      if Get(f, ics[i]) >= 0 {
        elist[Get(f, ics[i])] := i;
      }
    }
  }

  lemma InverseUnique(f: Field, list: seq<IC>, places: seq<nat>, elist: seq<nat>)
    requires Inverse(f, list, places) && |elist| == |places| && Represents(f, list, elist)
    ensures elist == places
  {
    forall c | 0 <= c < |places|
      ensures elist[c] == places[c]
    {
      assert Get(f, list[places[c]]) == c;
      assert places[Get(f, list[elist[c]])] == elist[c];
    }
  }

  // ----- sorting -----

  lemma CountDistinct(s: seq<nat>)
    requires forall i, j :: 0 <= i < j < |s| ==> s[i] != s[j]
    ensures forall x :: multiset(s)[x] <= 1
  {
    if s != [] {
      var k := |s| - 1;
      CountDistinct(s[..k]);
      assert s == s[..k] + [s[k]];
      assert s[k] !in s[..k];
    }
  }

  lemma PermutedDistinct(s: seq<nat>, t: seq<nat>)
    requires multiset(s) == multiset(t) && forall i, j :: 0 <= i < j < |s| ==> s[i] != s[j]
    ensures forall i, j :: 0 <= i < j < |t| ==> t[i] != t[j]
  {
    CountDistinct(s);
    forall i, j | 0 <= i < j < |t|
      ensures t[i] == t[j] ==> multiset(t)[t[j]] >= 2
    {
      assert t == t[..j] + [t[j]] + t[j + 1..];
      assert t[i] in t[..j];
    }
  }

  /** What the sort leaves of Inverse: elist lists each numbered place once. */
  ghost predicate ListsOnce(f: Field, list: seq<IC>, elist: seq<nat>) {
    && (forall c :: 0 <= c < |elist| ==> elist[c] < |list| && Get(f, list[elist[c]]) >= 0)
    && (forall k :: 0 <= k < |list| && Get(f, list[k]) >= 0 ==> k in elist)
    && (forall c, d :: 0 <= c < d < |elist| ==> elist[c] != elist[d])
  }

  lemma SortedListsOnce(f: Field, list: seq<IC>, elist: seq<nat>, elist': seq<nat>)
    requires Inverse(f, list, elist) && Permuted(elist, elist', 0, |elist|)
    ensures |elist'| == |elist| && ListsOnce(f, list, elist')
    ensures forall c, d :: 0 <= c < d < |elist'| ==> Get(f, list[elist'[c]]) != Get(f, list[elist'[d]])
  {
    assert elist[0..|elist|] == elist && elist'[0..|elist|] == elist';
    PermutedDistinct(elist, elist');
    forall c | 0 <= c < |elist'|
      ensures elist'[c] in elist
    {
      assert elist'[c] in multiset(elist');
    }
    forall k | 0 <= k < |list| && Get(f, list[k]) >= 0
      ensures k in elist'
    {
      assert elist[Get(f, list[k])] in multiset(elist);
    }
  }

  function Indices(f: Field, list: seq<IC>, es: seq<nat>): (idx: seq<int>)
    ensures |idx| == |es|
  {
    seq(|es|, d requires 0 <= d < |es| => Get(f, At(list, es[d])))
  }

  /** The sorting step: elist comes out sorted and still lists every numbered instruction once. */
  method SortList(ics: array<IC>, elist: array<nat>, f: Field)
    requires Inverse(f, ics[..], elist[..])
    modifies elist
    ensures ListsOnce(f, ics[..], elist[..]) && Sorted(elist[..], Comparing(f, ics[..]))
    ensures forall i, j :: 0 <= i < j < elist.Length ==>
              Indices(f, ics[..], elist[..])[i] != Indices(f, ics[..], elist[..])[j]
  {
    hide Compares, Sorted, Inverse, CompareBy;
    ghost var places := elist[..];
    ComparingCompares(f, ics[..]);
    VqSort(elist, 0, elist.Length, Comparing(f, ics[..]));
    assert elist[0..elist.Length] == elist[..];
    SortedListsOnce(f, ics[..], places, elist[..]);
    ghost var idx := Indices(f, ics[..], elist[..]);
    forall i, j | 0 <= i < j < elist.Length
      ensures idx[i] != idx[j]
    {
      assert idx[i] == Get(f, ics[..][elist[..][i]]) && idx[j] == Get(f, ics[..][elist[..][j]]);
    }
  }

  // ----- renumbering -----

  /** Equal numbers mean equal instructions and the other way round. */
  ghost predicate EqualNumbers(f: Field, list: seq<IC>, i: nat, j: nat) {
    i < |list| && j < |list| && (Get(f, list[i]) == Get(f, list[j]) <==> CompareBy(f, list[i], list[j]) == 0)
  }

  ghost predicate AllEqualNumbers(f: Field, list: seq<IC>) {
    forall i, j :: 0 <= i < |list| && 0 <= j < |list| && Get(f, list[i]) >= 0 && Get(f, list[j]) >= 0 ==>
      EqualNumbers(f, list, i, j)
  }

  /** The instructions at two places of the sorted list are equal. */
  predicate Equal(f: Field, list: seq<IC>, es: seq<nat>, c: nat, d: nat)
    requires c < |es| && d < |es|
  {
    CompareBy(f, At(list, es[c]), At(list, es[d])) == 0
  }

  lemma EqualIsEquivalence(f: Field, list: seq<IC>, es: seq<nat>, c: nat, d: nat)
    requires c < |es| && d < |es|
    ensures Equal(f, list, es, c, c) && (Equal(f, list, es, c, d) <==> Equal(f, list, es, d, c))
  {
    hide CompareBy;
    CompareOrders(f, At(list, es[c]), At(list, es[d]), At(list, es[d]));
    CompareOrders(f, At(list, es[d]), At(list, es[c]), At(list, es[c]));
  }

  lemma SortedNeighbours(f: Field, list: seq<IC>, es: seq<nat>, i: nat, c: nat)
    requires Sorted(es, Comparing(f, list)) && i <= c < |es| - 1
    ensures Equal(f, list, es, i, c + 1) <==> Equal(f, list, es, i, c) && Equal(f, list, es, c, c + 1)
  {
    hide CompareBy;
    var p, q, r := At(list, es[i]), At(list, es[c]), At(list, es[c + 1]);
    CompareOrders(f, p, r, q); CompareOrders(f, r, p, q);
    CompareOrders(f, p, q, r); CompareOrders(f, q, p, r);
    CompareOrders(f, q, r, p); CompareOrders(f, r, q, p);
    assert i < c ==> Comparing(f, list)(es[i], es[c]) <= 0;
    assert Comparing(f, list)(es[c], es[c + 1]) <= 0;
    assert Comparing(f, list)(es[i], es[c + 1]) <= 0;
  }

  /** Up to place c of the sorted list equal instructions share a number, one of the old ones; beyond c the
      numbers are the old ones. */
  ghost predicate Renumbered(f: Field, list: seq<IC>, es: seq<nat>, was: seq<int>, idx: seq<int>, c: nat) {
    && c < |es| == |was| == |idx|
    && (forall d :: c < d < |es| ==> idx[d] == was[d])
    && (forall i :: 0 <= i <= c ==> idx[i] in was[..c + 1])
    && (forall i, j :: 0 <= i <= j <= c ==> (idx[i] == idx[j] <==> Equal(f, list, es, i, j)))
  }

  lemma RenumberStep(f: Field, list: seq<IC>, es: seq<nat>, was: seq<int>, idx: seq<int>, c: nat)
    requires Renumbered(f, list, es, was, idx, c) && c < |es| - 1
    requires Sorted(es, Comparing(f, list))
    requires forall i, j :: 0 <= i < j < |was| ==> was[i] != was[j]
    ensures Renumbered(f, list, es, was,
                       if Equal(f, list, es, c, c + 1) then idx[c + 1 := idx[c]] else idx, c + 1)
  {
    hide Equal, Sorted;
    var idx' := if Equal(f, list, es, c, c + 1) then idx[c + 1 := idx[c]] else idx;
    assert was[..c + 2] == was[..c + 1] + [was[c + 1]];
    forall i | 0 <= i <= c
      ensures idx'[i] == idx'[c + 1] <==> Equal(f, list, es, i, c + 1)
    {
      SortedNeighbours(f, list, es, i, c);
      assert idx[i] == idx[c] <==> Equal(f, list, es, i, c);
    }
    EqualIsEquivalence(f, list, es, c + 1, c + 1);
  }

  lemma PutCompares(f: Field, p: IC, p': IC, q: IC, q': IC)
    requires SameBut(f, p, p') && SameBut(f, q, q')
    ensures CompareBy(f, p', q') == CompareBy(f, p, q)
  {}

  lemma EqualAt(f: Field, list: seq<IC>, cur: seq<IC>, es: seq<nat>, c: nat, d: nat)
    requires SameLists(f, list, cur)
    requires c < |es| && d < |es| && es[c] < |list| && es[d] < |list|
    ensures Equal(f, list, es, c, d) <==> CompareBy(f, cur[es[c]], cur[es[d]]) == 0
  {
    PutCompares(f, list[es[c]], cur[es[c]], list[es[d]], cur[es[d]]);
  }

  lemma NothingRenumbered(f: Field, list: seq<IC>, es: seq<nat>)
    requires es != []
    ensures Renumbered(f, list, es, Indices(f, list, es), Indices(f, list, es), 0)
  {
    hide Compares;
    EqualIsEquivalence(f, list, es, 0, 0);
  }

  lemma AllRenumbered(f: Field, list: seq<IC>, cur: seq<IC>, es: seq<nat>, was: seq<int>)
    requires es != [] && Renumbered(f, list, es, was, Indices(f, cur, es), |es| - 1) && ListsOnce(f, list, es)
    requires SameLists(f, list, cur)
    requires forall k :: 0 <= k < |list| ==> (Get(f, cur[k]) >= 0 <==> Get(f, list[k]) >= 0)
    ensures AllEqualNumbers(f, cur)
  {
    hide Equal;
    forall i, j | 0 <= i < |list| && 0 <= j < |list| && Get(f, cur[i]) >= 0 && Get(f, cur[j]) >= 0
      ensures EqualNumbers(f, cur, i, j)
    {
      assert i in es && j in es;
      var c :| 0 <= c < |es| && es[c] == i;
      var d :| 0 <= d < |es| && es[d] == j;
      EqualAt(f, list, cur, es, c, d);
      EqualIsEquivalence(f, list, es, c, d);
      var idx := Indices(f, cur, es);
      assert idx[c] == Get(f, cur[i]) && idx[d] == Get(f, cur[j]);
      assert if c <= d then idx[c] == idx[d] <==> Equal(f, list, es, c, d)
             else idx[d] == idx[c] <==> Equal(f, list, es, d, c);
    }
  }

  lemma NumberPut(f: Field, list: seq<IC>, cur: seq<IC>, es: seq<nat>, c: nat)
    requires SameLists(f, list, cur) && ListsOnce(f, list, es) && c + 1 < |es|
    requires forall k :: 0 <= k < |list| ==> (Get(f, cur[k]) >= 0 <==> Get(f, list[k]) >= 0)
    ensures es[c] < |cur| && es[c + 1] < |cur|
    ensures var cur' := cur[es[c + 1] := Put(f, cur[es[c + 1]], Get(f, cur[es[c]]))];
      && SameLists(f, list, cur')
      && Get(f, cur'[es[c + 1]]) == Get(f, cur[es[c]]) >= 0
      && Indices(f, cur', es) == Indices(f, cur, es)[c + 1 := Indices(f, cur, es)[c]]
  {
    var q := cur[es[c + 1]];
    var i := Get(f, cur[es[c]]);
    assert Get(f, Put(f, q, i)) == i;
    assert Put(f, list[es[c + 1]], Get(f, q)) == q;
    assert Put(f, Put(f, list[es[c + 1]], Get(f, q)), i) == Put(f, list[es[c + 1]], i);
    var cur' := cur[es[c + 1] := Put(f, q, i)];
    forall d | 0 <= d < |es|
      ensures Indices(f, cur', es)[d] == Indices(f, cur, es)[c + 1 := Indices(f, cur, es)[c]][d]
    {
      assert d != c + 1 ==> es[d] != es[c + 1];
    }
  }

  /** The loop that renumbers: in the sorted list an instruction takes over the number of an equal one before it. */
  method Renumber(ics: array<IC>, elist: array<nat>, f: Field)
    requires ListsOnce(f, ics[..], elist[..]) && Sorted(elist[..], Comparing(f, ics[..]))
    requires Below(f, ics[..], elist.Length)
    requires forall i, j :: 0 <= i < j < elist.Length ==>
               Indices(f, ics[..], elist[..])[i] != Indices(f, ics[..], elist[..])[j]
    modifies ics
    ensures SameLists(f, old(ics[..]), ics[..])
    ensures forall k :: 0 <= k < ics.Length ==> (Get(f, ics[k]) >= 0 <==> old(Get(f, ics[k])) >= 0)
    ensures Below(f, ics[..], elist.Length) && AllEqualNumbers(f, ics[..])
  {
    hide Sorted, Renumbered, Equal, Indices, CompareBy;
    ghost var list := ics[..];
    ghost var es := elist[..];
    ghost var was := Indices(f, list, es);
    var ecount := elist.Length;
    if ecount > 0 {
      NothingRenumbered(f, list, es);
      for c := 0 to ecount - 1
        invariant SameLists(f, list, ics[..])
        invariant forall k :: 0 <= k < ics.Length ==> (Get(f, ics[k]) >= 0 <==> Get(f, list[k]) >= 0)
        invariant forall k :: 0 <= k < ics.Length && Get(f, ics[k]) >= 0 ==> Get(f, ics[k]) < elist.Length
        invariant Renumbered(f, list, es, was, Indices(f, ics[..], es), c)
      {
        RenumberStep(f, list, es, was, Indices(f, ics[..], es), c);
        EqualAt(f, list, ics[..], es, c, c + 1);
        ghost var cur := ics[..];
        if CompareBy(f, ics[elist[c]], ics[elist[c + 1]]) == 0 {
          NumberPut(f, list, cur, es, c);
          ics[elist[c + 1]] := Put(f, ics[elist[c + 1]], Get(f, ics[elist[c]]));
          assert ics[..] == cur[es[c + 1] := Put(f, cur[es[c + 1]], Get(f, cur[es[c]]))];
        }
      }
      AllRenumbered(f, list, ics[..], es, was);
    } else {
      forall k | 0 <= k < ics.Length
        ensures Get(f, ics[k]) < 0
      {
        assert Get(f, list[k]) >= 0 ==> k in es;
      }
    }
  }

  /** From numbers of their own to shared ones: enter, sort, renumber, enter again. */
  method ShareNumbers(ics: array<IC>, elist: array<nat>, f: Field, ghost places: seq<nat>)
    requires |places| == elist.Length && Inverse(f, ics[..], places)
    modifies ics, elist
    ensures SameLists(f, old(ics[..]), ics[..])
    ensures forall k :: 0 <= k < ics.Length ==> (Get(f, ics[k]) >= 0 <==> old(Get(f, ics[k])) >= 0)
    ensures AllEqualNumbers(f, ics[..]) && Represents(f, ics[..], elist[..])
    ensures forall c :: 0 <= c < elist.Length ==> elist[c] < ics.Length
  {
    hide Sorted, Comparing, AllEqualNumbers, CompareBy;
    Enter(ics, elist, f);
    InverseUnique(f, ics[..], places, elist[..]);
    SortList(ics, elist, f);
    Renumber(ics, elist, f);
    Enter(ics, elist, f);
  }
}
