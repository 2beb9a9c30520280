/** num_copies, available_copies and copy_propagation, one after the other. */
module CopyPass {
  import opened FlowGraph
  import opened Available
  import opened Numbering
  import opened CopyProp
  import opened CopyNumbers
  import opened InstructionList

  /** list is the instruction list of fg with copy numbers from table. */
  ghost predicate IsNumbered(fg: seq<Block>, list: seq<IC>, table: map<nat, Copy>) {
    && |list| == |Instructions(fg)|
    && (forall k :: 0 <= k < |list| ==> SameBut(CopyIndex, Instructions(fg)[k], list[k]) && Numbered(list[k], table))
    && (forall c :: c in table ==> exists k :: 0 <= k < |list| && list[k].copyindex == c)
  }

  lemma NumberedPlace(fg: seq<Block>, list: seq<IC>, table: map<nat, Copy>, i: nat, j: nat)
    requires IsNumbered(fg, list, table) && i < |fg| && j < |fg[i].ics|
    ensures SameBut(CopyIndex, fg[i].ics[j], Cut(fg, list)[i].ics[j]) && Numbered(Cut(fg, list)[i].ics[j], table)
  {
    hide SameBut, Numbered;
    var k := CutAt(fg, list, i, j);
  }

  lemma NumberedDoes(p: IC, p': IC, vcount: nat)
    requires SameBut(CopyIndex, p, p')
    ensures Covered(p', vcount) <==> Covered(p, vcount)
  {}

  lemma NumberedExec(p: IC, p': IC, sem: Sem, s: Store)
    requires SameBut(CopyIndex, p, p')
    ensures Exec(p', sem, s) == Exec(p, sem, s)
  {}

  lemma NumberedBlocks(fg: seq<Block>, list: seq<IC>, table: map<nat, Copy>, vcount: nat)
    requires IsNumbered(fg, list, table) && AllCovered(fg, vcount)
    ensures AllCovered(Cut(fg, list), vcount) && AllNumbered(Cut(fg, list), table, vcount)
  {
    hide Numbered, IsNumbered, Instructions, Covered, SameBut;
    NumberedLength(fg, list, table);
    var fg' := Cut(fg, list);
    forall b, p | b in fg' && p in b.ics
      ensures Covered(p, vcount) && Numbered(p, table)
    {
      var i :| 0 <= i < |fg'| && fg'[i] == b;
      var j :| 0 <= j < |fg'[i].ics| && fg'[i].ics[j] == p;
      NumberedPlace(fg, list, table, i, j);
      assert fg[i] in fg && fg[i].ics[j] in fg[i].ics;
      NumberedDoes(fg[i].ics[j], p, vcount);
    }
    forall c | c in table
      ensures table[c].z < vcount && table[c].y < vcount
    {
      NamesSomething(fg, list, table);
      NamedBelow(fg', list, table, vcount, c);
    }
  }

  lemma NamesSomething(fg: seq<Block>, list: seq<IC>, table: map<nat, Copy>)
    requires IsNumbered(fg, list, table)
    ensures forall c :: c in table ==> exists k :: 0 <= k < |list| && list[k].copyindex == c
  {}

  lemma NamedBelow(fg: seq<Block>, list: seq<IC>, table: map<nat, Copy>, vcount: nat, c: nat)
    requires Instructions(fg) == list && AllCovered(fg, vcount) && c in table
    requires forall b, p :: b in fg && p in b.ics ==> Numbered(p, table)
    requires exists k :: 0 <= k < |list| && list[k].copyindex == c
    ensures table[c].z < vcount && table[c].y < vcount
  {
    var k :| 0 <= k < |list| && list[k].copyindex == c;
    HasBlock(fg, list[k]);
    var b :| b in fg && list[k] in b.ics;
    assert Numbered(list[k], table) && Covered(list[k], vcount);
  }

  /** The numbers change neither the edges nor what the instructions do and read. */
  lemma NumberedSame(fg: seq<Block>, list: seq<IC>, table: map<nat, Copy>, preds: seq<seq<nat>>)
    requires IsNumbered(fg, list, table) && BranchesInside(fg) && Lists(fg, preds)
    ensures BranchesInside(Cut(fg, list)) && Lists(Cut(fg, list), preds)
  {
    var fg' := Cut(fg, list);
    forall i, p: nat | 0 <= i < |fg'| && Edge(fg', p, i)
      ensures p in preds[i]
    {
      assert Edge(fg, p, i);
    }
    forall b | b in fg' && !b.branch.NoBranch?
      ensures b.branch.target < |fg'|
    {
      var i :| 0 <= i < |fg'| && fg'[i] == b;
      assert fg[i] in fg;
    }
  }

  lemma NumberedRuns(fg: seq<Block>, list: seq<IC>, table: map<nat, Copy>, sem: Sem, c: Conf, n: nat)
    requires IsNumbered(fg, list, table)
    ensures Run(Cut(fg, list), sem, c, n) == Run(fg, sem, c, n)
  {
    hide IsNumbered, Exec, SameBut, Instructions;
    NumberedLength(fg, list, table);
    var fg' := Cut(fg, list);
    forall i, j, s | 0 <= i < |fg| && 0 <= j < |fg[i].ics|
      ensures Exec(fg'[i].ics[j], sem, s) == Exec(fg[i].ics[j], sem, s)
    {
      NumberedPlace(fg, list, table, i, j);
      NumberedExec(fg[i].ics[j], fg'[i].ics[j], sem, s);
    }
    SameRuns(fg, fg', sem, c, n);
  }

  lemma NumberedLength(fg: seq<Block>, list: seq<IC>, table: map<nat, Copy>)
    requires IsNumbered(fg, list, table)
    ensures |list| == |Instructions(fg)|
  {}

  lemma NumberedReads(fg: seq<Block>, list: seq<IC>, table: map<nat, Copy>, fg': seq<Block>, volatile: set<nat>)
    requires IsNumbered(fg, list, table)
    ensures SameReadsAll(fg, fg', volatile) ==> SameReadsAll(Cut(fg, list), fg', volatile)
  {
    if SameReadsAll(fg, fg', volatile) {
      hide IsNumbered, VolatileReads;
      NumberedLength(fg, list, table);
      forall i, j | 0 <= i < |fg| && 0 <= j < |fg[i].ics|
        ensures VolatileReads(fg'[i].ics[j], volatile) == VolatileReads(Cut(fg, list)[i].ics[j], volatile)
      {
        assert SameReads(fg[i].ics, fg'[i].ics, volatile);
        NumberedPlace(fg, list, table, i, j);
        ReadsSame(fg[i].ics[j], Cut(fg, list)[i].ics[j], volatile);
      }
    }
  }

  lemma ReadsSame(p: IC, p': IC, volatile: set<nat>)
    requires SameBut(CopyIndex, p, p')
    ensures VolatileReads(p', volatile) == VolatileReads(p, volatile)
  {}

  /** Where clist's entries stand in the graph; entries that no instruction refers to are left out. */
  function Places(fg: seq<Block>, list: seq<IC>, clist: seq<nat>): map<nat, (nat, nat)>
    requires list == Instructions(fg) && forall c :: 0 <= c < |clist| ==> clist[c] < |list|
  {
    map c: nat | 0 <= c < |clist| && list[clist[c]].copyindex == c :: Place(fg, clist[c])
  }

  lemma PlacesListed(fg: seq<Block>, list: seq<IC>, clist: seq<nat>, table: map<nat, Copy>)
    requires list == Instructions(fg) && forall c :: 0 <= c < |clist| ==> clist[c] < |list|
    requires Represents(CopyIndex, list, clist)
    requires forall k :: 0 <= k < |list| ==> Numbered(list[k], table)
    requires forall c :: c in table ==> exists k :: 0 <= k < |list| && list[k].copyindex == c
    ensures Listed(fg, Places(fg, list, clist), table) && forall c :: c in table ==> c < |clist|
  {
    var places := Places(fg, list, clist);
    forall c | c in table
      ensures c in places && c < |clist|
    {
      var k :| 0 <= k < |list| && list[k].copyindex == c;
      assert Get(CopyIndex, list[k]) == c;
    }
    forall c | c in places
      ensures c in table
    {
      assert Numbered(list[clist[c]], table);
    }
    assert places.Keys == table.Keys;
  }

  /** num_copies on the instructions of all blocks; places has for each copy the block and place of clist's entry. */
  method NumberGraph(fg: array<Block>, vcount: nat)
    returns (ccount: nat, copies: array<set<nat>>, places: map<nat, (nat, nat)>, ghost list: seq<IC>,
             ghost table: map<nat, Copy>)
    requires AllCovered(fg[..], vcount)
    modifies fg
    ensures IsNumbered(old(fg[..]), list, table) && |list| == |Instructions(old(fg[..]))|
    ensures fg[..] == Cut(old(fg[..]), list)
    ensures copies.Length == vcount && IsMatrix(copies[..], table, vcount)
    ensures Listed(fg[..], places, table) && forall c :: c in table ==> c < ccount
  {
    hide AllCovered, Listed, IsMatrix, IsNumbered, Represents, AllEqualNumbers, Numbered, SameBut;
    ghost var was := fg[..];
    var given := Instructions(fg[..]);
    var ics := new IC[|given|](k requires 0 <= k < |given| => given[k]);
    CoveredBelow(was, vcount);
    assert ics[..] == given;
    var clist;
    clist, copies, table := NumCopies(ics, vcount);
    var numbered := ics[..];
    list := numbered;
    NumberedIs(was, list, table);
    MatrixSize(copies[..], table, vcount);
    ghost var rows := copies[..];
    var cut := Cut(fg[..], numbered);
    PlacesListed(cut, list, clist[..], table);
    places := Places(cut, numbered, clist[..]);
    ccount := clist.Length;
    forall i | 0 <= i < fg.Length {
      fg[i] := cut[i];
    }
    assert fg[..] == cut && copies[..] == rows;
  }

  /** Copies are numbered, the available ones found and the operands replaced. Every run from the entry goes through
      the same blocks, with the same stores and the same events but for the reading of volatile operands; and with
      the same events altogether, if every instruction reads the same volatile variables as before. And every operand
      is replaced that the greatest solution has a copy for. */
  method NumberAndPropagate(fg: array<Block>, preds: seq<seq<nat>>, vcount: nat, mayReplace: (IC, Obj) -> bool,
                            useq2asz: bool)
    returns (changed: bool, ghost list: seq<IC>, ghost table: map<nat, Copy>, ghost l: Listing, ghost f: Flow,
             ghost ins: seq<set<nat>>, ghost outs: seq<set<nat>>)
    requires BranchesInside(fg[..]) && Lists(fg[..], preds) && AllCovered(fg[..], vcount)
    modifies fg
    ensures IsNumbered(old(fg[..]), list, table) && |list| == |Instructions(old(fg[..]))| && l.fg == Cut(old(fg[..]), list)
    ensures AllNumbered(l.fg, table, vcount) && FlowOf(l.fg, table, f) && Solution(l.fg, f, ins, outs)
    ensures forall y :: Supported(l.fg, f, y) ==> Available.Below(y, outs)
    ensures forall c :: c in table ==> c in f.universe && c < l.ccount
    ensures StillCopies(l.fg, l.clist, table, {}) && HasPlaces(l.fg, l.clist) && l.mayReplace == mayReplace
    ensures |ins| == |l.fg| && fg[..] == RewritingAll(l, ins, 0, {}, table, useq2asz)
    ensures forall sem: Sem, c: Conf, n: nat {:trigger Run(old(fg[..]), sem, c, n)} {:trigger Run(fg[..], sem, c, n)} ::
      |c.store.vals| == vcount && c.pos == 0 ==>
        && AlikeConf(Run(old(fg[..]), sem, c, n), Run(fg[..], sem, c, n))
        && (SameReadsAll(old(fg[..]), fg[..], sem.volatile) ==> Run(fg[..], sem, c, n) == Run(old(fg[..]), sem, c, n))
  {
    hide BranchesInside, Lists, AllCovered, AllNumbered, Listed, IsMatrix, IsNumbered, AlikeConf, SameReadsAll, Run,
         StillCopies, HasPlaces, FlowOf, Solution, Supported, RewritingAll;
    ghost var was := fg[..];
    var ccount, copies, places;
    ccount, copies, places, list, table := NumberGraph(fg, vcount);
    l := Listing(fg[..], places, ccount, mayReplace);
    NumberedBlocks(was, list, table, vcount);
    NumberedSame(was, list, table, preds);
    ListedStillCopies(l.fg, places, table, vcount);
    PlacesOfCopies(l.fg, places, table, {});
    changed, f, ins, outs := PropagateCopies(fg, preds, places, ccount, NumbersBelow(ccount), copies[..], mayReplace, useq2asz, table);
    forall sem: Sem, c: Conf, n: nat | |c.store.vals| == vcount && c.pos == 0
      ensures AlikeConf(Run(was, sem, c, n), Run(fg[..], sem, c, n))
      ensures SameReadsAll(was, fg[..], sem.volatile) ==> Run(fg[..], sem, c, n) == Run(was, sem, c, n)
    {
      NumberedRuns(was, list, table, sem, c, n);
      NumberedReads(was, list, table, fg[..], sem.volatile);
    }
  }

  lemma MatrixSize(copies: seq<set<nat>>, table: map<nat, Copy>, vcount: nat)
    requires IsMatrix(copies, table, vcount)
    ensures |copies| == vcount
  {}

  lemma NumberedIs(fg: seq<Block>, list: seq<IC>, table: map<nat, Copy>)
    requires |list| == |Instructions(fg)|
    requires forall k :: 0 <= k < |list| ==> SameBut(CopyIndex, Instructions(fg)[k], list[k])
    requires forall k :: 0 <= k < |list| ==> Numbered(list[k], table)
    requires forall c :: c in table ==> exists k :: 0 <= k < |list| && list[k].copyindex == c
    ensures IsNumbered(fg, list, table)
  {}

  lemma CoveredBelow(fg: seq<Block>, vcount: nat)
    requires AllCovered(fg, vcount)
    ensures forall p :: p in Instructions(fg) ==> VariablesBelow(p, vcount)
  {
    forall p | p in Instructions(fg)
      ensures VariablesBelow(p, vcount)
    {
      HasBlock(fg, p);
      var b :| b in fg && p in b.ics;
      assert Covered(p, vcount);
    }
  }
}
