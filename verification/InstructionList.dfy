/** The instructions of a function as one list in program order, of which the basic blocks are the pieces. */
module InstructionList {
  import opened FlowGraph

  function Instructions(fg: seq<Block>): seq<IC> {
    if fg == [] then [] else Instructions(fg[..|fg| - 1]) + fg[|fg| - 1].ics
  }

  /** The block of instruction k of the list, and its place there. */
  function Place(fg: seq<Block>, k: nat): (r: (nat, nat))
    requires k < |Instructions(fg)|
    ensures r.0 < |fg| && r.1 < |fg[r.0].ics| && fg[r.0].ics[r.1] == Instructions(fg)[k]
  {
    var m := |fg| - 1;
    var n := |Instructions(fg[..m])|;
    if k >= n then (m, k - n) else Place(fg[..m], k)
  }

  /** The graph with list for its instructions. */
  function Cut(fg: seq<Block>, list: seq<IC>): (r: seq<Block>)
    requires |list| == |Instructions(fg)|
    ensures |r| == |fg| && forall i :: 0 <= i < |fg| ==> r[i] == fg[i].(ics := r[i].ics) && |r[i].ics| == |fg[i].ics|
    ensures Instructions(r) == list
  {
    if fg == [] then [] else
      var m := |fg| - 1;
      var n := |Instructions(fg[..m])|;
      var r := Cut(fg[..m], list[..n]);
      assert (r + [fg[m].(ics := list[n..])])[..m] == r;
      r + [fg[m].(ics := list[n..])]
  }

  lemma CutSplits(fg: seq<Block>, list: seq<IC>, i: nat)
    requires |list| == |Instructions(fg)| && i < |fg|
    ensures var m := |fg| - 1;
            var n := |Instructions(fg[..m])|;
            && n + |fg[m].ics| == |list| && Instructions(fg) == Instructions(fg[..m]) + fg[m].ics
            && Cut(fg, list)[i] == if i == m then fg[m].(ics := list[n..]) else Cut(fg[..m], list[..n])[i]
  {}

  /** Instruction j of block i stands at the same place of the list before and after. */
  lemma {:induction false} CutAt(fg: seq<Block>, list: seq<IC>, i: nat, j: nat) returns (k: nat)
    requires |list| == |Instructions(fg)| && i < |fg| && j < |fg[i].ics|
    ensures k < |list| && Cut(fg, list)[i].ics[j] == list[k] && fg[i].ics[j] == Instructions(fg)[k]
  {
    var m := |fg| - 1;
    var n := |Instructions(fg[..m])|;
    CutSplits(fg, list, i);
    hide Cut, Instructions;
    if i == m {
      k := n + j;
    } else {
      k := CutAt(fg[..m], list[..n], i, j);
      assert fg[..m][i] == fg[i] && list[..n][k] == list[k];
    }
  }

  lemma {:induction false} ListHas(fg: seq<Block>, b: Block, p: IC)
    requires b in fg && p in b.ics
    ensures p in Instructions(fg)
  {
    var m := |fg| - 1;
    if b in fg[..m] {
      ListHas(fg[..m], b, p);
    }
  }

  lemma {:induction false} HasBlock(fg: seq<Block>, p: IC)
    requires p in Instructions(fg)
    ensures exists b :: b in fg && p in b.ics
  {
    var m := |fg| - 1;
    if p in Instructions(fg[..m]) {
      HasBlock(fg[..m], p);
      var b :| b in fg[..m] && p in b.ics;
      assert b in fg;
    } else {
      assert fg[m] in fg && p in fg[m].ics;
    }
  }

  /** Two graphs that differ at most in their instructions. */
  ghost predicate SameShape(fg: seq<Block>, fg': seq<Block>) {
    |fg'| == |fg| && forall i :: 0 <= i < |fg| ==> fg'[i] == fg[i].(ics := fg'[i].ics) && |fg'[i].ics| == |fg[i].ics|
  }

  /** Instructions that do the same one by one do the same in a run. */
  ghost predicate SameExec(fg: seq<Block>, fg': seq<Block>, sem: Sem) {
    forall i, j, s :: 0 <= i < |fg| && i < |fg'| && 0 <= j < |fg[i].ics| && j < |fg'[i].ics| ==>
      Exec(fg'[i].ics[j], sem, s) == Exec(fg[i].ics[j], sem, s)
  }

  lemma {:induction false} SameExecAll(ics: seq<IC>, ics': seq<IC>, sem: Sem, s: Store)
    requires |ics'| == |ics| && forall j, s :: 0 <= j < |ics| ==> Exec(ics'[j], sem, s) == Exec(ics[j], sem, s)
    ensures ExecAll(ics', sem, s) == ExecAll(ics, sem, s)
  {
    if ics != [] {
      SameExecAll(ics[..|ics| - 1], ics'[..|ics| - 1], sem, s);
    }
  }

  lemma {:induction false} SameRuns(fg: seq<Block>, fg': seq<Block>, sem: Sem, c: Conf, n: nat)
    requires SameShape(fg, fg') && SameExec(fg, fg', sem)
    ensures Run(fg', sem, c, n) == Run(fg, sem, c, n)
  {
    hide Exec;
    if n > 0 {
      SameRuns(fg, fg', sem, c, n - 1);
      var d := Run(fg, sem, c, n - 1);
      if d.pos < |fg| {
        SameExecAll(fg[d.pos].ics, fg'[d.pos].ics, sem, d.store);
      }
    }
  }

  /** All numbers that a numbering up to n can use. */
  function NumbersBelow(n: nat): (r: set<nat>)
    ensures forall c: nat :: c in r <==> c < n
  {
    if n == 0 then {} else NumbersBelow(n - 1) + {n - 1}
  }
}
