/** Forward analyses over all paths: the part that available_copies in cp.c and
    available_expressions in cse.c have in common. */
module Available {
  import opened FlowGraph

  /** What an instruction does to the set of available indices: act becomes act - kill + gen. */
  datatype Effect = Effect(kill: set<nat>, gen: set<nat>)

  function Apply(e: Effect, act: set<nat>): set<nat> {
    (act - e.kill) + e.gen
  }

  function Walk(es: seq<Effect>, act: set<nat>): set<nat> {
    if es == [] then act else Apply(es[|es| - 1], Walk(es[..|es| - 1], act))
  }

  /** An index is available after es when something generates it and nothing kills it afterwards. */
  ghost predicate LastsFrom(es: seq<Effect>, i: nat, k: nat) {
    k < |es| && i in es[k].gen && forall j :: k < j < |es| ==> i !in es[j].kill
  }

  lemma {:induction false} WalkMeansLasts(es: seq<Effect>, i: nat)
    requires i in Walk(es, {})
    ensures exists k :: LastsFrom(es, i, k)
  {
    var m := |es| - 1;
    if i in es[m].gen {
      assert LastsFrom(es, i, m);
    } else {
      WalkMeansLasts(es[..m], i);
      var k :| LastsFrom(es[..m], i, k);
      assert LastsFrom(es, i, k);
    }
  }

  lemma {:induction false} LastsMeansWalk(es: seq<Effect>, i: nat, k: nat, act: set<nat>)
    requires LastsFrom(es, i, k)
    ensures i in Walk(es, act)
  {
    var m := |es| - 1;
    if k < m {
      assert LastsFrom(es[..m], i, k);
      LastsMeansWalk(es[..m], i, k, act);
    }
  }

  lemma {:induction false} WalkMonotone(es: seq<Effect>, a: set<nat>, b: set<nat>)
    requires a <= b
    ensures Walk(es, a) <= Walk(es, b)
  {
    if es != [] { WalkMonotone(es[..|es| - 1], a, b); }
  }

  lemma {:induction false} WalkAppend(es: seq<Effect>, fs: seq<Effect>, act: set<nat>)
    ensures Walk(es + fs, act) == Walk(fs, Walk(es, act))
    decreases |fs|
  {
    if fs == [] {
      assert es + fs == es;
    } else {
      var m := |fs| - 1;
      assert (es + fs)[..|es + fs| - 1] == es + fs[..m];
      WalkAppend(es, fs[..m], act);
    }
  }

  // ----- the equations -----

  /** in(B): what is available at the end of every predecessor; nothing when there is none. */
  ghost function MeetIn(fg: seq<Block>, outs: seq<set<nat>>, i: nat): set<nat>
    requires i < |fg| == |outs|
  {
    if exists p: nat :: Edge(fg, p, i) then
      var p: nat :| Edge(fg, p, i);
      set v | v in outs[p] && forall q: nat :: Edge(fg, q, i) ==> v in outs[q]
    else {}
  }

  /** What the loops start from and use: per block what it generates and kills, among the indices in universe. */
  datatype Flow = Flow(gen: seq<set<nat>>, kill: seq<set<nat>>, universe: set<nat>)

  ghost predicate Fits(fg: seq<Block>, f: Flow) {
    && |f.gen| == |f.kill| == |fg|
    && forall i :: 0 <= i < |fg| ==> f.gen[i] <= f.universe && f.gen[i] !! f.kill[i]
  }

  /** out(B) = gen(B) + (in(B) - kill(B)), with in(entry) empty. */
  ghost function OutOf(fg: seq<Block>, f: Flow, outs: seq<set<nat>>, i: nat): set<nat>
    requires Fits(fg, f) && i < |fg| == |outs|
  {
    if i == 0 then f.gen[0] else f.gen[i] + (MeetIn(fg, outs, i) - f.kill[i])
  }

  ghost predicate Solution(fg: seq<Block>, f: Flow, ins: seq<set<nat>>, outs: seq<set<nat>>)
    requires Fits(fg, f)
  {
    && |ins| == |outs| == |fg|
    && forall i :: 0 <= i < |fg| ==>
         ins[i] == (if i == 0 then {} else MeetIn(fg, outs, i)) && outs[i] == OutOf(fg, f, outs, i)
  }

  /** outs satisfies the inequations out(B) <= gen(B) + (in(B) - kill(B)); every solution does. */
  ghost predicate Supported(fg: seq<Block>, f: Flow, outs: seq<set<nat>>)
    requires Fits(fg, f)
  {
    |outs| == |fg| && forall i :: 0 <= i < |fg| ==> outs[i] <= OutOf(fg, f, outs, i) && outs[i] <= f.universe
  }

  ghost predicate Falling(fg: seq<Block>, f: Flow, outs: seq<set<nat>>)
    requires Fits(fg, f)
  {
    |outs| == |fg| && forall i :: 0 <= i < |fg| ==> OutOf(fg, f, outs, i) <= outs[i]
  }

  ghost predicate Below(x: seq<set<nat>>, y: seq<set<nat>>) {
    |x| == |y| && forall i :: 0 <= i < |x| ==> x[i] <= y[i]
  }

  ghost predicate AboveAll(fg: seq<Block>, f: Flow, outs: seq<set<nat>>)
    requires Fits(fg, f)
  {
    forall y :: Supported(fg, f, y) ==> Below(y, outs)
  }

  lemma MeetInMonotone(fg: seq<Block>, x: seq<set<nat>>, y: seq<set<nat>>, i: nat)
    requires Below(x, y) && i < |fg| == |x|
    ensures MeetIn(fg, x, i) <= MeetIn(fg, y, i)
  {
    forall v | v in MeetIn(fg, x, i)
      ensures v in MeetIn(fg, y, i)
    {
      var p: nat :| Edge(fg, p, i);
      assert forall q: nat :: Edge(fg, q, i) ==> v in x[q] && x[q] <= y[q];
    }
  }

  /** The predecessor lists: g->in holds the block before g, also where that ends in BRA, and the blocks that branch
      to g; so every edge is listed. */
  ghost predicate Lists(fg: seq<Block>, preds: seq<seq<nat>>) {
    && |preds| == |fg|
    && (forall i, k :: 0 <= i < |fg| && 0 <= k < |preds[i]| ==>
          var p := preds[i][k];
          p < |fg| && (p + 1 == i || (!fg[p].branch.NoBranch? && fg[p].branch.target == i)))
    && (forall i, p: nat :: 0 <= i < |fg| && Edge(fg, p, i) ==> p in preds[i])
  }

  // ----- the fixpoint loop -----

  /** in(B) of the loop: the intersection over the listed predecessors that are edges. */
  method Meet(fg: seq<Block>, preds: seq<seq<nat>>, outs: array<set<nat>>, g: nat) returns (m: set<nat>)
    requires Lists(fg, preds) && g < |fg| == outs.Length
    ensures m == MeetIn(fg, outs[..], g)
  {
    m := {};
    var first, k := true, 0;
    while k < |preds[g]|
      invariant 0 <= k <= |preds[g]|
      invariant first ==> m == {} && forall j :: 0 <= j < k ==> !Edge(fg, preds[g][j], g)
      invariant !first ==> exists j :: 0 <= j < k && Edge(fg, preds[g][j], g)
      invariant !first ==> forall v :: v in m <==>
                  forall j :: 0 <= j < k && Edge(fg, preds[g][j], g) ==> v in outs[preds[g][j]]
    {
      var p := preds[g][k];
      if (!fg[p].branch.NoBranch? && fg[p].branch.target == g) || !fg[p].branch.Bra? {
        m := if first then outs[p] else m * outs[p];
        first := false;
      }
      k := k + 1;
    }
  }

  ghost function Total(x: seq<set<nat>>): nat {
    if x == [] then 0 else Total(x[..|x| - 1]) + |x[|x| - 1]|
  }

  lemma {:induction false} TotalDrops(x: seq<set<nat>>, g: nat, s: set<nat>)
    requires g < |x| && s < x[g]
    ensures Total(x[g := s]) < Total(x)
  {
    var k := |x| - 1;
    if g == k {
      assert x[g := s][..k] == x[..k];
      ProperSubsetSize(s, x[g]);
    } else {
      assert x[g := s][..k] == x[..k][g := s];
      TotalDrops(x[..k], g, s);
    }
  }

  lemma ProperSubsetSize<T>(a: set<T>, b: set<T>)
    requires a < b
    ensures |a| < |b|
  {
    if a != {} {
      var x :| x in a;
      ProperSubsetSize(a - {x}, b - {x});
    }
  }

  /** One assignment of the loop keeps what makes its result the greatest solution. */
  lemma UpdateKeeps(fg: seq<Block>, f: Flow, x: seq<set<nat>>, g: nat)
    requires Fits(fg, f) && g < |fg| && Falling(fg, f, x) && AboveAll(fg, f, x)
    ensures var x' := x[g := OutOf(fg, f, x, g)];
      && Falling(fg, f, x') && AboveAll(fg, f, x')
      && (x[g] != OutOf(fg, f, x, g) ==> Total(x') < Total(x))
  {
    hide MeetIn;
    var s := OutOf(fg, f, x, g);
    var x' := x[g := s];
    forall i | 0 <= i < |fg|
      ensures OutOf(fg, f, x', i) <= x'[i]
    {
      MeetInMonotone(fg, x', x, i);
    }
    forall y | Supported(fg, f, y)
      ensures Below(y, x')
    {
      MeetInMonotone(fg, y, x, g);
    }
    if x[g] != s {
      TotalDrops(x, g, s);
    }
  }

  ghost function Start(fg: seq<Block>, f: Flow): (x: seq<set<nat>>)
    requires Fits(fg, f)
    ensures |x| == |fg|
  {
    seq(|fg|, i requires 0 <= i < |fg| => if i == 0 then f.gen[0] else f.universe - f.kill[i])
  }

  lemma StartIsAbove(fg: seq<Block>, f: Flow)
    requires Fits(fg, f)
    ensures Falling(fg, f, Start(fg, f)) && AboveAll(fg, f, Start(fg, f))
  {
    var x := Start(fg, f);
    forall i | 0 <= i < |fg|
      ensures OutOf(fg, f, x, i) <= x[i]
    {
      if i > 0 { MeetInWithin(fg, f, x, i); }
    }
  }

  lemma MeetInWithin(fg: seq<Block>, f: Flow, x: seq<set<nat>>, i: nat)
    requires |x| == |fg| && i < |fg| && forall k :: 0 <= k < |x| ==> x[k] <= f.universe
    ensures MeetIn(fg, x, i) <= f.universe
  {}

  /** The loop shared by available_copies and available_expressions: it stops for every graph,
      at the greatest solution of the equations. */
  method Solve(fg: seq<Block>, preds: seq<seq<nat>>, f: Flow)
    returns (ins: array<set<nat>>, outs: array<set<nat>>)
    requires Fits(fg, f) && Lists(fg, preds)
    ensures fresh(ins) && fresh(outs) && ins != outs && ins.Length == outs.Length == |fg|
    ensures Solution(fg, f, ins[..], outs[..])
    ensures forall y :: Supported(fg, f, y) ==> Below(y, outs[..])
  {
    hide MeetIn, OutOf, Total, Supported, Falling, Lists;
    ins := new set<nat>[|fg|](_ => {});
    outs := new set<nat>[|fg|](_ => {});
    for g := 0 to |fg|
      invariant forall i :: 0 <= i < |fg| ==> ins[i] == {}
      invariant forall i :: 0 <= i < g ==> outs[i] == Start(fg, f)[i]
    {
      outs[g] := if g == 0 then f.gen[0] else f.universe - f.kill[g];
    }
    assert outs[..] == Start(fg, f);
    StartIsAbove(fg, f);
    var changed := true;
    while changed
      invariant Falling(fg, f, outs[..]) && AboveAll(fg, f, outs[..])
      invariant |fg| > 0 ==> ins[0] == {} && outs[0] == f.gen[0]
      invariant !changed ==> Solution(fg, f, ins[..], outs[..])
      decreases Total(outs[..]), changed
    {
      changed := false;
      ghost var before := outs[..];
      var g := 1;
      while g < |fg|
        invariant 1 <= g && (g <= |fg| || |fg| == 0)
        invariant Falling(fg, f, outs[..]) && AboveAll(fg, f, outs[..])
        invariant |fg| > 0 ==> ins[0] == {} && outs[0] == f.gen[0]
        invariant changed ==> Total(outs[..]) < Total(before)
        invariant !changed ==> outs[..] == before
        invariant !changed ==> forall i :: 1 <= i < g && i < |fg| ==>
                    ins[i] == MeetIn(fg, before, i) && before[i] == OutOf(fg, f, before, i)
      {
        ghost var x := outs[..];
        ins[g] := Meet(fg, preds, outs, g);
        assert outs[..] == x;
        UpdateKeeps(fg, f, x, g);
        var tmp := f.gen[g] + (ins[g] - f.kill[g]);
        OutOfUnfolds(fg, f, x, g);
        if tmp != outs[g] {
          changed := true;
          outs[g] := tmp;
          assert outs[..] == x[g := tmp];
        }
        g := g + 1;
      }
      if !changed && |fg| > 0 { OutOfUnfolds(fg, f, before, 0); }
    }
  }

  lemma OutOfUnfolds(fg: seq<Block>, f: Flow, outs: seq<set<nat>>, i: nat)
    requires Fits(fg, f) && i < |fg| == |outs|
    ensures OutOf(fg, f, outs, i) == if i == 0 then f.gen[0] else f.gen[i] + (MeetIn(fg, outs, i) - f.kill[i])
  {}

  // ----- what the solution says about paths -----

  /** A way through the graph from the entry. */
  ghost predicate Path(fg: seq<Block>, bs: seq<nat>) {
    && bs != [] && bs[0] == 0 && 0 < |fg|
    && forall k {:trigger bs[k]} :: 0 < k < |bs| ==> Edge(fg, bs[k - 1], bs[k])
  }

  /** The effects of the instructions run on the way to the last block of bs. */
  ghost function PathEffects(es: seq<seq<Effect>>, bs: seq<nat>): seq<Effect> {
    if |bs| <= 1 then [] else
      PathEffects(es, bs[..|bs| - 1]) + if bs[|bs| - 2] < |es| then es[bs[|bs| - 2]] else []
  }

  /** f sums up, block by block, the effects es of the instructions. */
  ghost predicate Sums(f: Flow, es: seq<seq<Effect>>) {
    && |es| == |f.gen| == |f.kill|
    && forall i, act :: 0 <= i < |es| ==> Walk(es[i], act) == f.gen[i] + (act - f.kill[i])
  }

  lemma PathInside(fg: seq<Block>, bs: seq<nat>)
    requires Path(fg, bs)
    ensures forall k :: 0 <= k < |bs| ==> bs[k] < |fg|
  {}

  lemma {:induction false} AvailableOnPath(fg: seq<Block>, f: Flow, es: seq<seq<Effect>>,
                                          ins: seq<set<nat>>, outs: seq<set<nat>>, bs: seq<nat>)
    requires Fits(fg, f) && Sums(f, es) && Solution(fg, f, ins, outs) && Path(fg, bs)
    ensures bs[|bs| - 1] < |fg| && ins[bs[|bs| - 1]] <= Walk(PathEffects(es, bs), {})
    decreases |bs|
  {
    PathInside(fg, bs);
    var m := |bs| - 1;
    if m > 0 {
      var p, b, way := bs[m - 1], bs[m], bs[..m];
      assert Path(fg, way) && way[|way| - 1] == p;
      AvailableOnPath(fg, f, es, ins, outs, way);
      assert Edge(fg, p, b);
      assert ins[b] <= outs[p] == Walk(es[p], ins[p]);
      WalkMonotone(es[p], ins[p], Walk(PathEffects(es, way), {}));
      WalkAppend(PathEffects(es, way), es[p], {});
    }
  }

  /** Soundness over all paths: on every way to a block, what in(B) lists was generated and not killed since. */
  lemma AvailableIsSound(fg: seq<Block>, f: Flow, es: seq<seq<Effect>>,
                         ins: seq<set<nat>>, outs: seq<set<nat>>, bs: seq<nat>, i: nat)
    requires Fits(fg, f) && Sums(f, es) && Solution(fg, f, ins, outs) && Path(fg, bs)
    requires bs[|bs| - 1] < |fg| && i in ins[bs[|bs| - 1]]
    ensures exists k :: LastsFrom(PathEffects(es, bs), i, k)
  {
    AvailableOnPath(fg, f, es, ins, outs, bs);
    WalkMeansLasts(PathEffects(es, bs), i);
  }

  ghost predicate Reachable(fg: seq<Block>, b: nat) {
    exists bs :: Path(fg, bs) && bs[|bs| - 1] == b
  }

  /** What is available at the end of b on every way to it. */
  ghost function OnAllPaths(fg: seq<Block>, f: Flow, es: seq<seq<Effect>>, b: nat): set<nat>
    requires b < |es|
  {
    set i | i in f.universe &&
            forall bs :: Path(fg, bs) && bs[|bs| - 1] == b ==> i in Walk(PathEffects(es, bs) + es[b], {})
  }

  lemma AllPathsSupported(fg: seq<Block>, f: Flow, es: seq<seq<Effect>>)
    requires Fits(fg, f) && Sums(f, es) && forall b :: 0 <= b < |fg| ==> Reachable(fg, b)
    ensures Supported(fg, f, seq(|fg|, b requires 0 <= b < |fg| => OnAllPaths(fg, f, es, b)))
  {
    var y := seq(|fg|, b requires 0 <= b < |fg| => OnAllPaths(fg, f, es, b));
    forall b, i | 0 <= b < |fg| && i in y[b]
      ensures i in OutOf(fg, f, y, b)
    {
      OnAllPathsStep(fg, f, es, y, b, i);
    }
  }

  lemma OnAllPathsStep(fg: seq<Block>, f: Flow, es: seq<seq<Effect>>, y: seq<set<nat>>, b: nat, i: nat)
    requires Fits(fg, f) && Sums(f, es) && forall c :: 0 <= c < |fg| ==> Reachable(fg, c)
    requires |y| == |fg| && forall c :: 0 <= c < |fg| ==> y[c] == OnAllPaths(fg, f, es, c)
    requires b < |fg| && i in y[b]
    ensures i in OutOf(fg, f, y, b)
  {
    hide Walk, OnAllPaths;
    if b == 0 {
      EntryGenerates(fg, f, es, i);
    } else if i !in f.gen[b] {
      assert Reachable(fg, b);
      var way :| Path(fg, way) && way[|way| - 1] == b;
      var m := |way| - 1;
      assert Edge(fg, way[m - 1], way[m]);
      forall p: nat | Edge(fg, p, b)
        ensures i in y[p] && i !in f.kill[b]
      {
        ThroughPredecessor(fg, f, es, b, i, p);
      }
      assert i in y[way[m - 1]];
    }
  }

  lemma EntryGenerates(fg: seq<Block>, f: Flow, es: seq<seq<Effect>>, i: nat)
    requires Fits(fg, f) && Sums(f, es) && 0 < |fg| && i in OnAllPaths(fg, f, es, 0)
    ensures i in f.gen[0]
  {
    hide Walk;
    assert Path(fg, [0]);
    assert PathEffects(es, [0]) + es[0] == es[0];
  }

  lemma ThroughPredecessor(fg: seq<Block>, f: Flow, es: seq<seq<Effect>>, b: nat, i: nat, p: nat)
    requires Fits(fg, f) && Sums(f, es) && b < |fg| && Edge(fg, p, b) && Reachable(fg, p)
    requires i in OnAllPaths(fg, f, es, b) && i !in f.gen[b]
    ensures i in OnAllPaths(fg, f, es, p) && i !in f.kill[b]
  {
    forall bs | Path(fg, bs) && bs[|bs| - 1] == p
      ensures i in Walk(PathEffects(es, bs) + es[p], {}) && i !in f.kill[b]
    {
      var on := bs + [b];
      assert on[..|on| - 1] == bs;
      assert Path(fg, on);
      assert PathEffects(es, on) == PathEffects(es, bs) + es[p];
      WalkAppend(PathEffects(es, on), es[b], {});
    }
    var bs :| Path(fg, bs) && bs[|bs| - 1] == p;
  }

  ghost predicate LastsOnAllPaths(fg: seq<Block>, es: seq<seq<Effect>>, b: nat, i: nat) {
    forall bs :: Path(fg, bs) && bs[|bs| - 1] == b ==> exists k :: LastsFrom(PathEffects(es, bs), i, k)
  }

  /** And nothing is missed: where every block can be reached, in(B) is all that lasts on every way to B. */
  lemma AvailableIsComplete(fg: seq<Block>, f: Flow, es: seq<seq<Effect>>,
                            ins: seq<set<nat>>, outs: seq<set<nat>>, b: nat, i: nat)
    requires Fits(fg, f) && Sums(f, es) && Solution(fg, f, ins, outs)
    requires forall y :: Supported(fg, f, y) ==> Below(y, outs)
    requires forall c :: 0 <= c < |fg| ==> Reachable(fg, c)
    requires b < |fg| && i in f.universe && LastsOnAllPaths(fg, es, b, i)
    ensures i in ins[b]
  {
    hide Walk, OnAllPaths, OutOf;
    AllPathsSupported(fg, f, es);
    var y := seq(|fg|, c requires 0 <= c < |fg| => OnAllPaths(fg, f, es, c));
    if b == 0 {
      assert Path(fg, [0]) && [0][|[0]| - 1] == 0 && PathEffects(es, [0]) == [];
    } else {
      forall p: nat | Edge(fg, p, b)
        ensures i in outs[p]
      {
        LastsAtPredecessor(fg, f, es, b, i, p);
        assert y[p] <= outs[p];
      }
      assert Reachable(fg, b);
      var way :| Path(fg, way) && way[|way| - 1] == b;
      assert Edge(fg, way[|way| - 2], way[|way| - 1]);
    }
  }

  lemma LastsAtPredecessor(fg: seq<Block>, f: Flow, es: seq<seq<Effect>>, b: nat, i: nat, p: nat)
    requires |es| == |fg| && b < |fg| && i in f.universe && Edge(fg, p, b) && LastsOnAllPaths(fg, es, b, i)
    ensures i in OnAllPaths(fg, f, es, p)
  {
    forall bs | Path(fg, bs) && bs[|bs| - 1] == p
      ensures i in Walk(PathEffects(es, bs) + es[p], {})
    {
      var on := bs + [b];
      assert on[..|on| - 1] == bs;
      assert Path(fg, on);
      assert PathEffects(es, on) == PathEffects(es, bs) + es[p];
      var k :| LastsFrom(PathEffects(es, on), i, k);
      LastsMeansWalk(PathEffects(es, on), i, k, {});
    }
  }
}
