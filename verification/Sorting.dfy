/** vbcc's own quicksort (supp.c), which num_exp uses to bring equal expressions together. */
module Sorting {
  /** A comparison function as qsort expects it: the sign of a total preorder. */
  ghost predicate Compares<T(!new)>(compar: (T, T) -> int) {
    && (forall x: T :: compar(x, x) == 0)
    && (forall x: T, y: T :: compar(x, y) < 0 <==> compar(y, x) > 0)
    && (forall x: T, y: T, z: T :: compar(x, y) <= 0 && compar(y, z) <= 0 ==> compar(x, z) <= 0)
  }

  lemma Flips<T(!new)>(compar: (T, T) -> int, x: T, y: T)
    requires Compares(compar)
    ensures compar(x, y) < 0 <==> compar(y, x) > 0
    ensures compar(x, x) == 0
  {}

  lemma Chains<T(!new)>(compar: (T, T) -> int, x: T, y: T, z: T)
    requires Compares(compar) && compar(x, y) <= 0 && compar(y, z) <= 0
    ensures compar(x, z) <= 0
  {}

  ghost predicate Sorted<T>(s: seq<T>, compar: (T, T) -> int) {
    forall i, j :: 0 <= i < j < |s| ==> compar(s[i], s[j]) <= 0
  }

  /** Only places in lo..hi changed, and they hold the same elements as before. */
  ghost predicate Permuted<T>(s: seq<T>, t: seq<T>, lo: nat, hi: nat) {
    && lo <= hi <= |s| == |t|
    && multiset(s[lo..hi]) == multiset(t[lo..hi])
    && forall i :: 0 <= i < lo || hi <= i < |s| ==> s[i] == t[i]
  }

  lemma PermutedTwice<T>(s: seq<T>, t: seq<T>, u: seq<T>, lo: nat, hi: nat)
    requires Permuted(s, t, lo, hi) && Permuted(t, u, lo, hi)
    ensures Permuted(s, u, lo, hi)
  {}

  lemma PermutedWithin<T>(s: seq<T>, t: seq<T>, p: nat, q: nat, lo: nat, hi: nat)
    requires Permuted(s, t, p, q) && lo <= p && q <= hi <= |s|
    ensures Permuted(s, t, lo, hi)
  {
    assert s[lo..p] == t[lo..p] && s[q..hi] == t[q..hi];
    assert s[lo..hi] == s[lo..p] + s[p..q] + s[q..hi];
    assert t[lo..hi] == s[lo..p] + t[p..q] + s[q..hi];
  }

  lemma SwapPermutes<T>(s: seq<T>, i: nat, j: nat, lo: nat, hi: nat)
    requires lo <= i < j < hi <= |s|
    ensures Permuted(s, s[i := s[j]][j := s[i]], lo, hi)
  {
    var t := s[i := s[j]][j := s[i]];
    assert t[lo..hi] == s[lo..hi][i - lo := s[j]][j - lo := s[i]];
  }

  /** What the elements are compared with stays true of them when they are rearranged. */
  lemma PermutedMember<T>(s: seq<T>, t: seq<T>, lo: nat, hi: nat, i: nat) returns (j: nat)
    requires Permuted(s, t, lo, hi) && lo <= i < hi
    ensures lo <= j < hi && t[i] == s[j]
  {
    assert t[i] == t[lo..hi][i - lo];
    assert t[i] in multiset(t[lo..hi]);
    assert t[i] in s[lo..hi];
    var k :| 0 <= k < |s[lo..hi]| && s[lo..hi][k] == t[i];
    j := lo + k;
  }

  method Swap<T>(base: array<T>, a: nat, b: nat)
    requires a < b < base.Length
    modifies base
    ensures base[..] == old(base[..])[a := old(base[b])][b := old(base[a])]
  {
    base[a], base[b] := base[b], base[a];
  }

  ghost predicate Low<T>(s: seq<T>, lo: int, a: int, x: T, compar: (T, T) -> int) {
    forall i :: 0 <= lo <= i < a <= |s| ==> compar(s[i], x) <= 0
  }

  ghost predicate High<T>(s: seq<T>, b: int, hi: int, x: T, compar: (T, T) -> int) {
    forall i :: 0 <= b < i + 1 && b < i < hi <= |s| ==> compar(x, s[i]) <= 0
  }

  /** The elements of lo..m are below those of m..hi. */
  ghost predicate Parted<T>(s: seq<T>, lo: nat, m: nat, hi: nat, compar: (T, T) -> int) {
    forall i, j :: 0 <= lo <= i < m <= j < hi <= |s| ==> compar(s[i], s[j]) <= 0
  }

  lemma LowHighPart<T(!new)>(s: seq<T>, lo: nat, m: nat, hi: nat, x: T, compar: (T, T) -> int)
    requires lo < m < hi <= |s| && Compares(compar) && Low(s, lo, m, x, compar) && High(s, m - 1, hi, x, compar)
    ensures Parted(s, lo, m, hi, compar)
  {
    hide Compares;
    forall i, j | lo <= i < m <= j < hi
      ensures compar(s[i], s[j]) <= 0
    {
      Chains(compar, s[i], x, s[j]);
    }
  }

  lemma PermutedSelf<T>(s: seq<T>, lo: nat, hi: nat)
    requires lo <= hi <= |s|
    ensures Permuted(s, s, lo, hi)
  {}

  /** The first place from a on whose element is not below the middle one, which is at c. */
  method ScanUp<T(!new)>(base: array<T>, a0: nat, c: nat, ghost stop: nat, compar: (T, T) -> int) returns (a: nat)
    requires a0 <= stop < base.Length && c < base.Length && Compares(compar)
    requires compar(base[c], base[stop]) <= 0
    ensures a0 <= a <= stop && compar(base[c], base[a]) <= 0
    ensures Low(base[..], a0, a, base[c], compar)
  {
    hide Compares;
    a := a0;
    while compar(base[c], base[a]) > 0
      invariant a0 <= a <= stop
      invariant Low(base[..], a0, a, base[c], compar)
      decreases stop - a
    {
      Flips(compar, base[a], base[c]);
      a := a + 1;
    }
  }

  /** The last place from b down whose element is not above the middle one. */
  method ScanDown<T(!new)>(base: array<T>, b0: nat, c: nat, ghost stop: nat, compar: (T, T) -> int) returns (b: nat)
    requires stop <= b0 < base.Length && c < base.Length && Compares(compar)
    requires compar(base[stop], base[c]) <= 0
    ensures stop <= b <= b0 && compar(base[b], base[c]) <= 0
    ensures High(base[..], b, b0 + 1, base[c], compar)
  {
    hide Compares;
    b := b0;
    Flips(compar, base[c], base[stop]);
    while compar(base[c], base[b]) < 0
      invariant stop <= b <= b0
      invariant High(base[..], b, b0 + 1, base[c], compar)
      decreases b
    {
      b := b - 1;
    }
    Flips(compar, base[c], base[b]);
  }

  /** What Split has established: below a and above b the elements are on their side of x, and both scans will
      stop: at the middle element itself before the first swap, at the swapped elements after it. */
  ghost predicate Splitting<T>(s: seq<T>, lo: nat, hi: nat, a: int, b: int, c: int, x: T, swapped: bool,
                               compar: (T, T) -> int) {
    && lo <= a && lo <= c < hi <= |s| && b < hi && s[c] == x
    && Low(s, lo, a, x, compar) && High(s, b, hi, x, compar)
    && (if swapped then lo < a <= b + 1 < hi && compar(s[a - 1], x) <= 0 && compar(x, s[b + 1]) <= 0
        else a == lo && b == hi - 1 && lo <= c < hi - 1)
  }

  lemma SplittingStops<T>(s: seq<T>, lo: nat, hi: nat, a: nat, b: nat, c: nat, x: T, swapped: bool, compar: (T, T) -> int)
    requires Splitting(s, lo, hi, a, b, c, x, swapped, compar) && compar(x, x) == 0
    ensures lo <= a <= b + 1 && b < hi <= |s| && lo <= c < hi && s[c] == x
    ensures var up := if swapped then b + 1 else c; a <= up < hi && compar(x, s[up]) <= 0
    ensures var down := if swapped then a - 1 else c; lo <= down <= b && compar(s[down], x) <= 0
    ensures Low(s, lo, a, x, compar) && High(s, b, hi, x, compar)
  {
    hide Low, High;
  }

  lemma SwapSplits<T>(s: seq<T>, lo: nat, hi: nat, a: nat, b: nat, c: nat, x: T, compar: (T, T) -> int)
    requires lo <= a < b < hi <= |s| && lo <= c < hi && s[c] == x
    requires Low(s, lo, a, x, compar) && High(s, b, hi, x, compar)
    requires compar(x, s[a]) <= 0 && compar(s[b], x) <= 0
    ensures var t := s[a := s[b]][b := s[a]];
            Splitting(t, lo, hi, a + 1, b - 1, if c == a then b else if c == b then a else c, x, true, compar)
  {}

  /** The next pair to exchange, or where the scans met. */
  method NextPair<T(!new)>(base: array<T>, a0: nat, b0: nat, c: nat, compar: (T, T) -> int,
                           ghost lo: nat, ghost hi: nat, ghost x: T, ghost swapped: bool)
    returns (a: nat, b: nat)
    requires Compares(compar) && Splitting(base[..], lo, hi, a0, b0, c, x, swapped, compar)
    ensures lo <= a < hi && lo <= b <= b0 && b < hi && lo <= c < hi && base[c] == x
    ensures Low(base[..], lo, a, x, compar) && High(base[..], b, hi, x, compar)
    ensures compar(x, base[a]) <= 0 && compar(base[b], x) <= 0
    ensures a >= b ==> b < hi - 1
  {
    hide Compares, Low, High;
    Flips(compar, x, x);
    SplittingStops(base[..], lo, hi, a0, b0, c, x, swapped, compar);
    ghost var up: nat := if swapped then b0 + 1 else c;
    ghost var down: nat := if swapped then a0 - 1 else c;
    a := ScanUp(base, a0, c, up, compar);
    b := ScanDown(base, b0, c, down, compar);
    LowExtends(base[..], lo, a0, a, x, compar);
    HighExtends(base[..], b, b0, hi, x, compar);
  }

  /** Exchange the pair; c stays with the middle element. */
  method Exchange<T(!new)>(base: array<T>, a: nat, b: nat, c0: nat, compar: (T, T) -> int,
                           ghost lo: nat, ghost hi: nat, ghost x: T)
    returns (c: nat)
    requires lo <= a < b < hi <= base.Length && lo <= c0 < hi && base[c0] == x
    requires Low(base[..], lo, a, x, compar) && High(base[..], b, hi, x, compar)
    requires compar(x, base[a]) <= 0 && compar(base[b], x) <= 0
    modifies base
    ensures Permuted(old(base[..]), base[..], lo, hi)
    ensures Splitting(base[..], lo, hi, a + 1, b - 1, c, x, true, compar)
  {
    hide Permuted, Splitting, Low, High;
    SwapSplits(base[..], lo, hi, a, b, c0, x, compar);
    SwapPermutes(base[..], a, b, lo, hi);
    Swap(base, a, b);
    c := c0;
    if c == a {
      c := b;
    } else if c == b {
      c := a;
    }
  }

  /** The body of the sort's loop: the stretch is parted around its middle element, whose place c is tracked
      through the swaps. */
  method Split<T(!new)>(base: array<T>, lo: nat, n: nat, compar: (T, T) -> int) returns (m: nat)
    requires 1 < n && lo + n <= base.Length && Compares(compar)
    modifies base
    ensures Permuted(old(base[..]), base[..], lo, lo + n)
    ensures 0 < m < n && Parted(base[..], lo, lo + m, lo + n, compar)
  {
    hide Compares, Permuted, Parted, Low, High, Splitting;
    var a: int, b: int := lo, lo + n - 1;
    var c: int := lo + (n - 1) / 2;
    ghost var x := base[c];
    ghost var swapped := false;
    PermutedSelf(base[..], lo, lo + n);
    NothingYet(base[..], lo, lo + n, c, x, compar);
    while true
      invariant Permuted(old(base[..]), base[..], lo, lo + n)
      invariant 0 <= a && 0 <= b && 0 <= c && Splitting(base[..], lo, lo + n, a, b, c, x, swapped, compar)
      decreases b
    {
      ghost var s := base[..];
      a, b := NextPair(base, a, b, c, compar, lo, lo + n, x, swapped);
      if a >= b {
        break;
      }
      c := Exchange(base, a, b, c, compar, lo, lo + n, x);
      PermutedTwice(old(base[..]), s, base[..], lo, lo + n);
      a := a + 1;
      b := b - 1;
      swapped := true;
    }
    m := b + 1 - lo;
    LowThrough(base[..], lo, a, b, x, compar);
    LowHighPart(base[..], lo, b + 1, lo + n, x, compar);
  }

  lemma NothingYet<T>(s: seq<T>, lo: nat, hi: nat, c: nat, x: T, compar: (T, T) -> int)
    requires lo <= c < hi - 1 < |s| && s[c] == x
    ensures Splitting(s, lo, hi, lo, hi - 1, c, x, false, compar)
  {}

  lemma LowExtends<T>(s: seq<T>, lo: nat, a0: nat, a: nat, x: T, compar: (T, T) -> int)
    requires Low(s, lo, a0, x, compar) && Low(s, a0, a, x, compar) && a0 <= a <= |s|
    ensures Low(s, lo, a, x, compar)
  {}

  lemma HighExtends<T>(s: seq<T>, b: nat, b0: nat, hi: nat, x: T, compar: (T, T) -> int)
    requires High(s, b, b0 + 1, x, compar) && High(s, b0, hi, x, compar) && b0 < hi
    ensures High(s, b, hi, x, compar)
  {}

  lemma LowThrough<T>(s: seq<T>, lo: nat, a: nat, b: nat, x: T, compar: (T, T) -> int)
    requires lo <= b <= a <= |s| && b < |s| && Low(s, lo, a, x, compar) && compar(s[b], x) <= 0
    ensures Low(s, lo, b + 1, x, compar)
  {}

  /** All pairs but those inside p..q are in order. */
  ghost predicate SettledBut<T>(s: seq<T>, lo: nat, hi: nat, p: nat, q: nat, compar: (T, T) -> int) {
    forall i, j :: 0 <= lo <= i < j < hi <= |s| && !(p <= i && j < q) ==> compar(s[i], s[j]) <= 0
  }

  lemma SettledPermuted<T>(s: seq<T>, t: seq<T>, lo: nat, hi: nat, p: nat, q: nat, compar: (T, T) -> int)
    requires lo <= p <= q <= hi <= |s| && Permuted(s, t, p, q) && SettledBut(s, lo, hi, p, q, compar)
    ensures SettledBut(t, lo, hi, p, q, compar)
  {
    forall i, j | lo <= i < j < hi && !(p <= i && j < q)
      ensures compar(t[i], t[j]) <= 0
    {
      var i', j' := i, j;
      if p <= i < q { i' := PermutedMember(s, t, p, q, i); }
      if p <= j < q { j' := PermutedMember(s, t, p, q, j); }
      assert t[i] == s[i'] && t[j] == s[j'];
    }
  }

  lemma PartedPermuted<T>(s: seq<T>, t: seq<T>, p: nat, m: nat, q: nat, left: bool, compar: (T, T) -> int)
    requires p <= m <= q <= |s| && Parted(s, p, m, q, compar)
    requires if left then Permuted(s, t, p, m) else Permuted(s, t, m, q)
    ensures Parted(t, p, m, q, compar)
  {
    forall i, j | p <= i < m <= j < q
      ensures compar(t[i], t[j]) <= 0
    {
      var i', j' := i, j;
      if left { i' := PermutedMember(s, t, p, m, i); } else { j' := PermutedMember(s, t, m, q, j); }
      assert t[i] == s[i'] && t[j] == s[j'];
    }
  }

  lemma SettledSplit<T>(s: seq<T>, lo: nat, hi: nat, p: nat, m: nat, q: nat, left: bool, compar: (T, T) -> int)
    requires lo <= p <= m <= q <= hi <= |s| && SettledBut(s, lo, hi, p, q, compar) && Parted(s, p, m, q, compar)
    requires Sorted(if left then s[p..m] else s[m..q], compar)
    ensures if left then SettledBut(s, lo, hi, m, q, compar) else SettledBut(s, lo, hi, p, m, compar)
  {
    forall i, j | lo <= i < j < hi && (if left then !(m <= i && j < q) else !(p <= i && j < m))
      ensures compar(s[i], s[j]) <= 0
    {
      if left && p <= i < j < m {
        assert s[p..m][i - p] == s[i] && s[p..m][j - p] == s[j];
      } else if !left && m <= i < j < q {
        assert s[m..q][i - m] == s[i] && s[m..q][j - m] == s[j];
      }
    }
  }

  /** One round of the sort: part the stretch, sort the smaller part, go on with the larger one. */
  method SortSmallerPart<T(!new)>(base: array<T>, p0: nat, n0: nat, compar: (T, T) -> int, ghost lo: nat, ghost hi: nat)
    returns (p: nat, n: nat)
    requires 1 < n0 && lo <= p0 && p0 + n0 <= hi <= base.Length && Compares(compar)
    requires SettledBut(base[..], lo, hi, p0, p0 + n0, compar)
    modifies base
    ensures Permuted(old(base[..]), base[..], lo, hi)
    ensures n < n0 && lo <= p && p + n <= hi && SettledBut(base[..], lo, hi, p, p + n, compar)
    decreases n0, 0
  {
    hide Compares, Permuted, Parted, Sorted, SettledBut;
    var b := Split(base, p0, n0, compar);
    ghost var s1 := base[..];
    if b < n0 - b {
      VqSort(base, p0, b, compar);
      p, n := p0 + b, n0 - b;
    } else {
      VqSort(base, p0 + b, n0 - b, compar);
      p, n := p0, b;
    }
    SortedHalf(old(base[..]), s1, base[..], lo, hi, p0, p0 + b, p0 + n0, b < n0 - b, compar);
  }

  /** The sort puts base[lo..lo+nmemb] in order, keeps its elements and leaves the rest alone. */
  method VqSort<T(!new)>(base: array<T>, lo: nat, nmemb: nat, compar: (T, T) -> int)
    requires lo + nmemb <= base.Length && Compares(compar)
    modifies base
    ensures Permuted(old(base[..]), base[..], lo, lo + nmemb)
    ensures Sorted(base[lo..lo + nmemb], compar)
    decreases nmemb, 1
  {
    hide Compares, Permuted, Parted, Sorted, SettledBut;
    var p: nat, n: nat := lo, nmemb;
    ghost var hi: nat := lo + nmemb;
    PermutedSelf(base[..], lo, hi);
    AllSettled(base[..], lo, hi, compar);
    while n > 1
      invariant lo <= p && p + n <= hi && n <= nmemb
      invariant Permuted(old(base[..]), base[..], lo, hi)
      invariant SettledBut(base[..], lo, hi, p, p + n, compar)
      decreases n
    {
      ghost var s := base[..];
      p, n := SortSmallerPart(base, p, n, compar, lo, hi);
      PermutedTwice(old(base[..]), s, base[..], lo, hi);
    }
    SettledSorted(base[..], lo, hi, p, p + n, compar);
  }

  lemma SortedHalf<T>(s0: seq<T>, s1: seq<T>, s2: seq<T>, lo: nat, hi: nat, p: nat, m: nat, q: nat, left: bool,
                      compar: (T, T) -> int)
    requires lo <= p <= m <= q <= hi <= |s0|
    requires SettledBut(s0, lo, hi, p, q, compar) && Permuted(s0, s1, p, q) && Parted(s1, p, m, q, compar)
    requires if left then Permuted(s1, s2, p, m) else Permuted(s1, s2, m, q)
    requires |s2| == |s0| && Sorted(if left then s2[p..m] else s2[m..q], compar)
    ensures Permuted(s0, s2, lo, hi)
    ensures if left then SettledBut(s2, lo, hi, m, q, compar) else SettledBut(s2, lo, hi, p, m, compar)
  {
    hide Permuted, Parted, Sorted, SettledBut;
    PermutedSize(s0, s1, p, q);
    SettledPermuted(s0, s1, lo, hi, p, q, compar);
    PartedPermuted(s1, s2, p, m, q, left, compar);
    if left { PermutedWithin(s1, s2, p, m, p, q); } else { PermutedWithin(s1, s2, m, q, p, q); }
    SettledPermuted(s1, s2, lo, hi, p, q, compar);
    SettledSplit(s2, lo, hi, p, m, q, left, compar);
    PermutedTwice(s0, s1, s2, p, q);
    PermutedWithin(s0, s2, p, q, lo, hi);
  }

  lemma PermutedSize<T>(s: seq<T>, t: seq<T>, lo: nat, hi: nat)
    requires Permuted(s, t, lo, hi)
    ensures |s| == |t|
  {}

  lemma AllSettled<T>(s: seq<T>, lo: nat, hi: nat, compar: (T, T) -> int)
    ensures SettledBut(s, lo, hi, lo, hi, compar)
  {}

  lemma SettledSorted<T>(s: seq<T>, lo: nat, hi: nat, p: nat, q: nat, compar: (T, T) -> int)
    requires lo <= hi <= |s| && q <= p + 1 && SettledBut(s, lo, hi, p, q, compar)
    ensures Sorted(s[lo..hi], compar)
  {}
}
