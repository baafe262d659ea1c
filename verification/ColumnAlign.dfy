// What alignColumn (src/working_files.cc) promises about columns.
module ColumnAlign {
  import opened Indel
  import opened TextAlign

  // The common head and tail of a and b do not overlap in b.
  predicate EndsApart(a: string, b: string) {
    CommonPrefix(a, b) + CommonSuffix(a, b) <= |b|
  }

  // Neither the overlap nor the size cut-off applies.
  predicate Searches(a: string, b: string) {
    && EndsApart(a, b)
    && !TooLong(a, b, CommonPrefix(a, b), CommonSuffix(a, b))
  }

  // For any column of a the result is a column of b.
  lemma AlignedInRange(a: string, b: string, column: int, isEnd: bool, r: int)
    requires 0 <= column <= |a|
    requires Aligned(a, b, column, isEnd, r)
    ensures 0 <= r <= |b|
  {
  }

  // The pieces of a string cut at c and d.
  lemma Pieces(a: string, c: nat, d: nat)
    requires c <= d <= |a|
    ensures a[c..][..d - c] == a[c..d] && a[c..][d - c..] == a[d..]
    ensures a[..d][..c] == a[..c] && a[..d][c..] == a[c..d]
    ensures a[..c] + a[c..d] == a[..d] && a[c..d] + a[d..] == a[c..]
  {
  }

  // The pieces of head + a + tail around a cut of a.
  lemma Framed(head: string, a: string, tail: string, c: nat)
    requires c <= |a|
    ensures (head + a + tail)[..|head| + c] == head + a[..c]
    ensures (head + a + tail)[|head| + c..] == a[c..] + tail
  {
  }

  // ---------- Optimality ----------

  ghost predicate OptimalCut(a: string, b: string, c: int, r: int) {
    0 <= c <= |a| && 0 <= r <= |b| && CutCost(a, b, c, r) == Dist(a, b)
  }

  // The cheapest cut costs exactly the distance.
  lemma CheapestIsOptimal(a: string, b: string, c: nat, r: int, isEnd: bool)
    requires c <= |a| && CheapestCut(a, b, c, r, isEnd)
    ensures OptimalCut(a, b, c, r)
  {
    var k := DistSplits(a, b, c);
    assert CutCost(a, b, c, r) <= CutCost(a, b, c, k);
    DistOfConcat(a[..c], b[..r], a[c..], b[r..]);
    assert a[..c] + a[c..] == a && b[..r] + b[r..] == b;
  }

  // Cuts inside the common head are optimal.
  lemma CutInHead(a: string, b: string, c: nat)
    requires c <= CommonPrefix(a, b)
    ensures OptimalCut(a, b, c, c)
  {
    PrefixesEqual(a, b, c);
    DistZero(a[..c]);
    DistStripPrefix(a[..c], a[c..], b[c..]);
    assert a[..c] + a[c..] == a && a[..c] + b[c..] == b;
  }

  lemma {:induction false} PrefixesEqual(a: string, b: string, c: nat)
    requires c <= CommonPrefix(a, b)
    ensures a[..c] == b[..c]
  {
    if c > 0 {
      PrefixesEqual(a[1..], b[1..], c - 1);
      assert a[..c] == [a[0]] + a[1..][..c - 1] && b[..c] == [b[0]] + b[1..][..c - 1];
    }
  }

  lemma {:induction false} SuffixesEqual(a: string, b: string, n: nat)
    requires n <= CommonSuffix(a, b)
    ensures a[|a| - n..] == b[|b| - n..]
  {
    if n > 0 {
      var a', b' := a[..|a| - 1], b[..|b| - 1];
      SuffixesEqual(a', b', n - 1);
      assert a[|a| - n..] == a'[|a| - n..] + [a[|a| - 1]];
      assert b[|b| - n..] == b'[|b| - n..] + [b[|b| - 1]];
    }
  }

  // The common ends are the longest ones.
  lemma {:induction false} PrefixIff(a: string, b: string, k: nat)
    requires k <= |a| && k <= |b|
    ensures k <= CommonPrefix(a, b) <==> a[..k] == b[..k]
  {
    if k <= CommonPrefix(a, b) {
      PrefixesEqual(a, b, k);
    } else if a[..k] == b[..k] {
      assert a[0] == a[..k][0] && b[0] == b[..k][0];
      assert a[1..][..k - 1] == a[..k][1..] && b[1..][..k - 1] == b[..k][1..];
      PrefixIff(a[1..], b[1..], k - 1);
    }
  }

  lemma {:induction false} SuffixIff(a: string, b: string, n: nat)
    requires n <= |a| && n <= |b|
    ensures n <= CommonSuffix(a, b) <==> a[|a| - n..] == b[|b| - n..]
  {
    if n <= CommonSuffix(a, b) {
      SuffixesEqual(a, b, n);
    } else if a[|a| - n..] == b[|b| - n..] {
      assert a[|a| - 1] == a[|a| - n..][n - 1] && b[|b| - 1] == b[|b| - n..][n - 1];
      var a', b' := a[..|a| - 1], b[..|b| - 1];
      assert a'[|a'| - (n - 1)..] == a[|a| - n..][..n - 1] && b'[|b'| - (n - 1)..] == b[|b| - n..][..n - 1];
      SuffixIff(a', b', n - 1);
    }
  }

  // Cuts inside the common tail, n characters before the end, are optimal.
  lemma CutInTail(a: string, b: string, n: nat)
    requires n <= CommonSuffix(a, b)
    ensures OptimalCut(a, b, |a| - n, |b| - n)
  {
    SuffixesEqual(a, b, n);
    CutBeforeCommonTail(a, b, |a| - n, |b| - n);
  }

  lemma CutBeforeCommonTail(a: string, b: string, c: nat, r: nat)
    requires c <= |a| && r <= |b| && a[c..] == b[r..]
    ensures OptimalCut(a, b, c, r)
  {
    DistZero(a[c..]);
    DistStripSuffix(a[..c], b[..r], a[c..]);
    assert a == a[..c] + a[c..];
    assert b == b[..r] + b[r..];
  }

  // An optimal cut of the middles extends to one of the whole strings.
  lemma CutInMiddle(head: string, a: string, b: string, tail: string, c: nat, r: nat)
    requires OptimalCut(a, b, c, r)
    ensures OptimalCut(head + a + tail, head + b + tail, |head| + c, |head| + r)
  {
    DistStrip(head, a, b, tail);
    DistStripPrefix(head, a[..c], b[..r]);
    DistStripSuffix(a[c..], b[r..], tail);
    Framed(head, a, tail, c);
    Framed(head, b, tail, r);
  }

  lemma ThreeParts(a: string, h: nat, m: nat)
    requires h <= m <= |a|
    ensures a == a[..h] + a[h..m] + a[m..]
  {
  }

  lemma LiftMiddleCut(a: string, b: string, head: string, a': string, b': string, tail: string, c: nat, r: nat)
    requires a == head + a' + tail && b == head + b' + tail
    requires OptimalCut(a', b', c, r)
    ensures OptimalCut(a, b, |head| + c, |head| + r)
  {
    hide OptimalCut;
    CutInMiddle(head, a', b', tail, c, r);
  }

  // The returned column lies on an optimal alignment of the two lines.
  lemma AlignedIsOptimal(a: string, b: string, column: int, isEnd: bool, r: int)
    requires 0 <= column <= |a| && Searches(a, b)
    requires Aligned(a, b, column, isEnd, r)
    ensures OptimalCut(a, b, column, r)
  {
    hide CheapestCut, OptimalCut;
    var h, t := CommonPrefix(a, b), CommonSuffix(a, b);
    if column < h {
      CutInHead(a, b, column);
    } else if |a| - t < column {
      CutInTail(a, b, |a| - column);
    } else {
      PrefixesEqual(a, b, h);
      SuffixesEqual(a, b, t);
      CheapestOfMiddle(a, b, h, |a| - t, |b| - t, column, isEnd, r);
    }
  }

  lemma CheapestOfMiddle(a: string, b: string, h: nat, m: nat, n: nat, column: nat, isEnd: bool, r: int)
    requires h <= column <= m <= |a| && h <= n <= |b|
    requires a[..h] == b[..h] && a[m..] == b[n..]
    requires CheapestCut(a[h..m], b[h..n], column - h, r - h, isEnd)
    ensures OptimalCut(a, b, column, r)
  {
    hide CheapestCut, OptimalCut;
    CheapestInRange(a[h..m], b[h..n], column - h, r - h, isEnd);
    CheapestIsOptimal(a[h..m], b[h..n], column - h, r - h, isEnd);
    ThreeParts(a, h, m);
    ThreeParts(b, h, n);
    LiftMiddleCut(a, b, a[..h], a[h..m], b[h..n], a[m..], column - h, r - h);
  }

  lemma CheapestInRange(a: string, b: string, c: nat, r: int, isEnd: bool)
    requires c <= |a| && CheapestCut(a, b, c, r, isEnd)
    ensures 0 <= r <= |b|
  {
  }

  // ---------- Monotonicity ----------

  // Cheapest cuts never move left when the cut of a moves right.
  lemma CheapestCutsOrdered(a: string, b: string, c: nat, r: int, c': nat, r': int, isEnd: bool)
    requires c <= c' <= |a|
    requires CheapestCut(a, b, c, r, isEnd) && CheapestCut(a, b, c', r', isEnd)
    ensures r <= r'
  {
    CheapestIsOptimal(a, b, c, r, isEnd);
    CheapestIsOptimal(a, b, c', r', isEnd);
    if isEnd {
      var s := OptimalCutBefore(a, b, c, c', r');
      ExtremeCut(a, b, c, r, isEnd, s);
    } else {
      var s := OptimalCutAfter(a, b, c, r, c');
      ExtremeCut(a, b, c', r', isEnd, s);
    }
  }

  lemma ExtremeCut(a: string, b: string, c: nat, r: int, isEnd: bool, s: int)
    requires c <= |a| && CheapestCut(a, b, c, r, isEnd) && OptimalCut(a, b, c, s)
    ensures if isEnd then r <= s else s <= r
  {
    DistAtMostCutCost(a, b, c, r);
  }

  // An optimal alignment through (c, r) also passes a later cut, further right.
  lemma OptimalCutAfter(a: string, b: string, c: nat, r: nat, c': nat) returns (s: nat)
    requires c <= c' <= |a| && OptimalCut(a, b, c, r)
    ensures r <= s && OptimalCut(a, b, c', s)
  {
    var k := DistSplits(a[c..], b[r..], c' - c);
    s := r + k;
    Pieces(a, c, c');
    Pieces(b, r, s);
    DistOfConcat(a[..c], b[..r], a[c..c'], b[r..s]);
    DistAtMostCutCost(a, b, c', s);
  }

  lemma OptimalCutBefore(a: string, b: string, c: nat, c': nat, r': nat) returns (s: nat)
    requires c <= c' <= |a| && OptimalCut(a, b, c', r')
    ensures s <= r' && OptimalCut(a, b, c, s)
  {
    s := DistSplits(a[..c'], b[..r'], c);
    Pieces(a, c, c');
    Pieces(b, s, r');
    DistOfConcat(a[c..c'], b[s..r'], a[c'..], b[r'..]);
    DistAtMostCutCost(a, b, c, s);
  }

  lemma DistAtMostCutCost(a: string, b: string, c: nat, r: nat)
    requires c <= |a| && r <= |b|
    ensures Dist(a, b) <= CutCost(a, b, c, r)
  {
    DistOfConcat(a[..c], b[..r], a[c..], b[r..]);
    assert a[..c] + a[c..] == a && b[..r] + b[r..] == b;
  }

  // Columns keep their order.
  lemma AlignedIsMonotone(a: string, b: string, c: int, r: int, c': int, r': int, isEnd: bool)
    requires c <= c' && Searches(a, b)
    requires Aligned(a, b, c, isEnd, r) && Aligned(a, b, c', isEnd, r')
    ensures r <= r'
  {
    hide CheapestCut;
    var h, t := CommonPrefix(a, b), CommonSuffix(a, b);
    if h <= c <= |a| - t { CheapestInRange(a[h..|a| - t], b[h..|b| - t], c - h, r - h, isEnd); }
    if h <= c' <= |a| - t { CheapestInRange(a[h..|a| - t], b[h..|b| - t], c' - h, r' - h, isEnd); }
    if h <= c && c' <= |a| - t {
      CheapestCutsOrdered(a[h..|a| - t], b[h..|b| - t], c - h, r - h, c' - h, r' - h, isEnd);
    }
  }

  // ---------- Which of the optimal columns ----------

  // r is the last of the optimal columns from lo to hi, or the first for the end
  // of a range.
  ghost predicate ExtremeOptimal(a: string, b: string, column: int, isEnd: bool, r: int, lo: int, hi: int) {
    && lo <= r <= hi && OptimalCut(a, b, column, r)
    && forall s :: lo <= s <= hi && OptimalCut(a, b, column, s) ==> if isEnd then r <= s else s <= r
  }

  // Cuts of the middles are optimal exactly when they are for the whole strings.
  lemma FramedOptimal(a: string, b: string, h: nat, m: nat, n: nat, c: nat, s: nat)
    requires h <= c <= m <= |a| && h <= s <= n <= |b|
    requires a[..h] == b[..h] && a[m..] == b[n..]
    ensures OptimalCut(a[h..m], b[h..n], c - h, s - h) <==> OptimalCut(a, b, c, s)
  {
    var head, a', b', tail := a[..h], a[h..m], b[h..n], a[m..];
    ThreeParts(a, h, m);
    ThreeParts(b, h, n);
    DistStrip(head, a', b', tail);
    DistStripPrefix(head, a'[..c - h], b'[..s - h]);
    DistStripSuffix(a'[c - h..], b'[s - h..], tail);
    Framed(head, a', tail, c - h);
    Framed(head, b', tail, s - h);
  }

  lemma CheapestIff(a: string, b: string, c: nat, r: int, isEnd: bool)
    requires c <= |a|
    ensures CheapestCut(a, b, c, r, isEnd) <==> ExtremeOptimal(a, b, c, isEnd, r, 0, |b|)
  {
    if CheapestCut(a, b, c, r, isEnd) {
      CheapestIsOptimal(a, b, c, r, isEnd);
      forall s | OptimalCut(a, b, c, s)
        ensures if isEnd then r <= s else s <= r
      {
        ExtremeCut(a, b, c, r, isEnd, s);
      }
    } else if OptimalCut(a, b, c, r) {
      forall k | 0 <= k <= |b|
        ensures CutCost(a, b, c, r) <= CutCost(a, b, c, k)
        ensures CutCost(a, b, c, r) < CutCost(a, b, c, k) || OptimalCut(a, b, c, k)
      {
        DistAtMostCutCost(a, b, c, k);
      }
    }
  }

  lemma FramedExtreme(a: string, b: string, h: nat, m: nat, n: nat, column: nat, isEnd: bool, r: int)
    requires h <= column <= m <= |a| && h <= n <= |b|
    requires a[..h] == b[..h] && a[m..] == b[n..]
    ensures CheapestCut(a[h..m], b[h..n], column - h, r - h, isEnd) <==> ExtremeOptimal(a, b, column, isEnd, r, h, n)
  {
    var a', b' := a[h..m], b[h..n];
    CheapestIff(a', b', column - h, r - h, isEnd);
    forall s | h <= s <= n
      ensures OptimalCut(a', b', column - h, s - h) <==> OptimalCut(a, b, column, s)
    {
      FramedOptimal(a, b, h, m, n, column, s);
    }
    hide CheapestCut, OptimalCut;
    ShiftExtreme(a, b, a', b', h, n, column, isEnd, r);
  }

  lemma ShiftExtreme(a: string, b: string, a': string, b': string, h: nat, n: nat, column: nat, isEnd: bool, r: int)
    requires h <= n && forall s :: h <= s <= n ==> (OptimalCut(a', b', column - h, s - h) <==> OptimalCut(a, b, column, s))
    ensures ExtremeOptimal(a', b', column - h, isEnd, r - h, 0, n - h) <==> ExtremeOptimal(a, b, column, isEnd, r, h, n)
  {
    hide OptimalCut;
    if ExtremeOptimal(a, b, column, isEnd, r, h, n) {
      var c := column - h;
      forall k | 0 <= k <= n - h && OptimalCut(a', b', c, k)
        ensures if isEnd then r - h <= k else k <= r - h
      {
        assert OptimalCut(a, b, column, k + h) by { assert k + h - h == k; }
      }
    }
  }

  lemma AlignedInMiddle(a: string, b: string, column: int, isEnd: bool, r: int)
    requires Searches(a, b) && CommonPrefix(a, b) <= column <= |a| - CommonSuffix(a, b)
    ensures 0 <= CommonPrefix(a, b) && 0 <= CommonSuffix(a, b) && CommonPrefix(a, b) <= |b| - CommonSuffix(a, b)
    ensures var h, t := CommonPrefix(a, b), CommonSuffix(a, b);
      Aligned(a, b, column, isEnd, r) <==> CheapestCut(a[h..|a| - t], b[h..|b| - t], column - h, r - h, isEnd)
  {
    hide CheapestCut, CommonPrefix, CommonSuffix;
  }

  // Between the common ends a start goes to the last, an end to the first of the
  // columns on an optimal alignment.
  lemma AlignedIff(a: string, b: string, column: int, isEnd: bool, r: int)
    requires Searches(a, b) && CommonPrefix(a, b) <= column <= |a| - CommonSuffix(a, b)
    ensures Aligned(a, b, column, isEnd, r) <==> ExtremeOptimal(a, b, column, isEnd, r, CommonPrefix(a, b), |b| - CommonSuffix(a, b))
  {
    hide CheapestCut, ExtremeOptimal, CommonPrefix, CommonSuffix, Aligned, Searches;
    AlignedInMiddle(a, b, column, isEnd, r);
    PrefixesEqual(a, b, CommonPrefix(a, b));
    SuffixesEqual(a, b, CommonSuffix(a, b));
    FramedExtreme(a, b, CommonPrefix(a, b), |a| - CommonSuffix(a, b), |b| - CommonSuffix(a, b), column, isEnd, r);
  }

  // In a common end a column keeps its distance from that end; for lines too long
  // to be searched it is kept as far as the other line goes.
  lemma AlignedOutside(a: string, b: string, column: int, isEnd: bool, r: int)
    requires 0 <= column <= |a| && Aligned(a, b, column, isEnd, r)
    ensures column < CommonPrefix(a, b) ==> a[..column] == b[..r]
    ensures CommonPrefix(a, b) <= column && |a| - CommonSuffix(a, b) < column ==> a[column..] == b[r..]
    ensures CommonPrefix(a, b) <= column <= |a| - CommonSuffix(a, b) && TooLong(a, b, CommonPrefix(a, b), CommonSuffix(a, b)) ==>
      r == column <= |b| || r == |b| < column
  {
    hide CheapestCut, TooLong;
    if column < CommonPrefix(a, b) { PrefixesEqual(a, b, column); }
    if |a| - CommonSuffix(a, b) < column { SuffixesEqual(a, b, |a| - column); }
  }

  // ---------- Overlapping ends ----------

  lemma DistToEmpty(a: string)
    ensures Dist(a, "") == |a|
  {
  }

  // Dropping a tail of a costs its length.
  lemma PrefixDist(a: string, k: nat, m: nat)
    requires k <= m <= |a|
    ensures Dist(a[..m], a[..k]) == m - k
  {
    DistStripPrefix(a[..k], a[k..m], "");
    assert a[..k] + a[k..m] == a[..m] && a[..k] + "" == a[..k];
    DistToEmpty(a[k..m]);
  }

  // Dropping a head of a costs its length.
  lemma SuffixDist(a: string, c: nat, e: nat)
    requires c <= e <= |a|
    ensures Dist(a[c..], a[e..]) == e - c
  {
    DistStripSuffix(a[c..e], "", a[e..]);
    assert a[c..e] + a[e..] == a[c..] && "" + a[e..] == a[e..];
    DistToEmpty(a[c..e]);
  }

  // When the ends overlap in b, b is a with a piece deleted.
  lemma OverlapDist(a: string, b: string)
    requires !EndsApart(a, b) && CommonPrefix(a, b) + CommonSuffix(a, b) <= |a|
    ensures Dist(a, b) == |a| - |b|
  {
    var t := CommonSuffix(a, b);
    var k := |b| - t;
    hide CommonPrefix, CommonSuffix;
    CutInTail(a, b, t);
    SuffixesEqual(a, b, t);
    DistZero(b[k..]);
    PrefixesEqual(a, b, k);
    PrefixDist(a, k, |a| - t);
  }

  // In that case the part right of the cut is always aligned at its best, so a
  // cut is optimal exactly when b[..r] is left of a[..column] by deleting
  // characters only.
  lemma OverlapCut(a: string, b: string, column: int, r: int)
    requires !EndsApart(a, b)
    requires CommonPrefix(a, b) <= column <= |a| - CommonSuffix(a, b) && CommonPrefix(a, b) <= r <= |b|
    ensures OptimalCut(a, b, column, r) <==> Deletes(a[..column], b[..r])
  {
    OverlapDist(a, b);
    OverlapTail(a, b, r);
    hide CommonPrefix, CommonSuffix, EndsApart;
    SuffixDist(a, column, |a| - (|b| - r));
    DeletionIsSubsequence(a[..column], b[..r]);
    hide Dist, Sub;
  }

  lemma OverlapTail(a: string, b: string, r: int)
    requires !EndsApart(a, b) && CommonPrefix(a, b) <= r <= |b| && CommonSuffix(a, b) <= |a|
    ensures 0 <= |b| - r <= CommonSuffix(a, b) && a[|a| - (|b| - r)..] == b[r..]
  {
    hide CommonPrefix, CommonSuffix;
    SuffixesEqual(a, b, |b| - r);
  }

  // b is left of a by deleting characters only.
  ghost predicate Deletes(a: string, b: string) { Sub(b, a) }

  // What is left by deleting characters stays so when shortened.
  lemma DeletesLess(a: string, b: string, i: nat, j: nat)
    requires i <= j <= |b| && Deletes(a, b[..j])
    ensures Deletes(a, b[..i])
  {
    var idx :| Embeds(idx, b[..j], a);
    assert Embeds(idx[..i], b[..i], a);
  }

  // Some cut i of b, reached from a[..c] by deletions only, is not beaten by any
  // cut that is not so reached; for a start of a range it is not even equalled.
  ghost predicate DeletionWins(a: string, b: string, c: int, isEnd: bool)
    requires 0 <= c <= |a|
  {
    exists i :: 0 <= i <= |b| && Deletes(a[..c], b[..i]) && Unbeaten(a, b, c, i, isEnd)
  }

  ghost predicate Unbeaten(a: string, b: string, c: int, i: int, isEnd: bool)
    requires 0 <= c <= |a| && 0 <= i <= |b|
  {
    forall j :: 0 <= j <= |b| && !Deletes(a[..c], b[..j]) ==>
      if isEnd then CutCost(a, b, c, i) <= CutCost(a, b, c, j) else CutCost(a, b, c, i) < CutCost(a, b, c, j)
  }

  lemma CheapestDeletesIff(a: string, b: string, c: nat, r: int, isEnd: bool)
    requires c <= |a| && CheapestCut(a, b, c, r, isEnd)
    ensures 0 <= r <= |b| && (Deletes(a[..c], b[..r]) <==> DeletionWins(a, b, c, isEnd))
  {
    hide CutCost, Deletes;
    if Deletes(a[..c], b[..r]) {
      forall j | 0 <= j <= |b| && !Deletes(a[..c], b[..j])
        ensures r < j
      {
        if j <= r { DeletesLess(a[..c], b, j, r); }
      }
      assert Unbeaten(a, b, c, r, isEnd);
    } else if DeletionWins(a, b, c, isEnd) {
      var i :| 0 <= i <= |b| && Deletes(a[..c], b[..i]) && Unbeaten(a, b, c, i, isEnd);
      if r <= i { DeletesLess(a[..c], b, r, i); }
    }
  }

  // With overlapping ends the result is optimal if and only if, between the
  // common ends, a cut reached by deletions only wins.
  lemma OverlapOptimalIff(a: string, b: string, column: int, isEnd: bool, r: int)
    requires !EndsApart(a, b)
    requires CommonPrefix(a, b) <= column <= |a| - CommonSuffix(a, b)
    requires !TooLong(a, b, CommonPrefix(a, b), CommonSuffix(a, b))
    requires Aligned(a, b, column, isEnd, r)
    ensures var h := CommonPrefix(a, b);
      OptimalCut(a, b, column, r) <==> DeletionWins(a[h..|a| - CommonSuffix(a, b)], b[h..], column - h, isEnd)
  {
    hide DeletionWins, CheapestCut, OptimalCut, Deletes, Aligned, EndsApart, CommonPrefix, CommonSuffix, TooLong, Searched;
    var h, m := CommonPrefix(a, b), |a| - CommonSuffix(a, b);
    OverlapSearch(a, b, column, isEnd, r);
    CheapestDeletesIff(a[h..m], b[h..], column - h, r - h, isEnd);
    OverlapCut(a, b, column, r);
    PrefixesEqual(a, b, h);
    DeletesFramed(a, b, h, m, column, r);
  }

  lemma OverlapSearch(a: string, b: string, column: int, isEnd: bool, r: int)
    requires !EndsApart(a, b) && Aligned(a, b, column, isEnd, r)
    requires CommonPrefix(a, b) <= column <= |a| - CommonSuffix(a, b)
    requires !TooLong(a, b, CommonPrefix(a, b), CommonSuffix(a, b))
    ensures var h := CommonPrefix(a, b);
      h <= |b| && CheapestCut(a[h..|a| - CommonSuffix(a, b)], b[h..], column - h, r - h, isEnd)
  {
    hide CheapestCut, CommonPrefix, CommonSuffix;
  }

  // The common head plays no part.
  lemma DeletesFramed(a: string, b: string, h: nat, m: nat, column: nat, r: nat)
    requires h <= column <= m <= |a| && h <= r <= |b| && a[..h] == b[..h]
    ensures Deletes(a[..column], b[..r]) <==> Deletes(a[h..m][..column - h], b[h..][..r - h])
  {
    assert a[h..m][..column - h] == a[h..column] && b[h..][..r - h] == b[h..r];
    assert a[..column] == a[..h] + a[h..column] && b[..r] == a[..h] + b[h..r];
    DistStripPrefix(a[..h], a[h..column], b[h..r]);
    DeletionIsSubsequence(a[..column], b[..r]);
    DeletionIsSubsequence(a[h..column], b[h..r]);
    hide Dist, Sub;
  }

  // Below the size cut-off, the column lies on an optimal alignment if and only
  // if it is in a common end, the ends are apart, or a cut by deletions wins.
  lemma AlignedOptimalIff(a: string, b: string, column: int, isEnd: bool, r: int)
    requires 0 <= column <= |a| && Aligned(a, b, column, isEnd, r)
    requires !TooLong(a, b, CommonPrefix(a, b), CommonSuffix(a, b))
    ensures var h, m := CommonPrefix(a, b), |a| - CommonSuffix(a, b);
      OptimalCut(a, b, column, r) <==>
        column < h || m < column || EndsApart(a, b) || DeletionWins(a[h..m], b[h..], column - h, isEnd)
  {
    hide CheapestCut, OptimalCut, DeletionWins, CommonPrefix, CommonSuffix;
    if column < CommonPrefix(a, b) {
      CutInHead(a, b, column);
    } else if |a| - CommonSuffix(a, b) < column {
      CutInTail(a, b, |a| - column);
    } else if EndsApart(a, b) {
      AlignedIsOptimal(a, b, column, isEnd, r);
    } else {
      OverlapOptimalIff(a, b, column, isEnd, r);
    }
  }

  lemma OverlapEnds()
    ensures CommonPrefix("aaXaa", "aaa") == 2 && CommonSuffix("aaXaa", "aaa") == 2
  {
    assert "aaXaa"[1..] == "aXaa" && "aXaa"[1..] == "Xaa";
    assert "aaa"[1..] == "aa" && "aa"[1..] == "a";
    assert "aaXaa"[..4] == "aaXa" && "aaXa"[..3] == "aaX";
    assert "aaa"[..2] == "aa" && "aa"[..1] == "a";
  }

  lemma OverlapCosts()
    ensures CutCost("X", "a", 0, 0) == 2 && CutCost("X", "a", 0, 1) == 2
  {
    assert "X"[..0] == "" && "X"[0..] == "X";
    assert "a"[..0] == "" && "a"[0..] == "a" && "a"[..1] == "a" && "a"[1..] == "";
  }

  lemma OverlapDistance()
    ensures Dist("aaXaa", "aaa") <= 2 && CutCost("aaXaa", "aaa", 2, 3) == 4
  {
    var a, b := "aaXaa", "aaa";
    assert a[..2] == "aa" && b[..3] == "aa" + "a" && a[2..] == "Xaa" && b[3..] == "";
    DistStripPrefix("aa", "", "a");
    assert "aa" + "" == "aa";
    assert a == "aa" + "Xaa" && b == "aa" + "a";
    DistStripPrefix("aa", "Xaa", "a");
    assert "Xaa" == "Xa" + "a" && "a" == "" + "a";
    DistStripSuffix("Xa", "", "a");
  }

  // Without EndsApart optimality fails: column 2 of aaXaa in aaa.
  lemma OverlapNotOptimal(r: int)
    requires Aligned("aaXaa", "aaa", 2, false, r)
    ensures !EndsApart("aaXaa", "aaa") && !OptimalCut("aaXaa", "aaa", 2, r)
  {
    var a, b := "aaXaa", "aaa";
    OverlapEnds();
    assert a[2..3] == "X" && b[2..] == "a";
    assert CheapestCut("X", "a", 0, r - 2, false);
    OverlapCosts();
    assert r == 3;
    OverlapDistance();
  }
}
