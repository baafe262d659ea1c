// The alignment routines of src/working_files.cc.
module TextAlign {
  import opened Indel

  const MAX_DIFF := 20
  const MAX_COLUMN_ALIGN_SIZE := 200

  // Length of the longest common prefix.
  function CommonPrefix(a: string, b: string): (n: nat)
    ensures n <= |a| && n <= |b|
  {
    if a != "" && b != "" && a[0] == b[0] then 1 + CommonPrefix(a[1..], b[1..]) else 0
  }

  // Length of the longest common suffix.
  function CommonSuffix(a: string, b: string): (n: nat)
    ensures n <= |a| && n <= |b|
  {
    if a != "" && b != "" && a[|a| - 1] == b[|b| - 1] then
      1 + CommonSuffix(a[..|a| - 1], b[..|b| - 1])
    else 0
  }

  lemma {:induction false} StrippedPrefix(a: string, b: string)
    ensures var p := CommonPrefix(a, b); Dist(a[p..], b[p..]) == Dist(a, b)
  {
    if a != "" && b != "" && a[0] == b[0] {
      var a', b' := a[1..], b[1..];
      StrippedPrefix(a', b');
      DistStripPrefix([a[0]], a', b');
      assert a == [a[0]] + a' && b == [a[0]] + b';
      var p := CommonPrefix(a', b');
      assert a[p + 1..] == a'[p..] && b[p + 1..] == b'[p..];
    }
  }

  lemma {:induction false} StrippedSuffix(a: string, b: string)
    ensures var s := CommonSuffix(a, b); Dist(a[..|a| - s], b[..|b| - s]) == Dist(a, b)
  {
    if a != "" && b != "" && a[|a| - 1] == b[|b| - 1] {
      var a', b' := a[..|a| - 1], b[..|b| - 1];
      StrippedSuffix(a', b');
      GridIsPrefixDist(a, b, |a'|, |b'|);
      var s := CommonSuffix(a', b');
      assert a[..|a| - s - 1] == a'[..|a'| - s] && b[..|b| - s - 1] == b'[..|b'| - s];
    } else {
      assert a[..|a|] == a && b[..|b|] == b;
    }
  }

  // Number of characters left in both strings once the common prefix, and then
  // the common suffix of what remains, are removed.
  function StrippedLength(a: string, b: string): nat {
    var p := CommonPrefix(a, b);
    var s := CommonSuffix(a[p..], b[p..]);
    |a[p..]| + |b[p..]| - 2 * s
  }

  // ---------- Myers' O(ND) algorithm ----------

  // x is the furthest point on diagonal i (cells (x, x - i)) within distance d.
  ghost predicate Furthest(a: string, b: string, i: int, d: int, x: int) {
    && 0 <= x && 0 <= x - i
    && Grid(a, b, x, x - i) <= d < Grid(a, b, x + 1, x + 1 - i)
  }

  // First and last diagonal visited in round d.
  function Low(d: int, lb: int): int { -d + 2 * Max(0, d - lb) }
  function High(d: int, la: int): int { d - 2 * Max(0, d - la) }

  predicate OnRound(i: int, d: int) { (i + d) % 2 == 0 }

  // Sliding from the better of the two neighbouring diagonals reaches the
  // furthest point of this one.
  lemma FurthestFromNeighbours(a: string, b: string, i: int, d: int, x0: int, x: int)
    requires 0 <= d && -d <= i <= d
    requires 0 <= x0 <= x && 0 <= x0 - i
    requires Grid(a, b, x0, x0 - i) <= d
    requires Grid(a, b, x, x - i) == Grid(a, b, x0, x0 - i)
    requires !(x < |a| && x - i < |b| && a[x] == b[x - i])
    requires Grid(a, b, x, x - i + 1) >= d && Grid(a, b, x + 1, x - i) >= d
    ensures Furthest(a, b, i, d, x)
  {
  }

  // On a diagonal, points beyond the furthest are out of reach as well.
  lemma BeyondFurthest(a: string, b: string, i: int, d: int, x: int, x': int)
    requires Furthest(a, b, i, d, x) && x < x'
    ensures d < Grid(a, b, x', x' - i)
  {
    GridDiagonal(a, b, x + 1, x + 1 - i, x' - x - 1);
  }

  // The far corner is on a visited diagonal in the round that equals the
  // distance, and it is the furthest point there.
  lemma CornerIsReached(a: string, b: string, d: int, x: int)
    requires Dist(a, b) == d
    ensures var k := |a| - |b|;
      && Low(d, |b|) <= k <= High(d, |a|) && OnRound(k, d)
      && (Furthest(a, b, k, d, x) ==> x == |a|)
  {
    var k := |a| - |b|;
    GridBounds(a, b, |a|, |b|);
    GridParity(a, b, |a|, |b|);
    GridPastCorner(a, b);
    if Furthest(a, b, k, d, x) {
      if x < |a| { BeyondFurthest(a, b, k, d, x, |a|); }
      if x > |a| { GridDiagonal(a, b, |a| + 1, |b| + 1, x - |a| - 1); }
    }
  }

  // Cells v[off + i] of round d hold furthest points, for diagonals i of the
  // round's parity from Low up to (excluding) limit.
  ghost predicate RoundDone(v: seq<int>, off: int, a: string, b: string, d: int, limit: int) {
    forall i :: Low(d, |b|) <= i < limit && OnRound(i, d) ==>
      0 <= off + i < |v| && Furthest(a, b, i, d, v[off + i])
  }

  // The better of the two neighbours of diagonal i in the previous round:
  // left and right are the furthest points of diagonals i - 1 and i + 1.
  predicate StartPoint(i: int, d: int, left: int, right: int, x0: int) {
    x0 == if i == -d || (i != d && left < right) then right else left + 1
  }

  lemma StartPointInReach(a: string, b: string, i: int, d: int, left: int, right: int, x0: int)
    requires 0 < d && -d <= i <= d && StartPoint(i, d, left, right, x0)
    requires i != -d ==> Furthest(a, b, i - 1, d - 1, left)
    requires i != d ==> Furthest(a, b, i + 1, d - 1, right)
    ensures 0 <= x0 && 0 <= x0 - i && Grid(a, b, x0, x0 - i) <= d
    ensures i != -d ==> left < x0
    ensures i != d ==> right <= x0
  {
    if i == -d || (i != d && left < right) {
      GridStep(a, b, x0, x0 - i - 1);
    } else {
      GridStep(a, b, x0 - 1, x0 - i);
    }
  }

  // Past the start point, the cells just off diagonal i cost at least d.
  lemma SidesOutOfReach(a: string, b: string, i: int, d: int, left: int, right: int, x: int)
    requires 0 <= d && -d <= i <= d && 0 <= x && 0 <= x - i
    requires d > 0 && i != -d ==> Furthest(a, b, i - 1, d - 1, left) && left < x
    requires d > 0 && i != d ==> Furthest(a, b, i + 1, d - 1, right) && right <= x
    ensures Grid(a, b, x, x - i + 1) >= d && Grid(a, b, x + 1, x - i) >= d
  {
    if i == -d { GridBounds(a, b, x, x - i + 1); } else { BeyondFurthest(a, b, i - 1, d - 1, left, x); }
    if i == d { GridBounds(a, b, x + 1, x - i); } else { BeyondFurthest(a, b, i + 1, d - 1, right, x + 1); }
  }

  // Slides from x0 down diagonal i while the characters match.
  method Slide(a: string, b: string, i: int, x0: int) returns (x: int)
    requires 0 <= x0 && 0 <= x0 - i
    ensures x0 <= x && Grid(a, b, x, x - i) == Grid(a, b, x0, x0 - i)
    ensures !(x < |a| && x - i < |b| && a[x] == b[x - i])
  {
    x := x0;
    var y := x - i;
    while x < |a| && y < |b| && a[x] == b[y]
      invariant x0 <= x && y == x - i
      invariant Grid(a, b, x, y) == Grid(a, b, x0, x0 - i)
      decreases |a| - x
    {
      x, y := x + 1, y + 1;
    }
  }

  // One evaluation of the inner loop body on diagonal i.
  method Advance(v: array<int>, off: int, a: string, b: string, d: int, i: int)
    requires 0 <= d && -d <= i <= d
    requires (i != -d ==> 0 < off + i) && 0 <= off + i && off + i + 1 < v.Length
    requires d == 0 ==> v[off + 1] == 0
    requires d > 0 && i != -d ==> Furthest(a, b, i - 1, d - 1, v[off + i - 1])
    requires d > 0 && i != d ==> Furthest(a, b, i + 1, d - 1, v[off + i + 1])
    modifies v
    ensures Furthest(a, b, i, d, v[off + i])
    ensures forall j :: 0 <= j < v.Length && j != off + i ==> v[j] == old(v[j])
  {
    ghost var left := if i == -d then 0 else v[off + i - 1];
    ghost var right := v[off + i + 1];
    var x := if i == -d || (i != d && v[off + i - 1] < v[off + i + 1]) then v[off + i + 1] else v[off + i - 1] + 1;
    if d > 0 { StartPointInReach(a, b, i, d, left, right, x); }
    ghost var x0 := x;
    x := Slide(a, b, i, x);
    SidesOutOfReach(a, b, i, d, left, right, x);
    FurthestFromNeighbours(a, b, i, d, x0, x);
    v[off + i] := x;
  }

  // Diagonals read in round d were visited in round d - 1.
  lemma NeighboursVisited(la: nat, lb: nat, d: int, i: int)
    requires 0 <= d && Low(d, lb) <= i <= High(d, la) && OnRound(i, d)
    ensures -d <= i <= d && 0 <= lb + i && i <= la
    ensures d > 0 && i != -d ==> Low(d - 1, lb) <= i - 1 <= High(d - 1, la) && OnRound(i - 1, d - 1)
    ensures d > 0 && i != d ==> Low(d - 1, lb) <= i + 1 <= High(d - 1, la) && OnRound(i + 1, d - 1)
  {
  }

  // Writing diagonal i extends round d and leaves round d - 1 (the other parity) alone.
  lemma RoundStep(before: seq<int>, after: seq<int>, off: int, a: string, b: string, d: int, i: int, limit: int)
    requires |before| == |after| && 0 <= off + i < |after|
    requires after == before[off + i := after[off + i]]
    requires OnRound(i, d) && Furthest(a, b, i, d, after[off + i])
    requires RoundDone(before, off, a, b, d, i)
    ensures RoundDone(after, off, a, b, d, i + 2)
    ensures RoundDone(before, off, a, b, d - 1, limit) ==> RoundDone(after, off, a, b, d - 1, limit)
  {
  }

  // Visits diagonal i in round d: true when the far corner is reached.
  method VisitDiagonal(v: array<int>, a: string, b: string, d: int, i: int) returns (found: bool)
    requires v.Length == 2 * MAX_COLUMN_ALIGN_SIZE + 2 && |a| + |b| <= 2 * MAX_COLUMN_ALIGN_SIZE
    requires 0 <= d <= Dist(a, b) && Low(d, |b|) <= i <= High(d, |a|) && OnRound(i, d)
    requires d == 0 ==> v[|b| + 1] == 0
    requires d > 0 ==> RoundDone(v[..], |b|, a, b, d - 1, High(d - 1, |a|) + 1)
    requires RoundDone(v[..], |b|, a, b, d, i)
    modifies v
    ensures d > 0 ==> RoundDone(v[..], |b|, a, b, d - 1, High(d - 1, |a|) + 1)
    ensures RoundDone(v[..], |b|, a, b, d, i + 2)
    ensures found <==> i == |a| - |b| && Dist(a, b) == d
  {
    NeighboursVisited(|a|, |b|, d, i);
    ghost var before := v[..];
    Advance(v, |b|, a, b, d, i);
    RoundStep(before, v[..], |b|, a, b, d, i, High(d - 1, |a|) + 1);
    var x := v[|b| + i];
    found := x == |a| && x - i == |b|;
    if i == |a| - |b| && Dist(a, b) == d { CornerIsReached(a, b, d, x); }
  }

  lemma OnRoundLow(d: int, lb: nat)
    ensures OnRound(Low(d, lb), d)
  {
  }

  lemma OnRoundNext(i: int, d: int)
    requires OnRound(i, d)
    ensures OnRound(i + 2, d) && !OnRound(i + 1, d)
  {
  }

  // Round d: true when the far corner is reached.
  method Round(v: array<int>, a: string, b: string, d: int) returns (found: bool)
    requires v.Length == 2 * MAX_COLUMN_ALIGN_SIZE + 2 && |a| + |b| <= 2 * MAX_COLUMN_ALIGN_SIZE
    requires 0 <= d <= Dist(a, b)
    requires d == 0 ==> v[|b| + 1] == 0
    requires d > 0 ==> RoundDone(v[..], |b|, a, b, d - 1, High(d - 1, |a|) + 1)
    modifies v
    ensures found <==> Dist(a, b) == d
    ensures !found ==> RoundDone(v[..], |b|, a, b, d, High(d, |a|) + 1)
  {
    hide Furthest, Grid, OnRound;
    OnRoundLow(d, |b|);
    var low, high := Low(d, |b|), High(d, |a|);
    var i := low;
    while i <= high
      invariant low <= i && OnRound(i, d)
      invariant d == 0 && i == 0 ==> v[|b| + 1] == 0
      invariant d > 0 ==> RoundDone(v[..], |b|, a, b, d - 1, High(d - 1, |a|) + 1)
      invariant RoundDone(v[..], |b|, a, b, d, i)
      invariant low <= |a| - |b| < i && OnRound(|a| - |b|, d) ==> Dist(a, b) != d
      decreases high - i
    {
      found := VisitDiagonal(v, a, b, d, i);
      if found {
        return;
      }
      OnRoundNext(i, d);
      i := i + 2;
    }
    if Dist(a, b) == d { CornerIsReached(a, b, d, |a|); }
    found := false;
  }

  // The search proper, on strings whose lengths fit the shared array.
  method MyersCore(v: array<int>, a: string, b: string, threshold: int) returns (r: int)
    requires v.Length == 2 * MAX_COLUMN_ALIGN_SIZE + 2
    requires |a| + |b| <= 2 * MAX_COLUMN_ALIGN_SIZE
    modifies v
    ensures r == Min(Dist(a, b), threshold + 1)
  {
    v[|b| + 1] := 0;
    var d := 0;
    while d <= threshold
      invariant 0 <= d <= Max(0, threshold + 1)
      invariant d <= Dist(a, b)
      invariant d == 0 ==> v[|b| + 1] == 0
      invariant d > 0 ==> RoundDone(v[..], |b|, a, b, d - 1, High(d - 1, |a|) + 1)
    {
      var found := Round(v, a, b, d);
      if found {
        return d;
      }
      d := d + 1;
    }
    r := threshold + 1;
  }

  method MatchPrefix(a: string, b: string) returns (n: nat)
    ensures n == CommonPrefix(a, b)
  {
    n := 0;
    assert a[0..] == a && b[0..] == b;
    while n < |a| && n < |b| && a[n] == b[n]
      invariant n <= |a| && n <= |b|
      invariant n + CommonPrefix(a[n..], b[n..]) == CommonPrefix(a, b)
    {
      assert a[n..][1..] == a[n + 1..] && b[n..][1..] == b[n + 1..];
      n := n + 1;
    }
  }

  method MatchSuffix(a: string, b: string) returns (n: nat)
    ensures n == CommonSuffix(a, b)
  {
    n := 0;
    assert a[..|a|] == a && b[..|b|] == b;
    while n < |a| && n < |b| && a[|a| - 1 - n] == b[|b| - 1 - n]
      invariant n <= |a| && n <= |b|
      invariant n + CommonSuffix(a[..|a| - n], b[..|b| - n]) == CommonSuffix(a, b)
    {
      assert a[..|a| - n][..|a| - n - 1] == a[..|a| - n - 1];
      assert b[..|b| - n][..|b| - n - 1] == b[..|b| - n - 1];
      n := n + 1;
    }
  }

  // What is left after stripping the common prefix and then the common suffix.
  method StripEnds(a: string, b: string) returns (a': string, b': string)
    ensures |a'| + |b'| == StrippedLength(a, b) && |a'| - |b'| == |a| - |b|
    ensures Dist(a', b') == Dist(a, b)
  {
    var p := MatchPrefix(a, b);
    StrippedPrefix(a, b);
    a', b' := a[p..], b[p..];
    var s := MatchSuffix(a', b');
    StrippedSuffix(a', b');
    a', b' := a'[..|a'| - s], b'[..|b'| - s];
  }

  // Edit distance of a and b, cut off at threshold + 1.  v is the static work
  // array shared by all calls; whatever it holds on entry does not matter.
  method MyersDiff(v: array<int>, a: string, b: string, threshold: int) returns (r: int)
    requires v.Length == 2 * MAX_COLUMN_ALIGN_SIZE + 2
    requires threshold <= MAX_DIFF
    modifies v
    ensures StrippedLength(a, b) <= 2 * MAX_COLUMN_ALIGN_SIZE ==> r == Min(Dist(a, b), threshold + 1)
    ensures StrippedLength(a, b) > 2 * MAX_COLUMN_ALIGN_SIZE ==> r == Min(Abs(|a| - |b|), threshold + 1)
    ensures r <= Min(Dist(a, b), threshold + 1)
  {
    var a', b' := StripEnds(a, b);
    var la, lb := |a'|, |b'|;
    if la + lb > 2 * MAX_COLUMN_ALIGN_SIZE {
      DistLowerBound(a, b);
      return Min(Abs(la - lb), threshold + 1);
    }
    r := MyersCore(v, a', b', threshold);
  }

  // The lower bound reported for lines too long for the work array is the cut-off
  // distance exactly when it is above the threshold itself or one line is left of
  // the other by deletions.
  lemma LowerBoundExactIff(a: string, b: string, threshold: int)
    ensures Min(Abs(|a| - |b|), threshold + 1) == Min(Dist(a, b), threshold + 1)
       <==> Abs(|a| - |b|) > threshold || Sub(a, b) || Sub(b, a)
  {
    DistLowerBound(a, b);
    DeletionIsSubsequence(a, b);
    DeletionIsSubsequence(b, a);
    DistSymmetric(a, b);
    hide Dist, Sub;
  }

  // It fails for 201 characters against 201 others: 0 is reported, the distance is 402.
  lemma LowerBoundNotDistance()
    ensures var a, b := seq(201, _ => 'a'), seq(201, _ => 'b');
      && StrippedLength(a, b) == 402 && Min(Abs(|a| - |b|), MAX_DIFF + 1) == 0
      && Dist(a, b) == 402 && Min(Dist(a, b), MAX_DIFF + 1) == MAX_DIFF + 1
  {
    var a, b := seq(201, _ => 'a'), seq(201, _ => 'b');
    DistIsLcsDistance(a, b);
    var c :| CommonSubsequence(c, a, b) && Dist(a, b) == |a| + |b| - 2 * |c|;
    hide Dist, Sub;
    if c != "" {
      FirstOfSub(c, a);
      FirstOfSub(c, b);
    }
    assert CommonPrefix(a, b) == 0 && a[0..] == a && b[0..] == b;
    assert CommonSuffix(a, b) == 0;
  }

  // ---------- Needleman-Wunsch in one row ----------

  method EditDistanceVector(a: string, b: string) returns (d: array<int>)
    ensures fresh(d) && d.Length == |b| + 1
    ensures forall j :: 0 <= j <= |b| ==> d[j] == Dist(a, b[..j])
  {
    d := new int[|b| + 1](j => j);
    for i := 0 to |a|
      invariant forall j :: 0 <= j <= |b| ==> d[j] == Grid(a, b, i, j)
    {
      NextRow(d, a, b, i);
    }
    forall j | 0 <= j <= |b|
      ensures d[j] == Dist(a, b[..j])
    {
      GridIsPrefixDist(a, b, |a|, j);
      assert a[..|a|] == a;
    }
  }

  // Replaces row i of the grid by row i + 1, in place; ul is the overwritten
  // upper left neighbour.
  method NextRow(d: array<int>, a: string, b: string, i: nat)
    requires i < |a| && d.Length == |b| + 1
    requires forall j :: 0 <= j <= |b| ==> d[j] == Grid(a, b, i, j)
    modifies d
    ensures forall j :: 0 <= j <= |b| ==> d[j] == Grid(a, b, i + 1, j)
  {
    var ul := d[0];
    d[0] := i + 1;
    for j := 0 to |b|
      invariant ul == Grid(a, b, i, j)
      invariant forall k :: 0 <= k <= j ==> d[k] == Grid(a, b, i + 1, k)
      invariant forall k :: j < k <= |b| ==> d[k] == Grid(a, b, i, k)
    {
      var t := d[j + 1];
      d[j + 1] := if a[i] == b[j] then ul else Min(d[j], d[j + 1]) + 1;
      ul := t;
    }
  }

  // ---------- One step of Hirschberg's alignment ----------

  // Cost of aligning a with b through the cut (c, r).
  function CutCost(a: string, b: string, c: int, r: int): nat
    requires 0 <= c <= |a| && 0 <= r <= |b|
  {
    Dist(a[..c], b[..r]) + Dist(a[c..], b[r..])
  }

  // r is the first (isEnd) or last cheapest cut of b for the cut c of a.
  ghost predicate CheapestCut(a: string, b: string, c: int, r: int, isEnd: bool)
    requires 0 <= c <= |a|
  {
    && 0 <= r <= |b|
    && (forall k :: 0 <= k <= |b| ==> CutCost(a, b, c, r) <= CutCost(a, b, c, k))
    && (forall k :: 0 <= k <= |b| && (if isEnd then k < r else r < k) ==> CutCost(a, b, c, r) < CutCost(a, b, c, k))
  }

  // The part of b searched: b without its common ends with a, or only without
  // the common head when the two ends overlap in b (the length passed to
  // substr is unsigned, so a negative one means "to the end").
  function Searched(b: string, head: int, tail: int): string
    requires 0 <= head <= |b| && 0 <= tail <= |b|
  {
    if head + tail <= |b| then b[head..|b| - tail] else b[head..]
  }

  predicate TooLong(a: string, b: string, head: int, tail: int) {
    Max(|a|, |b|) - head - tail >= MAX_COLUMN_ALIGN_SIZE
  }

  // What alignColumn returns, in its four cases.
  ghost predicate Aligned(a: string, b: string, column: int, isEnd: bool, r: int) {
    var head, tail := CommonPrefix(a, b), CommonSuffix(a, b);
    if column < head then r == column
    else if |a| - tail < column then r == column + |b| - |a|
    else if TooLong(a, b, head, tail) then r == Min(column, |b|)
    else CheapestCut(a[head..|a| - tail], Searched(b, head, tail), column - head, r - head, isEnd)
  }

  // A best index of the two vectors is a cheapest cut.
  lemma BestIndexIsCheapestCut(a: string, c: nat, b: string, left: seq<int>, right: seq<int>, best: int, isEnd: bool)
    requires c <= |a| && |left| == |right| == |b| + 1
    requires forall k :: 0 <= k <= |b| ==> left[k] == Dist(a[..c], b[..k]) && right[k] == Dist(a[c..], b[k..])
    requires BestIndex(left, right, best, isEnd)
    ensures CheapestCut(a, b, c, best, isEnd)
  {
    assert forall k :: 0 <= k <= |b| ==> left[k] + right[k] == CutCost(a, b, c, k);
  }

  method AlignColumn(a: string, column: int, b: string, isEnd: bool) returns (r: int)
    ensures Aligned(a, b, column, isEnd, r)
  {
    hide CheapestCut;
    var head := MatchPrefix(a, b);
    var tail := MatchSuffix(a, b);
    if column < head {
      return column;
    }
    if |a| - tail < column {
      return column + |b| - |a|;
    }
    if Max(|a|, |b|) - head - tail >= MAX_COLUMN_ALIGN_SIZE {
      return Min(column, |b|);
    }
    var b' := Searched(b, head, tail);
    var best := SearchCut(a[head..|a| - tail], b', column - head, isEnd);
    r := head + best;
  }

  // A cheapest cut, by a search over the two distance vectors.
  method SearchCut(a: string, b: string, c: nat, isEnd: bool) returns (best: int)
    requires c <= |a|
    ensures CheapestCut(a, b, c, best, isEnd)
  {
    var left, right := CutVectors(a[..c], a[c..], b);
    best := BestCut(left, right, isEnd);
    BestIndexIsCheapestCut(a, c, b, left, right, best, isEnd);
  }

  // The two distance vectors, indexed by cuts of b.
  method CutVectors(a1: string, a2: string, b: string) returns (left: seq<int>, right: seq<int>)
    ensures |left| == |right| == |b| + 1
    ensures forall k :: 0 <= k <= |b| ==> left[k] == Dist(a1, b[..k]) && right[k] == Dist(a2, b[k..])
  {
    var l := EditDistanceVector(a1, b);
    var r := EditDistanceVector(Reverse(a2), Reverse(b));
    left, right := l[..], Reverse(r[..]);
    forall k | 0 <= k <= |b|
      ensures right[k] == Dist(a2, b[k..])
    {
      assert Reverse(b)[..|b| - k] == Reverse(b[k..]);
      DistOfReverse(a2, b[k..]);
    }
  }

  ghost predicate BestIndex(left: seq<int>, right: seq<int>, best: int, isEnd: bool)
    requires |left| == |right|
  {
    && 0 <= best < |left|
    && (forall k :: 0 <= k < |left| ==> left[best] + right[best] <= left[k] + right[k])
    && (forall k :: 0 <= k < |left| && (if isEnd then k < best else best < k) ==>
          left[best] + right[best] < left[k] + right[k])
  }

  // The search for the first or last cheapest cut.
  method BestCut(left: seq<int>, right: seq<int>, isEnd: bool) returns (best: int)
    requires |left| == |right| > 0
    ensures BestIndex(left, right, best, isEnd)
  {
    best := 0;
    var bestCost := 0;  // the source starts from INT_MAX, which the first cost replaces
    for i := 0 to |left|
      invariant i > 0 ==> 0 <= best < i && bestCost == left[best] + right[best]
      invariant forall k :: 0 <= k < i ==> bestCost <= left[k] + right[k]
      invariant forall k :: 0 <= k < i && (if isEnd then k < best else best < k) ==> bestCost < left[k] + right[k]
    {
      var cost := left[i] + right[i];
      if i == 0 || (if isEnd then cost < bestCost else cost <= bestCost) {
        bestCost := cost;
        best := i;
      }
    }
  }
}
