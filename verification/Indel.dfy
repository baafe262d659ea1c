// Insertion/deletion distance of two strings: the cost model shared by the two
// alignment algorithms of src/working_files.cc (insertion = 1, deletion = 1,
// no substitution).
//
// The meaning is given by edit scripts.  Grid computes the least cost over the
// (unbounded) alignment grid, and OptimalScript ties the two together.
module Indel {

  datatype Op = Keep(c: char) | Delete(c: char) | Insert(c: char)

  // The text a script starts from.
  function Source(s: seq<Op>): string {
    if s == [] then "" else
      var last := s[|s| - 1];
      Source(s[..|s| - 1]) + if last.Insert? then "" else [last.c]
  }

  // The text a script produces.
  function Target(s: seq<Op>): string {
    if s == [] then "" else
      var last := s[|s| - 1];
      Target(s[..|s| - 1]) + if last.Delete? then "" else [last.c]
  }

  function Cost(s: seq<Op>): nat {
    if s == [] then 0 else
      Cost(s[..|s| - 1]) + if s[|s| - 1].Keep? then 0 else 1
  }

  function Min(x: int, y: int): int { if x < y then x else y }
  function Max(x: int, y: int): int { if x < y then y else x }
  function Abs(x: int): nat { if x < 0 then -x else x }

  predicate Match(a: string, b: string, x: int, y: int) {
    0 < x <= |a| && 0 < y <= |b| && a[x - 1] == b[y - 1]
  }

  // Distance of the x-prefix of a and the y-prefix of b.  Beyond the ends the
  // strings behave as if continued by characters that never match.
  function Grid(a: string, b: string, x: nat, y: nat): nat
    decreases x + y
  {
    if x == 0 then y
    else if y == 0 then x
    else if Match(a, b, x, y) then Grid(a, b, x - 1, y - 1)
    else 1 + Min(Grid(a, b, x - 1, y), Grid(a, b, x, y - 1))
  }

  function Dist(a: string, b: string): nat { Grid(a, b, |a|, |b|) }

  // ---------- Shape of the grid ----------

  // Neighbouring cells differ by at most one, and a cell never exceeds its
  // successor on the diagonal.
  lemma {:induction false} GridStep(a: string, b: string, x: nat, y: nat)
    ensures Grid(a, b, x, y) - 1 <= Grid(a, b, x + 1, y) <= Grid(a, b, x, y) + 1
    ensures Grid(a, b, x, y) - 1 <= Grid(a, b, x, y + 1) <= Grid(a, b, x, y) + 1
    ensures Grid(a, b, x, y) <= Grid(a, b, x + 1, y + 1)
    decreases x + y
  {
    if x > 0 { GridStep(a, b, x - 1, y); }
    if y > 0 { GridStep(a, b, x, y - 1); }
  }

  predicate SameParity(x: int, y: int) { (x - y) % 2 == 0 }

  lemma {:induction false} GridParity(a: string, b: string, x: nat, y: nat)
    ensures SameParity(Grid(a, b, x, y), x + y)
    decreases x + y
  {
    if x > 0 && y > 0 {
      if Match(a, b, x, y) {
        GridParity(a, b, x - 1, y - 1);
      } else {
        GridParity(a, b, x - 1, y);
        GridParity(a, b, x, y - 1);
      }
    }
  }

  lemma {:induction false} GridBounds(a: string, b: string, x: nat, y: nat)
    ensures Abs(x - y) <= Grid(a, b, x, y) <= x + y
    decreases x + y
  {
    if x > 0 && y > 0 {
      GridBounds(a, b, x - 1, y - 1);
      GridBounds(a, b, x - 1, y);
      GridBounds(a, b, x, y - 1);
    }
  }

  lemma {:induction false} GridDiagonal(a: string, b: string, x: nat, y: nat, k: nat)
    ensures Grid(a, b, x, y) <= Grid(a, b, x + k, y + k)
    decreases k
  {
    if k > 0 {
      GridDiagonal(a, b, x, y, k - 1);
      GridStep(a, b, x + k - 1, y + k - 1);
    }
  }

  // Every column past the end of a costs one deletion more.
  lemma {:induction false} GridBeyondA(a: string, b: string, x: nat, y: nat)
    requires x >= |a|
    ensures Grid(a, b, x + 1, y) == Grid(a, b, x, y) + 1
    decreases y
  {
    if y > 0 {
      GridBeyondA(a, b, x, y - 1);
      GridStep(a, b, x, y - 1);
    }
  }

  lemma {:induction false} GridBeyondB(a: string, b: string, x: nat, y: nat)
    requires y >= |b|
    ensures Grid(a, b, x, y + 1) == Grid(a, b, x, y) + 1
    decreases x
  {
    if x > 0 {
      GridBeyondB(a, b, x - 1, y);
      GridStep(a, b, x - 1, y);
    }
  }

  // The cell diagonally past the far corner is two steps away.
  lemma GridPastCorner(a: string, b: string)
    ensures Grid(a, b, |a| + 1, |b| + 1) == Dist(a, b) + 2
  {
    GridBeyondA(a, b, |a|, |b|);
    GridBeyondB(a, b, |a| + 1, |b|);
  }

  // Within the strings, a cell is the distance of the two prefixes.
  lemma {:induction false} GridIsPrefixDist(a: string, b: string, x: nat, y: nat)
    requires x <= |a| && y <= |b|
    ensures Grid(a, b, x, y) == Dist(a[..x], b[..y])
  {
    GridAgrees(a, b, a[..x], b[..y], x, y);
  }

  lemma {:induction false} GridAgrees(a: string, b: string, a': string, b': string, x: nat, y: nat)
    requires x <= |a| && x <= |a'| && y <= |b| && y <= |b'|
    requires a[..x] == a'[..x] && b[..y] == b'[..y]
    ensures Grid(a, b, x, y) == Grid(a', b', x, y)
    decreases x + y
  {
    if x > 0 && y > 0 {
      assert a[x - 1] == a[..x][x - 1] == a'[x - 1];
      assert b[y - 1] == b[..y][y - 1] == b'[y - 1];
      assert a[..x - 1] == a[..x][..x - 1] == a'[..x - 1];
      assert b[..y - 1] == b[..y][..y - 1] == b'[..y - 1];
      GridAgrees(a, b, a', b', x - 1, y - 1);
      GridAgrees(a, b, a', b', x - 1, y);
      GridAgrees(a, b, a', b', x, y - 1);
    }
  }

  // ---------- Scripts ----------

  // No script is cheaper than the distance of the texts it connects.
  lemma {:induction false} ScriptCostsAtLeast(s: seq<Op>)
    ensures Dist(Source(s), Target(s)) <= Cost(s)
  {
    if s != [] {
      var front, last := s[..|s| - 1], s[|s| - 1];
      var (a, b) := (Source(front), Target(front));
      ScriptCostsAtLeast(front);
      match last
      case Keep(c) =>
        GridIsPrefixDist(a + [c], b + [c], |a|, |b|);
        assert (a + [c])[..|a|] == a && (b + [c])[..|b|] == b;
      case Delete(c) =>
        GridIsPrefixDist(a + [c], b, |a|, |b|);
        assert (a + [c])[..|a|] == a && b[..|b|] == b && Target(s) == b;
        GridStep(a + [c], b, |a|, |b|);
      case Insert(c) =>
        GridIsPrefixDist(a, b + [c], |a|, |b|);
        assert (b + [c])[..|b|] == b && a[..|a|] == a && Source(s) == a;
        GridStep(a, b + [c], |a|, |b|);
    }
  }

  lemma {:induction false} ScriptSnoc(s: seq<Op>, op: Op)
    ensures Source(s + [op]) == Source(s) + if op.Insert? then "" else [op.c]
    ensures Target(s + [op]) == Target(s) + if op.Delete? then "" else [op.c]
    ensures Cost(s + [op]) == Cost(s) + if op.Keep? then 0 else 1
  {
    assert (s + [op])[..|s|] == s;
  }

  predicate Connects(s: seq<Op>, a: string, b: string, cost: nat) {
    Source(s) == a && Target(s) == b && Cost(s) == cost
  }

  lemma ExtendScript(a: string, b: string, x: nat, y: nat, s: seq<Op>, cost: nat, op: Op)
    requires x <= |a| && y <= |b| && Connects(s, a[..x], b[..y], cost)
    requires !op.Insert? ==> x < |a| && op.c == a[x]
    requires !op.Delete? ==> y < |b| && op.c == b[y]
    ensures var x' := if op.Insert? then x else x + 1;
      var y' := if op.Delete? then y else y + 1;
      Connects(s + [op], a[..x'], b[..y'], if op.Keep? then cost else cost + 1)
  {
    ScriptSnoc(s, op);
    if !op.Insert? { assert a[..x + 1] == a[..x] + [a[x]]; }
    if !op.Delete? { assert b[..y + 1] == b[..y] + [b[y]]; }
  }

  // A cheapest script, read off the grid from the far corner.
  lemma {:induction false} BestScript(a: string, b: string, x: nat, y: nat) returns (s: seq<Op>)
    requires x <= |a| && y <= |b|
    ensures Connects(s, a[..x], b[..y], Grid(a, b, x, y))
    decreases x + y
  {
    if x == 0 && y == 0 {
      s := [];
    } else if x > 0 && y > 0 && Match(a, b, x, y) {
      var t := BestScript(a, b, x - 1, y - 1);
      s := t + [Keep(a[x - 1])];
      ExtendScript(a, b, x - 1, y - 1, t, Grid(a, b, x - 1, y - 1), Keep(a[x - 1]));
    } else if y == 0 || (x > 0 && Grid(a, b, x - 1, y) < Grid(a, b, x, y - 1)) {
      var t := BestScript(a, b, x - 1, y);
      s := t + [Delete(a[x - 1])];
      ExtendScript(a, b, x - 1, y, t, Grid(a, b, x - 1, y), Delete(a[x - 1]));
    } else {
      var t := BestScript(a, b, x, y - 1);
      s := t + [Insert(b[y - 1])];
      ExtendScript(a, b, x, y - 1, t, Grid(a, b, x, y - 1), Insert(b[y - 1]));
    }
  }

  // Dist is the least number of insertions and deletions turning a into b.
  lemma OptimalScript(a: string, b: string)
    ensures exists s :: Source(s) == a && Target(s) == b && Cost(s) == Dist(a, b)
    ensures forall s :: Source(s) == a && Target(s) == b ==> Dist(a, b) <= Cost(s)
  {
    var s := BestScript(a, b, |a|, |b|);
    assert a[..|a|] == a && b[..|b|] == b;
    assert Source(s) == a && Target(s) == b && Cost(s) == Dist(a, b);
    forall s | Source(s) == a && Target(s) == b
      ensures Dist(a, b) <= Cost(s)
    {
      ScriptCostsAtLeast(s);
    }
  }

  // ---------- Concatenation, splitting, reversal ----------

  lemma {:induction false} ScriptConcat(s: seq<Op>, t: seq<Op>)
    ensures Source(s + t) == Source(s) + Source(t)
    ensures Target(s + t) == Target(s) + Target(t)
    ensures Cost(s + t) == Cost(s) + Cost(t)
  {
    if t == [] {
      assert s + t == s;
    } else {
      ScriptConcat(s, t[..|t| - 1]);
      ScriptSnoc(s + t[..|t| - 1], t[|t| - 1]);
      assert s + t == (s + t[..|t| - 1]) + [t[|t| - 1]];
    }
  }

  lemma DistOfConcat(a1: string, b1: string, a2: string, b2: string)
    ensures Dist(a1 + a2, b1 + b2) <= Dist(a1, b1) + Dist(a2, b2)
  {
    OptimalScript(a1, b1);
    OptimalScript(a2, b2);
    var s :| Source(s) == a1 && Target(s) == b1 && Cost(s) == Dist(a1, b1);
    var t :| Source(t) == a2 && Target(t) == b2 && Cost(t) == Dist(a2, b2);
    ScriptConcat(s, t);
    ScriptCostsAtLeast(s + t);
  }

  // A script can be cut wherever its source can be.
  lemma {:induction false} ScriptSplit(s: seq<Op>, c: nat) returns (n: nat)
    requires c <= |Source(s)|
    ensures n <= |s| && Source(s[..n]) == Source(s)[..c]
  {
    if c == |Source(s)| {
      n := |s|;
      assert s[..n] == s;
    } else {
      n := ScriptSplit(s[..|s| - 1], c);
      assert s[..|s| - 1][..n] == s[..n];
    }
  }

  // For every cut of a there is a cut of b at which an optimal alignment passes.
  lemma DistSplits(a: string, b: string, c: nat) returns (r: nat)
    requires c <= |a|
    ensures r <= |b|
    ensures Dist(a[..c], b[..r]) + Dist(a[c..], b[r..]) == Dist(a, b)
  {
    OptimalScript(a, b);
    var s :| Source(s) == a && Target(s) == b && Cost(s) == Dist(a, b);
    var n := ScriptSplit(s, c);
    var (s1, s2) := (s[..n], s[n..]);
    assert s == s1 + s2;
    ScriptConcat(s1, s2);
    r := |Target(s1)|;
    assert Source(s2) == a[c..] && Target(s1) == b[..r] && Target(s2) == b[r..];
    ScriptCostsAtLeast(s1);
    ScriptCostsAtLeast(s2);
    DistOfConcat(a[..c], b[..r], a[c..], b[r..]);
    assert a == a[..c] + a[c..] && b == b[..r] + b[r..];
  }

  function Reverse<T>(s: seq<T>): (r: seq<T>)
    ensures |r| == |s|
    ensures forall i :: 0 <= i < |s| ==> r[i] == s[|s| - 1 - i]
  {
    seq(|s|, i requires 0 <= i < |s| => s[|s| - 1 - i])
  }

  lemma {:induction false} ScriptReverse(s: seq<Op>)
    ensures Source(Reverse(s)) == Reverse(Source(s))
    ensures Target(Reverse(s)) == Reverse(Target(s))
    ensures Cost(Reverse(s)) == Cost(s)
  {
    if s == [] {
      assert Reverse(s) == [];
    } else {
      var front, last := s[..|s| - 1], s[|s| - 1];
      ScriptReverse(front);
      ScriptSnoc([], last);
      assert [] + [last] == [last];
      ScriptConcat([last], Reverse(front));
      assert Reverse(s) == [last] + Reverse(front);
    }
  }

  lemma DistOfReverse(a: string, b: string)
    ensures Dist(Reverse(a), Reverse(b)) == Dist(a, b)
  {
    ReversedDistAtMost(a, b);
    ReversedDistAtMost(Reverse(a), Reverse(b));
    assert Reverse(Reverse(a)) == a && Reverse(Reverse(b)) == b;
  }

  lemma ReversedDistAtMost(a: string, b: string)
    ensures Dist(Reverse(a), Reverse(b)) <= Dist(a, b)
  {
    OptimalScript(a, b);
    var s :| Source(s) == a && Target(s) == b && Cost(s) == Dist(a, b);
    ScriptReverse(s);
    ScriptCostsAtLeast(Reverse(s));
  }

  // ---------- Stripping common ends ----------

  lemma {:induction false} DistStripSuffix(a: string, b: string, s: string)
    ensures Dist(a + s, b + s) == Dist(a, b)
    decreases |s|
  {
    if s == [] {
      assert a + s == a && b + s == b;
    } else {
      var front, c := s[..|s| - 1], s[|s| - 1];
      DistStripSuffix(a, b, front);
      assert a + s == (a + front) + [c] && b + s == (b + front) + [c];
      GridIsPrefixDist(a + s, b + s, |a + front|, |b + front|);
      assert (a + s)[..|a + front|] == a + front && (b + s)[..|b + front|] == b + front;
    }
  }

  lemma DistStripPrefix(p: string, a: string, b: string)
    ensures Dist(p + a, p + b) == Dist(a, b)
  {
    DistOfReverse(p + a, p + b);
    DistOfReverse(a, b);
    assert Reverse(p + a) == Reverse(a) + Reverse(p);
    assert Reverse(p + b) == Reverse(b) + Reverse(p);
    DistStripSuffix(Reverse(a), Reverse(b), Reverse(p));
  }

  lemma DistStrip(p: string, a: string, b: string, s: string)
    ensures Dist(p + a + s, p + b + s) == Dist(a, b)
  {
    DistStripSuffix(p + a, p + b, s);
    DistStripPrefix(p, a, b);
  }

  lemma DistLowerBound(a: string, b: string)
    ensures Abs(|a| - |b|) <= Dist(a, b)
  {
    GridBounds(a, b, |a|, |b|);
  }

  lemma {:induction false} DistZero(a: string)
    ensures Dist(a, a) == 0
  {
    DistStripSuffix("", "", a);
    assert "" + a == a;
  }

  // ---------- Longest common subsequences ----------

  // idx lists increasing positions of text at which pat is read.
  predicate Embeds(idx: seq<int>, pat: string, text: string) {
    && |idx| == |pat|
    && (forall k :: 0 <= k < |idx| ==> 0 <= idx[k] < |text| && text[idx[k]] == pat[k])
    && (forall k, l :: 0 <= k < l < |idx| ==> idx[k] < idx[l])
  }

  // p is a subsequence of t.
  ghost predicate Sub(p: string, t: string) { exists idx :: Embeds(idx, p, t) }

  ghost predicate CommonSubsequence(c: string, a: string, b: string) { Sub(c, a) && Sub(c, b) }

  // The distance is |a| + |b| - 2 * (length of a longest common subsequence).
  lemma DistIsLcsDistance(a: string, b: string)
    ensures exists c :: CommonSubsequence(c, a, b) && Dist(a, b) == |a| + |b| - 2 * |c|
    ensures forall c :: CommonSubsequence(c, a, b) ==> Dist(a, b) <= |a| + |b| - 2 * |c|
  {
    OptimalScript(a, b);
    var s :| Source(s) == a && Target(s) == b && Cost(s) == Dist(a, b);
    var c, i, j := KeptByScript(s);
    assert Sub(c, a) && Sub(c, b);
    forall c | CommonSubsequence(c, a, b)
      ensures Dist(a, b) <= |a| + |b| - 2 * |c|
    {
      var i :| Embeds(i, c, a);
      var j :| Embeds(j, c, b);
      CommonSubsequenceBounds(a, b, c, i, j, |a|, |b|);
    }
  }

  lemma DistSymmetric(a: string, b: string)
    ensures Dist(a, b) == Dist(b, a)
  {
    DistIsLcsDistance(a, b);
    DistIsLcsDistance(b, a);
    var c :| CommonSubsequence(c, a, b) && Dist(a, b) == |a| + |b| - 2 * |c|;
    var c' :| CommonSubsequence(c', b, a) && Dist(b, a) == |b| + |a| - 2 * |c'|;
    assert CommonSubsequence(c, b, a) && CommonSubsequence(c', a, b);
  }

  // The difference in length is the whole distance exactly when b is left of a
  // by deleting characters.
  lemma DeletionIsSubsequence(a: string, b: string)
    ensures Dist(a, b) == |a| - |b| <==> Sub(b, a)
  {
    DistIsLcsDistance(a, b);
    DistLowerBound(a, b);
    assert Embeds(seq(|b|, k => k), b, b);
    if Dist(a, b) == |a| - |b| {
      var c :| CommonSubsequence(c, a, b) && Dist(a, b) == |a| + |b| - 2 * |c|;
      var idx :| Embeds(idx, c, b);
      FullSubsequence(idx, c, b);
    } else if Sub(b, a) {
      assert CommonSubsequence(b, a, b);
    }
  }

  lemma FirstOfSub(c: string, t: string)
    requires Sub(c, t) && c != ""
    ensures c[0] in t
  {
    var idx :| Embeds(idx, c, t);
    assert t[idx[0]] == c[0];
  }

  // A subsequence as long as the text is the text.
  lemma FullSubsequence(idx: seq<int>, c: string, t: string)
    requires Embeds(idx, c, t) && |c| == |t|
    ensures c == t
  {
    forall k | 0 <= k < |idx|
      ensures idx[k] == k
    {
      AtLeast(idx, c, t, k);
      AtMost(idx, c, t, k);
    }
  }

  lemma {:induction false} AtLeast(idx: seq<int>, c: string, t: string, k: nat)
    requires Embeds(idx, c, t) && k < |idx|
    ensures k <= idx[k]
  {
    if k > 0 { AtLeast(idx, c, t, k - 1); }
  }

  lemma {:induction false} AtMost(idx: seq<int>, c: string, t: string, k: nat)
    requires Embeds(idx, c, t) && k < |idx|
    ensures idx[k] <= |t| - |idx| + k
    decreases |idx| - k
  {
    if k + 1 < |idx| { AtMost(idx, c, t, k + 1); }
  }

  // What a script keeps is a common subsequence of its two texts.
  lemma {:induction false} KeptByScript(s: seq<Op>) returns (c: string, i: seq<int>, j: seq<int>)
    ensures Embeds(i, c, Source(s)) && Embeds(j, c, Target(s))
    ensures Cost(s) == |Source(s)| + |Target(s)| - 2 * |c|
  {
    if s == [] {
      c, i, j := "", [], [];
    } else {
      c, i, j := KeptByScript(s[..|s| - 1]);
      var last := s[|s| - 1];
      if last.Keep? {
        c, i, j := c + [last.c], i + [|Source(s)| - 1], j + [|Target(s)| - 1];
      }
    }
  }

  lemma {:induction false} CommonSubsequenceBounds(a: string, b: string, c: string, i: seq<int>, j: seq<int>, x: nat, y: nat)
    requires x <= |a| && y <= |b|
    requires Embeds(i, c, a[..x]) && Embeds(j, c, b[..y])
    ensures Grid(a, b, x, y) <= x + y - 2 * |c|
    decreases x + y
  {
    if c == "" {
      GridBounds(a, b, x, y);
    } else {
      var n := |c| - 1;
      if i[n] < x - 1 {
        assert Embeds(i, c, a[..x - 1]);
        CommonSubsequenceBounds(a, b, c, i, j, x - 1, y);
        GridStep(a, b, x - 1, y);
      } else if j[n] < y - 1 {
        assert Embeds(j, c, b[..y - 1]);
        CommonSubsequenceBounds(a, b, c, i, j, x, y - 1);
        GridStep(a, b, x, y - 1);
      } else {
        assert a[x - 1] == a[..x][i[n]] == c[n] == b[..y][j[n]] == b[y - 1];
        assert Embeds(i[..n], c[..n], a[..x - 1]) && Embeds(j[..n], c[..n], b[..y - 1]);
        CommonSubsequenceBounds(a, b, c[..n], i[..n], j[..n], x - 1, y - 1);
      }
    }
  }
}
