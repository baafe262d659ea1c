// computeLineMapping of src/working_files.cc, on the line hashes: the passes as
// functions, and what they guarantee.
module LineMapping {

  type Hashes = seq<int>
  type LineMap = seq<int>  // entry i is the line i maps to, or -1

  // Line i is the only one with its hash.
  predicate Unique(hs: Hashes, i: int) {
    0 <= i < |hs| && forall k :: 0 <= k < |hs| && k != i ==> hs[k] != hs[i]
  }

  // Lines i of a and j of b are unique and equal.
  predicate Twins(a: Hashes, b: Hashes, i: int, j: int) {
    Unique(a, i) && Unique(b, j) && a[i] == b[j]
  }

  // Lines unique on both sides point to their twins.
  ghost predicate IsSeed(a: Hashes, b: Hashes, m: LineMap) {
    && |m| == |a|
    && forall i :: 0 <= i < |a| ==> if m[i] >= 0 then Twins(a, b, i, m[i]) else m[i] == -1 && forall j :: !Twins(a, b, i, j)
  }

  // The seed is determined by the hashes.
  lemma SeedUnique(a: Hashes, b: Hashes, m: LineMap, m': LineMap)
    requires IsSeed(a, b, m) && IsSeed(a, b, m')
    ensures m == m'
  {
    forall i | 0 <= i < |a|
      ensures m[i] == m'[i]
    {
      assert m[i] >= 0 ==> Twins(a, b, i, m[i]);
      assert m'[i] >= 0 ==> Twins(a, b, i, m'[i]);
    }
  }

  // One step of the downward extension: line i + 1 follows line i.
  function ExtendDown(a: Hashes, b: Hashes, m: LineMap, i: nat): LineMap
    requires |m| == |a| && i + 1 < |a|
  {
    var j := m[i];
    if 0 <= j && j + 1 < |b| && a[i + 1] == b[j + 1] then m[i + 1 := j + 1] else m
  }

  // One step of the upward extension: line i - 1 precedes line i.
  function ExtendUp(a: Hashes, b: Hashes, m: LineMap, i: nat): LineMap
    requires |m| == |a| && 0 < i < |a|
  {
    var j := m[i];
    if 0 < j <= |b| && a[i - 1] == b[j - 1] then m[i - 1 := j - 1] else m
  }

  // The map after the downward steps 0, ..., n - 1.
  function Down(a: Hashes, b: Hashes, m: LineMap, n: nat): (r: LineMap)
    requires |m| == |a| && (n == 0 || n < |a|)
    ensures |r| == |a|
  {
    if n == 0 then m else ExtendDown(a, b, Down(a, b, m, n - 1), n - 1)
  }

  // The map after the upward steps |a| - 1, ..., n.
  function Up(a: Hashes, b: Hashes, m: LineMap, n: nat): (r: LineMap)
    requires |m| == |a| && n <= |a| && (n == 0 ==> |a| == 0)
    ensures |r| == |a|
    decreases |a| - n
  {
    if n == |a| then m else ExtendUp(a, b, Up(a, b, m, n + 1), n)
  }

  function Extended(a: Hashes, b: Hashes, seed: LineMap): (r: LineMap)
    requires |seed| == |a|
    ensures |r| == |a|
  {
    if |a| == 0 then seed else Up(a, b, Down(a, b, seed, |a| - 1), 1)
  }

  // After the first n entries of m have been inverted.
  function Inverse(m: LineMap, size: nat, n: nat): (r: LineMap)
    requires n <= |m|
    ensures |r| == size
  {
    if n == 0 then seq(size, _ => -1)
    else
      var r := Inverse(m, size, n - 1);
      if 0 <= m[n - 1] < size then r[m[n - 1] := n - 1] else r
  }

  // ---------- Soundness ----------

  // Every mapped line has an equal partner.
  predicate Sound(a: Hashes, b: Hashes, m: LineMap) {
    |m| == |a| && forall i :: 0 <= i < |a| ==> -1 <= m[i] && (m[i] >= 0 ==> m[i] < |b| && a[i] == b[m[i]])
  }

  // Lines mapped in m are still mapped in r.
  predicate StillMapped(m: LineMap, r: LineMap) {
    |m| == |r| && forall i :: 0 <= i < |m| && m[i] >= 0 ==> r[i] >= 0
  }

  lemma {:induction false} DownSound(a: Hashes, b: Hashes, m: LineMap, n: nat)
    requires Sound(a, b, m) && (n == 0 || n < |a|)
    ensures Sound(a, b, Down(a, b, m, n)) && StillMapped(m, Down(a, b, m, n))
  {
    if n > 0 { DownSound(a, b, m, n - 1); }
  }

  lemma {:induction false} UpSound(a: Hashes, b: Hashes, m: LineMap, n: nat)
    requires Sound(a, b, m) && 0 < n <= |a|
    ensures Sound(a, b, Up(a, b, m, n)) && StillMapped(m, Up(a, b, m, n))
    decreases |a| - n
  {
    if n < |a| { UpSound(a, b, m, n + 1); }
  }

  lemma SeedSound(a: Hashes, b: Hashes, m: LineMap)
    requires IsSeed(a, b, m)
    ensures Sound(a, b, m)
  {
    forall i | 0 <= i < |a|
      ensures -1 <= m[i] && (m[i] >= 0 ==> m[i] < |b| && a[i] == b[m[i]])
    {
      assert m[i] >= 0 ==> Twins(a, b, i, m[i]);
    }
  }

  lemma ExtendedSound(a: Hashes, b: Hashes, seed: LineMap)
    requires IsSeed(a, b, seed)
    ensures Sound(a, b, Extended(a, b, seed)) && StillMapped(seed, Extended(a, b, seed))
  {
    SeedSound(a, b, seed);
    if |a| > 0 {
      DownSound(a, b, seed, |a| - 1);
      UpSound(a, b, Down(a, b, seed, |a| - 1), 1);
    }
  }

  // Extension never moves a line away from its twin.
  lemma TwinsMapped(a: Hashes, b: Hashes, seed: LineMap, i: int, j: int)
    requires IsSeed(a, b, seed) && Twins(a, b, i, j)
    ensures Extended(a, b, seed)[i] == j
  {
    ExtendedSound(a, b, seed);
    assert seed[i] >= 0;
  }

  // ---------- Closure under extension ----------

  lemma {:induction false} DownClosed(a: Hashes, b: Hashes, m: LineMap, n: nat, i: nat)
    requires |m| == |a| && n < |a| && i < n
    ensures var r := Down(a, b, m, n);
      0 <= r[i] && r[i] + 1 < |b| && a[i + 1] == b[r[i] + 1] ==> r[i + 1] == r[i] + 1
  {
    if i < n - 1 { DownClosed(a, b, m, n - 1, i); }
  }

  lemma {:induction false} UpClosed(a: Hashes, b: Hashes, m: LineMap, n: nat, i: nat)
    requires |m| == |a| && 0 < n <= i < |a|
    ensures var r := Up(a, b, m, n);
      0 < r[i] <= |b| && a[i - 1] == b[r[i] - 1] ==> r[i - 1] == r[i] - 1
    decreases |a| - n
  {
    if n < i { UpClosed(a, b, m, n + 1, i); }
  }

  // Steps down to n write no line below n - 1.
  lemma {:induction false} UpUntouched(a: Hashes, b: Hashes, m: LineMap, n: nat, i: int)
    requires |m| == |a| && 0 < n <= |a| && 0 <= i < n - 1
    ensures Up(a, b, m, n)[i] == m[i]
    decreases |a| - n
  {
    if n < |a| { UpUntouched(a, b, m, n + 1, i); }
  }

  // The upward pass keeps a line's value or has mapped the next line.
  lemma {:induction false} UpWritesNextToMapped(a: Hashes, b: Hashes, m: LineMap, n: nat, i: nat)
    requires |m| == |a| && 0 < n <= |a| && i + 1 < |a|
    ensures var r := Up(a, b, m, n); r[i] == m[i] || r[i + 1] > 0
    decreases |a| - n
  {
    if i < n - 1 {
      UpUntouched(a, b, m, n, i);
    } else if n < i + 1 {
      UpWritesNextToMapped(a, b, m, n + 1, i);
    } else {
      UpUntouched(a, b, m, n + 1, i);
    }
  }

  // A confident line followed (preceded) on both sides by equal lines makes
  // the next (previous) line confident.
  lemma ConfidenceSpreads(a: Hashes, b: Hashes, seed: LineMap, i: nat)
    requires IsSeed(a, b, seed) && i < |a|
    ensures var r := Extended(a, b, seed);
      && Sound(a, b, r)
      && (r[i] >= 0 && i + 1 < |a| && r[i] + 1 < |b| && a[i + 1] == b[r[i] + 1] ==> r[i + 1] >= 0)
      && (r[i] > 0 && i > 0 && a[i - 1] == b[r[i] - 1] ==> r[i - 1] == r[i] - 1)
  {
    var down := Down(a, b, seed, |a| - 1);
    SeedSound(a, b, seed);
    DownSound(a, b, seed, |a| - 1);
    UpSound(a, b, down, 1);
    if i + 1 < |a| {
      DownClosed(a, b, seed, |a| - 1, i);
      UpWritesNextToMapped(a, b, down, 1, i);
    }
    if i > 0 { UpClosed(a, b, down, 1, i); }
  }

  // ---------- Equal texts ----------

  predicate PartialIdentity(m: LineMap) {
    forall i :: 0 <= i < |m| ==> m[i] == -1 || m[i] == i
  }

  lemma {:induction false} DownIdentity(a: Hashes, m: LineMap, n: nat, u: nat)
    requires |m| == |a| && (n == 0 || n < |a|) && u < |a|
    requires PartialIdentity(m) && m[u] == u
    ensures var r := Down(a, a, m, n);
      PartialIdentity(r) && (forall i :: u <= i <= n && i < |a| ==> r[i] == i) && r[u] == u
  {
    if n > 0 { DownIdentity(a, m, n - 1, u); }
  }

  lemma {:induction false} UpIdentity(a: Hashes, m: LineMap, n: nat, u: nat)
    requires |m| == |a| && 0 < n <= |a| && u < |a|
    requires forall i :: u <= i < |a| ==> m[i] == i
    ensures forall i :: 0 <= i < |a| && (u <= i || n <= i + 1) ==> Up(a, a, m, n)[i] == i
    decreases |a| - n
  {
    if n < |a| {
      UpIdentity(a, m, n + 1, u);
      assert Up(a, a, m, n + 1)[n] == n;
    }
  }

  // A text with a unique line maps to itself by the identity.
  lemma EqualTextsIdentity(a: Hashes, seed: LineMap, u: nat, i: nat)
    requires IsSeed(a, a, seed) && Unique(a, u) && i < |a|
    ensures Extended(a, a, seed)[i] == i
  {
    forall k | 0 <= k < |a|
      ensures seed[k] == -1 || seed[k] == k
    {
      assert seed[k] >= 0 ==> Twins(a, a, k, seed[k]);
    }
    assert Twins(a, a, u, u);
    assert seed[u] == u;
    DownIdentity(a, seed, |a| - 1, u);
    UpIdentity(a, Down(a, a, seed, |a| - 1), 1, u);
    assert Up(a, a, Down(a, a, seed, |a| - 1), 1)[i] == i;
  }

  // ---------- The inverse ----------

  // Entry j of the inverse is the greatest line mapped to j, or -1.
  lemma {:induction false} InverseGreatest(m: LineMap, size: nat, n: nat, j: nat)
    requires n <= |m| && j < size
    ensures var i := Inverse(m, size, n)[j];
      && -1 <= i < n
      && (i >= 0 ==> m[i] == j)
      && (forall k :: i < k < n ==> m[k] != j)
  {
    if n > 0 { InverseGreatest(m, size, n - 1, j); }
  }

  // The map is not injective in general: only the second x is inverted.
  lemma NotInjective()
    ensures var a, b := [1, 7, 7, 2], [1, 7, 2];
      exists seed :: IsSeed(a, b, seed) && Extended(a, b, seed)[1] == Extended(a, b, seed)[2] == 1
  {
    var a, b, seed := [1, 7, 7, 2], [1, 7, 2], [0, -1, -1, 2];
    forall i | 0 <= i < |a|
      ensures if seed[i] >= 0 then Twins(a, b, i, seed[i]) else seed[i] == -1 && forall j :: !Twins(a, b, i, j)
    {
      if i == 1 { assert a[2] == a[1]; }
      if i == 2 { assert a[1] == a[2]; }
    }
    assert Down(a, b, seed, 0) == seed;
    assert Down(a, b, seed, 1) == [0, 1, -1, 2];
    assert Down(a, b, seed, 2) == [0, 1, -1, 2];
    assert Down(a, b, seed, 3) == [0, 1, -1, 2];
    var d := [0, 1, -1, 2];
    assert Up(a, b, d, 4) == d;
    assert Up(a, b, d, 3) == [0, 1, 1, 2];
    assert Up(a, b, d, 2) == [0, 1, 1, 2];
    assert Up(a, b, d, 1) == [0, 1, 1, 2];
    assert Extended(a, b, seed)[1] == Extended(a, b, seed)[2];
  }
}
