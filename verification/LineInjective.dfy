// When no two index lines are mapped to the same buffer line (computeLineMapping of
// src/working_files.cc): every twin extends over a run of lines, and these runs
// must not meet in the buffer.
module LineInjective {
  import opened LineMapping

  predicate Injective(r: LineMap) { forall i, k :: 0 <= i < k < |r| && r[i] >= 0 ==> r[i] != r[k] }

  // Line i is mapped to its twin.
  predicate IsTwin(seed: LineMap, i: int) { 0 <= i < |seed| && seed[i] >= 0 }

  // ---------- Run lengths ----------

  // How many lines above x match the lines above y, up to the next twin.
  function UpRun(a: Hashes, b: Hashes, seed: LineMap, x: nat, y: nat): (u: nat)
    requires x <= |a| == |seed| && y <= |b|
    ensures u <= x && u <= y
  {
    if 0 < x && 0 < y && a[x - 1] == b[y - 1] && seed[x - 1] < 0 then 1 + UpRun(a, b, seed, x - 1, y - 1) else 0
  }

  // How many lines below x match the lines below y, down to the next twin.
  function DownRun(a: Hashes, b: Hashes, seed: LineMap, x: nat, y: nat): (d: nat)
    requires x < |a| == |seed| && y < |b|
    ensures x + d < |a| && y + d < |b|
    decreases |a| - x
  {
    if x + 1 < |a| && y + 1 < |b| && a[x + 1] == b[y + 1] && seed[x + 1] < 0 then 1 + DownRun(a, b, seed, x + 1, y + 1) else 0
  }

  // The next twin after line i, or the end.
  function NextTwin(seed: LineMap, i: int): (n: nat)
    requires -1 <= i < |seed|
    ensures i < n <= |seed| && (n < |seed| ==> seed[n] >= 0) && forall x :: i < x < n ==> seed[x] < 0
    decreases |seed| - i
  {
    if i + 1 == |seed| || seed[i + 1] >= 0 then i + 1 else NextTwin(seed, i + 1)
  }

  // The lines mapped upwards from the twin i.
  function Above(a: Hashes, b: Hashes, seed: LineMap, i: int): nat
    requires IsTwin(seed, i) && |seed| == |a| && seed[i] < |b|
  {
    UpRun(a, b, seed, i, seed[i])
  }

  // The lines mapped downwards from the twin i, as the upward pass leaves them.
  function Below(a: Hashes, b: Hashes, seed: LineMap, i: int): int
    requires IsTwin(seed, i) && |seed| == |a| && InBuffer(b, seed)
  {
    var n, d := NextTwin(seed, i), DownRun(a, b, seed, i, seed[i]);
    if n == |a| then d
    else
      var left := n - i - 1 - Above(a, b, seed, n);
      if d < left then d else left
  }

  predicate InBuffer(b: Hashes, seed: LineMap) { forall i :: 0 <= i < |seed| ==> seed[i] < |b| }

  // t is the next twin below s in the buffer.
  ghost predicate Neighbours(seed: LineMap, s: int, t: int) {
    && IsTwin(seed, s) && IsTwin(seed, t) && seed[s] < seed[t]
    && forall w :: IsTwin(seed, w) ==> !(seed[s] < seed[w] < seed[t])
  }

  // Between neighbouring twins, the lines mapped down from the upper and up from
  // the lower one fit into the buffer lines between them.
  ghost predicate RunsFit(a: Hashes, b: Hashes, seed: LineMap)
    requires |seed| == |a| && InBuffer(b, seed)
  {
    forall s, t :: Neighbours(seed, s, t) ==> Below(a, b, seed, s) + Above(a, b, seed, t) < seed[t] - seed[s]
  }

  // ---------- The passes, line by line ----------

  lemma SeedInBuffer(a: Hashes, b: Hashes, seed: LineMap)
    requires IsSeed(a, b, seed)
    ensures |seed| == |a| && InBuffer(b, seed)
  {
    SeedSound(a, b, seed);
  }

  lemma {:induction false} DownStep(a: Hashes, b: Hashes, m: LineMap, n: nat, i: nat)
    requires |m| == |a| && n < |a| && i < |a|
    ensures var r := Down(a, b, m, n);
      r[i] == if 0 < i <= n && 0 <= r[i - 1] && r[i - 1] + 1 < |b| && a[i] == b[r[i - 1] + 1] then r[i - 1] + 1 else m[i]
  {
    if n > 0 {
      DownStep(a, b, m, n - 1, i);
      if i > 0 { DownStep(a, b, m, n - 1, i - 1); }
    }
  }

  lemma {:induction false} UpStep(a: Hashes, b: Hashes, m: LineMap, n: nat, i: nat)
    requires |m| == |a| && 0 < n <= |a| && i < |a|
    ensures var r := Up(a, b, m, n);
      r[i] == if n <= i + 1 < |a| && 0 < r[i + 1] <= |b| && a[i] == b[r[i + 1] - 1] then r[i + 1] - 1 else m[i]
    decreases |a| - n
  {
    if n < |a| {
      UpStep(a, b, m, n + 1, i);
      if i + 1 < |a| { UpStep(a, b, m, n + 1, i + 1); }
    }
  }

  // ---------- The lines between two twins ----------

  // No twin strictly between s and n; s is one or -1, n is one or the end.
  predicate Gap(seed: LineMap, s: int, n: int) {
    && -1 <= s < n <= |seed| && (s >= 0 ==> seed[s] >= 0) && (n < |seed| ==> seed[n] >= 0)
    && forall x :: s < x < n ==> seed[x] < 0
  }

  function DownValue(a: Hashes, b: Hashes, seed: LineMap, s: int, x: int): int
    requires |seed| == |a| && InBuffer(b, seed) && (s >= 0 ==> IsTwin(seed, s))
  {
    if s >= 0 && x - s <= DownRun(a, b, seed, s, seed[s]) then seed[s] + (x - s) else -1
  }

  function UpValue(a: Hashes, b: Hashes, seed: LineMap, s: int, n: int, x: int): int
    requires |seed| == |a| && InBuffer(b, seed) && (s >= 0 ==> IsTwin(seed, s)) && (0 <= n < |seed| ==> IsTwin(seed, n))
  {
    if 0 <= n < |a| && n - x <= Above(a, b, seed, n) then seed[n] - (n - x) else DownValue(a, b, seed, s, x)
  }

  lemma {:induction false} DownRunAt(a: Hashes, b: Hashes, seed: LineMap, x: nat, y: nat, k: nat)
    requires x + k < |a| == |seed| && y < |b| && k <= DownRun(a, b, seed, x, y)
    ensures var z, w := x + k, y + k;
      k < DownRun(a, b, seed, x, y) <==> z + 1 < |a| && w + 1 < |b| && a[z + 1] == b[w + 1] && seed[z + 1] < 0
    ensures k > 0 ==> a[x + k] == b[y + k] && seed[x + k] < 0
    decreases k
  {
    if k > 0 { DownRunAt(a, b, seed, x + 1, y + 1, k - 1); }
  }

  lemma {:induction false} UpRunAt(a: Hashes, b: Hashes, seed: LineMap, x: nat, y: nat, k: nat)
    requires x <= |a| == |seed| && y <= |b| && k <= UpRun(a, b, seed, x, y)
    ensures var z, w := x - k, y - k;
      k < UpRun(a, b, seed, x, y) <==> 0 < z && 0 < w && a[z - 1] == b[w - 1] && seed[z - 1] < 0
    ensures k > 0 ==> a[x - k] == b[y - k] && seed[x - k] < 0
    decreases k
  {
    if k > 0 { UpRunAt(a, b, seed, x - 1, y - 1, k - 1); }
  }

  // The upward run stops at the twin above.
  lemma AboveInGap(a: Hashes, b: Hashes, seed: LineMap, s: int, n: int)
    requires |seed| == |a| && InBuffer(b, seed) && Gap(seed, s, n) && n < |a|
    ensures Above(a, b, seed, n) <= n - s - 1
  {
    if n - s <= Above(a, b, seed, n) { UpRunAt(a, b, seed, n, seed[n], n - s); }
  }

  lemma BelowInGap(a: Hashes, b: Hashes, seed: LineMap, s: int, n: int)
    requires |seed| == |a| && InBuffer(b, seed) && Gap(seed, s, n) && 0 <= s
    ensures DownRun(a, b, seed, s, seed[s]) <= n - s - 1
  {
    if n - s <= DownRun(a, b, seed, s, seed[s]) { DownRunAt(a, b, seed, s, seed[s], n - s); }
  }

  // After the downward pass.
  lemma {:induction false} DownIs(a: Hashes, b: Hashes, seed: LineMap, s: int, n: int, x: nat)
    requires IsSeed(a, b, seed) && InBuffer(b, seed) && Gap(seed, s, n) && s < x < n
    ensures Down(a, b, seed, |a| - 1)[x] == DownValue(a, b, seed, s, x)
    decreases x
  {
    DownStep(a, b, seed, |a| - 1, x);
    if x - 1 > s {
      DownIs(a, b, seed, s, n, x - 1);
      if s >= 0 && x - 1 - s <= DownRun(a, b, seed, s, seed[s]) { DownRunAt(a, b, seed, s, seed[s], x - 1 - s); }
    } else if s >= 0 {
      DownTwin(a, b, seed, s);
      DownRunAt(a, b, seed, s, seed[s], 0);
    }
    hide Down, IsSeed;
  }

  lemma DownTwin(a: Hashes, b: Hashes, seed: LineMap, s: int)
    requires IsSeed(a, b, seed) && IsTwin(seed, s)
    ensures Down(a, b, seed, |a| - 1)[s] == seed[s]
  {
    SeedSound(a, b, seed);
    DownSound(a, b, seed, |a| - 1);
    assert Twins(a, b, s, seed[s]);
  }

  lemma UpTwin(a: Hashes, b: Hashes, seed: LineMap, s: int)
    requires IsSeed(a, b, seed) && IsTwin(seed, s)
    ensures Extended(a, b, seed)[s] == seed[s]
  {
    TwinsMapped(a, b, seed, s, seed[s]);
  }

  lemma ExtendedStep(a: Hashes, b: Hashes, seed: LineMap, x: nat)
    requires |seed| == |a| && x < |a|
    ensures var r := Extended(a, b, seed);
      r[x] == if x + 1 < |a| && 0 < r[x + 1] <= |b| && a[x] == b[r[x + 1] - 1] then r[x + 1] - 1 else Down(a, b, seed, |a| - 1)[x]
  {
    UpStep(a, b, Down(a, b, seed, |a| - 1), 1, x);
  }

  // After both.
  lemma {:induction false} GapMap(a: Hashes, b: Hashes, seed: LineMap, s: int, n: int, x: nat)
    requires IsSeed(a, b, seed) && InBuffer(b, seed) && Gap(seed, s, n) && s < x < n
    ensures Extended(a, b, seed)[x] == UpValue(a, b, seed, s, n, x)
    decreases n - x
  {
    ExtendedStep(a, b, seed, x);
    DownIs(a, b, seed, s, n, x);
    if x + 1 < n {
      GapMap(a, b, seed, s, n, x + 1);
      if n < |a| && n - x - 1 <= Above(a, b, seed, n) { UpRunAt(a, b, seed, n, seed[n], n - x - 1); }
      if s >= 0 && x + 1 - s <= DownRun(a, b, seed, s, seed[s]) { DownRunAt(a, b, seed, s, seed[s], x + 1 - s); }
    } else if n < |a| {
      UpTwin(a, b, seed, n);
      UpRunAt(a, b, seed, n, seed[n], 0);
    }
    hide Extended, Down, IsSeed;
  }

  lemma {:induction false} FindGap(seed: LineMap, x: nat, from: int) returns (s: int)
    requires x < |seed| && seed[x] < 0 && -1 <= from < x && forall y :: from < y <= x ==> seed[y] < 0
    ensures -1 <= s <= from && Gap(seed, s, NextTwin(seed, s)) && s < x < NextTwin(seed, s)
    decreases from
  {
    if from == -1 || seed[from] >= 0 {
      s := from;
    } else {
      s := FindGap(seed, x, from - 1);
    }
  }

  // ---------- Every mapped line belongs to the run of one twin ----------

  // Line o + k is in the run of the twin o.
  predicate InRun(a: Hashes, b: Hashes, seed: LineMap, o: int, k: int)
    requires |seed| == |a| && InBuffer(b, seed)
  {
    IsTwin(seed, o) && 0 - Above(a, b, seed, o) <= k <= Below(a, b, seed, o)
  }

  lemma Owner(a: Hashes, b: Hashes, seed: LineMap, x: nat) returns (o: int)
    requires IsSeed(a, b, seed) && InBuffer(b, seed) && x < |a| && Extended(a, b, seed)[x] >= 0
    ensures InRun(a, b, seed, o, x - o) && Extended(a, b, seed)[x] == seed[o] + (x - o)
  {
    if seed[x] >= 0 {
      o := x;
      UpTwin(a, b, seed, o);
      if NextTwin(seed, o) < |a| { AboveInGap(a, b, seed, o, NextTwin(seed, o)); }
    } else {
      var s := FindGap(seed, x, x - 1);
      var n := NextTwin(seed, s);
      GapMap(a, b, seed, s, n, x);
      o := if n < |a| && n - x <= Above(a, b, seed, n) then n else s;
      if o == n && NextTwin(seed, n) < |a| { AboveInGap(a, b, seed, n, NextTwin(seed, n)); }
    }
    hide Extended, IsSeed, UpRun, DownRun;
  }

  lemma InRunMaps(a: Hashes, b: Hashes, seed: LineMap, o: int, k: int)
    requires IsSeed(a, b, seed) && InBuffer(b, seed) && InRun(a, b, seed, o, k)
    ensures 0 <= o + k < |a| && Extended(a, b, seed)[o + k] == seed[o] + k >= 0 && (k != 0 ==> seed[o + k] < 0)
  {
    if k == 0 {
      UpTwin(a, b, seed, o);
    } else if k < 0 {
      NoneAbove(a, b, seed, o, -k);
      var s := FindGap(seed, o + k, o + k - 1);
      GapMap(a, b, seed, s, o, o + k);
    } else {
      BelowInGap(a, b, seed, o, NextTwin(seed, o));
      GapMap(a, b, seed, o, NextTwin(seed, o), o + k);
    }
    hide Extended, IsSeed, UpRun, DownRun;
  }

  lemma NoneAbove(a: Hashes, b: Hashes, seed: LineMap, o: int, k: int)
    requires |seed| == |a| && InBuffer(b, seed) && IsTwin(seed, o) && 0 < k <= Above(a, b, seed, o)
    ensures 0 <= o - k && (forall x :: o - k <= x < o ==> seed[x] < 0)
    ensures forall s :: -1 <= s < o - k && Gap(seed, s, NextTwin(seed, s)) && o - k < NextTwin(seed, s) ==> NextTwin(seed, s) == o
  {
    forall x | o - k <= x < o
      ensures seed[x] < 0
    {
      UpRunAt(a, b, seed, o, seed[o], o - x);
    }
  }

  // The buffer lines of a run, other than the twin itself, are no twins.
  lemma NoTwinInRun(a: Hashes, b: Hashes, seed: LineMap, o: int, k: int, w: int)
    requires IsSeed(a, b, seed) && InBuffer(b, seed) && InRun(a, b, seed, o, k) && k != 0 && IsTwin(seed, w)
    ensures seed[w] != seed[o] + k
  {
    InRunMaps(a, b, seed, o, k);
    ExtendedSound(a, b, seed);
    assert Twins(a, b, w, seed[w]);
    hide Extended;
  }

  lemma TwinsDiffer(a: Hashes, b: Hashes, seed: LineMap, v: int, w: int)
    requires IsSeed(a, b, seed) && IsTwin(seed, v) && IsTwin(seed, w) && v != w
    ensures seed[v] != seed[w]
  {
    assert Twins(a, b, v, seed[v]) && Twins(a, b, w, seed[w]);
  }

  // ---------- Injectivity ----------

  // Runs that meet in the buffer are those of neighbouring twins.
  lemma MeetingRuns(a: Hashes, b: Hashes, seed: LineMap, o: int, k: int, o': int, k': int)
    requires IsSeed(a, b, seed) && InBuffer(b, seed) && InRun(a, b, seed, o, k) && InRun(a, b, seed, o', k')
    requires seed[o] < seed[o'] && seed[o] + k == seed[o'] + k'
    ensures Neighbours(seed, o, o') && 0 < k && k' < 0
  {
    BelowNotNegative(a, b, seed, o);
    BelowNotNegative(a, b, seed, o');
    if k == 0 { NoTwinInRun(a, b, seed, o', k', o); }
    if k' == 0 { NoTwinInRun(a, b, seed, o, k, o'); }
    if k < 0 { NoTwinInRun(a, b, seed, o', seed[o] - seed[o'], o); }
    if k' > 0 { NoTwinInRun(a, b, seed, o, seed[o'] - seed[o], o'); }
    forall w | IsTwin(seed, w)
      ensures !(seed[o] < seed[w] < seed[o'])
    {
      if seed[o] < seed[w] <= seed[o] + k {
        NoTwinInRun(a, b, seed, o, seed[w] - seed[o], w);
      } else if seed[o'] + k' <= seed[w] < seed[o'] {
        NoTwinInRun(a, b, seed, o', seed[w] - seed[o'], w);
      }
    }
  }

  // Where runs do not fit, two lines are mapped to the first line of the lower run.
  lemma OverlapCollides(a: Hashes, b: Hashes, seed: LineMap, s: int, t: int) returns (x: int, y: int)
    requires IsSeed(a, b, seed) && InBuffer(b, seed) && Neighbours(seed, s, t)
    requires Below(a, b, seed, s) + Above(a, b, seed, t) >= seed[t] - seed[s]
    ensures 0 <= x < |a| && 0 <= y < |a| && x != y && Extended(a, b, seed)[x] == Extended(a, b, seed)[y] >= 0
  {
    var u := Above(a, b, seed, t);
    BelowNotNegative(a, b, seed, s);
    BelowNotNegative(a, b, seed, t);
    if u >= seed[t] - seed[s] { NoTwinInRun(a, b, seed, t, seed[s] - seed[t], s); }
    var k := seed[t] - u - seed[s];
    x, y := s + k, t - u;
    InRunMaps(a, b, seed, s, k);
    InRunMaps(a, b, seed, t, -u);
    if x == y {
      TwinBetween(a, b, seed, s, t, u, k);
    }
  }

  lemma BelowNotNegative(a: Hashes, b: Hashes, seed: LineMap, s: int)
    requires |seed| == |a| && InBuffer(b, seed) && IsTwin(seed, s)
    ensures Below(a, b, seed, s) >= 0
  {
    if NextTwin(seed, s) < |a| { AboveInGap(a, b, seed, s, NextTwin(seed, s)); }
  }

  // Runs of different twins have no index line in common.
  lemma TwinBetween(a: Hashes, b: Hashes, seed: LineMap, s: int, t: int, u: int, k: int)
    requires |seed| == |a| && InBuffer(b, seed) && IsTwin(seed, s) && IsTwin(seed, t) && s != t
    requires u == Above(a, b, seed, t) && 0 < k <= Below(a, b, seed, s)
    ensures s + k != t - u
  {
    var n := NextTwin(seed, s);
    BelowInGap(a, b, seed, s, n);
    if s + k == t - u {
      if u > 0 { NoneAbove(a, b, seed, t, u); }
    }
  }

  // The map is injective if and only if the runs of neighbouring twins fit between
  // them in the buffer.
  lemma InjectiveIff(a: Hashes, b: Hashes, seed: LineMap)
    requires IsSeed(a, b, seed)
    ensures |seed| == |a| && InBuffer(b, seed)
    ensures Injective(Extended(a, b, seed)) <==> RunsFit(a, b, seed)
  {
    SeedInBuffer(a, b, seed);
    var r := Extended(a, b, seed);
    hide Extended, IsSeed, Below, Above;
    if RunsFit(a, b, seed) {
      forall i, k | 0 <= i < k < |r| && r[i] >= 0
        ensures r[i] != r[k]
      {
        if r[i] == r[k] { FittingRuns(a, b, seed, i, k); }
      }
    } else {
      var s, t :| Neighbours(seed, s, t) && Below(a, b, seed, s) + Above(a, b, seed, t) >= seed[t] - seed[s];
      var x, y := OverlapCollides(a, b, seed, s, t);
      assert if x < y then r[x] >= 0 && r[x] == r[y] else r[y] >= 0 && r[y] == r[x];
    }
  }

  lemma FittingRuns(a: Hashes, b: Hashes, seed: LineMap, x: nat, y: nat)
    requires IsSeed(a, b, seed) && InBuffer(b, seed) && RunsFit(a, b, seed) && x < |a| && y < |a| && x != y
    requires Extended(a, b, seed)[x] >= 0
    ensures Extended(a, b, seed)[x] != Extended(a, b, seed)[y]
  {
    if Extended(a, b, seed)[x] == Extended(a, b, seed)[y] {
      var o := Owner(a, b, seed, x);
      var o' := Owner(a, b, seed, y);
      hide Extended, IsSeed, Below, Above;
      TwinsDiffer(a, b, seed, o, o');
      if seed[o] < seed[o'] {
        MeetingRuns(a, b, seed, o, x - o, o', y - o');
      } else {
        MeetingRuns(a, b, seed, o', y - o', o, x - o);
      }
    }
  }

  // Two lines mapped to the same line are equal.
  lemma CollisionsAreEqual(a: Hashes, b: Hashes, seed: LineMap, i: nat, k: nat)
    requires IsSeed(a, b, seed) && i < |a| && k < |a|
    requires Extended(a, b, seed)[i] == Extended(a, b, seed)[k] >= 0
    ensures a[i] == a[k] && a[i] in b
  {
    ExtendedSound(a, b, seed);
    hide Extended;
  }

  // Without a repeated index line that occurs in the buffer the map is injective.
  lemma InjectiveWithoutRepeats(a: Hashes, b: Hashes, seed: LineMap)
    requires IsSeed(a, b, seed)
    requires forall i :: 0 <= i < |a| && a[i] in b ==> Unique(a, i)
    ensures Injective(Extended(a, b, seed))
  {
    var r := Extended(a, b, seed);
    forall i, k | 0 <= i < k < |r| && r[i] >= 0
      ensures r[i] != r[k]
    {
      if r[i] == r[k] { CollisionsAreEqual(a, b, seed, i, k); }
    }
  }

  // Going to the buffer and back leads every mapped line to itself under exactly
  // the same condition.
  lemma InverseReturnsIff(a: Hashes, b: Hashes, seed: LineMap)
    requires IsSeed(a, b, seed)
    ensures |seed| == |a| && InBuffer(b, seed) && Sound(a, b, Extended(a, b, seed))
    ensures var r := Extended(a, b, seed);
      (forall i :: 0 <= i < |r| && r[i] >= 0 ==> Inverse(r, |b|, |r|)[r[i]] == i) <==> RunsFit(a, b, seed)
  {
    InjectiveIff(a, b, seed);
    ExtendedSound(a, b, seed);
    var r := Extended(a, b, seed);
    hide Extended, IsSeed, RunsFit;
    forall i | 0 <= i < |r| && r[i] >= 0
      ensures var k := Inverse(r, |b|, |r|)[r[i]]; i <= k < |r| && r[k] == r[i]
    {
      InverseGreatest(r, |b|, |r|, r[i]);
    }
    hide Inverse;
    if Injective(r) {
      forall i | 0 <= i < |r| && r[i] >= 0
        ensures Inverse(r, |b|, |r|)[r[i]] == i
      {
        var k := Inverse(r, |b|, |r|)[r[i]];
        assert !(i < k);
      }
    }
  }
}
