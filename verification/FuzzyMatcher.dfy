// The fuzzy matcher (src/fuzzy_match.cc): a rolling two-row table of 32-bit
// integers with large negative sentinels computes the best total over all
// embeddings.
module FuzzyMatch {
  import opened Index
  import opened FuzzyScore

  const MAX_PAT := 100
  const MAX_TEXT := 200
  const MIN_SCORE: I32 := -0x2000_0000

  // 32-bit addition; the precondition is that it does not overflow.
  function Add(a: I32, d: int): (r: I32)
    requires -0x8000_0000 <= a + d < 0x8000_0000
    ensures r == a + d
  {
    a + d
  }

  function Max(a: I32, b: I32): I32 { if a >= b then a else b }

  // ---------- Table cells ----------

  // A cell holds the best score, or a sentinel that stays far below every score.
  predicate Cell(v: int, best: Option<int>, i: nat, j: nat) {
    && 2 * MIN_SCORE - 50 * j <= v <= 32 * i
    && if best.Some? then v == best.value && -50 * j <= v else v <= MIN_SCORE + 32 * i
  }

  lemma MissCell(v: int, w: int, a: Option<int>, b: Option<int>, i: nat, j: nat, d: int, e: int)
    requires i <= MAX_PAT && j < MAX_TEXT && Cell(v, a, i, j) && Cell(w, b, i, j) && -23 <= d <= -3 && -23 <= e <= -3
    ensures Cell(if v + d >= w + e then v + d else w + e, Better(Plus(a, d), Plus(b, e)), i, j + 1)
  {
  }

  lemma MatchCell(v: int, w: int, a: Option<int>, b: Option<int>, i: nat, j: nat, d: int, e: int)
    requires i < MAX_PAT && j < MAX_TEXT && Cell(v, a, i, j) && Cell(w, b, i, j) && -50 <= d <= 32 && -50 <= e <= 32
    ensures Cell(if v + d >= w + e then v + d else w + e, Better(Plus(a, d), Plus(b, e)), i + 1, j + 1)
  {
  }

  // The two cells of a column. At the origin both are zero.
  predicate CellsOk(v: int, w: int, q: Query, t: string, i: nat, j: nat)
    requires q.Valid() && i <= |q.pat| && j <= |t|
  {
    Cell(v, Best(q, t, i, j, false), i, j) && if i == 0 && j == 0 then w == 0 else Cell(w, Best(q, t, i, j, true), i, j)
  }

  // ---------- The pattern ----------

  function NoSpaces(p: string, k: nat): (r: string)
    requires k <= |p|
    ensures |r| <= k
  {
    if k == 0 then "" else NoSpaces(p, k - 1) + if p[k - 1] != ' ' then [p[k - 1]] else ""
  }

  // The roles of the characters that are not spaces, in the whole pattern.
  function KeptRoles(p: string, k: nat): (r: seq<Role>)
    requires k <= |p|
    ensures |r| == |NoSpaces(p, k)|
  {
    if k == 0 then [] else KeptRoles(p, k - 1) + if p[k - 1] != ' ' then [RoleAt(p, k - 1)] else []
  }

  function ClassSet(s: string): set<CharClass> { set i | 0 <= i < |s| :: ClassOf(s[i]) }

  // Sensitivity 1 means: if the pattern has upper-case letters.
  function QueryOf(p: string, sensitivity: int): (q: Query)
    ensures q.Valid()
  {
    var upper := Upper in ClassSet(p);
    Query(NoSpaces(p, |p|), KeptRoles(p, |p|), upper, if sensitivity == 1 then upper else sensitivity != 0)
  }

  // The number of characters kept before k: the index of the next one kept.
  function KeptBefore(p: string, k: nat): nat
    requires k <= |p|
  {
    |set i | 0 <= i < k && p[i] != ' '|
  }

  lemma KeptSnoc(p: string, k: nat)
    requires k < |p|
    ensures KeptBefore(p, k + 1) == KeptBefore(p, k) + if p[k] != ' ' then 1 else 0
  {
    var before, all := set i | 0 <= i < k && p[i] != ' ', set i | 0 <= i < k + 1 && p[i] != ' ';
    assert all == if p[k] != ' ' then before + {k} else before;
  }

  lemma {:induction false} KeptLength(p: string, k: nat)
    requires k <= |p|
    ensures |NoSpaces(p, k)| == KeptBefore(p, k)
  {
    if k > 0 {
      KeptLength(p, k - 1);
      KeptSnoc(p, k - 1);
      hide KeptBefore;
    }
  }

  // Exactly the characters that are not spaces are kept, in order, each with the
  // role it has in the whole pattern.
  lemma {:induction false} KeptIs(p: string, k: nat, j: nat)
    requires j < k <= |p| && p[j] != ' '
    ensures KeptBefore(p, j) < |NoSpaces(p, k)|
    ensures NoSpaces(p, k)[KeptBefore(p, j)] == p[j] && KeptRoles(p, k)[KeptBefore(p, j)] == RoleAt(p, j)
  {
    hide RoleAt, KeptBefore;
    if j == k - 1 { KeptLength(p, j); } else { KeptIs(p, k - 1, j); }
  }

  // What the matcher is made for: case matters if asked for, or, at sensitivity 1,
  // if the pattern has an upper-case letter.
  lemma QueryIs(p: string, sensitivity: int)
    ensures var q := QueryOf(p, sensitivity);
      && |q.pat| == KeptBefore(p, |p|)
      && (forall j :: 0 <= j < |p| && p[j] != ' ' ==> KeptBefore(p, j) < |q.pat|)
      && (forall j :: 0 <= j < |p| && p[j] != ' ' ==> q.pat[KeptBefore(p, j)] == p[j] && q.roles[KeptBefore(p, j)] == RoleAt(p, j))
      && (q.upper <==> exists i :: 0 <= i < |p| && 'A' <= p[i] <= 'Z')
      && (q.sensitive <==> sensitivity != 0 && (sensitivity == 1 ==> exists i :: 0 <= i < |p| && 'A' <= p[i] <= 'Z'))
  {
    hide RoleAt, KeptBefore, NoSpaces, KeptRoles;
    KeptLength(p, |p|);
    forall j | 0 <= j < |p| && p[j] != ' '
      ensures KeptBefore(p, j) < |NoSpaces(p, |p|)|
      ensures NoSpaces(p, |p|)[KeptBefore(p, j)] == p[j] && KeptRoles(p, |p|)[KeptBefore(p, j)] == RoleAt(p, j)
    {
      KeptIs(p, |p|, j);
    }
    assert Upper in ClassSet(p) <==> exists i :: 0 <= i < |p| && 'A' <= p[i] <= 'Z' by {
      if i :| 0 <= i < |p| && 'A' <= p[i] <= 'Z' { assert ClassOf(p[i]) == Upper; }
    }
  }

  method CalculateRoles(s: string, roles: array<Role>) returns (classSet: set<CharClass>)
    requires |s| <= roles.Length
    modifies roles
    ensures forall i :: 0 <= i < |s| ==> roles[i] == RoleAt(s, i)
    ensures forall i :: |s| <= i < roles.Length ==> roles[i] == old(roles[i])
    ensures classSet == ClassSet(s)
  {
    if s == "" { return {}; }
    var pre, cur, suc := Other, ClassOf(s[0]), Other;
    classSet := {cur};
    for i := 0 to |s| - 1
      invariant cur == ClassOf(s[i]) && pre == if i == 0 then Other else ClassOf(s[i - 1])
      invariant i > 0 ==> suc == cur
      invariant forall k :: 0 <= k < i ==> roles[k] == RoleAt(s, k)
      invariant forall k :: |s| <= k < roles.Length ==> roles[k] == old(roles[k])
      invariant classSet == set k | 0 <= k <= i :: ClassOf(s[k])
    {
      suc := ClassOf(s[i + 1]);
      classSet := classSet + {suc};
      roles[i] := RoleFrom(pre, cur, suc);
      pre, cur := cur, suc;
    }
    roles[|s| - 1] := RoleFrom(pre, cur, suc);
  }

  function RoleFrom(pre: CharClass, cur: CharClass, suc: CharClass): Role {
    if cur.Other? then NoRole
    else if pre.Other? || (cur.Upper? && (pre.Lower? || suc.Lower?)) then Head
    else Tail
  }

  class FuzzyMatcher {
    var caseSensitivity: int
    var pat: string
    var text: string
    var patSet: set<CharClass>
    var textSet: set<CharClass>
    const lowPat: array<char>
    const lowText: array<char>
    const patRole: array<Role>
    const textRole: array<Role>
    const dp: array3<I32>

    ghost predicate Valid()
      reads this, lowPat
    {
      && lowPat.Length == patRole.Length == MAX_PAT && lowText.Length == textRole.Length == MAX_TEXT
      && dp.Length0 == 2 && dp.Length1 == MAX_TEXT + 1 && dp.Length2 == 2
      && lowPat != lowText && patRole != textRole
      && |pat| <= MAX_PAT
      && forall i :: 0 <= i < |pat| ==> lowPat[i] == ToLower(pat[i])
    }

    ghost function AsQuery(): (q: Query)
      requires Valid()
      reads this, lowPat, patRole
      ensures q.Valid()
    {
      Query(pat, patRole[..|pat|], Upper in patSet, caseSensitivity != 0)
    }

    constructor (pattern: string, sensitivity: int)
      requires |pattern| <= MAX_PAT
      ensures Valid() && AsQuery() == QueryOf(pattern, sensitivity)
      ensures fresh(lowPat) && fresh(lowText) && fresh(patRole) && fresh(textRole) && fresh(dp)
    {
      lowPat := new char[MAX_PAT];
      lowText := new char[MAX_TEXT];
      patRole := new Role[MAX_PAT];
      textRole := new Role[MAX_TEXT];
      dp := new I32[2, MAX_TEXT + 1, 2];
      pat, text, textSet := "", "", {};
      new;
      patSet := CalculateRoles(pattern, patRole);
      caseSensitivity := if sensitivity == 1 then if Upper in patSet then 2 else 0 else sensitivity;
      DropSpaces(pattern);
    }

    // Keeps the roles the characters had with the spaces in place.
    method DropSpaces(pattern: string)
      requires Valid() && pat == "" && |pattern| <= MAX_PAT
      requires forall k :: 0 <= k < |pattern| ==> patRole[k] == RoleAt(pattern, k)
      modifies this`pat, lowPat, patRole
      ensures Valid() && pat == NoSpaces(pattern, |pattern|) && patRole[..|pat|] == KeptRoles(pattern, |pattern|)
    {
      hide RoleAt;
      for i := 0 to |pattern|
        invariant Valid() && pat == NoSpaces(pattern, i) && patRole[..|pat|] == KeptRoles(pattern, i)
        invariant forall k :: i <= k < |pattern| ==> patRole[k] == RoleAt(pattern, k)
      {
        if pattern[i] != ' ' {
          var n := |pat|;
          pat := pat + [pattern[i]];
          lowPat[n] := ToLower(pattern[i]);
          patRole[n] := patRole[i];
          assert patRole[..n + 1] == patRole[..n] + [patRole[n]];
        }
      }
    }

    // Columns from to upto of row i: the cells of masks with i matches.
    ghost predicate RowOk(q: Query, t: string, i: nat, from: nat, upto: nat)
      requires Valid() && q.Valid() && i <= |q.pat| && upto <= |t| <= MAX_TEXT
      reads this, lowPat, dp
    {
      forall j {:trigger Best(q, t, i, j, false)} :: from <= j <= upto ==> CellsOk(dp[i % 2, j, 0], dp[i % 2, j, 1], q, t, i, j)
    }

    function Miss(j: nat, last: bool): (s: int)
      requires j < |text| <= textRole.Length
      reads this, textRole
    {
      -3 + (if last then -10 else 0) + if textRole[j].Head? then -10 else 0
    }

    function Match1(i: nat, j: nat, last: bool): (s: int)
      requires i < |pat| <= patRole.Length && j < |text| <= textRole.Length
      reads this, textRole, patRole
    {
      (if pat[i] == text[j] then if Upper in patSet || i == j then 2 else 1 else 0)
      + (if patRole[i].Head? then if textRole[j].Head? then 30 else if textRole[j].Tail? then -10 else 0 else 0)
      + (if textRole[j].Tail? && i > 0 && !last then -30 else 0)
      + (if i == 0 && textRole[j].Tail? then -40 else 0)
    }

    predicate Allowed(i: nat, j: nat)
      requires i < |pat| <= lowPat.Length && j < |text| <= textRole.Length && |text| <= lowText.Length
      reads this, textRole, lowPat, lowText
    {
      if caseSensitivity != 0 then pat[i] == text[j]
      else lowPat[i] == lowText[j] && (i > 0 || !textRole[j].Tail? || pat[i] == text[j])
    }

    // The text has been loaded: roles and lower-case letters are in place.
    ghost predicate Loaded()
      requires Valid()
      reads this, lowPat, lowText, textRole
    {
      && |text| <= MAX_TEXT
      && (forall j :: 0 <= j < |text| ==> textRole[j] == RoleAt(text, j))
      && (forall j :: 0 <= j < |text| ==> lowText[j] == ToLower(text[j]))
    }

    lemma MissIs(j: nat, last: bool)
      requires Valid() && Loaded() && j < |text|
      ensures Miss(j, last) == MissScore(text, j, last)
    {
    }

    lemma MatchIs(i: nat, j: nat, last: bool)
      requires Valid() && Loaded() && i < |pat| && j < |text|
      ensures Match1(i, j, last) == MatchScore(AsQuery(), text, i, j, last)
      ensures Allowed(i, j) == Admits(AsQuery(), text, i, j)
    {
      assert patRole[..|pat|][i] == patRole[i];
    }

    method FirstRow()
      requires Valid() && Loaded()
      modifies dp
      ensures RowOk(AsQuery(), text, 0, 0, |text|)
    {
      hide Best, Cell, FuzzyMatcher.Miss, MissScore;
      ghost var q := AsQuery();
      dp[0, 0, 0], dp[0, 0, 1] := 0, 0;
      Origin(q, text);
      for j := 0 to |text|
        invariant RowOk(q, text, 0, 0, j)
      {
        label before:
        MissIs(j, false);
        assert CellsOk(dp[0, j, 0], dp[0, j, 1], q, text, 0, j) by { ghost var b := Best(q, text, 0, j, false); }
        FirstRowStep(q, text, j, dp[0, j, 0], dp[0, j, 1]);
        dp[0, j + 1, 0] := Add(dp[0, j, 0], Miss(j, false));
        dp[0, j + 1, 1] := MIN_SCORE * 2;
        forall k | 0 <= k <= j
          ensures CellsOk(dp[0, k, 0], dp[0, k, 1], q, text, 0, k)
        {
          ghost var b := Best(q, text, 0, k, false);
          assert old@before(CellsOk(dp[0, k, 0], dp[0, k, 1], q, text, 0, k));
        }
      }
    }

    // One column of row i + 1, from the column before it and from row i.
    method FillColumn(i: nat, j: nat)
      requires Valid() && Loaded() && i < |pat| && i <= j < |text|
      requires RowOk(AsQuery(), text, i, i, |text|) && RowOk(AsQuery(), text, i + 1, i, j)
      modifies dp
      ensures RowOk(AsQuery(), text, i, i, |text|) && RowOk(AsQuery(), text, i + 1, i, j + 1)
    {
      hide Best, Cell, FuzzyMatcher.Miss, MissScore, FuzzyMatcher.Match1, MatchScore, FuzzyMatcher.Allowed, Admits, RoleAt;
      ghost var q := AsQuery();
      var p, c := i % 2, (i + 1) % 2;
      assert CellsOk(dp[p, j, 0], dp[p, j, 1], q, text, i, j) by { ghost var b := Best(q, text, i, j, false); }
      assert CellsOk(dp[c, j, 0], dp[c, j, 1], q, text, i + 1, j) by { ghost var b := Best(q, text, i + 1, j, false); }
      MissIs(j, false);
      MissIs(j, true);
      MatchIs(i, j, false);
      MatchIs(i, j, true);
      RowStep(q, text, i, j, dp[p, j, 0], dp[p, j, 1], dp[c, j, 0], dp[c, j, 1]);
      hide CellsOk;
      dp[c, j + 1, 0] := Max(Add(dp[c, j, 0], Miss(j, false)), Add(dp[c, j, 1], Miss(j, true)));
      dp[c, j + 1, 1] :=
        if Allowed(i, j) then Max(Add(dp[p, j, 0], Match1(i, j, false)), Add(dp[p, j, 1], Match1(i, j, true))) else MIN_SCORE * 2;
      forall k | i <= k <= |text|
        ensures CellsOk(dp[p, k, 0], dp[p, k, 1], q, text, i, k)
      {
        ghost var b := Best(q, text, i, k, false);
        assert old(CellsOk(dp[i % 2, k, 0], dp[i % 2, k, 1], q, text, i, k));
      }
      forall k | i <= k <= j
        ensures CellsOk(dp[c, k, 0], dp[c, k, 1], q, text, i + 1, k)
      {
        ghost var b := Best(q, text, i + 1, k, false);
        assert old(CellsOk(dp[(i + 1) % 2, k, 0], dp[(i + 1) % 2, k, 1], q, text, i + 1, k));
      }
    }

    // One row from the row before it; only cells of that row are read.
    method FillRow(i: nat)
      requires Valid() && Loaded() && i < |pat| && RowOk(AsQuery(), text, i, i, |text|)
      modifies dp
      ensures RowOk(AsQuery(), text, i + 1, i + 1, |text|)
    {
      ghost var q := AsQuery();
      var p, c := i % 2, (i + 1) % 2;
      dp[c, i, 0], dp[c, i, 1] := MIN_SCORE, MIN_SCORE;
      if |text| < i { return; }
      RowStart(q, text, i);
      hide Best, CellsOk, FuzzyMatcher.Loaded;
      forall k | i <= k <= |text|
        ensures CellsOk(dp[p, k, 0], dp[p, k, 1], q, text, i, k)
      {
        ghost var b := Best(q, text, i, k, false);
        assert old(CellsOk(dp[i % 2, k, 0], dp[i % 2, k, 1], q, text, i, k));
      }
      for j := i to |text|
        invariant RowOk(q, text, i, i, |text|) && RowOk(q, text, i + 1, i, j)
      {
        FillColumn(i, j);
      }
      forall k | i + 1 <= k <= |text|
        ensures CellsOk(dp[c, k, 0], dp[c, k, 1], q, text, i + 1, k)
      {
        ghost var b := Best(q, text, i + 1, k, false);
      }
    }

    // The best total ending at or before column j, row |pat| being in place.
    method BestEnd() returns (ret: I32)
      requires Valid() && Loaded() && RowOk(AsQuery(), text, |pat|, |pat|, |text|) && (pat == "" <==> text == "")
      ensures pat == "" ==> ret == 0
      ensures pat != "" ==> EndOk(ret, BestTotal(AsQuery(), text, |text|))
    {
      hide Best, BestTotal;
      ret := MIN_SCORE;
      ghost var q := AsQuery();
      if |text| < |pat| {
        NoTotal(q, text, |text|);
        return;
      }
      if pat != "" { NoTotal(q, text, |pat|); }
      for j := |pat| to |text| + 1
        invariant if pat == "" then ret == if j == 0 then MIN_SCORE else 0 else if j == |pat| then ret == MIN_SCORE else EndOk(ret, BestTotal(q, text, j - 1))
      {
        assert CellsOk(dp[|pat| % 2, j, 0], dp[|pat| % 2, j, 1], q, text, |pat|, j) by { ghost var b := Best(q, text, |pat|, j, false); }
        if pat != "" { EndStep(q, text, j, ret, dp[|pat| % 2, j, 1]); }
        ret := Max(ret, Add(dp[|pat| % 2, j, 1], -2 * (|text| - j)));
      }
    }

    // FuzzyMatcher::match
    method Match(newText: string, strict: bool) returns (ret: I32)
      requires Valid()
      modifies this`text, this`textSet, lowText, textRole, dp
      ensures Valid() && AsQuery() == old(AsQuery())
      ensures (pat == "") != (newText == "") ==> ret == MIN_SCORE
      ensures pat != "" && |newText| > MAX_TEXT ==> ret == MIN_SCORE + 1
      ensures pat == "" && newText == "" ==> ret == 0
      ensures pat != "" && 0 < |newText| <= MAX_TEXT ==>
        if strict && AsQuery().roles[0].NoRole? != RoleAt(newText, 0).NoRole? then ret == MIN_SCORE
        else IsBestTotal(AsQuery(), newText, ret)
    {
      if (pat == "") != (newText == "") { return MIN_SCORE; }
      var n := |newText|;
      if n > MAX_TEXT { return MIN_SCORE + 1; }
      text := newText;
      for i := 0 to n
        invariant text == newText && forall j :: 0 <= j < i ==> lowText[j] == ToLower(newText[j])
      {
        lowText[i] := ToLower(newText[i]);
      }
      textSet := CalculateRoles(text, textRole);
      assert pat != "" ==> patRole[..|pat|][0] == patRole[0];
      if strict && n > 0 && patRole[0].NoRole? != textRole[0].NoRole? { return MIN_SCORE; }
      ghost var q := AsQuery();
      hide Best, RoleAt, FuzzyMatcher.RowOk, BestTotal;
      assert Loaded();
      FirstRow();
      hide FuzzyMatcher.Loaded;
      for i := 0 to |pat|
        invariant text == newText && Loaded() && RowOk(q, text, i, i, |text|)
      {
        FillRow(i);
      }
      ret := BestEnd();
      if pat != "" { BestTotalIsBest(q, text, ret); }
    }
  }

  // ---------- The best end position ----------

  // The best total of masks that end at or before column j.
  function BestTotal(q: Query, t: string, j: nat): Option<int>
    requires q.Valid() && j <= |t|
  {
    var here := Plus(Best(q, t, |q.pat|, j, true), -2 * (|t| - j));
    if j == 0 then here else Better(BestTotal(q, t, j - 1), here)
  }

  // The maximum so far, or a sentinel that is never mistaken for a score.
  predicate EndOk(ret: int, best: Option<int>) {
    if best.Some? then ret == best.value && ret >= -10400 else MIN_SCORE <= ret <= MIN_SCORE + 3200
  }

  lemma {:induction false} NoTotal(q: Query, t: string, j: nat)
    requires q.Valid() && q.pat != "" && j <= |t|
    ensures j < |q.pat| ==> BestTotal(q, t, j) == None
    ensures j == |q.pat| ==> BestTotal(q, t, j) == Plus(Best(q, t, |q.pat|, j, true), -2 * (|t| - j))
    decreases j
  {
    BestNone(q, t, |q.pat|, j, true);
    if j > 0 { NoTotal(q, t, j - 1); }
    hide Best;
  }

  lemma EndStep(q: Query, t: string, j: nat, ret: int, w: int)
    requires q.Valid() && q.pat != "" && |q.pat| <= MAX_PAT && |q.pat| <= j <= |t| <= MAX_TEXT
    requires Cell(w, Best(q, t, |q.pat|, j, true), |q.pat|, j)
    requires if j == |q.pat| then ret == MIN_SCORE else EndOk(ret, BestTotal(q, t, j - 1))
    ensures Fits32(w - 2 * (|t| - j))
    ensures var d := w - 2 * (|t| - j); EndOk(if ret >= d then ret else d, BestTotal(q, t, j))
  {
    BestBounds(q, t, |q.pat|, j, true);
    if j == |q.pat| { NoTotal(q, t, j - 1); }
    hide Best;
  }

  // r is the best total over all embeddings, or close to the least score if
  // there is none.
  ghost predicate IsBestTotal(q: Query, t: string, r: int)
    requires q.Valid()
  {
    if exists mask :: Embedding(q, t, mask) then
      && (exists mask :: Embedding(q, t, mask) && Total(q, t, mask) == r)
      && (forall mask :: Embedding(q, t, mask) ==> Total(q, t, mask) <= r)
    else MIN_SCORE <= r <= MIN_SCORE + 3200
  }

  lemma {:induction false} TotalIsUpper(q: Query, t: string, mask: seq<bool>, j: nat)
    requires q.Valid() && Embedding(q, t, mask) && |mask| <= j <= |t|
    ensures var b := BestTotal(q, t, j); b.Some? && Total(q, t, mask) <= b.value
    decreases j
  {
    if j == |mask| {
      BestIsUpper(q, t, mask, |q.pat|, j, true);
    } else {
      TotalIsUpper(q, t, mask, j - 1);
    }
    hide Best, Score, Embedding;
  }

  lemma {:induction false} TotalIsReached(q: Query, t: string, j: nat) returns (mask: seq<bool>)
    requires q.Valid() && q.pat != "" && j <= |t| && BestTotal(q, t, j).Some?
    ensures Embedding(q, t, mask) && Total(q, t, mask) == BestTotal(q, t, j).value
    decreases j
  {
    var here := Plus(Best(q, t, |q.pat|, j, true), -2 * (|t| - j));
    hide Best, Admissible, Score;
    if j > 0 && BestTotal(q, t, j - 1).Some? && (here.None? || BestTotal(q, t, j - 1).value >= here.value) {
      mask := TotalIsReached(q, t, j - 1);
    } else {
      mask := BestIsReached(q, t, |q.pat|, j, true);
    }
  }

  lemma BestTotalIsBest(q: Query, t: string, r: int)
    requires q.Valid() && q.pat != "" && EndOk(r, BestTotal(q, t, |t|))
    ensures IsBestTotal(q, t, r)
  {
    hide BestTotal, Total, Embedding;
    forall mask | Embedding(q, t, mask)
      ensures BestTotal(q, t, |t|).Some? && Total(q, t, mask) <= BestTotal(q, t, |t|).value
    {
      EmbeddingFits(q, t, mask);
      TotalIsUpper(q, t, mask, |t|);
    }
    if BestTotal(q, t, |t|).Some? {
      var mask := TotalIsReached(q, t, |t|);
    }
  }

  lemma {:induction false} ScoreBounds(q: Query, t: string, mask: seq<bool>)
    requires q.Valid() && |mask| <= |t| && Admissible(q, t, mask)
    ensures -50 * |mask| <= Score(q, t, mask)
  {
    if mask != [] {
      ScoreBounds(q, t, mask[..|mask| - 1]);
      hide MatchScore, MissScore, Admits;
    }
  }

  // Real totals are far above the least score, so that the answer tells whether
  // there is an embedding at all.
  lemma AnswerTells(q: Query, t: string, r: int)
    requires q.Valid() && |t| <= MAX_TEXT && IsBestTotal(q, t, r)
    ensures (exists mask :: Embedding(q, t, mask)) <==> r >= -10000
    ensures (exists mask :: Embedding(q, t, mask)) <==> r > MIN_SCORE + 3200
  {
    if mask :| Embedding(q, t, mask) && Total(q, t, mask) == r {
      ScoreBounds(q, t, mask);
      hide Score, Admissible;
    }
  }

  lemma EmbeddingFits(q: Query, t: string, mask: seq<bool>)
    requires Embedding(q, t, mask)
    ensures |mask| <= |t|
  {
  }

  lemma Origin(q: Query, t: string)
    requires q.Valid()
    ensures CellsOk(0, 0, q, t, 0, 0)
  {
  }

  lemma FirstRowStep(q: Query, t: string, j: nat, v: int, w: int)
    requires q.Valid() && j < |t| <= MAX_TEXT && CellsOk(v, w, q, t, 0, j)
    ensures CellsOk(v + MissScore(t, j, false), MIN_SCORE * 2, q, t, 0, j + 1)
    ensures -0x8000_0000 <= v + MissScore(t, j, false) < 0x8000_0000
  {
    hide MissScore;
    BestNone(q, t, 0, j, true);
    BestNone(q, t, 0, j + 1, true);
    BestBounds(q, t, 0, j + 1, false);
  }

  lemma RowStart(q: Query, t: string, i: nat)
    requires q.Valid() && i < |q.pat| && i <= |t|
    ensures CellsOk(MIN_SCORE, MIN_SCORE, q, t, i + 1, i)
  {
    BestNone(q, t, i + 1, i, false);
    BestNone(q, t, i + 1, i, true);
    hide Best;
  }

  // The first character scores the same whatever came before it.
  lemma FirstMatch(q: Query, t: string)
    requires q.Valid() && 0 < |q.pat| && 0 < |t|
    ensures MatchScore(q, t, 0, 0, false) == MatchScore(q, t, 0, 0, true)
  {
  }

  predicate Fits32(x: int) { -0x8000_0000 <= x < 0x8000_0000 }

  lemma RowStep(q: Query, t: string, i: nat, j: nat, u: int, u': int, v: int, v': int)
    requires q.Valid() && i < |q.pat| <= MAX_PAT && j < |t| <= MAX_TEXT
    requires CellsOk(u, u', q, t, i, j) && CellsOk(v, v', q, t, i + 1, j)
    ensures var a, b := v + MissScore(t, j, false), v' + MissScore(t, j, true);
      var m, n := u + MatchScore(q, t, i, j, false), u' + MatchScore(q, t, i, j, true);
      && Fits32(a) && Fits32(b) && Fits32(m) && Fits32(n)
      && CellsOk(if a >= b then a else b,
                 if Admits(q, t, i, j) then if m >= n then m else n else MIN_SCORE * 2, q, t, i + 1, j + 1)
  {
    hide MissScore, MatchScore, Admits, Best, Cell, Fits32;
    RowMiss(q, t, i + 1, j, v, v');
    RowMatch(q, t, i, j, u, u');
  }

  // The cell for skipping character j.
  lemma RowMiss(q: Query, t: string, i: nat, j: nat, v: int, v': int)
    requires q.Valid() && 0 < i <= |q.pat| <= MAX_PAT && j < |t| <= MAX_TEXT
    requires Cell(v, Best(q, t, i, j, false), i, j) && Cell(v', Best(q, t, i, j, true), i, j)
    ensures var a, b := v + MissScore(t, j, false), v' + MissScore(t, j, true);
      Fits32(a) && Fits32(b) && Cell(if a >= b then a else b, Best(q, t, i, j + 1, false), i, j + 1)
  {
    hide MissScore, MatchScore, Admits, Best, Better, Plus;
    BestMiss(q, t, i, j + 1);
    MissCell(v, v', Best(q, t, i, j, false), Best(q, t, i, j, true), i, j, MissScore(t, j, false), MissScore(t, j, true));
  }

  // and for matching it.
  lemma RowMatch(q: Query, t: string, i: nat, j: nat, u: int, u': int)
    requires q.Valid() && i < |q.pat| <= MAX_PAT && j < |t| <= MAX_TEXT && CellsOk(u, u', q, t, i, j)
    ensures var m, n := u + MatchScore(q, t, i, j, false), u' + MatchScore(q, t, i, j, true);
      && Fits32(m) && Fits32(n)
      && Cell(if Admits(q, t, i, j) then if m >= n then m else n else MIN_SCORE * 2, Best(q, t, i + 1, j + 1, true), i + 1, j + 1)
  {
    hide MissScore, MatchScore, Admits, Best, Better, Plus;
    BestMatch(q, t, i + 1, j + 1);
    if i == 0 && j == 0 {
      FirstMatch(q, t);
      FirstCell(q, t, u, u');
    } else {
      MatchCell(u, u', Best(q, t, i, j, false), Best(q, t, i, j, true), i, j, MatchScore(q, t, i, j, false), MatchScore(q, t, i, j, true));
    }
  }

  // The first character matched at the start: only one of the two cells is a score,
  // and the other one does not beat it.
  lemma FirstCell(q: Query, t: string, u: int, u': int)
    requires q.Valid() && 0 < |q.pat| <= MAX_PAT && 0 < |t| && CellsOk(u, u', q, t, 0, 0)
    ensures var d := MatchScore(q, t, 0, 0, false);
      u == u' == 0 && Cell(d, Better(Plus(Best(q, t, 0, 0, false), d), Plus(Best(q, t, 0, 0, true), MatchScore(q, t, 0, 0, true))), 1, 1)
  {
    hide MatchScore, Best;
    BestStart(q, t, 0, false);
    BestStart(q, t, 0, true);
  }
}
