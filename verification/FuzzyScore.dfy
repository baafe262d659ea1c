// Fuzzy matching (src/fuzzy_match.cc): character roles, the scores of matched
// and skipped characters, and the best total over all embeddings of a pattern.
module FuzzyScore {
  import opened Index

  // ---------- Characters ----------

  datatype CharClass = Other | Lower | Upper
  datatype Role = NoRole | Tail | Head

  function ClassOf(c: char): CharClass {
    if 'a' <= c <= 'z' then Lower else if 'A' <= c <= 'Z' then Upper else Other
  }

  function ToLower(c: char): char { if 'A' <= c <= 'Z' then ((c as int) + 32) as char else c }

  // Heads start words: after a separator, or an upper-case letter next to a
  // lower-case one.
  function RoleAt(s: string, i: nat): Role
    requires i < |s|
  {
    var pre := if i == 0 then Other else ClassOf(s[i - 1]);
    var cur := ClassOf(s[i]);
    if cur.Other? then NoRole
    else if pre.Other? || (cur.Upper? && (pre.Lower? || (i + 1 < |s| && ClassOf(s[i + 1]).Lower?))) then Head
    else Tail
  }

  // ---------- Scores ----------

  // A pattern without spaces, the roles its characters had before their
  // removal, whether it has upper-case letters, and the case sensitivity.
  datatype Query = Query(pat: string, roles: seq<Role>, upper: bool, sensitive: bool) {
    predicate Valid() { |roles| == |pat| }
  }

  function MissScore(t: string, j: nat, last: bool): (s: int)
    requires j < |t|
    ensures -23 <= s <= -3
  {
    -3 + (if last then -10 else 0) + if RoleAt(t, j).Head? then -10 else 0
  }

  function MatchScore(q: Query, t: string, i: nat, j: nat, last: bool): (s: int)
    requires q.Valid() && i < |q.pat| && j < |t|
    ensures -50 <= s <= 32
  {
    (if q.pat[i] == t[j] then if q.upper || i == j then 2 else 1 else 0)
    + (if q.roles[i].Head? then if RoleAt(t, j).Head? then 30 else if RoleAt(t, j).Tail? then -10 else 0 else 0)
    + (if RoleAt(t, j).Tail? && i > 0 && !last then -30 else 0)
    + (if i == 0 && RoleAt(t, j).Tail? then -40 else 0)
  }

  // Character i of the pattern may stand at j: the first one only on a tail if
  // the case agrees.
  predicate Admits(q: Query, t: string, i: nat, j: nat)
    requires i < |q.pat| && j < |t|
  {
    if q.sensitive then q.pat[i] == t[j]
    else ToLower(q.pat[i]) == ToLower(t[j]) && (i > 0 || !RoleAt(t, j).Tail? || q.pat[i] == t[j])
  }

  // ---------- Embeddings ----------

  // A mask marks the matched characters of a prefix of the text.
  function Count(mask: seq<bool>): nat {
    if mask == [] then 0 else Count(mask[..|mask| - 1]) + if mask[|mask| - 1] then 1 else 0
  }

  function EndsMatched(mask: seq<bool>): bool { mask != [] && mask[|mask| - 1] }

  ghost predicate Admissible(q: Query, t: string, mask: seq<bool>)
    requires |mask| <= |t|
  {
    mask == [] || (
      var front := mask[..|mask| - 1];
      Admissible(q, t, front) && (mask[|mask| - 1] ==> Count(front) < |q.pat| && Admits(q, t, Count(front), |front|)))
  }

  // The score of the characters under the mask, from left to right.
  ghost function Score(q: Query, t: string, mask: seq<bool>): int
    requires q.Valid() && |mask| <= |t| && Admissible(q, t, mask)
  {
    if mask == [] then 0
    else
      var j := |mask| - 1;
      var front := mask[..j];
      Score(q, t, front) + if mask[j] then MatchScore(q, t, Count(front), j, EndsMatched(front)) else MissScore(t, j, EndsMatched(front))
  }

  // The whole pattern, up to its last matched character.
  ghost predicate Embedding(q: Query, t: string, mask: seq<bool>) {
    |mask| <= |t| && Admissible(q, t, mask) && Count(mask) == |q.pat| && EndsMatched(mask)
  }

  // Every character after the match costs two.
  ghost function Total(q: Query, t: string, mask: seq<bool>): int
    requires q.Valid() && Embedding(q, t, mask)
  {
    Score(q, t, mask) - 2 * (|t| - |mask|)
  }

  // ---------- The recursion ----------

  function Plus(a: Option<int>, d: int): Option<int> { if a.Some? then Some(a.value + d) else None }

  function Better(a: Option<int>, b: Option<int>): Option<int> {
    if a.None? then b else if b.None? then a else if a.value >= b.value then a else b
  }

  // The best score of masks of length j with i matches that end in a match, or
  // in a miss.
  function Best(q: Query, t: string, i: nat, j: nat, matched: bool): Option<int>
    requires q.Valid() && i <= |q.pat| && j <= |t|
    decreases j
  {
    if j == 0 then if i == 0 && !matched then Some(0) else None
    else if !matched then
      Better(Plus(Best(q, t, i, j - 1, false), MissScore(t, j - 1, false)), Plus(Best(q, t, i, j - 1, true), MissScore(t, j - 1, true)))
    else if i > 0 && Admits(q, t, i - 1, j - 1) then
      Better(Plus(Best(q, t, i - 1, j - 1, false), MatchScore(q, t, i - 1, j - 1, false)),
             Plus(Best(q, t, i - 1, j - 1, true), MatchScore(q, t, i - 1, j - 1, true)))
    else None
  }

  ghost predicate IsPath(q: Query, t: string, mask: seq<bool>, i: nat, j: nat, matched: bool) {
    |mask| == j <= |t| && Admissible(q, t, mask) && Count(mask) == i && EndsMatched(mask) == matched
  }

  // One step of the recursion: a miss, a match, and the start.
  lemma BestMiss(q: Query, t: string, i: nat, j: nat)
    requires q.Valid() && i <= |q.pat| && 0 < j <= |t|
    ensures Best(q, t, i, j, false) == Better(Plus(Best(q, t, i, j - 1, false), MissScore(t, j - 1, false)),
                                              Plus(Best(q, t, i, j - 1, true), MissScore(t, j - 1, true)))
  {
    hide MissScore, Better, Plus;
  }

  lemma BestMatch(q: Query, t: string, i: nat, j: nat)
    requires q.Valid() && i <= |q.pat| && 0 < j <= |t|
    ensures Best(q, t, i, j, true) == if i > 0 && Admits(q, t, i - 1, j - 1) then
      Better(Plus(Best(q, t, i - 1, j - 1, false), MatchScore(q, t, i - 1, j - 1, false)),
             Plus(Best(q, t, i - 1, j - 1, true), MatchScore(q, t, i - 1, j - 1, true))) else None
  {
    hide MatchScore, Admits, Better, Plus;
  }

  lemma BestStart(q: Query, t: string, i: nat, matched: bool)
    requires q.Valid() && i <= |q.pat|
    ensures Best(q, t, i, 0, matched) == if i == 0 && !matched then Some(0) else None
  {
  }

  // and of a mask.
  lemma LastCharacter(q: Query, t: string, mask: seq<bool>)
    requires q.Valid() && 0 < |mask| <= |t| && Admissible(q, t, mask)
    ensures var j := |mask| - 1;
      var front, last := mask[..j], mask[j];
      && Admissible(q, t, front) && EndsMatched(mask) == last && Count(mask) == Count(front) + (if last then 1 else 0)
      && (last ==> Count(front) < |q.pat| && Admits(q, t, Count(front), j))
      && Score(q, t, mask) == Score(q, t, front) + if last then MatchScore(q, t, Count(front), j, EndsMatched(front)) else MissScore(t, j, EndsMatched(front))
  {
    hide MatchScore, MissScore, Admits;
  }

  lemma Snoc(q: Query, t: string, front: seq<bool>, matched: bool)
    requires q.Valid() && |front| < |t| && Admissible(q, t, front)
    requires matched ==> Count(front) < |q.pat| && Admits(q, t, Count(front), |front|)
    ensures Admissible(q, t, front + [matched]) && Count(front + [matched]) == Count(front) + (if matched then 1 else 0) && EndsMatched(front + [matched]) == matched
    ensures Score(q, t, front + [matched]) ==
      Score(q, t, front) + if matched then MatchScore(q, t, Count(front), |front|, EndsMatched(front)) else MissScore(t, |front|, EndsMatched(front))
  {
    hide MatchScore, MissScore, Admits;
    assert (front + [matched])[..|front|] == front;
  }

  // No mask beats the recursion.
  lemma {:induction false} BestIsUpper(q: Query, t: string, mask: seq<bool>, i: nat, j: nat, matched: bool)
    requires q.Valid() && i <= |q.pat| && IsPath(q, t, mask, i, j, matched)
    ensures var b := Best(q, t, i, j, matched); b.Some? && Score(q, t, mask) <= b.value
    decreases j
  {
    if j == 0 {
      BestStart(q, t, i, matched);
    } else {
      var front := mask[..j - 1];
      LastCharacter(q, t, mask);
      hide MatchScore, MissScore, Admits, Best, Score, Admissible, Count, EndsMatched;
      BestIsUpper(q, t, front, Count(front), j - 1, EndsMatched(front));
      if matched { BestMatch(q, t, i, j); } else { BestMiss(q, t, i, j); }
    }
  }

  // The better of two is one of them.
  lemma BetterFrom(a: Option<int>, b: Option<int>, d: int, e: int) returns (second: bool)
    requires Better(Plus(a, d), Plus(b, e)).Some?
    ensures if second then b.Some? && Better(Plus(a, d), Plus(b, e)).value == b.value + e
            else a.Some? && Better(Plus(a, d), Plus(b, e)).value == a.value + d
  {
    second := a.None? || (b.Some? && b.value + e > a.value + d);
  }

  // and some mask reaches it.
  lemma {:induction false} BestIsReached(q: Query, t: string, i: nat, j: nat, matched: bool) returns (mask: seq<bool>)
    requires q.Valid() && i <= |q.pat| && j <= |t| && Best(q, t, i, j, matched).Some?
    ensures IsPath(q, t, mask, i, j, matched) && Score(q, t, mask) == Best(q, t, i, j, matched).value
    decreases j
  {
    hide MatchScore, MissScore, Admits, Best, Better, Plus;
    if j == 0 {
      BestStart(q, t, i, matched);
      mask := [];
    } else {
      hide Score, Admissible, Count, EndsMatched;
      var front: seq<bool>;
      if matched {
        BestMatch(q, t, i, j);
        var second := BetterFrom(Best(q, t, i - 1, j - 1, false), Best(q, t, i - 1, j - 1, true),
                                 MatchScore(q, t, i - 1, j - 1, false), MatchScore(q, t, i - 1, j - 1, true));
        front := BestIsReached(q, t, i - 1, j - 1, second);
      } else {
        BestMiss(q, t, i, j);
        var second := BetterFrom(Best(q, t, i, j - 1, false), Best(q, t, i, j - 1, true),
                                 MissScore(t, j - 1, false), MissScore(t, j - 1, true));
        front := BestIsReached(q, t, i, j - 1, second);
      }
      mask := front + [matched];
      Snoc(q, t, front, matched);
    }
  }

  // Too few characters for i matches.
  lemma {:induction false} BestNone(q: Query, t: string, i: nat, j: nat, matched: bool)
    requires q.Valid() && i <= |q.pat| && j <= |t|
    ensures j < i ==> Best(q, t, i, j, matched).None?
    ensures i == 0 && matched ==> Best(q, t, i, j, matched).None?
    decreases j
  {
    hide MatchScore, MissScore, Admits, Best;
    if j == 0 {
      BestStart(q, t, i, matched);
    } else if matched {
      BestMatch(q, t, i, j);
      if i > 0 {
        BestNone(q, t, i - 1, j - 1, false);
        BestNone(q, t, i - 1, j - 1, true);
      }
    } else {
      BestMiss(q, t, i, j);
      BestNone(q, t, i, j - 1, false);
      BestNone(q, t, i, j - 1, true);
    }
  }

  predicate Moderate(b: Option<int>, i: nat, j: nat) { b.Some? ==> -50 * j <= b.value <= 32 * i }

  lemma BetterModerate(a: Option<int>, b: Option<int>, d: int, e: int, i: nat, i': nat, j: nat)
    requires Moderate(a, i, j) && Moderate(b, i, j) && -50 <= d && -50 <= e && d <= 32 * (i' - i) && e <= 32 * (i' - i)
    ensures Moderate(Better(Plus(a, d), Plus(b, e)), i', j + 1)
  {
  }

  // Real scores are moderate.
  lemma {:induction false} BestBounds(q: Query, t: string, i: nat, j: nat, matched: bool)
    requires q.Valid() && i <= |q.pat| && j <= |t|
    ensures Moderate(Best(q, t, i, j, matched), i, j)
    decreases j
  {
    hide MatchScore, MissScore, Admits, Better, Plus, Best;
    if j == 0 {
      BestStart(q, t, i, matched);
    } else {
      hide Moderate;
      if matched { BestMatch(q, t, i, j); } else { BestMiss(q, t, i, j); }
      if !matched {
        BestBounds(q, t, i, j - 1, false);
        BestBounds(q, t, i, j - 1, true);
        BetterModerate(Best(q, t, i, j - 1, false), Best(q, t, i, j - 1, true), MissScore(t, j - 1, false), MissScore(t, j - 1, true), i, i, j - 1);
      } else if i > 0 && Admits(q, t, i - 1, j - 1) {
        BestBounds(q, t, i - 1, j - 1, false);
        BestBounds(q, t, i - 1, j - 1, true);
        BetterModerate(Best(q, t, i - 1, j - 1, false), Best(q, t, i - 1, j - 1, true),
                       MatchScore(q, t, i - 1, j - 1, false), MatchScore(q, t, i - 1, j - 1, true), i - 1, i, j - 1);
      } else {
        assert Moderate(None, i, j) by { NoneModerate(i, j); }
      }
    }
  }

  lemma NoneModerate(i: nat, j: nat)
    ensures Moderate(None, i, j)
  {
  }
}
