// What an embedding scores (src/fuzzy_match.cc), in terms of how many of its
// characters have which feature.
module FuzzyCounts {
  import opened FuzzyScore

  // ---------- Characters ----------

  predicate IsLower(c: char) { 'a' <= c <= 'z' }
  predicate IsUpper(c: char) { 'A' <= c <= 'Z' }
  predicate IsLetter(c: char) { IsLower(c) || IsUpper(c) }

  // Only letters have roles. A lower-case letter is a head after anything but a
  // letter; an upper-case letter is one unless it follows an upper-case letter and
  // no lower-case letter follows.
  lemma RoleIs(s: string, i: nat)
    requires i < |s|
    ensures RoleAt(s, i) == NoRole <==> !IsLetter(s[i])
    ensures IsLower(s[i]) ==> (RoleAt(s, i) == Head <==> i == 0 || !IsLetter(s[i - 1]))
    ensures IsUpper(s[i]) ==> (RoleAt(s, i) == Tail <==> i > 0 && IsUpper(s[i - 1]) && (i + 1 < |s| ==> !IsLower(s[i + 1])))
  {
  }

  // The same letter, in either case.
  predicate SameLetter(c: char, d: char) {
    c == d || (IsUpper(c) && d as int == c as int + 32) || (IsUpper(d) && c as int == d as int + 32)
  }

  lemma SameLetterIff(c: char, d: char)
    ensures ToLower(c) == ToLower(d) <==> SameLetter(c, d)
  {
  }

  // ---------- Embeddings ----------

  // The number of characters matched before j: the index in the pattern of a
  // match at j.
  function RankAt(mask: seq<bool>, j: nat): nat
    requires j <= |mask|
  {
    |set k | 0 <= k < j && mask[k]|
  }

  lemma {:induction false} CountIsRank(mask: seq<bool>)
    ensures Count(mask) == RankAt(mask, |mask|)
  {
    if mask != [] {
      var n := |mask| - 1;
      CountIsRank(mask[..n]);
      var before, all := set k | 0 <= k < n && mask[..n][k], set k | 0 <= k < n + 1 && mask[k];
      assert all == if mask[n] then before + {n} else before;
    }
  }

  lemma RankPrefix(mask: seq<bool>, j: nat)
    requires j <= |mask|
    ensures Count(mask[..j]) == RankAt(mask, j)
    ensures forall n :: j <= n <= |mask| ==> RankAt(mask[..n], j) == RankAt(mask, j)
  {
    CountIsRank(mask[..j]);
    forall n | j <= n <= |mask|
      ensures RankAt(mask[..n], j) == RankAt(mask, j)
    {
      assert (set k | 0 <= k < j && mask[..n][k]) == set k | 0 <= k < j && mask[k];
    }
  }

  // The match at j fits: the same character, or, if case does not matter, the
  // same letter; the first match must not change the case of a tail.
  predicate Fits(q: Query, t: string, mask: seq<bool>, j: nat)
    requires j < |mask| <= |t|
  {
    var i := RankAt(mask, j);
    && i < |q.pat|
    && (if q.sensitive then q.pat[i] == t[j] else SameLetter(q.pat[i], t[j]))
    && (!q.sensitive && i == 0 && RoleAt(t, j) == Tail ==> q.pat[i] == t[j])
  }

  lemma FitsIff(q: Query, t: string, mask: seq<bool>, n: nat)
    requires n < |mask| <= |t|
    ensures Fits(q, t, mask, n) <==> Count(mask[..n]) < |q.pat| && Admits(q, t, Count(mask[..n]), n)
    ensures forall m :: n < m <= |mask| ==> (Fits(q, t, mask[..m], n) <==> Fits(q, t, mask, n))
  {
    RankPrefix(mask, n);
    hide RoleAt, SameLetter, ToLower, RankAt;
    if Count(mask[..n]) < |q.pat| { SameLetterIff(q.pat[Count(mask[..n])], t[n]); }
  }

  lemma {:induction false} AdmissibleIff(q: Query, t: string, mask: seq<bool>)
    requires |mask| <= |t|
    ensures Admissible(q, t, mask) <==> forall j :: 0 <= j < |mask| && mask[j] ==> Fits(q, t, mask, j)
  {
    if mask != [] {
      hide Fits, Count, Admits;
      var n := |mask| - 1;
      AdmissibleIff(q, t, mask[..n]);
      forall j | 0 <= j <= n
        ensures Fits(q, t, mask, j) <==> Count(mask[..j]) < |q.pat| && Admits(q, t, Count(mask[..j]), j)
        ensures j < n ==> (Fits(q, t, mask[..n], j) <==> Fits(q, t, mask, j))
      {
        FitsIff(q, t, mask, j);
      }
    }
  }

  // The pattern is matched character by character, in order, up to the last
  // character of the mask.
  lemma EmbeddingIff(q: Query, t: string, mask: seq<bool>)
    ensures Embedding(q, t, mask) <==>
      && 0 < |mask| <= |t| && mask[|mask| - 1]
      && RankAt(mask, |mask|) == |q.pat|
      && forall j :: 0 <= j < |mask| && mask[j] ==> Fits(q, t, mask, j)
  {
    CountIsRank(mask);
    if |mask| <= |t| { AdmissibleIff(q, t, mask); }
  }

  // ---------- Scores ----------

  datatype Feature =
    | SameCase          // the very character of the pattern
    | Favoured          // and the pattern has upper-case letters, or all before it matched
    | HeadOnHead | HeadOnTail
    | TailAfterGap      // a tail whose predecessor is not matched, but some character is
    | FirstOnTail
    | Skipped | HeadSkipped
    | GapBegun          // skipped right after a match

  predicate Has(f: Feature, q: Query, t: string, mask: seq<bool>, j: nat)
    requires q.Valid() && j < |mask| <= |t|
  {
    var i, role := RankAt(mask, j), RoleAt(t, j);
    match f
    case SameCase => mask[j] && i < |q.pat| && q.pat[i] == t[j]
    case Favoured => mask[j] && i < |q.pat| && q.pat[i] == t[j] && (q.upper || i == j)
    case HeadOnHead => mask[j] && i < |q.pat| && q.roles[i] == Head && role == Head
    case HeadOnTail => mask[j] && i < |q.pat| && q.roles[i] == Head && role == Tail
    case TailAfterGap => mask[j] && role == Tail && i > 0 && j > 0 && !mask[j - 1]
    case FirstOnTail => mask[j] && role == Tail && i == 0
    case Skipped => !mask[j]
    case HeadSkipped => !mask[j] && role == Head
    case GapBegun => !mask[j] && j > 0 && mask[j - 1]
  }

  // How many characters under the mask have the feature.
  function Number(f: Feature, q: Query, t: string, mask: seq<bool>): nat
    requires q.Valid() && |mask| <= |t|
  {
    |set j | 0 <= j < |mask| && Has(f, q, t, mask, j)|
  }

  function Points(q: Query, t: string, mask: seq<bool>): int
    requires q.Valid() && |mask| <= |t|
  {
    Number(SameCase, q, t, mask) + Number(Favoured, q, t, mask)
    + 30 * Number(HeadOnHead, q, t, mask) - 10 * Number(HeadOnTail, q, t, mask)
    - 30 * Number(TailAfterGap, q, t, mask) - 40 * Number(FirstOnTail, q, t, mask)
    - 3 * Number(Skipped, q, t, mask) - 10 * Number(HeadSkipped, q, t, mask) - 10 * Number(GapBegun, q, t, mask)
  }

  // Features do not depend on what comes after.
  lemma HasBefore(f: Feature, q: Query, t: string, mask: seq<bool>, n: nat, j: nat)
    requires q.Valid() && j < n <= |mask| <= |t|
    ensures Has(f, q, t, mask, j) <==> Has(f, q, t, mask[..n], j)
  {
    RankPrefix(mask, j);
    hide RankAt, RoleAt;
  }

  lemma NumberSnoc(f: Feature, q: Query, t: string, mask: seq<bool>, n: nat)
    requires q.Valid() && |mask| == n + 1 <= |t|
    ensures Number(f, q, t, mask) == Number(f, q, t, mask[..n]) + if Has(f, q, t, mask, n) then 1 else 0
  {
    hide Has;
    var front := mask[..n];
    forall j | 0 <= j < n
      ensures Has(f, q, t, mask, j) <==> Has(f, q, t, front, j)
    {
      HasBefore(f, q, t, mask, n, j);
    }
    var before, all := set j | 0 <= j < n && Has(f, q, t, front, j), set j | 0 <= j < n + 1 && Has(f, q, t, mask, j);
    assert all == if Has(f, q, t, mask, n) then before + {n} else before;
  }

  // What the character at n adds.
  function Gain(q: Query, t: string, mask: seq<bool>, n: nat): int
    requires q.Valid() && n < |mask| <= |t|
  {
    var one := (f: Feature) => if Has(f, q, t, mask, n) then 1 else 0;
    one(SameCase) + one(Favoured) + 30 * one(HeadOnHead) - 10 * one(HeadOnTail)
    - 30 * one(TailAfterGap) - 40 * one(FirstOnTail) - 3 * one(Skipped) - 10 * one(HeadSkipped) - 10 * one(GapBegun)
  }

  lemma PointsSnoc(q: Query, t: string, mask: seq<bool>, n: nat)
    requires q.Valid() && |mask| == n + 1 <= |t|
    ensures Points(q, t, mask) == Points(q, t, mask[..n]) + Gain(q, t, mask, n)
  {
    hide Has, Number;
    NumberSnoc(SameCase, q, t, mask, n);
    NumberSnoc(Favoured, q, t, mask, n);
    NumberSnoc(HeadOnHead, q, t, mask, n);
    NumberSnoc(HeadOnTail, q, t, mask, n);
    NumberSnoc(TailAfterGap, q, t, mask, n);
    NumberSnoc(FirstOnTail, q, t, mask, n);
    NumberSnoc(Skipped, q, t, mask, n);
    NumberSnoc(HeadSkipped, q, t, mask, n);
    NumberSnoc(GapBegun, q, t, mask, n);
  }

  lemma GainIs(q: Query, t: string, mask: seq<bool>, n: nat)
    requires q.Valid() && |mask| == n + 1 <= |t| && Admissible(q, t, mask)
    ensures var front := mask[..n];
      Gain(q, t, mask, n) == if mask[n] then MatchScore(q, t, Count(front), n, EndsMatched(front)) else MissScore(t, n, EndsMatched(front))
  {
    RankPrefix(mask, n);
    if n == 0 { assert RankAt(mask, 0) == 0; }
    hide RoleAt, RankAt, Count;
  }

  // The score of a mask, as a weighted count of features.
  lemma {:induction false} ScoreIsPoints(q: Query, t: string, mask: seq<bool>)
    requires q.Valid() && |mask| <= |t| && Admissible(q, t, mask)
    ensures Score(q, t, mask) == Points(q, t, mask)
  {
    if mask != [] {
      var n := |mask| - 1;
      ScoreIsPoints(q, t, mask[..n]);
      PointsSnoc(q, t, mask, n);
      GainIs(q, t, mask, n);
      hide Points, Gain, MatchScore, MissScore;
    }
  }

  // An embedding loses two more points for every character after it.
  lemma TotalIsPoints(q: Query, t: string, mask: seq<bool>)
    requires q.Valid() && Embedding(q, t, mask)
    ensures Total(q, t, mask) == Points(q, t, mask) - 2 * (|t| - |mask|)
  {
    ScoreIsPoints(q, t, mask);
    hide Points, Score;
  }
}
