// Subsequence search from the end (src/utils.cc), and when the fuzzy matcher
// finds an embedding at all.
module Subsequence {
  import opened Index
  import opened Indel
  import opened FuzzyScore
  import opened FuzzyMatch

  function Shifted(idx: seq<int>, d: int): (r: seq<int>)
    ensures |r| == |idx|
  {
    seq(|idx|, k requires 0 <= k < |idx| => idx[k] + d)
  }

  lemma DropFront(idx: seq<int>, p: string, t: string)
    requires p != "" && Embeds(idx, p, t)
    ensures t != "" && ((p[0] == t[0] && Sub(p[1..], t[1..])) || Sub(p, t[1..]))
  {
    if idx[0] == 0 {
      assert Embeds(Shifted(idx[1..], -1), p[1..], t[1..]);
    } else {
      assert Embeds(Shifted(idx, -1), p, t[1..]);
    }
  }

  lemma AddFront(p: string, t: string)
    requires p != "" && t != ""
    ensures p[0] == t[0] && Sub(p[1..], t[1..]) ==> Sub(p, t)
    ensures Sub(p, t[1..]) ==> Sub(p, t)
  {
    var p', t' := p[1..], t[1..];
    if p[0] == t[0] && Sub(p', t') {
      var idx :| Embeds(idx, p', t');
      assert Embeds([0] + Shifted(idx, 1), p, t);
    }
    if Sub(p, t') {
      var idx :| Embeds(idx, p, t');
      assert Embeds(Shifted(idx, 1), p, t);
    }
  }

  // The first character of the text is matched or skipped.
  lemma SubFront(p: string, t: string)
    requires p != ""
    ensures Sub(p, t) <==> t != "" && ((p[0] == t[0] && Sub(p[1..], t[1..])) || Sub(p, t[1..]))
  {
    if Sub(p, t) {
      var idx :| Embeds(idx, p, t);
      DropFront(idx, p, t);
    }
    if t != "" { AddFront(p, t); }
    hide Sub;
  }

  lemma DropBack(idx: seq<int>, p: string, t: string)
    requires p != "" && Embeds(idx, p, t)
    ensures t != "" && ((p[|p| - 1] == t[|t| - 1] && Sub(p[..|p| - 1], t[..|t| - 1])) || Sub(p, t[..|t| - 1]))
  {
    var m := |p| - 1;
    if idx[m] == |t| - 1 {
      assert Embeds(idx[..m], p[..m], t[..|t| - 1]);
    } else {
      assert Embeds(idx, p, t[..|t| - 1]);
    }
  }

  lemma AddBack(p: string, t: string)
    requires p != "" && t != ""
    ensures p[|p| - 1] == t[|t| - 1] && Sub(p[..|p| - 1], t[..|t| - 1]) ==> Sub(p, t)
    ensures Sub(p, t[..|t| - 1]) ==> Sub(p, t)
  {
    var p', t' := p[..|p| - 1], t[..|t| - 1];
    if p[|p| - 1] == t[|t| - 1] && Sub(p', t') {
      var idx :| Embeds(idx, p', t');
      assert Embeds(idx + [|t| - 1], p, t);
    }
    if Sub(p, t') {
      var idx :| Embeds(idx, p, t');
      assert Embeds(idx, p, t);
    }
  }

  // The last character of the text is matched or skipped.
  lemma SubBack(p: string, t: string)
    requires p != ""
    ensures Sub(p, t) <==> t != "" && ((p[|p| - 1] == t[|t| - 1] && Sub(p[..|p| - 1], t[..|t| - 1])) || Sub(p, t[..|t| - 1]))
  {
    if Sub(p, t) {
      var idx :| Embeds(idx, p, t);
      DropBack(idx, p, t);
    }
    if t != "" { AddBack(p, t); }
    hide Sub;
  }

  lemma SubNothing(t: string)
    ensures Sub("", t)
  {
    assert Embeds([], "", t);
  }

  // A shorter pattern is found wherever a longer one is.
  lemma SubShorter(p: string, t: string)
    requires p != "" && Sub(p, t)
    ensures Sub(p[1..], t)
  {
    var idx :| Embeds(idx, p, t);
    assert Embeds(idx[1..], p[1..], t);
  }

  lemma SubEarlier(p: string, t: string, i: nat, k: nat)
    requires i <= k <= |t| && Sub(p, t[k..])
    ensures Sub(p, t[i..])
  {
    var idx :| Embeds(idx, p, t[k..]);
    assert Embeds(Shifted(idx, k - i), p, t[i..]);
  }

  // ---------- reverseSubseqMatch ----------

  function Fold(sensitive: bool, s: string): (r: string)
    ensures |r| == |s|
  {
    if sensitive then s else seq(|s|, i requires 0 <= i < |s| => ToLower(s[i]))
  }

  predicate HasUpper(s: string) { exists i :: 0 <= i < |s| && ClassOf(s[i]).Upper? }

  lemma SuffixStep(p: string, t: string, j: nat, i: nat)
    requires 0 < j <= |p| && 0 < i <= |t| && Sub(p[j..], t[i..]) && !Sub(p[j - 1..], t[i..])
    ensures p[j - 1] == t[i - 1] ==> Sub(p[j - 1..], t[i - 1..]) && (j > 1 ==> !Sub(p[j - 2..], t[i - 1..]))
    ensures p[j - 1] != t[i - 1] ==> Sub(p[j..], t[i - 1..]) && !Sub(p[j - 1..], t[i - 1..])
  {
    var u := t[i - 1..];
    assert u[1..] == t[i..];
    var q := p[j - 1..];
    assert q[1..] == p[j..];
    SubFront(q, u);
    SubEarlier(p[j..], t, i - 1, i);
    if j > 1 {
      var r := p[j - 2..];
      assert r[1..] == q;
      SubFront(r, u);
      if Sub(r, t[i..]) { SubShorter(r, t[i..]); }
    }
    hide Sub;
  }

  // The largest start from which the pattern is a subsequence of the text.
  method ReverseSubseqMatch(pat: string, text: string, caseSensitivity: int) returns (r: int)
    ensures -1 <= r <= |text|
    ensures var cs := if caseSensitivity == 1 then HasUpper(pat) else caseSensitivity != 0;
      forall i :: 0 <= i <= |text| ==> (Sub(Fold(cs, pat), Fold(cs, text)[i..]) <==> i <= r)
  {
    var cs := if caseSensitivity == 1 then HasUpper(pat) else caseSensitivity != 0;
    ghost var p, t := Fold(cs, pat), Fold(cs, text);
    var j := |pat|;
    if j == 0 {
      forall i | 0 <= i <= |text|
        ensures Sub(p, t[i..])
      {
        SubNothing(t[i..]);
      }
      return |text|;
    }
    var i := |text|;
    assert p[j..] == "" && t[i..] == "";
    SubNothing("");
    NothingHolds(p[j - 1..]);
    while i > 0
      invariant 0 <= i <= |text| && 0 < j <= |pat|
      invariant Sub(p[j..], t[i..]) && !Sub(p[j - 1..], t[i..])
    {
      hide Sub;
      SuffixStep(p, t, j, i);
      i := i - 1;
      if (if cs then text[i] == pat[j - 1] else ToLower(text[i]) == ToLower(pat[j - 1])) {
        assert !Sub(p[j - 1..], t[i + 1..]);
        j := j - 1;
        if j == 0 {
          FoundAt(p, t, i);
          return i;
        }
      }
    }
    NotFound(p, t, j);
    return -1;
  }

  lemma NothingHolds(p: string)
    requires p != ""
    ensures !Sub(p, "")
  {
    SubFront(p, "");
  }

  lemma FoundAt(p: string, t: string, i: nat)
    requires i < |t| && Sub(p[0..], t[i..]) && !Sub(p[0..], t[i + 1..])
    ensures forall k :: 0 <= k <= |t| ==> (Sub(p, t[k..]) <==> k <= i)
  {
    assert p[0..] == p;
    forall k | 0 <= k <= |t|
      ensures Sub(p, t[k..]) <==> k <= i
    {
      if k <= i {
        SubEarlier(p, t, k, i);
      } else if Sub(p, t[k..]) {
        SubEarlier(p, t, i + 1, k);
      }
    }
  }

  lemma NotFound(p: string, t: string, j: nat)
    requires 0 < j <= |p| && !Sub(p[j - 1..], t[0..])
    ensures forall k :: 0 <= k <= |t| ==> !Sub(p, t[k..])
  {
    forall k | 0 <= k <= |t|
      ensures !Sub(p, t[k..])
    {
      if Sub(p, t[k..]) {
        SubEarlier(p, t, 0, k);
        SubTail(p, t[0..], j - 1);
      }
    }
  }

  lemma {:induction false} SubTail(p: string, t: string, j: nat)
    requires j <= |p| && Sub(p, t)
    ensures Sub(p[j..], t)
  {
    if j == 0 {
      assert p[0..] == p;
    } else {
      SubTail(p, t, j - 1);
      SubShorter(p[j - 1..], t);
      assert p[j - 1..][1..] == p[j..];
    }
  }

  // ---------- When an embedding exists ----------

  lemma {:induction false} BestExists(q: Query, t: string, i: nat, j: nat)
    requires q.Valid() && q.sensitive && i <= |q.pat| && j <= |t|
    ensures Sub(q.pat[..i], t[..j]) <==> Best(q, t, i, j, false).Some? || Best(q, t, i, j, true).Some?
    decreases j
  {
    hide MatchScore, MissScore, Sub;
    if i == 0 {
      SubNothing(t[..j]);
      assert q.pat[..0] == "";
      if j > 0 { BestExists(q, t, 0, j - 1); SubNothing(t[..j - 1]); }
    } else if j == 0 {
      assert t[..0] == "";
      NothingHolds(q.pat[..i]);
    } else {
      BestExists(q, t, i, j - 1);
      BestExists(q, t, i - 1, j - 1);
      SubBack(q.pat[..i], t[..j]);
      assert q.pat[..i][..i - 1] == q.pat[..i - 1] && t[..j][..j - 1] == t[..j - 1];
    }
  }

  lemma {:induction false} TotalExists(q: Query, t: string, j: nat)
    requires q.Valid() && q.sensitive && q.pat != "" && j <= |t|
    ensures BestTotal(q, t, j).Some? <==> Sub(q.pat, t[..j])
    decreases j
  {
    BestExists(q, t, |q.pat|, j);
    assert q.pat[..|q.pat|] == q.pat;
    if j > 0 {
      TotalExists(q, t, j - 1);
      BestExists(q, t, |q.pat|, j - 1);
    } else {
      BestNone(q, t, |q.pat|, 0, false);
    }
    hide MatchScore, MissScore, Sub, Admits;
  }

  // In case-sensitive mode some embedding exists exactly when the pattern is a
  // subsequence of the text, that is when reverseSubseqMatch is not negative.
  lemma EmbeddingExists(q: Query, t: string)
    requires q.Valid() && q.sensitive && q.pat != ""
    ensures (exists mask :: Embedding(q, t, mask)) <==> Sub(q.pat, t)
  {
    TotalExists(q, t, |t|);
    assert t[..|t|] == t;
    hide BestTotal, Sub, Embedding;
    if BestTotal(q, t, |t|).Some? {
      var mask := TotalIsReached(q, t, |t|);
    }
    if mask :| Embedding(q, t, mask) {
      EmbeddingFits(q, t, mask);
      TotalIsUpper(q, t, mask, |t|);
    }
  }
}
