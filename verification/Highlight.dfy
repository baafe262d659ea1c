// Using the disjoint pieces (src/message_handler.cc): the incremental cursor of
// emitSemanticHighlight and the relative encoding of semantic tokens.
module Highlight {
  import opened Positions
  import opened ScanLine

  // ---------- Code points ----------

  function Newlines(s: string, i: nat): nat
    requires i <= |s|
  {
    if i == 0 then 0 else Newlines(s, i - 1) + if s[i - 1] == '\n' then 1 else 0
  }

  // Code points before offset i: bytes that do not continue one.
  function Points(s: string, i: nat): nat
    requires i <= |s|
  {
    if i == 0 then 0 else Points(s, i - 1) + if Continuation(s[i - 1]) then 0 else 1
  }

  // In UTF-8 continuation bytes follow bytes of the same code point.
  predicate WellEncoded(s: string) { forall i :: 0 <= i < |s| && Continuation(s[i]) ==> i > 0 && Multibyte(s[i - 1]) }

  // The code points before a position counted from the start of the text, if
  // there is such a line and column.
  function Find(s: string, p: Position): Place
    requires 0 <= p.line && 0 <= p.character
  {
    var start := SkipLines(s, 0, p.line);
    if Newlines(s, start) < p.line then Missing
    else
      var k := SkipChars(s, start, p.character);
      if CharCount(s, start, k) < p.character then Missing else Found(Points(s, k))
  }

  datatype Place = Missing | Found(points: nat)

  lemma {:induction false} SkipSameLine(s: string, i: nat, j: nat, n: int)
    requires SameLine(s, i, j) && n > 0
    ensures SkipLines(s, i, n) == SkipLines(s, j, n)
    decreases j - i
  {
    if i < j { SkipSameLine(s, i + 1, j, n); }
  }

  lemma {:induction false} SkipOnward(s: string, i: nat, j: nat, n: int)
    requires i <= j <= |s| && Boundary(s, i, j) && SameLine(s, i, j) && CharCount(s, i, j) <= n
    ensures SkipChars(s, i, n) == SkipChars(s, j, n - CharCount(s, i, j))
    decreases |s| - i
  {
    if i < j {
      BoundaryInText(s, NextChar(s, i), j);
      SkipOnward(s, NextChar(s, i), j, n - 1);
    }
  }

  // A character is one code point.
  lemma {:induction false} SkippedPoints(s: string, i: nat)
    requires i <= |s|
    ensures Points(s, SkipContinuation(s, i)) == Points(s, i)
    ensures var j := SkipContinuation(s, i); j == |s| || !Continuation(s[j])
    decreases |s| - i
  {
    if i < |s| && Continuation(s[i]) { SkippedPoints(s, i + 1); }
  }

  lemma NextPoint(s: string, i: nat)
    requires i < |s| && !Continuation(s[i])
    ensures Points(s, NextChar(s, i)) == Points(s, i) + 1
  {
    if Multibyte(s[i]) { SkippedPoints(s, i + 1); }
  }

  // No character starts with a continuation byte.
  lemma {:induction false} LeadByte(s: string, i: nat, j: nat)
    requires WellEncoded(s) && Boundary(s, i, j) && i <= j < |s| && (i < |s| ==> !Continuation(s[i]))
    ensures !Continuation(s[j])
    decreases |s| - i
  {
    if i < j {
      BoundaryInText(s, NextChar(s, i), j);
      if Multibyte(s[i]) { SkippedPoints(s, i + 1); }
      LeadByte(s, NextChar(s, i), j);
    }
  }

  // Lines start with whole characters.
  lemma {:induction false} LineStartLead(s: string, i: nat, n: int)
    requires WellEncoded(s) && i <= |s|
    ensures var j := SkipLines(s, i, n); j < |s| && (j > i || i == 0) ==> !Continuation(s[j])
    decreases |s| - i
  {
    if n > 0 && i < |s| {
      LineStartLead(s, i + 1, if s[i] == '\n' then n - 1 else n);
    }
  }

  // ---------- The cursor ----------

  class Cursor {
    const buf: string
    var l: int
    var c: int
    var i: nat
    var p: nat
    ghost var last: Position    // the position asked for last
    ghost var start: nat        // where line l starts

    // Either the cursor is on the line asked for, or the text has ended.
    ghost predicate Valid()
      reads this
    {
      && i <= |buf| && p == Points(buf, i) && l == Newlines(buf, i) && l <= last.line
      && WellEncoded(buf) && 0 <= last.character && 0 <= c
      && if l == last.line then c <= last.character && Locates(buf, i, Position(l, c), start) else i == |buf|
    }

    constructor (buf: string)
      requires WellEncoded(buf)
      ensures Valid() && this.buf == buf && last == Position(0, 0)
    {
      this.buf, l, c, i, p := buf, 0, 0, 0, 0;
      last, start := Position(0, 0), 0;
    }

    lemma LineAhead(line: int)
      requires Valid() && last.line <= line && l < line
      ensures SkipLines(buf, i, line - l) == SkipLines(buf, 0, line)
    {
      if l == last.line {
        SkipLinesComposes(buf, 0, l, line - l);
        SkipSameLine(buf, start, i, line - l);
      } else {
        AtEnd(buf, line);
      }
    }

    // On to a later line: over all bytes, counting newlines and code points.
    method SkipToLine(line: int)
      requires Valid() && last.line <= line && l < line
      modifies this
      ensures i <= |buf| && p == Points(buf, i) && l == Newlines(buf, i) <= line && c == 0
      ensures l < line ==> i == |buf| && Newlines(buf, SkipLines(buf, 0, line)) < line
      ensures l == line ==> i == SkipLines(buf, 0, line)
    {
      ghost var target := SkipLines(buf, 0, line);
      LineAhead(line);
      c := 0;
      while l < line && i < |buf|
        invariant i <= |buf| && p == Points(buf, i) && l == Newlines(buf, i) <= line && c == 0
        invariant SkipLines(buf, i, line - l) == target
        decreases |buf| - i
      {
        if buf[i] == '\n' { l := l + 1; }
        if buf[i] as int < 128 || 192 <= buf[i] as int { p := p + 1; }
        i := i + 1;
      }
    }

    // Over one character.
    method NextCharacter()
      requires i < |buf| && buf[i] != '\n' && !Continuation(buf[i]) && p == Points(buf, i) && l == Newlines(buf, i)
      modifies this`i, this`p
      ensures i == NextChar(buf, old(i)) && p == old(p) + 1 == Points(buf, i) && l == Newlines(buf, i)
    {
      NextPoint(buf, i);
      NextNewlines(buf, i);
      ghost var from, next := i, NextChar(buf, i);
      p, i := p + 1, i + 1;
      if buf[i - 1] as int >= 128 {
        while i < |buf| && buf[i] as int >= 128 && (buf[i] as int) < 192
          invariant from < i <= |buf| && SkipContinuation(buf, i) == next && p == old(p) + 1
          decreases |buf| - i
        {
          i := i + 1;
        }
      }
    }

    // On to a column of the line starting at s.
    method SkipToColumn(col: int, ghost s: nat)
      requires WellEncoded(buf) && s <= i <= |buf| && p == Points(buf, i) && l == Newlines(buf, i) && 0 <= c <= col
      requires Locates(buf, i, Position(l, c), s)
      modifies this`c, this`i, this`p
      ensures s <= i <= |buf| && p == Points(buf, i) && l == Newlines(buf, i) && c <= col
      ensures Locates(buf, i, Position(l, c), s) && i == SkipChars(buf, s, col)
    {
      LineStartLead(buf, 0, l);
      SkipOnward(buf, s, i, col);
      while c < col && i < |buf| && buf[i] != '\n'
        invariant s <= i <= |buf| && p == Points(buf, i) && 0 <= c <= col && l == Newlines(buf, i)
        invariant Locates(buf, i, Position(l, c), s)
        invariant SkipChars(buf, i, col - c) == SkipChars(buf, s, col)
        decreases |buf| - i
      {
        LeadByte(buf, s, i);
        SameStart(buf, i, Position(l, c), s);
        NextCharacter();
        c := c + 1;
      }
    }

    // Returns whether the position is missing.
    method Mov(line: int, col: int) returns (missing: bool)
      requires Valid() && AtOrBefore(last, Position(line, col)) && 0 <= line && 0 <= col
      modifies this
      ensures Valid() && last == Position(line, col)
      ensures Find(buf, Position(line, col)) == if missing then Missing else Found(p)
    {
      if l < line {
        SkipToLine(line);
        last := Position(line, col);
        if l < line { return true; }
        start := i;
      }
      SkipToColumn(col, start);
      SameLineNewlines(buf, start, i);
      last := Position(line, col);
      missing := c < col;
    }
  }

  lemma {:induction false} SameLineNewlines(s: string, i: nat, j: nat)
    requires SameLine(s, i, j)
    ensures Newlines(s, i) == Newlines(s, j)
    decreases j - i
  {
    if i < j { SameLineNewlines(s, i, j - 1); }
  }

  // Within a line the start of the line stays the same.
  lemma SameStart(s: string, i: nat, at: Position, start: nat)
    requires i < |s| && s[i] != '\n' && Locates(s, i, at, start)
    ensures Locates(s, NextChar(s, i), Position(at.line, at.character + 1), start)
  {
    CharCountSnoc(s, start, i);
    if Multibyte(s[i]) { ContinuationStaysInLine(s, i + 1); }
  }

  lemma AtEnd(s: string, line: int)
    requires line > Newlines(s, |s|)
    ensures SkipLines(s, 0, line) == |s|
  {
    EndReached(s, 0, line);
  }

  lemma {:induction false} EndReached(s: string, i: nat, n: int)
    requires i <= |s| && n + Newlines(s, i) > Newlines(s, |s|)
    ensures SkipLines(s, i, n) == |s|
    decreases |s| - i
  {
    if i < |s| {
      MoreNewlines(s, i);
      EndReached(s, i + 1, if s[i] == '\n' then n - 1 else n);
    }
  }

  lemma {:induction false} MoreNewlines(s: string, i: nat)
    requires i <= |s|
    ensures Newlines(s, i) <= Newlines(s, |s|)
    decreases |s| - i
  {
    if i < |s| { MoreNewlines(s, i + 1); }
  }

  lemma NextNewlines(s: string, i: nat)
    requires i < |s| && s[i] != '\n'
    ensures Newlines(s, NextChar(s, i)) == Newlines(s, i)
  {
    if Multibyte(s[i]) { SkippedNewlines(s, i + 1); }
  }

  lemma {:induction false} SkippedNewlines(s: string, i: nat)
    requires i <= |s|
    ensures Newlines(s, SkipContinuation(s, i)) == Newlines(s, i)
    decreases |s| - i
  {
    if i < |s| && Continuation(s[i]) { SkippedNewlines(s, i + 1); }
  }

  // ---------- Offsets of all pieces ----------

  // What counting from the start of the text gives for every piece.
  function Offsets(s: string, ps: seq<Piece>): seq<(nat, nat)>
    requires forall m :: 0 <= m < |ps| ==> Positive(ps[m])
  {
    if ps == [] then []
    else
      var n := |ps| - 1;
      assert Positive(ps[n]);
      var a, b := Find(s, ps[n].start), Find(s, ps[n].end);
      Offsets(s, ps[..n]) + if a.Found? && b.Found? then [(a.points, b.points)] else []
  }

  method EmitOffsets(buf: string, ps: seq<Piece>) returns (pairs: seq<(nat, nat)>)
    requires WellEncoded(buf) && AscendingFrom(ps, Position(0, 0)) && forall m :: 0 <= m < |ps| ==> Positive(ps[m])
    ensures pairs == Offsets(buf, ps) && PairsAscend(pairs)
  {
    OffsetsAscend(buf, ps);
    hide Find;
    pairs := [];
    var cursor := new Cursor(buf);
    for m := 0 to |ps|
      invariant cursor.Valid() && fresh(cursor) && cursor.buf == buf
      invariant forall k :: m <= k < |ps| ==> AtOrBefore(cursor.last, ps[k].start)
      invariant pairs == Offsets(buf, ps[..m])
    {
      assert ps[..m + 1][..m] == ps[..m];
      var r := ps[m];
      var missing := cursor.Mov(r.start.line, r.start.character);
      if missing { continue; }
      var beg := cursor.p;
      missing := cursor.Mov(r.end.line, r.end.character);
      if missing { continue; }
      pairs := pairs + [(beg, cursor.p)];
    }
    assert ps[..|ps|] == ps;
  }

  // ---------- The pairs are ascending ----------

  lemma {:induction false} PointsMonotone(s: string, i: nat, j: nat)
    requires i <= j <= |s|
    ensures Points(s, i) <= Points(s, j)
    ensures i < j && !Continuation(s[i]) ==> Points(s, i) < Points(s, j)
    decreases j
  {
    if i < j { PointsMonotone(s, i, j - 1); }
  }

  // Where skipping characters ends is a whole number of characters on.
  lemma {:induction false} SkipCharsBoundary(s: string, i: nat, n: int)
    requires i <= |s|
    ensures var k := SkipChars(s, i, n); Boundary(s, i, k) && CharCount(s, i, k) <= if n > 0 then n else 0
    decreases |s| - i
  {
    if n > 0 && i < |s| && s[i] != '\n' { SkipCharsBoundary(s, NextChar(s, i), n - 1); }
  }

  lemma {:induction false} LinesPassed(s: string, i: nat, n: int)
    requires i <= |s| && n >= 0
    ensures Newlines(s, i) <= Newlines(s, SkipLines(s, i, n)) <= Newlines(s, i) + n
    decreases |s| - i
  {
    if n > 0 && i < |s| { LinesPassed(s, i + 1, if s[i] == '\n' then n - 1 else n); }
  }

  // A position that is found has its offset on its line, at its column, at the
  // start of a code point.
  lemma FoundAt(s: string, p: Position)
    requires WellEncoded(s) && 0 <= p.line && 0 <= p.character && Find(s, p).Found?
    ensures var start, k := SkipLines(s, 0, p.line), Offset(s, p);
      && start <= k && Find(s, p).points == Points(s, k) && Newlines(s, k) == p.line && CharCount(s, start, k) == p.character
      && (k < |s| ==> !Continuation(s[k]))
  {
    var start, k := SkipLines(s, 0, p.line), Offset(s, p);
    LinesPassed(s, 0, p.line);
    SkipCharsBoundary(s, start, p.character);
    CharsStayInLine(s, start, p.character);
    SameLineNewlines(s, start, k);
    LineStartLead(s, 0, p.line);
    if k < |s| { LeadByte(s, start, k); }
  }

  // Earlier positions have fewer code points before them.
  lemma FoundInOrder(s: string, p: Position, q: Position)
    requires WellEncoded(s) && NonNegative(p) && NonNegative(q) && Find(s, p).Found? && Find(s, q).Found?
    ensures AtOrBefore(p, q) ==> Find(s, p).points <= Find(s, q).points
    ensures Before(p, q) ==> Find(s, p).points < Find(s, q).points
  {
    FoundAt(s, p);
    FoundAt(s, q);
    hide Find, WellEncoded, SkipLines, CharCount, Newlines;
    if AtOrBefore(p, q) {
      OffsetMonotone(s, p, q);
      PointsMonotone(s, Offset(s, p), Offset(s, q));
    }
  }

  // The pairs are non-empty, disjoint and ascending ranges of code points.
  predicate PairsAscend(pairs: seq<(nat, nat)>) {
    && (forall m :: 0 <= m < |pairs| ==> pairs[m].0 < pairs[m].1)
    && (forall m, l :: 0 <= m < l < |pairs| ==> pairs[m].1 <= pairs[l].0)
  }

  // The code points before the two ends of a piece.
  predicate IsPair(s: string, p: Piece, pair: (nat, nat)) {
    Positive(p) && Find(s, p.start) == Found(pair.0) && Find(s, p.end) == Found(pair.1)
  }

  predicate AllPositive(ps: seq<Piece>) { forall m :: 0 <= m < |ps| ==> Positive(ps[m]) }

  // Every pair is that of a piece.
  lemma {:induction false} PairFrom(s: string, ps: seq<Piece>, m: nat) returns (l: nat)
    requires AllPositive(ps) && m < |Offsets(s, ps)|
    ensures l < |ps| && IsPair(s, ps[l], Offsets(s, ps)[m])
  {
    hide Find;
    var n := |ps| - 1;
    assert Positive(ps[n]);
    if m < |Offsets(s, ps[..n])| { l := PairFrom(s, ps[..n], m); } else { l := n; }
  }

  lemma PairsInOrder(s: string, p: Piece, q: Piece, x: (nat, nat), y: (nat, nat))
    requires WellEncoded(s) && IsPair(s, p, x) && IsPair(s, q, y)
    ensures Before(p.start, p.end) ==> x.0 < x.1
    ensures AtOrBefore(p.end, q.start) ==> x.1 <= y.0
  {
    FoundInOrder(s, p.start, p.end);
    FoundInOrder(s, p.end, q.start);
    hide Find;
  }

  // The last piece adds its pair, or nothing.
  lemma OffsetsSnoc(s: string, ps: seq<Piece>) returns (last: seq<(nat, nat)>)
    requires AllPositive(ps) && ps != []
    ensures var n := |ps| - 1; Offsets(s, ps) == Offsets(s, ps[..n]) + last && |last| <= 1 && (last != [] ==> IsPair(s, ps[n], last[0]))
  {
    hide Find;
    var p := ps[|ps| - 1];
    assert Positive(p);
    var a, b := Find(s, p.start), Find(s, p.end);
    last := if a.Found? && b.Found? then [(a.points, b.points)] else [];
  }

  lemma AscendSnoc(pairs: seq<(nat, nat)>, pair: (nat, nat))
    requires PairsAscend(pairs) && pair.0 < pair.1 && forall m :: 0 <= m < |pairs| ==> pairs[m].1 <= pair.0
    ensures PairsAscend(pairs + [pair])
  {
  }

  lemma {:induction false} OffsetsAscend(s: string, ps: seq<Piece>)
    requires WellEncoded(s) && AscendingFrom(ps, Position(0, 0)) && AllPositive(ps)
    ensures PairsAscend(Offsets(s, ps))
  {
    if ps != [] {
      var n := |ps| - 1;
      var front, p := ps[..n], ps[n];
      OffsetsAscend(s, front);
      var last := OffsetsSnoc(s, ps);
      hide Find, WellEncoded, IsPair, Offsets, PairsAscend;
      if last != [] {
        PairsInOrder(s, p, p, last[0], last[0]);
        forall m | 0 <= m < |Offsets(s, front)|
          ensures Offsets(s, front)[m].1 <= last[0].0
        {
          var l := PairFrom(s, front, m);
          PairsInOrder(s, ps[l], p, Offsets(s, front)[m], last[0]);
        }
        AscendSnoc(Offsets(s, front), last[0]);
        assert last == [last[0]];
      } else {
        assert Offsets(s, ps) == Offsets(s, front);
      }
    }
  }

  // Every piece whose ends are found has its pair.
  lemma {:induction false} OffsetsComplete(s: string, ps: seq<Piece>, l: nat, pair: (nat, nat))
    requires AllPositive(ps) && l < |ps| && IsPair(s, ps[l], pair)
    ensures pair in Offsets(s, ps)
  {
    hide Find;
    assert Positive(ps[|ps| - 1]);
    if l < |ps| - 1 { OffsetsComplete(s, ps[..|ps| - 1], l, pair); }
  }

  // ---------- Semantic tokens ----------

  datatype Token = Token(deltaLine: int, deltaStart: int, length: int)

  // The token of a piece after one at the given position.
  function TokenFor(at: Position, p: Piece): Token {
    Token(p.start.line - at.line, p.start.character - (if p.start.line != at.line then 0 else at.character), p.end.character - p.start.character)
  }

  function StartBefore(ps: seq<Piece>, m: nat): Position
    requires m <= |ps|
  {
    if m == 0 then Position(0, 0) else ps[m - 1].start
  }

  // Every token is relative to the one before.
  predicate Encodes(data: seq<Token>, ps: seq<Piece>) {
    |data| == |ps| && forall m :: 0 <= m < |ps| ==> data[m] == TokenFor(StartBefore(ps, m), ps[m])
  }

  method EncodeTokens(ps: seq<Piece>) returns (data: seq<Token>)
    ensures Encodes(data, ps)
  {
    data := [];
    var line, column := 0, 0;
    for m := 0 to |ps|
      invariant |data| == m && Position(line, column) == StartBefore(ps, m)
      invariant forall k :: 0 <= k < m ==> data[k] == TokenFor(StartBefore(ps, k), ps[k])
    {
      var r := ps[m];
      ghost var at := StartBefore(ps, m);
      var deltaLine, deltaStart;
      if r.start.line != line { column := 0; }
      deltaLine, line := r.start.line - line, r.start.line;
      deltaStart, column := r.start.character - column, r.start.character;
      data := data + [Token(deltaLine, deltaStart, r.end.character - r.start.character)];
      assert data[m] == TokenFor(at, r);
    }
  }

  // How a client reads the tokens: lines and, within a line, starts are relative
  // to the token before. The start of the m-th token, counted from 1.
  function Decoded(data: seq<Token>, m: nat): Position
    requires m <= |data|
  {
    if m == 0 then Position(0, 0)
    else
      var at, d := Decoded(data, m - 1), data[m - 1];
      if d.deltaLine == 0 then Position(at.line, at.character + d.deltaStart) else Position(at.line + d.deltaLine, d.deltaStart)
  }

  // Decoding gives back the starts of the pieces.
  lemma {:induction false} DecodeInverts(data: seq<Token>, ps: seq<Piece>, m: nat)
    requires Encodes(data, ps) && m <= |ps|
    ensures Decoded(data, m) == StartBefore(ps, m)
  {
    if m > 0 {
      DecodeInverts(data, ps, m - 1);
      assert data[m - 1] == TokenFor(StartBefore(ps, m - 1), ps[m - 1]);
    }
  }

  // and, for a piece within one line, its end.
  lemma {:induction false} DecodeEnds(data: seq<Token>, ps: seq<Piece>, m: nat)
    requires Encodes(data, ps) && m < |ps| && ps[m].start.line == ps[m].end.line
    ensures var at := Decoded(data, m + 1); Position(at.line, at.character + data[m].length) == ps[m].end
  {
    DecodeInverts(data, ps, m + 1);
    assert data[m] == TokenFor(StartBefore(ps, m), ps[m]);
  }

  // For the scan line's output lines and starts only move forward, and pieces
  // within one line have positive lengths.
  lemma TokensForward(data: seq<Token>, ps: seq<Piece>, m: nat)
    requires Encodes(data, ps) && AscendingFrom(ps, Position(0, 0)) && m < |ps| && Positive(ps[m])
    ensures data[m].deltaLine >= 0 && data[m].deltaStart >= 0
    ensures ps[m].start.line == ps[m].end.line ==> data[m].length > 0
    ensures m > 0 && data[m].deltaLine == 0 && ps[m - 1].start.line == ps[m - 1].end.line ==> data[m].deltaStart >= data[m - 1].length
  {
    assert data[m] == TokenFor(StartBefore(ps, m), ps[m]);
    assert AtOrBefore(Position(0, 0), ps[m].start) && Before(ps[m].start, ps[m].end);
    if m > 0 {
      assert AtOrBefore(ps[m - 1].end, ps[m].start) && Before(ps[m - 1].start, ps[m - 1].end);
      assert data[m - 1] == TokenFor(StartBefore(ps, m - 1), ps[m - 1]);
    }
  }
}
