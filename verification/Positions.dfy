// Positions in a text: getOffsetForPosition (src/working_files.cc) and the
// offset-to-position cursor of replacementsToEdits
// (src/messages/textDocument_formatting.cc).  A text is a string of bytes; a
// character is a byte below 128, or a byte of at least 128 together with the
// continuation bytes (128 to 191) after it.
module Positions {

  datatype Position = Position(line: int, character: int)

  predicate AtOrBefore(p: Position, q: Position) {
    p.line < q.line || (p.line == q.line && p.character <= q.character)
  }

  predicate Multibyte(b: char) { b as int >= 128 }
  predicate Continuation(b: char) { 128 <= b as int < 192 }

  function SkipContinuation(s: string, i: nat): (r: nat)
    requires i <= |s|
    ensures i <= r <= |s|
    decreases |s| - i
  {
    if i < |s| && Continuation(s[i]) then SkipContinuation(s, i + 1) else i
  }

  // The start of the next character.
  function NextChar(s: string, i: nat): (r: nat)
    requires i < |s|
    ensures i < r <= |s|
  {
    if Multibyte(s[i]) then SkipContinuation(s, i + 1) else i + 1
  }

  // The offset just after the n-th newline from i on, or the end.
  function SkipLines(s: string, i: nat, n: int): (r: nat)
    requires i <= |s|
    ensures i <= r <= |s|
    decreases |s| - i
  {
    if n <= 0 || i == |s| then i
    else SkipLines(s, i + 1, if s[i] == '\n' then n - 1 else n)
  }

  // The offset n characters after i, not past the end of the line.
  function SkipChars(s: string, i: nat, n: int): (r: nat)
    requires i <= |s|
    ensures i <= r <= |s|
    decreases |s| - i
  {
    if n <= 0 || i == |s| || s[i] == '\n' then i
    else SkipChars(s, NextChar(s, i), n - 1)
  }

  function Offset(s: string, p: Position): (r: nat)
    ensures r <= |s|
  {
    SkipChars(s, SkipLines(s, 0, p.line), p.character)
  }

  method GetOffsetForPosition(pos: Position, content: string) returns (i: nat)
    ensures i == Offset(content, pos)
  {
    i := 0;
    var line := pos.line;
    while line > 0 && i < |content|
      invariant i <= |content|
      invariant SkipLines(content, i, line) == SkipLines(content, 0, pos.line)
      decreases |content| - i
    {
      if content[i] == '\n' {
        line := line - 1;
      }
      i := i + 1;
    }
    var character := pos.character;
    while character > 0 && i < |content| && content[i] != '\n'
      invariant i <= |content|
      invariant SkipChars(content, i, character) == Offset(content, pos)
      decreases |content| - i
    {
      i := i + 1;
      if Multibyte(content[i - 1]) {
        ghost var next := SkipContinuation(content, i);
        while i < |content| && Multibyte(content[i]) && content[i] as int < 192
          invariant i <= |content| && SkipContinuation(content, i) == next
          decreases |content| - i
        {
          i := i + 1;
        }
      }
      character := character - 1;
    }
  }

  // ---------- Monotonicity ----------

  // No newline in s[i..j].
  ghost predicate SameLine(s: string, i: int, j: int) {
    0 <= i <= j <= |s| && forall k :: i <= k < j ==> s[k] != '\n'
  }

  lemma {:induction false} SkipLinesComposes(s: string, i: nat, m: int, n: int)
    requires i <= |s| && m >= 0 && n >= 0
    ensures SkipLines(s, i, m + n) == SkipLines(s, SkipLines(s, i, m), n)
    decreases |s| - i
  {
    if m > 0 && i < |s| {
      SkipLinesComposes(s, i + 1, if s[i] == '\n' then m - 1 else m, n);
    }
  }

  lemma {:induction false} ContinuationStaysInLine(s: string, i: nat)
    requires i <= |s|
    ensures SameLine(s, i, SkipContinuation(s, i))
    decreases |s| - i
  {
    if i < |s| && Continuation(s[i]) { ContinuationStaysInLine(s, i + 1); }
  }

  lemma {:induction false} CharsStayInLine(s: string, i: nat, n: int)
    requires i <= |s|
    ensures SameLine(s, i, SkipChars(s, i, n))
    decreases |s| - i
  {
    if n > 0 && i < |s| && s[i] != '\n' {
      if Multibyte(s[i]) { ContinuationStaysInLine(s, i + 1); }
      CharsStayInLine(s, NextChar(s, i), n - 1);
    }
  }

  lemma {:induction false} MoreCharsNotBefore(s: string, i: nat, m: int, n: int)
    requires i <= |s| && m <= n
    ensures SkipChars(s, i, m) <= SkipChars(s, i, n)
    decreases |s| - i
  {
    if m > 0 && i < |s| && s[i] != '\n' { MoreCharsNotBefore(s, NextChar(s, i), m - 1, n - 1); }
  }

  // Skipping a line passes everything on the current one.
  lemma {:induction false} NextLineAfter(s: string, i: nat, j: nat, n: int)
    requires SameLine(s, i, j) && n > 0
    ensures j <= SkipLines(s, i, n)
    decreases |s| - i
  {
    if i < j { NextLineAfter(s, i + 1, j, n); }
  }

  // Offsets follow the order of positions.
  lemma OffsetMonotone(s: string, p: Position, q: Position)
    requires 0 <= p.line && AtOrBefore(p, q)
    ensures Offset(s, p) <= Offset(s, q)
  {
    var start := SkipLines(s, 0, p.line);
    if p.line == q.line {
      MoreCharsNotBefore(s, start, p.character, q.character);
    } else {
      SkipLinesComposes(s, 0, p.line, q.line - p.line);
      CharsStayInLine(s, start, p.character);
      NextLineAfter(s, start, SkipChars(s, start, p.character), q.line - p.line);
    }
  }

  // ---------- From offsets to positions ----------

  // p is reached from i in whole characters.
  predicate Boundary(s: string, i: nat, p: nat)
    decreases |s| - i
  {
    i == p || (i < |s| && Boundary(s, NextChar(s, i), p))
  }

  // The position of offset p, counted from offset i at position at.
  function PositionFrom(s: string, i: nat, at: Position, p: nat): Position
    decreases |s| - i
  {
    if i >= p || i >= |s| then at
    else PositionFrom(s, NextChar(s, i), if s[i] == '\n' then Position(at.line + 1, 0) else Position(at.line, at.character + 1), p)
  }

  lemma {:induction false} BoundaryInText(s: string, i: nat, p: nat)
    requires i <= |s| && Boundary(s, i, p)
    ensures i <= p <= |s|
    decreases |s| - i
  {
    if i != p { BoundaryInText(s, NextChar(s, i), p); }
  }

  // Where counting arrives after a whole number of characters, counting on
  // from there gives the same.
  lemma {:induction false} PositionComposes(s: string, i: nat, at: Position, p: nat, q: nat)
    requires i <= |s| && Boundary(s, i, p) && p <= q <= |s|
    ensures PositionFrom(s, i, at, q) == PositionFrom(s, p, PositionFrom(s, i, at, p), q)
    decreases |s| - i
  {
    BoundaryInText(s, i, p);
    if i != p {
      BoundaryInText(s, NextChar(s, i), p);
      PositionComposes(s, NextChar(s, i), if s[i] == '\n' then Position(at.line + 1, 0) else Position(at.line, at.character + 1), p, q);
    }
  }

  // at is a position from which Offset finds i, on the line starting at start.
  ghost predicate Locates(s: string, i: nat, at: Position, start: nat) {
    && 0 <= at.line && 0 <= at.character
    && start <= i <= |s|
    && start == SkipLines(s, 0, at.line)
    && SameLine(s, start, i)
    && Boundary(s, start, i)
    && CharCount(s, start, i) == at.character
  }

  function CharCount(s: string, i: nat, p: nat): nat
    decreases |s| - i
  {
    if i >= p || i >= |s| then 0 else 1 + CharCount(s, NextChar(s, i), p)
  }

  lemma {:induction false} SkipCharsCounts(s: string, i: nat, p: nat)
    requires i <= p <= |s| && Boundary(s, i, p) && SameLine(s, i, p)
    ensures SkipChars(s, i, CharCount(s, i, p)) == p
    decreases |s| - i
  {
    if i < p {
      BoundaryInText(s, NextChar(s, i), p);
      SkipCharsCounts(s, NextChar(s, i), p);
    }
  }

  lemma {:induction false} CharCountSnoc(s: string, i: nat, p: nat)
    requires i <= p < |s| && Boundary(s, i, p)
    ensures Boundary(s, i, NextChar(s, p)) && CharCount(s, i, NextChar(s, p)) == CharCount(s, i, p) + 1
    decreases |s| - i
  {
    if i < p {
      BoundaryInText(s, NextChar(s, i), p);
      CharCountSnoc(s, NextChar(s, i), p);
    }
  }

  lemma {:induction false} SkipToNewline(s: string, start: nat, i: nat)
    requires SameLine(s, start, i) && i < |s| && s[i] == '\n'
    ensures SkipLines(s, start, 1) == i + 1
    decreases |s| - start
  {
    if start < i { SkipToNewline(s, start + 1, i); }
  }

  lemma LocatesNext(s: string, i: nat, at: Position, start: nat) returns (at': Position, start': nat)
    requires i < |s| && Locates(s, i, at, start)
    ensures at' == if s[i] == '\n' then Position(at.line + 1, 0) else Position(at.line, at.character + 1)
    ensures Locates(s, NextChar(s, i), at', start')
  {
    if s[i] == '\n' {
      at', start' := Position(at.line + 1, 0), i + 1;
      SkipLinesComposes(s, 0, at.line, 1);
      SkipToNewline(s, start, i);
    } else {
      at', start' := Position(at.line, at.character + 1), start;
      CharCountSnoc(s, start, i);
      if Multibyte(s[i]) { ContinuationStaysInLine(s, i + 1); }
    }
  }

  lemma {:induction false} CountedPositionLocates(s: string, i: nat, at: Position, start: nat, p: nat) returns (start': nat)
    requires Locates(s, i, at, start) && i <= p <= |s| && Boundary(s, i, p)
    ensures Locates(s, p, PositionFrom(s, i, at, p), start')
    decreases |s| - i
  {
    start' := start;
    if i < p {
      BoundaryInText(s, NextChar(s, i), p);
      var at', start1 := LocatesNext(s, i, at, start);
      start' := CountedPositionLocates(s, NextChar(s, i), at', start1, p);
    }
  }

  // getOffsetForPosition inverts the cursor at every character boundary.
  lemma OffsetInvertsPosition(s: string, p: nat)
    requires p <= |s| && Boundary(s, 0, p)
    ensures Offset(s, PositionFrom(s, 0, Position(0, 0), p)) == p
  {
    var start := CountedPositionLocates(s, 0, Position(0, 0), 0, p);
    SkipCharsCounts(s, start, p);
  }

  // ---------- Replacements to edits ----------

  datatype Replacement = Replacement(offset: nat, length: nat, text: string)
  datatype TextEdit = TextEdit(start: Position, end: Position, newText: string)

  // As clang's Replacements: sorted, not overlapping, on character boundaries.
  predicate Ordered(code: string, repls: seq<Replacement>) {
    && (forall k :: 0 <= k < |repls| ==>
          var r := repls[k];
          r.offset + r.length <= |code| && Boundary(code, 0, r.offset) && Boundary(code, 0, r.offset + r.length))
    && (forall k, l :: 0 <= k < l < |repls| ==> repls[k].offset + repls[k].length <= repls[l].offset)
  }

  // Moves the cursor (i, at) on to offset p.
  method Move(code: string, i: nat, at: Position, p: nat) returns (i': nat, at': Position)
    requires i <= p <= |code| && Boundary(code, 0, i) && Boundary(code, 0, p)
    requires at == PositionFrom(code, 0, Position(0, 0), i)
    ensures i' == p && at' == PositionFrom(code, 0, Position(0, 0), p)
  {
    i' := i;
    var line, col := at.line, at.character;
    PositionComposes(code, 0, Position(0, 0), i, p);
    BoundariesConnect(code, 0, i, p);
    while i' < p
      invariant i <= i' <= p && Boundary(code, i', p)
      invariant PositionFrom(code, i', Position(line, col), p) == PositionFrom(code, i, at, p)
    {
      BoundaryInText(code, NextChar(code, i'), p);
      if code[i'] == '\n' {
        line, col := line + 1, 0;
      } else {
        if Multibyte(code[i']) {
          ghost var next := NextChar(code, i');
          i' := i' + 1;
          // the byte after the text is NUL, which stops the scan
          while i' < |code| && Continuation(code[i'])
            invariant i < i' <= |code| && SkipContinuation(code, i') == next
          {
            i' := i' + 1;
          }
          i' := i' - 1;
        }
        col := col + 1;
      }
      i' := i' + 1;
    }
    at' := Position(line, col);
  }

  // Two boundaries are a whole number of characters apart.
  lemma {:induction false} BoundariesConnect(s: string, i: nat, p: nat, q: nat)
    requires i <= |s| && Boundary(s, i, p) && Boundary(s, i, q) && p <= q
    ensures Boundary(s, p, q)
    decreases |s| - i
  {
    if i != p && i != q {
      BoundariesConnect(s, NextChar(s, i), p, q);
    } else if i == q {
      BoundaryInText(s, i, p);
    }
  }

  // Each edit denotes exactly the bytes of its replacement.
  method ReplacementsToEdits(code: string, repls: seq<Replacement>) returns (ret: seq<TextEdit>)
    requires Ordered(code, repls)
    ensures |ret| == |repls|
    ensures forall k :: 0 <= k < |repls| ==>
      && Offset(code, ret[k].start) == repls[k].offset
      && Offset(code, ret[k].end) == repls[k].offset + repls[k].length
      && ret[k].newText == repls[k].text
  {
    ret := [];
    var i, at := 0, Position(0, 0);
    for k := 0 to |repls|
      invariant i <= |code| && Boundary(code, 0, i) && at == PositionFrom(code, 0, Position(0, 0), i)
      invariant forall l :: k <= l < |repls| ==> i <= repls[l].offset
      invariant |ret| == k
      invariant forall l :: 0 <= l < k ==>
        && Offset(code, ret[l].start) == repls[l].offset
        && Offset(code, ret[l].end) == repls[l].offset + repls[l].length
        && ret[l].newText == repls[l].text
    {
      var r := repls[k];
      i, at := Move(code, i, at, r.offset);
      OffsetInvertsPosition(code, i);
      var start := at;
      i, at := Move(code, i, at, r.offset + r.length);
      OffsetInvertsPosition(code, i);
      ret := ret + [TextEdit(start, at, r.text)];
    }
  }
}
