// An open file (src/working_files.cc): its buffer, its indexed lines, and the
// lazily computed line maps between them.
module WorkingFiles {
  import opened Indel
  import opened TextAlign
  import opened LineMapping
  import opened LineInjective
  import opened Positions
  import opened Index

  // ---------- Lines of a text ----------

  // The lines of content[last..], where no newline occurs in content[last..i].
  function LinesFrom(content: string, last: nat, i: nat): seq<string>
    requires last <= i <= |content|
    decreases |content| - i
  {
    if i == |content| then (if last < i then [content[last..]] else [])
    else if content[i] == '\n' then
      [content[last..LineEnd(content, last, i)]] + LinesFrom(content, i + 1, i + 1)
    else LinesFrom(content, last, i + 1)
  }

  // End of the line whose newline is at i, without a carriage return.
  function LineEnd(content: string, last: nat, i: nat): (e: nat)
    requires last <= i <= |content|
    ensures last <= e <= i
  {
    if last < i && content[i - 1] == '\r' then i - 1 else i
  }

  function Lines(content: string): seq<string> { LinesFrom(content, 0, 0) }

  method ToLines(c: string) returns (ret: seq<string>)
    ensures ret == Lines(c)
  {
    ret := [];
    var last := 0;
    for i := 0 to |c|
      invariant last <= i
      invariant last > 0 ==> c[last - 1] == '\n'
      invariant ret + LinesFrom(c, last, i) == Lines(c)
    {
      if c[i] == '\n' {
        var e := i - (if i > 0 && c[i - 1] == '\r' then 1 else 0);
        assert e == LineEnd(c, last, i);
        ret := ret + [c[last..e]];
        last := i + 1;
      }
    }
    if last < |c| {
      ret := ret + [c[last..]];
    }
  }

  // Lines joined again, each followed by a newline.
  function Unlines(lines: seq<string>): string {
    if lines == [] then "" else lines[0] + "\n" + Unlines(lines[1..])
  }

  // The text without the carriage returns right before a newline.
  function DropReturns(c: string): string {
    if c == "" then ""
    else if c[0] == '\r' && |c| > 1 && c[1] == '\n' then DropReturns(c[1..])
    else [c[0]] + DropReturns(c[1..])
  }

  lemma {:induction false} NothingDropped(c: string)
    requires '\n' !in c || '\r' !in c
    ensures DropReturns(c) == c
  {
    if c != "" { NothingDropped(c[1..]); }
  }

  // The first line of c, with its newline at k.
  lemma {:induction false} DropInLine(c: string, k: nat)
    requires k < |c| && c[k] == '\n' && '\n' !in c[..k]
    ensures DropReturns(c) == c[..LineEnd(c, 0, k)] + "\n" + DropReturns(c[k + 1..])
  {
    if k > 0 {
      forall l | 0 <= l < k
        ensures c[l] != '\n'
      {
        assert c[l] in c[..k];
      }
      assert c[1..][..k - 1] == c[1..k];
      DropInLine(c[1..], k - 1);
      assert c[1..][k..] == c[k + 1..];
    }
  }

  lemma UnlinesCons(line: string, lines: seq<string>)
    ensures Unlines([line] + lines) == line + "\n" + Unlines(lines)
  {
    assert ([line] + lines)[1..] == lines;
  }

  lemma CutLine(c: string, last: nat, i: nat)
    requires SameLine(c, last, i) && i < |c| && c[i] == '\n'
    ensures DropReturns(c[last..]) == c[last..LineEnd(c, last, i)] + "\n" + DropReturns(c[i + 1..])
  {
    DropInLine(c[last..], i - last);
    assert c[last..][i - last + 1..] == c[i + 1..];
  }

  // The lines joined again are the text without carriage returns before newlines,
  // and with a final newline.
  lemma {:induction false} LinesRoundTrip(c: string, last: nat, i: nat)
    requires SameLine(c, last, i)
    ensures Unlines(LinesFrom(c, last, i)) ==
            DropReturns(c[last..]) + if last == |c| || c[|c| - 1] == '\n' then "" else "\n"
    decreases |c| - i
  {
    if i == |c| {
      NothingDropped(c[last..]);
    } else if c[i] == '\n' {
      LinesRoundTrip(c, i + 1, i + 1);
      UnlinesCons(c[last..LineEnd(c, last, i)], LinesFrom(c, i + 1, i + 1));
      CutLine(c, last, i);
    } else {
      LinesRoundTrip(c, last, i + 1);
    }
  }

  // No line contains a newline.
  lemma {:induction false} LinesAreLines(c: string, last: nat, i: nat)
    requires SameLine(c, last, i)
    ensures forall l :: l in LinesFrom(c, last, i) ==> '\n' !in l
    decreases |c| - i
  {
    if i < |c| {
      if c[i] == '\n' { LinesAreLines(c, i + 1, i + 1); } else { LinesAreLines(c, last, i + 1); }
    }
  }

  // ---------- Line hashes ----------

  function HashesOf(hash: string -> int, lines: seq<string>): Hashes {
    seq(|lines|, i requires 0 <= i < |lines| => hash(lines[i]))
  }

  // The only line with hash h, or -1.
  function Sole(hs: Hashes, h: int): (r: int)
    ensures -1 <= r < |hs| && (h !in hs ==> r == -1)
  {
    if hs == [] then -1
    else
      var front := hs[..|hs| - 1];
      if hs[|hs| - 1] != h then Sole(front, h)
      else if h in front then -1
      else |hs| - 1
  }

  lemma {:induction false} SoleIsUnique(hs: Hashes, h: int, i: int)
    ensures i >= 0 ==> (Sole(hs, h) == i <==> Unique(hs, i) && hs[i] == h)
  {
    if hs != [] {
      var front, last := hs[..|hs| - 1], hs[|hs| - 1];
      SoleIsUnique(front, h, i);
      if Unique(hs, i) && hs[i] == h {
        if i < |hs| - 1 {
          assert hs[|hs| - 1] != hs[i];
          assert Unique(front, i);
        } else {
          assert h !in front;
        }
      }
      if 0 <= i < |hs| - 1 && Sole(hs, h) == i {
        assert Unique(front, i) && front[i] == h;
      }
    }
  }

  // The state of the first two loops of computeLineMapping after the lines hs.
  ghost predicate Counted(hs: Hashes, m: LineMap, table: map<int, int>) {
    && |m| == |hs|
    && (forall i :: 0 <= i < |hs| ==> m[i] == if Sole(hs, hs[i]) == i then i else -1)
    && (forall h :: h in table <==> h in hs)
    && (forall h :: h in table ==> table[h] == Sole(hs, h))
  }

  // For each line its index if its hash is unique, otherwise -1.
  method FindUnique(hash: string -> int, lines: seq<string>) returns (hashes: Hashes, m: LineMap, table: map<int, int>)
    ensures hashes == HashesOf(hash, lines)
    ensures Counted(hashes, m, table)
  {
    hide Counted;
    table := map[];
    hashes, m := [], [];
    CountedEmpty();
    var i := 0;
    while i < |lines|
      invariant i <= |lines| == |HashesOf(hash, lines)| && |m| == |hashes| == i
      invariant hashes == HashesOf(hash, lines)[..i]
      invariant Counted(hashes, m, table)
    {
      var h := hash(lines[i]);
      CountedStep(hashes, m, table, h);
      if h !in table {
        table := table[h := i];
        m := m + [i];
      } else {
        if table[h] >= 0 {
          m := m[table[h] := -1];
        }
        m := m + [-1];
        table := table[h := -1];
      }
      hashes := hashes + [h];
      i := i + 1;
    }
  }

  lemma CountedEmpty()
    ensures Counted([], [], map[])
  {
  }

  lemma SoleSnoc(hs: Hashes, h: int, g: int)
    ensures Sole(hs + [h], g) == if g != h then Sole(hs, g) else if h in hs then -1 else |hs|
  {
    assert (hs + [h])[..|hs|] == hs;
  }

  lemma CountedStep(hs: Hashes, m: LineMap, table: map<int, int>, h: int)
    requires Counted(hs, m, table)
    ensures |m| == |hs|
    ensures h !in table ==> Counted(hs + [h], m + [|hs|], table[h := |hs|])
    ensures h in table ==> -1 <= table[h] < |m|
    ensures h in table ==> Counted(hs + [h], (if table[h] >= 0 then m[table[h] := -1] else m) + [-1], table[h := -1])
  {
    var hs' := hs + [h];
    forall g
      ensures Sole(hs', g) == if g != h then Sole(hs, g) else if h in hs then -1 else |hs|
    {
      SoleSnoc(hs, h, g);
    }
    if h in table {
      var m' := (if table[h] >= 0 then m[table[h] := -1] else m) + [-1];
      forall i | 0 <= i < |hs'|
        ensures m'[i] == if Sole(hs', hs'[i]) == i then i else -1
      {
        SoleIsUnique(hs, h, i);
      }
    }
  }

  // ---------- Choosing a line ----------

  // What MyersDiff reports for two lines.
  function LineScore(a: string, b: string): (r: int)
    ensures r <= MAX_DIFF + 1
  {
    Min(if StrippedLength(a, b) <= 2 * MAX_COLUMN_ALIGN_SIZE then Dist(a, b) else Abs(|a| - |b|), MAX_DIFF + 1)
  }

  // best is the first line of lines[up..down] closest to needle, or up when
  // none is within MAX_DIFF.
  ghost predicate BestLine(needle: string, lines: seq<string>, up: int, down: int, best: int) {
    && 0 <= up <= best <= down < |lines|
    && (forall k :: up <= k <= down ==> LineScore(needle, lines[best]) <= LineScore(needle, lines[k]))
    && (forall k :: up <= k < best ==> LineScore(needle, lines[best]) < LineScore(needle, lines[k]))
  }

  // The image of the nearest confident line above (at or above from), or 0.
  function Above(m: LineMap, from: int): int
    requires from < |m|
    decreases from
  {
    if from < 0 then 0 else if m[from] >= 0 then m[from] else Above(m, from - 1)
  }

  // The image of the nearest confident line below, or the last line.
  function Below(m: LineMap, from: nat, last: int): int
    requires from <= |m|
    decreases |m| - from
  {
    if from == |m| then last else if m[from] >= 0 then m[from] else Below(m, from + 1, last)
  }

  // The line that findMatchingLine answers, and the column it leaves.
  ghost predicate MatchingLine(lines: seq<string>, m: LineMap, line: nat, column: Option<int>, others: seq<string>, isEnd: bool,
                               answer: Option<int>, column': Option<int>)
    requires line < |m| == |lines|
  {
    var up, down := Above(m, line - 1), Below(m, line + 1, |others| - 1);
    && (match answer
        case None => m[line] < 0 && up > down && column' == column
        case Some(best) =>
          && 0 <= best < |others|
          && (if m[line] >= 0 then best == m[line] else up <= down && BestLine(lines[line], others, up, down, best))
          && column'.Some? == column.Some?
          && (column.Some? ==> Aligned(lines[line], others[best], column.value, isEnd, column'.value)))
  }

  // ---------- Between which lines ----------

  // The nearest mapped line above, and below.
  predicate NearestAbove(m: LineMap, line: nat, k: int)
    requires line <= |m|
  {
    0 <= k < line && m[k] >= 0 && forall l :: k < l < line ==> m[l] < 0
  }

  predicate NearestBelow(m: LineMap, line: nat, k: int) {
    line < k < |m| && m[k] >= 0 && forall l :: line < l < k ==> m[l] < 0
  }

  // The lines to which an unmapped line may go: from the image of the nearest
  // mapped line above, or the first, to that of the nearest below, or the last.
  ghost predicate Bounds(m: LineMap, line: nat, size: nat, lo: int, hi: int)
    requires line < |m|
  {
    && (forall k :: NearestAbove(m, line, k) ==> lo == m[k])
    && ((forall k :: 0 <= k < line ==> m[k] < 0) ==> lo == 0)
    && (forall k :: NearestBelow(m, line, k) ==> hi == m[k])
    && ((forall k :: line < k < |m| ==> m[k] < 0) ==> hi == size - 1)
  }

  // Above and Below find them.
  lemma {:induction false} AboveIs(m: LineMap, line: nat) returns (k: int)
    requires line <= |m|
    ensures -1 <= k < line
    ensures if k >= 0 then NearestAbove(m, line, k) && Above(m, line - 1) == m[k]
            else (forall l :: 0 <= l < line ==> m[l] < 0) && Above(m, line - 1) == 0
  {
    if line == 0 {
      k := -1;
    } else if m[line - 1] >= 0 {
      k := line - 1;
    } else {
      k := AboveIs(m, line - 1);
    }
  }

  lemma {:induction false} BelowIs(m: LineMap, line: nat, from: nat, last: int) returns (k: int)
    requires line < from <= |m| && forall l :: line < l < from ==> m[l] < 0
    ensures line < k <= |m|
    ensures if k < |m| then NearestBelow(m, line, k) && Below(m, from, last) == m[k]
            else (forall l :: line < l < |m| ==> m[l] < 0) && Below(m, from, last) == last
    decreases |m| - from
  {
    if from == |m| || m[from] >= 0 {
      k := from;
    } else {
      k := BelowIs(m, line, from + 1, last);
    }
  }

  lemma BoundsAre(m: LineMap, line: nat, size: nat, lo: int, hi: int)
    requires line < |m| && Bounds(m, line, size, lo, hi)
    ensures lo == Above(m, line - 1) && hi == Below(m, line + 1, size - 1)
  {
    hide NearestAbove, NearestBelow, Above, Below;
    var above := AboveIs(m, line);
    var below := BelowIs(m, line, line + 1, size - 1);
  }

  // An unmapped line goes to the first of the closest lines between the images of
  // its mapped neighbours; nowhere exactly when these have crossed.
  lemma BetweenNeighbours(lines: seq<string>, m: LineMap, line: nat, column: Option<int>, others: seq<string>, isEnd: bool,
                          answer: Option<int>, column': Option<int>, lo: int, hi: int)
    requires line < |m| == |lines| && m[line] < 0 && Bounds(m, line, |others|, lo, hi)
    requires MatchingLine(lines, m, line, column, others, isEnd, answer, column')
    ensures answer.Some? <==> lo <= hi
    ensures answer.Some? ==> lo <= answer.value <= hi < |others| && 0 <= lo
    ensures answer.Some? ==> forall k :: lo <= k <= hi ==>
      if k < answer.value then LineScore(lines[line], others[answer.value]) < LineScore(lines[line], others[k])
      else LineScore(lines[line], others[answer.value]) <= LineScore(lines[line], others[k])
  {
    BoundsAre(m, line, |others|, lo, hi);
    hide LineScore, Aligned;
  }

  predicate ValidMap(m: LineMap, size: nat) {
    forall i :: 0 <= i < |m| ==> -1 <= m[i] < size
  }

  method ScoreLine(work: array<int>, needle: string, line: string) returns (dist: int)
    requires work.Length == 2 * MAX_COLUMN_ALIGN_SIZE + 2
    modifies work
    ensures dist == LineScore(needle, line)
  {
    dist := MyersDiff(work, needle, line, MAX_DIFF);
  }

  method ClosestLine(work: array<int>, needle: string, lines: seq<string>, up: int, down: int) returns (best: int)
    requires work.Length == 2 * MAX_COLUMN_ALIGN_SIZE + 2
    requires 0 <= up <= down < |lines|
    modifies work
    ensures BestLine(needle, lines, up, down, best)
  {
    hide LineScore;
    best := up;
    var bestDist := MAX_DIFF + 1;
    for i := up to down + 1
      invariant up <= best <= down && (if i == up then best == up && bestDist == MAX_DIFF + 1 else best < i)
      invariant i > up ==> bestDist == LineScore(needle, lines[best])
      invariant forall k :: up <= k < i ==> bestDist <= LineScore(needle, lines[k])
      invariant forall k :: up <= k < best ==> bestDist < LineScore(needle, lines[k])
    {
      var dist := ScoreLine(work, needle, lines[i]);
      if dist < bestDist {
        bestDist := dist;
        best := i;
      }
    }
  }

  method FindMatchingLine(work: array<int>, lines: seq<string>, m: LineMap, line: int, column: Option<int>, others: seq<string>, isEnd: bool)
    returns (answer: Option<int>, column': Option<int>)
    requires work.Length == 2 * MAX_COLUMN_ALIGN_SIZE + 2
    requires 0 <= line < |m| == |lines| && ValidMap(m, |others|)
    modifies work
    ensures MatchingLine(lines, m, line, column, others, isEnd, answer, column')
  {
    column' := column;
    if m[line] >= 0 {
      var ret := m[line];
      if column.Some? {
        var c := AlignColumn(lines[line], column.value, others[ret], isEnd);
        column' := Some(c);
      }
      return Some(ret), column';
    }
    var up, down := line - 1, line + 1;
    while up >= 0 && m[up] < 0
      invariant -1 <= up < line
      invariant Above(m, up) == Above(m, line - 1)
    {
      up := up - 1;
    }
    while down < |m| && m[down] < 0
      invariant line < down <= |m|
      invariant Below(m, down, |others| - 1) == Below(m, line + 1, |others| - 1)
    {
      down := down + 1;
    }
    up := if up < 0 then 0 else m[up];
    down := if down >= |m| then |others| - 1 else m[down];
    if up > down {
      return None, column;
    }
    var best := ClosestLine(work, lines[line], others, up, down);
    if column.Some? {
      var c := AlignColumn(lines[line], column.value, others[best], isEnd);
      column' := Some(c);
    }
    return Some(best), column';
  }

  // ---------- The working file ----------

  // The maps that a fresh computation yields for these lines.
  ghost predicate FreshMaps(hash: string -> int, indexLines: seq<string>, bufferLines: seq<string>,
                         m: LineMap, inverse: LineMap) {
    var a, b := HashesOf(hash, indexLines), HashesOf(hash, bufferLines);
    && |m| == |a|
    && (exists seed :: IsSeed(a, b, seed) && m == Extended(a, b, seed))
    && inverse == Inverse(m, |b|, |a|)
  }

  // There is exactly one such pair.
  lemma FreshMapsUnique(hash: string -> int, indexLines: seq<string>, bufferLines: seq<string>,
                        m: LineMap, inverse: LineMap, m': LineMap, inverse': LineMap)
    requires FreshMaps(hash, indexLines, bufferLines, m, inverse)
    requires FreshMaps(hash, indexLines, bufferLines, m', inverse')
    ensures m == m' && inverse == inverse'
  {
    var a, b := HashesOf(hash, indexLines), HashesOf(hash, bufferLines);
    var seed :| IsSeed(a, b, seed) && m == Extended(a, b, seed);
    var seed' :| IsSeed(a, b, seed') && m' == Extended(a, b, seed');
    SeedUnique(a, b, seed, seed');
  }

  datatype Change = Replace(start: Position, end: Position, text: string) | ReplaceAll(text: string)

  // The text after one change event.
  function Apply(content: string, change: Change): string {
    match change
    case ReplaceAll(text) => text
    case Replace(start, end, text) =>
      var i, j := Offset(content, start), Offset(content, end);
      if i <= j then content[..i] + text + content[j..] else content
  }

  function ApplyAll(content: string, changes: seq<Change>): string {
    if changes == [] then content else Apply(ApplyAll(content, changes[..|changes| - 1]), changes[|changes| - 1])
  }

  // A change keeps what comes before its start and after its end.
  lemma ApplyIs(content: string, start: Position, end: Position, text: string)
    requires 0 <= start.line && AtOrBefore(start, end)
    ensures var i, j, r := Offset(content, start), Offset(content, end), Apply(content, Replace(start, end, text));
      && i <= j <= |content| && |r| == i + |text| + |content| - j
      && r[..i] == content[..i] && r[i..i + |text|] == text && r[i + |text|..] == content[j..]
  {
    OffsetMonotone(content, start, end);
  }

  // The first change comes first.
  lemma {:induction false} AppliedInOrder(content: string, first: Change, changes: seq<Change>)
    ensures ApplyAll(content, [first] + changes) == ApplyAll(Apply(content, first), changes)
  {
    var all := [first] + changes;
    if changes == [] {
      assert all[..0] == [];
    } else {
      var n := |changes| - 1;
      assert all[..n + 1] == [first] + changes[..n];
      AppliedInOrder(content, first, changes[..n]);
    }
    hide Apply;
  }

  class WorkingFile {
    const hash: string -> int        // hashUsr
    const work: array<int>           // the static array of myersDiff
    var bufferContent: string
    var indexLines: seq<string>
    var bufferLines: seq<string>
    var indexToBuffer: LineMap
    var bufferToIndex: LineMap

    // The maps are cleared or those of a fresh computation.
    ghost predicate Valid()
      reads this
    {
      && work.Length == 2 * MAX_COLUMN_ALIGN_SIZE + 2
      && bufferLines == Lines(bufferContent)
      && ((indexToBuffer == [] && bufferToIndex == []) || FreshMaps(hash, indexLines, bufferLines, indexToBuffer, bufferToIndex))
    }

    constructor (hash: string -> int, content: string)
      ensures Valid() && bufferContent == content && indexLines == [] && this.hash == hash
      ensures fresh(work)
    {
      this.hash := hash;
      work := new int[2 * MAX_COLUMN_ALIGN_SIZE + 2];
      bufferContent := content;
      indexLines, indexToBuffer, bufferToIndex := [], [], [];
      bufferLines := [];
      new;
      OnBufferContentUpdated();
    }

    method SetIndexContent(content: string)
      requires Valid()
      modifies this`indexLines, this`indexToBuffer, this`bufferToIndex
      ensures Valid() && indexLines == Lines(content)
    {
      indexLines := ToLines(content);
      indexToBuffer, bufferToIndex := [], [];
    }

    method OnBufferContentUpdated()
      requires work.Length == 2 * MAX_COLUMN_ALIGN_SIZE + 2
      modifies this`bufferLines, this`indexToBuffer, this`bufferToIndex
      ensures Valid()
    {
      bufferLines := ToLines(bufferContent);
      indexToBuffer, bufferToIndex := [], [];
    }

    // The edits of one didChange notification, in order.
    method OnChange(changes: seq<Change>)
      requires Valid()
      requires forall c :: c in changes && c.Replace? ==> 0 <= c.start.line && AtOrBefore(c.start, c.end)
      modifies this
      ensures Valid() && bufferContent == ApplyAll(old(bufferContent), changes)
      ensures indexLines == old(indexLines)
    {
      ghost var start := bufferContent;
      for k := 0 to |changes|
        invariant Valid() && bufferContent == ApplyAll(start, changes[..k]) && indexLines == old(indexLines)
      {
        assert changes[..k + 1][..k] == changes[..k];
        assert changes[k] in changes;
        match changes[k] {
          case ReplaceAll(text) =>
            bufferContent := text;
          case Replace(from, to, text) =>
            var i := GetOffsetForPosition(from, bufferContent);
            var j := GetOffsetForPosition(to, bufferContent);
            OffsetMonotone(bufferContent, from, to);
            bufferContent := bufferContent[..i] + text + bufferContent[j..];
        }
        OnBufferContentUpdated();
      }
      assert changes[..|changes|] == changes;
    }

    // Variant of Heckel's diff on the line hashes.
    method ComputeLineMapping()
      requires Valid()
      modifies this`indexToBuffer, this`bufferToIndex
      ensures Valid() && FreshMaps(hash, indexLines, bufferLines, indexToBuffer, bufferToIndex)
    {
      var indexHashes, unique, _ := FindUnique(hash, indexLines);
      var bufferHashes, bufferUnique, table := FindUnique(hash, bufferLines);
      var m := AlignTwins(indexHashes, unique, bufferHashes, bufferUnique, table);
      ghost var seed := m;
      SeedSound(indexHashes, bufferHashes, seed);
      m := ExtendBothWays(indexHashes, bufferHashes, m);
      ExtendedSound(indexHashes, bufferHashes, seed);
      indexToBuffer := m;
      bufferToIndex := Invert(m, |bufferHashes|);
    }

    // Either cleared and recomputed here, or still those of a fresh computation.
    method EnsureMapping(needed: bool)
      requires Valid()
      requires !needed ==> indexToBuffer != [] || bufferToIndex != []
      modifies this`indexToBuffer, this`bufferToIndex
      ensures Valid() && FreshMaps(hash, indexLines, bufferLines, indexToBuffer, bufferToIndex)
    {
      if needed {
        ComputeLineMapping();
      }
    }

    // Answers what a fresh computation of the maps would answer; outside the index
    // only the end position maps.
    method GetBufferPosFromIndexPos(line: int, column: int, isEnd: bool) returns (answer: Option<int>, column': int)
      requires Valid()
      modifies this`indexToBuffer, this`bufferToIndex, work
      ensures Valid()
      ensures line == |indexLines| && column == 0 ==> answer == Some(|bufferContent|) && column' == column
      ensures !(0 <= line < |indexLines|) && !(line == |indexLines| && column == 0) ==> answer == None && column' == column
      ensures 0 <= line < |indexLines| ==>
        exists m, inverse :: FreshMaps(hash, indexLines, bufferLines, m, inverse)
          && MatchingLine(indexLines, m, line, Some(column), bufferLines, isEnd, answer, Some(column'))
    {
      column' := column;
      if line == |indexLines| && column == 0 {
        return Some(|bufferContent|), column;
      }
      if line < 0 || line >= |indexLines| {
        return None, column;
      }
      EnsureMapping(indexToBuffer == []);
      FreshMapsInRange(hash, indexLines, bufferLines, indexToBuffer, bufferToIndex);
      var c;
      answer, c := FindMatchingLine(work, indexLines, indexToBuffer, line, Some(column), bufferLines, isEnd);
      column' := c.value;
    }

    method GetIndexPosFromBufferPos(line: int, column: Option<int>, isEnd: bool) returns (answer: Option<int>, column': Option<int>)
      requires Valid()
      modifies this`indexToBuffer, this`bufferToIndex, work
      ensures Valid()
      ensures !(0 <= line < |bufferLines|) ==> answer == None && column' == column
      ensures 0 <= line < |bufferLines| ==>
        exists m, inverse :: FreshMaps(hash, indexLines, bufferLines, m, inverse)
          && MatchingLine(bufferLines, inverse, line, column, indexLines, isEnd, answer, column')
    {
      if line < 0 || line >= |bufferLines| {
        return None, column;
      }
      EnsureMapping(bufferToIndex == []);
      FreshMapsInRange(hash, indexLines, bufferLines, indexToBuffer, bufferToIndex);
      answer, column' := FindMatchingLine(work, bufferLines, bufferToIndex, line, column, indexLines, isEnd);
    }
  }

  lemma FreshMapsInRange(hash: string -> int, indexLines: seq<string>, bufferLines: seq<string>,
                         m: LineMap, inverse: LineMap)
    requires FreshMaps(hash, indexLines, bufferLines, m, inverse)
    ensures |m| == |indexLines| && ValidMap(m, |bufferLines|)
    ensures |inverse| == |bufferLines| && ValidMap(inverse, |indexLines|)
  {
    var a, b := HashesOf(hash, indexLines), HashesOf(hash, bufferLines);
    var seed :| IsSeed(a, b, seed) && m == Extended(a, b, seed);
    ExtendedSound(a, b, seed);
    forall j | 0 <= j < |b|
      ensures -1 <= inverse[j] < |a|
    {
      InverseGreatest(m, |b|, |a|, j);
    }
  }

  // Points lines that are unique on both sides at each other; drops the others.
  method AlignTwins(a: Hashes, unique: LineMap, b: Hashes, bUnique: LineMap, table: map<int, int>) returns (m: LineMap)
    requires (exists t :: Counted(a, unique, t)) && Counted(b, bUnique, table)
    ensures IsSeed(a, b, m)
  {
    m := unique;
    for i := 0 to |a|
      invariant |m| == |a|
      invariant forall k :: i <= k < |a| ==> m[k] == unique[k]
      invariant forall k :: 0 <= k < i ==> m[k] == Twin(a, b, k)
    {
      if m[i] >= 0 {
        var h := a[i];
        if h in table { SoleIsUnique(b, h, table[h]); }
        if h in table && table[h] >= 0 && bUnique[table[h]] >= 0 {
          m := m[i := table[h]];
        } else {
          m := m[i := -1];
        }
      }
    }
    forall i | 0 <= i < |a|
      ensures if m[i] >= 0 then Twins(a, b, i, m[i]) else m[i] == -1 && forall j :: !Twins(a, b, i, j)
    {
      TwinIsTwin(a, b, i);
    }
  }

  // The twin of line i, or -1.
  function Twin(a: Hashes, b: Hashes, i: int): int
    requires 0 <= i < |a|
  {
    if Sole(a, a[i]) == i then Sole(b, a[i]) else -1
  }

  lemma TwinIsTwin(a: Hashes, b: Hashes, i: int)
    requires 0 <= i < |a|
    ensures var j := Twin(a, b, i);
      if j >= 0 then Twins(a, b, i, j) else j == -1 && forall k :: !Twins(a, b, i, k)
  {
    SoleIsUnique(a, a[i], i);
    forall k
      ensures Twins(a, b, i, k) ==> Sole(a, a[i]) == i && Sole(b, a[i]) == k
    {
      SoleIsUnique(b, a[i], k);
    }
    SoleIsUnique(b, a[i], Sole(b, a[i]));
  }

  // Starting at the seeds, extends downwards and then upwards.
  method ExtendBothWays(a: Hashes, b: Hashes, seed: LineMap) returns (m: LineMap)
    requires Sound(a, b, seed)
    ensures m == Extended(a, b, seed)
  {
    m := seed;
    if |a| == 0 {
      return;
    }
    m := ExtendDownwards(a, b, seed);
    DownSound(a, b, seed, |a| - 1);
    m := ExtendUpwards(a, b, m);
  }

  method ExtendDownwards(a: Hashes, b: Hashes, seed: LineMap) returns (m: LineMap)
    requires Sound(a, b, seed) && a != []
    ensures m == Down(a, b, seed, |a| - 1)
  {
    m := seed;
    for i := 0 to |a| - 1
      invariant m == Down(a, b, seed, i)
    {
      DownSound(a, b, seed, i);
      var j := m[i];
      if 0 <= j && j + 1 < |b| && a[i + 1] == b[j + 1] {
        m := m[i + 1 := j + 1];
      }
    }
  }

  method ExtendUpwards(a: Hashes, b: Hashes, down: LineMap) returns (m: LineMap)
    requires Sound(a, b, down) && a != []
    ensures m == Up(a, b, down, 1)
  {
    m := down;
    var i := |a| - 1;
    while i > 0
      invariant 0 <= i < |a| && m == Up(a, b, down, i + 1)
    {
      UpSound(a, b, down, i + 1);
      var j := m[i];
      if 0 < j && a[i - 1] == b[j - 1] {
        m := m[i - 1 := j - 1];
      }
      i := i - 1;
    }
  }

  method Invert(m: LineMap, size: nat) returns (r: LineMap)
    requires ValidMap(m, size)
    ensures r == Inverse(m, size, |m|)
  {
    r := seq(size, _ => -1);
    for i := 0 to |m|
      invariant r == Inverse(m, size, i)
    {
      if m[i] >= 0 {
        r := r[m[i] := i];
      }
    }
  }

  // ---------- What the maps guarantee ----------

  // Mapped lines have equal hashes, and entry j of the inverse is the last line
  // mapped to j.
  lemma MapsSound(hash: string -> int, indexLines: seq<string>, bufferLines: seq<string>,
                         m: LineMap, inverse: LineMap, i: nat, j: nat)
    requires FreshMaps(hash, indexLines, bufferLines, m, inverse)
    requires i < |indexLines| && j < |bufferLines|
    ensures m[i] == -1 || (0 <= m[i] < |bufferLines| && hash(indexLines[i]) == hash(bufferLines[m[i]]))
    ensures inverse[j] == -1 || (0 <= inverse[j] < |indexLines| && m[inverse[j]] == j)
    ensures forall k :: inverse[j] < k < |indexLines| ==> m[k] != j
  {
    var a, b := HashesOf(hash, indexLines), HashesOf(hash, bufferLines);
    var seed :| IsSeed(a, b, seed) && m == Extended(a, b, seed);
    ExtendedSound(a, b, seed);
    InverseGreatest(m, |b|, |a|, j);
  }

  // Lines unique on both sides map to each other.
  lemma TwinsMapBothWays(hash: string -> int, indexLines: seq<string>, bufferLines: seq<string>,
                         m: LineMap, inverse: LineMap, i: nat, j: nat)
    requires FreshMaps(hash, indexLines, bufferLines, m, inverse)
    requires Twins(HashesOf(hash, indexLines), HashesOf(hash, bufferLines), i, j)
    ensures m[i] == j && inverse[j] == i
  {
    var a, b := HashesOf(hash, indexLines), HashesOf(hash, bufferLines);
    var seed :| IsSeed(a, b, seed) && m == Extended(a, b, seed);
    TwinsMapped(a, b, seed, i, j);
    ExtendedSound(a, b, seed);
    InverseGreatest(m, |b|, |a|, j);
    assert a[inverse[j]] == a[i];
  }

  // Line by line, a confident match carries over to equal neighbours.
  lemma NeighboursMap(hash: string -> int, indexLines: seq<string>, bufferLines: seq<string>,
                         m: LineMap, inverse: LineMap, i: nat)
    requires FreshMaps(hash, indexLines, bufferLines, m, inverse)
    requires i < |indexLines| && 0 <= m[i] < |bufferLines|
    ensures i + 1 < |indexLines| && m[i] + 1 < |bufferLines| && indexLines[i + 1] == bufferLines[m[i] + 1] ==> m[i + 1] >= 0
    ensures i > 0 && m[i] > 0 && indexLines[i - 1] == bufferLines[m[i] - 1] ==> m[i - 1] == m[i] - 1
  {
    var a, b := HashesOf(hash, indexLines), HashesOf(hash, bufferLines);
    var seed :| IsSeed(a, b, seed) && m == Extended(a, b, seed);
    ConfidenceSpreads(a, b, seed, i);
  }

  // An unchanged text with some unique line maps by the identity.
  lemma UnchangedTextMapsToItself(hash: string -> int, lines: seq<string>, m: LineMap, inverse: LineMap, u: nat, i: nat)
    requires FreshMaps(hash, lines, lines, m, inverse)
    requires Unique(HashesOf(hash, lines), u) && i < |lines|
    ensures m[i] == i && inverse[i] == i
  {
    var a := HashesOf(hash, lines);
    var seed :| IsSeed(a, a, seed) && m == Extended(a, a, seed);
    forall k | 0 <= k < |a|
      ensures m[k] == k
    {
      EqualTextsIdentity(a, seed, u, k);
    }
    InverseGreatest(m, |a|, |a|, i);
  }

  // Every mapped index line comes back from the buffer to itself if and only if the
  // runs of twins neighbouring in the buffer fit between them.
  lemma ReturnsIff(hash: string -> int, indexLines: seq<string>, bufferLines: seq<string>, m: LineMap, inverse: LineMap, seed: LineMap)
    requires FreshMaps(hash, indexLines, bufferLines, m, inverse)
    requires IsSeed(HashesOf(hash, indexLines), HashesOf(hash, bufferLines), seed)
    ensures ValidMap(m, |inverse|) && |seed| == |indexLines| && InBuffer(HashesOf(hash, bufferLines), seed)
    ensures (forall i :: 0 <= i < |m| && m[i] >= 0 ==> inverse[m[i]] == i)
       <==> RunsFit(HashesOf(hash, indexLines), HashesOf(hash, bufferLines), seed)
  {
    var a, b := HashesOf(hash, indexLines), HashesOf(hash, bufferLines);
    var seed' :| IsSeed(a, b, seed') && m == Extended(a, b, seed');
    SeedUnique(a, b, seed, seed');
    InverseReturnsIff(a, b, seed);
    FreshMapsInRange(hash, indexLines, bufferLines, m, inverse);
    hide Extended, RunsFit, IsSeed, Inverse;
  }
}
