// The scan line that makes overlapping highlights disjoint
// (computeSemanticTokens of src/message_handler.cc).
module ScanLine {
  import opened Positions

  predicate Before(p: Position, q: Position) { AtOrBefore(p, q) && p != q }

  // A highlighted occurrence of a symbol.
  datatype Occurrence = Occurrence(start: Position, end: Position, kind: int, symbol: int)

  // id is that of the occurrence for its start, and ~id for its end.
  datatype Event = Event(pos: Position, endPos: Position, id: int, kind: int, symbol: int)

  datatype Piece = Piece(start: Position, end: Position, kind: int, symbol: int)

  // Non-empty pieces, disjoint and ascending, from p on.
  predicate AscendingFrom(ps: seq<Piece>, p: Position) {
    && (forall m :: 0 <= m < |ps| ==> AtOrBefore(p, ps[m].start) && Before(ps[m].start, ps[m].end))
    && (forall m, l :: 0 <= m < l < |ps| ==> AtOrBefore(ps[m].end, ps[l].start))
  }

  predicate NonNegative(p: Position) { 0 <= p.line && 0 <= p.character }

  predicate Positive(p: Piece) { NonNegative(p.start) && NonNegative(p.end) }

  // ScanLineEvent::operator<
  predicate Less(a: Event, b: Event) {
    if a.pos != b.pos then Before(a.pos, b.pos)
    else if a.endPos != b.endPos then Before(b.endPos, a.endPos)
    else if a.kind != b.kind then a.kind < b.kind
    else a.symbol < b.symbol
  }

  predicate Sorted(es: seq<Event>) { forall j, k :: 0 <= j < k < |es| ==> !Less(es[k], es[j]) }

  function EventsOf(occs: seq<Occurrence>): (es: seq<Event>)
    ensures |es| == 2 * |occs|
  {
    if occs == [] then []
    else
      var n := |occs| - 1;
      var o := occs[n];
      EventsOf(occs[..n]) + [Event(o.start, o.end, n, o.kind, o.symbol), Event(o.end, o.end, -1 - n, o.kind, o.symbol)]
  }

  // ---------- The specification ----------

  // The start at k has been met before event i, its end has not.
  predicate Active(es: seq<Event>, i: nat, k: nat) {
    k < i <= |es| && es[k].id >= 0 && forall j :: 0 <= j < i ==> es[j].id != -1 - es[k].id
  }

  // The last active start before k, or -1.
  function LastActive(es: seq<Event>, i: nat, k: nat): (r: int)
    ensures -1 <= r < k
  {
    if k == 0 then -1 else if Active(es, i, k - 1) then k - 1 else LastActive(es, i, k - 1)
  }

  // The piece between events i - 1 and i, if any.
  function NextPiece(es: seq<Event>, i: nat): seq<Piece>
    requires i < |es|
  {
    var w := LastActive(es, i, i);
    if w >= 0 && es[i - 1].pos != es[i].pos then [Piece(es[i - 1].pos, es[i].pos, es[w].kind, es[w].symbol)] else []
  }

  // The pieces between the first i events.
  function Pieces(es: seq<Event>, i: nat): seq<Piece>
    requires i <= |es|
  {
    if i == 0 then [] else Pieces(es, i - 1) + NextPiece(es, i - 1)
  }

  lemma {:induction false} LastActiveIs(es: seq<Event>, i: nat, k: nat)
    requires i <= |es|
    ensures var w := LastActive(es, i, k);
      (w >= 0 ==> Active(es, i, w)) && forall j :: w < j < k ==> !Active(es, i, j)
  {
    if k > 0 && !Active(es, i, k - 1) { LastActiveIs(es, i, k - 1); }
  }

  // ---------- The algorithm ----------

  // The events array itself serves as the stack: the first top cells hold starts
  // that may still be active.
  ghost predicate Stack(es: seq<Event>, cells: seq<Event>, at: seq<nat>, i: nat) {
    && |at| <= i <= |es| == |cells|
    && (forall m :: 0 <= m < |at| ==> at[m] < i && cells[m] == es[at[m]] && es[at[m]].id >= 0)
    && (forall m, l :: 0 <= m < l < |at| ==> at[m] < at[l])
    && (forall k: nat :: Active(es, i, k) ==> k in at)
  }

  ghost predicate Marks(es: seq<Event>, deleted: seq<bool>, i: nat) {
    i <= |es| && forall d :: 0 <= d < |deleted| ==> (deleted[d] <==> exists j :: 0 <= j < i && es[j].id == -1 - d)
  }

  lemma PopDeleted(es: seq<Event>, cells: seq<Event>, at: seq<nat>, i: nat)
    requires Stack(es, cells, at, i) && at != [] && !Active(es, i, at[|at| - 1])
    ensures Stack(es, cells, at[..|at| - 1], i)
  {
    var n := |at| - 1;
    forall k: nat | Active(es, i, k)
      ensures k in at[..n]
    {
      var m :| 0 <= m < |at| && at[m] == k;
      assert at[..n][m] == k;
    }
  }

  // Once the top is active, it is the last active start.
  lemma TopIsLast(es: seq<Event>, cells: seq<Event>, at: seq<nat>, i: nat)
    requires Stack(es, cells, at, i) && (at != [] ==> Active(es, i, at[|at| - 1]))
    ensures LastActive(es, i, i) == if at == [] then -1 else at[|at| - 1]
  {
    LastActiveIs(es, i, i);
    var w := LastActive(es, i, i);
    if w >= 0 {
      assert w in at;
      var m :| 0 <= m < |at| && at[m] == w;
      assert at[m] <= at[|at| - 1];
    }
  }

  lemma AfterEvent(es: seq<Event>, i: nat, k: nat)
    requires i < |es| && Active(es, i + 1, k)
    ensures k == i || Active(es, i, k)
  {
  }

  lemma PushStart(es: seq<Event>, cells: seq<Event>, at: seq<nat>, i: nat)
    requires Stack(es, cells, at, i) && i < |es| && es[i].id >= 0 && |at| < |cells|
    ensures Stack(es, cells[|at| := es[i]], at + [i], i + 1)
  {
    var cells', at' := cells[|at| := es[i]], at + [i];
    forall k: nat | Active(es, i + 1, k)
      ensures k in at'
    {
      AfterEvent(es, i, k);
      if k == i { assert at'[|at|] == k; } else { assert k in at; }
    }
  }

  lemma SkipEnd(es: seq<Event>, cells: seq<Event>, at: seq<nat>, i: nat)
    requires Stack(es, cells, at, i) && i < |es| && es[i].id < 0
    ensures Stack(es, cells, at, i + 1)
  {
    forall k: nat | Active(es, i + 1, k)
      ensures k in at
    {
      AfterEvent(es, i, k);
    }
  }

  // There is a mark for every occurrence.
  predicate IdsBelow(es: seq<Event>, n: int) { forall k :: 0 <= k < |es| ==> -n <= es[k].id < n }

  // Takes ended occurrences off the stack.
  method PopEnded(events: array<Event>, deleted: array<bool>, top0: nat, i: nat, ghost es: seq<Event>, ghost at0: seq<nat>)
    returns (top: nat, ghost at: seq<nat>)
    requires top0 == |at0| && Stack(es, events[..], at0, i) && Marks(es, deleted[..], i)
    requires IdsBelow(es, deleted.Length)
    ensures top == |at| <= top0 && Stack(es, events[..], at, i)
    ensures LastActive(es, i, i) == if top == 0 then -1 else at[top - 1]
  {
    top, at := top0, at0;
    while top > 0 && deleted[events[top - 1].id]
      invariant top == |at| <= top0 && Stack(es, events[..], at, i)
      decreases top
    {
      TopMark(es, deleted[..], at[top - 1], i);
      PopDeleted(es, events[..], at, i);
      top, at := top - 1, at[..top - 1];
    }
    if top > 0 { TopMark(es, deleted[..], at[top - 1], i); }
    TopIsLast(es, events[..], at, i);
  }

  lemma TopCell(es: seq<Event>, cells: seq<Event>, at: seq<nat>, i: nat)
    requires Stack(es, cells, at, i)
    ensures |at| <= i <= |es| == |cells|
    ensures at != [] ==> cells[|at| - 1] == es[at[|at| - 1]]
  {
  }

  // The cells from i - 1 on have not been overwritten.
  predicate Unread(es: seq<Event>, cells: seq<Event>, i: nat) {
    |cells| == |es| && forall k :: 0 <= k < |es| && i <= k + 1 ==> cells[k] == es[k]
  }

  // Files away event i: a start is pushed, an end marks its occurrence.
  method FileEvent(events: array<Event>, deleted: array<bool>, top0: nat, i: nat, ghost es: seq<Event>, ghost at0: seq<nat>)
    returns (top: nat, ghost at: seq<nat>)
    requires top0 == |at0| && i < |es| && Stack(es, events[..], at0, i) && Marks(es, deleted[..], i) && Unread(es, events[..], i)
    requires IdsBelow(es, deleted.Length)
    modifies events, deleted
    ensures top == |at| && Stack(es, events[..], at, i + 1) && Marks(es, deleted[..], i + 1) && Unread(es, events[..], i + 1)
  {
    TopCell(es, events[..], at0, i);
    UnreadFacts(es, events[..], i);
    hide Stack, Marks, Unread;
    if events[i].id >= 0 {
      PushStart(es, events[..], at0, i);
      MarkStart(es, deleted[..], i);
      PushUnread(es, events[..], top0, i);
      events[top0] := events[i];
      top, at := top0 + 1, at0 + [i];
    } else {
      SkipEnd(es, events[..], at0, i);
      MarkEnd(es, deleted[..], i);
      UnreadNext(es, events[..], i);
      deleted[-1 - events[i].id] := true;
      top, at := top0, at0;
    }
  }

  // Attributes the range between the last two events to the top of the stack.
  method Attribute(events: array<Event>, top: nat, i: nat, ghost es: seq<Event>, ghost at: seq<nat>) returns (piece: seq<Piece>)
    requires top == |at| && i < |es| && Stack(es, events[..], at, i) && Unread(es, events[..], i)
    requires LastActive(es, i, i) == if top == 0 then -1 else at[top - 1]
    ensures piece == NextPiece(es, i)
  {
    TopCell(es, events[..], at, i);
    UnreadFacts(es, events[..], i);
    hide Stack, Unread, LastActive;
    if top > 0 && events[i - 1].pos != events[i].pos {
      piece := [Piece(events[i - 1].pos, events[i].pos, events[top - 1].kind, events[top - 1].symbol)];
    } else {
      piece := [];
    }
  }

  ghost predicate SweepInv(es: seq<Event>, cells: seq<Event>, deleted: seq<bool>, at: seq<nat>, top: nat, pieces: seq<Piece>, i: nat) {
    && top == |at| && Stack(es, cells, at, i) && Unread(es, cells, i) && Marks(es, deleted, i) && IdsBelow(es, |deleted|)
    && pieces == Pieces(es, i)
  }

  // One event.
  method SweepEvent(events: array<Event>, deleted: array<bool>, top0: nat, pieces0: seq<Piece>, i: nat, ghost es: seq<Event>, ghost at0: seq<nat>)
    returns (top: nat, pieces: seq<Piece>, ghost at: seq<nat>)
    requires i < |es| && SweepInv(es, events[..], deleted[..], at0, top0, pieces0, i)
    modifies events, deleted
    ensures SweepInv(es, events[..], deleted[..], at, top, pieces, i + 1)
  {
    hide Stack, Marks, LastActive, Unread, NextPiece, IdsBelow;
    top, at := PopEnded(events, deleted, top0, i, es, at0);
    var piece := Attribute(events, top, i, es, at);
    pieces := pieces0 + piece;
    top, at := FileEvent(events, deleted, top, i, es, at);
  }

  method Sweep(events: array<Event>, n: nat) returns (pieces: seq<Piece>)
    requires IdsBelow(events[..], n)
    modifies events
    ensures pieces == Pieces(old(events[..]), events.Length)
  {
    ghost var es := events[..];
    var deleted := new bool[n](_ => false);
    pieces := [];
    var top := 0;
    ghost var at: seq<nat> := [];
    SweepStart(es, deleted[..]);
    hide SweepInv, IdsBelow;
    for i := 0 to events.Length
      invariant SweepInv(es, events[..], deleted[..], at, top, pieces, i)
    {
      top, pieces, at := SweepEvent(events, deleted, top, pieces, i, es, at);
    }
    AllPieces(es, events[..], deleted[..], at, top, pieces);
  }

  lemma AllPieces(es: seq<Event>, cells: seq<Event>, deleted: seq<bool>, at: seq<nat>, top: nat, pieces: seq<Piece>)
    requires SweepInv(es, cells, deleted, at, top, pieces, |es|)
    ensures pieces == Pieces(es, |es|)
  {
  }

  lemma SweepStart(es: seq<Event>, deleted: seq<bool>)
    requires IdsBelow(es, |deleted|) && forall d :: 0 <= d < |deleted| ==> !deleted[d]
    ensures SweepInv(es, es, deleted, [], 0, [], 0)
  {
  }

  lemma UnreadFacts(es: seq<Event>, cells: seq<Event>, i: nat)
    requires Unread(es, cells, i) && i < |es|
    ensures cells[i] == es[i] && (i > 0 ==> cells[i - 1] == es[i - 1])
  {
  }

  lemma UnreadNext(es: seq<Event>, cells: seq<Event>, i: nat)
    requires Unread(es, cells, i)
    ensures Unread(es, cells, i + 1)
  {
  }

  // A start is pushed at or below the cell it is read from.
  lemma PushUnread(es: seq<Event>, cells: seq<Event>, top: nat, i: nat)
    requires Unread(es, cells, i) && top <= i < |es|
    ensures Unread(es, cells[top := es[i]], i + 1)
  {
  }

  lemma TopMark(es: seq<Event>, deleted: seq<bool>, k: nat, i: nat)
    requires Marks(es, deleted, i) && k < i && 0 <= es[k].id < |deleted|
    ensures deleted[es[k].id] <==> !Active(es, i, k)
  {
  }

  lemma MarkStart(es: seq<Event>, deleted: seq<bool>, i: nat)
    requires Marks(es, deleted, i) && i < |es| && es[i].id >= 0
    ensures Marks(es, deleted, i + 1)
  {
  }

  lemma MarkEnd(es: seq<Event>, deleted: seq<bool>, i: nat)
    requires Marks(es, deleted, i) && i < |es| && -|deleted| <= es[i].id < 0
    ensures Marks(es, deleted[-1 - es[i].id := true], i + 1)
  {
    var deleted' := deleted[-1 - es[i].id := true];
    forall d | 0 <= d < |deleted|
      ensures deleted'[d] <==> exists j :: 0 <= j < i + 1 && es[j].id == -1 - d
    {
      if d == -1 - es[i].id { assert es[i].id == -1 - d; }
    }
  }
}
