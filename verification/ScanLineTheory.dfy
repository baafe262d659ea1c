// What the scan line computes (src/message_handler.cc): disjoint, ascending,
// non-empty pieces whose union is that of the occurrences, each attributed to
// the occurrence that starts last, ends first and has the greatest kind and id.
module ScanLineTheory {
  import opened Positions
  import opened ScanLine

  predicate Covers(o: Occurrence, x: Position) { AtOrBefore(o.start, x) && Before(x, o.end) }
  predicate InPiece(p: Piece, x: Position) { AtOrBefore(p.start, x) && Before(x, p.end) }

  function StartOf(occs: seq<Occurrence>, d: nat): Event
    requires d < |occs|
  {
    Event(occs[d].start, occs[d].end, d, occs[d].kind, occs[d].symbol)
  }

  function EndOf(occs: seq<Occurrence>, d: nat): Event
    requires d < |occs|
  {
    Event(occs[d].end, occs[d].end, -1 - d, occs[d].kind, occs[d].symbol)
  }

  // es are the events of occs, sorted.
  ghost predicate Scans(es: seq<Event>, occs: seq<Occurrence>) {
    Sorted(es) && multiset(es) == multiset(EventsOf(occs))
  }

  lemma {:induction false} EventsAre(occs: seq<Occurrence>)
    ensures forall e :: e in EventsOf(occs) <==> exists d :: 0 <= d < |occs| && (e == StartOf(occs, d) || e == EndOf(occs, d))
  {
    if occs != [] {
      var n := |occs| - 1;
      var front := occs[..n];
      EventsAre(front);
      assert forall d :: 0 <= d < n ==> StartOf(front, d) == StartOf(occs, d) && EndOf(front, d) == EndOf(occs, d);
      assert EventsOf(occs) == EventsOf(front) + [StartOf(occs, n), EndOf(occs, n)];
    }
  }

  lemma ScansAre(es: seq<Event>, occs: seq<Occurrence>)
    requires Scans(es, occs)
    ensures forall e :: e in es <==> exists d :: 0 <= d < |occs| && (e == StartOf(occs, d) || e == EndOf(occs, d))
  {
    EventsAre(occs);
    forall e
      ensures e in es <==> e in EventsOf(occs)
    {
      assert e in es <==> e in multiset(es);
      assert e in EventsOf(occs) <==> e in multiset(EventsOf(occs));
    }
  }

  lemma StartAt(es: seq<Event>, occs: seq<Occurrence>, k: nat)
    requires Scans(es, occs) && k < |es|
    ensures es[k].id >= 0 ==> es[k].id < |occs| && es[k] == StartOf(occs, es[k].id)
    ensures es[k].id < 0 ==> -1 - es[k].id < |occs| && es[k] == EndOf(occs, -1 - es[k].id)
  {
    ScansAre(es, occs);
    assert es[k] in es;
  }

  lemma EventsOccur(es: seq<Event>, occs: seq<Occurrence>, d: nat) returns (k: nat, j: nat)
    requires Scans(es, occs) && d < |occs|
    ensures k < |es| && es[k] == StartOf(occs, d)
    ensures j < |es| && es[j] == EndOf(occs, d)
  {
    ScansAre(es, occs);
    assert StartOf(occs, d) in es && EndOf(occs, d) in es;
    k :| 0 <= k < |es| && es[k] == StartOf(occs, d);
    j :| 0 <= j < |es| && es[j] == EndOf(occs, d);
  }

  lemma PosSorted(es: seq<Event>, j: nat, k: nat)
    requires Sorted(es) && j <= k < |es|
    ensures AtOrBefore(es[j].pos, es[k].pos)
  {
    if j < k { assert !Less(es[k], es[j]); }
  }

  // ---------- Disjoint, ascending, non-empty ----------

  predicate InOrderUpTo(ps: seq<Piece>, limit: Position) {
    && (forall m :: 0 <= m < |ps| ==> Before(ps[m].start, ps[m].end) && AtOrBefore(ps[m].end, limit))
    && (forall m, l :: 0 <= m < l < |ps| ==> AtOrBefore(ps[m].end, ps[l].start))
  }

  lemma {:induction false} PiecesInOrder(es: seq<Event>, i: nat)
    requires Sorted(es) && 0 < i <= |es|
    ensures InOrderUpTo(Pieces(es, i), es[i - 1].pos)
  {
    hide LastActive, Sorted;
    if i == 1 {
      assert Pieces(es, 1) == Pieces(es, 0) + NextPiece(es, 0);
      assert LastActive(es, 0, 0) == -1;
    } else {
      PiecesInOrder(es, i - 1);
      PosSorted(es, i - 2, i - 1);
      ExtendOrder(Pieces(es, i - 1), NextPiece(es, i - 1), es[i - 2].pos, es[i - 1].pos);
    }
  }

  lemma ExtendOrder(ps: seq<Piece>, next: seq<Piece>, a: Position, b: Position)
    requires InOrderUpTo(ps, a) && AtOrBefore(a, b)
    requires |next| <= 1 && (next != [] ==> next[0].start == a && next[0].end == b && a != b)
    ensures InOrderUpTo(ps + next, b)
  {
  }

  // The output is non-empty piece by piece, disjoint and ascending.
  lemma PiecesDisjoint(es: seq<Event>)
    requires Sorted(es)
    ensures var ps := Pieces(es, |es|);
      && (forall m :: 0 <= m < |ps| ==> Before(ps[m].start, ps[m].end))
      && (forall m, l :: 0 <= m < l < |ps| ==> AtOrBefore(ps[m].end, ps[l].start))
  {
    if es != [] { PiecesInOrder(es, |es|); }
  }

  // ---------- Coverage and attribution ----------

  // Between two events the active starts are exactly the occurrences that cover
  // every position there.
  lemma ActiveCovers(es: seq<Event>, occs: seq<Occurrence>, i: nat, k: nat, x: Position)
    requires Scans(es, occs) && 0 < i < |es| && k < |es| && es[k].id >= 0 && es[k].id < |occs|
    requires AtOrBefore(es[i - 1].pos, x) && Before(x, es[i].pos)
    ensures Active(es, i, k) <==> Covers(occs[es[k].id], x)
  {
    var d := es[k].id;
    StartAt(es, occs, k);
    var k', j := EventsOccur(es, occs, d);
    if Covers(occs[d], x) {
      if k >= i { PosSorted(es, i, k); }
      forall l | 0 <= l < i
        ensures es[l].id != -1 - d
      {
        StartAt(es, occs, l);
        PosSorted(es, l, i - 1);
      }
    }
    if Active(es, i, k) {
      PosSorted(es, k, i - 1);
      assert j >= i;
      PosSorted(es, i, j);
    }
  }

  // Of two occurrences covering a position, o is shown rather than d: it starts
  // later, or with the same start ends earlier, or with the same range has the
  // greater kind, or symbol.
  predicate Overrides(o: Occurrence, d: Occurrence) {
    && AtOrBefore(d.start, o.start)
    && (d.start == o.start ==> AtOrBefore(o.end, d.end))
    && (d.start == o.start && d.end == o.end ==> d.kind <= o.kind)
    && (d.start == o.start && d.end == o.end && d.kind == o.kind ==> d.symbol <= o.symbol)
  }

  // The event order puts an occurrence after those it overrides.
  lemma NotLessOverrides(occs: seq<Occurrence>, o: nat, d: nat)
    requires o < |occs| && d < |occs|
    ensures !Less(StartOf(occs, o), StartOf(occs, d)) <==> Overrides(occs[o], occs[d])
  {
  }

  // The owner of the piece between two events covers it, and overrides every
  // occurrence covering it.
  lemma Attribution(es: seq<Event>, occs: seq<Occurrence>, i: nat, x: Position)
    requires Scans(es, occs) && 0 < i < |es| && AtOrBefore(es[i - 1].pos, x) && Before(x, es[i].pos)
    ensures var w := LastActive(es, i, i);
      if w < 0 then forall d :: 0 <= d < |occs| ==> !Covers(occs[d], x)
      else
        var o := es[w].id;
        && 0 <= o < |occs| && es[w] == StartOf(occs, o) && Covers(occs[o], x)
        && forall d :: 0 <= d < |occs| && Covers(occs[d], x) ==> Overrides(occs[o], occs[d])
  {
    var w := LastActive(es, i, i);
    LastActiveIs(es, i, i);
    if w >= 0 {
      StartAt(es, occs, w);
      ActiveCovers(es, occs, i, w, x);
    }
    forall d | 0 <= d < |occs| && Covers(occs[d], x)
      ensures w >= 0 && Overrides(occs[es[w].id], occs[d])
    {
      var k, j := EventsOccur(es, occs, d);
      ActiveCovers(es, occs, i, k, x);
      assert k <= w;
      assert !Less(es[w], es[k]) by { if k == w { NotLess(es[w]); } }
      NotLessOverrides(occs, es[w].id, d);
    }
  }

  lemma NotLess(e: Event)
    ensures !Less(e, e)
  {
  }

  lemma {:induction false} PieceFrom(es: seq<Event>, n: nat, m: nat) returns (i: nat)
    requires n <= |es| && m < |Pieces(es, n)|
    ensures i < n && NextPiece(es, i) == [Pieces(es, n)[m]]
  {
    if m < |Pieces(es, n - 1)| {
      i := PieceFrom(es, n - 1, m);
    } else {
      i := n - 1;
    }
  }

  lemma {:induction false} PieceIn(es: seq<Event>, n: nat, i: nat) returns (m: nat)
    requires n <= |es| && i < n && NextPiece(es, i) != []
    ensures m < |Pieces(es, n)| && NextPiece(es, i) == [Pieces(es, n)[m]]
  {
    if i == n - 1 {
      m := |Pieces(es, n - 1)|;
    } else {
      m := PieceIn(es, n - 1, i);
    }
  }

  lemma NextPieceFacts(es: seq<Event>, i: nat)
    requires Sorted(es) && i < |es|
    ensures NextPiece(es, i) != [] ==> (
      var w := LastActive(es, i, i);
      0 < i && w >= 0 && NextPiece(es, i) == [Piece(es[i - 1].pos, es[i].pos, es[w].kind, es[w].symbol)])
    ensures NextPiece(es, i) == [] && 0 < i ==> LastActive(es, i, i) < 0 || es[i - 1].pos == es[i].pos
  {
  }

  // A position between two events lies in a gap between neighbouring events.
  lemma {:induction false} FindGap(es: seq<Event>, lo: nat, hi: nat, x: Position) returns (i: nat)
    requires lo < hi < |es| && AtOrBefore(es[lo].pos, x) && Before(x, es[hi].pos)
    ensures lo < i <= hi && AtOrBefore(es[i - 1].pos, x) && Before(x, es[i].pos)
    decreases hi - lo
  {
    if lo + 1 == hi {
      i := hi;
    } else if Before(x, es[hi - 1].pos) {
      i := FindGap(es, lo, hi - 1, x);
    } else {
      i := hi;
    }
  }

  // The occurrence o covers x and overrides all others that do.
  predicate Wins(occs: seq<Occurrence>, o: nat, x: Position) {
    && o < |occs| && Covers(occs[o], x)
    && forall d :: 0 <= d < |occs| && Covers(occs[d], x) ==> Overrides(occs[o], occs[d])
  }

  // Every position of a piece is covered, and its symbol is that of the winner.
  lemma PieceIsOwned(es: seq<Event>, occs: seq<Occurrence>, m: nat, x: Position)
    requires Scans(es, occs) && m < |Pieces(es, |es|)| && InPiece(Pieces(es, |es|)[m], x)
    ensures exists o: nat :: Wins(occs, o, x) && occs[o].kind == Pieces(es, |es|)[m].kind && occs[o].symbol == Pieces(es, |es|)[m].symbol
  {
    hide Pieces, NextPiece, LastActive;
    var i := PieceFrom(es, |es|, m);
    NextPieceFacts(es, i);
    Attribution(es, occs, i, x);
    var o := es[LastActive(es, i, i)].id;
    assert Wins(occs, o, x);
  }

  // Every covered position lies in a piece.
  lemma CoveredHasPiece(es: seq<Event>, occs: seq<Occurrence>, d: nat, x: Position)
    requires Scans(es, occs) && d < |occs| && Covers(occs[d], x)
    ensures exists m :: 0 <= m < |Pieces(es, |es|)| && InPiece(Pieces(es, |es|)[m], x)
  {
    hide Pieces, NextPiece, LastActive;
    var k, j := EventsOccur(es, occs, d);
    if j <= k { PosSorted(es, j, k); }
    var i := FindGap(es, k, j, x);
    Attribution(es, occs, i, x);
    NextPieceFacts(es, i);
    var m := PieceIn(es, |es|, i);
    assert InPiece(Pieces(es, |es|)[m], x);
  }

  // ---------- The whole computation ----------

  // Two events for every occurrence.
  method BuildEvents(occs: seq<Occurrence>) returns (es: seq<Event>)
    ensures es == EventsOf(occs)
  {
    es := [];
    for id := 0 to |occs|
      invariant es == EventsOf(occs[..id])
    {
      var o := occs[id];
      assert occs[..id + 1][..id] == occs[..id];
      es := es + [Event(o.start, o.end, id, o.kind, o.symbol), Event(o.end, o.end, -1 - id, o.kind, o.symbol)];
    }
    assert occs[..|occs|] == occs;
  }

  lemma IdsInRange(es: seq<Event>, occs: seq<Occurrence>)
    requires Scans(es, occs)
    ensures IdsBelow(es, |occs|)
  {
    forall k | 0 <= k < |es|
      ensures -|occs| <= es[k].id < |occs|
    {
      StartAt(es, occs, k);
    }
  }

  predicate PieceThere(ps: seq<Piece>, x: Position) { exists m :: 0 <= m < |ps| && InPiece(ps[m], x) }
  predicate OccurrenceThere(occs: seq<Occurrence>, x: Position) { exists d :: 0 <= d < |occs| && Covers(occs[d], x) }

  predicate InText(occs: seq<Occurrence>) { forall d :: 0 <= d < |occs| ==> NonNegative(occs[d].start) && NonNegative(occs[d].end) }

  lemma PiecePositive(es: seq<Event>, occs: seq<Occurrence>, m: nat)
    requires Scans(es, occs) && InText(occs) && m < |Pieces(es, |es|)|
    ensures Positive(Pieces(es, |es|)[m])
  {
    var i := PieceFrom(es, |es|, m);
    NextPieceFacts(es, i);
    StartAt(es, occs, i - 1);
    StartAt(es, occs, i);
  }

  // From the events sorted in any way that respects their order.
  method MakeDisjoint(ghost occs: seq<Occurrence>, n: nat, events: array<Event>) returns (pieces: seq<Piece>)
    requires n == |occs| && Scans(events[..], occs)
    modifies events
    ensures forall m :: 0 <= m < |pieces| ==> Before(pieces[m].start, pieces[m].end)
    ensures forall m, l :: 0 <= m < l < |pieces| ==> AtOrBefore(pieces[m].end, pieces[l].start)
    ensures forall x :: PieceThere(pieces, x) <==> OccurrenceThere(occs, x)
    ensures forall m, x :: 0 <= m < |pieces| && InPiece(pieces[m], x) ==>
      exists o: nat :: Wins(occs, o, x) && occs[o].kind == pieces[m].kind && occs[o].symbol == pieces[m].symbol
    ensures InText(occs) ==> AscendingFrom(pieces, Position(0, 0)) && forall m :: 0 <= m < |pieces| ==> Positive(pieces[m])
  {
    ghost var es := events[..];
    IdsInRange(es, occs);
    pieces := Sweep(events, n);
    PiecesDisjoint(es);
    if InText(occs) {
      forall m | 0 <= m < |pieces|
        ensures Positive(pieces[m])
      {
        PiecePositive(es, occs, m);
      }
    }
    hide Pieces, Scans, AtOrBefore, Wins;
    forall m, x | 0 <= m < |pieces| && InPiece(pieces[m], x)
      ensures exists o: nat :: Wins(occs, o, x) && occs[o].kind == pieces[m].kind && occs[o].symbol == pieces[m].symbol
    {
      PieceIsOwned(es, occs, m, x);
    }
    hide InPiece, Covers, PieceThere, OccurrenceThere;
    forall x
      ensures PieceThere(pieces, x) <==> OccurrenceThere(occs, x)
    {
      SameCoverage(es, occs, x);
    }
  }

  // The union of the pieces is the union of the occurrences.
  lemma SameCoverage(es: seq<Event>, occs: seq<Occurrence>, x: Position)
    requires Scans(es, occs)
    ensures PieceThere(Pieces(es, |es|), x) <==> OccurrenceThere(occs, x)
  {
    hide Pieces, Scans, InPiece, Covers;
    var ps := Pieces(es, |es|);
    if m :| 0 <= m < |ps| && InPiece(ps[m], x) {
      PieceIsOwned(es, occs, m, x);
      var o: nat :| Wins(occs, o, x) && occs[o].kind == ps[m].kind && occs[o].symbol == ps[m].symbol;
    }
    if d :| 0 <= d < |occs| && Covers(occs[d], x) {
      CoveredHasPiece(es, occs, d, x);
    }
  }
}
