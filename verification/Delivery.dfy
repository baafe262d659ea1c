// From pushing to applying: the two classes of the on_indexed queue
// (src/threaded_queue.hh, src/pipeline.cc). Updates within a class keep their
// order, urgent ones may overtake others; as long as no update overtakes an
// earlier one of its own file, the database sees an in-order run.
module Delivery {
  import opened Index
  import opened Sums
  import opened Delta
  import opened Occurrences
  import opened Rebuild
  import opened History
  import opened Pipeline
  import opened Queues

  // Indices into the log of pushed updates: those waiting in the two classes,
  // and those applied, in order.
  datatype Queue = Queue(pushed: nat, urgent: seq<nat>, normal: seq<nat>, applied: seq<nat>)

  datatype Event = Push(priority: bool) | Pop

  predicate CanPop(q: Queue) { q.urgent != [] || q.normal != [] }

  function Front(q: Queue): nat
    requires CanPop(q)
  {
    if q.urgent != [] then q.urgent[0] else q.normal[0]
  }

  function Next(q: Queue, e: Event): Queue
    requires e.Pop? ==> CanPop(q)
  {
    match e
    case Push(priority) =>
      if priority then q.(pushed := q.pushed + 1, urgent := q.urgent + [q.pushed])
      else q.(pushed := q.pushed + 1, normal := q.normal + [q.pushed])
    case Pop =>
      var i := Front(q);
      if q.urgent != [] then q.(urgent := q.urgent[1..], applied := q.applied + [i])
      else q.(normal := q.normal[1..], applied := q.applied + [i])
  }

  // An update of the same file pushed earlier still waits when this one is taken.
  predicate Overtakes(q: Queue, items: seq<Item>)
    requires CanPop(q) && Front(q) < |items|
  {
    exists k :: 0 <= k < |q.normal| && q.normal[k] < Front(q) && q.normal[k] < |items|
      && items[q.normal[k]].current.path == items[Front(q)].current.path
  }

  predicate Ascending(s: seq<nat>) { forall a, b :: 0 <= a < b < |s| ==> s[a] < s[b] }

  predicate Waits(q: Queue, i: nat) { i in q.urgent || i in q.normal }

  // Every pushed update is in exactly one place; classes are in push order.
  predicate Sorted(q: Queue) {
    && Ascending(q.urgent) && Ascending(q.normal)
    && (forall a, b :: 0 <= a < b < |q.applied| ==> q.applied[a] != q.applied[b])
    && (forall i :: i in q.urgent ==> i < q.pushed && i !in q.normal && i !in q.applied)
    && (forall i :: i in q.normal ==> i < q.pushed && i !in q.applied)
    && (forall i :: i in q.applied ==> i < q.pushed)
    && (forall i: nat :: i < q.pushed ==> i in q.applied || Waits(q, i))
  }

  predicate SamePath(items: seq<Item>, i: nat, j: nat) {
    i < |items| && j < |items| && items[i].current.path == items[j].current.path
  }

  // Files see their updates in push order, without gaps.
  ghost predicate PathOrder(q: Queue, items: seq<Item>) {
    && q.pushed <= |items|
    && (forall a, b :: 0 <= a < b < |q.applied| && SamePath(items, q.applied[a], q.applied[b]) ==> q.applied[a] < q.applied[b])
    && (forall i, j: nat :: i in q.applied && Waits(q, j) && SamePath(items, i, j) ==> i < j)
  }

  function AppliedItems(q: Queue, items: seq<Item>): seq<Item>
    requires forall i :: i in q.applied ==> i < |items|
  {
    seq(|q.applied|, k requires 0 <= k < |q.applied| => assert q.applied[k] in q.applied; items[q.applied[k]])
  }

  // ---------- The shared queue ----------

  // The queue object, holding indices into the log, is in the state q.
  ghost predicate IsAt(onIndexed: ThreadedQueue<nat>, q: Queue)
    reads onIndexed
  {
    onIndexed.Valid() && onIndexed.priority == q.urgent && onIndexed.queue == q.normal
  }

  lemma SameEnd<T>(a: seq<T>, b: seq<T>, c: seq<T>)
    requires a + b == a + c
    ensures b == c
  {
    assert b == (a + b)[|a|..] && c == (a + c)[|a|..];
  }

  method PushIndexed(onIndexed: ThreadedQueue<nat>, ghost q: Queue, i: nat, priority: bool)
    requires IsAt(onIndexed, q) && i == q.pushed
    modifies onIndexed
    ensures IsAt(onIndexed, Next(q, Push(priority)))
  {
    onIndexed.PushBack(i, priority);
    ghost var a, b := onIndexed.poppedPriority, onIndexed.poppedQueue;
    assert a + old(onIndexed.priority) + [i] == a + (old(onIndexed.priority) + [i]);
    assert b + old(onIndexed.queue) + [i] == b + (old(onIndexed.queue) + [i]);
    SameEnd(a, onIndexed.priority, Next(q, Push(priority)).urgent);
    SameEnd(b, onIndexed.queue, Next(q, Push(priority)).normal);
  }

  // The main thread takes the update the model takes.
  method TakeIndexed(onIndexed: ThreadedQueue<nat>, ghost q: Queue) returns (r: Option<nat>)
    requires IsAt(onIndexed, q)
    modifies onIndexed
    ensures r.Some? <==> CanPop(q)
    ensures r.Some? ==> r.value == Front(q) && IsAt(onIndexed, Next(q, Pop))
    ensures r.None? ==> IsAt(onIndexed, q)
  {
    r := onIndexed.TryPopFront();
    ghost var a, b := old(onIndexed.poppedPriority), old(onIndexed.poppedQueue);
    if r.Some? {
      if q.urgent != [] {
        assert a + [r.value] + onIndexed.priority == a + ([r.value] + onIndexed.priority);
        SameEnd(a, [r.value] + onIndexed.priority, q.urgent);
        SameEnd(b, onIndexed.queue, q.normal);
      } else {
        assert b + [r.value] + onIndexed.queue == b + ([r.value] + onIndexed.queue);
        SameEnd(b, [r.value] + onIndexed.queue, q.normal);
        SameEnd(a, onIndexed.priority, q.urgent);
      }
    } else {
      SameEnd(a, onIndexed.priority, q.urgent);
      SameEnd(b, onIndexed.queue, q.normal);
    }
  }

  // ---------- The last version of a path ----------

  predicate IsLast(cs: seq<IndexFile>, p: string, j: nat) {
    j < |cs| && cs[j].path == p && forall k :: j < k < |cs| ==> cs[k].path != p
  }

  lemma {:induction false} LatestIs(cs: seq<IndexFile>, p: string, j: nat)
    ensures IsLast(cs, p, j) ==> p in Latest(cs) && Latest(cs)[p] == cs[j]
    ensures (forall k :: 0 <= k < |cs| ==> cs[k].path != p) ==> p !in Latest(cs)
  {
    if cs != [] {
      var front := cs[..|cs| - 1];
      LatestIs(front, p, j);
      if IsLast(cs, p, j) && j < |front| {
        assert front[j] == cs[j];
        assert IsLast(front, p, j);
      }
    }
  }

  lemma {:induction false} LastExists(cs: seq<IndexFile>, p: string) returns (j: nat)
    requires p in Latest(cs)
    ensures IsLast(cs, p, j)
  {
    if cs[|cs| - 1].path == p {
      j := |cs| - 1;
    } else {
      j := LastExists(cs[..|cs| - 1], p);
    }
  }

  // ---------- One step of the queue ----------

  lemma AscendingParts(s: seq<nat>, i: nat)
    requires Ascending(s)
    ensures (forall j :: j in s ==> j < i) ==> Ascending(s + [i])
    ensures s != [] ==> Ascending(s[1..]) && forall j :: j in s <==> j == s[0] || j in s[1..]
    ensures s != [] ==> s[0] !in s[1..]
  {
    if s != [] { assert s == [s[0]] + s[1..]; }
    assert forall a :: 0 <= a < |s| ==> s[a] in s;
  }

  lemma PushSorted(q: Queue, priority: bool)
    requires Sorted(q)
    ensures Sorted(Next(q, Push(priority)))
  {
    AscendingParts(q.urgent, q.pushed);
    AscendingParts(q.normal, q.pushed);
    hide Ascending;
  }

  lemma PopSorted(q: Queue)
    requires Sorted(q) && CanPop(q)
    ensures Sorted(Next(q, Pop))
  {
    AscendingParts(q.urgent, 0);
    AscendingParts(q.normal, 0);
    hide Ascending;
  }

  lemma PushOrder(q: Queue, priority: bool, items: seq<Item>)
    requires Sorted(q) && PathOrder(q, items) && q.pushed < |items|
    ensures PathOrder(Next(q, Push(priority)), items)
  {
    var q' := Next(q, Push(priority));
    forall j: nat
      ensures Waits(q', j) ==> j == q.pushed || Waits(q, j)
    {
    }
    hide Waits;
  }

  // Nothing of the same file that waits was pushed before the front.
  lemma FrontIsFirst(q: Queue, items: seq<Item>, j: nat)
    requires Sorted(q) && PathOrder(q, items) && CanPop(q) && Front(q) < |items| && !Overtakes(q, items)
    requires Waits(q, j) && j < |items| && SamePath(items, j, Front(q))
    ensures Front(q) <= j
  {
    if j in q.urgent {
      var k :| 0 <= k < |q.urgent| && q.urgent[k] == j;
    } else {
      var k :| 0 <= k < |q.normal| && q.normal[k] == j;
    }
  }

  lemma StillWaits(q: Queue, j: nat)
    requires Sorted(q) && CanPop(q)
    ensures Waits(Next(q, Pop), j) <==> Waits(q, j) && j != Front(q)
  {
    AscendingParts(q.urgent, 0);
    AscendingParts(q.normal, 0);
    hide Ascending;
  }

  lemma FrontWaits(q: Queue)
    requires CanPop(q)
    ensures Waits(q, Front(q))
  {
  }

  lemma PopOrder(q: Queue, items: seq<Item>)
    requires Sorted(q) && PathOrder(q, items) && CanPop(q) && Front(q) < |items| && !Overtakes(q, items)
    ensures PathOrder(Next(q, Pop), items)
  {
    var q', f := Next(q, Pop), Front(q);
    FrontWaits(q);
    forall j: nat
      ensures Waits(q', j) <==> Waits(q, j) && j != f
      ensures Waits(q, j) && SamePath(items, j, f) ==> f <= j
    {
      StillWaits(q, j);
      if Waits(q, j) && SamePath(items, j, f) { FrontIsFirst(q, items, j); }
    }
    assert q'.applied == q.applied + [f] && q'.pushed == q.pushed;
    hide Sorted, Overtakes, Waits, Next, Front;
    forall a, b | 0 <= a < b < |q'.applied| && SamePath(items, q'.applied[a], q'.applied[b])
      ensures q'.applied[a] < q'.applied[b]
    {
      if b == |q.applied| { assert q.applied[a] in q.applied; }
    }
  }

  // Applied updates of the front's file were pushed before it.
  lemma AppliedEarlier(q: Queue, items: seq<Item>, b: nat)
    requires PathOrder(q, items) && CanPop(q) && b < |q.applied| && SamePath(items, q.applied[b], Front(q))
    ensures q.applied[b] < Front(q)
  {
    FrontWaits(q);
    assert q.applied[b] in q.applied;
  }

  lemma NoneAfter(q: Queue, items: seq<Item>, a: nat, b: nat)
    requires Sorted(q) && PathOrder(q, items) && CanPop(q) && Front(q) < |items|
    requires a < b < |q.applied| && SamePath(items, q.applied[a], Front(q))
    requires IsLast(Currents(items)[..Front(q)], items[Front(q)].current.path, q.applied[a])
    ensures q.applied[b] < |items| && items[q.applied[b]].current.path != items[Front(q)].current.path
  {
    var i, f := q.applied[b], Front(q);
    assert i in q.applied;
    var cs := Currents(items)[..f];
    if SamePath(items, i, f) { AppliedEarlier(q, items, b); }
    if q.applied[a] < i < f { assert cs[i] == items[i].current; }
  }

  // What the applied updates leave for the file of the front is exactly what it
  // starts from.
  lemma FrontVersion(q: Queue, items: seq<Item>)
    requires Sorted(q) && PathOrder(q, items) && CanPop(q) && Front(q) < |items| && !Overtakes(q, items)
    ensures var f := Front(q); var p := items[f].current.path;
      VersionOf(Latest(Currents(AppliedItems(q, items))), p) == VersionOf(Latest(Currents(items)[..f]), p)
  {
    var f := Front(q);
    var p, before, done := items[f].current.path, Currents(items)[..f], Currents(AppliedItems(q, items));
    hide Overtakes, Latest, Sorted, PathOrder, Front, CanPop;
    if p in Latest(before) {
      var j := LastExists(before, p);
      LatestIs(before, p, j);
      AppliedBefore(q, items, j);
      var a :| 0 <= a < |q.applied| && q.applied[a] == j;
      forall b | a < b < |done|
        ensures done[b].path != p
      {
        NoneAfter(q, items, a, b);
      }
      LatestIs(done, p, a);
    } else {
      forall b | 0 <= b < |done|
        ensures done[b].path != p
      {
        assert q.applied[b] in q.applied;
        if SamePath(items, q.applied[b], f) { AppliedEarlier(q, items, b); }
        if q.applied[b] < f { NoLastBefore(before, p, q.applied[b]); }
      }
      LatestIs(done, p, 0);
    }
  }

  lemma {:induction false} NoLastBefore(cs: seq<IndexFile>, p: string, k: nat)
    requires p !in Latest(cs) && k < |cs|
    ensures cs[k].path != p
  {
    if k < |cs| - 1 { NoLastBefore(cs[..|cs| - 1], p, k); }
  }

  lemma AppliedBefore(q: Queue, items: seq<Item>, j: nat)
    requires Sorted(q) && PathOrder(q, items) && CanPop(q) && Front(q) < |items| && !Overtakes(q, items)
    requires j < Front(q) && SamePath(items, j, Front(q))
    ensures j in q.applied
  {
    FrontWaits(q);
    if Waits(q, j) { FrontIsFirst(q, items, j); }
  }

  // ---------- Runs of the queue ----------

  // The log items is pushed front to back while updates are taken and applied.
  ghost predicate IsDelivery(items: seq<Item>, qs: seq<Queue>, es: seq<Event>) {
    && |qs| == |es| + 1 && qs[0] == Queue(0, [], [], [])
    && forall i :: 0 <= i < |es| ==>
         && (if es[i].Pop? then CanPop(qs[i]) else qs[i].pushed < |items|)
         && qs[i + 1] == Next(qs[i], es[i])
  }

  ghost predicate NoOvertaking(items: seq<Item>, qs: seq<Queue>, es: seq<Event>) {
    forall i :: 0 <= i < |es| && i < |qs| && es[i].Pop? && CanPop(qs[i]) && Front(qs[i]) < |items| ==> !Overtakes(qs[i], items)
  }

  ghost predicate Delivered(q: Queue, items: seq<Item>) {
    && Sorted(q) && PathOrder(q, items)
    && InOrder(Updates(AppliedItems(q, items)), Currents(AppliedItems(q, items)))
  }

  lemma InBounds(q: Queue, items: seq<Item>)
    requires Sorted(q) && PathOrder(q, items)
    ensures forall i :: i in q.applied ==> i < |items|
    ensures CanPop(q) ==> Front(q) < |items|
  {
    if CanPop(q) { FrontWaits(q); }
  }

  lemma AppliedSnoc(q: Queue, items: seq<Item>)
    requires CanPop(q) && Front(q) < |items| && forall i :: i in q.applied ==> i < |items|
    ensures forall i :: i in Next(q, Pop).applied ==> i < |items|
    ensures AppliedItems(Next(q, Pop), items) == AppliedItems(q, items) + [items[Front(q)]]
  {
  }

  lemma PushDelivers(q: Queue, priority: bool, items: seq<Item>)
    requires Delivered(q, items) && q.pushed < |items|
    ensures Delivered(Next(q, Push(priority)), items)
  {
    hide Sorted, PathOrder, InOrder;
    PushSorted(q, priority);
    PushOrder(q, priority, items);
    InBounds(q, items);
    assert AppliedItems(Next(q, Push(priority)), items) == AppliedItems(q, items);
  }

  lemma PopDelivers(q: Queue, items: seq<Item>)
    requires InOrder(Updates(items), Currents(items))
    requires Delivered(q, items) && CanPop(q) && (Front(q) < |items| ==> !Overtakes(q, items))
    ensures Delivered(Next(q, Pop), items)
  {
    InBounds(q, items);
    var f := Front(q);
    var done := AppliedItems(q, items);
    FrontDelta(items, f);
    hide Sorted, PathOrder, InOrder, Overtakes, Front, CanPop, Next, IsDelta, AppliedItems, Latest, Updates, Currents;
    PopSorted(q);
    PopOrder(q, items);
    FrontVersion(q, items);
    AppliedSnoc(q, items);
    VersionIsLastPushed(done, items[f].current.path);
    InOrderSnoc(done, items[f]);
  }

  lemma FrontDelta(items: seq<Item>, f: nat)
    requires InOrder(Updates(items), Currents(items)) && f < |items|
    ensures IsDelta(items[f].update, VersionOf(Latest(Currents(items)[..f]), items[f].current.path), items[f].current)
  {
    hide IsDelta, Latest;
    assert Updates(items)[f] == items[f].update;
  }

  lemma VersionIsLastPushed(items: seq<Item>, p: string)
    ensures OrEmpty(p, LastPushed(items, p)) == VersionOf(Latest(Currents(items)), p)
  {
  }

  lemma {:induction false} DeliveryInv(items: seq<Item>, qs: seq<Queue>, es: seq<Event>, n: nat)
    requires InOrder(Updates(items), Currents(items)) && IsDelivery(items, qs, es) && NoOvertaking(items, qs, es) && n < |qs|
    ensures Delivered(qs[n], items)
  {
    hide InOrder, Delivered, Next, Overtakes;
    if n == 0 {
      NothingDelivered(items);
    } else {
      DeliveryInv(items, qs, es, n - 1);
      match es[n - 1]
      case Push(priority) => PushDelivers(qs[n - 1], priority, items);
      case Pop => PopDelivers(qs[n - 1], items);
    }
  }

  lemma NothingDelivered(items: seq<Item>)
    ensures Delivered(Queue(0, [], [], []), items)
  {
  }

  // Without overtaking, what is applied is an in-order run.
  lemma DeliveredInOrder(items: seq<Item>, qs: seq<Queue>, es: seq<Event>, n: nat)
    requires InOrder(Updates(items), Currents(items)) && IsDelivery(items, qs, es) && NoOvertaking(items, qs, es) && n < |qs|
    ensures forall i :: i in qs[n].applied ==> i < |items|
    ensures InOrder(Updates(AppliedItems(qs[n], items)), Currents(AppliedItems(qs[n], items)))
  {
    DeliveryInv(items, qs, es, n);
    hide IsDelivery, NoOvertaking, InOrder, Sorted, PathOrder;
    InBounds(qs[n], items);
  }

  // ---------- When nothing is overtaken ----------

  lemma {:induction false} SortedInv(items: seq<Item>, qs: seq<Queue>, es: seq<Event>, n: nat)
    requires IsDelivery(items, qs, es) && n < |qs|
    ensures Sorted(qs[n]) && qs[n].pushed <= |items|
  {
    hide Sorted;
    if n == 0 {
      NothingDelivered([]);
      hide *;
    } else {
      SortedInv(items, qs, es, n - 1);
      match es[n - 1]
      case Push(priority) => PushSorted(qs[n - 1], priority);
      case Pop => PopSorted(qs[n - 1]);
    }
  }

  lemma {:induction false} PathOrderInv(items: seq<Item>, qs: seq<Queue>, es: seq<Event>, n: nat)
    requires IsDelivery(items, qs, es) && NoOvertaking(items, qs, es) && n < |qs|
    ensures PathOrder(qs[n], items)
  {
    hide PathOrder, Overtakes, Next, Sorted;
    if n == 0 {
      NothingOrdered(items);
    } else {
      PathOrderInv(items, qs, es, n - 1);
      SortedInv(items, qs, es, n - 1);
      match es[n - 1]
      case Push(priority) => PushOrder(qs[n - 1], priority, items);
      case Pop =>
        InBounds(qs[n - 1], items);
        PopOrder(qs[n - 1], items);
    }
  }

  lemma NothingOrdered(items: seq<Item>)
    ensures PathOrder(Queue(0, [], [], []), items)
  {
  }

  // A delivery in which the update at i is pushed with the priority pri[i].
  ghost predicate Schedule(items: seq<Item>, pri: seq<bool>, qs: seq<Queue>, es: seq<Event>) {
    && |pri| == |items| && IsDelivery(items, qs, es)
    && forall i :: 0 <= i < |es| && es[i].Push? ==> es[i].priority == pri[qs[i].pushed]
  }

  // No file is pushed urgent after it was pushed normal.
  predicate NeverPromoted(items: seq<Item>, pri: seq<bool>)
    requires |pri| == |items|
  {
    forall i, j :: 0 <= i < j < |items| && items[i].current.path == items[j].current.path ==> pri[i] || !pri[j]
  }

  predicate InClass(q: Queue, pri: seq<bool>) {
    && q.pushed <= |pri|
    && (forall i :: i in q.urgent ==> i < |pri| && pri[i])
    && (forall i :: i in q.normal ==> i < |pri| && !pri[i])
  }

  lemma {:induction false} InClassInv(items: seq<Item>, pri: seq<bool>, qs: seq<Queue>, es: seq<Event>, n: nat)
    requires Schedule(items, pri, qs, es) && n < |qs|
    ensures InClass(qs[n], pri)
  {
    if n > 0 {
      InClassInv(items, pri, qs, es, n - 1);
      hide InClass, Next;
      match es[n - 1]
      case Push(_) => PushInClass(qs[n - 1], pri, items);
      case Pop => PopInClass(qs[n - 1], pri);
    }
  }

  lemma PushInClass(q: Queue, pri: seq<bool>, items: seq<Item>)
    requires InClass(q, pri) && q.pushed < |items| == |pri|
    ensures InClass(Next(q, Push(pri[q.pushed])), pri)
  {
  }

  lemma PopInClass(q: Queue, pri: seq<bool>)
    requires InClass(q, pri) && CanPop(q)
    ensures InClass(Next(q, Pop), pri)
  {
  }

  lemma NotPromotedNotOvertaken(q: Queue, items: seq<Item>, pri: seq<bool>)
    requires |pri| == |items| && NeverPromoted(items, pri)
    requires Sorted(q) && InClass(q, pri) && CanPop(q) && Front(q) < |items|
    ensures !Overtakes(q, items)
  {
    if q.urgent == [] {
      assert forall k :: 0 < k < |q.normal| ==> q.normal[0] < q.normal[k];
    }
  }

  lemma ExtendSchedule(items: seq<Item>, pri: seq<bool>, qs: seq<Queue>, es: seq<Event>, e: Event)
    requires Schedule(items, pri, qs, es)
    requires var q := qs[|es|]; if e.Pop? then CanPop(q) else q.pushed < |items| && e.priority == pri[q.pushed]
    ensures Schedule(items, pri, qs + [Next(qs[|es|], e)], es + [e])
  {
    hide Next;
  }

  // Pushes the first n updates, taking every urgent one at once.
  lemma {:induction false} Eager(items: seq<Item>, pri: seq<bool>, n: nat) returns (qs: seq<Queue>, es: seq<Event>)
    requires n <= |items| == |pri|
    ensures Schedule(items, pri, qs, es)
    ensures qs[|es|].pushed == n && qs[|es|].urgent == [] && forall i :: 0 <= i < n && !pri[i] ==> i in qs[|es|].normal
  {
    if n == 0 {
      qs, es := [Queue(0, [], [], [])], [];
    } else {
      qs, es := Eager(items, pri, n - 1);
      ExtendSchedule(items, pri, qs, es, Push(pri[n - 1]));
      qs, es := qs + [Next(qs[|es|], Push(pri[n - 1]))], es + [Push(pri[n - 1])];
      if pri[n - 1] {
        ExtendSchedule(items, pri, qs, es, Pop);
        qs, es := qs + [Next(qs[|es|], Pop)], es + [Pop];
      }
    }
  }

  // The urgent update at j is next, and all normal ones before it still wait.
  lemma UrgentWaits(items: seq<Item>, pri: seq<bool>, j: nat) returns (qs: seq<Queue>, es: seq<Event>)
    requires j < |items| == |pri| && pri[j]
    ensures Schedule(items, pri, qs, es) && CanPop(qs[|es|]) && Front(qs[|es|]) == j && qs[|es|].urgent == [j] && qs[|es|].pushed == j + 1
    ensures forall i :: 0 <= i < j && !pri[i] ==> i in qs[|es|].normal
  {
    qs, es := Eager(items, pri, j);
    ExtendSchedule(items, pri, qs, es, Push(true));
    qs, es := qs + [Next(qs[|es|], Push(true))], es + [Push(true)];
  }

  // A file pushed urgent after it was pushed normal is overtaken in some schedule.
  lemma PromotedOvertakes(items: seq<Item>, pri: seq<bool>, i: nat, j: nat) returns (qs: seq<Queue>, es: seq<Event>)
    requires i < j < |items| == |pri| && items[i].current.path == items[j].current.path && !pri[i] && pri[j]
    ensures Schedule(items, pri, qs, es) && !NoOvertaking(items, qs, es)
  {
    qs, es := UrgentWaits(items, pri, j);
    var n, q := |es|, qs[|es|];
    ExtendSchedule(items, pri, qs, es, Pop);
    qs, es := qs + [Next(q, Pop)], es + [Pop];
    assert es[n].Pop? && qs[n] == q && Overtakes(q, items);
  }

  // Whatever the timing, no update overtakes one of its file, if and only if no
  // file is pushed urgent after it was pushed normal.
  lemma NoOvertakingIff(items: seq<Item>, pri: seq<bool>)
    requires |pri| == |items|
    ensures (forall qs, es :: Schedule(items, pri, qs, es) ==> NoOvertaking(items, qs, es)) <==> NeverPromoted(items, pri)
  {
    if NeverPromoted(items, pri) {
      forall qs, es | Schedule(items, pri, qs, es)
        ensures NoOvertaking(items, qs, es)
      {
        ScheduleNotOvertaken(items, pri, qs, es);
      }
    } else {
      var i, j :| 0 <= i < j < |items| && items[i].current.path == items[j].current.path && !(pri[i] || !pri[j]);
      var qs, es := PromotedOvertakes(items, pri, i, j);
    }
  }

  lemma ScheduleNotOvertaken(items: seq<Item>, pri: seq<bool>, qs: seq<Queue>, es: seq<Event>)
    requires Schedule(items, pri, qs, es) && NeverPromoted(items, pri)
    ensures NoOvertaking(items, qs, es)
  {
    hide Next, NeverPromoted, InClass, Sorted, Overtakes;
    forall i | 0 <= i < |es| && i < |qs| && es[i].Pop? && CanPop(qs[i]) && Front(qs[i]) < |items|
      ensures !Overtakes(qs[i], items)
    {
      SortedInv(items, qs, es, i);
      InClassInv(items, pri, qs, es, i);
      NotPromotedNotOvertaken(qs[i], items, pri);
    }
  }

  // Takes everything that still waits.
  lemma Drain(items: seq<Item>, pri: seq<bool>, qs0: seq<Queue>, es0: seq<Event>) returns (qs: seq<Queue>, es: seq<Event>)
    requires Schedule(items, pri, qs0, es0)
    ensures Schedule(items, pri, qs, es) && !CanPop(qs[|es|]) && qs[|es|].pushed == qs0[|es0|].pushed
    ensures qs0[|es0|].applied <= qs[|es|].applied
    decreases |qs0[|es0|].urgent| + |qs0[|es0|].normal|
  {
    var q := qs0[|es0|];
    if CanPop(q) {
      ExtendSchedule(items, pri, qs0, es0, Pop);
      qs, es := Drain(items, pri, qs0 + [Next(q, Pop)], es0 + [Pop]);
    } else {
      qs, es := qs0, es0;
    }
  }

  // Each file's updates have been applied in push order.
  ghost predicate InPushOrder(q: Queue, items: seq<Item>) {
    forall a, b :: 0 <= a < b < |q.applied| && SamePath(items, q.applied[a], q.applied[b]) ==> q.applied[a] < q.applied[b]
  }

  // In the end an update that was overtaken is applied after the one that overtook it.
  lemma PromotedReorders(items: seq<Item>, pri: seq<bool>, i: nat, j: nat) returns (qs: seq<Queue>, es: seq<Event>)
    requires i < j < |items| == |pri| && items[i].current.path == items[j].current.path && !pri[i] && pri[j]
    ensures Schedule(items, pri, qs, es) && !InPushOrder(qs[|es|], items)
  {
    qs, es := UrgentWaits(items, pri, j);
    ExtendSchedule(items, pri, qs, es, Pop);
    qs, es := qs + [Next(qs[|es|], Pop)], es + [Pop];
    var q := qs[|es|];
    assert i in q.normal && q.applied[|q.applied| - 1] == j;
    SortedInv(items, qs, es, |es|);
    qs, es := Drain(items, pri, qs, es);
    SortedInv(items, qs, es, |es|);
    Reordered(items, q, qs[|es|], i, j);
  }

  lemma Reordered(items: seq<Item>, q: Queue, q': Queue, i: nat, j: nat)
    requires Sorted(q) && Sorted(q') && q.applied <= q'.applied && !CanPop(q') && q'.pushed == q.pushed
    requires i in q.normal && q.applied != [] && q.applied[|q.applied| - 1] == j && i < j && SamePath(items, i, j)
    ensures !InPushOrder(q', items)
  {
    var a := |q.applied| - 1;
    assert q'.applied[a] == j;
    assert i in q'.applied;
    var b :| 0 <= b < |q'.applied| && q'.applied[b] == i;
    assert i !in q.applied && forall c :: 0 <= c <= a ==> q'.applied[c] in q.applied;
  }

  // In every schedule each file's updates are applied in push order, if and only if
  // no file is pushed urgent after it was pushed normal.
  lemma PushOrderIff(items: seq<Item>, pri: seq<bool>)
    requires |pri| == |items|
    ensures (forall qs, es :: Schedule(items, pri, qs, es) ==> InPushOrder(qs[|es|], items)) <==> NeverPromoted(items, pri)
  {
    if NeverPromoted(items, pri) {
      forall qs, es | Schedule(items, pri, qs, es)
        ensures InPushOrder(qs[|es|], items)
      {
        ScheduleNotOvertaken(items, pri, qs, es);
        PathOrderInv(items, qs, es, |es|);
      }
    } else {
      var i, j :| 0 <= i < j < |items| && items[i].current.path == items[j].current.path && !(pri[i] || !pri[j]);
      var qs, es := PromotedReorders(items, pri, i, j);
    }
  }

  // Then what is applied is an in-order run, whatever the timing.
  lemma NeverPromotedInOrder(items: seq<Item>, pri: seq<bool>, qs: seq<Queue>, es: seq<Event>, n: nat)
    requires InOrder(Updates(items), Currents(items)) && |pri| == |items| && NeverPromoted(items, pri)
    requires Schedule(items, pri, qs, es) && n < |qs|
    ensures forall i :: i in qs[n].applied ==> i < |items|
    ensures InOrder(Updates(AppliedItems(qs[n], items)), Currents(AppliedItems(qs[n], items)))
  {
    ScheduleNotOvertaken(items, pri, qs, es);
    hide *;
    ScheduleDelivers(items, pri, qs, es);
    DeliveredInOrder(items, qs, es, n);
  }

  lemma ScheduleDelivers(items: seq<Item>, pri: seq<bool>, qs: seq<Queue>, es: seq<Event>)
    requires Schedule(items, pri, qs, es)
    ensures IsDelivery(items, qs, es)
  {
  }

  // ---------- When what is applied is in order ----------

  // All versions of a file, the empty one included, contribute different references.
  ghost predicate Telling(items: seq<Item>, ids: map<string, nat>) {
    && (forall i :: 0 <= i < |items| ==> FileOccs(ids, items[i].current) != multiset{})
    && (forall i, j :: 0 <= i < j < |items| && SamePath(items, i, j) ==> FileOccs(ids, items[i].current) != FileOccs(ids, items[j].current))
  }

  // An update withdraws the references of the version it starts from.
  lemma DeltaTells(ids: map<string, nat>, u: IndexUpdate, v: IndexFile, w: IndexFile, cur: IndexFile)
    requires IsDelta(u, v, cur) && IsDelta(u, w, cur) && v.path == w.path
    ensures FileOccs(ids, v) == FileOccs(ids, w)
  {
    hide IsKindDelta, FileOccs, AllRemoved, AllAdded, LidMap;
    FileDeltaOccs(ids, u, v, cur);
    FileDeltaOccs(ids, u, w, cur);
  }

  // Some file is pushed normal and urgent in a row.
  lemma {:induction false} PromotionInARow(items: seq<Item>, pri: seq<bool>, i: nat, j: nat) returns (k: nat, m: nat)
    requires i < j < |items| == |pri| && SamePath(items, i, j) && !pri[i] && pri[j]
    ensures k < m < |items| && SamePath(items, k, m) && !pri[k] && pri[m] && forall t :: k < t < m ==> !SamePath(items, t, m)
    decreases j - i
  {
    if t: nat :| i < t < j && SamePath(items, t, j) {
      if pri[t] { k, m := PromotionInARow(items, pri, i, t); } else { k, m := PromotionInARow(items, pri, t, j); }
    } else {
      k, m := i, j;
    }
  }

  lemma VersionBefore(items: seq<Item>, k: nat, m: nat)
    requires k < m < |items| && SamePath(items, k, m) && forall t :: k < t < m ==> !SamePath(items, t, m)
    ensures VersionOf(Latest(Currents(items)[..m]), items[m].current.path) == items[k].current
  {
    var cs, p := Currents(items)[..m], items[m].current.path;
    forall t | k < t < |cs|
      ensures cs[t].path != p
    {
      assert !SamePath(items, t, m);
    }
    LatestIs(cs, p, k);
  }

  // What has been applied for a path is nothing or one of the versions applied.
  lemma VersionApplied(q: Queue, items: seq<Item>, p: string) returns (a: nat)
    requires forall i :: i in q.applied ==> i < |items|
    ensures var v := VersionOf(Latest(Currents(AppliedItems(q, items))), p);
      v == EmptyFile(p) || (a in q.applied && items[a].current.path == p && v == items[a].current)
  {
    var cs := Currents(AppliedItems(q, items));
    a := 0;
    if p in Latest(cs) {
      var b := LastExists(cs, p);
      LatestIs(cs, p, b);
      a := q.applied[b];
    }
  }

  // The overtaking update does not start from what has been applied.
  lemma PromotedNotInOrder(items: seq<Item>, pri: seq<bool>, ids: map<string, nat>, k: nat, m: nat) returns (qs: seq<Queue>, es: seq<Event>)
    requires InOrder(Updates(items), Currents(items)) && Telling(items, ids)
    requires k < m < |items| == |pri| && SamePath(items, k, m) && !pri[k] && pri[m] && forall t :: k < t < m ==> !SamePath(items, t, m)
    ensures Schedule(items, pri, qs, es) && !AppliedInOrder(qs[|es|], items)
  {
    hide InOrder, Telling, Updates, Currents, AppliedItems, AppliedInOrder, Sorted, Latest, Next;
    qs, es := UrgentWaits(items, pri, m);
    var q := qs[|es|];
    SortedInv(items, qs, es, |es|);
    ExtendSchedule(items, pri, qs, es, Pop);
    qs, es := qs + [Next(q, Pop)], es + [Pop];
    OvertakerOutOfOrder(items, ids, q, k, m);
  }

  ghost predicate AppliedInOrder(q: Queue, items: seq<Item>) {
    (forall i :: i in q.applied ==> i < |items|) && InOrder(Updates(AppliedItems(q, items)), Currents(AppliedItems(q, items)))
  }

  lemma OvertakerOutOfOrder(items: seq<Item>, ids: map<string, nat>, q: Queue, k: nat, m: nat)
    requires InOrder(Updates(items), Currents(items)) && Telling(items, ids)
    requires k < m < |items| && SamePath(items, k, m) && forall t :: k < t < m ==> !SamePath(items, t, m)
    requires Sorted(q) && q.pushed <= |items| && CanPop(q) && Front(q) == m && k in q.normal
    ensures !AppliedInOrder(Next(q, Pop), items)
  {
    var p, done := items[m].current.path, AppliedItems(q, items);
    hide IsDelta, Latest, FileOccs, Next;
    AppliedSnoc(q, items);
    var a := VersionApplied(q, items, p);
    FrontDelta(items, m);
    VersionBefore(items, k, m);
    EmptyFileOccs(ids, p);
    if AppliedInOrder(Next(q, Pop), items) {
      LastDelta(done, items[m]);
      DeltaTells(ids, items[m].update, VersionOf(Latest(Currents(done)), p), items[k].current, items[m].current);
    }
    assert a in q.applied ==> a != k;
    assert a < |items| && items[a].current.path == p && a != k ==> SamePath(items, a, k) && SamePath(items, k, a);
  }

  lemma LastDelta(done: seq<Item>, x: Item)
    requires InOrder(Updates(done + [x]), Currents(done + [x]))
    ensures IsDelta(x.update, VersionOf(Latest(Currents(done)), x.current.path), x.current)
  {
    hide IsDelta, Latest;
    CurrentsSnoc(done, x);
    var n := |done|;
    assert Currents(done + [x])[..n] == Currents(done) && Updates(done + [x])[n] == x.update && Currents(done + [x])[n] == x.current;
  }

  // For versions that can be told apart: what is applied is in order in every
  // schedule if and only if no file is pushed urgent after it was pushed normal.
  lemma InOrderIff(items: seq<Item>, pri: seq<bool>, ids: map<string, nat>)
    requires |pri| == |items| && InOrder(Updates(items), Currents(items)) && Telling(items, ids)
    ensures (forall qs, es :: Schedule(items, pri, qs, es) ==> AppliedInOrder(qs[|es|], items)) <==> NeverPromoted(items, pri)
  {
    hide InOrder, Telling;
    if NeverPromoted(items, pri) {
      forall qs, es | Schedule(items, pri, qs, es)
        ensures AppliedInOrder(qs[|es|], items)
      {
        NeverPromotedInOrder(items, pri, qs, es, |es|);
      }
    } else {
      var i, j :| 0 <= i < j < |items| && items[i].current.path == items[j].current.path && !(pri[i] || !pri[j]);
      var k, m := PromotionInARow(items, pri, i, j);
      var qs, es := PromotedNotInOrder(items, pri, ids, k, m);
    }
  }

  lemma AppliedLast(q: Queue, items: seq<Item>, p: string, j: nat, a: nat, b: nat)
    requires Sorted(q) && PathOrder(q, items) && IsLast(Currents(items), p, j)
    requires a < b < |q.applied| && q.applied[a] == j
    ensures q.applied[b] < |items| && items[q.applied[b]].current.path != p
  {
    var i := q.applied[b];
    assert i in q.applied;
    if SamePath(items, j, i) { assert j < i; }
    if i > j { assert Currents(items)[i].path != p; }
  }

  lemma EverythingApplied(q: Queue, items: seq<Item>, j: nat)
    requires Sorted(q) && q.pushed == |items| && !CanPop(q) && j < |items|
    ensures exists a :: 0 <= a < |q.applied| && q.applied[a] == j
  {
    assert j in q.applied;
  }

  // Once everything pushed has been applied, every file is at its last version.
  lemma AllDelivered(q: Queue, items: seq<Item>, p: string)
    requires Delivered(q, items) && q.pushed == |items| && !CanPop(q)
    ensures forall i :: i in q.applied ==> i < |items|
    ensures LastPushed(AppliedItems(q, items), p) == LastPushed(items, p)
  {
    hide InOrder, Latest, Sorted, PathOrder;
    InBounds(q, items);
    var cs, done := Currents(items), Currents(AppliedItems(q, items));
    if p in Latest(cs) {
      var j := LastExists(cs, p);
      LatestIs(cs, p, j);
      EverythingApplied(q, items, j);
      var a :| 0 <= a < |q.applied| && q.applied[a] == j;
      forall b | a < b < |done|
        ensures done[b].path != p
      {
        AppliedLast(q, items, p, j, a, b);
      }
      LatestIs(done, p, a);
    } else {
      forall b | 0 <= b < |done|
        ensures done[b].path != p
      {
        assert q.applied[b] in q.applied;
        NoLastBefore(cs, p, q.applied[b]);
      }
      LatestIs(done, p, 0);
    }
  }

  lemma FirstStartsEmpty(u: IndexUpdate, f: IndexFile)
    requires InOrder([u], [f])
    ensures IsDelta(u, EmptyFile(f.path), f)
  {
    hide IsDelta;
    assert [f][..0] == [];
    assert [u][0] == u && [f][0] == f;
  }

  lemma TwoInOrder(u0: IndexUpdate, f0: IndexFile, u1: IndexUpdate, f1: IndexFile)
    requires IsDelta(u0, EmptyFile(f0.path), f0) && IsDelta(u1, f0, f1) && f0.path == f1.path
    ensures InOrder([u0, u1], [f0, f1])
  {
    hide IsDelta;
    assert [f0, f1][..0] == [] && [f0, f1][..1] == [f0] && [f0][..0] == [];
    assert Latest([f0]) == map[f0.path := f0];
  }

  lemma UrgentFirst(x: Item, y: Item)
    requires x.current.path == y.current.path
    ensures var q := Next(Next(Queue(0, [], [], []), Push(false)), Push(true));
      CanPop(q) && Front(q) < |[x, y]| && Overtakes(q, [x, y]) && Next(q, Pop).applied == [1]
  {
    var q := Next(Next(Queue(0, [], [], []), Push(false)), Push(true));
    assert q.normal == [0] && q.urgent == [1] && q.normal[0] == 0;
  }

  // An urgent update of a file overtakes a normal one. It then does not start from
  // what the database holds: every reference of the version overtaken is to be
  // withdrawn, and none is counted.
  lemma OvertakingBreaksOrder(x: Item, y: Item, ids: map<string, nat>, o: Occ)
    requires IsDelta(x.update, EmptyFile(x.current.path), x.current) && IsDelta(y.update, x.current, y.current)
    requires x.current.path == y.current.path && o in FileOccs(ids, x.current)
    ensures var q := Next(Next(Queue(0, [], [], []), Push(false)), Push(true));
      CanPop(q) && Front(q) < |[x, y]| && Overtakes(q, [x, y]) && Next(q, Pop).applied == [1]
    ensures InOrder(Updates([x, y]), Currents([x, y])) && !InOrder([y.update], [y.current])
    ensures o in AllRemoved(ContextOf(ids, x.current), y.update) && o !in AllOccs(ids, Latest([]))
  {
    hide IsKindDelta, FileDefOf, InOrder, Next, Front, Overtakes, FileOccs, AllRemoved, LidMap;
    UrgentFirst(x, y);
    TwoInOrder(x.update, x.current, y.update, y.current);
    assert Updates([x, y]) == [x.update, y.update] && Currents([x, y]) == [x.current, y.current];
    FileDeltaOccs(ids, y.update, x.current, y.current);
    NothingCounted(ids);
    if InOrder([y.update], [y.current]) {
      FirstStartsEmpty(y.update, y.current);
      FileDeltaOccs(ids, y.update, EmptyFile(y.current.path), y.current);
      EmptyFileOccs(ids, y.current.path);
    }
  }

  lemma NothingCounted(ids: map<string, nat>)
    ensures AllOccs(ids, Latest([])) == multiset{}
  {
    SumEmpty(OccsAt(ids, map[]));
  }
}
