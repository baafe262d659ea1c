// The main loop's backlog (src/pipeline.cc, src/message_handler.cc): a request
// for a file that is not indexed yet is parked, and run again either right
// after the file's update or, once its deadline has passed, as overdue.
module Backlog {

  // A parked request; its path is cleared once it has been run again.
  datatype Message = Message(id: nat, path: string, deadline: int)

  datatype Rerun = AfterUpdate | Overdue

  // ---------- Parked messages of a path ----------

  function IdsOf(b: seq<Message>, p: string): seq<nat> {
    if b == [] then [] else (if b[0].path == p then [b[0].id] else []) + IdsOf(b[1..], p)
  }

  function ClearedPath(b: seq<Message>, p: string): (r: seq<Message>)
    ensures |r| == |b|
  {
    seq(|b|, i requires 0 <= i < |b| => if b[i].path == p then b[i].(path := "") else b[i])
  }

  predicate Waiting(b: seq<Message>, id: nat) { exists i :: 0 <= i < |b| && b[i].id == id && b[i].path != "" }

  predicate DistinctIds(b: seq<Message>) {
    forall i, j :: 0 <= i < j < |b| && b[i].path != "" && b[j].path != "" ==> b[i].id != b[j].id
  }

  lemma {:induction false} IdsOfSnoc(b: seq<Message>, m: Message, p: string)
    ensures IdsOf(b + [m], p) == IdsOf(b, p) + if m.path == p then [m.id] else []
  {
    if b == [] {
      assert [m][1..] == [];
      assert b + [m] == [m];
    } else {
      IdsOfSnoc(b[1..], m, p);
      assert (b + [m])[1..] == b[1..] + [m];
    }
  }

  lemma {:induction false} IdsOfMember(b: seq<Message>, p: string, id: nat)
    ensures id in IdsOf(b, p) <==> exists i :: 0 <= i < |b| && b[i].path == p && b[i].id == id
  {
    if b != [] {
      IdsOfMember(b[1..], p, id);
      if id in IdsOf(b[1..], p) {
        var i :| 0 <= i < |b[1..]| && b[1..][i].path == p && b[1..][i].id == id;
        assert b[i + 1] == b[1..][i];
      }
      if i :| 0 <= i < |b| && b[i].path == p && b[i].id == id {
        if i > 0 { assert b[1..][i - 1] == b[i]; }
      }
    }
  }

  lemma {:induction false} IdsOfCleared(b: seq<Message>, p: string, q: string)
    requires p != "" && q != ""
    ensures IdsOf(ClearedPath(b, p), q) == if q == p then [] else IdsOf(b, q)
  {
    if b != [] {
      IdsOfCleared(b[1..], p, q);
      assert ClearedPath(b, p)[1..] == ClearedPath(b[1..], p);
    }
  }

  lemma {:induction false} IdsOfDistinct(b: seq<Message>, p: string)
    requires DistinctIds(b) && p != ""
    ensures forall i, j :: 0 <= i < j < |IdsOf(b, p)| ==> IdsOf(b, p)[i] != IdsOf(b, p)[j]
  {
    if b != [] {
      IdsOfDistinct(b[1..], p);
      IdsOfMember(b[1..], p, b[0].id);
    }
  }

  function ClearedIds(b: seq<Message>, ids: seq<nat>): (r: seq<Message>)
    ensures |r| == |b|
  {
    seq(|b|, i requires 0 <= i < |b| => if b[i].id in ids then b[i].(path := "") else b[i])
  }

  lemma ClearedNext(b: seq<Message>, ids: seq<nat>, id: nat)
    ensures ClearedIds(ClearedIds(b, ids), [id]) == ClearedIds(b, ids + [id])
  {
  }

  // Clearing through the listed pointers clears exactly the path.
  lemma ClearedAll(b: seq<Message>, p: string)
    requires DistinctIds(b) && p != ""
    ensures ClearedIds(b, IdsOf(b, p)) == ClearedPath(b, p)
    ensures IdsOf(b, p) == [] ==> ClearedPath(b, p) == b
  {
    forall i | 0 <= i < |b|
      ensures ClearedIds(b, IdsOf(b, p))[i] == ClearedPath(b, p)[i]
      ensures b[i].path == p ==> IdsOf(b, p) != []
    {
      IdsOfMember(b, p, b[i].id);
      if b[i].id in IdsOf(b, p) && b[i].path != "" {
        var j :| 0 <= j < |b| && b[j].path == p && b[j].id == b[i].id;
        assert i == j;
      }
    }
  }

  lemma WaitingSnoc(b: seq<Message>, m: Message, id: nat)
    ensures Waiting(b + [m], id) <==> Waiting(b, id) || (id == m.id && m.path != "")
  {
    if Waiting(b, id) {
      var i :| 0 <= i < |b| && b[i].id == id && b[i].path != "";
      assert (b + [m])[i] == b[i];
    }
    if id == m.id { assert (b + [m])[|b|] == m; }
  }

  // The front message, still waiting, leaves.
  lemma FrontLeaves(b: seq<Message>)
    requires b != [] && b[0].path != "" && DistinctIds(b)
    ensures DistinctIds(b[1..])
    ensures forall id :: Waiting(b[1..], id) <==> Waiting(b, id) && id != b[0].id
    ensures forall p :: IdsOf(b[1..], p) == if p == b[0].path then IdsOf(b, p)[1..] else IdsOf(b, p)
    ensures IdsOf(b, b[0].path) != []
  {
    forall id
      ensures Waiting(b[1..], id) <==> Waiting(b, id) && id != b[0].id
    {
      if Waiting(b, id) && id != b[0].id {
        var i :| 0 <= i < |b| && b[i].id == id && b[i].path != "";
        assert b[1..][i - 1] == b[i];
      }
      if Waiting(b[1..], id) {
        var i :| 0 <= i < |b[1..]| && b[1..][i].id == id && b[1..][i].path != "";
        assert b[i + 1] == b[1..][i];
      }
    }
  }

  // A message already run again leaves.
  lemma DoneLeaves(b: seq<Message>)
    requires b != [] && b[0].path == "" && DistinctIds(b)
    ensures DistinctIds(b[1..])
    ensures forall id :: Waiting(b[1..], id) <==> Waiting(b, id)
    ensures forall p :: p != "" ==> IdsOf(b[1..], p) == IdsOf(b, p)
  {
    forall id
      ensures Waiting(b[1..], id) <==> Waiting(b, id)
    {
      if Waiting(b, id) {
        var i :| 0 <= i < |b| && b[i].id == id && b[i].path != "";
        assert b[1..][i - 1] == b[i];
      }
      if Waiting(b[1..], id) {
        var i :| 0 <= i < |b[1..]| && b[1..][i].id == id && b[1..][i].path != "";
        assert b[i + 1] == b[1..][i];
      }
    }
  }

  // All messages of a path stop waiting.
  lemma PathLeaves(b: seq<Message>, p: string)
    requires DistinctIds(b) && p != ""
    ensures DistinctIds(ClearedPath(b, p))
    ensures forall id :: Waiting(ClearedPath(b, p), id) <==> Waiting(b, id) && id !in IdsOf(b, p)
    ensures forall id :: id in IdsOf(b, p) ==> Waiting(b, id)
    ensures forall q :: q != "" ==> IdsOf(ClearedPath(b, p), q) == if q == p then [] else IdsOf(b, q)
  {
    var b' := ClearedPath(b, p);
    forall id
      ensures Waiting(b', id) <==> Waiting(b, id) && id !in IdsOf(b, p)
      ensures id in IdsOf(b, p) ==> Waiting(b, id)
    {
      IdsOfMember(b, p, id);
      if Waiting(b', id) {
        var i :| 0 <= i < |b'| && b'[i].id == id && b'[i].path != "";
        assert b[i].path != "" && b[i].path != p;
      }
      if Waiting(b, id) && id !in IdsOf(b, p) {
        var i :| 0 <= i < |b| && b[i].id == id && b[i].path != "";
        assert b'[i] == b[i];
      }
    }
    forall q | q != ""
      ensures IdsOf(b', q) == if q == p then [] else IdsOf(b, q)
    {
      IdsOfCleared(b, p, q);
    }
  }

  function Listed(m: map<string, seq<nat>>, p: string): seq<nat> { if p in m then m[p] else [] }

  // path2backlog lists, in order, exactly the parked messages of each path.
  ghost predicate Listing(m: map<string, seq<nat>>, b: seq<Message>) {
    forall p :: p != "" ==> Listed(m, p) == IdsOf(b, p)
  }

  // ---------- The log of reruns ----------

  // Every run of a parked message, in order.
  type Log = seq<(nat, Rerun)>

  function RunsOf(log: Log, id: nat): seq<Rerun> {
    if log == [] then []
    else RunsOf(log[..|log| - 1], id) + if log[|log| - 1].0 == id then [log[|log| - 1].1] else []
  }

  function AllRun(ids: seq<nat>, how: Rerun): (r: Log)
    ensures |r| == |ids|
  {
    seq(|ids|, i requires 0 <= i < |ids| => (ids[i], how))
  }

  // The runs of the messages still waiting in b, as overdue, in order.
  function OverdueRuns(b: seq<Message>): Log {
    if b == [] then [] else OverdueRuns(b[..|b| - 1]) + if b[|b| - 1].path != "" then [(b[|b| - 1].id, Overdue)] else []
  }

  lemma {:induction false} RunsOfConcat(log: Log, more: Log, id: nat)
    ensures RunsOf(log + more, id) == RunsOf(log, id) + RunsOf(more, id)
  {
    if more == [] {
      assert log + more == log;
    } else {
      RunsOfConcat(log, more[..|more| - 1], id);
      assert (log + more)[..|log + more| - 1] == log + more[..|more| - 1];
    }
  }

  // Messages listed once are run once.
  lemma {:induction false} RunsOfAll(ids: seq<nat>, how: Rerun, id: nat)
    requires forall i, j :: 0 <= i < j < |ids| ==> ids[i] != ids[j]
    ensures RunsOf(AllRun(ids, how), id) == if id in ids then [how] else []
  {
    if ids != [] {
      var n := |ids| - 1;
      RunsOfAll(ids[..n], how, id);
      assert AllRun(ids, how)[..n] == AllRun(ids[..n], how);
      assert ids == ids[..n] + [ids[n]];
    }
  }

  // A parked message with a path has been run again exactly once, or still waits
  // and has not been; one without a path is never run again.
  ghost predicate Once(b: seq<Message>, raised: map<nat, string>, log: Log) {
    && (forall i :: 0 <= i < |b| && b[i].path != "" ==> b[i].id in raised && raised[b[i].id] == b[i].path)
    && (forall id :: id in raised ==> |RunsOf(log, id)| == if raised[id] == "" || Waiting(b, id) then 0 else 1)
    && (forall id :: id !in raised ==> RunsOf(log, id) == [])
  }

  lemma RaisedBefore(b: seq<Message>, raised: map<nat, string>, log: Log)
    requires Once(b, raised, log)
    ensures forall i :: 0 <= i < |b| && b[i].path != "" ==> b[i].id in raised && raised[b[i].id] == b[i].path
  {
  }

  lemma WaitingRaised(b: seq<Message>, raised: map<nat, string>, log: Log, id: nat)
    requires Once(b, raised, log) && Waiting(b, id)
    ensures id in raised && raised[id] != "" && RunsOf(log, id) == []
  {
  }

  // The messages listed for a path are those waiting that were raised for it.
  lemma ListedRaised(b: seq<Message>, raised: map<nat, string>, log: Log, p: string, id: nat)
    requires Once(b, raised, log) && p != ""
    ensures id in IdsOf(b, p) <==> Waiting(b, id) && id in raised && raised[id] == p
  {
    IdsOfMember(b, p, id);
  }

  lemma PathOnce(b: seq<Message>, p: string, raised: map<nat, string>, log: Log)
    requires DistinctIds(b) && Once(b, raised, log) && p != ""
    ensures Once(ClearedPath(b, p), raised, log + AllRun(IdsOf(b, p), AfterUpdate))
  {
    var b', log' := ClearedPath(b, p), log + AllRun(IdsOf(b, p), AfterUpdate);
    PathLeaves(b, p);
    IdsOfDistinct(b, p);
    hide IdsOf, ClearedPath, Waiting, DistinctIds, RunsOf, AllRun;
    forall id
      ensures RunsOf(log', id) == RunsOf(log, id) + if id in IdsOf(b, p) then [AfterUpdate] else []
      ensures id in IdsOf(b, p) ==> id in raised && raised[id] == p
    {
      RunsOfConcat(log, AllRun(IdsOf(b, p), AfterUpdate), id);
      RunsOfAll(IdsOf(b, p), AfterUpdate, id);
      ListedRaised(b, raised, log, p, id);
    }
    PathRaised(b, p, raised, log);
  }

  lemma PathRaised(b: seq<Message>, p: string, raised: map<nat, string>, log: Log)
    requires Once(b, raised, log)
    ensures var b' := ClearedPath(b, p); forall i :: 0 <= i < |b'| && b'[i].path != "" ==> b'[i].id in raised && raised[b'[i].id] == b'[i].path
  {
  }

  lemma PathListing(b: seq<Message>, p: string, m: map<string, seq<nat>>)
    requires DistinctIds(b) && Listing(m, b) && p != ""
    ensures Listing(m - {p}, ClearedPath(b, p))
  {
    PathLeaves(b, p);
    hide IdsOf, ClearedPath, Waiting, DistinctIds;
  }

  lemma PathSettled(b: seq<Message>, p: string, m: map<string, seq<nat>>, raised: map<nat, string>, log: Log)
    requires DistinctIds(b) && Listing(m, b) && Once(b, raised, log) && p != ""
    ensures DistinctIds(ClearedPath(b, p)) && Listing(m - {p}, ClearedPath(b, p))
    ensures Once(ClearedPath(b, p), raised, log + AllRun(IdsOf(b, p), AfterUpdate))
    ensures forall id :: Waiting(ClearedPath(b, p), id) <==> Waiting(b, id) && id in raised && raised[id] != p
  {
    PathOnce(b, p, raised, log);
    PathListing(b, p, m);
    PathLeaves(b, p);
    hide IdsOf, ClearedPath, Waiting, DistinctIds, AllRun, RunsOf, Listing;
    forall id
      ensures Waiting(ClearedPath(b, p), id) <==> Waiting(b, id) && id in raised && raised[id] != p
    {
      ListedRaised(b, raised, log, p, id);
      if Waiting(b, id) { WaitingRaised(b, raised, log, id); }
    }
  }

  lemma FrontSettled(b: seq<Message>, m: map<string, seq<nat>>, raised: map<nat, string>, log: Log)
    requires DistinctIds(b) && Listing(m, b) && Once(b, raised, log) && b != [] && b[0].path != ""
    ensures var p, id := b[0].path, b[0].id;
      && Listed(m, p) != [] && DistinctIds(b[1..]) && Listing(m[p := Listed(m, p)[1..]], b[1..])
      && Once(b[1..], raised, log + [(id, Overdue)])
      && forall i :: Waiting(b[1..], i) <==> Waiting(b, i) && i != id
  {
    hide IdsOf, Waiting, DistinctIds, Once, RunsOf, Listing, Listed;
    FrontLeaves(b);
    FrontOnce(b, raised, log);
    FrontListing(b, m);
  }

  lemma FrontListing(b: seq<Message>, m: map<string, seq<nat>>)
    requires DistinctIds(b) && Listing(m, b) && b != [] && b[0].path != ""
    ensures Listed(m, b[0].path) != [] && Listing(m[b[0].path := Listed(m, b[0].path)[1..]], b[1..])
  {
    FrontLeaves(b);
    hide IdsOf, Waiting, DistinctIds;
  }

  lemma FrontOnce(b: seq<Message>, raised: map<nat, string>, log: Log)
    requires DistinctIds(b) && Once(b, raised, log) && b != [] && b[0].path != ""
    ensures Once(b[1..], raised, log + [(b[0].id, Overdue)])
  {
    FrontLeaves(b);
    assert Waiting(b, b[0].id);
    hide IdsOf, Waiting, DistinctIds;
    forall id
      ensures RunsOf(log + [(b[0].id, Overdue)], id) == RunsOf(log, id) + if id == b[0].id then [Overdue] else []
    {
      RunsOfConcat(log, [(b[0].id, Overdue)], id);
    }
    hide RunsOf;
  }

  lemma DoneSettled(b: seq<Message>, m: map<string, seq<nat>>, raised: map<nat, string>, log: Log)
    requires DistinctIds(b) && Listing(m, b) && Once(b, raised, log) && b != [] && b[0].path == ""
    ensures DistinctIds(b[1..]) && Listing(m, b[1..]) && Once(b[1..], raised, log)
    ensures forall id :: Waiting(b[1..], id) <==> Waiting(b, id)
  {
    DoneLeaves(b);
    hide IdsOf, Waiting, DistinctIds, RunsOf;
  }

  lemma ParkSettled(b: seq<Message>, m: map<string, seq<nat>>, raised: map<nat, string>, log: Log, x: Message)
    requires DistinctIds(b) && Listing(m, b) && Once(b, raised, log) && x.id !in raised
    ensures DistinctIds(b + [x]) && Listing(m[x.path := Listed(m, x.path) + [x.id]], b + [x])
    ensures Once(b + [x], raised[x.id := x.path], log)
    ensures forall id :: Waiting(b + [x], id) <==> Waiting(b, id) || (id == x.id && x.path != "")
  {
    hide DistinctIds, Listing, Once, Waiting;
    forall i
      ensures Waiting(b + [x], i) <==> Waiting(b, i) || (i == x.id && x.path != "")
    {
      WaitingSnoc(b, x, i);
    }
    if Waiting(b, x.id) { WaitingRaised(b, raised, log, x.id); }
    ParkDistinct(b, x);
    ParkListing(b, m, x);
    ParkOnce(b, raised, log, x);
  }

  lemma ParkDistinct(b: seq<Message>, x: Message)
    requires DistinctIds(b) && !Waiting(b, x.id)
    ensures DistinctIds(b + [x])
  {
    forall i, j | 0 <= i < j < |b + [x]| && (b + [x])[i].path != "" && (b + [x])[j].path != ""
      ensures (b + [x])[i].id != (b + [x])[j].id
    {
      assert j == |b| ==> Waiting(b, b[i].id);
    }
  }

  lemma ParkListing(b: seq<Message>, m: map<string, seq<nat>>, x: Message)
    requires Listing(m, b)
    ensures Listing(m[x.path := Listed(m, x.path) + [x.id]], b + [x])
  {
    forall p
      ensures IdsOf(b + [x], p) == IdsOf(b, p) + if p == x.path then [x.id] else []
    {
      IdsOfSnoc(b, x, p);
    }
    hide IdsOf;
  }

  lemma ParkOnce(b: seq<Message>, raised: map<nat, string>, log: Log, x: Message)
    requires Once(b, raised, log) && x.id !in raised
    ensures Once(b + [x], raised[x.id := x.path], log)
  {
    forall i
      ensures Waiting(b + [x], i) <==> Waiting(b, i) || (i == x.id && x.path != "")
    {
      WaitingSnoc(b, x, i);
    }
    hide Waiting, RunsOf;
  }

  // Once run again, a message is never run again.
  lemma RunsFinal(b: seq<Message>, b': seq<Message>, raised: map<nat, string>, raised': map<nat, string>, log: Log, more: Log, id: nat)
    requires Once(b, raised, log) && Once(b', raised', log + more)
    requires RunsOf(log, id) != []
    ensures RunsOf(log + more, id) == RunsOf(log, id)
  {
    RunsOfConcat(log, more, id);
  }

  lemma OverdueRunsSnoc(b: seq<Message>, n: nat)
    requires n < |b|
    ensures OverdueRuns(b[..n + 1]) == OverdueRuns(b[..n]) + if b[n].path != "" then [(b[n].id, Overdue)] else []
  {
    assert b[..n + 1][..n] == b[..n];
  }

  // How many messages leave at the front: up to the first that waits and has not
  // expired.
  function OverdueCount(b: seq<Message>, now: int): (n: nat)
    ensures n <= |b| && forall i :: 0 <= i < n && b[i].path != "" ==> b[i].deadline <= now
    ensures n < |b| ==> b[n].path != "" && now < b[n].deadline
  {
    if b == [] || (b[0].path != "" && now < b[0].deadline) then 0 else 1 + OverdueCount(b[1..], now)
  }

  lemma NextMessage(b: seq<Message>, n: nat)
    requires n <= |b| && b[n..] != []
    ensures n < |b| && b[n..][0] == b[n] && b[n..][1..] == b[n + 1..]
  {
  }

  lemma OverdueCountIs(b: seq<Message>, now: int, n: nat)
    requires n <= |b| && forall i :: 0 <= i < n && b[i].path != "" ==> b[i].deadline <= now
    requires n < |b| ==> b[n].path != "" && now < b[n].deadline
    ensures OverdueCount(b, now) == n
  {
    assert OverdueCount(b, now) <= n;
  }

  lemma DistinctFront(b: seq<Message>, m: Message)
    requires DistinctIds(b + [m])
    ensures DistinctIds(b) && (m.path != "" ==> !Waiting(b, m.id))
  {
    forall i | 0 <= i < |b|
      ensures b[i].path != "" && m.path != "" ==> b[i].id != m.id
    {
      assert (b + [m])[i] == b[i] && (b + [m])[|b|] == m;
    }
    forall i, j | 0 <= i < j < |b| && b[i].path != "" && b[j].path != ""
      ensures b[i].id != b[j].id
    {
      assert (b + [m])[i] == b[i] && (b + [m])[j] == b[j];
    }
  }

  // Each message still waiting in b is run once, as overdue.
  lemma {:induction false} OverdueRunsOf(b: seq<Message>, id: nat)
    requires DistinctIds(b)
    ensures RunsOf(OverdueRuns(b), id) == if Waiting(b, id) then [Overdue] else []
  {
    if b != [] {
      var front, m := b[..|b| - 1], b[|b| - 1];
      assert front + [m] == b;
      var last := if m.path != "" then [(m.id, Overdue)] else [];
      assert OverdueRuns(b) == OverdueRuns(front) + last;
      assert RunsOf(last, id) == if m.path != "" && m.id == id then [Overdue] else [];
      hide DistinctIds, Waiting, OverdueRuns, RunsOf;
      DistinctFront(front, m);
      OverdueRunsOf(front, id);
      WaitingSnoc(front, m, id);
      RunsOfConcat(OverdueRuns(front), last, id);
    }
  }

  // The runs of the first messages come first.
  lemma {:induction false} OverdueInOrder(b: seq<Message>, n: nat)
    requires n <= |b|
    ensures OverdueRuns(b[..n]) <= OverdueRuns(b)
  {
    if n < |b| {
      OverdueInOrder(b[..|b| - 1], n);
      assert b[..|b| - 1][..n] == b[..n];
    } else {
      assert b[..n] == b;
    }
  }

  // ---------- A turn of the main loop ----------

  type Update = (string, set<string>)

  // The files updated in a turn, and those they refer to.
  function Updated(updates: seq<Update>): set<string> { set u | u in updates :: u.0 }

  function Referred(updates: seq<Update>): set<string> { set u, q | u in updates && q in u.1 :: q }

  // The requests that are parked, in order.
  function Parked(requests: seq<Message>, indexed: set<string>): (r: seq<Message>)
    ensures forall m :: m in r <==> m in requests && m.path !in indexed
  {
    if requests == [] then []
    else
      var last := requests[|requests| - 1];
      Parked(requests[..|requests| - 1], indexed) + if last.path in indexed then [] else [last]
  }

  lemma NoneParked(requests: seq<Message>, indexed: set<string>)
    ensures Parked(requests[..0], indexed) == []
  {
  }

  lemma ParkedSnoc(requests: seq<Message>, indexed: set<string>, k: nat)
    requires k < |requests|
    ensures Parked(requests[..k + 1], indexed) == Parked(requests[..k], indexed) + if requests[k].path in indexed then [] else [requests[k]]
  {
    assert requests[..k + 1][..k] == requests[..k];
  }

  lemma {:induction false} ParkedInOrder(requests: seq<Message>, indexed: set<string>, n: nat)
    requires n <= |requests|
    ensures Parked(requests[..n], indexed) <= Parked(requests, indexed)
  {
    if n < |requests| {
      ParkedInOrder(requests[..|requests| - 1], indexed, n);
      assert requests[..|requests| - 1][..n] == requests[..n];
    } else {
      assert requests[..n] == requests;
    }
  }

  function ClearedPaths(b: seq<Message>, ps: set<string>): (r: seq<Message>)
    ensures |r| == |b|
  {
    seq(|b|, i requires 0 <= i < |b| => if b[i].path in ps then b[i].(path := "") else b[i])
  }

  lemma ClearedMore(b: seq<Message>, ps: set<string>, p: string)
    ensures ClearedPath(ClearedPaths(b, ps), p) == ClearedPaths(b, ps + {p})
  {
  }

  // The runs after the updates of a turn: update by update, the messages of its
  // file not run before, in order.
  function UpdateRuns(b: seq<Message>, updates: seq<Update>): Log {
    if updates == [] then []
    else
      var front, last := updates[..|updates| - 1], updates[|updates| - 1];
      UpdateRuns(b, front) + AllRun(IdsOf(ClearedPaths(b, Updated(front)), last.0), AfterUpdate)
  }

  lemma {:induction false} RunsAfterUpdate(b: seq<Message>, updates: seq<Update>, id: nat)
    ensures forall how :: how in RunsOf(UpdateRuns(b, updates), id) ==> how == AfterUpdate
  {
    if updates != [] {
      var front, last := updates[..|updates| - 1], updates[|updates| - 1];
      RunsAfterUpdate(b, front, id);
      var ids := IdsOf(ClearedPaths(b, Updated(front)), last.0);
      RunsOfKind(ids, AfterUpdate, id);
      RunsOfConcat(UpdateRuns(b, front), AllRun(ids, AfterUpdate), id);
    }
  }

  lemma AllAre(runs: seq<Rerun>, how: Rerun)
    requires forall r :: r in runs ==> r == how
    ensures |runs| == 0 ==> runs == []
    ensures |runs| == 1 ==> runs == [how]
  {
    assert runs == [] || runs[0] in runs;
  }

  lemma {:induction false} RunsOfKind(ids: seq<nat>, how: Rerun, id: nat)
    ensures forall r :: r in RunsOf(AllRun(ids, how), id) ==> r == how
  {
    if ids != [] {
      var n := |ids| - 1;
      RunsOfKind(ids[..n], how, id);
      assert AllRun(ids, how)[..n] == AllRun(ids[..n], how);
    }
  }

  // What a turn logs: expired messages at the front, then those whose file was
  // updated, in the order of the updates.
  function TurnLog(b: seq<Message>, now: int, requests: seq<Message>, indexed: set<string>, updates: seq<Update>): Log {
    var n := OverdueCount(b, now);
    OverdueRuns(b[..n]) + UpdateRuns(b[n..] + Parked(requests, indexed), updates)
  }

  // What is parked after a turn.
  function TurnBacklog(b: seq<Message>, now: int, requests: seq<Message>, indexed: set<string>, updates: seq<Update>): seq<Message> {
    ClearedPaths(b[OverdueCount(b, now)..] + Parked(requests, indexed), Updated(updates))
  }

  lemma PartsDistinct(b: seq<Message>, n: nat)
    requires DistinctIds(b) && n <= |b|
    ensures DistinctIds(b[..n])
    ensures forall i :: 0 <= i < |b| && b[i].path != "" ==> (Waiting(b[..n], b[i].id) <==> i < n)
  {
    forall i | 0 <= i < |b| && b[i].path != ""
      ensures Waiting(b[..n], b[i].id) <==> i < n
    {
      if i < n { assert b[..n][i] == b[i]; }
      if j :| 0 <= j < |b[..n]| && b[..n][j].id == b[i].id && b[..n][j].path != "" { assert b[j] == b[..n][j]; }
    }
  }

  // The runs of a message in a turn: as overdue, and then after updates.
  lemma RunsInTurn(log: Log, b: seq<Message>, now: int, requests: seq<Message>, indexed: set<string>, updates: seq<Update>, id: nat)
    ensures var n := OverdueCount(b, now);
      var after := RunsOf(UpdateRuns(b[n..] + Parked(requests, indexed), updates), id);
      && RunsOf(log + TurnLog(b, now, requests, indexed, updates), id) == RunsOf(log, id) + (RunsOf(OverdueRuns(b[..n]), id) + after)
      && (|after| == 0 ==> after == []) && (|after| == 1 ==> after == [AfterUpdate])
  {
    hide OverdueRuns, UpdateRuns, RunsOf, OverdueCount, Parked;
    var n := OverdueCount(b, now);
    var mid := b[n..] + Parked(requests, indexed);
    RunsOfConcat(OverdueRuns(b[..n]), UpdateRuns(mid, updates), id);
    RunsOfConcat(log, TurnLog(b, now, requests, indexed, updates), id);
    RunsAfterUpdate(mid, updates, id);
    AllAre(RunsOf(UpdateRuns(mid, updates), id), AfterUpdate);
  }

  // A message waiting before a turn is run as overdue if it is at the expired
  // front, else after the update of its file if there is one, else it still waits.
  lemma WaitingServed(b: seq<Message>, raised: map<nat, string>, log: Log, now: int, requests: seq<Message>,
                      indexed: set<string>, updates: seq<Update>, raised': map<nat, string>, i: nat)
    requires DistinctIds(b) && Once(b, raised, log) && i < |b| && b[i].path != ""
    requires Once(TurnBacklog(b, now, requests, indexed, updates), raised', log + TurnLog(b, now, requests, indexed, updates))
    requires forall r :: r in requests ==> r.id != b[i].id
    requires b[i].id in raised' && raised'[b[i].id] == b[i].path
    requires "" !in Updated(updates)
    ensures RunsOf(log + TurnLog(b, now, requests, indexed, updates), b[i].id) ==
      if i < OverdueCount(b, now) then [Overdue] else if b[i].path in Updated(updates) then [AfterUpdate] else []
  {
    hide OverdueRuns, UpdateRuns, RunsOf, OverdueCount, Parked, ClearedPaths, Updated, Once, DistinctIds, TurnLog;
    var id, n := b[i].id, OverdueCount(b, now);
    var mid := b[n..] + Parked(requests, indexed);
    assert Waiting(b, id);
    WaitingRaised(b, raised, log, id);
    hide Waiting;
    OnceRuns(ClearedPaths(mid, Updated(updates)), raised', log + TurnLog(b, now, requests, indexed, updates), id);
    PartsDistinct(b, n);
    OverdueRunsOf(b[..n], id);
    RunsInTurn(log, b, now, requests, indexed, updates, id);
    if i >= n {
      assert mid[i - n] == b[i];
      OnlyAt(b, n, requests, indexed, i);
      ServedAt(mid, updates, i - n);
    }
    RunHow(RunsOf(log + TurnLog(b, now, requests, indexed, updates), id), RunsOf(OverdueRuns(b[..n]), id), RunsOf(UpdateRuns(mid, updates), id),
           Waiting(ClearedPaths(mid, Updated(updates)), id), i < n, b[i].path in Updated(updates));
  }

  lemma OnceRuns(b: seq<Message>, raised: map<nat, string>, log: Log, id: nat)
    requires Once(b, raised, log) && id in raised && raised[id] != ""
    ensures |RunsOf(log, id)| == if Waiting(b, id) then 0 else 1
  {
  }

  // One run in all: early as overdue, or after an update.
  lemma RunHow(runs: seq<Rerun>, first: seq<Rerun>, later: seq<Rerun>, waits: bool, early: bool, updated: bool)
    requires runs == first + later && |runs| == if waits then 0 else 1
    requires first == if early then [Overdue] else []
    requires (|later| == 0 ==> later == []) && (|later| == 1 ==> later == [AfterUpdate])
    requires !early ==> (waits <==> !updated)
    ensures runs == if early then [Overdue] else if updated then [AfterUpdate] else []
  {
  }

  // No other waiting message has the id of b[i].
  lemma OnlyAt(b: seq<Message>, n: nat, requests: seq<Message>, indexed: set<string>, i: nat)
    requires DistinctIds(b) && n <= i < |b| && b[i].path != "" && forall r :: r in requests ==> r.id != b[i].id
    ensures var mid := b[n..] + Parked(requests, indexed);
      forall j :: 0 <= j < |mid| && j != i - n && mid[j].id == b[i].id ==> mid[j].path == ""
  {
    var parked := Parked(requests, indexed);
    var mid := b[n..] + parked;
    forall j | 0 <= j < |mid| && j != i - n && mid[j].id == b[i].id
      ensures mid[j].path == ""
    {
      if j < |b| - n { assert mid[j] == b[n + j]; }
    }
  }

  // A message waits after the updates exactly when its file is not among them.
  lemma ServedAt(mid: seq<Message>, updates: seq<Update>, k: nat)
    requires k < |mid| && mid[k].path != "" && forall j :: 0 <= j < |mid| && j != k && mid[j].id == mid[k].id ==> mid[j].path == ""
    requires "" !in Updated(updates)
    ensures Waiting(ClearedPaths(mid, Updated(updates)), mid[k].id) <==> mid[k].path !in Updated(updates)
  {
    var after := ClearedPaths(mid, Updated(updates));
    if mid[k].path !in Updated(updates) { assert after[k] == mid[k]; }
    if j :| 0 <= j < |after| && after[j].id == mid[k].id && after[j].path != "" { assert mid[j].path != ""; }
  }

  // A new request is run again after the update of its file, if it was parked and
  // there is one.
  lemma RequestServed(b: seq<Message>, raised: map<nat, string>, log: Log, now: int, requests: seq<Message>,
                      indexed: set<string>, updates: seq<Update>, raised': map<nat, string>, r: Message)
    requires Once(b, raised, log) && r in requests && r.path != "" && r.id !in raised
    requires forall i, j :: 0 <= i < j < |requests| ==> requests[i].id != requests[j].id
    requires Once(TurnBacklog(b, now, requests, indexed, updates), raised', log + TurnLog(b, now, requests, indexed, updates))
    requires (r.id in raised' <==> r.path !in indexed) && (r.id in raised' ==> raised'[r.id] == r.path)
    requires "" !in Updated(updates)
    ensures RunsOf(log + TurnLog(b, now, requests, indexed, updates), r.id) ==
      if r.path !in indexed && r.path in Updated(updates) then [AfterUpdate] else []
  {
    var id, n := r.id, OverdueCount(b, now);
    var mid := b[n..] + Parked(requests, indexed);
    if r.path !in indexed {
      NotOverdue(b, raised, log, n, id);
      RunsInTurn(log, b, now, requests, indexed, updates, id);
      var k := OnlyParked(b, raised, log, n, requests, indexed, r);
      ServedAt(mid, updates, k);
      OnceRuns(ClearedPaths(mid, Updated(updates)), raised', log + TurnLog(b, now, requests, indexed, updates), id);
      hide OverdueRuns, UpdateRuns, RunsOf, OverdueCount, Parked, ClearedPaths, Updated, Waiting;
      RunHow(RunsOf(log + TurnLog(b, now, requests, indexed, updates), id), RunsOf(OverdueRuns(b[..n]), id), RunsOf(UpdateRuns(mid, updates), id),
             Waiting(ClearedPaths(mid, Updated(updates)), id), false, r.path in Updated(updates));
    }
  }

  // A message never raised before is not run as overdue.
  lemma NotOverdue(b: seq<Message>, raised: map<nat, string>, log: Log, n: nat, id: nat)
    requires Once(b, raised, log) && id !in raised && n <= |b|
    ensures RunsOf(OverdueRuns(b[..n]), id) == []
    decreases n
  {
    if n > 0 {
      NotOverdue(b, raised, log, n - 1, id);
      OverdueRunsSnoc(b, n - 1);
      RunsOfConcat(OverdueRuns(b[..n - 1]), if b[n - 1].path != "" then [(b[n - 1].id, Overdue)] else [], id);
    }
  }

  lemma OnlyParked(b: seq<Message>, raised: map<nat, string>, log: Log, n: nat, requests: seq<Message>, indexed: set<string>, r: Message)
    returns (k: nat)
    requires Once(b, raised, log) && n <= |b| && r in requests && r.path !in indexed && r.path != "" && r.id !in raised
    requires forall i, j :: 0 <= i < j < |requests| ==> requests[i].id != requests[j].id
    ensures var mid := b[n..] + Parked(requests, indexed);
      k < |mid| && mid[k] == r && forall j :: 0 <= j < |mid| && j != k && mid[j].id == r.id ==> mid[j].path == ""
  {
    var parked := Parked(requests, indexed);
    var mid := b[n..] + parked;
    assert r in parked;
    var p :| 0 <= p < |parked| && parked[p] == r;
    k := |b| - n + p;
    ParkedDistinct(requests, indexed);
    forall j | 0 <= j < |mid| && j != k && mid[j].id == r.id
      ensures mid[j].path == ""
    {
      if j < |b| - n { assert mid[j] == b[n + j]; }
    }
  }

  lemma {:induction false} ParkedDistinct(requests: seq<Message>, indexed: set<string>)
    requires forall i, j :: 0 <= i < j < |requests| ==> requests[i].id != requests[j].id
    ensures forall i, j :: 0 <= i < j < |Parked(requests, indexed)| ==> Parked(requests, indexed)[i].id != Parked(requests, indexed)[j].id
  {
    if requests != [] {
      var front := requests[..|requests| - 1];
      ParkedDistinct(front, indexed);
      forall m | m in Parked(front, indexed)
        ensures m.id != requests[|requests| - 1].id
      {
        var i :| 0 <= i < |front| && front[i] == m;
        assert requests[i] == m;
      }
      var p, q := Parked(requests, indexed), Parked(front, indexed);
      forall i, j | 0 <= i < j < |p|
        ensures p[i].id != p[j].id
      {
        assert p[i] == q[i] && q[i] in q;
        if j < |q| { assert p[j] == q[j] && q[i].id != q[j].id; }
      }
    }
  }

  lemma UpdatedSnoc(updates: seq<Update>, k: nat)
    requires k < |updates|
    ensures updates[..k + 1][..k] == updates[..k]
    ensures Updated(updates[..k + 1]) == Updated(updates[..k]) + {updates[k].0}
    ensures Referred(updates[..k + 1]) == Referred(updates[..k]) + updates[k].1
  {
    assert updates[..k + 1] == updates[..k] + [updates[k]];
  }

  // After the first n messages of the overdue part.
  ghost predicate OverdueSoFar(b: seq<Message>, b': seq<Message>, log: Log, log': Log, now: int, n: nat) {
    && n <= |b| && b' == b[n..] && log' == log + OverdueRuns(b[..n])
    && forall i :: 0 <= i < n && b[i].path != "" ==> b[i].deadline <= now
  }

  lemma OverdueStep(b: seq<Message>, b': seq<Message>, log: Log, log': Log, now: int, n: nat)
    requires OverdueSoFar(b, b', log, log', now, n) && b' != []
    ensures b'[0].path == "" ==> OverdueSoFar(b, b'[1..], log, log', now, n + 1)
    ensures b'[0].path != "" && b'[0].deadline <= now ==> OverdueSoFar(b, b'[1..], log, log' + [(b'[0].id, Overdue)], now, n + 1)
  {
    NextMessage(b, n);
    OverdueRunsSnoc(b, n);
    hide OverdueRuns;
    assert log + OverdueRuns(b[..n]) + [(b'[0].id, Overdue)] == log + (OverdueRuns(b[..n]) + [(b'[0].id, Overdue)]);
    assert b'[0].path == "" ==> OverdueRuns(b[..n]) + [] == OverdueRuns(b[..n]);
  }

  // After the first k updates of a turn.
  ghost predicate UpdatedSoFar(indexed: set<string>, indexed': set<string>, b: seq<Message>, b': seq<Message>, log: Log, log': Log, updates: seq<Update>, k: nat) {
    && k <= |updates| && indexed' == indexed + Updated(updates[..k]) + Referred(updates[..k])
    && b' == ClearedPaths(b, Updated(updates[..k])) && log' == log + UpdateRuns(b, updates[..k])
  }

  lemma NoUpdateYet(indexed: set<string>, b: seq<Message>, log: Log, updates: seq<Update>)
    ensures UpdatedSoFar(indexed, indexed, b, b, log, log, updates, 0)
  {
    assert ClearedPaths(b, {}) == b;
  }

  lemma UpdatedStep(indexed: set<string>, indexed': set<string>, b: seq<Message>, b': seq<Message>, log: Log, log': Log, updates: seq<Update>, k: nat)
    requires UpdatedSoFar(indexed, indexed', b, b', log, log', updates, k) && k < |updates|
    ensures var p := updates[k].0;
      UpdatedSoFar(indexed, indexed' + {p} + updates[k].1, b, ClearedPath(b', p), log, log' + AllRun(IdsOf(b', p), AfterUpdate), updates, k + 1)
  {
    hide AllRun, IdsOf, ClearedPath, ClearedPaths, Updated, Referred;
    UpdatedSnoc(updates, k);
    ClearedMore(b, Updated(updates[..k]), updates[k].0);
    var runs := AllRun(IdsOf(b', updates[k].0), AfterUpdate);
    assert UpdateRuns(b, updates[..k + 1]) == UpdateRuns(b, updates[..k]) + runs;
    assert log + UpdateRuns(b, updates[..k]) + runs == log + (UpdateRuns(b, updates[..k]) + runs);
  }

  lemma AllUpdated(indexed: set<string>, indexed': set<string>, b: seq<Message>, b': seq<Message>, log: Log, log': Log, updates: seq<Update>)
    requires UpdatedSoFar(indexed, indexed', b, b', log, log', updates, |updates|)
    ensures indexed' == indexed + Updated(updates) + Referred(updates) && b' == ClearedPaths(b, Updated(updates)) && log' == log + UpdateRuns(b, updates)
  {
    assert updates[..|updates|] == updates;
  }

  class MainLoop {
    var backlog: seq<Message>
    var path2backlog: map<string, seq<nat>>
    var indexed: set<string>                   // files with a definition
    ghost var raised: map<nat, string>         // messages parked so far, and for which path
    ghost var log: Log

    ghost predicate Valid()
      reads this
    {
      DistinctIds(backlog) && Listing(path2backlog, backlog) && Once(backlog, raised, log)
    }

    constructor ()
      ensures Valid() && backlog == [] && raised == map[] && indexed == {} && log == []
    {
      backlog, path2backlog, indexed, raised, log := [], map[], {}, map[], [];
    }

    // handler.run on a parked message.
    method Run(id: nat, how: Rerun)
      modifies this`log
      ensures log == old(log) + [(id, how)]
    {
      log := log + [(id, how)];
    }

    // Runs a new request: it raises NotIndexed if its file has no definition. An
    // empty path marks a message that has been run again, so a request for the
    // empty path is parked as if it had.
    method Receive(id: nat, path: string, deadline: int) returns (parked: bool)
      requires Valid() && id !in raised
      modifies this
      ensures Valid() && indexed == old(indexed) && parked == (path !in indexed)
      ensures raised == if parked then old(raised)[id := path] else old(raised)
      ensures backlog == if parked then old(backlog) + [Message(id, path, deadline)] else old(backlog)
      ensures forall i :: Waiting(backlog, i) <==> old(Waiting(backlog, i)) || (parked && i == id && path != "")
      ensures log == old(log)
    {
      parked := path !in indexed;
      if parked {
        var m := Message(id, path, deadline);
        ParkSettled(backlog, path2backlog, raised, log, m);
        hide IdsOf, Waiting, DistinctIds, Listing, Once;
        backlog := backlog + [m];
        path2backlog := path2backlog[path := Listed(path2backlog, path) + [id]];
        raised := raised[id := path];
      }
    }

    // Runs the message at the front as overdue and drops it.
    method RunFront()
      requires Valid() && backlog != [] && backlog[0].path != ""
      modifies this
      ensures Valid() && backlog == old(backlog[1..]) && raised == old(raised) && indexed == old(indexed)
      ensures log == old(log) + [(old(backlog[0].id), Overdue)]
    {
      var m := backlog[0];
      FrontSettled(backlog, path2backlog, raised, log);
      hide IdsOf, Waiting, DistinctIds, Listing, Once;
      Run(m.id, Overdue);
      path2backlog := path2backlog[m.path := Listed(path2backlog, m.path)[1..]];
      backlog := backlog[1..];
    }

    // The overdue part of a turn: what has expired at the front leaves and is run,
    // in order, unless it has been run before.
    method RunOverdue(now: int)
      requires Valid()
      modifies this
      ensures Valid() && raised == old(raised) && indexed == old(indexed)
      ensures var n := OverdueCount(old(backlog), now);
        backlog == old(backlog)[n..] && log == old(log) + OverdueRuns(old(backlog)[..n])
    {
      hide OverdueCount;
      ghost var n: nat := 0;
      ghost var b := backlog;
      assert OverdueSoFar(b, backlog, log, log, now, 0) by { assert backlog == backlog[0..] && log == log + OverdueRuns(backlog[..0]); }
      while backlog != []
        invariant Valid() && raised == old(raised) && indexed == old(indexed)
        invariant OverdueSoFar(b, backlog, old(log), log, now, n)
        decreases |backlog|
      {
        OverdueStep(b, backlog, old(log), log, now, n);
        hide OverdueRuns, Once, Listing, DistinctIds, OverdueSoFar;
        if backlog[0].path != "" {
          if now < backlog[0].deadline { break; }
          RunFront();
        } else {
          DoneSettled(backlog, path2backlog, raised, log);
          backlog := backlog[1..];
        }
        n := n + 1;
      }
      OverdueCountIs(b, now, n);
    }

    // Runs the listed messages again, in order, and clears their paths.
    method RunListed(ids: seq<nat>)
      modifies this`backlog, this`log
      ensures backlog == ClearedIds(old(backlog), ids)
      ensures log == old(log) + AllRun(ids, AfterUpdate)
    {
      ghost var b := backlog;
      for k := 0 to |ids|
        invariant backlog == ClearedIds(b, ids[..k])
        invariant log == old(log) + AllRun(ids[..k], AfterUpdate)
      {
        assert ids[..k + 1] == ids[..k] + [ids[k]];
        Run(ids[k], AfterUpdate);
        assert AllRun(ids[..k + 1], AfterUpdate) == AllRun(ids[..k], AfterUpdate) + [(ids[k], AfterUpdate)];
        ClearPath(ids[k]);
        ClearedNext(b, ids[..k], ids[k]);
      }
      assert ids[..|ids|] == ids;
    }

    // An update of path p has been applied: all messages parked for it are run
    // again, in order; their file is indexed now, so none is parked again. Files
    // the update refers to have definitions as well, but no message is run.
    method UpdateApplied(p: string, referred: set<string>)
      requires Valid() && p != ""
      modifies this
      ensures Valid() && raised == old(raised) && indexed == old(indexed) + {p} + referred
      ensures backlog == ClearedPath(old(backlog), p)
      ensures forall id :: Waiting(backlog, id) <==> old(Waiting(backlog, id)) && id in raised && raised[id] != p
      ensures log == old(log) + AllRun(IdsOf(old(backlog), p), AfterUpdate)
    {
      ghost var b, m, before := backlog, path2backlog, log;
      assert Listed(m, p) == IdsOf(b, p);
      ClearedAll(b, p);
      PathSettled(b, p, m, raised, before);
      hide IdsOf, ClearedPath, ClearedIds, Waiting, DistinctIds, Listing, Once;
      indexed := indexed + {p} + referred;
      if p in path2backlog {
        RunListed(path2backlog[p]);
        path2backlog := path2backlog - {p};
      } else {
        assert log == before + AllRun([], AfterUpdate);
      }
      assert path2backlog == m - {p};
    }

    // message->backlog_path.clear() through the pointer.
    method ClearPath(id: nat)
      modifies this`backlog
      ensures backlog == ClearedIds(old(backlog), [id])
    {
      var i := 0;
      while i < |backlog|
        invariant i <= |backlog| == |old(backlog)|
        invariant forall j :: 0 <= j < i ==> backlog[j] == ClearedIds(old(backlog), [id])[j]
        invariant forall j :: i <= j < |backlog| ==> backlog[j] == old(backlog)[j]
      {
        if backlog[i].id == id { backlog := backlog[i := backlog[i].(path := "")]; }
        i := i + 1;
      }
    }

    // New requests: those whose file has no definition are parked, in order.
    method ReceiveAll(requests: seq<Message>)
      requires Valid()
      requires forall i :: 0 <= i < |requests| ==> requests[i].id !in raised
      requires forall i, j :: 0 <= i < j < |requests| ==> requests[i].id != requests[j].id
      modifies this
      ensures Valid() && log == old(log) && indexed == old(indexed)
      ensures backlog == old(backlog) + Parked(requests, indexed)
      ensures forall id :: id in old(raised) ==> id in raised && raised[id] == old(raised)[id]
      ensures forall i :: 0 <= i < |requests| ==>
        (requests[i].id in raised <==> requests[i].path !in indexed) && (requests[i].id in raised ==> raised[requests[i].id] == requests[i].path)
    {
      hide Once, Listing, Waiting, DistinctIds, IdsOf, Parked;
      NoneParked(requests, indexed);
      for k := 0 to |requests|
        invariant Valid() && log == old(log) && indexed == old(indexed)
        invariant backlog == old(backlog) + Parked(requests[..k], indexed)
        invariant forall i :: k <= i < |requests| ==> requests[i].id !in raised
        invariant forall id :: id in old(raised) ==> id in raised && raised[id] == old(raised)[id]
        invariant forall i :: 0 <= i < k ==>
          (requests[i].id in raised <==> requests[i].path !in indexed) && (requests[i].id in raised ==> raised[requests[i].id] == requests[i].path)
      {
        var parked := Receive(requests[k].id, requests[k].path, requests[k].deadline);
        assert Message(requests[k].id, requests[k].path, requests[k].deadline) == requests[k];
        ParkedSnoc(requests, indexed, k);
      }
      assert requests[..|requests|] == requests;
    }

    // The updates of a turn, one after the other.
    method ApplyAll(updates: seq<Update>)
      requires Valid() && forall i :: 0 <= i < |updates| ==> updates[i].0 != ""
      modifies this
      ensures Valid() && raised == old(raised) && indexed == old(indexed) + Updated(updates) + Referred(updates)
      ensures backlog == ClearedPaths(old(backlog), Updated(updates))
      ensures log == old(log) + UpdateRuns(old(backlog), updates)
    {
      hide Once, Listing, Waiting, DistinctIds, IdsOf;
      NoUpdateYet(indexed, backlog, log, updates);
      hide UpdatedSoFar;
      for k := 0 to |updates|
        invariant Valid() && raised == old(raised) && UpdatedSoFar(old(indexed), indexed, old(backlog), backlog, old(log), log, updates, k)
      {
        UpdatedStep(old(indexed), indexed, old(backlog), backlog, old(log), log, updates, k);
        UpdateApplied(updates[k].0, updates[k].1);
      }
      AllUpdated(old(indexed), indexed, old(backlog), backlog, old(log), log, updates);
    }

    // One turn of the main loop: overdue messages, new requests, applied updates.
    // A message that waited, or is parked now, is run once, the way that comes
    // first, or waits on; nothing is run again that was run before.
    method Iterate(now: int, requests: seq<Message>, updates: seq<Update>)
      requires Valid()
      requires forall i :: 0 <= i < |requests| ==> requests[i].id !in raised
      requires forall i, j :: 0 <= i < j < |requests| ==> requests[i].id != requests[j].id
      requires forall i :: 0 <= i < |updates| ==> updates[i].0 != ""
      modifies this
      ensures Valid() && indexed == old(indexed) + Updated(updates) + Referred(updates)
      ensures log == old(log) + TurnLog(old(backlog), now, requests, old(indexed), updates)
      ensures backlog == TurnBacklog(old(backlog), now, requests, old(indexed), updates)
      ensures forall i :: 0 <= i < |old(backlog)| && old(backlog)[i].path != "" ==> (
        RunsOf(log, old(backlog)[i].id) ==
          if i < OverdueCount(old(backlog), now) then [Overdue] else if old(backlog)[i].path in Updated(updates) then [AfterUpdate] else [])
      ensures forall r :: r in requests && r.path != "" ==> (
        RunsOf(log, r.id) == if r.path !in old(indexed) && r.path in Updated(updates) then [AfterUpdate] else [])
      ensures forall id :: old(RunsOf(log, id)) != [] ==> RunsOf(log, id) == old(RunsOf(log, id))
      ensures forall id :: id in old(raised) ==> id in raised && raised[id] == old(raised)[id]
      ensures forall i :: 0 <= i < |requests| ==>
        (requests[i].id in raised <==> requests[i].path !in old(indexed)) && (requests[i].id in raised ==> raised[requests[i].id] == requests[i].path)
    {
      hide Waiting, OverdueCount, RunsOf, Listing, DistinctIds, OverdueRuns, UpdateRuns, ClearedPaths, Parked, Once;
      ghost var b, raised0, log0, indexed0 := backlog, raised, log, indexed;
      RunOverdue(now);
      ReceiveAll(requests);
      ApplyAll(updates);
      ghost var more := TurnLog(b, now, requests, indexed0, updates);
      assert log == log0 + more;
      hide TurnLog, TurnBacklog;
      forall id | RunsOf(log0, id) != []
        ensures RunsOf(log, id) == RunsOf(log0, id)
      {
        RunsFinal(b, backlog, raised0, raised, log0, more, id);
      }
      RaisedBefore(b, raised0, log0);
      forall i | 0 <= i < |b| && b[i].path != ""
        ensures RunsOf(log, b[i].id) == if i < OverdueCount(b, now) then [Overdue] else if b[i].path in Updated(updates) then [AfterUpdate] else []
      {
        WaitingServed(b, raised0, log0, now, requests, indexed0, updates, raised, i);
      }
      forall r | r in requests && r.path != ""
        ensures RunsOf(log, r.id) == if r.path !in indexed0 && r.path in Updated(updates) then [AfterUpdate] else []
      {
        RequestServed(b, raised0, log0, now, requests, indexed0, updates, raised, r);
      }
    }
  }
}
