// The three parts together: what the indexer threads push from a real cache,
// delivered without overtaking, leaves the database as if it had been rebuilt
// from the versions applied (src/pipeline.cc, src/serializer.cc, src/query.cc).
module EndToEnd {
  import opened Index
  import opened Delta
  import opened Database
  import opened History
  import opened Pipeline
  import opened Delivery
  import opened CacheFile

  // Index files as the indexer makes them: C strings, 64-bit sizes, absent
  // spellings in default form.
  predicate GoodFile(f: IndexFile) { StorableFile(f) && NormalFile(f) == f }

  ghost predicate Written(s: Stored, f: IndexFile) { exists l :: Lists(l, f) && s == FileBytes(l) }

  // The settings with the binary cache format.
  ghost function BinaryCache(retain: int, onDisk: bool, bucket: string -> int): Settings {
    Settings(retain, onDisk, bucket, (f: IndexFile) => GoodFile(f), (s: Stored, f: IndexFile) => Written(s, f), (p: string, s: Stored) => Parse(p, s))
  }

  lemma ParsedPath(p: string, s: Stored)
    ensures Parse(p, s).Some? ==> Parse(p, s).value.path == p
  {
    hide FileCodec, MapOf;
  }

  lemma WrittenReadsBack(f: IndexFile, s: Stored)
    requires GoodFile(f) && Written(s, f)
    ensures Parse(f.path, s) == Some(f)
  {
    hide Parse, FileBytes, Lists, StorableFile, FileCodec, NormalListing;
    var l :| Lists(l, f) && s == FileBytes(l);
    CacheRoundTrip(f, l, []);
  }

  // The binary format is the reliable storage the indexer threads rely on.
  lemma BinaryCacheLegal(retain: int, onDisk: bool, bucket: string -> int)
    requires !onDisk ==> retain == 1
    ensures BinaryCache(retain, onDisk, bucket).Legal()
  {
    hide Parse, GoodFile, Written;
    forall f, s | GoodFile(f) && Written(s, f)
      ensures Parse(f.path, s) == Some(f)
    {
      WrittenReadsBack(f, s);
    }
    forall p, s
      ensures Parse(p, s).Some? ==> Parse(p, s).value.path == p
    {
      ParsedPath(p, s);
    }
  }

  // Any interleaving of any number of indexer threads, any delivery without
  // overtaking: the database is current for the versions applied so far.
  method ServeIndexed(log: seq<IndexUpdate>, ghost retain: int, ghost onDisk: bool, ghost bucket: string -> int,
                      ghost run: seq<State>, ghost actions: seq<Action>, ghost n: nat,
                      ghost qs: seq<Queue>, ghost es: seq<Event>, ghost m: nat) returns (db: Db)
    requires !onDisk ==> retain == 1
    requires IsRun(BinaryCache(retain, onDisk, bucket), run, actions) && n < |run|
    requires IsDelivery(run[n].pushed, qs, es) && NoOvertaking(run[n].pushed, qs, es) && m < |qs|
    requires forall i :: i in qs[m].applied ==> i < |run[n].pushed|
    requires log == Updates(AppliedItems(qs[m], run[n].pushed))
    ensures Current(db, Latest(Currents(AppliedItems(qs[m], run[n].pushed))))
    ensures var cs := Currents(AppliedItems(qs[m], run[n].pushed));
      DefinedExact(db, cs) && (EveryKnown(cs) ==> forall l :: AlwaysApart(l, cs) ==> ListsCurrent(l, db, Latest(cs)))
    ensures qs[m].pushed == |run[n].pushed| && !CanPop(qs[m]) ==> Current(db, Latest(Currents(run[n].pushed)))
  {
    hide IsRun, IsDelivery, NoOvertaking, InOrder, Current, ListsCurrent, AlwaysApart, EveryKnown, DefinedExact, Db.Valid, BinaryCache, Settings.Legal, Latest, Currents, Updates, AppliedItems, Delivered;
    BinaryCacheLegal(retain, onDisk, bucket);
    PushedChain(BinaryCache(retain, onDisk, bucket), run, actions, n);
    DeliveredInOrder(run[n].pushed, qs, es, m);
    DeliveryInv(run[n].pushed, qs, es, m);
    db := Replay(log, Currents(AppliedItems(qs[m], run[n].pushed)));
    if qs[m].pushed == |run[n].pushed| && !CanPop(qs[m]) {
      SameLatest(qs[m], run[n].pushed);
    }
  }

  lemma SameLatest(q: Queue, items: seq<Item>)
    requires Delivered(q, items) && q.pushed == |items| && !CanPop(q)
    requires forall i :: i in q.applied ==> i < |items|
    ensures Latest(Currents(AppliedItems(q, items))) == Latest(Currents(items))
  {
    hide Latest, Currents, AppliedItems, Delivered;
    var done := AppliedItems(q, items);
    forall p: string
      ensures LastPushed(done, p) == LastPushed(items, p)
    {
      AllDelivered(q, items, p);
    }
    SameVersions(done, items);
  }

  lemma SameVersions(a: seq<Item>, b: seq<Item>)
    requires forall p :: LastPushed(a, p) == LastPushed(b, p)
    ensures Latest(Currents(a)) == Latest(Currents(b))
  {
    var vs, ws := Latest(Currents(a)), Latest(Currents(b));
    hide Latest, Currents;
    forall p: string
      ensures p in vs <==> p in ws
      ensures p in vs ==> vs[p] == ws[p]
    {
      assert LastPushed(a, p) == LastPushed(b, p);
    }
  }
}
