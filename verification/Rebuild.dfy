// Incremental maintenance equals rebuilding: after any run of in-order updates
// the database holds exactly what the current versions of all files contribute
// (src/query.cc).
module Rebuild {
  import opened Index
  import opened Sums
  import opened Delta
  import opened Occurrences
  import opened EntityTable
  import opened Database

  // The version last applied for each path.
  type Versions = map<string, IndexFile>

  function VersionOf(vs: Versions, p: string): IndexFile { if p in vs then vs[p] else EmptyFile(p) }

  predicate WellPlaced(ids: map<string, nat>, vs: Versions) {
    && (forall p :: p in vs ==> vs[p].path == p && Registered(ids, vs[p]))
    && (forall p, q :: p in ids && q in ids && ids[p] == ids[q] ==> p == q)
  }

  // ---------- Reference counts ----------

  ghost function OccsAt(ids: map<string, nat>, vs: Versions): string -> multiset<Occ> {
    (p: string) => FileOccs(ids, VersionOf(vs, p))
  }

  // What a database rebuilt from vs counts.
  ghost function AllOccs(ids: map<string, nat>, vs: Versions): multiset<Occ> { Sum(vs.Keys, OccsAt(ids, vs)) }

  lemma AllOccsUpdate(ids: map<string, nat>, vs: Versions, cur: IndexFile)
    ensures AllOccs(ids, vs[cur.path := cur]) + FileOccs(ids, VersionOf(vs, cur.path)) == AllOccs(ids, vs) + FileOccs(ids, cur)
    ensures FileOccs(ids, VersionOf(vs, cur.path)) <= AllOccs(ids, vs)
  {
    EmptyFileOccs(ids, cur.path);
    hide FileOccs;
    var vs' := vs[cur.path := cur];
    SumUpdate(vs.Keys, OccsAt(ids, vs), OccsAt(ids, vs'), cur.path);
    assert vs'.Keys == vs.Keys + {cur.path};
  }

  lemma AllOccsGrow(ids: map<string, nat>, ids': map<string, nat>, vs: Versions)
    requires IdsGrow(ids, ids') && WellPlaced(ids, vs)
    ensures AllOccs(ids, vs) == AllOccs(ids', vs)
  {
    forall p | p in vs
      ensures OccsAt(ids, vs)(p) == OccsAt(ids', vs)(p)
    {
      FileOccsGrow(ids, ids', vs[p]);
    }
    SumCongruent(vs.Keys, OccsAt(ids, vs), OccsAt(ids', vs));
  }

  // ---------- Definitions ----------

  function DefsOf(defs: seq<QDef>, fileId: nat): seq<QDef> {
    if defs == [] then []
    else if defs[0].fileId == fileId then [defs[0]] + DefsOf(defs[1..], fileId)
    else DefsOf(defs[1..], fileId)
  }

  // The definition a file version contributes to the entity u.
  function OwnDef(c: Context, es: Entities, u: Usr): seq<QDef> {
    if u in es && es[u].def.Named() then [StoredDef(c, es[u].def)] else []
  }

  lemma {:induction false} DefsOfErase(defs: seq<QDef>, fileId: nat, f: nat)
    ensures DefsOf(EraseDef(defs, fileId), f) ==
            if f == fileId && DefsOf(defs, f) != [] then DefsOf(defs, f)[1..] else DefsOf(defs, f)
  {
    if defs != [] {
      DefsOfErase(defs[1..], fileId, f);
      if defs[0].fileId == fileId {
        assert DefsOf(defs, fileId) == [defs[0]] + DefsOf(defs[1..], fileId);
      } else {
        assert EraseDef(defs, fileId)[1..] == EraseDef(defs[1..], fileId);
      }
    }
  }

  lemma {:induction false} DefsOfPut(defs: seq<QDef>, d: QDef, f: nat)
    ensures DefsOf(PutDef(defs, d), f) ==
            if f != d.fileId then DefsOf(defs, f) else if DefsOf(defs, f) == [] then [d] else [d] + DefsOf(defs, f)[1..]
  {
    if defs == [] {
      assert DefsOf([d], f) == if d.fileId == f then [d] + DefsOf([d][1..], f) else DefsOf([d][1..], f);
      assert [d] + [] == [d];
    } else if defs[0].fileId == d.fileId {
      assert ([d] + defs[1..])[1..] == defs[1..];
      assert DefsOf(PutDef(defs, d), f) == if d.fileId == f then [d] + DefsOf(defs[1..], f) else DefsOf(defs[1..], f);
    } else {
      DefsOfPut(defs[1..], d, f);
      assert PutDef(defs, d)[1..] == PutDef(defs[1..], d);
    }
  }

  lemma {:induction false} EraseAllOnce(defs: seq<QDef>, removed: seq<(Usr, Def)>, fileId: nat, u: Usr)
    requires forall i, j :: 0 <= i < j < |removed| ==> removed[i].0 != removed[j].0
    ensures EraseAll(defs, removed, fileId, u) ==
            if exists i :: 0 <= i < |removed| && removed[i].0 == u then EraseDef(defs, fileId) else defs
  {
    if removed != [] {
      EraseAllOnce(defs, removed[..|removed| - 1], fileId, u);
      assert removed[|removed| - 1].0 == u ==> forall i :: 0 <= i < |removed| - 1 ==> removed[i].0 != u;
    }
  }

  lemma {:induction false} PutAllOnce(defs: seq<QDef>, added: seq<(Usr, Def)>, c: Context, u: Usr)
    requires forall i, j :: 0 <= i < j < |added| ==> added[i].0 != added[j].0
    ensures forall i :: 0 <= i < |added| && added[i].0 == u ==> PutAll(defs, added, c, u) == PutDef(defs, StoredDef(c, added[i].1))
    ensures (forall i :: 0 <= i < |added| ==> added[i].0 != u) ==> PutAll(defs, added, c, u) == defs
  {
    if added != [] {
      var n := |added| - 1;
      PutAllOnce(defs, added[..n], c, u);
      if added[n].0 == u {
        assert forall i :: 0 <= i < n ==> added[..n][i].0 != u;
      }
      forall i | 0 <= i < n && added[i].0 == u
        ensures PutAll(defs, added, c, u) == PutDef(defs, StoredDef(c, added[i].1))
      {
        assert added[..n][i] == added[i];
      }
    }
  }

  lemma ErasedDefs(defs: seq<QDef>, k: KindUpdate, es: Entities, es': Entities, c: Context, u: Usr, f: nat)
    requires IsKindDelta(k, es, es')
    requires |DefsOf(defs, c.self)| == if u in es && es[u].def.Named() then 1 else 0
    ensures DefsOf(EraseAll(defs, k.removed, c.self, u), f) == if f == c.self then [] else DefsOf(defs, f)
  {
    EraseAllOnce(defs, k.removed, c.self, u);
    DefsOfErase(defs, c.self, f);
    if u in es && es[u].def.Named() {
      var i :| 0 <= i < |k.removed| && k.removed[i] == (u, es[u].def);
      assert k.removed[i].0 == u;
    }
  }

  lemma PlacedDefs(defs: seq<QDef>, k: KindUpdate, es: Entities, es': Entities, c: Context, u: Usr, f: nat)
    requires IsKindDelta(k, es, es')
    requires DefsOf(defs, c.self) == []
    ensures DefsOf(PutAll(defs, k.defUpdate, c, u), f) == if f == c.self then OwnDef(c, es', u) else DefsOf(defs, f)
  {
    PutAllOnce(defs, k.defUpdate, c, u);
    if u in es' && es'[u].def.Named() {
      var i :| 0 <= i < |k.defUpdate| && k.defUpdate[i] == (u, es'[u].def);
      assert k.defUpdate[i].0 == u;
      DefsOfPut(defs, StoredDef(c, es'[u].def), f);
    }
  }

  // An update replaces the file's own definition and no other.
  lemma DefsAfterOf(defs: seq<QDef>, k: KindUpdate, es: Entities, es': Entities, old': Context, c: Context, u: Usr, f: nat)
    requires IsKindDelta(k, es, es') && DefsOf(defs, c.self) == OwnDef(old', es, u)
    ensures DefsOf(DefsAfter(defs, k, c, u), f) == if f == c.self then OwnDef(c, es', u) else DefsOf(defs, f)
  {
    ErasedDefs(defs, k, es, es', c, u, f);
    ErasedDefs(defs, k, es, es', c, u, c.self);
    PlacedDefs(EraseAll(defs, k.removed, c.self, u), k, es, es', c, u, f);
  }

  // Each entity has exactly one definition per file that currently names it.
  ghost predicate DefsExact(rows: imap<Usr, Row>, kind: Kind, ids: map<string, nat>, vs: Versions) {
    forall u: Usr, p :: u in rows && p in vs && p in ids ==>
      DefsOf(rows[u].defs, ids[p]) == OwnDef(ContextOf(ids, vs[p]), EntitiesOf(vs[p], kind), u)
  }

  // and none of any other file.
  ghost predicate NoStrayDefs(rows: imap<Usr, Row>, ids: map<string, nat>, vs: Versions) {
    forall u: Usr, f: nat :: u in rows && DefsOf(rows[u].defs, f) != [] ==> exists p :: p in vs && p in ids && ids[p] == f
  }

  lemma DefsExactStep(rows: imap<Usr, Row>, kind: Kind, k: KindUpdate, ids: map<string, nat>, vs: Versions, cur: IndexFile)
    requires DefsExact(rows, kind, ids, vs) && NoStrayDefs(rows, ids, vs)
    requires WellPlaced(ids, vs) && Registered(ids, cur)
    requires IsKindDelta(k, EntitiesOf(VersionOf(vs, cur.path), kind), EntitiesOf(cur, kind))
    ensures var rows' := RowsAfter(rows, kind, k, ContextOf(ids, VersionOf(vs, cur.path)), ContextOf(ids, cur));
      var vs' := vs[cur.path := cur];
      DefsExact(rows', kind, ids, vs') && NoStrayDefs(rows', ids, vs')
  {
    var prev, vs' := VersionOf(vs, cur.path), vs[cur.path := cur];
    var old', c := ContextOf(ids, prev), ContextOf(ids, cur);
    var rows' := RowsAfter(rows, kind, k, old', c);
    hide IsKindDelta, EntitiesOf, ContextOf, DefsOf, OwnDef, DefsAfter;
    forall u: Usr, f: nat | u in rows
      ensures DefsOf(rows'[u].defs, f) == if f == c.self then OwnDef(c, EntitiesOf(cur, kind), u) else DefsOf(rows[u].defs, f)
    {
      OwnDefsBefore(rows, kind, ids, vs, cur, u);
      DefsAfterOf(rows[u].defs, k, EntitiesOf(prev, kind), EntitiesOf(cur, kind), old', c, u, f);
    }
    SelfOf(ids, cur);
  }

  lemma SelfOf(ids: map<string, nat>, v: IndexFile)
    requires Registered(ids, v)
    ensures ContextOf(ids, v).self == ids[v.path]
  {
  }

  // Before the update the file's own definitions are those of its last version.
  lemma OwnDefsBefore(rows: imap<Usr, Row>, kind: Kind, ids: map<string, nat>, vs: Versions, cur: IndexFile, u: Usr)
    requires u in rows && DefsExact(rows, kind, ids, vs) && NoStrayDefs(rows, ids, vs)
    requires WellPlaced(ids, vs) && Registered(ids, cur)
    ensures var prev := VersionOf(vs, cur.path);
      DefsOf(rows[u].defs, ContextOf(ids, cur).self) == OwnDef(ContextOf(ids, prev), EntitiesOf(prev, kind), u)
  {
    SelfOf(ids, cur);
    if cur.path !in vs {
      assert EntitiesOf(EmptyFile(cur.path), kind) == map[];
    }
  }

  lemma DefsExactGrow(rows: imap<Usr, Row>, kind: Kind, ids: map<string, nat>, ids': map<string, nat>, vs: Versions)
    requires IdsGrow(ids, ids') && WellPlaced(ids, vs)
    requires DefsExact(rows, kind, ids, vs) && NoStrayDefs(rows, ids, vs)
    ensures DefsExact(rows, kind, ids', vs) && NoStrayDefs(rows, ids', vs)
  {
    forall p | p in vs
      ensures ContextOf(ids, vs[p]) == ContextOf(ids', vs[p]) && p in ids && ids'[p] == ids[p]
    {
      ContextGrows(ids, ids', vs[p]);
    }
    hide ContextOf, OwnDef, EntitiesOf, DefsOf;
  }
}
