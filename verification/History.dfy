// Whole runs of the database: after any in-order sequence of updates it equals
// a database rebuilt from the versions current at that point (src/query.cc).
module History {
  import opened Index
  import opened Sums
  import opened Delta
  import opened Occurrences
  import opened EntityTable
  import opened Database
  import opened Rebuild
  import opened EntityLists
  import opened Sites

  // Files with a current version have its definition, files they refer to have
  // some, and files without a version at most the empty one.
  ghost predicate FileDefsExact(fileDefs: seq<Option<FileDef>>, ids: map<string, nat>, vs: Versions) {
    && (forall p :: p in vs ==> DefAt(fileDefs, ids, p) == Some(FileDefOf(vs[p])))
    && (forall p :: p !in vs ==> DefAt(fileDefs, ids, p) in {None, Some(ReferredDef(p))})
    && (forall q, p :: q in vs && ListsPath(vs[q].lid2path, p) ==> DefAt(fileDefs, ids, p).Some?)
  }

  ghost predicate KindExact(rows: imap<Usr, Row>, kind: Kind, ids: map<string, nat>, vs: Versions) {
    DefsExact(rows, kind, ids, vs) && NoStrayDefs(rows, ids, vs)
  }

  // The database holds what the versions vs contribute: reference counts, file
  // definitions, and one definition per naming file in every entity.
  ghost predicate Current(db: Db, vs: Versions)
    reads db, db.funcs, db.types, db.vars
  {
    && db.Valid()
    && WellPlaced(db.name2id, vs)
    && db.total == AllOccs(db.name2id, vs)
    && FileDefsExact(db.fileDefs, db.name2id, vs)
    && KindExact(db.funcs.Rows(), Func, db.name2id, vs)
    && KindExact(db.types.Rows(), Type, db.name2id, vs)
    && KindExact(db.vars.Rows(), Var, db.name2id, vs)
  }

  // All lists of a kind are the sums of the files' contributions.
  ghost predicate ListsCurrent(l: ListKind, db: Db, vs: Versions)
    reads db, db.funcs, db.types, db.vars
    requires db.Valid()
  {
    && ListsExact(l, db.funcs.Rows(), Func, db.name2id, vs)
    && ListsExact(l, db.types.Rows(), Type, db.name2id, vs)
    && ListsExact(l, db.vars.Rows(), Var, db.name2id, vs)
  }

  ghost predicate AllClean(l: ListKind, ids: map<string, nat>, vs: Versions, p: string) {
    ListsClean(l, Func, ids, vs, p) && ListsClean(l, Type, ids, vs, p) && ListsClean(l, Var, ids, vs, p)
  }

  lemma WellPlacedStep(ids: map<string, nat>, ids': map<string, nat>, vs: Versions, cur: IndexFile)
    requires WellPlaced(ids, vs) && IdsGrow(ids, ids') && Registered(ids', cur)
    requires forall p, q :: p in ids' && q in ids' && ids'[p] == ids'[q] ==> p == q
    ensures WellPlaced(ids', vs) && WellPlaced(ids', vs[cur.path := cur])
  {
  }

  lemma FileDefsStep(fs: seq<Option<FileDef>>, fs': seq<Option<FileDef>>, ids: map<string, nat>, ids': map<string, nat>, vs: Versions, cur: IndexFile)
    requires FileDefsExact(fs, ids, vs)
    requires forall p :: DefAt(fs', ids', p) == NextDef(DefAt(fs, ids, p), cur, p)
    ensures FileDefsExact(fs', ids', vs[cur.path := cur])
  {
    hide FileDefOf, DefAt, ListsPath;
  }

  lemma KindExactStep(rows: imap<Usr, Row>, rows': imap<Usr, Row>, kind: Kind, k: KindUpdate, ids: map<string, nat>, ids': map<string, nat>, vs: Versions, cur: IndexFile)
    requires KindExact(rows, kind, ids, vs) && WellPlaced(ids, vs) && IdsGrow(ids, ids') && WellPlaced(ids', vs) && Registered(ids', cur)
    requires IsKindDelta(k, EntitiesOf(VersionOf(vs, cur.path), kind), EntitiesOf(cur, kind))
    requires rows' == RowsAfter(rows, kind, k, ContextOf(ids', VersionOf(vs, cur.path)), ContextOf(ids', cur))
    ensures KindExact(rows', kind, ids', vs[cur.path := cur])
    ensures forall l :: ListsExact(l, rows, kind, ids, vs) ==> (ListsExact(l, rows', kind, ids', vs[cur.path := cur]) <==> ListsClean(l, kind, ids', vs, cur.path))
  {
    hide IsKindDelta, EntitiesOf, ContextOf, VersionOf, RowsAfter, DefsExact, NoStrayDefs, ListsExact, ListsClean, WellPlaced, IdsGrow, Registered;
    DefsExactGrow(rows, kind, ids, ids', vs);
    DefsExactStep(rows, kind, k, ids', vs, cur);
    forall l | ListsExact(l, rows, kind, ids, vs)
      ensures ListsExact(l, rows', kind, ids', vs[cur.path := cur]) <==> ListsClean(l, kind, ids', vs, cur.path)
    {
      ListsExactGrow(l, rows, kind, ids, ids', vs);
      ListsExactIff(l, rows, kind, k, ids', vs, cur);
    }
  }

  lemma OccsStep(total: multiset<Occ>, total': multiset<Occ>, ids: map<string, nat>, ids': map<string, nat>, vs: Versions, cur: IndexFile)
    requires WellPlaced(ids, vs) && IdsGrow(ids, ids')
    requires total == AllOccs(ids, vs)
    requires total' + FileOccs(ids', VersionOf(vs, cur.path)) == total + FileOccs(ids', cur)
    ensures total' == AllOccs(ids', vs[cur.path := cur])
  {
    AllOccsGrow(ids, ids', vs);
    AllOccsUpdate(ids', vs, cur);
    hide AllOccs, FileOccs, VersionOf, WellPlaced, IdsGrow;
    CancelRight(total', AllOccs(ids', vs[cur.path := cur]), FileOccs(ids', VersionOf(vs, cur.path)));
  }

  lemma IdsInjective(db: Db)
    requires db.ValidIds()
    ensures forall p, q :: p in db.name2id && q in db.name2id && db.name2id[p] == db.name2id[q] ==> p == q
  {
  }

  lemma PrevPlaced(ids: map<string, nat>, vs: Versions, p: string)
    requires WellPlaced(ids, vs)
    ensures var prev := VersionOf(vs, p);
      prev.path == p && (Registered(ids, prev) || prev == EmptyFile(prev.path))
  {
  }

  // One update: from the versions vs to vs with cur in place of its predecessor.
  method ApplyNext(db: Db, ghost vs: Versions, u: IndexUpdate, ghost cur: IndexFile)
    requires Current(db, vs) && IsDelta(u, VersionOf(vs, cur.path), cur)
    modifies db, db.funcs, db.types, db.vars
    ensures Current(db, vs[cur.path := cur])
    ensures IdsGrow(old(db.name2id), db.name2id)
    ensures forall l :: old(ListsCurrent(l, db, vs)) ==> (ListsCurrent(l, db, vs[cur.path := cur]) <==> AllClean(l, db.name2id, vs, cur.path))
    ensures forall p :: DefAt(db.fileDefs, db.name2id, p) == NextDef(old(DefAt(db.fileDefs, db.name2id, p)), cur, p)
    ensures WellPlaced(db.name2id, vs)
  {
    ghost var prev := VersionOf(vs, cur.path);
    ghost var ids, fileDefs, total := db.name2id, db.fileDefs, db.total;
    ghost var funcs, types, vars := db.funcs.Rows(), db.types.Rows(), db.vars.Rows();
    IdsInjective(db);
    PrevPlaced(ids, vs, cur.path);
    AllOccsUpdate(ids, vs, cur);
    hide Db.ValidIds, Db.ValidRefs, Table.Valid, Table.Rows, VersionOf, WellPlaced, AllOccs, FileOccs, FileDefsExact, KindExact, ListsExact,
      IsKindDelta, FileDefOf, EntitiesOf, ContextOf, RowsAfter, IdsGrow, DefAt, NextDef, Registered, ListsClean;
    db.ApplyIndexUpdate(u, prev, cur);
    IdsInjective(db);
    WellPlacedStep(ids, db.name2id, vs, cur);
    OccsStep(total, db.total, ids, db.name2id, vs, cur);
    FileDefsStep(fileDefs, db.fileDefs, ids, db.name2id, vs, cur);
    KindExactStep(funcs, db.funcs.Rows(), Func, u.funcs, ids, db.name2id, vs, cur);
    KindExactStep(types, db.types.Rows(), Type, u.types, ids, db.name2id, vs, cur);
    KindExactStep(vars, db.vars.Rows(), Var, u.vars, ids, db.name2id, vs, cur);
  }

  // ---------- Reading the result ----------

  // A stored count is the number of references all current versions have there,
  // and no zero count is stored.
  lemma CountsCurrent(db: Db, vs: Versions, p: string, e: ExtentRef)
    requires Current(db, vs) && p in db.name2id
    ensures db.RefCount(db.name2id[p], e) == AllOccs(db.name2id, vs)[(db.name2id[p], e)]
    ensures e in db.symbol2refcnt[db.name2id[p]] <==> (db.name2id[p], e) in AllOccs(db.name2id, vs)
  {
    assert db.total[(db.name2id[p], e)] == db.RefCount(db.name2id[p], e);
  }

  ghost function RowsOf(db: Db, kind: Kind): imap<Usr, Row>
    requires db.Valid()
    reads db, db.funcs, db.types, db.vars
  {
    match kind
    case Func => db.funcs.Rows()
    case Type => db.types.Rows()
    case Var => db.vars.Rows()
  }

  // Every entity u has exactly one definition from file p if the current version
  // of p names it, and none otherwise.
  lemma OneDefinitionPerFile(db: Db, vs: Versions, kind: Kind, u: Usr, p: string)
    requires Current(db, vs) && p in vs
    ensures u in RowsOf(db, kind)
    ensures var defs, es := DefsOf(RowsOf(db, kind)[u].defs, db.name2id[p]), EntitiesOf(vs[p], kind);
      if u in es && es[u].def.Named() then |defs| == 1 && defs[0].def == es[u].def else defs == []
    ensures DefsOf(RowsOf(db, kind)[u].defs, db.name2id[p]) == OwnDef(ContextOf(db.name2id, vs[p]), EntitiesOf(vs[p], kind), u)
  {
    hide Db.ValidIds, Db.ValidRefs, AllOccs, FileDefsExact, NoStrayDefs, Table.Valid, EntitiesOf;
    assert u in RowsOf(db, kind);
    assert DefsOf(RowsOf(db, kind)[u].defs, db.name2id[p]) == OwnDef(ContextOf(db.name2id, vs[p]), EntitiesOf(vs[p], kind), u);
  }

  // The definition of an indexed file holds what its current version says; a file
  // only referred to has an empty one that names it.
  lemma FileDefinition(db: Db, vs: Versions, p: string)
    requires Current(db, vs)
    ensures p in vs ==> (
      var v, def := vs[p], DefAt(db.fileDefs, db.name2id, p);
      && def.Some? && def.value.path == p && def.value.args == v.args && def.value.language == v.language
      && def.value.includes == v.includes && def.value.skippedRanges == v.skippedRanges
      && forall d :: d in def.value.dependencies <==> d in v.dependencies)
    ensures p !in vs ==> DefAt(db.fileDefs, db.name2id, p) in {None, Some(FileDef(p, [], 0, [], [], {}))}
    ensures p !in vs && (exists q :: q in vs && ListsPath(vs[q].lid2path, p)) ==> DefAt(db.fileDefs, db.name2id, p) == Some(FileDef(p, [], 0, [], [], {}))
  {
    hide Db.Valid, AllOccs, KindExact, DefAt, ListsPath, Registered;
  }

  // ---------- Runs ----------

  // The versions in place after cs have been indexed one after the other.
  function Latest(cs: seq<IndexFile>): Versions {
    if cs == [] then map[] else Latest(cs[..|cs| - 1])[cs[|cs| - 1].path := cs[|cs| - 1]]
  }

  // Every update starts from the version of its file applied last.
  ghost predicate InOrder(log: seq<IndexUpdate>, cs: seq<IndexFile>) {
    |log| == |cs| && forall i :: 0 <= i < |log| ==> IsDelta(log[i], VersionOf(Latest(cs[..i]), cs[i].path), cs[i])
  }

  lemma EmptyCurrent(db: Db)
    requires db.Valid() && db.name2id == map[] && db.total == multiset{}
    requires forall u :: db.funcs.RowOf(u) == db.types.RowOf(u) == db.vars.RowOf(u) == Row(u, [], [], [], [], [])
    ensures Current(db, map[]) && forall l :: ListsCurrent(l, db, map[])
  {
    hide Db.ValidIds, Db.ValidRefs, Table.Valid;
    SumEmpty(OccsAt(map[], map[]));
    forall l, kind, u
      ensures ListExact(l, Row(u, [], [], [], [], []), kind, u, map[], map[])
    {
      NothingListed(l, kind, u);
    }
    hide ListExact;
  }

  lemma NothingListed(l: ListKind, kind: Kind, u: Usr)
    ensures ListExact(l, Row(u, [], [], [], [], []), kind, u, map[], map[])
  {
    var none: Versions := map[];
    assert none.Keys == {};
    SumEmpty(UsesFrom(kind, u, map[], none));
    SumEmpty(DeclsFrom(kind, u, map[], none));
    SumEmpty(DerivedFrom(kind, u, none));
    SumEmpty(InstancesFrom(kind, u, none));
  }

  // At no point in the run did the version replaced share an entry with another file.
  ghost predicate AlwaysApart(l: ListKind, cs: seq<IndexFile>) {
    cs != [] ==> AlwaysApart(l, cs[..|cs| - 1]) && StepApart(l, Latest(cs[..|cs| - 1]), cs[|cs| - 1].path)
  }

  ghost predicate EveryKnown(cs: seq<IndexFile>) { forall i :: 0 <= i < |cs| ==> KnownFiles(cs[i]) }

  // p has been referred to in the run.
  ghost predicate Referred(cs: seq<IndexFile>, p: string) { exists i :: 0 <= i < |cs| && ListsPath(cs[i].lid2path, p) }

  // The files with a definition are those indexed and those referred to.
  ghost predicate DefinedExact(db: Db, cs: seq<IndexFile>)
    reads db
  {
    forall p :: DefAt(db.fileDefs, db.name2id, p).Some? <==> p in Latest(cs) || Referred(cs, p)
  }

  // The database after the run cs.
  ghost predicate Tracks(db: Db, cs: seq<IndexFile>)
    reads db, db.funcs, db.types, db.vars
  {
    && Current(db, Latest(cs)) && DefinedExact(db, cs)
    && (EveryKnown(cs) ==> forall l :: AlwaysApart(l, cs) ==> ListsCurrent(l, db, Latest(cs)))
  }

  method NewDb() returns (db: Db)
    ensures fresh(db) && fresh(db.funcs) && fresh(db.types) && fresh(db.vars)
    ensures Tracks(db, [])
  {
    db := new Db();
    hide Db.Valid, Tracks, Table.Valid;
    EmptyTracks(db);
  }

  lemma EmptyTracks(db: Db)
    requires db.Valid() && db.name2id == map[] && db.total == multiset{}
    requires forall u :: db.funcs.RowOf(u) == db.types.RowOf(u) == db.vars.RowOf(u) == Row(u, [], [], [], [], [])
    ensures Tracks(db, [])
  {
    EmptyCurrent(db);
    hide Current, ListsCurrent, Db.Valid, Table.Valid, Table.RowOf;
  }

  // Where the lists of a kind were those of a rebuild before, they still are if and
  // only if the version replaced shared no entry with another file.
  method ApplyStep(db: Db, ghost cs: seq<IndexFile>, u: IndexUpdate, ghost cur: IndexFile)
    requires Tracks(db, cs) && IsDelta(u, VersionOf(Latest(cs), cur.path), cur)
    modifies db, db.funcs, db.types, db.vars
    ensures Tracks(db, cs + [cur])
    ensures EveryKnown(cs) ==> forall l :: old(ListsCurrent(l, db, Latest(cs))) ==>
      (ListsCurrent(l, db, Latest(cs + [cur])) <==> StepApart(l, Latest(cs), cur.path))
  {
    hide Current, ListsCurrent, IsDelta, StepApart, VersionOf, AllClean, Latest, AlwaysApart, Db.Valid, DefAt, NextDef, EveryKnown;
    ghost var vs := Latest(cs);
    CurrentFacts(db, vs);
    ApplyNext(db, vs, u, cur);
    CurrentFacts(db, vs[cur.path := cur]);
    LatestSnoc(cs, cur);
    forall l
      ensures AlwaysApart(l, cs + [cur]) <==> AlwaysApart(l, cs) && StepApart(l, vs, cur.path)
      ensures EveryKnown(cs) ==> (AllClean(l, db.name2id, vs, cur.path) <==> StepApart(l, vs, cur.path))
    {
      AlwaysApartSnoc(l, cs, cur);
      if EveryKnown(cs) {
        LatestKnown(cs);
        CleanIsApart(l, db.name2id, vs, cur.path);
      }
    }
    DefinedStep(old(db.fileDefs), old(db.name2id), db, cs, cur);
  }

  lemma CleanIsApart(l: ListKind, ids: map<string, nat>, vs: Versions, p: string)
    requires WellPlaced(ids, vs) && AllKnown(vs)
    ensures AllClean(l, ids, vs, p) <==> StepApart(l, vs, p)
  {
    StepCleanIff(l, ids, vs, p);
    hide ListsClean, StepApart;
    if AllClean(l, ids, vs, p) {
      forall kind: Kind
        ensures ListsClean(l, kind, ids, vs, p)
      {
        match kind
        case Func =>
        case Type =>
        case Var =>
      }
    }
  }

  lemma {:induction false} LatestKnown(cs: seq<IndexFile>)
    requires EveryKnown(cs)
    ensures AllKnown(Latest(cs))
  {
    if cs != [] {
      LatestKnown(cs[..|cs| - 1]);
      hide KnownFiles;
    }
  }

  lemma LatestSnoc(cs: seq<IndexFile>, cur: IndexFile)
    ensures Latest(cs + [cur]) == Latest(cs)[cur.path := cur]
    ensures EveryKnown(cs + [cur]) ==> EveryKnown(cs)
  {
    hide KnownFiles;
    assert (cs + [cur])[..|cs|] == cs;
    if EveryKnown(cs + [cur]) {
      forall i | 0 <= i < |cs|
        ensures KnownFiles(cs[i])
      {
        assert (cs + [cur])[i] == cs[i];
      }
    }
  }

  lemma AlwaysApartSnoc(l: ListKind, cs: seq<IndexFile>, cur: IndexFile)
    ensures AlwaysApart(l, cs + [cur]) <==> AlwaysApart(l, cs) && StepApart(l, Latest(cs), cur.path)
  {
    hide StepApart;
    assert (cs + [cur])[..|cs|] == cs;
  }

  lemma ReferredSnoc(cs: seq<IndexFile>, cur: IndexFile, p: string)
    ensures Referred(cs + [cur], p) <==> Referred(cs, p) || ListsPath(cur.lid2path, p)
  {
    hide ListsPath;
    if Referred(cs, p) {
      var i :| 0 <= i < |cs| && ListsPath(cs[i].lid2path, p);
      assert ListsPath((cs + [cur])[i].lid2path, p);
    }
    if ListsPath(cur.lid2path, p) { assert ListsPath((cs + [cur])[|cs|].lid2path, p); }
  }

  lemma DefinedStep(fs: seq<Option<FileDef>>, ids: map<string, nat>, db: Db, cs: seq<IndexFile>, cur: IndexFile)
    requires forall p :: DefAt(fs, ids, p).Some? <==> p in Latest(cs) || Referred(cs, p)
    requires forall p :: DefAt(db.fileDefs, db.name2id, p) == NextDef(DefAt(fs, ids, p), cur, p)
    ensures DefinedExact(db, cs + [cur])
  {
    LatestSnoc(cs, cur);
    hide Latest, DefAt, ListsPath, FileDefOf;
    forall p
      ensures Referred(cs + [cur], p) <==> Referred(cs, p) || ListsPath(cur.lid2path, p)
    {
      ReferredSnoc(cs, cur, p);
    }
    hide Referred;
  }

  // Applying a whole log of updates to a new database.
  method Replay(log: seq<IndexUpdate>, ghost cs: seq<IndexFile>) returns (db: Db)
    requires InOrder(log, cs)
    ensures fresh(db) && Current(db, Latest(cs)) && DefinedExact(db, cs)
    ensures EveryKnown(cs) ==> forall l :: AlwaysApart(l, cs) ==> ListsCurrent(l, db, Latest(cs))
  {
    db := NewDb();
    hide Tracks, IsDelta, VersionOf, Latest, EveryKnown, ListsCurrent, StepApart, Current, Db.Valid, DefinedExact, AlwaysApart;
    for i := 0 to |log|
      invariant fresh(db) && fresh(db.funcs) && fresh(db.types) && fresh(db.vars)
      invariant Tracks(db, cs[..i])
    {
      ApplyStep(db, cs[..i], log[i], cs[i]);
      assert cs[..i] + [cs[i]] == cs[..i + 1];
    }
    assert cs[..|log|] == cs;
    TracksFacts(db, cs);
  }

  lemma CurrentFacts(db: Db, vs: Versions)
    requires Current(db, vs)
    ensures db.Valid()
  {
  }

  lemma TracksFacts(db: Db, cs: seq<IndexFile>)
    requires Tracks(db, cs)
    ensures Current(db, Latest(cs)) && DefinedExact(db, cs)
    ensures EveryKnown(cs) ==> forall l :: AlwaysApart(l, cs) ==> ListsCurrent(l, db, Latest(cs))
  {
    hide Current, DefinedExact, ListsCurrent, EveryKnown;
  }

  // ---------- Derived entries that are lost ----------

  // A file in which the function 2 overrides the function 1.
  function Overriding(path: string): IndexFile {
    var def := FuncDef("", "", "", NO_DECL, [], [], [], 0, 0, 0, 0, 0, 0);
    EmptyFile(path).(usr2func := map[1 := IndexFunc(1, def, [], [2], [])])
  }

  lemma OverridingFacts(a: string, b: string)
    ensures KnownFiles(Overriding(a)) && KnownFiles(EmptyFile(a)) && Overriding(a).path == a
    ensures !EntityApart(DerivedList, Func, 1, Overriding(a), Overriding(b))
  {
    forall p: string, kind: Kind, u: Usr
      ensures Field(EntitiesOf(Overriding(p), kind), u, GetUses) == [] && Field(EntitiesOf(Overriding(p), kind), u, GetDeclarations) == []
      ensures Field(EntitiesOf(EmptyFile(p), kind), u, GetUses) == [] && Field(EntitiesOf(EmptyFile(p), kind), u, GetDeclarations) == []
    {
    }
    assert DerivedOf(Func, 1, Overriding(a)) == DerivedOf(Func, 1, Overriding(b)) == [2];
    assert 2 in [2 as Usr];
  }

  lemma OverridingVersions()
    ensures var a, b := Overriding("a"), Overriding("b");
      && a.path == "a" && b.path == "b"
      && Latest([]) == map[] && Latest([a]) == map["a" := a] && Latest([a, b]) == map["a" := a, "b" := b]
  {
    var a, b := Overriding("a"), Overriding("b");
    assert [a, b][..1] == [a] && [a][..0] == [];
  }

  lemma OverridingRun()
    ensures var a, b := Overriding("a"), Overriding("b");
      && EveryKnown([a, b]) && AlwaysApart(DerivedList, [a, b]) && !StepApart(DerivedList, Latest([a, b]), "a")
  {
    var a, b := Overriding("a"), Overriding("b");
    OverridingFacts("a", "b");
    OverridingFacts("b", "a");
    OverridingVersions();
    hide Overriding, Latest, KnownFiles;
    AlwaysApartSnoc(DerivedList, [], a);
    AlwaysApartSnoc(DerivedList, [a], b);
    assert [] + [a] == [a] && [a] + [b] == [a, b] && Latest([]) == map[];
    forall kind: Kind, u: Usr
      ensures EntityApart(DerivedList, kind, u, EmptyFile("b"), a)
    {
      NothingApart(DerivedList, kind, u, "b", a);
    }
    assert StepApart(DerivedList, Latest([a]), "b");
    var vs := Latest([a, b]);
    assert !Apart(DerivedList, a, b);
    assert VersionOf(vs, "a") == a && "b" in vs && vs["b"] == b;
  }

  method OverridingTwice() returns (db: Db)
    ensures fresh(db) && fresh(db.funcs) && fresh(db.types) && fresh(db.vars)
    ensures Tracks(db, [Overriding("a"), Overriding("b")])
  {
    var a, b := Overriding("a"), Overriding("b");
    OverridingVersions();
    hide Overriding, Latest, Tracks, ListsCurrent, StepApart, EveryKnown, IsDelta, Db.Valid;
    var u0 := CreateDelta(EmptyFile("a"), a);
    var u1 := CreateDelta(EmptyFile("b"), b);
    db := NewDb();
    ApplyStep(db, [], u0, a);
    assert [] + [a] == [a];
    ApplyStep(db, [a], u1, b);
    assert [a] + [b] == [a, b];
  }

  // Both files say that 2 overrides 1. Once the first is deleted, in an in-order run
  // of three updates, the database no longer has it, though the second still says so.
  method DerivedLost() returns (db: Db)
    ensures Current(db, Latest([Overriding("a"), Overriding("b"), EmptyFile("a")]))
    ensures !ListsCurrent(DerivedList, db, Latest([Overriding("a"), Overriding("b"), EmptyFile("a")]))
  {
    var a, b, gone := Overriding("a"), Overriding("b"), EmptyFile("a");
    OverridingVersions();
    OverridingRun();
    hide Overriding, Latest, Tracks, Current, ListsCurrent, StepApart, AlwaysApart, EveryKnown, IsDelta, Db.Valid, DefinedExact;
    var u := CreateDelta(a, gone);
    db := OverridingTwice();
    TracksFacts(db, [a, b]);
    CurrentFacts(db, Latest([a, b]));
    ApplyStep(db, [a, b], u, gone);
    assert [a, b] + [gone] == [a, b, gone];
    TracksFacts(db, [a, b, gone]);
  }
}
