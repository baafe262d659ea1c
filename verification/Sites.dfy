// Where the entries of entity lists come from, in terms of paths: when withdrawing
// what one file contributed touches what another one contributes (src/query.cc).
module Sites {
  import opened Index
  import opened Delta
  import opened Occurrences
  import opened EntityTable
  import opened Rebuild
  import opened EntityLists

  // The file a local id of v stands for.
  function LidPath(lids: seq<(I32, string)>, id: int, otherwise: string): string {
    if lids == [] then otherwise
    else if lids[|lids| - 1].0 == id then lids[|lids| - 1].1
    else LidPath(lids[..|lids| - 1], id, otherwise)
  }

  function PathOf(v: IndexFile, fileId: int): string { LidPath(v.lid2path, fileId, v.path) }

  // Local ids are -1 or listed.
  predicate Known(v: IndexFile, fileId: int) { fileId == -1 || exists l :: l in v.lid2path && l.0 == fileId }

  predicate NoSelfLid(v: IndexFile) { forall l :: l in v.lid2path ==> l.0 != -1 }

  // Where a use or declaration of v lies.
  function UseSite(kind: Kind, v: IndexFile, use: Use): (Range, string) {
    (Widened(kind, use).range, PathOf(v, use.fileId))
  }

  function DeclSite(v: IndexFile, d: DeclRef): (Range, string) { (d.use.range, PathOf(v, d.use.fileId)) }

  // The lists of an index file refer to known files.
  ghost predicate KnownFiles(v: IndexFile) {
    && NoSelfLid(v)
    && (forall kind: Kind, u: Usr, i :: 0 <= i < |Field(EntitiesOf(v, kind), u, GetUses)| ==> Known(v, Field(EntitiesOf(v, kind), u, GetUses)[i].fileId))
    && (forall kind: Kind, u: Usr, i :: 0 <= i < |Field(EntitiesOf(v, kind), u, GetDeclarations)| ==> Known(v, Field(EntitiesOf(v, kind), u, GetDeclarations)[i].use.fileId))
  }

  // Two versions never contribute equal entries to a list of one entity: uses or
  // declarations at the same range of the same file, or the same usr.
  ghost predicate Apart(l: ListKind, v: IndexFile, w: IndexFile) {
    forall kind: Kind, u: Usr :: EntityApart(l, kind, u, v, w)
  }

  ghost predicate EntityApart(l: ListKind, kind: Kind, u: Usr, v: IndexFile, w: IndexFile) {
    var es, es' := EntitiesOf(v, kind), EntitiesOf(w, kind);
    match l
    case UseList =>
      forall x, y :: x in Field(es, u, GetUses) && y in Field(es', u, GetUses) ==> UseSite(kind, v, x) != UseSite(kind, w, y)
    case DeclList =>
      forall x, y :: x in Field(es, u, GetDeclarations) && y in Field(es', u, GetDeclarations) ==> DeclSite(v, x) != DeclSite(w, y)
    case DerivedList => forall x, y :: x in DerivedOf(kind, u, v) && y in DerivedOf(kind, u, w) ==> x != y
    case InstanceList => forall x, y :: x in InstancesOf(kind, u, v) && y in InstancesOf(kind, u, w) ==> x != y
  }

  // The version of p in vs shares no entry with a version of another file.
  ghost predicate StepApart(l: ListKind, vs: Versions, p: string) {
    forall q :: q in vs && q != p ==> Apart(l, VersionOf(vs, p), vs[q])
  }

  lemma {:induction false} ResolveListed(ids: map<string, nat>, lids: seq<(I32, string)>, id: int, otherwise: string)
    requires exists l :: l in lids && l.0 == id
    requires forall l :: l in lids ==> l.1 in ids
    ensures id in LidMap(ids, lids) && LidPath(lids, id, otherwise) in ids && LidMap(ids, lids)[id] == ids[LidPath(lids, id, otherwise)]
  {
    var n := |lids| - 1;
    assert lids[n] in lids;
    if lids[n].0 != id {
      var l :| l in lids && l.0 == id;
      var i :| 0 <= i < |lids| && lids[i] == l;
      assert lids[..n][i] == l;
      ResolveListed(ids, lids[..n], id, otherwise);
    }
  }

  lemma {:induction false} UnlistedPath(lids: seq<(I32, string)>, id: int, otherwise: string)
    requires forall l :: l in lids ==> l.0 != id
    ensures LidPath(lids, id, otherwise) == otherwise
  {
    if lids != [] {
      assert lids[|lids| - 1] in lids;
      UnlistedPath(lids[..|lids| - 1], id, otherwise);
    }
  }

  // File ids stand for the paths they were resolved from.
  lemma ResolvePath(ids: map<string, nat>, v: IndexFile, fileId: int)
    requires Registered(ids, v) && Known(v, fileId) && NoSelfLid(v)
    ensures PathOf(v, fileId) in ids && Resolve(ContextOf(ids, v), fileId) == ids[PathOf(v, fileId)]
  {
    if fileId == -1 {
      UnlistedPath(v.lid2path, fileId, v.path);
    } else {
      ResolveListed(ids, v.lid2path, fileId, v.path);
    }
  }

  lemma UseKeyIsSite(ids: map<string, nat>, kind: Kind, v: IndexFile, w: IndexFile, x: Use, y: Use)
    requires Registered(ids, v) && Registered(ids, w) && NoSelfLid(v) && NoSelfLid(w) && Known(v, x.fileId) && Known(w, y.fileId)
    requires forall p, q :: p in ids && q in ids && ids[p] == ids[q] ==> p == q
    ensures UseKey(StoredUse(ContextOf(ids, v), kind, x)) == UseKey(StoredUse(ContextOf(ids, w), kind, y))
       <==> UseSite(kind, v, x) == UseSite(kind, w, y)
  {
    ResolvePath(ids, v, x.fileId);
    ResolvePath(ids, w, y.fileId);
    hide Resolve, ContextOf, PathOf, Known, Registered;
  }

  lemma DeclKeyIsSite(ids: map<string, nat>, v: IndexFile, w: IndexFile, x: DeclRef, y: DeclRef)
    requires Registered(ids, v) && Registered(ids, w) && NoSelfLid(v) && NoSelfLid(w) && Known(v, x.use.fileId) && Known(w, y.use.fileId)
    requires forall p, q :: p in ids && q in ids && ids[p] == ids[q] ==> p == q
    ensures DeclKey(StoredDecl(ContextOf(ids, v), x)) == DeclKey(StoredDecl(ContextOf(ids, w), y)) <==> DeclSite(v, x) == DeclSite(w, y)
  {
    ResolvePath(ids, v, x.use.fileId);
    ResolvePath(ids, w, y.use.fileId);
    hide Resolve, ContextOf, PathOf, Known, Registered;
  }

  // No entry of removed equals one of others.
  ghost predicate NoneEqual<X(!new), K>(removed: seq<X>, others: seq<X>, key: X -> K) {
    forall i, j :: 0 <= i < |removed| && 0 <= j < |others| ==> key(removed[i]) != key(others[j])
  }

  lemma NotHit<X, K>(x: X, removed: seq<X>, key: X -> K, i: nat)
    requires i < |removed| && !Hit(x, removed, key)
    ensures key(removed[i]) != key(x)
  {
  }

  lemma NoneHitIff<X(!new), K>(removed: seq<X>, others: seq<X>, key: X -> K)
    ensures NoneHit(multiset(others), removed, key) <==> NoneEqual(removed, others, key)
  {
    if NoneHit(multiset(others), removed, key) {
      forall i, j | 0 <= i < |removed| && 0 <= j < |others|
        ensures key(removed[i]) != key(others[j])
      {
        assert others[j] in multiset(others);
        NotHit(others[j], removed, key, i);
      }
    } else {
      var y :| y in multiset(others) && Hit(y, removed, key);
      assert y in others;
    }
  }

  lemma UsesApartIff(ids: map<string, nat>, kind: Kind, u: Usr, v: IndexFile, w: IndexFile)
    requires Registered(ids, v) && Registered(ids, w) && KnownFiles(v) && KnownFiles(w)
    requires forall p, q :: p in ids && q in ids && ids[p] == ids[q] ==> p == q
    ensures NoneEqual(UsesOf(kind, u, ids, v), UsesOf(kind, u, ids, w), UseKey) <==> EntityApart(UseList, kind, u, v, w)
  {
    var us, ws := Field(EntitiesOf(v, kind), u, GetUses), Field(EntitiesOf(w, kind), u, GetUses);
    forall i, j | 0 <= i < |us| && 0 <= j < |ws|
      ensures UseKey(UsesOf(kind, u, ids, v)[i]) == UseKey(UsesOf(kind, u, ids, w)[j]) <==> UseSite(kind, v, us[i]) == UseSite(kind, w, ws[j])
    {
      UseKeyIsSite(ids, kind, v, w, us[i], ws[j]);
    }
    hide EntitiesOf, ContextOf, Field, UseKey, UseSite, KnownFiles, StoredUse, Registered;
  }

  lemma DeclsApartIff(ids: map<string, nat>, kind: Kind, u: Usr, v: IndexFile, w: IndexFile)
    requires Registered(ids, v) && Registered(ids, w) && KnownFiles(v) && KnownFiles(w)
    requires forall p, q :: p in ids && q in ids && ids[p] == ids[q] ==> p == q
    ensures NoneEqual(DeclsOf(kind, u, ids, v), DeclsOf(kind, u, ids, w), DeclKey) <==> EntityApart(DeclList, kind, u, v, w)
  {
    var us, ws := Field(EntitiesOf(v, kind), u, GetDeclarations), Field(EntitiesOf(w, kind), u, GetDeclarations);
    forall i, j | 0 <= i < |us| && 0 <= j < |ws|
      ensures DeclKey(DeclsOf(kind, u, ids, v)[i]) == DeclKey(DeclsOf(kind, u, ids, w)[j]) <==> DeclSite(v, us[i]) == DeclSite(w, ws[j])
    {
      DeclKeyIsSite(ids, v, w, us[i], ws[j]);
    }
    hide EntitiesOf, ContextOf, Field, DeclKey, DeclSite, KnownFiles, StoredDecl, Registered;
  }

  ghost predicate AllKnown(vs: Versions) { forall p :: p in vs ==> KnownFiles(vs[p]) }

  lemma NothingApart(l: ListKind, kind: Kind, u: Usr, p: string, w: IndexFile)
    ensures EntityApart(l, kind, u, EmptyFile(p), w)
  {
    assert EntitiesOf(EmptyFile(p), kind) == map[];
  }

  lemma UsesClean(kind: Kind, u: Usr, ids: map<string, nat>, vs: Versions, p: string)
    requires WellPlaced(ids, vs) && AllKnown(vs) && p in vs
    ensures ListClean(UseList, kind, u, ids, vs, p) <==> forall q :: q in vs && q != p ==> EntityApart(UseList, kind, u, vs[p], vs[q])
  {
    hide KnownFiles, Registered, UseKey, DeclKey, UsrKey, UsesOf, DeclsOf, DerivedOf, InstancesOf, EntityApart, NoneHit, NoneEqual;
    forall q | q in vs && q != p
      ensures NoneHit(UsesFrom(kind, u, ids, vs)(q), UsesOf(kind, u, ids, vs[p]), UseKey) <==> EntityApart(UseList, kind, u, vs[p], vs[q])
    {
      NoneHitIff(UsesOf(kind, u, ids, vs[p]), UsesOf(kind, u, ids, vs[q]), UseKey);
      UsesApartIff(ids, kind, u, vs[p], vs[q]);
    }
    hide WellPlaced, AllKnown;
  }

  lemma DeclsClean(kind: Kind, u: Usr, ids: map<string, nat>, vs: Versions, p: string)
    requires WellPlaced(ids, vs) && AllKnown(vs) && p in vs
    ensures ListClean(DeclList, kind, u, ids, vs, p) <==> forall q :: q in vs && q != p ==> EntityApart(DeclList, kind, u, vs[p], vs[q])
  {
    hide KnownFiles, Registered, UseKey, DeclKey, UsrKey, UsesOf, DeclsOf, DerivedOf, InstancesOf, EntityApart, NoneHit, NoneEqual;
    forall q | q in vs && q != p
      ensures NoneHit(DeclsFrom(kind, u, ids, vs)(q), DeclsOf(kind, u, ids, vs[p]), DeclKey) <==> EntityApart(DeclList, kind, u, vs[p], vs[q])
    {
      NoneHitIff(DeclsOf(kind, u, ids, vs[p]), DeclsOf(kind, u, ids, vs[q]), DeclKey);
      DeclsApartIff(ids, kind, u, vs[p], vs[q]);
    }
    hide WellPlaced, AllKnown;
  }

  lemma DerivedClean(kind: Kind, u: Usr, ids: map<string, nat>, vs: Versions, p: string)
    requires WellPlaced(ids, vs) && AllKnown(vs) && p in vs
    ensures ListClean(DerivedList, kind, u, ids, vs, p) <==> forall q :: q in vs && q != p ==> EntityApart(DerivedList, kind, u, vs[p], vs[q])
  {
    hide KnownFiles, Registered, UseKey, DeclKey, UsrKey, UsesOf, DeclsOf, DerivedOf, InstancesOf, EntityApart, NoneHit, NoneEqual;
    forall q | q in vs && q != p
      ensures NoneHit(DerivedFrom(kind, u, vs)(q), DerivedOf(kind, u, vs[p]), UsrKey) <==> EntityApart(DerivedList, kind, u, vs[p], vs[q])
    {
      NoneHitIff(DerivedOf(kind, u, vs[p]), DerivedOf(kind, u, vs[q]), UsrKey);
      UsrsApartIff(kind, u, vs[p], vs[q]);
    }
    hide WellPlaced, AllKnown;
  }

  lemma InstancesClean(kind: Kind, u: Usr, ids: map<string, nat>, vs: Versions, p: string)
    requires WellPlaced(ids, vs) && AllKnown(vs) && p in vs
    ensures ListClean(InstanceList, kind, u, ids, vs, p) <==> forall q :: q in vs && q != p ==> EntityApart(InstanceList, kind, u, vs[p], vs[q])
  {
    hide KnownFiles, Registered, UseKey, DeclKey, UsrKey, UsesOf, DeclsOf, DerivedOf, InstancesOf, EntityApart, NoneHit, NoneEqual;
    forall q | q in vs && q != p
      ensures NoneHit(InstancesFrom(kind, u, vs)(q), InstancesOf(kind, u, vs[p]), UsrKey) <==> EntityApart(InstanceList, kind, u, vs[p], vs[q])
    {
      NoneHitIff(InstancesOf(kind, u, vs[p]), InstancesOf(kind, u, vs[q]), UsrKey);
      UsrsApartIff(kind, u, vs[p], vs[q]);
    }
    hide WellPlaced, AllKnown;
  }

  // Clean in terms of ids is apart in terms of places and usrs.
  lemma CleanIffApart(l: ListKind, kind: Kind, u: Usr, ids: map<string, nat>, vs: Versions, p: string)
    requires WellPlaced(ids, vs) && AllKnown(vs)
    ensures ListClean(l, kind, u, ids, vs, p) <==> forall q :: q in vs && q != p ==> EntityApart(l, kind, u, VersionOf(vs, p), vs[q])
  {
    if p in vs {
      hide WellPlaced, AllKnown, ListClean, EntityApart;
      match l
      case UseList => UsesClean(kind, u, ids, vs, p);
      case DeclList => DeclsClean(kind, u, ids, vs, p);
      case DerivedList => DerivedClean(kind, u, ids, vs, p);
      case InstanceList => InstancesClean(kind, u, ids, vs, p);
    } else {
      NothingBefore(kind, u, ids, vs, p);
      forall q | q in vs && q != p
        ensures EntityApart(l, kind, u, VersionOf(vs, p), vs[q])
      {
        NothingApart(l, kind, u, p, vs[q]);
      }
      hide EntityApart, VersionOf, WellPlaced, AllKnown, UsesOf, DeclsOf, DerivedOf, InstancesOf;
    }
  }

  lemma UsrsApartIff(kind: Kind, u: Usr, v: IndexFile, w: IndexFile)
    ensures NoneEqual(DerivedOf(kind, u, v), DerivedOf(kind, u, w), UsrKey) <==> EntityApart(DerivedList, kind, u, v, w)
    ensures NoneEqual(InstancesOf(kind, u, v), InstancesOf(kind, u, w), UsrKey) <==> EntityApart(InstanceList, kind, u, v, w)
  {
    NoneEqualUsrs(DerivedOf(kind, u, v), DerivedOf(kind, u, w));
    NoneEqualUsrs(InstancesOf(kind, u, v), InstancesOf(kind, u, w));
    hide NoneEqual, DerivedOf, InstancesOf;
  }

  lemma NoneEqualUsrs(xs: seq<Usr>, ys: seq<Usr>)
    ensures NoneEqual(xs, ys, UsrKey) <==> forall x, y :: x in xs && y in ys ==> x != y
  {
    if NoneEqual(xs, ys, UsrKey) {
      forall x, y | x in xs && y in ys
        ensures x != y
      {
        var i :| 0 <= i < |xs| && xs[i] == x;
        var j :| 0 <= j < |ys| && ys[j] == y;
        assert UsrKey(xs[i]) != UsrKey(ys[j]);
      }
    } else {
      var i, j :| 0 <= i < |xs| && 0 <= j < |ys| && UsrKey(xs[i]) == UsrKey(ys[j]);
      assert xs[i] in xs && ys[j] in ys;
    }
  }

  // An update keeps a kind of list equal to a rebuild exactly when the version it
  // replaces shares no entry with another file.
  lemma StepCleanIff(l: ListKind, ids: map<string, nat>, vs: Versions, p: string)
    requires WellPlaced(ids, vs) && AllKnown(vs)
    ensures (forall kind: Kind :: ListsClean(l, kind, ids, vs, p)) <==> StepApart(l, vs, p)
  {
    hide ListClean, EntityApart, AllKnown, WellPlaced;
    forall kind: Kind, u: Usr
      ensures ListClean(l, kind, u, ids, vs, p) <==> forall q :: q in vs && q != p ==> EntityApart(l, kind, u, VersionOf(vs, p), vs[q])
    {
      CleanIffApart(l, kind, u, ids, vs, p);
    }
    hide VersionOf;
    if forall kind: Kind :: ListsClean(l, kind, ids, vs, p) {
      forall kind: Kind, u: Usr, q | q in vs && q != p
        ensures EntityApart(l, kind, u, VersionOf(vs, p), vs[q])
      {
        assert ListsClean(l, kind, ids, vs, p);
        assert ListClean(l, kind, u, ids, vs, p);
      }
    }
    if StepApart(l, vs, p) {
      forall kind: Kind, u: Usr
        ensures ListClean(l, kind, u, ids, vs, p)
      {
        forall q | q in vs && q != p
          ensures EntityApart(l, kind, u, VersionOf(vs, p), vs[q])
        {
          assert Apart(l, VersionOf(vs, p), vs[q]);
        }
      }
    }
  }
}
