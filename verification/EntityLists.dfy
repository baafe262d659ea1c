// The lists of an entity (src/query.cc): uses, declarations, derived entities and
// instances are kept by withdrawing what the old version of a file contributed,
// by equality, and appending what the new one does. When that equals rebuilding.
module EntityLists {
  import opened Index
  import opened Sums
  import opened Delta
  import opened Occurrences
  import opened EntityTable
  import opened Database
  import opened Rebuild

  // ---------- Contributions ----------

  datatype ListKind = UseList | DeclList | DerivedList | InstanceList

  // What a file version contributes to the lists of the entity u.
  function UsesOf(kind: Kind, u: Usr, ids: map<string, nat>, v: IndexFile): seq<QUse> {
    StoredUses(ContextOf(ids, v), kind, Field(EntitiesOf(v, kind), u, GetUses))
  }

  function DeclsOf(kind: Kind, u: Usr, ids: map<string, nat>, v: IndexFile): seq<QDecl> {
    StoredDecls(ContextOf(ids, v), Field(EntitiesOf(v, kind), u, GetDeclarations))
  }

  function DerivedOf(kind: Kind, u: Usr, v: IndexFile): seq<Usr> { Field(EntitiesOf(v, kind), u, GetDerived) }
  function InstancesOf(kind: Kind, u: Usr, v: IndexFile): seq<Usr> { Field(EntitiesOf(v, kind), u, GetInstances) }

  ghost function UsesFrom(kind: Kind, u: Usr, ids: map<string, nat>, vs: Versions): string -> multiset<QUse> {
    (p: string) => multiset(UsesOf(kind, u, ids, VersionOf(vs, p)))
  }

  ghost function DeclsFrom(kind: Kind, u: Usr, ids: map<string, nat>, vs: Versions): string -> multiset<QDecl> {
    (p: string) => multiset(DeclsOf(kind, u, ids, VersionOf(vs, p)))
  }

  ghost function DerivedFrom(kind: Kind, u: Usr, vs: Versions): string -> multiset<Usr> {
    (p: string) => multiset(DerivedOf(kind, u, VersionOf(vs, p)))
  }

  ghost function InstancesFrom(kind: Kind, u: Usr, vs: Versions): string -> multiset<Usr> {
    (p: string) => multiset(InstancesOf(kind, u, VersionOf(vs, p)))
  }

  // A list of an entity holds what a database rebuilt from vs would.
  ghost predicate ListExact(l: ListKind, row: Row, kind: Kind, u: Usr, ids: map<string, nat>, vs: Versions) {
    match l
    case UseList => multiset(row.uses) == Sum(vs.Keys, UsesFrom(kind, u, ids, vs))
    case DeclList => multiset(row.declarations) == Sum(vs.Keys, DeclsFrom(kind, u, ids, vs))
    case DerivedList => multiset(row.derived) == Sum(vs.Keys, DerivedFrom(kind, u, vs))
    case InstanceList => multiset(row.instances) == Sum(vs.Keys, InstancesFrom(kind, u, vs))
  }

  // No other file contributes an entry equal to one that is withdrawn.
  ghost predicate Clean<X(!new), K>(removed: seq<X>, from: string -> multiset<X>, key: X -> K, others: set<string>) {
    forall q :: q in others ==> NoneHit(from(q), removed, key)
  }

  ghost predicate NoneHit<X(!new), K>(ys: multiset<X>, removed: seq<X>, key: X -> K) {
    forall y :: y in ys ==> !Hit(y, removed, key)
  }

  ghost predicate ListClean(l: ListKind, kind: Kind, u: Usr, ids: map<string, nat>, vs: Versions, p: string) {
    var prev := VersionOf(vs, p);
    match l
    case UseList => Clean(UsesOf(kind, u, ids, prev), UsesFrom(kind, u, ids, vs), UseKey, vs.Keys - {p})
    case DeclList => Clean(DeclsOf(kind, u, ids, prev), DeclsFrom(kind, u, ids, vs), DeclKey, vs.Keys - {p})
    case DerivedList => Clean(DerivedOf(kind, u, prev), DerivedFrom(kind, u, vs), UsrKey, vs.Keys - {p})
    case InstanceList => Clean(InstancesOf(kind, u, prev), InstancesFrom(kind, u, vs), UsrKey, vs.Keys - {p})
  }

  // ---------- One list ----------

  lemma {:induction false} WithoutCounts<X, K>(xs: seq<X>, removed: seq<X>, key: X -> K, x: X)
    ensures multiset(Without(xs, removed, key))[x] == if Hit(x, removed, key) then 0 else multiset(xs)[x]
  {
    if xs != [] {
      var front, last := xs[..|xs| - 1], xs[|xs| - 1];
      WithoutCounts(front, removed, key, x);
      assert xs == front + [last];
    }
  }

  // Removing by key takes out exactly the removed elements if and only if
  // nothing else has one of their keys.
  lemma WithoutExactIff<X(!new), K>(xs: seq<X>, removed: seq<X>, key: X -> K, others: multiset<X>)
    requires multiset(xs) == multiset(removed) + others
    ensures multiset(Without(xs, removed, key)) == others <==> NoneHit(others, removed, key)
  {
    if y :| y in others && Hit(y, removed, key) {
      WithoutCounts(xs, removed, key, y);
    } else {
      forall x: X
        ensures multiset(Without(xs, removed, key))[x] == others[x]
      {
        WithoutCounts(xs, removed, key, x);
        if Hit(x, removed, key) {
          assert x !in others;
        }
      }
    }
  }

  lemma CleanSum<X(!new), K>(removed: seq<X>, from: string -> multiset<X>, key: X -> K, others: set<string>)
    ensures Clean(removed, from, key, others) <==> NoneHit(Sum(others, from), removed, key)
  {
    hide Hit;
    forall q, y | q in others && y in from(q)
      ensures y in Sum(others, from)
    {
      SumTake(others, from, q);
    }
    if Clean(removed, from, key, others) {
      forall y | y in Sum(others, from)
        ensures !Hit(y, removed, key)
      {
        SumMember(others, from, y);
        var q :| q in others && y in from(q);
        assert NoneHit(from(q), removed, key);
      }
    }
  }

  lemma CancelRight<X>(a: multiset<X>, b: multiset<X>, c: multiset<X>)
    requires a + c == b + c
    ensures a == b
  {
    forall x: X
      ensures a[x] == b[x]
    {
      assert (a + c)[x] == (b + c)[x];
    }
  }

  // The list of one entity after withdrawing the old and appending the new
  // contribution of path p is that of a rebuild if and only if no other file
  // contributes an entry equal to a withdrawn one.
  lemma ListExactIff<X(!new), K>(xs: seq<X>, removed: seq<X>, added: seq<X>, key: X -> K, paths: set<string>,
                                 from: string -> multiset<X>, from': string -> multiset<X>, p: string)
    requires multiset(xs) == Sum(paths, from)
    requires from(p) == multiset(removed) && from'(p) == multiset(added)
    requires forall q :: q in paths && q != p ==> from(q) == from'(q)
    requires p !in paths ==> removed == []
    ensures multiset(Without(xs, removed, key) + added) == Sum(paths + {p}, from') <==> Clean(removed, from, key, paths - {p})
  {
    var others := paths - {p};
    if p in paths { SumTake(paths, from, p); } else { assert others == paths; }
    SumTake(paths + {p}, from', p);
    assert paths + {p} - {p} == others;
    SumCongruent(others, from, from');
    WithoutExactIff(xs, removed, key, Sum(others, from));
    CleanSum(removed, from, key, others);
    hide Sum, Clean, Without;
    var now := multiset(Without(xs, removed, key));
    assert multiset(Without(xs, removed, key) + added) == now + multiset(added);
    if now + multiset(added) == Sum(others, from) + multiset(added) { CancelRight(now, Sum(others, from), multiset(added)); }
  }

  lemma WithoutNothing<X(!new), K>(xs: seq<X>, key: X -> K)
    ensures multiset(Without(xs, [], key) + []) == multiset(xs)
  {
    forall x: X
      ensures multiset(Without(xs, [], key))[x] == multiset(xs)[x]
    {
      WithoutCounts(xs, [], key, x);
    }
    assert Without(xs, [], key) + [] == Without(xs, [], key);
  }

  // ---------- The lists of a row ----------

  lemma UsesAfterIs(xs: seq<QUse>, kind: Kind, m: map<Usr, (seq<Use>, seq<Use>)>, es: Entities, es': Entities, old': Context, c: Context, u: Usr)
    requires Pairs(m, es, es', GetUses)
    ensures multiset(UsesAfter(xs, kind, m, old', c, u))
         == multiset(Without(xs, StoredUses(old', kind, Field(es, u, GetUses)), UseKey) + StoredUses(c, kind, Field(es', u, GetUses)))
  {
    hide Without;
    if u !in m { WithoutNothing(xs, UseKey); }
  }

  lemma DeclsAfterIs(xs: seq<QDecl>, m: map<Usr, (seq<DeclRef>, seq<DeclRef>)>, es: Entities, es': Entities, old': Context, c: Context, u: Usr)
    requires Pairs(m, es, es', GetDeclarations)
    ensures multiset(DeclarationsAfter(xs, m, old', c, u))
         == multiset(Without(xs, StoredDecls(old', Field(es, u, GetDeclarations)), DeclKey) + StoredDecls(c, Field(es', u, GetDeclarations)))
  {
    hide Without;
    if u !in m { WithoutNothing(xs, DeclKey); }
  }

  lemma UsrsAfterIs(xs: seq<Usr>, m: map<Usr, (seq<Usr>, seq<Usr>)>, es: Entities, es': Entities, get: Entity -> seq<Usr>, u: Usr)
    requires Pairs(m, es, es', get)
    ensures multiset(UsrsAfter(xs, m, u)) == multiset(Without(xs, Field(es, u, get), UsrKey) + Field(es', u, get))
  {
    hide Without;
    if u !in m { WithoutNothing(xs, UsrKey); }
  }

  // A file not indexed yet contributes nothing.
  lemma NothingBefore(kind: Kind, u: Usr, ids: map<string, nat>, vs: Versions, p: string)
    requires p !in vs
    ensures UsesOf(kind, u, ids, VersionOf(vs, p)) == [] && DeclsOf(kind, u, ids, VersionOf(vs, p)) == []
    ensures DerivedOf(kind, u, VersionOf(vs, p)) == [] && InstancesOf(kind, u, VersionOf(vs, p)) == []
  {
    assert EntitiesOf(EmptyFile(p), kind) == map[];
  }

  // Only the updated file contributes differently.
  lemma FromStep(kind: Kind, u: Usr, ids: map<string, nat>, vs: Versions, cur: IndexFile)
    ensures vs[cur.path := cur].Keys == vs.Keys + {cur.path}
    ensures var prev, vs' := VersionOf(vs, cur.path), vs[cur.path := cur];
      && UsesFrom(kind, u, ids, vs)(cur.path) == multiset(UsesOf(kind, u, ids, prev)) && UsesFrom(kind, u, ids, vs')(cur.path) == multiset(UsesOf(kind, u, ids, cur))
      && (forall q :: q in vs && q != cur.path ==> UsesFrom(kind, u, ids, vs)(q) == UsesFrom(kind, u, ids, vs')(q))
      && (cur.path !in vs ==> UsesOf(kind, u, ids, prev) == [])
    ensures var prev, vs' := VersionOf(vs, cur.path), vs[cur.path := cur];
      && DeclsFrom(kind, u, ids, vs)(cur.path) == multiset(DeclsOf(kind, u, ids, prev)) && DeclsFrom(kind, u, ids, vs')(cur.path) == multiset(DeclsOf(kind, u, ids, cur))
      && (forall q :: q in vs && q != cur.path ==> DeclsFrom(kind, u, ids, vs)(q) == DeclsFrom(kind, u, ids, vs')(q))
      && (cur.path !in vs ==> DeclsOf(kind, u, ids, prev) == [])
    ensures var prev, vs' := VersionOf(vs, cur.path), vs[cur.path := cur];
      && DerivedFrom(kind, u, vs)(cur.path) == multiset(DerivedOf(kind, u, prev)) && DerivedFrom(kind, u, vs')(cur.path) == multiset(DerivedOf(kind, u, cur))
      && (forall q :: q in vs && q != cur.path ==> DerivedFrom(kind, u, vs)(q) == DerivedFrom(kind, u, vs')(q))
      && (cur.path !in vs ==> DerivedOf(kind, u, prev) == [])
    ensures var prev, vs' := VersionOf(vs, cur.path), vs[cur.path := cur];
      && InstancesFrom(kind, u, vs)(cur.path) == multiset(InstancesOf(kind, u, prev)) && InstancesFrom(kind, u, vs')(cur.path) == multiset(InstancesOf(kind, u, cur))
      && (forall q :: q in vs && q != cur.path ==> InstancesFrom(kind, u, vs)(q) == InstancesFrom(kind, u, vs')(q))
      && (cur.path !in vs ==> InstancesOf(kind, u, prev) == [])
  {
    hide UsesOf, DeclsOf, DerivedOf, InstancesOf, VersionOf;
    VersionStep(vs, cur);
    if cur.path !in vs { NothingBefore(kind, u, ids, vs, cur.path); }
  }

  lemma VersionStep(vs: Versions, cur: IndexFile)
    ensures vs[cur.path := cur].Keys == vs.Keys + {cur.path} && VersionOf(vs[cur.path := cur], cur.path) == cur
    ensures forall q :: q in vs && q != cur.path ==> VersionOf(vs, q) == VersionOf(vs[cur.path := cur], q)
  {
  }

  // Every list loses the old and gains the new contribution.
  lemma RowAfterLists(row: Row, kind: Kind, k: KindUpdate, ids: map<string, nat>, prev: IndexFile, cur: IndexFile, u: Usr)
    requires IsKindDelta(k, EntitiesOf(prev, kind), EntitiesOf(cur, kind))
    ensures var row' := RowAfter(row, kind, k, ContextOf(ids, prev), ContextOf(ids, cur), u);
      && multiset(row'.uses) == multiset(Without(row.uses, UsesOf(kind, u, ids, prev), UseKey) + UsesOf(kind, u, ids, cur))
      && multiset(row'.declarations) == multiset(Without(row.declarations, DeclsOf(kind, u, ids, prev), DeclKey) + DeclsOf(kind, u, ids, cur))
      && multiset(row'.derived) == multiset(Without(row.derived, DerivedOf(kind, u, prev), UsrKey) + DerivedOf(kind, u, cur))
      && multiset(row'.instances) == multiset(Without(row.instances, InstancesOf(kind, u, prev), UsrKey) + InstancesOf(kind, u, cur))
  {
    hide ContextOf, EntitiesOf, Without, DefsAfter, UsesAfter, DeclarationsAfter, UsrsAfter, Field, Pairs, ListsDefs, StoredUses, StoredDecls;
    var es, es', old', c := EntitiesOf(prev, kind), EntitiesOf(cur, kind), ContextOf(ids, prev), ContextOf(ids, cur);
    UsesAfterIs(row.uses, kind, k.uses, es, es', old', c, u);
    DeclsAfterIs(row.declarations, k.declarations, es, es', old', c, u);
    UsrsAfterIs(row.derived, k.derived, es, es', GetDerived, u);
    UsrsAfterIs(row.instances, k.instances, es, es', GetInstances, u);
  }

  lemma UsesIff(row: Row, kind: Kind, k: KindUpdate, ids: map<string, nat>, vs: Versions, prev: IndexFile, cur: IndexFile, u: Usr)
    requires ListExact(UseList, row, kind, u, ids, vs)
    requires IsKindDelta(k, EntitiesOf(prev, kind), EntitiesOf(cur, kind)) && prev == VersionOf(vs, cur.path)
    ensures ListExact(UseList, RowAfter(row, kind, k, ContextOf(ids, prev), ContextOf(ids, cur), u), kind, u, ids, vs[cur.path := cur])
       <==> ListClean(UseList, kind, u, ids, vs, cur.path)
  {
    hide VersionOf, ContextOf, EntitiesOf, IsKindDelta, RowAfter, Sum, Clean, Without, UsesOf, UsesFrom, Hit;
    FromStep(kind, u, ids, vs, cur);
    RowAfterLists(row, kind, k, ids, prev, cur, u);
    ListExactIff(row.uses, UsesOf(kind, u, ids, prev), UsesOf(kind, u, ids, cur), UseKey, vs.Keys,
                 UsesFrom(kind, u, ids, vs), UsesFrom(kind, u, ids, vs[cur.path := cur]), cur.path);
  }

  lemma DeclsIff(row: Row, kind: Kind, k: KindUpdate, ids: map<string, nat>, vs: Versions, prev: IndexFile, cur: IndexFile, u: Usr)
    requires ListExact(DeclList, row, kind, u, ids, vs)
    requires IsKindDelta(k, EntitiesOf(prev, kind), EntitiesOf(cur, kind)) && prev == VersionOf(vs, cur.path)
    ensures ListExact(DeclList, RowAfter(row, kind, k, ContextOf(ids, prev), ContextOf(ids, cur), u), kind, u, ids, vs[cur.path := cur])
       <==> ListClean(DeclList, kind, u, ids, vs, cur.path)
  {
    hide VersionOf, ContextOf, EntitiesOf, IsKindDelta, RowAfter, Sum, Clean, Without, DeclsOf, DeclsFrom, Hit;
    FromStep(kind, u, ids, vs, cur);
    RowAfterLists(row, kind, k, ids, prev, cur, u);
    ListExactIff(row.declarations, DeclsOf(kind, u, ids, prev), DeclsOf(kind, u, ids, cur), DeclKey, vs.Keys,
                 DeclsFrom(kind, u, ids, vs), DeclsFrom(kind, u, ids, vs[cur.path := cur]), cur.path);
  }

  lemma DerivedIff(row: Row, kind: Kind, k: KindUpdate, ids: map<string, nat>, vs: Versions, prev: IndexFile, cur: IndexFile, u: Usr)
    requires ListExact(DerivedList, row, kind, u, ids, vs)
    requires IsKindDelta(k, EntitiesOf(prev, kind), EntitiesOf(cur, kind)) && prev == VersionOf(vs, cur.path)
    ensures ListExact(DerivedList, RowAfter(row, kind, k, ContextOf(ids, prev), ContextOf(ids, cur), u), kind, u, ids, vs[cur.path := cur])
       <==> ListClean(DerivedList, kind, u, ids, vs, cur.path)
  {
    hide VersionOf, ContextOf, EntitiesOf, IsKindDelta, RowAfter, Sum, Clean, Without, DerivedOf, DerivedFrom, Hit;
    FromStep(kind, u, ids, vs, cur);
    RowAfterLists(row, kind, k, ids, prev, cur, u);
    ListExactIff(row.derived, DerivedOf(kind, u, prev), DerivedOf(kind, u, cur), UsrKey, vs.Keys,
                 DerivedFrom(kind, u, vs), DerivedFrom(kind, u, vs[cur.path := cur]), cur.path);
  }

  lemma InstancesIff(row: Row, kind: Kind, k: KindUpdate, ids: map<string, nat>, vs: Versions, prev: IndexFile, cur: IndexFile, u: Usr)
    requires ListExact(InstanceList, row, kind, u, ids, vs)
    requires IsKindDelta(k, EntitiesOf(prev, kind), EntitiesOf(cur, kind)) && prev == VersionOf(vs, cur.path)
    ensures ListExact(InstanceList, RowAfter(row, kind, k, ContextOf(ids, prev), ContextOf(ids, cur), u), kind, u, ids, vs[cur.path := cur])
       <==> ListClean(InstanceList, kind, u, ids, vs, cur.path)
  {
    hide VersionOf, ContextOf, EntitiesOf, IsKindDelta, RowAfter, Sum, Clean, Without, InstancesOf, InstancesFrom, Hit;
    FromStep(kind, u, ids, vs, cur);
    RowAfterLists(row, kind, k, ids, prev, cur, u);
    ListExactIff(row.instances, InstancesOf(kind, u, prev), InstancesOf(kind, u, cur), UsrKey, vs.Keys,
                 InstancesFrom(kind, u, vs), InstancesFrom(kind, u, vs[cur.path := cur]), cur.path);
  }

  // One update keeps a list equal to a rebuild if and only if no other file
  // contributes an entry equal to one the update withdraws.
  lemma RowExactIff(l: ListKind, row: Row, kind: Kind, k: KindUpdate, ids: map<string, nat>, vs: Versions, prev: IndexFile, cur: IndexFile, u: Usr)
    requires ListExact(l, row, kind, u, ids, vs)
    requires IsKindDelta(k, EntitiesOf(prev, kind), EntitiesOf(cur, kind)) && prev == VersionOf(vs, cur.path)
    ensures ListExact(l, RowAfter(row, kind, k, ContextOf(ids, prev), ContextOf(ids, cur), u), kind, u, ids, vs[cur.path := cur])
       <==> ListClean(l, kind, u, ids, vs, cur.path)
  {
    hide *;
    match l
    case UseList => UsesIff(row, kind, k, ids, vs, prev, cur, u);
    case DeclList => DeclsIff(row, kind, k, ids, vs, prev, cur, u);
    case DerivedList => DerivedIff(row, kind, k, ids, vs, prev, cur, u);
    case InstanceList => InstancesIff(row, kind, k, ids, vs, prev, cur, u);
  }

  // ---------- All entities ----------

  ghost predicate ListsExact(l: ListKind, rows: imap<Usr, Row>, kind: Kind, ids: map<string, nat>, vs: Versions) {
    forall u: Usr :: u in rows && ListExact(l, rows[u], kind, u, ids, vs)
  }

  ghost predicate ListsClean(l: ListKind, kind: Kind, ids: map<string, nat>, vs: Versions, p: string) {
    forall u: Usr :: ListClean(l, kind, u, ids, vs, p)
  }

  lemma ListsExactIff(l: ListKind, rows: imap<Usr, Row>, kind: Kind, k: KindUpdate, ids: map<string, nat>, vs: Versions, cur: IndexFile)
    requires ListsExact(l, rows, kind, ids, vs)
    requires IsKindDelta(k, EntitiesOf(VersionOf(vs, cur.path), kind), EntitiesOf(cur, kind))
    ensures var rows' := RowsAfter(rows, kind, k, ContextOf(ids, VersionOf(vs, cur.path)), ContextOf(ids, cur));
      ListsExact(l, rows', kind, ids, vs[cur.path := cur]) <==> ListsClean(l, kind, ids, vs, cur.path)
  {
    var prev := VersionOf(vs, cur.path);
    var rows' := RowsAfter(rows, kind, k, ContextOf(ids, prev), ContextOf(ids, cur));
    hide VersionOf, ContextOf, EntitiesOf, RowAfter, IsKindDelta, ListExact, ListClean;
    forall u: Usr
      ensures u in rows' && (ListExact(l, rows'[u], kind, u, ids, vs[cur.path := cur]) <==> ListClean(l, kind, u, ids, vs, cur.path))
    {
      assert u in rows && ListExact(l, rows[u], kind, u, ids, vs);
      RowExactIff(l, rows[u], kind, k, ids, vs, prev, cur, u);
    }
    hide RowsAfter;
    if ListsExact(l, rows', kind, ids, vs[cur.path := cur]) {
      forall u: Usr
        ensures ListClean(l, kind, u, ids, vs, cur.path)
      {
        assert u in rows' && ListExact(l, rows'[u], kind, u, ids, vs[cur.path := cur]);
      }
    }
  }

  lemma FromGrow(kind: Kind, u: Usr, ids: map<string, nat>, ids': map<string, nat>, vs: Versions)
    requires IdsGrow(ids, ids') && WellPlaced(ids, vs)
    ensures forall p :: p in vs ==> UsesFrom(kind, u, ids, vs)(p) == UsesFrom(kind, u, ids', vs)(p)
    ensures forall p :: p in vs ==> DeclsFrom(kind, u, ids, vs)(p) == DeclsFrom(kind, u, ids', vs)(p)
  {
    hide EntitiesOf, StoredUses, StoredDecls, Field;
    forall p | p in vs
      ensures UsesOf(kind, u, ids, VersionOf(vs, p)) == UsesOf(kind, u, ids', VersionOf(vs, p))
      ensures DeclsOf(kind, u, ids, VersionOf(vs, p)) == DeclsOf(kind, u, ids', VersionOf(vs, p))
    {
      ContextGrows(ids, ids', vs[p]);
      hide ContextOf;
    }
    hide UsesOf, DeclsOf, VersionOf, WellPlaced, IdsGrow;
  }

  // Registering further paths changes nothing.
  lemma ListExactGrow(l: ListKind, row: Row, kind: Kind, u: Usr, ids: map<string, nat>, ids': map<string, nat>, vs: Versions)
    requires IdsGrow(ids, ids') && WellPlaced(ids, vs)
    ensures ListExact(l, row, kind, u, ids, vs) <==> ListExact(l, row, kind, u, ids', vs)
  {
    FromGrow(kind, u, ids, ids', vs);
    hide UsesFrom, DeclsFrom, DerivedFrom, InstancesFrom, WellPlaced, IdsGrow, Sum;
    SumCongruent(vs.Keys, UsesFrom(kind, u, ids, vs), UsesFrom(kind, u, ids', vs));
    SumCongruent(vs.Keys, DeclsFrom(kind, u, ids, vs), DeclsFrom(kind, u, ids', vs));
  }

  lemma ListsExactGrow(l: ListKind, rows: imap<Usr, Row>, kind: Kind, ids: map<string, nat>, ids': map<string, nat>, vs: Versions)
    requires IdsGrow(ids, ids') && WellPlaced(ids, vs) && ListsExact(l, rows, kind, ids, vs)
    ensures ListsExact(l, rows, kind, ids', vs)
  {
    hide ListExact, WellPlaced, IdsGrow;
    forall u: Usr
      ensures u in rows && ListExact(l, rows[u], kind, u, ids', vs)
    {
      assert u in rows && ListExact(l, rows[u], kind, u, ids, vs);
      ListExactGrow(l, rows[u], kind, u, ids, ids', vs);
    }
  }
}
