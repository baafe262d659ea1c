// The entity tables of the query database (src/query.hh, src/query.cc): a map
// from usrs to the dense array of entities, updated in place.
module EntityTable {
  import opened Index
  import opened Delta
  import opened Occurrences

  // Stored references carry global file ids.
  datatype QUse = QUse(range: Range, role: U16, fileId: nat)
  datatype QDecl = QDecl(use: QUse, extent: Range)
  datatype QDef = QDef(def: Def, fileId: nat, spell: Option<QDecl>)

  datatype Row = Row(usr: Usr, defs: seq<QDef>, declarations: seq<QDecl>, derived: seq<Usr>, instances: seq<Usr>, uses: seq<QUse>)

  function StoredUse(c: Context, kind: Kind, u: Use): QUse {
    var w := Widened(kind, u);
    QUse(w.range, w.role, Resolve(c, w.fileId))
  }

  function StoredDecl(c: Context, d: DeclRef): QDecl {
    QDecl(QUse(d.use.range, d.use.role, Resolve(c, d.use.fileId)), d.extent)
  }

  function StoredDef(c: Context, d: Def): QDef {
    QDef(d, c.self, if d.Spell().use.range.Valid() then Some(StoredDecl(c, d.Spell())) else None)
  }

  function StoredUses(c: Context, kind: Kind, us: seq<Use>): (r: seq<QUse>)
    ensures |r| == |us|
  {
    seq(|us|, i requires 0 <= i < |us| => StoredUse(c, kind, us[i]))
  }

  function StoredDecls(c: Context, ds: seq<DeclRef>): (r: seq<QDecl>)
    ensures |r| == |ds|
  {
    seq(|ds|, i requires 0 <= i < |ds| => StoredDecl(c, ds[i]))
  }

  // Equality of uses and declarations ignores everything but range and file.
  function UseKey(u: QUse): (Range, nat) { (u.range, u.fileId) }
  function DeclKey(d: QDecl): (Range, nat) { UseKey(d.use) }
  function UsrKey(u: Usr): Usr { u }

  predicate Hit<T, K(==)>(x: T, removed: seq<T>, key: T -> K) {
    exists i :: 0 <= i < |removed| && key(removed[i]) == key(x)
  }

  // removeRange: drops every element equal to one of removed.
  function Without<T, K(==)>(xs: seq<T>, removed: seq<T>, key: T -> K): seq<T> {
    if xs == [] then []
    else
      var front := Without(xs[..|xs| - 1], removed, key);
      if Hit(xs[|xs| - 1], removed, key) then front else front + [xs[|xs| - 1]]
  }

  lemma WithoutSnoc<T, K>(xs: seq<T>, x: T, removed: seq<T>, key: T -> K)
    ensures Without(xs + [x], removed, key) == Without(xs, removed, key) + if Hit(x, removed, key) then [] else [x]
  {
    hide Hit;
    assert (xs + [x])[..|xs|] == xs;
  }

  // What stays keeps its order.
  lemma {:induction false} WithoutConcat<T, K>(a: seq<T>, b: seq<T>, removed: seq<T>, key: T -> K)
    ensures Without(a + b, removed, key) == Without(a, removed, key) + Without(b, removed, key)
    ensures |b| == 1 ==> Without(b, removed, key) == if Hit(b[0], removed, key) then [] else b
  {
    if b == [] {
      assert a + b == a;
    } else {
      var front, last := b[..|b| - 1], b[|b| - 1];
      assert b == front + [last] && a + b == (a + front) + [last];
      WithoutConcat(a, front, removed, key);
      WithoutSnoc(front, last, removed, key);
      WithoutSnoc(a + front, last, removed, key);
      assert front == [] ==> Without(front, removed, key) == [];
      hide Without, Hit;
    }
  }

  method RemoveRange<T, K(==)>(from: seq<T>, toRemove: seq<T>, key: T -> K) returns (r: seq<T>)
    ensures r == Without(from, toRemove, key)
  {
    r := [];
    for i := 0 to |from|
      invariant r == Without(from[..i], toRemove, key)
    {
      assert from[..i + 1][..i] == from[..i];
      if !Hit(from[i], toRemove, key) {
        r := r + [from[i]];
      }
    }
    assert from[..|from|] == from;
  }

  // removeUsrs on one entity: erases the first definition of the file.
  function EraseDef(defs: seq<QDef>, fileId: nat): seq<QDef> {
    if defs == [] then []
    else if defs[0].fileId == fileId then defs[1..]
    else [defs[0]] + EraseDef(defs[1..], fileId)
  }

  // tryReplaceDef, or push_back when no definition of the same file is there.
  function PutDef(defs: seq<QDef>, d: QDef): seq<QDef> {
    if defs == [] then [d]
    else if defs[0].fileId == d.fileId then [d] + defs[1..]
    else [defs[0]] + PutDef(defs[1..], d)
  }

  method FindDef(defs: seq<QDef>, fileId: nat) returns (i: nat)
    ensures i <= |defs| && (i < |defs| ==> defs[i].fileId == fileId)
    ensures forall k :: 0 <= k < i ==> defs[k].fileId != fileId
  {
    i := 0;
    while i < |defs| && defs[i].fileId != fileId
      invariant i <= |defs| && forall k :: 0 <= k < i ==> defs[k].fileId != fileId
    {
      i := i + 1;
    }
  }

  lemma {:induction false} EraseAt(defs: seq<QDef>, fileId: nat, i: nat)
    requires i <= |defs| && (i < |defs| ==> defs[i].fileId == fileId)
    requires forall k :: 0 <= k < i ==> defs[k].fileId != fileId
    ensures EraseDef(defs, fileId) == if i < |defs| then defs[..i] + defs[i + 1..] else defs
  {
    if i > 0 { EraseAt(defs[1..], fileId, i - 1); }
  }

  lemma {:induction false} PutAt(defs: seq<QDef>, d: QDef, i: nat)
    requires i <= |defs| && (i < |defs| ==> defs[i].fileId == d.fileId)
    requires forall k :: 0 <= k < i ==> defs[k].fileId != d.fileId
    ensures PutDef(defs, d) == if i < |defs| then defs[i := d] else defs + [d]
  {
    if i > 0 { PutAt(defs[1..], d, i - 1); }
  }

  class Table {
    var index: map<Usr, nat>
    var rows: seq<Row>

    // index is a bijection onto the rows.
    ghost predicate Valid()
      reads this
    {
      && (forall u :: u in index ==> index[u] < |rows| && rows[index[u]].usr == u)
      && (forall i :: 0 <= i < |rows| ==> rows[i].usr in index && index[rows[i].usr] == i)
    }

    // The entity of u; entities not yet registered are empty.
    ghost function RowOf(u: Usr): Row
      reads this
      requires Valid()
    {
      if u in index then rows[index[u]] else Row(u, [], [], [], [], [])
    }

    // All entities.
    ghost function Rows(): (r: imap<Usr, Row>)
      reads this
      requires Valid()
      ensures forall u: Usr :: u in r && r[u] == RowOf(u)
    {
      imap u: Usr :: RowOf(u)
    }

    constructor ()
      ensures Valid() && forall u :: RowOf(u) == Row(u, [], [], [], [], [])
    {
      index, rows := map[], [];
    }

    // try_emplace followed by emplace_back.
    method Register(u: Usr) returns (i: nat)
      requires Valid()
      modifies this
      ensures Valid() && u in index && index[u] == i && i < |rows|
      ensures forall v :: RowOf(v) == old(RowOf(v))
    {
      if u !in index {
        index := index[u := |rows|];
        rows := rows + [Row(u, [], [], [], [], [])];
      }
      i := index[u];
    }

    method EraseDefOf(u: Usr, fileId: nat)
      requires Valid()
      modifies this
      ensures Valid() && RowOf(u) == old(RowOf(u)).(defs := EraseDef(old(RowOf(u).defs), fileId))
      ensures forall v :: v != u ==> RowOf(v) == old(RowOf(v))
    {
      if u in index {
        var i := index[u];
        var defs := rows[i].defs;
        var k := FindDef(defs, fileId);
        EraseAt(defs, fileId, k);
        if k < |defs| {
          rows := rows[i := rows[i].(defs := defs[..k] + defs[k + 1..])];
        }
      }
    }

    method PutDefOf(u: Usr, d: QDef)
      requires Valid()
      modifies this
      ensures Valid() && RowOf(u) == old(RowOf(u)).(defs := PutDef(old(RowOf(u).defs), d))
      ensures forall v :: v != u ==> RowOf(v) == old(RowOf(v))
    {
      var i := Register(u);
      var defs := rows[i].defs;
      var k := FindDef(defs, d.fileId);
      PutAt(defs, d, k);
      rows := rows[i := rows[i].(defs := if k < |defs| then defs[k := d] else defs + [d])];
    }

    method ChangeDeclarations(u: Usr, removed: seq<QDecl>, added: seq<QDecl>)
      requires Valid()
      modifies this
      ensures Valid()
      ensures RowOf(u) == old(RowOf(u)).(declarations := Without(old(RowOf(u).declarations), removed, DeclKey) + added)
      ensures forall v :: v != u ==> RowOf(v) == old(RowOf(v))
    {
      var i := Register(u);
      var r := RemoveRange(rows[i].declarations, removed, DeclKey);
      rows := rows[i := rows[i].(declarations := r + added)];
    }

    method ChangeUses(u: Usr, removed: seq<QUse>, added: seq<QUse>)
      requires Valid()
      modifies this
      ensures Valid()
      ensures RowOf(u) == old(RowOf(u)).(uses := Without(old(RowOf(u).uses), removed, UseKey) + added)
      ensures forall v :: v != u ==> RowOf(v) == old(RowOf(v))
    {
      var i := Register(u);
      var r := RemoveRange(rows[i].uses, removed, UseKey);
      rows := rows[i := rows[i].(uses := r + added)];
    }

    method ChangeDerived(u: Usr, removed: seq<Usr>, added: seq<Usr>)
      requires Valid()
      modifies this
      ensures Valid()
      ensures RowOf(u) == old(RowOf(u)).(derived := Without(old(RowOf(u).derived), removed, UsrKey) + added)
      ensures forall v :: v != u ==> RowOf(v) == old(RowOf(v))
    {
      var i := Register(u);
      var r := RemoveRange(rows[i].derived, removed, UsrKey);
      rows := rows[i := rows[i].(derived := r + added)];
    }

    method ChangeInstances(u: Usr, removed: seq<Usr>, added: seq<Usr>)
      requires Valid()
      modifies this
      ensures Valid()
      ensures RowOf(u) == old(RowOf(u)).(instances := Without(old(RowOf(u).instances), removed, UsrKey) + added)
      ensures forall v :: v != u ==> RowOf(v) == old(RowOf(v))
    {
      var i := Register(u);
      var r := RemoveRange(rows[i].instances, removed, UsrKey);
      rows := rows[i := rows[i].(instances := r + added)];
    }
  }
}
