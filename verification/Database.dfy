// The query database (src/query.cc): file ids, reference counts and entity
// tables, kept up to date by applying index updates.
module Database {
  import opened Index
  import opened Sums
  import opened Delta
  import opened Occurrences
  import opened EntityTable

  // ---------- Rows after an update ----------

  function EraseAll(defs: seq<QDef>, removed: seq<(Usr, Def)>, fileId: nat, u: Usr): seq<QDef> {
    if removed == [] then defs
    else
      var before := EraseAll(defs, removed[..|removed| - 1], fileId, u);
      if removed[|removed| - 1].0 == u then EraseDef(before, fileId) else before
  }

  function PutAll(defs: seq<QDef>, added: seq<(Usr, Def)>, c: Context, u: Usr): seq<QDef> {
    if added == [] then defs
    else
      var before := PutAll(defs, added[..|added| - 1], c, u);
      var last := added[|added| - 1];
      if last.0 == u then PutDef(before, StoredDef(c, last.1)) else before
  }

  function DefsAfter(defs: seq<QDef>, k: KindUpdate, c: Context, u: Usr): seq<QDef> {
    PutAll(EraseAll(defs, k.removed, c.self, u), k.defUpdate, c, u)
  }

  function DeclarationsAfter(ds: seq<QDecl>, m: map<Usr, (seq<DeclRef>, seq<DeclRef>)>, old': Context, c: Context, u: Usr): seq<QDecl> {
    if u in m then Without(ds, StoredDecls(old', m[u].0), DeclKey) + StoredDecls(c, m[u].1) else ds
  }

  function UsesAfter(us: seq<QUse>, kind: Kind, m: map<Usr, (seq<Use>, seq<Use>)>, old': Context, c: Context, u: Usr): seq<QUse> {
    if u in m then Without(us, StoredUses(old', kind, m[u].0), UseKey) + StoredUses(c, kind, m[u].1) else us
  }

  function UsrsAfter(us: seq<Usr>, m: map<Usr, (seq<Usr>, seq<Usr>)>, u: Usr): seq<Usr> {
    if u in m then Without(us, m[u].0, UsrKey) + m[u].1 else us
  }

  // The row of u once k has been applied.
  function RowAfter(row: Row, kind: Kind, k: KindUpdate, old': Context, c: Context, u: Usr): Row {
    Row(row.usr, DefsAfter(row.defs, k, c, u), DeclarationsAfter(row.declarations, k.declarations, old', c, u),
        UsrsAfter(row.derived, k.derived, u), UsrsAfter(row.instances, k.instances, u),
        UsesAfter(row.uses, kind, k.uses, old', c, u))
  }

  // All rows once k has been applied.
  ghost function RowsAfter(rows: imap<Usr, Row>, kind: Kind, k: KindUpdate, old': Context, c: Context): imap<Usr, Row> {
    imap u: Usr | u in rows :: RowAfter(rows[u], kind, k, old', c, u)
  }

  // ---------- Multiset bookkeeping ----------

  lemma {:induction false} AllSpellsPrefix(c: Context, kind: Kind, defs: seq<(Usr, Def)>, i: nat)
    requires i <= |defs|
    ensures AllSpells(c, kind, defs[..i]) <= AllSpells(c, kind, defs)
    decreases |defs| - i
  {
    if i == |defs| {
      assert defs[..i] == defs;
    } else {
      AllSpellsPrefix(c, kind, defs, i + 1);
      assert defs[..i + 1][..i] == defs[..i];
    }
  }

  lemma TakeSpells(c: Context, kind: Kind, defs: seq<(Usr, Def)>, j: nat, start: multiset<Occ>)
    requires j < |defs| && AllSpells(c, kind, defs) <= start
    ensures var o := multiset(SpellOccs(c, kind, defs[j].0, defs[j].1));
      && o + multiset{} <= start - AllSpells(c, kind, defs[..j])
      && start - AllSpells(c, kind, defs[..j]) - o == start - AllSpells(c, kind, defs[..j + 1])
  {
    AllSpellsPrefix(c, kind, defs, j + 1);
    AllSpellsSnoc(c, kind, defs, j);
    hide AllSpells, SpellOccs;
    var before, o := AllSpells(c, kind, defs[..j]), multiset(SpellOccs(c, kind, defs[j].0, defs[j].1));
    assert before + o <= start;
  }

  lemma AllSpellsSnoc(c: Context, kind: Kind, defs: seq<(Usr, Def)>, j: nat)
    requires j < |defs|
    ensures AllSpells(c, kind, defs[..j + 1]) == AllSpells(c, kind, defs[..j]) + multiset(SpellOccs(c, kind, defs[j].0, defs[j].1))
  {
    assert defs[..j + 1][..j] == defs[..j];
  }

  lemma PutAllSnoc(c: Context, added: seq<(Usr, Def)>, j: nat)
    requires j < |added|
    ensures forall defs, u :: (
      var before := PutAll(defs, added[..j], c, u);
      PutAll(defs, added[..j + 1], c, u) == if added[j].0 == u then PutDef(before, StoredDef(c, added[j].1)) else before)
  {
    hide PutDef, StoredDef;
    assert added[..j + 1][..j] == added[..j];
  }

  lemma LoopEnd<X>(now: multiset<X>, then': multiset<X>, allOld: multiset<X>, allNew: multiset<X>)
    requires now + allOld + multiset{} == then' + allNew + multiset{}
    ensures now + allOld == then' + allNew
  {
    assert now + allOld + multiset{} == now + allOld;
    assert then' + allNew + multiset{} == then' + allNew;
  }

  // Three removals and additions in a row.
  lemma Chain<X>(t0: multiset<X>, t1: multiset<X>, t2: multiset<X>, t3: multiset<X>,
                 s: multiset<X>, s': multiset<X>, d: multiset<X>, d': multiset<X>, u: multiset<X>, u': multiset<X>)
    requires s <= t0 && t1 == t0 - s + s' && t2 + d == t1 + d' && t3 + u == t2 + u'
    ensures t3 + (s + d + u) == t0 + (s' + d' + u')
  {
    assert t1 + s == t0 + s';
    calc {
      t3 + (s + d + u);
      (t3 + u) + (s + d);
      (t2 + u') + (s + d);
      (t2 + d) + (s + u');
      (t1 + d') + (s + u');
      (t1 + s) + (d' + u');
      (t0 + s') + (d' + u');
      t0 + (s' + d' + u');
    }
  }

  // One key of a remove-and-add loop, as multisets: now is the current total,
  // then the total before the loop.
  lemma LoopStep<X>(now: multiset<X>, then': multiset<X>, rest: multiset<X>, allOld: multiset<X>, allNew: multiset<X>,
                    todoOld: multiset<X>, todoNew: multiset<X>, o: multiset<X>, n: multiset<X>, oldLeft: multiset<X>, newLeft: multiset<X>)
    requires todoOld == o + oldLeft && todoNew == n + newLeft
    requires todoOld + rest <= now
    requires now + allOld + todoNew == then' + allNew + todoOld
    ensures o + (oldLeft + rest) <= now
    ensures oldLeft + rest <= now - o + n
    ensures now - o + n + allOld + newLeft == then' + allNew + oldLeft
  {
    assert o + (oldLeft + rest) == todoOld + rest;
    assert o <= now;
    forall x: X
      ensures (now - o + n + allOld + newLeft)[x] == (then' + allNew + oldLeft)[x]
    {
      assert (now + allOld + todoNew)[x] == (then' + allNew + todoOld)[x];
    }
  }

  // Taking the elements of a contained sequence out one by one.
  lemma TakeOne<X>(occs: seq<X>, j: nat, start: multiset<X>)
    requires j < |occs| && multiset(occs) <= start
    ensures occs[j] in occs && occs[j] in start - multiset(occs[..j])
    ensures start - multiset(occs[..j]) - multiset{occs[j]} == start - multiset(occs[..j + 1])
  {
    assert occs[..j + 1] == occs[..j] + [occs[j]];
    assert occs == occs[..j + 1] + occs[j + 1..];
    assert multiset(occs)[occs[j]] >= multiset(occs[..j + 1])[occs[j]] == multiset(occs[..j])[occs[j]] + 1;
  }

  // The total while a remove-and-add loop still has the keys todo before it.
  ghost predicate Owed<X>(now: multiset<X>, start: multiset<X>, rest: multiset<X>, keys: set<Usr>, todo: set<Usr>,
                          f: Usr -> multiset<X>, g: Usr -> multiset<X>)
  {
    Sum(todo, f) + rest <= now && now + Sum(keys, f) + Sum(todo, g) == start + Sum(keys, g) + Sum(todo, f)
  }

  lemma OwedFirst<X>(start: multiset<X>, rest: multiset<X>, keys: set<Usr>, f: Usr -> multiset<X>, g: Usr -> multiset<X>)
    requires Sum(keys, f) + rest <= start
    ensures Owed(start, start, rest, keys, keys, f, g)
  {
  }

  lemma OwedNext<X>(now: multiset<X>, start: multiset<X>, rest: multiset<X>, keys: set<Usr>, todo: set<Usr>, u: Usr,
                    f: Usr -> multiset<X>, g: Usr -> multiset<X>)
    requires u in todo && Owed(now, start, rest, keys, todo, f, g)
    ensures f(u) + (Sum(todo - {u}, f) + rest) <= now
    ensures Owed(now - f(u) + g(u), start, rest, keys, todo - {u}, f, g)
  {
    SumTake(todo, f, u);
    SumTake(todo, g, u);
    LoopStep(now, start, rest, Sum(keys, f), Sum(keys, g), Sum(todo, f), Sum(todo, g), f(u), g(u), Sum(todo - {u}, f), Sum(todo - {u}, g));
  }

  lemma OwedNothing<X>(now: multiset<X>, start: multiset<X>, rest: multiset<X>, keys: set<Usr>, f: Usr -> multiset<X>, g: Usr -> multiset<X>)
    requires Owed(now, start, rest, keys, {}, f, g)
    ensures rest <= now && now + Sum(keys, f) == start + Sum(keys, g)
  {
    SumEmpty(f);
    SumEmpty(g);
    LoopEnd(now, start, Sum(keys, f), Sum(keys, g));
  }

  // ---------- File definitions ----------

  // The definition of the file at path p, if there is one.
  function DefAt(defs: seq<Option<FileDef>>, ids: map<string, nat>, p: string): Option<FileDef> {
    if p in ids && ids[p] < |defs| then defs[ids[p]] else None
  }

  // What a file gets that is referred to before it is indexed.
  function ReferredDef(p: string): FileDef { FileDef(p, [], 0, [], [], {}) }

  predicate ListsPath(lids: seq<(I32, string)>, p: string) { exists i :: 0 <= i < |lids| && lids[i].1 == p }

  // A definition once the files lids are referred to.
  function DefOnceReferred(def: Option<FileDef>, lids: seq<(I32, string)>, p: string): Option<FileDef> {
    if def.None? && ListsPath(lids, p) then Some(ReferredDef(p)) else def
  }

  // and once the version current has been applied.
  function NextDef(def: Option<FileDef>, current: IndexFile, p: string): Option<FileDef> {
    if p == current.path then Some(FileDefOf(current)) else DefOnceReferred(def, current.lid2path, p)
  }

  lemma ListsPathSnoc(lids: seq<(I32, string)>, j: nat, p: string)
    requires j < |lids|
    ensures ListsPath(lids[..j + 1], p) <==> ListsPath(lids[..j], p) || lids[j].1 == p
  {
    assert lids[..j + 1] == lids[..j] + [lids[j]];
    if ListsPath(lids[..j], p) {
      var i :| 0 <= i < |lids[..j]| && lids[..j][i].1 == p;
      assert lids[..j + 1][i].1 == p;
    }
    if lids[j].1 == p { assert lids[..j + 1][j].1 == p; }
  }

  lemma DeltaHeader(u: IndexUpdate, previous: IndexFile, current: IndexFile)
    requires IsDelta(u, previous, current)
    ensures u.prevLid2path == previous.lid2path && u.lid2path == current.lid2path
    ensures u.def == FileDefOf(current) && u.def.path == current.path
  {
  }

  // All ids a context yields are below n.
  predicate InRange(c: Context, n: nat) {
    c.self < n && forall l :: l in c.lids ==> c.lids[l] < n
  }

  lemma SpellsInRange(c: Context, kind: Kind, u: Usr, def: Def, n: nat)
    requires InRange(c, n)
    ensures forall o :: o in SpellOccs(c, kind, u, def) ==> o.0 < n
  {
  }

  lemma OccsInRange(kind: Kind, c: Context, u: Usr, n: nat)
    requires InRange(c, n)
    ensures forall ds, o :: o in DeclOccs(c, kind, u, ds) ==> o.0 < n
    ensures forall us, o :: o in UseOccs(c, kind, u, us) ==> o.0 < n
  {
  }

  class Db {
    // The fields of the file entries, one column each.
    var fileIds: seq<nat>
    var fileDefs: seq<Option<FileDef>>
    var symbol2refcnt: seq<map<ExtentRef, int>>
    var name2id: map<string, nat>
    const funcs: Table
    const types: Table
    const vars: Table
    ghost var names: seq<string>          // names[i] is the path of file i
    ghost var total: multiset<Occ>        // all counted references

    // Paths and file ids correspond one to one.
    ghost predicate ValidIds()
      reads this`fileIds, this`fileDefs, this`name2id, this`names
    {
      && |names| == |fileIds| == |fileDefs|
      && (forall p :: p in name2id ==> name2id[p] < |names| && names[name2id[p]] == p)
      && (forall i :: 0 <= i < |names| ==> names[i] in name2id && name2id[names[i]] == i && fileIds[i] == i)
    }

    function RefCount(i: nat, e: ExtentRef): int
      reads this`symbol2refcnt
    {
      if i < |symbol2refcnt| && e in symbol2refcnt[i] then symbol2refcnt[i][e] else 0
    }

    // The stored counts are positive and are those of total.
    ghost predicate ValidRefs()
      reads this`symbol2refcnt, this`total
    {
      && (forall i, e :: 0 <= i < |symbol2refcnt| && e in symbol2refcnt[i] ==> symbol2refcnt[i][e] > 0)
      && (forall i: nat, e :: total[(i, e)] == RefCount(i, e))
    }

    constructor ()
      ensures Valid() && fresh(funcs) && fresh(types) && fresh(vars)
      ensures name2id == map[] && total == multiset{}
      ensures forall u :: funcs.RowOf(u) == types.RowOf(u) == vars.RowOf(u) == Row(u, [], [], [], [], [])
    {
      funcs := new Table();
      types := new Table();
      vars := new Table();
      fileIds, fileDefs, symbol2refcnt, name2id, names, total := [], [], [], map[], [], multiset{};
    }

    method GetFileId(path: string) returns (id: nat)
      requires ValidIds() && ValidRefs() && |symbol2refcnt| == |names|
      modifies this`fileIds, this`fileDefs, this`symbol2refcnt, this`name2id, this`names
      ensures ValidIds() && ValidRefs() && |symbol2refcnt| == |names|
      ensures path in name2id && name2id[path] == id && id < |names|
      ensures IdsGrow(old(name2id), name2id)
      ensures name2id.Keys == old(name2id.Keys) + {path}
      ensures forall p :: DefAt(fileDefs, name2id, p) == old(DefAt(fileDefs, name2id, p))
    {
      if path !in name2id {
        var id := |fileIds|;
        name2id := name2id[path := id];
        fileIds, fileDefs, symbol2refcnt := fileIds + [id], fileDefs + [None], symbol2refcnt + [map[]];
        names := names + [path];
      }
      id := name2id[path];
    }

    // ref and refDecl: one count up or down; a count never becomes negative.
    method ChangeRef(o: Occ, delta: int)
      requires ValidRefs() && o.0 < |symbol2refcnt|
      requires delta == 1 || (delta == -1 && o in total)
      modifies this`symbol2refcnt, this`total
      ensures ValidRefs() && |symbol2refcnt| == |old(symbol2refcnt)|
      ensures total == if delta == 1 then old(total) + multiset{o} else old(total) - multiset{o}
    {
      var counts := symbol2refcnt[o.0];
      var v := (if o.1 in counts then counts[o.1] else 0) + delta;
      assert total[o] == RefCount(o.0, o.1);
      assert v >= 0;
      counts := if v == 0 then counts - {o.1} else counts[o.1 := v];
      symbol2refcnt := symbol2refcnt[o.0 := counts];
      total := if delta == 1 then total + multiset{o} else total - multiset{o};
      forall i: nat, e
        ensures total[(i, e)] == RefCount(i, e)
      {
        assert old(total)[(i, e)] == old(RefCount(i, e));
      }
    }

    method SubtractRefs(occs: seq<Occ>, ghost rest: multiset<Occ>)
      requires ValidRefs() && forall o :: o in occs ==> o.0 < |symbol2refcnt|
      requires multiset(occs) + rest <= total
      modifies this`symbol2refcnt, this`total
      ensures ValidRefs() && |symbol2refcnt| == |old(symbol2refcnt)|
      ensures total == old(total) - multiset(occs) && rest <= total
    {
      hide ValidRefs;
      ghost var start := total;
      for j := 0 to |occs|
        invariant ValidRefs() && |symbol2refcnt| == |old(symbol2refcnt)|
        invariant total == start - multiset(occs[..j])
      {
        TakeOne(occs, j, start);
        ChangeRef(occs[j], -1);
      }
      assert occs[..|occs|] == occs;
    }

    method AddRefs(occs: seq<Occ>)
      requires ValidRefs() && forall o :: o in occs ==> o.0 < |symbol2refcnt|
      modifies this`symbol2refcnt, this`total
      ensures ValidRefs() && |symbol2refcnt| == |old(symbol2refcnt)|
      ensures total == old(total) + multiset(occs)
    {
      hide ValidRefs;
      ghost var start := total;
      for j := 0 to |occs|
        invariant ValidRefs() && |symbol2refcnt| == |old(symbol2refcnt)|
        invariant total == start + multiset(occs[..j])
      {
        assert occs[..j + 1] == occs[..j] + [occs[j]];
        assert occs[j] in occs;
        ChangeRef(occs[j], 1);
      }
      assert occs[..|occs|] == occs;
    }

    // The spellings of definitions that disappear.
    method SubtractSpells(kind: Kind, c: Context, removed: seq<(Usr, Def)>, ghost rest: multiset<Occ>)
      requires ValidRefs() && InRange(c, |symbol2refcnt|)
      requires AllSpells(c, kind, removed) + rest <= total
      modifies this`symbol2refcnt, this`total
      ensures ValidRefs() && |symbol2refcnt| == |old(symbol2refcnt)|
      ensures total == old(total) - AllSpells(c, kind, removed) && rest <= total
    {
      hide ValidRefs, InRange, SpellOccs;
      ghost var start := total;
      for j := 0 to |removed|
        invariant ValidRefs() && |symbol2refcnt| == |old(symbol2refcnt)|
        invariant total == start - AllSpells(c, kind, removed[..j])
      {
        TakeSpells(c, kind, removed, j, start);
        SpellsInRange(c, kind, removed[j].0, removed[j].1, |symbol2refcnt|);
        SubtractRefs(SpellOccs(c, kind, removed[j].0, removed[j].1), multiset{});
      }
      assert removed[..|removed|] == removed;
    }

    method RemoveUsrs(t: Table, removed: seq<(Usr, Def)>, fileId: nat)
      requires t.Valid()
      modifies t
      ensures t.Valid()
      ensures forall u :: t.RowOf(u) == old(t.RowOf(u)).(defs := EraseAll(old(t.RowOf(u)).defs, removed, fileId, u))
    {
      for j := 0 to |removed|
        invariant t.Valid()
        invariant forall u :: t.RowOf(u) == old(t.RowOf(u)).(defs := EraseAll(old(t.RowOf(u)).defs, removed[..j], fileId, u))
      {
        assert removed[..j + 1][..j] == removed[..j];
        t.EraseDefOf(removed[j].0, fileId);
      }
      assert removed[..|removed|] == removed;
    }

    // DB::update: stores the new definitions and counts their spellings.
    method UpdateDefs(kind: Kind, t: Table, c: Context, defs: seq<(Usr, Def)>)
      requires ValidRefs() && InRange(c, |symbol2refcnt|) && t.Valid()
      modifies this`symbol2refcnt, this`total, t
      ensures ValidRefs() && |symbol2refcnt| == |old(symbol2refcnt)|
      ensures total == old(total) + AllSpells(c, kind, defs)
      ensures t.Valid()
      ensures forall u :: t.RowOf(u) == old(t.RowOf(u)).(defs := PutAll(old(t.RowOf(u)).defs, defs, c, u))
    {
      hide ValidRefs, InRange, SpellOccs, StoredDef, PutDef;
      assert AllSpells(c, kind, defs[..0]) == multiset{} && forall ds, u :: PutAll(ds, defs[..0], c, u) == ds;
      hide AllSpells, PutAll;
      for j := 0 to |defs|
        invariant ValidRefs() && |symbol2refcnt| == |old(symbol2refcnt)| && t.Valid()
        invariant total == old(total) + AllSpells(c, kind, defs[..j])
        invariant forall u :: t.RowOf(u) == old(t.RowOf(u)).(defs := PutAll(old(t.RowOf(u)).defs, defs[..j], c, u))
      {
        AllSpellsSnoc(c, kind, defs, j);
        PutAllSnoc(c, defs, j);
        SpellsInRange(c, kind, defs[j].0, defs[j].1, |symbol2refcnt|);
        AddRefs(SpellOccs(c, kind, defs[j].0, defs[j].1));
        t.PutDefOf(defs[j].0, StoredDef(c, defs[j].1));
      }
      assert defs[..|defs|] == defs;
    }

    // Counts of the declarations that go and come, entity by entity in any order.
    method ChangeDeclRefs(kind: Kind, old': Context, c: Context, m: map<Usr, (seq<DeclRef>, seq<DeclRef>)>, ghost rest: multiset<Occ>)
      requires ValidRefs() && InRange(old', |symbol2refcnt|) && InRange(c, |symbol2refcnt|)
      requires Sum(m.Keys, OldDeclsAt(old', kind, m)) + rest <= total
      modifies this`symbol2refcnt, this`total
      ensures ValidRefs() && |symbol2refcnt| == |old(symbol2refcnt)|
      ensures total + Sum(m.Keys, OldDeclsAt(old', kind, m)) == old(total) + Sum(m.Keys, NewDeclsAt(c, kind, m))
      ensures rest <= total
    {
      hide ValidRefs, InRange, Owed, Sum;
      ghost var f, g := OldDeclsAt(old', kind, m), NewDeclsAt(c, kind, m);
      OwedFirst(total, rest, m.Keys, f, g);
      var todo := m.Keys;
      while todo != {}
        invariant ValidRefs() && |symbol2refcnt| == |old(symbol2refcnt)| && todo <= m.Keys
        invariant Owed(total, old(total), rest, m.Keys, todo, f, g)
        decreases todo
      {
        var u :| u in todo;
        OccsInRange(kind, old', u, |symbol2refcnt|);
        OccsInRange(kind, c, u, |symbol2refcnt|);
        OwedNext(total, old(total), rest, m.Keys, todo, u, f, g);
        SubtractRefs(DeclOccs(old', kind, u, m[u].0), Sum(todo - {u}, f) + rest);
        AddRefs(DeclOccs(c, kind, u, m[u].1));
        todo := todo - {u};
      }
      assert todo == {};
      OwedNothing(total, old(total), rest, m.Keys, f, g);
    }

    method ChangeDeclarations(t: Table, old': Context, c: Context, m: map<Usr, (seq<DeclRef>, seq<DeclRef>)>)
      requires t.Valid()
      modifies t
      ensures t.Valid()
      ensures forall u :: t.RowOf(u) == old(t.RowOf(u)).(declarations := DeclarationsAfter(old(t.RowOf(u)).declarations, m, old', c, u))
    {
      hide Without, StoredDecls;
      var todo := m.Keys;
      while todo != {}
        invariant t.Valid() && todo <= m.Keys
        invariant forall u :: t.RowOf(u) == if u in todo then old(t.RowOf(u)) else old(t.RowOf(u)).(declarations := DeclarationsAfter(old(t.RowOf(u)).declarations, m, old', c, u))
        decreases todo
      {
        var u :| u in todo;
        t.ChangeDeclarations(u, StoredDecls(old', m[u].0), StoredDecls(c, m[u].1));
        todo := todo - {u};
      }
    }

    method ChangeDerived(t: Table, m: map<Usr, (seq<Usr>, seq<Usr>)>)
      requires t.Valid()
      modifies t
      ensures t.Valid()
      ensures forall u :: t.RowOf(u) == old(t.RowOf(u)).(derived := UsrsAfter(old(t.RowOf(u)).derived, m, u))
    {
      var todo := m.Keys;
      while todo != {}
        invariant t.Valid() && todo <= m.Keys
        invariant forall u :: t.RowOf(u) == if u in todo then old(t.RowOf(u)) else old(t.RowOf(u)).(derived := UsrsAfter(old(t.RowOf(u)).derived, m, u))
        decreases todo
      {
        var u :| u in todo;
        t.ChangeDerived(u, m[u].0, m[u].1);
        todo := todo - {u};
      }
    }

    method ChangeInstances(t: Table, m: map<Usr, (seq<Usr>, seq<Usr>)>)
      requires t.Valid()
      modifies t
      ensures t.Valid()
      ensures forall u :: t.RowOf(u) == old(t.RowOf(u)).(instances := UsrsAfter(old(t.RowOf(u)).instances, m, u))
    {
      var todo := m.Keys;
      while todo != {}
        invariant t.Valid() && todo <= m.Keys
        invariant forall u :: t.RowOf(u) == if u in todo then old(t.RowOf(u)) else old(t.RowOf(u)).(instances := UsrsAfter(old(t.RowOf(u)).instances, m, u))
        decreases todo
      {
        var u :| u in todo;
        t.ChangeInstances(u, m[u].0, m[u].1);
        todo := todo - {u};
      }
    }

    // updateUses: counts and stored uses of one entity, the next of todo.
    method UpdateUsesOf(kind: Kind, t: Table, old': Context, c: Context, m: map<Usr, (seq<Use>, seq<Use>)>, u: Usr,
                        ghost start: multiset<Occ>, ghost rest: multiset<Occ>, ghost todo: set<Usr>)
      requires ValidRefs() && InRange(old', |symbol2refcnt|) && InRange(c, |symbol2refcnt|) && t.Valid() && u in m && u in todo
      requires Owed(total, start, rest, m.Keys, todo, OldUsesAt(old', kind, m), NewUsesAt(c, kind, m))
      modifies this`symbol2refcnt, this`total, t
      ensures ValidRefs() && |symbol2refcnt| == |old(symbol2refcnt)| && t.Valid()
      ensures Owed(total, start, rest, m.Keys, todo - {u}, OldUsesAt(old', kind, m), NewUsesAt(c, kind, m))
      ensures t.RowOf(u) == old(t.RowOf(u)).(uses := UsesAfter(old(t.RowOf(u)).uses, kind, m, old', c, u))
      ensures forall v :: v != u ==> t.RowOf(v) == old(t.RowOf(v))
    {
      hide ValidRefs, InRange, UseOcc, Owed, Sum;
      OccsInRange(kind, old', u, |symbol2refcnt|);
      OccsInRange(kind, c, u, |symbol2refcnt|);
      ghost var f, g := OldUsesAt(old', kind, m), NewUsesAt(c, kind, m);
      OwedNext(total, start, rest, m.Keys, todo, u, f, g);
      SubtractRefs(UseOccs(old', kind, u, m[u].0), Sum(todo - {u}, f) + rest);
      AddRefs(UseOccs(c, kind, u, m[u].1));
      t.ChangeUses(u, StoredUses(old', kind, m[u].0), StoredUses(c, kind, m[u].1));
    }

    // The same for every entity of the update, in any order.
    method UpdateUses(kind: Kind, t: Table, old': Context, c: Context, m: map<Usr, (seq<Use>, seq<Use>)>, ghost rest: multiset<Occ>)
      requires ValidRefs() && InRange(old', |symbol2refcnt|) && InRange(c, |symbol2refcnt|) && t.Valid()
      requires Sum(m.Keys, OldUsesAt(old', kind, m)) + rest <= total
      modifies this`symbol2refcnt, this`total, t
      ensures ValidRefs() && |symbol2refcnt| == |old(symbol2refcnt)| && t.Valid()
      ensures total + Sum(m.Keys, OldUsesAt(old', kind, m)) == old(total) + Sum(m.Keys, NewUsesAt(c, kind, m))
      ensures rest <= total
      ensures forall u :: t.RowOf(u) == old(t.RowOf(u)).(uses := UsesAfter(old(t.RowOf(u)).uses, kind, m, old', c, u))
    {
      hide ValidRefs, InRange, Without, StoredUses, OldUsesAt, NewUsesAt, Owed, Sum;
      ghost var f, g := OldUsesAt(old', kind, m), NewUsesAt(c, kind, m);
      OwedFirst(total, rest, m.Keys, f, g);
      var todo := m.Keys;
      while todo != {}
        invariant ValidRefs() && |symbol2refcnt| == |old(symbol2refcnt)| && todo <= m.Keys && t.Valid()
        invariant Owed(total, old(total), rest, m.Keys, todo, f, g)
        invariant forall u :: t.RowOf(u) == if u in todo then old(t.RowOf(u)) else old(t.RowOf(u)).(uses := UsesAfter(old(t.RowOf(u)).uses, kind, m, old', c, u))
        decreases todo
      {
        var u :| u in todo;
        UpdateUsesOf(kind, t, old', c, m, u, old(total), rest, todo);
        todo := todo - {u};
      }
      assert todo == {};
      OwedNothing(total, old(total), rest, m.Keys, f, g);
    }

    // Definitions: out with the old, in with the new.
    method ApplyDefs(kind: Kind, t: Table, old': Context, c: Context, k: KindUpdate, ghost rest: multiset<Occ>)
      requires ValidRefs() && InRange(old', |symbol2refcnt|) && InRange(c, |symbol2refcnt|) && t.Valid()
      requires AllSpells(old', kind, k.removed) + rest <= total
      modifies this`symbol2refcnt, this`total, t
      ensures ValidRefs() && |symbol2refcnt| == |old(symbol2refcnt)| && t.Valid()
      ensures total == old(total) - AllSpells(old', kind, k.removed) + AllSpells(c, kind, k.defUpdate)
      ensures forall u :: t.RowOf(u) == old(t.RowOf(u)).(defs := DefsAfter(old(t.RowOf(u)).defs, k, c, u))
    {
      hide ValidRefs, InRange, AllSpells, EraseAll, PutAll;
      SubtractSpells(kind, old', k.removed, rest);
      RemoveUsrs(t, k.removed, c.self);
      UpdateDefs(kind, t, c, k.defUpdate);
    }

    // Declarations, derived entities and instances.
    method ApplyLists(kind: Kind, t: Table, old': Context, c: Context, k: KindUpdate, ghost rest: multiset<Occ>)
      requires ValidRefs() && InRange(old', |symbol2refcnt|) && InRange(c, |symbol2refcnt|) && t.Valid()
      requires Sum(k.declarations.Keys, OldDeclsAt(old', kind, k.declarations)) + rest <= total
      modifies this`symbol2refcnt, this`total, t
      ensures ValidRefs() && |symbol2refcnt| == |old(symbol2refcnt)| && t.Valid()
      ensures total + Sum(k.declarations.Keys, OldDeclsAt(old', kind, k.declarations))
           == old(total) + Sum(k.declarations.Keys, NewDeclsAt(c, kind, k.declarations))
      ensures rest <= total
      ensures forall u :: t.RowOf(u) == old(t.RowOf(u)).(declarations := DeclarationsAfter(old(t.RowOf(u)).declarations, k.declarations, old', c, u),
                                                        derived := UsrsAfter(old(t.RowOf(u)).derived, k.derived, u),
                                                        instances := UsrsAfter(old(t.RowOf(u)).instances, k.instances, u))
    {
      hide ValidRefs, InRange, Sum, UsrsAfter, DeclarationsAfter;
      ChangeDeclRefs(kind, old', c, k.declarations, rest);
      ChangeDeclarations(t, old', c, k.declarations);
      ChangeDerived(t, k.derived);
      ChangeInstances(t, k.instances);
    }

    // One of the three parts of applyIndexUpdate.
    method ApplyKind(kind: Kind, t: Table, old': Context, c: Context, k: KindUpdate, ghost rest: multiset<Occ>)
      requires ValidRefs() && InRange(old', |symbol2refcnt|) && InRange(c, |symbol2refcnt|) && t.Valid()
      requires Removed(old', kind, k) + rest <= total
      modifies this`symbol2refcnt, this`total, t
      ensures ValidRefs() && |symbol2refcnt| == |old(symbol2refcnt)| && t.Valid()
      ensures total + Removed(old', kind, k) == old(total) + Added(c, kind, k)
      ensures rest <= total
      ensures t.Rows() == RowsAfter(old(t.Rows()), kind, k, old', c)
    {
      hide ValidRefs, InRange, Sum, AllSpells, DefsAfter, DeclarationsAfter, UsrsAfter, UsesAfter, Table.Valid, Table.RowOf;
      ghost var decls := Sum(k.declarations.Keys, OldDeclsAt(old', kind, k.declarations));
      ghost var uses := Sum(k.uses.Keys, OldUsesAt(old', kind, k.uses));
      ghost var t0 := total;
      ApplyDefs(kind, t, old', c, k, decls + uses + rest);
      ghost var t1 := total;
      ApplyLists(kind, t, old', c, k, uses + rest);
      ghost var t2 := total;
      UpdateUses(kind, t, old', c, k.uses, rest);
      Chain(t0, t1, t2, total, AllSpells(old', kind, k.removed), AllSpells(c, kind, k.defUpdate),
            decls, Sum(k.declarations.Keys, NewDeclsAt(c, kind, k.declarations)), uses, Sum(k.uses.Keys, NewUsesAt(c, kind, k.uses)));
    }

    ghost predicate Valid()
      reads this, funcs, types, vars
    {
      ValidIds() && ValidRefs() && |symbol2refcnt| == |names| && ValidTables()
    }

    // getFileId for every local id.
    method RegisterLids(lids: seq<(I32, string)>) returns (m: map<int, nat>)
      requires ValidIds() && ValidRefs() && |symbol2refcnt| == |names|
      modifies this`fileIds, this`fileDefs, this`symbol2refcnt, this`name2id, this`names
      ensures ValidIds() && ValidRefs() && |symbol2refcnt| == |names|
      ensures m == LidMap(name2id, lids) && forall l :: l in lids ==> l.1 in name2id
      ensures IdsGrow(old(name2id), name2id)
      ensures forall p :: DefAt(fileDefs, name2id, p) == old(DefAt(fileDefs, name2id, p))
    {
      hide ValidIds, ValidRefs, IdsGrow, DefAt;
      IdsGrowFacts(name2id, name2id, name2id);
      m := map[];
      for i := 0 to |lids|
        invariant ValidIds() && ValidRefs() && |symbol2refcnt| == |names|
        invariant m == LidMap(name2id, lids[..i])
        invariant forall l :: l in lids[..i] ==> l.1 in name2id
        invariant IdsGrow(old(name2id), name2id)
        invariant forall p :: DefAt(fileDefs, name2id, p) == old(DefAt(fileDefs, name2id, p))
      {
        ghost var before := name2id;
        var id := GetFileId(lids[i].1);
        IdsGrowFacts(old(name2id), before, name2id);
        LidMapGrows(before, name2id, lids[..i]);
        m := m[lids[i].0 as int := id];
        assert lids[..i + 1][..i] == lids[..i] && lids[..i + 1] == lids[..i] + [lids[i]];
      }
      assert lids[..|lids|] == lids;
    }

    // Files referred to but not indexed yet get an empty definition.
    method DefineLids(lids: seq<(I32, string)>)
      requires ValidIds() && forall l :: l in lids ==> l.1 in name2id
      modifies this`fileDefs
      ensures ValidIds()
      ensures forall p :: DefAt(fileDefs, name2id, p) == DefOnceReferred(old(DefAt(fileDefs, name2id, p)), lids, p)
    {
      for i := 0 to |lids|
        invariant ValidIds()
        invariant forall p :: DefAt(fileDefs, name2id, p) == DefOnceReferred(old(DefAt(fileDefs, name2id, p)), lids[..i], p)
      {
        DefineLid(lids[i].1);
        forall p
          ensures ListsPath(lids[..i + 1], p) <==> ListsPath(lids[..i], p) || lids[i].1 == p
        {
          ListsPathSnoc(lids, i, p);
        }
        hide ListsPath, DefAt;
      }
      assert lids[..|lids|] == lids;
    }

    method DefineLid(path: string)
      requires ValidIds() && path in name2id
      modifies this`fileDefs
      ensures ValidIds()
      ensures forall p :: p != path ==> DefAt(fileDefs, name2id, p) == old(DefAt(fileDefs, name2id, p))
      ensures var def := old(DefAt(fileDefs, name2id, path)); DefAt(fileDefs, name2id, path) == if def.None? then Some(ReferredDef(path)) else def
    {
      var id := name2id[path];
      if fileDefs[id] == None {
        fileDefs := fileDefs[id := Some(ReferredDef(path))];
      }
    }

    // The first part of applyIndexUpdate: file ids and the definition of the file.
    method RegisterFiles(u: IndexUpdate, ghost previous: IndexFile, ghost current: IndexFile) returns (old': Context, c: Context)
      requires ValidIds() && ValidRefs() && |symbol2refcnt| == |names|
      requires u.prevLid2path == previous.lid2path && u.lid2path == current.lid2path
      requires u.def == FileDefOf(current) && u.def.path == current.path && previous.path == current.path
      modifies this`fileIds, this`fileDefs, this`symbol2refcnt, this`name2id, this`names
      ensures ValidIds() && ValidRefs() && |symbol2refcnt| == |names|
      ensures IdsGrow(old(name2id), name2id)
      ensures Registered(name2id, current) && Registered(name2id, previous)
      ensures old' == ContextOf(name2id, previous) && c == ContextOf(name2id, current)
      ensures InRange(old', |symbol2refcnt|) && InRange(c, |symbol2refcnt|)
      ensures forall p :: DefAt(fileDefs, name2id, p) == NextDef(old(DefAt(fileDefs, name2id, p)), current, p)
    {
      hide ValidIds, ValidRefs, IdsGrow, LidMap, DefAt, DefOnceReferred, FileDefOf;
      ghost var ids0 := name2id;
      var prevLids := RegisterLids(u.prevLid2path);
      ghost var ids1 := name2id;
      var lids := RegisterLids(u.lid2path);
      ghost var ids2 := name2id;
      IdsGrowFacts(ids0, ids1, ids2);
      DefineLids(u.lid2path);
      var id := GetFileId(u.def.path);
      IdsGrowFacts(ids0, ids2, name2id);
      IdsGrowFacts(ids1, ids2, name2id);
      StillRegistered(ids1, name2id, u.prevLid2path);
      StillRegistered(ids2, name2id, u.lid2path);
      ValidIdsRange();
      LidMapRange(name2id, u.prevLid2path, |names|);
      LidMapRange(name2id, u.lid2path, |names|);
      SetFileDef(u.def.path, u.def);
      old', c := Context(prevLids, id), Context(lids, id);
    }

    lemma ValidIdsRange()
      requires ValidIds()
      ensures |fileDefs| == |names| && forall p :: p in name2id ==> name2id[p] < |names|
    {
    }

    method SetFileDef(path: string, def: FileDef)
      requires ValidIds() && path in name2id
      modifies this`fileDefs
      ensures ValidIds()
      ensures forall p :: DefAt(fileDefs, name2id, p) == if p == path then Some(def) else old(DefAt(fileDefs, name2id, p))
    {
      fileDefs := fileDefs[name2id[path] := Some(def)];
    }

    // The counts over the three kinds.
    lemma CountsCompose(t0: multiset<Occ>, t1: multiset<Occ>, t2: multiset<Occ>, t3: multiset<Occ>,
                        f: multiset<Occ>, f': multiset<Occ>, t: multiset<Occ>, t': multiset<Occ>, v: multiset<Occ>, v': multiset<Occ>)
      requires t1 + f == t0 + f' && t2 + t == t1 + t' && t3 + v == t2 + v'
      ensures t3 + (f + t + v) == t0 + (f' + t' + v')
    {
      calc {
        t3 + (f + t + v);
        (t3 + v) + (f + t);
        (t2 + v') + (f + t);
        (t2 + t) + (f + v');
        (t1 + t') + (f + v');
        (t1 + f) + (t' + v');
        (t0 + f') + (t' + v');
        t0 + (f' + t' + v');
      }
    }

    // The second part of applyIndexUpdate: functions, types, variables.
    method ApplyKinds(u: IndexUpdate, old': Context, c: Context)
      requires ValidRefs() && InRange(old', |symbol2refcnt|) && InRange(c, |symbol2refcnt|)
      requires funcs.Valid() && types.Valid() && vars.Valid() && funcs != types && types != vars && funcs != vars
      requires AllRemoved(old', u) <= total
      modifies this`symbol2refcnt, this`total, funcs, types, vars
      ensures ValidRefs() && |symbol2refcnt| == |old(symbol2refcnt)|
      ensures funcs.Valid() && types.Valid() && vars.Valid()
      ensures total + AllRemoved(old', u) == old(total) + AllAdded(c, u)
      ensures funcs.Rows() == RowsAfter(old(funcs.Rows()), Func, u.funcs, old', c)
      ensures types.Rows() == RowsAfter(old(types.Rows()), Type, u.types, old', c)
      ensures vars.Rows() == RowsAfter(old(vars.Rows()), Var, u.vars, old', c)
    {
      hide ValidRefs, InRange, Removed, Added, RowsAfter, Table.Valid, Table.Rows;
      ghost var f, t, v := Removed(old', Func, u.funcs), Removed(old', Type, u.types), Removed(old', Var, u.vars);
      ghost var t0 := total;
      assert f + (t + v) == AllRemoved(old', u);
      ApplyKind(Func, funcs, old', c, u.funcs, t + v);
      ghost var t1 := total;
      assert v + multiset{} == v;
      ApplyKind(Type, types, old', c, u.types, v);
      ghost var t2 := total;
      ApplyKind(Var, vars, old', c, u.vars, multiset{});
      CountsCompose(t0, t1, t2, total, f, Added(c, Func, u.funcs), t, Added(c, Type, u.types), v, Added(c, Var, u.vars));
    }

    ghost predicate ValidTables()
      reads funcs, types, vars
    {
      funcs.Valid() && types.Valid() && vars.Valid() && funcs != types && types != vars && funcs != vars
    }

    // What it means for the references and entities that previous becomes current.
    method ApplyContents(u: IndexUpdate, old': Context, c: Context, ghost previous: IndexFile, ghost current: IndexFile)
      requires ValidRefs() && InRange(old', |symbol2refcnt|) && InRange(c, |symbol2refcnt|) && ValidTables()
      requires IsDelta(u, previous, current) && old' == ContextOf(name2id, previous) && c == ContextOf(name2id, current)
      requires FileOccs(name2id, previous) <= total
      modifies this`symbol2refcnt, this`total, funcs, types, vars
      ensures ValidRefs() && |symbol2refcnt| == |old(symbol2refcnt)| && ValidTables()
      ensures total + FileOccs(name2id, previous) == old(total) + FileOccs(name2id, current)
      ensures funcs.Rows() == RowsAfter(old(funcs.Rows()), Func, u.funcs, old', c)
      ensures types.Rows() == RowsAfter(old(types.Rows()), Type, u.types, old', c)
      ensures vars.Rows() == RowsAfter(old(vars.Rows()), Var, u.vars, old', c)
    {
      hide IsDelta, ValidRefs, InRange, RowsAfter, FileOccs, ContextOf, AllRemoved, AllAdded, Table.Valid, Table.Rows;
      FileDeltaOccs(name2id, u, previous, current);
      ApplyKinds(u, old', c);
    }

    // DB::applyIndexUpdate
    method ApplyIndexUpdate(u: IndexUpdate, ghost previous: IndexFile, ghost current: IndexFile)
      requires Valid() && IsDelta(u, previous, current) && previous.path == current.path
      requires Registered(name2id, previous) || previous == EmptyFile(previous.path)
      requires FileOccs(name2id, previous) <= total
      modifies this, funcs, types, vars
      ensures Valid()
      ensures IdsGrow(old(name2id), name2id)
      ensures Registered(name2id, current)
      ensures total + FileOccs(name2id, previous) == old(total) + FileOccs(name2id, current)
      ensures forall p :: DefAt(fileDefs, name2id, p) == NextDef(old(DefAt(fileDefs, name2id, p)), current, p)
      ensures funcs.Rows() == RowsAfter(old(funcs.Rows()), Func, u.funcs, ContextOf(name2id, previous), ContextOf(name2id, current))
      ensures types.Rows() == RowsAfter(old(types.Rows()), Type, u.types, ContextOf(name2id, previous), ContextOf(name2id, current))
      ensures vars.Rows() == RowsAfter(old(vars.Rows()), Var, u.vars, ContextOf(name2id, previous), ContextOf(name2id, current))
    {
      hide IsDelta, EmptyFile, ValidIds, ValidRefs, InRange, RowsAfter, FileOccs, ContextOf, FileDefOf, DefAt, NextDef, IdsGrow, Table.Valid, Table.Rows, ValidTables, Registered, LidMap;
      DeltaHeader(u, previous, current);
      ghost var ids := name2id;
      var old', c := RegisterFiles(u, previous, current);
      FileOccsGrow(ids, name2id, previous);
      ApplyContents(u, old', c, previous, current);
    }
  }
}
