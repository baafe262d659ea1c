// The reference-count entries a file version contributes (src/query.cc).
module Occurrences {
  import opened Index
  import opened Sums
  import opened Delta

  datatype ExtentRef = ExtentRef(range: Range, usr: Usr, kind: Kind, role: U16, extent: Range)

  // A counted reference: the file it lies in, and the reference.
  type Occ = (nat, ExtentRef)

  // How file ids of an index file translate: local ids, and -1 for the file itself.
  datatype Context = Context(lids: map<int, nat>, self: nat)

  // Later entries for a local id override earlier ones.
  function LidMap(ids: map<string, nat>, lids: seq<(I32, string)>): map<int, nat> {
    if lids == [] then map[]
    else
      var last := lids[|lids| - 1];
      LidMap(ids, lids[..|lids| - 1])[last.0 as int := IdOf(ids, last.1)]
  }

  function IdOf(ids: map<string, nat>, path: string): nat { if path in ids then ids[path] else 0 }

  function ContextOf(ids: map<string, nat>, v: IndexFile): Context {
    Context(LidMap(ids, v.lid2path), IdOf(ids, v.path))
  }

  // Index files only use -1 and ids listed in lid2path; for any other id the
  // source dereferences a failed lookup.
  function Resolve(c: Context, fileId: int): nat {
    if fileId == -1 then c.self else if fileId in c.lids then c.lids[fileId] else 0
  }

  // Once assigned, ids do not change.
  predicate IdsGrow(ids: map<string, nat>, ids': map<string, nat>) {
    forall p :: p in ids ==> p in ids' && ids'[p] == ids[p]
  }

  lemma IdsGrowFacts(a: map<string, nat>, b: map<string, nat>, c: map<string, nat>)
    ensures IdsGrow(a, a)
    ensures IdsGrow(a, b) && IdsGrow(b, c) ==> IdsGrow(a, c)
  {
  }

  // Registering more paths changes nothing for registered ones.
  lemma {:induction false} LidMapGrows(ids: map<string, nat>, ids': map<string, nat>, lids: seq<(I32, string)>)
    requires IdsGrow(ids, ids')
    requires forall l :: l in lids ==> l.1 in ids
    ensures LidMap(ids, lids) == LidMap(ids', lids)
  {
    if lids != [] {
      var front := lids[..|lids| - 1];
      assert lids[|lids| - 1] in lids && forall l :: l in front ==> l in lids;
      LidMapGrows(ids, ids', front);
    }
  }

  lemma StillRegistered(ids: map<string, nat>, ids': map<string, nat>, lids: seq<(I32, string)>)
    requires IdsGrow(ids, ids') && forall l :: l in lids ==> l.1 in ids
    ensures LidMap(ids, lids) == LidMap(ids', lids) && forall l :: l in lids ==> l.1 in ids'
  {
    LidMapGrows(ids, ids', lids);
  }

  // The paths of a file version are registered.
  predicate Registered(ids: map<string, nat>, v: IndexFile) {
    v.path in ids && forall l :: l in v.lid2path ==> l.1 in ids
  }

  lemma ContextGrows(ids: map<string, nat>, ids': map<string, nat>, v: IndexFile)
    requires IdsGrow(ids, ids')
    requires Registered(ids, v)
    ensures ContextOf(ids, v) == ContextOf(ids', v)
  {
    LidMapGrows(ids, ids', v.lid2path);
  }

  lemma {:induction false} LidMapRange(ids: map<string, nat>, lids: seq<(I32, string)>, n: nat)
    requires n > 0 && forall p :: p in ids ==> ids[p] < n
    ensures forall l :: l in LidMap(ids, lids) ==> LidMap(ids, lids)[l] < n
  {
    if lids != [] { LidMapRange(ids, lids[..|lids| - 1], n); }
  }

  const IMPLICIT := 0x100

  // Implicit function calls are widened by a column on each side.
  function Widened(kind: Kind, use: Use): Use {
    if kind.Func? && (use.role / IMPLICIT) % 2 == 1 then
      var start, end := use.range.start, use.range.end;
      var start' := if start.column > 0 then start.(column := start.column - 1) else start;
      use.(range := Range(start', end.(column := ToI16(end.column + 1))))
    else use
  }

  function UseOcc(c: Context, kind: Kind, usr: Usr, use: Use): Occ {
    var u := Widened(kind, use);
    (Resolve(c, u.fileId), ExtentRef(u.range, usr, kind, u.role, NO_RANGE))
  }

  function DeclOcc(c: Context, kind: Kind, usr: Usr, d: DeclRef): Occ {
    (Resolve(c, d.use.fileId), ExtentRef(d.use.range, usr, kind, d.use.role, d.extent))
  }

  function UseOccs(c: Context, kind: Kind, usr: Usr, uses: seq<Use>): seq<Occ> {
    seq(|uses|, i requires 0 <= i < |uses| => UseOcc(c, kind, usr, uses[i]))
  }

  function DeclOccs(c: Context, kind: Kind, usr: Usr, ds: seq<DeclRef>): seq<Occ> {
    seq(|ds|, i requires 0 <= i < |ds| => DeclOcc(c, kind, usr, ds[i]))
  }

  // A definition counts when it is named and its spelling is valid.
  function SpellOccs(c: Context, kind: Kind, usr: Usr, def: Def): seq<Occ> {
    if def.Spell().use.range.Valid() then [DeclOcc(c, kind, usr, def.Spell())] else []
  }

  // ---------- Contributions ----------

  ghost function SpellsAt(c: Context, kind: Kind, es: Entities): Usr -> multiset<Occ> {
    (u: Usr) => if u in es && es[u].def.Named() then multiset(SpellOccs(c, kind, u, es[u].def)) else multiset{}
  }

  ghost function DeclsAt(c: Context, kind: Kind, es: Entities): Usr -> multiset<Occ> {
    (u: Usr) => multiset(DeclOccs(c, kind, u, Field(es, u, GetDeclarations)))
  }

  ghost function UsesAt(c: Context, kind: Kind, es: Entities): Usr -> multiset<Occ> {
    (u: Usr) => multiset(UseOccs(c, kind, u, Field(es, u, GetUses)))
  }

  // Spellings, declarations and (widened) uses of one kind.
  ghost function KindOccs(c: Context, kind: Kind, es: Entities): multiset<Occ> {
    Sum(es.Keys, SpellsAt(c, kind, es)) + Sum(es.Keys, DeclsAt(c, kind, es)) + Sum(es.Keys, UsesAt(c, kind, es))
  }

  // All references of a file version.
  ghost function FileOccs(ids: map<string, nat>, v: IndexFile): multiset<Occ> {
    var c := ContextOf(ids, v);
    KindOccs(c, Func, EntitiesOf(v, Func)) + KindOccs(c, Type, EntitiesOf(v, Type)) + KindOccs(c, Var, EntitiesOf(v, Var))
  }

  // ---------- The same, read off an update ----------

  function AllSpells(c: Context, kind: Kind, defs: seq<(Usr, Def)>): multiset<Occ> {
    if defs == [] then multiset{}
    else
      var last := defs[|defs| - 1];
      AllSpells(c, kind, defs[..|defs| - 1]) + multiset(SpellOccs(c, kind, last.0, last.1))
  }

  ghost function OldDeclsAt(c: Context, kind: Kind, m: map<Usr, (seq<DeclRef>, seq<DeclRef>)>): Usr -> multiset<Occ> {
    (u: Usr) => if u in m then multiset(DeclOccs(c, kind, u, m[u].0)) else multiset{}
  }
  ghost function NewDeclsAt(c: Context, kind: Kind, m: map<Usr, (seq<DeclRef>, seq<DeclRef>)>): Usr -> multiset<Occ> {
    (u: Usr) => if u in m then multiset(DeclOccs(c, kind, u, m[u].1)) else multiset{}
  }
  ghost function OldUsesAt(c: Context, kind: Kind, m: map<Usr, (seq<Use>, seq<Use>)>): Usr -> multiset<Occ> {
    (u: Usr) => if u in m then multiset(UseOccs(c, kind, u, m[u].0)) else multiset{}
  }
  ghost function NewUsesAt(c: Context, kind: Kind, m: map<Usr, (seq<Use>, seq<Use>)>): Usr -> multiset<Occ> {
    (u: Usr) => if u in m then multiset(UseOccs(c, kind, u, m[u].1)) else multiset{}
  }

  // What applying k takes away, in the context of the previous version.
  ghost function Removed(c: Context, kind: Kind, k: KindUpdate): multiset<Occ> {
    AllSpells(c, kind, k.removed)
    + Sum(k.declarations.Keys, OldDeclsAt(c, kind, k.declarations))
    + Sum(k.uses.Keys, OldUsesAt(c, kind, k.uses))
  }

  // What applying k adds, in the context of the current version.
  ghost function Added(c: Context, kind: Kind, k: KindUpdate): multiset<Occ> {
    AllSpells(c, kind, k.defUpdate)
    + Sum(k.declarations.Keys, NewDeclsAt(c, kind, k.declarations))
    + Sum(k.uses.Keys, NewUsesAt(c, kind, k.uses))
  }

  lemma ListsDefsUnsnoc(defs: seq<(Usr, Def)>, es: Entities)
    requires ListsDefs(defs, es) && defs != []
    ensures ListsDefs(defs[..|defs| - 1], es - {defs[|defs| - 1].0})
  {
    var n := |defs| - 1;
    var u, front, es' := defs[n].0, defs[..n], es - {defs[n].0};
    forall w | w in es' && es'[w].def.Named()
      ensures (w, es'[w].def) in front
    {
      var i :| 0 <= i < |defs| && defs[i] == (w, es[w].def);
      assert front[i] == defs[i];
    }
  }

  lemma SpellsTake(c: Context, kind: Kind, es: Entities, u: Usr)
    requires u in es
    ensures Sum(es.Keys, SpellsAt(c, kind, es)) == SpellsAt(c, kind, es)(u) + Sum(es.Keys - {u}, SpellsAt(c, kind, es - {u}))
  {
    SumTake(es.Keys, SpellsAt(c, kind, es), u);
    SumCongruent(es.Keys - {u}, SpellsAt(c, kind, es), SpellsAt(c, kind, es - {u}));
  }

  lemma NoSpells(c: Context, kind: Kind, es: Entities)
    requires ListsDefs([], es)
    ensures Sum(es.Keys, SpellsAt(c, kind, es)) == multiset{}
  {
    forall u | u in es
      ensures SpellsAt(c, kind, es)(u) == multiset{}
    {
      assert (u, es[u].def) !in [];
    }
    SumExtra({}, es.Keys, SpellsAt(c, kind, es));
  }

  lemma {:induction false} ListedSpells(c: Context, kind: Kind, defs: seq<(Usr, Def)>, es: Entities)
    requires ListsDefs(defs, es)
    ensures AllSpells(c, kind, defs) == Sum(es.Keys, SpellsAt(c, kind, es))
    decreases |defs|
  {
    if defs == [] {
      NoSpells(c, kind, es);
    } else {
      var last := defs[|defs| - 1];
      ListsDefsUnsnoc(defs, es);
      hide ListsDefs;
      ListedSpells(c, kind, defs[..|defs| - 1], es - {last.0});
      SpellsTake(c, kind, es, last.0);
      assert (es - {last.0}).Keys == es.Keys - {last.0};
    }
  }

  lemma ListedDecls(c: Context, kind: Kind, m: map<Usr, (seq<DeclRef>, seq<DeclRef>)>, es: Entities, es': Entities)
    requires Pairs(m, es, es', GetDeclarations)
    ensures Sum(m.Keys, OldDeclsAt(c, kind, m)) == Sum(es.Keys, DeclsAt(c, kind, es))
    ensures Sum(m.Keys, NewDeclsAt(c, kind, m)) == Sum(es'.Keys, DeclsAt(c, kind, es'))
  {
    SumCongruent(m.Keys, OldDeclsAt(c, kind, m), DeclsAt(c, kind, es));
    SumExtra(es.Keys, m.Keys, DeclsAt(c, kind, es));
    SumCongruent(m.Keys, NewDeclsAt(c, kind, m), DeclsAt(c, kind, es'));
    SumExtra(es'.Keys, m.Keys, DeclsAt(c, kind, es'));
  }

  lemma ListedUses(c: Context, kind: Kind, m: map<Usr, (seq<Use>, seq<Use>)>, es: Entities, es': Entities)
    requires Pairs(m, es, es', GetUses)
    ensures Sum(m.Keys, OldUsesAt(c, kind, m)) == Sum(es.Keys, UsesAt(c, kind, es))
    ensures Sum(m.Keys, NewUsesAt(c, kind, m)) == Sum(es'.Keys, UsesAt(c, kind, es'))
  {
    SumCongruent(m.Keys, OldUsesAt(c, kind, m), UsesAt(c, kind, es));
    SumExtra(es.Keys, m.Keys, UsesAt(c, kind, es));
    SumCongruent(m.Keys, NewUsesAt(c, kind, m), UsesAt(c, kind, es'));
    SumExtra(es'.Keys, m.Keys, UsesAt(c, kind, es'));
  }

  // A delta removes exactly the previous and adds exactly the current references.
  lemma DeltaOccs(c: Context, kind: Kind, k: KindUpdate, es: Entities, es': Entities)
    requires IsKindDelta(k, es, es')
    ensures Removed(c, kind, k) == KindOccs(c, kind, es)
    ensures Added(c, kind, k) == KindOccs(c, kind, es')
  {
    ListedSpells(c, kind, k.removed, es);
    ListedSpells(c, kind, k.defUpdate, es');
    ListedDecls(c, kind, k.declarations, es, es');
    ListedUses(c, kind, k.uses, es, es');
  }

  lemma EmptyFileOccs(ids: map<string, nat>, path: string)
    ensures FileOccs(ids, EmptyFile(path)) == multiset{}
  {
    var c := ContextOf(ids, EmptyFile(path));
    forall kind: Kind
      ensures EntitiesOf(EmptyFile(path), kind) == map[]
      ensures KindOccs(c, kind, map[]) == multiset{}
    {
      SumEmpty(SpellsAt(c, kind, map[]));
      SumEmpty(DeclsAt(c, kind, map[]));
      SumEmpty(UsesAt(c, kind, map[]));
    }
  }

  // Contributions do not change when more paths are registered.
  lemma FileOccsGrow(ids: map<string, nat>, ids': map<string, nat>, v: IndexFile)
    requires IdsGrow(ids, ids')
    requires Registered(ids, v) || v == EmptyFile(v.path)
    ensures FileOccs(ids, v) == FileOccs(ids', v)
  {
    if Registered(ids, v) {
      ContextGrows(ids, ids', v);
    } else {
      EmptyFileOccs(ids, v.path);
      EmptyFileOccs(ids', v.path);
    }
  }

  // A whole update takes away and adds.
  ghost function AllRemoved(c: Context, u: IndexUpdate): multiset<Occ> {
    Removed(c, Func, u.funcs) + Removed(c, Type, u.types) + Removed(c, Var, u.vars)
  }

  ghost function AllAdded(c: Context, u: IndexUpdate): multiset<Occ> {
    Added(c, Func, u.funcs) + Added(c, Type, u.types) + Added(c, Var, u.vars)
  }

  lemma FileDeltaOccs(ids: map<string, nat>, u: IndexUpdate, previous: IndexFile, current: IndexFile)
    requires IsDelta(u, previous, current)
    ensures AllRemoved(ContextOf(ids, previous), u) == FileOccs(ids, previous)
    ensures AllAdded(ContextOf(ids, current), u) == FileOccs(ids, current)
  {
    hide IsKindDelta, Removed, Added, KindOccs, EntitiesOf, ContextOf;
    var old', c := ContextOf(ids, previous), ContextOf(ids, current);
    DeltaOccs(old', Func, u.funcs, EntitiesOf(previous, Func), EntitiesOf(current, Func));
    DeltaOccs(c, Func, u.funcs, EntitiesOf(previous, Func), EntitiesOf(current, Func));
    DeltaOccs(old', Type, u.types, EntitiesOf(previous, Type), EntitiesOf(current, Type));
    DeltaOccs(c, Type, u.types, EntitiesOf(previous, Type), EntitiesOf(current, Type));
    DeltaOccs(old', Var, u.vars, EntitiesOf(previous, Var), EntitiesOf(current, Var));
    DeltaOccs(c, Var, u.vars, EntitiesOf(previous, Var), EntitiesOf(current, Var));
  }
}
