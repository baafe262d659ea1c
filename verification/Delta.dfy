// Index updates: IndexUpdate::createDelta of src/query.cc and the occurrences a
// file contributes to the reference counts.
module Delta {
  import opened Index

  // The three entity tables, handled alike.
  datatype Kind = Func | Type | Var

  datatype Def = FuncDefinition(f: FuncDef) | TypeDefinition(t: TypeDef) | VarDefinition(v: VarDef) {
    predicate Named() {
      match this
      case FuncDefinition(f) => f.detailedName != ""
      case TypeDefinition(t) => t.detailedName != ""
      case VarDefinition(v) => v.detailedName != ""
    }
    function Spell(): DeclRef {
      match this
      case FuncDefinition(f) => f.spell
      case TypeDefinition(t) => t.spell
      case VarDefinition(v) => v.spell
    }
  }

  datatype Entity = Entity(def: Def, declarations: seq<DeclRef>, derived: seq<Usr>, instances: seq<Usr>, uses: seq<Use>)

  type Entities = map<Usr, Entity>

  function EntitiesOf(v: IndexFile, kind: Kind): Entities {
    match kind
    case Func => map u | u in v.usr2func :: var e := v.usr2func[u]; Entity(FuncDefinition(e.def), e.declarations, e.derived, [], e.uses)
    case Type => map u | u in v.usr2type :: var e := v.usr2type[u]; Entity(TypeDefinition(e.def), e.declarations, e.derived, e.instances, e.uses)
    case Var => map u | u in v.usr2var :: var e := v.usr2var[u]; Entity(VarDefinition(e.def), e.declarations, [], [], e.uses)
  }

  datatype KindUpdate = KindUpdate(removed: seq<(Usr, Def)>, defUpdate: seq<(Usr, Def)>,
                                   declarations: map<Usr, (seq<DeclRef>, seq<DeclRef>)>,
                                   derived: map<Usr, (seq<Usr>, seq<Usr>)>,
                                   instances: map<Usr, (seq<Usr>, seq<Usr>)>,
                                   uses: map<Usr, (seq<Use>, seq<Use>)>)

  datatype FileDef = FileDef(path: string, args: seq<string>, language: I32, includes: seq<IndexInclude>,
                             skippedRanges: seq<Range>, dependencies: set<string>)

  datatype IndexUpdate = IndexUpdate(prevLid2path: seq<(I32, string)>, lid2path: seq<(I32, string)>, def: FileDef,
                                     funcs: KindUpdate, types: KindUpdate, vars: KindUpdate)

  function FileDefOf(v: IndexFile): FileDef {
    FileDef(v.path, v.args, v.language, v.includes, v.skippedRanges, v.dependencies.Keys)
  }

  // ---------- createDelta ----------

  function GetDeclarations(e: Entity): seq<DeclRef> { e.declarations }
  function GetUses(e: Entity): seq<Use> { e.uses }
  function GetDerived(e: Entity): seq<Usr> { e.derived }
  function GetInstances(e: Entity): seq<Usr> { e.instances }

  function Field<T>(es: Entities, u: Usr, get: Entity -> seq<T>): seq<T> {
    if u in es then get(es[u]) else []
  }

  // s lists the named definitions of es, each once, in any order.
  ghost predicate ListsDefs(s: seq<(Usr, Def)>, es: Entities) {
    && (forall i :: 0 <= i < |s| ==> s[i].0 in es && es[s[i].0].def == s[i].1 && s[i].1.Named())
    && (forall i, j :: 0 <= i < j < |s| ==> s[i].0 != s[j].0)
    && (forall u :: u in es && es[u].def.Named() ==> (u, es[u].def) in s)
  }

  // m pairs, for every entity of either version, its old and its new list.
  ghost predicate Pairs<T>(m: map<Usr, (seq<T>, seq<T>)>, es: Entities, es': Entities, get: Entity -> seq<T>) {
    && m.Keys == es.Keys + es'.Keys
    && forall u :: u in m ==> m[u] == (Field(es, u, get), Field(es', u, get))
  }

  // k takes es to es'.
  ghost predicate IsKindDelta(k: KindUpdate, es: Entities, es': Entities) {
    && ListsDefs(k.removed, es)
    && ListsDefs(k.defUpdate, es')
    && Pairs(k.declarations, es, es', GetDeclarations)
    && Pairs(k.derived, es, es', GetDerived)
    && Pairs(k.instances, es, es', GetInstances)
    && Pairs(k.uses, es, es', GetUses)
  }

  ghost predicate IsDelta(u: IndexUpdate, previous: IndexFile, current: IndexFile) {
    && u.prevLid2path == previous.lid2path
    && u.lid2path == current.lid2path
    && u.def == FileDefOf(current)
    && IsKindDelta(u.funcs, EntitiesOf(previous, Func), EntitiesOf(current, Func))
    && IsKindDelta(u.types, EntitiesOf(previous, Type), EntitiesOf(current, Type))
    && IsKindDelta(u.vars, EntitiesOf(previous, Var), EntitiesOf(current, Var))
  }

  lemma ListsDefsStep(s: seq<(Usr, Def)>, es: Entities, u: Usr, e: Entity)
    requires ListsDefs(s, es) && u !in es
    ensures ListsDefs(if e.def.Named() then s + [(u, e.def)] else s, es[u := e])
  {
    var es' := es[u := e];
    var s' := if e.def.Named() then s + [(u, e.def)] else s;
    forall w | w in es' && es'[w].def.Named()
      ensures (w, es'[w].def) in s'
    {
      if w != u { assert (w, es[w].def) in s; }
    }
  }

  lemma PairsStepOld<T>(m: map<Usr, (seq<T>, seq<T>)>, es: Entities, get: Entity -> seq<T>, u: Usr, e: Entity)
    requires Pairs(m, es, map[], get) && u !in es
    ensures Pairs(m[u := (get(e), [])], es[u := e], map[], get)
  {
  }

  lemma PairsStepNew<T>(m: map<Usr, (seq<T>, seq<T>)>, es: Entities, es': Entities, get: Entity -> seq<T>, u: Usr, e: Entity)
    requires Pairs(m, es, es', get) && u !in es'
    ensures Pairs(m[u := (First(m, u), get(e))], es, es'[u := e], get)
  {
  }

  // The old list of an update entry, empty if there is none yet.
  function First<T>(m: map<Usr, (seq<T>, seq<T>)>, u: Usr): seq<T> { if u in m then m[u].0 else [] }

  // Records an entity of the previous version.
  function WithOld(k: KindUpdate, u: Usr, e: Entity): KindUpdate {
    KindUpdate(if e.def.Named() then k.removed + [(u, e.def)] else k.removed, k.defUpdate,
               k.declarations[u := (e.declarations, [])], k.derived[u := (e.derived, [])],
               k.instances[u := (e.instances, [])], k.uses[u := (e.uses, [])])
  }

  // Records an entity of the current version.
  function WithNew(k: KindUpdate, u: Usr, e: Entity): KindUpdate {
    KindUpdate(k.removed, if e.def.Named() then k.defUpdate + [(u, e.def)] else k.defUpdate,
               k.declarations[u := (First(k.declarations, u), e.declarations)], k.derived[u := (First(k.derived, u), e.derived)],
               k.instances[u := (First(k.instances, u), e.instances)], k.uses[u := (First(k.uses, u), e.uses)])
  }

  lemma WithOldStep(k: KindUpdate, es: Entities, u: Usr, e: Entity)
    requires IsKindDelta(k, es, map[]) && u !in es
    ensures IsKindDelta(WithOld(k, u, e), es[u := e], map[])
  {
    hide ListsDefs, Pairs;
    ListsDefsStep(k.removed, es, u, e);
    PairsStepOld(k.declarations, es, GetDeclarations, u, e);
    PairsStepOld(k.derived, es, GetDerived, u, e);
    PairsStepOld(k.instances, es, GetInstances, u, e);
    PairsStepOld(k.uses, es, GetUses, u, e);
  }

  lemma WithNewStep(k: KindUpdate, es: Entities, es': Entities, u: Usr, e: Entity)
    requires IsKindDelta(k, es, es') && u !in es'
    ensures IsKindDelta(WithNew(k, u, e), es, es'[u := e])
  {
    hide ListsDefs, Pairs;
    ListsDefsStep(k.defUpdate, es', u, e);
    PairsStepNew(k.declarations, es, es', GetDeclarations, u, e);
    PairsStepNew(k.derived, es, es', GetDerived, u, e);
    PairsStepNew(k.instances, es, es', GetInstances, u, e);
    PairsStepNew(k.uses, es, es', GetUses, u, e);
  }

  // The two loops of createDelta over one of the entity maps; unordered maps
  // are visited in any order.
  method KindDelta(es: Entities, es': Entities) returns (k: KindUpdate)
    ensures IsKindDelta(k, es, es')
  {
    hide IsKindDelta, WithOld, WithNew;
    k := KindUpdate([], [], map[], map[], map[], map[]);
    var todo := es.Keys;
    ghost var done: Entities := map[];
    EmptyDelta();
    while todo != {}
      invariant done.Keys + todo == es.Keys && done.Keys !! todo && forall u :: u in done ==> done[u] == es[u]
      invariant IsKindDelta(k, done, map[])
      decreases todo
    {
      var u :| u in todo;
      WithOldStep(k, done, u, es[u]);
      k := WithOld(k, u, es[u]);
      todo, done := todo - {u}, done[u := es[u]];
    }
    assert done == es;
    todo, done := es'.Keys, map[];
    while todo != {}
      invariant done.Keys + todo == es'.Keys && done.Keys !! todo && forall u :: u in done ==> done[u] == es'[u]
      invariant IsKindDelta(k, es, done)
      decreases todo
    {
      var u :| u in todo;
      WithNewStep(k, es, done, u, es'[u]);
      k := WithNew(k, u, es'[u]);
      todo, done := todo - {u}, done[u := es'[u]];
    }
    assert done == es';
  }

  lemma EmptyDelta()
    ensures IsKindDelta(KindUpdate([], [], map[], map[], map[], map[]), map[], map[])
  {
  }

  method CreateDelta(previous: IndexFile, current: IndexFile) returns (u: IndexUpdate)
    ensures IsDelta(u, previous, current)
  {
    hide IsKindDelta, EntitiesOf, FileDefOf;
    var funcs := KindDelta(EntitiesOf(previous, Func), EntitiesOf(current, Func));
    var types := KindDelta(EntitiesOf(previous, Type), EntitiesOf(current, Type));
    var vars := KindDelta(EntitiesOf(previous, Var), EntitiesOf(current, Var));
    u := IndexUpdate(previous.lid2path, current.lid2path, FileDefOf(current), funcs, types, vars);
  }
}
