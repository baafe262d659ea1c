// What a file version contributes, read off the fields of its records: the
// references counted and the entries stored (src/query.cc).
module Contributions {
  import opened Index
  import opened Sums
  import opened Delta
  import opened Occurrences
  import opened EntityTable
  import opened Rebuild
  import opened EntityLists
  import opened Sites

  // ---------- References of one record ----------

  // The global id of a local file id.
  function FileOf(c: Context, fileId: int): nat {
    if fileId == -1 then c.self else if fileId in c.lids then c.lids[fileId] else 0
  }

  // A reference in file fileId of a version.
  function Ref(c: Context, fileId: int, range: Range, u: Usr, kind: Kind, role: U16, extent: Range): Occ {
    (FileOf(c, fileId), ExtentRef(range, u, kind, role, extent))
  }

  // The last entry for a local id, which overrides earlier ones.
  predicate LastEntry(lids: seq<(I32, string)>, id: int, k: int) {
    0 <= k < |lids| && lids[k].0 == id && forall l :: k < l < |lids| ==> lids[l].0 != id
  }

  // It is that of the path listed last for the local id, or of the file itself.
  lemma FileOfPath(ids: map<string, nat>, v: IndexFile, fileId: int)
    requires Registered(ids, v) && NoSelfLid(v)
    ensures fileId == -1 ==> FileOf(ContextOf(ids, v), fileId) == ids[v.path]
    ensures forall k :: LastEntry(v.lid2path, fileId, k) ==> FileOf(ContextOf(ids, v), fileId) == ids[v.lid2path[k].1]
  {
    forall k | LastEntry(v.lid2path, fileId, k)
      ensures FileOf(ContextOf(ids, v), fileId) == ids[v.lid2path[k].1]
    {
      assert v.lid2path[k] in v.lid2path;
      ResolvePath(ids, v, fileId);
      LastListed(v.lid2path, k, v.path);
    }
  }

  lemma {:induction false} LastListed(lids: seq<(I32, string)>, k: nat, otherwise: string)
    requires k < |lids| && LastEntry(lids, lids[k].0, k)
    ensures LidPath(lids, lids[k].0, otherwise) == lids[k].1
  {
    if k < |lids| - 1 { LastListed(lids[..|lids| - 1], k, otherwise); }
  }

  // The definition counts when it has a name and a place.
  function SpellRefs(c: Context, kind: Kind, u: Usr, name: string, spell: DeclRef): multiset<Occ> {
    if name != "" && spell.use.range.start.column >= 0
    then multiset{Ref(c, spell.use.fileId, spell.use.range, u, kind, spell.use.role, spell.extent)} else multiset{}
  }

  function DeclRefs(c: Context, kind: Kind, u: Usr, ds: seq<DeclRef>): multiset<Occ> {
    multiset(seq(|ds|, i requires 0 <= i < |ds| => Ref(c, ds[i].use.fileId, ds[i].use.range, u, kind, ds[i].use.role, ds[i].extent)))
  }

  // Uses have no extent.
  function UseRefs(c: Context, kind: Kind, u: Usr, us: seq<Use>): multiset<Occ> {
    multiset(seq(|us|, i requires 0 <= i < |us| => Ref(c, us[i].fileId, us[i].range, u, kind, us[i].role, NO_RANGE)))
  }

  predicate Implicit(use: Use) { (use.role / 256) % 2 == 1 }

  // The range shown for a call: one column more on both sides if it is implicit.
  function CallRange(use: Use): Range {
    var s, e := use.range.start, use.range.end;
    if !Implicit(use) then use.range
    else Range(Pos(s.line, if s.column > 0 then s.column - 1 else s.column),
               Pos(e.line, if e.column < 0x7fff then e.column + 1 else -0x8000))
  }

  function CallRefs(c: Context, u: Usr, us: seq<Use>): multiset<Occ> {
    multiset(seq(|us|, i requires 0 <= i < |us| => Ref(c, us[i].fileId, CallRange(us[i]), u, Func, us[i].role, NO_RANGE)))
  }

  function FuncRefs(c: Context, u: Usr, e: IndexFunc): multiset<Occ> {
    SpellRefs(c, Func, u, e.def.detailedName, e.def.spell) + DeclRefs(c, Func, u, e.declarations) + CallRefs(c, u, e.uses)
  }

  function TypeRefs(c: Context, u: Usr, e: IndexType): multiset<Occ> {
    SpellRefs(c, Type, u, e.def.detailedName, e.def.spell) + DeclRefs(c, Type, u, e.declarations) + UseRefs(c, Type, u, e.uses)
  }

  function VarRefs(c: Context, u: Usr, e: IndexVar): multiset<Occ> {
    SpellRefs(c, Var, u, e.def.detailedName, e.def.spell) + DeclRefs(c, Var, u, e.declarations) + UseRefs(c, Var, u, e.uses)
  }

  // Implicit calls grow by a column on each side, as far as there is one; all
  // other uses stay as they are.
  lemma WidenedIs(kind: Kind, use: Use)
    ensures Widened(kind, use).role == use.role && Widened(kind, use).fileId == use.fileId
    ensures Widened(kind, use).range == if kind == Func then CallRange(use) else use.range
  {
  }

  // ---------- A whole version ----------

  ghost function AllFuncRefs(c: Context, v: IndexFile): Usr -> multiset<Occ> {
    (u: Usr) => if u in v.usr2func then FuncRefs(c, u, v.usr2func[u]) else multiset{}
  }

  ghost function AllTypeRefs(c: Context, v: IndexFile): Usr -> multiset<Occ> {
    (u: Usr) => if u in v.usr2type then TypeRefs(c, u, v.usr2type[u]) else multiset{}
  }

  ghost function AllVarRefs(c: Context, v: IndexFile): Usr -> multiset<Occ> {
    (u: Usr) => if u in v.usr2var then VarRefs(c, u, v.usr2var[u]) else multiset{}
  }

  lemma SameSpell(c: Context, kind: Kind, u: Usr, def: Def, name: string, spell: DeclRef)
    requires def.Named() == (name != "") && def.Spell() == spell
    ensures (if def.Named() then multiset(SpellOccs(c, kind, u, def)) else multiset{}) == SpellRefs(c, kind, u, name, spell)
  {
  }

  lemma SameDecls(c: Context, kind: Kind, u: Usr, ds: seq<DeclRef>)
    ensures multiset(DeclOccs(c, kind, u, ds)) == DeclRefs(c, kind, u, ds)
  {
    assert DeclOccs(c, kind, u, ds)
        == seq(|ds|, i requires 0 <= i < |ds| => Ref(c, ds[i].use.fileId, ds[i].use.range, u, kind, ds[i].use.role, ds[i].extent));
  }

  lemma SameUses(c: Context, kind: Kind, u: Usr, us: seq<Use>)
    ensures multiset(UseOccs(c, kind, u, us)) == if kind == Func then CallRefs(c, u, us) else UseRefs(c, kind, u, us)
  {
    forall i | 0 <= i < |us|
      ensures UseOccs(c, kind, u, us)[i] == Ref(c, us[i].fileId, if kind == Func then CallRange(us[i]) else us[i].range, u, kind, us[i].role, NO_RANGE)
    {
      WidenedIs(kind, us[i]);
    }
    if kind == Func {
      assert UseOccs(c, kind, u, us) == seq(|us|, i requires 0 <= i < |us| => Ref(c, us[i].fileId, CallRange(us[i]), u, Func, us[i].role, NO_RANGE));
    } else {
      assert UseOccs(c, kind, u, us) == seq(|us|, i requires 0 <= i < |us| => Ref(c, us[i].fileId, us[i].range, u, kind, us[i].role, NO_RANGE));
    }
  }

  lemma OneKind(c: Context, kind: Kind, es: Entities, f: Usr -> multiset<Occ>)
    requires forall u :: u in es ==> f(u) == SpellsAt(c, kind, es)(u) + DeclsAt(c, kind, es)(u) + UsesAt(c, kind, es)(u)
    ensures KindOccs(c, kind, es) == Sum(es.Keys, f)
  {
    SumPlus(es.Keys, SpellsAt(c, kind, es), DeclsAt(c, kind, es), UsesAt(c, kind, es), f);
  }

  lemma OneFunc(c: Context, v: IndexFile, u: Usr)
    requires u in v.usr2func
    ensures var es := EntitiesOf(v, Func);
      AllFuncRefs(c, v)(u) == SpellsAt(c, Func, es)(u) + DeclsAt(c, Func, es)(u) + UsesAt(c, Func, es)(u)
  {
    hide SpellOccs, DeclOccs, UseOccs, SpellRefs, DeclRefs, UseRefs, CallRefs;
    var e := v.usr2func[u];
    SameSpell(c, Func, u, FuncDefinition(e.def), e.def.detailedName, e.def.spell);
    SameDecls(c, Func, u, e.declarations);
    SameUses(c, Func, u, e.uses);
  }

  lemma FuncsOf(c: Context, v: IndexFile)
    ensures KindOccs(c, Func, EntitiesOf(v, Func)) == Sum(v.usr2func.Keys, AllFuncRefs(c, v))
  {
    var es := EntitiesOf(v, Func);
    assert es.Keys == v.usr2func.Keys;
    hide EntitiesOf, KindOccs, AllFuncRefs, SpellsAt, DeclsAt, UsesAt, Sum;
    forall u | u in es
      ensures AllFuncRefs(c, v)(u) == SpellsAt(c, Func, es)(u) + DeclsAt(c, Func, es)(u) + UsesAt(c, Func, es)(u)
    {
      OneFunc(c, v, u);
    }
    OneKind(c, Func, es, AllFuncRefs(c, v));
  }

  lemma OneType(c: Context, v: IndexFile, u: Usr)
    requires u in v.usr2type
    ensures var es := EntitiesOf(v, Type);
      AllTypeRefs(c, v)(u) == SpellsAt(c, Type, es)(u) + DeclsAt(c, Type, es)(u) + UsesAt(c, Type, es)(u)
  {
    hide SpellOccs, DeclOccs, UseOccs, SpellRefs, DeclRefs, UseRefs, CallRefs;
    var e := v.usr2type[u];
    SameSpell(c, Type, u, TypeDefinition(e.def), e.def.detailedName, e.def.spell);
    SameDecls(c, Type, u, e.declarations);
    SameUses(c, Type, u, e.uses);
  }

  lemma TypesOf(c: Context, v: IndexFile)
    ensures KindOccs(c, Type, EntitiesOf(v, Type)) == Sum(v.usr2type.Keys, AllTypeRefs(c, v))
  {
    var es := EntitiesOf(v, Type);
    assert es.Keys == v.usr2type.Keys;
    hide EntitiesOf, KindOccs, AllTypeRefs, SpellsAt, DeclsAt, UsesAt, Sum;
    forall u | u in es
      ensures AllTypeRefs(c, v)(u) == SpellsAt(c, Type, es)(u) + DeclsAt(c, Type, es)(u) + UsesAt(c, Type, es)(u)
    {
      OneType(c, v, u);
    }
    OneKind(c, Type, es, AllTypeRefs(c, v));
  }

  lemma OneVar(c: Context, v: IndexFile, u: Usr)
    requires u in v.usr2var
    ensures var es := EntitiesOf(v, Var);
      AllVarRefs(c, v)(u) == SpellsAt(c, Var, es)(u) + DeclsAt(c, Var, es)(u) + UsesAt(c, Var, es)(u)
  {
    hide SpellOccs, DeclOccs, UseOccs, SpellRefs, DeclRefs, UseRefs, CallRefs;
    var e := v.usr2var[u];
    SameSpell(c, Var, u, VarDefinition(e.def), e.def.detailedName, e.def.spell);
    SameDecls(c, Var, u, e.declarations);
    SameUses(c, Var, u, e.uses);
  }

  lemma VarsOf(c: Context, v: IndexFile)
    ensures KindOccs(c, Var, EntitiesOf(v, Var)) == Sum(v.usr2var.Keys, AllVarRefs(c, v))
  {
    var es := EntitiesOf(v, Var);
    assert es.Keys == v.usr2var.Keys;
    hide EntitiesOf, KindOccs, AllVarRefs, SpellsAt, DeclsAt, UsesAt, Sum;
    forall u | u in es
      ensures AllVarRefs(c, v)(u) == SpellsAt(c, Var, es)(u) + DeclsAt(c, Var, es)(u) + UsesAt(c, Var, es)(u)
    {
      OneVar(c, v, u);
    }
    OneKind(c, Var, es, AllVarRefs(c, v));
  }

  // The references of a version are those of its functions, types and variables:
  // named definitions with a place, declarations and uses.
  lemma FileRefs(ids: map<string, nat>, v: IndexFile)
    ensures var c := ContextOf(ids, v);
      FileOccs(ids, v) == Sum(v.usr2func.Keys, AllFuncRefs(c, v)) + Sum(v.usr2type.Keys, AllTypeRefs(c, v)) + Sum(v.usr2var.Keys, AllVarRefs(c, v))
  {
    hide KindOccs, EntitiesOf, ContextOf, Sum, AllFuncRefs, AllTypeRefs, AllVarRefs;
    var c := ContextOf(ids, v);
    FuncsOf(c, v);
    TypesOf(c, v);
    VarsOf(c, v);
  }

  // ---------- Stored entries ----------

  function StoredDeclAt(c: Context, d: DeclRef): QDecl {
    QDecl(QUse(d.use.range, d.use.role, FileOf(c, d.use.fileId)), d.extent)
  }

  // The definition stored under a named record.
  function DefEntry(c: Context, def: Def, spell: DeclRef): QDef {
    QDef(def, c.self, if spell.use.range.start.column >= 0 then Some(StoredDeclAt(c, spell)) else None)
  }

  predicate AreDecls(r: seq<QDecl>, c: Context, ds: seq<DeclRef>) {
    |r| == |ds| && forall i :: 0 <= i < |ds| ==> r[i] == StoredDeclAt(c, ds[i])
  }

  predicate AreUses(r: seq<QUse>, c: Context, us: seq<Use>) {
    |r| == |us| && forall i :: 0 <= i < |us| ==> r[i] == QUse(us[i].range, us[i].role, FileOf(c, us[i].fileId))
  }

  predicate AreCalls(r: seq<QUse>, c: Context, us: seq<Use>) {
    |r| == |us| && forall i :: 0 <= i < |us| ==> r[i] == QUse(CallRange(us[i]), us[i].role, FileOf(c, us[i].fileId))
  }

  // What the record of a function adds to its entity.
  lemma FuncEntry(ids: map<string, nat>, v: IndexFile, u: Usr)
    requires u in v.usr2func
    ensures var e, c := v.usr2func[u], ContextOf(ids, v);
      && AreCalls(UsesOf(Func, u, ids, v), c, e.uses) && AreDecls(DeclsOf(Func, u, ids, v), c, e.declarations)
      && DerivedOf(Func, u, v) == e.derived && InstancesOf(Func, u, v) == []
      && OwnDef(c, EntitiesOf(v, Func), u) == if e.def.detailedName != "" then [DefEntry(c, FuncDefinition(e.def), e.def.spell)] else []
  {
    hide ContextOf;
  }

  lemma TypeEntry(ids: map<string, nat>, v: IndexFile, u: Usr)
    requires u in v.usr2type
    ensures var e, c := v.usr2type[u], ContextOf(ids, v);
      && AreUses(UsesOf(Type, u, ids, v), c, e.uses) && AreDecls(DeclsOf(Type, u, ids, v), c, e.declarations)
      && DerivedOf(Type, u, v) == e.derived && InstancesOf(Type, u, v) == e.instances
      && OwnDef(c, EntitiesOf(v, Type), u) == if e.def.detailedName != "" then [DefEntry(c, TypeDefinition(e.def), e.def.spell)] else []
  {
    hide ContextOf;
  }

  lemma VarEntry(ids: map<string, nat>, v: IndexFile, u: Usr)
    requires u in v.usr2var
    ensures var e, c := v.usr2var[u], ContextOf(ids, v);
      && AreUses(UsesOf(Var, u, ids, v), c, e.uses) && AreDecls(DeclsOf(Var, u, ids, v), c, e.declarations)
      && DerivedOf(Var, u, v) == [] && InstancesOf(Var, u, v) == []
      && OwnDef(c, EntitiesOf(v, Var), u) == if e.def.detailedName != "" then [DefEntry(c, VarDefinition(e.def), e.def.spell)] else []
  {
    hide ContextOf;
  }

  predicate Mentions(v: IndexFile, kind: Kind, u: Usr) {
    match kind
    case Func => u in v.usr2func
    case Type => u in v.usr2type
    case Var => u in v.usr2var
  }

  // A version adds nothing to the entities it has no record of.
  lemma NoEntry(ids: map<string, nat>, v: IndexFile, kind: Kind, u: Usr)
    requires !Mentions(v, kind, u)
    ensures UsesOf(kind, u, ids, v) == [] && DeclsOf(kind, u, ids, v) == []
    ensures DerivedOf(kind, u, v) == [] && InstancesOf(kind, u, v) == []
    ensures OwnDef(ContextOf(ids, v), EntitiesOf(v, kind), u) == []
  {
  }
}
