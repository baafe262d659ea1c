// The records of the binary cache format and their field order
// (src/serializer.cc, src/position.cc, src/indexer.cc).
module CacheRecords {
  import opened Index
  import opened Codec

  function U16Codec(): (c: Codec<U16>)
    ensures RoundTrips(c) && Total(c)
  {
    hide RoundTrips, Total, Unsigned, Signed;
    Unsigned((n: nat) => (n % 0x1_0000) as U16, (x: U16) => x as U64)
  }

  function UsrCodec(): (c: Codec<Usr>)
    ensures RoundTrips(c) && Total(c)
  {
    hide RoundTrips, Total, Unsigned, Signed;
    Unsigned((n: nat) => (n % TWO_64) as Usr, (x: Usr) => x as U64)
  }

  function I16Codec(): (c: Codec<I16>)
    ensures RoundTrips(c) && Total(c)
  {
    hide RoundTrips, Total, Unsigned, Signed;
    Signed((n: int) => ToI16(n), (x: I16) => x as I64)
  }

  function I32Codec(): (c: Codec<I32>)
    ensures RoundTrips(c) && Total(c)
  {
    hide RoundTrips, Total, Unsigned, Signed;
    Signed((n: int) => ToI32(n), (x: I32) => x as I64)
  }

  function I64Codec(): (c: Codec<I64>)
    ensures RoundTrips(c) && Total(c)
  {
    hide RoundTrips, Total, Unsigned, Signed;
    Signed((n: int) => ToI64(n), (x: I64) => x as I64)
  }

  // ---------- Positions and references ----------

  function PosCodec(): (c: Codec<Pos>)
    ensures RoundTrips(c) && Total(c)
  {
    hide RoundTrips, Total, PairOf, RecordOf;
    RecordOf(PairOf(U16Codec(), I16Codec()), (p: (U16, I16)) => Pos(p.0, p.1), (p: Pos) => (p.line, p.column))
  }

  function RangeCodec(): (c: Codec<Range>)
    ensures RoundTrips(c) && Total(c)
  {
    hide RoundTrips, Total, PairOf, RecordOf;
    RecordOf(PairOf(PosCodec(), PosCodec()), (p: (Pos, Pos)) => Range(p.0, p.1), (r: Range) => (r.start, r.end))
  }

  function UseCodec(): (c: Codec<Use>)
    ensures RoundTrips(c) && Total(c)
  {
    hide RoundTrips, Total, PairOf, RecordOf;
    RecordOf(PairOf(RangeCodec(), PairOf(U16Codec(), I32Codec())),
             (p: (Range, (U16, I32))) => Use(p.0, p.1.0, p.1.1), (u: Use) => (u.range, (u.role, u.fileId)))
  }

  function DeclCodec(): (c: Codec<DeclRef>)
    ensures RoundTrips(c) && Total(c)
  {
    hide RoundTrips, Total, PairOf, RecordOf;
    RecordOf(PairOf(UseCodec(), RangeCodec()), (p: (Use, Range)) => DeclRef(p.0, p.1), (d: DeclRef) => (d.use, d.extent))
  }

  function SymbolCodec(): (c: Codec<SymbolRef>)
    ensures RoundTrips(c) && Total(c)
  {
    hide RoundTrips, Total, PairOf, RecordOf;
    BasicsRoundTrip();
    RecordOf(PairOf(RangeCodec(), PairOf(UsrCodec(), PairOf(ByteCodec(), U16Codec()))),
             (p: (Range, (Usr, (U8, U16)))) => SymbolRef(p.0, p.1.0, p.1.1.0, p.1.1.1),
             (r: SymbolRef) => (r.range, (r.usr, (r.kind, r.role))))
  }

  // An absent spelling is the default one.
  predicate NormalSpell(d: DeclRef) { d.use.range.Valid() || d == NO_DECL }

  function SpellCodec(): (c: Codec<DeclRef>)
    ensures RoundTrips(c)
  {
    hide RoundTrips, PairOf, RecordOf, MaybeOf;
    MaybeOf(DeclCodec(), (d: DeclRef) => d.use.range.Valid(), NO_DECL)
  }

  // ---------- Entities ----------

  // Sizes are 64-bit.
  predicate Fits<T>(xs: seq<T>) { |xs| < TWO_64 }

  predicate StorableFunc(f: IndexFunc) {
    && Text(f.def.detailedName) && Text(f.def.hover) && Text(f.def.comments) && NormalSpell(f.def.spell)
    && Fits(f.def.bases) && Fits(f.def.vars) && Fits(f.def.callees)
    && Fits(f.declarations) && Fits(f.derived) && Fits(f.uses)
  }

  predicate StorableType(t: IndexType) {
    && Text(t.def.detailedName) && Text(t.def.hover) && Text(t.def.comments) && NormalSpell(t.def.spell)
    && Fits(t.def.bases) && Fits(t.def.funcs) && Fits(t.def.types) && Fits(t.def.vars)
    && Fits(t.declarations) && Fits(t.derived) && Fits(t.instances) && Fits(t.uses)
  }

  predicate StorableVar(v: IndexVar) {
    && Text(v.def.detailedName) && Text(v.def.hover) && Text(v.def.comments) && NormalSpell(v.def.spell)
    && Fits(v.declarations) && Fits(v.uses)
  }

  // usr, detailed_name, qual_name_offset, short_name_offset, short_name_size
  function HeadCodec(): (c: Codec<Head>)
    ensures RoundTrips(c)
  {
    hide RoundTrips, PairOf, VectorOf;
    BasicsRoundTrip();
    PairOf(UsrCodec(), PairOf(StringCodec(), PairOf(I16Codec(), PairOf(I16Codec(), I16Codec()))))
  }

  type Head = (Usr, (string, (I16, (I16, I16))))
  type FuncFields = (Head, ((DeclRef, (string, string)), ((seq<Usr>, (seq<Usr>, seq<SymbolRef>)), ((U8, (U8, U8)), (seq<DeclRef>, (seq<Usr>, seq<Use>))))))

  function FuncFieldsCodec(): (c: Codec<FuncFields>)
    ensures RoundTrips(c)
  {
    hide RoundTrips, PairOf, VectorOf;
    BasicsRoundTrip();
    PairOf(HeadCodec(),
      PairOf(PairOf(SpellCodec(), PairOf(StringCodec(), StringCodec())),
        PairOf(PairOf(VectorOf(UsrCodec()), PairOf(VectorOf(UsrCodec()), VectorOf(SymbolCodec()))),
          PairOf(PairOf(ByteCodec(), PairOf(ByteCodec(), ByteCodec())),
            PairOf(VectorOf(DeclCodec()), PairOf(VectorOf(UsrCodec()), VectorOf(UseCodec())))))))
  }

  function FuncOf(p: FuncFields): IndexFunc {
    var (usr, (detailedName, (qualNameOffset, (shortNameOffset, shortNameSize)))) := p.0;
    var ((spell, (hover, comments)), ((bases, (vars, callees)), ((kind, (parentKind, storage)), (declarations, (derived, uses))))) := p.1;
    IndexFunc(usr, FuncDef(detailedName, hover, comments, spell, bases, vars, callees, qualNameOffset, shortNameOffset, shortNameSize,
                           kind, parentKind, storage), declarations, derived, uses)
  }

  function FieldsOfFunc(f: IndexFunc): FuncFields {
    var d := f.def;
    ((f.usr, (d.detailedName, (d.qualNameOffset, (d.shortNameOffset, d.shortNameSize)))),
     ((d.spell, (d.hover, d.comments)), ((d.bases, (d.vars, d.callees)), ((d.kind, (d.parentKind, d.storage)), (f.declarations, (f.derived, f.uses))))))
  }

  function FuncCodec(): (c: Codec<IndexFunc>)
    ensures RoundTrips(c)
  {
    hide RoundTrips, RecordOf, FuncOf, FieldsOfFunc;
    FuncOfInverts();
    RecordOf(FuncFieldsCodec(), FuncOf, FieldsOfFunc)
  }

  lemma FuncOfInverts()
    ensures forall f: IndexFunc :: FuncOf(FieldsOfFunc(f)) == f
  {
  }

  type TypeFields = (Head, (((string, string), DeclRef), ((seq<Usr>, (seq<Usr>, (seq<Usr>, seq<(Usr, I64)>))),
                     ((Usr, (U8, U8)), (seq<DeclRef>, (seq<Usr>, (seq<Usr>, seq<Use>)))))))

  function TypeFieldsCodec(): (c: Codec<TypeFields>)
    ensures RoundTrips(c)
  {
    hide RoundTrips, PairOf, VectorOf;
    BasicsRoundTrip();
    PairOf(HeadCodec(),
      PairOf(PairOf(PairOf(StringCodec(), StringCodec()), SpellCodec()),
        PairOf(PairOf(VectorOf(UsrCodec()), PairOf(VectorOf(UsrCodec()), PairOf(VectorOf(UsrCodec()), VectorOf(PairOf(UsrCodec(), I64Codec()))))),
          PairOf(PairOf(UsrCodec(), PairOf(ByteCodec(), ByteCodec())),
            PairOf(VectorOf(DeclCodec()), PairOf(VectorOf(UsrCodec()), PairOf(VectorOf(UsrCodec()), VectorOf(UseCodec()))))))))
  }

  function TypeOf(p: TypeFields): IndexType {
    var (usr, (detailedName, (qualNameOffset, (shortNameOffset, shortNameSize)))) := p.0;
    var (((hover, comments), spell), ((bases, (funcs, (types, vars))), ((aliasOf, (kind, parentKind)), (declarations, (derived, (instances, uses)))))) := p.1;
    IndexType(usr, TypeDef(detailedName, hover, comments, spell, bases, funcs, types, vars, aliasOf, qualNameOffset, shortNameOffset, shortNameSize,
                           kind, parentKind), declarations, derived, instances, uses)
  }

  function FieldsOfType(t: IndexType): TypeFields {
    var d := t.def;
    ((t.usr, (d.detailedName, (d.qualNameOffset, (d.shortNameOffset, d.shortNameSize)))),
     (((d.hover, d.comments), d.spell), ((d.bases, (d.funcs, (d.types, d.vars))),
      ((d.aliasOf, (d.kind, d.parentKind)), (t.declarations, (t.derived, (t.instances, t.uses)))))))
  }

  lemma TypeOfInverts()
    ensures forall t: IndexType :: TypeOf(FieldsOfType(t)) == t
  {
  }

  function TypeCodec(): (c: Codec<IndexType>)
    ensures RoundTrips(c)
  {
    hide RoundTrips, RecordOf, TypeOf, FieldsOfType;
    TypeOfInverts();
    RecordOf(TypeFieldsCodec(), TypeOf, FieldsOfType)
  }

  type VarFields = (Head, (((string, string), DeclRef), ((Usr, (U8, (U8, U8))), (seq<DeclRef>, seq<Use>))))

  function VarFieldsCodec(): (c: Codec<VarFields>)
    ensures RoundTrips(c)
  {
    hide RoundTrips, PairOf, VectorOf;
    BasicsRoundTrip();
    PairOf(HeadCodec(),
      PairOf(PairOf(PairOf(StringCodec(), StringCodec()), SpellCodec()),
        PairOf(PairOf(UsrCodec(), PairOf(ByteCodec(), PairOf(ByteCodec(), ByteCodec()))),
          PairOf(VectorOf(DeclCodec()), VectorOf(UseCodec())))))
  }

  function VarOf(p: VarFields): IndexVar {
    var (usr, (detailedName, (qualNameOffset, (shortNameOffset, shortNameSize)))) := p.0;
    var (((hover, comments), spell), ((typ, (kind, (parentKind, storage))), (declarations, uses))) := p.1;
    IndexVar(usr, VarDef(detailedName, hover, comments, spell, typ, qualNameOffset, shortNameOffset, shortNameSize, kind, parentKind, storage),
             declarations, uses)
  }

  function FieldsOfVar(v: IndexVar): VarFields {
    var d := v.def;
    ((v.usr, (d.detailedName, (d.qualNameOffset, (d.shortNameOffset, d.shortNameSize)))),
     (((d.hover, d.comments), d.spell), ((d.typ, (d.kind, (d.parentKind, d.storage))), (v.declarations, v.uses))))
  }

  lemma VarOfInverts()
    ensures forall v: IndexVar :: VarOf(FieldsOfVar(v)) == v
  {
  }

  function VarCodec(): (c: Codec<IndexVar>)
    ensures RoundTrips(c)
  {
    hide RoundTrips, RecordOf, VarOf, FieldsOfVar;
    VarOfInverts();
    RecordOf(VarFieldsCodec(), VarOf, FieldsOfVar)
  }

  function IncludeCodec(): (c: Codec<IndexInclude>)
    ensures RoundTrips(c)
  {
    hide RoundTrips, PairOf, RecordOf;
    BasicsRoundTrip();
    RecordOf(PairOf(I32Codec(), StringCodec()), (p: (I32, string)) => IndexInclude(p.0, p.1), (i: IndexInclude) => (i.line, i.resolvedPath))
  }

  // ---------- The file ----------

  // An index file with its maps listed in the order they are visited.
  datatype Listing = Listing(mtime: I64, language: I32, noLinkage: bool, lid2path: seq<(I32, string)>, importFile: string, args: seq<string>,
                             dependencies: seq<(string, I64)>, includes: seq<IndexInclude>, skippedRanges: seq<Range>,
                             funcs: seq<IndexFunc>, types: seq<IndexType>, vars: seq<IndexVar>)

  type ListingFields = ((I64, (I32, (bool, seq<(I32, string)>))), ((string, (seq<string>, seq<(string, I64)>)),
                        ((seq<IndexInclude>, seq<Range>), (seq<IndexFunc>, (seq<IndexType>, seq<IndexVar>)))))

  function ListingFieldsCodec(): (c: Codec<ListingFields>)
    ensures RoundTrips(c)
  {
    hide RoundTrips, PairOf, VectorOf;
    BasicsRoundTrip();
    PairOf(PairOf(I64Codec(), PairOf(I32Codec(), PairOf(BoolCodec(), VectorOf(PairOf(I32Codec(), StringCodec()))))),
      PairOf(PairOf(StringCodec(), PairOf(VectorOf(StringCodec()), VectorOf(PairOf(StringCodec(), I64Codec())))),
        PairOf(PairOf(VectorOf(IncludeCodec()), VectorOf(RangeCodec())),
          PairOf(VectorOf(FuncCodec()), PairOf(VectorOf(TypeCodec()), VectorOf(VarCodec()))))))
  }

  function ListingOf(p: ListingFields): Listing {
    var (mtime, (language, (noLinkage, lid2path))) := p.0;
    var ((importFile, (args, dependencies)), ((includes, skippedRanges), (funcs, (types, vars)))) := p.1;
    Listing(mtime, language, noLinkage, lid2path, importFile, args, dependencies, includes, skippedRanges, funcs, types, vars)
  }

  function FieldsOfListing(l: Listing): ListingFields {
    ((l.mtime, (l.language, (l.noLinkage, l.lid2path))), ((l.importFile, (l.args, l.dependencies)),
     ((l.includes, l.skippedRanges), (l.funcs, (l.types, l.vars)))))
  }

  lemma ListingOfInverts()
    ensures forall l: Listing :: ListingOf(FieldsOfListing(l)) == l
  {
  }

  function ListingCodec(): (c: Codec<Listing>)
    ensures RoundTrips(c)
  {
    hide RoundTrips, RecordOf, ListingOf, FieldsOfListing;
    ListingOfInverts();
    RecordOf(ListingFieldsCodec(), ListingOf, FieldsOfListing)
  }
}
