// Writing and reading cache files: serialize and deserialize of
// src/serializer.cc for the binary format.
module CacheFile {
  import opened Index
  import opened Codec
  import opened CacheRecords

  // ---------- What can be stored ----------

  lemma VectorOk<T(!new)>(c: Codec<T>, xs: seq<T>)
    requires Fits(xs) && Total(c)
    ensures VectorOf(c).ok(xs)
  {
    hide RoundTrips;
  }

  lemma VectorOfOk<T(!new)>(c: Codec<T>, xs: seq<T>)
    requires Fits(xs) && forall i :: 0 <= i < |xs| ==> c.ok(xs[i])
    ensures VectorOf(c).ok(xs)
  {
    hide RoundTrips;
  }

  lemma HeadOk(h: Head)
    requires Text(h.1.0)
    ensures HeadCodec().ok(h)
  {
    BasicsRoundTrip();
    hide RoundTrips, PairOf, Text;
  }

  lemma FuncOk(f: IndexFunc)
    requires StorableFunc(f)
    ensures FuncCodec().ok(f)
  {
    HeadOk(FieldsOfFunc(f).0);
    BasicsRoundTrip();
    VectorOk(UsrCodec(), f.def.bases);
    VectorOk(UsrCodec(), f.def.vars);
    VectorOk(SymbolCodec(), f.def.callees);
    VectorOk(DeclCodec(), f.declarations);
    VectorOk(UsrCodec(), f.derived);
    VectorOk(UseCodec(), f.uses);
    hide RoundTrips, PairOf, RecordOf, Text, VectorOf, MaybeOf, Fits, HeadCodec, FuncOf;
    assert FuncFieldsCodec().ok(FieldsOfFunc(f));
  }

  lemma TypeOk(t: IndexType)
    requires StorableType(t)
    ensures TypeCodec().ok(t)
  {
    HeadOk(FieldsOfType(t).0);
    BasicsRoundTrip();
    VectorOk(UsrCodec(), t.def.bases);
    VectorOk(UsrCodec(), t.def.funcs);
    VectorOk(UsrCodec(), t.def.types);
    VectorOk(PairOf(UsrCodec(), I64Codec()), t.def.vars);
    VectorOk(DeclCodec(), t.declarations);
    VectorOk(UsrCodec(), t.derived);
    VectorOk(UsrCodec(), t.instances);
    VectorOk(UseCodec(), t.uses);
    hide RoundTrips, PairOf, RecordOf, Text, VectorOf, MaybeOf, Fits, HeadCodec, TypeOf;
    assert TypeFieldsCodec().ok(FieldsOfType(t));
  }

  lemma VarOk(v: IndexVar)
    requires StorableVar(v)
    ensures VarCodec().ok(v)
  {
    HeadOk(FieldsOfVar(v).0);
    BasicsRoundTrip();
    VectorOk(DeclCodec(), v.declarations);
    VectorOk(UseCodec(), v.uses);
    hide RoundTrips, PairOf, RecordOf, Text, VectorOf, MaybeOf, Fits, HeadCodec, VarOf;
    assert VarFieldsCodec().ok(FieldsOfVar(v));
  }

  // C strings throughout, 64-bit sizes, and absent spellings in normal form.
  ghost predicate StorableListing(l: Listing) {
    && Text(l.importFile)
    && Fits(l.lid2path) && (forall i :: 0 <= i < |l.lid2path| ==> Text(l.lid2path[i].1))
    && Fits(l.args) && (forall i :: 0 <= i < |l.args| ==> Text(l.args[i]))
    && Fits(l.dependencies) && (forall i :: 0 <= i < |l.dependencies| ==> Text(l.dependencies[i].0))
    && Fits(l.includes) && (forall i :: 0 <= i < |l.includes| ==> Text(l.includes[i].resolvedPath))
    && Fits(l.skippedRanges)
    && Fits(l.funcs) && (forall i :: 0 <= i < |l.funcs| ==> StorableFunc(l.funcs[i]))
    && Fits(l.types) && (forall i :: 0 <= i < |l.types| ==> StorableType(l.types[i]))
    && Fits(l.vars) && (forall i :: 0 <= i < |l.vars| ==> StorableVar(l.vars[i]))
  }

  lemma PlainListsOk(l: Listing)
    requires StorableListing(l)
    ensures VectorOf(PairOf(I32Codec(), StringCodec())).ok(l.lid2path)
    ensures VectorOf(StringCodec()).ok(l.args)
    ensures VectorOf(PairOf(StringCodec(), I64Codec())).ok(l.dependencies)
    ensures VectorOf(IncludeCodec()).ok(l.includes)
    ensures VectorOf(RangeCodec()).ok(l.skippedRanges)
  {
    hide RoundTrips, PairOf, VectorOf, RecordOf, Text, StorableFunc, StorableType, StorableVar, Fits;
    VectorOfOk(PairOf(I32Codec(), StringCodec()), l.lid2path);
    VectorOfOk(StringCodec(), l.args);
    VectorOfOk(PairOf(StringCodec(), I64Codec()), l.dependencies);
    VectorOfOk(IncludeCodec(), l.includes);
    VectorOk(RangeCodec(), l.skippedRanges);
  }

  lemma EntityListsOk(l: Listing)
    requires StorableListing(l)
    ensures VectorOf(FuncCodec()).ok(l.funcs)
    ensures VectorOf(TypeCodec()).ok(l.types)
    ensures VectorOf(VarCodec()).ok(l.vars)
  {
    hide RoundTrips, VectorOf, Text, StorableFunc, StorableType, StorableVar, Fits, FuncCodec, TypeCodec, VarCodec;
    forall i | 0 <= i < |l.funcs|
      ensures FuncCodec().ok(l.funcs[i])
    {
      FuncOk(l.funcs[i]);
    }
    forall i | 0 <= i < |l.types|
      ensures TypeCodec().ok(l.types[i])
    {
      TypeOk(l.types[i]);
    }
    forall i | 0 <= i < |l.vars|
      ensures VarCodec().ok(l.vars[i])
    {
      VarOk(l.vars[i]);
    }
    VectorOfOk(FuncCodec(), l.funcs);
    VectorOfOk(TypeCodec(), l.types);
    VectorOfOk(VarCodec(), l.vars);
  }

  lemma PairOk<A(!new), B(!new)>(a: Codec<A>, b: Codec<B>, x: A, y: B)
    requires a.ok(x) && b.ok(y)
    ensures PairOf(a, b).ok((x, y))
  {
    hide RoundTrips;
  }

  lemma FirstFieldsOk(l: Listing)
    requires VectorOf(PairOf(I32Codec(), StringCodec())).ok(l.lid2path)
    ensures PairOf(I64Codec(), PairOf(I32Codec(), PairOf(BoolCodec(), VectorOf(PairOf(I32Codec(), StringCodec()))))).ok(FieldsOfListing(l).0)
  {
    BasicsRoundTrip();
    hide RoundTrips, PairOf, VectorOf;
    var lids := VectorOf(PairOf(I32Codec(), StringCodec()));
    PairOk(BoolCodec(), lids, l.noLinkage, l.lid2path);
    PairOk(I32Codec(), PairOf(BoolCodec(), lids), l.language, (l.noLinkage, l.lid2path));
    PairOk(I64Codec(), PairOf(I32Codec(), PairOf(BoolCodec(), lids)), l.mtime, (l.language, (l.noLinkage, l.lid2path)));
  }

  lemma ListingOk(l: Listing)
    requires StorableListing(l)
    ensures ListingCodec().ok(l)
  {
    hide RoundTrips, PairOf, RecordOf, VectorOf, Text, Fits, FuncCodec, TypeCodec, VarCodec, StorableFunc, StorableType, StorableVar, ListingOf;
    PlainListsOk(l);
    EntityListsOk(l);
    FirstFieldsOk(l);
    var f, t, v := VectorOf(FuncCodec()), VectorOf(TypeCodec()), VectorOf(VarCodec());
    PairOk(t, v, l.types, l.vars);
    PairOk(f, PairOf(t, v), l.funcs, (l.types, l.vars));
    assert StringCodec().ok(l.importFile);
    hide StorableListing;
    assert ListingFieldsCodec().ok(FieldsOfListing(l));
  }

  // ---------- From maps to listings and back ----------

  // Inserting xs one after the other; a later entry replaces an earlier one.
  function MapOf<E, K, V>(xs: seq<E>, key: E -> K, val: E -> V): map<K, V> {
    if xs == [] then map[] else MapOf(xs[..|xs| - 1], key, val)[key(xs[|xs| - 1]) := val(xs[|xs| - 1])]
  }

  // xs lists the entries of m, each once, in any order.
  ghost predicate ListsMap<E, K, V>(xs: seq<E>, m: map<K, V>, key: E -> K, val: E -> V) {
    && (forall i :: 0 <= i < |xs| ==> key(xs[i]) in m && m[key(xs[i])] == val(xs[i]))
    && (forall i, j :: 0 <= i < j < |xs| ==> key(xs[i]) != key(xs[j]))
    && (forall k :: k in m ==> exists i :: 0 <= i < |xs| && key(xs[i]) == k)
  }

  lemma {:induction false} MapOfKeys<E, K, V>(xs: seq<E>, key: E -> K, val: E -> V, i: nat)
    requires i < |xs| && forall i, j :: 0 <= i < j < |xs| ==> key(xs[i]) != key(xs[j])
    ensures key(xs[i]) in MapOf(xs, key, val) && MapOf(xs, key, val)[key(xs[i])] == val(xs[i])
  {
    if i < |xs| - 1 { MapOfKeys(xs[..|xs| - 1], key, val, i); }
  }

  lemma {:induction false} MapOfOnly<E, K, V>(xs: seq<E>, key: E -> K, val: E -> V, k: K)
    requires k in MapOf(xs, key, val)
    ensures exists i :: 0 <= i < |xs| && key(xs[i]) == k
  {
    if key(xs[|xs| - 1]) != k {
      MapOfOnly(xs[..|xs| - 1], key, val, k);
      var i :| 0 <= i < |xs| - 1 && key(xs[..|xs| - 1][i]) == k;
      assert key(xs[i]) == k;
    }
  }

  // Reading restores the map whatever order it was written in.
  lemma ListingInverts<E, K, V>(xs: seq<E>, m: map<K, V>, key: E -> K, val: E -> V)
    requires ListsMap(xs, m, key, val)
    ensures MapOf(xs, key, val) == m
  {
    var m' := MapOf(xs, key, val);
    forall k | k in m
      ensures k in m' && m'[k] == m[k]
    {
      var i :| 0 <= i < |xs| && key(xs[i]) == k;
      MapOfKeys(xs, key, val, i);
    }
    forall k | k in m'
      ensures k in m
    {
      MapOfOnly(xs, key, val, k);
    }
  }

  function FuncKey(f: IndexFunc): Usr { f.usr }
  function TypeKey(t: IndexType): Usr { t.usr }
  function VarKey(v: IndexVar): Usr { v.usr }
  function SameFunc(f: IndexFunc): IndexFunc { f }
  function SameType(t: IndexType): IndexType { t }
  function SameVar(v: IndexVar): IndexVar { v }
  function DepKey(d: (string, I64)): string { d.0 }
  function DepTime(d: (string, I64)): I64 { d.1 }

  // The entity maps are keyed by the usr of the entity.
  predicate KeyedByUsr(f: IndexFile) {
    && (forall u :: u in f.usr2func ==> f.usr2func[u].usr == u)
    && (forall u :: u in f.usr2type ==> f.usr2type[u].usr == u)
    && (forall u :: u in f.usr2var ==> f.usr2var[u].usr == u)
  }

  ghost predicate Lists(l: Listing, f: IndexFile) {
    && l.mtime == f.mtime && l.language == f.language && l.noLinkage == f.noLinkage && l.lid2path == f.lid2path
    && l.importFile == f.importFile && l.args == f.args && l.includes == f.includes && l.skippedRanges == f.skippedRanges
    && ListsMap(l.dependencies, f.dependencies, DepKey, DepTime)
    && ListsMap(l.funcs, f.usr2func, FuncKey, SameFunc)
    && ListsMap(l.types, f.usr2type, TypeKey, SameType)
    && ListsMap(l.vars, f.usr2var, VarKey, SameVar)
  }

  function FileOf(path: string, l: Listing): IndexFile {
    IndexFile(path, l.args, l.mtime, l.language, l.noLinkage, l.lid2path, l.importFile, l.skippedRanges, l.includes,
              MapOf(l.dependencies, DepKey, DepTime), MapOf(l.funcs, FuncKey, SameFunc), MapOf(l.types, TypeKey, SameType), MapOf(l.vars, VarKey, SameVar))
  }

  lemma FileOfInverts(l: Listing, f: IndexFile)
    requires Lists(l, f)
    ensures FileOf(f.path, l) == f
  {
    hide ListsMap, MapOf;
    ListingInverts(l.dependencies, f.dependencies, DepKey, DepTime);
    ListingInverts(l.funcs, f.usr2func, FuncKey, SameFunc);
    ListingInverts(l.types, f.usr2type, TypeKey, SameType);
    ListingInverts(l.vars, f.usr2var, VarKey, SameVar);
  }

  // ---------- The whole file ----------

  const MAJOR_VERSION: I32 := 21
  const MINOR_VERSION: I32 := 0

  type Header = (I32, I32)

  function FileCodec(): (c: Codec<(Header, Listing)>)
    ensures RoundTrips(c)
  {
    hide RoundTrips, PairOf, ListingCodec;
    ListingRoundTrips();
    PairOf(PairOf(I32Codec(), I32Codec()), ListingCodec())
  }

  lemma ListingRoundTrips()
    ensures RoundTrips(ListingCodec())
  {
    hide RoundTrips;
  }

  function FileBytes(l: Listing): Bytes { FileCodec().enc(((MAJOR_VERSION, MINOR_VERSION), l)) }

  // None for an empty, short, truncated or outdated file.
  function Parse(path: string, s: Bytes): Option<IndexFile> {
    if |s| < 8 then None
    else match FileCodec().dec(s)
      case PastEnd => None
      case Parsed((version, l), rest) => if version == (MAJOR_VERSION, MINOR_VERSION) then Some(FileOf(path, l)) else None
  }

  lemma HeaderOk(l: Listing)
    requires ListingCodec().ok(l)
    ensures FileCodec().ok(((MAJOR_VERSION, MINOR_VERSION), l))
  {
    hide RoundTrips, PairOf, ListingCodec;
    PairOk(I32Codec(), I32Codec(), MAJOR_VERSION, MINOR_VERSION);
    PairOk(PairOf(I32Codec(), I32Codec()), ListingCodec(), (MAJOR_VERSION, MINOR_VERSION), l);
  }

  lemma FileRoundTrips(x: (Header, Listing), rest: Bytes)
    requires FileCodec().ok(x)
    ensures FileCodec().dec(FileCodec().enc(x) + rest) == Parsed(x, rest)
  {
    hide PairOf, ListingCodec;
    assert RoundTrips(FileCodec());
  }

  lemma PairEnc<A(!new), B(!new)>(a: Codec<A>, b: Codec<B>, x: A, y: B)
    ensures PairOf(a, b).enc((x, y)) == a.enc(x) + b.enc(y)
  {
    hide RoundTrips;
  }

  lemma RecordEnc<A(!new), B(!new)>(c: Codec<A>, to: A -> B, from: B -> A, x: B)
    ensures RecordOf(c, to, from).enc(x) == c.enc(from(x))
  {
    hide RoundTrips;
  }

  lemma SignedSize<T(!new)>(narrow: int -> T, widen: T -> I64, x: T)
    ensures |Signed(narrow, widen).enc(x)| >= 1
  {
    hide RoundTrips, ZigZag;
  }

  lemma VectorSize<T(!new)>(c: Codec<T>, xs: seq<T>)
    requires Fits(xs)
    ensures |VectorOf(c).enc(xs)| >= 1
  {
    hide RoundTrips, EncAll;
  }

  lemma FirstFieldsSize(l: Listing)
    requires Fits(l.lid2path)
    ensures |PairOf(I64Codec(), PairOf(I32Codec(), PairOf(BoolCodec(), VectorOf(PairOf(I32Codec(), StringCodec()))))).enc(FieldsOfListing(l).0)| >= 4
  {
    hide RoundTrips, PairOf, VectorOf, Signed, Fits;
    var lids := VectorOf(PairOf(I32Codec(), StringCodec()));
    VectorSize(PairOf(I32Codec(), StringCodec()), l.lid2path);
    SignedSize((n: int) => ToI32(n), (x: I32) => x as I64, l.language);
    SignedSize((n: int) => ToI64(n), (x: I64) => x as I64, l.mtime);
    PairEnc(BoolCodec(), lids, l.noLinkage, l.lid2path);
    PairEnc(I32Codec(), PairOf(BoolCodec(), lids), l.language, (l.noLinkage, l.lid2path));
    PairEnc(I64Codec(), PairOf(I32Codec(), PairOf(BoolCodec(), lids)), l.mtime, (l.language, (l.noLinkage, l.lid2path)));
    assert |BoolCodec().enc(l.noLinkage)| == 1;
  }

  lemma NextFieldsSize(l: Listing)
    requires Fits(l.args) && Fits(l.dependencies)
    ensures |PairOf(StringCodec(), PairOf(VectorOf(StringCodec()), VectorOf(PairOf(StringCodec(), I64Codec())))).enc(FieldsOfListing(l).1.0)| >= 3
  {
    hide RoundTrips, PairOf, VectorOf, Fits;
    var args, deps := VectorOf(StringCodec()), VectorOf(PairOf(StringCodec(), I64Codec()));
    VectorSize(StringCodec(), l.args);
    VectorSize(PairOf(StringCodec(), I64Codec()), l.dependencies);
    PairEnc(args, deps, l.args, l.dependencies);
    PairEnc(StringCodec(), PairOf(args, deps), l.importFile, (l.args, l.dependencies));
    assert |StringCodec().enc(l.importFile)| >= 1;
  }

  // A cache file is never taken for a short one.
  lemma FileSize(l: Listing)
    requires StorableListing(l)
    ensures |FileBytes(l)| >= 8
  {
    hide RoundTrips, PairOf, VectorOf, RecordOf, StringCodec, BoolCodec, I64Codec, I32Codec, FuncCodec, TypeCodec, VarCodec, RangeCodec, IncludeCodec;
    FirstFieldsSize(l);
    NextFieldsSize(l);
    HeaderSize();
    hide StorableListing;
    var p := FieldsOfListing(l);
    var first := PairOf(I64Codec(), PairOf(I32Codec(), PairOf(BoolCodec(), VectorOf(PairOf(I32Codec(), StringCodec())))));
    var next := PairOf(StringCodec(), PairOf(VectorOf(StringCodec()), VectorOf(PairOf(StringCodec(), I64Codec()))));
    var last := PairOf(PairOf(VectorOf(IncludeCodec()), VectorOf(RangeCodec())), PairOf(VectorOf(FuncCodec()), PairOf(VectorOf(TypeCodec()), VectorOf(VarCodec()))));
    PairEnc(first, PairOf(next, last), p.0, p.1);
    PairEnc(next, last, p.1.0, p.1.1);
    RecordEnc(ListingFieldsCodec(), ListingOf, FieldsOfListing, l);
    hide FieldsOfListing, ListingOf;
    PairEnc(PairOf(I32Codec(), I32Codec()), ListingCodec(), (MAJOR_VERSION, MINOR_VERSION), l);
  }

  lemma HeaderSize()
    ensures |PairOf(I32Codec(), I32Codec()).enc((MAJOR_VERSION, MINOR_VERSION))| >= 2
  {
    hide RoundTrips, PairOf, Signed;
    SignedSize((n: int) => ToI32(n), (x: I32) => x as I64, MAJOR_VERSION);
    SignedSize((n: int) => ToI32(n), (x: I32) => x as I64, MINOR_VERSION);
    PairEnc(I32Codec(), I32Codec(), MAJOR_VERSION, MINOR_VERSION);
  }

  // ---------- Absent spellings ----------

  function NormalSpelling(d: DeclRef): DeclRef { if d.use.range.Valid() then d else NO_DECL }
  function NormalFunc(f: IndexFunc): IndexFunc { f.(def := f.def.(spell := NormalSpelling(f.def.spell))) }
  function NormalType(t: IndexType): IndexType { t.(def := t.def.(spell := NormalSpelling(t.def.spell))) }
  function NormalVar(v: IndexVar): IndexVar { v.(def := v.def.(spell := NormalSpelling(v.def.spell))) }

  lemma SpellEnc(d: DeclRef)
    ensures SpellCodec().enc(d) == SpellCodec().enc(NormalSpelling(d))
  {
    hide RoundTrips, DeclCodec;
  }

  lemma FuncEnc(f: IndexFunc)
    ensures FuncCodec().enc(f) == FuncCodec().enc(NormalFunc(f))
  {
    hide RoundTrips, PairOf, VectorOf, RecordOf, SpellCodec, UsrCodec, ByteCodec, DeclCodec, UseCodec, SymbolCodec, HeadCodec, StringCodec;
    SpellEnc(f.def.spell);
    var g := NormalFunc(f);
    var p, q := FieldsOfFunc(f), FieldsOfFunc(g);
    var texts := PairOf(StringCodec(), StringCodec());
    var tail := PairOf(PairOf(VectorOf(UsrCodec()), PairOf(VectorOf(UsrCodec()), VectorOf(SymbolCodec()))),
          PairOf(PairOf(ByteCodec(), PairOf(ByteCodec(), ByteCodec())),
            PairOf(VectorOf(DeclCodec()), PairOf(VectorOf(UsrCodec()), VectorOf(UseCodec())))));
    SameButFirst(HeadCodec(), SpellCodec(), texts, tail, p.0, p.1.0.0, q.1.0.0, p.1.0.1, p.1.1);
    RecordEnc(FuncFieldsCodec(), FuncOf, FieldsOfFunc, f);
    RecordEnc(FuncFieldsCodec(), FuncOf, FieldsOfFunc, g);
  }

  lemma SameButFirst<H(!new), A(!new), B(!new), T(!new)>(h: Codec<H>, a: Codec<A>, b: Codec<B>, t: Codec<T>, head: H, x: A, x': A, y: B, tail: T)
    requires a.enc(x) == a.enc(x')
    ensures PairOf(h, PairOf(PairOf(a, b), t)).enc((head, ((x, y), tail))) == PairOf(h, PairOf(PairOf(a, b), t)).enc((head, ((x', y), tail)))
  {
    hide RoundTrips, PairOf;
    PairEnc(a, b, x, y);
    PairEnc(a, b, x', y);
    PairEnc(PairOf(a, b), t, (x, y), tail);
    PairEnc(PairOf(a, b), t, (x', y), tail);
    PairEnc(h, PairOf(PairOf(a, b), t), head, ((x, y), tail));
    PairEnc(h, PairOf(PairOf(a, b), t), head, ((x', y), tail));
  }

  lemma SameButSecond<H(!new), A(!new), B(!new), T(!new)>(h: Codec<H>, a: Codec<A>, b: Codec<B>, t: Codec<T>, head: H, x: A, y: B, y': B, tail: T)
    requires b.enc(y) == b.enc(y')
    ensures PairOf(h, PairOf(PairOf(a, b), t)).enc((head, ((x, y), tail))) == PairOf(h, PairOf(PairOf(a, b), t)).enc((head, ((x, y'), tail)))
  {
    hide RoundTrips, PairOf;
    PairEnc(a, b, x, y);
    PairEnc(a, b, x, y');
    PairEnc(PairOf(a, b), t, (x, y), tail);
    PairEnc(PairOf(a, b), t, (x, y'), tail);
    PairEnc(h, PairOf(PairOf(a, b), t), head, ((x, y), tail));
    PairEnc(h, PairOf(PairOf(a, b), t), head, ((x, y'), tail));
  }

  lemma TypeEnc(t: IndexType)
    ensures TypeCodec().enc(t) == TypeCodec().enc(NormalType(t))
  {
    hide RoundTrips, PairOf, VectorOf, RecordOf, SpellCodec, UsrCodec, I64Codec, ByteCodec, DeclCodec, UseCodec, HeadCodec, StringCodec;
    SpellEnc(t.def.spell);
    var g := NormalType(t);
    var p, q := FieldsOfType(t), FieldsOfType(g);
    var texts := PairOf(StringCodec(), StringCodec());
    var tail := PairOf(PairOf(VectorOf(UsrCodec()), PairOf(VectorOf(UsrCodec()), PairOf(VectorOf(UsrCodec()), VectorOf(PairOf(UsrCodec(), I64Codec()))))),
          PairOf(PairOf(UsrCodec(), PairOf(ByteCodec(), ByteCodec())),
            PairOf(VectorOf(DeclCodec()), PairOf(VectorOf(UsrCodec()), PairOf(VectorOf(UsrCodec()), VectorOf(UseCodec()))))));
    SameButSecond(HeadCodec(), texts, SpellCodec(), tail, p.0, p.1.0.0, p.1.0.1, q.1.0.1, p.1.1);
    RecordEnc(TypeFieldsCodec(), TypeOf, FieldsOfType, t);
    RecordEnc(TypeFieldsCodec(), TypeOf, FieldsOfType, g);
  }

  lemma VarEnc(v: IndexVar)
    ensures VarCodec().enc(v) == VarCodec().enc(NormalVar(v))
  {
    hide RoundTrips, PairOf, VectorOf, RecordOf, SpellCodec, UsrCodec, ByteCodec, DeclCodec, UseCodec, HeadCodec, StringCodec;
    SpellEnc(v.def.spell);
    var g := NormalVar(v);
    var p, q := FieldsOfVar(v), FieldsOfVar(g);
    var texts := PairOf(StringCodec(), StringCodec());
    var tail := PairOf(PairOf(UsrCodec(), PairOf(ByteCodec(), PairOf(ByteCodec(), ByteCodec()))),
          PairOf(VectorOf(DeclCodec()), VectorOf(UseCodec())));
    SameButSecond(HeadCodec(), texts, SpellCodec(), tail, p.0, p.1.0.0, p.1.0.1, q.1.0.1, p.1.1);
    RecordEnc(VarFieldsCodec(), VarOf, FieldsOfVar, v);
    RecordEnc(VarFieldsCodec(), VarOf, FieldsOfVar, g);
  }

  lemma {:induction false} EncAllSame<T>(c: Codec<T>, xs: seq<T>, ys: seq<T>)
    requires |xs| == |ys| && forall i :: 0 <= i < |xs| ==> c.enc(xs[i]) == c.enc(ys[i])
    ensures EncAll(c, xs) == EncAll(c, ys)
  {
    if xs != [] { EncAllSame(c, xs[..|xs| - 1], ys[..|ys| - 1]); }
  }

  lemma VectorSame<T(!new)>(c: Codec<T>, xs: seq<T>, ys: seq<T>)
    requires |xs| == |ys| && forall i :: 0 <= i < |xs| ==> c.enc(xs[i]) == c.enc(ys[i])
    ensures VectorOf(c).enc(xs) == VectorOf(c).enc(ys)
  {
    hide RoundTrips;
    EncAllSame(c, xs, ys);
  }

  function NormalFuncs(fs: seq<IndexFunc>): seq<IndexFunc> { seq(|fs|, i requires 0 <= i < |fs| => NormalFunc(fs[i])) }
  function NormalTypes(ts: seq<IndexType>): seq<IndexType> { seq(|ts|, i requires 0 <= i < |ts| => NormalType(ts[i])) }
  function NormalVars(vs: seq<IndexVar>): seq<IndexVar> { seq(|vs|, i requires 0 <= i < |vs| => NormalVar(vs[i])) }

  function NormalListing(l: Listing): Listing {
    l.(funcs := NormalFuncs(l.funcs), types := NormalTypes(l.types), vars := NormalVars(l.vars))
  }

  function NormalFuncMap(m: map<Usr, IndexFunc>): map<Usr, IndexFunc> { map u | u in m :: NormalFunc(m[u]) }
  function NormalTypeMap(m: map<Usr, IndexType>): map<Usr, IndexType> { map u | u in m :: NormalType(m[u]) }
  function NormalVarMap(m: map<Usr, IndexVar>): map<Usr, IndexVar> { map u | u in m :: NormalVar(m[u]) }

  // The file with every absent spelling in its default form.
  function NormalFile(f: IndexFile): IndexFile {
    f.(usr2func := NormalFuncMap(f.usr2func), usr2type := NormalTypeMap(f.usr2type), usr2var := NormalVarMap(f.usr2var))
  }

  // A spelling with a place, or in default form.
  predicate PlacedOrNone(d: DeclRef) { d.use.range.start.column >= 0 || d == NO_DECL }

  // A record read back differs in its spelling only, which comes back in default
  // form if it has no place.
  lemma NormalFuncIs(f: IndexFunc)
    ensures var g := NormalFunc(f); g.(def := g.def.(spell := f.def.spell)) == f && g.def.spell == if f.def.spell.use.range.start.column >= 0 then f.def.spell else NO_DECL
    ensures NormalFunc(f) == f <==> PlacedOrNone(f.def.spell)
  {
  }

  lemma NormalTypeIs(t: IndexType)
    ensures var g := NormalType(t); g.(def := g.def.(spell := t.def.spell)) == t && g.def.spell == if t.def.spell.use.range.start.column >= 0 then t.def.spell else NO_DECL
    ensures NormalType(t) == t <==> PlacedOrNone(t.def.spell)
  {
  }

  lemma NormalVarIs(v: IndexVar)
    ensures var g := NormalVar(v); g.(def := g.def.(spell := v.def.spell)) == v && g.def.spell == if v.def.spell.use.range.start.column >= 0 then v.def.spell else NO_DECL
    ensures NormalVar(v) == v <==> PlacedOrNone(v.def.spell)
  {
  }

  lemma NormalFuncMapIs(m: map<Usr, IndexFunc>)
    ensures NormalFuncMap(m) == m <==> forall u :: u in m ==> PlacedOrNone(m[u].def.spell)
  {
    var m' := NormalFuncMap(m);
    hide NormalFunc, PlacedOrNone;
    forall u | u in m
      ensures m'[u] == m[u] <==> PlacedOrNone(m[u].def.spell)
    {
      NormalFuncIs(m[u]);
    }
  }

  lemma NormalTypeMapIs(m: map<Usr, IndexType>)
    ensures NormalTypeMap(m) == m <==> forall u :: u in m ==> PlacedOrNone(m[u].def.spell)
  {
    var m' := NormalTypeMap(m);
    hide NormalType, PlacedOrNone;
    forall u | u in m
      ensures m'[u] == m[u] <==> PlacedOrNone(m[u].def.spell)
    {
      NormalTypeIs(m[u]);
    }
  }

  lemma NormalVarMapIs(m: map<Usr, IndexVar>)
    ensures NormalVarMap(m) == m <==> forall u :: u in m ==> PlacedOrNone(m[u].def.spell)
  {
    var m' := NormalVarMap(m);
    hide NormalVar, PlacedOrNone;
    forall u | u in m
      ensures m'[u] == m[u] <==> PlacedOrNone(m[u].def.spell)
    {
      NormalVarIs(m[u]);
    }
  }

  // A file read back is the file written, but for records whose spelling has no
  // place; it is the very file exactly when those are in default form.
  lemma NormalIs(f: IndexFile)
    ensures var g := NormalFile(f);
      && g.(usr2func := f.usr2func, usr2type := f.usr2type, usr2var := f.usr2var) == f
      && g.usr2func.Keys == f.usr2func.Keys && g.usr2type.Keys == f.usr2type.Keys && g.usr2var.Keys == f.usr2var.Keys
      && (forall u :: u in f.usr2func ==> g.usr2func[u] == NormalFunc(f.usr2func[u]))
      && (forall u :: u in f.usr2type ==> g.usr2type[u] == NormalType(f.usr2type[u]))
      && (forall u :: u in f.usr2var ==> g.usr2var[u] == NormalVar(f.usr2var[u]))
    ensures NormalFile(f) == f <==>
      && (forall u :: u in f.usr2func ==> PlacedOrNone(f.usr2func[u].def.spell))
      && (forall u :: u in f.usr2type ==> PlacedOrNone(f.usr2type[u].def.spell))
      && (forall u :: u in f.usr2var ==> PlacedOrNone(f.usr2var[u].def.spell))
  {
    hide NormalFunc, NormalType, NormalVar, PlacedOrNone;
    NormalFuncMapIs(f.usr2func);
    NormalTypeMapIs(f.usr2type);
    NormalVarMapIs(f.usr2var);
  }

  lemma EntitiesEnc(l: Listing)
    ensures VectorOf(FuncCodec()).enc(l.funcs) == VectorOf(FuncCodec()).enc(NormalFuncs(l.funcs))
    ensures VectorOf(TypeCodec()).enc(l.types) == VectorOf(TypeCodec()).enc(NormalTypes(l.types))
    ensures VectorOf(VarCodec()).enc(l.vars) == VectorOf(VarCodec()).enc(NormalVars(l.vars))
  {
    hide RoundTrips, VectorOf, FuncCodec, TypeCodec, VarCodec, NormalFunc, NormalType, NormalVar;
    forall f: IndexFunc
      ensures FuncCodec().enc(f) == FuncCodec().enc(NormalFunc(f))
    {
      FuncEnc(f);
    }
    forall t: IndexType
      ensures TypeCodec().enc(t) == TypeCodec().enc(NormalType(t))
    {
      TypeEnc(t);
    }
    forall v: IndexVar
      ensures VarCodec().enc(v) == VarCodec().enc(NormalVar(v))
    {
      VarEnc(v);
    }
    VectorSame(FuncCodec(), l.funcs, NormalFuncs(l.funcs));
    VectorSame(TypeCodec(), l.types, NormalTypes(l.types));
    VectorSame(VarCodec(), l.vars, NormalVars(l.vars));
  }

  // Absent spellings are written as their default form.
  lemma ListingEnc(l: Listing)
    ensures ListingCodec().enc(l) == ListingCodec().enc(NormalListing(l))
  {
    hide RoundTrips, PairOf, VectorOf, RecordOf, StringCodec, BoolCodec, I64Codec, I32Codec, FuncCodec, TypeCodec, VarCodec, RangeCodec, IncludeCodec,
      NormalFuncs, NormalTypes, NormalVars;
    EntitiesEnc(l);
    var l' := NormalListing(l);
    var p, q := FieldsOfListing(l), FieldsOfListing(l');
    var first := PairOf(I64Codec(), PairOf(I32Codec(), PairOf(BoolCodec(), VectorOf(PairOf(I32Codec(), StringCodec())))));
    var next := PairOf(StringCodec(), PairOf(VectorOf(StringCodec()), VectorOf(PairOf(StringCodec(), I64Codec()))));
    var plain := PairOf(VectorOf(IncludeCodec()), VectorOf(RangeCodec()));
    var fs, ts, vs := VectorOf(FuncCodec()), VectorOf(TypeCodec()), VectorOf(VarCodec());
    SameEntities(fs, ts, vs, l.funcs, l.types, l.vars, l'.funcs, l'.types, l'.vars);
    SameTail(first, next, plain, PairOf(fs, PairOf(ts, vs)), p.0, p.1.0, p.1.1.0, p.1.1.1, q.1.1.1);
    RecordEnc(ListingFieldsCodec(), ListingOf, FieldsOfListing, l);
    RecordEnc(ListingFieldsCodec(), ListingOf, FieldsOfListing, l');
  }

  lemma SameEntities<A(!new), B(!new), C(!new)>(a: Codec<A>, b: Codec<B>, c: Codec<C>, x: A, y: B, z: C, x': A, y': B, z': C)
    requires a.enc(x) == a.enc(x') && b.enc(y) == b.enc(y') && c.enc(z) == c.enc(z')
    ensures PairOf(a, PairOf(b, c)).enc((x, (y, z))) == PairOf(a, PairOf(b, c)).enc((x', (y', z')))
  {
    hide RoundTrips, PairOf;
    PairEnc(b, c, y, z);
    PairEnc(b, c, y', z');
    PairEnc(a, PairOf(b, c), x, (y, z));
    PairEnc(a, PairOf(b, c), x', (y', z'));
  }

  lemma SameTail<A(!new), B(!new), C(!new), D(!new)>(a: Codec<A>, b: Codec<B>, c: Codec<C>, d: Codec<D>, x: A, y: B, z: C, w: D, w': D)
    requires d.enc(w) == d.enc(w')
    ensures PairOf(a, PairOf(b, PairOf(c, d))).enc((x, (y, (z, w)))) == PairOf(a, PairOf(b, PairOf(c, d))).enc((x, (y, (z, w'))))
  {
    hide RoundTrips, PairOf;
    PairEnc(c, d, z, w);
    PairEnc(c, d, z, w');
    PairEnc(b, PairOf(c, d), y, (z, w));
    PairEnc(b, PairOf(c, d), y, (z, w'));
    PairEnc(a, PairOf(b, PairOf(c, d)), x, (y, (z, w)));
    PairEnc(a, PairOf(b, PairOf(c, d)), x, (y, (z, w')));
  }

  // ---------- The round trip ----------

  // ys lists m' where xs lists m, key by key.
  lemma NormalMap<E, K>(xs: seq<E>, ys: seq<E>, m: map<K, E>, m': map<K, E>, key: E -> K, same: E -> E)
    requires ListsMap(xs, m, key, same) && m'.Keys == m.Keys && |ys| == |xs|
    requires forall i :: 0 <= i < |xs| ==> key(ys[i]) == key(xs[i]) && key(xs[i]) in m' && m'[key(xs[i])] == same(ys[i])
    ensures ListsMap(ys, m', key, same)
  {
    forall k | k in m'
      ensures exists i :: 0 <= i < |ys| && key(ys[i]) == k
    {
      var i :| 0 <= i < |xs| && key(xs[i]) == k;
      assert key(ys[i]) == k;
    }
  }

  lemma ListedAt<E, K, V>(xs: seq<E>, m: map<K, V>, key: E -> K, val: E -> V, i: nat)
    requires ListsMap(xs, m, key, val) && i < |xs|
    ensures key(xs[i]) in m && m[key(xs[i])] == val(xs[i])
  {
  }

  lemma NormalFuncsListed(xs: seq<IndexFunc>, m: map<Usr, IndexFunc>)
    requires ListsMap(xs, m, FuncKey, SameFunc)
    ensures ListsMap(NormalFuncs(xs), NormalFuncMap(m), FuncKey, SameFunc)
  {
    hide ListsMap, NormalFunc;
    forall i | 0 <= i < |xs|
      ensures FuncKey(xs[i]) in m && m[FuncKey(xs[i])] == xs[i] && FuncKey(NormalFunc(xs[i])) == FuncKey(xs[i])
    {
      ListedAt(xs, m, FuncKey, SameFunc, i);
      NormalFuncKey(xs[i]);
    }
    hide FuncKey;
    NormalMap(xs, NormalFuncs(xs), m, NormalFuncMap(m), FuncKey, SameFunc);
  }

  lemma NormalFuncKey(x: IndexFunc)
    ensures FuncKey(NormalFunc(x)) == FuncKey(x)
  {
  }

  lemma NormalTypesListed(xs: seq<IndexType>, m: map<Usr, IndexType>)
    requires ListsMap(xs, m, TypeKey, SameType)
    ensures ListsMap(NormalTypes(xs), NormalTypeMap(m), TypeKey, SameType)
  {
    hide ListsMap, NormalType;
    forall i | 0 <= i < |xs|
      ensures TypeKey(xs[i]) in m && m[TypeKey(xs[i])] == xs[i] && TypeKey(NormalType(xs[i])) == TypeKey(xs[i])
    {
      ListedAt(xs, m, TypeKey, SameType, i);
      NormalTypeKey(xs[i]);
    }
    hide TypeKey;
    NormalMap(xs, NormalTypes(xs), m, NormalTypeMap(m), TypeKey, SameType);
  }

  lemma NormalTypeKey(x: IndexType)
    ensures TypeKey(NormalType(x)) == TypeKey(x)
  {
  }

  lemma NormalVarsListed(xs: seq<IndexVar>, m: map<Usr, IndexVar>)
    requires ListsMap(xs, m, VarKey, SameVar)
    ensures ListsMap(NormalVars(xs), NormalVarMap(m), VarKey, SameVar)
  {
    hide ListsMap, NormalVar;
    forall i | 0 <= i < |xs|
      ensures VarKey(xs[i]) in m && m[VarKey(xs[i])] == xs[i] && VarKey(NormalVar(xs[i])) == VarKey(xs[i])
    {
      ListedAt(xs, m, VarKey, SameVar, i);
      NormalVarKey(xs[i]);
    }
    hide VarKey;
    NormalMap(xs, NormalVars(xs), m, NormalVarMap(m), VarKey, SameVar);
  }

  lemma NormalVarKey(x: IndexVar)
    ensures VarKey(NormalVar(x)) == VarKey(x)
  {
  }

  lemma NormalLists(l: Listing, f: IndexFile)
    requires Lists(l, f)
    ensures Lists(NormalListing(l), NormalFile(f))
  {
    hide ListsMap, NormalFuncs, NormalTypes, NormalVars, NormalFuncMap, NormalTypeMap, NormalVarMap;
    NormalFuncsListed(l.funcs, f.usr2func);
    NormalTypesListed(l.types, f.usr2type);
    NormalVarsListed(l.vars, f.usr2var);
  }

  lemma ListsFront<E, K, V>(xs: seq<E>, m: map<K, V>, key: E -> K, val: E -> V)
    requires ListsMap(xs, m, key, val) && xs != []
    ensures ListsMap(xs[..|xs| - 1], m - {key(xs[|xs| - 1])}, key, val)
  {
    var n := |xs| - 1;
    var front, m' := xs[..n], m - {key(xs[n])};
    forall j | j in m'
      ensures exists i :: 0 <= i < |front| && key(front[i]) == j
    {
      var i :| 0 <= i < |xs| && key(xs[i]) == j;
      assert front[i] == xs[i];
    }
  }

  lemma WithoutKey<K, V>(m: map<K, V>, k: K)
    requires k in m
    ensures |m| == |m - {k}| + 1
  {
    assert m.Keys == (m - {k}).Keys + {k};
  }

  lemma {:induction false} ListsSize<E, K, V>(xs: seq<E>, m: map<K, V>, key: E -> K, val: E -> V)
    requires ListsMap(xs, m, key, val)
    ensures |xs| == |m|
    decreases |xs|
  {
    if xs == [] {
      assert forall k :: k !in m;
    } else {
      var last := xs[|xs| - 1];
      assert key(last) in m;
      ListsFront(xs, m, key, val);
      hide ListsMap;
      ListsSize(xs[..|xs| - 1], m - {key(last)}, key, val);
      WithoutKey(m, key(last));
    }
  }

  // C strings throughout and 64-bit sizes.
  predicate StorableFile(f: IndexFile) {
    && Text(f.importFile)
    && Fits(f.lid2path) && (forall i :: 0 <= i < |f.lid2path| ==> Text(f.lid2path[i].1))
    && Fits(f.args) && (forall i :: 0 <= i < |f.args| ==> Text(f.args[i]))
    && |f.dependencies| < TWO_64 && (forall p :: p in f.dependencies ==> Text(p))
    && Fits(f.includes) && (forall i :: 0 <= i < |f.includes| ==> Text(f.includes[i].resolvedPath))
    && Fits(f.skippedRanges)
    && |f.usr2func| < TWO_64 && (forall u :: u in f.usr2func ==> StorableFunc(NormalFunc(f.usr2func[u])))
    && |f.usr2type| < TWO_64 && (forall u :: u in f.usr2type ==> StorableType(NormalType(f.usr2type[u])))
    && |f.usr2var| < TWO_64 && (forall u :: u in f.usr2var ==> StorableVar(NormalVar(f.usr2var[u])))
  }

  lemma StorableLists(l: Listing, f: IndexFile)
    requires Lists(l, f) && StorableFile(f)
    ensures StorableListing(NormalListing(l))
  {
    hide StorableFunc, StorableType, StorableVar, Text, NormalFunc, NormalType, NormalVar;
    ListsSize(l.dependencies, f.dependencies, DepKey, DepTime);
    ListsSize(l.funcs, f.usr2func, FuncKey, SameFunc);
    ListsSize(l.types, f.usr2type, TypeKey, SameType);
    ListsSize(l.vars, f.usr2var, VarKey, SameVar);
  }

  // What is written for f, in whatever order its maps are visited, is read back
  // as f, with absent spellings in default form; reading stops where writing did.
  lemma CacheRoundTrip(f: IndexFile, l: Listing, rest: Bytes)
    requires Lists(l, f) && StorableFile(f)
    ensures Parse(f.path, FileBytes(l)) == Some(NormalFile(f))
    ensures FileCodec().dec(FileBytes(l) + rest) == Parsed(((MAJOR_VERSION, MINOR_VERSION), NormalListing(l)), rest)
  {
    hide Lists, StorableFile, StorableListing, NormalListing, NormalFile, FileOf, MapOf, Parse, FileBytes, FileCodec, RoundTrips;
    var l' := NormalListing(l);
    StorableLists(l, f);
    NormalLists(l, f);
    SameBytes(l);
    WrittenInverts(l', rest);
    WrittenInverts(l', []);
    NothingMore(FileBytes(l));
    ParseWritten(f.path, FileBytes(l), l');
    SamePath(f);
    FileOfInverts(l', NormalFile(f));
  }

  lemma WrittenInverts(l: Listing, rest: Bytes)
    requires StorableListing(l)
    ensures FileCodec().dec(FileBytes(l) + rest) == Parsed(((MAJOR_VERSION, MINOR_VERSION), l), rest)
    ensures |FileBytes(l)| >= 8
  {
    hide RoundTrips, FileCodec, ListingCodec, StorableListing;
    ListingOk(l);
    HeaderOk(l);
    FileRoundTrips(((MAJOR_VERSION, MINOR_VERSION), l), rest);
    FileSize(l);
  }

  lemma ParseWritten(path: string, s: Bytes, l: Listing)
    requires |s| >= 8 && FileCodec().dec(s) == Parsed(((MAJOR_VERSION, MINOR_VERSION), l), [])
    ensures Parse(path, s) == Some(FileOf(path, l))
  {
    hide FileCodec, FileOf;
  }

  lemma NothingMore(s: Bytes)
    ensures s + [] == s
  {
  }

  lemma SamePath(f: IndexFile)
    ensures NormalFile(f).path == f.path
  {
  }

  lemma SameBytes(l: Listing)
    ensures FileBytes(l) == FileBytes(NormalListing(l))
  {
    hide RoundTrips, PairOf, ListingCodec, NormalListing;
    ListingEnc(l);
    PairEnc(PairOf(I32Codec(), I32Codec()), ListingCodec(), (MAJOR_VERSION, MINOR_VERSION), l);
    PairEnc(PairOf(I32Codec(), I32Codec()), ListingCodec(), (MAJOR_VERSION, MINOR_VERSION), NormalListing(l));
  }

  // An outdated or short file is rejected.
  lemma OutdatedRejected(path: string, version: Header, l: Listing)
    requires ListingCodec().ok(l) && version != (MAJOR_VERSION, MINOR_VERSION)
    ensures Parse(path, FileCodec().enc((version, l))) == None
  {
    hide RoundTrips, PairOf, ListingCodec;
    PairOk(I32Codec(), I32Codec(), version.0, version.1);
    PairOk(PairOf(I32Codec(), I32Codec()), ListingCodec(), version, l);
    FileRoundTrips((version, l), []);
    NothingMore(FileCodec().enc((version, l)));
  }
}
