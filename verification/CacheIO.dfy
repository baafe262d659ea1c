// The binary writer, which grows a buffer, and the binary reader, which advances
// over one (src/serializer.hh), and the methods that use them for a whole file
// (src/serializer.cc).
module CacheIO {
  import opened Index
  import opened Codec
  import opened CacheRecords
  import opened CacheFile

  class BinaryWriter {
    var buf: Bytes

    constructor ()
      ensures buf == []
    {
      buf := [];
    }

    // The k low bytes of x, in memory order.
    method Pack(x: nat, k: nat)
      requires x < Pow256(k)
      modifies this
      ensures buf == old(buf) + Little(x, k)
    {
      var y: nat := x;
      for i := 0 to k
        invariant y < Pow256(k - i)
        invariant buf + Little(y, k - i) == old(buf) + Little(x, k)
      {
        assert Little(y, k - i) == [y % 256] + Little(y / 256, k - i - 1);
        buf := buf + [y % 256];
        y := y / 256;
      }
      assert buf + [] == buf;
    }

    method WriteVarUInt(n: U64)
      modifies this
      ensures buf == old(buf) + VarUInt(n)
    {
      Widths();
      hide Pow256, Little;
      if n < 253 {
        buf := buf + [n];
      } else {
        var tag := if n < 0x1_0000 then 253 else if n < 0x1_0000_0000 then 254 else 255;
        var k := if n < 0x1_0000 then 2 else if n < 0x1_0000_0000 then 4 else 8;
        buf := buf + [tag];
        Pack(n, k);
      }
    }

    method WriteVarInt(n: I64)
      modifies this
      ensures buf == old(buf) + VarUInt(ZigZag(n))
    {
      hide VarUInt;
      WriteVarUInt(ZigZag(n));
    }

    method Write<T>(c: Codec<T>, x: T)
      modifies this
      ensures buf == old(buf) + c.enc(x)
    {
      buf := buf + c.enc(x);
    }

    // Sizes are 64-bit.
    method WriteVector<T(!new)>(c: Codec<T>, xs: seq<T>)
      modifies this
      ensures buf == old(buf) + VectorOf(c).enc(xs)
    {
      hide VarUInt, RoundTrips, EncAll;
      if |xs| >= TWO_64 {
        assert buf + [] == buf;
        return;
      }
      WriteVarUInt(|xs|);
      ghost var start := buf;
      EncAllNone(c);
      assert start == start + [];
      for i := 0 to |xs|
        invariant buf == start + EncAll(c, xs[..i])
      {
        EncAllStep(c, xs, i);
        assert start + EncAll(c, xs[..i]) + c.enc(xs[i]) == start + (EncAll(c, xs[..i]) + c.enc(xs[i]));
        buf := buf + c.enc(xs[i]);
      }
      assert xs[..|xs|] == xs;
      assert old(buf) + VarUInt(|xs|) + EncAll(c, xs) == old(buf) + (VarUInt(|xs|) + EncAll(c, xs));
    }

    method WriteOptions(l: Listing)
      modifies this
      ensures buf == old(buf) + OptionsCodec().enc((l.mtime, (l.language, (l.noLinkage, l.lid2path))))
    {
      hide RoundTrips, PairOf, VectorOf, I64Codec, I32Codec, StringCodec, BoolCodec;
      var lids := PairOf(I32Codec(), StringCodec());
      Write(I64Codec(), l.mtime);
      Write(I32Codec(), l.language);
      Write(BoolCodec(), l.noLinkage);
      WriteVector(lids, l.lid2path);
      QuadrupleEnc(I64Codec(), I32Codec(), BoolCodec(), VectorOf(lids), l.mtime, l.language, l.noLinkage, l.lid2path);
      Concat4(old(buf), I64Codec().enc(l.mtime), I32Codec().enc(l.language), BoolCodec().enc(l.noLinkage), VectorOf(lids).enc(l.lid2path));
    }

    method WriteOrigin(l: Listing)
      modifies this
      ensures buf == old(buf) + OriginCodec().enc((l.importFile, (l.args, l.dependencies)))
    {
      hide RoundTrips, PairOf, VectorOf, I64Codec, StringCodec;
      var deps := PairOf(StringCodec(), I64Codec());
      Write(StringCodec(), l.importFile);
      WriteVector(StringCodec(), l.args);
      WriteVector(deps, l.dependencies);
      TripleEnc(StringCodec(), VectorOf(StringCodec()), VectorOf(deps), l.importFile, l.args, l.dependencies);
      Concat3(old(buf), StringCodec().enc(l.importFile), VectorOf(StringCodec()).enc(l.args), VectorOf(deps).enc(l.dependencies));
    }

    method WriteSymbols(l: Listing)
      modifies this
      ensures buf == old(buf) + SymbolsCodec().enc((l.funcs, (l.types, l.vars)))
    {
      hide RoundTrips, PairOf, VectorOf, FuncCodec, TypeCodec, VarCodec;
      WriteVector(FuncCodec(), l.funcs);
      WriteVector(TypeCodec(), l.types);
      WriteVector(VarCodec(), l.vars);
      TripleEnc(VectorOf(FuncCodec()), VectorOf(TypeCodec()), VectorOf(VarCodec()), l.funcs, l.types, l.vars);
      Concat3(old(buf), VectorOf(FuncCodec()).enc(l.funcs), VectorOf(TypeCodec()).enc(l.types), VectorOf(VarCodec()).enc(l.vars));
    }

    method WriteLines(l: Listing)
      modifies this
      ensures buf == old(buf) + LinesCodec().enc((l.includes, l.skippedRanges))
    {
      hide RoundTrips, PairOf, VectorOf, IncludeCodec, RangeCodec;
      WriteVector(IncludeCodec(), l.includes);
      WriteVector(RangeCodec(), l.skippedRanges);
      PairEnc(VectorOf(IncludeCodec()), VectorOf(RangeCodec()), l.includes, l.skippedRanges);
      assert old(buf) + VectorOf(IncludeCodec()).enc(l.includes) + VectorOf(RangeCodec()).enc(l.skippedRanges)
          == old(buf) + (VectorOf(IncludeCodec()).enc(l.includes) + VectorOf(RangeCodec()).enc(l.skippedRanges));
    }

    // reflect on an index file, field by field.
    method WriteListing(l: Listing)
      modifies this
      ensures buf == old(buf) + ListingCodec().enc(l)
    {
      hide RoundTrips, PairOf, OptionsCodec, OriginCodec, LinesCodec, SymbolsCodec, ListingFieldsCodec, RecordOf;
      var p := FieldsOfListing(l);
      WriteOptions(l);
      WriteOrigin(l);
      WriteLines(l);
      WriteSymbols(l);
      ListingParts();
      RecordEnc(ListingFieldsCodec(), ListingOf, FieldsOfListing, l);
      QuadrupleEnc(OptionsCodec(), OriginCodec(), LinesCodec(), SymbolsCodec(), p.0, p.1.0, p.1.1.0, p.1.1.1);
      Concat4(old(buf), OptionsCodec().enc(p.0), OriginCodec().enc(p.1.0), LinesCodec().enc(p.1.1.0), SymbolsCodec().enc(p.1.1.1));
    }
  }

  // ---------- The parts of a file ----------

  function OptionsCodec(): (c: Codec<(I64, (I32, (bool, seq<(I32, string)>)))>)
    ensures RoundTrips(c)
  {
    hide RoundTrips, PairOf, VectorOf;
    BasicsRoundTrip();
    PairOf(I64Codec(), PairOf(I32Codec(), PairOf(BoolCodec(), VectorOf(PairOf(I32Codec(), StringCodec())))))
  }

  function OriginCodec(): (c: Codec<(string, (seq<string>, seq<(string, I64)>))>)
    ensures RoundTrips(c)
  {
    hide RoundTrips, PairOf, VectorOf;
    BasicsRoundTrip();
    PairOf(StringCodec(), PairOf(VectorOf(StringCodec()), VectorOf(PairOf(StringCodec(), I64Codec()))))
  }

  function LinesCodec(): (c: Codec<(seq<IndexInclude>, seq<Range>)>)
    ensures RoundTrips(c)
  {
    hide RoundTrips, PairOf, VectorOf;
    PairOf(VectorOf(IncludeCodec()), VectorOf(RangeCodec()))
  }

  function SymbolsCodec(): (c: Codec<(seq<IndexFunc>, (seq<IndexType>, seq<IndexVar>))>)
    ensures RoundTrips(c)
  {
    hide RoundTrips, PairOf, VectorOf;
    PairOf(VectorOf(FuncCodec()), PairOf(VectorOf(TypeCodec()), VectorOf(VarCodec())))
  }

  lemma ListingParts()
    ensures ListingFieldsCodec() == PairOf(OptionsCodec(), PairOf(OriginCodec(), PairOf(LinesCodec(), SymbolsCodec())))
  {
    hide RoundTrips, PairOf, VectorOf, StringCodec, BoolCodec, I64Codec, I32Codec, FuncCodec, TypeCodec, VarCodec, RangeCodec, IncludeCodec;
  }

  lemma Concat3(o: Bytes, a: Bytes, b: Bytes, c: Bytes)
    ensures o + a + b + c == o + (a + (b + c))
  {
  }

  lemma Concat4(o: Bytes, a: Bytes, b: Bytes, c: Bytes, d: Bytes)
    ensures o + a + b + c + d == o + (a + (b + (c + d)))
  {
  }

  lemma TripleEnc<A(!new), B(!new), C(!new)>(a: Codec<A>, b: Codec<B>, c: Codec<C>, x: A, y: B, z: C)
    ensures PairOf(a, PairOf(b, c)).enc((x, (y, z))) == a.enc(x) + (b.enc(y) + c.enc(z))
  {
    hide PairOf;
    PairEnc(b, c, y, z);
    PairEnc(a, PairOf(b, c), x, (y, z));
  }

  lemma QuadrupleEnc<A(!new), B(!new), C(!new), D(!new)>(a: Codec<A>, b: Codec<B>, c: Codec<C>, d: Codec<D>, x: A, y: B, z: C, w: D)
    ensures PairOf(a, PairOf(b, PairOf(c, d))).enc((x, (y, (z, w)))) == a.enc(x) + (b.enc(y) + (c.enc(z) + d.enc(w)))
  {
    hide PairOf;
    TripleEnc(b, c, d, y, z, w);
    PairEnc(a, PairOf(b, PairOf(c, d)), x, (y, (z, w)));
  }

  lemma EncAllNone<T>(c: Codec<T>)
    ensures EncAll(c, []) == []
  {
  }

  lemma EncAllStep<T>(c: Codec<T>, xs: seq<T>, i: nat)
    requires i < |xs|
    ensures EncAll(c, xs[..i + 1]) == EncAll(c, xs[..i]) + c.enc(xs[i])
  {
    assert xs[..i + 1][..i] == xs[..i];
  }

  class BinaryReader {
    const data: Bytes
    var p: nat

    constructor (data: Bytes)
      ensures this.data == data && p == 0
    {
      this.data, p := data, 0;
    }

    ghost predicate Valid()
      reads this
    {
      p <= |data|
    }

    method GetBytes(k: nat) returns (r: Parsed<nat>)
      requires Valid()
      modifies this`p
      ensures Valid() && Agrees(r, GetLittle(old(data[p..]), k), data[p..])
    {
      if |data| - p < k { return PastEnd; }
      assert data[p..][..k] == data[p..p + k] && data[p..][k..] == data[p + k..];
      r := Parsed(FromLittle(data[p..p + k]), data[p + k..]);
      p := p + k;
    }

    method ReadVarUInt() returns (r: Parsed<nat>)
      requires Valid()
      modifies this`p
      ensures Valid() && Agrees(r, GetVarUInt(old(data[p..])), data[p..])
    {
      hide GetLittle;
      if p == |data| { return PastEnd; }
      var x := data[p];
      assert data[p..][1..] == data[p + 1..];
      p := p + 1;
      if x < 253 { return Parsed(x, data[p..]); }
      r := GetBytes(if x == 253 then 2 else if x == 254 then 4 else 8);
    }

    method ReadI32() returns (r: Parsed<I32>)
      requires Valid()
      modifies this`p
      ensures Valid() && Agrees(r, I32Codec().dec(old(data[p..])), data[p..])
    {
      hide GetVarUInt, ZagZig, RoundTrips;
      GetVarUIntBound(data[p..]);
      var n := ReadVarUInt();
      match n
      case PastEnd => r := PastEnd;
      case Parsed(x, rest) => r := Parsed(ToI32(ZagZig(x)), rest);
    }

    method ReadString() returns (r: Parsed<string>)
      requires Valid()
      modifies this`p
      ensures Valid() && Agrees(r, GetString(old(data[p..])), data[p..])
    {
      var t := "";
      PrependEnds("", GetString(data[p..]));
      while p < |data| && data[p] != 0
        invariant Valid()
        invariant Prepend(t, GetString(data[p..])) == GetString(old(data[p..]))
        decreases |data| - p
      {
        assert data[p..][1..] == data[p + 1..];
        PrependMore(t, data[p] as char, GetString(data[p + 1..]));
        t := t + [data[p] as char];
        p := p + 1;
      }
      if p == |data| { return PastEnd; }
      assert data[p..][1..] == data[p + 1..];
      p := p + 1;
      PrependEnds(t, Parsed("", data[p..]));
      r := Parsed(t, data[p..]);
    }

    method Read<T(!new)>(c: Codec<T>) returns (r: Parsed<T>)
      requires Valid() && RoundTrips(c)
      modifies this`p
      ensures Valid() && Agrees(r, c.dec(old(data[p..])), data[p..])
    {
      r := c.dec(data[p..]);
      if r.Parsed? {
        SuffixAt(data, p, r.rest);
        p := |data| - |r.rest|;
      }
    }

    method ReadVector<T(!new)>(c: Codec<T>) returns (r: Parsed<seq<T>>)
      requires Valid() && RoundTrips(c)
      modifies this`p
      ensures Valid() && Agrees(r, VectorOf(c).dec(old(data[p..])), data[p..])
    {
      hide GetVarUInt, RoundTrips;
      var size := ReadVarUInt();
      if size.PastEnd? { return PastEnd; }
      var n, xs := size.value, [];
      ghost var from := data[p..];
      for i := 0 to n
        invariant Valid() && DecAll(c, i, from) == Parsed(xs, data[p..])
      {
        var d := Read(c);
        if d.PastEnd? {
          DecAllStops(c, i + 1, n, from);
          return PastEnd;
        }
        xs := xs + [d.value];
      }
      r := Parsed(xs, data[p..]);
    }

    method ReadOptions() returns (r: Parsed<(I64, (I32, (bool, seq<(I32, string)>)))>)
      requires Valid()
      modifies this`p
      ensures Valid() && Agrees(r, OptionsCodec().dec(old(data[p..])), data[p..])
    {
      BasicsRoundTrip();
      hide RoundTrips, PairOf, VectorOf, I64Codec, I32Codec, StringCodec, BoolCodec;
      var lids := PairOf(I32Codec(), StringCodec());
      QuadrupleDec(I64Codec(), I32Codec(), BoolCodec(), VectorOf(lids), data[p..]);
      var mtime := Read(I64Codec());
      if mtime.PastEnd? { return PastEnd; }
      var language := Read(I32Codec());
      if language.PastEnd? { return PastEnd; }
      var noLinkage := Read(BoolCodec());
      if noLinkage.PastEnd? { return PastEnd; }
      var lid2path := ReadVector(lids);
      if lid2path.PastEnd? { return PastEnd; }
      r := Parsed((mtime.value, (language.value, (noLinkage.value, lid2path.value))), data[p..]);
    }

    method ReadOrigin() returns (r: Parsed<(string, (seq<string>, seq<(string, I64)>))>)
      requires Valid()
      modifies this`p
      ensures Valid() && Agrees(r, OriginCodec().dec(old(data[p..])), data[p..])
    {
      BasicsRoundTrip();
      hide RoundTrips, PairOf, VectorOf, I64Codec, GetString;
      var deps := PairOf(StringCodec(), I64Codec());
      TripleDec(StringCodec(), VectorOf(StringCodec()), VectorOf(deps), data[p..]);
      var importFile := ReadString();
      if importFile.PastEnd? { return PastEnd; }
      var args := ReadVector(StringCodec());
      if args.PastEnd? { return PastEnd; }
      var dependencies := ReadVector(deps);
      if dependencies.PastEnd? { return PastEnd; }
      r := Parsed((importFile.value, (args.value, dependencies.value)), data[p..]);
    }

    method ReadLines() returns (r: Parsed<(seq<IndexInclude>, seq<Range>)>)
      requires Valid()
      modifies this`p
      ensures Valid() && Agrees(r, LinesCodec().dec(old(data[p..])), data[p..])
    {
      hide RoundTrips, PairOf, VectorOf;
      PairDec(VectorOf(IncludeCodec()), VectorOf(RangeCodec()), data[p..]);
      var includes := ReadVector(IncludeCodec());
      if includes.PastEnd? { return PastEnd; }
      var skippedRanges := ReadVector(RangeCodec());
      if skippedRanges.PastEnd? { return PastEnd; }
      r := Parsed((includes.value, skippedRanges.value), data[p..]);
    }

    method ReadSymbols() returns (r: Parsed<(seq<IndexFunc>, (seq<IndexType>, seq<IndexVar>))>)
      requires Valid()
      modifies this`p
      ensures Valid() && Agrees(r, SymbolsCodec().dec(old(data[p..])), data[p..])
    {
      hide RoundTrips, PairOf, VectorOf, RecordOf;
      TripleDec(VectorOf(FuncCodec()), VectorOf(TypeCodec()), VectorOf(VarCodec()), data[p..]);
      var funcs := ReadVector(FuncCodec());
      if funcs.PastEnd? { return PastEnd; }
      var types := ReadVector(TypeCodec());
      if types.PastEnd? { return PastEnd; }
      var vars := ReadVector(VarCodec());
      if vars.PastEnd? { return PastEnd; }
      r := Parsed((funcs.value, (types.value, vars.value)), data[p..]);
    }

    method ReadListing() returns (r: Parsed<Listing>)
      requires Valid()
      modifies this`p
      ensures Valid() && Agrees(r, ListingCodec().dec(old(data[p..])), data[p..])
    {
      hide RoundTrips, PairOf, OptionsCodec, OriginCodec, LinesCodec, SymbolsCodec, ListingFieldsCodec, ListingOf;
      ListingParts();
      QuadrupleDec(OptionsCodec(), OriginCodec(), LinesCodec(), SymbolsCodec(), data[p..]);
      var options := ReadOptions();
      if options.PastEnd? { return PastEnd; }
      var origin := ReadOrigin();
      if origin.PastEnd? { return PastEnd; }
      var lines := ReadLines();
      if lines.PastEnd? { return PastEnd; }
      var symbols := ReadSymbols();
      if symbols.PastEnd? { return PastEnd; }
      r := Parsed(ListingOf((options.value, (origin.value, (lines.value, symbols.value)))), data[p..]);
    }
  }

  // A reader's result agrees with the parser, and the rest is what lies ahead.
  predicate Agrees<T(==)>(r: Parsed<T>, spec: Parsed<T>, ahead: Bytes) {
    r == spec && (r.Parsed? ==> r.rest == ahead)
  }

  lemma SuffixAt(data: Bytes, p: nat, t: Bytes)
    requires p <= |data| && IsSuffix(t, data[p..])
    ensures |data| - |t| >= p && data[|data| - |t|..] == t
  {
  }

  function Prepend(t: string, r: Parsed<string>): Parsed<string> {
    match r case PastEnd => PastEnd case Parsed(u, rest) => Parsed(t + u, rest)
  }

  lemma PrependEnds(t: string, r: Parsed<string>)
    ensures t == "" ==> Prepend(t, r) == r
    ensures r.Parsed? && r.value == "" ==> Prepend(t, r) == Parsed(t, r.rest)
  {
    if r.Parsed? { assert "" + r.value == r.value && t + "" == t; }
  }

  lemma PrependMore(t: string, c: char, r: Parsed<string>)
    ensures Prepend(t + [c], r) == Prepend(t, Prepend([c], r))
  {
    if r.Parsed? { assert t + [c] + r.value == t + ([c] + r.value); }
  }

  lemma {:induction false} DecAllStops<T>(c: Codec<T>, i: nat, n: nat, s: Bytes)
    requires i <= n && DecAll(c, i, s) == PastEnd
    ensures DecAll(c, n, s) == PastEnd
    decreases n
  {
    if i < n { DecAllStops(c, i, n - 1, s); }
  }

  lemma ListsSnoc<E, K, V>(xs: seq<E>, m: map<K, V>, key: E -> K, val: E -> V, x: E)
    requires ListsMap(xs, m, key, val) && key(x) !in m
    ensures ListsMap(xs + [x], m[key(x) := val(x)], key, val)
  {
    var xs', m' := xs + [x], m[key(x) := val(x)];
    forall k | k in m'
      ensures exists i :: 0 <= i < |xs'| && key(xs'[i]) == k
    {
      if k == key(x) {
        assert xs'[|xs|] == x;
      } else {
        var i :| 0 <= i < |xs| && key(xs[i]) == k;
        assert xs'[i] == xs[i];
      }
    }
  }

  // Visits the entries of an unordered map, in any order.
  method ListEntries<E, K, V>(m: map<K, V>, make: (K, V) -> E, ghost key: E -> K, ghost val: E -> V) returns (xs: seq<E>)
    requires forall k :: k in m ==> key(make(k, m[k])) == k && val(make(k, m[k])) == m[k]
    ensures ListsMap(xs, m, key, val)
  {
    xs := [];
    var todo := m.Keys;
    ghost var done: map<K, V> := map[];
    assert ListsMap(xs, done, key, val);
    hide ListsMap;
    while todo != {}
      invariant done.Keys + todo == m.Keys && done.Keys !! todo && forall k :: k in done ==> done[k] == m[k]
      invariant ListsMap(xs, done, key, val)
      decreases todo
    {
      var k :| k in todo;
      ListsSnoc(xs, done, key, val, make(k, m[k]));
      xs := xs + [make(k, m[k])];
      todo, done := todo - {k}, done[k := m[k]];
    }
    assert done == m;
  }

  method ListFile(f: IndexFile) returns (l: Listing)
    requires KeyedByUsr(f)
    ensures Lists(l, f)
  {
    hide ListsMap;
    var deps := ListEntries(f.dependencies, (p: string, t: I64) => (p, t), DepKey, DepTime);
    var funcs := ListEntries(f.usr2func, (u: Usr, e: IndexFunc) => e, FuncKey, SameFunc);
    var types := ListEntries(f.usr2type, (u: Usr, e: IndexType) => e, TypeKey, SameType);
    var vars := ListEntries(f.usr2var, (u: Usr, e: IndexVar) => e, VarKey, SameVar);
    l := Listing(f.mtime, f.language, f.noLinkage, f.lid2path, f.importFile, f.args, deps, f.includes, f.skippedRanges, funcs, types, vars);
  }

  method WriteFile(l: Listing) returns (s: Bytes)
    ensures s == FileBytes(l)
  {
    hide FileBytes, ListingCodec, VarUInt, ZigZag;
    var writer := new BinaryWriter();
    writer.WriteVarInt(MAJOR_VERSION);
    writer.WriteVarInt(MINOR_VERSION);
    writer.WriteListing(l);
    FileBytesParts(l);
    s := writer.buf;
  }

  // serialize, binary format.
  method Serialize(f: IndexFile) returns (s: Bytes, ghost l: Listing)
    requires KeyedByUsr(f)
    ensures Lists(l, f) && s == FileBytes(l)
  {
    hide Lists, FileBytes;
    var listing := ListFile(f);
    s := WriteFile(listing);
    l := listing;
  }

  lemma FileBytesParts(l: Listing)
    ensures FileBytes(l) == [] + VarUInt(ZigZag(MAJOR_VERSION)) + VarUInt(ZigZag(MINOR_VERSION)) + ListingCodec().enc(l)
  {
    hide RoundTrips, PairOf, ListingCodec, VarUInt, ZigZag;
    PairEnc(I32Codec(), I32Codec(), MAJOR_VERSION, MINOR_VERSION);
    PairEnc(PairOf(I32Codec(), I32Codec()), ListingCodec(), (MAJOR_VERSION, MINOR_VERSION), l);
    assert I32Codec().enc(MAJOR_VERSION) == VarUInt(ZigZag(MAJOR_VERSION));
    assert I32Codec().enc(MINOR_VERSION) == VarUInt(ZigZag(MINOR_VERSION));
  }

  // deserialize, binary format.
  method Deserialize(path: string, s: Bytes) returns (r: Option<IndexFile>)
    ensures r == Parse(path, s)
  {
    hide FileOf, PairOf, ListingCodec, I32Codec, RoundTrips;
    if |s| < 8 { return None; }
    var reader := new BinaryReader(s);
    assert s[0..] == s;
    ParseParts(path, s);
    var major := reader.ReadI32();
    if major.PastEnd? { return None; }
    var minor := reader.ReadI32();
    if minor.PastEnd? { return None; }
    if major.value != MAJOR_VERSION || minor.value != MINOR_VERSION { return None; }
    var listing := reader.ReadListing();
    match listing
    case PastEnd => r := None;
    case Parsed(l, _) => r := Some(FileOf(path, l));
  }

  lemma PairDec<A(!new), B(!new)>(a: Codec<A>, b: Codec<B>, s: Bytes)
    ensures PairOf(a, b).dec(s) == match a.dec(s)
      case PastEnd => PastEnd
      case Parsed(x, s') => match b.dec(s')
        case PastEnd => PastEnd
        case Parsed(y, rest) => Parsed((x, y), rest)
  {
    hide RoundTrips;
  }

  lemma TripleDec<A(!new), B(!new), C(!new)>(a: Codec<A>, b: Codec<B>, c: Codec<C>, s: Bytes)
    ensures PairOf(a, PairOf(b, c)).dec(s) == match a.dec(s)
      case PastEnd => PastEnd
      case Parsed(x, s1) => match b.dec(s1)
        case PastEnd => PastEnd
        case Parsed(y, s2) => match c.dec(s2)
          case PastEnd => PastEnd
          case Parsed(z, rest) => Parsed((x, (y, z)), rest)
  {
    hide PairOf;
    PairDec(a, PairOf(b, c), s);
    if a.dec(s).Parsed? { PairDec(b, c, a.dec(s).rest); }
  }

  lemma QuadrupleDec<A(!new), B(!new), C(!new), D(!new)>(a: Codec<A>, b: Codec<B>, c: Codec<C>, d: Codec<D>, s: Bytes)
    ensures PairOf(a, PairOf(b, PairOf(c, d))).dec(s) == match a.dec(s)
      case PastEnd => PastEnd
      case Parsed(x, s1) => match b.dec(s1)
        case PastEnd => PastEnd
        case Parsed(y, s2) => match c.dec(s2)
          case PastEnd => PastEnd
          case Parsed(z, s3) => match d.dec(s3)
            case PastEnd => PastEnd
            case Parsed(w, rest) => Parsed((x, (y, (z, w))), rest)
  {
    hide PairOf;
    PairDec(a, PairOf(b, PairOf(c, d)), s);
    if a.dec(s).Parsed? { TripleDec(b, c, d, a.dec(s).rest); }
  }

  // What Parse does, part by part.
  lemma ParseParts(path: string, s: Bytes)
    requires |s| >= 8
    ensures Parse(path, s) == match I32Codec().dec(s)
      case PastEnd => None
      case Parsed(major, s1) => match I32Codec().dec(s1)
        case PastEnd => None
        case Parsed(minor, s2) =>
          if major != MAJOR_VERSION || minor != MINOR_VERSION then None
          else match ListingCodec().dec(s2)
            case PastEnd => None
            case Parsed(l, rest) => Some(FileOf(path, l))
  {
    hide FileOf, PairOf, ListingCodec, I32Codec, RoundTrips;
    PairDec(PairOf(I32Codec(), I32Codec()), ListingCodec(), s);
    PairDec(I32Codec(), I32Codec(), s);
  }
}
