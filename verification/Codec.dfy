// The binary cache format (src/serializer.hh): variable-length integers,
// strings and the type constructors, as codecs that restore what they write
// and consume exactly the bytes written.
module Codec {
  import opened Index

  type Bytes = seq<U8>

  datatype Parsed<+T> = Parsed(value: T, rest: Bytes) | PastEnd

  // How a type is written and read, and the values that survive.
  datatype Codec<!T> = Codec(enc: T -> Bytes, dec: Bytes -> Parsed<T>, ok: T -> bool)

  // Reading a written value gives it back and stops exactly behind it.
  ghost predicate Inverts<T(!new)>(c: Codec<T>) {
    forall x: T, rest: Bytes :: c.ok(x) ==> c.dec(c.enc(x) + rest) == Parsed(x, rest)
  }

  predicate IsSuffix(t: Bytes, s: Bytes) { |t| <= |s| && s[|s| - |t|..] == t }

  // Reading anything leaves the end of it.
  ghost predicate Advances<T(!new)>(c: Codec<T>) {
    forall s: Bytes :: c.dec(s).Parsed? ==> IsSuffix(c.dec(s).rest, s)
  }

  ghost predicate RoundTrips<T(!new)>(c: Codec<T>) { Inverts(c) && Advances(c) }

  lemma SuffixOfSuffix(u: Bytes, t: Bytes, s: Bytes)
    requires IsSuffix(u, t) && IsSuffix(t, s)
    ensures IsSuffix(u, s)
  {
  }

  // Every value survives.
  ghost predicate Total<T(!new)>(c: Codec<T>) { forall x: T :: c.ok(x) }

  // ---------- Fixed-width and variable-length integers ----------

  function Pow256(k: nat): nat { if k == 0 then 1 else 256 * Pow256(k - 1) }

  // The k low bytes of n, least significant first.
  function Little(n: nat, k: nat): (s: Bytes)
    ensures |s| == k
  {
    if k == 0 then [] else [n % 256] + Little(n / 256, k - 1)
  }

  function FromLittle(s: Bytes): nat { if s == [] then 0 else s[0] + 256 * FromLittle(s[1..]) }

  function GetLittle(s: Bytes, k: nat): Parsed<nat> {
    if |s| < k then PastEnd else Parsed(FromLittle(s[..k]), s[k..])
  }

  lemma {:induction false} LittleInverts(n: nat, k: nat)
    requires n < Pow256(k)
    ensures FromLittle(Little(n, k)) == n
  {
    if k > 0 {
      LittleInverts(n / 256, k - 1);
      assert Little(n, k)[1..] == Little(n / 256, k - 1);
    }
  }

  lemma GetWhatWasPut(n: nat, k: nat, rest: Bytes)
    requires n < Pow256(k)
    ensures GetLittle(Little(n, k) + rest, k) == Parsed(n, rest)
  {
    LittleInverts(n, k);
    assert (Little(n, k) + rest)[..k] == Little(n, k);
    assert (Little(n, k) + rest)[k..] == rest;
  }

  lemma FromLittleBound(s: Bytes)
    ensures FromLittle(s) < Pow256(|s|)
  {
  }

  lemma Widths()
    ensures Pow256(2) == 0x1_0000 && Pow256(4) == 0x1_0000_0000 && Pow256(8) == 0x1_0000_0000_0000_0000
  {
    assert Pow256(1) == 256 * Pow256(0);
    assert Pow256(3) == 256 * Pow256(2) && Pow256(5) == 256 * Pow256(4);
    assert Pow256(6) == 256 * Pow256(5) && Pow256(7) == 256 * Pow256(6);
  }

  // A byte below 253, or a tag and 2, 4 or 8 bytes.
  function VarUInt(n: U64): Bytes {
    if n < 253 then [n]
    else if n < 0x1_0000 then [253] + Little(n, 2)
    else if n < 0x1_0000_0000 then [254] + Little(n, 4)
    else [255] + Little(n, 8)
  }

  function GetVarUInt(s: Bytes): Parsed<nat> {
    if s == [] then PastEnd
    else if s[0] < 253 then Parsed(s[0], s[1..])
    else GetLittle(s[1..], if s[0] == 253 then 2 else if s[0] == 254 then 4 else 8)
  }

  lemma GetVarUIntBound(s: Bytes)
    ensures GetVarUInt(s).Parsed? ==> GetVarUInt(s).value < 0x1_0000_0000_0000_0000
  {
    Widths();
    hide Pow256;
    if s != [] && s[0] >= 253 {
      var k := if s[0] == 253 then 2 else if s[0] == 254 then 4 else 8;
      if |s[1..]| >= k { FromLittleBound(s[1..][..k]); }
    }
  }

  lemma GetVarUIntAdvances(s: Bytes)
    ensures GetVarUInt(s).Parsed? ==> IsSuffix(GetVarUInt(s).rest, s)
  {
    hide FromLittle;
  }

  lemma VarUIntInverts(n: U64, rest: Bytes)
    ensures GetVarUInt(VarUInt(n) + rest) == Parsed(n, rest)
  {
    Widths();
    hide Pow256, Little, FromLittle, GetLittle;
    if n < 253 {
      assert ([n] + rest)[1..] == rest;
    } else {
      var tag := if n < 0x1_0000 then 253 else if n < 0x1_0000_0000 then 254 else 255;
      var k := if n < 0x1_0000 then 2 else if n < 0x1_0000_0000 then 4 else 8;
      assert VarUInt(n) == [tag] + Little(n, k);
      assert ([tag] + Little(n, k) + rest)[1..] == Little(n, k) + rest;
      GetWhatWasPut(n, k, rest);
    }
  }

  // Byte i of a little-endian number counts 256 to the i.
  lemma {:induction false} LittleByte(n: nat, k: nat, i: nat)
    requires i < k
    ensures Pow256(i) > 0 && Little(n, k)[i] == n / Pow256(i) % 256
  {
    PowPositive(i);
    if i > 0 {
      PowPositive(i - 1);
      LittleByte(n / 256, k - 1, i - 1);
      DivTwice(n, Pow256(i - 1));
    }
  }

  lemma PowPositive(k: nat)
    ensures Pow256(k) > 0
  {
  }

  lemma DivTwice(n: nat, b: nat)
    requires b > 0
    ensures 256 * b > 0 && n / 256 / b == n / (256 * b)
  {
    var q, r := n / 256 / b, n / 256 % b;
    assert n / 256 == q * b + r;
    assert n == 256 * (q * b + r) + n % 256 == q * (256 * b) + (256 * r + n % 256);
    assert 256 * r + n % 256 < 256 * b;
    DivIs(n, 256 * b, q, 256 * r + n % 256);
  }

  lemma DivIs(n: nat, d: nat, q: nat, r: nat)
    requires d > 0 && n == q * d + r && r < d
    ensures n / d == q
  {
    var e := n / d;
    assert n == e * d + n % d;
    if e < q { Farther(e, q, d); }
    if e > q { Farther(q, e, d); }
  }

  lemma Farther(a: nat, b: nat, d: nat)
    requires a < b
    ensures a * d + d <= b * d
  {
    assert (a + 1) * d <= b * d;
  }

  // The shortest of the four forms, told apart by the first byte.
  lemma VarUIntForm(n: U64)
    ensures VarUInt(n) != []
    ensures n < 253 <==> VarUInt(n) == [n]
    ensures n >= 253 ==> VarUInt(n)[0] == if n < 0x1_0000 then 253 else if n < 0x1_0000_0000 then 254 else 255
    ensures n >= 253 ==> |VarUInt(n)| == if n < 0x1_0000 then 3 else if n < 0x1_0000_0000 then 5 else 9
    ensures n >= 253 ==> forall i :: 0 <= i < |VarUInt(n)| - 1 ==> Pow256(i) > 0 && VarUInt(n)[i + 1] == n / Pow256(i) % 256
  {
    hide Little, Pow256;
    forall i: nat, k: nat | i < k
      ensures Pow256(i) > 0 && Little(n, k)[i] == n / Pow256(i) % 256
    {
      PowPositive(i);
      LittleByte(n, k, i);
    }
  }

  const TWO_64 := 0x1_0000_0000_0000_0000

  function ToI64(x: int): I64 { (x + 0x8000_0000_0000_0000) % TWO_64 - 0x8000_0000_0000_0000 }
  function ToI32(x: int): I32 { (x + 0x8000_0000) % 0x1_0000_0000 - 0x8000_0000 }

  // uint64_t(n) << 1 ^ n >> 63: the second operand is all zeros or all ones.
  function ZigZag(n: I64): U64 {
    var shifted := (n % TWO_64) * 2 % TWO_64;
    if n < 0 then TWO_64 - 1 - shifted else shifted
  }

  // int64_t(x >> 1 ^ -(x & 1))
  function ZagZig(x: U64): I64 {
    ToI64(if x % 2 == 1 then TWO_64 - 1 - x / 2 else x / 2)
  }

  lemma Wraps(x: int, q: int, r: int)
    requires x == q * TWO_64 + r && 0 <= r < TWO_64
    ensures x % TWO_64 == r
  {
  }

  // Small magnitudes stay small.
  lemma ZigZagValue(n: I64)
    ensures ZigZag(n) == if n < 0 then -2 * n - 1 else 2 * n
  {
    if n < 0 {
      Wraps(n, -1, n + TWO_64);
      Wraps((n + TWO_64) * 2, 1, 2 * n + TWO_64);
    } else {
      Wraps(n, 0, n);
      Wraps(n * 2, 0, n * 2);
    }
  }

  lemma ZagZigValue(x: U64)
    ensures ZagZig(x) == if x % 2 == 1 then -(x / 2) - 1 else x / 2
  {
    var h := x / 2;
    if x % 2 == 1 {
      Wraps(TWO_64 - 1 - h + 0x8000_0000_0000_0000, 1, 0x8000_0000_0000_0000 - 1 - h);
    } else {
      Wraps(h + 0x8000_0000_0000_0000, 0, h + 0x8000_0000_0000_0000);
    }
  }

  // Zigzag is a bijection between the signed and the unsigned 64-bit integers.
  lemma ZigZagInverts(n: I64, x: U64)
    ensures ZagZig(ZigZag(n)) == n
    ensures ZigZag(ZagZig(x)) == x
  {
    ZigZagValue(n);
    ZagZigValue(ZigZag(n));
    ZagZigValue(x);
    ZigZagValue(ZagZig(x));
    hide ZigZag, ZagZig;
  }

  // ---------- Basic types ----------

  function Unsigned<T(!new)>(narrow: nat -> T, widen: T -> U64): (c: Codec<T>)
    ensures (forall x: T :: narrow(widen(x)) == x) ==> RoundTrips(c)
    ensures Total(c)
  {
    UnsignedRoundTrips(narrow, widen);
    UnsignedCodec(narrow, widen)
  }

  function UnsignedCodec<T>(narrow: nat -> T, widen: T -> U64): Codec<T> {
    Codec(x => VarUInt(widen(x)),
          (s: Bytes) => match GetVarUInt(s) case PastEnd => PastEnd case Parsed(n, rest) => Parsed(narrow(n), rest),
          x => true)
  }

  // Signed integers are narrowed on reading.
  function Signed<T(!new)>(narrow: int -> T, widen: T -> I64): (c: Codec<T>)
    ensures (forall x: T :: narrow(widen(x)) == x) ==> RoundTrips(c)
    ensures Total(c)
  {
    SignedRoundTrips(narrow, widen);
    SignedCodec(narrow, widen)
  }

  function SignedCodec<T>(narrow: int -> T, widen: T -> I64): Codec<T> {
    Codec(x => VarUInt(ZigZag(widen(x))),
          (s: Bytes) => match GetVarUInt(s) case PastEnd => PastEnd case Parsed(n, rest) => Parsed(narrow(if n < TWO_64 then ZagZig(n) else 0), rest),
          x => true)
  }

  lemma UnsignedRoundTrips<T(!new)>(narrow: nat -> T, widen: T -> U64)
    ensures (forall x: T :: narrow(widen(x)) == x) ==> RoundTrips(UnsignedCodec(narrow, widen))
  {
    hide VarUInt, GetVarUInt;
    var c := UnsignedCodec(narrow, widen);
    forall x: T, rest: Bytes
      ensures narrow(widen(x)) == x ==> c.dec(c.enc(x) + rest) == Parsed(x, rest)
    {
      VarUIntInverts(widen(x), rest);
    }
    forall s: Bytes
      ensures c.dec(s).Parsed? ==> IsSuffix(c.dec(s).rest, s)
    {
      GetVarUIntAdvances(s);
    }
  }

  lemma SignedRoundTrips<T(!new)>(narrow: int -> T, widen: T -> I64)
    ensures (forall x: T :: narrow(widen(x)) == x) ==> RoundTrips(SignedCodec(narrow, widen))
  {
    hide VarUInt, GetVarUInt, ZigZag, ZagZig;
    var c := SignedCodec(narrow, widen);
    forall x: T, rest: Bytes
      ensures narrow(widen(x)) == x ==> c.dec(c.enc(x) + rest) == Parsed(x, rest)
    {
      var n := widen(x);
      VarUIntInverts(ZigZag(n), rest);
      ZigZagInverts(n, 0);
    }
    forall s: Bytes
      ensures c.dec(s).Parsed? ==> IsSuffix(c.dec(s).rest, s)
    {
      GetVarUIntAdvances(s);
    }
  }

  function ByteCodec(): (c: Codec<U8>)
    ensures RoundTrips(c) && Total(c)
  {
    assert forall b: U8, rest: Bytes :: ([b] + rest)[1..] == rest;
    Codec(b => [b], (s: Bytes) => if s == [] then PastEnd else Parsed(s[0], s[1..]), b => true)
  }

  function BoolCodec(): (c: Codec<bool>)
    ensures RoundTrips(c) && Total(c)
  {
    assert forall b: U8, rest: Bytes :: ([b] + rest)[1..] == rest;
    Codec(b => [if b then 1 else 0], (s: Bytes) => if s == [] then PastEnd else Parsed(s[0] != 0, s[1..]), b => true)
  }

  // The characters of a C string.
  predicate Text(s: string) { forall i :: 0 <= i < |s| ==> 0 < s[i] as int < 256 }

  function StringBytes(s: string): Bytes { seq(|s|, i requires 0 <= i < |s| => s[i] as int % 256) + [0] }

  function GetString(s: Bytes): Parsed<string> {
    if s == [] then PastEnd
    else if s[0] == 0 then Parsed("", s[1..])
    else match GetString(s[1..])
      case PastEnd => PastEnd
      case Parsed(t, rest) => Parsed([s[0] as char] + t, rest)
  }

  function StringCodec(): (c: Codec<string>)
    ensures RoundTrips(c) && forall t: string :: c.ok(t) <==> Text(t)
  {
    StringsInvert();
    StringsAdvance();
    Codec((t: string) => StringBytes(t), (s: Bytes) => GetString(s), (t: string) => Text(t))
  }

  lemma StringBytesStep(t: string, rest: Bytes)
    requires t != "" && Text(t)
    ensures StringBytes(t) + rest == [t[0] as int] + (StringBytes(t[1..]) + rest)
  {
    assert StringBytes(t)[1..] == StringBytes(t[1..]);
    assert StringBytes(t) == [t[0] as int] + StringBytes(t)[1..];
  }

  lemma GetStringStep(b: U8, s: Bytes)
    requires b != 0
    ensures GetString([b] + s) == match GetString(s) case PastEnd => PastEnd case Parsed(t, rest) => Parsed([b as char] + t, rest)
  {
    assert ([b] + s)[1..] == s;
  }

  lemma {:induction false} StringInverts(t: string, rest: Bytes)
    requires Text(t)
    ensures GetString(StringBytes(t) + rest) == Parsed(t, rest)
  {
    if t == "" {
      assert (StringBytes(t) + rest)[1..] == rest;
    } else {
      StringInverts(t[1..], rest);
      StringBytesStep(t, rest);
      hide StringBytes;
      GetStringStep(t[0] as int, StringBytes(t[1..]) + rest);
      hide GetString;
      assert [t[0]] + t[1..] == t;
    }
  }

  lemma {:induction false} GetStringAdvances(s: Bytes)
    ensures GetString(s).Parsed? ==> IsSuffix(GetString(s).rest, s)
  {
    if s != [] && s[0] != 0 {
      GetStringAdvances(s[1..]);
      if GetString(s[1..]).Parsed? { SuffixOfSuffix(GetString(s[1..]).rest, s[1..], s); }
    }
  }

  lemma StringsAdvance()
    ensures forall s: Bytes :: GetString(s).Parsed? ==> IsSuffix(GetString(s).rest, s)
  {
    forall s: Bytes
      ensures GetString(s).Parsed? ==> IsSuffix(GetString(s).rest, s)
    {
      GetStringAdvances(s);
    }
  }

  lemma StringsInvert()
    ensures forall t: string, rest: Bytes :: Text(t) ==> GetString(StringBytes(t) + rest) == Parsed(t, rest)
  {
    forall t: string, rest: Bytes | Text(t)
      ensures GetString(StringBytes(t) + rest) == Parsed(t, rest)
    {
      StringInverts(t, rest);
    }
  }

  lemma BasicsRoundTrip()
    ensures RoundTrips(ByteCodec()) && RoundTrips(BoolCodec()) && RoundTrips(StringCodec())
    ensures Total(ByteCodec()) && Total(BoolCodec())
  {
  }

  // ---------- Type constructors ----------

  function PairOf<A(!new), B(!new)>(a: Codec<A>, b: Codec<B>): (c: Codec<(A, B)>)
    ensures RoundTrips(a) && RoundTrips(b) ==> RoundTrips(c)
    ensures Total(a) && Total(b) ==> Total(c)
    ensures forall p: (A, B) :: c.ok(p) <==> a.ok(p.0) && b.ok(p.1)
  {
    PairRoundTrips(a, b);
    PairCodec(a, b)
  }

  function PairCodec<A, B>(a: Codec<A>, b: Codec<B>): Codec<(A, B)> {
    Codec((p: (A, B)) => a.enc(p.0) + b.enc(p.1),
          (s: Bytes) => match a.dec(s)
            case PastEnd => PastEnd
            case Parsed(x, s') => match b.dec(s')
              case PastEnd => PastEnd
              case Parsed(y, rest) => Parsed((x, y), rest),
          (p: (A, B)) => a.ok(p.0) && b.ok(p.1))
  }

  lemma PairRoundTrips<A(!new), B(!new)>(a: Codec<A>, b: Codec<B>)
    ensures RoundTrips(a) && RoundTrips(b) ==> RoundTrips(PairCodec(a, b))
    ensures Total(a) && Total(b) ==> Total(PairCodec(a, b))
  {
    var c := PairCodec(a, b);
    assert forall p: (A, B) :: c.ok(p) <==> a.ok(p.0) && b.ok(p.1);
    if RoundTrips(a) && RoundTrips(b) {
      PairInverts(a, b);
      PairAdvances(a, b);
    }
  }

  lemma PairInverts<A(!new), B(!new)>(a: Codec<A>, b: Codec<B>)
    requires Inverts(a) && Inverts(b)
    ensures Inverts(PairCodec(a, b))
  {
    var c := PairCodec(a, b);
    forall p: (A, B), rest: Bytes | c.ok(p)
      ensures c.dec(c.enc(p) + rest) == Parsed(p, rest)
    {
      assert c.enc(p) + rest == a.enc(p.0) + (b.enc(p.1) + rest);
      assert a.dec(a.enc(p.0) + (b.enc(p.1) + rest)) == Parsed(p.0, b.enc(p.1) + rest);
      assert b.dec(b.enc(p.1) + rest) == Parsed(p.1, rest);
    }
  }

  lemma PairAdvances<A(!new), B(!new)>(a: Codec<A>, b: Codec<B>)
    requires Advances(a) && Advances(b)
    ensures Advances(PairCodec(a, b))
  {
    var c := PairCodec(a, b);
    hide IsSuffix;
    forall s: Bytes | c.dec(s).Parsed?
      ensures IsSuffix(c.dec(s).rest, s)
    {
      var s' := a.dec(s).rest;
      SuffixOfSuffix(b.dec(s').rest, s', s);
    }
  }

  function EncAll<T>(c: Codec<T>, xs: seq<T>): Bytes {
    if xs == [] then [] else EncAll(c, xs[..|xs| - 1]) + c.enc(xs[|xs| - 1])
  }

  function DecAll<T>(c: Codec<T>, n: nat, s: Bytes): Parsed<seq<T>> {
    if n == 0 then Parsed([], s)
    else match DecAll(c, n - 1, s)
      case PastEnd => PastEnd
      case Parsed(xs, s') => match c.dec(s')
        case PastEnd => PastEnd
        case Parsed(x, rest) => Parsed(xs + [x], rest)
  }

  lemma {:induction false} AllInverts<T(!new)>(c: Codec<T>, xs: seq<T>, rest: Bytes)
    requires Inverts(c) && forall i :: 0 <= i < |xs| ==> c.ok(xs[i])
    ensures DecAll(c, |xs|, EncAll(c, xs) + rest) == Parsed(xs, rest)
  {
    if xs == [] {
      assert EncAll(c, xs) + rest == rest;
    } else {
      var front, last := xs[..|xs| - 1], xs[|xs| - 1];
      AllInverts(c, front, c.enc(last) + rest);
      assert EncAll(c, xs) + rest == EncAll(c, front) + (c.enc(last) + rest);
      assert c.dec(c.enc(last) + rest) == Parsed(last, rest);
      assert xs == front + [last];
    }
  }

  lemma {:induction false} AllAdvances<T(!new)>(c: Codec<T>, n: nat, s: Bytes)
    requires Advances(c)
    ensures DecAll(c, n, s).Parsed? ==> IsSuffix(DecAll(c, n, s).rest, s)
  {
    if n > 0 {
      AllAdvances(c, n - 1, s);
      var front := DecAll(c, n - 1, s);
      if front.Parsed? && c.dec(front.rest).Parsed? { SuffixOfSuffix(c.dec(front.rest).rest, front.rest, s); }
    }
  }

  // A vector: its size, then its elements.
  function VectorOf<T(!new)>(c: Codec<T>): (v: Codec<seq<T>>)
    ensures RoundTrips(c) ==> RoundTrips(v)
    ensures forall xs: seq<T> :: v.ok(xs) <==> |xs| < TWO_64 && forall i :: 0 <= i < |xs| ==> c.ok(xs[i])
  {
    VectorRoundTrips(c);
    VectorCodec(c)
  }

  function VectorCodec<T>(c: Codec<T>): Codec<seq<T>> {
    Codec((xs: seq<T>) => if |xs| < TWO_64 then VarUInt(|xs|) + EncAll(c, xs) else [],
          (s: Bytes) => match GetVarUInt(s)
            case PastEnd => PastEnd
            case Parsed(n, s') => DecAll(c, n, s'),
          (xs: seq<T>) => |xs| < TWO_64 && forall i :: 0 <= i < |xs| ==> c.ok(xs[i]))
  }

  lemma VectorRoundTrips<T(!new)>(c: Codec<T>)
    ensures RoundTrips(c) ==> RoundTrips(VectorCodec(c))
  {
    if RoundTrips(c) {
      VectorInverts(c);
      VectorAdvances(c);
    }
  }

  lemma VectorInverts<T(!new)>(c: Codec<T>)
    requires Inverts(c)
    ensures Inverts(VectorCodec(c))
  {
    var v := VectorCodec(c);
    hide VarUInt, GetVarUInt, EncAll, DecAll, Inverts;
    forall xs: seq<T>, rest: Bytes | v.ok(xs)
      ensures v.dec(v.enc(xs) + rest) == Parsed(xs, rest)
    {
      VarUIntInverts(|xs|, EncAll(c, xs) + rest);
      AllInverts(c, xs, rest);
      assert v.enc(xs) + rest == VarUInt(|xs|) + (EncAll(c, xs) + rest);
    }
    InvertsFrom(v);
  }

  lemma VectorAdvances<T(!new)>(c: Codec<T>)
    requires Advances(c)
    ensures Advances(VectorCodec(c))
  {
    var v := VectorCodec(c);
    hide GetVarUInt, DecAll, IsSuffix;
    forall s: Bytes | v.dec(s).Parsed?
      ensures IsSuffix(v.dec(s).rest, s)
    {
      var size := GetVarUInt(s);
      GetVarUIntAdvances(s);
      AllAdvances(c, size.value, size.rest);
      SuffixOfSuffix(v.dec(s).rest, size.rest, s);
    }
  }

  lemma InvertsFrom<T(!new)>(c: Codec<T>)
    requires forall x: T, rest: Bytes :: c.ok(x) ==> c.dec(c.enc(x) + rest) == Parsed(x, rest)
    ensures Inverts(c)
  {
  }

  // An optional value that is absent when invalid: a flag, then the value.
  function MaybeOf<T(==, !new)>(c: Codec<T>, valid: T -> bool, none: T): (m: Codec<T>)
    ensures RoundTrips(c) ==> RoundTrips(m)
    ensures forall x: T :: m.ok(x) <==> if valid(x) then c.ok(x) else x == none
  {
    MaybeRoundTrips(c, valid, none);
    MaybeCodec(c, valid, none)
  }

  function MaybeCodec<T(==)>(c: Codec<T>, valid: T -> bool, none: T): Codec<T> {
    Codec(x => if valid(x) then [1] + c.enc(x) else [0],
          (s: Bytes) => if s == [] then PastEnd else if s[0] != 0 then c.dec(s[1..]) else Parsed(none, s[1..]),
          x => if valid(x) then c.ok(x) else x == none)
  }

  lemma MaybeRoundTrips<T(!new)>(c: Codec<T>, valid: T -> bool, none: T)
    ensures RoundTrips(c) ==> RoundTrips(MaybeCodec(c, valid, none))
  {
    var m := MaybeCodec(c, valid, none);
    forall x: T, rest: Bytes | RoundTrips(c) && m.ok(x)
      ensures m.dec(m.enc(x) + rest) == Parsed(x, rest)
    {
      if valid(x) {
        assert ([1] + c.enc(x) + rest)[1..] == c.enc(x) + rest;
      } else {
        assert ([0] + rest)[1..] == rest;
      }
    }
    forall s: Bytes | RoundTrips(c) && m.dec(s).Parsed?
      ensures IsSuffix(m.dec(s).rest, s)
    {
      if s[0] != 0 { SuffixOfSuffix(m.dec(s).rest, s[1..], s); }
    }
  }

  // A record, written as nested pairs of its fields.
  function RecordOf<A(!new), B(!new)>(c: Codec<A>, to: A -> B, from: B -> A): (r: Codec<B>)
    ensures RoundTrips(c) && (forall b: B :: to(from(b)) == b) ==> RoundTrips(r)
    ensures Total(c) ==> Total(r)
    ensures forall b: B :: r.ok(b) <==> c.ok(from(b))
  {
    Codec(b => c.enc(from(b)),
          (s: Bytes) => match c.dec(s) case PastEnd => PastEnd case Parsed(x, rest) => Parsed(to(x), rest),
          b => c.ok(from(b)))
  }
}
