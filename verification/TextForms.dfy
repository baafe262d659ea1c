// The textual forms of positions and references (src/position.cc,
// src/indexer.cc): decimal numbers with separators, parsed from the front.
module TextForms {
  import opened Index
  import opened Codec

  // ---------- Decimal numbers ----------

  predicate IsDigit(c: char) { '0' <= c <= '9' }
  function DigitOf(d: nat): char
    requires d < 10
  {
    ('0' as int + d) as char
  }

  function Digits(n: nat): string {
    if n < 10 then [DigitOf(n)] else Digits(n / 10) + [DigitOf(n % 10)]
  }

  function Decimal(n: int): string { if n < 0 then "-" + Digits(-n) else Digits(n) }

  // Reads digits onto acc; stops at the first other character.
  function Scan(s: string, acc: nat): (nat, string)
    decreases |s|
  {
    if s != "" && IsDigit(s[0]) then Scan(s[1..], 10 * acc + (s[0] as int - '0' as int)) else (acc, s)
  }

  // The decimal number in front and where it ends, which is where it began if there
  // is none.
  function ParseInt(s: string): (int, string) {
    var t := SkipSpaces(s);
    var negative := t != "" && t[0] == '-';
    var digits := if t != "" && (t[0] == '-' || t[0] == '+') then t[1..] else t;
    if digits == "" || !IsDigit(digits[0]) then (0, s)
    else
      var (v, rest) := Scan(digits, 0);
      (if negative then 0 - v else v, rest)
  }

  // Space, and tab to carriage return.
  predicate IsSpace(c: char) { c == ' ' || 9 <= c as int <= 13 }

  function SkipSpaces(s: string): string
    decreases |s|
  {
    if s != "" && IsSpace(s[0]) then SkipSpaces(s[1..]) else s
  }

  // Numbers outside the signed 64-bit integers become the nearest of them.
  function Long(n: int): I64 {
    if n < -0x8000_0000_0000_0000 then -0x8000_0000_0000_0000
    else if n > 0x7fff_ffff_ffff_ffff then 0x7fff_ffff_ffff_ffff
    else n
  }

  // Negated numbers wrap around, too large ones become the greatest.
  function ULong(n: int): U64 { if -TWO_64 < n < TWO_64 then n % TWO_64 else TWO_64 - 1 }

  // strtol in base 10, and strtoul and strtoull.
  function ParseLong(s: string): (I64, string) { var (n, rest) := ParseInt(s); (Long(n), rest) }
  function ParseULong(s: string): (U64, string) { var (n, rest) := ParseInt(s); (ULong(n), rest) }

  method Strtol(s: string, p0: nat) returns (v: I64, p: nat)
    requires p0 <= |s|
    ensures p0 <= p <= |s| && (v, s[p..]) == ParseLong(s[p0..])
  {
    var n;
    n, p := ScanInt(s, p0);
    v := if n < -0x8000_0000_0000_0000 then -0x8000_0000_0000_0000 else if n > 0x7fff_ffff_ffff_ffff then 0x7fff_ffff_ffff_ffff else n;
  }

  method Strtoul(s: string, p0: nat) returns (v: U64, p: nat)
    requires p0 <= |s|
    ensures p0 <= p <= |s| && (v, s[p..]) == ParseULong(s[p0..])
  {
    var n;
    n, p := ScanInt(s, p0);
    v := if n <= -TWO_64 || n >= TWO_64 then TWO_64 - 1 else if n < 0 then n + TWO_64 else n;
  }

  // With a pointer moving over the text.
  method ScanInt(s: string, p0: nat) returns (v: int, p: nat)
    requires p0 <= |s|
    ensures p0 <= p <= |s| && (v, s[p..]) == ParseInt(s[p0..])
  {
    p := p0;
    while p < |s| && IsSpace(s[p])
      invariant p0 <= p <= |s| && SkipSpaces(s[p..]) == SkipSpaces(s[p0..])
    {
      assert s[p..][1..] == s[p + 1..];
      p := p + 1;
    }
    var negative := p < |s| && s[p] == '-';
    if p < |s| && (s[p] == '-' || s[p] == '+') {
      assert s[p..][1..] == s[p + 1..];
      p := p + 1;
    }
    if p == |s| || !IsDigit(s[p]) { return 0, p0; }
    v := 0;
    ghost var start := p;
    while p < |s| && IsDigit(s[p])
      invariant start <= p <= |s| && v >= 0 && Scan(s[p..], v) == Scan(s[start..], 0)
    {
      assert s[p..][1..] == s[p + 1..];
      v, p := 10 * v + (s[p] as int - '0' as int), p + 1;
    }
    if negative { v := -v; }
  }

  predicate AllDigits(s: string) { forall i :: 0 <= i < |s| ==> IsDigit(s[i]) }

  // No digit at the front.
  predicate Stops(s: string) { s == "" || !IsDigit(s[0]) }

  lemma {:induction false} ScanOver(a: string, rest: string, acc: nat, d: nat)
    requires AllDigits(a) && d < 10
    ensures Scan(a + [DigitOf(d)] + rest, acc) == Scan(rest, 10 * Scan(a, acc).0 + d)
    decreases |a|
  {
    if a == "" {
      assert ([DigitOf(d)] + rest)[1..] == rest;
      assert a + [DigitOf(d)] + rest == [DigitOf(d)] + rest;
    } else {
      var acc' := 10 * acc + (a[0] as int - '0' as int);
      ScanOver(a[1..], rest, acc', d);
      assert (a + [DigitOf(d)] + rest)[1..] == a[1..] + [DigitOf(d)] + rest;
    }
  }

  lemma {:induction false} DigitsScan(n: nat, rest: string)
    requires Stops(rest)
    ensures AllDigits(Digits(n)) && Scan(Digits(n) + rest, 0) == (n, rest) && Scan(Digits(n), 0).0 == n
  {
    var front := if n < 10 then "" else Digits(n / 10);
    var d := n % 10;
    if n >= 10 { DigitsScan(n / 10, ""); }
    assert Digits(n) == front + [DigitOf(d)];
    ScanOver(front, rest, 0, d);
    ScanOver(front, "", 0, d);
    assert front + [DigitOf(d)] + "" == Digits(n);
  }

  // Printed numbers parse back, up to the separator.
  lemma DecimalParses(n: int, rest: string)
    requires Stops(rest)
    ensures ParseInt(Decimal(n) + rest) == (n, rest)
  {
    var m := if n < 0 then -n else n;
    DigitsScan(m, rest);
    DigitsFirst(m);
    var t := Decimal(n) + rest;
    assert n < 0 ==> t[1..] == Digits(m) + rest;
    hide Digits, Scan;
  }

  lemma LongParses(n: I64, rest: string)
    requires Stops(rest)
    ensures ParseLong(Decimal(n) + rest) == (n, rest)
  {
    DecimalParses(n, rest);
  }

  lemma ULongParses(n: U64, rest: string)
    requires Stops(rest)
    ensures ParseULong(Decimal(n) + rest) == (n, rest)
  {
    DecimalParses(n, rest);
  }

  lemma DigitsFirst(n: nat)
    ensures Digits(n) != "" && IsDigit(Digits(n)[0])
  {
  }

  // ---------- Positions and ranges ----------

  function PosText(p: Pos): string { Decimal(p.line + 1) + ":" + Decimal(p.column + 1) }

  function RangeText(r: Range): string { PosText(r.start) + "-" + PosText(r.end) }

  function ToU16(x: int): U16 { x % 0x1_0000 }

  datatype Parse<+T> = Good(value: T, rest: string) | Bad

  // Pos::fromString up to where it stops; a missing separator is an error. The
  // column is narrowed before and after subtracting one.
  function ParsePos(s: string): Parse<Pos> {
    var (line, s1) := ParseULong(s);
    if s1 == "" || s1[0] != ':' then Bad
    else
      var (column, s2) := ParseLong(s1[1..]);
      Good(Pos(ToU16(line - 1), ToI16(ToI16(column) - 1)), s2)
  }

  function ParseRange(s: string): Parse<Range> {
    match ParsePos(s)
    case Bad => Bad
    case Good(start, s1) =>
      if s1 == "" || s1[0] != '-' then Bad
      else match ParsePos(s1[1..])
        case Bad => Bad
        case Good(end, rest) => Good(Range(start, end), rest)
  }

  lemma PosParses(p: Pos, rest: string)
    requires Stops(rest)
    ensures ParsePos(PosText(p) + rest) == Good(p, rest)
  {
    hide Decimal, ParseLong, ParseULong;
    var line, column := Decimal(p.line + 1), Decimal(p.column + 1);
    assert PosText(p) + rest == line + ([':'] + (column + rest));
    assert ([':'] + (column + rest))[1..] == column + rest;
    ULongParses(p.line + 1, [':'] + (column + rest));
    LongParses(p.column + 1, rest);
    Narrow(p);
  }

  // The narrowing brings back every 16-bit line and column.
  lemma Narrow(p: Pos)
    ensures ToU16(p.line + 1 - 1) == p.line && ToI16(ToI16(p.column + 1) - 1) == p.column
  {
  }

  lemma RangeParses(r: Range, rest: string)
    requires Stops(rest)
    ensures ParseRange(RangeText(r) + rest) == Good(r, rest)
  {
    hide PosText, ParsePos;
    var a, b := PosText(r.start), PosText(r.end);
    assert RangeText(r) + rest == a + (['-'] + (b + rest));
    assert (['-'] + (b + rest))[1..] == b + rest;
    PosParses(r.start, ['-'] + (b + rest));
    PosParses(r.end, rest);
  }

  // ---------- References ----------

  function UseText(u: Use): string { RangeText(u.range) + "|" + Decimal(u.role) + "|" + Decimal(u.fileId) }

  function DeclText(d: DeclRef): string {
    RangeText(d.use.range) + "|" + RangeText(d.extent) + "|" + Decimal(d.use.role) + "|" + Decimal(d.use.fileId)
  }

  function SymbolText(s: SymbolRef): string {
    RangeText(s.range) + "|" + Decimal(s.usr) + "|" + Decimal(s.kind) + "|" + Decimal(s.role)
  }

  // strchr(s, '|')
  function FromBar(s: string): string { if s == "" || s[0] == '|' then s else FromBar(s[1..]) }

  predicate NoBar(s: string) { forall i :: 0 <= i < |s| ==> s[i] != '|' }

  lemma {:induction false} BarFound(a: string, b: string)
    requires NoBar(a)
    ensures FromBar(a + (['|'] + b)) == ['|'] + b
  {
    if a == "" {
      assert a + (['|'] + b) == ['|'] + b;
    } else {
      BarFound(a[1..], b);
      assert (a + (['|'] + b))[1..] == a[1..] + (['|'] + b);
    }
  }

  lemma {:induction false} DigitsNoBar(n: nat)
    ensures NoBar(Digits(n))
  {
    if n >= 10 { DigitsNoBar(n / 10); }
  }

  lemma RangeNoBar(r: Range)
    ensures NoBar(RangeText(r))
  {
    forall n: int
      ensures NoBar(Decimal(n))
    {
      DigitsNoBar(if n < 0 then -n else n);
    }
    hide Decimal;
  }

  // The number after the separator at the front.
  function NextLong(s: string): (I64, string) { if s == "" then (0, "") else ParseLong(s[1..]) }
  function NextULong(s: string): (U64, string) { if s == "" then (0, "") else ParseULong(s[1..]) }

  lemma NextLongParses(n: I64, rest: string)
    requires Stops(rest)
    ensures NextLong(['|'] + (Decimal(n) + rest)) == (n, rest)
  {
    assert (['|'] + (Decimal(n) + rest))[1..] == Decimal(n) + rest;
    LongParses(n, rest);
  }

  lemma NextULongParses(n: U64, rest: string)
    requires Stops(rest)
    ensures NextULong(['|'] + (Decimal(n) + rest)) == (n, rest)
  {
    assert (['|'] + (Decimal(n) + rest))[1..] == Decimal(n) + rest;
    ULongParses(n, rest);
  }

  function ParseUse(t: string): Parse<Use> {
    match ParseRange(t)
    case Bad => Bad
    case Good(range, _) =>
      var (role, s1) := NextLong(FromBar(t));
      var (fileId, s2) := NextLong(s1);
      Good(Use(range, ToU16(role), ToI32(fileId)), s2)
  }

  function ParseDecl(t: string): Parse<DeclRef> {
    match ParseRange(t)
    case Bad => Bad
    case Good(range, _) =>
      var s := FromBar(t);
      if s == "" then Bad
      else match ParseRange(s[1..])
        case Bad => Bad
        case Good(extent, _) =>
          var (role, s1) := NextLong(FromBar(s[1..]));
          var (fileId, s2) := NextLong(s1);
          Good(DeclRef(Use(range, ToU16(role), ToI32(fileId)), extent), s2)
  }

  function ParseSymbol(t: string): Parse<SymbolRef> {
    match ParseRange(t)
    case Bad => Bad
    case Good(range, _) =>
      var (usr, s1) := NextULong(FromBar(t));
      var (kind, s2) := NextLong(s1);
      var (role, s3) := NextLong(s2);
      Good(SymbolRef(range, usr, (kind % 0x100) as U8, ToU16(role)), s3)
  }

  lemma UseParses(u: Use)
    ensures ParseUse(UseText(u)) == Good(u, "")
  {
    hide RangeText, ParseRange, Decimal, ParseInt, NextLong, NextULong;
    var s2 := ['|'] + (Decimal(u.fileId) + "");
    var s1 := ['|'] + (Decimal(u.role) + s2);
    assert UseText(u) == RangeText(u.range) + s1;
    RangeParses(u.range, s1);
    RangeNoBar(u.range);
    BarFound(RangeText(u.range), Decimal(u.role) + s2);
    NextLongParses(u.role, s2);
    NextLongParses(u.fileId, "");
  }

  lemma DeclParses(d: DeclRef)
    ensures ParseDecl(DeclText(d)) == Good(d, "")
  {
    hide RangeText, ParseRange, Decimal, ParseInt, NextLong, NextULong;
    var s3 := ['|'] + (Decimal(d.use.fileId) + "");
    var s2 := ['|'] + (Decimal(d.use.role) + s3);
    var inner := RangeText(d.extent) + s2;
    var s1 := ['|'] + inner;
    assert DeclText(d) == RangeText(d.use.range) + s1;
    RangeParses(d.use.range, s1);
    RangeNoBar(d.use.range);
    BarFound(RangeText(d.use.range), inner);
    assert s1[1..] == inner;
    RangeParses(d.extent, s2);
    RangeNoBar(d.extent);
    BarFound(RangeText(d.extent), Decimal(d.use.role) + s3);
    NextLongParses(d.use.role, s3);
    NextLongParses(d.use.fileId, "");
  }

  lemma SymbolParses(s: SymbolRef)
    ensures ParseSymbol(SymbolText(s)) == Good(s, "")
  {
    hide RangeText, ParseRange, Decimal, ParseInt, NextLong, NextULong;
    var s3 := ['|'] + (Decimal(s.role) + "");
    var s2 := ['|'] + (Decimal(s.kind) + s3);
    var s1 := ['|'] + (Decimal(s.usr) + s2);
    assert SymbolText(s) == RangeText(s.range) + s1;
    RangeParses(s.range, s1);
    RangeNoBar(s.range);
    BarFound(RangeText(s.range), Decimal(s.usr) + s2);
    NextULongParses(s.usr, s2);
    NextLongParses(s.kind, s3);
    NextLongParses(s.role, "");
  }
}
