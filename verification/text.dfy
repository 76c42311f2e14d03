/**
 * String primitives the core relies on, written out so that the model can reason
 * about them: ASCII case mapping, Go's `strings` prefix/suffix/split/trim
 * functions, decimal rendering (`%d`) and the integer scanning of `fmt.Sscanf`.
 */
module Text {
  import opened Wrappers

  // ---------------------------------------------------------------- case mapping

  function LowerChar(c: char): char {
    if 'A' <= c <= 'Z' then (c as int + 32) as char else c
  }

  function UpperChar(c: char): char {
    if 'a' <= c <= 'z' then (c as int - 32) as char else c
  }

  /** `toLowerCase` / `strings.ToLower`, restricted to the ASCII letters. */
  function ToLower(s: string): (r: string)
    ensures |r| == |s|
  {
    seq(|s|, i requires 0 <= i < |s| => LowerChar(s[i]))
  }

  /** `toUpperCase` / `strings.ToUpper`, restricted to the ASCII letters. */
  function ToUpper(s: string): (r: string)
    ensures |r| == |s|
  {
    seq(|s|, i requires 0 <= i < |s| => UpperChar(s[i]))
  }

  // ------------------------------------------------------ prefixes and suffixes

  predicate HasPrefix(s: string, p: string) {
    |p| <= |s| && s[..|p|] == p
  }

  predicate HasSuffix(s: string, p: string) {
    |p| <= |s| && s[|s| - |p|..] == p
  }

  /** `strings.TrimPrefix`: drops `p` once when `s` starts with it. */
  function TrimPrefix(s: string, p: string): (r: string)
    ensures HasPrefix(s, p) ==> s == p + r
    ensures !HasPrefix(s, p) ==> r == s
  {
    if HasPrefix(s, p) then s[|p|..] else s
  }

  // ------------------------------------------------------------------- search

  predicate OccursAt(s: string, sub: string, j: int) {
    0 <= j && j + |sub| <= |s| && s[j..j + |sub|] == sub
  }

  /** The first index at or after `i` where `sub` occurs in `s`. */
  function IndexFrom(s: string, sub: string, i: nat): (r: Option<nat>)
    ensures r.Some? ==> i <= r.value && OccursAt(s, sub, r.value)
    ensures r.Some? ==> forall j :: i <= j < r.value ==> !OccursAt(s, sub, j)
    ensures r.None? ==> forall j :: i <= j ==> !OccursAt(s, sub, j)
    decreases |s| - i
  {
    if i + |sub| > |s| then None
    else if s[i..i + |sub|] == sub then Some(i)
    else IndexFrom(s, sub, i + 1)
  }

  /** `strings.Contains`. */
  predicate Contains(s: string, sub: string) {
    IndexFrom(s, sub, 0).Some?
  }

  // ------------------------------------------------------------- split / join

  /** `strings.Split` for a non-empty separator: the pieces between successive
      non-overlapping occurrences of `sep`, scanning left to right. */
  function Split(s: string, sep: string): (r: seq<string>)
    requires |sep| > 0
    ensures |r| >= 1
    decreases |s|
  {
    match IndexFrom(s, sep, 0)
    case None => [s]
    case Some(k) => [s[..k]] + Split(s[k + |sep|..], sep)
  }

  /** `strings.Join`. */
  function Join(parts: seq<string>, sep: string): string
    decreases |parts|
  {
    if |parts| == 0 then ""
    else if |parts| == 1 then parts[0]
    else parts[0] + sep + Join(parts[1..], sep)
  }

  lemma JoinCons(p: string, rest: seq<string>, sep: string)
    requires |rest| > 0
    ensures Join([p] + rest, sep) == p + sep + Join(rest, sep)
  {
    assert ([p] + rest)[1..] == rest;
  }

  /** Six joined fields, written out. */
  lemma JoinSix(a: string, b: string, c: string, d: string, e: string, f: string, sep: string)
    ensures Join([a, b, c, d, e, f], sep) == a + sep + b + sep + c + sep + d + sep + e + sep + f
  {
    JoinCons(e, [f], sep);
    assert [e, f] == [e] + [f];
    JoinCons(d, [e, f], sep);
    assert [d, e, f] == [d] + [e, f];
    JoinCons(c, [d, e, f], sep);
    assert [c, d, e, f] == [c] + [d, e, f];
    JoinCons(b, [c, d, e, f], sep);
    assert [b, c, d, e, f] == [b] + [c, d, e, f];
    JoinCons(a, [b, c, d, e, f], sep);
    assert [a, b, c, d, e, f] == [a] + [b, c, d, e, f];
  }

  lemma {:induction false} FirstSeparator(p: string, c: char, t: string, i: nat)
    requires i <= |p|
    requires c !in p
    ensures IndexFrom(p + [c] + t, [c], i) == Some(|p|)
    decreases |p| - i
  {
    var s := p + [c] + t;
    if i < |p| {
      assert s[i..i + 1] == [p[i]];
      FirstSeparator(p, c, t, i + 1);
    } else {
      assert s[i..i + 1] == [c];
    }
  }

  lemma {:induction false} NoSeparator(p: string, c: char, i: nat)
    requires c !in p
    ensures IndexFrom(p, [c], i) == None
    decreases |p| - i
  {
    if i + 1 <= |p| {
      assert p[i..i + 1] == [p[i]];
      NoSeparator(p, c, i + 1);
    }
  }

  /** Splitting on a one-character separator undoes joining on it, provided no
      piece contains that character. */
  lemma {:induction false} SplitJoin(parts: seq<string>, c: char)
    requires |parts| >= 1
    requires forall k :: 0 <= k < |parts| ==> c !in parts[k]
    ensures Split(Join(parts, [c]), [c]) == parts
    decreases |parts|
  {
    if |parts| == 1 {
      NoSeparator(parts[0], c, 0);
    } else {
      var rest := Join(parts[1..], [c]);
      assert Join(parts, [c]) == parts[0] + [c] + rest;
      FirstSeparator(parts[0], c, rest, 0);
      var s := parts[0] + [c] + rest;
      assert s[..|parts[0]|] == parts[0];
      assert s[|parts[0]| + 1..] == rest;
      SplitJoin(parts[1..], c);
    }
  }

  // --------------------------------------------------------------- white space

  /** Go's `unicode.IsSpace`: the Unicode White_Space characters. */
  predicate IsSpace(c: char) {
    ('\t' <= c <= '\r') || c == ' ' || c == '\U{0085}' || c == '\U{00A0}'
    || c == '\U{1680}' || ('\U{2000}' <= c <= '\U{200A}') || c == '\U{2028}'
    || c == '\U{2029}' || c == '\U{202F}' || c == '\U{205F}' || c == '\U{3000}'
  }

  function TrimLeftSpace(s: string): (r: string)
    ensures |r| <= |s| && r == s[|s| - |r|..]
    ensures r == [] || !IsSpace(r[0])
  {
    if |s| > 0 && IsSpace(s[0]) then TrimLeftSpace(s[1..]) else s
  }

  function TrimRightSpace(s: string): (r: string)
    ensures |r| <= |s| && r == s[..|r|]
    ensures r == [] || !IsSpace(r[|r| - 1])
  {
    if |s| > 0 && IsSpace(s[|s| - 1]) then TrimRightSpace(s[..|s| - 1]) else s
  }

  /** `strings.TrimSpace`. */
  function TrimSpace(s: string): string {
    TrimRightSpace(TrimLeftSpace(s))
  }

  // --------------------------------------------------------- decimal numerals

  predicate IsDigit(c: char) {
    '0' <= c <= '9'
  }

  predicate AllDigits(s: string) {
    forall i :: 0 <= i < |s| ==> IsDigit(s[i])
  }

  function DigitChar(d: nat): char
    requires d < 10
  {
    ('0' as int + d) as char
  }

  /** The value of a run of decimal digits, most significant first. */
  function DigitsValue(ds: string): nat
    requires AllDigits(ds)
  {
    if |ds| == 0 then 0
    else 10 * DigitsValue(ds[..|ds| - 1]) + (ds[|ds| - 1] as int - '0' as int)
  }

  /** `%d` of a non-negative integer. */
  function NatToDecimal(n: nat): (r: string)
    ensures |r| >= 1 && AllDigits(r)
  {
    if n < 10 then [DigitChar(n)] else NatToDecimal(n / 10) + [DigitChar(n % 10)]
  }

  /** `%d` of any integer: a minus sign before the magnitude when negative. */
  function IntToDecimal(i: int): string {
    if i < 0 then "-" + NatToDecimal(-i) else NatToDecimal(i)
  }

  lemma {:induction false} DecimalValue(n: nat)
    ensures DigitsValue(NatToDecimal(n)) == n
  {
    if n >= 10 {
      var ds := NatToDecimal(n);
      assert ds[..|ds| - 1] == NatToDecimal(n / 10);
      DecimalValue(n / 10);
    }
  }

  /** Decimal rendering is injective: different numbers never print alike. */
  lemma DecimalInjective(m: nat, n: nat)
    ensures NatToDecimal(m) == NatToDecimal(n) <==> m == n
  {
    if NatToDecimal(m) == NatToDecimal(n) {
      DecimalValue(m);
      DecimalValue(n);
    }
  }

  // ------------------------------------------------ fmt.Sscanf integer verbs

  /** The Go destination type of a `%d` verb: a signed 64-bit integer accepts a
      sign, the unsigned ones do not; each rejects values it cannot hold. */
  datatype IntKind = Int64 | Uint32 | Uint8

  predicate InRange(v: int, kind: IntKind) {
    match kind
    case Int64 => -0x8000_0000_0000_0000 <= v < 0x8000_0000_0000_0000
    case Uint32 => 0 <= v < 0x1_0000_0000
    case Uint8 => 0 <= v < 0x100
  }

  datatype Scanned = Scanned(value: int, rest: string)

  /** The space skipping before a verb: white space is consumed, but a newline
      is an error when scanning with `Sscanf`. */
  function SkipScanSpace(s: string): (r: Option<string>)
    ensures r.Some? ==> |r.value| <= |s| && r.value == s[|s| - |r.value|..]
    ensures r.Some? ==> r.value == [] || !IsSpace(r.value[0]) || r.value[0] == '\n'
  {
    if |s| == 0 then Some(s)
    else if s[0] == '\n' then None
    else if IsSpace(s[0]) then SkipScanSpace(s[1..])
    else Some(s)
  }

  /** Length of the longest prefix of decimal digits. */
  function DigitRun(s: string): (n: nat)
    ensures n <= |s| && AllDigits(s[..n])
    ensures n < |s| ==> !IsDigit(s[n])
  {
    if |s| > 0 && IsDigit(s[0]) then 1 + DigitRun(s[1..]) else 0
  }

  /** The digits of one `%d` verb after its optional sign: at least one digit,
      the longest run of them, and a range check for the destination. */
  function ScanDigits(u: string, neg: bool, kind: IntKind): (r: Option<Scanned>)
    ensures r.Some? ==> InRange(r.value.value, kind) && |r.value.rest| < |u|
  {
    var n := DigitRun(u);
    if n == 0 then None
    else
      var v: int := if neg then -(DigitsValue(u[..n]) as int) else DigitsValue(u[..n]);
      if InRange(v, kind) then Some(Scanned(v, u[n..])) else None
  }

  /** One `%d` verb: skip space, then an optional sign for the signed kind, then
      the digits. */
  function ScanInt(s: string, kind: IntKind): (r: Option<Scanned>)
    ensures r.Some? ==> InRange(r.value.value, kind) && |r.value.rest| < |s|
  {
    match SkipScanSpace(s)
    case None => None
    case Some(t) =>
      if kind.Int64? && |t| > 0 && (t[0] == '+' || t[0] == '-')
      then ScanDigits(t[1..], t[0] == '-', kind)
      else ScanDigits(t, false, kind)
  }

  /** A literal in a scan format must match the input exactly. */
  function ScanLiteral(s: string, lit: string): (r: Option<string>)
    ensures r.Some? ==> s == lit + r.value
  {
    if HasPrefix(s, lit) then Some(s[|lit|..]) else None
  }

  lemma ScanLiteralOf(lit: string, rest: string)
    ensures ScanLiteral(lit + rest, lit) == Some(rest)
  {
    assert (lit + rest)[..|lit|] == lit;
    assert (lit + rest)[|lit|..] == rest;
  }

  lemma {:induction false} DigitRunOf(ds: string, rest: string)
    requires AllDigits(ds)
    requires rest == [] || !IsDigit(rest[0])
    ensures DigitRun(ds + rest) == |ds|
    decreases |ds|
  {
    if |ds| > 0 {
      assert (ds + rest)[1..] == ds[1..] + rest;
      DigitRunOf(ds[1..], rest);
    } else {
      assert ds + rest == rest;
    }
  }

  lemma ScanDigitsOf(n: nat, rest: string, neg: bool, kind: IntKind)
    requires InRange(if neg then -(n as int) else n, kind)
    requires rest == [] || !IsDigit(rest[0])
    ensures ScanDigits(NatToDecimal(n) + rest, neg, kind)
         == Some(Scanned(if neg then -(n as int) else n, rest))
  {
    var ds := NatToDecimal(n);
    DigitRunOf(ds, rest);
    assert (ds + rest)[..|ds|] == ds;
    assert (ds + rest)[|ds|..] == rest;
    DecimalValue(n);
  }

  lemma NothingToSkip(s: string)
    requires |s| > 0 && (s[0] == '-' || IsDigit(s[0]))
    ensures SkipScanSpace(s) == Some(s)
  {
  }

  lemma ScanNonNegative(i: int, kind: IntKind, rest: string)
    requires 0 <= i && InRange(i, kind)
    requires rest == [] || !IsDigit(rest[0])
    ensures ScanInt(IntToDecimal(i) + rest, kind) == Some(Scanned(i, rest))
  {
    var s := NatToDecimal(i) + rest;
    assert IntToDecimal(i) + rest == s;
    assert ScanInt(s, kind) == ScanDigits(s, false, kind) by {
      assert IsDigit(s[0]);
      NothingToSkip(s);
    }
    assert ScanDigits(s, false, kind) == Some(Scanned(i, rest)) by {
      ScanDigitsOf(i, rest, false, kind);
    }
  }

  /** A leading minus sign is taken by the signed kind and negates the digits. */
  lemma MinusSign(u: string)
    ensures ScanInt("-" + u, Int64) == ScanDigits(u, true, Int64)
  {
    var s := "-" + u;
    assert s[0] == '-' && s[1..] == u;
    NothingToSkip(s);
  }

  lemma NegativeText(i: int, rest: string)
    requires i < 0
    ensures IntToDecimal(i) + rest == "-" + (NatToDecimal(-i) + rest)
  {
  }

  lemma ScanNegative(i: int, rest: string)
    requires i < 0 && InRange(i, Int64)
    requires rest == [] || !IsDigit(rest[0])
    ensures ScanInt(IntToDecimal(i) + rest, Int64) == Some(Scanned(i, rest))
  {
    NegativeText(i, rest);
    MinusSign(NatToDecimal(-i) + rest);
    ScanDigitsOf(-i, rest, true, Int64);
  }

  /** Scanning the decimal rendering of a number that fits the destination gives
      the number back and stops right after its digits. */
  lemma ScanDecimal(i: int, kind: IntKind, rest: string)
    requires InRange(i, kind)
    requires rest == [] || !IsDigit(rest[0])
    ensures ScanInt(IntToDecimal(i) + rest, kind) == Some(Scanned(i, rest))
  {
    if i < 0 {
      assert kind == Int64;
      ScanNegative(i, rest);
    } else {
      ScanNonNegative(i, kind, rest);
    }
  }
}
