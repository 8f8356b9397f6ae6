/**
 * The two hand-written byte scanners of the parser crate: the inner functions `f`
 * of `name()` and `int()` (typort-parser/src/lib.rs). Each one reads a prefix of its
 * input and returns the token, the unread rest and the advanced location.
 */
module Scanner {
  import opened Base

  const UNDERSCORE: byte := 95
  const MINUS: byte := 45
  const PLUS: byte := 43

  predicate IsAsciiAlphabetic(b: byte) { 65 <= b <= 90 || 97 <= b <= 122 }
  predicate IsAsciiDigit(b: byte) { 48 <= b <= 57 }
  predicate IsAsciiAlphanumeric(b: byte) { IsAsciiAlphabetic(b) || IsAsciiDigit(b) }

  /** A byte that may continue a name: ASCII alphanumeric or `_`. */
  predicate IsNameTail(b: byte) { IsAsciiAlphanumeric(b) || b == UNDERSCORE }

  /** A byte that may start an integer token: a digit or a sign. */
  predicate IsIntStart(b: byte) { IsAsciiDigit(b) || b == MINUS || b == PLUS }

  predicate AllDigits(s: seq<byte>) { forall k :: 0 <= k < |s| ==> IsAsciiDigit(s[k]) }

  /** The end of the maximal run of name bytes that starts at `i`. */
  function NameRunEnd(s: seq<byte>, i: nat): (j: nat)
    requires i <= |s|
    ensures i <= j <= |s|
    ensures forall k :: i <= k < j ==> IsNameTail(s[k])
    ensures j == |s| || !IsNameTail(s[j])
    decreases |s| - i
  {
    if i == |s| || !IsNameTail(s[i]) then i else NameRunEnd(s, i + 1)
  }

  /** The end of the maximal run of digits that starts at `i`. */
  function DigitRunEnd(s: seq<byte>, i: nat): (j: nat)
    requires i <= |s|
    ensures i <= j <= |s|
    ensures forall k :: i <= k < j ==> IsAsciiDigit(s[k])
    ensures j == |s| || !IsAsciiDigit(s[j])
    decreases |s| - i
  {
    if i == |s| || !IsAsciiDigit(s[i]) then i else DigitRunEnd(s, i + 1)
  }

  /**
   * What the scanner of `name()` returns. A first byte that is not a letter is
   * refused without consuming anything; otherwise the token is that letter and
   * the longest run of name bytes after it. Empty input yields an empty token.
   */
  function NameScan(input: seq<byte>, loc: Location): (s: Scan<seq<byte>, byte>)
    ensures s.token.None? <==> |input| > 0 && !IsAsciiAlphabetic(input[0])
    ensures s.token.None? ==> s.rest == input && s.loc == loc
    ensures s.token.Some? ==>
      var t := s.token.value;
      && t.data + s.rest == input
      && t.len == |t.data| && t.offset == loc.offset && t.line == loc.line
      && s.loc == Location(loc.offset + t.len, loc.line, loc.col + t.len)
      && (t.data == [] <==> input == [])
      && (t.data != [] ==> IsAsciiAlphabetic(t.data[0]))
      && (forall k :: 1 <= k < |t.data| ==> IsNameTail(t.data[k]))
      && (s.rest == [] || !IsNameTail(s.rest[0]))
  {
    if |input| > 0 && !IsAsciiAlphabetic(input[0]) then
      Scan(None, input, loc)
    else
      var len := if input == [] then 0 else NameRunEnd(input, 1);
      assert input[..len] + input[len..] == input;
      Scan(Some(Span(input[..len], loc.offset, loc.line, len)), input[len..], Advance(loc, len))
  }

  /** The inner scanner `f` of `name()`: a byte iterator and a counter `len`. */
  method Name(input: seq<byte>, loc: Location) returns (s: Scan<seq<byte>, byte>)
    ensures s == NameScan(input, loc)
  {
    var len: nat := 0;
    if |input| > 0 {
      if IsAsciiAlphabetic(input[0]) {
        len := len + 1;
      } else {
        return Scan(None, input, loc);
      }
    }
    // The iterator has consumed exactly `len` bytes whenever the loop tests it.
    while len < |input| && IsNameTail(input[len])
      invariant len <= |input|
      invariant input != [] ==> 1 <= len
      invariant forall k :: 1 <= k < len ==> IsNameTail(input[k])
      decreases |input| - len
    {
      len := len + 1;
    }
    assert input != [] ==> len == NameRunEnd(input, 1) by {
      if input != [] { RunEndUnique(input, len); }
    }
    var next := Advance(loc, len);
    s := Scan(Some(Span(input[..len], loc.offset, loc.line, len)), input[len..], next);
  }

  /** Any index that ends a maximal run of name bytes begun at 1 is `NameRunEnd(s, 1)`. */
  lemma RunEndUnique(s: seq<byte>, j: nat)
    requires 1 <= j <= |s|
    requires forall k :: 1 <= k < j ==> IsNameTail(s[k])
    requires j == |s| || !IsNameTail(s[j])
    ensures j == NameRunEnd(s, 1)
  {
  }

  /** The scanner's quirk on empty input: it succeeds with an empty token. */
  lemma NameOfEmptyInput(loc: Location)
    ensures NameScan([], loc) == Scan(Some(Span([], loc.offset, loc.line, 0)), [], loc)
  {
  }

  /** The value of a run of decimal digits, most significant first. */
  function DecimalValue(ds: seq<byte>): nat
    requires AllDigits(ds)
  {
    if ds == [] then 0 else 10 * DecimalValue(ds[..|ds| - 1]) + (ds[|ds| - 1] - 48)
  }

  /** The decimal spelling of `n`, without leading zeros. */
  function Digits(n: nat): (ds: seq<byte>)
    ensures AllDigits(ds) && ds != []
  {
    if n < 10 then [48 + n] else Digits(n / 10) + [48 + n % 10]
  }

  lemma {:induction false} DecimalValueOfDigits(n: nat)
    ensures DecimalValue(Digits(n)) == n
  {
    if n >= 10 {
      var ds := Digits(n);
      assert ds[..|ds| - 1] == Digits(n / 10);
      DecimalValueOfDigits(n / 10);
    }
  }

  /**
   * `str::parse::<i64>` on bytes: an optional sign followed by at least one
   * digit and nothing else, whose value fits in an `i64`.
   */
  function ParseI64(s: seq<byte>): Option<i64>
  {
    if s == [] then None
    else if s[0] == MINUS || s[0] == PLUS then
      var ds := s[1..];
      if ds == [] || !AllDigits(ds) then None
      else
        var m := if s[0] == MINUS then -(DecimalValue(ds) as int) else DecimalValue(ds);
        if I64_MIN <= m <= I64_MAX then Some(m) else None
    else if !AllDigits(s) then None
    else if DecimalValue(s) <= I64_MAX then Some(DecimalValue(s))
    else None
  }

  /** The signed value of an integer token: a sign or digit followed by digits. */
  function TokenValue(tok: seq<byte>): int
    requires tok != [] && IsIntStart(tok[0]) && AllDigits(tok[1..])
  {
    if tok[0] == MINUS then -(DecimalValue(tok[1..]) as int)
    else if tok[0] == PLUS then DecimalValue(tok[1..])
    else
      assert tok == [tok[0]] + tok[1..];
      assert AllDigits(tok);
      DecimalValue(tok)
  }

  /** The outcome of the scanner of `int()`; `ParsePanic` is the `unwrap` of a failed parse. */
  datatype IntResult = Scanned(scan: Scan<i64, byte>) | ParsePanic

  /**
   * What the scanner of `int()` returns. A first byte that is neither a digit
   * nor a sign is refused without consuming anything; otherwise the token is
   * that byte and the longest run of digits after it, and it must parse as an
   * `i64`: empty input, a lone sign and an out-of-range value are fatal.
   */
  function IntScan(input: seq<byte>, loc: Location): (r: IntResult)
    ensures r.Scanned? && r.scan.token.None? <==> |input| > 0 && !IsIntStart(input[0])
    ensures r.Scanned? && r.scan.token.None? ==> r.scan.rest == input && r.scan.loc == loc
    ensures r.Scanned? && r.scan.token.Some? ==>
      var t := r.scan.token.value;
      && 1 <= t.len <= |input| && r.scan.rest == input[t.len..]
      && IsIntStart(input[0]) && AllDigits(input[1..t.len])
      && (t.len == |input| || !IsAsciiDigit(input[t.len]))
      && (IsAsciiDigit(input[0]) || 2 <= t.len)
      && t.data == TokenValue(input[..t.len])
      && t.offset == loc.offset && t.line == loc.line
      && r.scan.loc == Location(loc.offset + t.len, loc.line, loc.col + t.len)
    ensures r.ParsePanic? <==>
      || input == []
      || (IsIntStart(input[0]) && !IsAsciiDigit(input[0]) && DigitRunEnd(input, 1) == 1)
      || (IsIntStart(input[0]) && !(I64_MIN <= TokenValue(input[..DigitRunEnd(input, 1)]) <= I64_MAX))
  {
    if |input| > 0 && !IsIntStart(input[0]) then
      Scanned(Scan(None, input, loc))
    else
      var len := if input == [] then 0 else DigitRunEnd(input, 1);
      match ParseI64(input[..len])
      case None => ParsePanic
      case Some(v) => Scanned(Scan(Some(Span(v, loc.offset, loc.line, len)), input[len..], Advance(loc, len)))
  }

  /** The inner scanner `f` of `int()`: a byte iterator, a counter `len`, then `parse().unwrap()`. */
  method Int(input: seq<byte>, loc: Location) returns (r: IntResult)
    ensures r == IntScan(input, loc)
  {
    var len: nat := 0;
    if |input| > 0 {
      if IsIntStart(input[0]) {
        len := len + 1;
      } else {
        return Scanned(Scan(None, input, loc));
      }
    }
    while len < |input| && IsAsciiDigit(input[len])
      invariant len <= |input|
      invariant input != [] ==> 1 <= len
      invariant forall k :: 1 <= k < len ==> IsAsciiDigit(input[k])
      decreases |input| - len
    {
      len := len + 1;
    }
    assert input != [] ==> len == DigitRunEnd(input, 1);
    var parsed := ParseI64(input[..len]);
    if parsed.None? {
      return ParsePanic;
    }
    var next := Advance(loc, len);
    r := Scanned(Scan(Some(Span(parsed.value, loc.offset, loc.line, len)), input[len..], next));
  }

  /** Any index that ends a maximal run of digits begun at `i` is `DigitRunEnd(s, i)`. */
  lemma {:induction false} DigitRunEndUnique(s: seq<byte>, i: nat, j: nat)
    requires i <= j <= |s|
    requires forall k :: i <= k < j ==> IsAsciiDigit(s[k])
    requires j == |s| || !IsAsciiDigit(s[j])
    ensures DigitRunEnd(s, i) == j
    decreases j - i
  {
    if i < j {
      DigitRunEndUnique(s, i + 1, j);
    }
  }

  /** Scanning the decimal spelling of a non-negative `i64` gives back that number. */
  lemma IntScanReadsDigits(n: nat, rest: seq<byte>, loc: Location)
    requires n <= I64_MAX
    requires rest == [] || !IsAsciiDigit(rest[0])
    ensures var ds := Digits(n);
      IntScan(ds + rest, loc) == Scanned(Scan(Some(Span(n, loc.offset, loc.line, |ds|)), rest, Advance(loc, |ds|)))
  {
    var ds := Digits(n);
    var input := ds + rest;
    DecimalValueOfDigits(n);
    assert input[..|ds|] == ds;
    assert input[|ds|..] == rest;
  }

  /** Scanning `-` and the decimal spelling of `n` gives back `-n`, down to `i64::MIN`. */
  lemma IntScanReadsNegative(n: nat, rest: seq<byte>, loc: Location)
    requires n <= -I64_MIN
    requires rest == [] || !IsAsciiDigit(rest[0])
    ensures var tok := [MINUS] + Digits(n);
      IntScan(tok + rest, loc) == Scanned(Scan(Some(Span(-(n as int), loc.offset, loc.line, |tok|)), rest, Advance(loc, |tok|)))
  {
    var ds := Digits(n);
    var tok := [MINUS] + ds;
    var input := tok + rest;
    DecimalValueOfDigits(n);
    assert input[..|tok|] == tok;
    assert input[..|tok|][1..] == ds;
    assert input[|tok|..] == rest;
    assert input[0] == MINUS;
    DigitRunEndUnique(input, 1, |tok|);
    assert ParseI64(tok) == Some(-(n as int));
  }

  /** A lone sign is not a number: the scanner's `unwrap` fails. */
  lemma LoneSignPanics(sign: byte, rest: seq<byte>, loc: Location)
    requires sign == MINUS || sign == PLUS
    requires rest == [] || !IsAsciiDigit(rest[0])
    ensures IntScan([sign] + rest, loc) == ParsePanic
  {
    var input := [sign] + rest;
    if |input| > 1 { assert input[1] == rest[0]; }
  }
}
