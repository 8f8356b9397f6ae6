/**
 * The identifier scanners of the parser crate's lexer (typort-parser/src/lex.rs):
 * the inner functions `f` of `id()` and `varid()`. They walk a char iterator,
 * count the chars they accept in `len` and slice the input at `len`, which is a
 * byte index; the two agree only on ASCII input, to which this model is limited.
 */
module Lex {
  import opened Base

  predicate IsAscii(s: seq<char>) { forall k :: 0 <= k < |s| ==> s[k] < 128 as char }

  /** `char::is_alphabetic`, `is_alphanumeric` and `is_ascii_lowercase` on ASCII chars. */
  predicate IsAlphabetic(c: char) { 'a' <= c <= 'z' || 'A' <= c <= 'Z' }
  predicate IsAlphanumeric(c: char) { IsAlphabetic(c) || '0' <= c <= '9' }
  predicate IsAsciiLowercase(c: char) { 'a' <= c <= 'z' }

  /** A char that may continue an identifier: alphanumeric or `_`. */
  predicate IsIdTail(c: char) { IsAlphanumeric(c) || c == '_' }

  /** The end of the maximal run of identifier chars that starts at `i`. */
  function IdRunEnd(s: seq<char>, i: nat): (j: nat)
    requires i <= |s|
    ensures i <= j <= |s|
    ensures forall k :: i <= k < j ==> IsIdTail(s[k])
    ensures j == |s| || !IsIdTail(s[j])
    decreases |s| - i
  {
    if i == |s| || !IsIdTail(s[i]) then i else IdRunEnd(s, i + 1)
  }

  /**
   * The common shape of both scanners once the first char has been accepted:
   * the token is the input up to the end of the identifier run after it.
   */
  function Accept(input: seq<char>, loc: Location): (s: Scan<seq<char>, char>)
    ensures s.token.Some?
    ensures var t := s.token.value;
      && t.data + s.rest == input
      && t.len == |t.data| && t.offset == loc.offset && t.line == loc.line
      && s.loc == Location(loc.offset + t.len, loc.line, loc.col + t.len)
      && (t.data == [] <==> input == [])
      && (forall k :: 1 <= k < |t.data| ==> IsIdTail(t.data[k]))
      && (s.rest == [] || !IsIdTail(s.rest[0]))
  {
    var len := if input == [] then 0 else IdRunEnd(input, 1);
    assert input[..len] + input[len..] == input;
    Scan(Some(Span(input[..len], loc.offset, loc.line, len)), input[len..], Advance(loc, len))
  }

  /** What the scanner of `id()` returns: a first char that is not alphabetic is refused. */
  function IdScan(input: seq<char>, loc: Location): (s: Scan<seq<char>, char>)
    requires IsAscii(input)
    ensures s.token.None? <==> |input| > 0 && !IsAlphabetic(input[0])
    ensures s.token.None? ==> s.rest == input && s.loc == loc
    ensures s.token.Some? ==> s == Accept(input, loc)
  {
    if |input| > 0 && !IsAlphabetic(input[0]) then Scan(None, input, loc) else Accept(input, loc)
  }

  /** What the scanner of `varid()` returns: a first char that is not a lower-case letter is refused. */
  function VarIdScan(input: seq<char>, loc: Location): (s: Scan<seq<char>, char>)
    requires IsAscii(input)
    ensures s.token.None? <==> |input| > 0 && !IsAsciiLowercase(input[0])
    ensures s.token.None? ==> s.rest == input && s.loc == loc
    ensures s.token.Some? ==> s == Accept(input, loc)
  {
    if |input| > 0 && !IsAsciiLowercase(input[0]) then Scan(None, input, loc) else Accept(input, loc)
  }

  /** The inner scanner `f` of `id()`. */
  method Id(input: seq<char>, loc: Location) returns (s: Scan<seq<char>, char>)
    requires IsAscii(input)
    ensures s == IdScan(input, loc)
  {
    var len: nat := 0;
    if |input| > 0 {
      if IsAlphabetic(input[0]) {
        len := len + 1;
      } else {
        return Scan(None, input, loc);
      }
    }
    len := ScanTail(input, len);
    var next := Advance(loc, len);
    s := Scan(Some(Span(input[..len], loc.offset, loc.line, len)), input[len..], next);
  }

  /** The inner scanner `f` of `varid()`. */
  method VarId(input: seq<char>, loc: Location) returns (s: Scan<seq<char>, char>)
    requires IsAscii(input)
    ensures s == VarIdScan(input, loc)
  {
    var len: nat := 0;
    if |input| > 0 {
      if IsAsciiLowercase(input[0]) {
        len := len + 1;
      } else {
        return Scan(None, input, loc);
      }
    }
    len := ScanTail(input, len);
    var next := Advance(loc, len);
    s := Scan(Some(Span(input[..len], loc.offset, loc.line, len)), input[len..], next);
  }

  /**
   * The `loop` both scanners share: keep counting while the iterator yields an
   * alphanumeric char or `_`. It starts after the first char (or at 0 on empty input).
   */
  method ScanTail(input: seq<char>, start: nat) returns (len: nat)
    requires start == if input == [] then 0 else 1
    ensures len == if input == [] then 0 else IdRunEnd(input, 1)
  {
    len := start;
    while len < |input| && IsIdTail(input[len])
      invariant start <= len <= |input|
      invariant forall k :: 1 <= k < len ==> IsIdTail(input[k])
      decreases |input| - len
    {
      len := len + 1;
    }
  }

  // ----- Where the token is cut -----

  /** The number of bytes UTF-8 uses for `c`. */
  function Utf8Width(c: char): (w: nat)
    ensures 1 <= w <= 4
    ensures w == 1 <==> c < 128 as char
  {
    if c < 128 as char then 1
    else if c < 0x800 as char then 2
    else if c < 0x10000 as char then 3
    else 4
  }

  /** The length in bytes of the UTF-8 encoding of `s`. */
  function ByteLen(s: seq<char>): (n: nat)
    ensures n >= |s|
    ensures n == |s| <==> IsAscii(s)
    decreases s
  {
    if s == [] then 0
    else
      var n := Utf8Width(s[0]) + ByteLen(s[1..]);
      assert IsAscii(s) <==> s[0] < 128 as char && IsAscii(s[1..]) by {
        assert forall k :: 1 <= k < |s| ==> s[k] == s[1..][k - 1];
      }
      n
  }

  /** The byte offsets at which the UTF-8 encoding of `s` may be sliced: the ends of its char prefixes. */
  ghost predicate IsCharBoundary(s: seq<char>, b: nat)
  {
    exists i :: 0 <= i <= |s| && ByteLen(s[..i]) == b
  }

  /**
   * The byte index at which `f` slices its input after accepting `len` chars, as
   * written: `len` itself, although the iterator counted chars, not bytes.
   */
  function CutAsWritten(input: seq<char>, len: nat): nat
  {
    len
  }

  /** The byte index that ends the first `len` chars: where the token was meant to end. */
  function CutIntended(input: seq<char>, len: nat): (b: nat)
    requires len <= |input|
    ensures IsCharBoundary(input, b)
    ensures b >= len
  {
    assert input[..len][..len] == input[..len];
    ByteLen(input[..len])
  }

  /** The two cuts agree exactly when the accepted chars are ASCII. */
  lemma CutsAgreeOnAscii(input: seq<char>, len: nat)
    requires len <= |input|
    ensures CutAsWritten(input, len) == CutIntended(input, len) <==> IsAscii(input[..len])
  {
  }

  /**
   * On the input "é" (U+00E9, alphabetic, two bytes in UTF-8) `id` accepts one
   * char and cuts at byte 1, inside that char; the intended cut is byte 2.
   */
  lemma CutAsWrittenSplitsChar()
    ensures var s := [0xE9 as char];
      !IsCharBoundary(s, CutAsWritten(s, 1)) && CutIntended(s, 1) == 2
  {
    var s := [0xE9 as char];
    assert ByteLen(s[..0]) == 0;
    assert s[..1] == s;
    assert ByteLen(s) == 2 by {
      assert s[1..] == [];
    }
    forall i | 0 <= i <= |s|
      ensures ByteLen(s[..i]) != 1
    {
      assert i == 0 || i == 1;
    }
  }

  /** Whenever `varid` accepts an input, `id` accepts it too, with the same token and location. */
  lemma VarIdImpliesId(input: seq<char>, loc: Location)
    requires IsAscii(input)
    requires VarIdScan(input, loc).token.Some?
    ensures IdScan(input, loc) == VarIdScan(input, loc)
  {
  }

  /** Both scanners succeed on empty input with an empty token. */
  lemma EmptyInputGivesEmptyToken(loc: Location)
    ensures IdScan([], loc) == VarIdScan([], loc) == Scan(Some(Span([], loc.offset, loc.line, 0)), [], loc)
  {
  }
}
