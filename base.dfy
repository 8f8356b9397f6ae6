/** Primitive types shared by the lexers, the lowering passes and the interpreter. */
module Base {

  /** Bounds of Rust's `i64`. */
  const I64_MIN: int := -0x8000_0000_0000_0000
  const I64_MAX: int := 0x7FFF_FFFF_FFFF_FFFF

  type i64 = x: int | I64_MIN <= x <= I64_MAX

  /** One byte of a UTF-8 `&str`, as yielded by `str::bytes`. */
  type byte = x: int | 0 <= x < 256

  datatype Option<+T> = None | Some(value: T)

  /** The parser's cursor: byte offset, line and column. */
  datatype Location = Location(offset: nat, line: nat, col: nat)

  /** A token with the position it was read from (`path` is always `None` in the scanners). */
  datatype Span<T> = Span(data: T, offset: nat, line: nat, len: nat)

  /** What a scanner returns: the token, if any, the unread input and the new location. */
  datatype Scan<T, E> = Scan(token: Option<Span<T>>, rest: seq<E>, loc: Location)

  /** The location after consuming `len` bytes of one line. */
  function Advance(loc: Location, len: nat): Location
  {
    loc.(offset := loc.offset + len, col := loc.col + len)
  }
}
