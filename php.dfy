/**
 * The few PHP value semantics the tunnel's control flow depends on:
 * byte strings, their truthiness, and an optional value for calls that
 * return `false` on failure.
 */
module Php {

  datatype Option<T> = None | Some(value: T)

  /** One byte of a PHP string. */
  newtype Byte = b: int | 0 <= b < 256

  /** A PHP string is a sequence of bytes. */
  type Bytes = seq<Byte>

  /** The character '0'. */
  const ZERO_DIGIT: Byte := 0x30

  /**
   * PHP's conversion of a string to bool: the empty string and "0" are
   * the only falsy strings. It decides `while ($data ...)`, and
   * `$data == false` is its negation.
   */
  predicate Truthy(s: Bytes)
  {
    s != [] && s != [ZERO_DIGIT]
  }
}
