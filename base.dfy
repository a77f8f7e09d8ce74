/**
 * Shared vocabulary of the karl model: bytes, byte strings, optional values,
 * the library's exception kinds and the machine-integer helpers the C++
 * code relies on implicitly (uint64 and int64 wrap-around).
 */
module Base {

  /** An octet, as `uint8_t` in the C++ code. */
  type uint8 = x: int | 0 <= x < 256

  /**
   * A `char` of a `std::string`.  The library never interprets text: a string is
   * a sequence of bytes, so each character is one code unit below 256.
   */
  type ByteChar = c: char | c as int < 256

  /** `std::string` as the library treats it: a byte string. */
  type Text = seq<ByteChar>

  const TWO_63: int := 0x8000_0000_0000_0000
  const TWO_64: int := 0x1_0000_0000_0000_0000

  /** The largest `size_t` (64-bit), also the CBOR reader's INDEFINITE_LENGTH. */
  const SIZE_MAX: int := TWO_64 - 1

  datatype Option<T> = None | Some(value: T)

  /** The exception classes the handle throws (message texts are not modelled). */
  datatype Error = TypeError | OtherError | InvalidIterator

  datatype Result<T> = Ok(value: T) | Err(error: Error)

  /** The bytes of a string, one per character. */
  function TextBytes(s: Text): (r: seq<uint8>)
    ensures |r| == |s|
    ensures forall i :: 0 <= i < |s| ==> r[i] == s[i] as int
  {
    seq(|s|, i requires 0 <= i < |s| => s[i] as int)
  }

  /** The string whose characters are the given bytes. */
  function BytesText(b: seq<uint8>): (r: Text)
    ensures |r| == |b|
    ensures forall i :: 0 <= i < |b| ==> r[i] as int == b[i]
  {
    seq(|b|, i requires 0 <= i < |b| => b[i] as char)
  }

  lemma BytesTextInverse(s: Text)
    ensures BytesText(TextBytes(s)) == s
  {
  }

  /** `static_cast<uint64_t>(x)`: reduction modulo 2^64. */
  function ToUint64(x: int): (r: int)
    ensures 0 <= r < TWO_64
    ensures (r - x) % TWO_64 == 0
  {
    x % TWO_64
  }

  /** `static_cast<int64_t>(n)` of a `uint64_t` n: two's-complement reinterpretation. */
  function WrapInt64(n: int): (r: int)
    requires 0 <= n < TWO_64
    ensures -TWO_63 <= r < TWO_63
    ensures ToUint64(r) == n
  {
    if n < TWO_63 then n else n - TWO_64
  }
}
