/**
 * The CBOR encoders of src/cbor.cc (`build_null` ... `build_object_prefix`).
 * Every integer or length goes through the additional-information ladder of
 * section 2.1 of RFC 7049: a value up to 23 sits in the low five bits of the
 * lead byte; otherwise those bits are 24, 25, 26 or 27 and the value follows in
 * 1, 2, 4 or 8 big-endian bytes.
 */
module CborBuild {
  import opened Base
  import opened BigEndian

  const FALSE_CODE: uint8 := 0xf4
  const TRUE_CODE: uint8 := 0xf5
  const NULL_CODE: uint8 := 0xf6
  const BREAK_CODE: uint8 := 0xff

  /** Lead byte of each major type with zero additional information. */
  const UNSIGNED_BASE: uint8 := 0x00
  const NEGATIVE_BASE: uint8 := 0x20
  const STRING_BASE: uint8 := 0x60
  const ARRAY_BASE: uint8 := 0x80
  const OBJECT_BASE: uint8 := 0xA0

  predicate IsBase(base: int)
  {
    base == UNSIGNED_BASE || base == NEGATIVE_BASE || base == STRING_BASE
    || base == ARRAY_BASE || base == OBJECT_BASE
  }

  /** Number of argument bytes announced by additional information 24..27. */
  function ArgWidth(ai: int): (w: nat)
    requires 24 <= ai <= 27
    ensures w == 1 || w == 2 || w == 4 || w == 8
  {
    if ai == 24 then 1 else if ai == 25 then 2 else if ai == 26 then 4 else 8
  }

  /** Length of the ladder encoding of n, stated independently of the encoder. */
  function HeadLen(n: nat): nat
  {
    if n <= 23 then 1
    else if n < 0x100 then 2
    else if n < 0x1_0000 then 3
    else if n < 0x1_0000_0000 then 5
    else 9
  }

  lemma Pow256Values()
    ensures Pow256(1) == 0x100 && Pow256(2) == 0x1_0000
    ensures Pow256(4) == 0x1_0000_0000 && Pow256(8) == TWO_64
  {
  }

  /**
   * The additional information chosen for n: n itself up to 23, otherwise the
   * narrowest of the 1, 2, 4 and 8 byte arguments that holds n.
   */
  function AddInfo(n: nat): (ai: nat)
    requires n < TWO_64
    ensures n <= 23 ==> ai == n
    ensures n > 23 ==> 24 <= ai <= 27 && n < Pow256(ArgWidth(ai))
    ensures n > 23 && ai > 24 ==> n >= Pow256(ArgWidth(ai - 1))
  {
    Pow256Values();
    if n <= 23 then n
    else if n <= 0xFF then 24
    else if n <= 0xFFFF then 25
    else if n <= 0xFFFF_FFFF then 26
    else 27
  }

  /**
   * The ladder shared by every integer and length encoder: the lead byte is
   * `base` plus the additional information, followed by the argument bytes.
   */
  function Head(base: int, n: nat): (r: seq<uint8>)
    requires IsBase(base) && n < TWO_64
    ensures |r| == HeadLen(n)
    ensures r[0] == base + AddInfo(n)
    ensures n <= 23 ==> |r| == 1
    ensures n > 23 ==> |r| == 1 + ArgWidth(AddInfo(n)) && DecodeBE(r[1..]) == n
  {
    var ai := AddInfo(n);
    if n <= 23 then [base + n]
    else
      var w := ArgWidth(ai);
      DecodeEncode(n, w);
      assert ([base + ai] + EncodeNumber(n, w))[1..] == EncodeNumber(n, w);
      [base + ai] + EncodeNumber(n, w)
  }

  /** build_null */
  function BuildNull(): seq<uint8>
  {
    [NULL_CODE]
  }

  /** build_boolean */
  function BuildBoolean(b: bool): (r: seq<uint8>)
    ensures |r| == 1 && (r[0] == TRUE_CODE <==> b) && (r[0] == FALSE_CODE <==> !b)
  {
    if b then [TRUE_CODE] else [FALSE_CODE]
  }

  /** build_number_usigned: major type 0 on the ladder. */
  function BuildNumberUnsigned(v: nat): (r: seq<uint8>)
    requires v < TWO_64
    ensures |r| == HeadLen(v) && r[0] < 0x1C
  {
    Head(UNSIGNED_BASE, v)
  }

  /**
   * build_number_signed: a non-negative value is encoded as unsigned; a negative
   * one as major type 1 carrying -1 - v.
   */
  function BuildNumberSigned(v: int): (r: seq<uint8>)
    requires -TWO_63 <= v < TWO_63
    ensures v >= 0 ==> r == BuildNumberUnsigned(v)
    ensures v < 0 ==> |r| == HeadLen(-1 - v) && 0x20 <= r[0] <= 0x3B
  {
    if v >= 0 then BuildNumberUnsigned(v) else Head(NEGATIVE_BASE, -1 - v)
  }

  /** build_string: a major type 3 length prefix followed by the raw bytes. */
  function BuildString(s: Text): (r: seq<uint8>)
    requires |s| < TWO_64
    ensures |r| == HeadLen(|s|) + |s|
    ensures 0x60 <= r[0] <= 0x7B
    ensures r[HeadLen(|s|)..] == TextBytes(s)
  {
    Head(STRING_BASE, |s|) + TextBytes(s)
  }

  /** build_array_prefix */
  function BuildArrayPrefix(n: nat): (r: seq<uint8>)
    requires n < TWO_64
    ensures |r| == HeadLen(n) && 0x80 <= r[0] <= 0x9B
  {
    Head(ARRAY_BASE, n)
  }

  /** build_object_prefix */
  function BuildObjectPrefix(n: nat): (r: seq<uint8>)
    requires n < TWO_64
    ensures |r| == HeadLen(n) && 0xA0 <= r[0] <= 0xBB
  {
    Head(OBJECT_BASE, n)
  }

  /**
   * The unsigned ladder byte for byte: v itself up to 23, otherwise
   * 0x18/0x19/0x1A/0x1B and 1/2/4/8 big-endian bytes, switching at 255, 65535
   * and 2^32 - 1.
   */
  lemma UnsignedLayout(v: nat)
    requires v < TWO_64
    ensures v <= 23 ==> BuildNumberUnsigned(v) == [v]
    ensures 23 < v <= 0xFF ==> BuildNumberUnsigned(v) == [0x18] + EncodeNumber(v, 1)
    ensures 0xFF < v <= 0xFFFF ==> BuildNumberUnsigned(v) == [0x19] + EncodeNumber(v, 2)
    ensures 0xFFFF < v <= 0xFFFF_FFFF ==> BuildNumberUnsigned(v) == [0x1A] + EncodeNumber(v, 4)
    ensures 0xFFFF_FFFF < v ==> BuildNumberUnsigned(v) == [0x1B] + EncodeNumber(v, 8)
  {
    Pow256Values();
  }

  /**
   * The negative ladder: -1 - v in the lead byte (0x20..0x37) for v >= -24,
   * otherwise 0x38..0x3B and the big-endian argument -1 - v.
   */
  lemma NegativeLayout(v: int)
    requires -TWO_63 <= v < 0
    ensures v >= -24 ==> BuildNumberSigned(v) == [0x20 + (-1 - v)]
    ensures v < -24 ==>
      var r := BuildNumberSigned(v);
      |r| > 1 && 0x38 <= r[0] <= 0x3B && |r| == 1 + ArgWidth(r[0] - 0x20) && DecodeBE(r[1..]) == -1 - v
  {
  }
}
