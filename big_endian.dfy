/**
 * `encode_number` and `decode_number` of src/cbor.h: a fixed-width unsigned
 * integer on the wire, most significant byte first.  The host byte order and
 * the `memmove` reinterpretation of the C++ code are replaced by the wire order
 * they produce.
 */
module BigEndian {
  import opened Base

  /** 256^w, the number of values a w-byte field can hold. */
  function Pow256(w: nat): (r: nat)
    ensures r >= 1
  {
    if w == 0 then 1 else 256 * Pow256(w - 1)
  }

  /** The integer a big-endian byte sequence denotes. */
  function DecodeBE(bs: seq<uint8>): (x: nat)
    ensures x < Pow256(|bs|)
  {
    if bs == [] then 0 else DecodeBE(bs[..|bs| - 1]) * 256 + bs[|bs| - 1]
  }

  /** `encode_number<T>(x)` for a `T` of `width` bytes. */
  function EncodeNumber(x: nat, width: nat): (r: seq<uint8>)
    requires x < Pow256(width)
    ensures |r| == width
    ensures width > 0 ==> r[width - 1] == x % 256
    decreases width
  {
    if width == 0 then [] else EncodeNumber(x / 256, width - 1) + [x % 256]
  }

  /** decode_number inverts encode_number. */
  lemma {:induction false} DecodeEncode(x: nat, width: nat)
    requires x < Pow256(width)
    ensures DecodeBE(EncodeNumber(x, width)) == x
    decreases width
  {
    if width > 0 {
      var r := EncodeNumber(x, width);
      assert r[..width - 1] == EncodeNumber(x / 256, width - 1);
      DecodeEncode(x / 256, width - 1);
    }
  }

  /** encode_number inverts decode_number: every byte sequence is the encoding of its value. */
  lemma {:induction false} EncodeDecode(bs: seq<uint8>)
    ensures EncodeNumber(DecodeBE(bs), |bs|) == bs
    decreases |bs|
  {
    if bs != [] {
      var init := bs[..|bs| - 1];
      EncodeDecode(init);
      var x := DecodeBE(bs);
      assert x / 256 == DecodeBE(init);
      assert bs == init + [bs[|bs| - 1]];
    }
  }

  /** The first byte on the wire is the most significant one. */
  lemma {:induction false} MostSignificantFirst(x: nat, width: nat)
    requires width > 0 && x < Pow256(width)
    ensures EncodeNumber(x, width)[0] == x / Pow256(width - 1)
    decreases width
  {
    if width > 1 {
      MostSignificantFirst(x / 256, width - 1);
      DivDiv(x, 256, Pow256(width - 2));
      assert Pow256(width - 1) == 256 * Pow256(width - 2);
    }
  }

  /** w bytes of 0xFF denote the largest w-byte value. */
  lemma {:induction false} AllOnes(w: nat)
    ensures DecodeBE(seq(w, _ => 0xFF)) == Pow256(w) - 1
  {
    if w > 0 {
      assert seq(w, _ => 0xFF)[..w - 1] == seq(w - 1, _ => 0xFF);
      AllOnes(w - 1);
    }
  }

  lemma DivDiv(x: nat, a: nat, b: nat)
    requires a > 0 && b > 0
    ensures x / a / b == x / (a * b)
  {
    var q, r := x / a, x % a;
    var q2, r2 := q / b, q % b;
    DivParts(x, a, q, r, q2, b, r2);
    DivUnique(x, a * b, q2, r2 * a + r);
  }

  /** x == q2 * (a * b) + (r2 * a + r) with the remainder below a * b. */
  lemma DivParts(x: nat, a: nat, q: nat, r: nat, q2: nat, b: nat, r2: nat)
    requires a > 0 && b > 0 && x == q * a + r && r < a && q == q2 * b + r2 && r2 < b
    ensures x == q2 * (a * b) + (r2 * a + r) && r2 * a + r < a * b
  {
    MulAdd(q2 * b, r2, a);
    MulAssoc(q2, b, a);
    MulBelow(r2, b, a);
  }

  lemma MulAdd(x: int, y: int, a: int)
    ensures (x + y) * a == x * a + y * a
  {
  }

  lemma MulAssoc(x: int, y: int, z: int)
    ensures x * y * z == x * (z * y)
  {
  }

  /** r2 < b, so r2 * a + r < (r2 + 1) * a <= b * a. */
  lemma MulBelow(r2: nat, b: nat, a: nat)
    requires r2 < b && a > 0
    ensures r2 * a + a <= a * b
  {
    MulAdd(r2, 1, a);
    MulMono(r2 + 1, b, a);
  }

  lemma MulMono(x: nat, y: nat, a: nat)
    requires x <= y
    ensures x * a <= y * a
  {
    MulAdd(x, y - x, a);
  }

  lemma DivUnique(x: int, d: int, q: int, r: int)
    requires d > 0 && 0 <= r < d && x == q * d + r
    ensures x / d == q
  {
    var q', r' := x / d, x % d;
    assert (q - q') * d == r' - r;
    if q > q' {
      MulAtLeast(q - q', d);
    } else if q < q' {
      MulAtLeast(q' - q, d);
    }
  }

  lemma MulAtLeast(k: int, d: int)
    requires k >= 1 && d > 0
    ensures k * d >= d
  {
  }
}
