/**
 * `MajorType` and the lead-byte table `InternalTypeTable` of src/cbor.cc, the
 * classifier laid out in Appendix B of RFC 7049.
 */
module CborTable {
  import opened Base

  datatype MajorType =
    | UnsignedInteger | NegativeInteger | String | Array | Object
    | False | True | Null | Float | Unknown

  /** The classification of a lead byte, range by range. */
  function Classify(b: uint8): MajorType
  {
    if b <= 0x1B then UnsignedInteger
    else if 0x20 <= b <= 0x3B then NegativeInteger
    else if 0x60 <= b <= 0x7B || b == 0x7F then String
    else if 0x80 <= b <= 0x9B || b == 0x9F then Array
    else if 0xA0 <= b <= 0xBB || b == 0xBF then Object
    else if b == 0xf4 then False
    else if b == 0xf5 then True
    else if b == 0xf6 then Null
    else if b == 0xf9 || b == 0xfa || b == 0xfb then Float
    else Unknown
  }

  /** The lead-byte ranges the encoders produce, and their classes. */
  lemma ClassifyRanges(b: uint8)
    ensures b <= 0x1B ==> Classify(b) == UnsignedInteger
    ensures 0x20 <= b <= 0x3B ==> Classify(b) == NegativeInteger
    ensures 0x60 <= b <= 0x7B ==> Classify(b) == String
    ensures 0x80 <= b <= 0x9B ==> Classify(b) == Array
    ensures 0xA0 <= b <= 0xBB ==> Classify(b) == Object
  {
  }

  /** Number of entries of the C++ table: 0xFF, so bytes 0..0xFE. */
  const TABLE_SIZE: nat := 0xff

  class TypeTable {
    var table: seq<MajorType>

    /** Every entry holds the class of its byte. */
    ghost predicate Valid()
      reads this
    {
      |table| == TABLE_SIZE && forall b: uint8 :: b < TABLE_SIZE ==> table[b] == Classify(b)
    }

    /**
     * InternalTypeTable(): 0xff entries of kUnknown, then the ranges filled in
     * loop by loop, then the single simple and float codes.
     */
    constructor ()
      ensures Valid()
    {
      var t := seq(TABLE_SIZE, _ => Unknown);
      t := Fill(t, 0x00, 0x1B, UnsignedInteger);
      t := Fill(t, 0x20, 0x3B, NegativeInteger);
      t := Fill(t, 0x60, 0x7B, String);
      t := t[0x7F := String];
      t := Fill(t, 0x80, 0x9B, Array);
      t := t[0x9F := Array];
      t := Fill(t, 0xA0, 0xBB, Object);
      t := t[0xBF := Object];
      t := t[0xf4 := False][0xf5 := True][0xf6 := Null];
      t := t[0xf9 := Float][0xfa := Float][0xfb := Float];
      table := t;
    }

    /**
     * get(c).  Byte 0xFF lies one past the end of the C++ table; the model
     * answers Unknown for it.
     */
    function Get(c: uint8): (t: MajorType)
      reads this
      requires Valid()
      ensures t == Classify(c)
    {
      if c < TABLE_SIZE then table[c] else Unknown
    }
  }

  /** One `for (i = lo; i <= hi; i++) _table[i] = m;` loop. */
  method Fill(t: seq<MajorType>, lo: nat, hi: nat, m: MajorType) returns (r: seq<MajorType>)
    requires lo <= hi < |t|
    ensures |r| == |t|
    ensures forall i :: 0 <= i < |t| ==> r[i] == if lo <= i <= hi then m else t[i]
  {
    r := t;
    var i := lo;
    while i <= hi
      invariant lo <= i <= hi + 1 && |r| == |t|
      invariant forall j :: 0 <= j < |t| ==> r[j] == if lo <= j < i then m else t[j]
    {
      r := r[i := m];
      i := i + 1;
    }
  }

  /** The lead bytes the table gives a type to, and nothing else. */
  lemma KnownLeadBytes(b: uint8)
    ensures Classify(b) != Unknown <==>
      b <= 0x1B || 0x20 <= b <= 0x3B || 0x60 <= b <= 0x7B || b == 0x7F
      || 0x80 <= b <= 0x9B || b == 0x9F || 0xA0 <= b <= 0xBB || b == 0xBF
      || 0xf4 <= b <= 0xf6 || 0xf9 <= b <= 0xfb
  {
  }
}
