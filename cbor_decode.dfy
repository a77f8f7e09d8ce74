/**
 * The CBOR decoder of src/cbor.cc as functions on a byte buffer and a cursor.
 *
 * Every `Reader` member becomes a function from (buffer, position) to a `Read`:
 * what it produced, if it succeeded, and where the cursor stands afterwards,
 * also after a failure (the top-level entry point reports that position).
 * Positions are absolute in the buffer; the sub-reader that
 * `parse_into_json_value` opens at `_buff + _position` is the same buffer
 * read from the current position on.
 */
module CborDecode {
  import opened Base
  import opened BigEndian
  import opened CborBuild
  import opened CborTable
  import opened JsonValue

  /** Reader::INDEFINITE_LENGTH, size_t(-1). */
  const INDEFINITE_LENGTH: int := SIZE_MAX

  /** What a read produced (None on failure) and the cursor afterwards. */
  datatype Read<T> = Read(res: Option<T>, pos: nat)

  /** Shape shared by every read: the cursor stays in the buffer, a success consumes. */
  predicate Consumes<T>(b: seq<uint8>, pos: nat, r: Read<T>)
  {
    pos <= r.pos <= |b| && (r.res.Some? ==> r.pos > pos)
  }

  /** read_character: one byte, or failure without moving at the end. */
  function ReadCharacter(b: seq<uint8>, pos: nat): (r: Read<uint8>)
    requires pos <= |b|
    ensures r.res.Some? <==> pos < |b|
    ensures r.res.Some? ==> r.res.value == b[pos] && r.pos == pos + 1
    ensures r.res.None? ==> r.pos == pos
  {
    if pos < |b| then Read(Some(b[pos]), pos + 1) else Read(None, pos)
  }

  /**
   * read_next_type: classifies the byte under the cursor without consuming it;
   * fails at the end of the buffer and on an Unknown lead byte.
   */
  function NextType(b: seq<uint8>, pos: nat): (t: Option<MajorType>)
    requires pos <= |b|
    ensures t.Some? <==> pos < |b| && Classify(b[pos]) != Unknown
    ensures t.Some? ==> t.value == Classify(b[pos])
  {
    if pos < |b| && Classify(b[pos]) != Unknown then Some(Classify(b[pos])) else None
  }

  /** skip_a_character */
  function SkipCharacter(b: seq<uint8>, pos: nat): (r: Read<bool>)
    requires pos <= |b|
    ensures r.res == Some(pos < |b|)
    ensures r.pos == if pos < |b| then pos + 1 else pos
  {
    if pos < |b| then Read(Some(true), pos + 1) else Read(Some(false), pos)
  }

  /**
   * decode_number<T>: `w` = sizeof(T) bytes read one by one, most significant
   * first.  When fewer remain, every remaining byte has been consumed before the
   * failure.
   */
  function DecodeNumber(b: seq<uint8>, pos: nat, w: nat): (r: Read<nat>)
    requires pos <= |b|
    ensures r.res.Some? <==> pos + w <= |b|
    ensures r.res.Some? ==> r.pos == pos + w && r.res.value < Pow256(w)
    ensures r.res.None? ==> r.pos == |b|
  {
    if pos + w <= |b| then Read(Some(DecodeBE(b[pos..pos + w])), pos + w) else Read(None, |b|)
  }

  /** read_unsigned_number */
  function ReadUnsigned(b: seq<uint8>, pos: nat): (r: Read<int>)
    requires pos <= |b|
    ensures Consumes(b, pos, r)
    ensures r.res.Some? ==> 0 <= r.res.value < TWO_64
    ensures pos < |b| && b[pos] > 0x1B ==> r == Read(None, pos + 1)
  {
    var c := ReadCharacter(b, pos);
    if c.res.None? then Read(None, pos)
    else
      var x := c.res.value;
      if x <= 0x17 then Read(Some(x), pos + 1)
      else if x <= 0x1B then
        assert Pow256(8) == TWO_64 by { Pow256Values(); }
        var d := DecodeNumber(b, pos + 1, ArgWidth(x));
        Read(if d.res.Some? then Some(d.res.value as int) else None, d.pos)
      else Read(None, pos + 1)
  }

  /**
   * read_negative_number: -1 - n for the argument n.  For the 8-byte form the
   * C++ code computes `int64_t(-1) - static_cast<int64_t>(n)`, so an argument
   * of 2^63 or more wraps to a non-negative result.
   */
  function ReadNegative(b: seq<uint8>, pos: nat): (r: Read<int>)
    requires pos <= |b|
    ensures Consumes(b, pos, r)
    ensures r.res.Some? ==> -TWO_63 <= r.res.value < TWO_63
    ensures pos < |b| && !(0x20 <= b[pos] <= 0x3B) ==> r == Read(None, pos + 1)
  {
    var c := ReadCharacter(b, pos);
    if c.res.None? then Read(None, pos)
    else
      var x := c.res.value;
      if 0x20 <= x <= 0x37 then Read(Some(0x20 - 1 - x), pos + 1)
      else if 0x38 <= x <= 0x3A then
        Pow256Values();
        var d := DecodeNumber(b, pos + 1, ArgWidth(x - 0x20));
        Read(if d.res.Some? then Some(-1 - d.res.value) else None, d.pos)
      else if x == 0x3B then
        Pow256Values();
        var d := DecodeNumber(b, pos + 1, 8);
        Read(if d.res.Some? then Some(-1 - WrapInt64(d.res.value)) else None, d.pos)
      else Read(None, pos + 1)
  }

  /**
   * The bound check of read_string(len, s) as the C++ code evaluates it:
   * `_position + len` is a size_t sum, reduced modulo 2^64.
   */
  predicate LengthExceedsAsWritten(pos: nat, len: nat, size: nat)
  {
    ToUint64(pos + len) > size
  }

  /** The bound as intended: fewer than len bytes remain after pos. */
  predicate LengthExceeds(pos: nat, len: nat, size: nat)
    requires pos <= size
  {
    len > size - pos
  }

  /**
   * read_string(len, s): copies len bytes, or fails without reading when fewer
   * remain.  The model uses the intended bound check `LengthExceeds`.
   */
  function ReadStringLen(b: seq<uint8>, pos: nat, len: nat): (r: Read<Text>)
    requires pos <= |b|
    ensures r.res.Some? <==> pos + len <= |b|
    ensures r.res.Some? ==> r.pos == pos + len && TextBytes(r.res.value) == b[pos..pos + len]
    ensures r.res.None? ==> r.pos == pos
  {
    if LengthExceeds(pos, len, |b|) then Read(None, pos)
    else
      var s := BytesText(b[pos..pos + len]);
      assert TextBytes(s) == b[pos..pos + len];
      Read(Some(s), pos + len)
  }

  /**
   * read_string(s): a definite-length text string (length embedded or in 1, 2,
   * 4 or 8 bytes), or an indefinite one (0x7F) made of chunks up to a break byte.
   */
  function ReadString(b: seq<uint8>, pos: nat): (r: Read<Text>)
    requires pos <= |b|
    ensures Consumes(b, pos, r)
    ensures pos < |b| && !(0x60 <= b[pos] <= 0x7B || b[pos] == 0x7F) ==> r == Read(None, pos + 1)
    decreases |b| - pos, 0
  {
    var c := ReadCharacter(b, pos);
    if c.res.None? then Read(None, pos)
    else
      var x := c.res.value;
      if 0x60 <= x <= 0x77 then ReadStringLen(b, pos + 1, x - 0x60)
      else if 0x78 <= x <= 0x7B then
        var d := DecodeNumber(b, pos + 1, ArgWidth(x - 0x60));
        if d.res.None? then Read(None, d.pos) else ReadStringLen(b, d.pos, d.res.value)
      else if x == 0x7F then Chunks(b, pos + 1, [])
      else Read(None, pos + 1)
  }

  /**
   * The indefinite-length loop of read_string: chunks (any string form) are
   * appended until the byte under the cursor is the break code, which is left
   * unconsumed.  Running off the end of the buffer is a failure here; the C++
   * loop reads past the buffer.
   */
  function Chunks(b: seq<uint8>, p: nat, acc: Text): (r: Read<Text>)
    requires p <= |b|
    ensures p <= r.pos <= |b|
    ensures r.res.Some? ==> r.pos < |b| && b[r.pos] == BREAK_CODE
    decreases |b| - p, 1
  {
    if p == |b| then Read(None, p)
    else if b[p] == BREAK_CODE then Read(Some(acc), p)
    else
      var s := ReadString(b, p);
      if s.res.None? then Read(None, s.pos) else Chunks(b, s.pos, acc + s.res.value)
  }

  /**
   * read_array_size and read_object_size, which differ only in the major type:
   * the count embedded or in 1, 2, 4 or 8 bytes, or INDEFINITE_LENGTH for the
   * indefinite lead byte base + 0x1F.
   */
  function ReadSize(b: seq<uint8>, pos: nat, base: int): (r: Read<int>)
    requires pos <= |b| && (base == ARRAY_BASE || base == OBJECT_BASE)
    ensures Consumes(b, pos, r)
    ensures r.res.Some? ==> 0 <= r.res.value < TWO_64
    ensures pos < |b| && b[pos] == base + 0x1F ==> r == Read(Some(INDEFINITE_LENGTH), pos + 1)
    ensures pos < |b| && !(base <= b[pos] <= base + 0x1B || b[pos] == base + 0x1F) ==> r == Read(None, pos + 1)
  {
    var c := ReadCharacter(b, pos);
    if c.res.None? then Read(None, pos)
    else
      var x := c.res.value;
      if base <= x <= base + 0x17 then Read(Some(x - base), pos + 1)
      else if base + 0x18 <= x <= base + 0x1B then
        Pow256Values();
        var d := DecodeNumber(b, pos + 1, ArgWidth(x - base));
        Read(if d.res.Some? then Some(d.res.value as int) else None, d.pos)
      else if x == base + 0x1F then Read(Some(INDEFINITE_LENGTH), pos + 1)
      else Read(None, pos + 1)
  }

  /**
   * read_array_size: nothing to read fails; 0x80..0x97 hold the count;
   * 0x98..0x9B announce it in 1, 2, 4 or 8 bytes, failing at the end of a
   * short buffer; 0x9F is indefinite; any other byte fails after itself.
   */
  function ReadArraySize(b: seq<uint8>, pos: nat): (r: Read<int>)
    requires pos <= |b|
    ensures r == ReadSize(b, pos, ARRAY_BASE)
    ensures pos == |b| ==> r == Read(None, pos)
    ensures pos < |b| && 0x80 <= b[pos] <= 0x97 ==> r == Read(Some(b[pos] - 0x80), pos + 1)
    ensures pos < |b| && 0x98 <= b[pos] <= 0x9B ==>
      (pos + ArgWidth(b[pos] - 0x80) + 1 <= |b| <==> r.res.Some?)
      && r.pos == (if r.res.Some? then pos + 1 + ArgWidth(b[pos] - 0x80) else |b|)
      && (r.res.Some? ==> r.res.value == DecodeBE(b[pos + 1..r.pos]))
    ensures pos < |b| && b[pos] == 0x9F ==> r == Read(Some(INDEFINITE_LENGTH), pos + 1)
    ensures pos < |b| && !(0x80 <= b[pos] <= 0x9B || b[pos] == 0x9F) ==> r == Read(None, pos + 1)
  {
    ReadSize(b, pos, ARRAY_BASE)
  }

  /** read_object_size: the same cases as read_array_size, on 0xA0..0xBF. */
  function ReadObjectSize(b: seq<uint8>, pos: nat): (r: Read<int>)
    requires pos <= |b|
    ensures r == ReadSize(b, pos, OBJECT_BASE)
    ensures pos == |b| ==> r == Read(None, pos)
    ensures pos < |b| && 0xA0 <= b[pos] <= 0xB7 ==> r == Read(Some(b[pos] - 0xA0), pos + 1)
    ensures pos < |b| && 0xB8 <= b[pos] <= 0xBB ==>
      (pos + ArgWidth(b[pos] - 0xA0) + 1 <= |b| <==> r.res.Some?)
      && r.pos == (if r.res.Some? then pos + 1 + ArgWidth(b[pos] - 0xA0) else |b|)
      && (r.res.Some? ==> r.res.value == DecodeBE(b[pos + 1..r.pos]))
    ensures pos < |b| && b[pos] == 0xBF ==> r == Read(Some(INDEFINITE_LENGTH), pos + 1)
    ensures pos < |b| && !(0xA0 <= b[pos] <= 0xBB || b[pos] == 0xBF) ==> r == Read(None, pos + 1)
  {
    ReadSize(b, pos, OBJECT_BASE)
  }

  /** read_false, read_true, read_null: one byte consumed, success only on `code`. */
  function ReadSimple(b: seq<uint8>, pos: nat, code: uint8): (r: Read<bool>)
    requires pos <= |b|
    ensures r.pos == if pos < |b| then pos + 1 else pos
    ensures r.res == Some(true) <==> pos < |b| && b[pos] == code
  {
    var c := ReadCharacter(b, pos);
    Read(Some(c.res.Some? && c.res.value == code), c.pos)
  }

  // ---------------------------------------------------------------------------
  // Items

  /**
   * The body shared by parse_into_json_value and
   * parse_into_arbitrary_json_object: classify the byte under the cursor and
   * read one item of that type.  On failure the position is where the reader
   * stopped.  A float item is reported as a failure without moving (floating
   * point is not modelled).
   */
  function ReadItem(b: seq<uint8>, pos: nat): (r: Read<Value>)
    requires pos <= |b|
    ensures pos <= r.pos <= |b|
    ensures r.res.Some? ==> r.pos > pos
    decreases |b| - pos, 2
  {
    var t := NextType(b, pos);
    if t.None? then Read(None, pos)
    else
      match t.value
      case UnsignedInteger =>
        var n := ReadUnsigned(b, pos);
        Read(if n.res.Some? then Some(Num(FromUnsigned(n.res.value))) else None, n.pos)
      case NegativeInteger =>
        var n := ReadNegative(b, pos);
        Read(if n.res.Some? then Some(Num(FromSigned(n.res.value))) else None, n.pos)
      case String =>
        var s := ReadString(b, pos);
        Read(if s.res.Some? then Some(Str(s.res.value)) else None, s.pos)
      case Array => ReadArray(b, pos)
      case Object => ReadObject(b, pos)
      case False => Read(Some(Boolean(false)), pos + 1)
      case True => Read(Some(Boolean(true)), pos + 1)
      case Null => Read(Some(JsonValue.Null), pos + 1)
      case Float => Read(None, pos)
      case Unknown => Read(None, pos)
  }

  /**
   * parse_into_json_value: one nested item.  On success the cursor is past the
   * item; on failure the enclosing reader has not moved.
   */
  function ParseValue(b: seq<uint8>, pos: nat): (r: Read<Value>)
    requires pos <= |b|
    ensures pos <= r.pos <= |b|
    ensures r.res.Some? ==> r.pos > pos
    ensures r.res.None? ==> r.pos == pos
    decreases |b| - pos, 3
  {
    var r := ReadItem(b, pos);
    if r.res.Some? then r else Read(None, pos)
  }

  /** read_array */
  function ReadArray(b: seq<uint8>, pos: nat): (r: Read<Value>)
    requires pos <= |b|
    ensures pos <= r.pos <= |b|
    ensures r.res.Some? ==> r.pos > pos && r.res.value.Arr?
    decreases |b| - pos, 1
  {
    var n := ReadArraySize(b, pos);
    if n.res.None? then Read(None, n.pos)
    else if n.res.value == INDEFINITE_LENGTH then ArrayIndefinite(b, n.pos, [])
    else ArrayDefinite(b, n.pos, n.res.value, [])
  }

  /** The counted loop of read_array: `count` more items, each stored in order. */
  function ArrayDefinite(b: seq<uint8>, p: nat, count: nat, acc: seq<Option<Value>>): (r: Read<Value>)
    requires p <= |b|
    ensures p <= r.pos <= |b|
    ensures r.res.Some? ==> r.res.value.Arr? && |r.res.value.items| == |acc| + count
    ensures r.res.Some? ==> r.res.value.items[..|acc|] == acc
    decreases |b| - p, 4
  {
    if count == 0 then Read(Some(Arr(acc)), p)
    else
      var e := ParseValue(b, p);
      if e.res.None? then Read(None, p)
      else ArrayDefinite(b, e.pos, count - 1, acc + [Some(e.res.value)])
  }

  /**
   * The break loop of read_array: items are appended until the break byte,
   * which is consumed.  Running off the end is a failure.
   */
  function ArrayIndefinite(b: seq<uint8>, p: nat, acc: seq<Option<Value>>): (r: Read<Value>)
    requires p <= |b|
    ensures p <= r.pos <= |b|
    ensures r.res.Some? ==> r.pos > p && r.res.value.Arr? && |r.res.value.items| >= |acc|
    ensures r.res.Some? ==> r.res.value.items[..|acc|] == acc
    ensures r.res.Some? ==> b[r.pos - 1] == BREAK_CODE
    decreases |b| - p, 4
  {
    if p == |b| then Read(None, p)
    else if b[p] == BREAK_CODE then Read(Some(Arr(acc)), p + 1)
    else
      var e := ParseValue(b, p);
      if e.res.None? then Read(None, p)
      else ArrayIndefinite(b, e.pos, acc + [Some(e.res.value)])
  }

  /** read_object */
  function ReadObject(b: seq<uint8>, pos: nat): (r: Read<Value>)
    requires pos <= |b|
    ensures pos <= r.pos <= |b|
    ensures r.res.Some? ==> r.pos > pos && r.res.value.Obj?
    decreases |b| - pos, 1
  {
    var n := ReadObjectSize(b, pos);
    if n.res.None? then Read(None, n.pos)
    else if n.res.value == INDEFINITE_LENGTH then ObjectIndefinite(b, n.pos, map[])
    else ObjectDefinite(b, n.pos, n.res.value, map[])
  }

  /**
   * The counted loop of read_object: a key string read by this reader, then the
   * value as a nested item; `set_value` overwrites a repeated key.
   */
  function ObjectDefinite(b: seq<uint8>, p: nat, count: nat, acc: map<Text, Option<Value>>): (r: Read<Value>)
    requires p <= |b|
    ensures p <= r.pos <= |b|
    ensures r.res.Some? ==> r.res.value.Obj? && acc.Keys <= r.res.value.entries.Keys
    decreases |b| - p, 4
  {
    if count == 0 then Read(Some(Obj(acc)), p)
    else
      var k := ReadString(b, p);
      if k.res.None? then Read(None, k.pos)
      else
        var e := ParseValue(b, k.pos);
        if e.res.None? then Read(None, k.pos)
        else ObjectDefinite(b, e.pos, count - 1, acc[k.res.value := Some(e.res.value)])
  }

  /** The break loop of read_object; the break byte is consumed. */
  function ObjectIndefinite(b: seq<uint8>, p: nat, acc: map<Text, Option<Value>>): (r: Read<Value>)
    requires p <= |b|
    ensures p <= r.pos <= |b|
    ensures r.res.Some? ==> r.pos > p && r.res.value.Obj? && acc.Keys <= r.res.value.entries.Keys
    ensures r.res.Some? ==> b[r.pos - 1] == BREAK_CODE
    decreases |b| - p, 4
  {
    if p == |b| then Read(None, p)
    else if b[p] == BREAK_CODE then Read(Some(Obj(acc)), p + 1)
    else
      var k := ReadString(b, p);
      if k.res.None? then Read(None, k.pos)
      else
        var e := ParseValue(b, k.pos);
        if e.res.None? then Read(None, k.pos)
        else ObjectIndefinite(b, e.pos, acc[k.res.value := Some(e.res.value)])
  }

  /**
   * parse_into_arbitrary_json_object(bin, len, &transfer_bytes): the item at the
   * start of the buffer, absent on failure, and the reader position reached,
   * which is reported as transfer_bytes in both cases.
   */
  function ParseArbitrary(b: seq<uint8>): (r: Read<Value>)
    ensures r.pos <= |b|
    ensures r.res.Some? ==> r.pos > 0
    ensures |b| == 0 ==> r == Read(None, 0)
  {
    ReadItem(b, 0)
  }

  /**
   * One entry of either object loop: the key string, then the value as a
   * nested item.  When the value fails, the position is the one after the key.
   */
  function ReadPair(b: seq<uint8>, p: nat): (r: Read<(Text, Value)>)
    requires p <= |b|
    ensures p <= r.pos <= |b|
  {
    var k := ReadString(b, p);
    if k.res.None? then Read(None, k.pos)
    else
      var e := ParseValue(b, k.pos);
      if e.res.None? then Read(None, k.pos) else Read(Some((k.res.value, e.res.value)), e.pos)
  }

  /** A turn of the chunk loop of read_string, under a byte that is not the break. */
  lemma ChunksTurn(b: seq<uint8>, p: nat, acc: Text, goal: Read<Text>, r: Read<Text>)
    requires p < |b| && b[p] != BREAK_CODE && Chunks(b, p, acc) == goal && ReadString(b, p) == r
    ensures r.res.None? ==> goal == Read(None, r.pos)
    ensures r.res.Some? ==> Chunks(b, r.pos, acc + r.res.value) == goal
  {
  }

  /** A turn of the counted array loop: one nested item, or the failure of the whole read. */
  lemma ArrayDefiniteTurn(b: seq<uint8>, p: nat, count: nat, acc: seq<Option<Value>>, goal: Read<Value>, r: Read<Value>)
    requires p <= |b| && count > 0 && ArrayDefinite(b, p, count, acc) == goal && ParseValue(b, p) == r
    ensures r.res.None? ==> goal == Read(None, p)
    ensures r.res.Some? ==> ArrayDefinite(b, r.pos, count - 1, acc + [r.res]) == goal
  {
  }

  /** A turn of the break loop of read_array, under a byte that is not the break. */
  lemma ArrayIndefiniteTurn(b: seq<uint8>, p: nat, acc: seq<Option<Value>>, goal: Read<Value>, r: Read<Value>)
    requires p < |b| && b[p] != BREAK_CODE && ArrayIndefinite(b, p, acc) == goal && ParseValue(b, p) == r
    ensures r.res.None? ==> goal == Read(None, p)
    ensures r.res.Some? ==> ArrayIndefinite(b, r.pos, acc + [r.res]) == goal
  {
  }

  /** A turn of the counted object loop: one pair, or the failure of the whole read. */
  lemma ObjectDefiniteTurn(b: seq<uint8>, p: nat, count: nat, acc: map<Text, Option<Value>>,
                           goal: Read<Value>, r: Read<(Text, Value)>)
    requires p <= |b| && count > 0 && ObjectDefinite(b, p, count, acc) == goal && ReadPair(b, p) == r
    ensures r.res.None? ==> goal == Read(None, r.pos)
    ensures r.res.Some? ==> ObjectDefinite(b, r.pos, count - 1, acc[r.res.value.0 := Some(r.res.value.1)]) == goal
  {
  }

  /** A turn of the break loop of read_object, under a byte that is not the break. */
  lemma ObjectIndefiniteTurn(b: seq<uint8>, p: nat, acc: map<Text, Option<Value>>,
                             goal: Read<Value>, r: Read<(Text, Value)>)
    requires p < |b| && b[p] != BREAK_CODE && ObjectIndefinite(b, p, acc) == goal && ReadPair(b, p) == r
    ensures r.res.None? ==> goal == Read(None, r.pos)
    ensures r.res.Some? ==> ObjectIndefinite(b, r.pos, acc[r.res.value.0 := Some(r.res.value.1)]) == goal
  {
  }

  // ---------------------------------------------------------------------------
  // What the dispatch on the lead byte does for each range the encoders produce

  lemma ItemUnsigned(b: seq<uint8>, pos: nat, x: int, q: nat)
    requires pos < |b| && b[pos] <= 0x1B && ReadUnsigned(b, pos) == Read(Some(x), q)
    ensures ReadItem(b, pos) == Read(Some(Num(FromUnsigned(x))), q)
  {
    ClassifyRanges(b[pos]);
  }

  lemma ItemNegative(b: seq<uint8>, pos: nat, x: int, q: nat)
    requires pos < |b| && 0x20 <= b[pos] <= 0x3B && ReadNegative(b, pos) == Read(Some(x), q)
    ensures ReadItem(b, pos) == Read(Some(Num(FromSigned(x))), q)
  {
    ClassifyRanges(b[pos]);
  }

  lemma ItemString(b: seq<uint8>, pos: nat, s: Text, q: nat)
    requires pos < |b| && 0x60 <= b[pos] <= 0x7B && ReadString(b, pos) == Read(Some(s), q)
    ensures ReadItem(b, pos) == Read(Some(Str(s)), q)
  {
    ClassifyRanges(b[pos]);
  }

  lemma ItemArray(b: seq<uint8>, pos: nat)
    requires pos < |b| && 0x80 <= b[pos] <= 0x9B
    ensures ReadItem(b, pos) == ReadArray(b, pos)
  {
    ClassifyRanges(b[pos]);
  }

  lemma ItemObject(b: seq<uint8>, pos: nat)
    requires pos < |b| && 0xA0 <= b[pos] <= 0xBB
    ensures ReadItem(b, pos) == ReadObject(b, pos)
  {
    ClassifyRanges(b[pos]);
  }

  /** The three simple values occupy one byte each. */
  lemma ItemSimple(b: seq<uint8>, pos: nat)
    requires pos < |b|
    ensures b[pos] == FALSE_CODE ==> ReadItem(b, pos) == Read(Some(Boolean(false)), pos + 1)
    ensures b[pos] == TRUE_CODE ==> ReadItem(b, pos) == Read(Some(Boolean(true)), pos + 1)
    ensures b[pos] == NULL_CODE ==> ReadItem(b, pos) == Read(Some(JsonValue.Null), pos + 1)
  {
  }

  /** read_string after its lead byte: the form that byte selects. */
  lemma StringLead(b: seq<uint8>, pos: nat)
    requires pos < |b|
    ensures 0x60 <= b[pos] <= 0x77 ==> ReadString(b, pos) == ReadStringLen(b, pos + 1, b[pos] - 0x60)
    ensures 0x78 <= b[pos] <= 0x7B ==>
      var d := DecodeNumber(b, pos + 1, ArgWidth(b[pos] - 0x60));
      ReadString(b, pos) == if d.res.None? then Read(None, d.pos) else ReadStringLen(b, d.pos, d.res.value)
    ensures b[pos] == 0x7F ==> ReadString(b, pos) == Chunks(b, pos + 1, [])
    ensures !(0x60 <= b[pos] <= 0x7B) && b[pos] != 0x7F ==> ReadString(b, pos) == Read(None, pos + 1)
  {
  }

  /** A nested item that reads successfully is reported as it is. */
  lemma ParseValueItem(b: seq<uint8>, pos: nat, x: Value, q: nat)
    requires pos <= |b| && ReadItem(b, pos) == Read(Some(x), q)
    ensures ParseValue(b, pos) == Read(Some(x), q)
  {
  }

  // ---------------------------------------------------------------------------
  // The size_t bound check of read_string(len, s)

  /** Without wrap-around the bound as written and the intended one agree. */
  lemma LengthCheckAgrees(pos: nat, len: nat, size: nat)
    requires pos <= size && pos + len < TWO_64
    ensures LengthExceedsAsWritten(pos, len, size) <==> LengthExceeds(pos, len, size)
  {
  }

  /**
   * The 8-byte string head 0x7B FF FF FF FF FF FF FF FF announces 2^64 - 1
   * bytes where none follow; at position 9 the wrapped sum is 8, so the bound
   * as written lets the read through (the C++ code then asks `resize` for
   * 2^64 - 1 characters, which throws).  The intended bound refuses it and
   * read_string fails with the cursor after the head.
   */
  lemma LengthCheckWraps()
    ensures var b: seq<uint8> := [0x7B, 0xFF, 0xFF, 0xFF, 0xFF, 0xFF, 0xFF, 0xFF, 0xFF];
      && DecodeNumber(b, 1, 8) == Read(Some(SIZE_MAX), 9)
      && !LengthExceedsAsWritten(9, SIZE_MAX, |b|)
      && LengthExceeds(9, SIZE_MAX, |b|)
      && ReadString(b, 0) == Read(None, 9)
  {
    var b: seq<uint8> := [0x7B, 0xFF, 0xFF, 0xFF, 0xFF, 0xFF, 0xFF, 0xFF, 0xFF];
    assert b[1..9] == seq(8, _ => 0xFF);
    AllOnes(8);
    Pow256Values();
  }

  /**
   * The indefinite-length string loop stops at the break byte without
   * consuming it: `7F 61 61 FF` decodes to "a" with three of its four bytes
   * consumed.  Inside an indefinite array the left-over break is taken as the
   * array's own break, so `9F 7F 61 61 FF FF` decodes to ["a"] with five of
   * its six bytes consumed.  A definite array whose last element is such a
   * string, `81 7F 61 61 FF`, decodes to ["a"] before the break.
   */
  lemma IndefiniteStringLeavesBreak()
    ensures ReadString([0x7F, 0x61, 0x61, 0xFF], 0) == Read(Some(['a']), 3)
    ensures ParseArbitrary([0x7F, 0x61, 0x61, 0xFF]) == Read(Some(Str(['a'])), 3)
    ensures ParseArbitrary([0x9F, 0x7F, 0x61, 0x61, 0xFF, 0xFF]) == Read(Some(Arr([Some(Str(['a']))])), 5)
    ensures ParseArbitrary([0x81, 0x7F, 0x61, 0x61, 0xFF]) == Read(Some(Arr([Some(Str(['a']))])), 4)
  {
    var b: seq<uint8> := [0x7F, 0x61, 0x61, 0xFF];
    var a: Text := ['a'];
    OneChunk(b, 0);
    var c: seq<uint8> := [0x9F, 0x7F, 0x61, 0x61, 0xFF, 0xFF];
    OneChunk(c, 1);
    assert ParseValue(c, 1) == Read(Some(Str(a)), 4);
    assert ArrayIndefinite(c, 4, [Some(Str(a))]) == Read(Some(Arr([Some(Str(a))])), 5);
    assert [] + [Some(Str(a))] == [Some(Str(a))];
    assert ArrayIndefinite(c, 1, []) == Read(Some(Arr([Some(Str(a))])), 5);
    var d: seq<uint8> := [0x81, 0x7F, 0x61, 0x61, 0xFF];
    OneChunk(d, 1);
    assert ParseValue(d, 1) == Read(Some(Str(a)), 4);
  }

  /** The string `7F 61 61 FF` at p reads as "a" and stops before its break. */
  lemma OneChunk(b: seq<uint8>, p: nat)
    requires p + 4 <= |b| && b[p..p + 4] == [0x7F, 0x61, 0x61, 0xFF]
    ensures ReadString(b, p) == Read(Some(['a']), p + 3)
  {
    var a: Text := ['a'];
    assert b[p] == b[p..p + 4][0] && b[p + 2] == b[p..p + 4][2] && b[p + 3] == b[p..p + 4][3];
    assert b[p + 2..p + 3] == [0x61];
    assert BytesText(b[p + 2..p + 3]) == a by {
      assert BytesText(b[p + 2..p + 3])[0] == 'a';
    }
    assert ReadString(b, p + 1) == Read(Some(a), p + 3);
    assert Chunks(b, p + 3, a) == Read(Some(a), p + 3);
    assert [] + a == a;
    assert Chunks(b, p + 1, []) == Read(Some(a), p + 3);
  }

  /**
   * When another element follows such a string in a definite array, the
   * left-over break is read as that element's lead byte.  The model
   * classifies 0xFF as Unknown, so `82 7F FF 01` fails.
   */
  lemma BreakBeforeNextElement()
    ensures ParseArbitrary([0x82, 0x7F, 0xFF, 0x01]).res.None?
  {
    var c: seq<uint8> := [0x82, 0x7F, 0xFF, 0x01];
    assert Chunks(c, 2, []) == Read(Some([]), 2);
    assert ParseValue(c, 1) == Read(Some(Str([])), 2);
    assert ParseValue(c, 2) == Read(None, 2);
    assert ArrayDefinite(c, 1, 2, []) == Read(None, 2);
  }
}
