/**
 * `cbor::Reader` of src/cbor.h and src/cbor.cc: a cursor over a byte buffer.
 *
 * The C++ reader holds a pointer `_buff`, a size and a position.  Here `buff`
 * is the whole buffer the pointer lies in, `start` the offset the pointer
 * stands at and `position` the C++ `_position`, counted from `start`; the
 * reader ends where the buffer ends.  The sub-reader that
 * `parse_into_json_value` opens at `_buff + _position` is `Sub(buff,
 * Cursor(), table)`.  `table` is the reader's view of the global lead-byte
 * table.
 *
 * Every method is proved against the decoder function of CborDecode with the
 * same name: what it returns, and where the cursor stands afterwards.  The
 * readers build `Value` trees; the nodes the C++ code allocates are modelled
 * by the node classes, and CborDecode describes the result as a value.
 */
module CborReader {
  import opened Base
  import opened BigEndian
  import opened CborBuild
  import opened CborTable
  import opened JsonValue
  import opened CborDecode

  class Reader {
    const buff: seq<uint8>
    const start: nat
    const table: TypeTable
    var position: nat

    ghost predicate Valid()
      reads this, table
    {
      start + position <= |buff| && table.Valid()
    }

    /** The cursor as an offset in `buff`. */
    function Cursor(): nat
      reads this
    {
      start + position
    }

    /** Reader(ptr, size) over a whole buffer. */
    constructor (b: seq<uint8>, t: TypeTable)
      requires t.Valid()
      ensures Valid() && buff == b && start == 0 && position == 0 && table == t
    {
      buff := b;
      start := 0;
      table := t;
      position := 0;
    }

    /** Reader(_buff + _position, _size - _position): a reader starting at offset s. */
    constructor Sub(b: seq<uint8>, s: nat, t: TypeTable)
      requires s <= |b| && t.Valid()
      ensures Valid() && buff == b && start == s && position == 0 && table == t
    {
      buff := b;
      start := s;
      table := t;
      position := 0;
    }

    /** current_position() */
    function CurrentPosition(): (p: nat)
      reads this
      ensures start + p == Cursor()
    {
      position
    }

    /** get_next_character: the byte under the cursor, which stays where it is. */
    function GetNextCharacter(): (c: Option<uint8>)
      reads this, table
      requires Valid()
      ensures c.Some? <==> Cursor() < |buff|
      ensures c.Some? ==> c.value == buff[Cursor()]
    {
      if start + position < |buff| then Some(buff[start + position]) else None
    }

    /** read_next_type */
    function ReadNextType(): (t: Option<MajorType>)
      reads this, table
      requires Valid()
      ensures t == NextType(buff, Cursor())
    {
      var c := GetNextCharacter();
      if c.None? then None
      else
        var m := table.Get(c.value);
        if m == Unknown then None else Some(m)
    }

    /** read_character */
    method ReadCharacter() returns (c: Option<uint8>)
      requires Valid()
      modifies this
      ensures Valid()
      ensures Read(c, Cursor()) == CborDecode.ReadCharacter(buff, old(Cursor()))
    {
      if start + position < |buff| {
        c := Some(buff[start + position]);
        position := position + 1;
      } else {
        c := None;
      }
    }

    /** skip_a_character */
    method SkipACharacter() returns (ok: bool)
      requires Valid()
      modifies this
      ensures Valid()
      ensures Read(Some(ok), Cursor()) == SkipCharacter(buff, old(Cursor()))
    {
      ok := start + position < |buff|;
      if ok {
        position := position + 1;
      }
    }

    /**
     * decode_number<T>, w = sizeof(T): w calls of read_character, the bytes
     * taken most significant first.
     */
    method DecodeNumber(w: nat) returns (r: Option<nat>)
      requires Valid()
      modifies this
      ensures Valid()
      ensures Read(r, Cursor()) == CborDecode.DecodeNumber(buff, old(Cursor()), w)
    {
      ghost var p0 := Cursor();
      var value := 0;
      var i := 0;
      while i < w
        invariant Valid() && i <= w
        invariant Cursor() == p0 + i
        invariant value == DecodeBE(buff[p0..p0 + i])
      {
        var c := ReadCharacter();
        if c.None? {
          return None;
        }
        assert buff[p0..p0 + i + 1][..i] == buff[p0..p0 + i];
        value := value * 256 + c.value;
        i := i + 1;
      }
      r := Some(value);
    }

    /** read_unsigned_number */
    method ReadUnsignedNumber() returns (value: Option<int>)
      requires Valid()
      modifies this
      ensures Valid()
      ensures Read(value, Cursor()) == ReadUnsigned(buff, old(Cursor()))
    {
      var c := ReadCharacter();
      if c.None? {
        return None;
      }
      var x := c.value;
      if x <= 0x17 {
        return Some(x);
      }
      var w := 0;
      if x == 0x18 {
        w := 1;
      } else if x == 0x19 {
        w := 2;
      } else if x == 0x1A {
        w := 4;
      } else if x == 0x1B {
        w := 8;
      } else {
        return None;
      }
      var d := DecodeNumber(w);
      value := if d.Some? then Some(d.value as int) else None;
    }

    /** read_negative_number; the 8-byte argument goes through int64_t. */
    method ReadNegativeNumber() returns (value: Option<int>)
      requires Valid()
      modifies this
      ensures Valid()
      ensures Read(value, Cursor()) == ReadNegative(buff, old(Cursor()))
    {
      var c := ReadCharacter();
      if c.None? {
        return None;
      }
      var x := c.value;
      if 0x20 <= x <= 0x37 {
        return Some(0x20 - 1 - x as int);
      }
      var w := 0;
      if x == 0x38 {
        w := 1;
      } else if x == 0x39 {
        w := 2;
      } else if x == 0x3A {
        w := 4;
      } else if x == 0x3B {
        Pow256Values();
        var d := DecodeNumber(8);
        return if d.Some? then Some(-1 - WrapInt64(d.value)) else None;
      } else {
        return None;
      }
      var d := DecodeNumber(w);
      value := if d.Some? then Some(-1 - d.value) else None;
    }

    /**
     * read_string(len, s): fails without reading when fewer than len bytes
     * remain, else copies them one by one.
     */
    method ReadStringOfLength(len: nat) returns (s: Option<Text>)
      requires Valid()
      modifies this
      ensures Valid()
      ensures Read(s, Cursor()) == ReadStringLen(buff, old(Cursor()), len)
    {
      if LengthExceeds(start + position, len, |buff|) {
        return None;
      }
      ghost var p0 := Cursor();
      var t: Text := [];
      for i := 0 to len
        invariant Cursor() == p0 + i
        invariant t == BytesText(buff[p0..p0 + i])
      {
        t := t + [buff[start + position] as char];
        position := position + 1;
      }
      s := Some(t);
    }

    /** The width of the length field after a string, array or object lead byte. */
    static function ArgumentWidth(ai: uint8): (w: nat)
      requires 0x18 <= ai <= 0x1B
      ensures w == ArgWidth(ai)
    {
      if ai == 0x18 then 1 else if ai == 0x19 then 2 else if ai == 0x1A then 4 else 8
    }

    /**
     * read_string(s): definite-length strings, and the indefinite form whose
     * chunks are read until the break byte, which is left in place.  Running
     * off the end of the buffer in that loop is a failure.
     */
    method ReadString() returns (s: Option<Text>)
      requires Valid()
      modifies this
      ensures Valid()
      ensures Read(s, Cursor()) == CborDecode.ReadString(buff, old(Cursor()))
      decreases |buff| - Cursor(), 0
    {
      ghost var p := Cursor();
      var c := ReadCharacter();
      if c.None? {
        return None;
      }
      var x := c.value;
      StringLead(buff, p);
      if 0x60 <= x <= 0x77 {
        s := ReadStringOfLength(x - 0x60);
      } else if 0x78 <= x <= 0x7B {
        var d := DecodeNumber(ArgumentWidth(x - 0x60));
        if d.None? {
          return None;
        }
        s := ReadStringOfLength(d.value);
      } else if x == 0x7F {
        s := ReadChunks();
      } else {
        s := None;
      }
    }

    /**
     * The loop of read_string for the indefinite form: chunks appended until
     * the break byte, which is left under the cursor.
     */
    method ReadChunks() returns (s: Option<Text>)
      requires Valid()
      modifies this
      ensures Valid()
      ensures Read(s, Cursor()) == Chunks(buff, old(Cursor()), [])
      decreases |buff| - Cursor(), 1
    {
      ghost var goal := Chunks(buff, Cursor(), []);
      var acc: Text := [];
      while start + position < |buff| && buff[start + position] != BREAK_CODE
        invariant Valid() && Cursor() >= old(Cursor())
        invariant Chunks(buff, Cursor(), acc) == goal
        decreases |buff| - Cursor()
      {
        ghost var p := Cursor();
        var chunk := ReadString();
        ChunksTurn(buff, p, acc, goal, Read(chunk, Cursor()));
        if chunk.None? {
          return None;
        }
        acc := acc + chunk.value;
      }
      if start + position == |buff| {
        return None;
      }
      s := Some(acc);
    }

    /** read_array_size and read_object_size, for the major type at `base`. */
    method ReadSizeOf(base: uint8) returns (size: Option<int>)
      requires Valid() && (base == ARRAY_BASE || base == OBJECT_BASE)
      modifies this
      ensures Valid()
      ensures Read(size, Cursor()) == ReadSize(buff, old(Cursor()), base)
    {
      var c := ReadCharacter();
      if c.None? {
        return None;
      }
      var x := c.value;
      if base <= x <= base + 0x17 {
        size := Some(x - base);
      } else if base + 0x18 <= x <= base + 0x1B {
        Pow256Values();
        var d := DecodeNumber(ArgumentWidth(x - base));
        size := if d.Some? then Some(d.value as int) else None;
      } else if x == base + 0x1F {
        size := Some(INDEFINITE_LENGTH);
      } else {
        size := None;
      }
    }

    /** read_array_size */
    method ReadArraySize() returns (size: Option<int>)
      requires Valid()
      modifies this
      ensures Valid()
      ensures Read(size, Cursor()) == CborDecode.ReadArraySize(buff, old(Cursor()))
    {
      size := ReadSizeOf(ARRAY_BASE);
    }

    /** read_object_size */
    method ReadObjectSize() returns (size: Option<int>)
      requires Valid()
      modifies this
      ensures Valid()
      ensures Read(size, Cursor()) == CborDecode.ReadObjectSize(buff, old(Cursor()))
    {
      size := ReadSizeOf(OBJECT_BASE);
    }

    /** read_false */
    method ReadFalse() returns (ok: bool)
      requires Valid()
      modifies this
      ensures Valid()
      ensures Read(Some(ok), Cursor()) == ReadSimple(buff, old(Cursor()), FALSE_CODE)
    {
      var c := ReadCharacter();
      ok := c.Some? && c.value == FALSE_CODE;
    }

    /** read_true */
    method ReadTrue() returns (ok: bool)
      requires Valid()
      modifies this
      ensures Valid()
      ensures Read(Some(ok), Cursor()) == ReadSimple(buff, old(Cursor()), TRUE_CODE)
    {
      var c := ReadCharacter();
      ok := c.Some? && c.value == TRUE_CODE;
    }

    /** read_null */
    method ReadNull() returns (ok: bool)
      requires Valid()
      modifies this
      ensures Valid()
      ensures Read(Some(ok), Cursor()) == ReadSimple(buff, old(Cursor()), NULL_CODE)
    {
      var c := ReadCharacter();
      ok := c.Some? && c.value == NULL_CODE;
    }

    /**
     * parse_into_json_value(obj, &transfer_bytes): one nested item read by a
     * sub-reader.  The encoded types move only the sub-reader, whose position
     * is reported in `transfer`; false, true and null move this reader by one
     * byte and report 0.  Either way the caller, which adds `transfer`, ends
     * up past the item.  On failure nothing moves.
     */
    method ParseIntoJsonValue() returns (obj: Option<Value>, transfer: nat)
      requires Valid()
      modifies this
      ensures Valid()
      ensures obj == ParseValue(buff, old(Cursor())).res
      ensures Cursor() + transfer == ParseValue(buff, old(Cursor())).pos
      ensures obj.None? ==> position == old(position) && transfer == 0
      decreases |buff| - Cursor(), 3
    {
      var rder := new Reader.Sub(buff, start + position, table);
      var t := ReadNextType();
      if t.None? {
        return None, 0;
      }
      if t.value == False || t.value == True || t.value == MajorType.Null {
        obj := ReadSimpleItem(t.value);
      } else if t.value == Float {
        return None, 0;
      } else {
        obj := rder.ReadTyped(t.value);
        if obj.None? {
          return None, 0;
        }
      }
      transfer := rder.CurrentPosition();
    }

    /** The false, true and null cases of parse_into_json_value: one byte, skipped by this reader. */
    method ReadSimpleItem(t: MajorType) returns (obj: Option<Value>)
      requires Valid() && NextType(buff, Cursor()) == Some(t) && (t.False? || t.True? || t.Null?)
      modifies this
      ensures Valid() && position == old(position) + 1
      ensures obj.Some? && Read(obj, Cursor()) == ReadItem(buff, old(Cursor()))
    {
      obj := if t.False? then Some(Boolean(false)) else if t.True? then Some(Boolean(true)) else Some(JsonValue.Null);
      var _ := SkipACharacter();
    }

    /**
     * The cases of the dispatch on the lead byte that read with the reader
     * itself: numbers, strings, arrays and objects.
     */
    method ReadTyped(t: MajorType) returns (obj: Option<Value>)
      requires Valid() && NextType(buff, Cursor()) == Some(t)
      requires t.UnsignedInteger? || t.NegativeInteger? || t.String? || t.Array? || t.Object?
      modifies this
      ensures Valid()
      ensures Read(obj, Cursor()) == ReadItem(buff, old(Cursor()))
      decreases |buff| - Cursor(), 2
    {
      obj := None;
      match t {
        case UnsignedInteger =>
          var n := ReadUnsignedNumber();
          if n.Some? {
            obj := Some(Num(FromUnsigned(n.value)));
          }
        case NegativeInteger =>
          var n := ReadNegativeNumber();
          if n.Some? {
            obj := Some(Num(FromSigned(n.value)));
          }
        case String =>
          var s := ReadString();
          if s.Some? {
            obj := Some(Str(s.value));
          }
        case Array =>
          obj := ReadArray();
        case Object =>
          obj := ReadObject();
      }
    }

    /**
     * read_array: the size, then the items of a definite or an indefinite
     * array.  Any failing item fails the whole read.
     */
    method ReadArray() returns (v: Option<Value>)
      requires Valid()
      modifies this
      ensures Valid()
      ensures Read(v, Cursor()) == CborDecode.ReadArray(buff, old(Cursor()))
      decreases |buff| - Cursor(), 1
    {
      var count := ReadArraySize();
      if count.None? {
        return None;
      }
      if count.value == INDEFINITE_LENGTH {
        v := ReadItemsUntilBreak();
      } else {
        v := ReadItems(count.value);
      }
    }

    /** One element of read_array: a nested item, after which the reader moves past it. */
    method ReadElement() returns (value: Option<Value>)
      requires Valid()
      modifies this
      ensures Valid()
      ensures Read(value, Cursor()) == ParseValue(buff, old(Cursor()))
      decreases |buff| - Cursor(), 4
    {
      var transfer;
      value, transfer := ParseIntoJsonValue();
      position := position + transfer;
    }

    /** The break loop of read_array: items appended until the break byte, which is consumed. */
    method ReadItemsUntilBreak() returns (v: Option<Value>)
      requires Valid()
      modifies this
      ensures Valid()
      ensures Read(v, Cursor()) == ArrayIndefinite(buff, old(Cursor()), [])
      decreases |buff| - Cursor(), 5
    {
      ghost var goal := ArrayIndefinite(buff, Cursor(), []);
      var items: seq<Option<Value>> := [];
      while start + position < |buff| && buff[start + position] != BREAK_CODE
        invariant Valid() && Cursor() >= old(Cursor())
        invariant ArrayIndefinite(buff, Cursor(), items) == goal
        decreases |buff| - Cursor()
      {
        ghost var p := Cursor();
        var value := ReadElement();
        ArrayIndefiniteTurn(buff, p, items, goal, Read(value, Cursor()));
        if value.None? {
          return None;
        }
        items := items + [value];
      }
      if start + position == |buff| {
        return None;
      }
      position := position + 1;
      v := Some(Arr(items));
    }

    /** The counted loop of read_array: the array is resized to n, then filled slot by slot. */
    method ReadItems(n: nat) returns (v: Option<Value>)
      requires Valid()
      modifies this
      ensures Valid()
      ensures Read(v, Cursor()) == ArrayDefinite(buff, old(Cursor()), n, [])
      decreases |buff| - Cursor(), 6
    {
      ghost var goal := ArrayDefinite(buff, Cursor(), n, []);
      var items: seq<Option<Value>> := seq(n, _ => None);
      for i := 0 to n
        invariant Valid() && Cursor() >= old(Cursor()) && |items| == n
        invariant forall j :: i <= j < n ==> items[j].None?
        invariant ArrayDefinite(buff, Cursor(), n - i, items[..i]) == goal
      {
        var ok;
        items, ok := ReadItemInto(items, i, goal);
        if !ok {
          return None;
        }
      }
      assert items[..n] == items;
      v := Some(Arr(items));
    }

    /** One turn of ReadItems: slot i receives the next nested item. */
    method ReadItemInto(items: seq<Option<Value>>, i: nat, ghost goal: Read<Value>) returns (filled: seq<Option<Value>>, ok: bool)
      requires Valid() && i < |items| && forall j :: i <= j < |items| ==> items[j].None?
      requires ArrayDefinite(buff, Cursor(), |items| - i, items[..i]) == goal
      modifies this
      ensures Valid() && Cursor() >= old(Cursor())
      ensures !ok ==> goal == Read(None, Cursor())
      ensures ok ==> |filled| == |items| && forall j :: i + 1 <= j < |items| ==> filled[j].None?
      ensures ok ==> ArrayDefinite(buff, Cursor(), |items| - (i + 1), filled[..i + 1]) == goal
      decreases |buff| - Cursor(), 5
    {
      ghost var p := Cursor();
      var value := ReadElement();
      ArrayDefiniteTurn(buff, p, |items| - i, items[..i], goal, Read(value, Cursor()));
      if value.None? {
        return items, false;
      }
      filled := items[i := value];
      FillSlot(items, i, value, filled);
      ok := true;
    }

    /**
     * read_object: the size, then the entries of a definite or an indefinite
     * map; each entry is a key string read by this reader and the value as a
     * nested item, stored by set_value (a repeated key keeps the last value).
     */
    method ReadObject() returns (v: Option<Value>)
      requires Valid()
      modifies this
      ensures Valid()
      ensures Read(v, Cursor()) == CborDecode.ReadObject(buff, old(Cursor()))
      decreases |buff| - Cursor(), 1
    {
      var count := ReadObjectSize();
      if count.None? {
        return None;
      }
      if count.value == INDEFINITE_LENGTH {
        v := ReadEntriesUntilBreak();
      } else {
        v := ReadEntries(count.value);
      }
    }

    /** One entry of read_object: the key string, read by this reader, then the value as a nested item. */
    method ReadEntry() returns (pair: Option<(Text, Value)>)
      requires Valid()
      modifies this
      ensures Valid()
      ensures Read(pair, Cursor()) == ReadPair(buff, old(Cursor()))
      decreases |buff| - Cursor(), 4
    {
      var key := ReadString();
      if key.None? {
        return None;
      }
      var value, transfer := ParseIntoJsonValue();
      if value.None? {
        return None;
      }
      position := position + transfer;
      pair := Some((key.value, value.value));
    }

    /** The break loop of read_object; the break byte is consumed. */
    method ReadEntriesUntilBreak() returns (v: Option<Value>)
      requires Valid()
      modifies this
      ensures Valid()
      ensures Read(v, Cursor()) == ObjectIndefinite(buff, old(Cursor()), map[])
      decreases |buff| - Cursor(), 5
    {
      ghost var goal := ObjectIndefinite(buff, Cursor(), map[]);
      var entries: map<Text, Option<Value>> := map[];
      while start + position < |buff| && buff[start + position] != BREAK_CODE
        invariant Valid() && Cursor() >= old(Cursor())
        invariant ObjectIndefinite(buff, Cursor(), entries) == goal
        decreases |buff| - Cursor()
      {
        ghost var p := Cursor();
        var pair := ReadEntry();
        ObjectIndefiniteTurn(buff, p, entries, goal, Read(pair, Cursor()));
        if pair.None? {
          return None;
        }
        entries := entries[pair.value.0 := Some(pair.value.1)];
      }
      if start + position == |buff| {
        return None;
      }
      position := position + 1;
      v := Some(Obj(entries));
    }

    /** The counted loop of read_object. */
    method ReadEntries(n: nat) returns (v: Option<Value>)
      requires Valid()
      modifies this
      ensures Valid()
      ensures Read(v, Cursor()) == ObjectDefinite(buff, old(Cursor()), n, map[])
      decreases |buff| - Cursor(), 5
    {
      ghost var goal := ObjectDefinite(buff, Cursor(), n, map[]);
      var entries: map<Text, Option<Value>> := map[];
      for i := 0 to n
        invariant Valid() && Cursor() >= old(Cursor())
        invariant ObjectDefinite(buff, Cursor(), n - i, entries) == goal
      {
        ghost var p := Cursor();
        var pair := ReadEntry();
        ObjectDefiniteTurn(buff, p, n - i, entries, goal, Read(pair, Cursor()));
        if pair.None? {
          return None;
        }
        entries := entries[pair.value.0 := Some(pair.value.1)];
      }
      v := Some(Obj(entries));
    }
  }

  /** SetAt(i, value) on an array resized to its count and filled up to i. */
  lemma FillSlot(items: seq<Option<Value>>, i: nat, x: Option<Value>, filled: seq<Option<Value>>)
    requires i < |items| && forall j :: i <= j < |items| ==> items[j].None?
    requires filled == items[i := x]
    ensures filled[..i + 1] == items[..i] + [x]
    ensures forall j :: i + 1 <= j < |filled| ==> filled[j].None?
  {
    assert filled[..i + 1] == items[..i] + [x];
  }

  /**
   * parse_into_arbitrary_json_object(bin, len, &transfer_bytes): the item at
   * the start of the buffer, or absent, and the reader position reached,
   * which is reported also after a failure.
   */
  method ParseIntoArbitraryJsonObject(table: TypeTable, bin: seq<uint8>) returns (obj: Option<Value>, transfer: nat)
    requires table.Valid()
    ensures Read(obj, transfer) == ParseArbitrary(bin)
  {
    var rder := new Reader(bin, table);
    var t := rder.ReadNextType();
    obj := None;
    if t.Some? {
      if t.value == False {
        obj := Some(Boolean(false));
        var _ := rder.SkipACharacter();
      } else if t.value == True {
        obj := Some(Boolean(true));
        var _ := rder.SkipACharacter();
      } else if t.value == MajorType.Null {
        obj := Some(JsonValue.Null);
        var _ := rder.SkipACharacter();
      } else if t.value != Float {
        obj := rder.ReadTyped(t.value);
      }
    }
    transfer := rder.CurrentPosition();
  }
}
