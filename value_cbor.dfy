/**
 * `to_cbor()` of the json_value classes (src/karl.cc): each node encodes itself
 * with the builders of src/cbor.cc; an array writes its prefix and then every
 * slot, an object its prefix and then key and value of every entry.  An absent
 * slot or entry value is written as the null code 0xf6.
 */
module ValueCbor {
  import opened Base
  import opened CborBuild
  import opened CborTable
  import opened KeyOrder
  import opened JsonValue

  /** The major type a value's encoding announces in its lead byte. */
  function MajorOf(v: Value): MajorType
  {
    match v
    case Null => CborTable.Null
    case Boolean(b) => if b then True else False
    case Num(n) => if n.value < 0 then NegativeInteger else UnsignedInteger
    case Str(_) => String
    case Arr(_) => Array
    case Obj(_) => Object
  }

  /** json_value::to_cbor */
  function Encode(v: Value): seq<uint8>
    requires WellFormed(v)
    decreases v, 1
  {
    match v
    case Null => BuildNull()
    case Boolean(b) => BuildBoolean(b)
    case Num(n) =>
      if n.kind == Signed then BuildNumberSigned(n.value) else BuildNumberUnsigned(n.value)
    case Str(s) => BuildString(s)
    case Arr(items) => BuildArrayPrefix(|items|) + EncodeItems(v, items)
    case Obj(m) =>
      EntriesBelow(v);
      BuildObjectPrefix(|m|) + EncodeEntries(v, EntryList(m))
  }

  /** One slot: the child's encoding, or the null code when the slot is absent. */
  function EncodeSlot(o: Option<Value>): seq<uint8>
    requires WellFormedSlot(o)
    decreases o, 2
  {
    match o
    case None => [NULL_CODE]
    case Some(x) => Encode(x)
  }

  /** The loop of json_array::to_cbor over `_seq`. */
  function EncodeItems(ghost parent: Value, items: seq<Option<Value>>): (r: seq<uint8>)
    requires forall i :: 0 <= i < |items| ==> items[i] < parent && WellFormedSlot(items[i])
    decreases parent, 0, |items|
  {
    if items == [] then [] else EncodeSlot(items[0]) + EncodeItems(parent, items[1..])
  }

  /** The loop of json_object::to_cbor: key string, then value, entry by entry. */
  function EncodeEntries(ghost parent: Value, es: seq<(Text, Option<Value>)>): (r: seq<uint8>)
    requires forall i :: 0 <= i < |es| ==> es[i].1 < parent && |es[i].0| < TWO_64 && WellFormedSlot(es[i].1)
    decreases parent, 0, |es|
  {
    if es == [] then [] else BuildString(es[0].0) + EncodeSlot(es[0].1) + EncodeEntries(parent, es[1..])
  }

  /** The lead byte of every encoding announces the value's major type. */
  lemma EncodeLeadByte(v: Value)
    requires WellFormed(v)
    ensures |Encode(v)| >= 1 && Classify(Encode(v)[0]) == MajorOf(v)
  {
    if v.Arr? {
      var r := Encode(v);
      var p := BuildArrayPrefix(|v.items|);
      assert r == p + EncodeItems(v, v.items);
      assert r[0] == p[0];
      ClassifyRanges(p[0]);
    } else if v.Obj? {
      ObjectLeadByte(v, v.entries);
    } else {
      ScalarLeadByte(v);
    }
  }

  lemma ObjectLeadByte(v: Value, m: map<Text, Option<Value>>)
    requires v == Obj(m) && WellFormed(v)
    ensures |Encode(v)| >= 1 && Classify(Encode(v)[0]) == Object
  {
    var r := Encode(v);
    EntriesBelow(v);
    var p := BuildObjectPrefix(|m|);
    assert r == p + EncodeEntries(v, EntryList(m));
    assert r[0] == p[0];
    ClassifyRanges(p[0]);
  }

  lemma ScalarLeadByte(v: Value)
    requires WellFormed(v) && !v.Arr? && !v.Obj?
    ensures |Encode(v)| >= 1 && Classify(Encode(v)[0]) == MajorOf(v)
  {
    match v
    case Null =>
    case Boolean(b) =>
    case Num(n) =>
    case Str(s) =>
  }

  /** The pairs of a well-formed object are smaller than it and encodable. */
  lemma EntriesBelow(v: Value)
    requires v.Obj? && WellFormed(v)
    ensures forall i :: 0 <= i < |EntryList(v.entries)| ==>
      EntryList(v.entries)[i].1 < v && |EntryList(v.entries)[i].0| < TWO_64 && WellFormedSlot(EntryList(v.entries)[i].1)
  {
    var es := EntryList(v.entries);
    forall i | 0 <= i < |es|
      ensures es[i].1 < v && |es[i].0| < TWO_64 && WellFormedSlot(es[i].1)
    {
      var k := es[i].0;
      assert k in v.entries && es[i].1 == v.entries[k];
    }
  }

  /** An array encodes as its size prefix followed by its slots. */
  lemma ArrayEncoding(v: Value)
    requires v.Arr? && WellFormed(v)
    ensures Encode(v) == BuildArrayPrefix(|v.items|) + EncodeItems(v, v.items)
  {
  }

  /** An object encodes as its size prefix followed by its pairs in enumeration order. */
  lemma ObjectEncoding(v: Value)
    requires v.Obj? && WellFormed(v)
    ensures forall i :: 0 <= i < |EntryList(v.entries)| ==>
      EntryList(v.entries)[i].1 < v && |EntryList(v.entries)[i].0| < TWO_64 && WellFormedSlot(EntryList(v.entries)[i].1)
    ensures Encode(v) == BuildObjectPrefix(|v.entries|) + EncodeEntries(v, EntryList(v.entries))
  {
    EntriesBelow(v);
  }

  /** An array encoding is its prefix followed by the slots' encodings in order. */
  lemma {:induction false} EncodeItemsConcat(parent: Value, items: seq<Option<Value>>, i: nat)
    requires forall j :: 0 <= j < |items| ==> items[j] < parent && WellFormedSlot(items[j])
    requires i <= |items|
    ensures EncodeItems(parent, items) == EncodeItems(parent, items[..i]) + EncodeItems(parent, items[i..])
    decreases i
  {
    if i > 0 {
      EncodeItemsConcat(parent, items[1..], i - 1);
      assert items[1..][..i - 1] == items[..i][1..];
      assert items[1..][i - 1..] == items[i..];
    }
  }
}
