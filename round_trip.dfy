/**
 * Decoding what the encoders produce.  Each reader, started on a buffer that
 * holds an encoding at the cursor (followed by anything), returns the encoded
 * value and stops exactly at the end of the encoding.  For whole values the
 * result is the value with absent slots turned into Null nodes, since the null
 * code written for an absent slot is read back as a Null node.
 */
module CborRoundTrip {
  import opened Base
  import opened BigEndian
  import opened CborBuild
  import opened CborTable
  import opened KeyOrder
  import opened JsonValue
  import opened ValueCbor
  import opened CborDecode

  /** The buffer holds e at position pos. */
  predicate At(b: seq<uint8>, pos: nat, e: seq<uint8>)
  {
    pos + |e| <= |b| && b[pos..pos + |e|] == e
  }

  lemma AtSplit(b: seq<uint8>, pos: nat, e1: seq<uint8>, e2: seq<uint8>)
    requires At(b, pos, e1 + e2)
    ensures At(b, pos, e1) && At(b, pos + |e1|, e2)
  {
    assert b[pos..pos + |e1|] == (e1 + e2)[..|e1|];
    assert b[pos + |e1|..pos + |e1| + |e2|] == (e1 + e2)[|e1|..];
  }

  lemma AtSplitAt(b: seq<uint8>, pos: nat, whole: seq<uint8>, e1: seq<uint8>, e2: seq<uint8>, q: nat)
    requires At(b, pos, whole) && whole == e1 + e2 && q == pos + |e1|
    ensures At(b, pos, e1) && At(b, q, e2)
  {
    AtSplit(b, pos, e1, e2);
  }

  lemma AtSplit3(b: seq<uint8>, pos: nat, whole: seq<uint8>, e1: seq<uint8>, e2: seq<uint8>, e3: seq<uint8>)
    requires At(b, pos, whole) && whole == e1 + (e2 + e3)
    ensures At(b, pos, e1) && At(b, pos + |e1|, e2) && At(b, pos + |e1| + |e2|, e3)
  {
    AtSplit(b, pos, e1, e2 + e3);
    AtSplit(b, pos + |e1|, e2, e3);
  }

  lemma AtMiddle(b: seq<uint8>, pos: nat, e1: seq<uint8>, e2: seq<uint8>, e3: seq<uint8>, q: nat)
    requires At(b, pos, e1 + (e2 + e3)) && q == pos + |e1|
    ensures At(b, q, e2)
  {
    AtSplit3(b, pos, e1 + (e2 + e3), e1, e2, e3);
  }

  lemma AtLast(b: seq<uint8>, pos: nat, e1: seq<uint8>, e2: seq<uint8>, e3: seq<uint8>, q: nat)
    requires At(b, pos, e1 + (e2 + e3)) && q == pos + |e1| + |e2|
    ensures At(b, q, e3)
  {
    AtSplit3(b, pos, e1 + (e2 + e3), e1, e2, e3);
  }

  lemma AtTail(b: seq<uint8>, pos: nat, e: seq<uint8>)
    requires At(b, pos, e) && |e| > 0
    ensures b[pos] == e[0] && At(b, pos + 1, e[1..])
  {
    assert b[pos] == b[pos..pos + |e|][0];
    assert b[pos + 1..pos + |e|] == b[pos..pos + |e|][1..];
  }

  lemma DecodeNumberAt(b: seq<uint8>, pos: nat, w: nat, n: nat)
    requires pos + w <= |b| && DecodeBE(b[pos..pos + w]) == n
    ensures DecodeNumber(b, pos, w) == Read(Some(n), pos + w)
  {
  }

  /** decode_number reads back what encode_number wrote. */
  lemma DecodeNumberRoundTrip(b: seq<uint8>, pos: nat, x: nat, w: nat)
    requires x < Pow256(w) && At(b, pos, EncodeNumber(x, w))
    ensures DecodeNumber(b, pos, w) == Read(Some(x), pos + w)
  {
    BigEndian.DecodeEncode(x, w);
    DecodeNumberAt(b, pos, w, x);
  }

  /** decode_number fails when fewer than w bytes remain. */
  lemma DecodeNumberShort(b: seq<uint8>, pos: nat, w: nat)
    requires pos <= |b| < pos + w
    ensures DecodeNumber(b, pos, w) == Read(None, |b|)
  {
  }

  /** The ladder head: its lead byte, and the argument decoded from the bytes after it. */
  lemma HeadRoundTrip(b: seq<uint8>, pos: nat, base: int, n: nat)
    requires IsBase(base) && n < TWO_64 && At(b, pos, Head(base, n))
    ensures pos < |b| && b[pos] == base + AddInfo(n)
    ensures n > 23 ==>
      DecodeNumber(b, pos + 1, ArgWidth(AddInfo(n))) == Read(Some(n), pos + HeadLen(n))
  {
    var h := Head(base, n);
    AtTail(b, pos, h);
    if n > 23 {
      HeadArgument(b, pos, h, n, ArgWidth(AddInfo(n)));
    }
  }

  lemma HeadArgument(b: seq<uint8>, pos: nat, h: seq<uint8>, n: nat, w: nat)
    requires |h| == 1 + w && DecodeBE(h[1..]) == n && At(b, pos + 1, h[1..])
    ensures DecodeNumber(b, pos + 1, w) == Read(Some(n), pos + 1 + w)
  {
    assert b[pos + 1..pos + 1 + w] == h[1..];
    DecodeNumberAt(b, pos + 1, w, n);
  }

  /** read_unsigned_number inverts build_number_usigned and consumes exactly its bytes. */
  lemma UnsignedRoundTrip(b: seq<uint8>, pos: nat, v: nat)
    requires v < TWO_64 && At(b, pos, BuildNumberUnsigned(v))
    ensures ReadUnsigned(b, pos) == Read(Some(v), pos + |BuildNumberUnsigned(v)|)
  {
    HeadRoundTrip(b, pos, UNSIGNED_BASE, v);
    if v > 23 {
      ReadUnsignedArgument(b, pos, v, pos + HeadLen(v));
    }
  }

  lemma ReadUnsignedArgument(b: seq<uint8>, pos: nat, n: nat, q: nat)
    requires 23 < n < TWO_64 && pos < |b| && b[pos] == AddInfo(n)
    requires DecodeNumber(b, pos + 1, ArgWidth(AddInfo(n))) == Read(Some(n), q)
    ensures ReadUnsigned(b, pos) == Read(Some(n), q)
  {
  }

  /** read_negative_number inverts build_number_signed on negative values. */
  lemma NegativeRoundTrip(b: seq<uint8>, pos: nat, v: int)
    requires -TWO_63 <= v < 0 && At(b, pos, BuildNumberSigned(v))
    ensures ReadNegative(b, pos) == Read(Some(v), pos + |BuildNumberSigned(v)|)
  {
    var n := -1 - v;
    assert At(b, pos, Head(NEGATIVE_BASE, n)) && |BuildNumberSigned(v)| == HeadLen(n);
    HeadRoundTrip(b, pos, NEGATIVE_BASE, n);
    if n <= 23 {
      ReadNegativeEmbedded(b, pos);
    } else {
      ReadNegativeArgument(b, pos, n, pos + HeadLen(n));
    }
  }

  lemma ReadNegativeEmbedded(b: seq<uint8>, pos: nat)
    requires pos < |b| && 0x20 <= b[pos] <= 0x37
    ensures ReadNegative(b, pos) == Read(Some(0x1F - b[pos] as int), pos + 1)
  {
  }

  lemma ReadNegativeArgument(b: seq<uint8>, pos: nat, n: nat, q: nat)
    requires 23 < n < TWO_63 && pos < |b| && b[pos] == 0x20 + AddInfo(n)
    requires DecodeNumber(b, pos + 1, ArgWidth(AddInfo(n))) == Read(Some(n), q)
    ensures ReadNegative(b, pos) == Read(Some(-1 - n), q)
  {
    if AddInfo(n) == 27 {
      assert WrapInt64(n) == n;
    }
  }

  /** read_string inverts build_string and consumes exactly its bytes. */
  lemma StringRoundTrip(b: seq<uint8>, pos: nat, s: Text)
    requires |s| < TWO_64 && At(b, pos, BuildString(s))
    ensures ReadString(b, pos) == Read(Some(s), pos + |BuildString(s)|)
  {
    var h := Head(STRING_BASE, |s|);
    var q := pos + |h|;
    AtSplitAt(b, pos, BuildString(s), h, TextBytes(s), q);
    StringHead(b, pos, |s|, q);
    StringBody(b, q, s);
  }

  /** After a length prefix, read_string goes on with read_string(len, s). */
  lemma StringHead(b: seq<uint8>, pos: nat, n: nat, q: nat)
    requires n < TWO_64 && At(b, pos, Head(STRING_BASE, n)) && q == pos + HeadLen(n)
    ensures q <= |b| && ReadString(b, pos) == ReadStringLen(b, q, n)
  {
    HeadRoundTrip(b, pos, STRING_BASE, n);
    StringLead(b, pos);
  }

  /** read_string(len, s) over the raw bytes of s gives s back. */
  lemma StringBody(b: seq<uint8>, q: nat, s: Text)
    requires At(b, q, TextBytes(s))
    ensures ReadStringLen(b, q, |s|) == Read(Some(s), q + |s|)
  {
    assert b[q..q + |s|] == TextBytes(s);
    BytesTextInverse(s);
  }

  /** read_array_size / read_object_size invert the container prefixes. */
  lemma SizeRoundTrip(b: seq<uint8>, pos: nat, base: int, n: nat)
    requires (base == ARRAY_BASE || base == OBJECT_BASE) && n < TWO_64 && At(b, pos, Head(base, n))
    ensures ReadSize(b, pos, base) == Read(Some(n), pos + HeadLen(n))
  {
    HeadRoundTrip(b, pos, base, n);
  }

  lemma ArraySizeRoundTrip(b: seq<uint8>, pos: nat, n: nat)
    requires n < TWO_64 && At(b, pos, BuildArrayPrefix(n))
    ensures ReadArraySize(b, pos) == Read(Some(n), pos + |BuildArrayPrefix(n)|)
  {
    SizeRoundTrip(b, pos, ARRAY_BASE, n);
  }

  lemma ObjectSizeRoundTrip(b: seq<uint8>, pos: nat, n: nat)
    requires n < TWO_64 && At(b, pos, BuildObjectPrefix(n))
    ensures ReadObjectSize(b, pos) == Read(Some(n), pos + |BuildObjectPrefix(n)|)
  {
    SizeRoundTrip(b, pos, OBJECT_BASE, n);
  }

  /** The lead bytes 0x9F and 0xBF announce an indefinite-length container. */
  lemma IndefiniteSize(b: seq<uint8>, pos: nat)
    requires pos < |b| && (b[pos] == 0x9F || b[pos] == 0xBF)
    ensures b[pos] == 0x9F ==> ReadArraySize(b, pos) == Read(Some(INDEFINITE_LENGTH), pos + 1)
    ensures b[pos] == 0xBF ==> ReadObjectSize(b, pos) == Read(Some(INDEFINITE_LENGTH), pos + 1)
  {
  }

  // ---------------------------------------------------------------------------
  // Whole values

  function NormalizedSlots(items: seq<Option<Value>>): (r: seq<Option<Value>>)
    ensures |r| == |items|
  {
    seq(|items|, i requires 0 <= i < |items| => Some(NormalizeSlot(items[i])))
  }

  /** The entries the object loop has stored after reading the pairs es on top of acc. */
  function Overlay(acc: map<Text, Option<Value>>, es: seq<(Text, Option<Value>)>): map<Text, Option<Value>>
    decreases |es|
  {
    if es == [] then acc
    else Overlay(acc[es[0].0 := Some(NormalizeSlot(es[0].1))], es[1..])
  }

  /**
   * Storing the pairs of m one by one: every key read is present with its
   * normalised value, the others keep theirs.
   */
  lemma {:induction false} OverlayAt(acc: map<Text, Option<Value>>, m: map<Text, Option<Value>>,
                                     es: seq<(Text, Option<Value>)>, k: Text)
    requires forall i :: 0 <= i < |es| ==> es[i].0 in m && es[i].1 == m[es[i].0]
    ensures k in Overlay(acc, es) <==> k in acc || k in KeysOf(es)
    ensures k in KeysOf(es) ==> Overlay(acc, es)[k] == Some(NormalizeSlot(m[k]))
    ensures k !in KeysOf(es) && k in acc ==> Overlay(acc, es)[k] == acc[k]
    decreases |es|
  {
    if es != [] {
      assert KeysOf(es) == [es[0].0] + KeysOf(es[1..]);
      OverlayAt(acc[es[0].0 := Some(NormalizeSlot(es[0].1))], m, es[1..], k);
    }
  }

  /** The object loop over the pairs of m, from an empty object, yields m normalised. */
  lemma OverlayAll(m: map<Text, Option<Value>>)
    ensures Overlay(map[], EntryList(m)) == Normalize(Obj(m)).entries
  {
    var es := EntryList(m);
    EntryListKeys(m);
    var r := Overlay(map[], es);
    var n := NormalizedEntries(m);
    forall k
      ensures k in r <==> k in n
      ensures k in r ==> r[k] == n[k]
    {
      OverlayKey(m, es, r, n, k);
    }
    SameMaps(r, n);
    NormalizeObj(m);
  }

  lemma SameMaps(r: map<Text, Option<Value>>, n: map<Text, Option<Value>>)
    requires forall k :: k in r <==> k in n
    requires forall k :: k in r ==> r[k] == n[k]
    ensures r == n
  {
  }

  lemma OverlayKey(m: map<Text, Option<Value>>, es: seq<(Text, Option<Value>)>,
                   r: map<Text, Option<Value>>, n: map<Text, Option<Value>>, k: Text)
    requires es == EntryList(m) && r == Overlay(map[], es) && n == NormalizedEntries(m)
    requires forall k :: k in m <==> k in KeysOf(es)
    ensures k in r <==> k in n
    ensures k in r ==> r[k] == n[k]
  {
    OverlayAt(map[], m, es, k);
  }

  function NormalizedEntries(m: map<Text, Option<Value>>): (r: map<Text, Option<Value>>)
    ensures r.Keys == m.Keys
    ensures forall k :: k in m ==> r[k] == Some(NormalizeSlot(m[k]))
  {
    map k | k in m :: Some(NormalizeSlot(m[k]))
  }

  lemma NormalizeObj(m: map<Text, Option<Value>>)
    ensures Normalize(Obj(m)) == Obj(NormalizedEntries(m))
  {
  }

  /**
   * Reading the encoding of a well-formed value yields the value with absent
   * slots as Null nodes and consumes exactly the encoding.
   */
  lemma {:induction false} ItemRoundTrip(b: seq<uint8>, pos: nat, v: Value)
    requires WellFormed(v) && At(b, pos, Encode(v))
    ensures ReadItem(b, pos) == Read(Some(Normalize(v)), pos + |Encode(v)|)
    decreases v, 1
  {
    match v
    case Null => SimpleRoundTrip(b, pos, v);
    case Boolean(_) => SimpleRoundTrip(b, pos, v);
    case Num(_) => NumRoundTrip(b, pos, v);
    case Str(_) => StrRoundTrip(b, pos, v);
    case Arr(_) => ArrayRoundTrip(b, pos, v);
    case Obj(_) => ObjectRoundTrip(b, pos, v);
  }

  lemma SimpleRoundTrip(b: seq<uint8>, pos: nat, v: Value)
    requires (v.Null? || v.Boolean?) && At(b, pos, Encode(v))
    ensures ReadItem(b, pos) == Read(Some(Normalize(v)), pos + |Encode(v)|)
  {
    var e := Encode(v);
    assert |e| == 1;
    AtTail(b, pos, e);
    ItemSimple(b, pos);
  }

  /**
   * The byte build_null writes reads back, whatever follows it, as a null
   * node after exactly one byte, and read_null accepts it.
   */
  lemma NullRoundTrip(b: seq<uint8>, pos: nat)
    requires At(b, pos, BuildNull())
    ensures ReadSimple(b, pos, NULL_CODE) == Read(Some(true), pos + 1)
    ensures ReadItem(b, pos) == Read(Some(JsonValue.Null), pos + 1)
  {
    AtTail(b, pos, BuildNull());
    ItemSimple(b, pos);
  }

  lemma NumRoundTrip(b: seq<uint8>, pos: nat, v: Value)
    requires v.Num? && WellFormed(v) && At(b, pos, Encode(v))
    ensures ReadItem(b, pos) == Read(Some(Normalize(v)), pos + |Encode(v)|)
  {
    var n := v.n;
    if n.kind == Signed {
      var e := BuildNumberSigned(n.value);
      assert Encode(v) == e;
      NegativeRoundTrip(b, pos, n.value);
      AtTail(b, pos, e);
      ItemNegative(b, pos, n.value, pos + |e|);
      assert FromSigned(n.value) == n;
    } else {
      var e := BuildNumberUnsigned(n.value);
      assert Encode(v) == e;
      UnsignedRoundTrip(b, pos, n.value);
      AtTail(b, pos, e);
      ItemUnsigned(b, pos, n.value, pos + |e|);
      assert FromUnsigned(n.value) == n;
    }
  }

  lemma StrRoundTrip(b: seq<uint8>, pos: nat, v: Value)
    requires v.Str? && WellFormed(v) && At(b, pos, Encode(v))
    ensures ReadItem(b, pos) == Read(Some(Normalize(v)), pos + |Encode(v)|)
  {
    var e := BuildString(v.s);
    assert Encode(v) == e;
    StringRoundTrip(b, pos, v.s);
    AtTail(b, pos, e);
    ItemString(b, pos, v.s, pos + |e|);
  }

  /** The encoding of an array and its normal form, piece by piece. */
  lemma ArrayNormalized(v: Value)
    requires v.Arr? && WellFormed(v)
    ensures Normalize(v) == Arr([] + NormalizedSlots(v.items))
  {
    assert [] + NormalizedSlots(v.items) == Normalize(v).items;
  }

  lemma {:induction false} ArrayRoundTrip(b: seq<uint8>, pos: nat, v: Value)
    requires v.Arr? && WellFormed(v) && At(b, pos, Encode(v))
    ensures ReadItem(b, pos) == Read(Some(Normalize(v)), pos + |Encode(v)|)
    decreases v, 0, |v.items| + 1
  {
    var q := pos + |BuildArrayPrefix(|v.items|)|;
    var end := pos + |Encode(v)|;
    ArrayHead(b, pos, v, q, end);
    ArrayBodyRoundTrip(b, pos, q, v, end);
  }

  /** The lead byte selects read_array, whose size prefix announces the slot count. */
  lemma ArrayHead(b: seq<uint8>, pos: nat, v: Value, q: nat, end: nat)
    requires v.Arr? && WellFormed(v) && At(b, pos, Encode(v))
    requires q == pos + |BuildArrayPrefix(|v.items|)| && end == pos + |Encode(v)|
    ensures pos <= |b| && ReadItem(b, pos) == ReadArray(b, pos)
    ensures ReadArraySize(b, pos) == Read(Some(|v.items|), q)
    ensures At(b, q, EncodeItems(v, v.items)) && end == q + |EncodeItems(v, v.items)|
  {
    var prefix := BuildArrayPrefix(|v.items|);
    ArrayLayout(b, pos, v, q, end);
    AtTail(b, pos, prefix);
    ItemArray(b, pos);
    ArraySizeRoundTrip(b, pos, |v.items|);
  }

  /** Where the prefix and the slots of an array encoding lie in the buffer. */
  lemma ArrayLayout(b: seq<uint8>, pos: nat, v: Value, q: nat, end: nat)
    requires v.Arr? && WellFormed(v) && At(b, pos, Encode(v))
    requires q == pos + |BuildArrayPrefix(|v.items|)| && end == pos + |Encode(v)|
    ensures At(b, pos, BuildArrayPrefix(|v.items|))
    ensures At(b, q, EncodeItems(v, v.items)) && end == q + |EncodeItems(v, v.items)|
  {
    ArrayEncoding(v);
    AtSplitAt(b, pos, Encode(v), BuildArrayPrefix(|v.items|), EncodeItems(v, v.items), q);
  }

  /** read_array: the size prefix, then the counted loop. */
  lemma ArrayFromParts(b: seq<uint8>, pos: nat, n: nat, q: nat, r: Read<Value>)
    requires pos <= |b| && ReadArraySize(b, pos) == Read(Some(n), q) && n != INDEFINITE_LENGTH
    requires ArrayDefinite(b, q, n, []) == r
    ensures ReadArray(b, pos) == r
  {
  }

  /** After the prefix, the counted loop reads every slot back. */
  lemma {:induction false} ArrayBodyRoundTrip(b: seq<uint8>, pos: nat, q: nat, v: Value, end: nat)
    requires v.Arr? && WellFormed(v) && At(b, q, EncodeItems(v, v.items)) && pos <= |b|
    requires ReadArraySize(b, pos) == Read(Some(|v.items|), q) && end == q + |EncodeItems(v, v.items)|
    ensures ReadArray(b, pos) == Read(Some(Normalize(v)), end)
    decreases v, 0, |v.items|, 1
  {
    ItemsRoundTrip(b, q, v, v.items, []);
    ArrayEncoding(v);
    ArrayNormalized(v);
    ArrayFromParts(b, pos, |v.items|, q, Read(Some(Normalize(v)), end));
  }

  /** The counted array loop reads the slots back in order. */
  lemma {:induction false} ItemsRoundTrip(b: seq<uint8>, p: nat, parent: Value,
                                          items: seq<Option<Value>>, acc: seq<Option<Value>>)
    requires forall i :: 0 <= i < |items| ==> items[i] < parent && WellFormedSlot(items[i])
    requires At(b, p, EncodeItems(parent, items))
    ensures ArrayDefinite(b, p, |items|, acc)
         == Read(Some(Arr(acc + NormalizedSlots(items))), p + |EncodeItems(parent, items)|)
    decreases parent, 0, |items|, 0
  {
    if items == [] {
      assert acc + NormalizedSlots(items) == acc;
    } else {
      var rest := EncodeItems(parent, items[1..]);
      var x := NormalizeSlot(items[0]);
      var q := p + |EncodeSlot(items[0])|;
      EncodeItemsCons(parent, items);
      ItemsTail(parent, items);
      SlotThen(b, p, items[0], rest, q);
      ItemsRoundTrip(b, q, parent, items[1..], acc + [Some(x)]);
      ItemsStep(items, acc);
      var want := Read(Some(Arr(acc + [Some(x)] + NormalizedSlots(items[1..]))), q + |rest|);
      ArrayDefiniteCompose(b, p, |items[1..]| + 1, acc, x, q, want);
    }
  }

  lemma ItemsTail(parent: Value, items: seq<Option<Value>>)
    requires forall i :: 0 <= i < |items| ==> items[i] < parent && WellFormedSlot(items[i])
    requires items != []
    ensures items[0] < parent && WellFormedSlot(items[0])
    ensures forall i :: 0 <= i < |items[1..]| ==> items[1..][i] < parent && WellFormedSlot(items[1..][i])
  {
  }

  /** One slot, then whatever follows it. */
  lemma {:induction false} SlotThen(b: seq<uint8>, p: nat, o: Option<Value>, rest: seq<uint8>, q: nat)
    requires WellFormedSlot(o) && At(b, p, EncodeSlot(o) + rest) && q == p + |EncodeSlot(o)|
    ensures ParsesAs(b, p, NormalizeSlot(o), q) && At(b, q, rest)
    decreases o, 3
  {
    AtSplitAt(b, p, EncodeSlot(o) + rest, EncodeSlot(o), rest, q);
    SlotAfter(b, p, o, p);
  }

  lemma EncodeItemsCons(parent: Value, items: seq<Option<Value>>)
    requires forall i :: 0 <= i < |items| ==> items[i] < parent && WellFormedSlot(items[i])
    requires items != []
    ensures EncodeItems(parent, items) == EncodeSlot(items[0]) + EncodeItems(parent, items[1..])
  {
  }

  /** One turn of the counted array loop. */
  lemma ArrayDefiniteCompose(b: seq<uint8>, p: nat, count: nat, acc: seq<Option<Value>>,
                             x: Value, q: nat, r: Read<Value>)
    requires count > 0 && ParsesAs(b, p, x, q)
    requires ArrayDefinite(b, q, count - 1, acc + [Some(x)]) == r
    ensures ArrayDefinite(b, p, count, acc) == r
  {
  }

  /** The slot read first, then the others: the same list. */
  lemma ItemsStep(items: seq<Option<Value>>, acc: seq<Option<Value>>)
    requires items != []
    ensures acc + [Some(NormalizeSlot(items[0]))] + NormalizedSlots(items[1..]) == acc + NormalizedSlots(items)
  {
    assert NormalizedSlots(items) == [Some(NormalizeSlot(items[0]))] + NormalizedSlots(items[1..]);
  }

  /** parse_value at pos yields x and moves the cursor to q. */
  predicate ParsesAs(b: seq<uint8>, pos: nat, x: Value, q: nat)
  {
    pos <= |b| && ParseValue(b, pos) == Read(Some(x), q)
  }

  /** One slot read as a nested item: absent slots come back as Null. */
  lemma {:induction false} SlotRoundTrip(b: seq<uint8>, pos: nat, o: Option<Value>)
    requires WellFormedSlot(o) && At(b, pos, EncodeSlot(o))
    ensures ParsesAs(b, pos, NormalizeSlot(o), pos + |EncodeSlot(o)|)
    decreases o, 2, 0
  {
    match o
    case None =>
      var e := EncodeSlot(o);
      assert e == [NULL_CODE];
      AtTail(b, pos, e);
      ItemSimple(b, pos);
      ParseValueItem(b, pos, JsonValue.Null, pos + 1);
    case Some(x) =>
      assert EncodeSlot(o) == Encode(x);
      ItemRoundTrip(b, pos, x);
      ParseValueItem(b, pos, Normalize(x), pos + |Encode(x)|);
  }

  // Objects

  /** The encoding of an object: its prefix, then its pairs in enumeration order. */
  lemma {:induction false} ObjectRoundTrip(b: seq<uint8>, pos: nat, v: Value)
    requires v.Obj? && WellFormed(v) && At(b, pos, Encode(v))
    ensures ReadItem(b, pos) == Read(Some(Normalize(v)), pos + |Encode(v)|)
    decreases v, 0, |v.entries| + 1
  {
    var q := pos + |BuildObjectPrefix(|v.entries|)|;
    var end := pos + |Encode(v)|;
    ObjectHead(b, pos, v, q, end);
    ObjectBodyRoundTrip(b, pos, q, v, end);
  }

  /** The lead byte selects read_object, whose size prefix announces the pair count. */
  lemma ObjectHead(b: seq<uint8>, pos: nat, v: Value, q: nat, end: nat)
    requires v.Obj? && WellFormed(v) && At(b, pos, Encode(v))
    requires q == pos + |BuildObjectPrefix(|v.entries|)| && end == pos + |Encode(v)|
    ensures pos <= |b| && ReadItem(b, pos) == ReadObject(b, pos)
    ensures ReadObjectSize(b, pos) == Read(Some(|v.entries|), q)
    ensures forall i :: 0 <= i < |EntryList(v.entries)| ==>
      EntryList(v.entries)[i].1 < v && |EntryList(v.entries)[i].0| < TWO_64 && WellFormedSlot(EntryList(v.entries)[i].1)
    ensures At(b, q, EncodeEntries(v, EntryList(v.entries))) && end == q + |EncodeEntries(v, EntryList(v.entries))|
  {
    var prefix := BuildObjectPrefix(|v.entries|);
    ObjectLayout(b, pos, v, q, end);
    AtTail(b, pos, prefix);
    ItemObject(b, pos);
    ObjectSizeRoundTrip(b, pos, |v.entries|);
  }

  /** Where the prefix and the pairs of an object encoding lie in the buffer. */
  lemma ObjectLayout(b: seq<uint8>, pos: nat, v: Value, q: nat, end: nat)
    requires v.Obj? && WellFormed(v) && At(b, pos, Encode(v))
    requires q == pos + |BuildObjectPrefix(|v.entries|)| && end == pos + |Encode(v)|
    ensures At(b, pos, BuildObjectPrefix(|v.entries|))
    ensures forall i :: 0 <= i < |EntryList(v.entries)| ==>
      EntryList(v.entries)[i].1 < v && |EntryList(v.entries)[i].0| < TWO_64 && WellFormedSlot(EntryList(v.entries)[i].1)
    ensures At(b, q, EncodeEntries(v, EntryList(v.entries))) && end == q + |EncodeEntries(v, EntryList(v.entries))|
  {
    ObjectEncoding(v);
    AtSplitAt(b, pos, Encode(v), BuildObjectPrefix(|v.entries|), EncodeEntries(v, EntryList(v.entries)), q);
  }

  /** read_object: the size prefix, then the counted loop. */
  lemma ObjectFromParts(b: seq<uint8>, pos: nat, n: nat, q: nat, r: Read<Value>)
    requires pos <= |b| && ReadObjectSize(b, pos) == Read(Some(n), q) && n != INDEFINITE_LENGTH
    requires ObjectDefinite(b, q, n, map[]) == r
    ensures ReadObject(b, pos) == r
  {
  }

  /** After the prefix, the counted loop reads every entry back. */
  lemma {:induction false} ObjectBodyRoundTrip(b: seq<uint8>, pos: nat, q: nat, v: Value, end: nat)
    requires v.Obj? && WellFormed(v) && pos <= |b|
    requires forall i :: 0 <= i < |EntryList(v.entries)| ==>
      EntryList(v.entries)[i].1 < v && |EntryList(v.entries)[i].0| < TWO_64 && WellFormedSlot(EntryList(v.entries)[i].1)
    requires At(b, q, EncodeEntries(v, EntryList(v.entries)))
    requires ReadObjectSize(b, pos) == Read(Some(|v.entries|), q)
    requires end == q + |EncodeEntries(v, EntryList(v.entries))|
    ensures ReadObject(b, pos) == Read(Some(Normalize(v)), end)
    decreases v, 0, |v.entries|, 3
  {
    var es := EntryList(v.entries);
    EntriesRoundTrip(b, q, v, es, map[]);
    OverlayAll(v.entries);
    ObjectFromParts(b, pos, |v.entries|, q, Read(Some(Normalize(v)), end));
  }

  /** The counted object loop reads key and value of every pair back. */
  lemma {:induction false} EntriesRoundTrip(b: seq<uint8>, p: nat, parent: Value,
                                            es: seq<(Text, Option<Value>)>, acc: map<Text, Option<Value>>)
    requires forall i :: 0 <= i < |es| ==> es[i].1 < parent && |es[i].0| < TWO_64 && WellFormedSlot(es[i].1)
    requires At(b, p, EncodeEntries(parent, es))
    ensures ObjectDefinite(b, p, |es|, acc) == Read(Some(Obj(Overlay(acc, es))), p + |EncodeEntries(parent, es)|)
    decreases parent, 0, |es|, 2
  {
    if es != [] {
      var q2, acc' := EntryStep(b, p, parent, es, acc);
      EntriesRoundTrip(b, q2, parent, es[1..], acc');
    }
  }

  /** One turn of the counted object loop: after the first pair, the loop goes on from q2 with it stored. */
  lemma EntryStep(b: seq<uint8>, p: nat, parent: Value, es: seq<(Text, Option<Value>)>, acc: map<Text, Option<Value>>)
    returns (q2: nat, acc': map<Text, Option<Value>>)
    requires forall i :: 0 <= i < |es| ==> es[i].1 < parent && |es[i].0| < TWO_64 && WellFormedSlot(es[i].1)
    requires es != [] && At(b, p, EncodeEntries(parent, es))
    ensures forall i :: 0 <= i < |es[1..]| ==> es[1..][i].1 < parent && |es[1..][i].0| < TWO_64 && WellFormedSlot(es[1..][i].1)
    ensures At(b, q2, EncodeEntries(parent, es[1..]))
    ensures q2 + |EncodeEntries(parent, es[1..])| == p + |EncodeEntries(parent, es)|
    ensures acc' == acc[es[0].0 := Some(NormalizeSlot(es[0].1))]
    ensures p <= q2 <= |b| && ObjectDefinite(b, p, |es|, acc) == ObjectDefinite(b, q2, |es[1..]|, acc')
    decreases parent, 0, |es|, 1
  {
    var q1;
    q1, q2 := EntryHead(b, p, parent, es);
    acc' := acc[es[0].0 := Some(NormalizeSlot(es[0].1))];
    ObjectDefiniteCompose(b, p, |es[1..]| + 1, acc, es[0].0, NormalizeSlot(es[0].1), q1, q2, ObjectDefinite(b, q2, |es[1..]|, acc'));
  }

  /** The first pair of the counted object loop, and where the rest of the pairs stand. */
  lemma EntryHead(b: seq<uint8>, p: nat, parent: Value, es: seq<(Text, Option<Value>)>) returns (q1: nat, q2: nat)
    requires forall i :: 0 <= i < |es| ==> es[i].1 < parent && |es[i].0| < TWO_64 && WellFormedSlot(es[i].1)
    requires es != [] && At(b, p, EncodeEntries(parent, es))
    ensures q1 <= |b| && ReadString(b, p) == Read(Some(es[0].0), q1)
    ensures ParsesAs(b, q1, NormalizeSlot(es[0].1), q2)
    ensures forall i :: 0 <= i < |es[1..]| ==> es[1..][i].1 < parent && |es[1..][i].0| < TWO_64 && WellFormedSlot(es[1..][i].1)
    ensures At(b, q2, EncodeEntries(parent, es[1..]))
    ensures q2 + |EncodeEntries(parent, es[1..])| == p + |EncodeEntries(parent, es)|
    decreases parent, 0, |es|, 0
  {
    q1 := p + |BuildString(es[0].0)|;
    q2 := q1 + |EncodeSlot(es[0].1)|;
    EntriesTail(parent, es);
    EncodeEntriesCons(parent, es);
    EntryPieces(b, p, es[0].0, es[0].1, EncodeEntries(parent, es[1..]), q1, q2);
  }

  /** The key string, the value and the rest, laid out one after the other. */
  lemma EntryPieces(b: seq<uint8>, p: nat, key: Text, o: Option<Value>, rest: seq<uint8>, q1: nat, q2: nat)
    requires |key| < TWO_64 && WellFormedSlot(o)
    requires At(b, p, BuildString(key) + (EncodeSlot(o) + rest))
    requires q1 == p + |BuildString(key)| && q2 == q1 + |EncodeSlot(o)|
    ensures q1 <= |b| && ReadString(b, p) == Read(Some(key), q1)
    ensures ParsesAs(b, q1, NormalizeSlot(o), q2)
    ensures At(b, q2, rest)
    decreases o, 4
  {
    EntryKey(b, p, key, o, rest, q1);
    EntryValue(b, p, key, o, rest, q1, q2);
    AtLast(b, p, BuildString(key), EncodeSlot(o), rest, q2);
  }

  /** One pair of the object loop: the key string comes first ... */
  lemma EntryKey(b: seq<uint8>, p: nat, key: Text, o: Option<Value>, rest: seq<uint8>, q1: nat)
    requires |key| < TWO_64 && WellFormedSlot(o)
    requires At(b, p, BuildString(key) + (EncodeSlot(o) + rest)) && q1 == p + |BuildString(key)|
    ensures q1 <= |b| && ReadString(b, p) == Read(Some(key), q1)
  {
    AtSplit(b, p, BuildString(key), EncodeSlot(o) + rest);
    StringRoundTrip(b, p, key);
  }

  /** ... then its value ... */
  lemma {:induction false} EntryValue(b: seq<uint8>, p: nat, key: Text, o: Option<Value>, rest: seq<uint8>,
                                      q1: nat, q2: nat)
    requires |key| < TWO_64 && WellFormedSlot(o)
    requires At(b, p, BuildString(key) + (EncodeSlot(o) + rest))
    requires q1 == p + |BuildString(key)| && q2 == q1 + |EncodeSlot(o)|
    ensures ParsesAs(b, q1, NormalizeSlot(o), q2)
    decreases o, 3
  {
    AtMiddle(b, p, BuildString(key), EncodeSlot(o), rest, q1);
    SlotAfter(b, q1, o, q1);
  }

  lemma {:induction false} SlotAfter(b: seq<uint8>, q: nat, o: Option<Value>, c: nat)
    requires WellFormedSlot(o) && At(b, q, EncodeSlot(o)) && c == q
    ensures ParsesAs(b, c, NormalizeSlot(o), c + |EncodeSlot(o)|)
    decreases o, 2, 1
  {
    SlotRoundTrip(b, q, o);
  }

  lemma EntriesTail(parent: Value, es: seq<(Text, Option<Value>)>)
    requires forall i :: 0 <= i < |es| ==> es[i].1 < parent && |es[i].0| < TWO_64 && WellFormedSlot(es[i].1)
    requires es != []
    ensures forall i :: 0 <= i < |es[1..]| ==> es[1..][i].1 < parent && |es[1..][i].0| < TWO_64 && WellFormedSlot(es[1..][i].1)
  {
    forall i | 0 <= i < |es[1..]|
      ensures es[1..][i].1 < parent && |es[1..][i].0| < TWO_64 && WellFormedSlot(es[1..][i].1)
    {
      assert es[1..][i] == es[i + 1];
    }
  }

  lemma EncodeEntriesCons(parent: Value, es: seq<(Text, Option<Value>)>)
    requires forall i :: 0 <= i < |es| ==> es[i].1 < parent && |es[i].0| < TWO_64 && WellFormedSlot(es[i].1)
    requires es != []
    ensures EncodeEntries(parent, es) == BuildString(es[0].0) + (EncodeSlot(es[0].1) + EncodeEntries(parent, es[1..]))
  {
  }

  /** One turn of the counted object loop: the key, then the value. */
  lemma ObjectDefiniteCompose(b: seq<uint8>, p: nat, count: nat, acc: map<Text, Option<Value>>,
                              key: Text, x: Value, q1: nat, q2: nat, r: Read<Value>)
    requires p <= |b| && count > 0 && ReadString(b, p) == Read(Some(key), q1) && q1 <= |b|
    requires ParsesAs(b, q1, x, q2)
    requires ObjectDefinite(b, q2, count - 1, acc[key := Some(x)]) == r
    ensures ObjectDefinite(b, p, count, acc) == r
  {
  }

  /**
   * from_cbor(to_cbor(v)): the value comes back with absent slots as Null
   * nodes, and transfer_bytes is the length of the encoding, whatever follows.
   */
  lemma ValueRoundTrip(v: Value, rest: seq<uint8>)
    requires WellFormed(v)
    ensures ParseArbitrary(Encode(v) + rest) == Read(Some(Normalize(v)), |Encode(v)|)
  {
    var b := Encode(v) + rest;
    assert b[0..|Encode(v)|] == Encode(v);
    ItemRoundTrip(b, 0, v);
  }

  /** A tree without absent slots comes back unchanged. */
  lemma ValueRoundTripComplete(v: Value)
    requires WellFormed(v) && Complete(v)
    ensures ParseArbitrary(Encode(v)) == Read(Some(v), |Encode(v)|)
  {
    ValueRoundTrip(v, []);
    assert Encode(v) + [] == Encode(v);
    NormalizeComplete(v);
  }
}
