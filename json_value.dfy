/**
 * The value tree of src/karl.h as data: the six variants of `json_value`, the
 * integer part of `json_number`, `type()`, `empty()` and the compact `dump()`
 * of src/karl.cc.  An array slot or object entry may be absent (a null
 * `shared_ptr`), written `None`.
 */
module JsonValue {
  import opened Base
  import opened KeyOrder

  /** json_number::number_type without kFloat (floating point is not modelled). */
  datatype NumberKind = Unsigned | Signed

  /** The mathematical value a json_number holds, with its kind. */
  datatype Number = Number(kind: NumberKind, value: int)

  /**
   * What the set_value overloads can produce: a kUnsigned number holds a uint64,
   * a kSigned one a negative int64.
   */
  predicate ValidNumber(n: Number)
  {
    match n.kind
    case Unsigned => 0 <= n.value < TWO_64
    case Signed => -TWO_63 <= n.value < 0
  }

  /** json_number(): unsigned zero. */
  const DEFAULT_NUMBER: Number := Number(Unsigned, 0)

  /** set_value(int64_t): kSigned exactly when negative. */
  function FromSigned(v: int): (n: Number)
    requires -TWO_63 <= v < TWO_63
    ensures ValidNumber(n) && n.value == v
    ensures n.kind == Signed <==> v < 0
  {
    if v < 0 then Number(Signed, v) else Number(Unsigned, v)
  }

  /** set_value(uint64_t): always kUnsigned. */
  function FromUnsigned(v: int): (n: Number)
    requires 0 <= v < TWO_64
    ensures ValidNumber(n) && n.value == v && n.kind == Unsigned
  {
    Number(Unsigned, v)
  }

  /** operator uint64_t(): the stored 64-bit pattern read as unsigned. */
  function AsUint64(n: Number): (r: int)
    ensures 0 <= r < TWO_64
    ensures ValidNumber(n) && n.kind == Unsigned ==> r == n.value
    ensures ValidNumber(n) && n.kind == Signed ==> r == n.value + TWO_64
  {
    ToUint64(n.value)
  }

  datatype Value =
    | Null
    | Boolean(b: bool)
    | Num(n: Number)
    | Str(s: Text)
    | Arr(items: seq<Option<Value>>)
    | Obj(entries: map<Text, Option<Value>>)

  /** value_type */
  datatype ValueType = NullType | BooleanType | NumberType | StringType | ArrayType | ObjectType

  /** type(): the fixed variant tag of each node class. */
  function TypeOf(v: Value): (t: ValueType)
    ensures t == NullType <==> v.Null?
    ensures t == BooleanType <==> v.Boolean?
    ensures t == NumberType <==> v.Num?
    ensures t == StringType <==> v.Str?
    ensures t == ArrayType <==> v.Arr?
    ensures t == ObjectType <==> v.Obj?
  {
    match v
    case Null => NullType
    case Boolean(_) => BooleanType
    case Num(_) => NumberType
    case Str(_) => StringType
    case Arr(_) => ArrayType
    case Obj(_) => ObjectType
  }

  /** empty(): strings, arrays and objects with nothing in them; never a scalar. */
  predicate IsEmpty(v: Value)
  {
    match v
    case Str(s) => |s| == 0
    case Arr(items) => |items| == 0
    case Obj(m) => |m| == 0
    case _ => false
  }

  /**
   * The bounds a value must respect to be encoded: numbers as set_value makes
   * them, every length a size_t, and container sizes below the reader's
   * INDEFINITE_LENGTH marker 2^64 - 1.
   */
  predicate WellFormed(v: Value)
  {
    match v
    case Num(n) => ValidNumber(n)
    case Str(s) => |s| < TWO_64
    case Arr(items) =>
      |items| < SIZE_MAX && forall i :: 0 <= i < |items| ==> WellFormedSlot(items[i])
    case Obj(m) =>
      |m| < SIZE_MAX && forall k :: k in m ==> |k| < TWO_64 && WellFormedSlot(m[k])
    case _ => true
  }

  predicate WellFormedSlot(o: Option<Value>)
  {
    o.None? || WellFormed(o.value)
  }

  /** No absent slot anywhere in the tree. */
  predicate Complete(v: Value)
  {
    match v
    case Arr(items) => forall i :: 0 <= i < |items| ==> items[i].Some? && Complete(items[i].value)
    case Obj(m) => forall k :: k in m ==> m[k].Some? && Complete(m[k].value)
    case _ => true
  }

  /** Every absent slot replaced by a Null node, the way the CBOR round trip returns it. */
  function Normalize(v: Value): (r: Value)
    ensures TypeOf(r) == TypeOf(v)
    ensures Complete(r)
    ensures WellFormed(v) ==> WellFormed(r)
  {
    match v
    case Arr(items) => Arr(seq(|items|, i requires 0 <= i < |items| => Some(NormalizeSlot(items[i]))))
    case Obj(m) =>
      var e := map k | k in m :: Some(NormalizeSlot(m[k]));
      assert e.Keys == m.Keys;
      Obj(e)
    case _ => v
  }

  function NormalizeSlot(o: Option<Value>): (r: Value)
    ensures Complete(r)
    ensures WellFormedSlot(o) ==> WellFormed(r)
  {
    match o
    case None => Null
    case Some(x) => Normalize(x)
  }

  /** A tree without absent slots is left as it is. */
  lemma {:induction false} NormalizeComplete(v: Value)
    requires Complete(v)
    ensures Normalize(v) == v
  {
    match v
    case Arr(items) =>
      forall i | 0 <= i < |items|
        ensures Some(NormalizeSlot(items[i])) == items[i]
      {
        NormalizeComplete(items[i].value);
      }
    case Obj(m) =>
      forall k | k in m
        ensures Some(NormalizeSlot(m[k])) == m[k]
      {
        NormalizeComplete(m[k].value);
      }
    case _ =>
  }

  // ---------------------------------------------------------------------------
  // Compact dump

  function DigitChar(d: nat): (c: ByteChar)
    requires d < 10
    ensures '0' <= c <= '9' && c as int - '0' as int == d
  {
    ('0' as int + d) as char
  }

  /** Decimal digits of n, most significant first, no leading zero. */
  function NatDigits(n: nat): (s: Text)
    ensures 1 <= |s|
    ensures forall i :: 0 <= i < |s| ==> '0' <= s[i] <= '9'
    ensures |s| > 1 ==> s[0] != '0'
  {
    if n < 10 then [DigitChar(n)] else NatDigits(n / 10) + [DigitChar(n % 10)]
  }

  /** std::to_string of an integer. */
  function IntToString(x: int): Text
  {
    if x < 0 then "-" + NatDigits(-x) else NatDigits(x)
  }

  /** Reads a string of decimal digits back. */
  function DigitsValue(s: Text): nat
  {
    if s == [] then 0
    else
      var d := s[|s| - 1] as int - '0' as int;
      DigitsValue(s[..|s| - 1]) * 10 + (if 0 <= d < 10 then d else 0)
  }

  function DecimalValue(s: Text): int
  {
    if |s| > 0 && s[0] == '-' then -(DigitsValue(s[1..]) as int) else DigitsValue(s)
  }

  lemma {:induction false} DigitsRoundTrip(n: nat)
    ensures DigitsValue(NatDigits(n)) == n
  {
    if n >= 10 {
      var s := NatDigits(n);
      assert s[..|s| - 1] == NatDigits(n / 10);
      DigitsRoundTrip(n / 10);
    }
  }

  /** The decimal text of a number denotes that number. */
  lemma IntToStringRoundTrip(x: int)
    ensures DecimalValue(IntToString(x)) == x
  {
    if x < 0 {
      DigitsRoundTrip(-x);
      assert IntToString(x)[1..] == NatDigits(-x);
    } else {
      DigitsRoundTrip(x);
    }
  }

  /** Comma-separated concatenation. */
  function Join(parts: seq<Text>): (r: Text)
    ensures |parts| == 0 ==> r == []
    ensures |parts| == 1 ==> r == parts[0]
  {
    if |parts| == 0 then []
    else if |parts| == 1 then parts[0]
    else parts[0] + "," + Join(parts[1..])
  }

  /** The compact `dump()` of each node class. */
  function Dump(v: Value): Text
  {
    match v
    case Null => "null"
    case Boolean(b) => if b then "true" else "false"
    case Num(n) => IntToString(n.value)
    case Str(s) => "\"" + s + "\""
    case Arr(items) => "[" + Join(ItemDumps(v, items)) + "]"
    case Obj(m) =>
      PairsBelow(v);
      "{" + Join(EntryDumps(v, EntryList(m))) + "}"
  }

  /** An absent slot prints as `null`. */
  function DumpSlot(o: Option<Value>): Text
  {
    match o
    case None => "null"
    case Some(x) => Dump(x)
  }

  function ItemDumps(ghost parent: Value, items: seq<Option<Value>>): (r: seq<Text>)
    requires forall i :: 0 <= i < |items| ==> items[i] < parent
    ensures |r| == |items|
    ensures forall i :: 0 <= i < |items| ==> r[i] == DumpSlot(items[i])
    decreases parent, 0
  {
    seq(|items|, i requires 0 <= i < |items| => DumpSlot(items[i]))
  }

  function EntryDumps(ghost parent: Value, es: seq<(Text, Option<Value>)>): (r: seq<Text>)
    requires forall i :: 0 <= i < |es| ==> es[i].1 < parent
    ensures |r| == |es|
    ensures forall i :: 0 <= i < |es| ==> r[i] == "\"" + es[i].0 + "\":" + DumpSlot(es[i].1)
    decreases parent, 0
  {
    seq(|es|, i requires 0 <= i < |es| => "\"" + es[i].0 + "\":" + DumpSlot(es[i].1))
  }

  /** The pairs an object enumerates hold its own entries, hence smaller values. */
  lemma PairsBelow(v: Value)
    requires v.Obj?
    ensures forall i :: 0 <= i < |EntryList(v.entries)| ==> EntryList(v.entries)[i].1 < v
  {
    var es := EntryList(v.entries);
    forall i | 0 <= i < |es|
      ensures es[i].1 < v
    {
      assert es[i].0 in v.entries && es[i].1 == v.entries[es[i].0];
    }
  }

  /**
   * Joining one more part adds a comma and that part, except after nothing:
   * the dump loops write "," between consecutive items only.
   */
  lemma {:induction false} JoinSnoc(parts: seq<Text>, x: Text)
    ensures Join(parts + [x]) == if |parts| == 0 then x else Join(parts) + "," + x
    decreases |parts|
  {
    if |parts| == 0 {
      assert parts + [x] == [x];
    } else if |parts| == 1 {
      assert parts + [x] == [parts[0], x];
      assert [parts[0], x][1..] == [x];
    } else {
      assert (parts + [x])[0] == parts[0];
      assert (parts + [x])[1..] == parts[1..] + [x];
      JoinSnoc(parts[1..], x);
    }
  }

  /** A single slot dumps alone between brackets, `null` when absent. */
  lemma DumpSingleSlot(o: Option<Value>)
    ensures Dump(Arr([o])) == "[" + DumpSlot(o) + "]"
  {
    assert ItemDumps(Arr([o]), [o]) == [DumpSlot(o)];
  }

  /**
   * Appending a slot to a non-empty array turns its closing bracket into a
   * comma, the slot's dump (`null` when absent) and the bracket.
   */
  lemma DumpAppendSlot(items: seq<Option<Value>>, o: Option<Value>)
    requires |items| > 0
    ensures Dump(Arr(items + [o])) == Dump(Arr(items))[..|Dump(Arr(items))| - 1] + "," + DumpSlot(o) + "]"
  {
    var parts := ItemDumps(Arr(items), items);
    var d := Dump(Arr(items));
    assert d == "[" + Join(parts) + "]";
    assert d[..|d| - 1] == "[" + Join(parts);
    AppendedItemDumps(items, o, parts);
    JoinSnoc(parts, DumpSlot(o));
  }

  /** The item dumps of items + [o] are those of items, then o's. */
  lemma AppendedItemDumps(items: seq<Option<Value>>, o: Option<Value>, parts: seq<Text>)
    requires parts == ItemDumps(Arr(items), items)
    ensures Dump(Arr(items + [o])) == "[" + Join(parts + [DumpSlot(o)]) + "]"
  {
    var w := Arr(items + [o]);
    assert ItemDumps(w, items + [o]) == parts + [DumpSlot(o)];
  }

  /** An object of one entry dumps as its quoted key, a colon and the value. */
  lemma DumpSingleEntry(k: Text, o: Option<Value>)
    ensures Dump(Obj(map[k := o])) == "{\"" + k + "\":" + DumpSlot(o) + "}"
  {
    var m := map[k := o];
    var keys := KeysInOrder(m);
    assert |keys| == 1 && keys[0] in m;
    var es := EntryList(m);
    assert es[0] == (k, o);
    PairsBelow(Obj(m));
    assert EntryDumps(Obj(m), es) == ["\"" + k + "\":" + DumpSlot(o)];
  }

  /** Replacing absent slots by Null nodes does not change the dump. */
  lemma {:induction false} DumpNormalize(v: Value)
    ensures Dump(Normalize(v)) == Dump(v)
    decreases v, 1
  {
    match v
    case Arr(items) => DumpNormalizeItems(v, items);
    case Obj(m) => DumpNormalizeEntries(v, m);
    case _ =>
  }

  lemma {:induction false} DumpNormalizeItems(v: Value, items: seq<Option<Value>>)
    requires v == Arr(items)
    ensures Dump(Normalize(v)) == Dump(v)
    decreases v, 0
  {
    var n := Normalize(v);
    forall i | 0 <= i < |items|
      ensures DumpSlot(n.items[i]) == DumpSlot(items[i])
    {
      assert n.items[i] == Some(NormalizeSlot(items[i]));
      if items[i].Some? {
        DumpNormalize(items[i].value);
      }
    }
    assert ItemDumps(n, n.items) == ItemDumps(v, items);
  }

  lemma {:induction false} DumpNormalizeEntries(v: Value, m: map<Text, Option<Value>>)
    requires v == Obj(m)
    ensures Dump(Normalize(v)) == Dump(v)
    decreases v, 0
  {
    var n := Normalize(v);
    assert n.entries.Keys == m.Keys;
    var es, ns := EntryList(m), EntryList(n.entries);
    assert KeysInOrder(n.entries) == KeysInOrder(m);
    forall i | 0 <= i < |es|
      ensures ns[i].0 == es[i].0 && DumpSlot(ns[i].1) == DumpSlot(es[i].1)
    {
      var k := es[i].0;
      assert ns[i].0 == k;
      assert ns[i].1 == Some(NormalizeSlot(m[k]));
      if m[k].Some? {
        DumpNormalize(m[k].value);
      }
    }
    PairsBelow(v);
    PairsBelow(n);
    assert EntryDumps(n, ns) == EntryDumps(v, es);
  }
}
