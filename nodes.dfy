/**
 * The json_value hierarchy of src/karl.h as heap objects.
 *
 * Every node is a `Node` whose `kind` is fixed when it is made (the class of
 * the C++ object); the fields of the other kinds are unused.  Children are
 * held by reference, `null` standing for an absent `shared_ptr`, so one node
 * may sit in several slots (push_back aliases its argument).  What a node
 * denotes is the `Value` `ValueOf(n, S, d)`, defined when every node below n
 * down to height d lies in the ghost set S; because it reads only S, a
 * change to a node outside S leaves it as it was.
 */
module JsonNodes {
  import opened Base
  import opened KeyOrder
  import opened JsonValue

  class Node {
    /** type(): the class of the node, never changed after construction. */
    const kind: ValueType
    /** json_boolean::_value */
    var flag: bool
    /** json_number::_value and _value_type (integer part) */
    var num: Number
    /** json_string::_value */
    var text: Text
    /** json_array::_seq */
    var items: seq<Node?>
    /** json_object::_map */
    var entries: map<Text, Node?>

    /** json_null */
    constructor NullNode()
      ensures kind == NullType && items == [] && entries == map[]
    {
      kind := NullType;
      num := DEFAULT_NUMBER;
      items := [];
      entries := map[];
    }

    /** json_boolean(bool) */
    constructor BooleanNode(b: bool)
      ensures kind == BooleanType && flag == b && items == [] && entries == map[]
    {
      kind := BooleanType;
      flag := b;
      num := DEFAULT_NUMBER;
      items := [];
      entries := map[];
    }

    /** json_number from a number, as its copy constructor and the set_value overloads make it. */
    constructor NumberNode(n: Number)
      ensures kind == NumberType && num == n && items == [] && entries == map[]
    {
      kind := NumberType;
      num := n;
      items := [];
      entries := map[];
    }

    /** json_string(const std::string&) */
    constructor StringNode(s: Text)
      ensures kind == StringType && text == s && items == [] && entries == map[]
    {
      kind := StringType;
      num := DEFAULT_NUMBER;
      text := s;
      items := [];
      entries := map[];
    }

    /** json_array(): no slots. */
    constructor ArrayNode()
      ensures kind == ArrayType && items == [] && entries == map[]
    {
      kind := ArrayType;
      num := DEFAULT_NUMBER;
      items := [];
      entries := map[];
    }

    /** json_object(): no entries. */
    constructor ObjectNode()
      ensures kind == ObjectType && items == [] && entries == map[]
    {
      kind := ObjectType;
      num := DEFAULT_NUMBER;
      items := [];
      entries := map[];
    }

    /** empty() of each class. */
    predicate Empty()
      reads this
    {
      match kind
      case StringType => |text| == 0
      case ArrayType => |items| == 0
      case ObjectType => |entries| == 0
      case _ => false
    }

    // -------------------------------------------------------------------------
    // Scalars

    /** json_boolean::operator=(bool) */
    method SetFlag(b: bool)
      requires kind == BooleanType
      modifies this
      ensures flag == b && num == old(num) && text == old(text) && items == old(items) && entries == old(entries)
    {
      flag := b;
    }

    /** json_number::operator=(const json_number&): kind and value are copied. */
    method SetNumber(n: Number)
      requires kind == NumberType
      modifies this
      ensures num == n && flag == old(flag) && text == old(text) && items == old(items) && entries == old(entries)
    {
      num := n;
    }

    /** json_number::set_value(int64_t) */
    method SetSigned(v: int)
      requires kind == NumberType && -TWO_63 <= v < TWO_63
      modifies this
      ensures num == FromSigned(v) && flag == old(flag) && text == old(text) && items == old(items) && entries == old(entries)
    {
      num := FromSigned(v);
    }

    /** json_number::set_value(uint64_t) */
    method SetUnsigned(v: int)
      requires kind == NumberType && 0 <= v < TWO_64
      modifies this
      ensures num == FromUnsigned(v) && flag == old(flag) && text == old(text) && items == old(items) && entries == old(entries)
    {
      num := FromUnsigned(v);
    }

    /** json_string::operator=(const std::string&) */
    method SetText(s: Text)
      requires kind == StringType
      modifies this
      ensures text == s && flag == old(flag) && num == old(num) && items == old(items) && entries == old(entries)
    {
      text := s;
    }

    // -------------------------------------------------------------------------
    // json_array

    /** GetAt(i): the slot, or absent past the end. */
    method GetAt(i: nat) returns (e: Node?)
      requires kind == ArrayType
      ensures e == Get(items, i)
      ensures i >= |items| ==> e == null
    {
      if i >= |items| {
        return null;
      }
      e := items[i];
    }

    /** SetAt(i, e): grows the array to i + 1 with absent slots when needed, then stores e. */
    method SetAt(i: nat, e: Node?) returns (ok: bool)
      requires kind == ArrayType
      modifies this
      ensures ok && items == Placed(old(items), i, e)
      ensures flag == old(flag) && num == old(num) && text == old(text) && entries == old(entries)
    {
      if i >= |items| {
        items := Resized(items, i + 1);
      }
      items := items[i := e];
      ok := true;
    }

    /** operator[](i): grows like SetAt and hands back the slot (by value here). */
    method SlotAt(i: nat) returns (e: Node?)
      requires kind == ArrayType
      modifies this
      ensures items == Resized(old(items), if i < |old(items)| then |old(items)| else i + 1)
      ensures i < |items| && e == items[i] && e == Get(old(items), i)
      ensures flag == old(flag) && num == old(num) && text == old(text) && entries == old(entries)
    {
      if i >= |items| {
        items := Resized(items, i + 1);
      }
      e := items[i];
    }

    /** insert(i, e): pads to i absent slots when i is past the end, then shifts the rest up. */
    method Insert(i: nat, e: Node?) returns (ok: bool)
      requires kind == ArrayType
      modifies this
      ensures ok && items == Inserted(old(items), i, e)
      ensures flag == old(flag) && num == old(num) && text == old(text) && entries == old(entries)
    {
      if i > |items| {
        items := Resized(items, i);
      }
      items := items[..i] + [e] + items[i..];
      ok := true;
    }

    /** append(e) */
    method Append(e: Node?)
      requires kind == ArrayType
      modifies this
      ensures items == old(items) + [e]
      ensures flag == old(flag) && num == old(num) && text == old(text) && entries == old(entries)
    {
      items := items + [e];
    }

    /** resize(n): truncates, or pads with absent slots. */
    method Resize(n: nat)
      requires kind == ArrayType
      modifies this
      ensures items == Resized(old(items), n)
      ensures flag == old(flag) && num == old(num) && text == old(text) && entries == old(entries)
    {
      items := Resized(items, n);
    }

    /** json_array::clear() */
    method ClearItems()
      requires kind == ArrayType
      modifies this
      ensures items == []
      ensures flag == old(flag) && num == old(num) && text == old(text) && entries == old(entries)
    {
      items := [];
    }

    /** json_array::size() */
    method ItemCount() returns (n: nat)
      requires kind == ArrayType
      ensures n == |items|
    {
      n := |items|;
    }

    /** erase(i): removes slot i and shifts the rest down; no effect past the end. */
    method EraseAt(i: nat)
      requires kind == ArrayType
      modifies this
      ensures items == Erased(old(items), i)
      ensures flag == old(flag) && num == old(num) && text == old(text) && entries == old(entries)
    {
      if i < |items| {
        items := items[..i] + items[i + 1..];
      }
    }

    // -------------------------------------------------------------------------
    // json_object

    /** has_key(key) */
    method HasKey(key: Text) returns (b: bool)
      requires kind == ObjectType
      ensures b <==> key in entries
    {
      b := key in entries;
    }

    /** get_value(key): the child, or absent when the key is missing. */
    method GetValue(key: Text) returns (e: Node?)
      requires kind == ObjectType
      ensures key in entries ==> e == entries[key]
      ensures key !in entries ==> e == null
    {
      if key !in entries {
        return null;
      }
      e := entries[key];
    }

    /** set_value(key, e): `_map[key] = e`, overwriting an existing entry. */
    method SetValue(key: Text, e: Node?)
      requires kind == ObjectType
      modifies this
      ensures entries == old(entries)[key := e]
      ensures flag == old(flag) && num == old(num) && text == old(text) && items == old(items)
    {
      entries := entries[key := e];
    }

    /** json_object::erase(key) */
    method EraseKey(key: Text)
      requires kind == ObjectType
      modifies this
      ensures entries == old(entries) - {key}
      ensures flag == old(flag) && num == old(num) && text == old(text) && items == old(items)
    {
      entries := entries - {key};
    }

    /** json_object::clear() */
    method ClearEntries()
      requires kind == ObjectType
      modifies this
      ensures entries == map[]
      ensures flag == old(flag) && num == old(num) && text == old(text) && items == old(items)
    {
      entries := map[];
    }

    /** json_object::size() */
    method EntryCount() returns (n: nat)
      requires kind == ObjectType
      ensures n == |entries|
    {
      n := |entries|;
    }
  }

  // ---------------------------------------------------------------------------
  // Slot sequences

  /** Reading slot i: past the end it is absent. */
  function Get(s: seq<Node?>, i: nat): Node?
  {
    if i < |s| then s[i] else null
  }

  /** std::vector::resize with null pointers as the new elements. */
  function Resized(s: seq<Node?>, n: nat): (r: seq<Node?>)
    ensures |r| == n
    ensures forall j :: 0 <= j < n ==> r[j] == Get(s, j)
  {
    if n <= |s| then s[..n] else s + seq(n - |s|, _ => null)
  }

  /** The slots after SetAt(i, e). */
  function Placed(s: seq<Node?>, i: nat, e: Node?): (r: seq<Node?>)
    ensures |r| == if i < |s| then |s| else i + 1
    ensures r[i] == e
    ensures forall j :: 0 <= j < |r| && j != i ==> r[j] == Get(s, j)
  {
    Resized(s, if i < |s| then |s| else i + 1)[i := e]
  }

  /** The slots after insert(i, e). */
  function Inserted(s: seq<Node?>, i: nat, e: Node?): (r: seq<Node?>)
    ensures |r| == (if i < |s| then |s| else i) + 1
    ensures r[i] == e
    ensures forall j :: 0 <= j < i ==> r[j] == Get(s, j)
    ensures forall j :: i < j < |r| ==> r[j] == s[j - 1]
  {
    var t := if i > |s| then Resized(s, i) else s;
    t[..i] + [e] + t[i..]
  }

  /** The slots after erase(i). */
  function Erased(s: seq<Node?>, i: nat): (r: seq<Node?>)
    ensures i < |s| ==> |r| == |s| - 1
    ensures i >= |s| ==> r == s
    ensures forall j :: 0 <= j < |r| ==> r[j] == (if j < i then s[j] else s[j + 1])
  {
    if i < |s| then s[..i] + s[i + 1..] else s
  }

  /** After SetAt(i, e), GetAt(i) yields e and every other GetAt is as before. */
  lemma PlacedGet(s: seq<Node?>, i: nat, e: Node?, j: nat)
    ensures Get(Placed(s, i, e), j) == if j == i then e else Get(s, j)
  {
  }

  /** Storing a slot's own content back changes nothing. */
  lemma PlacedSame(s: seq<Node?>, i: nat)
    requires i < |s|
    ensures Placed(s, i, s[i]) == s
  {
    assert Placed(s, i, s[i]) == s;
  }

  /** After insert(i, e), the slots before i are as GetAt saw them and the rest moved up by one. */
  lemma InsertedGet(s: seq<Node?>, i: nat, e: Node?, j: nat)
    ensures Get(Inserted(s, i, e), j) == if j < i then Get(s, j) else if j == i then e else Get(s, j - 1)
  {
  }

  /** erase undoes insert at the same position. */
  lemma EraseInserted(s: seq<Node?>, i: nat, e: Node?)
    requires i <= |s|
    ensures Erased(Inserted(s, i, e), i) == s
  {
    assert Erased(Inserted(s, i, e), i) == s;
  }

  /** After erase(i), later slots moved down by one and GetAt past the end stays absent. */
  lemma ErasedGet(s: seq<Node?>, i: nat, j: nat)
    requires i < |s|
    ensures Get(Erased(s, i), j) == if j < i then Get(s, j) else Get(s, j + 1)
  {
  }

  // ---------------------------------------------------------------------------
  // What a node denotes

  /** n and every node below it lie in S, and no path below n is longer than d. */
  ghost predicate Within(n: Node, S: set<Node>, d: nat)
    reads S
    decreases d
  {
    n in S &&
    (n.kind == ArrayType ==>
      forall i :: 0 <= i < |n.items| && n.items[i] != null ==> d > 0 && Within(n.items[i], S, d - 1)) &&
    (n.kind == ObjectType ==>
      forall k :: k in n.entries && n.entries[k] != null ==> d > 0 && Within(n.entries[k], S, d - 1))
  }

  /** Every non-null slot of s is within S below height d. */
  ghost predicate SlotsWithin(s: seq<Node?>, S: set<Node>, d: nat)
    reads S
  {
    forall i :: 0 <= i < |s| && s[i] != null ==> d > 0 && Within(s[i], S, d - 1)
  }

  /** The value tree n denotes. */
  ghost function ValueOf(n: Node, S: set<Node>, d: nat): (v: Value)
    requires Within(n, S, d)
    reads S
    ensures TypeOf(v) == n.kind
    decreases d, 1
  {
    match n.kind
    case NullType => Null
    case BooleanType => Boolean(n.flag)
    case NumberType => Num(n.num)
    case StringType => Str(n.text)
    case ArrayType => Arr(SlotsOf(n.items, S, d))
    case ObjectType =>
      Obj(map k | k in n.entries :: if n.entries[k] == null then None else Some(ValueOf(n.entries[k], S, d - 1)))
  }

  /** The child of one slot at height below d, absent for null. */
  ghost function SlotOf(c: Node?, S: set<Node>, d: nat): (o: Option<Value>)
    requires c != null ==> d > 0 && Within(c, S, d - 1)
    reads S
    ensures o.None? <==> c == null
    decreases d, 0, 0
  {
    if c == null then None else Some(ValueOf(c, S, d - 1))
  }

  /** The slots of an array, one value per slot. */
  ghost function SlotsOf(s: seq<Node?>, S: set<Node>, d: nat): (r: seq<Option<Value>>)
    requires SlotsWithin(s, S, d)
    reads S
    ensures |r| == |s|
    ensures forall i :: 0 <= i < |s| ==> r[i] == SlotOf(s[i], S, d)
    decreases d, 0, |s|
  {
    if s == [] then [] else SlotsOf(s[..|s| - 1], S, d) + [SlotOf(s[|s| - 1], S, d)]
  }

  lemma ObjectValue(n: Node, S: set<Node>, d: nat, k: Text)
    requires Within(n, S, d) && n.kind == ObjectType
    ensures ValueOf(n, S, d).entries.Keys == n.entries.Keys
    ensures k in n.entries ==> ValueOf(n, S, d).entries[k] == SlotOf(n.entries[k], S, d)
  {
  }

  /** Growing the footprint changes neither the bound nor the value. */
  lemma {:induction false} WithinGrow(n: Node, S: set<Node>, T: set<Node>, d: nat)
    requires Within(n, S, d) && S <= T
    ensures Within(n, T, d) && ValueOf(n, T, d) == ValueOf(n, S, d)
    decreases d
  {
    if n.kind == ArrayType {
      forall i | 0 <= i < |n.items| && n.items[i] != null
        ensures Within(n.items[i], T, d - 1) && ValueOf(n.items[i], T, d - 1) == ValueOf(n.items[i], S, d - 1)
      {
        WithinGrow(n.items[i], S, T, d - 1);
      }
      assert SlotsOf(n.items, T, d) == SlotsOf(n.items, S, d);
    } else if n.kind == ObjectType {
      forall k | k in n.entries && n.entries[k] != null
        ensures Within(n.entries[k], T, d - 1) && ValueOf(n.entries[k], T, d - 1) == ValueOf(n.entries[k], S, d - 1)
      {
        WithinGrow(n.entries[k], S, T, d - 1);
      }
      assert ValueOf(n, T, d).entries == ValueOf(n, S, d).entries;
    }
  }

  /** A larger height bound changes neither the bound's validity nor the value. */
  lemma {:induction false} WithinDeeper(n: Node, S: set<Node>, d: nat, d': nat)
    requires Within(n, S, d) && d <= d'
    ensures Within(n, S, d') && ValueOf(n, S, d') == ValueOf(n, S, d)
    decreases d
  {
    if n.kind == ArrayType {
      forall i | 0 <= i < |n.items| && n.items[i] != null
        ensures Within(n.items[i], S, d' - 1) && ValueOf(n.items[i], S, d' - 1) == ValueOf(n.items[i], S, d - 1)
      {
        WithinDeeper(n.items[i], S, d - 1, d' - 1);
      }
      assert SlotsOf(n.items, S, d') == SlotsOf(n.items, S, d);
    } else if n.kind == ObjectType {
      forall k | k in n.entries && n.entries[k] != null
        ensures Within(n.entries[k], S, d' - 1) && ValueOf(n.entries[k], S, d' - 1) == ValueOf(n.entries[k], S, d - 1)
      {
        WithinDeeper(n.entries[k], S, d - 1, d' - 1);
      }
      assert ValueOf(n, S, d').entries == ValueOf(n, S, d).entries;
    }
  }

  /** empty() of a node is IsEmpty of the value it denotes. */
  lemma EmptyValue(n: Node, S: set<Node>, d: nat)
    requires Within(n, S, d)
    ensures n.Empty() <==> IsEmpty(ValueOf(n, S, d))
  {
    if n.kind == ObjectType {
      ObjectValue(n, S, d, []);
      assert |ValueOf(n, S, d).entries.Keys| == |n.entries.Keys|;
    }
  }
}
