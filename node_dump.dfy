/**
 * The compact `dump()` of every node class of src/karl.cc as a walk over the
 * heap nodes.  What a node prints is `Dump` of the value it denotes.
 */
module NodeDump {
  import opened Base
  import opened KeyOrder
  import opened JsonValue
  import opened JsonNodes
  import opened NodeWalks

  /** The joined parts from i on: part i, then a comma and the rest when there is more. */
  lemma JoinFrom(parts: seq<Text>, i: nat)
    requires i < |parts|
    ensures Join(parts[i..]) == parts[i] + (if i + 1 < |parts| then "," + Join(parts[i + 1..]) else [])
  {
    assert parts[i..][1..] == parts[i + 1..];
  }

  lemma Regrouped(a: Text, b: Text, c: Text)
    ensures a + (b + c) == (a + b) + c
  {
  }

  /** dump() of every node class. */
  method DumpNode(n: Node, ghost S: set<Node>, ghost d: nat, ghost v: Value) returns (s: Text)
    requires Within(n, S, d) && ValueOf(n, S, d) == v
    ensures s == Dump(v)
    decreases d, 3
  {
    if n.kind == ArrayType {
      SlotsDenoteSelf(n, S, d);
      s := DumpArray(n.items, S, d, v);
    } else if n.kind == ObjectType {
      EntriesDenoteSelf(n, S, d);
      s := DumpObject(n.entries, S, d, v);
    } else if n.kind == NullType {
      s := "null";
    } else if n.kind == BooleanType {
      s := if n.flag then "true" else "false";
    } else if n.kind == NumberType {
      s := IntToString(n.num.value);
    } else {
      s := "\"" + n.text + "\"";
    }
  }

  /** One slot: the child's dump, or `null` when it is absent. */
  method DumpChild(c: Node?, ghost S: set<Node>, ghost d: nat, ghost o: Option<Value>) returns (s: Text)
    requires SlotDenotes(c, S, d, o)
    ensures s == DumpSlot(o)
    decreases d, 0
  {
    if c != null {
      s := DumpNode(c, S, d - 1, o.value);
    } else {
      s := "null";
    }
  }

  /** json_array::dump: the slots between brackets, a comma after each but the last. */
  method DumpArray(src: seq<Node?>, ghost S: set<Node>, ghost d: nat, ghost v: Value) returns (s: Text)
    requires v.Arr? && SlotsDenote(src, S, d, v.items, |src|) && |src| == |v.items|
    ensures s == Dump(v)
    decreases d, 2
  {
    ghost var parts := ItemDumps(v, v.items);
    s := "[";
    assert parts[0..] == parts;
    var size := |src|;
    var index := 0;
    while index < size
      invariant index <= size
      invariant "[" + Join(parts) == s + Join(parts[index..])
    {
      var piece := DumpChild(src[index], S, d, v.items[index]);
      JoinFrom(parts, index);
      Regrouped(s, piece, if index + 1 < size then "," + Join(parts[index + 1..]) else []);
      s := s + piece;
      index := index + 1;
      if index != size {
        Regrouped(s, ",", Join(parts[index..]));
        s := s + ",";
      }
    }
    assert parts[index..] == [];
    s := s + "]";
  }

  /** In enumeration order, key j of the map is pair j of the value, and its node denotes that pair's value. */
  ghost predicate PairsShow(src: map<Text, Node?>, keys: seq<Text>, S: set<Node>, d: nat, parent: Value, es: seq<(Text, Option<Value>)>)
    reads S
  {
    |keys| == |es| &&
    forall j :: 0 <= j < |keys| ==>
      keys[j] in src && keys[j] == es[j].0 && SlotDenotes(src[keys[j]], S, d, es[j].1) && es[j].1 < parent
  }

  lemma PairsShowSelf(src: map<Text, Node?>, S: set<Node>, d: nat, v: Value)
    requires v.Obj? && EntriesDenote(src, S, d, v.entries) && src.Keys == v.entries.Keys
    ensures PairsShow(src, KeysInOrder(src), S, d, v, EntryList(v.entries))
  {
    PairsBelow(v);
    var es := EntryList(v.entries);
    var keys := KeysInOrder(src);
    assert keys == KeysInOrder(v.entries);
    EntryListKeys(v.entries);
    forall j | 0 <= j < |keys|
      ensures keys[j] in src && keys[j] == es[j].0 && SlotDenotes(src[keys[j]], S, d, es[j].1)
    {
      assert keys[j] == KeysOf(es)[j];
    }
  }

  /** json_object::dump: `"key":value` per entry in enumeration order, between braces. */
  method DumpObject(src: map<Text, Node?>, ghost S: set<Node>, ghost d: nat, ghost v: Value) returns (s: Text)
    requires v.Obj? && EntriesDenote(src, S, d, v.entries) && src.Keys == v.entries.Keys
    ensures s == Dump(v)
    decreases d, 2
  {
    PairsBelow(v);
    PairsShowSelf(src, S, d, v);
    s := DumpPairs(src, KeysInOrder(src), S, d, v, EntryList(v.entries));
  }

  /** The loop of json_object::dump over the keys in enumeration order. */
  method DumpPairs(src: map<Text, Node?>, keys: seq<Text>, ghost S: set<Node>, ghost d: nat,
                   ghost v: Value, ghost es: seq<(Text, Option<Value>)>) returns (s: Text)
    requires PairsShow(src, keys, S, d, v, es)
    ensures s == "{" + Join(EntryDumps(v, es)) + "}"
    decreases d, 1
  {
    ghost var parts := EntryDumps(v, es);
    s := "{";
    assert parts[0..] == parts;
    var size := |keys|;
    var index := 0;
    while index < size
      invariant index <= size
      invariant "{" + Join(parts) == s + Join(parts[index..])
    {
      var k := keys[index];
      var child := DumpChild(src[k], S, d, es[index].1);
      var piece := "\"" + k + "\":" + child;
      JoinFrom(parts, index);
      Regrouped(s, piece, if index + 1 < size then "," + Join(parts[index + 1..]) else []);
      s := s + piece;
      index := index + 1;
      if index != size {
        Regrouped(s, ",", Join(parts[index..]));
        s := s + ",";
      }
    }
    assert parts[index..] == [];
    s := s + "}";
  }
}
