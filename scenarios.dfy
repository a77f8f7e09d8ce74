/**
 * The behaviour example/main.cc checks, as methods over the handle whose
 * postconditions state the outcome the program prints as success.
 */
module Scenarios {
  import opened Base
  import opened JsonValue
  import opened JsonNodes
  import opened CborTable
  import opened CborDecode
  import opened ValueCbor
  import opened CborRoundTrip
  import opened JsonHandle

  /** `j[i] = x` on a root that is empty or an array whose slot i is empty. */
  method PutSlot(j: Json, i: nat, x: Scalar) returns (c: Node)
    requires ValidScalar(x) && j.Valid() && j.depth == 0
    requires j.data == null || (j.data.kind == ArrayType && Get(j.data.items, i) == null)
    modifies j, j.data
    ensures j.Valid() && j.depth == 0 && j.data != null && j.data.kind == ArrayType
    ensures old(j.data) == null ==> fresh(j.data) && j.data.items == Placed([], i, c)
    ensures old(j.data) != null ==> j.data == old(j.data) && j.data.items == Placed(old(j.data.items), i, c)
    ensures fresh(c) && Holds(c, x)
  {
    var r := j.Index(i);
    var l := r.value;
    l.Assign(x);
    c := l.CurrentValue();
  }

  /** `j[1] = 2; j[2] = "ss"; j[0] = 1;` on an empty root: an array of three new scalar nodes. */
  method ArrayByIndexNodes() returns (j: Json, n0: Node, n1: Node, n2: Node)
    ensures j.Valid() && j.depth == 0 && j.data != null && j.data.kind == ArrayType
    ensures j.data.items == [n0, n1, n2]
    ensures Holds(n0, OfInt64(1)) && Holds(n1, OfInt64(2)) && Holds(n2, OfText("ss"))
  {
    j := new Json();
    n1 := PutSlot(j, 1, OfInt64(2));
    assert j.data.items == [null, n1];
    n2 := PutSlot(j, 2, OfText("ss"));
    assert j.data.items == [null, n1, n2];
    n0 := PutSlot(j, 0, OfInt64(1));
  }

  /** dump() of a handle known to name v. */
  method DumpAs(h: Json, ghost S: set<Node>, ghost d: nat, ghost v: Value) returns (s: Text)
    requires h.Valid() && h.Shows(S, d) && h.Current(S, d) == Some(v)
    ensures s == JsonValue.Dump(v)
  {
    s := h.Dump(S, d);
  }

  /** The value test_json_array builds. */
  function ArrayValue(): Value
  {
    Arr([Some(Num(FromSigned(1))), Some(Num(FromSigned(2))), Some(Str("ss"))])
  }

  /** Its compact dump. */
  lemma ArrayValueDump()
    ensures JsonValue.Dump(ArrayValue()) == "[1,2,\"ss\"]"
  {
    var v := ArrayValue();
    assert IntToString(1) == "1" && IntToString(2) == "2";
    assert DumpSlot(v.items[0]) == "1" && DumpSlot(v.items[1]) == "2" && DumpSlot(v.items[2]) == "\"ss\"";
    assert ItemDumps(v, v.items) == ["1", "2", "\"ss\""];
    assert Join(["1", "2", "\"ss\""]) == "1" + "," + Join(["2", "\"ss\""]);
  }

  /** test_json_array: the handle dumps as `[1,2,"ss"]`. */
  method ArrayByIndex() returns (s: Text)
    ensures s == "[1,2,\"ss\"]"
  {
    var j, n0, n1, n2 := ArrayByIndexNodes();
    ghost var S := {j.data, n0, n1, n2};
    HoldsValue(n0, OfInt64(1), S, 0);
    HoldsValue(n1, OfInt64(2), S, 0);
    HoldsValue(n2, OfText("ss"), S, 0);
    assert SlotsOf(j.data.items, S, 1) == ArrayValue().items;
    s := DumpAs(j, S, 1, ArrayValue());
    ArrayValueDump();
  }

  /** `t[1]["one"] = 2` on an empty root: slot 1 receives a new object, slot 0 stays empty. */
  method NestedNodes() returns (t: Json, o: Node, n: Node)
    ensures t.Valid() && t.depth == 0 && t.data != null && t.data.kind == ArrayType
    ensures t.data.items == [null, o] && o.kind == ObjectType && o.entries == map["one" := n]
    ensures Holds(n, OfInt64(2))
  {
    t := new Json();
    var r1 := t.Index(1);
    var l1 := r1.value;
    var r2 := l1.Key("one");
    var l2 := r2.value;
    o := l2.data;
    l2.Assign(OfInt64(2));
    n := l2.CurrentValue();
  }

  /** The value test_json_multi_layer_assignment builds. */
  function NestedValue(): Value
  {
    Arr([None, Some(Obj(map["one" := Some(Num(FromSigned(2)))]))])
  }

  lemma NestedValueDump()
    ensures JsonValue.Dump(NestedValue()) == "[null,{\"one\":2}]"
  {
    NestedValuePieces();
    NestedText();
  }

  /** The dump of NestedValue() assembled from the dumps of its two slots. */
  lemma NestedValuePieces()
    ensures JsonValue.Dump(NestedValue()) == "[" + "null" + "," + "{\"one\":2}" + "]"
  {
    InnerObjectDump();
    TwoItemDump(NestedValue(), "null", "{\"one\":2}");
  }

  lemma NestedText()
    ensures "[" + "null" + "," + "{\"one\":2}" + "]" == "[null,{\"one\":2}]"
  {
  }

  /** The dump of a two-slot array from the dumps of its slots. */
  lemma TwoItemDump(v: Value, a: Text, b: Text)
    requires v.Arr? && |v.items| == 2 && DumpSlot(v.items[0]) == a && DumpSlot(v.items[1]) == b
    ensures JsonValue.Dump(v) == "[" + a + "," + b + "]"
  {
    assert ItemDumps(v, v.items) == [a, b];
  }

  /** The object under slot 1 of NestedValue(). */
  lemma InnerObjectDump()
    ensures JsonValue.Dump(NestedValue().items[1].value) == "{\"one\":2}"
  {
    var o := NestedValue().items[1].value;
    assert KeyOrder.KeysInOrder(o.entries) == ["one"];
    assert IntToString(2) == "2";
    assert DumpSlot(o.entries["one"]) == "2";
  }

  /** The three nodes `t[1]["one"] = 2` leaves denote NestedValue(). */
  lemma NestedDenotes(a: Node, o: Node, n: Node)
    requires a.kind == ArrayType && a.items == [null, o] && o.kind == ObjectType && o.entries == map["one" := n]
    requires Holds(n, OfInt64(2))
    ensures Within(a, {a, o, n}, 2) && ValueOf(a, {a, o, n}, 2) == NestedValue()
  {
    var S := {a, o, n};
    HoldsValue(n, OfInt64(2), S, 0);
    assert ValueOf(o, S, 1) == NestedValue().items[1].value;
    assert SlotsOf(a.items, S, 2) == NestedValue().items;
  }

  /** test_json_multi_layer_assignment: the handle dumps as `[null,{"one":2}]`. */
  method Nested() returns (s: Text)
    ensures s == "[null,{\"one\":2}]"
  {
    var t, o, n := NestedNodes();
    NestedDenotes(t.data, o, n);
    s := DumpAs(t, {t.data, o, n}, 2, NestedValue());
    NestedValueDump();
  }

  /** `j[k] = x` on a root that is empty or an object without k. */
  method PutScalar(j: Json, k: Text, x: Scalar) returns (c: Node)
    requires ValidScalar(x) && j.Valid() && j.depth == 0
    requires j.data == null || (j.data.kind == ObjectType && k !in j.data.entries)
    modifies j, j.data
    ensures j.Valid() && j.depth == 0 && j.data != null && j.data.kind == ObjectType
    ensures old(j.data) == null ==> fresh(j.data) && j.data.entries == map[k := c]
    ensures old(j.data) != null ==> j.data == old(j.data) && j.data.entries == old(j.data.entries)[k := c]
    ensures fresh(c) && Holds(c, x)
  {
    var r := j.Key(k);
    var l := r.value;
    l.Assign(x);
    c := l.CurrentValue();
  }

  /** `j["one"] = flag; j["two"] = 2; j["three"] = "hello world";` on an empty root. */
  method ObjectNodes(flag: bool) returns (j: Json, b: Node, n: Node, t: Node)
    ensures fresh(j) && j.Valid() && j.depth == 0 && j.data != null && j.data.kind == ObjectType && fresh(j.data)
    ensures j.data.entries == map["one" := b, "two" := n, "three" := t]
    ensures Holds(b, OfBool(flag)) && Holds(n, OfInt64(2)) && Holds(t, OfText("hello world"))
  {
    j := new Json();
    b := PutScalar(j, "one", OfBool(flag));
    n := PutScalar(j, "two", OfInt64(2));
    t := PutScalar(j, "three", OfText("hello world"));
  }

  /** test_json_object: each key reads back what was assigned to it. */
  method ObjectByKey() returns (one: Result<bool>, two: Result<int>, three: Result<Text>)
    ensures one == Ok(false) && two == Ok(2) && three == Ok("hello world")
  {
    var j, b, n, t := ObjectNodes(false);
    var ty, bv, iv, sv := ReadKey(j, "one");
    one := bv;
    ty, bv, two, sv := ReadKey(j, "two");
    ty, bv, iv, three := ReadKey(j, "three");
  }

  /**
   * `j[k][k2]` on a root object whose entry k is an object: the location of
   * that inner entry, nothing changed.
   */
  method KeyThenKey(j: Json, k: Text, k2: Text) returns (e: Json)
    requires j.Valid() && j.depth == 0 && j.GetType() == ObjectType && k in j.data.entries
    requires j.data.entries[k] != null && j.data.entries[k].kind == ObjectType
    modifies j, j.data
    ensures j.Valid() && j.depth == 0 && j.data == old(j.data) && unchanged(j.data)
    ensures e.Valid() && e.depth == 2 && e.data == j.data.entries[k] && e.key == Some(k2)
  {
    var r := j.Key(k);
    var l := r.value;
    var m := l.Key(k2);
    e := m.value;
  }

  /** `j["test"]["one"].get()` and `j["test"]["w"].get<std::string>()` */
  method ReadTest(j: Json, n: Node, w: Node) returns (one: Result<int>, text: Result<Text>)
    requires j.Valid() && j.depth == 0 && j.GetType() == ObjectType && "test" in j.data.entries
    requires var o := j.data.entries["test"]; o != null && o.kind == ObjectType && o.entries == map["one" := n, "w" := w]
    requires Holds(n, OfInt64(2)) && Holds(w, OfText("ok"))
    modifies j, j.data
    ensures one == Ok(2) && text == Ok("ok")
  {
    var e := KeyThenKey(j, "test", "one");
    one := e.GetInteger(W32, true);
    CastRoundTrip(n.num, W32, true);
    e := KeyThenKey(j, "test", "w");
    text := e.GetText();
  }

  /**
   * test_json_obj_assignment: `j["test"] = t` stores t's own node under
   * "test"; `j["x"]` is null; `j["test"]["one"]` reads 2 and
   * `j["test"]["w"]` reads "ok".
   */
  method ObjAssignment() returns (shared: bool, xNull: bool, one: Result<int>, text: Result<Text>)
    ensures shared && xNull && one == Ok(2) && text == Ok("ok")
  {
    var t := new Json();
    var n := PutScalar(t, "one", OfInt64(2));
    var w := PutScalar(t, "w", OfText("ok"));
    var j := new Json();
    var r := j.Key("test");
    var l := r.value;
    l.AssignHandle(t);
    shared := j.data.entries == map["test" := t.data];
    var ty, b, i, str := ReadKey(j, "x");
    xNull := ty == NullType;
    one, text := ReadTest(j, n, w);
  }

  /** `jj.push_back(j)` on an empty root jj. */
  method PushOnto(j: Json) returns (jj: Json)
    requires j.Valid()
    ensures fresh(jj) && jj.Valid() && jj.depth == 0 && jj.data != null && fresh(jj.data)
    ensures jj.GetType() == ArrayType && jj.data.items == [j.CurrentValue()]
  {
    jj := new Json();
    var _ := jj.PushBack(j);
  }

  /** A root array whose slot 0 holds an object. */
  ghost predicate FirstIsObject(jj: Json)
    reads jj, jj.data
  {
    jj.Valid() && jj.depth == 0 && jj.data != null && jj.data.kind == ArrayType && |jj.data.items| > 0 &&
    jj.data.items[0] != null && jj.data.items[0].kind == ObjectType
  }

  /** `jj[0][k]`: the location of that entry, nothing changed. */
  method FirstThenKey(jj: Json, k: Text) returns (e: Json)
    requires FirstIsObject(jj)
    modifies jj, jj.data
    ensures FirstIsObject(jj) && jj.data == old(jj.data) && unchanged(jj.data)
    ensures e.Valid() && e.depth == 2 && e.data == jj.data.items[0] && e.key == Some(k)
  {
    var r := jj.Index(0);
    var l := r.value;
    var m := l.Key(k);
    e := m.value;
  }

  /** `jj[0][k].get<bool>()` */
  method FirstBool(jj: Json, k: Text) returns (r: Result<bool>)
    requires FirstIsObject(jj)
    modifies jj, jj.data
    ensures FirstIsObject(jj) && jj.data == old(jj.data) && unchanged(jj.data)
    ensures var o := jj.data.items[0];
      k in o.entries && o.entries[k] != null && o.entries[k].kind == BooleanType ==> r == Ok(o.entries[k].flag)
  {
    var e := FirstThenKey(jj, k);
    r := e.GetBool();
  }

  /** `jj[0][k].get<int>()` */
  method FirstInt(jj: Json, k: Text) returns (r: Result<int>)
    requires FirstIsObject(jj)
    modifies jj, jj.data
    ensures FirstIsObject(jj) && jj.data == old(jj.data) && unchanged(jj.data)
    ensures var o := jj.data.items[0];
      k in o.entries && o.entries[k] != null && o.entries[k].kind == NumberType ==>
        r == Ok(CastInteger(AsUint64(o.entries[k].num), W32, true))
  {
    var e := FirstThenKey(jj, k);
    r := e.GetInteger(W32, true);
  }

  /** `jj[0][k].get<std::string>()` */
  method FirstText(jj: Json, k: Text) returns (r: Result<Text>)
    requires FirstIsObject(jj)
    modifies jj, jj.data
    ensures FirstIsObject(jj) && jj.data == old(jj.data) && unchanged(jj.data)
    ensures var o := jj.data.items[0];
      k in o.entries && o.entries[k] != null && o.entries[k].kind == StringType ==> r == Ok(o.entries[k].text)
  {
    var e := FirstThenKey(jj, k);
    r := e.GetText();
  }

  /**
   * test_json_arry_push_back: the array holds the pushed object's node
   * itself, and reading through it finds the object's entries.
   */
  method PushBackObject() returns (shared: bool, one: Result<bool>, two: Result<int>, three: Result<Text>)
    ensures shared && one == Ok(true) && two == Ok(2) && three == Ok("hello world")
  {
    var j, b, n, t := ObjectNodes(true);
    var jj := PushOnto(j);
    shared := jj.data.items == [j.data];
    one, two, three := ReadFirst(jj, b, n, t);
  }

  /** The three reads of test_json_arry_push_back through slot 0. */
  method ReadFirst(jj: Json, b: Node, n: Node, t: Node) returns (one: Result<bool>, two: Result<int>, three: Result<Text>)
    requires FirstIsObject(jj) && jj.data.items[0].entries == map["one" := b, "two" := n, "three" := t]
    requires Holds(b, OfBool(true)) && Holds(n, OfInt64(2)) && Holds(t, OfText("hello world"))
    modifies jj, jj.data
    ensures one == Ok(true) && two == Ok(2) && three == Ok("hello world")
  {
    one := FirstBool(jj, "one");
    two := FirstInt(jj, "two");
    CastRoundTrip(n.num, W32, true);
    three := FirstText(jj, "three");
  }

  /** test_json_const_iterator's `mj.push_back(j)` three times: one node, three slots. */
  method PushBackShares(j: Json) returns (mj: Json)
    requires j.Valid()
    ensures mj.Valid() && mj.depth == 0 && mj.data != null && mj.data.kind == ArrayType
    ensures mj.data.items == [j.CurrentValue(), j.CurrentValue(), j.CurrentValue()]
  {
    mj := new Json();
    var f1 := mj.PushBack(j);
    var f2 := mj.PushBack(j);
    var f3 := mj.PushBack(j);
  }

  /** `js[i] = x` on a root array. */
  method SetSlot(js: Json, i: nat, x: Scalar)
    requires ValidScalar(x) && js.Valid() && js.depth == 0 && js.GetType() == ArrayType
    modifies js, js.data, Get(js.data.items, i)
    ensures js.Valid() && js.depth == 0 && js.data == old(js.data) && js.GetType() == ArrayType
    ensures i < |js.data.items| && js.data.items[i] != null && Holds(js.data.items[i], x)
  {
    var r := js.Index(i);
    var l := r.value;
    l.Assign(x);
  }

  /** `js[i].get<int>()` on a root array. */
  method SlotInt(js: Json, i: nat) returns (r: Result<int>)
    requires js.Valid() && js.depth == 0 && js.GetType() == ArrayType
    modifies js, js.data
    ensures js.Valid() && js.depth == 0 && js.data == old(js.data) && unchanged(js.data)
    ensures var c := Get(js.data.items, i);
      c != null && c.kind == NumberType ==> r == Ok(CastInteger(AsUint64(c.num), W32, true))
  {
    var h := js.Index(i);
    r := h.value.GetInteger(W32, true);
  }

  /**
   * test_json_object_deep_copy: after `bak = js.copy(); js[1] = 5;` the
   * original reads 5 at slot 1 and the copy still denotes what the
   * original did before.
   */
  method DeepCopy(js: Json, ghost S: set<Node>, ghost d: nat) returns (five: Result<int>, bak: Json, ghost T: set<Node>)
    requires js.Valid() && js.depth == 0 && js.GetType() == ArrayType && js.Shows(S, d)
    modifies js, js.data, Get(js.data.items, 1)
    ensures five == Ok(5)
    ensures bak.Valid() && bak.Shows(T, d) && bak.Current(T, d) == old(js.Current(S, d))
  {
    bak, T := js.Copy(S, d);
    SetSlot(js, 1, OfInt64(5));
    five := SlotInt(js, 1);
  }

  /** `j[k]` read every way on a root object: its type, get<bool>(), get<int>() and get<std::string>(). */
  method ReadKey(j: Json, k: Text) returns (t: ValueType, b: Result<bool>, i: Result<int>, s: Result<Text>)
    requires j.Valid() && j.depth == 0 && j.GetType() == ObjectType
    modifies j, j.data
    ensures j.Valid() && j.depth == 0 && j.data == old(j.data) && unchanged(j.data)
    ensures var c := if k in j.data.entries then j.data.entries[k] else null;
      t == (if c == null then NullType else c.kind) &&
      (c != null && c.kind == BooleanType ==> b == Ok(c.flag)) &&
      (c != null && c.kind == NumberType ==> i == Ok(CastInteger(AsUint64(c.num), W32, true))) &&
      (c != null && c.kind == StringType ==> s == Ok(c.text))
  {
    var r := j.Key(k);
    var e := r.value;
    t := e.GetType();
    b := e.GetBool();
    i := e.GetInteger(W32, true);
    s := e.GetText();
  }

  /** The child under key k of a node denoting an object holding x there. */
  lemma EntryNode(o: Node, T: set<Node>, d: nat, k: Text)
    requires Within(o, T, d) && o.kind == ObjectType && k in ValueOf(o, T, d).entries
    requires ValueOf(o, T, d).entries[k].Some?
    ensures k in o.entries && o.entries[k] != null && Within(o.entries[k], T, d - 1)
    ensures ValueOf(o.entries[k], T, d - 1) == ValueOf(o, T, d).entries[k].value
  {
    ObjectValue(o, T, d, k);
  }

  /** The pairs of test_json_initializer_list_construct. */
  function InitPairs(): seq<(Text, Item)>
  {
    [("one", NullItem), ("two", ScalarItem(OfBool(true))),
     ("three", ScalarItem(OfInt64(10086))), ("str", ScalarItem(OfText("World")))]
  }

  /** The object those pairs make. */
  lemma InitPairsMap()
    ensures PairMap(InitPairs()) == map["one" := Some(Value.Null), "two" := Some(Boolean(true)),
      "three" := Some(Num(FromSigned(10086))), "str" := Some(Str("World"))]
  {
    var ps := InitPairs();
    assert ps[..3] == ps[..|ps| - 1] && ps[..3][..2] == ps[..2] && ps[..2][..1] == ps[..1];
    assert PairMap(ps[..1]) == map["one" := Some(Value.Null)];
    assert PairMap(ps[..2]) == map["one" := Some(Value.Null), "two" := Some(Boolean(true))];
  }

  /** The initializer-list constructor on those pairs, seen node by node. */
  method InitNodes() returns (j: Json)
    ensures fresh(j) && j.Valid() && j.depth == 0 && j.data != null && fresh(j.data) && j.data.kind == ObjectType
    ensures var m := j.data.entries;
      "one" in m && m["one"] != null && m["one"].kind == NullType &&
      "two" in m && m["two"] != null && m["two"].kind == BooleanType && m["two"].flag &&
      "three" in m && m["three"] != null && m["three"].kind == NumberType && m["three"].num == FromSigned(10086) &&
      "str" in m && m["str"] != null && m["str"].kind == StringType && m["str"].text == "World"
  {
    ghost var T;
    j, T := Json.FromPairs(InitPairs());
    InitPairsMap();
    EntryNode(j.data, T, 2, "one");
    EntryNode(j.data, T, 2, "two");
    EntryNode(j.data, T, 2, "three");
    EntryNode(j.data, T, 2, "str");
  }

  /**
   * test_json_initializer_list_construct: the pairs
   * `{"one", nullptr}, {"two", true}, {"three", 10086}, {"str", "World"}`
   * read back as null, true, 10086 and "World".
   */
  method InitializerList() returns (isNull: bool, two: Result<bool>, three: Result<int>, str: Result<Text>)
    ensures isNull && two == Ok(true) && three == Ok(10086) && str == Ok("World")
  {
    var j := InitNodes();
    var t, b, i, s := ReadKey(j, "one");
    isNull := t == NullType;
    t, two, i, s := ReadKey(j, "two");
    t, b, three, s := ReadKey(j, "three");
    t, b, i, str := ReadKey(j, "str");
  }

  /** test_json_initializer_list_vector_construct: `json(std::vector<int>{1, 2, 3, 4, 5})` is an array and reads 3 at slot 2. */
  method VectorOfInts() returns (isArray: bool, third: Result<int>)
    ensures isArray && third == Ok(3)
  {
    var xs := [OfInt64(1), OfInt64(2), OfInt64(3), OfInt64(4), OfInt64(5)];
    var j, T := Json.FromVector(xs);
    isArray := j.GetType() == ArrayType;
    ghost var c := j.data.items[2];
    assert SlotOf(c, T, 1) == ScalarSlots(xs)[2];
    assert ValueOf(c, T, 0) == Num(FromSigned(3));
    third := SlotInt(j, 2);
  }

  /** The decoder reads an encoding back whole, and an encoding is never empty. */
  lemma EncodedParses(v: Value)
    requires WellFormed(v)
    ensures |Encode(v)| > 0 && ParseArbitrary(Encode(v)) == Read(Some(Normalize(v)), |Encode(v)|)
  {
    ValueRoundTrip(v, []);
    assert Encode(v) + [] == Encode(v);
  }

  /** Normalising a tree without absent slots changes nothing. */
  lemma CompleteUnchanged(v: Value)
    ensures Complete(v) ==> Normalize(v) == v
  {
    if Complete(v) {
      NormalizeComplete(v);
    }
  }

  /** to_cbor() of a handle known to name v. */
  method EncodeAs(h: Json, ghost S: set<Node>, ghost d: nat, ghost v: Value) returns (bytes: seq<uint8>)
    requires h.Valid() && h.Shows(S, d) && h.Current(S, d) == Some(v) && WellFormed(v)
    ensures bytes == Encode(v)
  {
    bytes := h.ToCbor(S, d);
  }

  /** from_cbor of an encoding: a root on the normalised tree, every byte consumed. */
  method DecodeEncoded(bytes: seq<uint8>, ghost v: Value) returns (njs: Json, transfer: Option<nat>, ghost T: set<Node>, ghost d: nat)
    requires WellFormed(v) && bytes == Encode(v)
    ensures njs.Valid() && njs.Shows(T, d) && njs.Current(T, d) == Some(Normalize(v))
    ensures transfer == Some(|bytes|)
  {
    EncodedParses(v);
    var table := new TypeTable();
    njs, transfer, T, d := Json.FromCbor(table, bytes);
  }

  /**
   * test_json_cbor_encode_and_decode: from_cbor(to_cbor()) gives a root on
   * the same tree with absent slots as null nodes, and reports every byte
   * as consumed.
   */
  method CborThroughHandle(js: Json, ghost S: set<Node>, ghost d: nat, ghost v: Value)
    returns (njs: Json, transfer: Option<nat>, ghost T: set<Node>, ghost d': nat)
    requires js.Valid() && js.Shows(S, d) && js.Current(S, d) == Some(v) && WellFormed(v)
    ensures njs.Valid() && njs.Shows(T, d') && njs.Current(T, d') == Some(Normalize(v))
    ensures transfer == Some(|Encode(v)|)
    ensures Complete(v) ==> njs.Current(T, d') == Some(v)
  {
    var bytes := EncodeAs(js, S, d, v);
    njs, transfer, T, d' := DecodeEncoded(bytes, v);
    CompleteUnchanged(v);
  }

  /**
   * One turn of a range-for loop: the node the handed-out handle names,
   * then `++it` and the comparison with end().
   */
  method Advance(it: JsonIterator, last: JsonIterator, ghost a: Node, ghost p: nat) returns (k: Node?, done: bool)
    requires it.Valid() && last.AtEnd() && it != last
    requires (it.AtItem(a, p) && p < |a.items|) || it.OnSingle(a)
    modifies it, it.js
    ensures it.Valid() && (it.js != null ==> it.js == old(it.js)) && (done <==> it.AtEnd())
    ensures a.kind != ArrayType ==> k == a && done
    ensures a.kind == ArrayType ==> k == a.items[p] && (p + 1 < |a.items| ==> it.AtItem(a, p + 1)) && (p + 1 == |a.items| ==> done)
  {
    var r := it.Deref();
    k := r.value.CurrentValue();
    var _ := it.Increment();
    done := it.Equal(last);
  }

  /**
   * A range-for loop, `for (auto k : j)`: the nodes it visits are the
   * current array's slots in order, the current node itself once when it
   * is not an array, and nothing for an empty handle.
   */
  method RangeFor(h: Json) returns (visited: seq<Node?>)
    requires h.Valid()
    ensures h.GetType() == ArrayType ==> visited == h.CurrentValue().items
    ensures h.CurrentValue() == null ==> visited == []
    ensures h.CurrentValue() != null && h.GetType() != ArrayType ==> visited == [h.CurrentValue()]
  {
    var it := h.Begin();
    var last := h.End();
    var a := h.CurrentValue();
    visited := [];
    var done := it.Equal(last);
    if a == null {
      return;
    }
    ghost var isArray := a.kind == ArrayType;
    while !done
      invariant it.Valid() && last.AtEnd() && it != last && (it.js != null ==> fresh(it.js))
      invariant done <==> it.AtEnd()
      invariant isArray ==> |visited| <= |a.items| && visited == a.items[..|visited|]
      invariant isArray && !done ==> it.AtItem(a, |visited|) && |visited| < |a.items|
      invariant isArray && done ==> visited == a.items
      invariant !isArray ==> (visited == [] && it.OnSingle(a)) || (visited == [a] && done)
      decreases (if done then 0 else 1) + (if isArray then |a.items| - |visited| else 0)
    {
      var k;
      k, done := Advance(it, last, a, |visited|);
      visited := visited + [k];
    }
  }

  // test_json_reference_iterator: writes through `*it` reach the array's own nodes.

  /** An object whose keys hold distinct, present, scalar nodes. */
  ghost predicate Flat(o: Node)
    reads o
  {
    o.kind == ObjectType &&
    (forall key :: key in o.entries ==>
      o.entries[key] != null && o.entries[key].kind != ArrayType && o.entries[key].kind != ObjectType) &&
    (forall k1, k2 :: k1 in o.entries && k2 in o.entries && k1 != k2 ==> o.entries[k1] != o.entries[k2])
  }

  /** The slots of a are distinct flat objects, no two of them holding the same node. */
  ghost predicate Private(a: Node)
    reads a, set i | 0 <= i < |a.items| :: a.items[i]
  {
    a.kind == ArrayType &&
    (forall i :: 0 <= i < |a.items| ==> a.items[i] != null && Flat(a.items[i])) &&
    (forall i, k :: 0 <= i < k < |a.items| ==> a.items[i] != a.items[k]) &&
    (forall i, k :: 0 <= i < k < |a.items| ==> a.items[i].entries.Values !! a.items[k].entries.Values)
  }

  /** After the writes of the first loop: peer_id x, test false, ms "Helloworld". */
  ghost predicate Rewritten(o: Node, x: int)
    reads o, o.entries.Values
  {
    "peer_id" in o.entries && o.entries["peer_id"] != null && Holds(o.entries["peer_id"], OfInt64(x)) &&
    "test" in o.entries && o.entries["test"] != null && Holds(o.entries["test"], OfBool(false)) &&
    "ms" in o.entries && o.entries["ms"] != null && Holds(o.entries["ms"], OfText("Helloworld"))
  }

  /** `k[key] = x` on a handle whose current node is the flat object o; c is the node now under key. */
  method PutInto(k: Json, o: Node, key: Text, x: Scalar) returns (ghost c: Node)
    requires ValidScalar(x) && k.Valid() && k.depth > 0 && k.CurrentValue() == o && Flat(o)
    modifies k, k.data, o, if key in o.entries then {o.entries[key]} else {}
    ensures k.Valid() && k.depth == old(k.depth) && k.data == old(k.data) && k.index == old(k.index) && k.key == old(k.key)
    ensures unchanged(k.data) && k.CurrentValue() == o
    ensures Flat(o) && Holds(c, x) && o.entries == old(o.entries)[key := c]
    ensures (key in old(o.entries) && c == old(o.entries[key])) || fresh(c)
  {
    var r := k.Key(key);
    var l := r.value;
    l.Assign(x);
    c := l.CurrentValue();
  }

  /** c, now under key in an object whose entries were m, was there before or is new. */
  twostate predicate KeptOrNew(m: map<Text, Node?>, key: Text, new c: Node)
  {
    (key in m && c == m[key]) || fresh(c)
  }

  /** `k["peer_id"] = x; k["test"] = false;` on the flat object o that k names. */
  method WritePeerTest(k: Json, o: Node, x: int) returns (ghost c1: Node, ghost c2: Node)
    requires k.Valid() && k.depth > 0 && k.CurrentValue() == o && Flat(o) && -TWO_63 <= x < TWO_63
    modifies k, k.data, o, o.entries.Values
    ensures k.Valid() && k.depth == old(k.depth) && k.data == old(k.data) && k.index == old(k.index) && k.key == old(k.key)
    ensures unchanged(k.data) && k.CurrentValue() == o
    ensures Flat(o) && Holds(c1, OfInt64(x)) && Holds(c2, OfBool(false))
    ensures o.entries == old(o.entries)["peer_id" := c1]["test" := c2]
    ensures KeptOrNew(old(o.entries), "peer_id", c1) && KeptOrNew(old(o.entries), "test", c2)
  {
    ghost var m0 := o.entries;
    c1 := PutInto(k, o, "peer_id", OfInt64(x));
    assert "test" in o.entries ==> o.entries["test"] == m0["test"] && o.entries["test"] != c1;
    c2 := PutInto(k, o, "test", OfBool(false));
  }

  /**
   * The body of the first loop on the object o the handed-out location k
   * names; c1, c2 and c3 are the nodes left under the three keys.
   */
  method WriteSlot(k: Json, o: Node, x: int) returns (ghost c1: Node, ghost c2: Node, ghost c3: Node)
    requires k.Valid() && k.depth > 0 && k.CurrentValue() == o && Flat(o) && -TWO_63 <= x < TWO_63
    modifies k, k.data, o, o.entries.Values
    ensures k.Valid() && k.depth == old(k.depth) && k.data == old(k.data) && k.index == old(k.index) && k.key == old(k.key)
    ensures unchanged(k.data)
    ensures Flat(o) && Rewritten(o, x)
    ensures o.entries == old(o.entries)["peer_id" := c1]["test" := c2]["ms" := c3]
    ensures KeptOrNew(old(o.entries), "peer_id", c1) && KeptOrNew(old(o.entries), "test", c2)
    ensures KeptOrNew(old(o.entries), "ms", c3)
  {
    ghost var m0 := o.entries;
    c1, c2 := WritePeerTest(k, o, x);
    assert "ms" in o.entries ==> o.entries["ms"] == m0["ms"] && o.entries["ms"] != c1 && o.entries["ms"] != c2;
    c3 := PutInto(k, o, "ms", OfText("Helloworld"));
  }

  /**
   * One turn of the first loop: the writes through the location the
   * iterator hands out, on slot p of a.  Only slot p's object and the nodes
   * it held change, and a keeps its privacy.
   */
  method RewriteTurn(it: JsonIterator, a: Node, p: nat, x: int)
    requires it.Valid() && it.AtItem(a, p) && p < |a.items| && Private(a) && -TWO_63 <= x < TWO_63
    modifies it.js, a, a.items[p], a.items[p].entries.Values
    ensures it.AtItem(a, p) && a.items == old(a.items) && Private(a) && Rewritten(a.items[p], x)
    ensures forall q :: 0 <= q < |a.items| && q != p ==> unchanged(a.items[q]) && unchanged(a.items[q].entries.Values)
  {
    var r := it.Deref();
    var k := r.value;
    var o := a.items[p];
    ghost var m0 := o.entries;
    ghost var c1, c2, c3 := WriteSlot(k, o, x);
    KeepPrivate(a, p, m0, c1, c2, c3);
  }

  /**
   * Slot p's object now holds c1, c2 and c3 under the three keys, each
   * either its own earlier node or a new one, and no other slot changed:
   * the array is still private.
   */
  twostate lemma KeepPrivate(new a: Node, new p: nat, new m0: map<Text, Node?>, new c1: Node, new c2: Node, new c3: Node)
    requires old(allocated(a)) && old(Private(a)) && p < |a.items| && a.items == old(a.items) && a.kind == ArrayType
    requires old(a.items[p].entries) == m0 && Flat(a.items[p])
    requires a.items[p].entries == m0["peer_id" := c1]["test" := c2]["ms" := c3]
    requires KeptOrNew(m0, "peer_id", c1) && KeptOrNew(m0, "test", c2) && KeptOrNew(m0, "ms", c3)
    requires forall q :: 0 <= q < |a.items| && q != p ==> unchanged(a.items[q])
    ensures Private(a)
  {
    var o := a.items[p];
    forall q | 0 <= q < |a.items| && q != p
      ensures o.entries.Values !! a.items[q].entries.Values
    {
      var W := a.items[q].entries.Values;
      assert m0.Values !! W by {
        assert if q < p then W !! m0.Values else m0.Values !! W;
      }
      UpdateDisjoint(m0, "peer_id", c1, W);
      UpdateDisjoint(m0["peer_id" := c1], "test", c2, W);
      UpdateDisjoint(m0["peer_id" := c1]["test" := c2], "ms", c3, W);
    }
  }

  /** Storing a node outside W under one key keeps an entry map's nodes outside W. */
  lemma UpdateDisjoint(m: map<Text, Node?>, key: Text, c: Node, W: set<Node?>)
    requires m.Values !! W && c !in W
    ensures m[key := c].Values !! W
  {
    forall d | d in m[key := c].Values
      ensures d !in W
    {
      var k' :| k' in m[key := c] && m[key := c][k'] == d;
      if k' != key {
        assert d in m.Values;
      }
    }
  }

  /** `++it` and the comparison with end() on slot p of array a. */
  method NextItem(it: JsonIterator, last: JsonIterator, ghost a: Node, ghost p: nat) returns (done: bool)
    requires it.Valid() && last.AtEnd() && it != last && it.AtItem(a, p) && p < |a.items|
    modifies it, it.js
    ensures it.Valid() && (it.js != null ==> it.js == old(it.js))
    ensures done <==> p + 1 == |a.items|
    ensures done ==> it.AtEnd()
    ensures !done ==> it.AtItem(a, p + 1)
  {
    var _ := it.Increment();
    done := it.Equal(last);
  }

  /**
   * `for (auto& k : j) { k["peer_id"] = x++; k["test"] = false; k["ms"] = "Helloworld"; }`
   * on a root array of private flat objects: every slot keeps its node and
   * that node now holds the written entries, the i-th with x0 + i.
   */
  method RewriteAll(j: Json, x0: int, ghost F: set<Node>)
    requires j.Valid() && j.depth == 0 && j.GetType() == ArrayType && Private(j.data)
    requires forall q :: 0 <= q < |j.data.items| ==> j.data.items[q] in F && j.data.items[q].entries.Values <= F
    requires 0 <= x0 && x0 + |j.data.items| < TWO_63
    modifies j.data, F
    ensures j.data == old(j.data) && j.data.items == old(j.data.items) && Private(j.data)
    ensures forall q :: 0 <= q < |j.data.items| ==> Rewritten(j.data.items[q], x0 + q)
  {
    var a := j.data;
    var it := j.Begin();
    var last := j.End();
    if a.items == [] {
      return;
    }
    RewriteLoop(it, last, a, x0, F);
  }

  /** The loop of RewriteAll, from the iterator on slot 0 of the non-empty array a. */
  method RewriteLoop(it: JsonIterator, last: JsonIterator, a: Node, x0: int, ghost F: set<Node>)
    requires it.Valid() && last.AtEnd() && it != last && 0 < |a.items| && it.AtItem(a, 0) && Private(a)
    requires forall q :: 0 <= q < |a.items| ==> a.items[q] in F && a.items[q].entries.Values <= F
    requires 0 <= x0 && x0 + |a.items| < TWO_63
    modifies it, it.js, a, F
    ensures a.items == old(a.items) && Private(a)
    ensures forall q :: 0 <= q < |a.items| ==> Rewritten(a.items[q], x0 + q)
  {
    var p := 0;
    var done := false;
    while !done
      invariant it.Valid() && last.AtEnd() && it != last && (it.js != null ==> it.js == old(it.js))
      invariant a.items == old(a.items) && Private(a) && p <= |a.items|
      invariant done ==> p == |a.items|
      invariant !done ==> p < |a.items| && it.AtItem(a, p)
      invariant forall q :: 0 <= q < p ==> Rewritten(a.items[q], x0 + q)
      invariant forall q :: p <= q < |a.items| ==> unchanged(a.items[q])
      decreases |a.items| - p
    {
      done := RewriteStep(it, last, a, p, x0);
      p := p + 1;
    }
  }

  /**
   * One turn of the loop in RewriteAll: the writes on slot p, keeping those
   * on the slots before it, then `++it` and the comparison with end().
   */
  method RewriteStep(it: JsonIterator, last: JsonIterator, a: Node, p: nat, x0: int) returns (done: bool)
    requires it.Valid() && last.AtEnd() && it != last && it.AtItem(a, p) && p < |a.items| && Private(a)
    requires -TWO_63 <= x0 && x0 + p < TWO_63
    requires forall q :: 0 <= q < p ==> Rewritten(a.items[q], x0 + q)
    modifies it, it.js, a, a.items[p], a.items[p].entries.Values
    ensures it.Valid() && (it.js != null ==> it.js == old(it.js))
    ensures a.items == old(a.items) && Private(a)
    ensures done <==> p + 1 == |a.items|
    ensures !done ==> it.AtItem(a, p + 1)
    ensures forall q :: 0 <= q <= p ==> Rewritten(a.items[q], x0 + q)
    ensures forall q :: p < q < |a.items| ==> unchanged(a.items[q])
  {
    RewriteTurn(it, a, p, x0 + p);
    forall q | 0 <= q < p
      ensures Rewritten(a.items[q], x0 + q)
    {
      assert old(Rewritten(a.items[q], x0 + q));
      assert unchanged(a.items[q]) && unchanged(a.items[q].entries.Values);
    }
    done := NextItem(it, last, a, p);
  }

  /** `Json k = *it;` then k["peer_id"].get<int>(), k["ms"].get<std::string>() and k["test"].get<bool>(). */
  method ReadSlot(it: Json, o: Node, x: int) returns (peer: Result<int>, ms: Result<Text>, test: Result<bool>)
    requires it.Valid() && it.depth > 0 && it.CurrentValue() == o && o.kind == ObjectType && Rewritten(o, x)
    requires 0 <= x < 0x8000_0000
    modifies it.data
    ensures unchanged(it.data)
    ensures peer == Ok(x) && ms == Ok("Helloworld") && test == Ok(false)
  {
    var k := new Json.Share(it);
    var r := k.Key("peer_id");
    var l := r.value;
    peer := l.GetInteger(W32, true);
    CastRoundTrip(o.entries["peer_id"].num, W32, true);
    r := k.Key("ms");
    l := r.value;
    ms := l.GetText();
    r := k.Key("test");
    l := r.value;
    test := l.GetBool();
  }

  /**
   * `for (auto it = j.begin(); it != j.end(); ++it)` reading each slot: the
   * i-th turn reads peer_id x0 + i, ms "Helloworld" and test false.
   */
  method ReadAll(j: Json, x0: int) returns (peers: seq<Result<int>>, mss: seq<Result<Text>>, tests: seq<Result<bool>>)
    requires j.Valid() && j.depth == 0 && j.GetType() == ArrayType
    requires forall q :: 0 <= q < |j.data.items| ==>
      j.data.items[q] != null && j.data.items[q].kind == ObjectType && Rewritten(j.data.items[q], x0 + q)
    requires 0 <= x0 && x0 + |j.data.items| <= 0x8000_0000
    modifies j.data
    ensures unchanged(j.data)
    ensures |peers| == |j.data.items| && |mss| == |peers| && |tests| == |peers|
    ensures forall q :: 0 <= q < |peers| ==> peers[q] == Ok(x0 + q) && mss[q] == Ok("Helloworld") && tests[q] == Ok(false)
  {
    var a := j.data;
    var it := j.Begin();
    var last := j.End();
    peers, mss, tests := [], [], [];
    if a.items == [] {
      return;
    }
    peers, mss, tests := ReadLoop(it, last, a, x0);
  }

  /** The loop of ReadAll, from the iterator on slot 0 of the non-empty array a. */
  method ReadLoop(it: JsonIterator, last: JsonIterator, a: Node, x0: int)
    returns (peers: seq<Result<int>>, mss: seq<Result<Text>>, tests: seq<Result<bool>>)
    requires it.Valid() && last.AtEnd() && it != last && 0 < |a.items| && it.AtItem(a, 0)
    requires forall q :: 0 <= q < |a.items| ==>
      a.items[q] != null && a.items[q].kind == ObjectType && Rewritten(a.items[q], x0 + q)
    requires 0 <= x0 && x0 + |a.items| <= 0x8000_0000
    modifies it, it.js, a
    ensures unchanged(a)
    ensures |peers| == |a.items| && |mss| == |peers| && |tests| == |peers|
    ensures forall q :: 0 <= q < |peers| ==> peers[q] == Ok(x0 + q) && mss[q] == Ok("Helloworld") && tests[q] == Ok(false)
  {
    peers, mss, tests := [], [], [];
    var done := false;
    while !done
      invariant it.Valid() && last.AtEnd() && it != last && (it.js != null ==> it.js == old(it.js))
      invariant unchanged(a) && |peers| <= |a.items| && |mss| == |peers| && |tests| == |peers|
      invariant done ==> |peers| == |a.items|
      invariant !done ==> |peers| < |a.items| && it.AtItem(a, |peers|)
      invariant forall q :: 0 <= q < |peers| ==> peers[q] == Ok(x0 + q) && mss[q] == Ok("Helloworld") && tests[q] == Ok(false)
      decreases |a.items| - |peers|
    {
      var p := |peers|;
      var r := it.Deref();
      var peer, ms, test := ReadSlot(r.value, a.items[p], x0 + p);
      peers, mss, tests := peers + [peer], mss + [ms], tests + [test];
      done := NextItem(it, last, a, p);
    }
  }

  /**
   * The set-up loop of test_json_reference_iterator: three objects
   * `{"peer_id": i, "ms": std::to_string(i + 10)}` pushed onto an empty root.
   */
  method PeerArray() returns (j: Json, ghost F: set<Node>)
    ensures fresh(j) && j.Valid() && j.depth == 0 && j.data != null && fresh(j.data) && j.GetType() == ArrayType
    ensures |j.data.items| == 3 && Private(j.data) && fresh(F)
    ensures forall q :: 0 <= q < |j.data.items| ==> j.data.items[q] in F && j.data.items[q].entries.Values <= F
  {
    j := new Json();
    F := {};
    for i := 0 to 3
      invariant fresh(j) && j.Valid() && j.depth == 0 && fresh(F)
      invariant i == 0 ==> j.data == null
      invariant i > 0 ==> j.data != null && fresh(j.data) && j.data.kind == ArrayType && |j.data.items| == i && Private(j.data)
      invariant i > 0 ==> forall q :: 0 <= q < i ==> j.data.items[q] in F && j.data.items[q].entries.Values <= F
      invariant j.data !in F
    {
      var jj, G := MakePeer(i);
      PushPeer(j, jj, F, G);
      F := F + G;
    }
  }

  /** `Json jj; jj["peer_id"] = i; jj["ms"] = std::to_string(i + 10);` with G its nodes. */
  method MakePeer(i: nat) returns (jj: Json, ghost G: set<Node>)
    requires i < TWO_63
    ensures fresh(jj) && jj.Valid() && jj.depth == 0 && jj.data != null && Flat(jj.data)
    ensures fresh(G) && jj.data in G && jj.data.entries.Values <= G
  {
    var o, n, s;
    jj, o, n, s := MakePeerNodes(i);
    G := {o, n, s};
  }

  /** `Json jj; jj["peer_id"] = i; jj["ms"] = std::to_string(i + 10);`: jj's object o holds n and s. */
  method MakePeerNodes(i: nat) returns (jj: Json, o: Node, n: Node, s: Node)
    requires i < TWO_63
    ensures fresh(jj) && fresh(o) && fresh(n) && fresh(s)
    ensures jj.Valid() && jj.depth == 0 && jj.data == o && n != s && PeerNodes(o, n, s, i)
  {
    jj := new Json();
    n := PutScalar(jj, "peer_id", OfInt64(i));
    s := PutScalar(jj, "ms", OfText(IntToString(i + 10)));
    o := jj.data;
  }

  /** `j.push_back(jj)` of a new flat object onto an empty root or a private array of nodes in F. */
  method PushPeer(j: Json, jj: Json, ghost F: set<Node>, ghost G: set<Node>)
    requires j.Valid() && j.depth == 0 && jj.Valid() && jj.depth == 0 && jj.data != null && Flat(jj.data)
    requires jj.data in G && jj.data.entries.Values <= G && F !! G && j.data !in F && j.data !in G
    requires j.data != null ==> j.data.kind == ArrayType && Private(j.data)
    requires j.data != null ==> forall q :: 0 <= q < |j.data.items| ==> j.data.items[q] in F && j.data.items[q].entries.Values <= F
    modifies j, j.data
    ensures j.Valid() && j.depth == 0 && j.data != null && j.data.kind == ArrayType && Private(j.data)
    ensures old(j.data) == null ==> fresh(j.data) && j.data.items == [jj.data]
    ensures old(j.data) != null ==> j.data == old(j.data) && j.data.items == old(j.data.items) + [jj.data]
    ensures forall q :: 0 <= q < |j.data.items| ==> j.data.items[q] in F + G && j.data.items[q].entries.Values <= F + G
  {
    var _ := j.PushBack(jj);
    var a := j.data;
    forall q, k | 0 <= q < k < |a.items|
      ensures a.items[q] != a.items[k] && a.items[q].entries.Values !! a.items[k].entries.Values
    {
      if k == |a.items| - 1 {
        assert a.items[q] in F && a.items[q].entries.Values <= F;
      }
    }
  }

  /**
   * test_json_reference_iterator: after the assigning loop over `auto& k`,
   * reading the array again through its iterators finds peer_id 101, 102 and
   * 103, test false and ms "Helloworld" in every slot.
   */
  method ReferenceIterator() returns (peers: seq<Result<int>>, mss: seq<Result<Text>>, tests: seq<Result<bool>>)
    ensures |peers| == 3 && |mss| == 3 && |tests| == 3
    ensures forall q :: 0 <= q < 3 ==> peers[q] == Ok(101 + q) && mss[q] == Ok("Helloworld") && tests[q] == Ok(false)
  {
    var j, F := PeerArray();
    RewriteAll(j, 101, F);
    peers, mss, tests := ReadAll(j, 101);
  }

  // test_json_const_iterator: dumps through shared slots and reads through const handles.

  /** The object `jj["peer_id"] = i; jj["ms"] = std::to_string(i + 10);` builds. */
  function PeerValue(i: nat): Value
    requires i < TWO_63
  {
    Obj(map["peer_id" := Some(Num(FromSigned(i))), "ms" := Some(Str(IntToString(i + 10)))])
  }

  /** The array of the three peers. */
  function PeersValue(): Value
  {
    Arr([Some(PeerValue(0)), Some(PeerValue(1)), Some(PeerValue(2))])
  }

  /** o is peer i's object, holding n under "peer_id" and s under "ms". */
  ghost predicate PeerNodes(o: Node, n: Node, s: Node, i: nat)
    reads o, n, s
  {
    o.kind == ObjectType && o.entries == map["peer_id" := n, "ms" := s] &&
    Holds(n, OfInt64(i)) && Holds(s, OfText(IntToString(i + 10)))
  }

  /** Peer i's three nodes denote PeerValue(i) in any footprint holding them. */
  lemma PeerDenotes(o: Node, n: Node, s: Node, i: nat, S: set<Node>, d: nat)
    requires PeerNodes(o, n, s, i) && o in S && n in S && s in S && d > 0
    ensures i < TWO_63 && Within(o, S, d) && ValueOf(o, S, d) == PeerValue(i)
  {
    HoldsValue(n, OfInt64(i), S, d - 1);
    HoldsValue(s, OfText(IntToString(i + 10)), S, d - 1);
    assert ValueOf(o, S, d).entries == PeerValue(i).entries;
  }

  /** An array of the three peers' objects denotes PeersValue(), and its slot 0 PeerValue(0). */
  lemma PeersDenote(a: Node, os: seq<Node>, ns: seq<Node>, ss: seq<Node>, S: set<Node>)
    requires |os| == 3 && |ns| == 3 && |ss| == 3 && a.kind == ArrayType && a.items == [os[0], os[1], os[2]] && a in S
    requires forall q :: 0 <= q < 3 ==> PeerNodes(os[q], ns[q], ss[q], q) && os[q] in S && ns[q] in S && ss[q] in S
    ensures Within(a, S, 2) && ValueOf(a, S, 2) == PeersValue()
    ensures Within(os[0], S, 1) && ValueOf(os[0], S, 1) == PeerValue(0)
  {
    forall q | 0 <= q < 3
      ensures q < TWO_63 && Within(os[q], S, 1) && ValueOf(os[q], S, 1) == PeerValue(q)
    {
      PeerDenotes(os[q], ns[q], ss[q], q, S, 1);
    }
    assert SlotsOf(a.items, S, 2) == PeersValue().items;
  }

  /** The first i peers are the slots of j's array, none of their nodes being that array. */
  ghost predicate PeersIn(j: Json, i: nat, os: seq<Node>, ns: seq<Node>, ss: seq<Node>)
    reads j, j.data, set q | 0 <= q < |os| :: os[q], set q | 0 <= q < |ns| :: ns[q], set q | 0 <= q < |ss| :: ss[q]
  {
    j.Valid() && j.depth == 0 && |os| == i && |ns| == i && |ss| == i &&
    (i == 0 ==> j.data == null) &&
    (i > 0 ==> j.data != null && j.data.kind == ArrayType && j.data.items == os) &&
    (forall q :: 0 <= q < i ==> PeerNodes(os[q], ns[q], ss[q], q)) &&
    (forall q :: 0 <= q < i ==> os[q] != j.data && ns[q] != j.data && ss[q] != j.data)
  }

  /** One turn of the set-up loop: peer i built as jj and pushed onto j. */
  method AddPeer(j: Json, i: nat, ghost os: seq<Node>, ghost ns: seq<Node>, ghost ss: seq<Node>)
    returns (jj: Json, ghost o: Node, ghost n: Node, ghost s: Node)
    requires i < 3 && PeersIn(j, i, os, ns, ss)
    modifies j, j.data
    ensures PeersIn(j, i + 1, os + [o], ns + [n], ss + [s]) && (j.data == old(j.data) || fresh(j.data))
    ensures jj.Valid() && jj.depth == 0 && jj.data == o && n != s && PeerNodes(o, n, s, i)
  {
    jj, o, n, s := MakePeerNodes(i);
    var _ := j.PushBack(jj);
    assert (os + [o])[i] == o && (ns + [n])[i] == n && (ss + [s])[i] == s;
  }

  /** `jj.dump()` of the root on peer 0's object. */
  method PeerDump(jj: Json, ghost o: Node, ghost n: Node, ghost s: Node) returns (s1: Text)
    requires jj.Valid() && jj.depth == 0 && jj.data == o && PeerNodes(o, n, s, 0)
    ensures s1 == JsonValue.Dump(PeerValue(0))
  {
    PeerDenotes(o, n, s, 0, {o, n, s}, 1);
    s1 := DumpAs(jj, {o, n, s}, 1, PeerValue(0));
  }

  /**
   * The set-up loop of test_json_const_iterator: the three peers pushed onto
   * an empty root j, s1 being the first peer's dump right after its push.
   */
  method ConstPeers() returns (j: Json, s1: Text, ghost os: seq<Node>, ghost ns: seq<Node>, ghost ss: seq<Node>)
    ensures PeersIn(j, 3, os, ns, ss)
    ensures s1 == JsonValue.Dump(PeerValue(0))
  {
    j := new Json();
    os, ns, ss := [], [], [];
    s1 := [];
    for i := 0 to 3
      invariant PeersIn(j, i, os, ns, ss) && fresh(j) && (j.data != null ==> fresh(j.data))
      invariant i > 0 ==> s1 == JsonValue.Dump(PeerValue(0))
    {
      var jj, o, n, s := AddPeer(j, i, os, ns, ss);
      if i == 0 {
        s1 := PeerDump(jj, o, n, s);
      }
      os, ns, ss := os + [o], ns + [n], ss + [s];
    }
  }

  /** `Json t = k[0]; t.dump(); k.dump();` on a const handle k whose current node is the array c. */
  method DumpTurn(k: Json, c: Node, ghost S: set<Node>, ghost v0: Value, ghost v: Value) returns (td: Text, kd: Text)
    requires k.Valid() && k.CurrentValue() == c && c.kind == ArrayType && |c.items| > 0 && c.items[0] != null
    requires Within(c, S, 2) && ValueOf(c, S, 2) == v && Within(c.items[0], S, 1) && ValueOf(c.items[0], S, 1) == v0
    ensures td == JsonValue.Dump(v0) && kd == JsonValue.Dump(v)
  {
    var r := k.IndexConst(0);
    var t := r.value;
    td := DumpAs(t, S, 1, v0);
    kd := DumpAs(k, S, 2, v);
  }

  /**
   * `for (const auto k : mj) { Json t = k[0]; ... t.dump() ... k.dump() ... }`
   * over a root array mj whose every slot holds the node c: every turn dumps
   * c's slot 0 as v0 and c itself as v.
   */
  method DumpShared(mj: Json, c: Node, ghost S: set<Node>, ghost v0: Value, ghost v: Value) returns (tds: seq<Text>, kds: seq<Text>)
    requires mj.Valid() && mj.depth == 0 && mj.GetType() == ArrayType
    requires forall q :: 0 <= q < |mj.data.items| ==> mj.data.items[q] == c
    requires c.kind == ArrayType && |c.items| > 0 && c.items[0] != null
    requires Within(c, S, 2) && ValueOf(c, S, 2) == v && Within(c.items[0], S, 1) && ValueOf(c.items[0], S, 1) == v0
    ensures |tds| == |mj.data.items| && |kds| == |tds|
    ensures forall q :: 0 <= q < |tds| ==> tds[q] == JsonValue.Dump(v0) && kds[q] == JsonValue.Dump(v)
  {
    var a := mj.data;
    var it := mj.Begin();
    var last := mj.End();
    tds, kds := [], [];
    if a.items == [] {
      return;
    }
    tds, kds := DumpLoop(it, last, a, c, S, v0, v);
  }

  /** The loop of DumpShared, from the iterator on slot 0 of the non-empty array a. */
  method DumpLoop(it: JsonIterator, last: JsonIterator, a: Node, c: Node, ghost S: set<Node>, ghost v0: Value, ghost v: Value)
    returns (tds: seq<Text>, kds: seq<Text>)
    requires it.Valid() && last.AtEnd() && it != last && 0 < |a.items| && it.AtItem(a, 0)
    requires forall q :: 0 <= q < |a.items| ==> a.items[q] == c
    requires c.kind == ArrayType && |c.items| > 0 && c.items[0] != null
    requires Within(c, S, 2) && ValueOf(c, S, 2) == v && Within(c.items[0], S, 1) && ValueOf(c.items[0], S, 1) == v0
    modifies it, it.js
    ensures |tds| == |a.items| && |kds| == |tds|
    ensures forall q :: 0 <= q < |tds| ==> tds[q] == JsonValue.Dump(v0) && kds[q] == JsonValue.Dump(v)
  {
    tds, kds := [], [];
    var done := false;
    while !done
      invariant it.Valid() && last.AtEnd() && it != last && (it.js != null ==> it.js == old(it.js))
      invariant |tds| <= |a.items| && |kds| == |tds|
      invariant done ==> |tds| == |a.items|
      invariant !done ==> |tds| < |a.items| && it.AtItem(a, |tds|)
      invariant forall q :: 0 <= q < |tds| ==> tds[q] == JsonValue.Dump(v0) && kds[q] == JsonValue.Dump(v)
      decreases |a.items| - |tds|
    {
      var p := |tds|;
      var r := it.Deref();
      var k := new Json.Share(r.value);
      var td, kd := DumpTurn(k, c, S, v0, v);
      tds, kds := tds + [td], kds + [kd];
      done := NextItem(it, last, a, p);
    }
  }

  /** `m["peer_id"].get<int>()` and `m["ms"].get<std::string>()` on a const handle m on peer q's object. */
  method ReadPeerTurn(m: Json, o: Node, ghost n: Node, ghost s: Node, q: nat) returns (peer: Result<int>, ms: Result<Text>)
    requires m.Valid() && m.CurrentValue() == o && PeerNodes(o, n, s, q) && q < 0x8000_0000
    ensures peer == Ok(q) && ms == Ok(IntToString(q + 10))
  {
    var r := m.KeyConst("peer_id");
    peer := r.value.GetInteger(W32, true);
    CastRoundTrip(n.num, W32, true);
    r := m.KeyConst("ms");
    ms := r.value.GetText();
  }

  /**
   * `for (const auto m : j)` reading each slot: slot q, peer q's object,
   * reads peer_id q and ms std::to_string(q + 10).
   */
  method ReadPeers(j: Json, ghost ns: seq<Node>, ghost ss: seq<Node>) returns (peers: seq<Result<int>>, mss: seq<Result<Text>>)
    requires j.Valid() && j.depth == 0 && j.GetType() == ArrayType
    requires |ns| == |j.data.items| && |ss| == |ns| && |ns| <= 0x8000_0000
    requires forall q :: 0 <= q < |ns| ==> j.data.items[q] != null && PeerNodes(j.data.items[q], ns[q], ss[q], q)
    ensures |peers| == |ns| && |mss| == |ns|
    ensures forall q :: 0 <= q < |ns| ==> peers[q] == Ok(q) && mss[q] == Ok(IntToString(q + 10))
  {
    var a := j.data;
    var it := j.Begin();
    var last := j.End();
    peers, mss := [], [];
    if a.items == [] {
      return;
    }
    peers, mss := ReadPeersLoop(it, last, a, ns, ss);
  }

  /** The loop of ReadPeers, from the iterator on slot 0 of the non-empty array a. */
  method ReadPeersLoop(it: JsonIterator, last: JsonIterator, a: Node, ghost ns: seq<Node>, ghost ss: seq<Node>)
    returns (peers: seq<Result<int>>, mss: seq<Result<Text>>)
    requires it.Valid() && last.AtEnd() && it != last && 0 < |a.items| && it.AtItem(a, 0)
    requires |ns| == |a.items| && |ss| == |ns| && |ns| <= 0x8000_0000
    requires forall q :: 0 <= q < |ns| ==> a.items[q] != null && PeerNodes(a.items[q], ns[q], ss[q], q)
    modifies it, it.js
    ensures |peers| == |ns| && |mss| == |ns|
    ensures forall q :: 0 <= q < |ns| ==> peers[q] == Ok(q) && mss[q] == Ok(IntToString(q + 10))
  {
    peers, mss := [], [];
    var done := false;
    while !done
      invariant it.Valid() && last.AtEnd() && it != last && (it.js != null ==> it.js == old(it.js))
      invariant |peers| <= |a.items| && |mss| == |peers|
      invariant done ==> |peers| == |a.items|
      invariant !done ==> |peers| < |a.items| && it.AtItem(a, |peers|)
      invariant forall q :: 0 <= q < |peers| ==> peers[q] == Ok(q) && mss[q] == Ok(IntToString(q + 10))
      decreases |a.items| - |peers|
    {
      var p := |peers|;
      var r := it.Deref();
      var m := new Json.Share(r.value);
      var peer, ms := ReadPeerTurn(m, a.items[p], ns[p], ss[p], p);
      peers, mss := peers + [peer], mss + [ms];
      done := NextItem(it, last, a, p);
    }
  }

  /**
   * test_json_const_iterator: s1 is the first peer's dump and s2 the array's;
   * after `mj.push_back(j)` three times, every `k` of mj dumps as s2 and its
   * `k[0]` as s1, and iterating j reads peer_id q with ms std::to_string(q + 10).
   */
  method ConstIterator() returns (s1: Text, s2: Text, tds: seq<Text>, kds: seq<Text>, peers: seq<Result<int>>, mss: seq<Result<Text>>)
    ensures s1 == JsonValue.Dump(PeerValue(0)) && s2 == JsonValue.Dump(PeersValue())
    ensures |tds| == 3 && |kds| == 3 && forall q :: 0 <= q < 3 ==> tds[q] == s1 && kds[q] == s2
    ensures |peers| == 3 && |mss| == 3 && forall q :: 0 <= q < 3 ==> peers[q] == Ok(q) && mss[q] == Ok(IntToString(q + 10))
  {
    var j;
    ghost var os, ns, ss;
    j, s1, os, ns, ss := ConstPeers();
    s2, tds, kds := PeersShared(j, os, ns, ss);
    peers, mss := ReadPeers(j, ns, ss);
  }

  /** SharedDumps on the three peers' array, which denotes PeersValue(). */
  method PeersShared(j: Json, ghost os: seq<Node>, ghost ns: seq<Node>, ghost ss: seq<Node>) returns (s2: Text, tds: seq<Text>, kds: seq<Text>)
    requires PeersIn(j, 3, os, ns, ss)
    ensures s2 == JsonValue.Dump(PeersValue())
    ensures |tds| == 3 && |kds| == 3 && forall q :: 0 <= q < 3 ==> tds[q] == JsonValue.Dump(PeerValue(0)) && kds[q] == s2
  {
    ghost var S := {j.data, os[0], os[1], os[2], ns[0], ns[1], ns[2], ss[0], ss[1], ss[2]};
    PeersDenote(j.data, os, ns, ss, S);
    s2, tds, kds := SharedDumps(j, S, PeerValue(0), PeersValue());
  }

  /**
   * `s2 = j.dump()`, three `mj.push_back(j)`, then the loop dumping every k
   * of mj and its k[0], on a root array denoting v whose slot 0 denotes v0.
   */
  method SharedDumps(j: Json, ghost S: set<Node>, ghost v0: Value, ghost v: Value) returns (s2: Text, tds: seq<Text>, kds: seq<Text>)
    requires j.Valid() && j.depth == 0 && j.data != null && j.data.kind == ArrayType
    requires |j.data.items| > 0 && j.data.items[0] != null
    requires Within(j.data, S, 2) && ValueOf(j.data, S, 2) == v
    requires Within(j.data.items[0], S, 1) && ValueOf(j.data.items[0], S, 1) == v0
    ensures s2 == JsonValue.Dump(v)
    ensures |tds| == 3 && |kds| == 3 && forall q :: 0 <= q < 3 ==> tds[q] == JsonValue.Dump(v0) && kds[q] == s2
  {
    s2 := DumpAs(j, S, 2, v);
    var mj := PushBackShares(j);
    tds, kds := DumpShared(mj, j.data, S, v0, v);
  }
}
