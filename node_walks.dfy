/**
 * The recursive walks over the node tree of src/karl.cc: the deep `copy()` of
 * every node class, `to_cbor()` through a `cbor::Writer`, and the building of
 * nodes from a decoded value (what the CBOR reader's `New<json_array>` /
 * `set_value` calls amount to).
 */
module NodeWalks {
  import opened Base
  import opened KeyOrder
  import opened JsonValue
  import opened CborBuild
  import opened CborWriter
  import opened ValueCbor
  import opened JsonNodes

  // ---------------------------------------------------------------------------
  // Slots that denote given values

  /** The first i slots of b denote the first i entries of vs, with their nodes within U. */
  ghost predicate SlotsDenote(b: seq<Node?>, U: set<Node>, d: nat, vs: seq<Option<Value>>, i: nat)
    reads U
  {
    i <= |b| && i <= |vs| &&
    forall j :: 0 <= j < i ==>
      (b[j] == null <==> vs[j].None?) &&
      (b[j] != null ==> d > 0 && Within(b[j], U, d - 1) && ValueOf(b[j], U, d - 1) == vs[j].value)
  }

  /** Every entry of m denotes the entry of vm under the same key. */
  ghost predicate EntriesDenote(m: map<Text, Node?>, U: set<Node>, d: nat, vm: map<Text, Option<Value>>)
    reads U
  {
    forall k :: k in m ==>
      k in vm && (m[k] == null <==> vm[k].None?) &&
      (m[k] != null ==> d > 0 && Within(m[k], U, d - 1) && ValueOf(m[k], U, d - 1) == vm[k].value)
  }

  /** c is a node, or the absent slot, denoting o below height d. */
  ghost predicate SlotDenotes(c: Node?, U: set<Node>, d: nat, o: Option<Value>)
    reads U
  {
    (c == null <==> o.None?) && (c != null ==> d > 0 && Within(c, U, d - 1) && ValueOf(c, U, d - 1) == o.value)
  }

  lemma SlotsDenoteGrow(b: seq<Node?>, U: set<Node>, U': set<Node>, d: nat, vs: seq<Option<Value>>, i: nat)
    requires SlotsDenote(b, U, d, vs, i) && U <= U'
    ensures SlotsDenote(b, U', d, vs, i)
  {
    forall j | 0 <= j < i && b[j] != null
      ensures Within(b[j], U', d - 1) && ValueOf(b[j], U', d - 1) == vs[j].value
    {
      WithinGrow(b[j], U, U', d - 1);
    }
  }

  lemma SlotDenotesGrow(c: Node?, U: set<Node>, U': set<Node>, d: nat, o: Option<Value>)
    requires SlotDenotes(c, U, d, o) && U <= U'
    ensures SlotDenotes(c, U', d, o)
  {
    if c != null {
      WithinGrow(c, U, U', d - 1);
    }
  }

  lemma EntriesDenoteGrow(m: map<Text, Node?>, U: set<Node>, U': set<Node>, d: nat, vm: map<Text, Option<Value>>)
    requires EntriesDenote(m, U, d, vm) && U <= U'
    ensures EntriesDenote(m, U', d, vm)
  {
    forall k | k in m && m[k] != null
      ensures Within(m[k], U', d - 1) && ValueOf(m[k], U', d - 1) == vm[k].value
    {
      WithinGrow(m[k], U, U', d - 1);
    }
  }

  lemma SlotsDenoteStep(b: seq<Node?>, U: set<Node>, d: nat, vs: seq<Option<Value>>, i: nat, c: Node?, b': seq<Node?>)
    requires SlotsDenote(b, U, d, vs, i) && i < |b| && i < |vs| && SlotDenotes(c, U, d, vs[i])
    requires |b'| == |b| && b'[i] == c && forall j :: 0 <= j < |b| && j != i ==> b'[j] == b[j]
    ensures SlotsDenote(b', U, d, vs, i + 1)
  {
  }

  lemma EntriesDenoteStep(m: map<Text, Node?>, U: set<Node>, d: nat, vm: map<Text, Option<Value>>, k: Text, c: Node?, m': map<Text, Node?>)
    requires EntriesDenote(m, U, d, vm) && k in vm && SlotDenotes(c, U, d, vm[k])
    requires m' == m[k := c]
    ensures EntriesDenote(m', U, d, vm)
  {
  }

  /** An array node whose slots denote vs denotes Arr(vs). */
  lemma ArrayDenotes(r: Node, T: set<Node>, d: nat, vs: seq<Option<Value>>)
    requires r in T && r.kind == ArrayType && |r.items| == |vs| && SlotsDenote(r.items, T, d, vs, |vs|)
    ensures Within(r, T, d) && ValueOf(r, T, d) == Arr(vs)
  {
    assert Within(r, T, d);
    assert SlotsOf(r.items, T, d) == vs;
  }

  /** An object node whose entries denote vm, key for key, denotes Obj(vm). */
  lemma ObjectDenotes(r: Node, T: set<Node>, d: nat, vm: map<Text, Option<Value>>)
    requires r in T && r.kind == ObjectType && r.entries.Keys == vm.Keys && EntriesDenote(r.entries, T, d, vm)
    ensures Within(r, T, d) && ValueOf(r, T, d) == Obj(vm)
  {
    assert Within(r, T, d);
    assert ValueOf(r, T, d).entries == vm;
  }

  /** The slots of an array node denote its value's items. */
  lemma SlotsDenoteSelf(n: Node, S: set<Node>, d: nat)
    requires Within(n, S, d) && n.kind == ArrayType
    ensures |ValueOf(n, S, d).items| == |n.items|
    ensures SlotsDenote(n.items, S, d, ValueOf(n, S, d).items, |n.items|)
  {
    var vs := ValueOf(n, S, d).items;
    assert forall j :: 0 <= j < |n.items| ==> vs[j] == SlotOf(n.items[j], S, d);
  }

  /** The entries of an object node denote its value's entries. */
  lemma EntriesDenoteSelf(n: Node, S: set<Node>, d: nat)
    requires Within(n, S, d) && n.kind == ObjectType
    ensures ValueOf(n, S, d).entries.Keys == n.entries.Keys
    ensures EntriesDenote(n.entries, S, d, ValueOf(n, S, d).entries)
  {
  }

  // ---------------------------------------------------------------------------
  // copy()

  /**
   * copy() of every node class: a tree of fresh nodes denoting the same value.
   * Absent slots and entries stay absent, and no node of the result is one of
   * the source's.
   */
  method Copy(n: Node, ghost S: set<Node>, ghost d: nat, ghost v: Value) returns (r: Node, ghost T: set<Node>)
    requires Within(n, S, d) && ValueOf(n, S, d) == v
    ensures fresh(T) && r in T && T !! S
    ensures Within(r, T, d) && ValueOf(r, T, d) == v
    decreases d, 3
  {
    if n.kind == ArrayType {
      r, T := CopyArray(n, S, d, v);
    } else if n.kind == ObjectType {
      r, T := CopyObject(n, S, d, v);
    } else {
      if n.kind == NullType {
        r := new Node.NullNode();
      } else if n.kind == BooleanType {
        r := new Node.BooleanNode(n.flag);
      } else if n.kind == NumberType {
        r := new Node.NumberNode(n.num);
      } else {
        r := new Node.StringNode(n.text);
      }
      T := {r};
    }
  }

  /** json_array::copy: resize to the source's size, then SetAt each present slot's copy. */
  method CopyArray(n: Node, ghost S: set<Node>, ghost d: nat, ghost v: Value) returns (r: Node, ghost T: set<Node>)
    requires Within(n, S, d) && n.kind == ArrayType && ValueOf(n, S, d) == v
    ensures fresh(T) && r in T && T !! S
    ensures Within(r, T, d) && ValueOf(r, T, d) == v
    decreases d, 2
  {
    SlotsDenoteSelf(n, S, d);
    assert v == Arr(v.items);
    var src := n.items;
    r := new Node.ArrayNode();
    ghost var U: set<Node> := {};
    if src != [] {
      r.Resize(|src|);
      U := CopySlots(src, S, d, v.items, r);
    }
    T := U + {r};
    SlotsDenoteGrow(r.items, U, T, d, v.items, |v.items|);
    ArrayDenotes(r, T, d, v.items);
  }

  /** The loop of json_array::copy over the slots. */
  method CopySlots(src: seq<Node?>, ghost S: set<Node>, ghost d: nat, ghost vs: seq<Option<Value>>, r: Node) returns (ghost U: set<Node>)
    requires SlotsDenote(src, S, d, vs, |vs|) && |src| == |r.items| == |vs|
    requires r.kind == ArrayType && r !in S && forall j :: 0 <= j < |r.items| ==> r.items[j] == null
    modifies r
    ensures fresh(U) && r !in U && U !! S && |r.items| == |vs|
    ensures SlotsDenote(r.items, U, d, vs, |vs|)
    decreases d, 1
  {
    U := {};
    var i := 0;
    while i < |src|
      invariant i <= |src| == |r.items|
      invariant fresh(U) && r !in U && U !! S
      invariant SlotsDenote(r.items, U, d, vs, i)
      invariant forall j :: i <= j < |r.items| ==> r.items[j] == null
    {
      U := CopySlot(src[i], S, d, vs, r, i, U);
      i := i + 1;
    }
  }

  /** One turn of json_array::copy: slot i receives the copy of the source's slot, if present. */
  method CopySlot(c0: Node?, ghost S: set<Node>, ghost d: nat, ghost vs: seq<Option<Value>>, r: Node, i: nat, ghost U: set<Node>)
    returns (ghost U': set<Node>)
    requires i < |r.items| == |vs| && SlotDenotes(c0, S, d, vs[i]) && r.items[i] == null
    requires r.kind == ArrayType && r !in U && r !in S && U !! S && SlotsDenote(r.items, U, d, vs, i)
    modifies r
    ensures |r.items| == |vs| && forall j :: 0 <= j < |r.items| && j != i ==> r.items[j] == old(r.items[j])
    ensures U <= U' && fresh(U' - U) && r !in U' && U' !! S
    ensures SlotsDenote(r.items, U', d, vs, i + 1)
    decreases d, 0
  {
    if c0 != null {
      var c, Tc := Copy(c0, S, d - 1, vs[i].value);
      SlotsDenoteGrow(r.items, U, U + Tc, d, vs, i);
      WithinGrow(c, Tc, U + Tc, d - 1);
      U' := U + Tc;
      ghost var b := r.items;
      var _ := r.SetAt(i, c);
      SlotsDenoteStep(b, U', d, vs, i, c, r.items);
    } else {
      U' := U;
      SlotsDenoteStep(r.items, U, d, vs, i, null, r.items);
    }
  }

  /** json_object::copy: set_value of each key to its value's copy, or to absent. */
  method CopyObject(n: Node, ghost S: set<Node>, ghost d: nat, ghost v: Value) returns (r: Node, ghost T: set<Node>)
    requires Within(n, S, d) && n.kind == ObjectType && ValueOf(n, S, d) == v
    ensures fresh(T) && r in T && T !! S
    ensures Within(r, T, d) && ValueOf(r, T, d) == v
    decreases d, 2
  {
    EntriesDenoteSelf(n, S, d);
    assert v == Obj(v.entries);
    var src := n.entries;
    r := new Node.ObjectNode();
    ghost var U: set<Node> := {};
    if src != map[] {
      U := CopyEntries(src, S, d, v.entries, r);
    } else {
      assert v.entries.Keys == {};
    }
    T := U + {r};
    EntriesDenoteGrow(r.entries, U, T, d, v.entries);
    ObjectDenotes(r, T, d, v.entries);
  }

  /** The loop of json_object::copy over the entries, in the map's own order. */
  method CopyEntries(src: map<Text, Node?>, ghost S: set<Node>, ghost d: nat, ghost vm: map<Text, Option<Value>>, r: Node)
    returns (ghost U: set<Node>)
    requires EntriesDenote(src, S, d, vm) && src.Keys == vm.Keys
    requires r.kind == ObjectType && r !in S && r.entries == map[]
    modifies r
    ensures fresh(U) && r !in U && U !! S
    ensures r.entries.Keys == vm.Keys && EntriesDenote(r.entries, U, d, vm)
    decreases d, 1
  {
    U := {};
    var keys := src.Keys;
    while keys != {}
      invariant keys <= src.Keys && r.entries.Keys == src.Keys - keys
      invariant fresh(U) && r !in U && U !! S
      invariant EntriesDenote(r.entries, U, d, vm)
      decreases |keys|
    {
      var k :| k in keys;
      U := CopyEntry(src[k], S, d, vm, r, k, U);
      keys := keys - {k};
    }
  }

  /** One turn of json_object::copy: key k receives the copy of the source's value, or absent. */
  method CopyEntry(c0: Node?, ghost S: set<Node>, ghost d: nat, ghost vm: map<Text, Option<Value>>, r: Node, k: Text, ghost U: set<Node>)
    returns (ghost U': set<Node>)
    requires k in vm && SlotDenotes(c0, S, d, vm[k])
    requires r.kind == ObjectType && r !in U && r !in S && U !! S && EntriesDenote(r.entries, U, d, vm)
    modifies r
    ensures k in r.entries && r.entries == old(r.entries)[k := r.entries[k]]
    ensures U <= U' && fresh(U' - U) && r !in U' && U' !! S
    ensures EntriesDenote(r.entries, U', d, vm)
    decreases d, 0
  {
    if c0 != null {
      var c, Tc := Copy(c0, S, d - 1, vm[k].value);
      EntriesDenoteGrow(r.entries, U, U + Tc, d, vm);
      WithinGrow(c, Tc, U + Tc, d - 1);
      U' := U + Tc;
      EntriesDenoteStep(r.entries, U', d, vm, k, c, r.entries[k := c]);
      r.SetValue(k, c);
    } else {
      U' := U;
      EntriesDenoteStep(r.entries, U, d, vm, k, null, r.entries[k := null]);
      r.SetValue(k, c0);
    }
  }

  // ---------------------------------------------------------------------------
  // Nodes from a decoded value

  lemma SlotsDenoteDeeper(b: seq<Node?>, U: set<Node>, d: nat, d': nat, vs: seq<Option<Value>>, i: nat)
    requires SlotsDenote(b, U, d, vs, i) && d <= d'
    ensures SlotsDenote(b, U, d', vs, i)
  {
    forall j | 0 <= j < i && b[j] != null
      ensures Within(b[j], U, d' - 1) && ValueOf(b[j], U, d' - 1) == vs[j].value
    {
      WithinDeeper(b[j], U, d - 1, d' - 1);
    }
  }

  lemma EntriesDenoteDeeper(m: map<Text, Node?>, U: set<Node>, d: nat, d': nat, vm: map<Text, Option<Value>>)
    requires EntriesDenote(m, U, d, vm) && d <= d'
    ensures EntriesDenote(m, U, d', vm)
  {
    forall k | k in m && m[k] != null
      ensures Within(m[k], U, d' - 1) && ValueOf(m[k], U, d' - 1) == vm[k].value
    {
      WithinDeeper(m[k], U, d - 1, d' - 1);
    }
  }

  /**
   * The tree of fresh nodes the CBOR reader builds for a decoded value: one
   * node per present item, absent slots left null.
   */
  method BuildNode(v: Value) returns (n: Node, ghost T: set<Node>, ghost d: nat)
    ensures fresh(T) && n in T
    ensures Within(n, T, d) && ValueOf(n, T, d) == v
    decreases v, 2
  {
    if v.Arr? {
      n, T, d := BuildArray(v);
    } else if v.Obj? {
      n, T, d := BuildObject(v);
    } else {
      if v.Null? {
        n := new Node.NullNode();
      } else if v.Boolean? {
        n := new Node.BooleanNode(v.b);
      } else if v.Num? {
        n := new Node.NumberNode(v.n);
      } else {
        n := new Node.StringNode(v.s);
      }
      T, d := {n}, 0;
    }
  }

  /** An array node resized to the item count, each present item set at its index. */
  method BuildArray(v: Value) returns (r: Node, ghost T: set<Node>, ghost d: nat)
    requires v.Arr?
    ensures fresh(T) && r in T
    ensures Within(r, T, d) && ValueOf(r, T, d) == v
    decreases v, 1
  {
    r := new Node.ArrayNode();
    r.Resize(|v.items|);
    ghost var U: set<Node> := {};
    d := 1;
    var i := 0;
    while i < |v.items|
      invariant i <= |v.items| == |r.items|
      invariant fresh(U) && r !in U && d > 0
      invariant SlotsDenote(r.items, U, d, v.items, i)
      invariant forall j :: i <= j < |r.items| ==> r.items[j] == null
    {
      U, d := BuildSlot(v, v.items, r, i, U, d);
      i := i + 1;
    }
    T := U + {r};
    SlotsDenoteGrow(r.items, U, T, d, v.items, |v.items|);
    ArrayDenotes(r, T, d, v.items);
  }

  /** One item of BuildArray: slot i receives the node of item i, if the item is present. */
  method BuildSlot(ghost parent: Value, vs: seq<Option<Value>>, r: Node, i: nat, ghost U: set<Node>, ghost d: nat)
    returns (ghost U': set<Node>, ghost d': nat)
    requires forall j :: 0 <= j < |vs| ==> vs[j] < parent
    requires i < |r.items| == |vs| && r.items[i] == null && d > 0
    requires r.kind == ArrayType && r !in U && SlotsDenote(r.items, U, d, vs, i)
    modifies r
    ensures |r.items| == |vs| && forall j :: 0 <= j < |r.items| && j != i ==> r.items[j] == old(r.items[j])
    ensures U <= U' && fresh(U' - U) && r !in U' && d' > 0
    ensures SlotsDenote(r.items, U', d', vs, i + 1)
    decreases parent, 0
  {
    if vs[i].Some? {
      var c, Tc, dc := BuildNode(vs[i].value);
      d' := if dc + 1 > d then dc + 1 else d;
      SlotsDenoteDeeper(r.items, U, d, d', vs, i);
      WithinDeeper(c, Tc, dc, d' - 1);
      SlotsDenoteGrow(r.items, U, U + Tc, d', vs, i);
      WithinGrow(c, Tc, U + Tc, d' - 1);
      U' := U + Tc;
      ghost var b := r.items;
      var _ := r.SetAt(i, c);
      SlotsDenoteStep(b, U', d', vs, i, c, r.items);
    } else {
      U', d' := U, d;
      SlotsDenoteStep(r.items, U, d, vs, i, null, r.items);
    }
  }

  /** An object node with set_value for each entry: the entry's node, or absent. */
  method BuildObject(v: Value) returns (r: Node, ghost T: set<Node>, ghost d: nat)
    requires v.Obj?
    ensures fresh(T) && r in T
    ensures Within(r, T, d) && ValueOf(r, T, d) == v
    decreases v, 1
  {
    r := new Node.ObjectNode();
    ghost var U: set<Node> := {};
    d := 1;
    var keys := v.entries.Keys;
    while keys != {}
      invariant keys <= v.entries.Keys && r.entries.Keys == v.entries.Keys - keys
      invariant fresh(U) && r !in U && d > 0
      invariant EntriesDenote(r.entries, U, d, v.entries)
      decreases |keys|
    {
      var k :| k in keys;
      U, d := BuildEntry(v, v.entries, r, k, U, d);
      keys := keys - {k};
    }
    T := U + {r};
    EntriesDenoteGrow(r.entries, U, T, d, v.entries);
    ObjectDenotes(r, T, d, v.entries);
  }

  /** One entry of BuildObject. */
  method BuildEntry(ghost parent: Value, vm: map<Text, Option<Value>>, r: Node, k: Text, ghost U: set<Node>, ghost d: nat)
    returns (ghost U': set<Node>, ghost d': nat)
    requires forall j :: j in vm ==> vm[j] < parent
    requires k in vm && d > 0
    requires r.kind == ObjectType && r !in U && EntriesDenote(r.entries, U, d, vm)
    modifies r
    ensures k in r.entries && r.entries == old(r.entries)[k := r.entries[k]]
    ensures U <= U' && fresh(U' - U) && r !in U' && d' > 0
    ensures EntriesDenote(r.entries, U', d', vm)
    decreases parent, 0
  {
    if vm[k].Some? {
      var c, Tc, dc := BuildNode(vm[k].value);
      d' := if dc + 1 > d then dc + 1 else d;
      EntriesDenoteDeeper(r.entries, U, d, d', vm);
      WithinDeeper(c, Tc, dc, d' - 1);
      EntriesDenoteGrow(r.entries, U, U + Tc, d', vm);
      WithinGrow(c, Tc, U + Tc, d' - 1);
      U' := U + Tc;
      EntriesDenoteStep(r.entries, U', d', vm, k, c, r.entries[k := c]);
      r.SetValue(k, c);
    } else {
      U', d' := U, d;
      EntriesDenoteStep(r.entries, U, d, vm, k, null, r.entries[k := null]);
      r.SetValue(k, null);
    }
  }

  // ---------------------------------------------------------------------------
  // to_cbor()

  /** Where the written bytes stand after one more piece. */
  lemma Appended(start: seq<uint8>, done: seq<uint8>, piece: seq<uint8>, written: seq<uint8>, goal: seq<uint8>)
    requires written == start + done && goal == done + piece
    ensures written + piece == start + goal
  {
  }

  /** The encoding of the first i + 1 slots extends that of the first i by slot i. */
  lemma EncodeItemsSnoc(parent: Value, items: seq<Option<Value>>, i: nat)
    requires forall j :: 0 <= j < |items| ==> items[j] < parent && WellFormedSlot(items[j])
    requires i < |items|
    ensures EncodeItems(parent, items[..i + 1]) == EncodeItems(parent, items[..i]) + EncodeSlot(items[i])
  {
    var t := items[..i + 1];
    EncodeItemsConcat(parent, t, i);
    assert t[..i] == items[..i];
    assert t[i..] == [items[i]];
    assert EncodeItems(parent, [items[i]]) == EncodeSlot(items[i]) + EncodeItems(parent, []);
  }

  /** The encoding of the pairs from i on: pair i, then those after it. */
  lemma EncodeEntriesFrom(parent: Value, es: seq<(Text, Option<Value>)>, i: nat)
    requires forall j :: 0 <= j < |es| ==> es[j].1 < parent && |es[j].0| < TWO_64 && WellFormedSlot(es[j].1)
    requires i < |es|
    ensures EncodeEntries(parent, es[i..]) == BuildString(es[i].0) + EncodeSlot(es[i].1) + EncodeEntries(parent, es[i + 1..])
  {
    assert es[i..][1..] == es[i + 1..];
  }

  lemma Regrouped(a: seq<uint8>, b: seq<uint8>, c: seq<uint8>, e: seq<uint8>)
    ensures a + (b + c + e) == (a + b) + c + e
  {
  }

  /**
   * to_cbor() of every node class.  What a node writes is exactly the encoding
   * of the value it denotes.
   */
  method ToCbor(n: Node, ghost S: set<Node>, ghost d: nat, ghost v: Value) returns (bytes: seq<uint8>)
    requires Within(n, S, d) && ValueOf(n, S, d) == v && WellFormed(v)
    ensures bytes == Encode(v)
    decreases d, 3
  {
    if n.kind == ArrayType {
      bytes := ArrayToCbor(n, S, d, v);
    } else if n.kind == ObjectType {
      bytes := ObjectToCbor(n, S, d, v);
    } else if n.kind == NullType {
      bytes := BuildNull();
    } else if n.kind == BooleanType {
      bytes := BuildBoolean(n.flag);
    } else if n.kind == NumberType {
      if n.num.kind == Signed {
        bytes := BuildNumberSigned(n.num.value);
      } else {
        bytes := BuildNumberUnsigned(n.num.value);
      }
    } else {
      bytes := BuildString(n.text);
    }
  }

  /** json_array::to_cbor: the prefix, then each slot or the null code, through a Writer. */
  method ArrayToCbor(n: Node, ghost S: set<Node>, ghost d: nat, ghost v: Value) returns (bytes: seq<uint8>)
    requires Within(n, S, d) && n.kind == ArrayType && ValueOf(n, S, d) == v && WellFormed(v)
    ensures bytes == Encode(v)
    decreases d, 2
  {
    SlotsDenoteSelf(n, S, d);
    bytes := WriteArray(n.items, S, d, v);
  }

  /** The body of json_array::to_cbor once the slots are read. */
  method WriteArray(src: seq<Node?>, ghost S: set<Node>, ghost d: nat, ghost v: Value) returns (bytes: seq<uint8>)
    requires v.Arr? && WellFormed(v) && SlotsDenote(src, S, d, v.items, |src|) && |src| == |v.items|
    ensures bytes == Encode(v)
    decreases d, 1
  {
    var w := new Writer();
    w.AppendCborBinary(BuildArrayPrefix(|src|));
    assert w.Written() == BuildArrayPrefix(|src|);
    WriteSlots(w, src, S, d, v);
    bytes := w.Binary();
    ArrayEncoding(v);
  }

  /** The loop of json_array::to_cbor. */
  method WriteSlots(w: Writer, src: seq<Node?>, ghost S: set<Node>, ghost d: nat, ghost v: Value)
    requires v.Arr? && WellFormed(v) && SlotsDenote(src, S, d, v.items, |src|) && |src| == |v.items|
    requires w.Valid()
    modifies w
    ensures w.Valid() && w.Written() == old(w.Written()) + EncodeItems(v, v.items)
    decreases d, 0
  {
    ghost var start := w.Written();
    var i := 0;
    while i < |src|
      invariant i <= |src| && w.Valid()
      invariant w.Written() == start + EncodeItems(v, v.items[..i])
    {
      EncodeItemsSnoc(v, v.items, i);
      ghost var before := w.Written();
      WriteSlot(w, src[i], S, d, v.items[i]);
      Appended(start, EncodeItems(v, v.items[..i]), EncodeSlot(v.items[i]), before, EncodeItems(v, v.items[..i + 1]));
      i := i + 1;
    }
    assert v.items[..i] == v.items;
  }

  /** One slot or entry value: the child's bytes, or the null code when it is absent. */
  method WriteSlot(w: Writer, c: Node?, ghost S: set<Node>, ghost d: nat, ghost o: Option<Value>)
    requires SlotDenotes(c, S, d, o) && WellFormedSlot(o) && w.Valid()
    modifies w
    ensures w.Valid() && w.Written() == old(w.Written()) + EncodeSlot(o)
    decreases d, 0, 0
  {
    if c != null {
      var b := ToCbor(c, S, d - 1, o.value);
      w.AppendCborBinary(b);
    } else {
      w.WriteCharacter(NULL_CODE);
    }
  }

  /** json_object::to_cbor: the prefix, then key string and value of each entry. */
  method ObjectToCbor(n: Node, ghost S: set<Node>, ghost d: nat, ghost v: Value) returns (bytes: seq<uint8>)
    requires Within(n, S, d) && n.kind == ObjectType && ValueOf(n, S, d) == v && WellFormed(v)
    ensures bytes == Encode(v)
    decreases d, 2
  {
    EntriesDenoteSelf(n, S, d);
    bytes := WriteObject(n.entries, S, d, v);
  }

  /** The body of json_object::to_cbor once the map is read. */
  method WriteObject(src: map<Text, Node?>, ghost S: set<Node>, ghost d: nat, ghost v: Value) returns (bytes: seq<uint8>)
    requires v.Obj? && WellFormed(v) && EntriesDenote(src, S, d, v.entries) && src.Keys == v.entries.Keys
    ensures bytes == Encode(v)
    decreases d, 1
  {
    SameKeysSameSize(src, v.entries);
    ObjectEncoding(v);
    var keys := KeysInOrder(src);
    PairsDenoteSelf(src, S, d, v);
    bytes := WriteMap(src, keys, S, d, v, EntryList(v.entries));
  }

  /** The Writer of json_object::to_cbor: the size prefix, then the pairs. */
  method WriteMap(src: map<Text, Node?>, keys: seq<Text>, ghost S: set<Node>, ghost d: nat,
                  ghost v: Value, ghost es: seq<(Text, Option<Value>)>) returns (bytes: seq<uint8>)
    requires PairsDenote(src, keys, S, d, v, es) && |src| == |keys| < TWO_64
    ensures bytes == BuildObjectPrefix(|keys|) + EncodeEntries(v, es)
    decreases d, 0, 4
  {
    var w := new Writer();
    w.AppendCborBinary(BuildObjectPrefix(|src|));
    assert w.Written() == BuildObjectPrefix(|keys|);
    WritePairs(w, src, keys, S, d, v, es);
    bytes := w.Binary();
  }

  /** One turn of json_object::to_cbor: the key string, then the value or the null code. */
  method WriteEntry(w: Writer, k: Text, c: Node?, ghost S: set<Node>, ghost d: nat, ghost o: Option<Value>)
    requires SlotDenotes(c, S, d, o) && WellFormedSlot(o) && |k| < TWO_64 && w.Valid()
    modifies w
    ensures w.Valid() && w.Written() == old(w.Written()) + BuildString(k) + EncodeSlot(o)
    decreases d, 0, 1
  {
    w.AppendCborBinary(BuildString(k));
    WriteSlot(w, c, S, d, o);
  }

  lemma SameKeysSameSize(a: map<Text, Node?>, b: map<Text, Option<Value>>)
    requires a.Keys == b.Keys
    ensures |a| == |b|
  {
    assert |a| == |a.Keys|;
    assert |b| == |b.Keys|;
  }

  /** In enumeration order, key j of the map is pair j of the value, and its node denotes that pair's value. */
  ghost predicate PairsDenote(src: map<Text, Node?>, keys: seq<Text>, S: set<Node>, d: nat, parent: Value, es: seq<(Text, Option<Value>)>)
    reads S
  {
    |keys| == |es| &&
    forall j :: 0 <= j < |keys| ==>
      keys[j] in src && keys[j] == es[j].0 && SlotDenotes(src[keys[j]], S, d, es[j].1) &&
      es[j].1 < parent && |es[j].0| < TWO_64 && WellFormedSlot(es[j].1)
  }

  lemma PairsDenoteSelf(src: map<Text, Node?>, S: set<Node>, d: nat, v: Value)
    requires v.Obj? && WellFormed(v) && EntriesDenote(src, S, d, v.entries) && src.Keys == v.entries.Keys
    ensures PairsDenote(src, KeysInOrder(src), S, d, v, EntryList(v.entries))
  {
    EntriesBelow(v);
    var es := EntryList(v.entries);
    var keys := KeysInOrder(src);
    assert keys == KeysInOrder(v.entries);
    EntryListKeys(v.entries);
    forall j | 0 <= j < |keys|
      ensures keys[j] in src && keys[j] == es[j].0 && SlotDenotes(src[keys[j]], S, d, es[j].1)
    {
      assert keys[j] == KeysOf(es)[j];
    }
  }

  /** The loop of json_object::to_cbor, over the keys in enumeration order. */
  method WritePairs(w: Writer, src: map<Text, Node?>, keys: seq<Text>, ghost S: set<Node>, ghost d: nat,
                    ghost v: Value, ghost es: seq<(Text, Option<Value>)>)
    requires PairsDenote(src, keys, S, d, v, es) && w.Valid()
    modifies w
    ensures w.Valid() && w.Written() == old(w.Written()) + EncodeEntries(v, es)
    decreases d, 0, 3
  {
    ghost var start := w.Written();
    assert es[0..] == es;
    var i := 0;
    while i < |keys|
      invariant i <= |keys| && w.Valid()
      invariant start + EncodeEntries(v, es) == w.Written() + EncodeEntries(v, es[i..])
    {
      WritePair(w, src, keys, S, d, v, es, i, start + EncodeEntries(v, es));
      i := i + 1;
    }
    assert es[i..] == [];
  }

  /** One turn of WritePairs: pair i moves from the bytes to come to the bytes written. */
  method WritePair(w: Writer, src: map<Text, Node?>, keys: seq<Text>, ghost S: set<Node>, ghost d: nat,
                   ghost v: Value, ghost es: seq<(Text, Option<Value>)>, i: nat, ghost goal: seq<uint8>)
    requires PairsDenote(src, keys, S, d, v, es) && w.Valid() && i < |keys|
    requires goal == w.Written() + EncodeEntries(v, es[i..])
    modifies w
    ensures w.Valid() && goal == w.Written() + EncodeEntries(v, es[i + 1..])
    decreases d, 0, 2
  {
    EncodeEntriesFrom(v, es, i);
    ghost var before := w.Written();
    WriteEntry(w, keys[i], src[keys[i]], S, d, es[i].1);
    Regrouped(before, BuildString(es[i].0), EncodeSlot(es[i].1), EncodeEntries(v, es[i + 1..]));
  }
}
