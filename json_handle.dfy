/**
 * The `json` handle of include/karl/json.hxx and src/karl.cc.
 *
 * A handle is either a root, holding a node (or nothing) at depth 0, or a
 * location: a container node plus an index or a key, at depth 1 or more.
 * `operator[]` makes locations, creating the container when the slot is
 * empty; assignments and `push_back` write through a location into the
 * container, so every handle naming the same slot sees the change.  Nodes
 * are shared by reference: `push_back` and `operator=(const json&)` store
 * the argument's node itself, not a copy.
 */
module JsonHandle {
  import opened Base
  import opened KeyOrder
  import opened JsonValue
  import opened JsonNodes
  import opened NodeWalks
  import opened NodeDump
  import opened ValueCbor
  import opened CborDecode
  import opened CborTable
  import opened CborReader

  // ---------------------------------------------------------------------------
  // Scalars on the right of operator=

  /**
   * What the scalar `operator=` overloads hand to `assign`: the signed
   * integer overloads widen to int64, the unsigned ones to uint64, and a
   * `const char*` becomes a std::string (empty for a null pointer).
   */
  datatype Scalar = OfText(s: Text) | OfInt64(i: int) | OfUint64(u: int) | OfBool(b: bool)

  predicate ValidScalar(x: Scalar)
  {
    match x
    case OfInt64(i) => -TWO_63 <= i < TWO_63
    case OfUint64(u) => 0 <= u < TWO_64
    case _ => true
  }

  /** The value a node holding x denotes; numbers are made by set_value. */
  function ScalarValue(x: Scalar): (v: Value)
    requires ValidScalar(x)
    ensures !v.Arr? && !v.Obj? && !v.Null?
  {
    match x
    case OfText(s) => Str(s)
    case OfInt64(i) => Num(FromSigned(i))
    case OfUint64(u) => Num(FromUnsigned(u))
    case OfBool(b) => Boolean(b)
  }

  /** The node class assign(x) looks for before writing in place. */
  function KindOf(x: Scalar): ValueType
  {
    match x
    case OfText(_) => StringType
    case OfInt64(_) => NumberType
    case OfUint64(_) => NumberType
    case OfBool(_) => BooleanType
  }

  /** n is a node of x's class holding x. */
  predicate Holds(n: Node, x: Scalar)
    reads n
  {
    n.kind == KindOf(x) &&
    match x
    case OfText(s) => n.text == s
    case OfInt64(i) => -TWO_63 <= i < TWO_63 && n.num == FromSigned(i)
    case OfUint64(u) => 0 <= u < TWO_64 && n.num == FromUnsigned(u)
    case OfBool(b) => n.flag == b
  }

  /** A node holding x denotes ScalarValue(x), in any footprint that contains it. */
  lemma HoldsValue(n: Node, x: Scalar, S: set<Node>, d: nat)
    requires Holds(n, x) && n in S
    ensures ValidScalar(x) && Within(n, S, d) && ValueOf(n, S, d) == ScalarValue(x)
  {
  }

  /** New<json_string>(s), New<json_number>(number), New<json_boolean>(v) */
  method NewScalar(x: Scalar) returns (n: Node)
    requires ValidScalar(x)
    ensures fresh(n) && Holds(n, x)
  {
    if x.OfText? {
      n := new Node.StringNode(x.s);
    } else if x.OfInt64? {
      n := new Node.NumberNode(FromSigned(x.i));
    } else if x.OfUint64? {
      n := new Node.NumberNode(FromUnsigned(x.u));
    } else {
      n := new Node.BooleanNode(x.b);
    }
  }

  /** The in-place branch of assign: json_string / json_number / json_boolean operator=. */
  method Overwrite(n: Node, x: Scalar)
    requires ValidScalar(x) && n.kind == KindOf(x)
    modifies n
    ensures Holds(n, x) && n.items == old(n.items) && n.entries == old(n.entries)
  {
    if x.OfText? {
      n.SetText(x.s);
    } else if x.OfInt64? {
      n.SetNumber(FromSigned(x.i));
    } else if x.OfUint64? {
      n.SetNumber(FromUnsigned(x.u));
    } else {
      n.SetFlag(x.b);
    }
  }

  /** The scalar fields of n are as they were. */
  twostate predicate KeptScalars(n: Node)
    reads n
  {
    n.flag == old(n.flag) && n.num == old(n.num) && n.text == old(n.text)
  }

  // ---------------------------------------------------------------------------
  // The handle

  class Json {
    /** _depth: 0 for a root, one more per operator[] below it. */
    var depth: nat
    /** _data: the root node, or the container a location points into. */
    var data: Node?
    /** _index: the array slot of a location. */
    var index: Option<nat>
    /** _key: the object entry of a location. */
    var key: Option<Text>

    /**
     * A root has no selector; a location has exactly one, and its container
     * is of the matching class.
     */
    ghost predicate Valid()
      reads this
    {
      (depth == 0 <==> index.None? && key.None?) &&
      !(index.Some? && key.Some?) &&
      (index.Some? ==> data != null && data.kind == ArrayType) &&
      (key.Some? ==> data != null && data.kind == ObjectType)
    }

    /** json(): an empty root. */
    constructor ()
      ensures Valid() && depth == 0 && data == null
    {
      depth := 0;
      data := null;
      index := None;
      key := None;
    }

    /** json(std::shared_ptr<json_value>): a root holding item. */
    constructor Of(item: Node?)
      ensures Valid() && depth == 0 && data == item
    {
      depth := 0;
      data := item;
      index := None;
      key := None;
    }

    /** json(const json&): the same root or the same location. */
    constructor Share(j: Json)
      requires j.Valid()
      ensures Valid() && depth == j.depth && data == j.data && index == j.index && key == j.key
    {
      depth := j.depth;
      data := j.data;
      index := j.index;
      key := j.key;
    }

    /** current_value(): the root's node, or what the container holds under the selector. */
    function CurrentValue(): Node?
      requires Valid()
      reads this, data
    {
      if depth == 0 then data
      else if index.Some? then Get(data.items, index.value)
      else if key.value in data.entries then data.entries[key.value]
      else null
    }

    /**
     * The handle now names obj: a root holds it, a location's container
     * holds it under the selector, and nothing else of the container moved.
     */
    twostate predicate Stored(new obj: Node?)
      reads this, data
    {
      (depth == 0 ==> data == obj) &&
      (index.Some? ==>
        data != null && data == old(data) && data.items == Placed(old(data.items), index.value, obj) &&
        data.entries == old(data.entries) && KeptScalars(data)) &&
      (key.Some? ==>
        data != null && data == old(data) && data.entries == old(data.entries)[key.value := obj] &&
        data.items == old(data.items) && KeptScalars(data))
    }

    /** fill_current_value(obj) */
    method FillCurrentValue(obj: Node?)
      requires Valid()
      modifies this, data
      ensures Valid() && depth == old(depth) && index == old(index) && key == old(key)
      ensures Stored(obj) && CurrentValue() == obj
      ensures depth == 0 && old(data) != null ==> unchanged(old(data))
    {
      if depth == 0 {
        data := obj;
        return;
      }
      if index.Some? {
        var _ := data.SetAt(index.value, obj);
        PlacedGet(old(data.items), index.value, obj, index.value);
        return;
      }
      data.SetValue(key.value, obj);
    }

    /** A location below this handle, selecting sel in container c. */
    ghost predicate Below(h: Json, c: Node?, i: Option<nat>, k: Option<Text>)
      reads this, h
    {
      h.Valid() && h.depth == depth + 1 && h.data == c && h.index == i && h.key == k
    }

    /**
     * operator[](size_t): a location at slot i of the current array.  Below
     * the root an empty slot first receives a new array; at the root an
     * empty or null root is replaced by a new array, an array is reused, and
     * any other node is an error.
     */
    method Index(i: nat) returns (r: Result<Json>)
      requires Valid()
      requires depth > 0 ==> CurrentValue() == null || CurrentValue().kind == ArrayType
      modifies this, data
      ensures Valid() && depth == old(depth) && index == old(index) && key == old(key)
      ensures r.Err? <==> depth == 0 && old(data) != null && old(data).kind != NullType && old(data).kind != ArrayType
      ensures r.Err? ==> r.error == OtherError
      ensures r.Ok? ==> fresh(r.value) && Below(r.value, CurrentValue(), Some(i), None)
      ensures old(GetType()) == ArrayType || r.Err? ==>
        data == old(data) && (data != null ==> unchanged(data))
      ensures r.Ok? && old(GetType()) != ArrayType ==>
        fresh(CurrentValue()) && CurrentValue().kind == ArrayType && CurrentValue().items == [] && Stored(CurrentValue())
    {
      var c: Node;
      if depth != 0 {
        var cur := CurrentValue();
        if cur == null {
          c := new Node.ArrayNode();
          FillCurrentValue(c);
        } else {
          c := cur;
        }
      } else if data == null || data.kind == NullType {
        c := new Node.ArrayNode();
        data := c;
      } else if data.kind == ArrayType {
        c := data;
      } else {
        return Err(OtherError);
      }
      var js := new Json();
      js.data := c;
      js.index := Some(i);
      js.depth := depth + 1;
      r := Ok(js);
    }

    /** operator[](const std::string&): the same with a key and an object. */
    method Key(k: Text) returns (r: Result<Json>)
      requires Valid()
      requires depth > 0 ==> CurrentValue() == null || CurrentValue().kind == ObjectType
      modifies this, data
      ensures Valid() && depth == old(depth) && index == old(index) && key == old(key)
      ensures r.Err? <==> depth == 0 && old(data) != null && old(data).kind != NullType && old(data).kind != ObjectType
      ensures r.Err? ==> r.error == OtherError
      ensures r.Ok? ==> fresh(r.value) && Below(r.value, CurrentValue(), None, Some(k))
      ensures old(GetType()) == ObjectType || r.Err? ==>
        data == old(data) && (data != null ==> unchanged(data))
      ensures r.Ok? && old(GetType()) != ObjectType ==>
        fresh(CurrentValue()) && CurrentValue().kind == ObjectType && CurrentValue().entries == map[] && Stored(CurrentValue())
    {
      var c: Node;
      if depth != 0 {
        var cur := CurrentValue();
        if cur == null {
          c := new Node.ObjectNode();
          FillCurrentValue(c);
        } else {
          c := cur;
        }
      } else if data == null || data.kind == NullType {
        c := new Node.ObjectNode();
        data := c;
      } else if data.kind == ObjectType {
        c := data;
      } else {
        return Err(OtherError);
      }
      var js := new Json();
      js.data := c;
      js.key := Some(k);
      js.depth := depth + 1;
      r := Ok(js);
    }

    /** get_type(): the class of the current node, kNull when there is none. */
    function GetType(): ValueType
      requires Valid()
      reads this, data
    {
      if CurrentValue() == null then NullType else CurrentValue().kind
    }

    /** const operator[](size_t): a location into the current array, which must exist. */
    method IndexConst(i: nat) returns (r: Result<Json>)
      requires Valid()
      ensures r.Ok? <==> GetType() == ArrayType
      ensures r.Err? ==> r.error == TypeError
      ensures r.Ok? ==> fresh(r.value) && Below(r.value, CurrentValue(), Some(i), None)
    {
      if GetType() != ArrayType {
        return Err(TypeError);
      }
      var js := new Json();
      js.data := CurrentValue();
      js.index := Some(i);
      js.depth := depth + 1;
      r := Ok(js);
    }

    /** const operator[](const std::string&): a location into the current object, which must exist. */
    method KeyConst(k: Text) returns (r: Result<Json>)
      requires Valid()
      ensures r.Ok? <==> GetType() == ObjectType
      ensures r.Err? ==> r.error == TypeError
      ensures r.Ok? ==> fresh(r.value) && Below(r.value, CurrentValue(), None, Some(k))
    {
      if GetType() != ObjectType {
        return Err(TypeError);
      }
      var js := new Json();
      js.data := CurrentValue();
      js.key := Some(k);
      js.depth := depth + 1;
      r := Ok(js);
    }

    /**
     * assign(const std::string&), assign(int64_t), assign(uint64_t) through
     * set_json_number, and assign(bool): a current node of the same class is
     * overwritten in place, otherwise a new node takes the slot.
     */
    method Assign(x: Scalar)
      requires Valid() && ValidScalar(x)
      modifies this, data, CurrentValue()
      ensures Valid() && depth == old(depth) && index == old(index) && key == old(key)
      ensures CurrentValue() != null && Holds(CurrentValue(), x)
      ensures old(CurrentValue()) != null && old(CurrentValue()).kind == KindOf(x) ==>
        CurrentValue() == old(CurrentValue()) && data == old(data) &&
        CurrentValue().items == old(CurrentValue().items) && CurrentValue().entries == old(CurrentValue().entries) &&
        (depth > 0 ==> unchanged(data))
      ensures !(old(CurrentValue()) != null && old(CurrentValue()).kind == KindOf(x)) ==>
        fresh(CurrentValue()) && Stored(CurrentValue())
      ensures old(CurrentValue()) != null && old(CurrentValue()).kind != KindOf(x) && (depth == 0 || old(CurrentValue()) != old(data)) ==>
        unchanged(old(CurrentValue()))
    {
      var old_ := CurrentValue();
      if old_ == null || old_.kind != KindOf(x) {
        var n := NewScalar(x);
        FillCurrentValue(n);
      } else {
        Overwrite(old_, x);
      }
    }

    /**
     * operator=(const char*): assign of the pointed-to text, the empty string
     * for a null pointer, with the same in-place and new-node branches.
     */
    method AssignChars(ptr: Option<Text>)
      requires Valid()
      modifies this, data, CurrentValue()
      ensures Valid() && depth == old(depth) && index == old(index) && key == old(key)
      ensures CurrentValue() != null && Holds(CurrentValue(), OfText(if ptr.Some? then ptr.value else []))
      ensures old(CurrentValue()) != null && old(CurrentValue()).kind == StringType ==>
        CurrentValue() == old(CurrentValue()) && data == old(data) &&
        CurrentValue().items == old(CurrentValue().items) && CurrentValue().entries == old(CurrentValue().entries) &&
        (depth > 0 ==> unchanged(data))
      ensures !(old(CurrentValue()) != null && old(CurrentValue()).kind == StringType) ==>
        fresh(CurrentValue()) && Stored(CurrentValue())
      ensures old(CurrentValue()) != null && old(CurrentValue()).kind != StringType && (depth == 0 || old(CurrentValue()) != old(data)) ==>
        unchanged(old(CurrentValue()))
    {
      Assign(OfText(if ptr.Some? then ptr.value else []));
    }

    /** operator=(const json& j): this handle's slot now holds j's current node itself. */
    method AssignHandle(j: Json)
      requires Valid() && j.Valid()
      modifies this, data
      ensures Valid() && depth == old(depth) && index == old(index) && key == old(key)
      ensures Stored(old(j.CurrentValue())) && CurrentValue() == old(j.CurrentValue())
    {
      var value := j.CurrentValue();
      FillCurrentValue(value);
    }

    /**
     * push_back(json j): j's current node, by reference, goes at the end of
     * the current array.  An empty or null root becomes a new array; below
     * the root an empty slot receives a new array first, and j's slot is
     * read after that, so a j naming this very slot appends the new array
     * to itself.  A root of any other class is a type error.
     */
    method PushBack(j: Json) returns (failure: Option<Error>)
      requires Valid() && j.Valid()
      requires depth > 0 ==> CurrentValue() == null || CurrentValue().kind == ArrayType
      modifies this, data, CurrentValue()
      ensures Valid() && depth == old(depth) && index == old(index) && key == old(key)
      ensures failure.Some? <==> depth == 0 && old(data) != null && old(data).kind != NullType && old(data).kind != ArrayType
      ensures failure.Some? ==> failure.value == TypeError && data == old(data) && unchanged(data)
      ensures failure.None? ==> CurrentValue() != null && CurrentValue().kind == ArrayType
      ensures old(GetType()) == ArrayType ==>
        CurrentValue() == old(CurrentValue()) && data == old(data) &&
        CurrentValue().items == old(CurrentValue().items) + [old(j.CurrentValue())] &&
        (data != CurrentValue() ==> unchanged(data))
      ensures depth == 0 && (old(data) == null || old(data).kind == NullType) ==>
        fresh(data) && data.items == [old(j.CurrentValue())]
      ensures depth > 0 && old(CurrentValue()) == null ==>
        fresh(CurrentValue()) && Stored(CurrentValue()) && CurrentValue().items == [j.CurrentValue()]
    {
      if depth == 0 {
        if data == null || data.kind == NullType {
          var obj := new Node.ArrayNode();
          obj.Append(j.CurrentValue());
          data := obj;
          return None;
        } else if data.kind == ArrayType {
          data.Append(j.CurrentValue());
          return None;
        }
        return Some(TypeError);
      }
      var slot := CurrentValue();
      if slot == null {
        var vec := new Node.ArrayNode();
        FillCurrentValue(vec);
        vec.Append(j.CurrentValue());
      } else {
        slot.Append(j.CurrentValue());
      }
      failure := None;
    }

    /** emplace_back(json&& j): push_back(j), with the same effect. */
    method EmplaceBack(j: Json) returns (failure: Option<Error>)
      requires Valid() && j.Valid()
      requires depth > 0 ==> CurrentValue() == null || CurrentValue().kind == ArrayType
      modifies this, data, CurrentValue()
      ensures Valid() && depth == old(depth) && index == old(index) && key == old(key)
      ensures failure.Some? <==> depth == 0 && old(data) != null && old(data).kind != NullType && old(data).kind != ArrayType
      ensures failure.Some? ==> failure.value == TypeError && data == old(data) && unchanged(data)
      ensures failure.None? ==> CurrentValue() != null && CurrentValue().kind == ArrayType
      ensures old(GetType()) == ArrayType ==>
        CurrentValue() == old(CurrentValue()) && data == old(data) &&
        CurrentValue().items == old(CurrentValue().items) + [old(j.CurrentValue())] &&
        (data != CurrentValue() ==> unchanged(data))
      ensures depth == 0 && (old(data) == null || old(data).kind == NullType) ==>
        fresh(data) && data.items == [old(j.CurrentValue())]
      ensures depth > 0 && old(CurrentValue()) == null ==>
        fresh(CurrentValue()) && Stored(CurrentValue()) && CurrentValue().items == [j.CurrentValue()]
    {
      failure := PushBack(j);
    }

    /** clear(): back to an empty root; no node changes. */
    method Clear()
      modifies this
      ensures Valid() && depth == 0 && data == null
    {
      depth := 0;
      data := null;
      index := None;
      key := None;
    }

    /** size(): the number of elements or entries of the current container, 0 otherwise. */
    method Size() returns (n: nat)
      requires Valid()
      ensures GetType() == ArrayType ==> n == |CurrentValue().items|
      ensures GetType() == ObjectType ==> n == |CurrentValue().entries|
      ensures GetType() != ArrayType && GetType() != ObjectType ==> n == 0
    {
      var obj := CurrentValue();
      if obj != null {
        if obj.kind == ArrayType {
          n := obj.ItemCount();
          return;
        }
        if obj.kind == ObjectType {
          n := obj.EntryCount();
          return;
        }
      }
      n := 0;
    }

    /** has_key(key): only an object has keys. */
    method HasKey(k: Text) returns (b: bool)
      requires Valid()
      ensures b <==> GetType() == ObjectType && k in CurrentValue().entries
    {
      var value := CurrentValue();
      if value != null && value.kind == ObjectType {
        b := value.HasKey(k);
      } else {
        b := false;
      }
    }

    /** erase(key): removes the entry from a current object; anything else is left alone. */
    method EraseKey(k: Text)
      requires Valid()
      modifies CurrentValue()
      ensures old(GetType()) == ObjectType ==>
        old(CurrentValue()).entries == old(CurrentValue().entries) - {k} &&
        old(CurrentValue()).items == old(CurrentValue().items) && KeptScalars(old(CurrentValue()))
      ensures old(GetType()) != ObjectType && old(CurrentValue()) != null ==> unchanged(old(CurrentValue()))
    {
      var value := CurrentValue();
      if value != null && value.kind == ObjectType {
        value.EraseKey(k);
      }
    }

    /** erase(idx): removes a slot of a current array, later slots moving down. */
    method EraseAt(i: nat)
      requires Valid()
      modifies CurrentValue()
      ensures old(GetType()) == ArrayType ==>
        old(CurrentValue()).items == Erased(old(CurrentValue().items), i) &&
        old(CurrentValue()).entries == old(CurrentValue().entries) && KeptScalars(old(CurrentValue()))
      ensures old(GetType()) != ArrayType && old(CurrentValue()) != null ==> unchanged(old(CurrentValue()))
    {
      var value := CurrentValue();
      if value != null && value.kind == ArrayType {
        value.EraseAt(i);
      }
    }

    /** to_string(), behind get<std::string>() */
    method GetText() returns (r: Result<Text>)
      requires Valid()
      ensures r.Ok? <==> GetType() == StringType
      ensures r.Err? ==> r.error == TypeError
      ensures r.Ok? ==> r.value == CurrentValue().text
    {
      var obj := CurrentValue();
      if obj == null || obj.kind != StringType {
        return Err(TypeError);
      }
      r := Ok(obj.text);
    }

    /** to_bool(), behind get<bool>() */
    method GetBool() returns (r: Result<bool>)
      requires Valid()
      ensures r.Ok? <==> GetType() == BooleanType
      ensures r.Err? ==> r.error == TypeError
      ensures r.Ok? ==> r.value == CurrentValue().flag
    {
      var obj := CurrentValue();
      if obj == null || obj.kind != BooleanType {
        return Err(TypeError);
      }
      r := Ok(obj.flag);
    }

    /** get<T>() for an integer type T: to_uint64() cast to T. */
    method GetInteger(w: IntWidth, signed: bool) returns (r: Result<int>)
      requires Valid()
      ensures r.Ok? <==> GetType() == NumberType
      ensures r.Err? ==> r.error == TypeError
      ensures r.Ok? ==> r.value == CastInteger(AsUint64(CurrentValue().num), w, signed)
    {
      var obj := CurrentValue();
      if obj == null || obj.kind != NumberType {
        return Err(TypeError);
      }
      r := Ok(CastInteger(AsUint64(obj.num), w, signed));
    }

    /**
     * get<T>(): the std::string and bool specialisations read the text and
     * the flag; the primary template casts to_uint64() to T when
     * check_integer_type<T> holds, and raises type_error for every other T.
     */
    method GetAs(t: Target) returns (r: Result<Got>)
      requires Valid()
      ensures r.Err? ==> r.error == TypeError
      ensures t.Other? ==> r.Err?
      ensures t.Integer? ==> (r.Ok? <==> GetType() == NumberType)
      ensures t.Integer? && r.Ok? ==> r.value == GotInteger(CastInteger(AsUint64(CurrentValue().num), t.w, t.signed))
      ensures t.Bool? ==> (r.Ok? <==> GetType() == BooleanType) && (r.Ok? ==> r.value == GotBool(CurrentValue().flag))
      ensures t.String? ==> (r.Ok? <==> GetType() == StringType) && (r.Ok? ==> r.value == GotText(CurrentValue().text))
    {
      match t
      case Integer(w, signed) =>
        var x := GetInteger(w, signed);
        r := if x.Ok? then Ok(GotInteger(x.value)) else Err(x.error);
      case Bool =>
        var x := GetBool();
        r := if x.Ok? then Ok(GotBool(x.value)) else Err(x.error);
      case String =>
        var x := GetText();
        r := if x.Ok? then Ok(GotText(x.value)) else Err(x.error);
      case Other =>
        r := Err(TypeError);
    }

    // -------------------------------------------------------------------------
    // What the handle names, as a value

    /** The nodes reachable from the current one lie in S, with no path longer than d. */
    ghost predicate Shows(S: set<Node>, d: nat)
      requires Valid()
      reads this, data, S
    {
      CurrentValue() != null ==> Within(CurrentValue(), S, d)
    }

    /** The value tree the handle names, absent when current_value() is null. */
    ghost function Current(S: set<Node>, d: nat): (o: Option<Value>)
      requires Valid() && Shows(S, d)
      reads this, data, S
      ensures o.None? <==> CurrentValue() == null
      ensures o.Some? ==> TypeOf(o.value) == GetType()
    {
      if CurrentValue() == null then None else Some(ValueOf(CurrentValue(), S, d))
    }

    /** dump(): the compact text of the current value; nothing prints `null` below the root and `{}` at it. */
    method Dump(ghost S: set<Node>, ghost d: nat) returns (s: Text)
      requires Valid() && Shows(S, d)
      ensures Current(S, d).Some? ==> s == JsonValue.Dump(Current(S, d).value)
      ensures Current(S, d).None? ==> s == if depth > 0 then "null" else "{}"
    {
      var obj := CurrentValue();
      if obj == null {
        return if depth > 0 then "null" else "{}";
      }
      s := DumpNode(obj, S, d, ValueOf(obj, S, d));
    }

    /** empty(): true for nothing, else the current node's own empty(). */
    method Empty() returns (b: bool)
      requires Valid()
      ensures b <==> CurrentValue() == null || CurrentValue().Empty()
    {
      var obj := CurrentValue();
      if obj == null {
        return true;
      }
      b := obj.Empty();
    }

    /** copy(): a root on a deep copy made of new nodes only. */
    method Copy(ghost S: set<Node>, ghost d: nat) returns (h: Json, ghost T: set<Node>)
      requires Valid() && Shows(S, d)
      ensures fresh(h) && fresh(T) && T !! S && h.Valid() && h.depth == 0
      ensures h.CurrentValue() == null <==> CurrentValue() == null
      ensures h.CurrentValue() != null ==> h.CurrentValue() in T && h.Shows(T, d) && h.Current(T, d) == Current(S, d)
    {
      var obj := CurrentValue();
      if obj == null {
        h := new Json();
        T := {};
        return;
      }
      var c;
      c, T := NodeWalks.Copy(obj, S, d, ValueOf(obj, S, d));
      h := new Json.Of(c);
    }

    /** to_cbor(): the CBOR form of the current value, no bytes for nothing. */
    method ToCbor(ghost S: set<Node>, ghost d: nat) returns (bytes: seq<uint8>)
      requires Valid() && Shows(S, d)
      requires Current(S, d).Some? ==> WellFormed(Current(S, d).value)
      ensures Current(S, d).None? ==> bytes == []
      ensures Current(S, d).Some? ==> bytes == Encode(Current(S, d).value)
    {
      var obj := CurrentValue();
      if obj == null {
        return [];
      }
      bytes := NodeWalks.ToCbor(obj, S, d, ValueOf(obj, S, d));
    }

    /**
     * from_cbor(bin, &transfer): no input gives an empty root and leaves the
     * count alone; otherwise a root on whatever the decoder produced, with
     * the number of bytes it consumed.
     */
    static method FromCbor(table: TypeTable, bin: seq<uint8>) returns (h: Json, transfer: Option<nat>, ghost T: set<Node>, ghost d: nat)
      requires table.Valid()
      ensures fresh(h) && fresh(T) && h.Valid() && h.depth == 0
      ensures bin == [] ==> h.data == null && transfer == None
      ensures bin != [] ==> transfer == Some(ParseArbitrary(bin).pos)
      ensures bin != [] ==> h.Shows(T, d) && h.Current(T, d) == ParseArbitrary(bin).res
    {
      if |bin| == 0 {
        h := new Json();
        transfer := None;
        T, d := {}, 0;
        return;
      }
      var obj, parsed := ParseIntoArbitraryJsonObject(table, bin);
      transfer := Some(parsed);
      if obj.None? {
        h := new Json.Of(null);
        T, d := {}, 0;
      } else {
        var n;
        n, T, d := BuildNode(obj.value);
        h := new Json.Of(n);
      }
    }

    /** json::array(): a root on a new empty array. */
    static method MakeArray() returns (h: Json)
      ensures fresh(h) && h.Valid() && h.depth == 0
      ensures fresh(h.data) && h.GetType() == ArrayType && h.data.items == []
    {
      var a := new Node.ArrayNode();
      h := new Json.Of(a);
    }

    /** json::object(): a root on a new empty object. */
    static method MakeObject() returns (h: Json)
      ensures fresh(h) && h.Valid() && h.depth == 0
      ensures fresh(h.data) && h.GetType() == ObjectType && h.data.entries == map[]
    {
      var o := new Node.ObjectNode();
      h := new Json.Of(o);
    }

    /** json(std::initializer_list<key_value_pair>): a root on a new object, pairs set in order. */
    static method FromPairs(ps: seq<(Text, Item)>) returns (h: Json, ghost T: set<Node>)
      requires forall i :: 0 <= i < |ps| ==> ValidItem(ps[i].1)
      ensures fresh(h) && fresh(T) && h.Valid() && h.depth == 0 && h.data != null
      ensures h.Shows(T, 2) && h.Current(T, 2) == Some(Obj(PairMap(ps)))
    {
      var obj;
      obj, T := ObjectOfPairs(ps);
      h := new Json.Of(obj);
    }

    /** json(const std::vector<Ty>&) for integer, string and bool elements. */
    static method FromVector(xs: seq<Scalar>) returns (h: Json, ghost T: set<Node>)
      requires forall i :: 0 <= i < |xs| ==> ValidScalar(xs[i])
      ensures fresh(h) && fresh(T) && h.Valid() && h.depth == 0 && h.data != null
      ensures h.Shows(T, 1) && h.Current(T, 1) == Some(Arr(ScalarSlots(xs)))
    {
      var arr;
      arr, T := ArrayOfScalars(xs);
      h := new Json.Of(arr);
    }

    /**
     * begin(): nothing and an empty array give the end iterator; a
     * non-empty array gives a location on slot 0; any other node gives a
     * root on that node, visited once.
     */
    method Begin() returns (it: JsonIterator)
      requires Valid()
      ensures fresh(it) && it.Valid()
      ensures CurrentValue() == null || (GetType() == ArrayType && CurrentValue().items == []) ==> it.AtEnd()
      ensures GetType() == ArrayType && CurrentValue().items != [] ==> fresh(it.js) && it.AtItem(CurrentValue(), 0)
      ensures CurrentValue() != null && GetType() != ArrayType ==> fresh(it.js) && it.OnSingle(CurrentValue())
    {
      it := new JsonIterator();
      var obj := CurrentValue();
      if obj != null {
        if obj.kind == ArrayType {
          if obj.items == [] {
            return;
          }
          it.iter := 0;
          var js := new Json();
          js.data := obj;
          js.depth := 1;
          js.index := Some(0);
          it.js := js;
        } else {
          var js := new Json();
          js.data := obj;
          it.js := js;
        }
        it.value := obj;
      }
    }

    /** end(): the iterator that holds nothing. */
    method End() returns (it: JsonIterator)
      ensures fresh(it) && it.Valid() && it.AtEnd()
    {
      it := new JsonIterator();
    }
  }

  /** What size() counts in the value: the slots of an array, the entries of an object, else 0. */
  function ValueSize(o: Option<Value>): nat
  {
    if o.Some? && o.value.Arr? then |o.value.items|
    else if o.Some? && o.value.Obj? then |o.value.entries|
    else 0
  }

  /** size() and has_key() agree with the value the handle names. */
  lemma CountsMatchValue(h: Json, S: set<Node>, d: nat, k: Text)
    requires h.Valid() && h.Shows(S, d)
    ensures ValueSize(h.Current(S, d)) ==
      if h.GetType() == ArrayType then |h.CurrentValue().items|
      else if h.GetType() == ObjectType then |h.CurrentValue().entries|
      else 0
    ensures (h.GetType() == ObjectType && k in h.CurrentValue().entries) <==>
      (h.Current(S, d).Some? && h.Current(S, d).value.Obj? && k in h.Current(S, d).value.entries)
  {
    if h.GetType() == ObjectType {
      var n := h.CurrentValue();
      ObjectValue(n, S, d, k);
      assert |ValueOf(n, S, d).entries| == |ValueOf(n, S, d).entries.Keys|;
      assert |n.entries| == |n.entries.Keys|;
    }
  }

  /**
   * is_null, is_boolean, …, is_structured: get_type() names the variant of
   * the value the handle shows, and a handle that shows nothing is null.
   */
  lemma TypeQueries(h: Json, S: set<Node>, d: nat)
    requires h.Valid() && h.Shows(S, d)
    ensures h.GetType() == NullType <==> h.Current(S, d).None? || h.Current(S, d).value.Null?
    ensures h.GetType() == BooleanType <==> h.Current(S, d).Some? && h.Current(S, d).value.Boolean?
    ensures h.GetType() == NumberType <==> h.Current(S, d).Some? && h.Current(S, d).value.Num?
    ensures h.GetType() == StringType <==> h.Current(S, d).Some? && h.Current(S, d).value.Str?
    ensures (h.GetType() == ArrayType || h.GetType() == ObjectType) <==>
      h.Current(S, d).Some? && (h.Current(S, d).value.Arr? || h.Current(S, d).value.Obj?)
  {
  }

  // ---------------------------------------------------------------------------
  // Integer conversions of get<T>()

  /** The integer types get<T>() accepts, by width. */
  datatype IntWidth = W8 | W16 | W32 | W64

  /**
   * The T of get<T>(): an integer type of check_integer_type (bool is not
   * one), the std::string and bool specialisations, or any other type.
   * The double and float specialisations are outside the integer model.
   */
  datatype Target = Integer(w: IntWidth, signed: bool) | String | Bool | Other

  /** What get<T>() returns, by target. */
  datatype Got = GotInteger(i: int) | GotText(t: Text) | GotBool(b: bool)

  function Modulus(w: IntWidth): (m: int)
    ensures m > 1 && m % 2 == 0 && TWO_64 % m == 0
  {
    match w
    case W8 => 0x100
    case W16 => 0x1_0000
    case W32 => 0x1_0000_0000
    case W64 => TWO_64
  }

  /** Whether x is a value of the integer type of width w and the given signedness. */
  predicate InRange(x: int, w: IntWidth, signed: bool)
  {
    if signed then -(Modulus(w) / 2) <= x < Modulus(w) / 2 else 0 <= x < Modulus(w)
  }

  /** static_cast<T>(u) of a uint64_t u: the value of T congruent to u modulo 2^width. */
  function CastInteger(u: int, w: IntWidth, signed: bool): (r: int)
    requires 0 <= u < TWO_64
    ensures InRange(r, w, signed)
  {
    var low := u % Modulus(w);
    if signed && low >= Modulus(w) / 2 then low - Modulus(w) else low
  }

  /**
   * get<T>() gives back a number that T can hold: a value set_value stored
   * reads back unchanged through any integer type wide enough for it.
   */
  lemma CastRoundTrip(n: Number, w: IntWidth, signed: bool)
    requires ValidNumber(n) && InRange(n.value, w, signed)
    ensures CastInteger(AsUint64(n), w, signed) == n.value
  {
    var u := AsUint64(n);
    if n.kind == Signed {
      NegativeResidue(n.value, w);
      assert u % Modulus(w) == n.value + Modulus(w);
    } else {
      assert u == n.value;
      assert u % Modulus(w) == n.value;
    }
  }

  /** The 64-bit pattern of a negative value that fits width w, reduced to that width. */
  lemma NegativeResidue(x: int, w: IntWidth)
    requires -(Modulus(w) / 2) <= x < 0
    ensures (x + TWO_64) % Modulus(w) == x + Modulus(w)
  {
    match w
    case W8 =>
    case W16 =>
    case W32 =>
    case W64 =>
  }

  // ---------------------------------------------------------------------------
  // key_value_pair and the vector constructors

  /** The value side of a key_value_pair: a null `const char*`, a scalar, or a vector of scalars. */
  datatype Item = NullItem | ScalarItem(x: Scalar) | ListItem(xs: seq<Scalar>)

  predicate ValidItem(p: Item)
  {
    match p
    case NullItem => true
    case ScalarItem(x) => ValidScalar(x)
    case ListItem(xs) => forall i :: 0 <= i < |xs| ==> ValidScalar(xs[i])
  }

  /** The slots of the array a vector constructor builds: one present scalar per element. */
  function ScalarSlots(xs: seq<Scalar>): (r: seq<Option<Value>>)
    requires forall i :: 0 <= i < |xs| ==> ValidScalar(xs[i])
    ensures |r| == |xs| && forall i :: 0 <= i < |xs| ==> r[i] == Some(ScalarValue(xs[i]))
  {
    seq(|xs|, i requires 0 <= i < |xs| => Some(ScalarValue(xs[i])))
  }

  function ItemValue(p: Item): Value
    requires ValidItem(p)
  {
    match p
    case NullItem => Value.Null
    case ScalarItem(x) => ScalarValue(x)
    case ListItem(xs) => Arr(ScalarSlots(xs))
  }

  /** The entries after set_value of each pair in turn: a later pair replaces an earlier one with its key. */
  function PairMap(ps: seq<(Text, Item)>): map<Text, Option<Value>>
    requires forall i :: 0 <= i < |ps| ==> ValidItem(ps[i].1)
  {
    if ps == [] then map[]
    else PairMap(ps[..|ps| - 1])[ps[|ps| - 1].0 := Some(ItemValue(ps[|ps| - 1].1))]
  }

  /**
   * A key is in the object exactly when some pair has it, and it holds
   * the value of the last such pair.
   */
  lemma {:induction false} PairMapLast(ps: seq<(Text, Item)>, k: Text)
    requires forall i :: 0 <= i < |ps| ==> ValidItem(ps[i].1)
    ensures k in PairMap(ps) <==> exists i :: 0 <= i < |ps| && ps[i].0 == k
    ensures forall i :: 0 <= i < |ps| && ps[i].0 == k && (forall j :: i < j < |ps| ==> ps[j].0 != k) ==>
      k in PairMap(ps) && PairMap(ps)[k] == Some(ItemValue(ps[i].1))
  {
    if ps != [] {
      var init := ps[..|ps| - 1];
      PairMapLast(init, k);
      assert forall i :: 0 <= i < |init| ==> init[i] == ps[i];
      if ps[|ps| - 1].0 != k {
        assert (exists i :: 0 <= i < |ps| && ps[i].0 == k) ==> exists i :: 0 <= i < |init| && init[i].0 == k;
      }
    }
  }

  /** The vector constructor's loop: resize, then a new scalar node in each slot. */
  method ArrayOfScalars(xs: seq<Scalar>) returns (r: Node, ghost T: set<Node>)
    requires forall i :: 0 <= i < |xs| ==> ValidScalar(xs[i])
    ensures fresh(T) && r in T
    ensures Within(r, T, 1) && ValueOf(r, T, 1) == Arr(ScalarSlots(xs))
  {
    r := new Node.ArrayNode();
    r.Resize(|xs|);
    ghost var vs := ScalarSlots(xs);
    ghost var U: set<Node> := {};
    var i := 0;
    while i < |xs|
      invariant 0 <= i <= |xs| && |r.items| == |xs| && r.kind == ArrayType
      invariant fresh(U) && r !in U
      invariant SlotsDenote(r.items, U, 1, vs, i)
    {
      U := ScalarSlot(xs, r, i, U);
      i := i + 1;
    }
    T := U + {r};
    SlotsDenoteGrow(r.items, U, T, 1, vs, |xs|);
    ArrayDenotes(r, T, 1, vs);
  }

  /** One turn of ArrayOfScalars: slot i gets a new node holding xs[i]. */
  method ScalarSlot(xs: seq<Scalar>, r: Node, i: nat, ghost U: set<Node>) returns (ghost U': set<Node>)
    requires forall j :: 0 <= j < |xs| ==> ValidScalar(xs[j])
    requires i < |r.items| == |xs| && r.kind == ArrayType && r !in U
    requires SlotsDenote(r.items, U, 1, ScalarSlots(xs), i)
    modifies r
    ensures |r.items| == |xs| && r.kind == ArrayType
    ensures U <= U' && fresh(U' - U) && r !in U'
    ensures SlotsDenote(r.items, U', 1, ScalarSlots(xs), i + 1)
  {
    ghost var vs := ScalarSlots(xs);
    var item := NewScalar(xs[i]);
    U' := U + {item};
    HoldsValue(item, xs[i], U', 0);
    SlotsDenoteGrow(r.items, U, U', 1, vs, i);
    ghost var before := r.items;
    var _ := r.SetAt(i, item);
    SlotsDenoteStep(before, U', 1, vs, i, item, r.items);
  }

  /** The node a key_value_pair constructor makes for its value. */
  method NewItem(p: Item) returns (n: Node, ghost T: set<Node>)
    requires ValidItem(p)
    ensures fresh(T) && n in T
    ensures Within(n, T, 1) && ValueOf(n, T, 1) == ItemValue(p)
  {
    if p.NullItem? {
      n := new Node.NullNode();
      T := {n};
    } else if p.ScalarItem? {
      n := NewScalar(p.x);
      T := {n};
      HoldsValue(n, p.x, T, 1);
    } else {
      n, T := ArrayOfScalars(p.xs);
    }
  }

  /** Putting a child that denotes o under key k. */
  lemma EntriesDenotePut(m: map<Text, Node?>, U: set<Node>, d: nat, vm: map<Text, Option<Value>>, k: Text, c: Node?, o: Option<Value>)
    requires EntriesDenote(m, U, d, vm) && SlotDenotes(c, U, d, o)
    ensures EntriesDenote(m[k := c], U, d, vm[k := o])
  {
  }

  /** The initializer-list constructor's loop: set_value(key, value) for each pair in order. */
  method ObjectOfPairs(ps: seq<(Text, Item)>) returns (obj: Node, ghost T: set<Node>)
    requires forall i :: 0 <= i < |ps| ==> ValidItem(ps[i].1)
    ensures fresh(T) && obj in T
    ensures Within(obj, T, 2) && ValueOf(obj, T, 2) == Obj(PairMap(ps))
  {
    obj := new Node.ObjectNode();
    ghost var U: set<Node> := {};
    var i := 0;
    while i < |ps|
      invariant 0 <= i <= |ps| && obj.kind == ObjectType
      invariant fresh(U) && obj !in U
      invariant obj.entries.Keys == PairMap(ps[..i]).Keys
      invariant EntriesDenote(obj.entries, U, 2, PairMap(ps[..i]))
    {
      var n, Tn := NewItem(ps[i].1);
      ghost var U' := U + Tn;
      WithinGrow(n, Tn, U', 1);
      EntriesDenoteGrow(obj.entries, U, U', 2, PairMap(ps[..i]));
      EntriesDenotePut(obj.entries, U', 2, PairMap(ps[..i]), ps[i].0, n, Some(ItemValue(ps[i].1)));
      assert ps[..i + 1][..i] == ps[..i];
      obj.SetValue(ps[i].0, n);
      U := U';
      i := i + 1;
    }
    assert ps[..|ps|] == ps;
    T := U + {obj};
    EntriesDenoteGrow(obj.entries, U, T, 2, PairMap(ps));
    ObjectDenotes(obj, T, 2, PairMap(ps));
  }

  // ---------------------------------------------------------------------------
  // The iterator

  /**
   * json_iterator: the handle it hands out, the node it walks and the
   * position in that node's slots.
   */
  class JsonIterator {
    /** _js_obj */
    var js: Json?
    /** _value */
    var value: Node?
    /** _iter, as a position in value's slots */
    var iter: nat

    /** The handle and the node are reset together. */
    ghost predicate Valid()
      reads this
    {
      js == null <==> value == null
    }

    constructor ()
      ensures Valid() && AtEnd() && iter == 0
    {
      js := null;
      value := null;
      iter := 0;
    }

    /** json_iterator(const json_iterator&): the same handle, node and position. */
    constructor Share(other: JsonIterator)
      ensures js == other.js && value == other.value && iter == other.iter
    {
      js := other.js;
      value := other.value;
      iter := other.iter;
    }

    /** The end iterator. */
    ghost predicate AtEnd()
      reads this
    {
      js == null && value == null
    }

    /** At slot i of array a, handing out a location on that slot. */
    ghost predicate AtItem(a: Node, i: nat)
      reads this, js
    {
      value == a && a.kind == ArrayType && iter == i &&
      js != null && js.Valid() && js.depth == 1 && js.data == a && js.index == Some(i)
    }

    /** On a node that is not an array, handing out a root on it. */
    ghost predicate OnSingle(n: Node)
      reads this, js
    {
      value == n && n.kind != ArrayType && iter == 0 &&
      js != null && js.Valid() && js.depth == 0 && js.data == n
    }

    /** operator* and operator->: the handle, which the end iterator does not have. */
    method Deref() returns (r: Result<Json>)
      ensures r.Ok? <==> js != null
      ensures r.Ok? ==> r.value == js
      ensures r.Err? ==> r.error == InvalidIterator
    {
      if js != null {
        return Ok(js);
      }
      r := Err(InvalidIterator);
    }

    /**
     * equal(rhs).  On arrays `_iter` points into the node's own vector, so
     * iterators on two different array nodes never compare equal; on a single
     * value both hold the default vector iterator.
     */
    method Equal(rhs: JsonIterator) returns (b: bool)
      requires Valid() && rhs.Valid()
      ensures b <==> (this == rhs || (js == null && rhs.js == null) ||
        (js != null && rhs.js != null && value.kind == rhs.value.kind &&
         (value.kind == ArrayType ==> value == rhs.value) && iter == rhs.iter))
    {
      if this == rhs {
        return true;
      }
      if js == null && rhs.js == null {
        return true;
      }
      if js == null || rhs.js == null {
        return false;
      }
      if value.kind != rhs.value.kind {
        return false;
      }
      if value.kind == ArrayType && value != rhs.value {
        return false;
      }
      b := iter == rhs.iter;
    }

    /** operator!=: the negation of equal(rhs). */
    method NotEqual(rhs: JsonIterator) returns (b: bool)
      requires Valid() && rhs.Valid()
      ensures !b <==> (this == rhs || (js == null && rhs.js == null) ||
        (js != null && rhs.js != null && value.kind == rhs.value.kind &&
         (value.kind == ArrayType ==> value == rhs.value) && iter == rhs.iter))
    {
      var e := Equal(rhs);
      b := !e;
    }

    /**
     * increment(): on an array, the next slot while it is not the end
     * (moving the handed-out location along with it); otherwise, or at the
     * last slot, the end iterator.
     */
    method Increment() returns (failure: Option<Error>)
      requires value != null && value.kind == ArrayType && js != null ==> js.index.Some?
      modifies this, js
      ensures failure.Some? <==> old(js) == null || old(value) == null
      ensures failure.Some? ==> failure.value == InvalidIterator && js == old(js) && value == old(value) && iter == old(iter)
      ensures failure.None? && old(value).kind == ArrayType && old(iter) + 1 != |old(value).items| ==>
        js == old(js) && value == old(value) && iter == old(iter) + 1 &&
        js.index == Some(old(js.index).value + 1) &&
        js.depth == old(js.depth) && js.data == old(js.data) && js.key == old(js.key)
      ensures failure.None? && (old(value).kind != ArrayType || old(iter) + 1 == |old(value).items|) ==>
        AtEnd() && iter == (if old(value).kind == ArrayType then old(iter) + 1 else old(iter)) &&
        old(js).index == old(js.index)
      ensures old(js) != null ==> old(js).depth == old(js.depth) && old(js).key == old(js.key) && old(js).data == old(js.data)
    {
      if js == null || value == null {
        return Some(InvalidIterator);
      }
      if value.kind == ArrayType {
        iter := iter + 1;
        if iter != |value.items| {
          js.index := Some(js.index.value + 1);
          return None;
        }
      }
      js := null;
      value := null;
      failure := None;
    }
  }

  /** operator++(int): a copy of the iterator as it was, then increment(). */
  method PostIncrement(it: JsonIterator) returns (tmp: JsonIterator, failure: Option<Error>)
    requires it.value != null && it.value.kind == ArrayType && it.js != null ==> it.js.index.Some?
    modifies it, it.js
    ensures fresh(tmp) && tmp.js == old(it.js) && tmp.value == old(it.value) && tmp.iter == old(it.iter)
    ensures failure.Some? <==> old(it.js) == null || old(it.value) == null
    ensures failure.Some? ==> failure.value == InvalidIterator && it.js == old(it.js) && it.value == old(it.value) && it.iter == old(it.iter)
    ensures failure.None? && old(it.value).kind == ArrayType && old(it.iter) + 1 != |old(it.value).items| ==>
      it.js == old(it.js) && it.value == old(it.value) && it.iter == old(it.iter) + 1 &&
      it.js.index == Some(old(it.js.index).value + 1) && tmp.js.index == it.js.index &&
      it.js.depth == old(it.js.depth) && it.js.data == old(it.js.data) && it.js.key == old(it.js.key)
    ensures failure.None? && (old(it.value).kind != ArrayType || old(it.iter) + 1 == |old(it.value).items|) ==>
      it.AtEnd() && it.iter == (if old(it.value).kind == ArrayType then old(it.iter) + 1 else old(it.iter)) &&
      tmp.js.index == old(it.js.index)
    ensures old(it.js) != null ==> tmp.js.depth == old(it.js.depth) && tmp.js.key == old(it.js.key) && tmp.js.data == old(it.js.data)
  {
    tmp := new JsonIterator.Share(it);
    failure := it.Increment();
  }
}
