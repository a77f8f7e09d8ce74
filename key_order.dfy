/**
 * The order in which the model enumerates the keys of an object.
 *
 * `json_object` keeps its entries in a `std::unordered_map`, whose iteration
 * order is unspecified.  The model fixes one order, ascending byte-wise
 * lexicographic order, so that `dump` and `to_cbor` are functions; the
 * properties proved about objects use only that every key is enumerated
 * exactly once.
 */
module KeyOrder {
  import opened Base

  /** Strict byte-wise lexicographic order on strings. */
  predicate LexLess(a: Text, b: Text)
  {
    if |a| == 0 then |b| > 0
    else |b| > 0 && (a[0] < b[0] || (a[0] == b[0] && LexLess(a[1..], b[1..])))
  }

  lemma {:induction false} LexIrreflexive(a: Text)
    ensures !LexLess(a, a)
  {
    if |a| > 0 {
      LexIrreflexive(a[1..]);
    }
  }

  lemma {:induction false} LexTransitive(a: Text, b: Text, c: Text)
    requires LexLess(a, b) && LexLess(b, c)
    ensures LexLess(a, c)
  {
    if |a| > 0 && a[0] == b[0] && b[0] == c[0] {
      LexTransitive(a[1..], b[1..], c[1..]);
    }
  }

  lemma {:induction false} LexTotal(a: Text, b: Text)
    ensures a == b || LexLess(a, b) || LexLess(b, a)
  {
    if |a| > 0 && |b| > 0 && a[0] == b[0] {
      LexTotal(a[1..], b[1..]);
      if a[1..] == b[1..] {
        assert a == [a[0]] + a[1..];
        assert b == [b[0]] + b[1..];
      }
    }
  }

  /** k is the least key of s. */
  predicate IsLeast(k: Text, s: set<Text>)
  {
    k in s && forall k' :: k' in s && k' != k ==> LexLess(k, k')
  }

  lemma {:induction false} LeastExists(s: set<Text>)
    requires s != {}
    ensures exists k :: IsLeast(k, s)
    decreases |s|
  {
    var x :| x in s;
    if s == {x} {
      assert IsLeast(x, s);
    } else {
      var rest := s - {x};
      LeastExists(rest);
      var m :| IsLeast(m, rest);
      LexTotal(m, x);
      if LexLess(m, x) {
        assert IsLeast(m, s);
      } else {
        forall k' | k' in s && k' != x
          ensures LexLess(x, k')
        {
          if k' != m {
            LexTransitive(x, m, k');
          }
        }
        assert IsLeast(x, s);
      }
    }
  }

  lemma LeastUnique(s: set<Text>, a: Text, b: Text)
    requires IsLeast(a, s) && IsLeast(b, s)
    ensures a == b
  {
    if a != b {
      LexIrreflexive(a);
      LexTransitive(a, b, a);
    }
  }

  function Least(s: set<Text>): (k: Text)
    requires s != {}
    ensures IsLeast(k, s)
  {
    LeastExists(s);
    forall a, b | IsLeast(a, s) && IsLeast(b, s)
      ensures a == b
    {
      LeastUnique(s, a, b);
    }
    var k :| IsLeast(k, s);
    k
  }

  /** The keys of s, each exactly once, in ascending order. */
  function SortedKeys(s: set<Text>): (r: seq<Text>)
    ensures |r| == |s|
    ensures forall k :: k in s <==> k in r
    ensures forall i, j :: 0 <= i < j < |r| ==> LexLess(r[i], r[j])
    decreases |s|
  {
    if s == {} then []
    else
      var k := Least(s);
      var rest := SortedKeys(s - {k});
      assert forall j :: 0 <= j < |rest| ==> rest[j] in s - {k};
      [k] + rest
  }

  /** Enumeration order of an object's entries. */
  function KeysInOrder<V>(m: map<Text, V>): (r: seq<Text>)
    ensures |r| == |m|
    ensures forall k :: k in m <==> k in r
  {
    SortedKeys(m.Keys)
  }

  /** The enumeration lists no key twice. */
  lemma KeysDistinct<V>(m: map<Text, V>)
    ensures forall i, j :: 0 <= i < j < |KeysInOrder(m)| ==> KeysInOrder(m)[i] != KeysInOrder(m)[j]
  {
    var r := KeysInOrder(m);
    forall i, j | 0 <= i < j < |r|
      ensures r[i] != r[j]
    {
      LexIrreflexive(r[i]);
    }
  }

  /** The entries of m as (key, value) pairs, in enumeration order. */
  function EntryList<V>(m: map<Text, V>): (r: seq<(Text, V)>)
    ensures |r| == |m|
    ensures forall i :: 0 <= i < |r| ==> r[i].0 in m && r[i].1 == m[r[i].0]
  {
    var keys := KeysInOrder(m);
    seq(|keys|, i requires 0 <= i < |keys| => (keys[i], m[keys[i]]))
  }

  /** The keys of a pair list, in order. */
  function KeysOf<V>(es: seq<(Text, V)>): (r: seq<Text>)
    ensures |r| == |es|
    ensures forall i :: 0 <= i < |es| ==> r[i] == es[i].0
  {
    seq(|es|, i requires 0 <= i < |es| => es[i].0)
  }

  /** Every key of m occurs in its pair list. */
  lemma EntryListKeys<V>(m: map<Text, V>)
    ensures KeysOf(EntryList(m)) == KeysInOrder(m)
    ensures forall k :: k in m <==> k in KeysOf(EntryList(m))
  {
    assert KeysOf(EntryList(m)) == KeysInOrder(m);
  }
}
