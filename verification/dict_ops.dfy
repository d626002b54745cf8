/** The map helpers of src/collections/dict/map_ops.go. A `Dict` is a Go
    map. Loops over a Go map visit its entries in an unspecified order; the
    model takes that order as a parameter `order` listing every key once,
    and every result that does not depend on it is stated for all orders. */
module DictOps {
  import opened Seqs

  type Dict<K, V> = map<K, V>

  /** The (key, value) pairs a `range` loop over `dict` visits, in `order`:
      every binding of the map exactly once, and nothing else. */
  function Bindings<K, V>(dict: Dict<K, V>, order: seq<K>): (bs: seq<(K, V)>)
    requires Enumerates(order, dict.Keys)
    ensures |bs| == |dict|
    ensures forall k :: k in dict ==> (k, dict[k]) in bs
    ensures forall p :: p in bs ==> p.0 in dict && dict[p.0] == p.1
    ensures forall i, j :: 0 <= i < j < |bs| ==> bs[i].0 != bs[j].0
  {
    var bs := seq(|order|, i requires 0 <= i < |order| => (order[i], dict[order[i]]));
    assert forall k :: k in dict ==> (k, dict[k]) in bs by {
      forall k | k in dict
        ensures (k, dict[k]) in bs
      {
        var i :| 0 <= i < |order| && order[i] == k;
        assert bs[i] == (k, dict[k]);
      }
    }
    bs
  }

  function NewDict<K, V>(): (d: Dict<K, V>)
    ensures |d| == 0
  {
    map[]
  }

  function Size<K, V>(dict: Dict<K, V>): (n: nat)
    ensures n == |dict.Keys|
  {
    |dict|
  }

  predicate Contains<K, V>(dict: Dict<K, V>, key: K)
  {
    key in dict
  }

  /** Add stores the binding in the receiver and returns it. */
  function Add<K, V>(dict: Dict<K, V>, key: K, value: V): (r: Dict<K, V>)
    ensures r.Keys == dict.Keys + {key} && r[key] == value
    ensures forall k :: k in dict && k != key ==> r[k] == dict[k]
  {
    dict[key := value]
  }

  /** Remove deletes the key if present and returns the receiver. */
  function Remove<K, V>(dict: Dict<K, V>, key: K): (r: Dict<K, V>)
    ensures r.Keys == dict.Keys - {key}
    ensures forall k :: k in r ==> r[k] == dict[k]
  {
    if Contains(dict, key) then dict - {key} else dict
  }

  /** Adding a key and then removing it gives back a map without that key;
      removing an absent key changes nothing. */
  lemma AddRemove<K, V>(dict: Dict<K, V>, key: K, value: V)
    ensures Remove(Add(dict, key, value), key) == dict - {key}
    ensures key !in dict ==> Remove(Add(dict, key, value), key) == dict && Remove(dict, key) == dict
  {
  }

  /** A three-argument folding function as one over (key, value) pairs. */
  function Lift<K, V, C>(fn: (C, K, V) -> C): (C, (K, V)) -> C
  {
    (a: C, b: (K, V)) => fn(a, b.0, b.1)
  }

  /** FoldLeft threads the accumulator through every binding in iteration
      order. */
  method FoldLeft<K, V, C>(dict: Dict<K, V>, order: seq<K>, acc0: C, fn: (C, K, V) -> C) returns (acc: C)
    requires Enumerates(order, dict.Keys)
    ensures acc == FoldL(Lift(fn), acc0, Bindings(dict, order))
  {
    var bs := Bindings(dict, order);
    var f := Lift(fn);
    acc := acc0;
    for i := 0 to |order|
      invariant acc == FoldL(f, acc0, bs[..i])
    {
      assert bs[..i + 1][..i] == bs[..i];
      acc := fn(acc, order[i], dict[order[i]]);
    }
    assert bs[..|order|] == bs;
  }

  lemma CollectStep<X, B>(f: (seq<X>, B) -> seq<X>, pick: B -> X, a: seq<X>, b: B)
    requires forall acc: seq<X>, b: B :: f(acc, b) == acc + [pick(b)]
    ensures f(a, b) == a + [pick(b)]
  {
  }

  /** Folding with an accumulator that only ever appends `pick(b)` collects
      the picked values in order. */
  lemma {:induction false} FoldCollects<X, B>(f: (seq<X>, B) -> seq<X>, pick: B -> X, init: seq<X>, bs: seq<B>)
    requires forall acc: seq<X>, b: B :: f(acc, b) == acc + [pick(b)]
    ensures FoldL(f, init, bs) == init + MapSeq(pick, bs)
    decreases |bs|
  {
    if |bs| > 0 {
      var prefix := bs[..|bs| - 1];
      var last := bs[|bs| - 1];
      FoldCollects(f, pick, init, prefix);
      var a := FoldL(f, init, prefix);
      assert FoldL(f, init, bs) == f(a, last);
      CollectStep(f, pick, a, last);
      assert MapSeq(pick, bs) == MapSeq(pick, prefix) + [pick(last)];
    }
  }

  /** Keys collects the keys through FoldLeft: exactly the keys, each once. */
  method Keys<K, V>(dict: Dict<K, V>, order: seq<K>) returns (keys: seq<K>)
    requires Enumerates(order, dict.Keys)
    ensures keys == order
    ensures |keys| == |dict| && (forall k :: k in keys <==> k in dict)
  {
    var append := (acc: seq<K>, key: K, _: V) => acc + [key];
    keys := FoldLeft(dict, order, [], append);
    var bs := Bindings(dict, order);
    FoldCollects(Lift(append), (b: (K, V)) => b.0, [], bs);
    assert MapSeq((b: (K, V)) => b.0, bs) == order;
  }

  /** Values collects the values through FoldLeft, one per key, in the
      order of its own loop (which need not be the order Keys saw). */
  method Values<K, V>(dict: Dict<K, V>, order: seq<K>) returns (values: seq<V>)
    requires Enumerates(order, dict.Keys)
    ensures |values| == |order| && forall i :: 0 <= i < |order| ==> values[i] == dict[order[i]]
  {
    var append := (acc: seq<V>, _: K, value: V) => acc + [value];
    values := FoldLeft(dict, order, [], append);
    var bs := Bindings(dict, order);
    FoldCollects(Lift(append), (b: (K, V)) => b.1, [], bs);
  }

  lemma {:induction false} FoldCollectsPairs<K, V>(f: ((seq<K>, seq<V>), (K, V)) -> (seq<K>, seq<V>), init: (seq<K>, seq<V>), bs: seq<(K, V)>)
    requires forall acc, b :: f(acc, b) == (acc.0 + [b.0], acc.1 + [b.1])
    ensures var r := FoldL(f, init, bs);
      && r.0 == init.0 + MapSeq((b: (K, V)) => b.0, bs)
      && r.1 == init.1 + MapSeq((b: (K, V)) => b.1, bs)
    decreases |bs|
  {
    if |bs| > 0 {
      var prefix := bs[..|bs| - 1];
      var last := bs[|bs| - 1];
      FoldCollectsPairs(f, init, prefix);
      assert FoldL(f, init, bs) == f(FoldL(f, init, prefix), last);
      assert MapSeq((b: (K, V)) => b.0, bs) == MapSeq((b: (K, V)) => b.0, bs[..|bs| - 1]) + [last.0];
      assert MapSeq((b: (K, V)) => b.1, bs) == MapSeq((b: (K, V)) => b.1, bs[..|bs| - 1]) + [last.1];
    }
  }

  /** KeysValues collects both lists in one fold: position i of the values
      is the value of key i. */
  method KeysValues<K, V>(dict: Dict<K, V>, order: seq<K>) returns (keys: seq<K>, values: seq<V>)
    requires Enumerates(order, dict.Keys)
    ensures keys == order
    ensures |values| == |keys| && forall i :: 0 <= i < |keys| ==> values[i] == dict[keys[i]]
  {
    var step := (acc: (seq<K>, seq<V>), key: K, value: V) => (acc.0 + [key], acc.1 + [value]);
    var acc := FoldLeft(dict, order, ([], []), step);
    var bs := Bindings(dict, order);
    FoldCollectsPairs(Lift(step), ([], []), bs);
    ProjectBindings(dict, order, bs);
    keys, values := acc.0, acc.1;
  }

  /** Pairs that follow `order` project back to the order and to the
      values of its keys. */
  lemma ProjectBindings<K, V>(dict: Dict<K, V>, order: seq<K>, bs: seq<(K, V)>)
    requires |bs| == |order|
    requires forall i :: 0 <= i < |order| ==> order[i] in dict && bs[i] == (order[i], dict[order[i]])
    ensures MapSeq((b: (K, V)) => b.0, bs) == order
    ensures forall i :: 0 <= i < |order| ==> MapSeq((b: (K, V)) => b.1, bs)[i] == dict[order[i]]
  {
  }

  /** The keys visited by the first `i` iterations of a `range` loop. */
  function Prefix<K>(order: seq<K>, i: nat): set<K>
    requires i <= |order|
  {
    if i == 0 then {} else Prefix(order, i - 1) + {order[i - 1]}
  }

  lemma {:induction false} PrefixMembers<K>(order: seq<K>, i: nat, k: K)
    requires i <= |order|
    ensures k in Prefix(order, i) <==> k in order[..i]
  {
    if i > 0 {
      PrefixMembers(order, i - 1, k);
      assert order[..i] == order[..i - 1] + [order[i - 1]];
    }
  }

  /** After the whole loop every key has been visited. */
  lemma PrefixAll<K>(order: seq<K>, keys: set<K>)
    requires Enumerates(order, keys)
    ensures Prefix(order, |order|) == keys
  {
    var visited := Prefix(order, |order|);
    assert order[..|order|] == order;
    forall k | k in keys
      ensures k in visited
    {
      PrefixMembers(order, |order|, k);
    }
    forall k | k in visited
      ensures k in keys
    {
      PrefixMembers(order, |order|, k);
      var i :| 0 <= i < |order| && order[i] == k;
    }
  }

  /** `r` is `into` with the bindings of `src` for the keys in `visited`
      copied over it. */
  ghost predicate Copied<K, V>(into: Dict<K, V>, src: Dict<K, V>, visited: set<K>, r: Dict<K, V>)
  {
    && visited <= src.Keys
    && r.Keys == into.Keys + visited
    && (forall k :: k in visited ==> r[k] == src[k])
    && (forall k :: k in into && k !in visited ==> r[k] == into[k])
  }

  lemma CopyStep<K, V>(into: Dict<K, V>, src: Dict<K, V>, visited: set<K>, r: Dict<K, V>, key: K)
    requires Copied(into, src, visited, r) && key in src
    ensures Copied(into, src, visited + {key}, r[key := src[key]])
  {
  }

  /** One `for key, value := range src { into[key] = value }` loop. */
  method CopyAll<K, V>(into: Dict<K, V>, src: Dict<K, V>, order: seq<K>) returns (r: Dict<K, V>)
    requires Enumerates(order, src.Keys)
    ensures r.Keys == into.Keys + src.Keys
    ensures forall k :: k in src ==> r[k] == src[k]
    ensures forall k :: k in into && k !in src ==> r[k] == into[k]
  {
    r := into;
    for i := 0 to |order|
      invariant Copied(into, src, Prefix(order, i), r)
    {
      var key := order[i];
      CopyStep(into, src, Prefix(order, i), r, key);
      r := r[key := src[key]];
    }
    PrefixAll(order, src.Keys);
  }

  /** Clone copies every binding into a fresh map. */
  method Clone<K, V>(dict: Dict<K, V>, order: seq<K>) returns (cloned: Dict<K, V>)
    requires Enumerates(order, dict.Keys)
    ensures cloned == dict
  {
    cloned := CopyAll(map[], dict, order);
  }

  /** Concat returns the receiver when the other map is empty, the other
      map when the receiver is empty, and otherwise a fresh map with both
      maps' bindings, the other map's winning on a shared key. */
  method Concat<K, V>(dict: Dict<K, V>, other: Dict<K, V>, dictOrder: seq<K>, otherOrder: seq<K>)
    returns (merged: Dict<K, V>)
    requires Enumerates(dictOrder, dict.Keys) && Enumerates(otherOrder, other.Keys)
    ensures merged == dict + other
  {
    if |other| == 0 {
      return dict;
    }
    if |dict| == 0 {
      return other;
    }
    merged := CopyAll(map[], dict, dictOrder);
    merged := CopyAll(merged, other, otherOrder);
  }

  /** Map builds a fresh map with the same keys and `fn(key, value)` as the
      value of each. */
  method Map<K, V, C>(dict: Dict<K, V>, order: seq<K>, fn: (K, V) -> C) returns (acc: Dict<K, C>)
    requires Enumerates(order, dict.Keys)
    ensures acc.Keys == dict.Keys
    ensures forall k :: k in acc ==> acc[k] == fn(k, dict[k])
  {
    acc := NewDict();
    for i := 0 to |order|
      invariant forall k :: k in acc <==> k in order[..i]
      invariant forall k :: k in acc ==> k in dict && acc[k] == fn(k, dict[k])
    {
      assert order[..i + 1] == order[..i] + [order[i]];
      acc := acc[order[i] := fn(order[i], dict[order[i]])];
    }
    assert order[..|order|] == order;
  }
}
