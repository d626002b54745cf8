/** The map-entry iterator of src/iter/map_iter.go: a slice iterator over
    the key/value pairs of a Go map, taken in the map's iteration order. Go
    leaves that order unspecified, so it is a parameter: any sequence that
    lists every key exactly once. */
module MapEntryIterator {
  import opened IterProtocol
  import opened Seqs
  import SliceIterator

  datatype MapEntry<K, V> = MapEntry(key: K, val: V)

  /** The source map `m` is kept but never read again. */
  datatype MapIter<K, V> = MapIter(m: map<K, V>, iter: SliceIterator.SliceIter<MapEntry<K, V>>)

  /** The entries of `m` in the iteration order `order`. */
  function Entries<K, V>(m: map<K, V>, order: seq<K>): (es: seq<MapEntry<K, V>>)
    requires Enumerates(order, m.Keys)
    ensures |es| == |m|
  {
    seq(|order|, i requires 0 <= i < |order| => MapEntry(order[i], m[order[i]]))
  }

  predicate DistinctKeys<K(==), V>(es: seq<MapEntry<K, V>>)
  {
    forall i, j :: 0 <= i < j < |es| ==> es[i].key != es[j].key
  }

  /** FromMap collects the entries of `m` in iteration order into a fresh
      slice iterator. */
  function FromMap<K(==), V>(m: map<K, V>, order: seq<K>): (it: MapIter<K, V>)
    requires Enumerates(order, m.Keys)
    ensures it.m == m && it.iter == SliceIterator.FromSlice(Entries(m, order))
    ensures Size(it) == |m| && (HasNext(it) <==> |m| > 0)
    ensures DistinctKeys(it.iter.slice)
    ensures forall e :: e in it.iter.slice ==> e.key in m && m[e.key] == e.val
    ensures forall k :: k in m ==> MapEntry(k, m[k]) in it.iter.slice
  {
    var es := Entries(m, order);
    forall k | k in m
      ensures MapEntry(k, m[k]) in es
    {
      var i := IndexOf(order, k);
      assert es[i] == MapEntry(k, m[k]);
    }
    MapIter(m, SliceIterator.FromSlice(es))
  }

  predicate HasNext<K, V>(it: MapIter<K, V>)
  {
    SliceIterator.HasNext(it.iter)
  }

  function Next<K, V>(it: MapIter<K, V>, zero: MapEntry<K, V>): (r: Step<MapEntry<K, V>, MapIter<K, V>>)
    ensures HasNext(it) ==>
      r.value == it.iter.slice[0] && r.state == it.(iter := SliceIterator.Next(it.iter, zero).state)
    ensures !HasNext(it) ==> r == Step(zero, it)
  {
    var n := SliceIterator.Next(it.iter, zero);
    Step(n.value, it.(iter := n.state))
  }

  function Count<K, V>(it: MapIter<K, V>): (r: Step<int, MapIter<K, V>>)
    ensures r.value == |it.iter.slice| && !HasNext(r.state) && r.state.m == it.m
  {
    var c := SliceIterator.Count(it.iter);
    Step(c.value, it.(iter := c.state))
  }

  function Size<K, V>(it: MapIter<K, V>): int
  {
    SliceIterator.Size(it.iter)
  }

  /** Storing one entry, a later entry overwriting an earlier one. */
  function Put<K, V>(acc: map<K, V>, e: MapEntry<K, V>): map<K, V>
  {
    acc[e.key := e.val]
  }

  function ToMapLoop<K, V>(es: seq<MapEntry<K, V>>, out: map<K, V>): (r: map<K, V>)
    ensures r == FoldL(Put, out, es)
    decreases |es|
  {
    if |es| == 0 then out
    else
      assert es == [es[0]] + es[1..];
      FoldLCons(Put, out, es[0], es[1..]);
      ToMapLoop(es[1..], Put(out, es[0]))
  }

  /** ToMap drains the remaining entries into a new map. The iterator ends
      exhausted; its source map is left as it was. */
  function ToMap<K, V>(it: MapIter<K, V>): (r: Step<map<K, V>, MapIter<K, V>>)
    ensures r.value == FoldL(Put, map[], it.iter.slice)
    ensures r.state == it.(iter := SliceIterator.Exhausted(it.iter))
  {
    Step(ToMapLoop(it.iter.slice, map[]), it.(iter := SliceIterator.Exhausted(it.iter)))
  }

  /** Folding entries with distinct keys builds the map with exactly those
      keys, each bound to its entry's value. */
  lemma {:induction false} CollectedEntries<K, V>(es: seq<MapEntry<K, V>>)
    requires DistinctKeys(es)
    ensures var r := FoldL(Put, map[], es);
      && (forall k :: k in r <==> exists i :: 0 <= i < |es| && es[i].key == k)
      && (forall i :: 0 <= i < |es| ==> r[es[i].key] == es[i].val)
    decreases |es|
  {
    if |es| > 0 {
      var init := es[..|es| - 1];
      assert DistinctKeys(init) by {
        forall i, j | 0 <= i < j < |init|
          ensures init[i].key != init[j].key
        {
          assert init[i] == es[i] && init[j] == es[j];
        }
      }
      CollectedEntries(init);
      var last := es[|es| - 1];
      var r0 := FoldL(Put, map[], init);
      var r := FoldL(Put, map[], es);
      assert r == r0[last.key := last.val];
      forall k
        ensures k in r <==> exists i :: 0 <= i < |es| && es[i].key == k
      {
        if k in r && k != last.key {
          assert k in r0;
          var i :| 0 <= i < |init| && init[i].key == k;
          assert es[i].key == k;
        }
        if k !in r {
          forall i | 0 <= i < |es|
            ensures es[i].key != k
          {
            if i < |es| - 1 {
              assert init[i] == es[i];
            }
          }
        }
      }
      forall i | 0 <= i < |es| - 1
        ensures r[es[i].key] == es[i].val
      {
        assert init[i] == es[i];
        assert es[i].key != last.key;
      }
    }
  }

  /** Draining a fresh iterator gives back the map it was built from. */
  lemma ToMapRoundTrip<K, V>(m: map<K, V>, order: seq<K>)
    requires Enumerates(order, m.Keys)
    ensures ToMap(FromMap(m, order)).value == m
  {
    var es := Entries(m, order);
    assert FromMap(m, order).iter.slice == es;
    CollectedEntries(es);
    EntriesDetermineMap(m, order, FoldL(Put, map[], es));
  }

  /** A map holding exactly the keys of `Entries(m, order)`, each bound to
      its entry's value, is `m`. */
  lemma EntriesDetermineMap<K, V>(m: map<K, V>, order: seq<K>, r: map<K, V>)
    requires Enumerates(order, m.Keys)
    requires forall k :: k in r <==> exists i :: 0 <= i < |order| && Entries(m, order)[i].key == k
    requires forall i :: 0 <= i < |order| ==> r[Entries(m, order)[i].key] == Entries(m, order)[i].val
    ensures r == m
  {
    var es := Entries(m, order);
    forall k | k in m
      ensures k in r && r[k] == m[k]
    {
      var i := IndexOf(order, k);
      assert es[i] == MapEntry(k, m[k]);
    }
    forall k | k in r
      ensures k in m
    {
      var i :| 0 <= i < |es| && es[i].key == k;
      assert es[i].key == order[i];
    }
  }

  /** Dropping the first of a run of distinct-key entries drops its key
      from the collected map and nothing else. */
  lemma {:induction false} CollectedTail<K, V>(es: seq<MapEntry<K, V>>)
    requires DistinctKeys(es) && |es| > 0
    ensures FoldL(Put, map[], es[1..]) == FoldL(Put, map[], es) - {es[0].key}
    decreases |es|
  {
    if |es| == 1 {
      assert es[..0] == [] && es[1..] == [];
    } else {
      var init := es[..|es| - 1];
      var last := es[|es| - 1];
      assert DistinctKeys(init) by {
        forall i, j | 0 <= i < j < |init|
          ensures init[i].key != init[j].key
        {
          assert init[i] == es[i] && init[j] == es[j];
        }
      }
      CollectedTail(init);
      assert es[1..][..|es| - 2] == init[1..];
      assert es[1..][|es| - 2] == last;
      assert last.key != es[0].key;
      var a := FoldL(Put, map[], init);
      assert FoldL(Put, map[], es[1..]) == (a - {es[0].key})[last.key := last.val];
      assert FoldL(Put, map[], es) == a[last.key := last.val];
    }
  }

  /** An entry taken by Next is gone from what ToMap returns afterwards, and
      every other key is still there with its value. */
  lemma NextThenToMap<K, V>(m: map<K, V>, order: seq<K>, zero: MapEntry<K, V>)
    requires Enumerates(order, m.Keys) && |m| > 0
    ensures var n := Next(FromMap(m, order), zero);
      && n.value.key in m
      && ToMap(n.state).value == m - {n.value.key}
      && Count(n.state).value == |m| - 1
  {
    var it := FromMap(m, order);
    var es := it.iter.slice;
    assert es[0] in es;
    assert Next(it, zero).state.iter.slice == es[1..];
    ToMapRoundTrip(m, order);
    CollectedTail(es);
  }
}
