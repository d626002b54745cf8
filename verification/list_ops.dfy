/** The extra slice helpers of src/collections/list/slice_ops.go: Flatten,
    FlatMap and Filter. Size, Append, Prepend, Take, Map, Reduce and
    FoldLeft there are the same code as in src/collections/slice_ops.go and
    are modelled once, in SliceOps. */
module ListOps {
  import opened Seqs
  import SliceOps

  /** The elements of every inner slice, inner slices in order. */
  method Flatten<A>(lst: seq<seq<A>>) returns (acc: seq<A>)
    ensures acc == Seqs.Flatten(lst)
  {
    acc := [];
    for i := 0 to |lst|
      invariant acc == Seqs.Flatten(lst[..i])
    {
      var sublist := lst[i];
      ghost var before := acc;
      for j := 0 to |sublist|
        invariant acc == before + sublist[..j]
      {
        acc := acc + [sublist[j]];
      }
      assert sublist[..|sublist|] == sublist;
      assert lst[..i + 1] == lst[..i] + [lst[i]];
      FlattenSnoc(lst[..i], lst[i]);
    }
    assert lst[..|lst|] == lst;
  }

  /** Map, then Flatten. */
  method FlatMap<A, B>(lst: seq<A>, mapper: A -> seq<B>) returns (r: seq<B>)
    ensures r == Seqs.Flatten(MapSeq(mapper, lst))
  {
    var mapped := SliceOps.Map(lst, mapper);
    r := Flatten(mapped);
  }

  /** The elements satisfying `keep` (the predicate), in order. */
  method Filter<A>(lst: seq<A>, keep: A -> bool) returns (acc: seq<A>)
    ensures acc == Seqs.Filter(keep, lst)
    ensures forall x :: x in acc <==> x in lst && keep(x)
  {
    acc := [];
    for i := 0 to |lst|
      invariant acc == Seqs.Filter(keep, lst[..i])
    {
      assert lst[..i + 1] == lst[..i] + [lst[i]];
      FilterAppend(keep, lst[..i], [lst[i]]);
      assert Seqs.Filter(keep, [lst[i]]) == (if keep(lst[i]) then [lst[i]] else []) by {
        assert [lst[i]][1..] == [];
      }
      if keep(lst[i]) {
        acc := acc + [lst[i]];
      }
    }
    assert lst[..|lst|] == lst;
    forall x
      ensures x in acc <==> x in lst && keep(x)
    {
      FilterMembership(keep, lst, x);
    }
  }

  /** An element is in the flattening exactly when some inner slice holds it. */
  lemma {:induction false} FlattenMembership<A>(lst: seq<seq<A>>, x: A)
    ensures x in Seqs.Flatten(lst) <==> exists i :: 0 <= i < |lst| && x in lst[i]
    decreases |lst|
  {
    if |lst| > 0 {
      FlattenMembership(lst[1..], x);
      if x in Seqs.Flatten(lst[1..]) {
        var i :| 0 <= i < |lst[1..]| && x in lst[1..][i];
        assert x in lst[i + 1];
      }
      if exists i :: 0 <= i < |lst| && x in lst[i] {
        var i :| 0 <= i < |lst| && x in lst[i];
        if i > 0 {
          assert x in lst[1..][i - 1];
        }
      }
    }
  }
}
