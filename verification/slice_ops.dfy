/** The slice helpers of src/collections/slice_ops.go, which
    src/collections/list/slice_ops.go repeats line for line: each builds a
    fresh slice and leaves its input alone. */
module SliceOps {
  import opened Seqs

  function Size<A>(a: seq<A>): (n: nat)
    ensures n == |a|
  {
    |a|
  }

  /** A copy of `a` with `elm` after its last element. */
  method Append<A>(a: seq<A>, elm: A) returns (arr: seq<A>)
    ensures |arr| == |a| + 1 && arr[..|a|] == a && arr[|a|] == elm
  {
    arr := a;
    arr := arr + [elm];
  }

  /** A fresh slice holding `elm` and then the elements of `a`. */
  method Prepend<A>(a: seq<A>, elm: A) returns (arr: seq<A>)
    ensures |arr| == |a| + 1 && arr[0] == elm && arr[1..] == a
  {
    arr := [];
    arr := arr + [elm];
    arr := arr + a;
  }

  /** The first `n` elements, all of them when there are fewer, none for a
      negative `n`. */
  method Take<A>(a: seq<A>, n: int) returns (arr: seq<A>)
    ensures n < 0 ==> arr == []
    ensures 0 <= n <= |a| ==> arr == a[..n]
    ensures n > |a| ==> arr == a
  {
    if n < 0 {
      return [];
    }
    arr := [];
    var i := 0;
    while i < n && i < |a|
      invariant 0 <= i <= |a| && i <= n
      invariant arr == a[..i]
    {
      arr := arr + [a[i]];
      i := i + 1;
    }
    if n > |a| {
      assert a[..i] == a;
    }
  }

  /** The image of every element, in order. */
  method Map<A, B>(lst: seq<A>, mapper: A -> B) returns (acc: seq<B>)
    ensures acc == MapSeq(mapper, lst)
  {
    acc := [];
    for i := 0 to |lst|
      invariant acc == MapSeq(mapper, lst[..i])
    {
      acc := acc + [mapper(lst[i])];
    }
    assert lst[..|lst|] == lst;
  }

  /** Applies `fn` to the accumulator and each element from first to last. */
  method FoldLeft<A, B>(lst: seq<A>, acc0: B, fn: (B, A) -> B) returns (acc: B)
    ensures acc == FoldL(fn, acc0, lst)
  {
    acc := acc0;
    for i := 0 to |lst|
      invariant acc == FoldL(fn, acc0, lst[..i])
    {
      assert lst[..i + 1][..i] == lst[..i];
      acc := fn(acc, lst[i]);
    }
    assert lst[..|lst|] == lst;
  }

  /** FoldLeft from the zero value of the accumulator type. */
  method Reduce<A, B>(lst: seq<A>, reducer: (B, A) -> B, zero: B) returns (acc: B)
    ensures acc == FoldL(reducer, zero, lst)
  {
    acc := FoldLeft(lst, zero, reducer);
  }
}
