/** The slice-backed iterator of src/iter/slice_iter.go. Its state is the
    remaining suffix of the slice, a cached `size` and the number of
    elements consumed so far (`current`). Operations that consume the
    iterator return their result together with the iterator's new state. */
module SliceIterator {
  import opened IterProtocol
  import opened Seqs
  import MapOpIterator

  datatype SliceIter<A> = SliceIter(slice: seq<A>, size: int, current: int)

  /** The cached size is the remaining length. Every operation keeps this
      except Count, which empties the slice and leaves `size` alone. */
  predicate InSync<A>(it: SliceIter<A>)
  {
    it.size == |it.slice|
  }

  function FromSlice<A>(s: seq<A>): (it: SliceIter<A>)
    ensures InSync(it) && it.slice == s && it.current == 0
    ensures HasNext(it) <==> |s| > 0
  {
    SliceIter(s, |s|, 0)
  }

  predicate HasNext<A>(it: SliceIter<A>)
  {
    |it.slice| != 0
  }

  /** Pops the first remaining element; on an exhausted iterator returns the
      zero value and leaves the state alone. */
  function Next<A>(it: SliceIter<A>, zero: A): (r: Step<A, SliceIter<A>>)
    ensures HasNext(it) ==>
      && r.value == it.slice[0]
      && r.state.slice == it.slice[1..]
      && InSync(r.state)
      && r.state.current == it.current + 1
    ensures !HasNext(it) ==> r.value == zero && r.state == it
  {
    if !HasNext(it) then Step(zero, it)
    else Step(it.slice[0], SliceIter(it.slice[1..], |it.slice[1..]|, it.current + 1))
  }

  /** Reports the remaining length and empties the iterator; `size` keeps
      its old value and `current` is set to it. */
  function Count<A>(it: SliceIter<A>): (r: Step<int, SliceIter<A>>)
    ensures r.value == |it.slice| && !HasNext(r.state)
    ensures r.state.size == it.size && r.state.current == it.size
  {
    Step(|it.slice|, SliceIter([], it.size, it.size))
  }

  function Size<A>(it: SliceIter<A>): int
  {
    it.size
  }

  /** A copy of the remaining elements; the iterator is not consumed. */
  function ToSlice<A>(it: SliceIter<A>): seq<A>
  {
    it.slice
  }

  /** The state after `k` successful `Next` calls. */
  function Advance<A>(it: SliceIter<A>, k: nat): SliceIter<A>
    requires k <= |it.slice|
  {
    if k == 0 then it else SliceIter(it.slice[k..], |it.slice| - k, it.current + k)
  }

  /** The state after `Next` has been called until `HasNext` fails. */
  function Exhausted<A>(it: SliceIter<A>): SliceIter<A>
  {
    Advance(it, |it.slice|)
  }

  lemma AdvanceNext<A>(it: SliceIter<A>, zero: A, k: nat)
    requires 0 < k <= |it.slice|
    ensures Advance(Next(it, zero).state, k - 1) == Advance(it, k)
  {
    assert it.slice[1..][k - 1..] == it.slice[k..];
  }

  /** The slice iterator seen through the iterator protocol. */
  function Ops<A>(zero: A): IterOps<SliceIter<A>, A>
  {
    IterOps(it => HasNext(it), it => Next(it, zero), it => Count(it), it => Size(it))
  }

  /** `k` calls of `Next` return the first `k` remaining elements in order,
      `HasNext` holding before each, and leave the rest. */
  lemma {:induction false} NextYieldsInOrder<A>(it: SliceIter<A>, zero: A, k: nat)
    requires k <= |it.slice|
    ensures Available(Ops(zero), it, k)
    ensures Pull(Ops(zero), it, k) == Step(it.slice[..k], Advance(it, k))
    decreases k
  {
    if k > 0 {
      var first := Next(it, zero);
      NextYieldsInOrder(first.state, zero, k - 1);
      AdvanceNext(it, zero, k);
      assert [it.slice[0]] + it.slice[1..][..k - 1] == it.slice[..k];
    }
  }

  /** FromSlice followed by ToSlice gives back the input, and Next keeps the
      cached size in step with the remaining elements. */
  lemma {:induction false} FromSliceRoundTrip<A>(s: seq<A>, zero: A)
    ensures ToSlice(FromSlice(s)) == s && Size(FromSlice(s)) == |s|
    ensures InSync(Next(FromSlice(s), zero).state)
    ensures Pull(Ops(zero), FromSlice(s), |s|).value == s
  {
    NextYieldsInOrder(FromSlice(s), zero, |s|);
    assert s[..|s|] == s;
  }

  /** Count breaks the size invariant on a non-empty iterator: Size still
      reports the old count while nothing is left. */
  lemma CountLeavesSizeStale<A>(s: seq<A>)
    requires |s| > 0
    ensures var c := Count(FromSlice(s));
      c.value == |s| && !HasNext(c.state) && Size(c.state) == |s| && !InSync(c.state)
      && Count(c.state).value == 0
  {
  }

  /** The number of elements Take(n) moves: Take keeps pulling while
      `current - 1 <= n`, so the bound depends on how many elements were
      already consumed. */
  function TakeCount<A>(it: SliceIter<A>, n: int): nat
  {
    if n + 2 - it.current <= 0 then 0 else Min(|it.slice|, n + 2 - it.current)
  }

  function TakeLoop<A>(it: SliceIter<A>, n: int, zero: A, out: seq<A>): (r: Step<seq<A>, SliceIter<A>>)
    ensures TakeCount(it, n) <= |it.slice|
    ensures r.value == out + it.slice[..TakeCount(it, n)]
    ensures r.state == Advance(it, TakeCount(it, n))
    decreases |it.slice|
  {
    if HasNext(it) && it.current - 1 <= n then
      var pulled := Next(it, zero);
      var k := TakeCount(it, n);
      AdvanceNext(it, zero, k);
      assert it.slice[..k] == [it.slice[0]] + it.slice[1..][..k - 1];
      TakeLoop(pulled.state, n, zero, out + [pulled.value])
    else
      Step(out, it)
  }

  /** Take moves the next TakeCount(it, n) elements into a new iterator. */
  function Take<A>(it: SliceIter<A>, n: int, zero: A): (r: Step<SliceIter<A>, SliceIter<A>>)
    ensures TakeCount(it, n) <= |it.slice|
    ensures r.value == FromSlice(it.slice[..TakeCount(it, n)])
    ensures r.state == Advance(it, TakeCount(it, n))
  {
    var t := TakeLoop(it, n, zero, []);
    Step(FromSlice(t.value), t.state)
  }

  /** On a fresh iterator the `current - 1 <= n` bound lets Take(3) move
      five elements. */
  lemma TakeFromFreshMovesTwoMore()
    ensures Take(FromSlice([1, 2, 3, 4, 5, 6, 7, 8, 9]), 3, 0).value == FromSlice([1, 2, 3, 4, 5])
  {
    var s := [1, 2, 3, 4, 5, 6, 7, 8, 9];
    assert TakeCount(FromSlice(s), 3) == 5;
    assert s[..5] == [1, 2, 3, 4, 5];
  }

  /** The number of elements the corrected Take moves once `taken` are
      already out. */
  function TakeFixedCount<A>(it: SliceIter<A>, n: int, taken: nat): nat
  {
    if n - taken <= 0 then 0 else Min(|it.slice|, n - taken)
  }

  /** Take with the bound counted in elements taken rather than in the
      iterator's `current`. */
  function TakeFixedLoop<A>(it: SliceIter<A>, n: int, zero: A, out: seq<A>): (r: Step<seq<A>, SliceIter<A>>)
    ensures TakeFixedCount(it, n, |out|) <= |it.slice|
    ensures r.value == out + it.slice[..TakeFixedCount(it, n, |out|)]
    ensures r.state == Advance(it, TakeFixedCount(it, n, |out|))
    decreases |it.slice|
  {
    if HasNext(it) && |out| < n then
      var pulled := Next(it, zero);
      var k := TakeFixedCount(it, n, |out|);
      AdvanceNext(it, zero, k);
      assert it.slice[..k] == [it.slice[0]] + it.slice[1..][..k - 1];
      TakeFixedLoop(pulled.state, n, zero, out + [pulled.value])
    else
      Step(out, it)
  }

  /** Take as documented: n elements when n is at most what remains, all
      the remaining elements when n is larger, none for a negative n. */
  function TakeFixed<A>(it: SliceIter<A>, n: int, zero: A): (r: Step<SliceIter<A>, SliceIter<A>>)
    ensures n <= 0 ==> r.value == FromSlice([]) && r.state == it
    ensures 0 <= n <= |it.slice| ==> r.value == FromSlice(it.slice[..n])
    ensures n > |it.slice| ==> r.value == FromSlice(it.slice)
    ensures |r.value.slice| <= |it.slice| && r.state == Advance(it, |r.value.slice|)
  {
    var t := TakeFixedLoop(it, n, zero, []);
    assert it.slice[..|it.slice|] == it.slice;
    Step(FromSlice(t.value), t.state)
  }

  function FilterLoop<A>(it: SliceIter<A>, fn: A -> bool, zero: A, out: seq<A>): (r: Step<seq<A>, SliceIter<A>>)
    ensures r.value == out + Seqs.Filter(fn, it.slice)
    ensures r.state == Exhausted(it)
    decreases |it.slice|
  {
    if !HasNext(it) then Step(out, it)
    else
      var pulled := Next(it, zero);
      AdvanceNext(it, zero, |it.slice|);
      FilterLoop(pulled.state, fn, zero, if fn(pulled.value) then out + [pulled.value] else out)
  }

  /** Filter drains the receiver into a new iterator of the matching
      elements, in their original order. */
  function Filter<A>(it: SliceIter<A>, fn: A -> bool, zero: A): (r: Step<SliceIter<A>, SliceIter<A>>)
    ensures r.value == FromSlice(Seqs.Filter(fn, it.slice))
    ensures r.state == Exhausted(it) && !HasNext(r.state)
  {
    var f := FilterLoop(it, fn, zero, []);
    Step(FromSlice(f.value), f.state)
  }

  /** Map wraps the receiver in the lazy adapter; nothing is consumed yet. */
  function Map<A, B>(it: SliceIter<A>, fn: A -> B): (m: MapOpIterator.MapIter<SliceIter<A>, A, B>)
    ensures m.from == it && m.mapFn == fn
  {
    MapOpIterator.Map(it, fn)
  }

  /** Pulling `n` elements through Map(it, fn) yields fn of the first `n`
      remaining elements and advances the wrapped iterator by `n`. */
  lemma MapOverSlice<A, B>(it: SliceIter<A>, fn: A -> B, zeroA: A, zeroB: B, n: nat)
    requires n <= |it.slice|
    ensures Pull(MapOpIterator.Ops(Ops(zeroA), zeroB), Map(it, fn), n)
         == Step(MapSeq(fn, it.slice[..n]), Map(Advance(it, n), fn))
  {
    NextYieldsInOrder(it, zeroA, n);
    MapOpIterator.PullMapped(Ops(zeroA), it, fn, zeroB, n);
  }

  function FoldLoop<A, B>(it: SliceIter<A>, f: (B, A) -> B, acc: B, zero: A): (r: Step<B, SliceIter<A>>)
    ensures r.value == FoldL(f, acc, it.slice)
    ensures r.state == Exhausted(it)
    decreases |it.slice|
  {
    if !HasNext(it) then Step(acc, it)
    else
      var pulled := Next(it, zero);
      AdvanceNext(it, zero, |it.slice|);
      FoldLCons(f, acc, it.slice[0], it.slice[1..]);
      assert it.slice == [it.slice[0]] + it.slice[1..];
      FoldLoop(pulled.state, f, f(acc, pulled.value), zero)
  }

  /** Reduce left-folds the remaining elements starting from the zero value
      and leaves the receiver exhausted. */
  function Reduce<A>(it: SliceIter<A>, f: (A, A) -> A, zero: A): (r: Step<A, SliceIter<A>>)
    ensures r.value == FoldL(f, zero, it.slice)
    ensures r.state == Exhausted(it) && !HasNext(r.state)
  {
    FoldLoop(it, f, zero, zero)
  }

  /** Fold behaves as Reduce. */
  function Fold<A>(it: SliceIter<A>, f: (A, A) -> A, zero: A): (r: Step<A, SliceIter<A>>)
    ensures r.value == FoldL(f, zero, it.slice)
    ensures r.state == Exhausted(it) && !HasNext(r.state)
  {
    Reduce(it, f, zero)
  }

  /** FoldLeft left-folds the remaining elements starting from `seed`. */
  function FoldLeft<A, B>(it: SliceIter<A>, seed: B, f: (B, A) -> B, zero: A): (r: Step<B, SliceIter<A>>)
    ensures r.value == FoldL(f, seed, it.slice)
    ensures r.state == Exhausted(it) && !HasNext(r.state)
  {
    FoldLoop(it, f, seed, zero)
  }

  /** The slice a Go `make([]A, size)` followed by `copy` produces: the
      first `size` remaining elements, padded with zero values. */
  function CopyInto<A>(s: seq<A>, size: nat, zero: A): seq<A>
  {
    seq(size, i requires 0 <= i < size => if i < |s| then s[i] else zero)
  }

  /** Clone copies the remaining elements into a buffer of length `size`,
      keeping `size` and `current`. */
  function Clone<A>(it: SliceIter<A>, zero: A): (c: SliceIter<A>)
    requires it.size >= 0
    ensures c.size == it.size && c.current == it.current && |c.slice| == it.size
    ensures forall i :: 0 <= i < |it.slice| && i < it.size ==> c.slice[i] == it.slice[i]
    ensures forall i :: |it.slice| <= i < it.size ==> c.slice[i] == zero
  {
    SliceIter(CopyInto(it.slice, it.size, zero), it.size, it.current)
  }

  /** On an iterator whose size is in sync, Clone is an exact copy. */
  lemma CloneIsCopy<A>(it: SliceIter<A>, zero: A)
    requires InSync(it)
    ensures Clone(it, zero) == it
  {
    assert Clone(it, zero).slice == it.slice;
  }

  /** After Count the stale size makes Clone yield zero values again. */
  lemma CloneAfterCount<A>(s: seq<A>, zero: A)
    requires |s| > 0
    ensures var c := Clone(Count(FromSlice(s)).state, zero);
      HasNext(c) && c.slice == seq(|s|, i => zero)
  {
  }

  function DropLoop<A>(it: SliceIter<A>, n: int, index: int, zero: A, out: seq<A>): (r: Step<seq<A>, SliceIter<A>>)
    ensures r.value == out + it.slice[Min(if n - index < 0 then 0 else n - index, |it.slice|)..]
    ensures r.state == Exhausted(it)
    decreases |it.slice|
  {
    if !HasNext(it) then Step(out, it)
    else
      var pulled := Next(it, zero);
      AdvanceNext(it, zero, |it.slice|);
      if index >= n then
        assert it.slice[0..] == [it.slice[0]] + it.slice[1..];
        DropLoop(pulled.state, n, index + 1, zero, out + [pulled.value])
      else
        DropLoop(pulled.state, n, index + 1, zero, out)
  }

  /** Drop(n) with n outside [0, size) returns an empty iterator and leaves
      the receiver alone; otherwise it drains the receiver and returns what
      follows the first n elements. */
  function Drop<A>(it: SliceIter<A>, n: int, zero: A): (r: Step<SliceIter<A>, SliceIter<A>>)
    ensures n < 0 || n >= it.size ==> r.value == FromSlice([]) && r.state == it
    ensures 0 <= n < it.size ==>
      && r.value == FromSlice(it.slice[Min(n, |it.slice|)..])
      && r.state == Exhausted(it)
  {
    if n < 0 || n >= it.size then Step(FromSlice([]), it)
    else
      var d := DropLoop(it, n, 0, zero, []);
      Step(FromSlice(d.value), d.state)
  }

  function ContainsLoop<A(==)>(it: SliceIter<A>, elm: A, zero: A): (r: Step<bool, SliceIter<A>>)
    ensures r.value <==> elm in it.slice
    ensures r.value ==> r.state == Advance(it, IndexOf(it.slice, elm) + 1)
    ensures !r.value ==> r.state == Exhausted(it)
    decreases |it.slice|
  {
    if !HasNext(it) then Step(false, it)
    else
      var pulled := Next(it, zero);
      assert it.slice == [it.slice[0]] + it.slice[1..];
      if pulled.value == elm then Step(true, pulled.state)
      else if elm in it.slice then
        AdvanceNext(it, zero, IndexOf(it.slice, elm) + 1);
        ContainsLoop(pulled.state, elm, zero)
      else
        AdvanceNext(it, zero, |it.slice|);
        ContainsLoop(pulled.state, elm, zero)
  }

  /** Contains scans by consuming: it stops right after the first match,
      or exhausts the iterator when there is none. */
  function Contains<A(==)>(it: SliceIter<A>, elm: A, zero: A): (r: Step<bool, SliceIter<A>>)
    ensures r.value <==> elm in it.slice
    ensures r.value ==> r.state == Advance(it, IndexOf(it.slice, elm) + 1)
    ensures !r.value ==> r.state == Exhausted(it)
  {
    ContainsLoop(it, elm, zero)
  }

  /** The bounds under which Slice does not index past the slice. */
  predicate SliceInBounds<A>(it: SliceIter<A>, from: int, until: int)
  {
    || from < 0 || from > it.size || from > until
    || (until <= it.size && until < |it.slice|)
    || (until > it.size && (from >= it.size || it.size <= |it.slice|))
  }

  /** Slice(from, until) copies the elements at positions from..until
      (inclusive) when until <= size, and from..size-1 otherwise; a
      negative or too large `from`, or from > until, gives an empty
      iterator. The receiver is not consumed. */
  function Slice<A>(it: SliceIter<A>, from: int, until: int): (r: SliceIter<A>)
    requires SliceInBounds(it, from, until)
    ensures InSync(r) && r.current == 0
    ensures from < 0 || from > it.size || from > until ==> r.slice == []
    ensures 0 <= from <= until && from <= it.size ==>
      && |r.slice| == (if until <= it.size then until + 1 else it.size) - from
      && forall i :: 0 <= i < |r.slice| ==> r.slice[i] == it.slice[from + i]
  {
    if from > it.size || from < 0 then FromSlice([])
    else if from > until then FromSlice([])
    else if until <= it.size then FromSlice(it.slice[from..until + 1])
    else if from >= it.size then FromSlice([])
    else FromSlice(it.slice[from..it.size])
  }

  /** The scenario of the Take tests: after two Next calls on 1..9 the
      iterator has consumed 2 elements, so Take(3) moves 3, 4, 5 and
      Take(20) moves 3 up to 9. */
  lemma TakeAfterTwoNexts()
    ensures var it := Next(Next(FromSlice([1, 2, 3, 4, 5, 6, 7, 8, 9]), 0).state, 0).state;
      && Take(it, 3, 0).value == FromSlice([3, 4, 5])
      && Take(it, 20, 0).value == FromSlice([3, 4, 5, 6, 7, 8, 9])
  {
    var it := Next(Next(FromSlice([1, 2, 3, 4, 5, 6, 7, 8, 9]), 0).state, 0).state;
    assert it.slice == [3, 4, 5, 6, 7, 8, 9] && it.current == 2;
    assert it.slice[..3] == [3, 4, 5];
    assert it.slice[..7] == it.slice;
  }

  /** Filter, then the lazy Map, over 1..5: pulling through the pipeline
      yields 4 and 8 and then nothing. */
  lemma FilterThenMap()
    ensures var evens := Filter(FromSlice([1, 2, 3, 4, 5]), IsEven, 0).value;
      var m := Map(evens, Double);
      && Pull(MapOpIterator.Ops(Ops(0), 0), m, 2).value == [4, 8]
      && !MapOpIterator.HasNext(Pull(MapOpIterator.Ops(Ops(0), 0), m, 2).state, Ops(0))
  {
    EvensOfOneToFive();
    var evens := Filter(FromSlice([1, 2, 3, 4, 5]), IsEven, 0).value;
    DoublingTwoAndFour(evens);
  }

  lemma DoublingTwoAndFour(evens: SliceIter<int>)
    requires evens.slice == [2, 4]
    ensures var m := Map(evens, Double);
      && Pull(MapOpIterator.Ops(Ops(0), 0), m, 2).value == [4, 8]
      && !MapOpIterator.HasNext(Pull(MapOpIterator.Ops(Ops(0), 0), m, 2).state, Ops(0))
  {
    MapOverSlice(evens, Double, 0, 0, 2);
    assert evens.slice[..2] == [2, 4];
    assert MapSeq(Double, [2, 4]) == [4, 8];
    assert Advance(evens, 2).slice == [];
  }

  lemma EvensOfOneToFive()
    ensures Seqs.Filter(IsEven, [1, 2, 3, 4, 5]) == [2, 4]
  {
    var s := [1, 2, 3, 4, 5];
    assert Seqs.Filter(IsEven, s[4..]) == [];
    assert Seqs.Filter(IsEven, s[3..]) == [4];
    assert Seqs.Filter(IsEven, s[2..]) == [4];
    assert Seqs.Filter(IsEven, s[1..]) == [2, 4];
  }

  function IsEven(x: int): bool
  {
    x % 2 == 0
  }

  function Double(x: int): int
  {
    2 * x
  }
}
