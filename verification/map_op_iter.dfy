/** The lazy `Map` adapter of src/iter/map_op_iter.go: it owns a source
    iterator and a function, and applies the function to one source element
    per `Next`. */
module MapOpIterator {
  import opened IterProtocol
  import opened Seqs

  /** `mapIter`: the source iterator's state and the mapping function. */
  datatype MapIter<S, !A, B> = MapIter(from: S, mapFn: A -> B)

  /** Map stores the source and the function; it pulls nothing. */
  function Map<S, A, B>(source: S, fn: A -> B): (it: MapIter<S, A, B>)
    ensures it.from == source && it.mapFn == fn
  {
    MapIter(source, fn)
  }

  predicate HasNext<S, A, B>(it: MapIter<S, A, B>, ops: IterOps<S, A>)
  {
    ops.hasNext(it.from)
  }

  /** Pulls one source element and maps it, or returns the zero value of B
      without touching the source. */
  function Next<S, A, B>(it: MapIter<S, A, B>, ops: IterOps<S, A>, zero: B): (r: Step<B, MapIter<S, A, B>>)
    ensures ops.hasNext(it.from) ==>
      && r.value == it.mapFn(ops.next(it.from).value)
      && r.state == MapIter(ops.next(it.from).state, it.mapFn)
    ensures !ops.hasNext(it.from) ==> r.value == zero && r.state == it
  {
    if !ops.hasNext(it.from) then Step(zero, it)
    else
      var pulled := ops.next(it.from);
      Step(it.mapFn(pulled.value), MapIter(pulled.state, it.mapFn))
  }

  /** Count is the source's Count: it drains the source. */
  function Count<S, A, B>(it: MapIter<S, A, B>, ops: IterOps<S, A>): (r: Step<int, MapIter<S, A, B>>)
    requires ops.count.requires(it.from)
    ensures r.value == ops.count(it.from).value
    ensures r.state == MapIter(ops.count(it.from).state, it.mapFn)
  {
    var c := ops.count(it.from);
    Step(c.value, MapIter(c.state, it.mapFn))
  }

  function Size<S, A, B>(it: MapIter<S, A, B>, ops: IterOps<S, A>): (n: int)
    ensures n == ops.size(it.from)
  {
    ops.size(it.from)
  }

  /** The adapter seen through the iterator protocol. */
  function Ops<S, A, B>(ops: IterOps<S, A>, zero: B): IterOps<MapIter<S, A, B>, B>
  {
    IterOps(
      it => HasNext(it, ops),
      it => Next(it, ops, zero),
      (it: MapIter<S, A, B>) requires ops.count.requires(it.from) => Count(it, ops),
      it => Size(it, ops))
  }

  /** Pulling `n` elements through the adapter pulls exactly `n` elements
      from the source and maps each of them, in order. */
  lemma {:induction false} PullMapped<S, A, B>(ops: IterOps<S, A>, source: S, fn: A -> B, zero: B, n: nat)
    requires Available(ops, source, n)
    ensures Available(Ops(ops, zero), Map(source, fn), n)
    ensures Pull(Ops(ops, zero), Map(source, fn), n).value == MapSeq(fn, Pull(ops, source, n).value)
    ensures Pull(Ops(ops, zero), Map(source, fn), n).state == Map(Pull(ops, source, n).state, fn)
    decreases n
  {
    if n > 0 {
      var first := ops.next(source);
      PullMapped(ops, first.state, fn, zero, n - 1);
      assert Ops(ops, zero).next(Map(source, fn)) == Step(fn(first.value), Map(first.state, fn));
    }
  }

  /** Once the source is exhausted, `Next` yields the zero value and pulls
      nothing: the function is never applied to a missing element. */
  lemma {:induction false} ExhaustedSourceYieldsZero<S, A, B>(ops: IterOps<S, A>, it: MapIter<S, A, B>, zero: B, n: nat)
    requires !ops.hasNext(it.from)
    ensures Pull(Ops(ops, zero), it, n) == Step(seq(n, i => zero), it)
    decreases n
  {
    if n > 0 {
      var mops := Ops(ops, zero);
      assert mops.next(it) == Step(zero, it);
      ExhaustedSourceYieldsZero(ops, it, zero, n - 1);
      assert Pull(mops, it, n) == Step([zero] + Pull(mops, it, n - 1).value, it);
      assert [zero] + seq(n - 1, i => zero) == seq(n, i => zero);
    } else {
      assert seq(n, i => zero) == [];
    }
  }
}
