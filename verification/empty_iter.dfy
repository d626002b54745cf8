/** The always-empty iterator of src/iter/empty_iter.go. */
module EmptyIterator {
  import opened IterProtocol

  /** `emptyIter{}` carries no state. */
  datatype EmptyIter = EmptyIter

  function Empty(): EmptyIter
  {
    EmptyIter
  }

  predicate HasNext(e: EmptyIter)
  {
    false
  }

  /** Next returns the element type's zero value. */
  function Next<A>(e: EmptyIter, zero: A): Step<A, EmptyIter>
  {
    Step(zero, e)
  }

  function Count(e: EmptyIter): Step<int, EmptyIter>
  {
    Step(0, e)
  }

  function Size(e: EmptyIter): int
  {
    0
  }

  /** The empty iterator seen through the iterator protocol. */
  function Ops<A>(zero: A): IterOps<EmptyIter, A>
  {
    IterOps(e => HasNext(e), e => Next(e, zero), e => Count(e), e => Size(e))
  }

  /** Any number of Next calls return the zero value and change nothing;
      HasNext never admits even one of them. */
  lemma {:induction false} PullYieldsZeros<A>(zero: A, n: nat)
    ensures Pull(Ops(zero), Empty(), n) == Step(seq(n, i => zero), Empty())
    ensures Available(Ops(zero), Empty(), n) <==> n == 0
    decreases n
  {
    if n > 0 {
      PullYieldsZeros(zero, n - 1);
      assert seq(n, i => zero) == [zero] + seq(n - 1, i => zero);
    } else {
      assert seq(n, i => zero) == [];
    }
  }

  /** The test scenario: Count, Size and Next of an empty int iterator. */
  lemma EmptyScenario()
    ensures Count(Empty()).value == 0 && Size(Empty()) == 0
    ensures !HasNext(Empty()) && Next(Empty(), 0).value == 0
  {
  }
}
