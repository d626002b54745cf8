/** The iterator protocol every iterator of the library implements: the
    `HasNext`/`Next` pair plus `Count` and `Size`. Go dispatches these
    through an interface; here an iterator kind is described by the record
    of its transition functions over its own state type `S`. */
module IterProtocol {

  /** The result of an operation that also moves the iterator on. */
  datatype Step<R, S> = Step(value: R, state: S)

  /** `count` may carry a precondition: the range iterator divides by its
      step there. */
  datatype IterOps<!S, A> = IterOps(
    hasNext: S -> bool,
    next: S -> Step<A, S>,
    count: S --> Step<int, S>,
    size: S -> int)

  /** `n` consecutive `Next` calls: the values they return and the final state. */
  function Pull<S, A>(ops: IterOps<S, A>, s: S, n: nat): Step<seq<A>, S>
    decreases n
  {
    if n == 0 then Step([], s)
    else
      var first := ops.next(s);
      var rest := Pull(ops, first.state, n - 1);
      Step([first.value] + rest.value, rest.state)
  }

  /** `HasNext` holds before each of the next `n` `Next` calls. */
  predicate Available<S, A>(ops: IterOps<S, A>, s: S, n: nat)
    decreases n
  {
    n == 0 || (ops.hasNext(s) && Available(ops, ops.next(s).state, n - 1))
  }
}
