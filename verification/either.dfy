/** The Either type of src/either.go: a left value, a right value and a side
    tag. Like Option's tag the side is a Go string, so the zero value
    `Either[A, B]{}` has neither side. Conversions between Option and
    Either live here because Option.ToEither needs Either and
    Either.ToOption needs Option. */
module Eithers {
  import opened GoRuntime
  import Optional

  datatype Side = LeftSided | RightSided | NoSide

  datatype Either<A, B> = Either(left: A, right: B, side: Side)

  /** What Left and Right build: a Left whose right part is zero, or a Right
      whose left part is zero and whose value passes the guard. */
  ghost predicate Canonical<A, B>(e: Either<A, B>, zeroA: A, tyB: GoType<B>)
  {
    || (e.side == LeftSided && e.right == tyB.zero)
    || (e.side == RightSided && e.left == zeroA && !tyB.isNilOrPtr(e.right))
  }

  function Left<A, B>(value: A, zeroB: B): (e: Either<A, B>)
    ensures IsLeft(e) && !IsRight(e) && e.left == value && e.right == zeroB
  {
    Either(value, zeroB, LeftSided)
  }

  /** Right wraps an admissible value; nil or a pointer gives a Left holding
      ErrorLeftValue converted to A, which `errAsA` stands for. */
  function Right<A, B>(value: B, tyB: GoType<B>, zeroA: A, errAsA: A): (e: Either<A, B>)
    ensures IsRight(e) <==> !tyB.isNilOrPtr(value)
    ensures IsRight(e) ==> e == Either(zeroA, value, RightSided)
    ensures !IsRight(e) ==> e == Left(errAsA, tyB.zero)
  {
    if tyB.isNilOrPtr(value) then Either(errAsA, tyB.zero, LeftSided)
    else Either(zeroA, value, RightSided)
  }

  predicate IsLeft<A, B>(e: Either<A, B>)
  {
    e.side == LeftSided
  }

  predicate IsRight<A, B>(e: Either<A, B>)
  {
    e.side == RightSided
  }

  /** Unwrap returns (right, left), the Go `value, err` order. */
  function Unwrap<A, B>(e: Either<A, B>): (r: (B, A))
    ensures r.0 == e.right && r.1 == e.left
  {
    (e.right, e.left)
  }

  /** Swap exchanges the two values; the result is Left only when the input
      was Right, so a side-less Either becomes a Right. */
  function Swap<A, B>(e: Either<A, B>): (s: Either<B, A>)
    ensures s.left == e.right && s.right == e.left
    ensures IsLeft(s) <==> IsRight(e)
    ensures IsRight(s) <==> !IsRight(e)
  {
    var side := if e.side == RightSided then LeftSided else RightSided;
    Either(e.right, e.left, side)
  }

  /** Swapping twice gives back any Either that has a side; a side-less one
      comes back as a Left. */
  lemma SwapInvolution<A, B>(e: Either<A, B>)
    ensures e.side != NoSide ==> Swap(Swap(e)) == e
    ensures e.side == NoSide ==> Swap(Swap(e)) == e.(side := LeftSided)
  {
  }

  function TakeLeft<A, B>(e: Either<A, B>, zeroA: A): (r: (A, MaybeError))
    ensures IsLeft(e) ==> r == (e.left, NoError)
    ensures !IsLeft(e) ==> r == (zeroA, Fail(RightValue))
  {
    if IsLeft(e) then (e.left, NoError) else (zeroA, Fail(RightValue))
  }

  function TakeRight<A, B>(e: Either<A, B>, zeroB: B): (r: (B, MaybeError))
    ensures IsRight(e) ==> r == (e.right, NoError)
    ensures !IsRight(e) ==> r == (zeroB, Fail(LeftValue))
  {
    if IsRight(e) then (e.right, NoError) else (zeroB, Fail(LeftValue))
  }

  /** Take is TakeRight: Either is right-biased. */
  function Take<A, B>(e: Either<A, B>, zeroB: B): (r: (B, MaybeError))
    ensures r == TakeRight(e, zeroB)
  {
    TakeRight(e, zeroB)
  }

  /** The left of an Either is the right of its swap, and vice versa. */
  lemma TakeLeftIsTakeRightOfSwap<A, B>(e: Either<A, B>, zeroA: A)
    requires e.side != NoSide
    ensures TakeLeft(e, zeroA).0 == TakeRight(Swap(e), zeroA).0
    ensures TakeLeft(e, zeroA).1 == NoError <==> TakeRight(Swap(e), zeroA).1 == NoError
  {
  }

  function TakeOr<A, B>(e: Either<A, B>, value: B): (r: B)
    ensures IsRight(e) ==> r == e.right
    ensures !IsRight(e) ==> r == value
  {
    if IsRight(e) then e.right else value
  }

  function TakeOrElse<A, B>(e: Either<A, B>, fn: () -> B): (r: B)
    ensures r == TakeOr(e, fn())
  {
    if IsRight(e) then e.right else fn()
  }

  function Or<A, B>(e: Either<A, B>, either: Either<A, B>): (r: Either<A, B>)
    ensures IsRight(e) ==> r == e
    ensures !IsRight(e) ==> r == either
  {
    if IsRight(e) then e else either
  }

  function OrElse<A, B>(e: Either<A, B>, fn: () -> Either<A, B>): (r: Either<A, B>)
    ensures r == Or(e, fn())
  {
    if IsRight(e) then e else fn()
  }

  /** Map keeps a Left's value and rebuilds it as a Left; every other
      Either, the side-less one included, has its right value mapped and
      passed to Right. */
  function Map<A, B, C>(e: Either<A, B>, mapper: B -> C, tyC: GoType<C>, zeroA: A, errAsA: A): (r: Either<A, C>)
    ensures IsLeft(e) ==> r == Left(e.left, tyC.zero)
    ensures !IsLeft(e) ==> r == Right(mapper(e.right), tyC, zeroA, errAsA)
    ensures Canonical(r, zeroA, tyC)
  {
    match e.side
    case LeftSided => Left(e.left, tyC.zero)
    case _ => Right(mapper(e.right), tyC, zeroA, errAsA)
  }

  /** Mapping the identity over a canonical Either gives it back. */
  lemma MapIdentity<A, B>(e: Either<A, B>, ty: GoType<B>, zeroA: A, errAsA: A)
    requires Canonical(e, zeroA, ty)
    ensures Map(e, x => x, ty, zeroA, errAsA) == e
  {
  }

  /** Fold applies `a2c` to a Left's value and `b2c` to anything else's right
      value. */
  function Fold<A, B, C>(e: Either<A, B>, a2c: A -> C, b2c: B -> C): (r: C)
    ensures IsLeft(e) ==> r == a2c(e.left)
    ensures !IsLeft(e) ==> r == b2c(e.right)
  {
    match e.side
    case LeftSided => a2c(e.left)
    case _ => b2c(e.right)
  }

  /** Folding a swapped Either with the functions exchanged gives the same
      result, for every Either that has a side. */
  lemma FoldSwap<A, B, C>(e: Either<A, B>, a2c: A -> C, b2c: B -> C)
    requires e.side != NoSide
    ensures Fold(Swap(e), b2c, a2c) == Fold(e, a2c, b2c)
  {
  }

  /** Exists tests a predicate on the right value of anything but a Left. */
  function Exists<A, B>(e: Either<A, B>, fn: B -> bool): (r: bool)
    ensures r <==> !IsLeft(e) && fn(e.right)
  {
    if e.side == LeftSided then false else fn(e.right)
  }

  /** Exists is the fold with `false` for the left and the predicate for the
      right. */
  lemma ExistsIsFold<A, B>(e: Either<A, B>, fn: B -> bool)
    ensures Exists(e, fn) == Fold(e, (_: A) => false, fn)
  {
  }

  /** EitherFlatMap passes a Left through (rebuilt at the new right type) and
      hands the right value of anything else to `fn`. */
  function FlatMap<A, B, C>(e: Either<A, B>, fn: B -> Either<A, C>, zeroC: C): (r: Either<A, C>)
    ensures IsLeft(e) ==> r == Left(e.left, zeroC)
    ensures !IsLeft(e) ==> r == fn(e.right)
  {
    if IsLeft(e) then Left(e.left, zeroC) else fn(e.right)
  }

  /** Left unit: FlatMap over an admissible Right applies the function to
      its value. */
  lemma FlatMapRightUnit<A, B, C>(v: B, fn: B -> Either<A, C>, tyB: GoType<B>, zeroA: A, errAsA: A, zeroC: C)
    ensures !tyB.isNilOrPtr(v) ==> FlatMap(Right(v, tyB, zeroA, errAsA), fn, zeroC) == fn(v)
    ensures tyB.isNilOrPtr(v) ==> FlatMap(Right(v, tyB, zeroA, errAsA), fn, zeroC) == Left(errAsA, zeroC)
  {
  }

  /** Right unit: FlatMap with Right gives back every canonical Either. */
  lemma FlatMapWithRight<A, B>(e: Either<A, B>, tyB: GoType<B>, zeroA: A, errAsA: A)
    requires Canonical(e, zeroA, tyB)
    ensures FlatMap(e, (x: B) => Right(x, tyB, zeroA, errAsA), tyB.zero) == e
  {
  }

  /** ToOption: a Right becomes Some of its value, falling back to None when
      the guard rejects it; anything else becomes None. */
  function ToOption<A, B>(e: Either<A, B>, tyB: GoType<B>): (o: Optional.Option<B>)
    ensures IsRight(e) ==> o == Optional.NewOptional(e.right, tyB)
    ensures !IsRight(e) ==> o == Optional.None(tyB.zero)
    ensures Optional.Canonical(o, tyB)
  {
    if IsRight(e) then
      var (some, err) := Optional.Some(e.right, tyB);
      if err != NoError then Optional.None(tyB.zero) else some
    else Optional.None(tyB.zero)
  }

  /** Option.ToEither: None becomes a Left holding ErrorLeftValue, anything
      else goes through Right. The left type is Go's `any`, which here only
      ever holds nil or ErrorLeftValue, so it is modelled as MaybeError. */
  function ToEither<A>(o: Optional.Option<A>, ty: GoType<A>): (e: Either<MaybeError, A>)
    ensures Optional.IsNone(o) ==> e == Left(Fail(LeftValue), ty.zero)
    ensures !Optional.IsNone(o) && !ty.isNilOrPtr(o.value) ==> e == Either(NoError, o.value, RightSided)
    ensures !Optional.IsNone(o) && ty.isNilOrPtr(o.value) ==> e == Left(Fail(LeftValue), ty.zero)
  {
    if Optional.IsNone(o) then Left(Fail(LeftValue), ty.zero)
    else Right(o.value, ty, NoError, Fail(LeftValue))
  }

  /** Option to Either and back gives back every canonical option. */
  lemma OptionEitherRoundTrip<A>(o: Optional.Option<A>, ty: GoType<A>)
    requires Optional.Canonical(o, ty)
    ensures ToOption(ToEither(o, ty), ty) == o
  {
  }

  /** Either to Option and back keeps a Right with an admissible value and
      turns everything else into the Left holding ErrorLeftValue. */
  lemma EitherOptionRoundTrip<A, B>(e: Either<A, B>, ty: GoType<B>)
    ensures var back := ToEither(ToOption(e, ty), ty);
      && (IsRight(back) <==> IsRight(e) && !ty.isNilOrPtr(e.right))
      && (IsRight(back) ==> back == Either(NoError, e.right, RightSided))
      && (!IsRight(back) ==> back == Left(Fail(LeftValue), ty.zero))
  {
  }
}
