/** The Option type of src/optional.go: a value plus a tag. The tag is a Go
    string, so besides "Some" and "None" there is the empty string of the
    zero value `Option[A]{}`, which is neither. */
module Optional {
  import opened GoRuntime

  datatype Tag = SomeType | NoneType | Unset

  datatype Option<A> = Option(value: A, t: Tag)

  /** The Option constructors always set a tag. */
  predicate Tagged<A>(o: Option<A>)
  {
    o.t != Unset
  }

  /** What the constructors produce: a Some holding an admissible value, or
      a None holding the zero value. */
  ghost predicate Canonical<A>(o: Option<A>, ty: GoType<A>)
  {
    || (o.t == SomeType && !ty.isNilOrPtr(o.value))
    || (o.t == NoneType && o.value == ty.zero)
  }

  function None<A>(zero: A): (o: Option<A>)
    ensures IsNone(o) && !IsSome(o) && Get(o) == zero
  {
    Option(zero, NoneType)
  }

  /** NewOptional wraps an admissible value as Some and turns nil and
      pointers into None. */
  function NewOptional<A>(value: A, ty: GoType<A>): (o: Option<A>)
    ensures Canonical(o, ty)
    ensures IsSome(o) <==> !ty.isNilOrPtr(value)
    ensures IsSome(o) ==> Get(o) == value
    ensures IsNone(o) <==> ty.isNilOrPtr(value)
  {
    if ty.isNilOrPtr(value) then Option(ty.zero, NoneType) else Option(value, SomeType)
  }

  /** Some is NewOptional that also reports ErrorNoneValue when it falls
      back to None. */
  function Some<A>(value: A, ty: GoType<A>): (r: (Option<A>, MaybeError))
    ensures r.0 == NewOptional(value, ty)
    ensures r.1 == NoError <==> IsSome(r.0)
    ensures r.1 != NoError ==> r.1 == Fail(NoneValue)
  {
    if ty.isNilOrPtr(value) then (None(ty.zero), Fail(NoneValue))
    else (Option(value, SomeType), NoError)
  }

  function GetType<A>(o: Option<A>): Tag
  {
    o.t
  }

  predicate IsNone<A>(o: Option<A>)
  {
    o.t == NoneType
  }

  predicate IsSome<A>(o: Option<A>)
  {
    o.t == SomeType
  }

  function Get<A>(o: Option<A>): A
  {
    o.value
  }

  /** Unwrap is Get. */
  function Unwrap<A>(o: Option<A>): (v: A)
    ensures v == Get(o)
  {
    Get(o)
  }

  /** A tagged option is exactly one of Some and None; the zero Option is
      neither. */
  lemma SomeXorNone<A>(o: Option<A>)
    ensures Tagged(o) ==> (IsSome(o) <==> !IsNone(o))
    ensures !Tagged(o) ==> !IsSome(o) && !IsNone(o)
  {
  }

  /** Apply maps the value of a Some and keeps the tag; anything else comes
      back unchanged. The mapped value is not checked by the guard. */
  function Apply<A>(o: Option<A>, f: A -> A): (r: Option<A>)
    ensures IsSome(o) ==> r == Option(f(o.value), SomeType)
    ensures !IsSome(o) ==> r == o
    ensures GetType(r) == GetType(o)
  {
    if o.t == SomeType then Option(f(o.value), SomeType) else o
  }

  /** Take returns the stored value, with ErrorNoneValue for a None. */
  function Take<A>(o: Option<A>): (r: (A, MaybeError))
    ensures r.0 == o.value
    ensures r.1 == (if IsNone(o) then Fail(NoneValue) else NoError)
  {
    if IsNone(o) then (o.value, Fail(NoneValue)) else (o.value, NoError)
  }

  /** TakeOr: the stored value unless None, then the default. */
  function TakeOr<A>(o: Option<A>, value: A): (r: A)
    ensures IsNone(o) ==> r == value
    ensures !IsNone(o) ==> r == Get(o)
  {
    if IsNone(o) then value else o.value
  }

  /** TakeOrElse: the stored value unless None, then the thunk's result. */
  function TakeOrElse<A>(o: Option<A>, fn: () -> A): (r: A)
    ensures r == TakeOr(o, fn())
  {
    if IsNone(o) then fn() else o.value
  }

  function Or<A>(o: Option<A>, value: Option<A>): (r: Option<A>)
    ensures IsNone(o) ==> r == value
    ensures !IsNone(o) ==> r == o
  {
    if IsNone(o) then value else o
  }

  function OrElse<A>(o: Option<A>, fn: () -> Option<A>): (r: Option<A>)
    ensures r == Or(o, fn())
  {
    if IsNone(o) then fn() else o
  }

  /** IfSome applies `f` to the value of a Some; otherwise it returns the
      stored value with ErrorNoneValue. */
  function IfSome<A>(o: Option<A>, f: A -> A): (r: (A, MaybeError))
    ensures IsSome(o) ==> r == (f(Get(o)), NoError)
    ensures !IsSome(o) ==> r == (Get(o), Fail(NoneValue))
  {
    if IsSome(o) then (f(o.value), NoError) else (o.value, Fail(NoneValue))
  }

  /** IfNone runs the thunk for a None; otherwise it returns the stored
      value with ErrorSomeValue. */
  function IfNone<A>(o: Option<A>, fn: () -> A): (r: (A, MaybeError))
    ensures IsNone(o) ==> r == (fn(), NoError)
    ensures !IsNone(o) ==> r == (Get(o), Fail(SomeValue))
  {
    if IsNone(o) then (fn(), NoError) else (o.value, Fail(SomeValue))
  }

  /** On a tagged option exactly one of IfSome and IfNone succeeds; on the
      zero Option both fail. */
  lemma IfSomeIfNoneExclusive<A>(o: Option<A>, f: A -> A, fn: () -> A)
    ensures Tagged(o) ==> (IfSome(o, f).1 == NoError <==> IfNone(o, fn).1 != NoError)
    ensures !Tagged(o) ==> IfSome(o, f).1 != NoError && IfNone(o, fn).1 != NoError
  {
  }

  /** Take and TakeOr agree whenever Take reports no error. */
  lemma TakeAgreesWithTakeOr<A>(o: Option<A>, d: A)
    ensures Take(o).1 == NoError ==> TakeOr(o, d) == Take(o).0
    ensures Take(o).1 != NoError ==> TakeOr(o, d) == d
  {
  }

  /** Map: None stays None (of the new type); anything else, including the
      zero Option, has its value mapped and re-checked by Some. */
  function Map<A, B>(o: Option<A>, mapper: A -> B, tyB: GoType<B>): (r: Option<B>)
    ensures IsNone(o) ==> r == None(tyB.zero)
    ensures !IsNone(o) ==> r == NewOptional(mapper(o.value), tyB)
    ensures Canonical(r, tyB)
  {
    if IsNone(o) then None(tyB.zero)
    else Some(mapper(o.value), tyB).0
  }

  /** Mapping the identity over a canonical option gives it back. */
  lemma MapIdentity<A>(o: Option<A>, ty: GoType<A>)
    requires Canonical(o, ty)
    ensures Map(o, x => x, ty) == o
  {
  }

  /** Mapping twice is mapping the composition, as long as the first mapper
      never yields a value the guard rejects. */
  lemma MapCompose<A, B, C>(o: Option<A>, f: A -> B, g: B -> C, tyB: GoType<B>, tyC: GoType<C>)
    requires forall x :: !tyB.isNilOrPtr(f(x))
    ensures Map(Map(o, f, tyB), g, tyC) == Map(o, x => g(f(x)), tyC)
  {
  }

  /** Apply and Map agree on a Some whose image passes the guard. */
  lemma ApplyIsMap<A>(o: Option<A>, f: A -> A, ty: GoType<A>)
    requires IsSome(o) && !ty.isNilOrPtr(f(o.value))
    ensures Apply(o, f) == Map(o, f, ty)
  {
  }

  /** The zero Option is not None, so Map applies the mapper to its zero
      value, while Apply leaves it alone. */
  lemma ZeroOptionMapsItsValue<A, B>(zero: A, mapper: A -> B, tyB: GoType<B>)
    ensures var o := Option(zero, Unset);
      Map(o, mapper, tyB) == NewOptional(mapper(zero), tyB) && Apply(o, x => x) == o
  {
  }
}
