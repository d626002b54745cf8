/** The few pieces of Go semantics the library leans on: truncating integer
    division, zero values together with the reflection-based nil/pointer
    guard, and the error values the library returns. */
module GoRuntime {

  function Abs(x: int): nat
  {
    if x < 0 then -x else x
  }

  /** Go's `/` on int, which truncates toward zero (Dafny's `/` is
      Euclidean). QuotTruncates and QuotUnique characterise it. */
  function Quot(a: int, b: int): int
    requires b != 0
  {
    if a >= 0 then (if b > 0 then a / b else -(a / -b))
    else (if b > 0 then -((-a) / b) else (-a) / (-b))
  }

  /** What truncation means: the remainder a - q * b is smaller than the
      divisor in magnitude and, unless it is zero, has the sign of the
      dividend. Kept out of Quot's own contract so that callers do not
      carry the multiplication. */
  lemma QuotTruncates(a: int, b: int)
    requires b != 0
    ensures Abs(a - Quot(a, b) * b) < Abs(b)
    ensures a - Quot(a, b) * b == 0 || (a - Quot(a, b) * b < 0 <==> a < 0)
  {
  }

  /** The two remainder conditions pin the quotient down: no other
      integer meets them. */
  lemma QuotUnique(a: int, b: int, q: int)
    requires b != 0
    requires Abs(a - q * b) < Abs(b)
    requires a - q * b == 0 || (a - q * b < 0 <==> a < 0)
    ensures q == Quot(a, b)
  {
    QuotTruncates(a, b);
    var q0 := Quot(a, b);
    var r, r0 := a - q * b, a - q0 * b;
    MulSub(q0, q, b);
    assert r - r0 == (q0 - q) * b;
    if q0 != q {
      MulAtLeast(q0 - q, b);
      assert false;
    }
  }

  lemma MulSub(x: int, y: int, b: int)
    ensures x * b - y * b == (x - y) * b
  {
  }

  lemma MulAtLeast(d: int, b: int)
    requires d != 0 && b != 0
    ensures Abs(d * b) >= Abs(b)
  {
    AbsMul(d, b);
    MulGrows(Abs(d), Abs(b));
  }

  lemma AbsMul(d: int, b: int)
    ensures Abs(d * b) == Abs(d) * Abs(b)
  {
    if d < 0 && b < 0 {
      assert d * b == (-d) * (-b);
    } else if d < 0 {
      assert d * b == -((-d) * b);
    } else if b < 0 {
      assert d * b == -(d * (-b));
    }
  }

  lemma {:induction false} MulGrows(x: nat, y: nat)
    requires x >= 1
    ensures x * y >= y
  {
    if x > 1 {
      MulGrows(x - 1, y);
      assert x * y == (x - 1) * y + y;
    }
  }

  /** On a non-negative dividend and a positive divisor, truncation and
      Euclidean division agree. */
  lemma QuotNonNegative(a: int, b: int)
    requires a >= 0 && b > 0
    ensures Quot(a, b) == a / b
  {
    QuotUnique(a, b, a / b);
  }

  /** A negative dividend over a positive divisor never gives a positive
      quotient. */
  lemma QuotNegative(a: int, b: int)
    requires a < 0 && b > 0
    ensures Quot(a, b) <= 0
  {
  }

  /** What the Go runtime knows about a type parameter: its zero value, and
      whether a given value trips `IsNilOrZeroValue(v) || IsPtr(v)` from the
      utils package (nil slices, maps, channels, functions and interfaces,
      and every pointer). */
  datatype GoType<!A> = GoType(zero: A, isNilOrPtr: A -> bool)

  /** The error values of the library. */
  datatype Error =
    | NoneValue        // ErrorNoneValue
    | SomeValue        // ErrorSomeValue
    | LeftValue        // ErrorLeftValue
    | RightValue       // ErrorRightValue
    | EndBeforeStart   // Range: "end < start"
    | NegativeStep     // Range: "step < 0"

  /** A Go `error` result: nil or one of the library's errors. */
  datatype MaybeError = NoError | Fail(error: Error)
}
