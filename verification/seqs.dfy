/** Reference definitions over sequences, shared by the collection and
    iterator models. They are written independently of the loops they
    specify: the left fold peels the LAST element, while the Go loops
    consume the first. */
module Seqs {

  /** Left fold: f(...f(f(acc, s[0]), s[1])..., s[|s|-1]). */
  function FoldL<A, B>(f: (B, A) -> B, acc: B, s: seq<A>): B
    decreases |s|
  {
    if |s| == 0 then acc else f(FoldL(f, acc, s[..|s|-1]), s[|s|-1])
  }

  /** Consuming the first element of the input moves it into the accumulator. */
  lemma {:induction false} FoldLCons<A, B>(f: (B, A) -> B, acc: B, x: A, t: seq<A>)
    ensures FoldL(f, acc, [x] + t) == FoldL(f, f(acc, x), t)
    decreases |t|
  {
    if |t| == 0 {
      assert ([x] + t)[..0] == [];
    } else {
      var s := [x] + t;
      assert s[..|s|-1] == [x] + t[..|t|-1];
      FoldLCons(f, acc, x, t[..|t|-1]);
    }
  }

  /** The elements of `s` satisfying `p`, in their original order. */
  function Filter<A>(p: A -> bool, s: seq<A>): seq<A>
    decreases |s|
  {
    if |s| == 0 then [] else (if p(s[0]) then [s[0]] else []) + Filter(p, s[1..])
  }

  lemma {:induction false} FilterAppend<A>(p: A -> bool, s: seq<A>, t: seq<A>)
    ensures Filter(p, s + t) == Filter(p, s) + Filter(p, t)
    decreases |s|
  {
    if |s| == 0 {
      assert s + t == t;
    } else {
      var head := if p(s[0]) then [s[0]] else [];
      assert (s + t)[0] == s[0] && (s + t)[1..] == s[1..] + t;
      assert Filter(p, s + t) == head + Filter(p, s[1..] + t);
      FilterAppend(p, s[1..], t);
      assert Filter(p, s) == head + Filter(p, s[1..]);
    }
  }

  /** An element survives the filter exactly when it occurs and satisfies `p`. */
  lemma {:induction false} FilterMembership<A>(p: A -> bool, s: seq<A>, x: A)
    ensures x in Filter(p, s) <==> x in s && p(x)
    decreases |s|
  {
    if |s| > 0 {
      FilterMembership(p, s[1..], x);
      assert s == [s[0]] + s[1..];
    }
  }

  /** Concatenation of the inner sequences, in order. */
  function Flatten<A>(ss: seq<seq<A>>): seq<A>
    decreases |ss|
  {
    if |ss| == 0 then [] else ss[0] + Flatten(ss[1..])
  }

  lemma {:induction false} FlattenSnoc<A>(ss: seq<seq<A>>, t: seq<A>)
    ensures Flatten(ss + [t]) == Flatten(ss) + t
    decreases |ss|
  {
    if |ss| == 0 {
      assert ss + [t] == [t];
    } else {
      assert (ss + [t])[1..] == ss[1..] + [t];
      FlattenSnoc(ss[1..], t);
    }
  }

  /** `f` applied to every element, in order. */
  function MapSeq<A, B>(f: A -> B, s: seq<A>): (r: seq<B>)
    ensures |r| == |s|
  {
    seq(|s|, i requires 0 <= i < |s| => f(s[i]))
  }

  /** `order` lists every key of `keys` exactly once: the model of one
      (unspecified) Go map iteration order. */
  predicate Enumerates<K>(order: seq<K>, keys: set<K>)
  {
    && |order| == |keys|
    && (forall k :: k in keys ==> k in order)
    && (forall i :: 0 <= i < |order| ==> order[i] in keys)
    && (forall i, j :: 0 <= i < j < |order| ==> order[i] != order[j])
  }

  /** Position of the first occurrence of `x` in `s`. */
  function IndexOf<A(==)>(s: seq<A>, x: A): (i: nat)
    requires x in s
    ensures i < |s| && s[i] == x && x !in s[..i]
    decreases |s|
  {
    if s[0] == x then 0
    else
      assert s == [s[0]] + s[1..];
      var j := IndexOf(s[1..], x);
      assert s[..j + 1] == [s[0]] + s[1..][..j];
      j + 1
  }

  /** The first occurrence is the one no earlier position holds. */
  lemma IndexOfAt<A>(s: seq<A>, k: nat, x: A)
    requires k < |s| && s[k] == x && x !in s[..k]
    ensures IndexOf(s, x) == k
  {
  }

  /** Putting a different element in front shifts the first occurrence by one. */
  lemma IndexOfCons<A>(x: A, t: seq<A>, e: A)
    requires e in t && x != e
    ensures IndexOf([x] + t, e) == IndexOf(t, e) + 1
    ensures ([x] + t)[..IndexOf(t, e) + 2] == [x] + t[..IndexOf(t, e) + 1]
  {
    assert ([x] + t)[1..] == t;
  }

  /** `s` back to front. */
  function Reversed<A>(s: seq<A>): (r: seq<A>)
    ensures |r| == |s|
  {
    seq(|s|, i requires 0 <= i < |s| => s[|s| - 1 - i])
  }

  lemma ReversedCons<A>(x: A, t: seq<A>)
    ensures Reversed([x] + t) == Reversed(t) + [x]
  {
  }

  lemma ReversedReversed<A>(s: seq<A>)
    ensures Reversed(Reversed(s)) == s
  {
  }

  function Min(a: int, b: int): int
  {
    if a <= b then a else b
  }
}
