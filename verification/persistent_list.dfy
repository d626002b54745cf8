/** The persistent singly linked list of src/list/list.go. A Go `*List` is
    either nil or a node carrying a value, the next pointer and a cached
    `size`. `&List{}` is a node with the zero value and size 0: the code
    treats it as empty in some places (size checks) and as an element in
    others (walks that stop only at nil), so the model keeps it as a node. */
module PersistentList {
  import opened Seqs

  datatype List<A> = Nil | Node(x: A, xs: List<A>, size: int)

  /** `&List[A]{}`. */
  function Sentinel<A>(zero: A): List<A>
  {
    Node(zero, Nil, 0)
  }

  /** The "nil or size 0" test the list operations start with. */
  predicate Empty<A>(l: List<A>)
  {
    l.Nil? || l.size == 0
  }

  /** The size field, with nil read as 0. */
  function SizeOf<A>(l: List<A>): int
  {
    if l.Nil? then 0 else l.size
  }

  /** Number of nodes before nil. */
  function Length<A>(l: List<A>): nat
  {
    if l.Nil? then 0 else 1 + Length(l.xs)
  }

  /** Every node's cached size is the number of nodes from it to nil. Lists
      built only by FromSlice, Append and Concat are valid. */
  predicate Valid<A>(l: List<A>)
  {
    l.Nil? || (l.size == Length(l) && Valid(l.xs))
  }

  /** ToSlice collects the value of every node until nil. */
  function ToSlice<A>(l: List<A>): (s: seq<A>)
    ensures |s| == Length(l)
  {
    if l.Nil? then [] else [l.x] + ToSlice(l.xs)
  }

  /** On a valid list the size checks agree with the contents. */
  lemma ValidSize<A>(l: List<A>)
    requires Valid(l)
    ensures SizeOf(l) == |ToSlice(l)| && (Empty(l) <==> l.Nil?)
  {
  }

  /** A valid list is determined by its contents. */
  lemma {:induction false} ValidUnique<A>(a: List<A>, b: List<A>)
    requires Valid(a) && Valid(b) && ToSlice(a) == ToSlice(b)
    ensures a == b
  {
    if a.Node? {
      assert ToSlice(a.xs) == ToSlice(a)[1..] == ToSlice(b)[1..] == ToSlice(b.xs);
      ValidUnique(a.xs, b.xs);
    }
  }

  /** Append copies the spine and adds a node at the end. */
  function Append<A>(l: List<A>, v: A): (r: List<A>)
    ensures r.Node? && ToSlice(r) == ToSlice(l) + [v]
    ensures r.size == SizeOf(l) + 1
    ensures Valid(l) ==> Valid(r)
  {
    if l.Nil? then Node(v, Nil, 1)
    else Node(l.x, Append(l.xs, v), l.size + 1)
  }

  /** FromSlice appends the values one by one to nil. */
  function FromSlice<A>(s: seq<A>): (l: List<A>)
    ensures Valid(l) && ToSlice(l) == s
  {
    if |s| == 0 then Nil else Append(FromSlice(s[..|s| - 1]), s[|s| - 1])
  }

  /** FromSlice and ToSlice are inverse on valid lists. */
  lemma FromSliceToSlice<A>(l: List<A>)
    requires Valid(l)
    ensures FromSlice(ToSlice(l)) == l
  {
    ValidUnique(FromSlice(ToSlice(l)), l);
  }

  /** Concat returns the other list when one side is nil or has size 0, and
      otherwise copies the first list's spine in front of the second. */
  function Concat<A>(l: List<A>, other: List<A>): (r: List<A>)
    ensures Empty(l) ==> r == other
    ensures !Empty(l) && Empty(other) ==> r == l
    ensures !Empty(l) && !Empty(other) ==> r.Node? && r.size == l.size + other.size
  {
    if Empty(l) then other
    else if Empty(other) then l
    else Node(l.x, Concat(l.xs, other), l.size + other.size)
  }

  /** Behind a valid non-empty list, Concat keeps the other list's nodes
      as they are, unless that list counts as empty. */
  lemma ConcatContents<A>(l: List<A>, other: List<A>)
    ensures Valid(l) && !Empty(l) ==>
      ToSlice(Concat(l, other)) == ToSlice(l) + (if Empty(other) then [] else ToSlice(other))
  {
    if Valid(l) && !Empty(l) {
      if Empty(other) {
        assert ToSlice(l) + [] == ToSlice(l);
      } else {
        ConcatNonEmpty(l, other);
      }
    }
  }

  lemma {:induction false} ConcatNonEmpty<A>(l: List<A>, other: List<A>)
    requires Valid(l) && !Empty(l) && !Empty(other)
    ensures ToSlice(Concat(l, other)) == ToSlice(l) + ToSlice(other)
  {
    var rest := Concat(l.xs, other);
    assert ToSlice(Concat(l, other)) == [l.x] + ToSlice(rest);
    if l.xs.Nil? {
      assert rest == other;
    } else {
      assert l.xs.size == Length(l.xs) >= 1;
      ConcatNonEmpty(l.xs, other);
      assert [l.x] + (ToSlice(l.xs) + ToSlice(other)) == ([l.x] + ToSlice(l.xs)) + ToSlice(other);
    }
  }

  /** Concat of two valid lists is valid and holds both lists' values in
      order. */
  lemma {:induction false} ConcatValid<A>(l: List<A>, other: List<A>)
    ensures Valid(l) && Valid(other) ==>
      Valid(Concat(l, other)) && ToSlice(Concat(l, other)) == ToSlice(l) + ToSlice(other)
  {
    if Valid(l) && Valid(other) && !Empty(l) && !Empty(other) {
      ConcatValid(l.xs, other);
      assert ToSlice(l.xs) + ToSlice(other) == ToSlice(Concat(l.xs, other));
      assert Valid(l.xs) && (Empty(l.xs) <==> l.xs.Nil?);
    }
  }

  function AppendHelper<A>(l: List<A>, tail: List<A>): List<A>
    requires tail.Node?
  {
    if Empty(l) then tail
    else Node(l.x, AppendHelper(l.xs, tail), l.size + tail.size)
  }

  /** AppendList checks both sides for emptiness once and then rebuilds the
      first list in front of the second. */
  function AppendList<A>(l: List<A>, toAppend: List<A>): List<A>
  {
    if Empty(l) then toAppend
    else if Empty(toAppend) then l
    else AppendHelper(l, toAppend)
  }

  lemma {:induction false} AppendHelperIsConcat<A>(l: List<A>, tail: List<A>)
    requires !Empty(tail)
    ensures AppendHelper(l, tail) == Concat(l, tail)
  {
    if !Empty(l) {
      AppendHelperIsConcat(l.xs, tail);
    }
  }

  /** AppendList and Concat build the same list from any two lists. */
  lemma AppendListIsConcat<A>(l: List<A>, toAppend: List<A>)
    ensures AppendList(l, toAppend) == Concat(l, toAppend)
  {
    if !Empty(l) && !Empty(toAppend) {
      AppendHelperIsConcat(l, toAppend);
    }
  }

  /** Prepend puts a node with size 0 in front of the list. */
  function Prepend<A>(l: List<A>, v: A): (r: List<A>)
    ensures ToSlice(r) == [v] + ToSlice(l) && r.xs == l
    ensures Empty(r)
  {
    Node(v, l, 0)
  }

  /** The size-0 head makes the prepended list look empty to Concat:
      [1, 2] built by Prepend, concatenated with [3], gives just [3]. */
  lemma PrependLooksEmpty()
    ensures ToSlice(Prepend(FromSlice([2]), 1)) == [1, 2]
    ensures ToSlice(Concat(Prepend(FromSlice([2]), 1), FromSlice([3]))) == [3]
  {
  }

  /** Prepend with the size one greater than the tail's. */
  function PrependFixed<A>(l: List<A>, v: A): (r: List<A>)
    ensures ToSlice(r) == [v] + ToSlice(l) && r.xs == l
    ensures Valid(l) ==> Valid(r) && r.size == |ToSlice(l)| + 1
  {
    Node(v, l, SizeOf(l) + 1)
  }

  /** With the corrected size, prepending then concatenating keeps every
      element. */
  lemma PrependFixedThenConcat<A>(l: List<A>, v: A, other: List<A>)
    requires Valid(l) && Valid(other)
    ensures ToSlice(Concat(PrependFixed(l, v), other)) == [v] + ToSlice(l) + ToSlice(other)
  {
    ConcatValid(PrependFixed(l, v), other);
  }

  /** The split helper with index `i`: it counts `i` down along the spine,
      cuts after the node where it reaches 0, and answers two size-0 nodes
      when it reaches nil or a size-0 node first. */
  function SplitHelper<A>(l: List<A>, i: int, zero: A): (r: (List<A>, List<A>))
    ensures r.0.Node?
    ensures Valid(l) && 0 <= i < Length(l) ==>
      && Valid(r.0) && ToSlice(r.0) == ToSlice(l)[..i + 1]
      && Valid(r.1) && ToSlice(r.1) == ToSlice(l)[i + 1..]
    ensures Valid(l) && (i < 0 || i >= Length(l)) ==>
      && ToSlice(r.0) == ToSlice(l) + [zero] && r.0.size == Length(l)
      && r.1 == Sentinel(zero)
  {
    if Empty(l) then (Sentinel(zero), Sentinel(zero))
    else if i == 0 then (Node(l.x, Nil, 1), l.xs)
    else
      var (left1, right1) := SplitHelper(l.xs, i - 1, zero);
      (Node(l.x, left1, left1.size + 1), right1)
  }

  /** Split(n) runs the helper with n - 1. For 1 <= n <= size the left part
      holds the first n values and the right part the rest; otherwise the
      left part is the whole list followed by a zero-valued size-0 node,
      and the right part is such a node alone. */
  function Split<A>(l: List<A>, n: int, zero: A): (r: (List<A>, List<A>))
    ensures Valid(l) && 1 <= n <= Length(l) ==>
      && Valid(r.0) && ToSlice(r.0) == ToSlice(l)[..n]
      && Valid(r.1) && ToSlice(r.1) == ToSlice(l)[n..]
    ensures Valid(l) && (n < 1 || n > Length(l)) ==>
      && ToSlice(r.0) == ToSlice(l) + [zero] && r.0.size == Length(l)
      && r.1 == Sentinel(zero)
  {
    SplitHelper(l, n - 1, zero)
  }

  /** Split(0) does not give (empty, whole list): [1, 2] splits into a left
      part [1, 2, 0] and a size-0 right part. */
  lemma SplitZeroAddsZero()
    ensures var (left, right) := Split(FromSlice([1, 2]), 0, 0);
      ToSlice(left) == [1, 2, 0] && right == Sentinel(0)
  {
  }

  function Clamp(n: int, hi: nat): nat
  {
    if n <= 0 then 0 else if n >= hi then hi else n
  }

  /** How one part of a split stands for the values `s`: an empty part is
      an `&List{}` node, which the tests compare against and whose Size is
      0; any other part is a valid list of exactly `s`, with no zero node
      at its end. */
  ghost predicate Represents<A>(p: List<A>, s: seq<A>, zero: A)
  {
    if s == [] then p == Sentinel(zero) else Valid(p) && ToSlice(p) == s
  }

  /** Split as documented: the first n values (none for n <= 0, all for
      n >= size) on the left and the rest on the right. Both parts are
      always nodes, so Size never dereferences nil; a part with no values
      is `&List{}`, as the source's empty case returns. */
  function SplitFixed<A>(l: List<A>, n: int, zero: A): (r: (List<A>, List<A>))
    ensures r.0.Node? && r.1.Node?
    ensures Empty(l) ==> SizeOf(r.0) == 0 && SizeOf(r.1) == 0
    ensures Valid(l) ==>
      && Represents(r.0, ToSlice(l)[..Clamp(n, Length(l))], zero)
      && Represents(r.1, ToSlice(l)[Clamp(n, Length(l))..], zero)
  {
    if Empty(l) then (Sentinel(zero), Sentinel(zero))
    else if n <= 0 then (Sentinel(zero), l)
    else
      var (left1, right1) := SplitFixed(l.xs, n - 1, zero);
      var left := if Empty(left1) then Node(l.x, Nil, 1) else Node(l.x, left1, left1.size + 1);
      assert Valid(l) ==> ToSlice(l)[..Clamp(n, Length(l))] == [l.x] + ToSlice(l.xs)[..Clamp(n - 1, Length(l.xs))];
      assert Valid(l) ==> ToSlice(l)[Clamp(n, Length(l))..] == ToSlice(l.xs)[Clamp(n - 1, Length(l.xs))..];
      (left, right1)
  }

  /** The list tests' Split cases hold for the corrected Split: the
      in-range split, an n beyond the size, and the zero list and nil
      receivers, whose left parts report size 0. */
  lemma SplitFixedScenarios()
    ensures var (left, right) := SplitFixed(FromSlice([1, 2, 3, 4, 5, 6]), 3, 0);
      && Size(left) == 3 && Head(left) == 1 && Size(right) == 3 && Head(right) == 4
    ensures var (left, right) := SplitFixed(FromSlice([1, 2, 3, 4, 5, 6]), 10, 0);
      Size(left) == 6 && right == Sentinel(0)
    ensures Size(SplitFixed(Sentinel(0), 5, 0).0) == 0 && Size(SplitFixed(Nil, 5, 0).0) == 0
    ensures ToSlice(SplitFixed(FromSlice([1, 2]), 0, 0).1) == [1, 2]
  {
    var l := FromSlice([1, 2, 3, 4, 5, 6]);
    var (left, right) := SplitFixed(l, 3, 0);
    assert ToSlice(l)[..3] == [1, 2, 3] && ToSlice(l)[3..] == [4, 5, 6];
    assert ToSlice(left)[0] == 1 && ToSlice(right)[0] == 4;
    ValidSize(left);
    ValidSize(right);
    var (left', right') := SplitFixed(l, 10, 0);
    ValidSize(left');
  }

  /** Concatenating the two parts of the corrected split gives the list
      back for every n: the list itself when it is a node, and `&List{}`
      (no values) for nil. */
  lemma SplitFixedConcat<A>(l: List<A>, n: int, zero: A)
    requires Valid(l)
    ensures Represents(Concat(SplitFixed(l, n, zero).0, SplitFixed(l, n, zero).1), ToSlice(l), zero)
    ensures l.Node? ==> Concat(SplitFixed(l, n, zero).0, SplitFixed(l, n, zero).1) == l
  {
    var left, right := SplitFixed(l, n, zero).0, SplitFixed(l, n, zero).1;
    SplitFixedParts(l, n, zero);
    var c := Concat(left, right);
    if l.Node? {
      if Empty(left) {
        assert c == right;
      } else if Empty(right) {
        assert c == left;
      } else {
        ConcatValid(left, right);
      }
      assert Valid(c) && ToSlice(c) == ToSlice(l);
      ValidUnique(c, l);
    }
  }

  /** The two parts of the corrected split hold the list's values between
      them, an empty part being exactly the size-0 node. */
  lemma SplitFixedParts<A>(l: List<A>, n: int, zero: A)
    requires Valid(l)
    ensures var (left, right) := SplitFixed(l, n, zero);
      && (Empty(left) <==> left == Sentinel(zero)) && (Empty(right) <==> right == Sentinel(zero))
      && (if Empty(left) then [] else ToSlice(left)) + (if Empty(right) then [] else ToSlice(right)) == ToSlice(l)
  {
    var k := Clamp(n, Length(l));
    var s := ToSlice(l);
    assert s[..k] + s[k..] == s;
    var (left, right) := SplitFixed(l, n, zero);
    if s[..k] != [] {
      ValidSize(left);
    }
    if s[k..] != [] {
      ValidSize(right);
    }
  }

  /** PrependList puts the other list's values in front, going through
      Split(0) and two Concats. */
  function PrependList<A>(l: List<A>, toPrepend: List<A>, zero: A): (r: List<A>)
    ensures Empty(toPrepend) ==> r == l
    ensures !Empty(toPrepend) && Empty(l) ==> r == toPrepend
    ensures Valid(l) && Valid(toPrepend) && !Empty(l) && !Empty(toPrepend) ==>
      && ToSlice(r) == ToSlice(toPrepend) + ToSlice(l) + [zero]
      && r.size == toPrepend.size + l.size
  {
    if Empty(toPrepend) then l
    else if Empty(l) then toPrepend
    else
      var (left, right) := Split(l, 0, zero);
      var front := Concat(toPrepend, left);
      ConcatContents(toPrepend, left);
      Concat(front, right)
  }

  /** The zero that Split(0) leaves behind ends up in the result: [4, 5]
      prepended to [1, 2, 3] gives [4, 5, 1, 2, 3, 0] with size 5. */
  lemma PrependListAddsZero()
    ensures var r := PrependList(FromSlice([1, 2, 3]), FromSlice([4, 5]), 0);
      ToSlice(r) == [4, 5, 1, 2, 3, 0] && r.size == 5
  {
  }

  /** PrependList over the corrected split. */
  function PrependListFixed<A>(l: List<A>, toPrepend: List<A>, zero: A): (r: List<A>)
    ensures Valid(l) && Valid(toPrepend) ==>
      Valid(r) && ToSlice(r) == ToSlice(toPrepend) + ToSlice(l)
  {
    if Empty(toPrepend) then l
    else if Empty(l) then toPrepend
    else
      var (left, right) := SplitFixed(l, 0, zero);
      var front := Concat(toPrepend, left);
      assert front == toPrepend;
      ConcatValid(front, right);
      Concat(front, right)
  }

  /** The reversing walk: each node is moved in front of the accumulator
      keeping its old size. */
  function ReverseOnto<A>(l: List<A>, acc: List<A>): (r: List<A>)
    ensures ToSlice(r) == Reversed(ToSlice(l)) + ToSlice(acc)
  {
    if l.Nil? then acc
    else
      ReversedCons(l.x, ToSlice(l.xs));
      ReverseOnto(l.xs, Node(l.x, acc, l.size))
  }

  /** Reverse seeds the walk with `&List{}`, so the reversed values are
      followed by a zero. */
  function Reverse<A>(l: List<A>, zero: A): (r: List<A>)
    ensures ToSlice(r) == Reversed(ToSlice(l)) + [zero]
  {
    ReverseOnto(l, Sentinel(zero))
  }

  /** Reversing [1, 2, 3] gives [3, 2, 1, 0] with head size 1, and reversing
      twice does not give the list back. */
  lemma ReverseAddsZero()
    ensures var r := Reverse(FromSlice([1, 2, 3]), 0);
      && ToSlice(r) == [3, 2, 1, 0] && r.size == 1
      && ToSlice(Reverse(r, 0)) == [0, 1, 2, 3, 0]
  {
    var s := [1, 2, 3];
    assert Reversed(s) == [3, 2, 1];
    assert Reversed([3, 2, 1, 0]) == [0, 1, 2, 3];
  }

  /** The reversing walk seeded with nil, recomputing sizes. */
  function ReverseFixedOnto<A>(l: List<A>, acc: List<A>): (r: List<A>)
    ensures ToSlice(r) == Reversed(ToSlice(l)) + ToSlice(acc)
    ensures Valid(acc) ==> Valid(r)
  {
    if l.Nil? then acc
    else
      ReversedCons(l.x, ToSlice(l.xs));
      ReverseFixedOnto(l.xs, Node(l.x, acc, SizeOf(acc) + 1))
  }

  function ReverseFixed<A>(l: List<A>): (r: List<A>)
    ensures Valid(r) && ToSlice(r) == Reversed(ToSlice(l))
  {
    ReverseFixedOnto(l, Nil)
  }

  /** The corrected Reverse is an involution on valid lists. */
  lemma ReverseFixedInvolution<A>(l: List<A>)
    requires Valid(l)
    ensures ReverseFixed(ReverseFixed(l)) == l
  {
    ReversedReversed(ToSlice(l));
    ValidUnique(ReverseFixed(ReverseFixed(l)), l);
  }

  /** The walk of At's helper: it follows `i` links, dereferencing each. */
  function AtHelper<A>(l: List<A>, i: nat): (r: (A, bool))
    requires i < Length(l)
    ensures r == (ToSlice(l)[i], true)
  {
    if i == 0 then (l.x, true) else AtHelper(l.xs, i - 1)
  }

  /** At answers (zero, false) for nil or an index outside [0, size);
      otherwise it walks `index` links. The walk dereferences nil when the
      cached size exceeds the real length, so the model asks for the
      opposite. */
  function At<A>(l: List<A>, index: int, zero: A): (r: (A, bool))
    requires l.Node? && 0 <= index < l.size ==> index < Length(l)
    ensures r.1 <==> l.Node? && 0 <= index < l.size
    ensures r.1 ==> r.0 == ToSlice(l)[index]
    ensures !r.1 ==> r.0 == zero
  {
    if l.Nil? || index < 0 || index >= l.size then (zero, false)
    else AtHelper(l, index)
  }

  /** On a valid list At finds exactly the indexes of ToSlice. */
  lemma AtValid<A>(l: List<A>, index: int, zero: A)
    requires Valid(l)
    ensures var (v, ok) := At(l, index, zero);
      (ok <==> 0 <= index < |ToSlice(l)|) && (ok ==> v == ToSlice(l)[index])
  {
  }

  function Head<A>(l: List<A>): A
    requires l.Node?
  {
    l.x
  }

  function Tail<A>(l: List<A>): List<A>
    requires l.Node?
  {
    l.xs
  }

  function Size<A>(l: List<A>): int
    requires l.Node?
  {
    l.size
  }

  /** Filter appends every value passing `fn`, head first, to an initially
      nil list. The receiver is dereferenced, so it must not be nil. */
  method Filter<A>(l: List<A>, fn: A -> bool) returns (acc: List<A>)
    requires l.Node?
    ensures Valid(acc) && ToSlice(acc) == Seqs.Filter(fn, ToSlice(l))
  {
    acc := Nil;
    if fn(Head(l)) {
      acc := Append(acc, Head(l));
    }
    ghost var seen := [l.x];
    var p := l;
    while Tail(p) != Nil
      invariant p.Node? && ToSlice(l) == seen + ToSlice(p.xs)
      invariant Valid(acc) && ToSlice(acc) == Seqs.Filter(fn, seen)
      decreases p
    {
      FilterAppend(fn, seen, [Tail(p).x]);
      if fn(Head(Tail(p))) {
        acc := Append(acc, Head(Tail(p)));
      }
      seen := seen + [Tail(p).x];
      p := Tail(p);
    }
    assert ToSlice(l) == seen;
  }

  /** Map builds a one-node list from the head and appends the image of
      every later value. The receiver must not be nil. */
  method Map<A, B>(l: List<A>, fn: A -> B) returns (acc: List<B>)
    requires l.Node?
    ensures Valid(acc) && ToSlice(acc) == MapSeq(fn, ToSlice(l))
  {
    acc := Node(fn(Head(l)), Nil, 1);
    ghost var seen := [l.x];
    var p := l;
    while Tail(p) != Nil
      invariant p.Node? && ToSlice(l) == seen + ToSlice(p.xs)
      invariant Valid(acc) && ToSlice(acc) == MapSeq(fn, seen)
      decreases p
    {
      acc := Append(acc, fn(Head(Tail(p))));
      seen := seen + [Tail(p).x];
      p := Tail(p);
    }
    assert ToSlice(l) == seen;
  }

  /** The list tests: sizes after FromSlice, Append and Prepend, Split in
      and out of range, and At. */
  lemma ListScenarios()
    ensures var l := FromSlice([1, 2, 3, 4, 5, 6]);
      && Size(l) == 6 && Size(Append(l, 7)) == 7
      && Head(Prepend(Append(l, 7), 0)) == 0 && Head(Tail(Prepend(Append(l, 7), 0))) == 1
    ensures var (left, right) := Split(FromSlice([1, 2, 3, 4, 5, 6]), 3, 0);
      && Size(left) == 3 && Head(left) == 1 && Size(right) == 3 && Head(right) == 4
    ensures var (left, right) := Split(FromSlice([1, 2, 3, 4, 5, 6]), 10, 0);
      Size(left) == 6 && right == Sentinel(0)
    ensures Size(Split(Sentinel(0), 5, 0).0) == 0 && Size(Split(Nil, 5, 0).0) == 0
  {
    var l := FromSlice([1, 2, 3, 4, 5, 6]);
    assert ToSlice(Append(l, 7))[0] == 1;
    var (left, right) := Split(l, 3, 0);
    ValidSize(left);
    ValidSize(right);
  }
}
