/** The mutable singly linked list of src/list/linked_list.go: `head`,
    `tail` and `size`, with nodes shared by pointer. The model keeps the
    values reachable from `head` as a sequence (`chain`) and records where
    `tail` points: nowhere, at the last node of the chain, or at a node no
    longer reachable from `head`. Only Delete can produce the last case,
    and once there, appended nodes hang off that unreachable node. Every
    mutating operation returns the list's new state; Go returns a copy of
    the same struct, which is that state. */
module LinkedList {
  import opened Seqs

  datatype TailRef<A> = NoTail | LastOfChain | Detached(value: A)

  datatype List<A> = List(chain: seq<A>, tail: TailRef<A>, size: int)

  /** `*Node[A]` as the library hands it out: nil or a node's value. */
  datatype NodeRef<A> = NilRef | Ref(value: A)

  /** `Node[A]` copied out by Find: the value and the values after it. */
  datatype NodeCopy<A> = NodeCopy(value: A, next: seq<A>)

  /** `&List[A]{}`. */
  function New<A>(): List<A>
  {
    List([], NoTail, 0)
  }

  /** `tail` is nil exactly while nothing has been added; a tail at the
      chain's last node needs a chain. */
  predicate Wf<A>(l: List<A>)
  {
    && (l.tail.NoTail? ==> l.chain == [])
    && (l.tail.LastOfChain? ==> l.chain != [])
  }

  /** The intended state: `tail` is the chain's last node (or nil for the
      empty list) and `size` counts the chain. */
  predicate Sound<A>(l: List<A>)
  {
    && (l.chain == [] <==> l.tail.NoTail?)
    && (l.chain != [] <==> l.tail.LastOfChain?)
    && l.size == |l.chain|
  }

  /** Append links a new node after `tail` and moves `tail` to it. */
  function Append<A>(l: List<A>, elm: A): (r: List<A>)
    requires Wf(l)
    ensures Wf(r) && r.size == (if l.chain == [] then 1 else l.size + 1)
    ensures l.chain == [] ==> r == List([elm], LastOfChain, 1)
    ensures l.tail.LastOfChain? ==> r.chain == l.chain + [elm] && r.tail == LastOfChain
    ensures l.chain != [] && l.tail.Detached? ==> r.chain == l.chain && r.tail == Detached(elm)
  {
    if l.chain == [] then List([elm], LastOfChain, 1)
    else if l.tail.LastOfChain? then List(l.chain + [elm], LastOfChain, l.size + 1)
    else List(l.chain, Detached(elm), l.size + 1)
  }

  /** Prepend links a new node in front of `head`. */
  function Prepend<A>(l: List<A>, elm: A): (r: List<A>)
    ensures r.chain == [elm] + l.chain
    ensures Wf(l) ==> Wf(r)
    ensures l.chain == [] ==> r == List([elm], LastOfChain, 1)
    ensures l.chain != [] ==> r.tail == l.tail && r.size == l.size + 1
  {
    if l.chain == [] then List([elm], LastOfChain, 1)
    else List([elm] + l.chain, l.tail, l.size + 1)
  }

  function FromListLoop<A>(s: seq<A>, i: nat, l: List<A>): (r: List<A>)
    requires i <= |s| && Sound(l) && l.chain == s[..i]
    ensures Sound(r) && r.chain == s
    decreases |s| - i
  {
    if i == |s| then l
    else
      assert s[..i + 1] == s[..i] + [s[i]];
      FromListLoop(s, i + 1, Append(l, s[i]))
  }

  /** FromList appends the values in order and then stores their count. */
  function FromList<A>(s: seq<A>): (r: List<A>)
    ensures Sound(r) && r.chain == s
  {
    var l := FromListLoop(s, 0, New());
    l.(size := |s|)
  }

  /** The state after unlinking the node at `i`: `tail` still points at it
      when it was the last one. */
  function Unlink<A>(l: List<A>, i: nat): List<A>
    requires i < |l.chain|
  {
    var t := if i == |l.chain| - 1 && l.tail.LastOfChain? then Detached(l.chain[i]) else l.tail;
    List(l.chain[..i] + l.chain[i + 1..], t, l.size - 1)
  }

  /** The loop over `current`: it looks at the node after position `k`. */
  function DeleteAfter<A(==)>(l: List<A>, k: nat, elm: A): (r: List<A>)
    requires k < |l.chain| && elm !in l.chain[..k + 1]
    ensures elm in l.chain ==> r == Unlink(l, IndexOf(l.chain, elm))
    ensures elm !in l.chain ==> r == l
    decreases |l.chain| - k
  {
    if k + 1 == |l.chain| then
      assert l.chain[..k + 1] == l.chain;
      l
    else if l.chain[k + 1] == elm then
      IndexOfAt(l.chain, k + 1, elm);
      Unlink(l, k + 1)
    else
      assert l.chain[..k + 2] == l.chain[..k + 1] + [l.chain[k + 1]];
      DeleteAfter(l, k + 1, elm)
  }

  /** Delete unlinks the first node holding `elm`, if any, and decrements
      `size`. It never moves `tail`. */
  function Delete<A(==)>(l: List<A>, elm: A): (r: List<A>)
    ensures elm in l.chain ==> r == Unlink(l, IndexOf(l.chain, elm))
    ensures elm !in l.chain ==> r == l
  {
    if l.chain == [] then l
    else if l.chain[0] == elm then Unlink(l, 0)
    else DeleteAfter(l, 0, elm)
  }

  /** What Delete does to the chain and the size, and that it keeps the
      state well formed; on a sound list it keeps soundness unless the node
      removed was the last one. */
  lemma DeleteEffect<A>(l: List<A>, elm: A)
    requires Wf(l)
    ensures var r := Delete(l, elm);
      && Wf(r)
      && (elm in l.chain ==>
            && r.size == l.size - 1 && |r.chain| == |l.chain| - 1
            && multiset(r.chain) == multiset(l.chain) - multiset{elm})
      && (Sound(l) && elm in l.chain && IndexOf(l.chain, elm) < |l.chain| - 1 ==> Sound(r))
  {
    if elm in l.chain {
      var i := IndexOf(l.chain, elm);
      assert l.chain == l.chain[..i] + [elm] + l.chain[i + 1..];
    }
  }

  /** Find walks from `head` and copies out the first node holding `elm`;
      when there is none it returns `Node{}`. */
  function Find<A(==)>(l: List<A>, elm: A, zero: A): (r: NodeCopy<A>)
    ensures elm in l.chain ==> r == NodeCopy(elm, l.chain[IndexOf(l.chain, elm) + 1..])
    ensures elm !in l.chain ==> r == NodeCopy(zero, [])
  {
    FindFrom(l.chain, 0, elm, zero)
  }

  function FindFrom<A(==)>(chain: seq<A>, k: nat, elm: A, zero: A): (r: NodeCopy<A>)
    requires k <= |chain| && elm !in chain[..k]
    ensures elm in chain ==> r == NodeCopy(elm, chain[IndexOf(chain, elm) + 1..])
    ensures elm !in chain ==> r == NodeCopy(zero, [])
    decreases |chain| - k
  {
    if k == |chain| then
      assert chain[..k] == chain;
      NodeCopy(zero, [])
    else if chain[k] == elm then
      IndexOfAt(chain, k, elm);
      NodeCopy(elm, chain[k + 1..])
    else
      assert chain[..k + 1] == chain[..k] + [chain[k]];
      FindFrom(chain, k + 1, elm, zero)
  }

  function Size<A>(l: List<A>): int
  {
    l.size
  }

  function Head<A>(l: List<A>): (r: NodeRef<A>)
    ensures r.NilRef? <==> l.chain == []
    ensures l.chain != [] ==> r.value == l.chain[0]
  {
    if l.chain == [] then NilRef else Ref(l.chain[0])
  }

  function Tail<A>(l: List<A>): (r: NodeRef<A>)
    requires Wf(l)
    ensures Sound(l) ==> (r.NilRef? <==> l.chain == []) && (l.chain != [] ==> r.value == l.chain[|l.chain| - 1])
  {
    match l.tail
    case NoTail => NilRef
    case LastOfChain => Ref(l.chain[|l.chain| - 1])
    case Detached(v) => Ref(v)
  }

  /** On a sound list Append and Prepend keep it sound, each adding one
      value at its end of the chain. */
  lemma AppendPrependSound<A>(l: List<A>, elm: A)
    requires Sound(l)
    ensures Sound(Append(l, elm)) && Append(l, elm).chain == l.chain + [elm]
    ensures Sound(Prepend(l, elm)) && Prepend(l, elm).chain == [elm] + l.chain
  {
  }

  /** Deleting the last node leaves `tail` on it, so a later Append links
      the new node to that unreachable node: from [1, 2], deleting 2 and
      appending 3 leaves a chain [1] in which 3 cannot be found, with
      size 2. */
  lemma DeleteLastLosesAppend()
    ensures var r := Append(Delete(FromList([1, 2]), 2), 3);
      && r.chain == [1] && Size(r) == 2
      && Find(r, 3, 0) == NodeCopy(0, []) && Tail(r) == Ref(3)
  {
    var l := FromList([1, 2]);
    assert IndexOf(l.chain, 2) == 1;
    assert l.chain[..1] + l.chain[2..] == [1];
  }

  /** Delete that moves `tail` back to the new last node (or to nil) when it
      removes the last node. */
  function DeleteFixed<A(==)>(l: List<A>, elm: A): (r: List<A>)
    ensures elm in l.chain ==> r.chain == l.chain[..IndexOf(l.chain, elm)] + l.chain[IndexOf(l.chain, elm) + 1..]
    ensures elm !in l.chain ==> r == l
    ensures Sound(l) ==> Sound(r)
  {
    var d := Delete(l, elm);
    if elm in l.chain && IndexOf(l.chain, elm) == |l.chain| - 1 && l.tail.LastOfChain? then
      d.(tail := if d.chain == [] then NoTail else LastOfChain)
    else d
  }

  /** With the corrected Delete every appended value stays reachable. */
  lemma DeleteFixedThenAppend<A>(l: List<A>, x: A, elm: A, zero: A)
    requires Sound(l)
    ensures var r := Append(DeleteFixed(l, x), elm);
      && Sound(r) && r.chain[|r.chain| - 1] == elm
      && Find(r, elm, zero).value == elm
  {
    var r := Append(DeleteFixed(l, x), elm);
    assert elm in r.chain;
  }

  /** The list the linked-list tests start from. */
  lemma OneToSix()
    ensures FromList([1, 2, 3, 4, 5, 6]) == List([1, 2, 3, 4, 5, 6], LastOfChain, 6)
  {
  }

  /** The linked-list tests of FromList, Append and Prepend on
      [1, 2, 3, 4, 5, 6]. */
  lemma BuildScenarios()
    ensures var l := FromList([1, 2, 3, 4, 5, 6]);
      && Head(l) == Ref(1)
      && Head(Append(l, 7)) == Ref(1) && Tail(Append(l, 7)) == Ref(7) && Size(Append(l, 7)) == 7
      && Size(Prepend(l, 7)) == 7 && Tail(Prepend(l, 7)) == Ref(6)
      && Head(Prepend(New(), 10)) == Ref(10)
  {
    OneToSix();
  }

  /** The linked-list tests of Find on [1, 2, 3, 4, 5, 6]. */
  lemma FindScenarios()
    ensures var l := FromList([1, 2, 3, 4, 5, 6]);
      && Find(l, 3, 0).value == 3 && Find(l, 1, 0).value == 1 && Find(l, 10, 0) == NodeCopy(0, [])
  {
    OneToSix();
    var l := List([1, 2, 3, 4, 5, 6], LastOfChain, 6);
    IndexOfAt(l.chain, 0, 1);
    IndexOfAt(l.chain, 2, 3);
  }

  /** The linked-list tests of Delete on [1, 2, 3, 4, 5, 6] and on an empty
      list. */
  lemma DeleteScenarios()
    ensures var d := Delete(FromList([1, 2, 3, 4, 5, 6]), 1);
      && Head(d) == Ref(2) && Size(d) == 5 && Size(Delete(d, 6)) == 4
    ensures Size(Delete(New<int>(), 5)) == 0
  {
    OneToSix();
    var l := List([1, 2, 3, 4, 5, 6], LastOfChain, 6);
    IndexOfAt(l.chain, 0, 1);
    var d := Delete(l, 1);
    assert d.chain == [2, 3, 4, 5, 6];
    IndexOfAt(d.chain, 4, 6);
  }
}
