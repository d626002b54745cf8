/** The arithmetic-progression iterator of src/iter/range_iter.go, over
    `int` only. Its state is `start` (the next value), `end`, `step` and a
    cached `size`. */
module RangeIterator {
  import opened IterProtocol
  import opened Seqs
  import opened GoRuntime
  import SliceIterator
  import MapOpIterator

  datatype RangeIter = RangeIter(start: int, end: int, step: int, size: int)

  /** `&rangeIter{}`: every field zero. */
  const Zero := RangeIter(0, 0, 0, 0)

  /** What Range returns: the iterator and the Go error. */
  datatype Built = Built(iter: RangeIter, err: MaybeError)

  /** Range rejects end < start and a negative step with an all-zero
      iterator. A zero step passes both checks and then divides by zero,
      which the precondition excludes. */
  function Range(start: int, end: int, step: int): (r: Built)
    requires end < start || step != 0
    ensures end < start ==> r == Built(Zero, Fail(EndBeforeStart))
    ensures start <= end && step < 0 ==> r == Built(Zero, Fail(NegativeStep))
    ensures start <= end && step > 0 ==>
      && r.err == NoError
      && r.iter == RangeIter(start, end, step, (end - start) / step + 1)
  {
    if end < start then Built(Zero, Fail(EndBeforeStart))
    else if step < 0 then Built(Zero, Fail(NegativeStep))
    else Built(RangeIter(start, end, step, Quot(end - start, step) + 1), NoError)
  }

  predicate HasNext(it: RangeIter)
  {
    it.size > 0 && it.start + it.step <= it.end + 1
  }

  /** Returns the current start and moves one step on, or returns 0 and
      leaves the state alone when HasNext fails. */
  function Next(it: RangeIter): (r: Step<int, RangeIter>)
    ensures HasNext(it) ==>
      r == Step(it.start, RangeIter(it.start + it.step, it.end, it.step, it.size - 1))
    ensures !HasNext(it) ==> r == Step(0, it)
  {
    if !HasNext(it) then Step(0, it)
    else Step(it.start, it.(start := it.start + it.step, size := it.size - 1))
  }

  /** Count computes the remaining count from `start` in closed form, then
      moves `start` to `end` and zeroes `size`. */
  function Count(it: RangeIter): (r: Step<int, RangeIter>)
    requires it.size > 0 ==> it.step != 0
    ensures it.size <= 0 ==> r == Step(0, it)
    ensures it.size > 0 ==>
      && r.value == Quot(it.end - it.start, it.step) + 1
      && r.state == RangeIter(it.end, it.end, it.step, 0)
  {
    if it.size <= 0 then Step(0, it)
    else Step(Quot(it.end - it.start, it.step) + 1, it.(start := it.end, size := 0))
  }

  function Size(it: RangeIter): int
  {
    it.size
  }

  /** The range iterator seen through the iterator protocol. */
  function Ops(): IterOps<RangeIter, int>
  {
    IterOps(
      it => HasNext(it),
      it => Next(it),
      (it: RangeIter) requires it.size > 0 ==> it.step != 0 => Count(it),
      it => Size(it))
  }

  function Measure(it: RangeIter): nat
  {
    if it.size > 0 then it.size else 0
  }

  /** The values a HasNext/Next loop produces, and the state it leaves. */
  function Yield(it: RangeIter): seq<int>
    decreases Measure(it)
  {
    if HasNext(it) then [it.start] + Yield(Next(it).state) else []
  }

  function Drained(it: RangeIter): (d: RangeIter)
    ensures !HasNext(d) && d.end == it.end && d.step == it.step
    decreases Measure(it)
  {
    if HasNext(it) then Drained(Next(it).state) else it
  }

  function ToSliceLoop(it: RangeIter, out: seq<int>): (r: Step<seq<int>, RangeIter>)
    ensures r == Step(out + Yield(it), Drained(it))
    decreases Measure(it)
  {
    if !HasNext(it) then
      assert out + Yield(it) == out;
      Step(out, it)
    else
      var pulled := Next(it);
      assert out + Yield(it) == (out + [pulled.value]) + Yield(pulled.state);
      ToSliceLoop(pulled.state, out + [pulled.value])
  }

  /** ToSlice drains the iterator into a slice. It first allocates a slice
      with capacity `size`, which panics for a negative size. */
  function ToSlice(it: RangeIter): (r: Step<seq<int>, RangeIter>)
    requires it.size >= 0
    ensures r == Step(Yield(it), Drained(it))
  {
    assert [] + Yield(it) == Yield(it);
    ToSliceLoop(it, [])
  }

  /** start, start + step, start + 2*step, ... (n values). */
  function Progression(start: int, step: int, n: nat): (p: seq<int>)
    ensures |p| == n
  {
    seq(n, i => start + i * step)
  }

  lemma ProgressionCons(start: int, step: int, n: nat)
    requires n > 0
    ensures Progression(start, step, n) == [start] + Progression(start + step, step, n - 1)
  {
    forall i | 1 <= i < n
      ensures Progression(start, step, n)[i] == Progression(start + step, step, n - 1)[i - 1]
    {
      assert i * step == (i - 1) * step + step;
    }
  }

  /** For a positive step the iterator yields start, start + step, ...; it
      yields a value only while that value plus step stays within end + 1,
      and at most `size` values. When it yields fewer than `size` values the
      next one already fails the HasNext bound. */
  lemma {:induction false} YieldShape(it: RangeIter)
    requires it.step > 0
    ensures var ys := Yield(it);
      && |ys| <= Measure(it)
      && ys == Progression(it.start, it.step, |ys|)
      && (forall i :: 0 <= i < |ys| ==> ys[i] + it.step <= it.end + 1)
      && (|ys| < it.size ==> it.start + |ys| * it.step + it.step > it.end + 1)
    decreases Measure(it)
  {
    if HasNext(it) {
      var nx := Next(it).state;
      YieldShape(nx);
      var ys := Yield(it);
      var rest := Yield(nx);
      ProgressionCons(it.start, it.step, |ys|);
      assert it.start + |ys| * it.step == nx.start + |rest| * it.step;
    } else {
      assert Yield(it) == [];
      assert Progression(it.start, it.step, 0) == [];
    }
  }

  /** With step 1 a freshly built range yields exactly `size` values:
      start, start + 1, ..., end. */
  lemma StepOneYieldsSize(start: int, end: int)
    requires start <= end
    ensures var it := Range(start, end, 1).iter;
      Yield(it) == Progression(start, 1, it.size) && it.size == end - start + 1
  {
    var it := Range(start, end, 1).iter;
    YieldShape(it);
  }

  /** A failed Range is inert: Size 0, no next value, Next 0, Count 0. */
  lemma ErrorIteratorIsInert(start: int, end: int, step: int)
    requires end < start || step < 0
    ensures var r := Range(start, end, step);
      && r.err.Fail?
      && Size(r.iter) == 0 && !HasNext(r.iter)
      && Next(r.iter).value == 0 && Count(r.iter).value == 0
  {
  }

  /** After a step-1 range has yielded k values, Count reports the rest and
      drains it: a second Count and Size both give 0. */
  lemma CountAfterNexts(it: RangeIter)
    requires it.step == 1 && it.size > 0 && it.size == it.end - it.start + 1
    ensures Count(it).value == it.size
    ensures var d := Count(it).state; Count(d).value == 0 && Size(d) == 0 && !HasNext(d)
  {
  }

  function FilterLoop(it: RangeIter, fn: int -> bool, out: seq<int>): (r: Step<seq<int>, RangeIter>)
    ensures r == Step(out + Seqs.Filter(fn, Yield(it)), Drained(it))
    decreases Measure(it)
  {
    if !HasNext(it) then
      assert out + Seqs.Filter(fn, Yield(it)) == out;
      Step(out, it)
    else
      var pulled := Next(it);
      assert Yield(it)[0] == pulled.value && Yield(it)[1..] == Yield(pulled.state);
      assert Seqs.Filter(fn, Yield(it)) == (if fn(pulled.value) then [pulled.value] else []) + Seqs.Filter(fn, Yield(pulled.state));
      assert out + Seqs.Filter(fn, Yield(it))
        == (if fn(pulled.value) then out + [pulled.value] else out) + Seqs.Filter(fn, Yield(pulled.state));
      FilterLoop(pulled.state, fn, if fn(pulled.value) then out + [pulled.value] else out)
  }

  /** Filter drains the range into a slice iterator of the matching values. */
  function Filter(it: RangeIter, fn: int -> bool): (r: Step<SliceIterator.SliceIter<int>, RangeIter>)
    ensures r.value == SliceIterator.FromSlice(Seqs.Filter(fn, Yield(it)))
    ensures r.state == Drained(it)
  {
    var f := FilterLoop(it, fn, []);
    Step(SliceIterator.FromSlice(f.value), f.state)
  }

  /** Map wraps the range in the lazy adapter; nothing is consumed yet. */
  function Map<B>(it: RangeIter, fn: int -> B): (m: MapOpIterator.MapIter<RangeIter, int, B>)
    ensures m.from == it && m.mapFn == fn
  {
    MapOpIterator.Map(it, fn)
  }

  function FoldLoop<B>(it: RangeIter, f: (B, int) -> B, acc: B): (r: Step<B, RangeIter>)
    ensures r == Step(FoldL(f, acc, Yield(it)), Drained(it))
    decreases Measure(it)
  {
    if !HasNext(it) then Step(acc, it)
    else
      var pulled := Next(it);
      FoldLCons(f, acc, it.start, Yield(pulled.state));
      FoldLoop(pulled.state, f, f(acc, pulled.value))
  }

  /** Reduce (and Fold) left-fold the yielded values from 0. */
  function Reduce(it: RangeIter, f: (int, int) -> int): (r: Step<int, RangeIter>)
    ensures r == Step(FoldL(f, 0, Yield(it)), Drained(it))
  {
    FoldLoop(it, f, 0)
  }

  function Fold(it: RangeIter, f: (int, int) -> int): (r: Step<int, RangeIter>)
    ensures r == Step(FoldL(f, 0, Yield(it)), Drained(it))
  {
    Reduce(it, f)
  }

  /** FoldLeft left-folds the yielded values from `seed`. */
  function FoldLeft<B>(it: RangeIter, seed: B, f: (B, int) -> B): (r: Step<B, RangeIter>)
    ensures r == Step(FoldL(f, seed, Yield(it)), Drained(it))
  {
    FoldLoop(it, f, seed)
  }

  /** Contains consumes values up to and including the first match. */
  function Contains(it: RangeIter, elm: int): (r: Step<bool, RangeIter>)
    ensures r.value <==> elm in Yield(it)
    ensures !r.value ==> r.state == Drained(it)
    ensures r.value ==> Yield(it) == Yield(it)[..IndexOf(Yield(it), elm) + 1] + Yield(r.state)
    decreases Measure(it)
  {
    if !HasNext(it) then Step(false, it)
    else
      var pulled := Next(it);
      var rest := Yield(pulled.state);
      assert Yield(it) == [pulled.value] + rest;
      if pulled.value == elm then
        assert Yield(it)[..1] == [elm];
        Step(true, pulled.state)
      else
        var r := Contains(pulled.state, elm);
        if r.value then
          IndexOfCons(pulled.value, rest, elm);
          r
        else r
  }

  /** Clone copies the four fields. */
  function Clone(it: RangeIter): (c: RangeIter)
    ensures Yield(c) == Yield(it) && Size(c) == Size(it)
  {
    RangeIter(it.start, it.end, it.step, it.size)
  }

  /** Take(n, step) reconfigures the step; when start + n <= end it also
      makes `n` the new end and n/step the new size. The receiver is not
      touched. */
  function Take(it: RangeIter, n: int, step: int): (r: RangeIter)
    requires it.start + n <= it.end ==> step != 0
    ensures r.start == it.start && r.step == step
    ensures it.start + n <= it.end ==> r.end == n && r.size == Quot(n, step)
    ensures it.start + n > it.end ==> r.end == it.end && r.size == it.size
  {
    if it.start + n <= it.end then RangeIter(it.start, n, step, Quot(n, step))
    else RangeIter(it.start, it.end, step, it.size)
  }

  /** Because Take uses `n` as the new end rather than start + n, taking
      from a range that starts above `n` yields nothing. */
  lemma TakeUsesNAsEnd()
    ensures var it := Take(Range(5, 20, 1).iter, 3, 1);
      Size(it) == 3 && Yield(it) == []
  {
  }

  /** What Take as written yields, for a positive step: a prefix of the
      progression from start with the new step, each value plus step within
      the new end + 1 (which is `n` when start + n <= end), and no more
      values than the new size. */
  lemma TakeYieldsAsWritten(it: RangeIter, n: int, step: int)
    requires step > 0
    ensures var t := Take(it, n, step); var ys := Yield(t);
      && ys == Progression(it.start, step, |ys|)
      && (forall i :: 0 <= i < |ys| ==> ys[i] + step <= t.end + 1)
      && |ys| <= Measure(t)
      && (it.start + n <= it.end ==> t.end == n && t.size == Quot(n, step))
  {
    YieldShape(Take(it, n, step));
  }

  /** The Take scenarios of the range tests: after one Next on 0..5,
      Take(4, 1) has size 4 and yields 1 first; after one Next on 0..4,
      Take(7, 1) keeps size 4 and four Next calls empty it. */
  lemma TakeScenarios()
    ensures var t := Take(Next(Range(0, 5, 1).iter).state, 4, 1);
      Size(t) == 4 && Next(t).value == 1 && Size(Next(t).state) == 3
    ensures var t := Take(Next(Range(0, 4, 1).iter).state, 7, 1);
      Size(t) == 4 && Size(Next(Next(Next(Next(t).state).state).state).state) == 0
  {
  }

  /** What Take hands back, counted by its size: from `start` on, n / step
      values when it uses `n` as the end, otherwise the receiver's size. */
  lemma TakeSizedYield(it: RangeIter, n: int, step: int)
    requires step > 0
    ensures it.start + n <= it.end && n >= 0 ==>
      YieldFixed(Take(it, n, step)) == Progression(it.start, step, n / step)
    ensures it.start + n <= it.end && n < 0 ==> YieldFixed(Take(it, n, step)) == []
    ensures it.start + n > it.end && it.size >= 0 ==>
      YieldFixed(Take(it, n, step)) == Progression(it.start, step, it.size)
  {
    if it.start + n <= it.end && n >= 0 {
      TakeAsEndYield(it, n, step);
    } else if it.start + n <= it.end {
      TakeNegativeYield(it, n, step);
    } else if it.size >= 0 {
      YieldFixedIsProgression(Take(it, n, step));
    }
  }

  lemma TakeAsEndYield(it: RangeIter, n: int, step: int)
    requires step > 0 && it.start + n <= it.end && n >= 0
    ensures YieldFixed(Take(it, n, step)) == Progression(it.start, step, n / step)
  {
    var t := Take(it, n, step);
    TakeAsEndShape(it, n, step);
    YieldFixedIsProgression(t);
  }

  lemma TakeAsEndShape(it: RangeIter, n: int, step: int)
    requires step > 0 && it.start + n <= it.end && n >= 0
    ensures Take(it, n, step) == RangeIter(it.start, n, step, n / step)
  {
    QuotNonNegative(n, step);
  }

  lemma TakeNegativeYield(it: RangeIter, n: int, step: int)
    requires step > 0 && it.start + n <= it.end && n < 0
    ensures YieldFixed(Take(it, n, step)) == []
  {
    QuotNegative(n, step);
  }

  /** Take as documented: the first n values with the configured step,
      when start + n is within the range; otherwise the receiver's bounds. */
  function TakeFixed(it: RangeIter, n: int, step: int): (r: RangeIter)
    ensures r.start == it.start && r.step == step
    ensures it.start + n <= it.end ==> r.size == n
    ensures it.start + n > it.end ==> r.end == it.end && r.size == it.size
  {
    if it.start + n <= it.end then RangeIter(it.start, it.start + (n - 1) * step, step, n)
    else RangeIter(it.start, it.end, step, it.size)
  }

  /** The corrected Take yields exactly the first n values of the
      progression. */
  lemma TakeFixedYieldsFirstN(it: RangeIter, n: int, step: int)
    requires it.start + n <= it.end && n >= 0
    ensures YieldFixed(TakeFixed(it, n, step)) == Progression(it.start, step, n)
    ensures |YieldFixed(TakeFixed(it, n, step))| == n
  {
    YieldFixedIsProgression(TakeFixed(it, n, step));
  }

  /** The input of TakeUsesNAsEnd: the corrected Take yields 5, 6, 7. */
  lemma TakeFixedFromFive()
    ensures YieldFixed(TakeFixed(Range(5, 20, 1).iter, 3, 1)) == [5, 6, 7]
  {
    TakeFixedYieldsFirstN(Range(5, 20, 1).iter, 3, 1);
    assert Progression(5, 1, 3) == [5, 6, 7] by {
      ProgressionCons(5, 1, 3);
      ProgressionCons(6, 1, 2);
      ProgressionCons(7, 1, 1);
      assert Progression(8, 1, 0) == [];
    }
  }

  /** Is `suffix` what is left of `s` after a prefix? */
  predicate IsSuffix(suffix: seq<int>, s: seq<int>)
  {
    |suffix| <= |s| && suffix == s[|s| - |suffix|..]
  }

  /** Drop(n) consumes values while they are at most `n`. It returns the
      receiver itself once a value above `n` comes up, and a fresh
      zero-size iterator (keeping the step) when the receiver runs out. */
  function Drop(it: RangeIter, n: int): (r: Step<RangeIter, RangeIter>)
    ensures IsSuffix(Yield(r.state), Yield(it))
    ensures forall i :: 0 <= i < |Yield(it)| - |Yield(r.state)| ==> Yield(it)[i] <= n
    ensures HasNext(r.state) ==> r.value == r.state && r.state.start > n
    ensures !HasNext(r.state) ==> r.value == RangeIter(0, 0, it.step, 0)
    decreases Measure(it)
  {
    if !HasNext(it) then Step(RangeIter(0, 0, it.step, 0), it)
    else if it.start > n then Step(it, it)
    else Drop(Next(it).state, n)
  }

  function SliceLoop(it: RangeIter, from: int, until: int, out: seq<int>): (r: Step<seq<int>, RangeIter>)
    ensures forall x :: x in r.value ==> x in out || (from <= x <= until && x != it.end && x in Yield(it))
    decreases Measure(it)
  {
    if !HasNext(it) then Step([], it)
    else if it.start < from then SliceLoop(Next(it).state, from, until, out)
    else if it.start > until || it.start == it.end then Step(out, it)
    else
      var pulled := Next(it);
      SliceLoop(pulled.state, from, until, out + [pulled.value])
  }

  /** Slice(from, until) walks the range: it skips values below `from`,
      collects values up to `until`, and stops (returning what it
      collected) at the first value above `until` or equal to `end`. If the
      range runs out first the result is empty. Negative bounds give an
      empty result and leave the receiver alone. */
  function Slice(it: RangeIter, from: int, until: int): (r: Step<SliceIterator.SliceIter<int>, RangeIter>)
    ensures from < 0 || until < 0 ==> r == Step(SliceIterator.FromSlice([]), it)
    ensures SliceIterator.InSync(r.value) && r.value.current == 0
    ensures forall x :: x in r.value.slice ==> from <= x <= until && x != it.end && x in Yield(it)
  {
    if from < 0 || until < 0 then Step(SliceIterator.FromSlice([]), it)
    else
      var s := SliceLoop(it, from, until, []);
      Step(SliceIterator.FromSlice(s.value), s.state)
  }

  function Max(a: int, b: int): int
  {
    if a >= b then a else b
  }

  /** On a step-1 range the slice is the run max(from, start) ..
      min(until, end - 1), or empty when `from` lies beyond `end`. */
  lemma {:induction false} SliceStepOne(it: RangeIter, from: int, until: int, out: seq<int>)
    requires it.step == 1 && it.size == it.end - it.start + 1 && it.size >= 0
    requires 0 <= from && 0 <= until
    requires it.start <= it.end || from > it.end
    ensures var lo := Max(from, it.start);
      var hi := Min(until, it.end - 1);
      SliceLoop(it, from, until, out).value
        == if from > it.end then [] else out + Progression(lo, 1, if hi < lo then 0 else hi - lo + 1)
    decreases Measure(it)
  {
    var lo := Max(from, it.start);
    var hi := Min(until, it.end - 1);
    if !HasNext(it) {
    } else if it.start < from {
      SliceStepOne(Next(it).state, from, until, out);
    } else if it.start > until || it.start == it.end {
      assert Progression(lo, 1, 0) == [];
    } else {
      SliceStepOne(Next(it).state, from, until, out + [it.start]);
      ProgressionCons(lo, 1, hi - lo + 1);
    }
  }

  /** The Size, Next and Count scenario of the range tests over Range(0, 10, 1). */
  lemma SizeNextCountScenario()
    ensures Size(Range(0, 10, 1).iter) == 11
    ensures var n := Next(Range(0, 10, 1).iter); n.value == 0 && Count(n.state).value == 10
  {
  }

  /** Range(1, 9, 1) yields 1 through 9. */
  lemma OneToNine()
    ensures Yield(Range(1, 9, 1).iter) == [1, 2, 3, 4, 5, 6, 7, 8, 9]
  {
    StepOneYieldsSize(1, 9);
  }

  /** The ToSlice and Contains scenarios of the range tests over
      Range(1, 9, 1). */
  lemma ToSliceContainsScenario()
    ensures var it := Range(1, 9, 1).iter;
      && ToSlice(it).value == [1, 2, 3, 4, 5, 6, 7, 8, 9]
      && Contains(it, 5).value && !Contains(it, 10).value
  {
    var it := Range(1, 9, 1).iter;
    assert it == RangeIter(1, 9, 1, 9);
    OneToNine();
    var ys := Yield(it);
    assert ys[4] == 5;
    assert 5 in ys && 10 !in ys;
  }

  /** The Filter scenario of the range tests: the even values of 1..9. */
  lemma FilterScenario()
    ensures Filter(Range(1, 9, 1).iter, v => v % 2 == 0).value.slice == [2, 4, 6, 8]
  {
    var it := Range(1, 9, 1).iter;
    OneToNine();
    var ys := Yield(it);
    var isEven := v => v % 2 == 0;
    assert Seqs.Filter(isEven, ys) == [2, 4, 6, 8] by {
      assert Seqs.Filter(isEven, ys[8..]) == [];
      assert Seqs.Filter(isEven, ys[7..]) == [8];
      assert Seqs.Filter(isEven, ys[6..]) == [8];
      assert Seqs.Filter(isEven, ys[5..]) == [6, 8];
      assert Seqs.Filter(isEven, ys[4..]) == [6, 8];
      assert Seqs.Filter(isEven, ys[3..]) == [4, 6, 8];
      assert Seqs.Filter(isEven, ys[2..]) == [4, 6, 8];
      assert Seqs.Filter(isEven, ys[1..]) == [2, 4, 6, 8];
    }
  }

  /** The Reduce scenario of the range tests: 1 + ... + 9 == 45. */
  lemma ReduceScenario()
    ensures Reduce(Range(1, 9, 1).iter, (a, b) => a + b).value == 45
  {
    var it := Range(1, 9, 1).iter;
    OneToNine();
    var ys := Yield(it);
    var add := (a, b) => a + b;
    assert FoldL(add, 0, ys) == 45 by {
      assert FoldL(add, 0, ys[..1]) == 1;
      assert FoldL(add, 0, ys[..2]) == 3;
      assert ys[..3][..2] == ys[..2];
      assert FoldL(add, 0, ys[..3]) == 6;
      assert ys[..4][..3] == ys[..3];
      assert FoldL(add, 0, ys[..4]) == 10;
      assert ys[..5][..4] == ys[..4];
      assert FoldL(add, 0, ys[..5]) == 15;
      assert ys[..6][..5] == ys[..5];
      assert FoldL(add, 0, ys[..6]) == 21;
      assert ys[..7][..6] == ys[..6];
      assert FoldL(add, 0, ys[..7]) == 28;
      assert ys[..8][..7] == ys[..7];
      assert FoldL(add, 0, ys[..8]) == 36;
      assert ys[..9] == ys;
    }
  }

  /** The Slice and Drop scenarios of the range tests over Range(1, 9, 1). */
  lemma SliceAndDropScenarios()
    ensures var it := Range(1, 9, 1).iter;
      && |Slice(it, 4, 7).value.slice| == 4
      && |Slice(it, 4, 1).value.slice| == 0
      && |Slice(it, 15, 20).value.slice| == 0
      && |Slice(it, -1, 20).value.slice| == 0
      && Size(Drop(it, 4).value) == 5
      && Size(Drop(it, 10).value) == 0
  {
    var it := Range(1, 9, 1).iter;
    SliceStepOne(it, 4, 7, []);
    SliceStepOne(it, 4, 1, []);
    SliceStepOne(it, 15, 20, []);
    var d := Drop(it, 4);
    StepOneYieldsSize(1, 9);
    YieldShape(d.state);
    assert d.state.step == 1;
  }

  /** With a step above 1 the HasNext bound start + step <= end + 1 stops
      one value early: Range(0, 4, 2) reports size 3 but yields only 0, 2. */
  lemma HasNextStopsEarly()
    ensures var it := Range(0, 4, 2).iter;
      Size(it) == 3 && Yield(it) == [0, 2]
  {
    var it := Range(0, 4, 2).iter;
    assert it == RangeIter(0, 4, 2, 3);
    assert Next(it).state == RangeIter(2, 4, 2, 2);
    assert Next(Next(it).state).state == RangeIter(4, 4, 2, 1);
  }

  /** The intended bound: a value remains while the cached size is positive. */
  predicate HasNextFixed(it: RangeIter)
  {
    it.size > 0
  }

  function NextFixed(it: RangeIter): (r: Step<int, RangeIter>)
    ensures HasNextFixed(it) ==>
      r == Step(it.start, RangeIter(it.start + it.step, it.end, it.step, it.size - 1))
    ensures !HasNextFixed(it) ==> r == Step(0, it)
  {
    if !HasNextFixed(it) then Step(0, it)
    else Step(it.start, it.(start := it.start + it.step, size := it.size - 1))
  }

  function YieldFixed(it: RangeIter): seq<int>
    decreases Measure(it)
  {
    if HasNextFixed(it) then [it.start] + YieldFixed(NextFixed(it).state) else []
  }

  lemma {:induction false} YieldFixedIsProgression(it: RangeIter)
    requires it.size >= 0
    ensures YieldFixed(it) == Progression(it.start, it.step, it.size)
    decreases Measure(it)
  {
    if it.size > 0 {
      YieldFixedIsProgression(NextFixed(it).state);
      ProgressionCons(it.start, it.step, it.size);
    } else {
      assert Progression(it.start, it.step, 0) == [];
    }
  }

  /** Euclidean division brackets the span: q * step <= span < (q + 1) * step. */
  lemma QuotientBrackets(span: int, step: int)
    requires span >= 0 && step > 0
    ensures (span / step) * step <= span < (span / step) * step + step
  {
  }

  lemma {:induction false} MulMonotone(i: nat, q: nat, step: nat)
    requires i <= q
    ensures i * step <= q * step
    decreases q - i
  {
    if i < q {
      MulMonotone(i + 1, q, step);
      assert (i + 1) * step == i * step + step;
    }
  }

  /** With the corrected bound, a range built with a positive step yields
      exactly `size` values start, start + step, ..., all within [start, end],
      and the last one is the largest such value. */
  lemma RangeFixedYieldsWholeProgression(start: int, end: int, step: int)
    requires start <= end && step > 0
    ensures var it := Range(start, end, step).iter;
      var ys := YieldFixed(it);
      && ys == Progression(start, step, it.size)
      && (forall i :: 0 <= i < |ys| ==> start <= ys[i] <= end)
      && ys[|ys| - 1] + step > end
  {
    var it := Range(start, end, step).iter;
    var q := (end - start) / step;
    QuotientBrackets(end - start, step);
    assert it.size == q + 1;
    YieldFixedIsProgression(it);
    var ys := YieldFixed(it);
    forall i | 0 <= i < |ys|
      ensures start <= ys[i] <= end
    {
      MulMonotone(i, q, step);
      MulMonotone(0, i, step);
    }
  }

  /** On a freshly built range with a positive step, Count reports exactly
      the number of values the size-bounded iterator yields. */
  lemma CountMatchesFixedYield(start: int, end: int, step: int)
    requires start <= end && step > 0
    ensures var it := Range(start, end, step).iter;
      Count(it).value == |YieldFixed(it)| == Size(it)
  {
    var it := Range(start, end, step).iter;
    QuotNonNegative(end - start, step);
    YieldFixedIsProgression(it);
  }

  /** The corrected iterator yields the value the written one drops. */
  lemma HasNextFixedYieldsAll()
    ensures YieldFixed(Range(0, 4, 2).iter) == [0, 2, 4]
  {
    var it := Range(0, 4, 2).iter;
    assert it == RangeIter(0, 4, 2, 3);
    YieldFixedIsProgression(it);
  }
}
