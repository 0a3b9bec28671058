/**
 * The bounding adaptor of cpp-lazy: the `Take` view and its factories
 * `takewhilerange`, `takewhile`, `takerange`, `take` and `slice`.
 *
 * A position is an integer index into the source sequence `s`; the
 * predicate is a total function value. Every factory reduces to one triple
 * (begin, end, predicate), and the view stores a begin iterator
 * (begin, end, predicate) and an end iterator (end, end, predicate).
 */
module LzTake {

  /** The state of a take iterator: wrapped position, captured end, predicate. */
  datatype TakeIterator<!T> = TakeIterator(pos: int, end: int, pred: T -> bool)

  /** The view: the two iterators built once by the constructor. */
  datatype TakeView<!T> = TakeView(beginIt: TakeIterator<T>, endIt: TakeIterator<T>) {

    /**
     * What the constructor establishes: the begin iterator captures the end
     * iterator's position as its end, the end iterator sits at its own captured
     * end, and both carry the same predicate.
     */
    ghost predicate Valid() {
      beginIt.end == endIt.pos == endIt.end && beginIt.pred == endIt.pred
    }

    /** `begin()` is const and hands out a copy of the stored begin iterator. */
    function Begin(): (it: TakeIterator<T>)
      ensures it == beginIt
      ensures Valid() ==> it.end == End().pos && it.pred == End().pred
    {
      beginIt
    }

    /** `end()` is const and hands out a copy of the stored end iterator. */
    function End(): (it: TakeIterator<T>)
      ensures it == endIt
      ensures Valid() ==> it.pos == it.end
    {
      endIt
    }
  }

  /** The iterator's position lies between zero and its captured end, which lies inside `s`. */
  predicate InRange<T>(s: seq<T>, it: TakeIterator<T>) {
    0 <= it.pos <= it.end <= |s|
  }

  /**
   * An iterator compares equal to the end iterator once its position reaches
   * the captured end or the predicate is false on the current element.
   */
  predicate AtEnd<T>(s: seq<T>, it: TakeIterator<T>)
    requires InRange(s, it)
    ensures it.pos == it.end ==> AtEnd(s, it)
    ensures !AtEnd(s, it) ==> it.pos < it.end && it.pred(s[it.pos])
  {
    it.pos == it.end || !it.pred(s[it.pos])
  }

  // The random-access operations forward to the wrapped position.

  function Deref<T>(s: seq<T>, it: TakeIterator<T>): T
    requires 0 <= it.pos < |s|
  {
    s[it.pos]
  }

  function Next<T>(it: TakeIterator<T>): TakeIterator<T> { it.(pos := it.pos + 1) }

  function Prev<T>(it: TakeIterator<T>): TakeIterator<T> { it.(pos := it.pos - 1) }

  function Offset<T>(it: TakeIterator<T>, n: int): TakeIterator<T> { it.(pos := it.pos + n) }

  function Distance<T>(a: TakeIterator<T>, b: TakeIterator<T>): int { a.pos - b.pos }

  predicate Less<T>(a: TakeIterator<T>, b: TakeIterator<T>) { a.pos < b.pos }

  /** `++` applied `k` times. */
  function NextN<T>(it: TakeIterator<T>, k: nat): TakeIterator<T>
    decreases k
  {
    if k == 0 then it else NextN(Next(it), k - 1)
  }

  /** The elements a traversal from `it` yields: dereference and `++` until the iterator equals end. */
  function Traverse<T>(s: seq<T>, it: TakeIterator<T>): (r: seq<T>)
    requires InRange(s, it)
    ensures |r| <= it.end - it.pos
    ensures forall i :: 0 <= i < |r| ==> r[i] == s[it.pos + i] && it.pred(r[i])
    decreases it.end - it.pos
  {
    if AtEnd(s, it) then [] else [s[it.pos]] + Traverse(s, Next(it))
  }

  /** Reference definition: `r` is the longest prefix of `xs` on which `p` holds. */
  ghost predicate IsLongestPrefix<T>(r: seq<T>, xs: seq<T>, p: T -> bool) {
    && |r| <= |xs| && r == xs[..|r|]
    && (forall i :: 0 <= i < |r| ==> p(r[i]))
    && (|r| < |xs| ==> !p(xs[|r|]))
  }

  // ---------------------------------------------------------------------
  // The constructor and the factories
  // ---------------------------------------------------------------------

  /** `takewhilerange(begin, end, predicate)`: the `Take` constructor on the triple. */
  function TakeWhileRange<T>(begin: int, end: int, pred: T -> bool): (v: TakeView<T>)
    ensures v.Valid()
    ensures v.Begin().pos == begin && v.Begin().end == end && v.Begin().pred == pred
    ensures v.End().pos == end && v.End().end == end && v.End().pred == pred
  {
    TakeView(TakeIterator(begin, end, pred), TakeIterator(end, end, pred))
  }

  /** `takewhile(iterable, predicate)`, portable branch: the whole of `s`. */
  function TakeWhile<T>(s: seq<T>, pred: T -> bool): (v: TakeView<T>)
    ensures v.Begin().pos == 0 && v.End().pos == |s|
  {
    TakeWhileRange(0, |s|, pred)
  }

  /**
   * In contiguous storage the element at position `i` lies `i` elements past
   * the first one, so taking its address maps a position to that offset.
   */
  function AddressOf(i: int): int { i }

  /**
   * `takewhile(iterable, predicate)`, MSVC branch: an empty range becomes
   * [&*begin, &*end); otherwise the end is rebuilt as &*(end - 1) + 1.
   */
  function TakeWhileMsvc<T>(s: seq<T>, pred: T -> bool): (v: TakeView<T>)
    ensures v.Valid() && v.Begin().pred == pred
    ensures v.Begin().pos == 0 && v.End().pos == |s|
  {
    var begin, end := 0, |s|;
    if begin == end then TakeWhileRange(AddressOf(begin), AddressOf(end), pred)
    else
      var last := end - 1;
      TakeWhileRange(AddressOf(begin), AddressOf(last) + 1, pred)
  }

  /** `takerange(begin, end)`: `takewhilerange` with a predicate that is always true. */
  function TakeRange<T>(begin: int, end: int): (v: TakeView<T>)
    ensures v.Begin().pos == begin && v.End().pos == end
  {
    TakeWhileRange(begin, end, (x: T) => true)
  }

  /** `take(iterable, amount)`: [begin, begin + amount). */
  function Take<T>(s: seq<T>, amount: nat): (v: TakeView<T>)
    requires amount <= |s|
    ensures v.Begin().pos == 0 && v.End().pos == amount
  {
    var begin := 0;
    TakeRange(begin, begin + amount)
  }

  /** `slice(iterable, from, to)`: [begin + from, begin + to). */
  function Slice<T>(s: seq<T>, from: nat, to: nat): (v: TakeView<T>)
    requires from <= to <= |s|
    ensures v.Begin().pos == from && v.End().pos == to
  {
    var begin := 0;
    TakeRange(begin + from, begin + to)
  }

  // ---------------------------------------------------------------------
  // Dereference by reference
  // ---------------------------------------------------------------------

  /** `*it = x` through a take iterator over an array writes the array itself. */
  method AssignThrough<T>(a: array<T>, it: TakeIterator<T>, x: T)
    requires 0 <= it.pos < a.Length
    modifies a
    ensures a[..] == old(a[..])[it.pos := x]
  {
    a[it.pos] := x;
  }

  // ---------------------------------------------------------------------
  // What a traversal yields
  // ---------------------------------------------------------------------

  /** A traversal yields exactly the longest prefix of [pos, end) on which the predicate holds. */
  lemma {:induction false} TraverseIsLongestPrefix<T>(s: seq<T>, it: TakeIterator<T>)
    requires InRange(s, it)
    ensures IsLongestPrefix(Traverse(s, it), s[it.pos..it.end], it.pred)
    decreases it.end - it.pos
  {
    var xs := s[it.pos..it.end];
    if !AtEnd(s, it) {
      TraverseIsLongestPrefix(s, Next(it));
      var rest := Traverse(s, Next(it));
      assert xs == [s[it.pos]] + s[it.pos + 1..it.end];
      assert Traverse(s, it) == [s[it.pos]] + rest;
      forall i | 0 <= i < |Traverse(s, it)|
        ensures it.pred(Traverse(s, it)[i])
      {
        if i > 0 { assert Traverse(s, it)[i] == rest[i - 1]; }
      }
    }
  }

  /** The longest prefix is unique. */
  lemma LongestPrefixUnique<T>(r1: seq<T>, r2: seq<T>, xs: seq<T>, p: T -> bool)
    requires IsLongestPrefix(r1, xs, p) && IsLongestPrefix(r2, xs, p)
    ensures r1 == r2
  {
    assert r1 == xs[..|r1|] && r2 == xs[..|r2|];
  }

  /**
   * Stepping `j` times from `it`: before the last yielded element the iterator
   * is not at end and dereferences to element `j` of the traversal; after it,
   * the iterator is at end.
   */
  lemma {:induction false} TraverseSteps<T>(s: seq<T>, it: TakeIterator<T>, j: nat)
    requires InRange(s, it)
    requires j <= |Traverse(s, it)|
    ensures NextN(it, j).pos == it.pos + j && InRange(s, NextN(it, j))
    ensures j < |Traverse(s, it)| ==>
      !AtEnd(s, NextN(it, j)) && Deref(s, NextN(it, j)) == Traverse(s, it)[j]
    ensures j == |Traverse(s, it)| ==> AtEnd(s, NextN(it, j))
    decreases j
  {
    if j > 0 {
      assert !AtEnd(s, it);
      TraverseSteps(s, Next(it), j - 1);
    }
  }

  /** On a range whose every element satisfies the predicate, a traversal yields all of [pos, end). */
  lemma TraverseAll<T>(s: seq<T>, it: TakeIterator<T>)
    requires InRange(s, it)
    requires forall i :: it.pos <= i < it.end ==> it.pred(s[i])
    ensures Traverse(s, it) == s[it.pos..it.end]
  {
    TraverseIsLongestPrefix(s, it);
    var xs := s[it.pos..it.end];
    assert IsLongestPrefix(xs, xs, it.pred) by {
      forall i | 0 <= i < |xs| ensures it.pred(xs[i]) {
        assert xs[i] == s[it.pos + i];
      }
    }
    LongestPrefixUnique(Traverse(s, it), xs, xs, it.pred);
  }

  /** The view's iterators: begin carries the captured end, end is already at end and yields nothing. */
  lemma ViewIterators<T>(s: seq<T>, begin: int, end: int, pred: T -> bool)
    requires 0 <= begin <= end <= |s|
    ensures var v := TakeWhileRange(begin, end, pred);
      && InRange(s, v.Begin()) && InRange(s, v.End())
      && v.Begin().end == v.End().pos
      && AtEnd(s, v.End()) && Traverse(s, v.End()) == []
      && Distance(v.End(), v.Begin()) == end - begin
  {
  }

  /** `takewhilerange(b, e, p)` yields the longest prefix of s[b..e) on which `p` holds. */
  lemma TakeWhileRangeYields<T>(s: seq<T>, begin: int, end: int, pred: T -> bool)
    requires 0 <= begin <= end <= |s|
    ensures IsLongestPrefix(Traverse(s, TakeWhileRange(begin, end, pred).Begin()), s[begin..end], pred)
  {
    TraverseIsLongestPrefix(s, TakeWhileRange(begin, end, pred).Begin());
  }

  /**
   * `takewhile(s, p)` yields the longest prefix of `s` on which `p` holds: it
   * stops before the first element where `p` is false, and yields all of `s`
   * when `p` never fails.
   */
  lemma TakeWhileYields<T>(s: seq<T>, pred: T -> bool)
    ensures IsLongestPrefix(Traverse(s, TakeWhile(s, pred).Begin()), s, pred)
    ensures (forall i :: 0 <= i < |s| ==> pred(s[i])) ==> Traverse(s, TakeWhile(s, pred).Begin()) == s
  {
    TakeWhileRangeYields(s, 0, |s|, pred);
    assert s[0..|s|] == s;
    if forall i :: 0 <= i < |s| ==> pred(s[i]) {
      TraverseAll(s, TakeWhile(s, pred).Begin());
    }
  }

  /** `takewhile(s, p)` yields `r` whenever `r` is the longest prefix of `s` on which `p` holds. */
  lemma TakeWhileYieldsPrefix<T>(s: seq<T>, pred: T -> bool, r: seq<T>)
    requires IsLongestPrefix(r, s, pred)
    ensures Traverse(s, TakeWhile(s, pred).Begin()) == r
  {
    TakeWhileYields(s, pred);
    LongestPrefixUnique(Traverse(s, TakeWhile(s, pred).Begin()), r, s, pred);
  }

  /** The MSVC branch builds the same view as the portable branch, for empty and non-empty ranges. */
  lemma TakeWhileMsvcAgrees<T>(s: seq<T>, pred: T -> bool)
    ensures TakeWhileMsvc(s, pred) == TakeWhile(s, pred)
    ensures s == [] ==> TakeWhileMsvc(s, pred).Begin().pos == TakeWhileMsvc(s, pred).End().pos
  {
  }

  /** `takerange(b, e)` yields all of s[b..e): k = e - b elements, then it equals end. */
  lemma TakeRangeYields<T>(s: seq<T>, begin: int, end: int)
    requires 0 <= begin <= end <= |s|
    ensures var it := TakeRange<T>(begin, end).Begin();
      && Traverse(s, it) == s[begin..end]
      && InRange(s, NextN(it, end - begin)) && AtEnd(s, NextN(it, end - begin))
      && NextN(it, end - begin).pos == TakeRange<T>(begin, end).End().pos
  {
    var it := TakeRange<T>(begin, end).Begin();
    TraverseAll(s, it);
    TraverseSteps(s, it, end - begin);
  }

  /** `take(s, n)` yields exactly the first `n` elements of `s` in order, then equals end. */
  lemma TakeYields<T>(s: seq<T>, n: nat)
    requires n <= |s|
    ensures var it := Take(s, n).Begin();
      && Traverse(s, it) == s[..n]
      && |Traverse(s, it)| == n
      && InRange(s, NextN(it, n)) && AtEnd(s, NextN(it, n))
      && NextN(it, n).pos == Take(s, n).End().pos
  {
    TakeRangeYields(s, 0, n);
    assert s[0..n] == s[..n];
  }

  /** `slice(s, from, to)` yields exactly s[from..to), which is `to - from` elements. */
  lemma SliceYields<T>(s: seq<T>, from: nat, to: nat)
    requires from <= to <= |s|
    ensures var it := Slice(s, from, to).Begin();
      && Traverse(s, it) == s[from..to]
      && |Traverse(s, it)| == to - from
      && InRange(s, NextN(it, to - from)) && AtEnd(s, NextN(it, to - from))
  {
    TakeRangeYields(s, from, to);
  }

  // ---------------------------------------------------------------------
  // Concrete scenarios
  // ---------------------------------------------------------------------

  function OneToTen(): seq<int> { [1, 2, 3, 4, 5, 6, 7, 8, 9, 10] }

  function OneToThree(): seq<int> { [1, 2, 3] }

  /** take([1..10], 3) yields 1, 2, 3 and then equals end. */
  lemma TakeThreeScenario()
    ensures var s := OneToTen(); var it := Take(s, 3).Begin();
      && Deref(s, it) == 1 && Deref(s, Next(it)) == 2 && Deref(s, Next(Next(it))) == 3
      && AtEnd(s, Next(Next(Next(it))))
      && Traverse(s, it) == [1, 2, 3]
  {
    var s := OneToTen();
    TakeYields(s, 3);
    assert NextN(Take(s, 3).Begin(), 3) == Next(Next(Next(Take(s, 3).Begin())));
  }

  /** slice([1..10], 2, 4) yields 3, 4 and then equals end. */
  lemma SliceScenario()
    ensures var s := OneToTen(); var it := Slice(s, 2, 4).Begin();
      && Deref(s, it) == 3 && Deref(s, Next(it)) == 4
      && AtEnd(s, Next(Next(it)))
      && Traverse(s, it) == [3, 4]
  {
    var s := OneToTen();
    SliceYields(s, 2, 4);
    assert NextN(Slice(s, 2, 4).Begin(), 2) == Next(Next(Slice(s, 2, 4).Begin()));
  }

  /** takewhile([1..10], x != 5) yields 1, 2, 3, 4. */
  lemma TakeWhileScenario()
    ensures Traverse(OneToTen(), TakeWhile(OneToTen(), (x: int) => x != 5).Begin()) == [1, 2, 3, 4]
  {
    var s, p := OneToTen(), (x: int) => x != 5;
    assert s[..4] == [1, 2, 3, 4];
    TakeWhileYieldsPrefix(s, p, [1, 2, 3, 4]);
  }

  /** On take([1, 2, 3], 2): distance(begin, end) == 2 and begin < end. */
  lemma TakeDistanceScenario()
    ensures Distance(Take(OneToThree(), 2).End(), Take(OneToThree(), 2).Begin()) == 2
    ensures Less(Take(OneToThree(), 2).Begin(), Take(OneToThree(), 2).End())
  {
  }

  /**
   * On take([1, 2, 3], 2): begin()[0] == 1, *(begin + 1) == 2, ++ gives 2,
   * *(it - 1) after ++ gives 1, and ++ then -- returns to element 1.
   */
  lemma TakeBinaryOpsScenario()
    ensures Deref(OneToThree(), Offset(Take(OneToThree(), 2).Begin(), 0)) == 1
    ensures Deref(OneToThree(), Offset(Take(OneToThree(), 2).Begin(), 1)) == 2
    ensures Deref(OneToThree(), Next(Take(OneToThree(), 2).Begin())) == 2
    ensures Deref(OneToThree(), Offset(Next(Take(OneToThree(), 2).Begin()), -1)) == 1
    ensures Prev(Next(Take(OneToThree(), 2).Begin())) == Take(OneToThree(), 2).Begin()
    ensures Deref(OneToThree(), Prev(Next(Take(OneToThree(), 2).Begin()))) == 1
  {
  }

  /** The elements of take([1, 2, 3], 2), in traversal order, are [1, 2]. */
  lemma TakeToContainerScenario()
    ensures Traverse(OneToThree(), Take(OneToThree(), 2).Begin()) == [1, 2]
  {
    TakeYields(OneToThree(), 2);
  }

  /** Writing 0 through take(array, 3).begin() sets array[0] to 0. */
  method ByReferenceScenario() returns (first: int)
    ensures first == 0
  {
    var a := new int[10] [1, 2, 3, 4, 5, 6, 7, 8, 9, 10];
    var taken := Take(a[..], 3);
    AssignThrough(a, taken.Begin(), 0);
    first := a[0];
  }
}
