/**
 * The construction layer of cpp-lazy's concatenation adaptor: the
 * `detail::IsAllSame` type check, the `Concatenate` view with its `begin()`
 * and `end()`, and the factories `concatrange` and `concat`.
 *
 * A C++ type is represented by a tag (its spelled name). Each slot of the
 * begin and end tuples is an integer position into that slot's own range;
 * all ranges share one element type `T`.
 */
module LzConcatenate {

  /** The name of a C++ type. */
  type TypeTag = string

  /** What `std::iterator_traits` says of one range's iterator. */
  datatype IteratorTraits = IteratorTraits(valueType: TypeTag, pointer: TypeTag, reference: TypeTag)

  /** One argument of `concat`: its elements and the traits of its iterator. */
  datatype Range<T> = Range(elems: seq<T>, traits: IteratorTraits)

  /**
   * `IsAllSame<Same, First, More...>`: `Same` agrees with `First`, and the same
   * holds of `First, More...`; with exactly two types, the two agree.
   */
  predicate IsAllSame<K(==)>(tags: seq<K>)
    requires |tags| >= 2
    ensures IsAllSame(tags) ==> forall i :: 0 <= i < |tags| ==> tags[i] == tags[0]
    ensures !IsAllSame(tags) ==> exists i :: 0 < i < |tags| && tags[i - 1] != tags[i]
    decreases |tags|
  {
    if |tags| == 2 then tags[0] == tags[1]
    else tags[0] == tags[1] && IsAllSame(tags[1..])
  }

  /** Reference definition: every tag equals every other. */
  predicate AllEqual<K(==)>(tags: seq<K>) {
    forall i, j :: 0 <= i < |tags| && 0 <= j < |tags| ==> tags[i] == tags[j]
  }

  /** The pairwise, adjacent check is true exactly when all tags are equal. */
  lemma {:induction false} IsAllSameIffAllEqual<K>(tags: seq<K>)
    requires |tags| >= 2
    ensures IsAllSame(tags) <==> AllEqual(tags)
    decreases |tags|
  {
    if |tags| > 2 {
      IsAllSameIffAllEqual(tags[1..]);
      if IsAllSame(tags) {
        forall i, j | 0 <= i < |tags| && 0 <= j < |tags|
          ensures tags[i] == tags[j]
        {
          assert tags[i] == tags[1..][if i == 0 then 0 else i - 1];
          assert tags[j] == tags[1..][if j == 0 then 0 else j - 1];
        }
      }
    }
  }

  /** The iterator state `ConcatenateIterator(current, begin, end)`, as the view hands it out. */
  datatype ConcatIterator = ConcatIterator(current: seq<int>, begin: seq<int>, end: seq<int>)

  /** The view: the begin and end tuples, copied once by the constructor. */
  datatype Concatenate = Concatenate(beginTuple: seq<int>, endTuple: seq<int>) {

    /** `begin()`: an iterator whose current state is its own begin tuple, the view's. */
    function Begin(): (it: ConcatIterator)
      ensures it.current == it.begin == beginTuple && it.end == endTuple
    {
      ConcatIterator(beginTuple, beginTuple, endTuple)
    }

    /** `end()`: an iterator whose current state is its own end tuple, carrying the same tuples as `begin()`. */
    function End(): (it: ConcatIterator)
      ensures it.current == it.end == endTuple
      ensures it.begin == Begin().begin && it.end == Begin().end
    {
      ConcatIterator(endTuple, beginTuple, endTuple)
    }
  }

  function ValueTypes(traits: seq<IteratorTraits>): (r: seq<TypeTag>)
    ensures |r| == |traits| && forall i :: 0 <= i < |r| ==> r[i] == traits[i].valueType
  {
    seq(|traits|, i requires 0 <= i < |traits| => traits[i].valueType)
  }

  function Pointers(traits: seq<IteratorTraits>): (r: seq<TypeTag>)
    ensures |r| == |traits| && forall i :: 0 <= i < |r| ==> r[i] == traits[i].pointer
  {
    seq(|traits|, i requires 0 <= i < |traits| => traits[i].pointer)
  }

  function References(traits: seq<IteratorTraits>): (r: seq<TypeTag>)
    ensures |r| == |traits| && forall i :: 0 <= i < |r| ==> r[i] == traits[i].reference
  {
    seq(|traits|, i requires 0 <= i < |traits| => traits[i].reference)
  }

  /**
   * The build-time checks of `concatrange`: at least two iterators, and their
   * value, pointer and reference types all agree.
   */
  predicate ConcatAdmissible(traits: seq<IteratorTraits>)
    ensures ConcatAdmissible(traits) ==> |traits| >= 2 && forall i :: 0 <= i < |traits| ==>
      traits[i].valueType == traits[0].valueType
      && traits[i].pointer == traits[0].pointer
      && traits[i].reference == traits[0].reference
  {
    && |traits| >= 2
    && IsAllSame(ValueTypes(traits))
    && IsAllSame(Pointers(traits))
    && IsAllSame(References(traits))
  }

  /**
   * The checks of `concatrange` admit a group of iterators exactly when there
   * are at least two and all agree on value, pointer and reference type.
   */
  lemma ConcatAdmissibleIff(traits: seq<IteratorTraits>)
    ensures ConcatAdmissible(traits) <==>
      && |traits| >= 2
      && forall i, j :: 0 <= i < |traits| && 0 <= j < |traits| ==>
           traits[i].valueType == traits[j].valueType
           && traits[i].pointer == traits[j].pointer
           && traits[i].reference == traits[j].reference
  {
    if |traits| >= 2 {
      IsAllSameIffAllEqual(ValueTypes(traits));
      IsAllSameIffAllEqual(Pointers(traits));
      IsAllSameIffAllEqual(References(traits));
    }
  }

  /** A range of `int` concatenated with a range of `double` fails the value-type check. */
  lemma MismatchRejected()
    ensures !ConcatAdmissible([IteratorTraits("int", "int*", "int&"), IteratorTraits("double", "double*", "double&")])
  {
    var traits := [IteratorTraits("int", "int*", "int&"), IteratorTraits("double", "double*", "double&")];
    assert ValueTypes(traits) == ["int", "double"];
  }

  /** `concatrange(begin, end)`: a view over the two tuples, stored unchanged. */
  function ConcatRange(begin: seq<int>, end: seq<int>, traits: seq<IteratorTraits>): (v: Concatenate)
    requires |begin| == |end| == |traits|
    requires ConcatAdmissible(traits)
    ensures v.Begin().current == begin && v.End().current == end
    ensures v.Begin().begin == v.End().begin == begin
    ensures v.Begin().end == v.End().end == end
  {
    Concatenate(begin, end)
  }

  /** The traits of each argument, in argument order. */
  function TraitsOf<T>(ranges: seq<Range<T>>): (r: seq<IteratorTraits>)
    ensures |r| == |ranges| && forall i :: 0 <= i < |r| ==> r[i] == ranges[i].traits
  {
    seq(|ranges|, i requires 0 <= i < |ranges| => ranges[i].traits)
  }

  /**
   * `concat(x1, ..., xN)`: the begin tuple holds each argument's begin, the end
   * tuple each argument's end, in argument order; slot `i` of the pair spans
   * exactly the elements of argument `i`.
   */
  function Concat<T>(ranges: seq<Range<T>>): (v: Concatenate)
    requires ConcatAdmissible(TraitsOf(ranges))
    ensures |v.beginTuple| == |v.endTuple| == |ranges|
    ensures forall i :: 0 <= i < |ranges| ==> v.beginTuple[i] == 0 && v.endTuple[i] == |ranges[i].elems|
    ensures forall i :: 0 <= i < |ranges| ==>
      ranges[i].elems[v.beginTuple[i]..v.endTuple[i]] == ranges[i].elems
  {
    var begins := seq(|ranges|, i requires 0 <= i < |ranges| => 0);
    var ends := seq(|ranges|, i requires 0 <= i < |ranges| => |ranges[i].elems|);
    ConcatRange(begins, ends, TraitsOf(ranges))
  }

  /**
   * `begin()` and `end()` carry the same begin and end tuples as the view, and
   * the view compares begin and end states equal exactly when every argument
   * of `concat` is empty.
   */
  lemma ConcatEmptyIff<T>(ranges: seq<Range<T>>)
    requires ConcatAdmissible(TraitsOf(ranges))
    ensures Concat(ranges).Begin().current == Concat(ranges).End().current
      <==> forall i :: 0 <= i < |ranges| ==> ranges[i].elems == []
  {
    var v := Concat(ranges);
    if forall i :: 0 <= i < |ranges| ==> ranges[i].elems == [] {
      assert v.beginTuple == v.endTuple by {
        forall i | 0 <= i < |ranges| ensures v.beginTuple[i] == v.endTuple[i] {
          assert |ranges[i].elems| == 0;
        }
      }
    } else {
      var k :| 0 <= k < |ranges| && ranges[k].elems != [];
      assert v.beginTuple[k] != v.endTuple[k];
    }
  }

  /** `begin()` and `end()` of one view both carry the view's own begin and end tuples. */
  lemma ViewIterators(v: Concatenate)
    ensures v.Begin().current == v.Begin().begin == v.End().begin == v.beginTuple
    ensures v.End().current == v.Begin().end == v.End().end == v.endTuple
  {
  }

  /** concat([1, 2, 3], [4, 5]), both ranges of `int`: slot tuples (0, 0) and (3, 2). */
  lemma ConcatScenario()
    ensures var t := IteratorTraits("int", "int*", "int&");
      var v := Concat([Range([1, 2, 3], t), Range([4, 5], t)]);
      v.Begin().current == [0, 0] && v.End().current == [3, 2]
  {
    var t := IteratorTraits("int", "int*", "int&");
    var ranges := [Range([1, 2, 3], t), Range([4, 5], t)];
    assert TraitsOf(ranges) == [t, t];
    assert ValueTypes([t, t]) == ["int", "int"];
    assert Pointers([t, t]) == ["int*", "int*"];
    assert References([t, t]) == ["int&", "int&"];
  }
}
