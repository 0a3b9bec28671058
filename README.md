# cpp-lazy adaptors: Take, MapIterator, Concatenate

A Dafny model of three lazy-sequence adaptors of the C++ library cpp-lazy:

- **Take** (`take.dfy`, module `LzTake`): the bounding view and its factories
  `takewhilerange`, `takewhile` (portable and MSVC branches), `takerange`,
  `take` and `slice`. Every factory reduces to a triple (begin, end,
  predicate). The view stores a begin iterator (begin, end, predicate) and an
  end iterator (end, end, predicate), and `begin()`/`end()` hand out copies.
  Positions are integer indices into a `seq<T>`, and the predicate is a
  function value. A traversal (`Traverse`) dereferences and steps with `++`
  until the iterator equals end. The iterator equals end when its position
  reaches the captured end or the predicate fails on the current element.
  `Traverse` is proved equal to a declarative reference, the longest prefix
  on which the predicate holds (`IsLongestPrefix`). From that, `take`,
  `slice`, `takerange` and `takewhile` are proved to yield exactly what their
  documentation and tests say.
- **MapIterator** (`map_iterator.dfy`, module `LzMapIterator`): a class with
  one mutable field, the wrapped position. `++`, `--`, `+=` and `-=` update it
  in place and return the same object. The post-increment, post-decrement,
  `+` and `-` forms copy into a fresh iterator first. Dereference applies the
  transform. Every comparison and the difference delegate to the position;
  `==`, `>`, `<=` and `>=` are derived from `!=` and `<`.
- **Concatenate** (`concatenate.dfy`, module `LzConcatenate`): the
  construction layer. This covers the recursive type check `IsAllSame` (over
  type tags), the build-time checks of `concatrange` (as preconditions), the
  view's `begin()`/`end()`, and `concat` building the begin and end tuples in
  argument order. Each tuple slot is a position into that argument's own
  sequence.

Code and documentation disagree in three places; the model follows the code
in each:

- The doc comment of `slice` (include/Lz/Take.hpp:170) says `from` must be
  higher than `to`. The code builds `[begin + from, begin + to)`, which
  needs `from <= to`. The model requires `from <= to <= |s|`.
- The doc comment of `takewhilerange` (include/Lz/Take.hpp:72) describes
  `end` as "the beginning of the iterator". The code (Take.hpp:78-81) uses it
  as the end of the range, and so does the model.
- The doc comment of the `Concatenate` constructor
  (include/Lz/Concatenate.hpp:32-38) lists four iterator parameters. The
  constructor (Concatenate.hpp:39-41) takes one begin tuple and one end
  tuple, and the model's `Concatenate` holds exactly those two.

## Model

| member | source | states |
|---|---|---|
| `LzTake.TakeView.Begin` | include/Lz/Take.hpp:41-43 | `begin()` hands out the stored begin iterator; on a constructed view its captured end is the end iterator's position and it carries the same predicate |
| `LzTake.TakeView.End` | include/Lz/Take.hpp:49-51 | `end()` hands out the stored end iterator; on a constructed view it already sits at its captured end |
| `LzTake.AtEnd` | include/Lz/Take.hpp:24-31 | an iterator at its captured end is at end; one that is not at end lies before the captured end on an element the predicate accepts |
| `LzTake.Traverse` | include/Lz/Take.hpp:24-31 | iterating until end yields a contiguous run of the source starting at the position, no longer than [pos, end), every element accepted by the predicate |
| `LzTake.TakeWhileRange` | include/Lz/Take.hpp:32-35 | the view's begin iterator holds (begin, end, predicate), its end iterator holds (end, end, predicate), and the view is well formed |
| `LzTake.TakeWhile` | include/Lz/Take.hpp:117-118 | the portable branch spans the whole source, position 0 up to its length |
| `LzTake.TakeRange` | include/Lz/Take.hpp:143-146 | `takerange(b, e)` spans [b, e); all it yields is proved in `TakeRangeYields` |
| `LzTake.Take` | include/Lz/Take.hpp:158-162 | `take(s, n)` spans [0, n) of the source |
| `LzTake.Slice` | include/Lz/Take.hpp:174-178 | `slice(s, from, to)` spans [from, to) and needs from <= to <= size |
| `LzTake.AssignThrough` | tests/take-tests.cpp:23-28 | assigning through a take iterator over an array changes exactly that array element |
| `LzTake.TraverseIsLongestPrefix` | include/Lz/Take.hpp:24-31 | a traversal from any iterator yields the longest prefix of [pos, end) on which the predicate holds |
| `LzTake.LongestPrefixUnique` | include/Lz/Take.hpp:65-77 | the longest prefix satisfying the predicate is unique, so the traversal result is determined |
| `LzTake.TraverseSteps` | include/Lz/Take.hpp:24-26 | after j < k steps the iterator is not at end and dereferences to the j-th yielded element; after k steps it equals end |
| `LzTake.TraverseAll` | include/Lz/Take.hpp:133-146 | when the predicate holds on every element of [pos, end), the traversal yields all of it |
| `LzTake.ViewIterators` | include/Lz/Take.hpp:32-51 | the begin iterator's captured end is the end iterator's position; the end iterator is already at end and yields nothing; their distance is end - begin |
| `LzTake.TakeWhileRangeYields` | include/Lz/Take.hpp:78-81 | `takewhilerange(b, e, p)` yields the longest prefix of s[b..e) on which p holds |
| `LzTake.TakeWhileYields` | include/Lz/Take.hpp:94-120 | `takewhile(s, p)` yields the longest prefix of `s` on which p holds, stopping before the first failure, and all of `s` when p never fails |
| `LzTake.TakeWhileYieldsPrefix` | include/Lz/Take.hpp:94-120 | `takewhile(s, p)` yields any given sequence that is the longest prefix of `s` on which p holds |
| `LzTake.TakeWhileMsvc` | include/Lz/Take.hpp:104-116 | the MSVC branch gives a well-formed view from offset 0 to the source's length, with the given predicate, on empty and non-empty sources alike |
| `LzTake.TakeWhileMsvcAgrees` | include/Lz/Take.hpp:104-116 | the MSVC branch, empty range and rebuilt `&*(end-1) + 1` alike, gives the same view as the portable branch (taking `&*end` on an empty range as the end's offset; see Left out) |
| `LzTake.TakeRangeYields` | include/Lz/Take.hpp:143-146 | `takerange(b, e)` yields s[b..e) and equals end after e - b steps |
| `LzTake.TakeYields` | include/Lz/Take.hpp:148-162 | `take(s, n)` yields exactly the first n elements in order and equals end after n steps |
| `LzTake.SliceYields` | include/Lz/Take.hpp:164-178 | `slice(s, from, to)` yields exactly s[from..to), to - from elements, then equals end |
| `LzTake.TakeThreeScenario` | tests/take-tests.cpp:10-21 | take([1..10], 3) dereferences to 1, 2, 3 and then equals end |
| `LzTake.SliceScenario` | tests/take-tests.cpp:30-39 | slice([1..10], 2, 4) dereferences to 3, 4 and then equals end |
| `LzTake.TakeWhileScenario` | tests/take-tests.cpp:41-49 | takewhile([1..10], x != 5) yields 1, 2, 3, 4 |
| `LzTake.TakeDistanceScenario` | tests/take-tests.cpp:82-92 | on take([1, 2, 3], 2), distance(begin, end) == 2 and begin < end |
| `LzTake.TakeBinaryOpsScenario` | tests/take-tests.cpp:62-88 | on take([1, 2, 3], 2): ++ gives 2, ++ then -- gives 1, *(it + 1) == 2, *(++it - 1) == 1, begin()[0] == 1 |
| `LzTake.TakeToContainerScenario` | tests/take-tests.cpp:96-123 | the elements of take([1, 2, 3], 2), in the order a conversion inserts them, are [1, 2] |
| `LzTake.ByReferenceScenario` | tests/take-tests.cpp:23-28 | writing 0 through take(array, 3).begin() makes array[0] == 0 |
| `LzMapIterator.MapIterator.constructor` | include/Lz/detail/MapIterator.hpp:28-31 | stores the wrapped position and the transform |
| `LzMapIterator.MapIterator.Deref` | include/Lz/detail/MapIterator.hpp:35-37 | dereference is the transform of the element at the wrapped position; it reads and never changes the iterator |
| `LzMapIterator.MapIterator.Increment` | include/Lz/detail/MapIterator.hpp:43-46 | pre-`++` adds 1 to the position and returns the same object |
| `LzMapIterator.MapIterator.PostIncrement` | include/Lz/detail/MapIterator.hpp:48-52 | post-`++` returns a fresh copy at the old position and advances the original |
| `LzMapIterator.MapIterator.Decrement` | include/Lz/detail/MapIterator.hpp:54-57 | pre-`--` subtracts 1 from the position and returns the same object |
| `LzMapIterator.MapIterator.PostDecrement` | include/Lz/detail/MapIterator.hpp:59-63 | post-`--` returns a fresh copy at the old position and steps the original back |
| `LzMapIterator.MapIterator.AddAssign` | include/Lz/detail/MapIterator.hpp:65-68 | `+= n` adds n to the position and returns the same object |
| `LzMapIterator.MapIterator.SubAssign` | include/Lz/detail/MapIterator.hpp:70-73 | `-= n` subtracts n from the position and returns the same object |
| `LzMapIterator.MapIterator.Plus` | include/Lz/detail/MapIterator.hpp:75-79 | `it + n` is a fresh iterator at pos + n with the same transform; `it` is unchanged |
| `LzMapIterator.MapIterator.Minus` | include/Lz/detail/MapIterator.hpp:81-85 | `it - n` is a fresh iterator at pos - n with the same transform; `it` is unchanged |
| `LzMapIterator.MapIterator.Difference` | include/Lz/detail/MapIterator.hpp:87-89 | the difference is zero, negative or positive exactly when the iterators compare `==`, `<` or `>` |
| `LzMapIterator.MapIterator.Index` | include/Lz/detail/MapIterator.hpp:91-93 | `it[k]` is the transform of the element at pos + k |
| `LzMapIterator.MapIterator.NotEquals` | include/Lz/detail/MapIterator.hpp:99-101 | `!=` holds exactly when the wrapped positions differ, and then the two are different objects |
| `LzMapIterator.MapIterator.Less` | include/Lz/detail/MapIterator.hpp:103-105 | `<` holds exactly when the wrapped position is smaller, and then the two are different objects |
| `LzMapIterator.MapIterator.Equals` | include/Lz/detail/MapIterator.hpp:95-97 | `==`, derived from `!=`, holds exactly when the positions are equal |
| `LzMapIterator.MapIterator.Greater` | include/Lz/detail/MapIterator.hpp:107-109 | `>`, derived by swapping `<`, holds exactly when the position is greater |
| `LzMapIterator.MapIterator.LessEq` | include/Lz/detail/MapIterator.hpp:111-113 | `<=`, derived as `!(other < this)`, agrees with position order |
| `LzMapIterator.MapIterator.GreaterEq` | include/Lz/detail/MapIterator.hpp:115-117 | `>=`, derived as `!(this < other)`, agrees with position order |
| `LzMapIterator.ComparisonIgnoresFunction` | include/Lz/detail/MapIterator.hpp:95-105 | comparisons and the difference, with the replaced iterator as either operand, depend only on the positions, never on the range or transform |
| `LzMapIterator.TotalOrder` | include/Lz/detail/MapIterator.hpp:95-117 | `==` negates `!=`; exactly one of `<`, `==`, `>` holds; `<` is transitive; `<=` is `<` or `==`; `>=` is `<=` reversed; the difference is antisymmetric |
| `LzMapIterator.IncDecRoundTrip` | include/Lz/detail/MapIterator.hpp:43-57 | `++` then `--` restores the position |
| `LzMapIterator.AddSubRoundTrip` | include/Lz/detail/MapIterator.hpp:65-73 | `+= n` then `-= n` restores the position |
| `LzMapIterator.OffsetDifference` | include/Lz/detail/MapIterator.hpp:75-89 | `(it + n) - it == n` and `(it - n) - it == -n` |
| `LzMapIterator.IndexIsOffsetDeref` | include/Lz/detail/MapIterator.hpp:91-93 | `it[k] == *(it + k) == f(s[pos + k])` |
| `LzMapIterator.PostStepRoundTrip` | include/Lz/detail/MapIterator.hpp:48-63 | post-`++` returns the old position, and post-`--` brings the original back, equal to that copy |
| `LzConcatenate.IsAllSame` | include/Lz/Concatenate.hpp:10-17 | when the check holds every tag equals the first; when it fails some adjacent pair differs |
| `LzConcatenate.IsAllSameIffAllEqual` | include/Lz/Concatenate.hpp:10-17 | the adjacent-pair recursive check over at least two tags is true exactly when all tags are equal |
| `LzConcatenate.ConcatAdmissibleIff` | include/Lz/Concatenate.hpp:76-82 | `concatrange` admits a group exactly when it has at least two iterators agreeing on value, pointer and reference type |
| `LzConcatenate.ConcatAdmissible` | include/Lz/Concatenate.hpp:76-82 | an admitted group has at least two iterators, each with the first one's value, pointer and reference type |
| `LzConcatenate.MismatchRejected` | include/Lz/Concatenate.hpp:77-78 | an `int` range and a `double` range fail the value-type check |
| `LzConcatenate.Concatenate.Begin` | include/Lz/Concatenate.hpp:47-49 | `begin()` is an iterator whose current state is the view's begin tuple, carrying both tuples |
| `LzConcatenate.Concatenate.End` | include/Lz/Concatenate.hpp:55-57 | `end()` is an iterator whose current state is the view's end tuple, carrying the same tuples as `begin()` |
| `LzConcatenate.ConcatRange` | include/Lz/Concatenate.hpp:74-85 | needs the arity and type checks; `begin()` has the begin tuple as its state and `end()` the end tuple, and both carry both tuples unchanged |
| `LzConcatenate.Concat` | include/Lz/Concatenate.hpp:95-98 | the begin tuple is each argument's begin and the end tuple each argument's end, in argument order; slot i spans exactly argument i |
| `LzConcatenate.ConcatEmptyIff` | include/Lz/Concatenate.hpp:47-57 | the begin and end states of `concat(...)` are equal exactly when every argument is empty |
| `LzConcatenate.ViewIterators` | include/Lz/Concatenate.hpp:38-57 | the stored tuples are handed out unchanged: `begin()`'s state is the begin tuple, `end()`'s the end tuple, and both carry both tuples |
| `LzConcatenate.ConcatScenario` | include/Lz/Concatenate.hpp:95-98 | concat([1, 2, 3], [4, 5]) has begin state (0, 0) and end state (3, 2) |

## Left out

- The internals of `TakeIterator`, `ConcatenateIterator` and `BasicIteratorView` are not part of this model. The take iterator is reduced to its state (position, captured end, predicate) and the end test its documentation states. Its random-access operations (`Next`, `Prev`, `Offset`, `Distance`, `Less`) are modelled as forwarding to the position.
- The conversions `toVector`, `toArray<N>` and `to<Container>()` are not part of this model; their result is stated only as the traversal sequence `Traverse`.
- Concatenate's cross-range traversal (`++`, `--`, `+=`, dereference, equality, choice of active range) is not part of this model; only the construction layer is.
- `MapIterator::operator->` and `FakePointerProxy` are left out: a proxy that holds a copy of the value `*it` returns.
- The default constructor `MapIterator() = default` is left out: it leaves a value-initialised position and a null transform pointer that cannot be dereferenced.
- The transform is a plain function value, not a non-owning `std::function` pointer; lifetimes and dangling pointers are not modelled.
- Compile-time machinery is left out: the MSVC `#ifdef`, `enable_if`/`IsContiguousContainer` overload selection, return-type deduction and `iterator_category` propagation. Only the range equivalence of the MSVC branch is kept. A pointer into contiguous storage is modelled as the element's offset from the first element (`AddressOf`).
- `static_assert` is modelled as preconditions (`ConcatAdmissible`); C++ types are string tags, and all concatenated ranges share one Dafny element type.
- Positions and `difference_type` are unbounded integers, so `std::ptrdiff_t` and `size_t` overflow are not modelled.
- LzTake.TakeWhileMsvc: in the empty branch the source evaluates `&*end` (Take.hpp:111-112), dereferencing the past-the-end iterator, which is undefined behaviour despite the comment that it prevents it; the model takes `&*end` as the end's offset, which is what common implementations produce, and does not model the undefined behaviour.
- `take` and `slice` past the end are undefined behaviour in the source; the model requires `amount <= |s|` and `from <= to <= |s|`.
