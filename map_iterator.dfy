/**
 * The projection iterator of cpp-lazy (`detail::MapIterator`): one wrapped
 * position that the mutators update in place, plus a transform applied on
 * dereference. The wrapped iterator is an integer index into `src`; the
 * transform is a total function value.
 */
module LzMapIterator {

  class MapIterator<T, R> {
    /** The range the wrapped position points into. */
    const src: seq<T>
    /** The transform, applied on every dereference. */
    const f: T -> R
    /** The wrapped position (`_iterator`). */
    var pos: int

    constructor (src: seq<T>, pos: int, f: T -> R)
      ensures this.src == src && this.pos == pos && this.f == f
    {
      this.src := src;
      this.pos := pos;
      this.f := f;
    }

    /** `*it`: the transform applied to the element at the wrapped position, computed anew on each call. */
    function Deref(): (r: R)
      reads this
      requires 0 <= pos < |src|
      ensures r == f(src[pos])
    {
      f(src[pos])
    }

    /** Prefix `++`: advances the wrapped position and returns this same object. */
    method Increment() returns (self: MapIterator<T, R>)
      modifies this
      ensures self == this
      ensures pos == old(pos) + 1
    {
      pos := pos + 1;
      self := this;
    }

    /** Postfix `++`: a copy at the old position; the original advances. */
    method PostIncrement() returns (tmp: MapIterator<T, R>)
      modifies this
      ensures fresh(tmp)
      ensures tmp.src == src && tmp.f == f && tmp.pos == old(pos)
      ensures pos == old(pos) + 1
    {
      tmp := new MapIterator(src, pos, f);
      var _ := Increment();
    }

    /** Prefix `--`: steps the wrapped position back and returns this same object. */
    method Decrement() returns (self: MapIterator<T, R>)
      modifies this
      ensures self == this
      ensures pos == old(pos) - 1
    {
      pos := pos - 1;
      self := this;
    }

    /** Postfix `--`: a copy at the old position; the original steps back. */
    method PostDecrement() returns (tmp: MapIterator<T, R>)
      modifies this
      ensures fresh(tmp)
      ensures tmp.src == src && tmp.f == f && tmp.pos == old(pos)
      ensures pos == old(pos) - 1
    {
      tmp := new MapIterator(src, pos, f);
      var _ := Decrement();
    }

    /** `+= offset`. */
    method AddAssign(offset: int) returns (self: MapIterator<T, R>)
      modifies this
      ensures self == this
      ensures pos == old(pos) + offset
    {
      pos := pos + offset;
      self := this;
    }

    /** `-= offset`. */
    method SubAssign(offset: int) returns (self: MapIterator<T, R>)
      modifies this
      ensures self == this
      ensures pos == old(pos) - offset
    {
      pos := pos - offset;
      self := this;
    }

    /** `it + offset`: a new iterator `offset` further on; `it` itself is unchanged. */
    method Plus(offset: int) returns (tmp: MapIterator<T, R>)
      ensures fresh(tmp)
      ensures tmp.src == src && tmp.f == f && tmp.pos == pos + offset
    {
      tmp := new MapIterator(src, pos, f);
      var _ := tmp.AddAssign(offset);
    }

    /** `it - offset`: a new iterator `offset` back; `it` itself is unchanged. */
    method Minus(offset: int) returns (tmp: MapIterator<T, R>)
      ensures fresh(tmp)
      ensures tmp.src == src && tmp.f == f && tmp.pos == pos - offset
    {
      tmp := new MapIterator(src, pos, f);
      var _ := tmp.SubAssign(offset);
    }

    /**
     * `it - other`: the difference of the wrapped positions. It is zero exactly
     * when the iterators compare equal and negative exactly when `it < other`.
     */
    function Difference(other: MapIterator<T, R>): (d: int)
      reads this, other
      ensures d == 0 <==> Equals(other)
      ensures d < 0 <==> Less(other)
      ensures d > 0 <==> Greater(other)
    {
      pos - other.pos
    }

    /** `it[offset]`: dereference of `it + offset`. */
    method Index(offset: int) returns (r: R)
      requires 0 <= pos + offset < |src|
      ensures r == f(src[pos + offset])
    {
      var tmp := Plus(offset);
      r := tmp.Deref();
    }

    /** `!=`: the one primitive equality test, on the wrapped positions. */
    function NotEquals(other: MapIterator<T, R>): (r: bool)
      reads this, other
      ensures r <==> pos != other.pos
      ensures r ==> this != other
    {
      pos != other.pos
    }

    /** `<`: the one primitive ordering test, on the wrapped positions. */
    function Less(other: MapIterator<T, R>): (r: bool)
      reads this, other
      ensures r <==> pos < other.pos
      ensures r ==> this != other
    {
      pos < other.pos
    }

    /** `==`, derived as the negation of `!=`: equal exactly when the positions are. */
    function Equals(other: MapIterator<T, R>): (r: bool)
      reads this, other
      ensures r <==> pos == other.pos
    {
      !NotEquals(other)
    }

    /** `>`, derived as `other < this`. */
    function Greater(other: MapIterator<T, R>): (r: bool)
      reads this, other
      ensures r <==> pos > other.pos
    {
      other.Less(this)
    }

    /** `<=`, derived as `!(other < this)`. */
    function LessEq(other: MapIterator<T, R>): (r: bool)
      reads this, other
      ensures r <==> pos <= other.pos
    {
      !other.Less(this)
    }

    /** `>=`, derived as `!(this < other)`. */
    function GreaterEq(other: MapIterator<T, R>): (r: bool)
      reads this, other
      ensures r <==> pos >= other.pos
    {
      !Less(other)
    }
  }

  /**
   * Equality and ordering look only at the wrapped positions: replacing an
   * iterator by one with the same position but another range or transform
   * changes no comparison and no difference.
   */
  lemma ComparisonIgnoresFunction<T, R>(a: MapIterator<T, R>, c: MapIterator<T, R>, b: MapIterator<T, R>)
    requires a.pos == c.pos
    ensures a.Equals(b) == c.Equals(b) && a.NotEquals(b) == c.NotEquals(b)
    ensures a.Less(b) == c.Less(b) && a.Greater(b) == c.Greater(b)
    ensures a.LessEq(b) == c.LessEq(b) && a.GreaterEq(b) == c.GreaterEq(b)
    ensures a.Difference(b) == c.Difference(b)
    ensures b.Equals(a) == b.Equals(c) && b.NotEquals(a) == b.NotEquals(c)
    ensures b.Less(a) == b.Less(c) && b.Greater(a) == b.Greater(c)
    ensures b.LessEq(a) == b.LessEq(c) && b.GreaterEq(a) == b.GreaterEq(c)
    ensures b.Difference(a) == b.Difference(c)
    ensures a.Equals(c)
  {
  }

  /**
   * The six comparisons form one consistent total order, the order of the
   * wrapped positions: `==` is the negation of `!=`, exactly one of `<`, `==`
   * and `>` holds, `<` is transitive, `<=` is `<` or `==`, `>=` is `<=`
   * reversed, and the difference is antisymmetric.
   */
  lemma TotalOrder<T, R>(a: MapIterator<T, R>, b: MapIterator<T, R>, c: MapIterator<T, R>)
    ensures a.Equals(b) <==> !a.NotEquals(b)
    ensures a.Equals(b) == b.Equals(a)
    ensures (a.Less(b) || a.Equals(b) || a.Greater(b))
    ensures !(a.Less(b) && a.Equals(b)) && !(a.Less(b) && a.Greater(b)) && !(a.Equals(b) && a.Greater(b))
    ensures a.Less(b) && b.Less(c) ==> a.Less(c)
    ensures a.LessEq(b) <==> a.Less(b) || a.Equals(b)
    ensures a.GreaterEq(b) <==> b.LessEq(a)
    ensures a.Greater(b) <==> b.Less(a)
    ensures a.Difference(b) == -b.Difference(a)
  {
  }

  /** `++` then `--` restores the original position. */
  method IncDecRoundTrip<T, R>(it: MapIterator<T, R>)
    modifies it
    ensures it.pos == old(it.pos)
  {
    var _ := it.Increment();
    var _ := it.Decrement();
  }

  /** `+= n` then `-= n` restores the original position. */
  method AddSubRoundTrip<T, R>(it: MapIterator<T, R>, n: int)
    modifies it
    ensures it.pos == old(it.pos)
  {
    var _ := it.AddAssign(n);
    var _ := it.SubAssign(n);
  }

  /** `(it + n) - it == n` and `(it - n) - it == -n`; `it` is left unchanged. */
  method OffsetDifference<T, R>(it: MapIterator<T, R>, n: int) returns (forward: int, backward: int)
    ensures forward == n && backward == -n
  {
    var ahead := it.Plus(n);
    forward := ahead.Difference(it);
    var behind := it.Minus(n);
    backward := behind.Difference(it);
  }

  /** `it[k]` and `*(it + k)` agree, and both are the transform at position `pos + k`. */
  method IndexIsOffsetDeref<T, R>(it: MapIterator<T, R>, k: int) returns (indexed: R, offset: R)
    requires 0 <= it.pos + k < |it.src|
    ensures indexed == offset == it.f(it.src[it.pos + k])
  {
    indexed := it.Index(k);
    var moved := it.Plus(k);
    offset := moved.Deref();
  }

  /** Postfix `++` returns the old position, then `--` brings the original back to it. */
  method PostStepRoundTrip<T, R>(it: MapIterator<T, R>) returns (before: MapIterator<T, R>)
    modifies it
    ensures fresh(before) && before.pos == old(it.pos)
    ensures it.pos == old(it.pos) && before.Equals(it)
  {
    before := it.PostIncrement();
    var _ := it.PostDecrement();
  }
}
