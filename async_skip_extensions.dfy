/** AsyncEnumerableSkipExtensions (AsyncEnumerable/Extensions/AsyncEnumerableSkipExtensions.cs):
    SkipWhile wraps an enumerator, and Skip(n) is SkipWhile with a closure
    that increments a captured counter and accepts while it is at most n. The
    enumerable overloads apply the same to a fresh enumerator. */
module AsyncSkipExtensions {
  import opened EnumerationSpecs
  import opened MockAsyncEnumerables
  import opened AsyncSkipWhile

  /** What the result yields: the enumerator's remaining elements less the
      longest prefix the predicate accepts. */
  method SkipWhile<T>(e: MockAsyncEnumerator<T>, skipFunc: T -> bool) returns (r: AsyncSkipWhileEnumerator<T>)
    requires e.Valid()
    ensures fresh(r) && r.parent == e && r.Valid() && !r.hasSkipped
    ensures r.Remaining() == SkipWhileP(Stateless(skipFunc), e.Remaining())
  {
    r := new AsyncSkipWhileEnumerator(e, Stateless(skipFunc));
  }

  method SkipWhileOf<T>(source: MockAsyncEnumerable<T>, skipFunc: T -> bool) returns (r: AsyncSkipWhileEnumerator<T>)
    ensures fresh(r) && fresh(r.parent) && r.Valid() && !r.hasSkipped
    ensures r.Remaining() == SkipWhileP(Stateless(skipFunc), source.sourceList)
  {
    var e := source.GetAsyncEnumerator();
    r := SkipWhile(e, skipFunc);
  }

  /** Skip(n) yields the remaining elements from index n on: all of them when
      n <= 0, none when n is at least their number. */
  method Skip<T>(e: MockAsyncEnumerator<T>, skip: int) returns (r: AsyncSkipWhileEnumerator<T>)
    requires e.Valid()
    ensures fresh(r) && r.parent == e && r.Valid() && !r.hasSkipped
    ensures r.skipFunc == Counting(skip, 0)
    ensures r.Remaining() == e.Remaining()[Allowance(skip, 0, |e.Remaining()|)..]
  {
    r := new AsyncSkipWhileEnumerator(e, Counting(skip, 0));
    SkipCounting(skip, 0, e.Remaining());
  }

  method SkipOf<T>(source: MockAsyncEnumerable<T>, skip: int) returns (r: AsyncSkipWhileEnumerator<T>)
    ensures fresh(r) && fresh(r.parent) && r.Valid() && !r.hasSkipped
    ensures r.Remaining() == source.sourceList[Allowance(skip, 0, |source.sourceList|)..]
  {
    var e := source.GetAsyncEnumerator();
    r := Skip(e, skip);
  }
}
