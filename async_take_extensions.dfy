/** AsyncTakeExtensions (AsyncEnumerable/Extensions/AsyncTakeExtensions.cs):
    TakeWhile wraps an enumerator, and Take(n) is TakeWhile with a closure
    that increments a captured counter and accepts while it is at most n. The
    enumerable overloads apply the same to a fresh enumerator. */
module AsyncTakeExtensions {
  import opened EnumerationSpecs
  import opened MockAsyncEnumerables
  import opened AsyncTakeWhile

  /** What the result yields: the longest prefix of the enumerator's
      remaining elements that the predicate accepts. */
  method TakeWhile<T>(e: MockAsyncEnumerator<T>, takeFunc: T -> bool) returns (r: AsyncTakeWhileEnumerator<T>)
    requires e.Valid()
    ensures fresh(r) && r.parent == e && r.Valid()
    ensures r.Remaining() == TakeWhileP(Stateless(takeFunc), e.Remaining())
  {
    r := new AsyncTakeWhileEnumerator(e, Stateless(takeFunc));
  }

  method TakeWhileOf<T>(source: MockAsyncEnumerable<T>, takeFunc: T -> bool) returns (r: AsyncTakeWhileEnumerator<T>)
    ensures fresh(r) && fresh(r.parent) && r.Valid()
    ensures r.Remaining() == TakeWhileP(Stateless(takeFunc), source.sourceList)
  {
    var e := source.GetAsyncEnumerator();
    r := TakeWhile(e, takeFunc);
  }

  /** Take(n) yields the first n remaining elements, or all of them when
      there are fewer, and nothing when n <= 0. */
  method Take<T>(e: MockAsyncEnumerator<T>, take: int) returns (r: AsyncTakeWhileEnumerator<T>)
    requires e.Valid()
    ensures fresh(r) && r.parent == e && r.Valid()
    ensures r.takeFunc == Counting(take, 0)
    ensures r.Remaining() == e.Remaining()[..Allowance(take, 0, |e.Remaining()|)]
  {
    r := new AsyncTakeWhileEnumerator(e, Counting(take, 0));
    TakeCounting(take, 0, e.Remaining());
  }

  method TakeOf<T>(source: MockAsyncEnumerable<T>, take: int) returns (r: AsyncTakeWhileEnumerator<T>)
    ensures fresh(r) && fresh(r.parent) && r.Valid()
    ensures r.Remaining() == source.sourceList[..Allowance(take, 0, |source.sourceList|)]
  {
    var e := source.GetAsyncEnumerator();
    r := Take(e, take);
  }

  /** Take stays exhausted: once its counter has reached the limit, every
      further call answers false, although TakeWhile itself is not sticky. */
  method TakeStaysExhausted<T>(t: AsyncTakeWhileEnumerator<T>) returns (r: bool)
    requires t.Valid() && t.takeFunc.Counting? && t.takeFunc.counter >= t.takeFunc.limit
    modifies t, t.parent
    ensures !r && t.takeFunc.Counting? && t.takeFunc.counter >= t.takeFunc.limit
  {
    TakeCountingExhausted(t.takeFunc.limit, t.takeFunc.counter, t.parent.Remaining());
    r := t.MoveNextAsync();
  }
}
