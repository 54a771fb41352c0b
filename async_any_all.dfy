/** AsyncAnyExtensions and AsyncAllExtensions
    (AsyncEnumerable/Extensions/AsyncAnyExtensions.cs, AsyncAllExtensions.cs):
    AnyAsync(pred) steps until an element satisfies the predicate, AnyAsync()
    makes a single step, and AllAsync(pred) steps until an element fails it.
    The enumerable overloads run on a fresh enumerator. */
module AsyncAnyAll {
  import opened Wrappers
  import opened EnumerationSpecs
  import opened MockAsyncEnumerables
  import opened AsyncFirst

  /** True as soon as an element satisfies the predicate, having stepped up
      to it; false after stepping through the end. */
  method AnyAsync<T>(e: MockAsyncEnumerator<T>, anyFunc: T -> bool) returns (r: bool)
    requires e.Valid()
    modifies e
    ensures e.Valid()
    ensures r <==> exists i :: 0 <= i < |old(e.Remaining())| && anyFunc(old(e.Remaining())[i])
    ensures e.curIdx == old(e.curIdx) + SearchCalls(anyFunc, old(e.Remaining()))
    ensures e.Remaining() == AfterSearch(anyFunc, old(e.Remaining()))
  {
    var found := Search(e, anyFunc);
    r := found.Some?;
  }

  /** Exactly one step, answering whether there was an element. */
  method AnyAsyncUnfiltered<T>(e: MockAsyncEnumerator<T>) returns (r: bool)
    requires e.Valid()
    modifies e
    ensures e.Valid()
    ensures r <==> old(e.Remaining()) != []
    ensures e.curIdx == old(e.curIdx) + 1
  {
    r := e.MoveNextAsync();
  }

  method AnyAsyncOf<T>(source: MockAsyncEnumerable<T>, anyFunc: T -> bool) returns (r: bool)
    ensures r <==> exists i :: 0 <= i < |source.sourceList| && anyFunc(source.sourceList[i])
  {
    var e := source.GetAsyncEnumerator();
    r := AnyAsync(e, anyFunc);
  }

  method AnyAsyncUnfilteredOf<T>(source: MockAsyncEnumerable<T>) returns (r: bool)
    ensures r <==> source.sourceList != []
  {
    var e := source.GetAsyncEnumerator();
    r := AnyAsyncUnfiltered(e);
  }

  /** True iff every element satisfies the predicate (so true when there is
      none); stops on the first element that fails it: the loop is Search
      for the negated predicate. */
  method AllAsync<T>(e: MockAsyncEnumerator<T>, allFunc: T -> bool) returns (r: bool)
    requires e.Valid()
    modifies e
    ensures e.Valid()
    ensures r <==> forall i :: 0 <= i < |old(e.Remaining())| ==> allFunc(old(e.Remaining())[i])
    ensures e.curIdx == old(e.curIdx) + SearchCalls((x: T) => !allFunc(x), old(e.Remaining()))
    ensures e.Remaining() == AfterSearch((x: T) => !allFunc(x), old(e.Remaining()))
  {
    var failing := Search(e, (x: T) => !allFunc(x));
    r := failing.None?;
  }

  method AllAsyncOf<T>(source: MockAsyncEnumerable<T>, allFunc: T -> bool) returns (r: bool)
    ensures r <==> forall i :: 0 <= i < |source.sourceList| ==> allFunc(source.sourceList[i])
  {
    var e := source.GetAsyncEnumerator();
    r := AllAsync(e, allFunc);
  }

  /** AnyAsync for the first even element of [1, 2, 3] stops on the second
      step; AllAsync of a predicate the head fails stops on the first. */
  lemma ShortCircuitCounts()
    ensures SearchCalls((x: int) => x % 2 == 0, [1, 2, 3]) == 2
    ensures SearchCalls((x: int) => !(x > 1), [1, 2, 3]) == 1
  {
    assert [1, 2, 3][1..] == [2, 3];
    assert FindFirst((x: int) => x % 2 == 0, [2, 3]) == Some(0);
  }
}
