/** AsyncFirstExtensions (AsyncEnumerable/Extensions/AsyncFirstExtensions.cs):
    FirstAsync and FirstOrDefaultAsync step the enumerator until an element
    satisfies the predicate and return it. When none does, FirstAsync fails
    with ArgumentException and FirstOrDefaultAsync returns the type's default,
    which is a parameter here. The overloads without a predicate use
    `x => true`; the enumerable overloads run on a fresh enumerator. */
module AsyncFirst {
  import opened Wrappers
  import opened EnumerationSpecs
  import opened MockAsyncEnumerables

  /** The element FirstAsync(firstFunc) produces from the sequence `s`. */
  function FirstOf<T>(firstFunc: T -> bool, s: seq<T>): (r: Result<T>)
    ensures r.Ok? <==> exists i :: 0 <= i < |s| && firstFunc(s[i])
    ensures r.Ok? ==> firstFunc(r.value) && exists i :: 0 <= i < |s| && s[i] == r.value && forall j :: 0 <= j < i ==> !firstFunc(s[j])
    ensures r.Err? ==> r.error == ArgumentException
  {
    match FindFirst(firstFunc, s)
    case Some(i) => Ok(s[i])
    case None => Err(ArgumentException)
  }

  /** The loop both operations share: steps `e` until the predicate holds.
      The enumerator is stepped up to and including the match, or through
      its end plus the call that answers false. */
  method Search<T>(e: MockAsyncEnumerator<T>, firstFunc: T -> bool) returns (found: Option<T>)
    requires e.Valid()
    modifies e
    ensures e.Valid()
    ensures found == (match FindFirst(firstFunc, old(e.Remaining()))
                      case Some(i) => Some(old(e.Remaining())[i])
                      case None => None)
    ensures e.curIdx == old(e.curIdx) + SearchCalls(firstFunc, old(e.Remaining()))
    ensures e.actionCalls == old(e.actionCalls) + (if e.hasMoveNextAction then e.curIdx - old(e.curIdx) else 0)
    ensures e.Remaining() == AfterSearch(firstFunc, old(e.Remaining()))
  {
    ghost var s := e.Remaining();
    ghost var k := 1;
    var moved := e.MoveNextAsync();
    while moved
      invariant e.Valid() && 1 <= k <= |s| + 1
      invariant e.curIdx == old(e.curIdx) + k
      invariant e.actionCalls == old(e.actionCalls) + (if e.hasMoveNextAction then k else 0)
      invariant moved <==> k <= |s|
      invariant moved ==> e.Current() == Ok(s[k - 1])
      invariant e.Remaining() == (if moved then s[k..] else [])
      invariant forall j :: 0 <= j < k - 1 ==> !firstFunc(s[j])
      decreases |s| + 1 - k
    {
      var x := e.Current().value;
      if firstFunc(x) {
        SearchStopsAt(firstFunc, s, k - 1);
        return Some(x);
      }
      moved := e.MoveNextAsync();
      k := k + 1;
    }
    SearchRunsOut(firstFunc, s);
    return None;
  }

  method FirstAsync<T>(e: MockAsyncEnumerator<T>, firstFunc: T -> bool) returns (r: Result<T>)
    requires e.Valid()
    modifies e
    ensures e.Valid()
    ensures r == FirstOf(firstFunc, old(e.Remaining()))
    ensures e.curIdx == old(e.curIdx) + SearchCalls(firstFunc, old(e.Remaining()))
    ensures e.Remaining() == AfterSearch(firstFunc, old(e.Remaining()))
  {
    var found := Search(e, firstFunc);
    if found.Some? {
      return Ok(found.value);
    }
    return Err(ArgumentException);
  }

  /** Without a predicate: the first remaining element, after one step. */
  method FirstAsyncUnfiltered<T>(e: MockAsyncEnumerator<T>) returns (r: Result<T>)
    requires e.Valid()
    modifies e
    ensures e.Valid()
    ensures old(e.Remaining()) != [] ==> r == Ok(old(e.Remaining())[0]) && e.curIdx == old(e.curIdx) + 1
    ensures old(e.Remaining()) == [] ==> r == Err(ArgumentException)
  {
    r := FirstAsync(e, (x: T) => true);
  }

  method FirstAsyncOf<T>(source: MockAsyncEnumerable<T>, firstFunc: T -> bool) returns (r: Result<T>)
    ensures r == FirstOf(firstFunc, source.sourceList)
  {
    var e := source.GetAsyncEnumerator();
    r := FirstAsync(e, firstFunc);
  }

  method FirstAsyncUnfilteredOf<T>(source: MockAsyncEnumerable<T>) returns (r: Result<T>)
    ensures source.sourceList != [] ==> r == Ok(source.sourceList[0])
    ensures source.sourceList == [] ==> r == Err(ArgumentException)
  {
    var e := source.GetAsyncEnumerator();
    r := FirstAsyncUnfiltered(e);
  }

  method FirstOrDefaultAsync<T>(e: MockAsyncEnumerator<T>, firstFunc: T -> bool, defaultValue: T) returns (r: T)
    requires e.Valid()
    modifies e
    ensures e.Valid()
    ensures r == (match FirstOf(firstFunc, old(e.Remaining())) case Ok(x) => x case Err(_) => defaultValue)
    ensures e.curIdx == old(e.curIdx) + SearchCalls(firstFunc, old(e.Remaining()))
    ensures e.Remaining() == AfterSearch(firstFunc, old(e.Remaining()))
  {
    var found := Search(e, firstFunc);
    if found.Some? {
      return found.value;
    }
    return defaultValue;
  }

  method FirstOrDefaultAsyncUnfiltered<T>(e: MockAsyncEnumerator<T>, defaultValue: T) returns (r: T)
    requires e.Valid()
    modifies e
    ensures e.Valid()
    ensures r == (if old(e.Remaining()) != [] then old(e.Remaining())[0] else defaultValue)
  {
    r := FirstOrDefaultAsync(e, (x: T) => true, defaultValue);
  }

  method FirstOrDefaultAsyncOf<T>(source: MockAsyncEnumerable<T>, firstFunc: T -> bool, defaultValue: T) returns (r: T)
    ensures r == (match FirstOf(firstFunc, source.sourceList) case Ok(x) => x case Err(_) => defaultValue)
  {
    var e := source.GetAsyncEnumerator();
    r := FirstOrDefaultAsync(e, firstFunc, defaultValue);
  }

  method FirstOrDefaultAsyncUnfilteredOf<T>(source: MockAsyncEnumerable<T>, defaultValue: T) returns (r: T)
    ensures r == (if source.sourceList != [] then source.sourceList[0] else defaultValue)
  {
    var e := source.GetAsyncEnumerator();
    r := FirstOrDefaultAsyncUnfiltered(e, defaultValue);
  }

  /** The first even element greater than 0 of 0..9 is 2, found on the third
      step of the enumerator. */
  lemma FirstEvenPositiveOfDigits()
    ensures var s := [0, 1, 2, 3, 4, 5, 6, 7, 8, 9];
      var f := (x: int) => x > 0 && x % 2 == 0;
      FirstOf(f, s) == Ok(2) && SearchCalls(f, s) == 3
  {
    var s := [0, 1, 2, 3, 4, 5, 6, 7, 8, 9];
    var f := (x: int) => x > 0 && x % 2 == 0;
    assert s[1..][1..] == s[2..];
    assert FindFirst(f, s[2..]) == Some(0);
    assert FindFirst(f, s[1..]) == Some(1);
  }
}
