/** AsyncWhereEnumerator (AsyncEnumerable/Enumerators/AsyncWhereEnumerator.cs):
    filters the parent. MoveNextAsync advances the parent once, DISCARDS what
    that call returned, and tests the parent's Current; while the test fails it
    advances again and gives up when the parent runs out.

    Because the first result is discarded, a call made when the parent has
    nothing left reads the parent's Current past the end, which the list
    indexer refuses with ArgumentOutOfRangeException. That happens on the call
    after the last element when that element passed the filter; when it failed
    the filter, the loop's own check returns false first. */
module AsyncWhere {
  import opened Wrappers
  import opened EnumerationSpecs
  import opened MockAsyncEnumerables

  class AsyncWhereEnumerator<T> {
    const parent: MockAsyncEnumerator<T>
    const whereFunc: T -> bool

    ghost predicate Valid()
      reads parent
    {
      parent.Valid()
    }

    /** The passing elements still to come. */
    ghost function Remaining(): seq<T>
      reads parent
      requires Valid()
    {
      Filter(whereFunc, parent.Remaining())
    }

    constructor (parentEnumerator: MockAsyncEnumerator<T>, whereFunc: T -> bool)
      requires parentEnumerator.Valid()
      ensures parent == parentEnumerator && this.whereFunc == whereFunc && Valid()
    {
      parent := parentEnumerator;
      this.whereFunc := whereFunc;
    }

    function Current(): Result<T>
      reads parent
      requires Valid()
    {
      parent.Current()
    }

    /** Ok(true) steps onto the next passing element, Ok(false) means no
        passing element was left, and the call fails exactly when the parent
        had nothing left at all. The parent is advanced up to and including
        the first passing element, or through its end plus one call. */
    method MoveNextAsync() returns (r: Result<bool>)
      requires Valid()
      modifies parent
      ensures Valid()
      ensures r.Err? <==> old(parent.Remaining()) == []
      ensures r.Err? ==> r.error == ArgumentOutOfRangeException && parent.curIdx == old(parent.curIdx) + 1
      ensures r.Ok? ==> parent.curIdx == old(parent.curIdx) + SearchCalls(whereFunc, old(parent.Remaining()))
      ensures r.Ok? ==> parent.Remaining() == AfterSearch(whereFunc, old(parent.Remaining()))
      ensures r == Ok(true) ==> old(Remaining()) != [] && Current() == Ok(old(Remaining())[0])
      ensures r == Ok(true) ==> whereFunc(Current().value)
      ensures r == Ok(false) ==> old(Remaining()) == []
      ensures r.Ok? ==> Remaining() == Tail(old(Remaining()))
    {
      ghost var s := parent.Remaining();
      var _ := parent.MoveNextAsync();
      var cur := parent.Current();
      if cur.Err? {
        return Err(cur.error);
      }
      var found := SkipFailing(s);
      if found {
        FilterFirstMatch(whereFunc, s, FindFirst(whereFunc, s).value);
      } else {
        FilterSkipsFailing(whereFunc, s, |s|);
      }
      return Ok(found);
    }

    /** The loop of MoveNextAsync, entered with the parent on the first element
        of `s`: steps the parent until its Current passes the filter, or until
        it runs out. */
    method SkipFailing(ghost s: seq<T>) returns (found: bool)
      requires parent.Valid() && s != [] && parent.Current() == Ok(s[0]) && parent.Remaining() == s[1..]
      modifies parent
      ensures parent.Valid()
      ensures found <==> FindFirst(whereFunc, s).Some?
      ensures found ==> parent.Current() == Ok(s[FindFirst(whereFunc, s).value])
      ensures parent.curIdx == old(parent.curIdx) + SearchCalls(whereFunc, s) - 1
      ensures parent.Remaining() == AfterSearch(whereFunc, s)
    {
      ghost var k := 1;
      var x := parent.Current().value;
      while !whereFunc(x)
        invariant parent.Valid() && parent.Current() == Ok(x)
        invariant 1 <= k <= |s| && parent.curIdx == old(parent.curIdx) + k - 1
        invariant x == s[k - 1] && parent.Remaining() == s[k..]
        invariant forall j :: 0 <= j < k - 1 ==> !whereFunc(s[j])
        decreases |s| - k
      {
        var next := Step(s, k);
        if next.None? {
          SearchRunsOut(whereFunc, s);
          return false;
        }
        x := next.value;
        k := k + 1;
      }
      SearchStopsAt(whereFunc, s, k - 1);
      return true;
    }

    /** One step of the parent, whose remaining elements are `s[k..]`: the
        element stepped onto, if any. */
    method Step(ghost s: seq<T>, ghost k: nat) returns (next: Option<T>)
      requires parent.Valid() && k <= |s| && parent.Remaining() == s[k..]
      modifies parent
      ensures parent.Valid() && parent.curIdx == old(parent.curIdx) + 1
      ensures next.Some? <==> k < |s|
      ensures next.Some? ==> next.value == s[k] && parent.Current() == Ok(s[k]) && parent.Remaining() == s[k + 1..]
      ensures next.None? ==> parent.Remaining() == []
    {
      var moved := parent.MoveNextAsync();
      if moved {
        next := Some(parent.Current().value);
        assert s[k..][1..] == s[k + 1..];
      } else {
        next := None;
      }
    }

    method Reset()
      requires Valid()
      modifies parent
      ensures Valid()
      ensures Remaining() == Filter(whereFunc, parent.list)
    {
      parent.Reset();
    }
  }

  /** The call after a passing last element fails: over [2] with an evenness
      filter the first call yields 2 and the second reads past the end. */
  method WhereFailsAfterPassingLastElement() returns (first: Result<bool>, second: Result<bool>)
    ensures first == Ok(true) && second == Err(ArgumentOutOfRangeException)
  {
    var source := new MockAsyncEnumerator([2], false);
    var w := new AsyncWhereEnumerator(source, (x: int) => x % 2 == 0);
    assert [2][1..] == [];
    assert w.Remaining() == [2];
    assert FindFirst(w.whereFunc, [2]) == Some(0);
    first := w.MoveNextAsync();
    assert first.Ok? && first.value;
    second := w.MoveNextAsync();
  }

  /** A failing last element ends the enumeration cleanly: over [2, 3] the
      calls give true and then false. */
  method WhereEndsAfterFailingLastElement() returns (first: Result<bool>, second: Result<bool>)
    ensures first == Ok(true) && second == Ok(false)
  {
    var source := new MockAsyncEnumerator([2, 3], false);
    var w := new AsyncWhereEnumerator(source, (x: int) => x % 2 == 0);
    assert [2, 3][1..] == [3] && [3][1..] == [];
    assert w.Remaining() == [2];
    first := w.MoveNextAsync();
    assert FindFirst(w.whereFunc, [2, 3]) == Some(0);
    assert first.Ok? && first.value;
    assert source.Remaining() == [3];
    assert w.Remaining() == [];
    second := w.MoveNextAsync();
    assert second.Ok? && !second.value;
  }
}
