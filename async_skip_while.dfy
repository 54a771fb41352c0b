/** AsyncSkipWhileEnumerator (AsyncEnumerable/Enumerators/AsyncSkipWhileEnumerator.cs):
    the first successful MoveNextAsync advances the parent past the longest
    prefix the predicate accepts, stops on the first element it rejects and
    sets `hasSkipped`; from then on each call only forwards the parent's
    MoveNextAsync and the predicate is never called again. When the parent
    runs out while skipping, the call answers false and `hasSkipped` stays
    unset. Reset forwards to the parent and leaves `hasSkipped` as it is. */
module AsyncSkipWhile {
  import opened Wrappers
  import opened EnumerationSpecs
  import opened MockAsyncEnumerables

  class AsyncSkipWhileEnumerator<T> {
    const parent: MockAsyncEnumerator<T>
    var skipFunc: Predicate<T>
    var hasSkipped: bool

    ghost predicate Valid()
      reads parent
    {
      parent.Valid()
    }

    /** The elements still to come: the parent's, less the skipped prefix
        while it has not been skipped yet. */
    ghost function Remaining(): seq<T>
      reads this, parent
      requires Valid()
    {
      if hasSkipped then parent.Remaining() else SkipWhileP(skipFunc, parent.Remaining())
    }

    constructor (parentEnumerator: MockAsyncEnumerator<T>, skipFunc: Predicate<T>)
      requires parentEnumerator.Valid()
      ensures parent == parentEnumerator && this.skipFunc == skipFunc && !hasSkipped && Valid()
    {
      parent := parentEnumerator;
      this.skipFunc := skipFunc;
      hasSkipped := false;
    }

    function Current(): Result<T>
      reads parent
      requires Valid()
    {
      parent.Current()
    }

    /** The skipping loop of the first successful call: advances the parent
        onto the first element the predicate rejects, or past the end. */
    method SkipPrefix() returns (last: bool)
      requires Valid() && !hasSkipped
      modifies this, parent
      ensures Valid() && !hasSkipped
      ensures last <==> old(Remaining()) != []
      ensures last ==> parent.Current() == Ok(old(Remaining())[0])
      ensures parent.Remaining() == Tail(old(Remaining()))
      ensures parent.curIdx == old(parent.curIdx) + |old(parent.Remaining())| - |old(Remaining())| + 1
      ensures skipFunc == SkipWhileState(old(skipFunc), old(parent.Remaining()))
    {
      ghost var s := parent.Remaining();
      ghost var p0 := skipFunc;
      ghost var k := 1;
      last := parent.MoveNextAsync();
      while last
        invariant parent.Valid() && !hasSkipped && 1 <= k <= |s| + 1
        invariant parent.curIdx == old(parent.curIdx) + k
        invariant last <==> k <= |s|
        invariant last ==> parent.Current() == Ok(s[k - 1])
        invariant parent.Remaining() == (if last then s[k..] else [])
        invariant SkipWhileP(p0, s) == (if last then SkipWhileP(skipFunc, s[k - 1..]) else [])
        invariant SkipWhileState(p0, s) == (if last then SkipWhileState(skipFunc, s[k - 1..]) else skipFunc)
        decreases |s| + 1 - k
      {
        assert s[k - 1..][0] == s[k - 1] && s[k - 1..][1..] == s[k..];
        var (b, next) := Apply(skipFunc, parent.Current().value);
        skipFunc := next;
        if !b {
          return;
        }
        last := parent.MoveNextAsync();
        k := k + 1;
      }
    }

    /** Steps onto the next element that survives the skip. The parent is
        advanced once after the skip, and before it once per skipped element
        plus once onto the element kept (or past the end). */
    method MoveNextAsync() returns (r: bool)
      requires Valid()
      modifies this, parent
      ensures Valid()
      ensures r <==> old(Remaining()) != []
      ensures r ==> Current() == Ok(old(Remaining())[0])
      ensures Remaining() == Tail(old(Remaining()))
      ensures hasSkipped == (old(hasSkipped) || r)
      ensures old(hasSkipped) ==> parent.curIdx == old(parent.curIdx) + 1 && skipFunc == old(skipFunc)
      ensures !old(hasSkipped) ==>
        && parent.curIdx == old(parent.curIdx) + |old(parent.Remaining())| - |old(Remaining())| + 1
        && skipFunc == SkipWhileState(old(skipFunc), old(parent.Remaining()))
    {
      if !hasSkipped {
        var last := SkipPrefix();
        if !last {
          return false;
        }
      }
      if hasSkipped {
        r := parent.MoveNextAsync();
        return;
      }
      hasSkipped := true;
      r := true;
    }

    method Reset()
      requires Valid()
      modifies parent
      ensures Valid() && hasSkipped == old(hasSkipped) && skipFunc == old(skipFunc)
      ensures Remaining() == (if hasSkipped then parent.list else SkipWhileP(skipFunc, parent.list))
    {
      parent.Reset();
    }
  }
}
