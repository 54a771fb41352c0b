/** AsyncSelectManyEnumerator (AsyncEnumerable/Enumerators/AsyncSelectManyEnumerator.cs):
    flattens the collections the selector gives for the parent's elements.
    `_curCollection` is the cursor into the collection being read, null when
    the next one must be fetched from the parent. An exhausted collection is
    dropped and counted as an attempt; after long.MaxValue attempts in one
    call the enumerator gives up with ArgumentOutOfRangeException. Reset only
    resets the parent, so a collection being read stays active. */
module AsyncSelectMany {
  import opened Wrappers
  import opened EnumerationSpecs
  import opened MockAsyncEnumerables

  /** A cursor into an in-memory collection: `idx` is the element under it,
      -1 before the first MoveNext. */
  datatype InnerCursor<R> = InnerCursor(items: seq<R>, idx: int)
  {
    ghost predicate Valid()
    {
      -1 <= idx < |items|
    }

    /** What later MoveNext calls on this cursor still step onto. */
    ghost function Rest(): seq<R>
      requires Valid()
    {
      items[idx + 1..]
    }
  }

  ghost function InnerRest<R>(c: Option<InnerCursor<R>>): seq<R>
    requires c.Some? ==> c.value.Valid()
  {
    if c.None? then [] else c.value.Rest()
  }

  /** Fetching the next collection moves its elements from the parent's part
      of the remaining sequence to the cursor's part. */
  lemma FetchStep<T, R>(f: T -> seq<R>, s: seq<T>, k: nat)
    requires k < |s|
    ensures Flatten(Map(f, s[k..])) == InnerRest(Some(InnerCursor(f(s[k]), -1))) + Flatten(Map(f, s[k + 1..]))
  {
    FlattenMapCons(f, s[k..]);
    assert s[k..][0] == s[k] && s[k..][1..] == s[k + 1..];
  }

  /** An absent or used-up cursor contributes nothing. */
  lemma NothingLeft<R>(c: Option<InnerCursor<R>>, later: seq<R>)
    requires c.Some? ==> c.value.Valid() && c.value.idx + 1 >= |c.value.items|
    ensures InnerRest(c) + later == later
  {
  }

  /** Advancing a cursor that has an element left yields that element and
      leaves the rest. */
  lemma YieldStep<R>(c: InnerCursor<R>, later: seq<R>)
    requires c.Valid() && c.idx + 1 < |c.items|
    ensures var rem := c.Rest() + later;
      rem != [] && rem[0] == c.items[c.idx + 1]
      && InnerCursor(c.items, c.idx + 1).Rest() + later == rem[1..]
  {
    assert c.Rest() == [c.items[c.idx + 1]] + c.items[c.idx + 2..];
  }

  class AsyncSelectManyEnumerator<T, R> {
    const parent: MockAsyncEnumerator<T>
    const selectFunc: T -> seq<R>
    var curCollection: Option<InnerCursor<R>>

    /** Between calls an active collection cursor sits on an element. */
    ghost predicate Valid()
      reads this, parent
    {
      && parent.Valid()
      && (curCollection.Some? ==> curCollection.value.Valid() && curCollection.value.idx >= 0)
    }

    /** The rest of the active collection, then the collections of the
        parent's remaining elements, in order. */
    ghost function Remaining(): seq<R>
      reads this, parent
      requires Valid()
    {
      InnerRest(curCollection) + Flatten(Map(selectFunc, parent.Remaining()))
    }

    constructor (parentEnumerator: MockAsyncEnumerator<T>, selectFunc: T -> seq<R>)
      requires parentEnumerator.Valid()
      ensures parent == parentEnumerator && this.selectFunc == selectFunc
      ensures curCollection == None && Valid()
      ensures Remaining() == Flatten(Map(selectFunc, parentEnumerator.Remaining()))
    {
      parent := parentEnumerator;
      this.selectFunc := selectFunc;
      curCollection := None;
    }

    /** The active collection's element; dereferencing the null cursor
        before the first successful call fails. */
    function Current(): (r: Result<R>)
      reads this, parent
      requires Valid()
      ensures r.Ok? <==> curCollection.Some?
      ensures r.Err? ==> r.error == NullReferenceException
      ensures r.Ok? ==> r.value == curCollection.value.items[curCollection.value.idx]
    {
      match curCollection
      case None => Err(NullReferenceException)
      case Some(c) => Ok(c.items[c.idx])
    }

    /** Fetches the next collection from the parent, whose remaining
        elements are `s0[k..]`. */
    method Fetch(ghost s0: seq<T>, ghost k: nat) returns (moved: bool, c: InnerCursor<R>)
      requires parent.Valid() && k <= |s0| && parent.Remaining() == s0[k..]
      modifies parent
      ensures parent.Valid() && parent.curIdx == old(parent.curIdx) + 1
      ensures moved <==> k < |s0|
      ensures !moved ==> parent.Remaining() == []
      ensures moved ==> parent.Remaining() == s0[k + 1..] && c == InnerCursor(selectFunc(s0[k]), -1)
      ensures moved ==> Flatten(Map(selectFunc, s0[k..])) == InnerRest(Some(c)) + Flatten(Map(selectFunc, s0[k + 1..]))
    {
      moved := parent.MoveNextAsync();
      if moved {
        assert s0[k..][0] == s0[k] && s0[k..][1..] == s0[k + 1..];
        c := InnerCursor(selectFunc(parent.Current().value), -1);
        FetchStep(selectFunc, s0, k);
      } else {
        c := InnerCursor([], -1);
      }
    }

    /** The loop of MoveNextAsync, on the cursor `cur` it starts from: the
        outcome and the cursor to keep. */
    method Advance(cur0: Option<InnerCursor<R>>) returns (r: Result<bool>, cur: Option<InnerCursor<R>>)
      requires parent.Valid() && (cur0.Some? ==> cur0.value.Valid())
      modifies parent
      ensures parent.Valid()
      ensures r == Ok(true) ==> cur.Some? && cur.value.Valid() && cur.value.idx >= 0
      ensures r != Ok(true) ==> cur == None
      ensures var rem0 := InnerRest(cur0) + Flatten(Map(selectFunc, old(parent.Remaining())));
        && (r == Ok(true) ==> rem0 != [] && cur.value.items[cur.value.idx] == rem0[0])
        && (r == Ok(false) ==> rem0 == [] && parent.Remaining() == [])
        && (r.Ok? ==> InnerRest(cur) + Flatten(Map(selectFunc, parent.Remaining())) == Tail(rem0))
      ensures r.Err? ==> r.error == ArgumentOutOfRangeException
      ensures r.Err? ==> |old(parent.Remaining())| + 1 >= LongMaxValue
    {
      ghost var s0 := parent.Remaining();
      ghost var rem0 := InnerRest(cur0) + Flatten(Map(selectFunc, s0));
      ghost var k := 0;
      ghost var later := Flatten(Map(selectFunc, s0));
      cur := cur0;
      var maxAttempts := 0;
      while maxAttempts < LongMaxValue
        invariant parent.Valid() && k <= |s0| && parent.Remaining() == s0[k..]
        invariant later == Flatten(Map(selectFunc, s0[k..]))
        invariant cur.Some? ==> cur.value.Valid()
        invariant 0 <= maxAttempts <= k + (if cur.Some? then 0 else 1)
        invariant InnerRest(cur) + later == rem0
        decreases LongMaxValue - maxAttempts
      {
        if cur.None? {
          var moved, fetched := Fetch(s0, k);
          if !moved {
            return Ok(false), None;
          }
          NothingLeft(cur, later);
          cur := Some(fetched);
          k := k + 1;
          later := Flatten(Map(selectFunc, s0[k..]));
        }
        var c := cur.value;
        if c.idx + 1 >= |c.items| {
          NothingLeft(cur, later);
          NothingLeft(None, later);
          cur := None;
          maxAttempts := maxAttempts + 1;
          continue;
        }
        YieldStep(c, later);
        return Ok(true), Some(InnerCursor(c.items, c.idx + 1));
      }
      return Err(ArgumentOutOfRangeException), None;
    }

    /** Ok(true) steps onto the next flattened element, skipping empty
        collections within the one call; Ok(false) means no element was left.
        Giving up needs at least long.MaxValue - 1 parent elements to have
        been consumed by this call. */
    method MoveNextAsync() returns (r: Result<bool>)
      requires Valid()
      modifies this, parent
      ensures Valid()
      ensures r == Ok(true) ==> old(Remaining()) != [] && Current() == Ok(old(Remaining())[0])
      ensures r == Ok(false) ==> old(Remaining()) == [] && curCollection == None && parent.Remaining() == []
      ensures r.Ok? ==> Remaining() == Tail(old(Remaining()))
      ensures r.Err? ==> r.error == ArgumentOutOfRangeException
      ensures r.Err? ==> |old(parent.Remaining())| + 1 >= LongMaxValue
    {
      r, curCollection := Advance(curCollection);
    }

    method Reset()
      requires Valid()
      modifies parent
      ensures Valid() && curCollection == old(curCollection)
      ensures Remaining() == InnerRest(curCollection) + Flatten(Map(selectFunc, parent.list))
    {
      parent.Reset();
    }
  }
}
