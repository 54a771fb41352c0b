/** MockAsyncEnumerable (CareOtter.ServiceFabricUtilities.Mocks/MockAsyncEnumerable.cs):
    the list-backed async sequence the enumerator combinators run on. An
    enumerator is a cursor `curIdx` into the list, starting before the first
    element; every MoveNextAsync moves it one step, also past the end. The
    optional `moveNextAction` callback (the tests use it to count calls) is
    modelled by counting its invocations. */
module MockAsyncEnumerables {
  import opened Wrappers
  import opened EnumerationSpecs

  datatype MockAsyncEnumerable<T> = MockAsyncEnumerable(sourceList: seq<T>, hasMoveNextAction: bool)
  {
    /** Each call gives an independent cursor over the same list. */
    method GetAsyncEnumerator() returns (e: MockAsyncEnumerator<T>)
      ensures fresh(e) && e.Valid()
      ensures e.list == sourceList && e.hasMoveNextAction == hasMoveNextAction
      ensures e.curIdx == -1 && e.actionCalls == 0
      ensures e.Remaining() == sourceList
    {
      e := new MockAsyncEnumerator(sourceList, hasMoveNextAction);
    }
  }

  class MockAsyncEnumerator<T> {
    const list: seq<T>
    const hasMoveNextAction: bool
    var curIdx: int
    /** How many times `moveNextAction` has been invoked. */
    var actionCalls: nat

    ghost predicate Valid()
      reads this
    {
      curIdx >= -1
    }

    /** The elements later MoveNextAsync calls will still step onto. */
    ghost function Remaining(): seq<T>
      reads this
      requires Valid()
    {
      if curIdx + 1 <= |list| then list[curIdx + 1..] else []
    }

    constructor (sourceList: seq<T>, moveNextAction: bool)
      ensures Valid() && list == sourceList && hasMoveNextAction == moveNextAction
      ensures curIdx == -1 && actionCalls == 0
      ensures Remaining() == sourceList
    {
      list := sourceList;
      hasMoveNextAction := moveNextAction;
      curIdx := -1;
      actionCalls := 0;
    }

    /** `_list[curIdx]`: the element under the cursor, which the list indexer
        refuses outside the list. */
    function Current(): (r: Result<T>)
      reads this
      requires Valid()
      ensures r.Ok? <==> 0 <= curIdx < |list|
      ensures r.Err? ==> r.error == ArgumentOutOfRangeException
      ensures r.Ok? ==> list == list[..curIdx] + [r.value] + Remaining()
    {
      if 0 <= curIdx < |list| then Ok(list[curIdx]) else Err(ArgumentOutOfRangeException)
    }

    /** Steps onto the next element: true while one is left, and the element
        stepped onto becomes Current. */
    method MoveNextAsync() returns (r: bool)
      requires Valid()
      modifies this
      ensures Valid()
      ensures curIdx == old(curIdx) + 1
      ensures actionCalls == old(actionCalls) + (if hasMoveNextAction then 1 else 0)
      ensures r <==> old(Remaining()) != []
      ensures r ==> Current() == Ok(old(Remaining())[0])
      ensures Remaining() == Tail(old(Remaining()))
    {
      if hasMoveNextAction {
        actionCalls := actionCalls + 1;
      }
      curIdx := curIdx + 1;
      r := curIdx < |list|;
    }

    /** Back before the first element. */
    method Reset()
      modifies this
      ensures Valid() && curIdx == -1 && actionCalls == old(actionCalls)
      ensures Remaining() == list
    {
      curIdx := -1;
    }
  }
}
