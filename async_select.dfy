/** AsyncSelectEnumerator (AsyncEnumerable/Enumerators/AsyncSelectEnumerator.cs):
    a projection with no state of its own. MoveNextAsync and Reset are the
    parent's, and Current applies the selector to the parent's Current on
    every access. */
module AsyncSelect {
  import opened Wrappers
  import opened EnumerationSpecs
  import opened MockAsyncEnumerables

  class AsyncSelectEnumerator<T, R> {
    const parent: MockAsyncEnumerator<T>
    const selectFunc: T -> R

    ghost predicate Valid()
      reads parent
    {
      parent.Valid()
    }

    /** The projected elements still to come. */
    ghost function Remaining(): seq<R>
      reads parent
      requires Valid()
    {
      Map(selectFunc, parent.Remaining())
    }

    constructor (parentEnumerator: MockAsyncEnumerator<T>, selectFunc: T -> R)
      requires parentEnumerator.Valid()
      ensures parent == parentEnumerator && this.selectFunc == selectFunc && Valid()
    {
      parent := parentEnumerator;
      this.selectFunc := selectFunc;
    }

    /** The selector's image of the parent's element; the parent's failure
        when it has none. */
    function Current(): (r: Result<R>)
      reads parent
      requires Valid()
      ensures r.Ok? <==> parent.Current().Ok?
      ensures r.Ok? ==> r.value == selectFunc(parent.Current().value)
      ensures r.Err? ==> r.error == parent.Current().error
    {
      match parent.Current()
      case Ok(x) => Ok(selectFunc(x))
      case Err(e) => Err(e)
    }

    /** The parent's step: each element yielded is the image of the parent's
        next element. */
    method MoveNextAsync() returns (r: bool)
      requires Valid()
      modifies parent
      ensures Valid()
      ensures parent.curIdx == old(parent.curIdx) + 1
      ensures r <==> old(Remaining()) != []
      ensures r ==> Current() == Ok(old(Remaining())[0])
      ensures Remaining() == Tail(old(Remaining()))
    {
      r := parent.MoveNextAsync();
      assert Map(selectFunc, parent.Remaining()) == Tail(old(Remaining()));
    }

    method Reset()
      requires Valid()
      modifies parent
      ensures Valid()
      ensures Remaining() == Map(selectFunc, parent.list)
    {
      parent.Reset();
    }
  }
}
