/** AsyncTakeWhileEnumerator (AsyncEnumerable/Enumerators/AsyncTakeWhileEnumerator.cs):
    each MoveNextAsync advances the parent once and answers false when the
    parent is exhausted or the predicate rejects the new Current. Nothing
    remembers a rejection, so a later call advances the parent again and may
    answer true: the enumerator is not sticky. The predicate may carry state
    (Take's counter closure), so it is a field that each call updates. */
module AsyncTakeWhile {
  import opened Wrappers
  import opened EnumerationSpecs
  import opened MockAsyncEnumerables

  class AsyncTakeWhileEnumerator<T> {
    const parent: MockAsyncEnumerator<T>
    var takeFunc: Predicate<T>

    ghost predicate Valid()
      reads parent
    {
      parent.Valid()
    }

    /** The elements still to come before the predicate first says no. */
    ghost function Remaining(): seq<T>
      reads this, parent
      requires Valid()
    {
      TakeWhileP(takeFunc, parent.Remaining())
    }

    constructor (parentEnumerator: MockAsyncEnumerator<T>, takeFunc: Predicate<T>)
      requires parentEnumerator.Valid()
      ensures parent == parentEnumerator && this.takeFunc == takeFunc && Valid()
    {
      parent := parentEnumerator;
      this.takeFunc := takeFunc;
    }

    function Current(): Result<T>
      reads parent
      requires Valid()
    {
      parent.Current()
    }

    /** One parent step and at most one predicate call: true steps onto the
        next element of the taken prefix; false means that prefix is used up,
        after which the parent has still moved one element on. */
    method MoveNextAsync() returns (r: bool)
      requires Valid()
      modifies this, parent
      ensures Valid()
      ensures parent.curIdx == old(parent.curIdx) + 1
      ensures parent.Remaining() == Tail(old(parent.Remaining()))
      ensures takeFunc == (if old(parent.Remaining()) == [] then old(takeFunc)
                           else Apply(old(takeFunc), old(parent.Remaining())[0]).1)
      ensures r <==> old(Remaining()) != []
      ensures r ==> Current() == Ok(old(Remaining())[0]) && Remaining() == old(Remaining())[1..]
    {
      var moved := parent.MoveNextAsync();
      if !moved {
        return false;
      }
      var (b, next) := Apply(takeFunc, parent.Current().value);
      takeFunc := next;
      r := b;
    }

    method Reset()
      requires Valid()
      modifies parent
      ensures Valid() && takeFunc == old(takeFunc)
      ensures Remaining() == TakeWhileP(takeFunc, parent.list)
    {
      parent.Reset();
    }
  }

  /** TakeWhile is not sticky: over [2, 1, 4] with an evenness predicate the
      calls answer true, false, and then true again. */
  method TakeWhileResumesAfterRejection() returns (a: bool, b: bool, c: bool)
    ensures a && !b && c
  {
    var source := new MockAsyncEnumerator([2, 1, 4], false);
    var t := new AsyncTakeWhileEnumerator(source, Stateless((x: int) => x % 2 == 0));
    assert [2, 1, 4][1..] == [1, 4] && [1, 4][1..] == [4] && [4][1..] == [];
    a := t.MoveNextAsync();
    b := t.MoveNextAsync();
    c := t.MoveNextAsync();
  }
}
