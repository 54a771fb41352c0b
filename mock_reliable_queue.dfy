/** MockReliableQueue (CareOtter.ServiceFabricUtilities.Mocks/StateManager/MockReliableQueue.cs):
    a reliable queue double backed by a plain FIFO queue; the transaction
    argument is ignored. */
module MockReliableQueues {
  import opened Wrappers
  import opened MockAsyncEnumerables

  class MockReliableQueue<T> {
    /** Head first. */
    var items: seq<T>

    constructor ()
      ensures items == []
    {
      items := [];
    }

    method GetCountAsync() returns (n: int)
      ensures n == |items|
    {
      n := |items|;
    }

    method ClearAsync()
      modifies this
      ensures items == []
    {
      items := [];
    }

    /** Appends at the tail. */
    method EnqueueAsync(item: T)
      modifies this
      ensures items == old(items) + [item]
    {
      items := items + [item];
    }

    /** Removes and returns the head; an empty queue gives nothing and stays
        empty. */
    method TryDequeueAsync() returns (r: Option<T>)
      modifies this
      ensures old(items) == [] ==> r == None && items == []
      ensures old(items) != [] ==> r == Some(old(items)[0]) && items == old(items)[1..]
    {
      if |items| > 0 {
        r := Some(items[0]);
        items := items[1..];
      } else {
        r := None;
      }
    }

    /** Every TryPeekAsync overload throws. */
    method TryPeekAsync() returns (r: Result<Option<T>>)
      ensures r == Err(NotImplementedException)
    {
      r := Err(NotImplementedException);
    }

    /** A copy of the queue, head first; later queue operations do not reach it. */
    method CreateEnumerableAsync() returns (e: MockAsyncEnumerable<T>)
      ensures e.sourceList == items && !e.hasMoveNextAction
    {
      e := MockAsyncEnumerable(items, false);
    }
  }

  /** FIFO order: after enqueueing a then b on an empty queue, dequeues give a,
      then b, then nothing. */
  method FifoOrder<T>(a: T, b: T) returns (first: Option<T>, second: Option<T>, third: Option<T>)
    ensures first == Some(a) && second == Some(b) && third == None
  {
    var q := new MockReliableQueue<T>();
    q.EnqueueAsync(a);
    q.EnqueueAsync(b);
    first := q.TryDequeueAsync();
    second := q.TryDequeueAsync();
    third := q.TryDequeueAsync();
  }

  /** The enumerable is a snapshot: enqueueing after it was taken leaves it as
      it was. */
  method SnapshotIsolation<T>(q: MockReliableQueue<T>, x: T) returns (e: MockAsyncEnumerable<T>)
    modifies q
    ensures e.sourceList == old(q.items) && q.items == old(q.items) + [x]
  {
    e := q.CreateEnumerableAsync();
    q.EnqueueAsync(x);
  }
}
