/** MockTransaction (CareOtter.ServiceFabricUtilities.Mocks/StateManager/MockTransaction.cs):
    a transaction double that only records whether it was committed, so that
    tests can catch a transaction disposed without a commit. */
module MockTransactions {
  import opened Wrappers

  class MockTransaction {
    var ThrowOnNonCommit: bool
    var hasCommitted: bool

    constructor (throwOnNonCommit: bool)
      ensures ThrowOnNonCommit == throwOnNonCommit && !hasCommitted
    {
      ThrowOnNonCommit := throwOnNonCommit;
      hasCommitted := false;
    }

    /** Fails with InvalidOperationException exactly when the transaction was
        asked to check and was neither committed nor aborted. */
    method Dispose() returns (r: Outcome)
      ensures r.Fail? <==> ThrowOnNonCommit && !hasCommitted
      ensures r.Fail? ==> r.error == InvalidOperationException
    {
      if ThrowOnNonCommit && !hasCommitted {
        return Fail(InvalidOperationException);
      }
      return Pass;
    }

    method CommitAsync()
      modifies this
      ensures hasCommitted && ThrowOnNonCommit == old(ThrowOnNonCommit)
    {
      hasCommitted := true;
    }

    /** Counts as a commit for the disposal check. */
    method Abort()
      modifies this
      ensures hasCommitted && ThrowOnNonCommit == old(ThrowOnNonCommit)
    {
      hasCommitted := true;
    }

    /** Not implemented by the double: every call throws. */
    method GetVisibilitySequenceNumberAsync() returns (r: Result<int>)
      ensures r == Err(NotImplementedException)
    {
      return Err(NotImplementedException);
    }
  }

  /** A committed transaction disposes cleanly whatever its setting; an
      uncommitted checking one fails. */
  method CommitThenDispose(throwOnNonCommit: bool) returns (before: Outcome, after: Outcome)
    ensures before == (if throwOnNonCommit then Fail(InvalidOperationException) else Pass)
    ensures after == Pass
  {
    var tx := new MockTransaction(throwOnNonCommit);
    before := tx.Dispose();
    tx.CommitAsync();
    after := tx.Dispose();
  }
}
