/** UnreliableDataPageManager (Paging/UnreliableDataPageManager.cs): the
    in-memory session store. Receiving sessions and requested sessions live
    in two separate maps; both take their ids from one allocator. Each
    operation is proved against the matching function of DataPaging. */
module UnreliablePaging {
  import opened Wrappers
  import opened PagingIds
  import opened PagingIdAllocation
  import opened PagedDataSender
  import opened PagedDataReceiver
  import opened PagingContainers
  import opened DataPaging

  class UnreliableDataPageManager {
    /** The receiving sessions (`_dataPackages`). */
    var dataPackages: map<PagingId, ReceiverState>
    /** The requested sessions (`_requestedPackageDictionary`). */
    var requestedPackageDictionary: map<PagingId, SenderState>
    const idManager: PagingIdManager

    ghost function Repr(): set<object>
    {
      {this, idManager, idManager.ids}
    }

    function State(): PagingState
      reads this, idManager, idManager.ids
    {
      PagingState(dataPackages, requestedPackageDictionary, idManager.ids[..], idManager.pos)
    }

    ghost predicate Valid()
      reads Repr()
    {
      idManager.Valid() && State().Valid()
    }

    constructor ()
      ensures Valid() && fresh(Repr())
      ensures State() == InitialState()
    {
      dataPackages := map[];
      requestedPackageDictionary := map[];
      idManager := new PagingIdManager();
    }

    /** TryAdd: an existing package under the new id is kept. */
    method BeginPagingData(originDataLength: int) returns (r: Result<PagingId>)
      requires Valid() && (originDataLength >= 0 ==> HasFree(State().ids))
      modifies Repr()
      ensures Valid()
      ensures (r, State()) == Begin(Volatile, old(State()), originDataLength)
    {
      if originDataLength < 0 {
        return Err(OverflowException);
      }
      var dataPackage := new PagedDataReceiverPackage(originDataLength);
      var n := idManager.GetId();
      var id := PagingId(n);
      if id !in dataPackages {
        dataPackages := dataPackages[id := dataPackage.State()];
      }
      return Ok(id);
    }

    method SendDataPage(id: PagingId, page: seq<byte>) returns (r: Outcome)
      requires Valid()
      modifies this
      ensures Valid()
      ensures (r, State()) == SendPage(old(State()), id, page)
    {
      if id !in dataPackages {
        return Fail(ArgumentException);
      }
      dataPackages := dataPackages[id := dataPackages[id].AddData(page)];
      return Pass;
    }

    /** The session's buffer; changes nothing. */
    function GetDataAs(id: PagingId): (r: Result<seq<byte>>)
      reads this
      ensures r == DataOf(State(), id)
    {
      if id !in dataPackages then Err(ArgumentException) else Ok(dataPackages[id].Data)
    }

    method EndPagingData(id: PagingId) returns (r: Outcome)
      requires Valid()
      modifies Repr()
      ensures Valid()
      ensures (r, State()) == End(old(State()), id)
    {
      if id !in dataPackages {
        return Fail(ArgumentException);
      }
      dataPackages := dataPackages - {id};
      idManager.FreeId(id.Id);
      return Pass;
    }

    /** Allocates the id, then builds the package; AddOrUpdate replaces any
        package under the id. */
    method PrepareDataForPaging(payload: seq<byte>) returns (session: RequestedPagedDataSession)
      requires Valid() && HasFree(State().ids)
      modifies Repr()
      ensures Valid()
      ensures (session, State()) == Prepare(old(State()), payload)
    {
      var n := idManager.GetId();
      var id := PagingId(n);
      var senderPackage := new PagedDataSenderPackage();
      senderPackage.Initialize(payload, DefaultBytesPerPage);
      requestedPackageDictionary := requestedPackageDictionary[id := senderPackage.State()];
      session := RequestedPagedDataSession(id, senderPackage.GetOriginDataLength());
    }

    /** Changes nothing. */
    function GetPage(id: PagingId, pageNum: nat): (r: Option<seq<byte>>)
      reads Repr()
      requires Valid()
      ensures r == PageOf(State(), id, pageNum)
    {
      if id !in requestedPackageDictionary then None
      else requestedPackageDictionary[id].GetDataAtPage(pageNum)
    }

    /** Frees the id first, whether or not a requested session has it. */
    method NotifyPagingSessionComplete(id: PagingId)
      requires Valid()
      modifies Repr()
      ensures Valid()
      ensures State() == Notify(Volatile, old(State()), id)
    {
      idManager.FreeId(id.Id);
      requestedPackageDictionary := requestedPackageDictionary - {id};
    }
  }
}
