/** IDataPageManager (Paging/IDataPageManager.cs) and its two
    implementations, as a choice between them: every operation dispatches to
    the chosen manager and is stated on the shared abstract state with the
    DataPaging functions, so callers (PagingHelper, PagingRequestSession)
    work with either. The service operations a remote caller reaches
    (IDataPageReciever, IDataPageSender) are the same operations; the one
    that reshapes its answer, GetPageAsync, is modelled here too. */
module DataPageManagers {
  import opened Wrappers
  import opened PagingIds
  import opened PagingIdAllocation
  import opened PagingContainers
  import opened DataPaging
  import opened UnreliablePaging
  import opened ReliablePaging

  datatype DataPageManager =
    | UnreliableManager(unreliable: UnreliableDataPageManager)
    | ReliableManager(reliable: ReliableDataPageManager)
  {
    function Kind(): Store
    {
      if UnreliableManager? then Volatile else Durable
    }

    ghost function Repr(): set<object>
    {
      if UnreliableManager? then unreliable.Repr() else reliable.Repr()
    }

    ghost predicate Valid()
      reads Repr()
    {
      if UnreliableManager? then unreliable.Valid() else reliable.Valid()
    }

    function State(): PagingState
      reads Repr()
    {
      if UnreliableManager? then unreliable.State() else reliable.State()
    }

    method BeginPagingData(originDataLength: int) returns (r: Result<PagingId>)
      requires Valid() && (originDataLength >= 0 ==> HasFree(State().ids))
      modifies Repr()
      ensures Valid()
      ensures (r, State()) == Begin(Kind(), old(State()), originDataLength)
    {
      if UnreliableManager? {
        r := unreliable.BeginPagingData(originDataLength);
      } else {
        r := reliable.BeginPagingData(originDataLength);
      }
    }

    method SendDataPage(id: PagingId, page: seq<byte>) returns (r: Outcome)
      requires Valid()
      modifies Repr()
      ensures Valid()
      ensures (r, State()) == SendPage(old(State()), id, page)
    {
      if UnreliableManager? {
        r := unreliable.SendDataPage(id, page);
      } else {
        r := reliable.SendDataPage(id, page);
      }
    }

    method GetDataAs(id: PagingId) returns (r: Result<seq<byte>>)
      requires Valid()
      modifies Repr()
      ensures Valid() && State() == old(State())
      ensures r == DataOf(State(), id)
    {
      if UnreliableManager? {
        r := unreliable.GetDataAs(id);
      } else {
        r := reliable.GetDataAs(id);
      }
    }

    method EndPagingData(id: PagingId) returns (r: Outcome)
      requires Valid()
      modifies Repr()
      ensures Valid()
      ensures (r, State()) == End(old(State()), id)
    {
      if UnreliableManager? {
        r := unreliable.EndPagingData(id);
      } else {
        r := reliable.EndPagingData(id);
      }
    }

    method PrepareDataForPaging(payload: seq<byte>) returns (session: RequestedPagedDataSession)
      requires Valid() && HasFree(State().ids)
      modifies Repr()
      ensures Valid()
      ensures (session, State()) == Prepare(old(State()), payload)
    {
      if UnreliableManager? {
        session := unreliable.PrepareDataForPaging(payload);
      } else {
        session := reliable.PrepareDataForPaging(payload);
      }
    }

    method GetPage(id: PagingId, pageNum: nat) returns (r: Option<seq<byte>>)
      requires Valid()
      modifies Repr()
      ensures Valid() && State() == old(State())
      ensures r == PageOf(State(), id, pageNum)
    {
      if UnreliableManager? {
        r := unreliable.GetPage(id, pageNum);
      } else {
        r := reliable.GetPage(id, pageNum);
      }
    }

    method NotifyPagingSessionComplete(id: PagingId)
      requires Valid()
      modifies Repr()
      ensures Valid()
      ensures State() == Notify(Kind(), old(State()), id)
    {
      if UnreliableManager? {
        unreliable.NotifyPagingSessionComplete(id);
      } else {
        reliable.NotifyPagingSessionComplete(id);
      }
    }

    /** The sending service's GetPageAsync: GetPage's conditional value as a
        Response whose Success is HasValue. */
    method GetPageAsync(sessionId: PagingId, pageNum: nat) returns (r: Response<seq<byte>>)
      requires Valid()
      modifies Repr()
      ensures Valid() && State() == old(State())
      ensures r.Success <==> PageOf(State(), sessionId, pageNum).Some?
      ensures r.ResultValue == PageOf(State(), sessionId, pageNum)
    {
      var res := GetPage(sessionId, pageNum);
      r := Response(res.Some?, res);
    }
  }
}
