/** ReliableDataPageManager (Paging/ReliableDataPageManager.cs): the session
    store over two reliable dictionaries, one for receiving sessions and one
    for requested sessions, with one id allocator for both. Each dictionary
    is fetched from the state manager on first use and cached in a field.

    The dictionaries are the in-memory doubles of MockReliableDictionaries,
    which ignore transactions; so transactions, commits and their absence
    (EndPagingData never commits) leave no trace here. The state manager is
    reduced to the two dictionaries it holds under the two names, both empty
    when the manager is created. */
module ReliablePaging {
  import opened Wrappers
  import opened PagingIds
  import opened PagingIdAllocation
  import opened PagedDataSender
  import opened PagedDataReceiver
  import opened PagingContainers
  import opened DataPaging
  import opened MockReliableDictionaries

  class ReliableDataPageManager {
    const idManager: PagingIdManager
    /** The dictionary the state manager holds under "PagedDataRecieverDictKey". */
    const receiverStore: MockReliableDictionary<PagingId, ReceiverState>
    /** The dictionary the state manager holds under "RequestedPackageDictionary". */
    const requestedStore: MockReliableDictionary<PagingId, SenderState>
    /** The cached receiving dictionary, null until first fetched. */
    var recievedPageDict: MockReliableDictionary?<PagingId, ReceiverState>
    /** The cached requested dictionary, null until first fetched. */
    var requestedPackageDictionary: MockReliableDictionary?<PagingId, SenderState>

    ghost function Repr(): set<object>
    {
      {this, idManager, idManager.ids, receiverStore, requestedStore}
    }

    function State(): PagingState
      reads idManager, idManager.ids, receiverStore, requestedStore
    {
      PagingState(receiverStore.items, requestedStore.items, idManager.ids[..], idManager.pos)
    }

    ghost predicate Valid()
      reads Repr()
    {
      && idManager.Valid() && State().Valid()
      && (recievedPageDict == null || recievedPageDict == receiverStore)
      && (requestedPackageDictionary == null || requestedPackageDictionary == requestedStore)
    }

    constructor ()
      ensures Valid() && fresh(Repr())
      ensures recievedPageDict == null && requestedPackageDictionary == null
      ensures State() == InitialState()
    {
      idManager := new PagingIdManager();
      receiverStore := new MockReliableDictionary();
      requestedStore := new MockReliableDictionary();
      recievedPageDict := null;
      requestedPackageDictionary := null;
    }

    /** GetRecieverDict: fetches the receiving dictionary once, then answers
        from the cache. */
    method GetRecieverDict() returns (dict: MockReliableDictionary<PagingId, ReceiverState>)
      requires Valid()
      modifies this
      ensures Valid() && dict == receiverStore && recievedPageDict == receiverStore
      ensures requestedPackageDictionary == old(requestedPackageDictionary)
    {
      if recievedPageDict == null {
        recievedPageDict := receiverStore;
      }
      dict := recievedPageDict;
    }

    /** GetRequestedPackageDictionary: the same for the requested dictionary. */
    method GetRequestedPackageDictionary() returns (dict: MockReliableDictionary<PagingId, SenderState>)
      requires Valid()
      modifies this
      ensures Valid() && dict == requestedStore && requestedPackageDictionary == requestedStore
      ensures recievedPageDict == old(recievedPageDict)
    {
      if requestedPackageDictionary != null {
        return requestedPackageDictionary;
      }
      requestedPackageDictionary := requestedStore;
      dict := requestedPackageDictionary;
    }

    /** AddOrUpdate: an existing package under the new id is replaced. */
    method BeginPagingData(originDataLength: int) returns (r: Result<PagingId>)
      requires Valid() && (originDataLength >= 0 ==> HasFree(State().ids))
      modifies Repr()
      ensures Valid() && recievedPageDict == receiverStore
      ensures requestedPackageDictionary == old(requestedPackageDictionary)
      ensures (r, State()) == Begin(Durable, old(State()), originDataLength)
    {
      var dict := GetRecieverDict();
      if originDataLength < 0 {
        return Err(OverflowException);
      }
      var dataPackage := new PagedDataReceiverPackage(originDataLength);
      var package := dataPackage.State();
      var n := idManager.GetId();
      var id := PagingId(n);
      var _ := dict.AddOrUpdateAsync(id, _ => package, (_, _) => package);
      return Ok(id);
    }

    /** Reads the package, adds the page and writes the package back. The
        source checks the id twice (ContainsKey, then TryGetValue); the second
        check cannot fail once the first has passed. */
    method SendDataPage(id: PagingId, page: seq<byte>) returns (r: Outcome)
      requires Valid()
      modifies Repr()
      ensures Valid() && recievedPageDict == receiverStore
      ensures requestedPackageDictionary == old(requestedPackageDictionary)
      ensures (r, State()) == SendPage(old(State()), id, page)
    {
      var dict := GetRecieverDict();
      var present := dict.ContainsKeyAsync(id);
      if !present {
        return Fail(ArgumentException);
      }
      var oldPackage := dict.TryGetValueAsync(id);
      dict.SetAsync(id, oldPackage.value.AddData(page));
      return Pass;
    }

    /** The session's buffer; only the cache changes. */
    method GetDataAs(id: PagingId) returns (r: Result<seq<byte>>)
      requires Valid()
      modifies this
      ensures Valid() && recievedPageDict == receiverStore
      ensures requestedPackageDictionary == old(requestedPackageDictionary)
      ensures r == DataOf(State(), id)
    {
      var dict := GetRecieverDict();
      var present := dict.ContainsKeyAsync(id);
      if !present {
        return Err(ArgumentException);
      }
      var data := dict.TryGetValueAsync(id);
      return Ok(data.value.Data);
    }

    method EndPagingData(id: PagingId) returns (r: Outcome)
      requires Valid()
      modifies Repr()
      ensures Valid() && recievedPageDict == receiverStore
      ensures requestedPackageDictionary == old(requestedPackageDictionary)
      ensures (r, State()) == End(old(State()), id)
    {
      var dict := GetRecieverDict();
      var present := dict.ContainsKeyAsync(id);
      if !present {
        return Fail(ArgumentException);
      }
      var _ := dict.TryRemoveAsync(id);
      idManager.FreeId(id.Id);
      return Pass;
    }

    /** Builds the package, then allocates the id; AddOrUpdate replaces any
        package under the id. */
    method PrepareDataForPaging(payload: seq<byte>) returns (session: RequestedPagedDataSession)
      requires Valid() && HasFree(State().ids)
      modifies Repr()
      ensures Valid() && requestedPackageDictionary == requestedStore
      ensures recievedPageDict == old(recievedPageDict)
      ensures (session, State()) == Prepare(old(State()), payload)
    {
      var senderPackage := new PagedDataSenderPackage();
      senderPackage.Initialize(payload, DefaultBytesPerPage);
      var package := senderPackage.State();
      var n := idManager.GetId();
      var id := PagingId(n);
      var dict := GetRequestedPackageDictionary();
      var _ := dict.AddOrUpdateAsync(id, _ => package, (_, _) => package);
      session := RequestedPagedDataSession(id, senderPackage.GetOriginDataLength());
    }

    /** The page; only the cache changes. */
    method GetPage(id: PagingId, pageNum: nat) returns (r: Option<seq<byte>>)
      requires Valid()
      modifies this
      ensures Valid() && requestedPackageDictionary == requestedStore
      ensures recievedPageDict == old(recievedPageDict)
      ensures r == PageOf(State(), id, pageNum)
    {
      var dict := GetRequestedPackageDictionary();
      var package := dict.TryGetValueAsync(id);
      if package.None? {
        return None;
      }
      return package.value.GetDataAtPage(pageNum);
    }

    /** Returns early for an unknown id, leaving it allocated. */
    method NotifyPagingSessionComplete(id: PagingId)
      requires Valid()
      modifies Repr()
      ensures Valid() && requestedPackageDictionary == requestedStore
      ensures recievedPageDict == old(recievedPageDict)
      ensures State() == Notify(Durable, old(State()), id)
    {
      var dict := GetRequestedPackageDictionary();
      var present := dict.ContainsKeyAsync(id);
      if !present {
        return;
      }
      var _ := dict.TryRemoveAsync(id);
      idManager.FreeId(id.Id);
    }
  }
}
