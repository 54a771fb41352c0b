/** PagingHelper (Paging/PagingHelper.cs): the two ends of a transfer as a
    service sees them. SendDataPaged pushes a payload to a receiving manager
    page by page; GetPagedResults pulls a prepared session from a sending
    manager through a PagingRequestSession. */
module PagingHelpers {
  import opened Wrappers
  import opened PagingIds
  import opened PagingIdAllocation
  import opened PagedDataSender
  import opened PagedDataReceiver
  import opened PagingContainers
  import opened DataPaging
  import opened DataPageManagers
  import opened PagingRequestSessions

  /** Feeding page k to a package fed with the pages before k leaves it fed
      with the pages up to k. */
  lemma FeedNext(package: ReceiverState, pages: seq<seq<byte>>, k: nat)
    requires package.Valid() && k < |pages|
    ensures AddAll(package, pages[..k]).AddData(pages[k]) == AddAll(package, pages[..k + 1])
  {
    var prefix := pages[..k];
    assert pages[..k + 1] == prefix + [pages[k]];
    AddAllSnoc(package, prefix, pages[k]);
  }

  /** One turn of the send loop: page k to the session, then GetNextPage on
      the sending package, which the receiver does not share. The session's
      package, `package` fed with the pages before k, is fed page k too. */
  method SendAndAdvance(senderPackage: PagedDataSenderPackage, recieverProxy: DataPageManager, pagingId: PagingId,
                        page: seq<byte>, ghost pages: seq<seq<byte>>, ghost k: nat,
                        ghost st: PagingState, ghost package: ReceiverState)
    returns (next: Option<seq<byte>>)
    requires senderPackage.Valid() && recieverProxy.Valid() && senderPackage !in recieverProxy.Repr()
    requires pages == PagesFrom(senderPackage.Data, senderPackage.BytesPerPage, senderPackage.TotalNumberOfPages, 0)
    requires k < |pages| && page == pages[k] && senderPackage.CurrentPageNumber == k + 1
    requires package.Valid()
    requires recieverProxy.State() == st.(receiving := st.receiving[pagingId := AddAll(package, pages[..k])])
    modifies senderPackage, recieverProxy.Repr()
    ensures recieverProxy.Valid()
    ensures recieverProxy.State() == st.(receiving := st.receiving[pagingId := AddAll(package, pages[..k + 1])])
    ensures senderPackage.Valid()
    ensures next == if k + 1 < |pages| then Some(pages[k + 1]) else None
    ensures senderPackage.CurrentPageNumber == k + 1 + (if next.Some? then 1 else 0)
    ensures senderPackage.Data == old(senderPackage.Data) && senderPackage.BytesPerPage == old(senderPackage.BytesPerPage)
    ensures senderPackage.TotalNumberOfPages == old(senderPackage.TotalNumberOfPages)
  {
    PageAtIsPagesFrom(senderPackage.Data, senderPackage.BytesPerPage, senderPackage.TotalNumberOfPages, k + 1);
    FeedNext(package, pages, k);
    var _ := recieverProxy.SendDataPage(pagingId, page);
    next := senderPackage.GetNextPage();
  }

  /** The send loop of SendDataPaged: GetNextPage until it has no value,
      each page to `pagingId`. From cursor 0 that is every page of the
      payload, fed in order to the session's package. */
  method SendPages(senderPackage: PagedDataSenderPackage, recieverProxy: DataPageManager, pagingId: PagingId) returns (ghost pagesSent: nat)
    requires senderPackage.Valid() && senderPackage.CurrentPageNumber == 0
    requires recieverProxy.Valid() && senderPackage !in recieverProxy.Repr()
    requires pagingId in recieverProxy.State().receiving
    modifies senderPackage, recieverProxy.Repr()
    ensures recieverProxy.Valid() && senderPackage.Valid()
    ensures senderPackage.Data == old(senderPackage.Data) && senderPackage.BytesPerPage == old(senderPackage.BytesPerPage)
    ensures senderPackage.TotalNumberOfPages == old(senderPackage.TotalNumberOfPages)
    ensures var st := old(recieverProxy.State());
      var pages := PagesFrom(senderPackage.Data, senderPackage.BytesPerPage, senderPackage.TotalNumberOfPages, 0);
      recieverProxy.State() == st.(receiving := st.receiving[pagingId := AddAll(st.receiving[pagingId], pages)])
    ensures pagesSent == senderPackage.TotalNumberOfPages + 1
  {
    ghost var st1 := recieverProxy.State();
    ghost var package := st1.receiving[pagingId];
    ghost var pages := PagesFrom(senderPackage.Data, senderPackage.BytesPerPage, senderPackage.TotalNumberOfPages, 0);
    PageAtIsPagesFrom(senderPackage.Data, senderPackage.BytesPerPage, senderPackage.TotalNumberOfPages, 0);
    assert st1.receiving[pagingId := AddAll(package, pages[..0])] == st1.receiving;
    pagesSent := 0;
    var curPage := senderPackage.GetNextPage();
    while curPage.Some?
      invariant recieverProxy.Valid() && senderPackage.Valid()
      invariant pages == PagesFrom(senderPackage.Data, senderPackage.BytesPerPage, senderPackage.TotalNumberOfPages, 0)
      invariant senderPackage.Data == old(senderPackage.Data) && senderPackage.BytesPerPage == old(senderPackage.BytesPerPage)
      invariant senderPackage.TotalNumberOfPages == old(senderPackage.TotalNumberOfPages)
      invariant pagesSent <= |pages|
      invariant curPage == if pagesSent < |pages| then Some(pages[pagesSent]) else None
      invariant senderPackage.CurrentPageNumber == pagesSent + (if curPage.Some? then 1 else 0)
      invariant recieverProxy.State() == st1.(receiving := st1.receiving[pagingId := AddAll(package, pages[..pagesSent])])
      decreases |pages| - pagesSent
    {
      curPage := SendAndAdvance(senderPackage, recieverProxy, pagingId, curPage.value, pages, pagesSent, st1, package);
      pagesSent := pagesSent + 1;
    }
    assert pages[..pagesSent] == pages;
  }

  /** SendDataPaged: a sender package at 65000 bytes per page, one
      BeginPagingData with its length, then every page in order to the id it
      returned; that id is the result. The effect on the receiver is Push,
      whose end-to-end property is DataPaging.PushDelivers. */
  method SendDataPaged(dataToSend: seq<byte>, recieverProxy: DataPageManager) returns (pagingId: PagingId, ghost pagesSent: nat)
    requires recieverProxy.Valid() && HasFree(recieverProxy.State().ids)
    modifies recieverProxy.Repr()
    ensures recieverProxy.Valid()
    ensures (pagingId, recieverProxy.State()) == Push(recieverProxy.Kind(), old(recieverProxy.State()), dataToSend)
    ensures pagesSent == |dataToSend| / DefaultBytesPerPage + 1
  {
    var senderPackage := new PagedDataSenderPackage();
    senderPackage.Initialize(dataToSend, DefaultBytesPerPage);
    var begun := recieverProxy.BeginPagingData(senderPackage.GetOriginDataLength());
    pagingId := begun.value;
    ghost var st1 := recieverProxy.State();
    pagesSent := SendPages(senderPackage, recieverProxy, pagingId);
    SendAllFeeds(st1, pagingId, PushedPages(dataToSend));
  }

  /** GetPagedResults(session, senderProxy): runs a pull session against the
      sender. An announced size below zero fails when the buffer is
      allocated; otherwise the result is what PagingRequestSession's
      ExecuteAsync gives on a fresh buffer, which DataPaging.PrepareThenPull
      shows to be the payload for a session the sender prepared. */
  method GetPagedResults(session: RequestedPagedDataSession, senderProxy: DataPageManager) returns (r: Result<seq<byte>>)
    requires senderProxy.Valid()
    modifies senderProxy.Repr()
    ensures senderProxy.Valid()
    ensures session.OriginDataSize < 0 ==> r == Err(OverflowException) && senderProxy.State() == old(senderProxy.State())
    ensures session.OriginDataSize >= 0 ==>
      var pulled := Pull(NewReceiver(session.OriginDataSize), ServedPages(old(senderProxy.State()), session.SessionId));
      && (r.Ok? <==> pulled.Ok?)
      && (r.Ok? ==> r.value == pulled.value.Data
                    && senderProxy.State() == Notify(senderProxy.Kind(), old(senderProxy.State()), session.SessionId))
      && (r.Err? ==> r.error == IndexOutOfRangeException && senderProxy.State() == old(senderProxy.State()))
  {
    if session.OriginDataSize < 0 {
      return Err(OverflowException);
    }
    var reqSession := new PagingRequestSession(senderProxy, session);
    ghost var requests;
    r, requests := reqSession.ExecuteAsync();
  }

  /** A whole pull, as the service tests run it: the sender prepares the
      payload and the receiver pulls the session; the receiver gets the
      payload back and the sender no longer holds the session. */
  method PrepareThenGetPagedResults(payload: seq<byte>, sender: DataPageManager) returns (r: Result<seq<byte>>)
    requires sender.Valid() && HasFree(sender.State().ids)
    modifies sender.Repr()
    ensures sender.Valid()
    ensures r == Ok(payload)
    ensures sender.State().requested == old(sender.State()).requested - {PagingId(NextId(old(sender.State()).ids, old(sender.State()).pos))}
  {
    var session := sender.PrepareDataForPaging(payload);
    PrepareThenPull(old(sender.State()), payload);
    r := GetPagedResults(session, sender);
  }
}
