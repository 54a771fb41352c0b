/** The behaviour of the two IDataPageManager implementations
    (Paging/UnreliableDataPageManager.cs, Paging/ReliableDataPageManager.cs)
    as functions on their abstract state: the receiving sessions (a receiver
    package per id), the requested sessions (a sender package per id) and the
    one id allocator both kinds of session share.

    The two stores agree on every operation except three. BeginPagingData
    keeps an existing package under the new id in the volatile store (TryAdd)
    and replaces it in the durable one (AddOrUpdate).
    NotifyPagingSessionComplete frees the id unconditionally in the volatile
    store, but in the durable one it does nothing for an unknown id. The
    order of id allocation and package initialization in
    PrepareDataForPaging differs, which no caller can observe. */
module DataPaging {
  import opened Wrappers
  import opened PagingIds
  import opened PagingIdAllocation
  import opened PagedDataSender
  import opened PagedDataReceiver
  import opened PagingContainers

  /** Which implementation holds the sessions: the in-memory one or the one
      over reliable dictionaries. */
  datatype Store = Volatile | Durable

  datatype PagingState = PagingState(
    receiving: map<PagingId, ReceiverState>,
    requested: map<PagingId, SenderState>,
    ids: seq<bool>,
    pos: int)
  {
    ghost predicate Valid()
    {
      && |ids| == IdSpace && 0 <= pos < IdSpace
      && (forall id :: id in receiving ==> receiving[id].Valid())
      && (forall id :: id in requested ==> requested[id].Initialized())
    }
  }

  /** A new manager: no sessions, every id free, allocator cursor at 0. */
  function InitialState(): (st: PagingState)
    ensures st.Valid() && HasFree(st.ids)
  {
    var st := PagingState(map[], map[], seq(IdSpace, _ => false), 0);
    assert !st.ids[0];
    st
  }

  /** PagingIdManager.GetId on the abstract state. */
  function Allocate(st: PagingState): (r: (PagingId, PagingState))
    requires st.Valid() && HasFree(st.ids)
    ensures r.1.Valid() && r.1.pos == r.0.Id
    ensures r.0.Id == NextId(st.ids, st.pos) && r.1.ids == st.ids[r.0.Id := true]
    ensures r.1.receiving == st.receiving && r.1.requested == st.requested
  {
    var id := NextId(st.ids, st.pos);
    (PagingId(id), st.(ids := st.ids[id := true], pos := id))
  }

  /** PagingIdManager.FreeId on the abstract state. */
  function Release(st: PagingState, id: PagingId): (r: PagingState)
    requires st.Valid()
    ensures r.Valid() && r.ids == st.ids[id.Id := false] && r.pos == st.pos
    ensures r.receiving == st.receiving && r.requested == st.requested
  {
    st.(ids := st.ids[id.Id := false])
  }

  /** BeginPagingData(n): a receiver package of n bytes under a newly allocated
      id. A negative length fails when the package's buffer is allocated,
      before any id is taken. */
  function Begin(store: Store, st: PagingState, originDataLength: int): (r: (Result<PagingId>, PagingState))
    requires st.Valid() && (originDataLength >= 0 ==> HasFree(st.ids))
    ensures r.1.Valid()
    ensures r.0.Err? <==> originDataLength < 0
    ensures r.0.Err? ==> r.0.error == OverflowException && r.1 == st
    ensures r.0.Ok? ==> var id := r.0.value;
      && id.Id == NextId(st.ids, st.pos) && r.1.ids == st.ids[id.Id := true] && r.1.pos == id.Id
      && id in r.1.receiving
      && r.1.receiving[id] == (if store.Volatile? && id in st.receiving then st.receiving[id] else NewReceiver(originDataLength))
      && r.1.receiving - {id} == st.receiving - {id}
      && r.1.requested == st.requested
  {
    if originDataLength < 0 then (Err(OverflowException), st)
    else
      var (id, st1) := Allocate(st);
      var receiving := if store.Volatile? && id in st.receiving then st.receiving else st.receiving[id := NewReceiver(originDataLength)];
      (Ok(id), st1.(receiving := receiving))
  }

  /** SendDataPage(id, page): the page is added to that session's package and
      no other session changes; an unknown id is an ArgumentException. */
  function SendPage(st: PagingState, id: PagingId, page: seq<byte>): (r: (Outcome, PagingState))
    requires st.Valid()
    ensures r.1.Valid()
    ensures r.0.Fail? <==> id !in st.receiving
    ensures r.0.Fail? ==> r.0.error == ArgumentException && r.1 == st
    ensures r.0.Pass? ==> r.1 == st.(receiving := st.receiving[id := st.receiving[id].AddData(page)])
  {
    if id !in st.receiving then (Fail(ArgumentException), st)
    else (Pass, st.(receiving := st.receiving[id := st.receiving[id].AddData(page)]))
  }

  /** GetDataAs(id): the session's buffer as it stands (deserialization is
      not modelled); an unknown id is an ArgumentException. */
  function DataOf(st: PagingState, id: PagingId): (r: Result<seq<byte>>)
    ensures r.Ok? <==> id in st.receiving
    ensures r.Ok? ==> r.value == st.receiving[id].Data
    ensures r.Err? ==> r.error == ArgumentException
  {
    if id !in st.receiving then Err(ArgumentException) else Ok(st.receiving[id].Data)
  }

  /** EndPagingData(id): removes the session and frees its id; an unknown id
      is an ArgumentException and changes nothing. */
  function End(st: PagingState, id: PagingId): (r: (Outcome, PagingState))
    requires st.Valid()
    ensures r.1.Valid()
    ensures r.0.Fail? <==> id !in st.receiving
    ensures r.0.Fail? ==> r.0.error == ArgumentException && r.1 == st
    ensures r.0.Pass? ==> && r.1.receiving == st.receiving - {id} && r.1.requested == st.requested
                          && r.1.ids == st.ids[id.Id := false] && r.1.pos == st.pos
  {
    if id !in st.receiving then (Fail(ArgumentException), st)
    else (Pass, Release(st.(receiving := st.receiving - {id}), id))
  }

  /** The sender package PrepareDataForPaging stores: the payload at 65000
      bytes per page, cursor at 0. */
  function NewSender(payload: seq<byte>): (s: SenderState)
    ensures s.Initialized() && s.Data == payload && s.CurrentPageNumber == 0
    ensures s.BytesPerPage == DefaultBytesPerPage
  {
    SenderState(payload, 0, DefaultBytesPerPage, |payload| / DefaultBytesPerPage)
  }

  /** PrepareDataForPaging(payload): stores a sender package under a newly
      allocated id, replacing any package under it, and describes the session. */
  function Prepare(st: PagingState, payload: seq<byte>): (r: (RequestedPagedDataSession, PagingState))
    requires st.Valid() && HasFree(st.ids)
    ensures r.1.Valid()
    ensures r.0.OriginDataSize == |payload|
    ensures r.0.SessionId.Id == NextId(st.ids, st.pos)
    ensures r.1.ids == st.ids[r.0.SessionId.Id := true] && r.1.pos == r.0.SessionId.Id
    ensures r.1.requested == st.requested[r.0.SessionId := NewSender(payload)]
    ensures r.1.receiving == st.receiving
  {
    var (id, st1) := Allocate(st);
    (RequestedPagedDataSession(id, |payload|), st1.(requested := st.requested[id := NewSender(payload)]))
  }

  /** GetPage(id, pageNum): the page of the requested session, or no value for
      an unknown id or a page past the last. */
  function PageOf(st: PagingState, id: PagingId, pageNum: nat): (r: Option<seq<byte>>)
    requires st.Valid()
    ensures id !in st.requested ==> r.None?
    ensures id in st.requested ==> r == st.requested[id].GetDataAtPage(pageNum)
  {
    if id !in st.requested then None else st.requested[id].GetDataAtPage(pageNum)
  }

  /** NotifyPagingSessionComplete(id): drops the requested session and frees
      its id. The volatile store frees the id even when no requested session
      has it; the durable one then does nothing. */
  function Notify(store: Store, st: PagingState, id: PagingId): (r: PagingState)
    requires st.Valid()
    ensures r.Valid()
    ensures r.requested == st.requested - {id} && r.receiving == st.receiving && r.pos == st.pos
    ensures r.ids == if store.Durable? && id !in st.requested then st.ids else st.ids[id.Id := false]
  {
    if store.Durable? && id !in st.requested then st
    else Release(st.(requested := st.requested - {id}), id)
  }

  /** SendDataPage applied to each page in turn. */
  function SendAll(st: PagingState, id: PagingId, pages: seq<seq<byte>>): (r: PagingState)
    requires st.Valid()
    ensures r.Valid()
    decreases |pages|
  {
    if pages == [] then st else SendAll(SendPage(st, id, pages[0]).1, id, pages[1..])
  }

  /** Sending pages to a live session feeds them, in order, to its package and
      touches nothing else. */
  lemma {:induction false} SendAllFeeds(st: PagingState, id: PagingId, pages: seq<seq<byte>>)
    requires st.Valid() && id in st.receiving
    ensures SendAll(st, id, pages) == st.(receiving := st.receiving[id := AddAll(st.receiving[id], pages)])
    decreases |pages|
  {
    if pages != [] {
      var st1 := SendPage(st, id, pages[0]).1;
      SendAllFeeds(st1, id, pages[1..]);
      assert st1.receiving[id] == st.receiving[id].AddData(pages[0]);
    }
  }

  /** The pages PagingHelper.SendDataPaged sends for a payload: those of a
      fresh sender package at 65000 bytes per page, from page 0 on. */
  function PushedPages(payload: seq<byte>): (pages: seq<seq<byte>>)
    ensures |pages| == |payload| / DefaultBytesPerPage + 1
    ensures Concat(pages) == payload
  {
    PagesReassemble(payload, DefaultBytesPerPage);
    PagesFrom(payload, DefaultBytesPerPage, |payload| / DefaultBytesPerPage, 0)
  }

  /** What PagingHelper.SendDataPaged does to the receiving manager: one
      BeginPagingData with the payload length, then every page to that id. */
  function Push(store: Store, st: PagingState, payload: seq<byte>): (r: (PagingId, PagingState))
    requires st.Valid() && HasFree(st.ids)
    ensures r.1.Valid()
  {
    var (b, st1) := Begin(store, st, |payload|);
    (b.value, SendAll(st1, b.value, PushedPages(payload)))
  }

  /** Push end to end: the session Push returns holds exactly the payload,
      provided its package was new (always in the durable store; in the
      volatile one when the allocator handed out an id no receiving session
      held). Otherwise the pages go into the older package under that id.
      The requested sessions are untouched. */
  lemma PushDelivers(store: Store, st: PagingState, payload: seq<byte>)
    requires st.Valid() && HasFree(st.ids)
    ensures var (id, st2) := Push(store, st, payload);
      && id.Id == NextId(st.ids, st.pos) && id in st2.receiving
      && (store.Durable? || id !in st.receiving ==> st2.receiving[id] == ReceiverState(payload, |payload|))
      && (store.Volatile? && id in st.receiving ==> st2.receiving[id] == AddAll(st.receiving[id], PushedPages(payload)))
      && st2.receiving - {id} == st.receiving - {id}
      && st2.requested == st.requested
  {
    var (b, st1) := Begin(store, st, |payload|);
    var id := b.value;
    SendAllFeeds(st1, id, PushedPages(payload));
    if store.Durable? || id !in st.receiving {
      ReassemblesPayload(payload, PushedPages(payload));
    }
  }

  /** Pushing and then reading the session back (the receiving service's
      GetDataAs) yields the payload. */
  lemma PushThenRead(store: Store, st: PagingState, payload: seq<byte>)
    requires st.Valid() && HasFree(st.ids)
    requires store.Durable? || PagingId(NextId(st.ids, st.pos)) !in st.receiving
    ensures DataOf(Push(store, st, payload).1, Push(store, st, payload).0) == Ok(payload)
  {
    PushDelivers(store, st, payload);
  }

  /** The pages a pull session receives: GetPage for 0, 1, ... up to the
      first refusal. */
  function ServedPages(st: PagingState, id: PagingId): (pages: seq<seq<byte>>)
    requires st.Valid()
  {
    if id !in st.requested then []
    else
      var s := st.requested[id];
      PagesFrom(s.Data, s.BytesPerPage, s.TotalNumberOfPages, 0)
  }

  /** The pages served are exactly GetPage's answers before its first
      refusal, which comes right after them. */
  lemma ServedPagesAreGetPage(st: PagingState, id: PagingId)
    requires st.Valid()
    ensures forall j :: 0 <= j < |ServedPages(st, id)| ==> PageOf(st, id, j) == Some(ServedPages(st, id)[j])
    ensures PageOf(st, id, |ServedPages(st, id)|).None?
  {
    if id in st.requested {
      var s := st.requested[id];
      PagesFromReassemble(s.Data, s.BytesPerPage, s.TotalNumberOfPages, 0);
      forall j | 0 <= j < |ServedPages(st, id)|
        ensures PageOf(st, id, j) == Some(ServedPages(st, id)[j])
      {
        PagesFromIndex(s.Data, s.BytesPerPage, s.TotalNumberOfPages, 0, j);
      }
    }
  }

  /** PagingRequestSession's buffer after copying `pages` in order from its
      write position: each page is copied without clipping, so the whole
      stream must fit, or the copy runs off the end of the array. */
  function Pull(buffer: ReceiverState, pages: seq<seq<byte>>): (r: Result<ReceiverState>)
    requires buffer.Valid()
    ensures r.Ok? <==> buffer.DataPos + |Concat(pages)| <= |buffer.Data|
    ensures r.Err? ==> r.error == IndexOutOfRangeException
  {
    if buffer.DataPos + |Concat(pages)| <= |buffer.Data| then Ok(Write(buffer, Concat(pages)))
    else Err(IndexOutOfRangeException)
  }

  /** Splitting a list of pages after page k: the bytes up to and including
      page k are those before it followed by it, and no more than all bytes. */
  lemma ConcatPrefixStep(pages: seq<seq<byte>>, k: nat)
    requires k < |pages|
    ensures Concat(pages[..k + 1]) == Concat(pages[..k]) + pages[k]
    ensures |Concat(pages[..k + 1])| <= |Concat(pages)|
  {
    var single: seq<seq<byte>> := [pages[k]];
    assert single[1..] == [];
    assert Concat(single) == pages[k];
    assert pages[..k + 1] == pages[..k] + single;
    ConcatAppend(pages[..k], single);
    assert pages == pages[..k + 1] + pages[k + 1..];
    ConcatAppend(pages[..k + 1], pages[k + 1..]);
  }

  /** The pull loop's step: the next page either extends what the buffer
      holds by itself or, when it does not fit, makes the whole pull fail. */
  lemma PullStep(b: ReceiverState, pages: seq<seq<byte>>, k: nat)
    requires b.Valid() && k < |pages| && b.DataPos + |Concat(pages[..k])| <= |b.Data|
    ensures var w := Write(b, Concat(pages[..k]));
      && w.Valid() && w.DataPos == b.DataPos + |Concat(pages[..k])| && |w.Data| == |b.Data|
      && (w.DataPos + |pages[k]| <= |w.Data| ==>
            b.DataPos + |Concat(pages[..k + 1])| <= |b.Data| && Write(w, pages[k]) == Write(b, Concat(pages[..k + 1])))
      && (w.DataPos + |pages[k]| > |w.Data| ==> Pull(b, pages).Err?)
  {
    ConcatPrefixStep(pages, k);
    if b.DataPos + |Concat(pages[..k + 1])| <= |b.Data| {
      WriteTwice(b, Concat(pages[..k]), pages[k]);
    }
  }

  /** Pull end to end: a fresh pull session for a prepared payload receives
      the payload exactly, after |payload| / 65000 + 2 page requests (the
      served pages and the refused one). */
  lemma PrepareThenPull(st: PagingState, payload: seq<byte>)
    requires st.Valid() && HasFree(st.ids)
    ensures var (session, st1) := Prepare(st, payload);
      && |ServedPages(st1, session.SessionId)| + 1 == |payload| / DefaultBytesPerPage + 2
      && Pull(NewReceiver(session.OriginDataSize), ServedPages(st1, session.SessionId))
         == Ok(ReceiverState(payload, |payload|))
  {
    var (session, st1) := Prepare(st, payload);
    PagesReassemble(payload, DefaultBytesPerPage);
    assert ServedPages(st1, session.SessionId) == PushedPages(payload);
    var b := NewReceiver(|payload|);
    assert Write(b, payload).Data == payload;
  }

  /** One allocator serves both kinds of session in the volatile store, so
      completing a pull session under an id that a receiving session holds
      frees that receiving session's id while it is still live. */
  lemma NotifyFreesReceivingId(st: PagingState, id: PagingId)
    requires st.Valid() && id in st.receiving
    ensures var st1 := Notify(Volatile, st, id);
      id in st1.receiving && !st1.ids[id.Id]
  {
  }
}
