/** PagingRequestSession (Paging/PagingRequestSession.cs): the pulling side of
    a paging session. It asks the sending service for pages 0, 1, 2, ... and
    copies each into a buffer of the announced size, stopping at the first
    unsuccessful answer, then tells the sender the session is complete.
    Pages are copied byte by byte without clipping, so a stream longer than
    the announced size fails on the first byte past the end of the buffer. */
module PagingRequestSessions {
  import opened Wrappers
  import opened PagingIds
  import opened PagedDataReceiver
  import opened PagingContainers
  import opened DataPaging
  import opened DataPageManagers

  /** Writing byte i of `page` extends by one byte the part of it already
      spliced into `orig` at `pos`. */
  lemma SpliceStep(orig: seq<byte>, page: seq<byte>, pos: nat, i: nat)
    requires pos + i < |orig| && i < |page|
    ensures (orig[..pos] + page[..i] + orig[pos + i..])[pos + i := page[i]]
         == orig[..pos] + page[..i + 1] + orig[pos + i + 1..]
  {
  }

  class PagingRequestSession {
    const parentSender: DataPageManager
    const byteBuffer: array<byte>
    var bufferPos: int
    const currentSessionId: PagingId

    ghost predicate Valid()
      reads this, parentSender.Repr()
    {
      && parentSender.Valid()
      && 0 <= bufferPos <= byteBuffer.Length
      && this !in parentSender.Repr() && byteBuffer !in parentSender.Repr()
    }

    /** The buffer and the write position. */
    function Buffer(): (b: ReceiverState)
      reads this, byteBuffer
    {
      ReceiverState(byteBuffer[..], bufferPos)
    }

    /** A zero-filled buffer of the announced size. A negative size makes the
        allocation throw; GetPagedResults checks for it. */
    constructor (parentSender: DataPageManager, session: RequestedPagedDataSession)
      requires parentSender.Valid() && session.OriginDataSize >= 0
      ensures Valid() && fresh(byteBuffer)
      ensures this.parentSender == parentSender && currentSessionId == session.SessionId
      ensures Buffer() == NewReceiver(session.OriginDataSize)
    {
      this.parentSender := parentSender;
      byteBuffer := new byte[session.OriginDataSize](_ => 0);
      bufferPos := 0;
      currentSessionId := session.SessionId;
    }

    /** The copy loop for one page: writes its bytes from the write position
        on and fails at the first byte that falls outside the buffer. The
        write position itself is advanced by the caller. */
    method CopyPage(page: seq<byte>) returns (ok: bool)
      requires 0 <= bufferPos <= byteBuffer.Length
      modifies byteBuffer
      ensures ok <==> bufferPos + |page| <= byteBuffer.Length
      ensures ok ==> byteBuffer[..] == old(byteBuffer[..])[..bufferPos] + page + old(byteBuffer[..])[bufferPos + |page|..]
    {
      ghost var orig := byteBuffer[..];
      var pos := bufferPos;
      var i := 0;
      while i < |page|
        invariant 0 <= i <= |page| && pos + i <= byteBuffer.Length
        invariant byteBuffer[..] == orig[..pos] + page[..i] + orig[pos + i..]
      {
        if pos + i >= byteBuffer.Length {
          return false;
        }
        SpliceStep(orig, page, pos, i);
        ghost var before := byteBuffer[..];
        byteBuffer[pos + i] := page[i];
        assert byteBuffer[..] == before[pos + i := page[i]];
        i := i + 1;
      }
      assert page[..i] == page;
      return true;
    }

    /** Copies one page and advances the write position past it. */
    method AppendPage(page: seq<byte>) returns (ok: bool)
      requires Valid()
      modifies this, byteBuffer
      ensures Valid() && parentSender.State() == old(parentSender.State())
      ensures ok <==> old(bufferPos) + |page| <= byteBuffer.Length
      ensures ok ==> Buffer() == Write(old(Buffer()), page)
    {
      ok := CopyPage(page);
      if ok {
        bufferPos := bufferPos + |page|;
      }
    }

    /** The request loop of ExecuteAsync: the sender's state is only read,
        and the pages land one after another from the write position. */
    method RequestPages() returns (ok: bool, ghost requests: nat)
      requires Valid()
      modifies this, byteBuffer, parentSender.Repr()
      ensures Valid() && parentSender.State() == old(parentSender.State())
      ensures var pulled := Pull(old(Buffer()), ServedPages(old(parentSender.State()), currentSessionId));
        && (ok <==> pulled.Ok?)
        && (ok ==> Buffer() == pulled.value && requests == |ServedPages(old(parentSender.State()), currentSessionId)| + 1)
    {
      ghost var st := parentSender.State();
      ghost var pages := ServedPages(st, currentSessionId);
      ghost var b0 := Buffer();
      ServedPagesAreGetPage(st, currentSessionId);
      var curPage := 0;
      var page := parentSender.GetPageAsync(currentSessionId, curPage);
      requests := 1;
      while page.Success
        invariant Valid() && parentSender.State() == st
        invariant 0 <= curPage <= |pages| && requests == curPage + 1
        invariant page.Success <==> curPage < |pages|
        invariant page.Success ==> page.ResultValue == Some(pages[curPage])
        invariant b0.DataPos + |Concat(pages[..curPage])| <= |b0.Data|
        invariant Buffer() == Write(b0, Concat(pages[..curPage]))
        decreases |pages| - curPage
      {
        var value := page.ResultValue.value;
        PullStep(b0, pages, curPage);
        ok := AppendPage(value);
        if !ok {
          return;
        }
        curPage := curPage + 1;
        page := parentSender.GetPageAsync(currentSessionId, curPage);
        requests := requests + 1;
      }
      assert pages[..curPage] == pages;
      ok := true;
    }

    /** ExecuteAsync: on success the buffer holds the served pages one after
        another and the sender has completed the session; the request count
        is the number of pages served plus the refused request. When the
        pages overflow the buffer the call fails before completing the
        session (deserialization of the buffer is not modelled). */
    method ExecuteAsync() returns (r: Result<seq<byte>>, ghost requests: nat)
      requires Valid()
      modifies this, byteBuffer, parentSender.Repr()
      ensures Valid()
      ensures var pulled := Pull(old(Buffer()), ServedPages(old(parentSender.State()), currentSessionId));
        && (r.Ok? <==> pulled.Ok?)
        && (r.Err? ==> r.error == IndexOutOfRangeException && parentSender.State() == old(parentSender.State()))
        && (r.Ok? ==> && Buffer() == pulled.value && r.value == Buffer().Data
                      && requests == |ServedPages(old(parentSender.State()), currentSessionId)| + 1
                      && parentSender.State() == Notify(parentSender.Kind(), old(parentSender.State()), currentSessionId))
    {
      var ok;
      ok, requests := RequestPages();
      if !ok {
        return Err(IndexOutOfRangeException), requests;
      }
      parentSender.NotifyPagingSessionComplete(currentSessionId);
      r := Ok(byteBuffer[..]);
    }
  }
}
