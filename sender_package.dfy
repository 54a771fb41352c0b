/** PagedDataSenderPackage (Paging/PagedDataSenderPackage.cs): a serialized
    payload exposed as pages of a fixed number of bytes, read either through a
    cursor (GetNextPage) or by page index (GetDataAtPage).

    The page count is floor(length / bytesPerPage), and the guard that refuses a
    page is `page > TotalNumberOfPages`, so the index equal to the page count is
    still served: it holds the short remainder, or nothing when the page size
    divides the length. Reading pages 0, 1, ... until the first refusal yields
    TotalNumberOfPages + 1 pages whose concatenation is the payload. */
module PagedDataSender {
  import opened Wrappers

  /** The page size every caller in the source uses. */
  const DefaultBytesPerPage: int := 65000

  /** The page at index `page` of `data`, or None past the last one. A negative
      index is not representable: the source lets it through the guard and then
      fails inside Buffer.BlockCopy. */
  function PageAt(data: seq<byte>, bytesPerPage: int, totalPages: int, page: nat): (r: Option<seq<byte>>)
    requires bytesPerPage > 0 && totalPages == |data| / bytesPerPage
    ensures r.None? <==> page > totalPages
    ensures r.Some? ==> page * bytesPerPage <= |data|
    ensures r.Some? ==> |r.value| == Min(bytesPerPage, |data| - page * bytesPerPage)
    ensures r.Some? ==> r.value == data[page * bytesPerPage .. page * bytesPerPage + |r.value|]
  {
    if page > totalPages then None
    else
      var offset := page * bytesPerPage;
      assert offset <= totalPages * bytesPerPage <= |data|;
      var copyLen := if offset + bytesPerPage > |data| then |data| - offset else bytesPerPage;
      Some(data[offset .. offset + copyLen])
  }

  /** The fields of a package, as its data contract stores them. */
  datatype SenderState = SenderState(Data: seq<byte>, CurrentPageNumber: nat, BytesPerPage: int, TotalNumberOfPages: int)
  {
    /** What Initialize establishes: a positive page size and the page count
        derived from it. */
    ghost predicate Initialized()
    {
      BytesPerPage > 0 && TotalNumberOfPages == |Data| / BytesPerPage
    }

    function GetDataAtPage(page: nat): Option<seq<byte>>
      requires Initialized()
    {
      PageAt(Data, BytesPerPage, TotalNumberOfPages, page)
    }
  }

  /** The pages GetNextPage yields from cursor `k` on, until it refuses. */
  function PagesFrom(data: seq<byte>, bytesPerPage: int, totalPages: int, k: nat): seq<seq<byte>>
    requires bytesPerPage > 0 && totalPages == |data| / bytesPerPage
    decreases totalPages + 1 - k
  {
    if k > totalPages then [] else [PageAt(data, bytesPerPage, totalPages, k).value] + PagesFrom(data, bytesPerPage, totalPages, k + 1)
  }

  /** Division facts for the page count. */
  lemma PageCountBounds(len: nat, bytesPerPage: int)
    requires bytesPerPage > 0
    ensures (len / bytesPerPage) * bytesPerPage <= len < (len / bytesPerPage + 1) * bytesPerPage
  {
  }

  /** The pages from cursor k on reassemble the payload from byte k*B on, and
      there are TotalNumberOfPages + 1 - k of them. */
  lemma {:induction false} PagesFromReassemble(data: seq<byte>, bytesPerPage: int, totalPages: int, k: nat)
    requires bytesPerPage > 0 && totalPages == |data| / bytesPerPage && k <= totalPages
    ensures k * bytesPerPage <= |data|
    ensures |PagesFrom(data, bytesPerPage, totalPages, k)| == totalPages + 1 - k
    ensures Concat(PagesFrom(data, bytesPerPage, totalPages, k)) == data[k * bytesPerPage..]
    decreases totalPages - k
  {
    PageSplit(data, bytesPerPage, totalPages, k);
    var page := PageAt(data, bytesPerPage, totalPages, k).value;
    var pages := PagesFrom(data, bytesPerPage, totalPages, k);
    assert pages[0] == page && pages[1..] == PagesFrom(data, bytesPerPage, totalPages, k + 1);
    if k < totalPages {
      PagesFromReassemble(data, bytesPerPage, totalPages, k + 1);
      OffsetFacts(k, totalPages, bytesPerPage);
      var offset, next := k * bytesPerPage, (k + 1) * bytesPerPage;
      assert offset <= next <= |data|;
      assert data[offset..] == data[offset..next] + data[next..];
    }
  }

  /** Page k before the last is the whole page-sized slice at its offset; the
      last page is everything from its offset on. */
  lemma PageSplit(data: seq<byte>, bytesPerPage: int, totalPages: int, k: nat)
    requires bytesPerPage > 0 && totalPages == |data| / bytesPerPage && k <= totalPages
    ensures k * bytesPerPage <= |data|
    ensures k < totalPages ==> (k + 1) * bytesPerPage <= |data|
    ensures k < totalPages ==> PageAt(data, bytesPerPage, totalPages, k).value == data[k * bytesPerPage..(k + 1) * bytesPerPage]
    ensures k == totalPages ==> PageAt(data, bytesPerPage, totalPages, k).value == data[k * bytesPerPage..]
  {
    PageCountBounds(|data|, bytesPerPage);
    OffsetFacts(k, totalPages, bytesPerPage);
    if k < totalPages {
      OffsetFacts(k + 1, totalPages, bytesPerPage);
    }
  }

  /** Page offsets grow by one page per index and stay within the last page's. */
  lemma OffsetFacts(k: nat, totalPages: int, bytesPerPage: int)
    requires bytesPerPage > 0 && k <= totalPages
    ensures k * bytesPerPage <= totalPages * bytesPerPage
    ensures (k + 1) * bytesPerPage == k * bytesPerPage + bytesPerPage
  {
  }

  /** Round trip: reading every page from cursor 0 gives back the payload,
      in TotalNumberOfPages + 1 pages. */
  lemma PagesReassemble(data: seq<byte>, bytesPerPage: int)
    requires bytesPerPage > 0
    ensures |PagesFrom(data, bytesPerPage, |data| / bytesPerPage, 0)| == |data| / bytesPerPage + 1
    ensures Concat(PagesFrom(data, bytesPerPage, |data| / bytesPerPage, 0)) == data
  {
    PagesFromReassemble(data, bytesPerPage, |data| / bytesPerPage, 0);
  }

  /** Element j of the pages from cursor k on is page k + j. */
  lemma {:induction false} PagesFromIndex(data: seq<byte>, bytesPerPage: int, totalPages: int, k: nat, j: nat)
    requires bytesPerPage > 0 && totalPages == |data| / bytesPerPage && k + j <= totalPages
    ensures j < |PagesFrom(data, bytesPerPage, totalPages, k)|
    ensures PagesFrom(data, bytesPerPage, totalPages, k)[j] == PageAt(data, bytesPerPage, totalPages, k + j).value
    decreases j
  {
    if j > 0 {
      PagesFromIndex(data, bytesPerPage, totalPages, k + 1, j - 1);
    }
  }

  /** The page at index k is the k-th page of the round trip, and there is
      none past the last. */
  lemma PageAtIsPagesFrom(data: seq<byte>, bytesPerPage: int, totalPages: int, k: nat)
    requires bytesPerPage > 0 && totalPages == |data| / bytesPerPage
    ensures |PagesFrom(data, bytesPerPage, totalPages, 0)| == totalPages + 1
    ensures PageAt(data, bytesPerPage, totalPages, k)
         == if k <= totalPages then Some(PagesFrom(data, bytesPerPage, totalPages, 0)[k]) else None
  {
    PagesFromReassemble(data, bytesPerPage, totalPages, 0);
    if k <= totalPages {
      PagesFromIndex(data, bytesPerPage, totalPages, 0, k);
    }
  }

  /** When the page size divides the payload length, the last page served
      (index TotalNumberOfPages) is empty; otherwise it holds the remainder. */
  lemma LastPage(data: seq<byte>, bytesPerPage: int)
    requires bytesPerPage > 0
    ensures PageAt(data, bytesPerPage, |data| / bytesPerPage, |data| / bytesPerPage)
         == Some(data[|data| - |data| % bytesPerPage..])
  {
    PageCountBounds(|data|, bytesPerPage);
    var offset := (|data| / bytesPerPage) * bytesPerPage;
    assert |data| - |data| % bytesPerPage == offset;
    var page := PageAt(data, bytesPerPage, |data| / bytesPerPage, |data| / bytesPerPage);
    assert |page.value| == |data| - offset;
    assert page.value == data[offset..];
  }

  class PagedDataSenderPackage {
    var Data: seq<byte>
    var CurrentPageNumber: nat
    var BytesPerPage: int
    var TotalNumberOfPages: int

    ghost predicate Valid()
      reads this
    {
      State().Initialized()
    }

    function State(): SenderState
      reads this
    {
      SenderState(Data, CurrentPageNumber, BytesPerPage, TotalNumberOfPages)
    }

    /** The parameterless constructor. Data is still null in the source, so
        every page operation needs Initialize first (Valid() is false here). */
    constructor ()
      ensures Data == [] && CurrentPageNumber == 0 && BytesPerPage == 0 && TotalNumberOfPages == 0
    {
      Data := [];
      CurrentPageNumber := 0;
      BytesPerPage := 0;
      TotalNumberOfPages := 0;
    }

    /** Stores the serialized payload and derives the page count. The cursor is
        left where it was. A zero page size would divide by zero. */
    method Initialize(payload: seq<byte>, bytesPerPage: int)
      requires bytesPerPage > 0
      modifies this
      ensures Valid()
      ensures Data == payload && BytesPerPage == bytesPerPage
      ensures TotalNumberOfPages == |payload| / bytesPerPage
      ensures CurrentPageNumber == old(CurrentPageNumber)
    {
      Data := payload;
      BytesPerPage := bytesPerPage;
      TotalNumberOfPages := |Data| / BytesPerPage;
    }

    /** Random access to a page; changes nothing. */
    function GetDataAtPage(page: nat): Option<seq<byte>>
      reads this
      requires Valid()
    {
      State().GetDataAtPage(page)
    }

    /** The page under the cursor; the cursor advances only when it was served. */
    method GetNextPage() returns (r: Option<seq<byte>>)
      requires Valid()
      modifies this
      ensures Valid()
      ensures r == old(GetDataAtPage(CurrentPageNumber))
      ensures CurrentPageNumber == old(CurrentPageNumber) + (if r.Some? then 1 else 0)
      ensures Data == old(Data) && BytesPerPage == old(BytesPerPage)
      ensures TotalNumberOfPages == old(TotalNumberOfPages)
    {
      r := GetDataAtPage(CurrentPageNumber);
      if r.Some? {
        CurrentPageNumber := CurrentPageNumber + 1;
      }
    }

    function GetOriginDataLength(): (n: nat)
      reads this
      ensures n == |Data|
    {
      |Data|
    }
  }
}
