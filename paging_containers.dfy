/** The data contracts that travel between services during paging
    (Containers/RequestedPagedDataSession.cs, Containers/Response.cs). */
module PagingContainers {
  import opened Wrappers
  import opened PagingIds

  /** What the sending side hands out for a pull session: the session id and
      the length of the serialized payload. The sender's address (OriginUri)
      is routing information and is not modelled. */
  datatype RequestedPagedDataSession = RequestedPagedDataSession(SessionId: PagingId, OriginDataSize: int)

  /** A service's answer: whether it succeeded and its value, which is null
      (None) when it did not. */
  datatype Response<T> = Response(Success: bool, ResultValue: Option<T>)
}
