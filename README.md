# CareOtter.ServiceFabricUtilities — paging, async enumerators and state doubles, in Dafny

This project models the core of CareOtter.ServiceFabricUtilities, a support library for
Service Fabric services, and proves properties of that model.

**Paged data transfer.** A payload too large for one remoting call crosses between two
services in 65000-byte pages, in one of two ways:
- **push**: `PagingHelper.SendDataPaged` opens a session on the receiver with
  `BeginPagingData` and sends every page with `SendDataPage`;
- **pull**: the sender stores the payload with `PrepareDataForPaging`. A
  `PagingRequestSession` then asks for pages 0, 1, 2, … until one is refused, and ends with
  `NotifyPagingSessionComplete`.

Sessions are keyed by a 16-bit `PagingId` that one `PagingIdManager` hands out. They are held
either in memory (`UnreliableDataPageManager`) or in two reliable dictionaries
(`ReliableDataPageManager`). `PagedDataSenderPackage` cuts a payload into pages, and
`PagedDataRecieverPackage` puts pages back together into a buffer of the announced length.

**Async enumerators.** Select, Where, TakeWhile/Take, SkipWhile/Skip and SelectMany are
stateful cursors over a parent enumerator. First/FirstOrDefault, Any and All step one until a
predicate decides. In the model, every parent is the list-backed `MockAsyncEnumerator`, and
each combinator is proved against a sequence function (`Map`, `Filter`, `TakeWhileP`,
`SkipWhileP`, `Flatten`, `FindFirst`) of what the parent still has to yield.

**State doubles.** `MockReliableDictionary`, `MockReliableQueue`, `MockTransaction` and
`MockActorStateManager` are in-memory stand-ins for the platform's reliable collections.
`PagingId` and `FabricServiceId` are the two value types the core uses.

How the model is built:
- **Packages.** Both packages are classes whose methods update their fields. The receiver
  buffer is an `array`.
- **Managers.** Each manager is a class. Each operation is proved against one function of the
  module `DataPaging`, which describes both managers on a shared abstract state: receiving
  sessions, requested sessions, the allocator's slots and its cursor. Properties that span
  several calls are lemmas about those functions.
- **Manager interface.** `IDataPageManager` and the remote interfaces are a datatype that
  chooses one of the two managers (`DataPageManagers.DataPageManager`). A "remote proxy" is
  simply another manager in the model.
- **Exceptions and conditional values.** A thrown exception is a `Result`/`Outcome` value that
  names the .NET exception. `ConditionalValue` is an `Option`.

Where the code as written has a sharp edge, the model keeps it and proves it:
- the allocator's post-increment hands out the slot after the free one, so GetId can return an
  id that is still held;
- the sender serves the page whose index equals `TotalNumberOfPages`;
- the receiver clips writes that overflow, but the pull loop does not;
- Where reads past the parent's end after a passing last element;
- TakeWhile is not sticky;
- Reset on SelectMany and SkipWhile keeps their own state.

## Model

| member | source | states |
|---|---|---|
| PagingIds.Equals | CareOtter.ServiceFabricUtilities/Containers/PagingId.cs:14-17 | two ids are Equal exactly when they are the same id |
| PagingIds.CompareTo | CareOtter.ServiceFabricUtilities/Containers/PagingId.cs:19-22 | the sign orders the ids by their numbers, and the result is 0 exactly when Equals holds |
| PagingIds.GetHashCode | CareOtter.ServiceFabricUtilities/Containers/PagingId.cs:29-32 | the hash is the id's own number, as UInt16.GetHashCode gives, so a 16-bit value determined by the id alone |
| PagingIds.DecimalString | CareOtter.ServiceFabricUtilities/Containers/PagingId.cs:26 | the decimal text of a number is non-empty, all digits and free of a leading zero |
| PagingIds.ParseDecimalString | CareOtter.ServiceFabricUtilities/Containers/PagingId.cs:24-27 | reading the decimal text back gives the number: formatting loses nothing |
| PagingIds.ToString | CareOtter.ServiceFabricUtilities/Containers/PagingId.cs:24-27 | the text form starts with "Page-" and has at least one character after it |
| PagingIds.ToStringInjective | CareOtter.ServiceFabricUtilities/Containers/PagingId.cs:24-27 | two ids have the same text form if and only if they are equal |
| FabricServiceIds.ReplaceChar | CareOtter.ServiceFabricUtilities/Containers/FabricServiceId.cs:23 | String.Replace(char, char) keeps the length and turns exactly the occurrences of one character into the other |
| FabricServiceIds.TrimEnd | CareOtter.ServiceFabricUtilities/Containers/FabricServiceId.cs:23 | String.TrimEnd(c) gives a prefix that does not end in c, and everything removed is c |
| FabricServiceIds.ScrubInstanceId | CareOtter.ServiceFabricUtilities/Containers/FabricServiceId.cs:23 | every '\|' and '.' of the instance id becomes '/', and nothing else changes |
| FabricServiceIds.FromParts | CareOtter.ServiceFabricUtilities/Containers/FabricServiceId.cs:20-25 | the service address is app/type/scrubbed-instance with only trailing '/' removed and never ends in '/'; the application name is kept as given |
| FabricServiceIds.FromUri | CareOtter.ServiceFabricUtilities/Containers/FabricServiceId.cs:43-46 | the single-Uri constructor sets the service address as given and leaves the application name unset |
| FabricServiceIds.NoTrimForPlainInstanceEnd | CareOtter.ServiceFabricUtilities/Containers/FabricServiceId.cs:23 | an instance id ending in a non-separator is kept whole: the address is exactly app/type/instance |
| FabricServiceIds.SeparatorOnlyInstanceVanishes | CareOtter.ServiceFabricUtilities/Containers/FabricServiceId.cs:23 | an instance id made only of separators contributes nothing to the address |
| FabricServiceIds.TrimSlashRun | CareOtter.ServiceFabricUtilities/Containers/FabricServiceId.cs:23 | trimming a string followed by a run of '/' is trimming the string |
| PagingIdAllocation.Wrapped | CareOtter.ServiceFabricUtilities/Paging/PagingIdManager.cs:19-21 | the ushort cursor wraps from 65535 to 0: a position under two laps reduced modulo 65536 |
| PagingIdAllocation.FreeOffset | CareOtter.ServiceFabricUtilities/Paging/PagingIdManager.cs:21 | the cyclic scan from the cursor reaches a free slot after passing only held slots |
| PagingIdAllocation.FreeSlotReachable | CareOtter.ServiceFabricUtilities/Paging/PagingIdManager.cs:21 | when any slot is free, the cyclic scan from any cursor meets one within 65536 steps |
| PagingIdAllocation.FirstFree | CareOtter.ServiceFabricUtilities/Paging/PagingIdManager.cs:21 | the slot the scan stops on is in range and free |
| PagingIdAllocation.ScanLength | CareOtter.ServiceFabricUtilities/Paging/PagingIdManager.cs:21-24 | the scan reads the free slot's offset plus one slots, so the id returned is the slot after the first free one |
| PagingIdAllocation.ScanVisits | CareOtter.ServiceFabricUtilities/Paging/PagingIdManager.cs:21 | the slot read at each step is held exactly before the first free one |
| PagingIdAllocation.PagingIdManager.constructor | CareOtter.ServiceFabricUtilities/Paging/PagingIdManager.cs:10-13 | 65536 slots, all free, cursor at 0 |
| PagingIdAllocation.PagingIdManager.Scan | CareOtter.ServiceFabricUtilities/Paging/PagingIdManager.cs:21 | the loop `while (_ids[_pos++])` ends with the cursor one past the first free slot from the start, wrapping at 65536 |
| PagingIdAllocation.PagingIdManager.GetId | CareOtter.ServiceFabricUtilities/Paging/PagingIdManager.cs:15-27 | returns the slot after the first free one, marks exactly that slot held and moves the cursor onto it; needs a free slot, since otherwise it never returns |
| PagingIdAllocation.PagingIdManager.FreeId | CareOtter.ServiceFabricUtilities/Paging/PagingIdManager.cs:29-35 | clears exactly the given slot, held or not; the cursor and every other slot are unchanged |
| PagingIdAllocation.NextIdFreshWhenFreeSlotsPaired | CareOtter.ServiceFabricUtilities/Paging/PagingIdManager.cs:21-24 | when every free slot is followed by a free slot, the id GetId returns was not held |
| PagingIdAllocation.SequentialAllocationStep | CareOtter.ServiceFabricUtilities/Paging/PagingIdManager.cs:21-24 | from a fresh allocator the (k+1)-th GetId returns 2k+1, holding the odd ids below 2k+2 afterwards |
| PagingIdAllocation.GetIdReturnsHeldId | CareOtter.ServiceFabricUtilities/Paging/PagingIdManager.cs:21-24 | with every odd id held and the cursor on 65535 (32768 allocations in), GetId returns 1, an id still held |
| PagedDataSender.PageAt | CareOtter.ServiceFabricUtilities/Paging/PagedDataSenderPackage.cs:37-49 | page p is refused exactly when p > TotalNumberOfPages; otherwise it is the slice at p*B of length min(B, len - p*B) |
| PagedDataSender.PagesFromReassemble | CareOtter.ServiceFabricUtilities/Paging/PagedDataSenderPackage.cs:29-35 | the pages GetNextPage yields from cursor k are Total+1-k pages whose concatenation is the payload from byte k*B |
| PagedDataSender.PageSplit | CareOtter.ServiceFabricUtilities/Paging/PagedDataSenderPackage.cs:42-48 | each page before the last is a full page-sized slice; the last page is everything from its offset on |
| PagedDataSender.PagesReassemble | CareOtter.ServiceFabricUtilities.UnitTest/PagingTests.cs:44-53 | reading from cursor 0 until the first refusal gives Total+1 pages whose concatenation is exactly the payload |
| PagedDataSender.PagesFromIndex | CareOtter.ServiceFabricUtilities/Paging/PagedDataSenderPackage.cs:29-35 | the j-th page yielded from cursor k is the page at index k+j |
| PagedDataSender.PageAtIsPagesFrom | CareOtter.ServiceFabricUtilities/Paging/PagedDataSenderPackage.cs:29-40 | random access by index agrees with the cursor's sequence of pages and refuses exactly past it |
| PagedDataSender.LastPage | CareOtter.ServiceFabricUtilities/Paging/PagedDataSenderPackage.cs:39-48 | the page at index TotalNumberOfPages is the remainder of the payload, empty when the page size divides its length |
| PagedDataSender.PagedDataSenderPackage.constructor | CareOtter.ServiceFabricUtilities/Paging/PagedDataSenderPackage.cs:14-20 | every field starts at its default, the cursor at 0 |
| PagedDataSender.PagedDataSenderPackage.Initialize | CareOtter.ServiceFabricUtilities/Paging/PagedDataSenderPackage.cs:22-27 | stores the payload and the page size, sets the page count to floor(len / B) and leaves the cursor where it was |
| PagedDataSender.PagedDataSenderPackage.GetNextPage | CareOtter.ServiceFabricUtilities/Paging/PagedDataSenderPackage.cs:29-35 | returns the page under the cursor and advances the cursor only when that page was served; nothing else changes |
| PagedDataSender.PagedDataSenderPackage.GetOriginDataLength | CareOtter.ServiceFabricUtilities/Paging/PagedDataSenderPackage.cs:51-54 | the length of the stored payload |
| PagedDataReceiver.ReceiverState.AddData | CareOtter.ServiceFabricUtilities/Paging/PagedDataRecieverPackage.cs:22-30 | copies min(chunk, space left) bytes to the write position and advances it by that much; every other byte and the buffer length are unchanged, and 0 <= position <= length holds |
| PagedDataReceiver.Zeros | CareOtter.ServiceFabricUtilities/Paging/PagedDataRecieverPackage.cs:19 | a new byte array of n bytes is n zeros |
| PagedDataReceiver.NewReceiver | CareOtter.ServiceFabricUtilities/Paging/PagedDataRecieverPackage.cs:16-20 | a new package is an all-zero buffer of the announced length with the position at 0 |
| PagedDataReceiver.AddAll | CareOtter.ServiceFabricUtilities/Paging/PagedDataRecieverPackage.cs:24-29 | any sequence of AddData calls keeps 0 <= position <= length |
| PagedDataReceiver.AddAllSnoc | CareOtter.ServiceFabricUtilities/Paging/PagedDataRecieverPackage.cs:22-30 | adding one more chunk after a list of them is one more AddData |
| PagedDataReceiver.AddDataIsWrite | CareOtter.ServiceFabricUtilities/Paging/PagedDataRecieverPackage.cs:24-29 | AddData writes the part of the chunk that fits, and the excess is dropped without error |
| PagedDataReceiver.WriteTwice | CareOtter.ServiceFabricUtilities/Paging/PagedDataRecieverPackage.cs:28-29 | two consecutive writes at the advancing position are one write of both |
| PagedDataReceiver.WriteNothing | CareOtter.ServiceFabricUtilities/Paging/PagedDataRecieverPackage.cs:28-29 | writing nothing changes nothing |
| PagedDataReceiver.AddAllWritesConcat | CareOtter.ServiceFabricUtilities/Paging/PagedDataRecieverPackage.cs:22-30 | adding chunks in order writes their concatenation, cut to the space left, at the position, and leaves every other byte as it was |
| PagedDataReceiver.ReassemblesPayload | CareOtter.ServiceFabricUtilities.UnitTest/PagingTests.cs:44-59 | chunks whose concatenation is the payload fill a new package of the payload's length with exactly the payload |
| PagedDataReceiver.ExcessIsDropped | CareOtter.ServiceFabricUtilities/Paging/PagedDataRecieverPackage.cs:24-26 | more bytes than announced: the buffer holds the first announced-length bytes of the stream and is full |
| PagedDataReceiver.ShortfallLeavesZeros | CareOtter.ServiceFabricUtilities/Paging/PagedDataRecieverPackage.cs:14-19 | fewer bytes than announced: the buffer is the stream followed by zeros |
| PagedDataReceiver.PagedDataReceiverPackage.constructor | CareOtter.ServiceFabricUtilities/Paging/PagedDataRecieverPackage.cs:16-20 | a fresh zero-filled array of the announced length, position 0 |
| PagedDataReceiver.PagedDataReceiverPackage.Data | CareOtter.ServiceFabricUtilities/Paging/PagedDataRecieverPackage.cs:14 | the whole buffer as it stands, of the announced length |
| PagedDataReceiver.PagedDataReceiverPackage.AddData | CareOtter.ServiceFabricUtilities/Paging/PagedDataRecieverPackage.cs:22-30 | the in-place block copy and advance leave the package in the state ReceiverState.AddData describes |
| DataPaging.InitialState | CareOtter.ServiceFabricUtilities/Paging/UnreliableDataPageManager.cs:12-17 | a new manager has no sessions and every id free |
| DataPaging.Allocate | CareOtter.ServiceFabricUtilities/Paging/PagingIdManager.cs:15-27 | GetId on the manager's state: the id after the first free slot, marked held, with no session changed |
| DataPaging.Release | CareOtter.ServiceFabricUtilities/Paging/PagingIdManager.cs:29-35 | FreeId on the manager's state: only that slot is cleared |
| DataPaging.Begin | CareOtter.ServiceFabricUtilities/Paging/UnreliableDataPageManager.cs:20-29 | a negative length fails with OverflowException before an id is taken; otherwise a new id holds a new package, except that the volatile store keeps an existing one; no other session changes |
| DataPaging.SendPage | CareOtter.ServiceFabricUtilities/Paging/UnreliableDataPageManager.cs:31-41 | an unknown id is an ArgumentException that changes nothing; otherwise only that session's package has the page added |
| DataPaging.DataOf | CareOtter.ServiceFabricUtilities/Paging/UnreliableDataPageManager.cs:43-53 | the session's buffer, or ArgumentException for an unknown id |
| DataPaging.End | CareOtter.ServiceFabricUtilities/Paging/UnreliableDataPageManager.cs:55-67 | an unknown id is an ArgumentException that changes nothing; otherwise the session is removed and its id freed |
| DataPaging.NewSender | CareOtter.ServiceFabricUtilities/Paging/UnreliableDataPageManager.cs:75-76 | the stored sender package holds the payload at 65000 bytes per page, cursor 0 |
| DataPaging.Prepare | CareOtter.ServiceFabricUtilities/Paging/UnreliableDataPageManager.cs:72-85 | a new id maps to a new sender package, replacing any under it; the session reports that id and the payload length, and receiving sessions are untouched |
| DataPaging.PageOf | CareOtter.ServiceFabricUtilities/Paging/UnreliableDataPageManager.cs:87-94 | no value for an unknown id; otherwise the stored package's page |
| DataPaging.Notify | CareOtter.ServiceFabricUtilities/Paging/UnreliableDataPageManager.cs:96-102 | the requested session is dropped; the id is freed, except by the durable store when no requested session had it |
| DataPaging.SendAll | CareOtter.ServiceFabricUtilities/Paging/PagingHelper.cs:34-38 | sending any list of pages keeps the manager's state well formed |
| DataPaging.SendAllFeeds | CareOtter.ServiceFabricUtilities/Paging/PagingHelper.cs:34-38 | sending pages to a live session feeds them in order to its package and changes nothing else |
| DataPaging.PushedPages | CareOtter.ServiceFabricUtilities/Paging/PagingHelper.cs:30-37 | the pages SendDataPaged sends are len/65000 + 1 pages whose concatenation is the payload |
| DataPaging.Push | CareOtter.ServiceFabricUtilities/Paging/PagingHelper.cs:28-40 | one BeginPagingData, then every page to its id, keeps the manager's state well formed |
| DataPaging.PushDelivers | CareOtter.ServiceFabricUtilities.UnitTest/PagingTests.cs:62-94 | after a push, the returned session holds exactly the payload when its package was new (always in the durable store); no other session changes |
| DataPaging.PushThenRead | CareOtter.ServiceFabricUtilities.UnitTest/PagingTests.cs:36-60 | reading the pushed session back gives the payload |
| DataPaging.ServedPagesAreGetPage | CareOtter.ServiceFabricUtilities/Paging/PagingRequestSession.cs:33-42 | the pages a pull receives are exactly GetPage's answers for 0, 1, … and the request after them is refused |
| DataPaging.Pull | CareOtter.ServiceFabricUtilities/Paging/PagingRequestSession.cs:35-42 | copying the pages without clipping succeeds exactly when their total fits the buffer, and fails with IndexOutOfRangeException otherwise |
| DataPaging.PullStep | CareOtter.ServiceFabricUtilities/Paging/PagingRequestSession.cs:37-41 | each page either extends the buffer by itself or makes the whole pull fail |
| DataPaging.PrepareThenPull | CareOtter.ServiceFabricUtilities.UnitTest/PagingTests.cs:96-129 | a pull of a prepared payload makes len/65000 + 2 requests and ends with the buffer equal to the payload |
| DataPaging.NotifyFreesReceivingId | CareOtter.ServiceFabricUtilities/Paging/UnreliableDataPageManager.cs:96-102 | completing a pull under an id that a receiving session holds frees that id while the receiving session is still live |
| UnreliablePaging.UnreliableDataPageManager.constructor | CareOtter.ServiceFabricUtilities/Paging/UnreliableDataPageManager.cs:12-17 | the state is InitialState |
| UnreliablePaging.UnreliableDataPageManager.BeginPagingData | CareOtter.ServiceFabricUtilities/Paging/UnreliableDataPageManager.cs:20-29 | result and new state are Begin on the volatile store |
| UnreliablePaging.UnreliableDataPageManager.SendDataPage | CareOtter.ServiceFabricUtilities/Paging/UnreliableDataPageManager.cs:31-41 | result and new state are SendPage |
| UnreliablePaging.UnreliableDataPageManager.GetDataAs | CareOtter.ServiceFabricUtilities/Paging/UnreliableDataPageManager.cs:43-53 | the result is DataOf the current state |
| UnreliablePaging.UnreliableDataPageManager.EndPagingData | CareOtter.ServiceFabricUtilities/Paging/UnreliableDataPageManager.cs:55-67 | result and new state are End |
| UnreliablePaging.UnreliableDataPageManager.PrepareDataForPaging | CareOtter.ServiceFabricUtilities/Paging/UnreliableDataPageManager.cs:72-85 | session and new state are Prepare |
| UnreliablePaging.UnreliableDataPageManager.GetPage | CareOtter.ServiceFabricUtilities/Paging/UnreliableDataPageManager.cs:87-94 | the result is PageOf the current state |
| UnreliablePaging.UnreliableDataPageManager.NotifyPagingSessionComplete | CareOtter.ServiceFabricUtilities/Paging/UnreliableDataPageManager.cs:96-102 | the new state is Notify on the volatile store, which frees the id unconditionally |
| ReliablePaging.ReliableDataPageManager.constructor | CareOtter.ServiceFabricUtilities/Paging/ReliableDataPageManager.cs:12-26 | the state is InitialState and neither dictionary has been fetched yet |
| ReliablePaging.ReliableDataPageManager.GetRecieverDict | CareOtter.ServiceFabricUtilities/Paging/ReliableDataPageManager.cs:28-35 | answers the receiving dictionary and caches it; the other cache is unchanged |
| ReliablePaging.ReliableDataPageManager.GetRequestedPackageDictionary | CareOtter.ServiceFabricUtilities/Paging/ReliableDataPageManager.cs:102-112 | answers the requested dictionary and caches it; the other cache is unchanged |
| ReliablePaging.ReliableDataPageManager.BeginPagingData | CareOtter.ServiceFabricUtilities/Paging/ReliableDataPageManager.cs:37-48 | result and new state are Begin on the durable store, which replaces any package under the id |
| ReliablePaging.ReliableDataPageManager.SendDataPage | CareOtter.ServiceFabricUtilities/Paging/ReliableDataPageManager.cs:50-67 | read, AddData, write back: result and new state are SendPage |
| ReliablePaging.ReliableDataPageManager.GetDataAs | CareOtter.ServiceFabricUtilities/Paging/ReliableDataPageManager.cs:69-83 | the result is DataOf the state, and the receiving dictionary is cached |
| ReliablePaging.ReliableDataPageManager.EndPagingData | CareOtter.ServiceFabricUtilities/Paging/ReliableDataPageManager.cs:87-98 | result and new state are End |
| ReliablePaging.ReliableDataPageManager.PrepareDataForPaging | CareOtter.ServiceFabricUtilities/Paging/ReliableDataPageManager.cs:113-130 | session and new state are Prepare, although the package is built before the id is taken |
| ReliablePaging.ReliableDataPageManager.GetPage | CareOtter.ServiceFabricUtilities/Paging/ReliableDataPageManager.cs:132-143 | the result is PageOf the state, and the requested dictionary is cached |
| ReliablePaging.ReliableDataPageManager.NotifyPagingSessionComplete | CareOtter.ServiceFabricUtilities/Paging/ReliableDataPageManager.cs:145-157 | the new state is Notify on the durable store: an unknown id returns early and stays allocated |
| DataPageManagers.DataPageManager.BeginPagingData | CareOtter.ServiceFabricUtilities/Paging/IDataPageManager.cs:9 | either manager: result and state are Begin for its kind of store |
| DataPageManagers.DataPageManager.SendDataPage | CareOtter.ServiceFabricUtilities/Paging/IDataPageManager.cs:10 | either manager: SendPage |
| DataPageManagers.DataPageManager.GetDataAs | CareOtter.ServiceFabricUtilities/Paging/IDataPageManager.cs:11 | either manager: DataOf, with the abstract state unchanged |
| DataPageManagers.DataPageManager.EndPagingData | CareOtter.ServiceFabricUtilities/Paging/IDataPageManager.cs:12 | either manager: End |
| DataPageManagers.DataPageManager.PrepareDataForPaging | CareOtter.ServiceFabricUtilities/Paging/IDataPageManager.cs:13 | either manager: Prepare |
| DataPageManagers.DataPageManager.GetPage | CareOtter.ServiceFabricUtilities/Paging/IDataPageManager.cs:14 | either manager: PageOf, with the abstract state unchanged |
| DataPageManagers.DataPageManager.NotifyPagingSessionComplete | CareOtter.ServiceFabricUtilities/Paging/IDataPageManager.cs:15 | either manager: Notify for its kind of store |
| DataPageManagers.DataPageManager.GetPageAsync | CareOtter.ServiceFabricUtilities/Services/HealthCareStatefulServiceBase.cs:314-322 | Success is exactly whether GetPage had a value, and ResultValue is that value |
| PagingHelpers.FeedNext | CareOtter.ServiceFabricUtilities/Paging/PagingHelper.cs:36 | feeding page k after pages 0..k-1 gives the package fed with pages 0..k |
| PagingHelpers.SendAndAdvance | CareOtter.ServiceFabricUtilities/Paging/PagingHelper.cs:36-37 | one turn of the send loop feeds page k to the session and moves the sender to page k+1, or to no value after the last |
| PagingHelpers.SendPages | CareOtter.ServiceFabricUtilities/Paging/PagingHelper.cs:33-38 | from cursor 0 the loop sends Total+1 pages, all of them in order to the session's package, and nothing else changes |
| PagingHelpers.SendDataPaged | CareOtter.ServiceFabricUtilities/Paging/PagingHelper.cs:28-40 | returns the id of the one BeginPagingData and leaves the receiver in the state Push describes, after len/65000 + 1 page sends |
| PagingHelpers.GetPagedResults | CareOtter.ServiceFabricUtilities/Paging/PagingHelper.cs:42-47 | a negative announced size fails at allocation; otherwise the result and the sender's state are those of ExecuteAsync on a fresh buffer |
| PagingHelpers.PrepareThenGetPagedResults | CareOtter.ServiceFabricUtilities.UnitTest/PagingTests.cs:96-129 | prepare then pull returns exactly the payload, and the sender no longer holds the session |
| PagingRequestSessions.SpliceStep | CareOtter.ServiceFabricUtilities/Paging/PagingRequestSession.cs:37-38 | writing byte i of a page extends by one byte the part of it already copied in |
| PagingRequestSessions.PagingRequestSession.constructor | CareOtter.ServiceFabricUtilities/Paging/PagingRequestSession.cs:19-25 | a zero-filled buffer of the announced size, position 0, the session's id |
| PagingRequestSessions.PagingRequestSession.CopyPage | CareOtter.ServiceFabricUtilities/Paging/PagingRequestSession.cs:37-38 | the copy succeeds exactly when the page fits from the position on, and then the page sits there with every other byte unchanged |
| PagingRequestSessions.PagingRequestSession.AppendPage | CareOtter.ServiceFabricUtilities/Paging/PagingRequestSession.cs:37-40 | a page that fits is written at the position and the position moves past it |
| PagingRequestSessions.PagingRequestSession.RequestPages | CareOtter.ServiceFabricUtilities/Paging/PagingRequestSession.cs:33-42 | the request loop succeeds exactly when Pull of the served pages does, and the buffer is then its result, after served pages + 1 requests |
| PagingRequestSessions.PagingRequestSession.ExecuteAsync | CareOtter.ServiceFabricUtilities/Paging/PagingRequestSession.cs:31-45 | on success returns the buffer filled by Pull and completes the session on the sender (Notify); an overflow fails with IndexOutOfRangeException before the notification |
| MockAsyncEnumerables.MockAsyncEnumerable.GetAsyncEnumerator | CareOtter.ServiceFabricUtilities.Mocks/MockAsyncEnumerable.cs:18-21 | each call makes a fresh cursor before the first element of the same list |
| MockAsyncEnumerables.MockAsyncEnumerator.constructor | CareOtter.ServiceFabricUtilities.Mocks/MockAsyncEnumerable.cs:28-32 | the cursor starts at -1 with the whole list still to come |
| MockAsyncEnumerables.MockAsyncEnumerator.Current | CareOtter.ServiceFabricUtilities.Mocks/MockAsyncEnumerable.cs:55 | the element under the cursor, or ArgumentOutOfRangeException outside the list |
| MockAsyncEnumerables.MockAsyncEnumerator.MoveNextAsync | CareOtter.ServiceFabricUtilities.Mocks/MockAsyncEnumerable.cs:39-47 | invokes the action once if there is one, always advances the cursor (past the end too), and is true exactly when an element was left, which becomes Current |
| MockAsyncEnumerables.MockAsyncEnumerator.Reset | CareOtter.ServiceFabricUtilities.Mocks/MockAsyncEnumerable.cs:49-52 | back before the first element with the whole list to come |
| AsyncSelect.AsyncSelectEnumerator.constructor | CareOtter.ServiceFabricUtilities/AsyncEnumerable/Enumerators/AsyncSelectEnumerator.cs:13-17 | wraps the parent and the selector |
| AsyncSelect.AsyncSelectEnumerator.Current | CareOtter.ServiceFabricUtilities/AsyncEnumerable/Enumerators/AsyncSelectEnumerator.cs:34 | the selector applied to the parent's Current, or the parent's failure |
| AsyncSelect.AsyncSelectEnumerator.MoveNextAsync | CareOtter.ServiceFabricUtilities/AsyncEnumerable/Enumerators/AsyncSelectEnumerator.cs:24-27 | the parent's answer; the element stepped onto is the image of the parent's next element, and the rest is the image of the parent's rest |
| AsyncSelect.AsyncSelectEnumerator.Reset | CareOtter.ServiceFabricUtilities/AsyncEnumerable/Enumerators/AsyncSelectEnumerator.cs:29-32 | the image of the parent's whole list is to come again |
| AsyncSelectMany.FetchStep | CareOtter.ServiceFabricUtilities/AsyncEnumerable/Enumerators/AsyncSelectManyEnumerator.cs:34-41 | fetching the next collection moves its elements from the parent's part of the flattened rest to the cursor's part |
| AsyncSelectMany.NothingLeft | CareOtter.ServiceFabricUtilities/AsyncEnumerable/Enumerators/AsyncSelectManyEnumerator.cs:43-47 | a null or used-up collection cursor contributes nothing to what is left |
| AsyncSelectMany.YieldStep | CareOtter.ServiceFabricUtilities/AsyncEnumerable/Enumerators/AsyncSelectManyEnumerator.cs:43-49 | advancing a collection cursor that has an element left yields that element, and the rest follows |
| AsyncSelectMany.AsyncSelectManyEnumerator.constructor | CareOtter.ServiceFabricUtilities/AsyncEnumerable/Enumerators/AsyncSelectManyEnumerator.cs:14-27 | no active collection; what is to come is the flattened images of the parent's rest |
| AsyncSelectMany.AsyncSelectManyEnumerator.Current | CareOtter.ServiceFabricUtilities/AsyncEnumerable/Enumerators/AsyncSelectManyEnumerator.cs:59 | the active collection's element, or NullReferenceException when none is active |
| AsyncSelectMany.AsyncSelectManyEnumerator.Fetch | CareOtter.ServiceFabricUtilities/AsyncEnumerable/Enumerators/AsyncSelectManyEnumerator.cs:34-41 | one parent step: false exactly when the parent is exhausted, otherwise a cursor before the first element of the selector's collection |
| AsyncSelectMany.AsyncSelectManyEnumerator.Advance | CareOtter.ServiceFabricUtilities/AsyncEnumerable/Enumerators/AsyncSelectManyEnumerator.cs:31-51 | the maxAttempts loop: true on the head of the flattened rest, false only when nothing is left, and the ArgumentOutOfRangeException only after long.MaxValue - 1 parent elements |
| AsyncSelectMany.AsyncSelectManyEnumerator.MoveNextAsync | CareOtter.ServiceFabricUtilities/AsyncEnumerable/Enumerators/AsyncSelectManyEnumerator.cs:29-52 | steps onto the next element of the in-order concatenation of the collections, skipping empty ones in one call; false exactly when that concatenation is used up |
| AsyncSelectMany.AsyncSelectManyEnumerator.Reset | CareOtter.ServiceFabricUtilities/AsyncEnumerable/Enumerators/AsyncSelectManyEnumerator.cs:54-57 | only the parent restarts: the active collection's rest comes first, then the whole list's images |
| AsyncWhere.AsyncWhereEnumerator.constructor | CareOtter.ServiceFabricUtilities/AsyncEnumerable/Enumerators/AsyncWhereEnumerator.cs:13-17 | wraps the parent and the filter |
| AsyncWhere.AsyncWhereEnumerator.MoveNextAsync | CareOtter.ServiceFabricUtilities/AsyncEnumerable/Enumerators/AsyncWhereEnumerator.cs:25-36 | fails exactly when the parent had nothing left; otherwise true steps onto the next passing element (whose Current satisfies the filter) and false means none was left; the parent moves up to the match or through its end |
| AsyncWhere.AsyncWhereEnumerator.SkipFailing | CareOtter.ServiceFabricUtilities/AsyncEnumerable/Enumerators/AsyncWhereEnumerator.cs:28-34 | the filter loop stops on the first passing element or when the parent runs out, after that many steps |
| AsyncWhere.AsyncWhereEnumerator.Step | CareOtter.ServiceFabricUtilities/AsyncEnumerable/Enumerators/AsyncWhereEnumerator.cs:30-31 | one parent step: the next element, or none when the parent is exhausted |
| AsyncWhere.AsyncWhereEnumerator.Reset | CareOtter.ServiceFabricUtilities/AsyncEnumerable/Enumerators/AsyncWhereEnumerator.cs:38-41 | the filter of the parent's whole list is to come again |
| AsyncWhere.WhereFailsAfterPassingLastElement | CareOtter.ServiceFabricUtilities/AsyncEnumerable/Enumerators/AsyncWhereEnumerator.cs:27-28 | over [2] with an evenness filter: true, then the call reads past the parent's end and fails |
| AsyncWhere.WhereEndsAfterFailingLastElement | CareOtter.ServiceFabricUtilities.UnitTest/AsyncEnumerableTests.cs:78-90 | over [2, 3]: true, then a clean false |
| AsyncTakeWhile.AsyncTakeWhileEnumerator.constructor | CareOtter.ServiceFabricUtilities/AsyncEnumerable/Enumerators/AsyncTakeWhileEnumerator.cs:13-17 | wraps the parent and the predicate |
| AsyncTakeWhile.AsyncTakeWhileEnumerator.MoveNextAsync | CareOtter.ServiceFabricUtilities/AsyncEnumerable/Enumerators/AsyncTakeWhileEnumerator.cs:24-33 | one parent step and at most one predicate call; true exactly while the accepted prefix lasts, stepping onto its next element |
| AsyncTakeWhile.AsyncTakeWhileEnumerator.Reset | CareOtter.ServiceFabricUtilities/AsyncEnumerable/Enumerators/AsyncTakeWhileEnumerator.cs:35-38 | the accepted prefix of the whole list is to come again, under the predicate's current state |
| AsyncTakeWhile.TakeWhileResumesAfterRejection | CareOtter.ServiceFabricUtilities/AsyncEnumerable/Enumerators/AsyncTakeWhileEnumerator.cs:24-33 | not sticky: over [2, 1, 4] with evenness the calls answer true, false, true |
| AsyncSkipWhile.AsyncSkipWhileEnumerator.constructor | CareOtter.ServiceFabricUtilities/AsyncEnumerable/Enumerators/AsyncSkipWhileEnumerator.cs:14-25 | wraps the parent and the predicate with hasSkipped unset |
| AsyncSkipWhile.AsyncSkipWhileEnumerator.SkipPrefix | CareOtter.ServiceFabricUtilities/AsyncEnumerable/Enumerators/AsyncSkipWhileEnumerator.cs:28-39 | the skip loop lands on the first rejected element, or runs past the end, after one step per skipped element plus one |
| AsyncSkipWhile.AsyncSkipWhileEnumerator.MoveNextAsync | CareOtter.ServiceFabricUtilities/AsyncEnumerable/Enumerators/AsyncSkipWhileEnumerator.cs:26-49 | yields the parent with its longest accepted prefix dropped; hasSkipped is set only by a successful first call, after which each call is one parent step and the predicate is never called again |
| AsyncSkipWhile.AsyncSkipWhileEnumerator.Reset | CareOtter.ServiceFabricUtilities/AsyncEnumerable/Enumerators/AsyncSkipWhileEnumerator.cs:51-54 | only the parent restarts: once skipped, the whole list comes again unskipped |
| EnumerationSpecs.Tail | CareOtter.ServiceFabricUtilities.Mocks/MockAsyncEnumerable.cs:42-44 | consuming from an empty rest leaves it empty; otherwise it drops the head |
| EnumerationSpecs.Map | CareOtter.ServiceFabricUtilities/AsyncEnumerable/Enumerators/AsyncSelectEnumerator.cs:34 | element i of the image is the selector applied to element i |
| EnumerationSpecs.Filter | CareOtter.ServiceFabricUtilities/AsyncEnumerable/Enumerators/AsyncWhereEnumerator.cs:28-34 | the filter is no longer than its input |
| EnumerationSpecs.FilterMembers | CareOtter.ServiceFabricUtilities/AsyncEnumerable/Enumerators/AsyncWhereEnumerator.cs:28-34 | the filter holds exactly the input's elements that pass |
| EnumerationSpecs.FilterSkipsFailing | CareOtter.ServiceFabricUtilities/AsyncEnumerable/Enumerators/AsyncWhereEnumerator.cs:28-34 | failing leading elements do not show in the filter |
| EnumerationSpecs.FilterFirstMatch | CareOtter.ServiceFabricUtilities/AsyncEnumerable/Enumerators/AsyncWhereEnumerator.cs:28-35 | the first passing element heads the filter, followed by the filter of what comes after it: the filter keeps the input's order |
| EnumerationSpecs.FlattenMapCons | CareOtter.ServiceFabricUtilities/AsyncEnumerable/Enumerators/AsyncSelectManyEnumerator.cs:40 | the flattened images start with the head's image |
| EnumerationSpecs.Apply | CareOtter.ServiceFabricUtilities/AsyncEnumerable/Extensions/AsyncTakeExtensions.cs:44-49 | a plain predicate answers f(x) and stays; Take's and Skip's closure answers ++counter <= n, its counter one higher |
| EnumerationSpecs.Allowance | CareOtter.ServiceFabricUtilities/AsyncEnumerable/Extensions/AsyncTakeExtensions.cs:44-49 | the count a counter closure lets through never exceeds the length |
| EnumerationSpecs.TakeWhileLongestPrefix | CareOtter.ServiceFabricUtilities.UnitTest/AsyncEnumerableTests.cs:369-413 | TakeWhile yields the longest prefix whose elements all pass |
| EnumerationSpecs.SkipWhileDropsLongestPrefix | CareOtter.ServiceFabricUtilities.UnitTest/AsyncEnumerableTests.cs:337-366 | SkipWhile drops the longest passing prefix; what is left is empty or starts with a failing element |
| EnumerationSpecs.TakeCounting | CareOtter.ServiceFabricUtilities/AsyncEnumerable/Extensions/AsyncTakeExtensions.cs:42-50 | Take's closure lets exactly the first clamp(n - counter) elements through |
| EnumerationSpecs.SkipCounting | CareOtter.ServiceFabricUtilities/AsyncEnumerable/Extensions/AsyncEnumerableSkipExtensions.cs:43-52 | Skip's closure drops exactly the first clamp(n - counter) elements |
| EnumerationSpecs.TakeCountingExhausted | CareOtter.ServiceFabricUtilities/AsyncEnumerable/Extensions/AsyncTakeExtensions.cs:44-49 | once the counter has reached n, nothing more gets through |
| EnumerationSpecs.FindFirst | CareOtter.ServiceFabricUtilities/AsyncEnumerable/Extensions/AsyncFirstExtensions.cs:22-29 | the index of the first passing element, with none before it, or none when no element passes |
| EnumerationSpecs.SearchStopsAt | CareOtter.ServiceFabricUtilities/AsyncEnumerable/Extensions/AsyncFirstExtensions.cs:22-29 | a search that first matches at index i makes i + 1 steps and leaves what follows the match |
| EnumerationSpecs.SearchRunsOut | CareOtter.ServiceFabricUtilities/AsyncEnumerable/Extensions/AsyncFirstExtensions.cs:22-30 | a search with no match makes |s| + 1 steps and leaves nothing |
| AsyncFirst.FirstOf | CareOtter.ServiceFabricUtilities/AsyncEnumerable/Extensions/AsyncFirstExtensions.cs:22-31 | the first passing element, when one passes; ArgumentException otherwise |
| AsyncFirst.Search | CareOtter.ServiceFabricUtilities/AsyncEnumerable/Extensions/AsyncFirstExtensions.cs:24-29 | the loop returns the first passing element after index + 1 steps, or nothing after |s| + 1, invoking the move action once per step |
| AsyncFirst.FirstAsync | CareOtter.ServiceFabricUtilities/AsyncEnumerable/Extensions/AsyncFirstExtensions.cs:22-31 | returns FirstOf the remaining elements, stopping at the match |
| AsyncFirst.FirstAsyncUnfiltered | CareOtter.ServiceFabricUtilities/AsyncEnumerable/Extensions/AsyncFirstExtensions.cs:85-89 | the head after one step, or ArgumentException on an empty rest |
| AsyncFirst.FirstAsyncOf | CareOtter.ServiceFabricUtilities/AsyncEnumerable/Extensions/AsyncFirstExtensions.cs:56-60 | on a fresh enumerator: FirstOf the whole list |
| AsyncFirst.FirstAsyncUnfilteredOf | CareOtter.ServiceFabricUtilities/AsyncEnumerable/Extensions/AsyncFirstExtensions.cs:111-115 | the list's head, or ArgumentException for an empty list |
| AsyncFirst.FirstOrDefaultAsync | CareOtter.ServiceFabricUtilities/AsyncEnumerable/Extensions/AsyncFirstExtensions.cs:141-150 | the first passing element, or the default when none passes, stopping at the match |
| AsyncFirst.FirstOrDefaultAsyncUnfiltered | CareOtter.ServiceFabricUtilities/AsyncEnumerable/Extensions/AsyncFirstExtensions.cs:201-205 | the head, or the default on an empty rest |
| AsyncFirst.FirstOrDefaultAsyncOf | CareOtter.ServiceFabricUtilities/AsyncEnumerable/Extensions/AsyncFirstExtensions.cs:173-177 | on a fresh enumerator: the first passing element of the list, or the default |
| AsyncFirst.FirstOrDefaultAsyncUnfilteredOf | CareOtter.ServiceFabricUtilities/AsyncEnumerable/Extensions/AsyncFirstExtensions.cs:225-229 | the list's head, or the default for an empty list |
| AsyncFirst.FirstEvenPositiveOfDigits | CareOtter.ServiceFabricUtilities.UnitTest/AsyncEnumerableTests.cs:208-239 | the first even element above 0 of 0..9 is 2, found on the third step |
| AsyncAnyAll.AnyAsync | CareOtter.ServiceFabricUtilities/AsyncEnumerable/Extensions/AsyncAnyExtensions.cs:19-28 | true exactly when some remaining element passes; stops on the first match |
| AsyncAnyAll.AnyAsyncUnfiltered | CareOtter.ServiceFabricUtilities/AsyncEnumerable/Extensions/AsyncAnyExtensions.cs:50-54 | exactly one step, true exactly when an element was left |
| AsyncAnyAll.AnyAsyncOf | CareOtter.ServiceFabricUtilities/AsyncEnumerable/Extensions/AsyncAnyExtensions.cs:76-80 | on a fresh enumerator: some element of the list passes |
| AsyncAnyAll.AnyAsyncUnfilteredOf | CareOtter.ServiceFabricUtilities/AsyncEnumerable/Extensions/AsyncAnyExtensions.cs:103-106 | the list is not empty |
| AsyncAnyAll.AllAsync | CareOtter.ServiceFabricUtilities/AsyncEnumerable/Extensions/AsyncAllExtensions.cs:18-29 | true exactly when every remaining element passes (so on an empty rest); stops on the first failing element |
| AsyncAnyAll.AllAsyncOf | CareOtter.ServiceFabricUtilities/AsyncEnumerable/Extensions/AsyncAllExtensions.cs:54-58 | on a fresh enumerator: every element of the list passes |
| AsyncAnyAll.ShortCircuitCounts | CareOtter.ServiceFabricUtilities.UnitTest/AsyncEnumerableTests.cs:176-190 | Any(even) over [1, 2, 3] takes 2 steps; All(x > 1) over the same list stops after 1 step, on the failing head |
| AsyncSkipExtensions.SkipWhile | CareOtter.ServiceFabricUtilities/AsyncEnumerable/Extensions/AsyncEnumerableSkipExtensions.cs:17-21 | the result yields the remaining elements less their longest accepted prefix |
| AsyncSkipExtensions.SkipWhileOf | CareOtter.ServiceFabricUtilities/AsyncEnumerable/Extensions/AsyncEnumerableSkipExtensions.cs:30-34 | the same over a fresh enumerator of the list |
| AsyncSkipExtensions.Skip | CareOtter.ServiceFabricUtilities/AsyncEnumerable/Extensions/AsyncEnumerableSkipExtensions.cs:43-52 | the result yields the remaining elements from index clamp(n) on: all when n <= 0, none when n is at least their number |
| AsyncSkipExtensions.SkipOf | CareOtter.ServiceFabricUtilities/AsyncEnumerable/Extensions/AsyncEnumerableSkipExtensions.cs:61-65 | the same over a fresh enumerator of the list |
| AsyncTakeExtensions.TakeWhile | CareOtter.ServiceFabricUtilities/AsyncEnumerable/Extensions/AsyncTakeExtensions.cs:16-20 | the result yields the longest accepted prefix of the remaining elements |
| AsyncTakeExtensions.TakeWhileOf | CareOtter.ServiceFabricUtilities/AsyncEnumerable/Extensions/AsyncTakeExtensions.cs:29-33 | the same over a fresh enumerator of the list |
| AsyncTakeExtensions.Take | CareOtter.ServiceFabricUtilities/AsyncEnumerable/Extensions/AsyncTakeExtensions.cs:42-50 | the result yields the first min(n, length) remaining elements, none when n <= 0 |
| AsyncTakeExtensions.TakeOf | CareOtter.ServiceFabricUtilities/AsyncEnumerable/Extensions/AsyncTakeExtensions.cs:59-62 | the same over a fresh enumerator of the list |
| AsyncTakeExtensions.TakeStaysExhausted | CareOtter.ServiceFabricUtilities/AsyncEnumerable/Extensions/AsyncTakeExtensions.cs:44-49 | once Take's counter has reached n, a call answers false and the counter stays at or past n |
| MockReliableDictionaries.MockReliableDictionary.constructor | CareOtter.ServiceFabricUtilities.Mocks/StateManager/MockReliableDictionary.cs:25 | a new dictionary is empty |
| MockReliableDictionaries.MockReliableDictionary.GetCountAsync | CareOtter.ServiceFabricUtilities.Mocks/StateManager/MockReliableDictionary.cs:27-30 | the number of keys |
| MockReliableDictionaries.MockReliableDictionary.ClearAsync | CareOtter.ServiceFabricUtilities.Mocks/StateManager/MockReliableDictionary.cs:32-36 | the dictionary is empty |
| MockReliableDictionaries.MockReliableDictionary.AddAsync | CareOtter.ServiceFabricUtilities.Mocks/StateManager/MockReliableDictionary.cs:38-42 | TryAdd: a present key keeps its value and nothing fails; an absent key is added |
| MockReliableDictionaries.MockReliableDictionary.AddOrUpdateAsync | CareOtter.ServiceFabricUtilities.Mocks/StateManager/MockReliableDictionary.cs:44-53 | stores update(k, old) for a present key and add(k) otherwise, and returns what it stored |
| MockReliableDictionaries.MockReliableDictionary.AddOrUpdateValueAsync | CareOtter.ServiceFabricUtilities.Mocks/StateManager/MockReliableDictionary.cs:55-58 | the same with a fixed value to add |
| MockReliableDictionaries.MockReliableDictionary.ContainsKeyAsync | CareOtter.ServiceFabricUtilities.Mocks/StateManager/MockReliableDictionary.cs:60-63 | whether the key is present |
| MockReliableDictionaries.MockReliableDictionary.GetOrAddAsync | CareOtter.ServiceFabricUtilities.Mocks/StateManager/MockReliableDictionary.cs:70-78 | a present key's value with nothing changed; otherwise the factory's value, which is added |
| MockReliableDictionaries.MockReliableDictionary.GetOrAddValueAsync | CareOtter.ServiceFabricUtilities.Mocks/StateManager/MockReliableDictionary.cs:80-83 | the same with a fixed value |
| MockReliableDictionaries.MockReliableDictionary.TryAddAsync | CareOtter.ServiceFabricUtilities.Mocks/StateManager/MockReliableDictionary.cs:85-91 | false with nothing changed exactly when the key is present; otherwise adds and answers true |
| MockReliableDictionaries.MockReliableDictionary.TryGetValueAsync | CareOtter.ServiceFabricUtilities.Mocks/StateManager/MockReliableDictionary.cs:93-101 | a value exactly when the key is present, and then the stored one |
| MockReliableDictionaries.MockReliableDictionary.TryRemoveAsync | CareOtter.ServiceFabricUtilities.Mocks/StateManager/MockReliableDictionary.cs:108-117 | the removed value exactly when the key was present; the key is absent afterwards and nothing else changes |
| MockReliableDictionaries.MockReliableDictionary.TryUpdateAsync | CareOtter.ServiceFabricUtilities.Mocks/StateManager/MockReliableDictionary.cs:119-130 | compare-and-set: writes, and answers true, exactly when the key holds the comparison value |
| MockReliableDictionaries.MockReliableDictionary.SetAsync | CareOtter.ServiceFabricUtilities.Mocks/StateManager/MockReliableDictionary.cs:132-136 | unconditional overwrite |
| MockReliableDictionaries.MockReliableDictionary.CreateEnumerableAsync | CareOtter.ServiceFabricUtilities.Mocks/StateManager/MockReliableDictionary.cs:192-197 | a list with one pair per key, each pair the stored value, no key twice and every key present |
| MockReliableQueues.MockReliableQueue.constructor | CareOtter.ServiceFabricUtilities.Mocks/StateManager/MockReliableQueue.cs:14 | a new queue is empty |
| MockReliableQueues.MockReliableQueue.GetCountAsync | CareOtter.ServiceFabricUtilities.Mocks/StateManager/MockReliableQueue.cs:16-19 | the queue length |
| MockReliableQueues.MockReliableQueue.ClearAsync | CareOtter.ServiceFabricUtilities.Mocks/StateManager/MockReliableQueue.cs:21-25 | the queue is empty |
| MockReliableQueues.MockReliableQueue.EnqueueAsync | CareOtter.ServiceFabricUtilities.Mocks/StateManager/MockReliableQueue.cs:27-31 | the item is appended at the tail |
| MockReliableQueues.MockReliableQueue.TryDequeueAsync | CareOtter.ServiceFabricUtilities.Mocks/StateManager/MockReliableQueue.cs:38-46 | removes and returns the head of a non-empty queue; an empty one gives nothing and stays empty |
| MockReliableQueues.MockReliableQueue.TryPeekAsync | CareOtter.ServiceFabricUtilities.Mocks/StateManager/MockReliableQueue.cs:53-71 | always NotImplementedException |
| MockReliableQueues.MockReliableQueue.CreateEnumerableAsync | CareOtter.ServiceFabricUtilities.Mocks/StateManager/MockReliableQueue.cs:73-76 | a copy of the queue, head first |
| MockReliableQueues.FifoOrder | CareOtter.ServiceFabricUtilities.Mocks/StateManager/MockReliableQueue.cs:27-46 | enqueue a, b on an empty queue: dequeues give a, then b, then nothing |
| MockReliableQueues.SnapshotIsolation | CareOtter.ServiceFabricUtilities.Mocks/StateManager/MockReliableQueue.cs:73-76 | an enqueue after the snapshot leaves the snapshot as it was |
| MockTransactions.MockTransaction.constructor | CareOtter.ServiceFabricUtilities.Mocks/StateManager/MockTransaction.cs:11-15 | not committed, with the given checking setting |
| MockTransactions.MockTransaction.Dispose | CareOtter.ServiceFabricUtilities.Mocks/StateManager/MockTransaction.cs:17-21 | InvalidOperationException exactly when checking is on and the transaction was not committed |
| MockTransactions.MockTransaction.CommitAsync | CareOtter.ServiceFabricUtilities.Mocks/StateManager/MockTransaction.cs:24-28 | sets the committed flag |
| MockTransactions.MockTransaction.Abort | CareOtter.ServiceFabricUtilities.Mocks/StateManager/MockTransaction.cs:30-34 | also sets the committed flag |
| MockTransactions.MockTransaction.GetVisibilitySequenceNumberAsync | CareOtter.ServiceFabricUtilities.Mocks/StateManager/MockTransaction.cs:36-39 | always NotImplementedException |
| MockTransactions.CommitThenDispose | CareOtter.ServiceFabricUtilities.UnitTest/Mocks/MockTransactionTests.cs:29-46 | an uncommitted checking transaction fails to dispose, and once committed it disposes cleanly |
| MockActorStateManagers.MaybeFail | CareOtter.ServiceFabricUtilities.Mocks/StateManager/MockActorStateManager.cs:54-60 | never fails at chance 0; otherwise fails exactly when the draw exceeds the chance |
| MockActorStateManagers.MaybeFailRate | CareOtter.ServiceFabricUtilities.Mocks/StateManager/MockActorStateManager.cs:54-60 | as written, a chance c strictly between 0 and 100 fails on 99 - c of the 100 draws, not on c of them |
| MockActorStateManagers.IntendedFailRate | CareOtter.ServiceFabricUtilities.Mocks/StateManager/MockActorStateManager.cs:15-18 | with the test the property describes (draw below the chance), a chance of c fails on exactly c of the 100 draws |
| MockActorStateManagers.MaybeFailExtremes | CareOtter.ServiceFabricUtilities.Mocks/StateManager/MockActorStateManager.cs:54-60 | with a draw in [0, 100), a chance of 100 or more never fails and a negative chance always does |
| MockActorStateManagers.MockActorStateManager.constructor | CareOtter.ServiceFabricUtilities.Mocks/StateManager/MockActorStateManager.cs:19-22 | no state, the given failure chance |
| MockActorStateManagers.MockActorStateManager.AddStateAsync | CareOtter.ServiceFabricUtilities.Mocks/StateManager/MockActorStateManager.cs:24-28 | an existing name is an ArgumentException that changes nothing; otherwise the name is added |
| MockActorStateManagers.MockActorStateManager.GetStateAsync | CareOtter.ServiceFabricUtilities.Mocks/StateManager/MockActorStateManager.cs:30-33 | the stored value, or KeyNotFoundException for a missing name |
| MockActorStateManagers.MockActorStateManager.SetStateAsync | CareOtter.ServiceFabricUtilities.Mocks/StateManager/MockActorStateManager.cs:35-39 | unconditional overwrite |
| MockActorStateManagers.MockActorStateManager.RemoveStateAsync | CareOtter.ServiceFabricUtilities.Mocks/StateManager/MockActorStateManager.cs:41-45 | the name is absent afterwards; a missing name is no error |
| MockActorStateManagers.MockActorStateManager.TryAddStateAsync | CareOtter.ServiceFabricUtilities.Mocks/StateManager/MockActorStateManager.cs:47-51 | throws ArgumentException on an existing name instead of answering false; otherwise adds and answers true |
| MockActorStateManagers.MockActorStateManager.TryGetStateAsync | CareOtter.ServiceFabricUtilities.Mocks/StateManager/MockActorStateManager.cs:67-73 | a value exactly when no transient failure fires and the name is present, and then the stored one |
| MockActorStateManagers.MockActorStateManager.TryRemoveStateAsync | CareOtter.ServiceFabricUtilities.Mocks/StateManager/MockActorStateManager.cs:75-82 | removes and answers true exactly when no transient failure fires and the name is present; otherwise nothing changes |
| MockActorStateManagers.MockActorStateManager.ContainsStateAsync | CareOtter.ServiceFabricUtilities.Mocks/StateManager/MockActorStateManager.cs:84-87 | whether the name is present |
| MockActorStateManagers.MockActorStateManager.GetOrAddStateAsync | CareOtter.ServiceFabricUtilities.Mocks/StateManager/MockActorStateManager.cs:89-96 | an existing value with nothing changed, or the given value, which is added |
| MockActorStateManagers.MockActorStateManager.AddOrUpdateStateAsync | CareOtter.ServiceFabricUtilities.Mocks/StateManager/MockActorStateManager.cs:98-111 | stores addValue for a missing name and update(name, old) otherwise, and returns what it stored |
| MockActorStateManagers.MockActorStateManager.GetStateNamesAsync | CareOtter.ServiceFabricUtilities.Mocks/StateManager/MockActorStateManager.cs:113-116 | exactly the names in use at the time of the call |
| MockActorStateManagers.MockActorStateManager.ClearCacheAsync | CareOtter.ServiceFabricUtilities.Mocks/StateManager/MockActorStateManager.cs:118-121 | always NotImplementedException |

## Left out

- Serialization (`PagingSerializer`) is not part of this model. A payload is its already-serialized bytes, `GetDataAs` returns the session's buffer, and `ExecuteAsync` returns the filled buffer instead of the deserialized object.
- Remoting and proxies (`ICareOtterServiceProxyFactory`) are not modelled: a proxy is a manager in the model. So the `Uri` overload of `SendDataPaged` (PagingHelper.cs:22-26), the `GetPagedResults` overloads that resolve a proxy or only forward a `CancellationToken` (PagingHelper.cs:49-66), the proxy-resolving `PagingRequestSession` constructor (PagingRequestSession.cs:27-29) and `RequestedPagedDataSession.OriginUri` are left out.
- Cancellation tokens, timeouts and the `LockMode` overloads are not modelled; every such overload only forwards to a modelled operation.
- The `lock` blocks and concurrent dictionaries are modelled sequentially: no interleaving of calls is modelled.
- Durable-store transactions are not modelled. The dictionaries ignore them, as `MockReliableDictionary` does, so the missing commit in `ReliableDataPageManager.EndPagingData` has no observable effect here. Transaction isolation and rollback are not modelled.
- `ReliablePaging.ReliableDataPageManager.constructor`: the state manager is reduced to the two dictionaries it holds under the two names, both empty at start. The null check on the state manager is not modelled.
- Constructor null checks (`PagingHelper`, `ReliableDataPageManager`) and null arguments in general are not modelled.
- `PagingIdAllocation.PagingIdManager.GetId`: the call that never returns when every slot is held is excluded by a precondition that some slot is free.
- `PagedDataSender.PagedDataSenderPackage.Initialize`: a page size of 0, which divides by zero, is excluded by a precondition; every caller passes 65000 or 100000.
- Negative page numbers are not representable (page numbers are `nat`). The source lets them through the guard and then fails inside `Buffer.BlockCopy` or the indexer.
- Integer widths: `curIdx`, the Take/Skip counters, `_bufferPos` and the page arithmetic are unbounded integers. The model does not capture their 32-bit overflow, which needs more than two billion elements or bytes.
- `PagingRequestSessions.PagingRequestSession.ExecuteAsync`: after an overflow the model does not state the buffer's partial contents, only the IndexOutOfRangeException and the unchanged sender.
- `PagingRequestSessions.PagingRequestSession.constructor` requires a non-negative announced size. `PagingHelpers.GetPagedResults` maps a negative one to OverflowException before constructing it.
- The managers store package values, not references. A package can no longer be reached and changed from outside once stored, which no caller in the core does.
- Combinators run over `MockAsyncEnumerator` parents only: there are no traits, so a combinator over another combinator is not modelled.
- `Dispose` of enumerators only forwards to the parent and is not modelled. `MockTransaction.CommitSequenceNumber` and `TransactionId` are default-valued properties without logic and are not modelled.
- The one-line factories in AsyncEnumerableSelectExtensions.cs, AsyncEnumerableWhereExtensions.cs and AsyncSelectManyExtensions.cs only call the enumerator constructors, which are modelled.
- `MockReliableDictionaries.MockReliableDictionary.CreateEnumerableAsync`: the order of the pairs is left open, because the source takes it from a concurrent dictionary. The filtered overload throws NotImplementedException and is not modelled.
- MockActorStateManagers.MockActorStateManager.GetStateNamesAsync: returns the names in use at the time of the call as a value. The source returns the dictionary's live `Keys` view, so a caller holding it sees later additions and removals, and enumerating it across such a change throws InvalidOperationException; the model captures neither.
- MockActorStateManagers.MockActorStateManager.TryGetStateAsync and TryRemoveStateAsync keep the failure test as written (`MaybeFail`); the intended rate is stated under "## Findings".
- `MockActorStateManager` holds values of one type; the casts from `object` that can fail in the source are not modelled.
- `MockServiceStateManager.cs`, `MockCodePackageActivationContext.cs` and `TestServiceFactory.cs` build platform contexts by reflection or throw, and are not part of this model.
- `FabricServiceIds.FromParts`: a `Uri` is represented by the text it is built from. URI parsing and normalisation, including `Uri.ToString()` in the `Uri` application-name overload (FabricServiceId.cs:33-37), are not modelled.
- `PagingIds.CompareTo` returns the difference of the two ids, as the runtime's UInt16.CompareTo does. Only its sign is promised.

## Findings

| source | as written | input that shows it | evidently intended | confidence | as-written member | corrected member |
|---|---|---|---|---|---|---|
| CareOtter.ServiceFabricUtilities.Mocks/StateManager/MockActorStateManager.cs:54-60 | `MaybeFail` fails when the draw in [0, 100) is greater than `TransientFailureChance`, so a chance of c fails on 99 - c of the 100 draws; `TryAddStateAsync` (lines 47-51) never consults it, although the property is documented as the chance that all Try methods fail | chance 10: draws 11..99 fail, 89 of 100 calls | a call fails when the draw is below the chance, c of the 100 draws, in every Try method | medium, not executed | MockActorStateManagers.MaybeFailRate | MockActorStateManagers.IntendedFailRate |
