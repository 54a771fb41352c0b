/** PagedDataRecieverPackage (Paging/PagedDataRecieverPackage.cs): a buffer
    of the announced payload length, filled front to back by successive pages.
    A page that would run past the end is cut to the space left; bytes past the
    write position stay zero. */
module PagedDataReceiver {
  import opened Wrappers

  /** The fields of a package, as its data contract stores them. */
  datatype ReceiverState = ReceiverState(Data: seq<byte>, DataPos: int)
  {
    ghost predicate Valid()
    {
      0 <= DataPos <= |Data|
    }

    /** AddData on a package value: copies as much of `chunk` as fits at the
        write position and advances the position by that much. */
    function AddData(chunk: seq<byte>): (r: ReceiverState)
      requires Valid()
      ensures r.Valid() && |r.Data| == |Data|
      ensures r.DataPos == DataPos + Min(|chunk|, |Data| - DataPos)
      ensures forall i :: DataPos <= i < r.DataPos ==> r.Data[i] == chunk[i - DataPos]
      ensures forall i :: 0 <= i < |Data| && !(DataPos <= i < r.DataPos) ==> r.Data[i] == Data[i]
    {
      var dataLen := if |chunk| + DataPos > |Data| then |Data| - DataPos else |chunk|;
      ReceiverState(Data[..DataPos] + chunk[..dataLen] + Data[DataPos + dataLen..], DataPos + dataLen)
    }
  }

  /** A zero-filled buffer of n bytes, as `new byte[n]` gives. */
  function Zeros(n: nat): (z: seq<byte>)
    ensures |z| == n && forall i :: 0 <= i < n ==> z[i] == 0
  {
    seq(n, _ => 0)
  }

  /** A new package for a payload of `originDataLength` bytes. */
  function NewReceiver(originDataLength: nat): (r: ReceiverState)
    ensures r.Valid() && r.DataPos == 0 && r.Data == Zeros(originDataLength)
  {
    ReceiverState(Zeros(originDataLength), 0)
  }

  /** AddData applied to each chunk in turn. */
  function AddAll(s: ReceiverState, chunks: seq<seq<byte>>): (r: ReceiverState)
    requires s.Valid()
    ensures r.Valid()
    decreases |chunks|
  {
    if chunks == [] then s else AddAll(s.AddData(chunks[0]), chunks[1..])
  }

  /** Adding one more chunk after a list of them is one more AddData. */
  lemma {:induction false} AddAllSnoc(s: ReceiverState, chunks: seq<seq<byte>>, chunk: seq<byte>)
    requires s.Valid()
    ensures AddAll(s, chunks + [chunk]) == AddAll(s, chunks).AddData(chunk)
    decreases |chunks|
  {
    if chunks == [] {
      assert chunks + [chunk] == [chunk];
      assert [chunk][1..] == [];
    } else {
      assert (chunks + [chunk])[0] == chunks[0];
      assert (chunks + [chunk])[1..] == chunks[1..] + [chunk];
      AddAllSnoc(s.AddData(chunks[0]), chunks[1..], chunk);
    }
  }

  /** `bytes` written at the write position of `s`, position advanced past them. */
  function Write(s: ReceiverState, bytes: seq<byte>): ReceiverState
    requires s.Valid() && s.DataPos + |bytes| <= |s.Data|
  {
    ReceiverState(s.Data[..s.DataPos] + bytes + s.Data[s.DataPos + |bytes|..], s.DataPos + |bytes|)
  }

  /** AddData writes the part of the chunk that fits. */
  lemma AddDataIsWrite(s: ReceiverState, chunk: seq<byte>)
    requires s.Valid()
    ensures var n := Min(|chunk|, |s.Data| - s.DataPos);
      s.AddData(chunk) == Write(s, chunk[..n])
  {
    var n := Min(|chunk|, |s.Data| - s.DataPos);
    var r := s.AddData(chunk);
    var w := Write(s, chunk[..n]);
    assert forall i :: 0 <= i < |s.Data| ==> r.Data[i] == w.Data[i];
  }

  /** Two writes in a row are one write of both. */
  lemma WriteTwice(s: ReceiverState, a: seq<byte>, b: seq<byte>)
    requires s.Valid() && s.DataPos + |a| + |b| <= |s.Data|
    ensures Write(s, a).Valid()
    ensures Write(Write(s, a), b) == Write(s, a + b)
  {
    var s1 := Write(s, a);
    assert s1.Data[..s1.DataPos] == s.Data[..s.DataPos] + a;
    assert s1.Data[s1.DataPos + |b|..] == s.Data[s.DataPos + |a| + |b|..];
  }

  /** Writing nothing changes nothing. */
  lemma WriteNothing(s: ReceiverState)
    requires s.Valid()
    ensures Write(s, []) == s
  {
    assert s.Data == s.Data[..s.DataPos] + s.Data[s.DataPos..];
  }

  /** Successive pages land one after another: adding a list of chunks writes
      their concatenation at the write position, cut to the space left, and
      leaves every other byte as it was. */
  lemma {:induction false} AddAllWritesConcat(s: ReceiverState, chunks: seq<seq<byte>>)
    requires s.Valid()
    ensures var m := Min(|Concat(chunks)|, |s.Data| - s.DataPos);
      AddAll(s, chunks) == Write(s, Concat(chunks)[..m])
    decreases |chunks|
  {
    var m := Min(|Concat(chunks)|, |s.Data| - s.DataPos);
    if chunks == [] {
      WriteNothing(s);
    } else {
      var c := chunks[0];
      var rest := chunks[1..];
      var n1 := Min(|c|, |s.Data| - s.DataPos);
      AddDataIsWrite(s, c);
      var s1 := Write(s, c[..n1]);
      AddAllWritesConcat(s1, rest);
      var m1 := Min(|Concat(rest)|, |s1.Data| - s1.DataPos);
      WriteTwice(s, c[..n1], Concat(rest)[..m1]);
      assert Concat(chunks) == c + Concat(rest);
      assert c[..n1] + Concat(rest)[..m1] == Concat(chunks)[..m];
    }
  }

  /** The receiving side of a paging session: chunks whose concatenation is
      exactly the announced length fill a new package with that payload. */
  lemma ReassemblesPayload(payload: seq<byte>, chunks: seq<seq<byte>>)
    requires Concat(chunks) == payload
    ensures AddAll(NewReceiver(|payload|), chunks) == ReceiverState(payload, |payload|)
  {
    AddAllWritesConcat(NewReceiver(|payload|), chunks);
  }

  /** More bytes than announced: the excess is dropped and the buffer holds the
      announced length's worth of the stream. */
  lemma ExcessIsDropped(n: nat, chunks: seq<seq<byte>>)
    requires |Concat(chunks)| >= n
    ensures AddAll(NewReceiver(n), chunks) == ReceiverState(Concat(chunks)[..n], n)
  {
    AddAllWritesConcat(NewReceiver(n), chunks);
  }

  /** Fewer bytes than announced: the tail of the buffer stays zero. */
  lemma ShortfallLeavesZeros(n: nat, chunks: seq<seq<byte>>)
    requires |Concat(chunks)| <= n
    ensures AddAll(NewReceiver(n), chunks).Data == Concat(chunks) + Zeros(n - |Concat(chunks)|)
  {
    AddAllWritesConcat(NewReceiver(n), chunks);
  }

  class PagedDataReceiverPackage {
    const data: array<byte>
    var dataPos: int

    ghost predicate Valid()
      reads this
    {
      0 <= dataPos <= data.Length
    }

    function State(): ReceiverState
      reads this, data
    {
      ReceiverState(data[..], dataPos)
    }

    /** A buffer of the announced length, zero-filled, write position 0. A
        negative length makes the array allocation throw; callers check it. */
    constructor (originDataLength: nat)
      ensures Valid() && fresh(data)
      ensures State() == NewReceiver(originDataLength)
    {
      data := new byte[originDataLength](_ => 0);
      dataPos := 0;
    }

    /** The Data property: the buffer as it stands. */
    function Data(): (d: seq<byte>)
      reads this, data
      ensures |d| == data.Length
    {
      data[..]
    }

    /** Buffer.BlockCopy of the part of `chunk` that fits, then the advance. */
    method AddData(chunk: seq<byte>)
      requires Valid()
      modifies this, data
      ensures Valid()
      ensures State() == old(State()).AddData(chunk)
    {
      var dataLen := if |chunk| + dataPos > data.Length then data.Length - dataPos else |chunk|;
      forall i | 0 <= i < dataLen {
        data[dataPos + i] := chunk[i];
      }
      dataPos := dataPos + dataLen;
    }
  }
}
