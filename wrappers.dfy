/** Values shared by every part of the model: optional values (the platform's
    ConditionalValue and Response records), results that may carry one of the
    .NET exceptions the source throws, and the byte type of payload buffers. */
module Wrappers {

  /** A value that may be absent: ConditionalValue<T> with HasValue false is None. */
  datatype Option<+T> = None | Some(value: T)

  /** The exceptions the modelled code throws on purpose or through the runtime. */
  datatype Exception =
    | ArgumentException          // invalid session id, duplicate dictionary key, element not found
    | ArgumentOutOfRangeException // list index out of range, SelectMany attempt limit
    | IndexOutOfRangeException   // array index out of range
    | OverflowException          // array allocated with a negative length
    | InvalidOperationException  // transaction disposed without commit
    | KeyNotFoundException       // dictionary indexer on a missing key
    | NotImplementedException
    | NullReferenceException     // member access through a null reference

  /** The outcome of a call that either returns a value or throws. */
  datatype Result<+T> = Ok(value: T) | Err(error: Exception)

  /** The outcome of a call that returns nothing or throws. */
  datatype Outcome = Pass | Fail(error: Exception)

  /** An unsigned 8-bit value, the element type of byte[]. */
  type byte = x: int | 0 <= x < 256

  /** An unsigned 16-bit value, the type of PagingId.Id. */
  type ushort = x: int | 0 <= x < 0x1_0000

  /** The largest value of a C# long. */
  const LongMaxValue: int := 0x7FFF_FFFF_FFFF_FFFF

  function Min(a: int, b: int): int { if a <= b then a else b }

  /** The pages of a payload, or the chunks of a stream, joined in order. */
  function Concat(pages: seq<seq<byte>>): seq<byte>
  {
    if pages == [] then [] else pages[0] + Concat(pages[1..])
  }

  /** Joining two lists of pages is joining their joins. */
  lemma {:induction false} ConcatAppend(a: seq<seq<byte>>, b: seq<seq<byte>>)
    ensures Concat(a + b) == Concat(a) + Concat(b)
    decreases |a|
  {
    if a == [] {
      assert a + b == b;
    } else {
      assert (a + b)[0] == a[0] && (a + b)[1..] == a[1..] + b;
      ConcatAppend(a[1..], b);
    }
  }
}
