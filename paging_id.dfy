/** PagingId (Containers/PagingId.cs): the identifier of one paging session,
    a wrapper around an unsigned 16-bit number. Equality, ordering and hashing
    all look at the number only; the text form is "Page-" and the number. */
module PagingIds {
  import opened Wrappers

  datatype PagingId = PagingId(Id: ushort)

  /** IEquatable<PagingId>.Equals. */
  function Equals(a: PagingId, other: PagingId): (r: bool)
    ensures r <==> a == other
  {
    other.Id == a.Id
  }

  /** IComparable<PagingId>.CompareTo, which is UInt16.CompareTo on the ids:
      the runtime returns the difference of the two numbers. */
  function CompareTo(a: PagingId, other: PagingId): (r: int)
    ensures r == 0 <==> Equals(a, other)
    ensures r < 0 <==> a.Id < other.Id
    ensures r > 0 <==> a.Id > other.Id
  {
    a.Id - other.Id
  }

  /** GetHashCode: the hash of the id, which for UInt16 is the number itself. */
  function GetHashCode(a: PagingId): (h: int)
    ensures h == a.Id && 0 <= h < 0x1_0000
  {
    a.Id
  }

  /** Decimal digits of a natural number, most significant first, without
      leading zeros (the invariant-culture formatting of an integer). */
  function DecimalString(n: nat): (s: string)
    ensures |s| >= 1
    ensures forall i :: 0 <= i < |s| ==> '0' <= s[i] <= '9'
    ensures |s| > 1 ==> s[0] != '0'
  {
    if n < 10 then [Digit(n)] else DecimalString(n / 10) + [Digit(n % 10)]
  }

  function Digit(d: nat): (c: char)
    requires d < 10
    ensures '0' <= c <= '9'
  {
    ['0', '1', '2', '3', '4', '5', '6', '7', '8', '9'][d]
  }

  function DigitValue(c: char): nat
    requires '0' <= c <= '9'
  {
    (c as int) - ('0' as int)
  }

  /** Reads a string of decimal digits back as a number. */
  function ParseDecimal(s: string): nat
    requires forall i :: 0 <= i < |s| ==> '0' <= s[i] <= '9'
  {
    if s == [] then 0 else 10 * ParseDecimal(s[..|s| - 1]) + DigitValue(s[|s| - 1])
  }

  /** The decimal form can be read back: formatting loses nothing. */
  lemma {:induction false} ParseDecimalString(n: nat)
    ensures ParseDecimal(DecimalString(n)) == n
  {
    var s := DecimalString(n);
    if n < 10 {
      assert s == [Digit(n)];
      assert s[..0] == [];
    } else {
      ParseDecimalString(n / 10);
      assert s[..|s| - 1] == DecimalString(n / 10);
    }
  }

  /** ToString: "Page-" followed by the decimal id. */
  function ToString(a: PagingId): (s: string)
    ensures |s| > 5 && s[..5] == "Page-"
  {
    "Page-" + DecimalString(a.Id)
  }

  /** The text form names the session uniquely: two ids have the same text only if
      they are equal. */
  lemma ToStringInjective(a: PagingId, b: PagingId)
    ensures ToString(a) == ToString(b) <==> a == b
  {
    if ToString(a) == ToString(b) {
      assert DecimalString(a.Id) == ToString(a)[5..];
      assert DecimalString(b.Id) == ToString(b)[5..];
      ParseDecimalString(a.Id);
      ParseDecimalString(b.Id);
    }
  }
}
