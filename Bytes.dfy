/** Bytes, optional values and fixed-width big-endian integers shared by the model. */
module Bytes {

  /** One octet, as Python's `bytes` elements are. */
  newtype byte = x: int | 0 <= x < 256

  /** Python `None` / a value. */
  datatype Option<+T> = None | Some(value: T)

  /** 2^64: struct format `Q` accepts exactly the integers in [0, U64_LIMIT). */
  const U64_LIMIT: int := 0x1_0000_0000_0000_0000

  predicate IsU64(n: int) { 0 <= n < U64_LIMIT }

  /** The `width` low-order bytes of n, most significant first. */
  function BigEndian(n: nat, width: nat): (s: seq<byte>)
    ensures |s| == width
  {
    if width == 0 then [] else BigEndian(n / 256, width - 1) + [(n % 256) as byte]
  }

  /** The unsigned integer a big-endian byte string denotes. */
  function FromBigEndian(s: seq<byte>): (n: nat)
  {
    if |s| == 0 then 0 else FromBigEndian(s[..|s| - 1]) * 256 + s[|s| - 1] as int
  }

  lemma {:induction false} FromBigEndianBound(s: seq<byte>, width: nat)
    requires |s| == width
    ensures FromBigEndian(s) < Pow256(width)
  {
    if width > 0 {
      FromBigEndianBound(s[..|s| - 1], width - 1);
    }
  }

  function Pow256(width: nat): (p: nat)
    ensures p >= 1
  {
    if width == 0 then 1 else 256 * Pow256(width - 1)
  }

  /** Reading back `width` big-endian bytes yields n whenever n fits. */
  lemma {:induction false} BigEndianRoundTrip(n: nat, width: nat)
    requires n < Pow256(width)
    ensures FromBigEndian(BigEndian(n, width)) == n
  {
    if width > 0 {
      var s := BigEndian(n, width);
      assert s[..|s| - 1] == BigEndian(n / 256, width - 1);
      BigEndianRoundTrip(n / 256, width - 1);
    }
  }

  /** Writing `width` bytes of what `width` bytes denote gives the same bytes back. */
  lemma {:induction false} FromBigEndianRoundTrip(s: seq<byte>)
    ensures BigEndian(FromBigEndian(s), |s|) == s
  {
    if |s| > 0 {
      var init := s[..|s| - 1];
      FromBigEndianRoundTrip(init);
      var n := FromBigEndian(s);
      assert n / 256 == FromBigEndian(init);
      assert n % 256 == s[|s| - 1] as int;
    }
  }

  lemma U64Fits(n: int)
    requires IsU64(n)
    ensures n < Pow256(8)
  {
    assert Pow256(8) == U64_LIMIT by {
      assert Pow256(0) == 1;
      assert Pow256(4) == 0x1_0000_0000;
    }
  }

  /** The smaller of i and n: where a read of the file stops. */
  function Upto(i: int, n: int): int { if i <= n then i else n }

  /**
   * What reading n bytes of a file whose contents are s returns with the file
   * position at `at`: at most n bytes, everything that is left when n is
   * negative, and nothing once the position is at or past the end.
   */
  function Read(s: seq<byte>, at: int, n: int): seq<byte>
    requires at >= 0
  {
    if at >= |s| then []
    else if n < 0 then s[at..]
    else s[at..Upto(at + n, |s|)]
  }
}
