/**
 * The insert/delete edit distance between two byte strings: the length of a
 * shortest edit script made of single-byte insertions and deletions (the D of
 * Myers' "An O(ND) Difference Algorithm and Its Variations"), defined by
 * recursion on the first bytes of both strings.
 */
module EditDistance {
  import opened Bytes

  function Min(a: int, b: int): int { if a <= b then a else b }

  /** Edit distance: equal first bytes are kept, otherwise one of them is dropped at a cost of one. */
  function Dist(a: seq<byte>, b: seq<byte>): nat
    decreases |a| + |b|
  {
    if |a| == 0 then |b|
    else if |b| == 0 then |a|
    else if a[0] == b[0] then Dist(a[1..], b[1..])
    else 1 + Min(Dist(a[1..], b), Dist(a, b[1..]))
  }

  /** A string is at distance zero from itself. */
  lemma {:induction false} DistSelf(a: seq<byte>)
    ensures Dist(a, a) == 0
  {
    if |a| > 0 {
      DistSelf(a[1..]);
    }
  }

  /** Insertions and deletions trade places when the strings do. */
  lemma {:induction false} DistSymmetric(a: seq<byte>, b: seq<byte>)
    ensures Dist(a, b) == Dist(b, a)
    decreases |a| + |b|
  {
    if |a| > 0 && |b| > 0 {
      DistSymmetric(a[1..], b[1..]);
      DistSymmetric(a[1..], b);
      DistSymmetric(a, b[1..]);
    }
  }

  /** Distance zero means the strings are equal. */
  lemma {:induction false} DistZero(a: seq<byte>, b: seq<byte>)
    ensures Dist(a, b) == 0 <==> a == b
    decreases |a| + |b|
  {
    if a == b {
      DistSelf(a);
    } else if |a| > 0 && |b| > 0 && a[0] == b[0] {
      DistZero(a[1..], b[1..]);
      assert a == [a[0]] + a[1..] && b == [b[0]] + b[1..];
    }
  }
}
