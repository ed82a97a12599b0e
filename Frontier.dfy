/**
 * One round of the linear-space Myers search, as functions: the forward scan
 * over diagonals k = -d, -d+2, ..., d and the backward scan over c likewise.
 * The frontiers are Python lists of length 2*max+1 indexed by diagonals that
 * may be negative, so every access goes through Python's wrap-around rule.
 * The readiness predicates say which entries a scan reads and what it needs
 * of them so that no unset entry is read and no byte outside A or B is indexed.
 */
module Frontier {
  import opened Bytes
  import opened DiffOps

  type Line = seq<Option<int>>

  /** Index i of a Python list of length n: a negative i counts from the end. */
  function PyIndex(i: int, n: int): (r: int)
    requires -n <= i < n
    ensures 0 <= r < n
    ensures i >= 0 ==> r == i
    ensures i < 0 ==> r == n + i
  {
    if i < 0 then n + i else i
  }

  function Get(v: Line, i: int): Option<int>
    requires -|v| <= i < |v|
  {
    v[PyIndex(i, |v|)]
  }

  function Set(v: Line, i: int, e: Option<int>): (w: Line)
    requires -|v| <= i < |v|
    ensures |w| == |v|
  {
    v[PyIndex(i, |v|) := e]
  }

  /** On a list of length 2*m+1 the diagonals -m..m name distinct slots. */
  lemma GetSet(v: Line, m: int, i: int, j: int, e: Option<int>)
    requires |v| == 2 * m + 1
    requires -m <= i <= m && -m <= j <= m
    ensures Get(Set(v, i, e), j) == if i == j then e else Get(v, j)
  {
  }

  /** ceil(size / 2) for a non-negative size: the last round of the search. */
  function Half(size: int): int { (size + 1) / 2 }

  /** The frontier lists of a box have 2*ceil(size/2)+1 slots. */
  function LineLen(box: Box): int { 2 * Half(box.Size()) + 1 }

  /** Row of the point in column x on forward diagonal k (k = column offset minus row offset). */
  function FY(box: Box, k: int, x: int): int { box.top + (x - box.left) - k }

  /** Column of the point in row y on backward diagonal c = k - delta (c = 0 through the bottom-right corner). */
  function BX(box: Box, c: int, y: int): int { box.right + (y - box.bottom) + c }

  /** A forward entry that is set, and whose point is not above or left of the box. */
  predicate FwdOk(box: Box, vf: Line, j: int)
  {
    -|vf| <= j < |vf| && Get(vf, j).Some? && Get(vf, j).value >= box.left
    && FY(box, j, Get(vf, j).value) >= box.top
  }

  /** A backward entry that is set, and whose point is not below or right of the box. */
  predicate BwdOk(box: Box, vb: Line, j: int)
  {
    -|vb| <= j < |vb| && Get(vb, j).Some? && Get(vb, j).value <= box.bottom
    && BX(box, j, Get(vb, j).value) <= box.right
  }

  /** Every diagonal -e, -e+2, ..., e of round e has its forward entry. */
  predicate FwdDone(box: Box, vf: Line, e: int)
  {
    forall j :: -e <= j <= e && (j + e) % 2 == 0 ==> FwdOk(box, vf, j)
  }

  predicate BwdDone(box: Box, vb: Line, e: int)
  {
    forall j :: -e <= j <= e && (j + e) % 2 == 0 ==> BwdOk(box, vb, j)
  }

  /** What forward round d reads: the seed vf[1] in round 0, round d-1's entries after it. */
  predicate FwdReady(box: Box, vf: Line, d: int)
  {
    box.Size() > 0 && |vf| == LineLen(box) && 0 <= d <= Half(box.Size())
    && (d == 0 ==> Get(vf, 1).Some? && Get(vf, 1).value >= box.left)
    && (d > 0 ==> FwdDone(box, vf, d - 1))
  }

  predicate BwdReady(box: Box, vb: Line, d: int)
  {
    box.Size() > 0 && |vb| == LineLen(box) && 0 <= d <= Half(box.Size())
    && (d == 0 ==> Get(vb, 1).Some? && Get(vb, 1).value <= box.bottom)
    && (d > 0 ==> BwdDone(box, vb, d - 1))
  }

  /** Every second diagonal has the parity of the round. */
  lemma NextParity(c: int, d: int)
    requires (c + d) % 2 == 0
    ensures (c + 2 + d) % 2 == 0
  {
    var h := (c + d) / 2;
    assert c + d == 2 * h;
    assert c + 2 + d == 2 * (h + 1);
  }

  /** Parity bookkeeping for diagonals: neighbours have the other parity, every second one the same. */
  lemma Parity(a: int, b: int)
    ensures (a + b) % 2 == (a - b) % 2
    ensures (a + b + 2) % 2 == (a + b) % 2 && (a + b - 2) % 2 == (a + b) % 2
    ensures (a + b + 1) % 2 == 1 - (a + b) % 2 && (a + b - 1) % 2 == 1 - (a + b) % 2
  {
    var h := (a + b) / 2;
    var r := (a + b) % 2;
    assert a + b == 2 * h + r && 0 <= r < 2;
    assert a - b == 2 * (h - b) + r;
    assert a + b + 2 == 2 * (h + 1) + r;
    assert a + b - 2 == 2 * (h - 1) + r;
    if r == 0 {
      assert a + b + 1 == 2 * h + 1;
      assert a + b - 1 == 2 * (h - 1) + 1;
    } else {
      assert a + b + 1 == 2 * (h + 1);
      assert a + b - 1 == 2 * h;
    }
  }

  /** The step of one diagonal before its slide: the point moved from and the point reached. */
  datatype Move = Move(prev: Point, entry: Point)

  /** Forward step on diagonal k of round d: down from k+1 or right from k-1. */
  function FwdMove(box: Box, vf: Line, d: int, k: int): (mv: Move)
    requires FwdReady(box, vf, d) && -d <= k <= d && (k + d) % 2 == 0
    ensures mv.entry.x >= box.left && mv.entry.y >= box.top
    ensures mv.entry.y == FY(box, k, mv.entry.x)
  {
    Parity(k, d);
    Parity(k + 1, d);
    assert k != -d ==> FwdOk(box, vf, k - 1);
    assert (k == -d || k != d) && d > 0 ==> FwdOk(box, vf, k + 1);
    var down := k == -d || (k != d && Get(vf, k - 1).value < Get(vf, k + 1).value);
    var px := if down then Get(vf, k + 1).value else Get(vf, k - 1).value;
    var x := if down then px else px + 1;
    var y := FY(box, k, x);
    var py := if d == 0 || x != px then y else y - 1;
    Move(Point(px, py), Point(x, y))
  }

  /** Backward step on diagonal c of round d: left from c+1 or up from c-1. */
  function BwdMove(box: Box, vb: Line, d: int, c: int): (mv: Move)
    requires BwdReady(box, vb, d) && -d <= c <= d && (c + d) % 2 == 0
    ensures mv.entry.y <= box.bottom && mv.entry.x <= box.right
    ensures mv.entry.x == BX(box, c, mv.entry.y)
  {
    Parity(c, d);
    Parity(c + 1, d);
    assert c != -d ==> BwdOk(box, vb, c - 1);
    assert (c == -d || c != d) && d > 0 ==> BwdOk(box, vb, c + 1);
    var up := c == -d || (c != d && Get(vb, c - 1).value > Get(vb, c + 1).value);
    var py := if up then Get(vb, c + 1).value else Get(vb, c - 1).value;
    var y := if up then py else py - 1;
    var x := BX(box, c, y);
    var px := if d == 0 || y != py then x else x + 1;
    Move(Point(px, py), Point(x, y))
  }

  /** The entries forward step k of round d reads are in the list and set. */
  lemma FwdMoveReads(box: Box, vf: Line, d: int, k: int)
    requires FwdReady(box, vf, d) && -d <= k <= d && (k + d) % 2 == 0
    ensures -|vf| <= k - 1 && k + 1 < |vf|
    ensures k != -d ==> Get(vf, k - 1).Some?
    ensures k == -d || k != d ==> Get(vf, k + 1).Some?
  {
    Parity(k, d);
    Parity(k + 1, d);
    assert k != -d ==> FwdOk(box, vf, k - 1);
    assert (k == -d || k != d) && d > 0 ==> FwdOk(box, vf, k + 1);
  }

  /** The entries backward step c of round d reads are in the list and set. */
  lemma BwdMoveReads(box: Box, vb: Line, d: int, c: int)
    requires BwdReady(box, vb, d) && -d <= c <= d && (c + d) % 2 == 0
    ensures -|vb| <= c - 1 && c + 1 < |vb|
    ensures c != -d ==> Get(vb, c - 1).Some?
    ensures c == -d || c != d ==> Get(vb, c + 1).Some?
  {
    Parity(c, d);
    Parity(c + 1, d);
    assert c != -d ==> BwdOk(box, vb, c - 1);
    assert (c == -d || c != d) && d > 0 ==> BwdOk(box, vb, c + 1);
  }

  /** Follow equal bytes forward from p while inside the box. */
  function SlideFwd(A: seq<byte>, B: seq<byte>, box: Box, p: Point): (q: Point)
    requires BoxIn(A, B, box) && p.x >= box.left && p.y >= box.top
    ensures q.x - p.x == q.y - p.y >= 0
    ensures q == p || (q.x <= box.right && q.y <= box.bottom)
    ensures !(q.x < box.right && q.y < box.bottom && A[q.x] == B[q.y])
    decreases box.right - p.x
  {
    if p.x < box.right && p.y < box.bottom && A[p.x] == B[p.y] then
      SlideFwd(A, B, box, Point(p.x + 1, p.y + 1))
    else
      p
  }

  /** The bytes a forward slide passes over are equal in A and B. */
  lemma {:induction false} SlideFwdMatch(A: seq<byte>, B: seq<byte>, box: Box, p: Point)
    requires BoxIn(A, B, box) && p.x >= box.left && p.y >= box.top
    ensures var q := SlideFwd(A, B, box, p); q == p || A[p.x..q.x] == B[p.y..q.y]
    decreases box.right - p.x
  {
    if p.x < box.right && p.y < box.bottom && A[p.x] == B[p.y] {
      var n := Point(p.x + 1, p.y + 1);
      var q := SlideFwd(A, B, box, n);
      assert SlideFwd(A, B, box, p) == q;
      SlideFwdMatch(A, B, box, n);
      if q != n {
        calc {
          A[p.x..q.x];
          [A[p.x]] + A[p.x + 1..q.x];
          [B[p.y]] + B[p.y + 1..q.y];
          B[p.y..q.y];
        }
      } else {
        assert A[p.x..q.x] == [A[p.x]] && B[p.y..q.y] == [B[p.y]];
      }
    }
  }

  /** Follow equal bytes backward from p while inside the box. */
  function SlideBwd(A: seq<byte>, B: seq<byte>, box: Box, p: Point): (q: Point)
    requires BoxIn(A, B, box) && p.x <= box.right && p.y <= box.bottom
    ensures p.x - q.x == p.y - q.y >= 0
    ensures q == p || (q.x >= box.left && q.y >= box.top)
    ensures !(q.x > box.left && q.y > box.top && A[q.x - 1] == B[q.y - 1])
    decreases p.x - box.left
  {
    if p.x > box.left && p.y > box.top && A[p.x - 1] == B[p.y - 1] then
      SlideBwd(A, B, box, Point(p.x - 1, p.y - 1))
    else
      p
  }

  /** The bytes a backward slide passes over are equal in A and B. */
  lemma {:induction false} SlideBwdMatch(A: seq<byte>, B: seq<byte>, box: Box, p: Point)
    requires BoxIn(A, B, box) && p.x <= box.right && p.y <= box.bottom
    ensures var q := SlideBwd(A, B, box, p); q == p || A[q.x..p.x] == B[q.y..p.y]
    decreases p.x - box.left
  {
    if p.x > box.left && p.y > box.top && A[p.x - 1] == B[p.y - 1] {
      var n := Point(p.x - 1, p.y - 1);
      var q := SlideBwd(A, B, box, n);
      assert SlideBwd(A, B, box, p) == q;
      SlideBwdMatch(A, B, box, n);
      if q != n {
        calc {
          A[q.x..p.x];
          A[q.x..p.x - 1] + [A[p.x - 1]];
          B[q.y..p.y - 1] + [B[p.y - 1]];
          B[q.y..p.y];
        }
      } else {
        assert A[q.x..p.x] == [A[p.x - 1]] && B[q.y..p.y] == [B[p.y - 1]];
      }
    }
  }

  /** The forward fire test of diagonal k in round d, with the slid point y. */
  predicate FwdFires(box: Box, vb: Line, d: int, k: int, y: int)
    requires BwdReady(box, vb, d) && -d <= k <= d && (k + d) % 2 == 0
  {
    var c := k - box.Delta();
    Parity(k, d);
    Parity(c, d);
    box.Delta() % 2 == 1 && -(d - 1) <= c <= d - 1 && (assert BwdOk(box, vb, c); y >= Get(vb, c).value)
  }

  /** What a forward fire says, about the backward diagonal c = k - delta of round d-1. */
  lemma FwdFiresFacts(box: Box, vb: Line, d: int, k: int, c: int, y: int)
    requires BwdReady(box, vb, d) && -d <= k <= d && (k + d) % 2 == 0 && c == k - box.Delta()
    requires FwdFires(box, vb, d, k, y)
    ensures d > 0 && box.Delta() % 2 == 1 && -(d - 1) <= c <= d - 1 && (c + (d - 1)) % 2 == 0
    ensures BwdOk(box, vb, c) && y >= Get(vb, c).value
  {
    var a, b := (k + d) / 2, box.Delta() / 2;
    assert k + d == 2 * a && box.Delta() == 2 * b + 1;
    assert c + (d - 1) == 2 * (a - b - 1);
  }

  /** The backward entry the forward fire test of diagonal k compares with is set once the test gets that far. */
  lemma FwdFireReads(box: Box, vb: Line, d: int, k: int)
    requires BwdReady(box, vb, d) && -d <= k <= d && (k + d) % 2 == 0
    ensures var c := k - box.Delta(); box.Delta() % 2 == 1 && -(d - 1) <= c < d ==> BwdOk(box, vb, c)
  {
    var c := k - box.Delta();
    Parity(k, d);
    Parity(c, d);
  }

  /** The backward fire test of diagonal c in round d, with the slid point x. */
  predicate BwdFires(box: Box, vf: Line, d: int, c: int, x: int)
    requires |vf| == LineLen(box) && 0 <= d <= Half(box.Size()) && -d <= c <= d && (c + d) % 2 == 0
    requires box.Delta() % 2 == 0 ==> FwdDone(box, vf, d)
  {
    var k := c + box.Delta();
    Parity(c, d);
    Parity(k, d);
    box.Delta() % 2 == 0 && -d <= k <= d && (assert FwdOk(box, vf, k); x <= Get(vf, k).value)
  }

  /** The forward entry the backward fire test of diagonal c compares with is set once the test gets that far. */
  lemma BwdFireReads(box: Box, vf: Line, d: int, c: int)
    requires |vf| == LineLen(box) && 0 <= d <= Half(box.Size()) && -d <= c <= d && (c + d) % 2 == 0
    requires box.Delta() % 2 == 0 ==> FwdDone(box, vf, d)
    ensures var k := c + box.Delta(); box.Delta() % 2 == 0 && -d <= k <= d ==> FwdOk(box, vf, k)
  {
    var k := c + box.Delta();
    Parity(c, d);
    Parity(k, d);
  }

  /** Recording the column of diagonal k in round d keeps the round ready and extends the recorded diagonals by k. */
  lemma FwdRecord(box: Box, vf: Line, d: int, k: int, x: int)
    requires FwdReady(box, vf, d) && -d <= k <= d && (k + d) % 2 == 0
    requires forall j :: -d <= j < k && (j + d) % 2 == 0 ==> FwdOk(box, vf, j)
    requires x >= box.left && FY(box, k, x) >= box.top
    ensures FwdReady(box, Set(vf, k, Some(x)), d)
    ensures forall j :: -d <= j < k + 2 && (j + d) % 2 == 0 ==> FwdOk(box, Set(vf, k, Some(x)), j)
  {
    var vf' := Set(vf, k, Some(x));
    forall j | -d <= j <= d && j != k
      ensures Get(vf', j) == Get(vf, j)
    {
      GetSet(vf, Half(box.Size()), k, j, Some(x));
    }
    GetSet(vf, Half(box.Size()), k, k, Some(x));
    if d == 0 {
      GetSet(vf, Half(box.Size()), k, 1, Some(x));
    }
    forall j | -(d - 1) <= j <= d - 1 && (j + d - 1) % 2 == 0
      ensures FwdOk(box, vf', j)
    {
      Parity(j, d);
      Parity(k, d);
      assert j != k;
      assert FwdOk(box, vf, j);
    }
    forall j | -d <= j < k + 2 && (j + d) % 2 == 0
      ensures FwdOk(box, vf', j)
    {
      Parity(j, d);
      Parity(k, d);
      if j < k {
        assert FwdOk(box, vf, j);
      }
    }
  }

  lemma BwdRecord(box: Box, vb: Line, d: int, c: int, y: int)
    requires BwdReady(box, vb, d) && -d <= c <= d && (c + d) % 2 == 0
    requires forall j :: -d <= j < c && (j + d) % 2 == 0 ==> BwdOk(box, vb, j)
    requires y <= box.bottom && BX(box, c, y) <= box.right
    ensures BwdReady(box, Set(vb, c, Some(y)), d)
    ensures forall j :: -d <= j < c + 2 && (j + d) % 2 == 0 ==> BwdOk(box, Set(vb, c, Some(y)), j)
  {
    var vb' := Set(vb, c, Some(y));
    forall j | -d <= j <= d && j != c
      ensures Get(vb', j) == Get(vb, j)
    {
      GetSet(vb, Half(box.Size()), c, j, Some(y));
    }
    GetSet(vb, Half(box.Size()), c, c, Some(y));
    if d == 0 {
      GetSet(vb, Half(box.Size()), c, 1, Some(y));
    }
    forall j | -(d - 1) <= j <= d - 1 && (j + d - 1) % 2 == 0
      ensures BwdOk(box, vb', j)
    {
      Parity(j, d);
      Parity(c, d);
      assert j != c;
      assert BwdOk(box, vb, j);
    }
    forall j | -d <= j < c + 2 && (j + d) % 2 == 0
      ensures BwdOk(box, vb', j)
    {
      Parity(j, d);
      Parity(c, d);
      if j < c {
        assert BwdOk(box, vb, j);
      }
    }
  }

  /** What a backward fire says, about the forward diagonal k = c + delta of round d. */
  lemma BwdFiresFacts(box: Box, vf: Line, d: int, c: int, k: int, x: int)
    requires |vf| == LineLen(box) && 0 <= d <= Half(box.Size()) && -d <= c <= d && (c + d) % 2 == 0
    requires box.Delta() % 2 == 0 ==> FwdDone(box, vf, d)
    requires k == c + box.Delta() && BwdFires(box, vf, d, c, x)
    ensures box.Delta() % 2 == 0 && -d <= k <= d && (k + d) % 2 == 0
    ensures FwdOk(box, vf, k) && x <= Get(vf, k).value
  {
    var a, b := (c + d) / 2, box.Delta() / 2;
    assert c + d == 2 * a && box.Delta() == 2 * b;
    assert k + d == 2 * (a + b);
  }

  /**
   * Forward round d from diagonal k on: each diagonal steps, slides and records
   * its column; the first diagonal whose point has crossed the backward frontier
   * returns its snake. The result is the list as left behind and the snake, if any.
   */
  function ForwardScan(A: seq<byte>, B: seq<byte>, box: Box, vf: Line, vb: Line, d: int, k: int): (r: (Line, Option<Snake>))
    requires BoxIn(A, B, box) && FwdReady(box, vf, d) && BwdReady(box, vb, d)
    requires -d <= k <= d + 2 && (k + d) % 2 == 0
    requires forall j :: -d <= j < k && (j + d) % 2 == 0 ==> FwdOk(box, vf, j)
    ensures |r.0| == |vf|
    ensures r.1.None? ==> FwdDone(box, r.0, d)
    ensures r.1.Some? ==> box.Delta() % 2 == 1
    decreases d + 2 - k
  {
    if k > d then
      (vf, None)
    else
      var mv := FwdMove(box, vf, d, k);
      var fin := SlideFwd(A, B, box, mv.entry);
      var vf' := Set(vf, k, Some(fin.x));
      if FwdFires(box, vb, d, k, fin.y) then
        (vf', Some(Snake(mv.prev, fin)))
      else
        FwdRecord(box, vf, d, k, fin.x);
        ForwardScan(A, B, box, vf', vb, d, k + 2)
  }

  /** Backward round d from diagonal c on, mirroring ForwardScan. */
  function BackwardScan(A: seq<byte>, B: seq<byte>, box: Box, vf: Line, vb: Line, d: int, c: int): (r: (Line, Option<Snake>))
    requires BoxIn(A, B, box) && BwdReady(box, vb, d) && |vf| == LineLen(box)
    requires box.Delta() % 2 == 0 ==> FwdDone(box, vf, d)
    requires -d <= c <= d + 2 && (c + d) % 2 == 0
    requires forall j :: -d <= j < c && (j + d) % 2 == 0 ==> BwdOk(box, vb, j)
    ensures |r.0| == |vb|
    ensures r.1.None? ==> BwdDone(box, r.0, d)
    ensures r.1.Some? ==> box.Delta() % 2 == 0
    decreases d + 2 - c
  {
    if c > d then
      (vb, None)
    else
      var mv := BwdMove(box, vb, d, c);
      var fin := SlideBwd(A, B, box, mv.entry);
      var vb' := Set(vb, c, Some(fin.y));
      if BwdFires(box, vf, d, c, fin.x) then
        (vb', Some(Snake(fin, mv.prev)))
      else
        BwdRecord(box, vb, d, c, fin.y);
        BackwardScan(A, B, box, vf, vb', d, c + 2)
  }
}
