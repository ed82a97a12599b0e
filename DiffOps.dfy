/**
 * The edit operations a diff is made of, the rectangle of the edit graph that
 * one step of the linear-space search works on, and the snake it returns.
 */
module DiffOps {
  import opened Bytes

  /**
   * Insert(position, payload) puts payload before old byte `position`;
   * Delete(position, length) drops `length` old bytes from `position`;
   * Change(position, payload) overwrites len(payload) old bytes.
   */
  datatype DiffOp =
    | Insert(position: int, payload: seq<byte>)
    | Delete(position: int, length: int)
    | Change(position: int, payload: seq<byte>)

  /** Edit-script length an operation stands for. */
  function EsLen(op: DiffOp): (n: int)
    ensures op.Delete? ==> n == op.length
    ensures !op.Delete? ==> n == |op.payload|
  {
    match op
    case Insert(_, payload) => |payload|
    case Delete(_, length) => length
    case Change(_, payload) => |payload|
  }

  /** Sum of EsLen over a list of operations. */
  function SumEsLen(ops: seq<DiffOp>): int
  {
    if |ops| == 0 then 0 else SumEsLen(ops[..|ops| - 1]) + EsLen(ops[|ops| - 1])
  }

  /** The sum over a concatenation is the sum of the sums. */
  lemma {:induction false} SumEsLenAppend(xs: seq<DiffOp>, ys: seq<DiffOp>)
    ensures SumEsLen(xs + ys) == SumEsLen(xs) + SumEsLen(ys)
    decreases |ys|
  {
    if |ys| == 0 {
      assert xs + ys == xs;
    } else {
      var ys' := ys[..|ys| - 1];
      assert (xs + ys)[..|xs + ys| - 1] == xs + ys';
      SumEsLenAppend(xs, ys');
    }
  }

  /** A list whose every operation stands for at least one edit has at most SumEsLen elements. */
  lemma {:induction false} SumEsLenAtLeastCount(ops: seq<DiffOp>)
    requires forall i :: 0 <= i < |ops| ==> EsLen(ops[i]) >= 1
    ensures SumEsLen(ops) >= |ops|
    ensures SumEsLen(ops) == 0 ==> ops == []
  {
    if |ops| > 0 {
      SumEsLenAtLeastCount(ops[..|ops| - 1]);
    }
  }

  /** A rectangle of the edit graph: old bytes [left, right), new bytes [top, bottom). */
  datatype Box = Box(left: int, top: int, right: int, bottom: int)
  {
    function Width(): int { right - left }
    function Height(): int { bottom - top }
    function Size(): int { Width() + Height() }
    function Delta(): int { Width() - Height() }
  }

  /** A box lies inside the graph of A (columns) and B (rows). */
  predicate BoxIn(A: seq<byte>, B: seq<byte>, box: Box)
  {
    0 <= box.left <= box.right <= |A| && 0 <= box.top <= box.bottom <= |B|
  }

  datatype Point = Point(x: int, y: int)

  /** The middle snake of a box: from start to finish. */
  datatype Snake = Snake(start: Point, finish: Point)
  {
    function Dx(): int { finish.x - start.x }
    function Dy(): int { finish.y - start.y }
  }
}
