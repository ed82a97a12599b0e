/**
 * The path search with its unit operations placed where the edit path takes
 * them, and proved to produce a diff that the patcher replays into the new
 * file.
 *
 * Two things differ from the search as written (FindPath.FindPathOps):
 *  - the operations of the sub-box before the middle snake come first, then
 *    the snake's unit operation, then those of the sub-box after it, so the
 *    positions never go back (the patcher cannot rewind);
 *  - the unit step of a snake found by the backward search comes after the
 *    snake's equal bytes, so its operation sits at the snake's finish, not at
 *    its start.
 */
module FixedPath {
  import opened Bytes
  import opened EditDistance
  import opened DiffOps
  import opened Codec
  import opened Costs
  import opened MiddleSnake
  import opened FindPath
  import opened Patch
  import opened Generate

  /**
   * The unit operation of a snake: at its start when the step comes first
   * (a forward snake), at its finish when the step comes last (a backward
   * snake).
   */
  function StepOp(B: seq<byte>, s: Snake, first: bool): (ops: seq<DiffOp>)
    requires s.Dy() > s.Dx() ==> if first then 0 <= s.start.y < |B| else 0 < s.finish.y <= |B|
    ensures first && s.Dy() > s.Dx() ==> ops == [Insert(s.start.x, [B[s.start.y]])]
    ensures first && s.Dx() > s.Dy() ==> ops == [Delete(s.start.x, 1)]
    ensures !first && s.Dy() > s.Dx() ==> ops == [Insert(s.finish.x, [B[s.finish.y - 1]])]
    ensures !first && s.Dx() > s.Dy() ==> ops == [Delete(s.finish.x - 1, 1)]
    ensures s.Dx() == s.Dy() ==> ops == []
  {
    if s.Dy() > s.Dx() then
      (if first then [Insert(s.start.x, [B[s.start.y]])] else [Insert(s.finish.x, [B[s.finish.y - 1]])])
    else if s.Dx() > s.Dy() then
      (if first then [Delete(s.start.x, 1)] else [Delete(s.finish.x - 1, 1)])
    else []
  }

  lemma NonNegativeJoin(xs: seq<DiffOp>, ys: seq<DiffOp>)
    requires AllNonNegative(xs) && AllNonNegative(ys)
    ensures AllNonNegative(xs + ys)
  {
    forall i | 0 <= i < |xs + ys|
      ensures NonNegative((xs + ys)[i])
    {
      if i >= |xs| {
        assert (xs + ys)[i] == ys[i - |xs|];
      }
    }
  }

  /** Moving positions keeps every Delete's length. */
  lemma ShiftNonNegative(ops: seq<DiffOp>, offset: int)
    requires AllNonNegative(ops)
    ensures AllNonNegative(Shift(ops, offset))
  {
    var r := Shift(ops, offset);
    forall i | 0 <= i < |r|
      ensures NonNegative(r[i])
    {
      assert NonNegative(ops[i]);
    }
  }

  /** The operations for a box: those before the middle snake, its unit operation, those after it. */
  function FixedOps(A: seq<byte>, B: seq<byte>, box: Box): (ops: seq<DiffOp>)
    requires BoxIn(A, B, box)
    decreases box.Size()
  {
    MidpointGood(A, B, box);
    match Midpoint(A, B, box)
    case None => []
    case Some(s) =>
      if box.Width() == 0 then
        (if box.Height() > 0 then [Insert(box.left, B[box.top..box.bottom])] else [])
      else if box.Height() == 0 then
        (if box.Width() > 0 then [Delete(box.left, box.right - box.left)] else [])
      else
        FixedOps(A, B, Before(box, s)) + StepOp(B, s, box.Delta() % 2 == 1) + FixedOps(A, B, After(box, s))
  }

  /** The corrected diff(): the operations for the whole of A against B. */
  function FixedDiff(A: seq<byte>, B: seq<byte>): seq<DiffOp>
  {
    FixedOps(A, B, FullBox(A, B))
  }

  lemma FixedDegenerate(A: seq<byte>, B: seq<byte>, box: Box)
    requires BoxIn(A, B, box) && (box.Width() == 0 || box.Height() == 0)
    ensures box.Size() == 0 ==> FixedOps(A, B, box) == []
    ensures box.Width() == 0 && box.Height() > 0 ==> FixedOps(A, B, box) == [Insert(box.left, B[box.top..box.bottom])]
    ensures box.Height() == 0 && box.Width() > 0 ==> FixedOps(A, B, box) == [Delete(box.left, box.Width())]
  {
    MidpointGood(A, B, box);
  }

  /** A box with both sides non-empty: the middle snake, with the shape its search gives it, and the parts. */
  lemma FixedSplit(A: seq<byte>, B: seq<byte>, box: Box) returns (s: Snake)
    requires BoxIn(A, B, box) && box.Width() > 0 && box.Height() > 0
    ensures Midpoint(A, B, box) == Some(s) && GoodSnake(A, B, box, s)
    ensures box.Delta() % 2 == 1 ==> StepFirst(A, B, box, s)
    ensures box.Delta() % 2 != 1 ==> StepLast(A, B, box, s)
    ensures BoxIn(A, B, Before(box, s)) && BoxIn(A, B, After(box, s))
    ensures Before(box, s).Size() < box.Size() && After(box, s).Size() < box.Size()
    ensures FixedOps(A, B, box) == FixedOps(A, B, Before(box, s)) + StepOp(B, s, box.Delta() % 2 == 1) + FixedOps(A, B, After(box, s))
  {
    MidpointCorrect(A, B, box);
    s := Midpoint(A, B, box).value;
    assert box.Delta() % 2 == 0 || box.Delta() % 2 == 1;
  }

  // ---------------------------------------------------------------------------
  // Cost: the corrected search is as short as the search as written.

  /** The corrected operations for a box add up to the box's edit distance. */
  lemma {:induction false} FixedCost(A: seq<byte>, B: seq<byte>, box: Box)
    requires BoxIn(A, B, box)
    ensures SumEsLen(FixedOps(A, B, box)) == Whole(A, B, box)
    decreases box.Size()
  {
    WholeRange(A, B, box);
    if box.Width() == 0 || box.Height() == 0 {
      FixedDegenerate(A, B, box);
      var ops := FixedOps(A, B, box);
      assert ops == [] || (|ops| == 1 && ops[..0] == []);
    } else {
      var s := FixedSplit(A, B, box);
      var l := FixedOps(A, B, Before(box, s));
      var u := StepOp(B, s, box.Delta() % 2 == 1);
      var r := FixedOps(A, B, After(box, s));
      assert SumEsLen(u) == Abs(s.Dx() - s.Dy()) by {
        if u != [] {
          assert u[..0] == [];
        }
      }
      FixedCost(A, B, Before(box, s));
      FixedCost(A, B, After(box, s));
      SumEsLenAppend(l, u);
      SumEsLenAppend(l + u, r);
      FdIsWhole(A, B, box, s.start);
      BdIsWhole(A, B, box, s.finish);
    }
  }

  /** The corrected diff has the edit-script length of the diff as written: the edit distance. */
  lemma FixedSes(A: seq<byte>, B: seq<byte>)
    ensures SumEsLen(FixedDiff(A, B)) == Dist(A, B) == Ses(A, B)
  {
    FixedCost(A, B, FullBox(A, B));
    WholeIsDist(A, B, FullBox(A, B));
    assert A[0..|A|] == A && B[0..|B|] == B;
    SesIsDist(A, B);
  }

  // ---------------------------------------------------------------------------
  // Shape: what generate_diff_file needs of a differ.

  /** Every corrected operation stands for at least one edit. */
  lemma {:induction false} FixedUnits(A: seq<byte>, B: seq<byte>, box: Box)
    requires BoxIn(A, B, box)
    ensures AllUnits(FixedOps(A, B, box))
    decreases box.Size()
  {
    if box.Width() == 0 || box.Height() == 0 {
      FixedDegenerate(A, B, box);
    } else {
      var s := FixedSplit(A, B, box);
      var l := FixedOps(A, B, Before(box, s));
      var u := StepOp(B, s, box.Delta() % 2 == 1);
      var r := FixedOps(A, B, After(box, s));
      FixedUnits(A, B, Before(box, s));
      FixedUnits(A, B, After(box, s));
      assert AllUnits(u);
      AllUnitsAppend(l, u);
      AllUnitsAppend(l + u, r);
    }
  }

  /** An operation that stands for at least one edit has no negative length. */
  lemma UnitsNonNegative(ops: seq<DiffOp>)
    requires AllUnits(ops)
    ensures AllNonNegative(ops)
  {
    assert forall i :: 0 <= i < |ops| ==> EsLen(ops[i]) >= 1 ==> NonNegative(ops[i]);
  }

  lemma FixedNonNegative(A: seq<byte>, B: seq<byte>, box: Box, off: int)
    requires BoxIn(A, B, box)
    ensures AllNonNegative(FixedOps(A, B, box)) && AllNonNegative(Shift(FixedOps(A, B, box), off))
  {
    FixedUnits(A, B, box);
    UnitsNonNegative(FixedOps(A, B, box));
    ShiftNonNegative(FixedOps(A, B, box), off);
  }

  /** The unit operation of a middle snake lies within the box's columns. */
  lemma StepWithin(A: seq<byte>, B: seq<byte>, box: Box, s: Snake, first: bool)
    requires GoodSnake(A, B, box, s)
    ensures s.Dy() > s.Dx() ==> if first then 0 <= s.start.y < |B| else 0 < s.finish.y <= |B|
    ensures Within(StepOp(B, s, first), box.left, box.right, box.Size())
  {
  }

  /** The corrected operations for a box lie within its columns, none standing for more edits than the box holds. */
  lemma {:induction false} FixedWithin(A: seq<byte>, B: seq<byte>, box: Box)
    requires BoxIn(A, B, box)
    ensures Within(FixedOps(A, B, box), box.left, box.right, box.Size())
    decreases box.Size()
  {
    if box.Width() == 0 || box.Height() == 0 {
      FixedDegenerate(A, B, box);
    } else {
      var s := FixedSplit(A, B, box);
      var before, after := Before(box, s), After(box, s);
      StepWithin(A, B, box, s, box.Delta() % 2 == 1);
      FixedWithin(A, B, before);
      FixedWithin(A, B, after);
      FixedJoin(FixedOps(A, B, before), StepOp(B, s, box.Delta() % 2 == 1), FixedOps(A, B, after), box, before, after);
    }
  }

  lemma FixedJoin(l: seq<DiffOp>, u: seq<DiffOp>, r: seq<DiffOp>, box: Box, before: Box, after: Box)
    requires Within(u, box.left, box.right, box.Size())
    requires Within(l, before.left, before.right, before.Size())
    requires Within(r, after.left, after.right, after.Size())
    requires box.left <= before.left && before.right <= box.right && before.Size() <= box.Size()
    requires box.left <= after.left && after.right <= box.right && after.Size() <= box.Size()
    ensures Within(l + u + r, box.left, box.right, box.Size())
  {
    WithinAppend(l, u, box.left, box.right, box.Size());
    WithinAppend(l + u, r, box.left, box.right, box.Size());
  }

  lemma FixedBounded()
    ensures Bounded(FixedDiff)
  {
    forall a: seq<byte>, b: seq<byte>
      ensures Within(FixedDiff(a, b), 0, |a|, |a| + |b|)
    {
      FixedWithin(a, b, FullBox(a, b));
    }
  }

  lemma FixedCounted()
    ensures Counted(FixedDiff)
  {
    forall a: seq<byte>, b: seq<byte>
      ensures forall i :: 0 <= i < |FixedDiff(a, b)| ==> EsLen(FixedDiff(a, b)[i]) >= 1
    {
      FixedUnits(a, b, FullBox(a, b));
    }
  }

  // ---------------------------------------------------------------------------
  // Replay: the patcher turns the old bytes of a box into its new bytes.

  /**
   * Going from state st to state r, the patcher has turned the old bytes
   * [from, upto) into `news`: what r has written, followed by the old bytes
   * r has still to copy up to `upto`, is what st had written and had still
   * to copy up to `from`, followed by `news`.
   */
  predicate Replays(base: seq<byte>, st: Patched, r: Patched, from: int, upto: int, news: seq<byte>)
  {
    st.cursor <= from <= upto <= |base| && r.cursor <= upto
    && r.out + base[r.cursor..upto] == st.out + base[st.cursor..from] + news
  }

  /** The patcher, going from st to r, has turned a box's old bytes, placed at off, into the box's new bytes. */
  predicate BoxReplays(base: seq<byte>, off: int, B: seq<byte>, box: Box, st: Patched, r: Patched)
  {
    0 <= box.top <= box.bottom <= |B| && Replays(base, st, r, off + box.left, off + box.right, B[box.top..box.bottom])
  }

  /** The same for the bytes a snake runs over. */
  predicate SnakeReplays(base: seq<byte>, off: int, B: seq<byte>, s: Snake, st: Patched, r: Patched)
  {
    0 <= s.start.y <= s.finish.y <= |B| && Replays(base, st, r, off + s.start.x, off + s.finish.x, B[s.start.y..s.finish.y])
  }

  /** Copying from the cursor up to a later position inside the old file copies exactly those bytes. */
  lemma CopiedRange(base: seq<byte>, cursor: nat, p: int)
    requires cursor <= p <= |base|
    ensures Copied(base, cursor, p - cursor) == base[cursor..p]
  {
  }

  lemma InsertReplay(base: seq<byte>, st: Patched, p: int, payload: seq<byte>)
    requires st.cursor <= p <= |base|
    ensures ApplyAll(base, st, [Insert(p, payload)]) == Patched(p, st.out + base[st.cursor..p] + payload)
  {
    CopiedRange(base, st.cursor, p);
    assert [Insert(p, payload)][1..] == [];
  }

  lemma DeleteReplay(base: seq<byte>, st: Patched, p: int, n: nat)
    requires st.cursor <= p <= |base|
    ensures ApplyAll(base, st, [Delete(p, n)]) == Patched(p + n, st.out + base[st.cursor..p])
  {
    CopiedRange(base, st.cursor, p);
    assert [Delete(p, n)][1..] == [];
  }

  /** A's bytes are the bytes of base from off on. */
  predicate Placed(A: seq<byte>, base: seq<byte>, off: nat)
  {
    off + |A| <= |base| && base[off..off + |A|] == A
  }

  lemma PlacedSlice(A: seq<byte>, base: seq<byte>, off: nat, i: int, j: int)
    requires Placed(A, base, off) && 0 <= i <= j <= |A|
    ensures base[off + i..off + j] == A[i..j]
  {
    forall k | 0 <= k < j - i
      ensures base[off + i..off + j][k] == A[i..j][k]
    {
      assert base[off..off + |A|][i + k] == A[i + k];
    }
  }

  /** Once the old bytes [x, y) equal the new bytes `news`, leaving them to be copied replays them. */
  lemma CopyLater(base: seq<byte>, st: Patched, x: int, y: int, news: seq<byte>)
    requires st.cursor <= x <= y <= |base| && base[x..y] == news
    ensures Replays(base, st, st, x, y, news)
  {
    assert base[st.cursor..y] == base[st.cursor..x] + base[x..y];
  }

  /** An Insert at p, with the old bytes [p, y) left to be copied. */
  lemma InsertThenCopy(base: seq<byte>, st: Patched, p: int, payload: seq<byte>, y: int, news: seq<byte>)
    requires st.cursor <= p <= y <= |base| && news == payload + base[p..y]
    ensures Replays(base, st, Patched(p, st.out + base[st.cursor..p] + payload), p, y, news)
  {
  }

  /** The old bytes [x, p) left to be copied, then an Insert at p. */
  lemma CopyThenInsert(base: seq<byte>, st: Patched, x: int, p: int, payload: seq<byte>, news: seq<byte>)
    requires st.cursor <= x <= p <= |base| && news == base[x..p] + payload
    ensures Replays(base, st, Patched(p, st.out + base[st.cursor..p] + payload), x, p, news)
  {
    assert base[st.cursor..p] == base[st.cursor..x] + base[x..p];
  }

  /** A Delete of [p, p + n), with the old bytes [p + n, y) left to be copied. */
  lemma DeleteThenCopy(base: seq<byte>, st: Patched, p: int, n: nat, y: int, news: seq<byte>)
    requires st.cursor <= p && p + n <= y <= |base| && news == base[p + n..y]
    ensures Replays(base, st, Patched(p + n, st.out + base[st.cursor..p]), p, y, news)
  {
  }

  /** The old bytes [x, p) left to be copied, then a Delete of [p, y). */
  lemma CopyThenDelete(base: seq<byte>, st: Patched, x: int, p: int, n: nat, y: int, news: seq<byte>)
    requires st.cursor <= x <= p && p + n == y <= |base| && news == base[x..p]
    ensures Replays(base, st, Patched(p + n, st.out + base[st.cursor..p]), x, y, news)
  {
    assert base[st.cursor..p] == base[st.cursor..x] + base[x..p];
  }

  /** A column of new bytes: one Insert at the box's column. */
  lemma ColumnOps(A: seq<byte>, B: seq<byte>, box: Box, off: int)
    requires BoxIn(A, B, box) && box.Width() == 0 && box.Height() > 0
    ensures Shift(FixedOps(A, B, box), off) == [Insert(off + box.left, B[box.top..box.bottom])]
  {
    FixedDegenerate(A, B, box);
  }

  lemma ColumnReplay(A: seq<byte>, B: seq<byte>, box: Box, base: seq<byte>, off: nat, st: Patched)
    requires BoxIn(A, B, box) && box.Width() == 0 && box.Height() > 0
    requires Placed(A, base, off) && st.cursor <= off + box.left
    ensures AllNonNegative(Shift(FixedOps(A, B, box), off))
    ensures BoxReplays(base, off, B, box, st, ApplyAll(base, st, Shift(FixedOps(A, B, box), off)))
  {
    ColumnOps(A, B, box, off);
    InsertReplay(base, st, off + box.left, B[box.top..box.bottom]);
    assert B[box.top..box.bottom] == B[box.top..box.bottom] + base[off + box.left..off + box.right];
    InsertThenCopy(base, st, off + box.left, B[box.top..box.bottom], off + box.right, B[box.top..box.bottom]);
  }

  /** A row of old bytes: one Delete of all of them, or nothing when the row is empty. */
  lemma RowOps(A: seq<byte>, B: seq<byte>, box: Box, off: int)
    requires BoxIn(A, B, box) && box.Height() == 0
    ensures box.Width() > 0 ==> Shift(FixedOps(A, B, box), off) == [Delete(off + box.left, box.Width())]
    ensures box.Width() == 0 ==> Shift(FixedOps(A, B, box), off) == []
  {
    FixedDegenerate(A, B, box);
  }

  lemma RowReplay(A: seq<byte>, B: seq<byte>, box: Box, base: seq<byte>, off: nat, st: Patched)
    requires BoxIn(A, B, box) && box.Height() == 0
    requires Placed(A, base, off) && st.cursor <= off + box.left
    ensures AllNonNegative(Shift(FixedOps(A, B, box), off))
    ensures BoxReplays(base, off, B, box, st, ApplyAll(base, st, Shift(FixedOps(A, B, box), off)))
  {
    RowOps(A, B, box, off);
    assert B[box.top..box.bottom] == [];
    if box.Width() > 0 {
      DeleteReplay(base, st, off + box.left, box.Width());
      assert [] == base[off + box.left + box.Width()..off + box.right];
      DeleteThenCopy(base, st, off + box.left, box.Width(), off + box.right, B[box.top..box.bottom]);
    } else {
      assert [] == base[off + box.left..off + box.right];
      CopyLater(base, st, off + box.left, off + box.right, B[box.top..box.bottom]);
    }
  }

  /** The bytes a snake runs over when its unit step comes first: equal bytes follow the step. */
  predicate FirstShape(A: seq<byte>, B: seq<byte>, s: Snake)
  {
    0 <= s.start.x <= s.finish.x <= |A| && 0 <= s.start.y <= s.finish.y <= |B|
    && (s.Dy() > s.Dx() ==> s.Dy() == s.Dx() + 1 && A[s.start.x..s.finish.x] == B[s.start.y + 1..s.finish.y])
    && (s.Dx() > s.Dy() ==> s.Dx() == s.Dy() + 1 && A[s.start.x + 1..s.finish.x] == B[s.start.y..s.finish.y])
    && (s.Dx() == s.Dy() ==> A[s.start.x..s.finish.x] == B[s.start.y..s.finish.y])
  }

  /** The bytes a snake runs over when its unit step comes last: equal bytes precede the step. */
  predicate LastShape(A: seq<byte>, B: seq<byte>, s: Snake)
  {
    0 <= s.start.x <= s.finish.x <= |A| && 0 <= s.start.y <= s.finish.y <= |B|
    && (s.Dy() > s.Dx() ==> s.Dy() == s.Dx() + 1 && A[s.start.x..s.finish.x] == B[s.start.y..s.finish.y - 1])
    && (s.Dx() > s.Dy() ==> s.Dx() == s.Dy() + 1 && A[s.start.x..s.finish.x - 1] == B[s.start.y..s.finish.y])
    && (s.Dx() == s.Dy() ==> A[s.start.x..s.finish.x] == B[s.start.y..s.finish.y])
  }

  /** The shifted unit operation of a snake, case by case. */
  lemma StepShift(B: seq<byte>, s: Snake, first: bool, off: int)
    requires s.Dy() > s.Dx() ==> if first then 0 <= s.start.y < |B| else 0 < s.finish.y <= |B|
    ensures s.Dx() == s.Dy() ==> Shift(StepOp(B, s, first), off) == []
    ensures first && s.Dy() > s.Dx() ==> Shift(StepOp(B, s, first), off) == [Insert(off + s.start.x, [B[s.start.y]])]
    ensures first && s.Dx() > s.Dy() ==> Shift(StepOp(B, s, first), off) == [Delete(off + s.start.x, 1)]
    ensures !first && s.Dy() > s.Dx() ==> Shift(StepOp(B, s, first), off) == [Insert(off + s.finish.x, [B[s.finish.y - 1]])]
    ensures !first && s.Dx() > s.Dy() ==> Shift(StepOp(B, s, first), off) == [Delete(off + (s.finish.x - 1), 1)]
  {
  }

  /** The new bytes of a snake whose Insert comes first: the inserted byte, then the equal run. */
  lemma FirstInsertBytes(A: seq<byte>, B: seq<byte>, s: Snake)
    requires FirstShape(A, B, s) && s.Dy() > s.Dx()
    ensures B[s.start.y..s.finish.y] == [B[s.start.y]] + A[s.start.x..s.finish.x]
  {
    assert B[s.start.y..s.finish.y] == [B[s.start.y]] + B[s.start.y + 1..s.finish.y];
  }

  lemma FirstInsert(A: seq<byte>, B: seq<byte>, s: Snake, base: seq<byte>, off: nat, st: Patched)
    requires FirstShape(A, B, s) && s.Dy() > s.Dx() && Placed(A, base, off) && st.cursor <= off + s.start.x
    ensures AllNonNegative(Shift(StepOp(B, s, true), off))
    ensures SnakeReplays(base, off, B, s, st, ApplyAll(base, st, Shift(StepOp(B, s, true), off)))
  {
    StepShift(B, s, true, off);
    InsertReplay(base, st, off + s.start.x, [B[s.start.y]]);
    PlacedSlice(A, base, off, s.start.x, s.finish.x);
    FirstInsertBytes(A, B, s);
    InsertThenCopy(base, st, off + s.start.x, [B[s.start.y]], off + s.finish.x, B[s.start.y..s.finish.y]);
  }

  lemma FirstDelete(A: seq<byte>, B: seq<byte>, s: Snake, base: seq<byte>, off: nat, st: Patched)
    requires FirstShape(A, B, s) && s.Dx() > s.Dy() && Placed(A, base, off) && st.cursor <= off + s.start.x
    ensures AllNonNegative(Shift(StepOp(B, s, true), off))
    ensures SnakeReplays(base, off, B, s, st, ApplyAll(base, st, Shift(StepOp(B, s, true), off)))
  {
    StepShift(B, s, true, off);
    DeleteReplay(base, st, off + s.start.x, 1);
    PlacedSlice(A, base, off, s.start.x + 1, s.finish.x);
    assert off + (s.start.x + 1) == off + s.start.x + 1;
    DeleteThenCopy(base, st, off + s.start.x, 1, off + s.finish.x, B[s.start.y..s.finish.y]);
  }

  lemma LastInsert(A: seq<byte>, B: seq<byte>, s: Snake, base: seq<byte>, off: nat, st: Patched)
    requires LastShape(A, B, s) && s.Dy() > s.Dx() && Placed(A, base, off) && st.cursor <= off + s.start.x
    ensures AllNonNegative(Shift(StepOp(B, s, false), off))
    ensures SnakeReplays(base, off, B, s, st, ApplyAll(base, st, Shift(StepOp(B, s, false), off)))
  {
    StepShift(B, s, false, off);
    InsertReplay(base, st, off + s.finish.x, [B[s.finish.y - 1]]);
    PlacedSlice(A, base, off, s.start.x, s.finish.x);
    assert B[s.start.y..s.finish.y] == B[s.start.y..s.finish.y - 1] + [B[s.finish.y - 1]];
    CopyThenInsert(base, st, off + s.start.x, off + s.finish.x, [B[s.finish.y - 1]], B[s.start.y..s.finish.y]);
  }

  lemma LastDelete(A: seq<byte>, B: seq<byte>, s: Snake, base: seq<byte>, off: nat, st: Patched)
    requires LastShape(A, B, s) && s.Dx() > s.Dy() && Placed(A, base, off) && st.cursor <= off + s.start.x
    ensures AllNonNegative(Shift(StepOp(B, s, false), off))
    ensures SnakeReplays(base, off, B, s, st, ApplyAll(base, st, Shift(StepOp(B, s, false), off)))
  {
    StepShift(B, s, false, off);
    DeleteReplay(base, st, off + (s.finish.x - 1), 1);
    PlacedSlice(A, base, off, s.start.x, s.finish.x - 1);
    CopyThenDelete(base, st, off + s.start.x, off + (s.finish.x - 1), 1, off + s.finish.x, B[s.start.y..s.finish.y]);
  }

  /** A snake of equal bytes only: no operation, the next box copies them. */
  lemma DiagonalReplay(A: seq<byte>, B: seq<byte>, s: Snake, first: bool, base: seq<byte>, off: nat, st: Patched)
    requires (if first then FirstShape(A, B, s) else LastShape(A, B, s)) && s.Dx() == s.Dy()
    requires Placed(A, base, off) && st.cursor <= off + s.start.x
    ensures AllNonNegative(Shift(StepOp(B, s, first), off))
    ensures SnakeReplays(base, off, B, s, st, ApplyAll(base, st, Shift(StepOp(B, s, first), off)))
  {
    StepShift(B, s, first, off);
    PlacedSlice(A, base, off, s.start.x, s.finish.x);
    CopyLater(base, st, off + s.start.x, off + s.finish.x, B[s.start.y..s.finish.y]);
  }

  /** The unit operation of either kind of snake. */
  lemma StepReplay(A: seq<byte>, B: seq<byte>, s: Snake, first: bool, base: seq<byte>, off: nat, st: Patched)
    requires if first then FirstShape(A, B, s) else LastShape(A, B, s)
    requires Placed(A, base, off) && st.cursor <= off + s.start.x
    ensures s.Dy() > s.Dx() ==> if first then 0 <= s.start.y < |B| else 0 < s.finish.y <= |B|
    ensures AllNonNegative(Shift(StepOp(B, s, first), off))
    ensures SnakeReplays(base, off, B, s, st, ApplyAll(base, st, Shift(StepOp(B, s, first), off)))
  {
    if s.Dx() == s.Dy() {
      DiagonalReplay(A, B, s, first, base, off, st);
    } else if first && s.Dy() > s.Dx() {
      FirstInsert(A, B, s, base, off, st);
    } else if first {
      FirstDelete(A, B, s, base, off, st);
    } else if s.Dy() > s.Dx() {
      LastInsert(A, B, s, base, off, st);
    } else {
      LastDelete(A, B, s, base, off, st);
    }
  }

  /** A box with both sides non-empty, in the terms its replay needs. */
  lemma ReplaySplit(A: seq<byte>, B: seq<byte>, box: Box) returns (s: Snake)
    requires BoxIn(A, B, box) && box.Width() > 0 && box.Height() > 0
    ensures var first := box.Delta() % 2 == 1; if first then FirstShape(A, B, s) else LastShape(A, B, s)
    ensures box.left <= s.start.x && box.top <= s.start.y && s.finish.x <= box.right && s.finish.y <= box.bottom
    ensures BoxIn(A, B, Before(box, s)) && BoxIn(A, B, After(box, s))
    ensures Before(box, s).Size() < box.Size() && After(box, s).Size() < box.Size()
    ensures FixedOps(A, B, box) == FixedOps(A, B, Before(box, s)) + StepOp(B, s, box.Delta() % 2 == 1) + FixedOps(A, B, After(box, s))
  {
    s := FixedSplit(A, B, box);
  }

  /** The three parts of a split box, replayed one after the other. */
  lemma SplitReplay(base: seq<byte>, st: Patched, l: seq<DiffOp>, u: seq<DiffOp>, r: seq<DiffOp>, off: int)
    requires AllNonNegative(l) && AllNonNegative(u) && AllNonNegative(r)
    ensures AllNonNegative(Shift(l, off)) && AllNonNegative(Shift(u, off)) && AllNonNegative(Shift(r, off))
    ensures AllNonNegative(Shift(l + u + r, off))
    ensures ApplyAll(base, st, Shift(l + u + r, off))
      == ApplyAll(base, ApplyAll(base, ApplyAll(base, st, Shift(l, off)), Shift(u, off)), Shift(r, off))
  {
    ShiftNonNegative(l, off);
    ShiftNonNegative(u, off);
    ShiftNonNegative(r, off);
    NonNegativeJoin(l, u);
    NonNegativeJoin(l + u, r);
    ShiftNonNegative(l + u + r, off);
    ShiftAppend(l + u, r, off);
    ShiftAppend(l, u, off);
    ApplyAllAppend(base, st, Shift(l, off) + Shift(u, off), Shift(r, off));
    ApplyAllAppend(base, st, Shift(l, off), Shift(u, off));
  }

  /** The box up to a snake's finish: the sub-box before the snake, then the snake. */
  function UpTo(box: Box, s: Snake): Box { Box(box.left, box.top, s.finish.x, s.finish.y) }

  /** The sub-box before a snake, replayed, then the snake, replayed, replay the box up to the snake's finish. */
  lemma BeforeJoin(base: seq<byte>, off: int, B: seq<byte>, box: Box, s: Snake, st: Patched, st1: Patched, st2: Patched)
    requires box.left <= s.start.x && box.top <= s.start.y
    requires BoxReplays(base, off, B, Before(box, s), st, st1)
    requires SnakeReplays(base, off, B, s, st1, st2)
    ensures BoxReplays(base, off, B, UpTo(box, s), st, st2)
  {
    assert base[st1.cursor..off + s.finish.x] == base[st1.cursor..off + s.start.x] + base[off + s.start.x..off + s.finish.x];
    assert B[box.top..s.finish.y] == B[box.top..s.start.y] + B[s.start.y..s.finish.y];
  }

  /** The box up to a snake's finish, replayed, then the sub-box after the snake, replayed, replay the box. */
  lemma AfterJoin(base: seq<byte>, off: int, B: seq<byte>, box: Box, s: Snake, st: Patched, st2: Patched, st3: Patched)
    requires BoxReplays(base, off, B, UpTo(box, s), st, st2)
    requires BoxReplays(base, off, B, After(box, s), st2, st3)
    ensures BoxReplays(base, off, B, box, st, st3)
  {
    assert base[st2.cursor..off + box.right] == base[st2.cursor..off + s.finish.x] + base[off + s.finish.x..off + box.right];
    assert B[box.top..box.bottom] == B[box.top..s.finish.y] + B[s.finish.y..box.bottom];
  }

  /**
   * Replaying a box's corrected operations, moved to where A sits in the
   * old file, from a cursor not past the box's left edge, turns the box's
   * old bytes into its new bytes.
   */
  lemma {:induction false} FixedReplay(A: seq<byte>, B: seq<byte>, box: Box, base: seq<byte>, off: nat, st: Patched)
    requires BoxIn(A, B, box) && Placed(A, base, off) && st.cursor <= off + box.left
    ensures AllNonNegative(Shift(FixedOps(A, B, box), off))
    ensures BoxReplays(base, off, B, box, st, ApplyAll(base, st, Shift(FixedOps(A, B, box), off)))
    decreases box.Size()
  {
    FixedNonNegative(A, B, box, off);
    if box.Height() == 0 {
      RowReplay(A, B, box, base, off, st);
    } else if box.Width() == 0 {
      ColumnReplay(A, B, box, base, off, st);
    } else {
      var s := ReplaySplit(A, B, box);
      var first := box.Delta() % 2 == 1;
      var before, after := Before(box, s), After(box, s);
      var l, u, r := FixedOps(A, B, before), StepOp(B, s, first), FixedOps(A, B, after);
      FixedNonNegative(A, B, before, off);
      FixedNonNegative(A, B, after, off);
      SplitReplay(base, st, l, u, r, off);
      FixedReplay(A, B, before, base, off, st);
      var st1 := ApplyAll(base, st, Shift(l, off));
      StepReplay(A, B, s, first, base, off, st1);
      var st2 := ApplyAll(base, st1, Shift(u, off));
      FixedReplay(A, B, after, base, off, st2);
      var st3 := ApplyAll(base, st2, Shift(r, off));
      BeforeJoin(base, off, B, box, s, st, st1, st2);
      AfterJoin(base, off, B, box, s, st, st2, st3);
    }
  }

  /** A replay of the whole old file from the start: the final copy writes what is left, the new bytes. */
  lemma FinishReplays(base: seq<byte>, r: Patched, upto: int, news: seq<byte>)
    requires Replays(base, Start, r, 0, upto, news) && upto == |base|
    ensures Finish(base, r) == news
  {
    assert Start.out + base[0..0] + news == news;
    if r.cursor < |base| {
      assert base[r.cursor..upto] == base[r.cursor..];
    } else {
      assert base[r.cursor..upto] == [];
    }
  }

  /** Patching A with the corrected diff of A and B writes B. */
  lemma FixedDiffReplays(A: seq<byte>, B: seq<byte>)
    ensures AllNonNegative(FixedDiff(A, B))
    ensures Replayed(A, FixedDiff(A, B)) == B
  {
    assert Placed(A, A, 0) by {
      assert A[0..|A|] == A;
    }
    FixedNonNegative(A, B, FullBox(A, B), 0);
    FixedReplay(A, B, FullBox(A, B), A, 0, Start);
    ShiftZero(FixedDiff(A, B));
    var r := ApplyAll(A, Start, FixedDiff(A, B));
    assert B[0..|B|] == B;
    FinishReplays(A, r, 0 + FullBox(A, B).right, B[FullBox(A, B).top..FullBox(A, B).bottom]);
  }

  /** A replay over the full box of a chunk covers the chunk's old bytes and writes its new ones. */
  lemma FullBoxReplays(base: seq<byte>, off: int, a: seq<byte>, b: seq<byte>, st: Patched, r: Patched)
    requires BoxReplays(base, off, b, FullBox(a, b), st, r)
    ensures Replays(base, st, r, off, off + |a|, b)
  {
    assert b[0..|b|] == b;
  }

  /** A chunk whose old bytes sit at `off` of the old file: its corrected replay covers exactly the chunk. */
  lemma ChunkReplay(a: seq<byte>, b: seq<byte>, base: seq<byte>, off: nat, st: Patched)
    requires Placed(a, base, off) && st.cursor <= off
    ensures AllNonNegative(Shift(FixedDiff(a, b), off))
    ensures Replays(base, st, ApplyAll(base, st, Shift(FixedDiff(a, b), off)), off, off + |a|, b)
  {
    var ops := FixedOps(a, b, FullBox(a, b));
    assert FixedDiff(a, b) == ops;
    FixedReplay(a, b, FullBox(a, b), base, off, st);
    FullBoxReplays(base, off, a, b, st, ApplyAll(base, st, Shift(ops, off)));
  }

  /**
   * A differ whose operations for a chunk, shifted to where the chunk sits in
   * an old file, replay that stretch of the old file into the new chunk.
   */
  ghost predicate ReplaysChunks(differ: (seq<byte>, seq<byte>) -> seq<DiffOp>)
  {
    forall a: seq<byte>, b: seq<byte>, base: seq<byte>, off: nat, st: Patched
      :: Placed(a, base, off) && st.cursor <= off ==>
        AllNonNegative(Shift(differ(a, b), off))
        && Replays(base, st, ApplyAll(base, st, Shift(differ(a, b), off)), off, off + |a|, b)
  }

  lemma FixedReplaysChunks()
    ensures ReplaysChunks(FixedDiff)
  {
    forall a: seq<byte>, b: seq<byte>, base: seq<byte>, off: nat, st: Patched | Placed(a, base, off) && st.cursor <= off
      ensures AllNonNegative(Shift(FixedDiff(a, b), off))
        && Replays(base, st, ApplyAll(base, st, Shift(FixedDiff(a, b), off)), off, off + |a|, b)
    {
      ChunkReplay(a, b, base, off, st);
    }
  }

  /** Two stretches of old bytes replayed one after the other. */
  lemma ReplaysJoin(base: seq<byte>, st: Patched, st1: Patched, st2: Patched, x: int, y: int, z: int, n1: seq<byte>, n2: seq<byte>)
    requires Replays(base, st, st1, x, y, n1) && Replays(base, st1, st2, y, z, n2)
    ensures Replays(base, st, st2, x, z, n1 + n2)
  {
    assert base[st1.cursor..z] == base[st1.cursor..y] + base[y..z];
  }

  /** One list of operations replayed over [x, y), then another over [y, z): their concatenation replays [x, z). */
  lemma ThenReplays(base: seq<byte>, st: Patched, head: seq<DiffOp>, tail: seq<DiffOp>, x: int, y: int, z: int, n1: seq<byte>, n2: seq<byte>)
    requires AllNonNegative(head) && AllNonNegative(tail)
    requires Replays(base, st, ApplyAll(base, st, head), x, y, n1)
    requires Replays(base, ApplyAll(base, st, head), ApplyAll(base, ApplyAll(base, st, head), tail), y, z, n2)
    ensures AllNonNegative(head + tail)
    ensures Replays(base, st, ApplyAll(base, st, head + tail), x, z, n1 + n2)
  {
    ApplyAllAppend(base, st, head, tail);
    ReplaysJoin(base, st, ApplyAll(base, st, head), ApplyAll(base, ApplyAll(base, st, head), tail), x, y, z, n1, n2);
  }

  /** The first chunk's old bytes, and the old bytes of the chunks after it. */
  lemma OldsSplit(pairs: seq<(seq<byte>, seq<byte>)>, base: seq<byte>, off: nat)
    requires |pairs| > 0 && off <= |base| && Olds(pairs) == base[off..]
    ensures Placed(pairs[0].0, base, off)
    ensures Olds(pairs[1..]) == base[off + |pairs[0].0|..]
  {
    assert base[off..][..|pairs[0].0|] == base[off..off + |pairs[0].0|];
    assert base[off..][|pairs[0].0|..] == base[off + |pairs[0].0|..];
  }

  /** What a differ that replays every chunk does for the first chunk pair. */
  lemma FirstChunk(differ: (seq<byte>, seq<byte>) -> seq<DiffOp>, pairs: seq<(seq<byte>, seq<byte>)>, base: seq<byte>, off: nat, st: Patched)
    requires ReplaysChunks(differ)
    requires |pairs| > 0 && off <= |base| && Olds(pairs) == base[off..] && st.cursor <= off
    ensures Olds(pairs[1..]) == base[off + |pairs[0].0|..]
    ensures AllNonNegative(Shift(differ(pairs[0].0, pairs[0].1), off))
    ensures Replays(base, st, ApplyAll(base, st, Shift(differ(pairs[0].0, pairs[0].1), off)), off, off + |pairs[0].0|, pairs[0].1)
  {
    OldsSplit(pairs, base, off);
  }

  /** The first chunk pair replayed, then the pairs after it: all of them replayed. */
  lemma ChunksJoin(differ: (seq<byte>, seq<byte>) -> seq<DiffOp>, pairs: seq<(seq<byte>, seq<byte>)>, base: seq<byte>, off: nat, st: Patched)
    requires |pairs| > 0
    requires AllNonNegative(Shift(differ(pairs[0].0, pairs[0].1), off))
    requires Replays(base, st, ApplyAll(base, st, Shift(differ(pairs[0].0, pairs[0].1), off)), off, off + |pairs[0].0|, pairs[0].1)
    requires AllNonNegative(AllOps(differ, pairs[1..], off + |pairs[0].0|))
    requires Replays(base, ApplyAll(base, st, Shift(differ(pairs[0].0, pairs[0].1), off)),
      ApplyAll(base, ApplyAll(base, st, Shift(differ(pairs[0].0, pairs[0].1), off)), AllOps(differ, pairs[1..], off + |pairs[0].0|)),
      off + |pairs[0].0|, |base|, News(pairs[1..]))
    ensures AllNonNegative(AllOps(differ, pairs, off))
    ensures Replays(base, st, ApplyAll(base, st, AllOps(differ, pairs, off)), off, |base|, News(pairs))
  {
    var a, b := pairs[0].0, pairs[0].1;
    var head, tail := Shift(differ(a, b), off), AllOps(differ, pairs[1..], off + |a|);
    ThenReplays(base, st, head, tail, off, off + |a|, |base|, b, News(pairs[1..]));
    assert AllOps(differ, pairs, off) == head + tail;
    assert News(pairs) == b + News(pairs[1..]);
  }

  /**
   * Replaying the operations of the chunks that cover the old file from
   * `off` onwards writes their new chunks, one after the other, for a differ
   * whose every chunk replays.
   */
  lemma {:induction false} ChunksReplay(differ: (seq<byte>, seq<byte>) -> seq<DiffOp>, base: seq<byte>, pairs: seq<(seq<byte>, seq<byte>)>, off: nat, st: Patched)
    requires ReplaysChunks(differ)
    requires off <= |base| && Olds(pairs) == base[off..] && st.cursor <= off
    ensures AllNonNegative(AllOps(differ, pairs, off))
    ensures Replays(base, st, ApplyAll(base, st, AllOps(differ, pairs, off)), off, |base|, News(pairs))
    decreases |pairs|
  {
    if |pairs| == 0 {
      CopyLater(base, st, off, |base|, []);
    } else {
      FirstChunk(differ, pairs, base, off, st);
      ChunksReplay(differ, base, pairs[1..], off + |pairs[0].0|, ApplyAll(base, st, Shift(differ(pairs[0].0, pairs[0].1), off)));
      ChunksJoin(differ, pairs, base, off, st);
    }
  }

  /**
   * The diff file written with the corrected search patches the old file
   * into the new one, whatever the chunk size (a chunk size of 0 reads
   * nothing and writes no records).
   */
  lemma FixedRoundTrip(oldFile: seq<byte>, newFile: seq<byte>, oldHash: seq<byte>, size: int)
    requires size != 0 && |oldFile| + |newFile| < U64_LIMIT && |oldHash| == HASH_SIZE
    ensures !GenerateWith(FixedDiff, oldFile, newFile, oldHash, size).raised
    ensures PatchFile(oldFile, GenerateWith(FixedDiff, oldFile, newFile, oldHash, size).written) == Outcome(newFile, false)
  {
    FixedBounded();
    FixedCounted();
    GenerateDecodes(FixedDiff, oldFile, newFile, oldHash, size);
    var pairs := Pairs(oldFile, newFile, 0, 0, size);
    ChunksCover(oldFile, newFile, 0, 0, size);
    FixedReplaysChunks();
    ChunksReplay(FixedDiff, oldFile, pairs, 0, Start);
    var r := ApplyAll(oldFile, Start, AllOps(FixedDiff, pairs, 0));
    FinishReplays(oldFile, r, |oldFile|, News(pairs));
    assert newFile[0..] == newFile;
  }
}
