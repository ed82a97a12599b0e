/**
 * apply_patch_file and _copy_chunk over byte sequences. The old file is a
 * sequence with a read position; the patcher keeps a cursor that it moves
 * forward only, copies old bytes up to each operation's position, and copies
 * the rest of the old file after the last operation.
 */
module Patch {
  import opened Bytes
  import opened DiffOps
  import opened Codec

  /** _copy_chunk's default piece size: 1 MiB. */
  const COPY_CHUNK: nat := 1024 * 1024

  /**
   * What _copy_chunk(src, dst, amount) writes when src is at position `at`:
   * nothing for an amount that is not positive, otherwise the next `amount`
   * bytes or as many of them as the file still holds.
   */
  function Copied(src: seq<byte>, at: nat, amount: int): (data: seq<byte>)
    ensures |data| == if amount <= 0 || at >= |src| then 0 else Upto(amount, |src| - at)
    ensures at < |src| ==> data == src[at..at + |data|]
  {
    if amount <= 0 then [] else Read(src, at, amount)
  }

  /** The bytes written piece by piece, in order. */
  function Flatten(pieces: seq<seq<byte>>): seq<byte>
  {
    if |pieces| == 0 then [] else Flatten(pieces[..|pieces| - 1]) + pieces[|pieces| - 1]
  }

  lemma FlattenSnoc(pieces: seq<seq<byte>>, piece: seq<byte>)
    ensures Flatten(pieces + [piece]) == Flatten(pieces) + piece
  {
    assert (pieces + [piece])[..|pieces|] == pieces;
  }

  /**
   * _copy_chunk: reads at most COPY_CHUNK bytes at a time until `amount`
   * bytes are copied or a read comes back empty. Returns the pieces written,
   * in order, and the new position of src.
   */
  method CopyChunk(src: seq<byte>, at: nat, amount: int) returns (pieces: seq<seq<byte>>, at': nat)
    ensures Flatten(pieces) == Copied(src, at, amount)
    ensures at' == at + |Copied(src, at, amount)|
    ensures forall i :: 0 <= i < |pieces| ==> 1 <= |pieces[i]| <= COPY_CHUNK
  {
    var remaining := amount;
    pieces, at' := [], at;
    while remaining > 0
      invariant amount <= 0 ==> remaining == amount
      invariant amount > 0 ==> 0 <= remaining <= amount
      invariant at' == at + |Flatten(pieces)| && |Flatten(pieces)| == amount - remaining
      invariant |Flatten(pieces)| > 0 ==> at' <= |src| && Flatten(pieces) == src[at..at']
      invariant forall i :: 0 <= i < |pieces| ==> 1 <= |pieces[i]| <= COPY_CHUNK
      decreases remaining
    {
      var toRead := Upto(remaining, COPY_CHUNK);
      var data := Read(src, at', toRead);
      if |data| == 0 {
        CopyStopped(src, at, amount, at', Flatten(pieces));
        return;
      }
      CopyStep(src, at, at', Flatten(pieces), toRead, data);
      FlattenSnoc(pieces, data);
      pieces := pieces + [data];
      at' := at' + |data|;
      remaining := remaining - |data|;
    }
    CopyFilled(src, at, amount, at', Flatten(pieces));
  }

  /** A non-empty read continues the bytes copied so far. */
  lemma CopyStep(src: seq<byte>, at: nat, at': nat, done: seq<byte>, toRead: int, data: seq<byte>)
    requires at' == at + |done| && (|done| > 0 ==> at' <= |src| && done == src[at..at'])
    requires toRead > 0 && data == Read(src, at', toRead) && |data| > 0
    ensures 1 <= |data| <= toRead
    ensures at' + |data| <= |src| && done + data == src[at..at' + |data|]
  {
    if |done| > 0 {
      assert src[at..at'] + src[at'..at' + |data|] == src[at..at' + |data|];
    }
  }

  /** The loop of _copy_chunk ended on an empty read: everything up to the end of src is copied. */
  lemma CopyStopped(src: seq<byte>, at: nat, amount: int, at': nat, data: seq<byte>)
    requires amount > 0 && at' == at + |data| && |data| < amount && at' >= |src|
    requires |data| > 0 ==> at' <= |src| && data == src[at..at']
    ensures data == Copied(src, at, amount)
  {
  }

  /** The loop of _copy_chunk ended with nothing left to copy. */
  lemma CopyFilled(src: seq<byte>, at: nat, amount: int, at': nat, data: seq<byte>)
    requires at' == at + |data| && (amount <= 0 ==> data == []) && (amount > 0 ==> |data| == amount)
    requires |data| > 0 ==> at' <= |src| && data == src[at..at']
    ensures data == Copied(src, at, amount)
  {
  }

  /** The patcher's state: the cursor into the old file and the bytes written so far. */
  datatype Patched = Patched(cursor: nat, out: seq<byte>)

  const Start: Patched := Patched(0, [])

  /** A Delete whose length is not negative, as every decoded operation's is: the cursor never moves back. */
  predicate NonNegative(op: DiffOp)
  {
    op.Delete? ==> op.length >= 0
  }

  predicate AllNonNegative(ops: seq<DiffOp>)
  {
    forall i :: 0 <= i < |ops| ==> NonNegative(ops[i])
  }

  /**
   * One pass of the patch loop: copy the old bytes between the cursor and
   * the operation's position if the position is ahead (there is no rewind),
   * then write the payload of an Insert or a Change and skip the old bytes
   * a Delete or a Change replaces.
   */
  function ApplyOp(base: seq<byte>, st: Patched, op: DiffOp): (r: Patched)
    requires NonNegative(op)
    ensures st.cursor <= r.cursor && st.out <= r.out
    ensures op.position <= st.cursor ==> r.cursor == st.cursor + Skipped(op)
    ensures op.position > st.cursor ==> r.cursor == op.position + Skipped(op)
  {
    var at := if op.position > st.cursor then op.position else st.cursor;
    var copied := Copied(base, st.cursor, op.position - st.cursor);
    match op
    case Insert(_, payload) => Patched(at, st.out + copied + payload)
    case Delete(_, length) => Patched(at + length, st.out + copied)
    case Change(_, payload) => Patched(at + |payload|, st.out + copied + payload)
  }

  /** The old bytes an operation replaces: none for an Insert. */
  function Skipped(op: DiffOp): int
  {
    match op
    case Insert(_, _) => 0
    case Delete(_, length) => length
    case Change(_, payload) => |payload|
  }

  /** The patch loop over a list of operations, first to last. */
  function ApplyAll(base: seq<byte>, st: Patched, ops: seq<DiffOp>): (r: Patched)
    requires AllNonNegative(ops)
    ensures st.cursor <= r.cursor && st.out <= r.out
    decreases |ops|
  {
    if |ops| == 0 then st else ApplyAll(base, ApplyOp(base, st, ops[0]), ops[1..])
  }

  /** After the last operation: seek to the cursor and copy whatever the old file holds past it. */
  function Finish(base: seq<byte>, st: Patched): (out: seq<byte>)
    ensures st.cursor < |base| ==> out == st.out + base[st.cursor..]
    ensures st.cursor >= |base| ==> out == st.out
  {
    if |base| - st.cursor > 0 then st.out + Copied(base, st.cursor, |base| - st.cursor) else st.out
  }

  /** The new file that patching `base` with a list of operations writes. */
  function Replayed(base: seq<byte>, ops: seq<DiffOp>): seq<byte>
    requires AllNonNegative(ops)
  {
    Finish(base, ApplyAll(base, Start, ops))
  }

  /** The result of apply_patch_file: the bytes written, and whether reading the diff raised. */
  datatype Outcome = Outcome(written: seq<byte>, raised: bool)

  /** How the patch ends: with the final copy, or without it when reading the diff raised. */
  function Conclude(base: seq<byte>, st: Patched, raised: bool): Outcome
  {
    if raised then Outcome(st.out, true) else Outcome(Finish(base, st), false)
  }

  lemma PackableNonNegative(ops: seq<DiffOp>)
    requires AllPackable(ops)
    ensures AllNonNegative(ops)
  {
    assert forall i :: 0 <= i < |ops| ==> Packable(ops[i]) ==> NonNegative(ops[i]);
  }

  /** apply_patch_file: the operations the diff file decodes to, replayed over the old file. */
  function PatchFile(base: seq<byte>, diff: seq<byte>): Outcome
  {
    var d := Decode(diff);
    DecodedPackable(Remaining(diff, RECORDS_START));
    PackableNonNegative(d.ops);
    Conclude(base, ApplyAll(base, Start, d.ops), d.raised)
  }

  /**
   * The old file's read position and the cursor agree, except that once
   * the position is at or past the end of the old file the cursor may be
   * further on: a copy past the end reads nothing but the cursor still
   * advances by the full amount.
   */
  predicate Synced(base: seq<byte>, pos: nat, cursor: nat)
  {
    pos <= cursor && (pos < cursor ==> pos >= |base|)
  }

  lemma SyncedCopy(base: seq<byte>, pos: nat, cursor: nat, amount: int)
    requires Synced(base, pos, cursor)
    ensures Copied(base, pos, amount) == Copied(base, cursor, amount)
  {
  }

  /** The copy at the head of a pass of the patch loop: only when the operation's position is ahead of the cursor. */
  method CopyUpTo(base: seq<byte>, pos: nat, cursor: nat, out: seq<byte>, position: int) returns (pos': nat, cursor': nat, out': seq<byte>)
    requires Synced(base, pos, cursor)
    ensures Synced(base, pos', cursor')
    ensures cursor' == if position > cursor then position else cursor
    ensures out' == out + Copied(base, cursor, position - cursor)
  {
    pos', cursor', out' := pos, cursor, out;
    if position > cursor {
      var amount := position - cursor;
      SyncedCopy(base, pos, cursor, amount);
      var pieces, at := CopyChunk(base, pos, amount);
      out' := out + Flatten(pieces);
      pos' := at;
      cursor' := cursor + amount;
    }
  }

  /** A pass of the patch loop is the copy up to the operation, then the operation at the cursor. */
  lemma ApplyOpParts(base: seq<byte>, st: Patched, op: DiffOp, mid: Patched)
    requires NonNegative(op)
    requires mid.cursor == (if op.position > st.cursor then op.position else st.cursor)
    requires mid.out == st.out + Copied(base, st.cursor, op.position - st.cursor)
    ensures ApplyOp(base, st, op) == Patched(mid.cursor + Skipped(op), mid.out + Payload(op))
  {
  }

  /** One pass of the patch loop over the open files. */
  method ApplyOne(base: seq<byte>, pos: nat, cursor: nat, out: seq<byte>, op: DiffOp) returns (pos': nat, cursor': nat, out': seq<byte>)
    requires Synced(base, pos, cursor) && NonNegative(op)
    ensures Synced(base, pos', cursor')
    ensures Patched(cursor', out') == ApplyOp(base, Patched(cursor, out), op)
  {
    pos', cursor', out' := CopyUpTo(base, pos, cursor, out, op.position);
    ApplyOpParts(base, Patched(cursor, out), op, Patched(cursor', out'));
    match op
    case Insert(_, payload) =>
      out' := out' + payload;
    case Delete(_, length) =>
      pos' := pos' + length;
      cursor' := cursor' + length;
    case Change(_, payload) =>
      out' := out' + payload;
      pos' := pos' + |payload|;
      cursor' := cursor' + |payload|;
  }

  /** After the loop: seek to the cursor and copy the rest of the old file. */
  method FinishCopy(base: seq<byte>, cursor: nat, out: seq<byte>) returns (out': seq<byte>)
    ensures out' == Finish(base, Patched(cursor, out))
  {
    var total := |base|;
    var remainingBytes := total - cursor;
    out' := out;
    if remainingBytes > 0 {
      var pieces, _ := CopyChunk(base, cursor, remainingBytes);
      out' := out' + Flatten(pieces);
    }
  }

  /**
   * apply_patch_file: reads the diff file record by record and replays each
   * operation as it is read, so the output written before a malformed
   * record stays written when reading it raises.
   */
  method ApplyPatch(base: seq<byte>, diff: seq<byte>) returns (r: Outcome)
    ensures r == PatchFile(base, diff)
  {
    var stream := Remaining(diff, RECORDS_START);
    var pos: nat, cursor: nat, out: seq<byte> := 0, 0, [];
    ghost var todo := DecodeBytes(stream);
    DecodedPackable(stream);
    PackableNonNegative(todo.ops);
    while true
      invariant todo == DecodeBytes(stream) && AllNonNegative(todo.ops)
      invariant Synced(base, pos, cursor)
      invariant PatchFile(base, diff) == Conclude(base, ApplyAll(base, Patched(cursor, out), todo.ops), todo.raised)
      decreases |stream|
    {
      var t, stream' := NextRecord(stream);
      DecodeAfterTurn(stream, t);
      if t.End? {
        out := FinishCopy(base, cursor, out);
        return Outcome(out, false);
      }
      if t.Failure? {
        return Outcome(out, true);
      }
      ghost var after := DecodeBytes(stream');
      DecodedPackable(stream');
      PackableNonNegative(after.ops);
      if t.Yield? {
        assert todo.ops == [t.op] + after.ops;
        assert ([t.op] + after.ops)[1..] == after.ops;
        pos, cursor, out := ApplyOne(base, pos, cursor, out, t.op);
      }
      stream, todo := stream', after;
    }
  }

  /** An empty list of operations reproduces the old file. */
  lemma EmptyPatch(base: seq<byte>)
    ensures Replayed(base, []) == base
  {
    assert base[0..] == base;
  }

  /** A diff file holding no records patches the old file into itself. */
  lemma HeaderOnlyPatch(base: seq<byte>, diff: seq<byte>)
    requires |diff| <= RECORDS_START
    ensures PatchFile(base, diff) == Outcome(base, false)
  {
    EmptyPatch(base);
  }

  /** Replaying two lists one after the other is replaying their concatenation. */
  lemma {:induction false} ApplyAllAppend(base: seq<byte>, st: Patched, xs: seq<DiffOp>, ys: seq<DiffOp>)
    requires AllNonNegative(xs) && AllNonNegative(ys)
    ensures AllNonNegative(xs + ys)
    ensures ApplyAll(base, st, xs + ys) == ApplyAll(base, ApplyAll(base, st, xs), ys)
    decreases |xs|
  {
    assert forall i :: 0 <= i < |xs + ys| ==> (xs + ys)[i] == if i < |xs| then xs[i] else ys[i - |xs|];
    if |xs| > 0 {
      assert (xs + ys)[1..] == xs[1..] + ys;
      ApplyAllAppend(base, ApplyOp(base, st, xs[0]), xs[1..], ys);
    } else {
      assert xs + ys == ys;
    }
  }

  /** There is no rewind: an operation behind the cursor acts at the cursor. */
  lemma NoRewind(base: seq<byte>, st: Patched, op: DiffOp)
    requires NonNegative(op) && op.position <= st.cursor
    ensures ApplyOp(base, st, op) == ApplyOp(base, st, op.(position := st.cursor))
  {
  }

  /** A lone Insert at p <= |base| puts its payload before base byte p. */
  lemma InsertAlone(base: seq<byte>, p: nat, payload: seq<byte>)
    requires p <= |base|
    ensures Replayed(base, [Insert(p, payload)]) == base[..p] + payload + base[p..]
  {
    var st := ApplyOp(base, Start, Insert(p, payload));
    assert st == Patched(p, base[..p] + payload);
    assert [Insert(p, payload)][1..] == [];
    assert ApplyAll(base, Start, [Insert(p, payload)]) == ApplyAll(base, st, []) == st;
  }

  /** A lone Delete of n bytes at p drops exactly base[p..p + n]. */
  lemma DeleteAlone(base: seq<byte>, p: nat, n: nat)
    requires p + n <= |base|
    ensures Replayed(base, [Delete(p, n)]) == base[..p] + base[p + n..]
  {
    var st := ApplyOp(base, Start, Delete(p, n));
    assert st == Patched(p + n, base[..p]);
    assert [Delete(p, n)][1..] == [];
    assert ApplyAll(base, Start, [Delete(p, n)]) == ApplyAll(base, st, []) == st;
  }

  /** A lone Change at p overwrites |payload| old bytes from p. */
  lemma ChangeAlone(base: seq<byte>, p: nat, payload: seq<byte>)
    requires p + |payload| <= |base|
    ensures Replayed(base, [Change(p, payload)]) == base[..p] + payload + base[p + |payload|..]
  {
    var st := ApplyOp(base, Start, Change(p, payload));
    assert st == Patched(p + |payload|, base[..p] + payload);
    assert [Change(p, payload)][1..] == [];
    assert ApplyAll(base, Start, [Change(p, payload)]) == ApplyAll(base, st, []) == st;
  }
}
