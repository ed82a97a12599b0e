/**
 * generate_diff_file over byte sequences: the old and the new file are read
 * in chunks of chunk_size bytes, side by side, until both reads come back
 * empty; each pair of chunks is diffed, its operations are moved from
 * chunk-relative to absolute positions in the old file, and their records
 * are appended after the magic string and the digest of the old file.
 */
module Generate {
  import opened Bytes
  import opened DiffOps
  import opened Codec
  import opened Path = FindPath
  import opened Myers
  import opened Patch

  /** generate_diff_file's default chunk size: 1 MiB. */
  const CHUNK_SIZE: int := 1024 * 1024

  /** An operation list moved by `offset`: every position plus offset, nothing else changed. */
  function Shift(ops: seq<DiffOp>, offset: int): (r: seq<DiffOp>)
    ensures |r| == |ops|
  {
    seq(|ops|, i requires 0 <= i < |ops| => ops[i].(position := ops[i].position + offset))
  }

  /** The generator's shift of one chunk's operations, done in place: each position grows by the offset. */
  method ShiftPositions(ops: array<DiffOp>, offset: int)
    modifies ops
    ensures ops[..] == Shift(old(ops[..]), offset)
  {
    for i := 0 to ops.Length
      invariant forall j :: 0 <= j < i ==> ops[j] == old(ops[j]).(position := old(ops[j]).position + offset)
      invariant forall j :: i <= j < ops.Length ==> ops[j] == old(ops[j])
    {
      ops[i] := ops[i].(position := ops[i].position + offset);
    }
  }

  lemma ShiftAppend(xs: seq<DiffOp>, ys: seq<DiffOp>, offset: int)
    ensures Shift(xs + ys, offset) == Shift(xs, offset) + Shift(ys, offset)
  {
  }

  /** Shifting by 0 changes nothing, and shifting twice is shifting once by the sum. */
  lemma ShiftZero(ops: seq<DiffOp>)
    ensures Shift(ops, 0) == ops
  {
  }

  lemma ShiftShift(ops: seq<DiffOp>, a: int, b: int)
    ensures Shift(Shift(ops, a), b) == Shift(ops, a + b)
  {
  }

  /** Shifting moves the window the positions lie in and keeps every edit count. */
  lemma ShiftWithin(ops: seq<DiffOp>, lo: int, hi: int, size: int, offset: int)
    requires Within(ops, lo, hi, size)
    ensures Within(Shift(ops, offset), lo + offset, hi + offset, size)
  {
    var r := Shift(ops, offset);
    forall i | 0 <= i < |r|
      ensures lo + offset <= r[i].position <= hi + offset && EsLen(r[i]) <= size
    {
      assert EsLen(r[i]) == EsLen(ops[i]);
    }
  }

  /** A read at a position inside a file stays inside it. */
  lemma ReadFits(s: seq<byte>, at: nat, n: int)
    requires at <= |s|
    ensures at + |Read(s, at, n)| <= |s|
    ensures n > 0 && at < |s| ==> |Read(s, at, n)| > 0
    ensures n < 0 ==> at + |Read(s, at, n)| == |s|
    ensures n > 0 ==> |Read(s, at, n)| == Upto(n, |s| - at)
    ensures n == 0 ==> Read(s, at, n) == []
    ensures Read(s, at, n) == s[at..at + |Read(s, at, n)|]
  {
  }

  /**
   * The chunk pairs the loop of generate_diff_file reads, in order, once
   * the old file is at posA and the new file at posB: the loop stops at the
   * first pair of empty reads.
   */
  function Pairs(oldFile: seq<byte>, newFile: seq<byte>, posA: nat, posB: nat, size: int): seq<(seq<byte>, seq<byte>)>
    requires posA <= |oldFile| && posB <= |newFile|
    decreases |oldFile| - posA + |newFile| - posB
  {
    var a := Read(oldFile, posA, size);
    var b := Read(newFile, posB, size);
    ReadFits(oldFile, posA, size);
    ReadFits(newFile, posB, size);
    if a == [] && b == [] then []
    else [(a, b)] + Pairs(oldFile, newFile, posA + |a|, posB + |b|, size)
  }

  /** One pass of the loop: the two reads, and what the loop reads after them. */
  lemma PairsStep(oldFile: seq<byte>, newFile: seq<byte>, posA: nat, posB: nat, size: int) returns (a: seq<byte>, b: seq<byte>)
    requires posA <= |oldFile| && posB <= |newFile|
    ensures a == Read(oldFile, posA, size) && b == Read(newFile, posB, size)
    ensures posA + |a| <= |oldFile| && posB + |b| <= |newFile|
    ensures size != 0 ==> (a == [] <==> posA == |oldFile|) && (b == [] <==> posB == |newFile|)
    ensures a == [] && b == [] ==> Pairs(oldFile, newFile, posA, posB, size) == []
    ensures a != [] || b != [] ==>
      |Pairs(oldFile, newFile, posA, posB, size)| == 1 + |Pairs(oldFile, newFile, posA + |a|, posB + |b|, size)|
      && Pairs(oldFile, newFile, posA, posB, size)[0] == (a, b)
      && Pairs(oldFile, newFile, posA, posB, size)[1..] == Pairs(oldFile, newFile, posA + |a|, posB + |b|, size)
  {
    a, b := Read(oldFile, posA, size), Read(newFile, posB, size);
    ReadFits(oldFile, posA, size);
    ReadFits(newFile, posB, size);
    if a != [] || b != [] {
      var rest := Pairs(oldFile, newFile, posA + |a|, posB + |b|, size);
      assert ([(a, b)] + rest)[1..] == rest;
    }
  }

  /** The old chunks of a list of pairs, joined. */
  function Olds(pairs: seq<(seq<byte>, seq<byte>)>): seq<byte>
  {
    if |pairs| == 0 then [] else pairs[0].0 + Olds(pairs[1..])
  }

  /** The new chunks of a list of pairs, joined. */
  function News(pairs: seq<(seq<byte>, seq<byte>)>): seq<byte>
  {
    if |pairs| == 0 then [] else pairs[0].1 + News(pairs[1..])
  }

  /**
   * The records written for the chunk pairs from the one whose old chunk
   * starts at abs_offset `offset`: each pair's operations shifted by the
   * length of the old chunks before it and encoded; struct.pack raising on
   * an operation ends the run before that pair's records are written.
   */
  function Body(differ: (seq<byte>, seq<byte>) -> seq<DiffOp>, pairs: seq<(seq<byte>, seq<byte>)>, offset: int): Outcome
  {
    if |pairs| == 0 then Outcome([], false)
    else
      var ops := Shift(differ(pairs[0].0, pairs[0].1), offset);
      if !AllPackable(ops) then Outcome([], true)
      else
        var rest := Body(differ, pairs[1..], offset + |pairs[0].0|);
        Outcome(Encode(ops) + rest.written, rest.raised)
  }

  /** One pair's records, or the raise that ends the run. */
  lemma BodyStep(differ: (seq<byte>, seq<byte>) -> seq<DiffOp>, pairs: seq<(seq<byte>, seq<byte>)>, a: seq<byte>, b: seq<byte>, offset: int, nextOffset: int)
    requires |pairs| > 0 && pairs[0] == (a, b) && nextOffset == offset + |a|
    ensures var ops := Shift(differ(a, b), offset);
      var rest := Body(differ, pairs[1..], nextOffset);
      Body(differ, pairs, offset) == if AllPackable(ops) then Outcome(Encode(ops) + rest.written, rest.raised) else Outcome([], true)
  {
  }

  lemma Regroup(x: seq<byte>, y: seq<byte>, z: seq<byte>)
    ensures x + (y + z) == (x + y) + z
  {
  }

  /** The operations of every pair, shifted to absolute positions and listed in file order. */
  function AllOps(differ: (seq<byte>, seq<byte>) -> seq<DiffOp>, pairs: seq<(seq<byte>, seq<byte>)>, offset: int): seq<DiffOp>
  {
    if |pairs| == 0 then []
    else Shift(differ(pairs[0].0, pairs[0].1), offset) + AllOps(differ, pairs[1..], offset + |pairs[0].0|)
  }

  /** The diff file written for the old and the new file with a given differ; the digest of the old file is an input. */
  function GenerateWith(differ: (seq<byte>, seq<byte>) -> seq<DiffOp>, oldFile: seq<byte>, newFile: seq<byte>, oldHash: seq<byte>, size: int): Outcome
  {
    var body := Body(differ, Pairs(oldFile, newFile, 0, 0, size), 0);
    Outcome(MAGIC_HEADER + oldHash + body.written, body.raised)
  }

  /** generate_diff_file as written: each pair is diffed by MyersLinear.diff. */
  function GenerateFile(oldFile: seq<byte>, newFile: seq<byte>, oldHash: seq<byte>, size: int): Outcome
  {
    GenerateWith(Path.Diff, oldFile, newFile, oldHash, size)
  }

  /** The body of the loop for one pair: diff, shift to absolute positions, encode. */
  method DiffChunk(chunkA: seq<byte>, chunkB: seq<byte>, absOffset: int) returns (encoded: EncodeResult)
    ensures encoded.Packed? <==> AllPackable(Shift(Path.Diff(chunkA, chunkB), absOffset))
    ensures encoded.Packed? ==> encoded.bytes == Encode(Shift(Path.Diff(chunkA, chunkB), absOffset))
  {
    var m := new MyersLinear(chunkA, chunkB);
    var ops := m.Diff();
    var shifted := new DiffOp[|ops|](i requires 0 <= i < |ops| => ops[i]);
    assert shifted[..] == ops;
    ShiftPositions(shifted, absOffset);
    encoded := EncodeOps(shifted[..]);
  }

  /** generate_diff_file: the loop over the chunk pairs, writing each pair's records as it goes. */
  method GenerateDiffFile(oldFile: seq<byte>, newFile: seq<byte>, oldHash: seq<byte>, chunkSize: int) returns (r: Outcome)
    ensures r == GenerateFile(oldFile, newFile, oldHash, chunkSize)
  {
    ghost var goal := GenerateFile(oldFile, newFile, oldHash, chunkSize);
    LoopStart(Path.Diff, oldFile, newFile, oldHash, chunkSize);
    var written := MAGIC_HEADER + oldHash;
    var posA: nat, posB: nat := 0, 0;
    var absOffset := 0;
    while true
      invariant posA <= |oldFile| && posB <= |newFile| && absOffset == posA
      invariant goal == Remainder(Path.Diff, oldFile, newFile, posA, posB, chunkSize, written)
      decreases |oldFile| - posA + |newFile| - posB
    {
      var chunkA := Read(oldFile, posA, chunkSize);
      var chunkB := Read(newFile, posB, chunkSize);
      if |chunkA| == 0 && |chunkB| == 0 {
        LoopStop(Path.Diff, oldFile, newFile, posA, posB, chunkSize, written);
        return Outcome(written, false);
      }
      var encoded := DiffChunk(chunkA, chunkB, absOffset);
      if encoded.StructError? {
        LoopRaise(Path.Diff, oldFile, newFile, posA, posB, chunkSize, written);
        return Outcome(written, true);
      }
      ghost var pA0, pB0, w0 := posA, posB, written;
      written, absOffset := written + encoded.bytes, absOffset + |chunkA|;
      posA, posB := posA + |chunkA|, posB + |chunkB|;
      LoopNext(Path.Diff, oldFile, newFile, pA0, pB0, chunkSize, w0, posA, posB, written);
    }
  }

  /** What the run writes from the pair read at posA and posB on, once `written` is out. */
  function Remainder(differ: (seq<byte>, seq<byte>) -> seq<DiffOp>, oldFile: seq<byte>, newFile: seq<byte>, posA: nat, posB: nat, size: int, written: seq<byte>): Outcome
    requires posA <= |oldFile| && posB <= |newFile|
  {
    var body := Body(differ, Pairs(oldFile, newFile, posA, posB, size), posA);
    Outcome(written + body.written, body.raised)
  }

  /** The loop stops at the first pair of empty reads, having written what it has. */
  lemma LoopStop(differ: (seq<byte>, seq<byte>) -> seq<DiffOp>, oldFile: seq<byte>, newFile: seq<byte>, posA: nat, posB: nat, size: int, written: seq<byte>)
    requires posA <= |oldFile| && posB <= |newFile|
    requires Read(oldFile, posA, size) == [] && Read(newFile, posB, size) == []
    ensures Remainder(differ, oldFile, newFile, posA, posB, size, written) == Outcome(written, false)
  {
    var a, b := PairsStep(oldFile, newFile, posA, posB, size);
  }

  /** struct.pack raising on a pair's operations ends the run with that pair's records unwritten. */
  lemma LoopRaise(differ: (seq<byte>, seq<byte>) -> seq<DiffOp>, oldFile: seq<byte>, newFile: seq<byte>, posA: nat, posB: nat, size: int, written: seq<byte>)
    requires posA <= |oldFile| && posB <= |newFile|
    requires Read(oldFile, posA, size) != [] || Read(newFile, posB, size) != []
    requires !AllPackable(Shift(differ(Read(oldFile, posA, size), Read(newFile, posB, size)), posA))
    ensures Remainder(differ, oldFile, newFile, posA, posB, size, written) == Outcome(written, true)
  {
    var a, b := PairsStep(oldFile, newFile, posA, posB, size);
    BodyStep(differ, Pairs(oldFile, newFile, posA, posB, size), a, b, posA, posA + |a|);
  }

  /**
   * Otherwise the pair's records are written and the loop goes on after the
   * two chunks, from the positions nextA and nextB with nextWritten out.
   */
  lemma LoopNext(differ: (seq<byte>, seq<byte>) -> seq<DiffOp>, oldFile: seq<byte>, newFile: seq<byte>, posA: nat, posB: nat, size: int, written: seq<byte>,
                 nextA: nat, nextB: nat, nextWritten: seq<byte>)
    requires posA <= |oldFile| && posB <= |newFile|
    requires Read(oldFile, posA, size) != [] || Read(newFile, posB, size) != []
    requires AllPackable(Shift(differ(Read(oldFile, posA, size), Read(newFile, posB, size)), posA))
    requires nextA == posA + |Read(oldFile, posA, size)| && nextB == posB + |Read(newFile, posB, size)|
    requires nextWritten == written + Encode(Shift(differ(Read(oldFile, posA, size), Read(newFile, posB, size)), posA))
    ensures nextA <= |oldFile| && nextB <= |newFile|
    ensures Remainder(differ, oldFile, newFile, posA, posB, size, written) == Remainder(differ, oldFile, newFile, nextA, nextB, size, nextWritten)
  {
    var a, b := PairsStep(oldFile, newFile, posA, posB, size);
    PairsAt(oldFile, newFile, posA + |a|, posB + |b|, nextA, nextB, size);
    BodyNext(differ, Pairs(oldFile, newFile, posA, posB, size), a, b, Pairs(oldFile, newFile, nextA, nextB, size), posA, nextA, written, nextWritten);
  }

  lemma PairsAt(oldFile: seq<byte>, newFile: seq<byte>, posA: nat, posB: nat, atA: nat, atB: nat, size: int)
    requires posA <= |oldFile| && posB <= |newFile| && atA == posA && atB == posB
    ensures Pairs(oldFile, newFile, posA, posB, size) == Pairs(oldFile, newFile, atA, atB, size)
  {
  }

  /** The records of the first pair (a, b), then those of the rest from nextOffset, nextWritten being out after the first pair. */
  lemma BodyNext(differ: (seq<byte>, seq<byte>) -> seq<DiffOp>, pairs: seq<(seq<byte>, seq<byte>)>, a: seq<byte>, b: seq<byte>, rest: seq<(seq<byte>, seq<byte>)>,
                 offset: int, nextOffset: int, written: seq<byte>, nextWritten: seq<byte>)
    requires |pairs| > 0 && pairs[0] == (a, b) && pairs[1..] == rest && nextOffset == offset + |a|
    requires AllPackable(Shift(differ(a, b), offset))
    requires nextWritten == written + Encode(Shift(differ(a, b), offset))
    ensures Outcome(written + Body(differ, pairs, offset).written, Body(differ, pairs, offset).raised)
      == Outcome(nextWritten + Body(differ, rest, nextOffset).written, Body(differ, rest, nextOffset).raised)
  {
    BodyStep(differ, pairs, a, b, offset, nextOffset);
    Regroup(written, Encode(Shift(differ(a, b), offset)), Body(differ, rest, nextOffset).written);
  }

  /** The loop starts with the magic string and the digest written and nothing read. */
  lemma LoopStart(differ: (seq<byte>, seq<byte>) -> seq<DiffOp>, oldFile: seq<byte>, newFile: seq<byte>, oldHash: seq<byte>, size: int)
    ensures GenerateWith(differ, oldFile, newFile, oldHash, size) == Remainder(differ, oldFile, newFile, 0, 0, size, MAGIC_HEADER + oldHash)
  {
  }

  function Max(a: int, b: int): int { if a >= b then a else b }

  /** With chunk_size >= 1, a read at min(p, |file|) ends at min(p + chunk_size, |file|). */
  lemma ReadStep(s: seq<byte>, p: nat, size: int)
    requires size >= 1
    ensures Upto(p, |s|) + |Read(s, Upto(p, |s|), size)| == Upto(p + size, |s|)
    ensures p < |s| ==> |Read(s, Upto(p, |s|), size)| > 0
  {
    ReadFits(s, Upto(p, |s|), size);
  }

  /** The number of passes of chunk_size bytes that cover len bytes. */
  function Passes(len: int, size: int): nat
    requires size >= 1
    decreases len
  {
    if len <= 0 then 0 else 1 + Passes(len - size, size)
  }

  /** Passes is the ceiling of len / chunk_size. */
  lemma {:induction false} PassesCeil(len: int, size: int)
    requires size >= 1
    ensures Passes(len, size) == 0 <==> len <= 0
    ensures Passes(len, size) > 0 ==> (Passes(len, size) - 1) * size < len <= Passes(len, size) * size
    decreases len
  {
    if len > 0 {
      PassesCeil(len - size, size);
      CountStep(Passes(len, size), Passes(len - size, size), size, 0, len);
    }
  }

  /**
   * With chunk_size >= 1, the loop makes one pass per chunk_size bytes of
   * the longer file from the pass that starts at p in both files (or at the
   * end of the shorter one).
   */
  lemma {:induction false} ChunkCountFrom(oldFile: seq<byte>, newFile: seq<byte>, p: nat, size: int)
    requires size >= 1
    ensures |Pairs(oldFile, newFile, Upto(p, |oldFile|), Upto(p, |newFile|), size)| == Passes(Max(|oldFile|, |newFile|) - p, size)
    decreases Max(|oldFile|, |newFile|) - p
  {
    if p < Max(|oldFile|, |newFile|) {
      ChunkCountFrom(oldFile, newFile, p + size, size);
      OneMorePass(oldFile, newFile, p, size);
      PassesStep(Max(|oldFile|, |newFile|) - p, size, Max(|oldFile|, |newFile|) - (p + size));
    } else {
      NoMorePass(oldFile, newFile, p, size);
    }
  }

  /** Before the end of the longer file, a pass reads something and the next one starts chunk_size further. */
  lemma OneMorePass(oldFile: seq<byte>, newFile: seq<byte>, p: nat, size: int)
    requires size >= 1 && p < Max(|oldFile|, |newFile|)
    ensures |Pairs(oldFile, newFile, Upto(p, |oldFile|), Upto(p, |newFile|), size)|
      == 1 + |Pairs(oldFile, newFile, Upto(p + size, |oldFile|), Upto(p + size, |newFile|), size)|
  {
    var posA, posB := Upto(p, |oldFile|), Upto(p, |newFile|);
    var a, b := PairsStep(oldFile, newFile, posA, posB, size);
    ReadStep(oldFile, p, size);
    ReadStep(newFile, p, size);
    PairsAt(oldFile, newFile, posA + |a|, posB + |b|, Upto(p + size, |oldFile|), Upto(p + size, |newFile|), size);
  }

  /** At or past the end of both files, the loop stops. */
  lemma NoMorePass(oldFile: seq<byte>, newFile: seq<byte>, p: nat, size: int)
    requires size >= 1 && p >= Max(|oldFile|, |newFile|)
    ensures |Pairs(oldFile, newFile, Upto(p, |oldFile|), Upto(p, |newFile|), size)| == 0
    ensures Passes(Max(|oldFile|, |newFile|) - p, size) == 0
  {
    var a, b := PairsStep(oldFile, newFile, Upto(p, |oldFile|), Upto(p, |newFile|), size);
  }

  lemma PassesStep(len: int, size: int, rest: int)
    requires size >= 1 && len > 0 && rest == len - size
    ensures Passes(len, size) == 1 + Passes(rest, size)
  {
  }

  /** The arithmetic of one more pass: n passes from p when m passes follow from p + chunk_size. */
  lemma CountStep(n: nat, m: nat, size: int, p: int, top: int)
    requires size >= 1 && p < top && n == m + 1
    requires m == 0 <==> p + size >= top
    requires m > 0 ==> (m - 1) * size < top - (p + size) <= m * size
    ensures (n - 1) * size < top - p <= n * size
  {
    assert n * size == m * size + size;
    if m > 0 {
      assert m * size == (m - 1) * size + size;
    }
  }

  /** The loop makes ceil(max(|old|, |new|) / chunk_size) passes that write records. */
  lemma ChunkCount(oldFile: seq<byte>, newFile: seq<byte>, size: int)
    requires size >= 1
    ensures var n := |Pairs(oldFile, newFile, 0, 0, size)|;
      (n == 0 <==> oldFile == [] && newFile == [])
      && (n > 0 ==> (n - 1) * size < Max(|oldFile|, |newFile|) <= n * size)
  {
    ChunkCountFrom(oldFile, newFile, 0, size);
    PassesCeil(Max(|oldFile|, |newFile|), size);
  }

  /**
   * The chunks cover both files: joined, the old chunks are the rest of the
   * old file and the new chunks the rest of the new file, unless
   * chunk_size is 0, when nothing is read.
   */
  lemma ChunksCover(oldFile: seq<byte>, newFile: seq<byte>, posA: nat, posB: nat, size: int)
    requires posA <= |oldFile| && posB <= |newFile|
    ensures size != 0 ==> Olds(Pairs(oldFile, newFile, posA, posB, size)) == oldFile[posA..]
    ensures size != 0 ==> News(Pairs(oldFile, newFile, posA, posB, size)) == newFile[posB..]
    ensures size == 0 ==> Pairs(oldFile, newFile, posA, posB, size) == []
  {
    if size != 0 {
      OldsCover(oldFile, newFile, posA, posB, size);
      NewsCover(oldFile, newFile, posA, posB, size);
    } else {
      var a, b := PairsStep(oldFile, newFile, posA, posB, size);
    }
  }

  lemma {:induction false} OldsCover(oldFile: seq<byte>, newFile: seq<byte>, posA: nat, posB: nat, size: int)
    requires posA <= |oldFile| && posB <= |newFile| && size != 0
    ensures Olds(Pairs(oldFile, newFile, posA, posB, size)) == oldFile[posA..]
    decreases |oldFile| - posA + |newFile| - posB
  {
    var a, b := PairsStep(oldFile, newFile, posA, posB, size);
    if a != [] || b != [] {
      OldsCover(oldFile, newFile, posA + |a|, posB + |b|, size);
      ReadFits(oldFile, posA, size);
      OldsJoin(Pairs(oldFile, newFile, posA, posB, size), a, b, Pairs(oldFile, newFile, posA + |a|, posB + |b|, size), oldFile, posA);
    }
  }

  lemma {:induction false} NewsCover(oldFile: seq<byte>, newFile: seq<byte>, posA: nat, posB: nat, size: int)
    requires posA <= |oldFile| && posB <= |newFile| && size != 0
    ensures News(Pairs(oldFile, newFile, posA, posB, size)) == newFile[posB..]
    decreases |oldFile| - posA + |newFile| - posB
  {
    var a, b := PairsStep(oldFile, newFile, posA, posB, size);
    if a != [] || b != [] {
      NewsCover(oldFile, newFile, posA + |a|, posB + |b|, size);
      ReadFits(newFile, posB, size);
      NewsJoin(Pairs(oldFile, newFile, posA, posB, size), a, b, Pairs(oldFile, newFile, posA + |a|, posB + |b|, size), newFile, posB);
    }
  }

  /** A first old chunk read at `at`, followed by old chunks covering the rest, covers the file from `at`. */
  lemma OldsJoin(pairs: seq<(seq<byte>, seq<byte>)>, a: seq<byte>, b: seq<byte>, rest: seq<(seq<byte>, seq<byte>)>, s: seq<byte>, at: nat)
    requires |pairs| > 0 && pairs[0] == (a, b) && pairs[1..] == rest
    requires at + |a| <= |s| && a == s[at..at + |a|] && Olds(rest) == s[at + |a|..]
    ensures Olds(pairs) == s[at..]
  {
    assert s[at..] == s[at..at + |a|] + s[at + |a|..];
  }

  /** The same for the new chunks. */
  lemma NewsJoin(pairs: seq<(seq<byte>, seq<byte>)>, a: seq<byte>, b: seq<byte>, rest: seq<(seq<byte>, seq<byte>)>, s: seq<byte>, at: nat)
    requires |pairs| > 0 && pairs[0] == (a, b) && pairs[1..] == rest
    requires at + |b| <= |s| && b == s[at..at + |b|] && News(rest) == s[at + |b|..]
    ensures News(pairs) == s[at..]
  {
    assert s[at..] == s[at..at + |b|] + s[at + |b|..];
  }

  /** The operations of a pair lie within its old chunk and count at most its two chunks' bytes. */
  ghost predicate Bounded(differ: (seq<byte>, seq<byte>) -> seq<DiffOp>)
  {
    forall a, b :: Within(differ(a, b), 0, |a|, |a| + |b|)
  }

  lemma DiffBounded()
    ensures Bounded(Path.Diff)
  {
    forall a: seq<byte>, b: seq<byte>
      ensures Within(Path.Diff(a, b), 0, |a|, |a| + |b|)
    {
      FindPathWithin(a, b, FullBox(a, b));
    }
  }

  lemma WithinPackable(ops: seq<DiffOp>, lo: int, hi: int, size: int)
    requires Within(ops, lo, hi, size) && 0 <= lo && hi < U64_LIMIT && size < U64_LIMIT
    requires forall i :: 0 <= i < |ops| ==> EsLen(ops[i]) >= 0
    ensures AllPackable(ops)
  {
    forall i | 0 <= i < |ops|
      ensures Packable(ops[i])
    {
      assert Length(ops[i]) == EsLen(ops[i]);
    }
  }

  /** The operations of a bounded differ never have a negative edit count. */
  lemma WithinCounts(ops: seq<DiffOp>, lo: int, hi: int, size: int)
    requires Within(ops, lo, hi, size)
    ensures forall i :: 0 <= i < |ops| ==> EsLen(ops[i]) >= 0 || ops[i].Delete?
  {
  }

  /** The operations of FindPath never delete a negative number of bytes. */
  ghost predicate Counted(differ: (seq<byte>, seq<byte>) -> seq<DiffOp>)
  {
    forall a, b :: forall i :: 0 <= i < |differ(a, b)| ==> EsLen(differ(a, b)[i]) >= 1
  }

  lemma DiffCounted()
    ensures Counted(Path.Diff)
  {
    forall a: seq<byte>, b: seq<byte>
      ensures forall i :: 0 <= i < |Path.Diff(a, b)| ==> EsLen(Path.Diff(a, b)[i]) >= 1
    {
      FindPathUnits(a, b, FullBox(a, b));
    }
  }

  /** One pair's operations, shifted, fit struct format Q when the pair lies below 2^64 bytes. */
  lemma ChunkPackable(differ: (seq<byte>, seq<byte>) -> seq<DiffOp>, a: seq<byte>, b: seq<byte>, offset: nat)
    requires Bounded(differ) && Counted(differ)
    requires offset + |a| + |b| < U64_LIMIT
    ensures AllPackable(Shift(differ(a, b), offset))
  {
    var ops := differ(a, b);
    assert Within(ops, 0, |a|, |a| + |b|);
    ShiftWithin(ops, 0, |a|, |a| + |b|, offset);
    var shifted := Shift(ops, offset);
    assert forall i :: 0 <= i < |shifted| ==> EsLen(shifted[i]) == EsLen(ops[i]) >= 1;
    WithinPackable(shifted, offset, offset + |a|, |a| + |b|);
  }

  /** The bytes of a list of chunk pairs, old and new chunks together. */
  function Total(pairs: seq<(seq<byte>, seq<byte>)>): nat
  {
    if |pairs| == 0 then 0 else |pairs[0].0| + |pairs[0].1| + Total(pairs[1..])
  }

  /** The chunks read from positions posA and posB hold every byte after them, and none when chunk_size is 0. */
  lemma {:induction false} PairsTotal(oldFile: seq<byte>, newFile: seq<byte>, posA: nat, posB: nat, size: int)
    requires posA <= |oldFile| && posB <= |newFile|
    ensures Total(Pairs(oldFile, newFile, posA, posB, size)) == if size == 0 then 0 else |oldFile| - posA + |newFile| - posB
    decreases |oldFile| - posA + |newFile| - posB
  {
    var a, b := PairsStep(oldFile, newFile, posA, posB, size);
    if a != [] || b != [] {
      PairsTotal(oldFile, newFile, posA + |a|, posB + |b|, size);
    }
  }

  /** Every operation fits struct format Q while the offset and all chunks together stay below 2^64 bytes. */
  lemma {:induction false} AllOpsPackable(differ: (seq<byte>, seq<byte>) -> seq<DiffOp>, pairs: seq<(seq<byte>, seq<byte>)>, offset: nat)
    requires Bounded(differ) && Counted(differ)
    requires offset + Total(pairs) < U64_LIMIT
    ensures AllPackable(AllOps(differ, pairs, offset))
    decreases |pairs|
  {
    if |pairs| > 0 {
      ChunkPackable(differ, pairs[0].0, pairs[0].1, offset);
      AllOpsPackable(differ, pairs[1..], offset + |pairs[0].0|);
      PackableJoin(Shift(differ(pairs[0].0, pairs[0].1), offset), AllOps(differ, pairs[1..], offset + |pairs[0].0|));
    }
  }

  lemma PackableJoin(xs: seq<DiffOp>, ys: seq<DiffOp>)
    requires AllPackable(xs) && AllPackable(ys)
    ensures AllPackable(xs + ys)
  {
  }

  lemma PackableSplit(xs: seq<DiffOp>, ys: seq<DiffOp>)
    requires AllPackable(xs + ys)
    ensures AllPackable(xs) && AllPackable(ys)
  {
    forall i | 0 <= i < |xs|
      ensures Packable(xs[i])
    {
      assert (xs + ys)[i] == xs[i];
    }
    forall i | 0 <= i < |ys|
      ensures Packable(ys[i])
    {
      assert (xs + ys)[|xs| + i] == ys[i];
    }
  }

  /** When every operation packs, nothing raises and the records written are those of all the pairs' shifted operations. */
  lemma {:induction false} BodyNoRaise(differ: (seq<byte>, seq<byte>) -> seq<DiffOp>, pairs: seq<(seq<byte>, seq<byte>)>, offset: int)
    requires AllPackable(AllOps(differ, pairs, offset))
    ensures !Body(differ, pairs, offset).raised
    ensures Body(differ, pairs, offset).written == Encode(AllOps(differ, pairs, offset))
    decreases |pairs|
  {
    if |pairs| > 0 {
      var ops := Shift(differ(pairs[0].0, pairs[0].1), offset);
      var restOps := AllOps(differ, pairs[1..], offset + |pairs[0].0|);
      PackableSplit(ops, restOps);
      BodyNoRaise(differ, pairs[1..], offset + |pairs[0].0|);
      EncodeAppend(ops, restOps);
    }
  }

  /**
   * With one-byte payloads for the unit insertions, no record of the
   * generator's output overflows a 64-bit field when the two files together
   * hold fewer than 2^64 bytes.
   */
  lemma GenerateNoRaise(oldFile: seq<byte>, newFile: seq<byte>, oldHash: seq<byte>, size: int)
    requires |oldFile| + |newFile| < U64_LIMIT
    ensures !GenerateFile(oldFile, newFile, oldHash, size).raised
  {
    DiffBounded();
    DiffCounted();
    PairsTotal(oldFile, newFile, 0, 0, size);
    AllOpsPackable(Path.Diff, Pairs(oldFile, newFile, 0, 0, size), 0);
    BodyNoRaise(Path.Diff, Pairs(oldFile, newFile, 0, 0, size), 0);
  }

  /**
   * What load_ops_from_file reads back from a generated diff file: every
   * chunk pair's operations, shifted to absolute positions, in order.
   */
  lemma GenerateDecodes(differ: (seq<byte>, seq<byte>) -> seq<DiffOp>, oldFile: seq<byte>, newFile: seq<byte>, oldHash: seq<byte>, size: int)
    requires Bounded(differ) && Counted(differ)
    requires |oldFile| + |newFile| < U64_LIMIT && |oldHash| == HASH_SIZE
    ensures var pairs := Pairs(oldFile, newFile, 0, 0, size);
      !GenerateWith(differ, oldFile, newFile, oldHash, size).raised && AllPackable(AllOps(differ, pairs, 0))
      && Decode(GenerateWith(differ, oldFile, newFile, oldHash, size).written) == Decoded(AllOps(differ, pairs, 0), false)
  {
    var pairs := Pairs(oldFile, newFile, 0, 0, size);
    PairsTotal(oldFile, newFile, 0, 0, size);
    AllOpsPackable(differ, pairs, 0);
    BodyNoRaise(differ, pairs, 0);
    assert MAGIC_HEADER + oldHash + Encode(AllOps(differ, pairs, 0)) == (MAGIC_HEADER + oldHash) + Encode(AllOps(differ, pairs, 0));
    RoundTrip(MAGIC_HEADER + oldHash, AllOps(differ, pairs, 0));
  }
}
