# Binary diff and patch with the linear-space Myers algorithm

This project models the core of a small byte-level diff/patch tool.

- `diff.py` computes the difference between two byte strings A and B with the linear-space refinement of Myers' O(ND) algorithm.
  - `MyersLinear._midpoint` runs forward and backward searches over the edit graph of a box. It keeps two arrays of furthest-reaching positions and finds a middle snake.
  - `_find_path` splits the box at that snake and records `Insert`/`Delete` operations.
  - `diff` returns those operations.
  - `ses` returns the length of the shortest edit script: the sum of the operations' `es_len`.
- `binary_io.py` holds the `.diff` file format and the streaming tools around it.
  - A file is the 6-byte magic `MYDIFF`, a 32-byte hash of the old file, then one record per operation.
  - Each record is a 1-byte opcode, a big-endian 8-byte position, a big-endian 8-byte length, and a payload for `Insert` and `Change`.
  - `generate_diff_file` reads both files in chunks, diffs each pair of chunks, shifts the positions by the old file offset, and appends the encoded records.
  - `load_ops_from_file` decodes the records one at a time.
  - `apply_patch_file` replays them with a forward-only cursor over the old file. It copies the gaps with `_copy_chunk` and finally copies the rest of the old file.

The model is organised by module.

- **Bytes**: bytes, `Option`, and big-endian 64-bit fields, with both round trips.
- **EditDistance, EditScript**: the insert/delete edit distance `Dist`, and proof that it is the least cost of any edit script.
- **DiffOps**: the operations, `Box`, points and snakes.
- **Costs, Frontier, ForwardTheory, BackwardTheory, Crossing, MiddleSnake**: the forward and backward scans as functions over Python-style lists with negative indexing, their furthest-reaching invariants, and correctness of the middle snake.
- **Myers**: the class `MyersLinear`, with `vf`/`vb` as arrays and `diff_ops` as a field. Each method is proved against the functions above.
- **FindPath**: the recursion of `_find_path` as a function, with what its operations cost and where they lie.
- **Codec**: the encoder and the decoder of the record format.
- **Patch**: the chunked copy and the patcher.
- **Generate**: the chunked generator.
- **Counterexample, FixedPath**: the finding below, and the corrected operation order with its round-trip proof.

File contents are byte sequences. A file read is a slice of the sequence. A file written is the sequence of bytes produced. A Python exception from `struct.pack` or `struct.unpack` becomes a `raised` flag next to the bytes written so far.

## Model

| member | source | states |
|---|---|---|
| DiffOps.EsLen | diff.py:15-44 | The edit-script length of a `Delete` is its length; for `Insert` and `Change` it is the payload length. Its sum over a box's operations is their edit distance (`FindPath.FindPathCost`). |
| Myers.MyersLinear.constructor | diff.py:75-86 | The object holds A and B unchanged, and its operation list starts empty. |
| Myers.MyersLinear.Diff | diff.py:88-97 | The operations returned are the field's new value and equal `FindPath.Diff(A, B)`. The list is empty exactly when A equals B. Their summed `es_len` is the edit distance of A and B. |
| Myers.MyersLinear.Ses | diff.py:99-108 | The shortest edit script length returned equals the edit distance of A and B; the field holds the operations of `diff`. |
| Myers.MyersLinear.FindPath | diff.py:110-140 | The recursion appends exactly the operations `FindPath.FindPathOps` gives for the box to the field's old value. It terminates because the middle snake lies inside the box. |
| Myers.MyersLinear.Midpoint | diff.py:142-160 | The snake found equals the middle-snake function. None is returned exactly when the box has size 0. |
| Myers.MyersLinear.Rounds | diff.py:153-160 | The loop over rounds d = 0 .. ceil(size/2) returns the first forward or backward snake found, which is the middle-snake function's result. |
| Myers.MyersLinear.Forward | diff.py:162-183 | The array and the result after the forward scan of round d are those of `Frontier.ForwardScan` from the old array. |
| Myers.MyersLinear.Backward | diff.py:185-206 | The array and the result after the backward scan of round d are those of `Frontier.BackwardScan` from the old array. |
| Myers.MyersLinear.ForwardMove | diff.py:166-173 | The choice between a step down from diagonal k+1 and a step right from k-1 gives the entry and previous point of `Frontier.FwdMove`. |
| Myers.MyersLinear.BackwardMove | diff.py:189-196 | The choice between a step left from diagonal c+1 and a step up from c-1 gives the entry and previous point of `Frontier.BwdMove`. |
| Myers.MyersLinear.SlideForward | diff.py:175-176 | The slide along equal bytes stops where `Frontier.SlideFwd` stops. |
| Myers.MyersLinear.SlideBackward | diff.py:198-199 | The slide back along equal bytes stops where `Frontier.SlideBwd` stops. |
| Myers.MyersLinear.ForwardCrosses | diff.py:180-181 | The overlap test holds exactly when delta is odd, c lies in -(d-1)..d-1 and y reaches the backward entry of diagonal c. |
| Myers.MyersLinear.BackwardCrosses | diff.py:203-204 | The overlap test holds exactly when delta is even, k lies in -d..d and x reaches back to the forward entry of diagonal k. |
| Frontier.SlideFwdMatch | diff.py:175-176 | The bytes slid over forward are equal in A and B. |
| Frontier.SlideBwdMatch | diff.py:198-199 | The bytes slid over backward are equal in A and B. |
| Crossing.ForwardScanCorrect | diff.py:162-183 | A forward snake returned lies in the box, has at most one non-diagonal step, comes first, and lies on a shortest path. Otherwise the new array is the furthest-reaching forward front for d edits. |
| Crossing.BackwardScanCorrect | diff.py:185-206 | A backward snake returned lies in the box, ends with its one non-diagonal step, and lies on a shortest path. Otherwise the new array is the furthest-reaching backward front for d edits. |
| MiddleSnake.MidpointCorrect | diff.py:142-206 | The middle snake is None exactly for an empty box. Otherwise it is inside the box, lies on a shortest path and has at most one non-diagonal step: first when delta is odd, last when it is even. |
| FindPath.FindPathCost | diff.py:110-140 | The operations of a box sum, in `es_len`, to the edit distance of the box's slices of A and B. |
| FindPath.FindPathUnits | diff.py:117-137 | Every operation of a box has `es_len` at least 1. |
| FindPath.FindPathWithin | diff.py:110-140 | Every operation of a box sits at a position between its left and right column and has `es_len` at most the box's size. |
| FindPath.SesIsDist | diff.py:99-108 | `ses` equals the edit distance of A and B. |
| FindPath.SesIsShortest | diff.py:99-108 | Some edit script of single-byte keeps, insertions and deletions costs exactly `ses`, and no edit script costs less. |
| FindPath.DiffEmpty | diff.py:88-108 | The diff is empty exactly when A equals B, and so is `ses` equal to 0. |
| FindPath.SesBounds | diff.py:99-108 | `ses` lies between the length difference and the length sum, and has the parity of the length sum. |
| FindPath.SesSymmetric | diff.py:99-108 | `ses` of A against B equals `ses` of B against A. |
| Bytes.BigEndianRoundTrip | binary_io.py:61 | A number below 256^width written in big-endian order over width bytes reads back as that number. |
| Bytes.FromBigEndianRoundTrip | binary_io.py:125 | Any byte string read as a big-endian number and written back over its own width is unchanged. |
| Codec.HeaderRoundTrip | binary_io.py:61 | A 17-byte `!BQQ` header of a code and two 64-bit fields unpacks to the same three values. |
| Codec.EncodeOps | binary_io.py:29-67 | Encoding succeeds exactly when every operation's position and length fit in 64 bits, and then yields the concatenated records. Otherwise it stops at the first operation that does not fit, as `struct.pack` raises there. |
| Codec.EncodeSize | binary_io.py:43-67 | The encoding takes 17 bytes per operation plus each `Insert`/`Change` payload. |
| Codec.EncodeAppend | binary_io.py:43-67 | Encoding two lists one after the other gives the encoding of their concatenation. |
| Codec.Decode | binary_io.py:108-134 | A file no longer than the magic and the hash decodes to no operations and raises nothing. |
| Codec.NextRecord | binary_io.py:121-134 | One read of the decoder gives the decoding step of the remaining bytes and consumes exactly the bytes it used. |
| Codec.LoadOps | binary_io.py:108-134 | The loop over the records yields the operations of `Codec.Decode` and raises exactly when it does. |
| Codec.RoundTrip | binary_io.py:108-134 | Decoding any 38-byte preamble followed by the encoding of packable operations gives back those operations without raising. |
| Codec.PartialHeaderRaises | binary_io.py:122-125 | A trailing record header of 1 to 16 bytes makes `struct.unpack` raise after the complete records were yielded. |
| Codec.ShortPayloadKept | binary_io.py:127-134 | A payload cut short by the end of the file is yielded with the bytes that are there. |
| Codec.UnknownHeaderSkipped | binary_io.py:125-134 | A record with an unknown opcode is skipped by its 17 header bytes only. |
| Codec.UnknownOpcodeSkipped | binary_io.py:121-134 | Operations before and after a record with an unknown opcode are all decoded. |
| Patch.Copied | binary_io.py:181-189 | The bytes copied are the next min(amount, rest of file) bytes of the source, or none when the amount is not positive or the source is exhausted. |
| Patch.CopyChunk | binary_io.py:181-189 | The pieces written are at most 1 MiB each and together are exactly the `Patch.Copied` bytes, and the read position advances by their count. |
| Patch.CopyUpTo | binary_io.py:154-157 | The gap up to an operation's position is copied and the cursor moves to that position. A position at or behind the cursor copies nothing. |
| Patch.ApplyOp | binary_io.py:153-169 | The cursor never moves back and the output only grows. The cursor ends at the operation's position, or the old cursor if that is further, plus the bytes the operation skips. |
| Patch.ApplyOne | binary_io.py:153-169 | One iteration of the patch loop has the effect of `Patch.ApplyOp` and keeps the file position equal to the cursor while it is inside the file. |
| Patch.NoRewind | binary_io.py:154-157 | An operation at or behind the cursor acts as if it were placed at the cursor. |
| Patch.InsertAlone | binary_io.py:159-160 | A single `Insert` at p yields the old bytes before p, the payload, then the old bytes from p. |
| Patch.DeleteAlone | binary_io.py:162-164 | A single `Delete` of n bytes at p yields the old bytes without those n bytes. |
| Patch.ChangeAlone | binary_io.py:166-169 | A single `Change` at p overwrites the payload's length of the old bytes with the payload. |
| Patch.ApplyAllAppend | binary_io.py:153-169 | Replaying two lists one after the other equals replaying their concatenation. |
| Patch.Finish | binary_io.py:171-178 | After the operations, the old file from the cursor to its end is appended, or nothing if the cursor is past the end. |
| Patch.FinishCopy | binary_io.py:171-178 | The final copy writes exactly what `Patch.Finish` gives. |
| Patch.ApplyPatch | binary_io.py:136-178 | The patcher writes the bytes of `Patch.PatchFile` and raises exactly when it does. |
| Patch.EmptyPatch | binary_io.py:171-178 | With no operations the old file is reproduced. |
| Patch.HeaderOnlyPatch | binary_io.py:146-178 | A diff file holding only the magic and the hash, or less, reproduces the old file without raising. |
| Generate.Shift | binary_io.py:99-100 | Shifting positions keeps the number of operations. |
| Generate.ShiftPositions | binary_io.py:99-100 | The in-place shift leaves each operation with its position plus the offset. |
| Generate.DiffChunk | binary_io.py:98-103 | One chunk's bytes are the encoding of its shifted diff, exactly when that diff is packable. |
| Generate.GenerateDiffFile | binary_io.py:69-105 | The chunk loop writes the magic, the hash and then each chunk's records, the bytes of `Generate.GenerateFile`. |
| Generate.ChunkCount | binary_io.py:91-96 | There are no chunks exactly when both files are empty. Otherwise there are ceil(max(len old, len new) / chunk size) of them. |
| Generate.ChunksCover | binary_io.py:91-105 | The old chunks join into the old file and the new chunks into the new file. A chunk size of 0 gives no chunks. |
| Generate.GenerateNoRaise | binary_io.py:98-103 | For files whose combined length is below 2^64, no `struct.pack` call raises. |
| Generate.GenerateDecodes | binary_io.py:69-134 | For any differ whose operations lie in their chunk, the written file decodes to all chunks' shifted operations in order, without raising. |
| Counterexample.AbBaReplay | diff.py:129-140 | As written, the diff of "ab" against "ba" is [Delete(0,1), Insert(0,"b")], and replaying it gives "bb", not "ba". |
| Counterexample.AbBaPatchFile | binary_io.py:136-178 | As written, generating a diff file for "ab" → "ba" and patching "ab" with it writes "bb". |
| FixedPath.FixedSes | diff.py:99-108 | The corrected operations still sum, in `es_len`, to the edit distance. |
| FixedPath.FixedBounded | diff.py:110-140 | The corrected operations of each chunk lie within that chunk and are bounded by its sizes. |
| FixedPath.FixedDiffReplays | diff.py:129-140 | The corrected operations have no negative fields, and replaying them on A gives B. |
| FixedPath.FixedRoundTrip | binary_io.py:69-178 | With the corrected diff, patching the old file with the generated diff file writes exactly the new file. This holds for any non-zero chunk size and files below 2^64 bytes together, and nothing raises. |
| Counterexample.AbBaFixed | diff.py:129-140 | The corrected diff of "ab" against "ba" is [Insert(0,"b"), Delete(1,1)], and it replays to "ba". |

## Left out

- `compute_file_hash` (SHA-256): the digest is an input of the generator. Hashing is not part of this model.
- File I/O, `open`, `seek` and `tell` are modelled on byte sequences and indices. Python's laziness in `load_ops_from_file` is modelled as a loop over the remaining bytes.
- `main.py`, `facade.py`, `utils.py` and `tests.py` are command-line and helper code not part of this model. So is the `__main__` demo at the end of `diff.py`.
- `diff.py` line 135 appends `Insert(start[0], self.B[start[1]])`. Its payload is an `int`, not `bytes`. The model uses the one-byte payload `[B[start[1]]]` instead.
  - As written, whenever the middle snake of a non-degenerate box steps down, `es_len` raises `TypeError` at `diff.py` line 24. So `ses()` raises on that input.
  - In the same case, `encode_ops` raises `TypeError` at `binary_io.py` line 49, so `generate_diff_file` stops after the 38-byte preamble.
  - An example is b"a" against b"ab": the forward scan of round 1 returns the snake from (1,1) to (1,2), so `diff()` is `[Insert(1, 98)]`.
  - Myers.MyersLinear.Ses, Generate.DiffChunk, Generate.GenerateDiffFile and Generate.GenerateNoRaise describe the program with the one-byte payload. They do not model this `TypeError`; the other `Generate` lemmas and `FixedPath.FixedRoundTrip` likewise take one-byte payloads.
- `Change` is never produced by the differ. It is modelled in the codec and the patcher, as the source handles it there.
- Python raises `TypeError` when comparing `None` with an integer. The model does not need to model this: `Frontier.FwdMoveReads` and `Frontier.BwdMoveReads` prove the entries read are always set. See also `Frontier.FwdFireReads` and `Frontier.BwdFireReads`.
- The chunk size of `_copy_chunk` is fixed at its default of 1 MiB. A copy that reaches the end of the old file stops, as `if not data: break` does.
- The generator's input is taken as the whole file contents. Reading `chunk_size` bytes is a slice. A negative `chunk_size` is modelled as Python's `read(-1)`, which reads to the end.
- Python's 64-bit limits on file offsets and read sizes are not modelled. Positions, lengths and cursors are unbounded integers, and only the 64-bit range of `struct.pack`/`struct.unpack` is modelled as `raised`.
  - `f.read(length)` at `binary_io.py` lines 128 and 133 raises `OverflowError` when a record's length field is 2^63 or more. The model's `Codec.DecodeTurn` instead yields the payload bytes that are there, as for any short payload (`Codec.ShortPayloadKept`), and `Patch.PatchFile` goes on without raising.
  - `f_old.seek(op.length, 1)` at line 163 and `f_old.seek(cursor)` at line 173 raise once the offset passes 2^63 - 1. `Patch.ApplyOp` and `Patch.Finish` use an unbounded cursor instead.
  - `math.ceil(box.size / 2)` at `diff.py` line 146 divides in floating point, which is exact only below 2^53. The model's `Frontier.Half` is exact integer division for every size.
- Generate.GenerateFile: it uses the as-written diff, so the only property proved about its written bytes is that they decode (`Generate.GenerateDecodes`). A patch round trip is proved only for the corrected differ (`FixedPath.FixedRoundTrip`), because the as-written one fails it, as shown under Findings.

## Findings

| source | as written | input that shows it | evidently intended | confidence | as-written member | corrected member |
|---|---|---|---|---|---|---|
| diff.py:129-140 | The single non-diagonal step of the middle snake is appended before the operations of the box before the snake. A backward snake's step is also placed at the snake's start, although its step comes last. The patcher's cursor never moves back, so it applies the operations in list order only. | A = "ab", B = "ba": the diff is [Delete(0,1), Insert(0,"b")], and patching "ab" with it gives "bb". | The operations in path order: the before box, then the step at the snake's start for a forward snake or at its finish for a backward one, then the after box. The patch of every pair of files then reproduces the new file. | not executed | Counterexample.AbBaReplay | FixedPath.FixedRoundTrip |
