/**
 * The diff-record format. Each operation is written as a 17-byte header
 * (an opcode byte, then the position and the length as big-endian unsigned
 * 64-bit integers) followed by its payload; a diff file is a 6-byte magic
 * string, a 32-byte digest of the old file, and then the records.
 */
module Codec {
  import opened Bytes
  import opened DiffOps

  /** "MYDIFF" in ASCII. */
  const MAGIC_HEADER: seq<byte> := [0x4D, 0x59, 0x44, 0x49, 0x46, 0x46]
  const HASH_SIZE: nat := 32
  const OP_INSERT: byte := 0x01
  const OP_DELETE: byte := 0x02
  const OP_CHANGE: byte := 0x03
  /** Opcode, position and length: 1 + 8 + 8 bytes. */
  const HEADER_SIZE: nat := 17
  /** The decoder starts reading records after the magic string and the digest. */
  const RECORDS_START: nat := 38

  function Code(op: DiffOp): byte
  {
    match op
    case Insert(_, _) => OP_INSERT
    case Delete(_, _) => OP_DELETE
    case Change(_, _) => OP_CHANGE
  }

  /** The length field: the payload's length, or the deleted length for a Delete. */
  function Length(op: DiffOp): int
  {
    if op.Delete? then op.length else |op.payload|
  }

  /** The bytes written after the header: none for a Delete. */
  function Payload(op: DiffOp): seq<byte>
  {
    if op.Delete? then [] else op.payload
  }

  /** Struct format "!BQQ" accepts the operation: position and length fit in 64 unsigned bits. */
  predicate Packable(op: DiffOp)
  {
    IsU64(op.position) && IsU64(Length(op))
  }

  predicate AllPackable(ops: seq<DiffOp>)
  {
    forall i :: 0 <= i < |ops| ==> Packable(ops[i])
  }

  /** struct.pack("!BQQ", code, position, length). */
  function Header(code: byte, position: nat, length: nat): (h: seq<byte>)
    requires position < U64_LIMIT && length < U64_LIMIT
  {
    [code] + BigEndian(position, 8) + BigEndian(length, 8)
  }

  /** One operation's record: its header, then its payload. */
  function Record(op: DiffOp): seq<byte>
    requires Packable(op)
  {
    Header(Code(op), op.position, Length(op)) + Payload(op)
  }

  /** The concatenation of f over a list, left to right. */
  function ConcatMap<T>(f: T --> seq<byte>, xs: seq<T>): seq<byte>
    requires forall i :: 0 <= i < |xs| ==> f.requires(xs[i])
  {
    if |xs| == 0 then [] else ConcatMap(f, xs[..|xs| - 1]) + f(xs[|xs| - 1])
  }

  lemma ConcatMapSnoc<T>(f: T --> seq<byte>, xs: seq<T>, x: T)
    requires forall i :: 0 <= i < |xs| ==> f.requires(xs[i])
    requires f.requires(x)
    ensures forall i :: 0 <= i < |xs + [x]| ==> f.requires((xs + [x])[i])
    ensures ConcatMap(f, xs + [x]) == ConcatMap(f, xs) + f(x)
  {
    assert (xs + [x])[..|xs|] == xs;
  }

  lemma {:induction false} ConcatMapAppend<T>(f: T --> seq<byte>, xs: seq<T>, ys: seq<T>)
    requires forall i :: 0 <= i < |xs| ==> f.requires(xs[i])
    requires forall i :: 0 <= i < |ys| ==> f.requires(ys[i])
    ensures forall i :: 0 <= i < |xs + ys| ==> f.requires((xs + ys)[i])
    ensures ConcatMap(f, xs + ys) == ConcatMap(f, xs) + ConcatMap(f, ys)
    decreases |ys|
  {
    assert forall i :: 0 <= i < |xs + ys| ==> (xs + ys)[i] == if i < |xs| then xs[i] else ys[i - |xs|];
    if |ys| == 0 {
      assert xs + ys == xs;
    } else {
      var ys', y := ys[..|ys| - 1], ys[|ys| - 1];
      assert (xs + ys)[..|xs + ys| - 1] == xs + ys';
      ConcatMapAppend(f, xs, ys');
    }
  }

  lemma ConcatMapCons<T>(f: T --> seq<byte>, x: T, xs: seq<T>)
    requires f.requires(x)
    requires forall i :: 0 <= i < |xs| ==> f.requires(xs[i])
    ensures forall i :: 0 <= i < |[x] + xs| ==> f.requires(([x] + xs)[i])
    ensures ConcatMap(f, [x] + xs) == f(x) + ConcatMap(f, xs)
  {
    ConcatMapSnoc(f, [], x);
    assert [] + [x] == [x];
    ConcatMapAppend(f, [x], xs);
  }

  /** The records of a list of operations, in list order. */
  function Encode(ops: seq<DiffOp>): seq<byte>
    requires AllPackable(ops)
  {
    ConcatMap(Record, ops)
  }

  /** The number of bytes a record takes. */
  function RecordSize(op: DiffOp): nat
  {
    HEADER_SIZE + |Payload(op)|
  }

  function EncodedSize(ops: seq<DiffOp>): nat
  {
    if |ops| == 0 then 0 else EncodedSize(ops[..|ops| - 1]) + RecordSize(ops[|ops| - 1])
  }

  /** encode_ops either returns the bytes, or raises struct.error on the first operation that does not pack. */
  datatype EncodeResult = Packed(bytes: seq<byte>) | StructError(at: nat)

  /** encode_ops: the records of the operations, or the index of the first one struct.pack refuses. */
  method EncodeOps(operations: seq<DiffOp>) returns (r: EncodeResult)
    ensures r.Packed? <==> AllPackable(operations)
    ensures r.Packed? ==> r.bytes == Encode(operations)
    ensures r.StructError? ==> r.at < |operations| && AllPackable(operations[..r.at]) && !Packable(operations[r.at])
  {
    var buffer: seq<byte> := [];
    for i := 0 to |operations|
      invariant AllPackable(operations[..i])
      invariant buffer == Encode(operations[..i])
    {
      var op := operations[i];
      var code: byte, payload: seq<byte>, length: int;
      if op.Insert? {
        code, payload, length := OP_INSERT, op.payload, |op.payload|;
      } else if op.Delete? {
        code, payload, length := OP_DELETE, [], op.length;
      } else {
        code, payload, length := OP_CHANGE, op.payload, |op.payload|;
      }
      if !IsU64(op.position) || !IsU64(length) {
        return StructError(i);
      }
      RecordOf(op, code, length, payload);
      EncodeStep(operations, i);
      var header := Header(code, op.position, length);
      ghost var before := buffer;
      buffer := buffer + header;
      if payload != [] {
        buffer := buffer + payload;
      }
      AppendAssoc(before, header, payload);
    }
    assert operations[..|operations|] == operations;
    return Packed(buffer);
  }

  /** The record of an operation, from the fields encode_ops picks for it. */
  lemma RecordOf(op: DiffOp, code: byte, length: int, payload: seq<byte>)
    requires code == Code(op) && length == Length(op) && payload == Payload(op)
    requires IsU64(op.position) && IsU64(length)
    ensures Packable(op) && Record(op) == Header(code, op.position, length) + payload
  {
  }

  lemma AppendAssoc<T>(a: seq<T>, b: seq<T>, c: seq<T>)
    ensures (a + b) + c == a + (b + c)
    ensures a + b + [] == a + b
  {
  }

  /** One more packable operation appends its record to the encoding of those before it. */
  lemma EncodeStep(ops: seq<DiffOp>, i: nat)
    requires i < |ops| && AllPackable(ops[..i]) && Packable(ops[i])
    ensures AllPackable(ops[..i + 1])
    ensures Encode(ops[..i + 1]) == Encode(ops[..i]) + Record(ops[i])
  {
    assert ops[..i + 1] == ops[..i] + [ops[i]];
    ConcatMapSnoc(Record, ops[..i], ops[i]);
  }

  /** The encoding is Σ(17 + payload length) bytes long. */
  lemma {:induction false} EncodeSize(ops: seq<DiffOp>)
    requires AllPackable(ops)
    ensures |Encode(ops)| == EncodedSize(ops)
  {
    if |ops| > 0 {
      EncodeSize(ops[..|ops| - 1]);
    }
  }

  /** Encoding an operation in front of a list puts its record in front. */
  lemma EncodeCons(op: DiffOp, ops: seq<DiffOp>)
    requires Packable(op) && AllPackable(ops)
    ensures AllPackable([op] + ops)
    ensures Encode([op] + ops) == Record(op) + Encode(ops)
  {
    ConcatMapCons(Record, op, ops);
  }

  /** Encoding a concatenation is concatenating the encodings. */
  lemma EncodeAppend(xs: seq<DiffOp>, ys: seq<DiffOp>)
    requires AllPackable(xs) && AllPackable(ys)
    ensures AllPackable(xs + ys)
    ensures Encode(xs + ys) == Encode(xs) + Encode(ys)
  {
    ConcatMapAppend(Record, xs, ys);
  }

  /** The result of reading a diff file: the operations yielded, and whether the read ended by raising. */
  datatype Decoded = Decoded(ops: seq<DiffOp>, raised: bool)

  function Prepend(op: DiffOp, d: Decoded): Decoded
  {
    Decoded([op] + d.ops, d.raised)
  }

  /** The fields struct.unpack("!BQQ", ...) reads from a 17-byte header. */
  datatype Fields = Fields(code: byte, position: nat, length: nat)

  function Unpack(h: seq<byte>): (f: Fields)
    requires |h| == HEADER_SIZE
    ensures f.position < U64_LIMIT && f.length < U64_LIMIT
  {
    FromBigEndianBound(h[1..9], 8);
    FromBigEndianBound(h[9..17], 8);
    U64Limit();
    Fields(h[0], FromBigEndian(h[1..9]), FromBigEndian(h[9..17]))
  }

  /** One turn of the decoder's loop: what it yields and how many bytes it consumes. */
  datatype Turn = End | Failure | Skip(used: nat) | Yield(op: DiffOp, used: nat)

  /**
   * One turn over the bytes that remain in the file: a 17-byte read that
   * comes back empty ends the loop, a shorter non-empty read makes
   * struct.unpack raise, an Insert or Change reads up to `length` payload
   * bytes, and an unknown opcode yields nothing.
   */
  function DecodeTurn(rest: seq<byte>): (t: Turn)
    ensures t.Skip? ==> t.used == HEADER_SIZE <= |rest|
    ensures t.Yield? ==> HEADER_SIZE <= t.used <= |rest| && Packable(t.op)
  {
    if |rest| == 0 then End
    else if |rest| < HEADER_SIZE then Failure
    else
      var f := Unpack(rest[..HEADER_SIZE]);
      var body := rest[HEADER_SIZE..];
      if f.code == OP_INSERT then
        var payload := Read(body, 0, f.length);
        Yield(Insert(f.position, payload), HEADER_SIZE + |payload|)
      else if f.code == OP_DELETE then
        Yield(Delete(f.position, f.length), HEADER_SIZE)
      else if f.code == OP_CHANGE then
        var payload := Read(body, 0, f.length);
        Yield(Change(f.position, payload), HEADER_SIZE + |payload|)
      else
        Skip(HEADER_SIZE)
  }

  /** The decoder run over the bytes that remain in the file. */
  function DecodeBytes(rest: seq<byte>): Decoded
    decreases |rest|
  {
    match DecodeTurn(rest)
    case End => Decoded([], false)
    case Failure => Decoded([], true)
    case Skip(used) => DecodeBytes(rest[used..])
    case Yield(op, used) => Prepend(op, DecodeBytes(rest[used..]))
  }

  /** What is left to read once the file position is at `at`: nothing past the end. */
  function Remaining(file: seq<byte>, at: nat): seq<byte>
  {
    if at >= |file| then [] else file[at..]
  }

  /** load_ops_from_file: seek past the magic string and the digest (which are not checked), then decode. */
  function Decode(file: seq<byte>): (d: Decoded)
    ensures |file| <= RECORDS_START ==> d == Decoded([], false)
  {
    DecodeBytes(Remaining(file, RECORDS_START))
  }

  /** Every operation the decoder yields fits the record format again. */
  lemma {:induction false} DecodedPackable(rest: seq<byte>)
    ensures AllPackable(DecodeBytes(rest).ops)
    decreases |rest|
  {
    match DecodeTurn(rest)
    case End =>
    case Failure =>
    case Skip(used) => DecodedPackable(rest[used..]);
    case Yield(op, used) =>
      DecodedPackable(rest[used..]);
      var ops := DecodeBytes(rest[used..]).ops;
      assert forall i :: 0 < i < |[op] + ops| ==> ([op] + ops)[i] == ops[i - 1];
  }

  /**
   * One pass of the generator's loop: read a header from the open file,
   * then the payload it announces. The file is modelled by the bytes from
   * its position to its end; a read takes bytes from the front.
   */
  method NextRecord(stream: seq<byte>) returns (t: Turn, stream': seq<byte>)
    ensures t == DecodeTurn(stream)
    ensures t.Skip? || t.Yield? ==> stream' == stream[t.used..]
  {
    var chunk := Read(stream, 0, HEADER_SIZE);
    stream' := stream[|chunk|..];
    if |chunk| == 0 {
      return End, stream';
    }
    if |chunk| < HEADER_SIZE {
      return Failure, stream';
    }
    var fields := Unpack(chunk);
    if fields.code == OP_INSERT {
      var payload := Read(stream', 0, fields.length);
      stream' := stream'[|payload|..];
      t := Yield(Insert(fields.position, payload), HEADER_SIZE + |payload|);
    } else if fields.code == OP_DELETE {
      t := Yield(Delete(fields.position, fields.length), HEADER_SIZE);
    } else if fields.code == OP_CHANGE {
      var payload := Read(stream', 0, fields.length);
      stream' := stream'[|payload|..];
      t := Yield(Change(fields.position, payload), HEADER_SIZE + |payload|);
    } else {
      t := Skip(HEADER_SIZE);
    }
  }

  /** What the decoder reads after one turn over the bytes that remain. */
  lemma DecodeAfterTurn(rest: seq<byte>, t: Turn)
    requires t == DecodeTurn(rest)
    ensures t.End? || t.Failure? ==> DecodeBytes(rest) == Decoded([], t.Failure?)
    ensures t.Skip? ==> DecodeBytes(rest) == DecodeBytes(rest[t.used..])
    ensures t.Yield? ==> DecodeBytes(rest) == Prepend(t.op, DecodeBytes(rest[t.used..]))
    ensures t.Skip? || t.Yield? ==> 0 < t.used <= |rest|
  {
  }

  /** The generator of load_ops_from_file, run to its end: seek past the first 38 bytes, then read records. */
  method LoadOps(file: seq<byte>) returns (d: Decoded)
    ensures d == Decode(file)
  {
    var stream := Remaining(file, RECORDS_START);
    var ops: seq<DiffOp> := [];
    ghost var todo := DecodeBytes(stream);
    ghost var goal := todo;
    assert ops + todo.ops == todo.ops;
    while true
      invariant todo == DecodeBytes(stream)
      invariant goal == Decoded(ops + todo.ops, todo.raised)
      decreases |stream|
    {
      var t, stream' := NextRecord(stream);
      DecodeAfterTurn(stream, t);
      if t.End? || t.Failure? {
        assert ops + [] == ops;
        return Decoded(ops, t.Failure?);
      }
      ghost var after := DecodeBytes(stream');
      ops := Consume(ops, t, todo, after);
      stream, todo := stream', after;
    }
  }

  /** The operations gathered so far after a turn that goes on: the yielded operation, if any, is appended. */
  method Consume(ops: seq<DiffOp>, t: Turn, ghost todo: Decoded, ghost after: Decoded) returns (ops': seq<DiffOp>)
    requires t.Skip? ==> todo == after
    requires t.Yield? ==> todo == Prepend(t.op, after)
    ensures ops' == if t.Yield? then ops + [t.op] else ops
    ensures t.Skip? || t.Yield? ==> Decoded(ops + todo.ops, todo.raised) == Decoded(ops' + after.ops, after.raised)
  {
    if t.Yield? {
      ops' := ops + [t.op];
    } else {
      ops' := ops;
    }
  }

  lemma U64Limit()
    ensures Pow256(8) == U64_LIMIT
  {
    assert Pow256(4) == 0x1_0000_0000;
  }

  /** A header unpacks to the opcode, position and length it was packed from. */
  lemma HeaderRoundTrip(code: byte, position: nat, length: nat)
    requires position < U64_LIMIT && length < U64_LIMIT
    ensures |Header(code, position, length)| == HEADER_SIZE
    ensures Unpack(Header(code, position, length)) == Fields(code, position, length)
  {
    var h := Header(code, position, length);
    U64Limit();
    assert h[1..9] == BigEndian(position, 8);
    assert h[9..17] == BigEndian(length, 8);
    BigEndianRoundTrip(position, 8);
    BigEndianRoundTrip(length, 8);
  }

  /** A turn over bytes that start with a header reads that header's fields and what follows it. */
  lemma TurnAtHeader(h: seq<byte>, body: seq<byte>, f: Fields)
    requires |h| == HEADER_SIZE && Unpack(h) == f
    ensures var rest := h + body; rest[..HEADER_SIZE] == h && rest[HEADER_SIZE..] == body
  {
  }

  /** Over a record and what follows, one turn yields the record's operation and consumes the record. */
  lemma TurnAtRecord(op: DiffOp, rest: seq<byte>)
    requires Packable(op)
    ensures DecodeTurn(Record(op) + rest) == Yield(op, |Record(op)|)
  {
    var h := Header(Code(op), op.position, Length(op));
    HeaderRoundTrip(Code(op), op.position, Length(op));
    assert Record(op) + rest == h + (Payload(op) + rest);
    TurnAtHeader(h, Payload(op) + rest, Fields(Code(op), op.position, Length(op)));
    assert Read(Payload(op) + rest, 0, |Payload(op)|) == Payload(op);
  }

  /** Before any bytes, a record decodes to its operation followed by what those bytes decode to. */
  lemma DecodeRecord(op: DiffOp, rest: seq<byte>)
    requires Packable(op)
    ensures DecodeBytes(Record(op) + rest) == Prepend(op, DecodeBytes(rest))
  {
    TurnAtRecord(op, rest);
    assert (Record(op) + rest)[|Record(op)|..] == rest;
  }

  /** Before any bytes, the records of ops decode to ops followed by what those bytes decode to. */
  lemma {:induction false} DecodeRecords(ops: seq<DiffOp>, rest: seq<byte>)
    requires AllPackable(ops)
    ensures DecodeBytes(Encode(ops) + rest).ops == ops + DecodeBytes(rest).ops
    ensures DecodeBytes(Encode(ops) + rest).raised == DecodeBytes(rest).raised
    decreases |ops|
  {
    if |ops| == 0 {
      assert Encode(ops) + rest == rest;
      assert ops + DecodeBytes(rest).ops == DecodeBytes(rest).ops;
    } else {
      var op, tail := ops[0], ops[1..];
      assert [op] + tail == ops;
      EncodeCons(op, tail);
      assert Encode(ops) + rest == Record(op) + (Encode(tail) + rest);
      DecodeRecord(op, Encode(tail) + rest);
      DecodeRecords(tail, rest);
      ConsAssoc(op, tail, DecodeBytes(rest).ops, ops);
    }
  }

  lemma ConsAssoc<T>(x: T, xs: seq<T>, ys: seq<T>, zs: seq<T>)
    requires zs == [x] + xs
    ensures [x] + (xs + ys) == zs + ys
  {
  }

  /** Behind 38 bytes of anything, what the decoder reads is what follows them. */
  lemma AfterHeader(header: seq<byte>, records: seq<byte>)
    requires |header| == RECORDS_START
    ensures Decode(header + records) == DecodeBytes(records)
  {
    if |records| > 0 {
      assert (header + records)[RECORDS_START..] == records;
    }
  }

  /** The records of ops, alone, decode to ops without raising. */
  lemma RecordsAlone(ops: seq<DiffOp>)
    requires AllPackable(ops)
    ensures DecodeBytes(Encode(ops)) == Decoded(ops, false)
  {
    DecodeRecords(ops, []);
    assert Encode(ops) + [] == Encode(ops);
    assert ops + [] == ops;
  }

  /** Decoding what encode_ops wrote, behind any 38 bytes, gives back the operations. */
  lemma RoundTrip(header: seq<byte>, ops: seq<DiffOp>)
    requires |header| == RECORDS_START && AllPackable(ops)
    ensures Decode(header + Encode(ops)) == Decoded(ops, false)
  {
    AfterHeader(header, Encode(ops));
    RecordsAlone(ops);
  }

  /** The magic string and the digest are skipped, never checked: any 38 bytes in front decode alike. */
  lemma HeaderIgnored(h1: seq<byte>, h2: seq<byte>, records: seq<byte>)
    requires |h1| == RECORDS_START && |h2| == RECORDS_START
    ensures Decode(h1 + records) == Decode(h2 + records)
  {
    AfterHeader(h1, records);
    AfterHeader(h2, records);
  }

  /** Records followed by 1 to 16 stray bytes: the operations are yielded, then struct.unpack raises. */
  lemma PartialHeaderRaises(header: seq<byte>, ops: seq<DiffOp>, tail: seq<byte>)
    requires |header| == RECORDS_START && AllPackable(ops) && 0 < |tail| < HEADER_SIZE
    ensures Decode(header + Encode(ops) + tail) == Decoded(ops, true)
  {
    assert header + Encode(ops) + tail == header + (Encode(ops) + tail);
    AfterHeader(header, Encode(ops) + tail);
    DecodeRecords(ops, tail);
    assert DecodeTurn(tail) == Failure;
    assert ops + [] == ops;
  }

  /** An Insert or Change record cut short yields its operation with the payload bytes that remain. */
  lemma ShortPayloadKept(header: seq<byte>, ops: seq<DiffOp>, op: DiffOp, cut: seq<byte>)
    requires |header| == RECORDS_START && AllPackable(ops) && Packable(op) && !op.Delete?
    requires |cut| < |op.payload|
    ensures Decode(header + Encode(ops) + Header(Code(op), op.position, Length(op)) + cut)
         == Decoded(ops + [op.(payload := cut)], false)
  {
    var h := Header(Code(op), op.position, Length(op));
    HeaderRoundTrip(Code(op), op.position, Length(op));
    var last := h + cut;
    assert header + Encode(ops) + h + cut == header + (Encode(ops) + last);
    AfterHeader(header, Encode(ops) + last);
    DecodeRecords(ops, last);
    TurnAtHeader(h, cut, Fields(Code(op), op.position, Length(op)));
    assert Read(cut, 0, |op.payload|) == cut;
    assert DecodeTurn(last) == Yield(op.(payload := cut), |last|);
    assert last[|last|..] == [];
  }

  /** A header with an unknown opcode is skipped: the decoder goes on right after its 17 bytes. */
  lemma UnknownHeaderSkipped(code: byte, position: nat, length: nat, rest: seq<byte>)
    requires code != OP_INSERT && code != OP_DELETE && code != OP_CHANGE
    requires position < U64_LIMIT && length < U64_LIMIT
    ensures DecodeBytes(Header(code, position, length) + rest) == DecodeBytes(rest)
  {
    var h := Header(code, position, length);
    HeaderRoundTrip(code, position, length);
    TurnAtHeader(h, rest, Fields(code, position, length));
    assert DecodeTurn(h + rest) == Skip(HEADER_SIZE);
  }

  /** A record with an unknown opcode yields nothing and only its 17 header bytes are skipped. */
  lemma UnknownOpcodeSkipped(header: seq<byte>, xs: seq<DiffOp>, code: byte, position: nat, length: nat, ys: seq<DiffOp>)
    requires |header| == RECORDS_START && AllPackable(xs) && AllPackable(ys)
    requires code != OP_INSERT && code != OP_DELETE && code != OP_CHANGE
    requires position < U64_LIMIT && length < U64_LIMIT
    ensures Decode(header + Encode(xs) + Header(code, position, length) + Encode(ys)) == Decoded(xs + ys, false)
  {
    var h, e := Header(code, position, length), Encode(ys);
    Assoc4(header, Encode(xs), h, e);
    AfterHeader(header, Encode(xs) + (h + e));
    UnknownHeaderSkipped(code, position, length, e);
    RecordsAlone(ys);
    DecodeRecords(xs, h + e);
  }

  lemma Assoc4<T>(a: seq<T>, b: seq<T>, c: seq<T>, d: seq<T>)
    ensures a + b + c + d == a + (b + (c + d))
  {
  }
}
