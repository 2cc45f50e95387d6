/** Mapping a segment file in the native engine (runtime/engines/native/src/engine.c:336-454): every
    field of the header and the index is checked before a tensor is exposed. */
module SegmentReader {
  import opened Bytes
  import opened SegmentLayout
  import opened Wrappers

  /** What the manifest says about the segment, and how many tensors the model still has room for. */
  datatype Descriptor = Descriptor(isLayer: bool, layer: I32, tensorCount: nat, tensorBytes: nat, room: nat)

  /** Block elements and bytes of a tensor type; None for an unsupported type. */
  type TypeTable = U32 -> Option<(nat, nat)>

  /** A tensor as the engine exposes it: the fields of its record and its bytes in the file. */
  datatype Mapped = Mapped(
    name: ByteString, kind: nat, rank: nat, layer: int, dims: seq<nat>, data: ByteString, blockElements: nat, blockBytes: nat
  )

  // --- Reading numbers -----------------------------------------------------------------------------

  function Number(file: ByteString, at: nat, width: nat): nat
    requires at + width <= |file|
  {
    ReadLittle(file[at..at + width])
  }

  function Signed(value: nat): int {
    if value < 0x8000_0000 then value else value - 0x1_0000_0000
  }

  /** range_fits. */
  predicate Fits(offset: nat, length: nat, size: nat) {
    offset <= size && length <= size - offset
  }

  /** The numbers of an index record at a position. */
  datatype Row = Row(
    kind: nat, rank: nat, layer: int, flags: nat, dims: seq<nat>, offset: nat, length: nat,
    nameLength: nat, blockElements: nat, blockBytes: nat, reserved: nat
  )

  function RowAt(file: ByteString, at: nat): (r: Row)
    requires at + RECORD_SIZE <= |file|
    ensures |r.dims| == 4
  {
    Row(Number(file, at, 4), Number(file, at + 4, 4), Signed(Number(file, at + 8, 4)), Number(file, at + 12, 4),
        [Number(file, at + 16, 8), Number(file, at + 24, 8), Number(file, at + 32, 8), Number(file, at + 40, 8)],
        Number(file, at + 48, 8), Number(file, at + 56, 8),
        Number(file, at + 64, 4), Number(file, at + 68, 4), Number(file, at + 72, 4), Number(file, at + 76, 4))
  }

  // --- The checks on a record -----------------------------------------------------------------------

  predicate ShapeOk(rank: nat, dims: seq<nat>)
    requires |dims| == 4
  {
    && dims[0] != 0 && dims[1] != 0 && dims[2] != 0 && dims[3] != 0
    && (1 >= rank ==> dims[1] == 1) && (2 >= rank ==> dims[2] == 1) && (3 >= rank ==> dims[3] == 1)
    && dims[1] < LIMIT && dims[1] * dims[2] < LIMIT && dims[1] * dims[2] * dims[3] < LIMIT
  }

  /** Bytes of the tensor by its shape; None when rows are not whole blocks or a product overflows. */
  function StorageSize(dims: seq<nat>, blockElements: nat, blockBytes: nat): Option<nat>
    requires |dims| == 4 && blockElements > 0
  {
    if dims[0] % blockElements != 0 then None
    else
      var rowBytes := dims[0] / blockElements * blockBytes;
      var total := rowBytes * (dims[1] * dims[2] * dims[3]);
      if rowBytes >= LIMIT || total >= LIMIT then None else Some(total)
  }

  /** What depends on the numbers of the record alone. */
  predicate SelfConsistent(table: TypeTable, d: Descriptor, row: Row)
    requires |row.dims| == 4
  {
    && row.kind < 0x1_0000_0000 && table(row.kind) == Some((row.blockElements, row.blockBytes))
    && row.flags == 0 && row.reserved == 0
    && 1 <= row.rank <= 4
    && 1 <= row.nameLength <= 1024
    && row.blockElements != 0 && row.blockBytes != 0
    && row.layer == (if d.isLayer then d.layer else -1)
    && ShapeOk(row.rank, row.dims)
    && StorageSize(row.dims, row.blockElements, row.blockBytes) == Some(row.length)
  }

  /** What depends on the place of the record and of its data in the file. */
  predicate WellPlaced(row: Row, cursor: nat, indexEnd: nat, previousEnd: nat, fileSize: nat) {
    && Fits(cursor + RECORD_SIZE, row.nameLength, indexEnd)
    && row.offset % ALIGNMENT == 0 && row.offset >= previousEnd
    && Fits(row.offset, row.length, fileSize)
  }

  function Expose(file: ByteString, row: Row, cursor: nat): Mapped
    requires cursor + RECORD_SIZE + row.nameLength <= |file| && row.offset + row.length <= |file|
  {
    Mapped(file[cursor + RECORD_SIZE..cursor + RECORD_SIZE + row.nameLength], row.kind, row.rank, row.layer, row.dims,
           file[row.offset..row.offset + row.length], row.blockElements, row.blockBytes)
  }

  /** The record at the cursor passes every check. */
  predicate Acceptable(table: TypeTable, d: Descriptor, file: ByteString, cursor: nat, indexEnd: nat, previousEnd: nat, room: nat)
    requires indexEnd <= |file|
  {
    && Fits(cursor, RECORD_SIZE, indexEnd)
    && WellPlaced(RowAt(file, cursor), cursor, indexEnd, previousEnd, |file|)
    && room > 0
    && SelfConsistent(table, d, RowAt(file, cursor))
  }

  function After(row: Row, cursor: nat): nat {
    RoundUp(cursor + RECORD_SIZE + row.nameLength, 8)
  }

  /** The remaining records from a cursor, if all pass and end exactly at the end of the index. */
  function Records(table: TypeTable, d: Descriptor, file: ByteString, cursor: nat, indexEnd: nat, previousEnd: nat, bytes: nat, left: nat, room: nat)
    : Option<seq<Mapped>>
    requires indexEnd <= |file|
    decreases left
  {
    if left == 0 then if cursor == indexEnd && bytes == d.tensorBytes then Some([]) else None
    else if !Acceptable(table, d, file, cursor, indexEnd, previousEnd, room) then None
    else
      var row := RowAt(file, cursor);
      match Records(table, d, file, After(row, cursor), indexEnd, row.offset + row.length, bytes + row.length, left - 1, room - 1)
      case None => None
      case Some(rest) => Some([Expose(file, row, cursor)] + rest)
  }

  /** Header checks. */
  predicate HeaderOk(d: Descriptor, file: ByteString) {
    && |file| >= HEADER_SIZE
    && file[..8] == MAGIC
    && Number(file, 8, 4) == VERSION
    && (forall k :: 32 <= k < HEADER_SIZE ==> file[k] == 0)
    && Number(file, 12, 4) == d.tensorCount
    && Number(file, 24, 8) == d.tensorBytes
    && Fits(HEADER_SIZE, Number(file, 16, 8), |file|)
    && RoundUp(HEADER_SIZE + Number(file, 16, 8), ALIGNMENT) <= |file|
  }

  function MapSegment(table: TypeTable, d: Descriptor, file: ByteString): Option<seq<Mapped>> {
    if !HeaderOk(d, file) then None
    else
      var indexEnd := HEADER_SIZE + Number(file, 16, 8);
      Records(table, d, file, HEADER_SIZE, indexEnd, RoundUp(indexEnd, ALIGNMENT), 0, d.tensorCount, d.room)
  }

  // --- What any mapped file exposes ------------------------------------------------------------------

  /** The exposed bytes lie in the file at these offsets: aligned, from a position on, one behind the other. */
  ghost predicate Placed(file: ByteString, mapped: seq<Mapped>, starts: seq<nat>, from: nat) {
    && |starts| == |mapped|
    && (forall i :: 0 <= i < |mapped| ==> starts[i] % ALIGNMENT == 0 && from <= starts[i] && Located(file, mapped[i], starts[i]))
    && (forall i, j :: 0 <= i < j < |mapped| ==> starts[i] + |mapped[i].data| <= starts[j])
  }

  ghost predicate Located(file: ByteString, m: Mapped, start: nat) {
    start + |m.data| <= |file| && file[start..start + |m.data|] == m.data
  }

  /** A tensor has as many bytes as its shape says, and belongs to the layer of the segment. */
  ghost predicate Whole(d: Descriptor, m: Mapped) {
    && |m.dims| == 4 && m.blockElements > 0 && ShapeOk(m.rank, m.dims) && 1 <= |m.name| <= 1024
    && StorageSize(m.dims, m.blockElements, m.blockBytes) == Some(|m.data|)
    && m.layer == if d.isLayer then d.layer else -1
  }

  function Exposed(mapped: seq<Mapped>): nat {
    if mapped == [] then 0 else |mapped[0].data| + Exposed(mapped[1..])
  }

  lemma FirstExposed(table: TypeTable, d: Descriptor, file: ByteString, cursor: nat, indexEnd: nat, previousEnd: nat, room: nat)
    requires indexEnd <= |file| && Acceptable(table, d, file, cursor, indexEnd, previousEnd, room)
    ensures var row := RowAt(file, cursor);
            && cursor + RECORD_SIZE + row.nameLength <= |file| && row.offset + row.length <= |file|
            && row.offset % ALIGNMENT == 0 && previousEnd <= row.offset
            && |Expose(file, row, cursor).data| == row.length
            && Located(file, Expose(file, row, cursor), row.offset) && Whole(d, Expose(file, row, cursor))
  {
    hide RowAt, ShapeOk, StorageSize;
  }

  lemma PlacedFirst(file: ByteString, first: Mapped, start: nat, rest: seq<Mapped>, starts: seq<nat>, from: nat)
    requires Located(file, first, start) && start % ALIGNMENT == 0 && from <= start
    requires Placed(file, rest, starts, start + |first.data|)
    ensures Placed(file, [first] + rest, [start] + starts, from)
  {
    hide Located;
  }

  lemma {:induction false} RecordsPlaced(table: TypeTable, d: Descriptor, file: ByteString, cursor: nat, indexEnd: nat, previousEnd: nat, bytes: nat, left: nat, room: nat)
    returns (starts: seq<nat>)
    requires indexEnd <= |file| && Records(table, d, file, cursor, indexEnd, previousEnd, bytes, left, room).Some?
    ensures var mapped := Records(table, d, file, cursor, indexEnd, previousEnd, bytes, left, room).value;
            && |mapped| == left && Placed(file, mapped, starts, previousEnd)
            && bytes + Exposed(mapped) == d.tensorBytes && forall i :: 0 <= i < left ==> Whole(d, mapped[i])
    decreases left
  {
    hide RowAt, Acceptable, Placed, Located, Whole;
    if left == 0 {
      starts := [];
      NothingPlaced(file, previousEnd);
    } else {
      AcceptedFits(table, d, file, cursor, indexEnd, previousEnd, room);
      var row := RowAt(file, cursor);
      FirstExposed(table, d, file, cursor, indexEnd, previousEnd, room);
      var first := Expose(file, row, cursor);
      var behind := RecordsPlaced(table, d, file, After(row, cursor), indexEnd, row.offset + row.length, bytes + row.length, left - 1, room - 1);
      var rest := Records(table, d, file, After(row, cursor), indexEnd, row.offset + row.length, bytes + row.length, left - 1, room - 1).value;
      PlacedFirst(file, first, row.offset, rest, behind, previousEnd);
      starts := [row.offset] + behind;
      assert ([first] + rest)[1..] == rest;
    }
  }

  lemma NothingPlaced(file: ByteString, from: nat)
    ensures Placed(file, [], [], from)
  {
  }

  /** Whoever made the file: if it maps, the tensors are aligned, pairwise disjoint ranges behind the index,
      inside the file, each as long as its shape says and together exactly the bytes of the descriptor. */
  lemma MappedDisjoint(table: TypeTable, d: Descriptor, file: ByteString) returns (starts: seq<nat>)
    requires MapSegment(table, d, file).Some?
    ensures var mapped := MapSegment(table, d, file).value;
            && |mapped| == d.tensorCount && Placed(file, mapped, starts, HEADER_SIZE + Number(file, 16, 8))
            && Exposed(mapped) == d.tensorBytes && forall i :: 0 <= i < |mapped| ==> Whole(d, mapped[i])
  {
    hide Number, Records, RoundUp, Whole, Located;
    var indexEnd := HEADER_SIZE + Number(file, 16, 8);
    RoundUpFacts(indexEnd, ALIGNMENT);
    starts := RecordsPlaced(table, d, file, HEADER_SIZE, indexEnd, RoundUp(indexEnd, ALIGNMENT), 0, d.tensorCount, d.room);
  }

  // --- What the writer wrote --------------------------------------------------------------------------

  /** The record of a tensor as numbers. */
  function RowOf(t: Tensor, offset: nat): (r: Row)
    ensures |r.dims| == 4
  {
    Row(t.kind, t.rank, t.layer, 0, [t.dim0, t.dim1, t.dim2, t.dim3], offset, t.size, |t.name|, t.blockElements, t.blockBytes, 0)
  }

  lemma FieldReads(record: ByteString, fields: seq<Field>, k: nat, at: nat, width: nat, value: nat)
    requires k < |fields| && Width(fields[..k]) == at && fields[k] == Field(value, width) && value < Pow256(width)
    requires |Emit(fields)| <= |record| && record[..|Emit(fields)|] == Emit(fields)
    ensures at + width <= |record| && Number(record, at, width) == value
  {
    hide Emit, Width, LittleEndian, ReadLittle;
    FieldAt(fields, k);
    LittleRoundTrip(value, width);
    SubSlice(record, 0, |Emit(fields)|, at, at + width);
  }

  lemma SignedBack(value: I32)
    ensures Signed(Unsigned(value)) == value
  {
  }

  /** A record on its own reads back. */
  lemma RecordReads(t: Tensor, offset: nat)
    requires offset < LIMIT && |t.name| < 0x1_0000_0000
    ensures |RecordBytes(t, offset)| == RecordLength(t) >= RECORD_SIZE + |t.name|
    ensures RowAt(RecordBytes(t, offset), 0) == RowOf(t, offset)
    ensures RecordBytes(t, offset)[RECORD_SIZE..RECORD_SIZE + |t.name|] == t.name
  {
    hide Emit, Width, Number, RoundUp, Pow256;
    var f, record := RecordFields(t, offset), RecordBytes(t, offset);
    RecordBytesLength(t, offset);
    RecordWidths(t, offset);
    RoundUpFacts(RECORD_SIZE + |t.name|, 8);
    assert record[..RECORD_SIZE] == Emit(f);
    Powers();
    SignedBack(t.layer);
    FieldReads(record, f, 0, 0, 4, t.kind);
    FieldReads(record, f, 1, 4, 4, t.rank);
    FieldReads(record, f, 2, 8, 4, Unsigned(t.layer));
    FieldReads(record, f, 3, 12, 4, 0);
    FieldReads(record, f, 4, 16, 8, t.dim0);
    FieldReads(record, f, 5, 24, 8, t.dim1);
    FieldReads(record, f, 6, 32, 8, t.dim2);
    FieldReads(record, f, 7, 40, 8, t.dim3);
    FieldReads(record, f, 8, 48, 8, offset);
    FieldReads(record, f, 9, 56, 8, t.size);
    FieldReads(record, f, 10, 64, 4, |t.name|);
    FieldReads(record, f, 11, 68, 4, t.blockElements);
    FieldReads(record, f, 12, 72, 4, t.blockBytes);
    FieldReads(record, f, 13, 76, 4, 0);
  }

  lemma NumberShift(file: ByteString, from: nat, to: nat, at: nat, width: nat)
    requires from <= to <= |file| && at + width <= to - from
    ensures Number(file[from..to], at, width) == Number(file, from + at, width)
  {
    SubSlice(file, from, to, at, at + width);
    assert from + (at + width) == from + at + width;
  }

  lemma RowShift(file: ByteString, from: nat, to: nat)
    requires from <= to <= |file| && RECORD_SIZE <= to - from
    ensures RowAt(file[from..to], 0) == RowAt(file, from)
  {
    hide Number;
    NumberShift(file, from, to, 0, 4);
    NumberShift(file, from, to, 4, 4);
    NumberShift(file, from, to, 8, 4);
    NumberShift(file, from, to, 12, 4);
    NumberShift(file, from, to, 16, 8);
    NumberShift(file, from, to, 24, 8);
    NumberShift(file, from, to, 32, 8);
    NumberShift(file, from, to, 40, 8);
    NumberShift(file, from, to, 48, 8);
    NumberShift(file, from, to, 56, 8);
    NumberShift(file, from, to, 64, 4);
    NumberShift(file, from, to, 68, 4);
    NumberShift(file, from, to, 72, 4);
    NumberShift(file, from, to, 76, 4);
  }

  /** Sizes that fit the uint32 and uint64 fields. */
  ghost predicate Representable(source: ByteString, ts: seq<Tensor>) {
    && AllCopy(source, ts) && FileSize(ts) < LIMIT && |ts| < 0x1_0000_0000
    && forall i :: 0 <= i < |ts| ==> |ts[i].name| < 0x1_0000_0000
  }

  function Place(ts: seq<Tensor>, i: nat): nat
    requires i <= |ts|
  {
    HEADER_SIZE + IndexSize(ts, i)
  }

  /** Record i in the file. */
  lemma RowInFile(source: ByteString, ts: seq<Tensor>, i: nat)
    requires Representable(source, ts) && i < |ts|
    ensures var file, at := FileBytes(source, ts), Place(ts, i);
            && Place(ts, i + 1) == at + RecordLength(ts[i]) <= Place(ts, |ts|) <= |file|
            && RecordLength(ts[i]) >= RECORD_SIZE + |ts[i].name|
            && RowAt(file, at) == RowOf(ts[i], Offset(ts, i))
            && file[at + RECORD_SIZE..at + RECORD_SIZE + |ts[i].name|] == ts[i].name
  {
    hide RoundUp, RecordBytes, RowAt, IndexBytes, Body, Offset;
    var file, from, to := FileBytes(source, ts), Place(ts, i), Place(ts, i + 1);
    IndexInPlace(source, ts);
    RecordInIndex(ts, i, |ts|);
    OffsetsGrow(ts, i, |ts|);
    RecordReads(ts[i], Offset(ts, i));
    SubSlice(file, 0, Place(ts, |ts|), from, to);
    RowShift(file, from, to);
    SubSlice(file, from, to, RECORD_SIZE, RECORD_SIZE + |ts[i].name|);
  }

  /** The end of the data before tensor i. */
  function PreviousEnd(ts: seq<Tensor>, i: nat): nat
    requires i <= |ts|
  {
    if i == 0 then DataStart(ts) else Offset(ts, i - 1) + ts[i - 1].size
  }

  lemma PlacedByWriter(source: ByteString, ts: seq<Tensor>, i: nat)
    requires Representable(source, ts) && i < |ts|
    ensures var row := RowOf(ts[i], Offset(ts, i));
            && WellPlaced(row, Place(ts, i), Place(ts, |ts|), PreviousEnd(ts, i), FileSize(ts))
            && After(row, Place(ts, i)) == Place(ts, i + 1)
  {
    hide RoundUp, Offset, IndexSize, Body, RowAt;
    RowInFile(source, ts, i);
    OffsetsDisjoint(ts, i, |ts|);
    OffsetStart(ts);
    if i > 0 { OffsetStep(ts, i - 1); }
    IndexAligned(ts, i);
    RecordPadding(Place(ts, i), ts[i]);
  }

  predicate Readable(table: TypeTable, d: Descriptor, t: Tensor) {
    SelfConsistent(table, d, RowOf(t, 0))
  }

  function View(source: ByteString, t: Tensor): Mapped
    requires Copies(source, t)
  {
    Mapped(t.name, t.kind, t.rank, t.layer, [t.dim0, t.dim1, t.dim2, t.dim3], Data(source, t), t.blockElements, t.blockBytes)
  }

  function Views(source: ByteString, ts: seq<Tensor>, i: nat): seq<Mapped>
    requires AllCopy(source, ts) && i <= |ts|
    decreases |ts| - i
  {
    if i == |ts| then [] else [View(source, ts[i])] + Views(source, ts, i + 1)
  }

  /** At record i of a written file the reader accepts exactly a readable tensor, and exposes it. */
  lemma ReaderMeetsRecord(source: ByteString, ts: seq<Tensor>, i: nat, table: TypeTable, d: Descriptor, room: nat)
    requires Representable(source, ts) && i < |ts|
    ensures var file, at := FileBytes(source, ts), Place(ts, i);
            && at + RECORD_SIZE + |ts[i].name| <= Place(ts, |ts|) <= |file|
            && Offset(ts, i) + ts[i].size <= |file|
            && (Acceptable(table, d, file, at, Place(ts, |ts|), PreviousEnd(ts, i), room)
                <==> room > 0 && Readable(table, d, ts[i]))
            && RowAt(file, at) == RowOf(ts[i], Offset(ts, i)) && After(RowAt(file, at), at) == Place(ts, i + 1)
            && Expose(file, RowAt(file, at), at) == View(source, ts[i])
  {
    hide RoundUp, Offset, IndexSize, Body, RowAt, ShapeOk, StorageSize, Data;
    RowInFile(source, ts, i);
    PlacedByWriter(source, ts, i);
    DataInPlace(source, ts, i);
  }

  /** All tensors from i on are readable and there is room for them. */
  predicate AllReadable(table: TypeTable, d: Descriptor, ts: seq<Tensor>, i: nat, room: nat) {
    |ts| - i <= room && forall k :: i <= k < |ts| ==> Readable(table, d, ts[k])
  }

  lemma {:induction false} TotalSplit(ts: seq<Tensor>, i: nat)
    requires i < |ts|
    ensures TensorBytes(ts, i + 1) == TensorBytes(ts, i) + ts[i].size
  {
  }

  /** From record i of a written file, the reader succeeds exactly when all remaining tensors are
      readable, and then exposes them. */
  lemma {:induction false} ReaderMeetsRecords(source: ByteString, ts: seq<Tensor>, i: nat, table: TypeTable, d: Descriptor, room: nat)
    requires Representable(source, ts) && i <= |ts| && d.tensorBytes == TensorBytes(ts, |ts|)
    ensures Place(ts, |ts|) <= FileSize(ts)
    ensures Records(table, d, FileBytes(source, ts), Place(ts, i), Place(ts, |ts|), PreviousEnd(ts, i), TensorBytes(ts, i), |ts| - i, room) ==
            if AllReadable(table, d, ts, i, room) then Some(Views(source, ts, i)) else None
    decreases |ts| - i
  {
    hide RoundUp, Offset, IndexSize, TensorBytes, FileBytes, RowAt, Acceptable, Readable, View, Expose, After, Copies, Place, FileSize;
    IndexFits(source, ts);
    if i < |ts| {
      ReaderMeetsRecord(source, ts, i, table, d, room);
      TotalSplit(ts, i);
      if room > 0 && Readable(table, d, ts[i]) {
        ReaderMeetsRecords(source, ts, i + 1, table, d, room - 1);
        assert AllReadable(table, d, ts, i, room) <==> AllReadable(table, d, ts, i + 1, room - 1);
      }
    }
  }

  lemma IndexFits(source: ByteString, ts: seq<Tensor>)
    requires AllCopy(source, ts)
    ensures Place(ts, |ts|) <= FileSize(ts) && |FileBytes(source, ts)| == FileSize(ts)
  {
    hide RoundUp, Offset, IndexBytes;
    IndexInPlace(source, ts);
  }

  lemma HeaderWidths(f: seq<Field>)
    requires |f| == 4 && f[0].width == 4 && f[1].width == 4 && f[2].width == 8 && f[3].width == 8
    ensures Width(f[..0]) == 0 && Width(f[..1]) == 4 && Width(f[..2]) == 8 && Width(f[..3]) == 16 && Width(f) == 24
  {
    hide Width;
    WidthOfNothing();
    forall k | 0 <= k < 4 ensures Width(f[..k + 1]) == Width(f[..k]) + f[k].width { WidthStep(f, k); }
    assert f[..0] == [] && f[..4] == f;
  }

  /** The parts of a sequence of three. */
  lemma ThreeParts(a: ByteString, b: ByteString, c: ByteString)
    ensures var all := a + b + c;
            && all[..|a|] == a && all[|a|..] == b + c && all[|a|..][..|b|] == b
            && forall k :: 0 <= k < |c| ==> all[|a| + |b| + k] == c[k]
  {
    assert (a + b + c)[|a|..] == b + c;
  }

  /** The header of a written segment reads back. */
  lemma HeaderReads(count: nat, indexSize: nat, tensorBytes: nat)
    requires count < 0x1_0000_0000 && indexSize < LIMIT && tensorBytes < LIMIT
    ensures var b := HeaderBytes(count, indexSize, tensorBytes);
            && |b| == HEADER_SIZE && b[..8] == MAGIC && Number(b, 8, 4) == VERSION && Number(b, 12, 4) == count
            && Number(b, 16, 8) == indexSize && Number(b, 24, 8) == tensorBytes
            && forall k :: 32 <= k < HEADER_SIZE ==> b[k] == 0
  {
    hide Emit, Width, Number, Pow256;
    var f, b := HeaderFields(count, indexSize, tensorBytes), HeaderBytes(count, indexSize, tensorBytes);
    HeaderLength(count, indexSize, tensorBytes);
    HeaderWidths(f);
    EmitWidth(f);
    Powers();
    ThreeParts(MAGIC, Emit(f), Zeros(32));
    var body := b[8..];
    assert b[8..HEADER_SIZE] == body;
    FieldReads(body, f, 0, 0, 4, VERSION);
    FieldReads(body, f, 1, 4, 4, count);
    FieldReads(body, f, 2, 8, 8, indexSize);
    FieldReads(body, f, 3, 16, 8, tensorBytes);
    NumberShift(b, 8, HEADER_SIZE, 0, 4);
    NumberShift(b, 8, HEADER_SIZE, 4, 4);
    NumberShift(b, 8, HEADER_SIZE, 8, 8);
    NumberShift(b, 8, HEADER_SIZE, 16, 8);
    forall k | 32 <= k < HEADER_SIZE ensures b[k] == 0 { assert b[8 + 24 + (k - 32)] == Zeros(32)[k - 32]; }
  }

  lemma HeaderInFile(source: ByteString, ts: seq<Tensor>, d: Descriptor)
    requires Representable(source, ts) && d.tensorCount == |ts| && d.tensorBytes == TensorBytes(ts, |ts|)
    ensures HeaderOk(d, FileBytes(source, ts)) && Number(FileBytes(source, ts), 16, 8) == IndexSize(ts, |ts|)
  {
    hide Number, IndexBytes, HeaderBytes, Body, Offset, RoundUp, TensorBytes, IndexSize;
    var file, header := FileBytes(source, ts), HeaderBytes(|ts|, IndexSize(ts, |ts|), TensorBytes(ts, |ts|));
    IndexInPlace(source, ts);
    IndexStartsWithHeader(ts, |ts|);
    SubSlice(file, 0, HEADER_SIZE + IndexSize(ts, |ts|), 0, HEADER_SIZE);
    BytesBelowOffset(ts, |ts|);
    HeaderReads(|ts|, IndexSize(ts, |ts|), TensorBytes(ts, |ts|));
    assert file[0..HEADER_SIZE] == header;
    HeaderCopied(file, header);
  }

  lemma HeaderCopied(file: ByteString, header: ByteString)
    requires |file| >= HEADER_SIZE && file[0..HEADER_SIZE] == header
    ensures file[..8] == header[..8] && Number(file, 8, 4) == Number(header, 8, 4) && Number(file, 12, 4) == Number(header, 12, 4)
    ensures Number(file, 16, 8) == Number(header, 16, 8) && Number(file, 24, 8) == Number(header, 24, 8)
    ensures forall k :: 32 <= k < HEADER_SIZE ==> file[k] == header[k]
  {
    hide Number;
    NumberShift(file, 0, HEADER_SIZE, 8, 4);
    NumberShift(file, 0, HEADER_SIZE, 12, 4);
    NumberShift(file, 0, HEADER_SIZE, 16, 8);
    NumberShift(file, 0, HEADER_SIZE, 24, 8);
    SubSlice(file, 0, HEADER_SIZE, 0, 8);
  }

  /** Writer and reader agree: a written segment maps exactly when every tensor is self-consistent for
      this segment and the model has room, and then each tensor comes back with the fields it was
      described with and the bytes it had in the source file. */
  lemma SegmentRoundTrip(source: ByteString, ts: seq<Tensor>, table: TypeTable, d: Descriptor)
    requires Representable(source, ts) && d.tensorCount == |ts| && d.tensorBytes == TensorBytes(ts, |ts|)
    ensures MapSegment(table, d, FileBytes(source, ts)) ==
            if AllReadable(table, d, ts, 0, d.room) then Some(Views(source, ts, 0)) else None
  {
    hide Number, FileBytes, Offset, RoundUp, HeaderOk, AllReadable, Records, Views;
    HeaderInFile(source, ts, d);
    ReaderMeetsRecords(source, ts, 0, table, d, d.room);
  }

  // --- The engine's loop ---------------------------------------------------------------------------------

  /** The loop over the four extents. */
  method CheckShape(rank: nat, dims: seq<nat>) returns (ok: bool, rowCount: nat)
    requires |dims| == 4 && rank >= 1 && forall k :: 0 <= k < 4 ==> dims[k] < LIMIT
    ensures ok <==> ShapeOk(rank, dims)
    ensures ok <==> (forall k :: 0 <= k < 4 ==> dims[k] > 0 && (k >= rank ==> dims[k] == 1)) && dims[1] * dims[2] * dims[3] < LIMIT
    ensures ok ==> rowCount == dims[1] * dims[2] * dims[3]
  {
    rowCount := 1;
    ok := true;
    var dimension := 0;
    while dimension < 4
      invariant 0 <= dimension <= 4
      invariant forall k :: 0 <= k < dimension ==> dims[k] != 0 && (k >= rank ==> dims[k] == 1)
      invariant rowCount == Rows(dims, dimension) < LIMIT
      invariant forall k :: 0 <= k <= dimension ==> Rows(dims, k) < LIMIT
    {
      if dims[dimension] == 0 || (dimension >= rank && dims[dimension] != 1) {
        return false, 0;
      }
      if dimension > 0 {
        if rowCount * dims[dimension] >= LIMIT {
          ShapeProducts(dims);
          return false, 0;
        }
        rowCount := rowCount * dims[dimension];
      }
      dimension := dimension + 1;
    }
    ShapeProducts(dims);
  }

  /** Number of rows in the extents before n. */
  function Rows(dims: seq<nat>, n: nat): nat
    requires |dims| == 4 && n <= 4
  {
    if n <= 1 then 1 else Rows(dims, n - 1) * dims[n - 1]
  }

  lemma ShapeProducts(dims: seq<nat>)
    requires |dims| == 4
    ensures Rows(dims, 1) == 1 && Rows(dims, 2) == dims[1] && Rows(dims, 3) == dims[1] * dims[2]
    ensures Rows(dims, 4) == dims[1] * dims[2] * dims[3]
  {
  }

  lemma NumberBound(file: ByteString, at: nat)
    ensures at + 4 <= |file| ==> Number(file, at, 4) < 0x1_0000_0000
    ensures at + 8 <= |file| ==> Number(file, at, 8) < LIMIT
  {
    Powers();
  }

  lemma RowBounds(file: ByteString, at: nat)
    requires at + RECORD_SIZE <= |file|
    ensures var row := RowAt(file, at);
            row.kind < 0x1_0000_0000 && row.offset < LIMIT && row.length < LIMIT && forall k :: 0 <= k < 4 ==> row.dims[k] < LIMIT
  {
    hide Number;
    NumberBound(file, at);
    NumberBound(file, at + 16);
    NumberBound(file, at + 24);
    NumberBound(file, at + 32);
    NumberBound(file, at + 40);
    NumberBound(file, at + 48);
    NumberBound(file, at + 56);
  }

  /** Rows of q blocks each: the bytes times the elements of a block are the elements times its bytes. */
  lemma BlocksAndBytes(q: nat, elements: nat, bytes: nat, rows: nat, length: nat)
    requires elements > 0
    ensures q * bytes * rows == length <==> length * elements == q * elements * rows * bytes
    ensures rows > 0 ==> q * bytes <= q * bytes * rows
  {
    Commute(q, elements, bytes, rows);
    Cancel(q * bytes * rows, length, elements);
    if rows > 0 { Grows(q * bytes, rows); }
  }

  lemma Cancel(a: nat, b: nat, factor: nat)
    requires factor > 0
    ensures a * factor == b * factor <==> a == b
  {
    if a < b {
      assert (b - a) * factor > 0;
    } else if b < a {
      assert (a - b) * factor > 0;
    }
  }

  lemma Grows(a: nat, factor: nat)
    requires factor > 0
    ensures a <= a * factor
  {
  }

  lemma Commute(q: nat, elements: nat, bytes: nat, rows: nat)
    ensures q * bytes * rows * elements == q * elements * rows * bytes
  {
    calc {
      q * bytes * rows * elements;
      q * (bytes * rows * elements);
      { assert bytes * rows * elements == elements * rows * bytes; }
      q * (elements * rows * bytes);
      q * elements * rows * bytes;
    }
  }

  /** The storage check: whole blocks per row, no overflow, and the length the record announces. */
  method CheckStorage(row: Row, rowCount: nat) returns (ok: bool)
    requires |row.dims| == 4 && row.blockElements > 0 && rowCount == row.dims[1] * row.dims[2] * row.dims[3]
    ensures ok <==> StorageSize(row.dims, row.blockElements, row.blockBytes) == Some(row.length)
    ensures ok ==> row.dims[0] % row.blockElements == 0 && row.length < LIMIT
                   && row.length * row.blockElements == row.dims[0] * rowCount * row.blockBytes
    ensures ok <== && row.dims[0] % row.blockElements == 0 && rowCount > 0 && row.length < LIMIT
                   && row.length * row.blockElements == row.dims[0] * rowCount * row.blockBytes
  {
    if row.dims[0] % row.blockElements != 0 {
      return false;
    }
    var rowBytes := row.dims[0] / row.blockElements * row.blockBytes;
    BlocksAndBytes(row.dims[0] / row.blockElements, row.blockElements, row.blockBytes, rowCount, row.length);
    if rowBytes >= LIMIT {
      return false;
    }
    var expected := rowBytes * rowCount;
    ok := expected < LIMIT && expected == row.length;
  }

  /** Rank, extents and length of a record agree with its type: whole blocks in every row, ones behind the rank,
      rows that can be counted, and as many bytes as there are blocks. */
  predicate Sized(table: TypeTable, row: Row)
    requires |row.dims| == 4
  {
    && row.kind < 0x1_0000_0000 && table(row.kind) == Some((row.blockElements, row.blockBytes))
    && row.blockElements > 0 && row.blockBytes > 0 && 1 <= row.rank <= 4
    && (forall k :: 0 <= k < 4 ==> row.dims[k] > 0 && (k >= row.rank ==> row.dims[k] == 1))
    && row.dims[1] * row.dims[2] * row.dims[3] < 0x1_0000_0000_0000_0000
    && row.dims[0] % row.blockElements == 0
    && row.length * row.blockElements == row.dims[0] * (row.dims[1] * row.dims[2] * row.dims[3]) * row.blockBytes
  }

  /** All checks on the record at the cursor. */
  method CheckRecord(table: TypeTable, d: Descriptor, file: ByteString, cursor: nat, indexEnd: nat, previousEnd: nat, room: nat)
    returns (ok: bool)
    requires indexEnd <= |file|
    ensures ok <==> Acceptable(table, d, file, cursor, indexEnd, previousEnd, room)
    ensures ok <==>
              && cursor + 80 <= indexEnd && room > 0
              && var row := RowAt(file, cursor);
                 && 1 <= row.nameLength <= 1024 && cursor + 80 + row.nameLength <= indexEnd
                 && previousEnd <= row.offset && row.offset % 64 == 0 && row.offset + row.length <= |file|
                 && row.flags == 0 && row.reserved == 0 && row.layer == (if d.isLayer then d.layer else -1)
                 && Sized(table, row)
  {
    hide RowAt, ShapeOk, StorageSize;
    if !Fits(cursor, RECORD_SIZE, indexEnd) {
      return false;
    }
    var row := RowAt(file, cursor);
    RowBounds(file, cursor);
    var layout := table(row.kind);
    if layout != Some((row.blockElements, row.blockBytes)) || row.flags != 0 || row.reserved != 0
       || row.rank == 0 || row.rank > 4 || row.nameLength == 0 || row.nameLength > 1024
       || row.blockElements == 0 || row.blockBytes == 0 {
      return false;
    }
    if !WellPlaced(row, cursor, indexEnd, previousEnd, |file|) {
      return false;
    }
    if (d.isLayer && row.layer != d.layer) || (!d.isLayer && row.layer != -1) {
      return false;
    }
    if room == 0 {
      return false;
    }
    var shaped, rowCount := CheckShape(row.rank, row.dims);
    if !shaped {
      return false;
    }
    RowsPositive(row.dims);
    ok := CheckStorage(row, rowCount);
  }

  lemma RowsPositive(dims: seq<nat>)
    requires |dims| == 4
    ensures dims[1] > 0 && dims[2] > 0 && dims[3] > 0 ==> dims[1] * dims[2] * dims[3] > 0
  {
    if dims[1] > 0 && dims[2] > 0 && dims[3] > 0 {
      Grows(dims[1], dims[2]);
      Grows(dims[1] * dims[2], dims[3]);
    }
  }

  /** map_tensor_segment after the file is mapped. For a file that fits in memory the sums that the
      engine checks for overflow stay below the file size. */
  method MapTensorSegment(table: TypeTable, d: Descriptor, file: ByteString) returns (r: Option<seq<Mapped>>)
    requires |file| < LIMIT
    ensures r == MapSegment(table, d, file)
    ensures r.Some? ==>
              && |file| >= 64 && file[..8] == [0x4A, 0x46, 0x53, 0x45, 0x47, 0x4D, 0x30, 0x32] && Number(file, 8, 4) == 2
              && (forall k :: 32 <= k < 64 ==> file[k] == 0)
              && |r.value| == d.tensorCount == Number(file, 12, 4) && d.tensorBytes == Number(file, 24, 8)
              && d.tensorCount <= d.room && 64 + Number(file, 16, 8) <= |file|
  {
    hide Number, RowAt, Acceptable, RoundUp, Records;
    if !HeaderOk(d, file) {
      return None;
    }
    var indexEnd := HEADER_SIZE + Number(file, 16, 8);
    var cursor: nat, previousEnd: nat, bytes: nat, mapped := HEADER_SIZE, RoundUp(indexEnd, ALIGNMENT), 0, [];
    RoundUpFacts(indexEnd, ALIGNMENT);
    PrependNothing(Records(table, d, file, cursor, indexEnd, previousEnd, bytes, d.tensorCount, d.room));
    for index := 0 to d.tensorCount
      invariant |mapped| == index <= d.room
      invariant bytes <= previousEnd <= |file|
      invariant MapSegment(table, d, file) ==
                Prepend(mapped, Records(table, d, file, cursor, indexEnd, previousEnd, bytes, d.tensorCount - index, d.room - index))
    {
      RecordsStep(table, d, file, cursor, indexEnd, previousEnd, bytes, d.tensorCount - index, d.room - index, mapped);
      var ok := CheckRecord(table, d, file, cursor, indexEnd, previousEnd, d.room - index);
      if !ok {
        return None;
      }
      AcceptedFits(table, d, file, cursor, indexEnd, previousEnd, d.room - index);
      var row := RowAt(file, cursor);
      mapped := mapped + [Expose(file, row, cursor)];
      var end := CheckedAdd(row.offset, row.length);
      previousEnd := end.value;
      var sum := CheckedAdd(bytes, row.length);
      bytes := sum.value;
      cursor := RoundUp(cursor + RECORD_SIZE + row.nameLength, 8);
    }
    RecordsEnd(table, d, file, cursor, indexEnd, previousEnd, bytes, d.room - d.tensorCount);
    if cursor != indexEnd || bytes != d.tensorBytes {
      return None;
    }
    assert mapped + [] == mapped;
    r := Some(mapped);
  }

  function Prepend(done: seq<Mapped>, rest: Option<seq<Mapped>>): Option<seq<Mapped>> {
    if rest.None? then None else Some(done + rest.value)
  }

  lemma PrependNothing(rest: Option<seq<Mapped>>)
    ensures Prepend([], rest) == rest
  {
    assert rest.Some? ==> [] + rest.value == rest.value;
  }

  lemma AcceptedFits(table: TypeTable, d: Descriptor, file: ByteString, cursor: nat, indexEnd: nat, previousEnd: nat, room: nat)
    requires indexEnd <= |file| && Acceptable(table, d, file, cursor, indexEnd, previousEnd, room)
    ensures cursor + RECORD_SIZE <= |file| && room > 0
    ensures var row := RowAt(file, cursor);
            cursor + RECORD_SIZE + row.nameLength <= |file| && previousEnd <= row.offset && row.offset + row.length <= |file|
  {
    hide RowAt, SelfConsistent;
  }

  lemma RecordsStep(table: TypeTable, d: Descriptor, file: ByteString, cursor: nat, indexEnd: nat, previousEnd: nat, bytes: nat, left: nat, room: nat, done: seq<Mapped>)
    requires indexEnd <= |file| && left > 0
    ensures !Acceptable(table, d, file, cursor, indexEnd, previousEnd, room) ==>
              Prepend(done, Records(table, d, file, cursor, indexEnd, previousEnd, bytes, left, room)) == None
    ensures Acceptable(table, d, file, cursor, indexEnd, previousEnd, room) ==>
              var row := RowAt(file, cursor);
              Prepend(done, Records(table, d, file, cursor, indexEnd, previousEnd, bytes, left, room)) ==
              Prepend(done + [Expose(file, row, cursor)],
                      Records(table, d, file, After(row, cursor), indexEnd, row.offset + row.length, bytes + row.length, left - 1, room - 1))
  {
    hide RowAt, SelfConsistent;
    if Acceptable(table, d, file, cursor, indexEnd, previousEnd, room) {
      var row := RowAt(file, cursor);
      var rest := Records(table, d, file, After(row, cursor), indexEnd, row.offset + row.length, bytes + row.length, left - 1, room - 1);
      assert rest.Some? ==> done + ([Expose(file, row, cursor)] + rest.value) == done + [Expose(file, row, cursor)] + rest.value;
    }
  }

  lemma RecordsEnd(table: TypeTable, d: Descriptor, file: ByteString, cursor: nat, indexEnd: nat, previousEnd: nat, bytes: nat, room: nat)
    requires indexEnd <= |file|
    ensures Records(table, d, file, cursor, indexEnd, previousEnd, bytes, 0, room) ==
            if cursor == indexEnd && bytes == d.tensorBytes then Some([]) else None
  {
  }
}
