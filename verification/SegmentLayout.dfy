/** Writing one segment file of a compiled model (runtime/compiler/jf_model_compile.cpp:64-69, 309-336,
    648-770; runtime/engines/native/src/format.h:6-41): a header, an index record per tensor and the
    tensor bytes, each at a 64-byte boundary. Sizes are uint64 and every sum is checked. */
module SegmentLayout {
  import opened Bytes
  import opened Wrappers

  const LIMIT: nat := 0x1_0000_0000_0000_0000
  const HEADER_SIZE: nat := 64
  const RECORD_SIZE: nat := 80
  const ALIGNMENT: nat := 64
  const VERSION: nat := 2
  const MAGIC: ByteString := [0x4A, 0x46, 0x53, 0x45, 0x47, 0x4D, 0x30, 0x32]

  type U32 = x: int | 0 <= x < 0x1_0000_0000
  type U64 = x: int | 0 <= x < 0x1_0000_0000_0000_0000
  type I32 = x: int | -0x8000_0000 <= x < 0x8000_0000

  datatype Tensor = Tensor(
    name: ByteString, kind: U32, rank: U32, layer: I32,
    dim0: U64, dim1: U64, dim2: U64, dim3: U64,
    sourceOffset: U64, size: U64, blockElements: U32, blockBytes: U32
  )

  // --- Layout as plain numbers ----------------------------------------------------------------------

  function RoundUp(value: nat, alignment: nat): (r: nat)
    requires alignment > 0
  {
    (value + alignment - 1) / alignment * alignment
  }

  lemma RoundUpFacts(value: nat, alignment: nat)
    requires alignment == 8 || alignment == 64
    ensures value <= RoundUp(value, alignment) < value + alignment && RoundUp(value, alignment) % alignment == 0
    ensures value % alignment == 0 ==> RoundUp(value, alignment) == value
    ensures RoundUp(value, alignment) < LIMIT <==> value <= LIMIT - 1 - (alignment - 1)
  {
  }

  function RecordLength(t: Tensor): nat {
    RoundUp(RECORD_SIZE + |t.name|, 8)
  }

  /** Bytes of the first n index records. */
  function IndexSize(ts: seq<Tensor>, n: nat): nat
    requires n <= |ts|
  {
    if n == 0 then 0 else IndexSize(ts, n - 1) + RecordLength(ts[n - 1])
  }

  function DataStart(ts: seq<Tensor>): nat {
    RoundUp(HEADER_SIZE + IndexSize(ts, |ts|), ALIGNMENT)
  }

  /** Where tensor n starts; for the number of tensors, the size of the file. */
  function Offset(ts: seq<Tensor>, n: nat): nat
    requires n <= |ts|
  {
    if n == 0 then DataStart(ts) else RoundUp(Offset(ts, n - 1) + ts[n - 1].size, ALIGNMENT)
  }

  function FileSize(ts: seq<Tensor>): nat {
    Offset(ts, |ts|)
  }

  function TensorBytes(ts: seq<Tensor>, n: nat): nat
    requires n <= |ts|
  {
    if n == 0 then 0 else TensorBytes(ts, n - 1) + ts[n - 1].size
  }

  // --- The checked arithmetic -----------------------------------------------------------------------

  function CheckedAdd(left: nat, right: nat): (r: Option<nat>)
    requires left < LIMIT && right < LIMIT
    ensures r == if left + right < LIMIT then Some(left + right) else None
  {
    if left > LIMIT - 1 - right then None else Some(left + right)
  }

  function AlignUp(value: nat, alignment: nat): (r: Option<nat>)
    requires value < LIMIT && (alignment == 8 || alignment == 64)
    ensures r == if RoundUp(value, alignment) < LIMIT then Some(RoundUp(value, alignment)) else None
  {
    RoundUpFacts(value, alignment);
    if value > LIMIT - 1 - (alignment - 1) then None
    else Some((value + alignment - 1) / alignment * alignment)
  }

  /** One tensor to the next: aligned, and past its bytes. */
  lemma OffsetStep(ts: seq<Tensor>, i: nat)
    requires i < |ts|
    ensures Offset(ts, i + 1) == RoundUp(Offset(ts, i) + ts[i].size, ALIGNMENT)
    ensures Offset(ts, i) + ts[i].size <= Offset(ts, i + 1) && Offset(ts, i + 1) % ALIGNMENT == 0
  {
    hide RoundUp;
    RoundUpFacts(Offset(ts, i) + ts[i].size, ALIGNMENT);
  }

  lemma OffsetStart(ts: seq<Tensor>)
    ensures Offset(ts, 0) == RoundUp(HEADER_SIZE + IndexSize(ts, |ts|), ALIGNMENT)
    ensures HEADER_SIZE + IndexSize(ts, |ts|) <= Offset(ts, 0) && Offset(ts, 0) % ALIGNMENT == 0
  {
    hide RoundUp;
    RoundUpFacts(HEADER_SIZE + IndexSize(ts, |ts|), ALIGNMENT);
  }

  lemma {:induction false} OffsetsGrow(ts: seq<Tensor>, i: nat, j: nat)
    requires i <= j <= |ts|
    ensures Offset(ts, i) <= Offset(ts, j)
    decreases j
  {
    hide Offset;
    if i < j {
      OffsetsGrow(ts, i, j - 1);
      OffsetStep(ts, j - 1);
    }
  }

  lemma {:induction false} IndexGrows(ts: seq<Tensor>, i: nat, j: nat)
    requires i <= j <= |ts|
    ensures IndexSize(ts, i) <= IndexSize(ts, j)
    decreases j
  {
    if i < j {
      IndexGrows(ts, i, j - 1);
    }
  }

  /** Offsets are aligned, behind the index, and the ranges of two tensors never overlap. */
  lemma OffsetsDisjoint(ts: seq<Tensor>, i: nat, j: nat)
    requires i < j <= |ts|
    ensures Offset(ts, i) % ALIGNMENT == 0 && HEADER_SIZE + IndexSize(ts, |ts|) <= Offset(ts, i)
    ensures Offset(ts, i) + ts[i].size <= Offset(ts, j)
  {
    hide Offset, IndexSize, RoundUp;
    OffsetStart(ts);
    OffsetsGrow(ts, 0, i);
    if i > 0 {
      OffsetStep(ts, i - 1);
    }
    OffsetStep(ts, i);
    OffsetsGrow(ts, i + 1, j);
  }

  lemma {:induction false} BytesBelowOffset(ts: seq<Tensor>, n: nat)
    requires n <= |ts|
    ensures TensorBytes(ts, n) <= Offset(ts, n)
  {
    hide Offset;
    if n > 0 {
      BytesBelowOffset(ts, n - 1);
      OffsetStep(ts, n - 1);
    }
  }

  datatype Layout = Layout(indexSize: nat, offsets: seq<nat>, tensorBytes: nat, fileSize: nat)

  /** First loop of write_segment: the size of the index, unless a sum overflows. */
  method PlanIndex(ts: seq<Tensor>) returns (r: Option<nat>)
    requires forall t :: t in ts ==> |t.name| < LIMIT
    ensures r.Some? ==> r.value == IndexSize(ts, |ts|) < LIMIT
    ensures r.None? ==> FileSize(ts) >= LIMIT
  {
    hide RoundUp, Offset;
    var indexSize := 0;
    for i := 0 to |ts|
      invariant indexSize == IndexSize(ts, i) < LIMIT
    {
      IndexTooBig(ts, i + 1);
      RecordTooBig(ts, i);
      var record := CheckedAdd(RECORD_SIZE, |ts[i].name|);
      if record.None? {
        return None;
      }
      var padded := AlignUp(record.value, 8);
      if padded.None? {
        return None;
      }
      var sum := CheckedAdd(indexSize, padded.value);
      if sum.None? {
        return None;
      }
      indexSize := sum.value;
    }
    r := Some(indexSize);
  }

  /** The planning part of write_segment: it succeeds exactly when the file size fits in uint64, and
      then no sum on the way was cut. The check on the byte total never fires. */
  method PlanSegment(ts: seq<Tensor>) returns (r: Option<Layout>)
    requires forall t :: t in ts ==> |t.name| < LIMIT
    ensures r.Some? <==> FileSize(ts) < LIMIT
    ensures r.Some? ==> r.value.indexSize == IndexSize(ts, |ts|) && r.value.fileSize == FileSize(ts)
                        && r.value.tensorBytes == TensorBytes(ts, |ts|)
                        && |r.value.offsets| == |ts| && forall i :: 0 <= i < |ts| ==> r.value.offsets[i] == Offset(ts, i)
  {
    hide RoundUp, Offset, IndexSize;
    var indexSize := PlanIndex(ts);
    if indexSize.None? {
      return None;
    }
    HeaderTooBig(ts);
    OffsetStart(ts);
    OffsetsGrow(ts, 0, |ts|);
    var header := CheckedAdd(HEADER_SIZE, indexSize.value);
    if header.None? {
      return None;
    }
    var start := AlignUp(header.value, ALIGNMENT);
    if start.None? {
      return None;
    }
    var cursor, offsets, total := start.value, [], 0;
    for i := 0 to |ts|
      invariant cursor == Offset(ts, i) < LIMIT && total == TensorBytes(ts, i) < LIMIT
      invariant |offsets| == i && forall k :: 0 <= k < i ==> offsets[k] == Offset(ts, k)
    {
      OffsetStep(ts, i);
      OffsetsGrow(ts, i + 1, |ts|);
      offsets := offsets + [cursor];
      var end := CheckedAdd(cursor, ts[i].size);
      if end.None? {
        return None;
      }
      var next := AlignUp(end.value, ALIGNMENT);
      if next.None? {
        return None;
      }
      cursor := next.value;
      BytesBelowOffset(ts, i + 1);
      var sum := CheckedAdd(total, ts[i].size);
      total := sum.value;
    }
    r := Some(Layout(indexSize.value, offsets, total, cursor));
  }

  lemma IndexTooBig(ts: seq<Tensor>, n: nat)
    requires n <= |ts|
    ensures IndexSize(ts, n) <= FileSize(ts)
  {
    hide RoundUp, Offset;
    IndexGrows(ts, n, |ts|);
    HeaderTooBig(ts);
  }

  lemma RecordTooBig(ts: seq<Tensor>, i: nat)
    requires i < |ts|
    ensures RECORD_SIZE + |ts[i].name| <= RecordLength(ts[i]) <= FileSize(ts)
  {
    hide RoundUp, Offset;
    RoundUpFacts(RECORD_SIZE + |ts[i].name|, 8);
    IndexTooBig(ts, i + 1);
  }

  lemma HeaderTooBig(ts: seq<Tensor>)
    ensures HEADER_SIZE + IndexSize(ts, |ts|) <= FileSize(ts)
  {
    hide Offset, IndexSize;
    OffsetStart(ts);
    OffsetsGrow(ts, 0, |ts|);
  }

  // --- The bytes of the index -----------------------------------------------------------------------

  /** Fixed-width little-endian numbers in a row. */
  datatype Field = Field(value: nat, width: nat)

  function Emit(fields: seq<Field>): ByteString {
    if fields == [] then []
    else Emit(fields[..|fields| - 1]) + LittleEndian(fields[|fields| - 1].value, fields[|fields| - 1].width)
  }

  function Width(fields: seq<Field>): nat {
    if fields == [] then 0 else Width(fields[..|fields| - 1]) + fields[|fields| - 1].width
  }

  lemma {:induction false} EmitWidth(fields: seq<Field>)
    ensures |Emit(fields)| == Width(fields)
  {
    if fields != [] {
      EmitWidth(fields[..|fields| - 1]);
    }
  }

  /** Each number stands at the sum of the widths before it. */
  lemma {:induction false} FieldAt(fields: seq<Field>, k: nat)
    requires k < |fields|
    ensures Width(fields[..k]) + fields[k].width <= |Emit(fields)|
    ensures Emit(fields)[Width(fields[..k])..Width(fields[..k]) + fields[k].width] == LittleEndian(fields[k].value, fields[k].width)
  {
    hide LittleEndian;
    var init := fields[..|fields| - 1];
    EmitWidth(init);
    if k == |fields| - 1 {
      assert fields[..k] == init;
    } else {
      FieldAt(init, k);
      assert init[..k] == fields[..k];
    }
  }

  /** The low 32 bits of a signed number. */
  function Unsigned(value: I32): U32 {
    if value >= 0 then value else value + 0x1_0000_0000
  }

  function HeaderFields(count: nat, indexSize: nat, tensorBytes: nat): seq<Field> {
    [Field(VERSION, 4), Field(count, 4), Field(indexSize, 8), Field(tensorBytes, 8)]
  }

  function RecordFields(t: Tensor, offset: nat): seq<Field> {
    [Field(t.kind, 4), Field(t.rank, 4), Field(Unsigned(t.layer), 4), Field(0, 4),
     Field(t.dim0, 8), Field(t.dim1, 8), Field(t.dim2, 8), Field(t.dim3, 8),
     Field(offset, 8), Field(t.size, 8),
     Field(|t.name|, 4), Field(t.blockElements, 4), Field(t.blockBytes, 4), Field(0, 4)]
  }

  /** Magic, numbers and zeros up to the header size. */
  function HeaderBytes(count: nat, indexSize: nat, tensorBytes: nat): (b: ByteString) {
    MAGIC + Emit(HeaderFields(count, indexSize, tensorBytes)) + Zeros(32)
  }

  function RecordBytes(t: Tensor, offset: nat): ByteString {
    Emit(RecordFields(t, offset)) + t.name + Zeros(RecordLength(t) - RECORD_SIZE - |t.name|)
  }

  lemma HeaderLength(count: nat, indexSize: nat, tensorBytes: nat)
    ensures |HeaderBytes(count, indexSize, tensorBytes)| == HEADER_SIZE
  {
    var f := HeaderFields(count, indexSize, tensorBytes);
    EmitWidth(f);
    assert f[..3][..2] == f[..2] && f[..2][..1] == f[..1] && f[..1][..0] == [];
    assert Width(f[..1]) == 4 && Width(f[..2]) == 8 && Width(f[..3]) == 16;
  }

  lemma RecordWidths(t: Tensor, offset: nat)
    ensures var f := RecordFields(t, offset);
            && Width(f[..0]) == 0 && Width(f[..1]) == 4 && Width(f[..2]) == 8 && Width(f[..3]) == 12
            && Width(f[..4]) == 16 && Width(f[..5]) == 24 && Width(f[..6]) == 32 && Width(f[..7]) == 40
            && Width(f[..8]) == 48 && Width(f[..9]) == 56 && Width(f[..10]) == 64 && Width(f[..11]) == 68
            && Width(f[..12]) == 72 && Width(f[..13]) == 76 && Width(f) == RECORD_SIZE
  {
    hide Width;
    var f := RecordFields(t, offset);
    WidthOfNothing();
    forall k | 0 <= k < 14 ensures Width(f[..k + 1]) == Width(f[..k]) + f[k].width { WidthStep(f, k); }
    assert f[..0] == [] && f[..14] == f;
  }

  lemma WidthOfNothing()
    ensures Width([]) == 0
  {
  }

  lemma WidthStep(fields: seq<Field>, k: nat)
    requires k < |fields|
    ensures Width(fields[..k + 1]) == Width(fields[..k]) + fields[k].width
  {
    assert fields[..k + 1][..k] == fields[..k];
  }

  lemma RecordBytesLength(t: Tensor, offset: nat)
    ensures |Emit(RecordFields(t, offset))| == RECORD_SIZE && |RecordBytes(t, offset)| == RecordLength(t)
  {
    hide RoundUp;
    EmitWidth(RecordFields(t, offset));
    RecordWidths(t, offset);
  }

  /** Header and the first n records. */
  function IndexBytes(ts: seq<Tensor>, n: nat): ByteString
    requires n <= |ts|
  {
    if n == 0 then HeaderBytes(|ts|, IndexSize(ts, |ts|), TensorBytes(ts, |ts|))
    else IndexBytes(ts, n - 1) + RecordBytes(ts[n - 1], Offset(ts, n - 1))
  }

  /** The size announced in the header is the size of the index. */
  lemma {:induction false} IndexLength(ts: seq<Tensor>, n: nat)
    requires n <= |ts|
    ensures |IndexBytes(ts, n)| == HEADER_SIZE + IndexSize(ts, n)
  {
    hide HeaderBytes, RecordBytes, RecordLength, Offset;
    if n == 0 {
      HeaderLength(|ts|, IndexSize(ts, |ts|), TensorBytes(ts, |ts|));
    } else {
      IndexLength(ts, n - 1);
      RecordBytesLength(ts[n - 1], Offset(ts, n - 1));
    }
  }

  /** Record i starts where the sizes of its predecessors say. */
  lemma {:induction false} RecordInIndex(ts: seq<Tensor>, i: nat, n: nat)
    requires i < n <= |ts|
    ensures IndexSize(ts, i + 1) <= IndexSize(ts, n) && |IndexBytes(ts, n)| == HEADER_SIZE + IndexSize(ts, n)
    ensures IndexBytes(ts, n)[HEADER_SIZE + IndexSize(ts, i)..HEADER_SIZE + IndexSize(ts, i + 1)] == RecordBytes(ts[i], Offset(ts, i))
  {
    hide HeaderBytes, RecordBytes, RecordLength, Offset;
    IndexLength(ts, n);
    IndexLength(ts, n - 1);
    RecordBytesLength(ts[n - 1], Offset(ts, n - 1));
    if i < n - 1 {
      RecordInIndex(ts, i, n - 1);
    }
  }

  lemma {:induction false} IndexStartsWithHeader(ts: seq<Tensor>, n: nat)
    requires n <= |ts|
    ensures |IndexBytes(ts, n)| >= HEADER_SIZE
    ensures IndexBytes(ts, n)[..HEADER_SIZE] == HeaderBytes(|ts|, IndexSize(ts, |ts|), TensorBytes(ts, |ts|))
  {
    hide HeaderBytes, RecordBytes, Offset, IndexSize, TensorBytes;
    HeaderLength(|ts|, IndexSize(ts, |ts|), TensorBytes(ts, |ts|));
    if n > 0 {
      IndexStartsWithHeader(ts, n - 1);
    }
  }

  // --- The file --------------------------------------------------------------------------------------

  /** Copying the tensor succeeds: the seek is in range and the source has the bytes. */
  predicate Copies(source: ByteString, t: Tensor) {
    t.sourceOffset < 0x8000_0000_0000_0000 && (t.size == 0 || t.sourceOffset + t.size <= |source|)
  }

  function Data(source: ByteString, t: Tensor): (b: ByteString)
    requires Copies(source, t)
    ensures |b| == t.size
  {
    if t.size == 0 then [] else source[t.sourceOffset..t.sourceOffset + t.size]
  }

  ghost predicate AllCopy(source: ByteString, ts: seq<Tensor>) {
    forall i :: 0 <= i < |ts| ==> Copies(source, ts[i])
  }

  /** Position after writing n tensors. */
  function Written(ts: seq<Tensor>, n: nat): nat
    requires n <= |ts|
  {
    if n == 0 then DataStart(ts) else Offset(ts, n - 1) + ts[n - 1].size
  }

  lemma WrittenBelowOffset(ts: seq<Tensor>, n: nat)
    requires n <= |ts|
    ensures Written(ts, n) <= Offset(ts, n)
  {
    hide RoundUp;
    if n > 0 { OffsetStep(ts, n - 1); }
  }

  lemma StartBeyondIndex(ts: seq<Tensor>)
    ensures HEADER_SIZE + IndexSize(ts, |ts|) <= DataStart(ts)
  {
    hide RoundUp;
    RoundUpFacts(HEADER_SIZE + IndexSize(ts, |ts|), ALIGNMENT);
  }

  /** Everything written up to tensor n, without the padding behind it. */
  function Body(source: ByteString, ts: seq<Tensor>, n: nat): (b: ByteString)
    requires n <= |ts| && AllCopy(source, ts)
    ensures |b| == Written(ts, n)
  {
    if n == 0 then
      IndexLength(ts, |ts|); StartBeyondIndex(ts);
      IndexBytes(ts, |ts|) + Zeros(DataStart(ts) - HEADER_SIZE - IndexSize(ts, |ts|))
    else
      WrittenBelowOffset(ts, n - 1);
      Body(source, ts, n - 1) + Zeros(Offset(ts, n - 1) - Written(ts, n - 1)) + Data(source, ts[n - 1])
  }

  function FileBytes(source: ByteString, ts: seq<Tensor>): (b: ByteString)
    requires AllCopy(source, ts)
    ensures |b| == FileSize(ts)
  {
    WrittenBelowOffset(ts, |ts|);
    Body(source, ts, |ts|) + Zeros(FileSize(ts) - Written(ts, |ts|))
  }

  lemma {:induction false} BodyGrows(source: ByteString, ts: seq<Tensor>, i: nat, n: nat)
    requires i <= n <= |ts| && AllCopy(source, ts)
    ensures Body(source, ts, i) <= Body(source, ts, n)
    decreases n
  {
    hide IndexBytes, IndexSize, DataStart, Data, Written, Copies;
    if i < n {
      BodyGrows(source, ts, i, n - 1);
    }
  }

  /** The bytes of every tensor stand at its offset, and the index at the start of the file. */
  lemma DataInPlace(source: ByteString, ts: seq<Tensor>, i: nat)
    requires AllCopy(source, ts) && i < |ts|
    ensures Offset(ts, i) + ts[i].size <= |FileBytes(source, ts)|
    ensures FileBytes(source, ts)[Offset(ts, i)..Offset(ts, i) + ts[i].size] == Data(source, ts[i])
  {
    hide IndexBytes, IndexSize, DataStart, Data, Offset, Copies;
    BodyGrows(source, ts, i + 1, |ts|);
    OffsetsDisjoint(ts, i, |ts|);
    WrittenBelowOffset(ts, i);
    var body := Body(source, ts, i + 1);
    assert body[Offset(ts, i)..Offset(ts, i) + ts[i].size] == Data(source, ts[i]);
    assert FileBytes(source, ts)[..|body|] == body;
  }

  lemma IndexInPlace(source: ByteString, ts: seq<Tensor>)
    requires AllCopy(source, ts)
    ensures |IndexBytes(ts, |ts|)| == HEADER_SIZE + IndexSize(ts, |ts|) <= DataStart(ts) <= FileSize(ts)
    ensures FileBytes(source, ts)[..HEADER_SIZE + IndexSize(ts, |ts|)] == IndexBytes(ts, |ts|)
  {
    hide IndexBytes, IndexSize, Data, Offset, Copies, RoundUp;
    IndexLength(ts, |ts|);
    StartBeyondIndex(ts);
    OffsetStart(ts);
    OffsetsGrow(ts, 0, |ts|);
    BodyGrows(source, ts, 0, |ts|);
    var body := Body(source, ts, 0);
    assert FileBytes(source, ts)[..|body|] == body;
    assert body[..HEADER_SIZE + IndexSize(ts, |ts|)] == IndexBytes(ts, |ts|);
  }

  // --- The writer --------------------------------------------------------------------------------------

  datatype WriteResult = Wrote(file: ByteString) | SizeOverflow | CopyFailed

  /** Appends zeros up to the next multiple. */
  method PadTo(bytes: ByteString, alignment: nat) returns (out: ByteString)
    requires alignment == 8 || alignment == 64
    ensures out == bytes + Zeros(RoundUp(|bytes|, alignment) - |bytes|)
  {
    hide RoundUp;
    out := bytes;
    RoundUpFacts(|bytes|, alignment);
    while |out| % alignment != 0
      invariant |bytes| <= |out| <= RoundUp(|bytes|, alignment) && out == bytes + Zeros(|out| - |bytes|)
      decreases RoundUp(|bytes|, alignment) - |out|
    {
      out := out + [0];
    }
    NextMultiple(|bytes|, |out|, alignment);
  }

  lemma NextMultiple(low: nat, m: nat, alignment: nat)
    requires alignment == 8 || alignment == 64
    requires low <= m <= RoundUp(low, alignment) && m % alignment == 0
    ensures m == RoundUp(low, alignment)
  {
  }

  method EmitFields(bytes: ByteString, fields: seq<Field>) returns (out: ByteString)
    ensures out == bytes + Emit(fields)
  {
    hide LittleEndian;
    out := bytes;
    for k := 0 to |fields|
      invariant out == bytes + Emit(fields[..k])
    {
      assert fields[..k + 1][..k] == fields[..k];
      out := out + LittleEndian(fields[k].value, fields[k].width);
    }
    assert fields[..|fields|] == fields;
  }

  lemma RecordPadding(before: nat, t: Tensor)
    requires before % 8 == 0
    ensures RoundUp(before + RECORD_SIZE + |t.name|, 8) == before + RecordLength(t)
  {
  }

  lemma {:induction false} IndexAligned(ts: seq<Tensor>, n: nat)
    requires n <= |ts|
    ensures (HEADER_SIZE + IndexSize(ts, n)) % 8 == 0
  {
    hide RoundUp;
    if n > 0 {
      IndexAligned(ts, n - 1);
      RoundUpFacts(RECORD_SIZE + |ts[n - 1].name|, 8);
    }
  }

  /** The index in memory. Its size is the one planned, so the size check that follows never fires. */
  method BuildIndex(ts: seq<Tensor>, layout: Layout) returns (index: ByteString)
    requires layout.indexSize == IndexSize(ts, |ts|) && layout.tensorBytes == TensorBytes(ts, |ts|)
    requires |layout.offsets| == |ts| && forall i :: 0 <= i < |ts| ==> layout.offsets[i] == Offset(ts, i)
    ensures index == IndexBytes(ts, |ts|) && |index| == HEADER_SIZE + layout.indexSize
  {
    hide Emit, IndexSize, Offset, TensorBytes, RoundUp;
    index := EmitFields(MAGIC, HeaderFields(|ts|, layout.indexSize, layout.tensorBytes));
    HeaderLength(|ts|, layout.indexSize, layout.tensorBytes);
    index := index + Zeros(HEADER_SIZE - |index|);
    for i := 0 to |ts|
      invariant index == IndexBytes(ts, i)
    {
      index := AppendRecord(ts, i, layout.offsets[i], index);
    }
    IndexLength(ts, |ts|);
  }

  method AppendRecord(ts: seq<Tensor>, i: nat, offset: nat, index: ByteString) returns (out: ByteString)
    requires i < |ts| && offset == Offset(ts, i) && index == IndexBytes(ts, i)
    ensures out == IndexBytes(ts, i + 1)
  {
    hide Emit, IndexSize, Offset, RoundUp, HeaderBytes;
    var t := ts[i];
    IndexLength(ts, i);
    IndexAligned(ts, i);
    RecordBytesLength(t, offset);
    out := EmitFields(index, RecordFields(t, offset));
    out := out + t.name;
    RecordPadding(|index|, t);
    out := PadTo(out, 8);
    assert out == index + RecordBytes(t, offset);
  }

  /** copy_range: the bytes in chunks of at most 8 MiB. */
  method CopyRange(source: ByteString, t: Tensor) returns (r: Option<ByteString>)
    ensures r == if Copies(source, t) then Some(Data(source, t)) else None
  {
    if t.sourceOffset >= 0x8000_0000_0000_0000 {
      return None;
    }
    var position, left, out := t.sourceOffset, t.size, [];
    while left > 0
      invariant 0 <= left <= t.size && position == t.sourceOffset + (t.size - left)
      invariant left < t.size ==> position <= |source| && out == source[t.sourceOffset..position]
      invariant left == t.size ==> out == []
    {
      var count := if left < 0x80_0000 then left else 0x80_0000;
      if position + count > |source| {
        return None;
      }
      out := out + source[position..position + count];
      position := position + count;
      left := left - count;
    }
    r := Some(out);
  }

  /** write_segment: fails exactly when the file would be too large for uint64 or a tensor cannot be
      copied; otherwise the file is the planned one. The position never passes an offset. */
  method WriteSegment(source: ByteString, ts: seq<Tensor>) returns (r: WriteResult)
    requires forall t :: t in ts ==> |t.name| < LIMIT
    ensures r.SizeOverflow? <==> FileSize(ts) >= LIMIT
    ensures r.CopyFailed? <==> FileSize(ts) < LIMIT && !AllCopy(source, ts)
    ensures r.Wrote? ==> AllCopy(source, ts) && r.file == FileBytes(source, ts)
  {
    hide IndexSize, TensorBytes, RoundUp, IndexBytes, Copies, Data;
    var layout := PlanSegment(ts);
    if layout.None? {
      return SizeOverflow;
    }
    var index := BuildIndex(ts, layout.value);
    StartBeyondIndex(ts);
    var file := PadTo(index, ALIGNMENT);
    var i := 0;
    while i < |ts|
      invariant 0 <= i <= |ts| && |file| == Written(ts, i)
      invariant forall k :: 0 <= k < i ==> Copies(source, ts[k])
      invariant AllCopy(source, ts) ==> file == Body(source, ts, i)
    {
      WrittenBelowOffset(ts, i);
      assert |file| <= layout.value.offsets[i];
      file := file + Zeros(layout.value.offsets[i] - |file|);
      var data := CopyRange(source, ts[i]);
      if data.None? {
        return CopyFailed;
      }
      file := file + data.value;
      i := i + 1;
    }
    WrittenBelowOffset(ts, |ts|);
    r := Wrote(file + Zeros(layout.value.fileSize - |file|));
  }
}
