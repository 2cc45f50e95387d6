/** Stage frames on the wire: framing (runtime/protocol/stage.cpp:227-364) and the segmented send that
    never copies the payload (runtime/transport/http_stage_transport.cpp:162-203). */
module StageWire {
  import opened Bytes
  import opened Wrappers
  import opened Arithmetic

  const HEADER_SIZE: nat := 20
  const MAX_METADATA: nat := 0x10_0000
  const MAX_PAYLOAD: nat := 0x2000_0000
  const VERSION: nat := 2
  const MAGIC: ByteString := [0x4A, 0x46, 0x53, 0x54]
  const TRANSPORT: string := "http_binary_v1"

  /** The metadata object: the four fields the framing sets and checks, and everything else. */
  datatype Metadata = Metadata(version: int, payloadBytes: int, checksum: nat, transport: string, rest: ByteString)

  /** JSON text and the checksum are library code. */
  datatype Library = Library(dump: Metadata -> ByteString, parse: ByteString -> Option<Metadata>, crc: ByteString -> nat)

  datatype FrameError =
    | TruncatedHeader
    | BadMagic
    | BadVersion
    | BadFlags
    | TooLarge
    | TruncatedFrame
    | TrailingData
    | BadMetadata
    | VersionMismatch
    | LengthMismatch
    | ChecksumMismatch
    | BadTransport

  datatype Decoded = Decoded(metadata: Metadata, payload: ByteString)

  datatype FrameResult<+T> = Ok(value: T) | Err(error: FrameError)

  // --- Framing -------------------------------------------------------------------------------------

  function Header(metadataLength: nat, payloadLength: nat): (b: ByteString)
    ensures |b| == HEADER_SIZE
  {
    MAGIC + BigEndian(VERSION, 2) + BigEndian(0, 2) + BigEndian(metadataLength, 4) + BigEndian(payloadLength, 8)
  }

  function Stamp(library: Library, metadata: Metadata, payload: ByteString): Metadata {
    metadata.(version := VERSION, payloadBytes := |payload|, checksum := library.crc(payload), transport := TRANSPORT)
  }

  /** encode_frame_prefix with the checksum of the payload. */
  function EncodePrefix(library: Library, metadata: Metadata, payload: ByteString): FrameResult<ByteString> {
    var text := library.dump(Stamp(library, metadata, payload));
    if |text| > MAX_METADATA || |payload| > MAX_PAYLOAD then Err(TooLarge)
    else Ok(Header(|text|, |payload|) + text)
  }

  /** Checks on the stamped fields. */
  function CheckMetadata(library: Library, metadata: Metadata, payload: ByteString): FrameResult<Decoded> {
    if metadata.version != VERSION then Err(VersionMismatch)
    else if metadata.payloadBytes != |payload| then Err(LengthMismatch)
    else if metadata.checksum != library.crc(payload) then Err(ChecksumMismatch)
    else if metadata.transport != TRANSPORT then Err(BadTransport)
    else Ok(Decoded(metadata, payload))
  }

  function DecodeFrame(library: Library, frame: ByteString): FrameResult<Decoded> {
    if |frame| < HEADER_SIZE then Err(TruncatedHeader)
    else if frame[..4] != MAGIC then Err(BadMagic)
    else if ReadBig(frame[4..6]) != VERSION then Err(BadVersion)
    else if ReadBig(frame[6..8]) != 0 then Err(BadFlags)
    else
      var metadataLength, payloadLength := ReadBig(frame[8..12]), ReadBig(frame[12..20]);
      if metadataLength == 0 || metadataLength > MAX_METADATA || payloadLength > MAX_PAYLOAD then Err(TooLarge)
      else
        var expected := HEADER_SIZE + metadataLength + payloadLength;
        if expected > |frame| then Err(TruncatedFrame)
        else if expected < |frame| then Err(TrailingData)
        else
          var text, payload := frame[HEADER_SIZE..HEADER_SIZE + metadataLength], frame[HEADER_SIZE + metadataLength..];
          match library.parse(text)
          case None => Err(BadMetadata)
          case Some(metadata) => CheckMetadata(library, metadata, payload)
  }

  /** The fields of a header read back, whatever follows it. */
  lemma HeaderReads(metadataLength: nat, payloadLength: nat, body: ByteString)
    requires metadataLength < 0x1_0000_0000 && payloadLength < 0x1_0000_0000_0000_0000
    ensures var frame := Header(metadataLength, payloadLength) + body;
            && frame[..4] == MAGIC && ReadBig(frame[4..6]) == VERSION && ReadBig(frame[6..8]) == 0
            && ReadBig(frame[8..12]) == metadataLength && ReadBig(frame[12..20]) == payloadLength
  {
    hide BigEndian, ReadBig;
    var frame := Header(metadataLength, payloadLength) + body;
    Powers();
    assert frame[4..6] == BigEndian(VERSION, 2) && frame[6..8] == BigEndian(0, 2);
    assert frame[8..12] == BigEndian(metadataLength, 4) && frame[12..20] == BigEndian(payloadLength, 8);
    BigRoundTrip(VERSION, 2);
    BigRoundTrip(0, 2);
    BigRoundTrip(metadataLength, 4);
    BigRoundTrip(payloadLength, 8);
  }

  /** A frame that starts with a correct header is split exactly at its lengths. */
  lemma DecodeOf(library: Library, text: ByteString, payload: ByteString)
    requires 0 < |text| <= MAX_METADATA && |payload| <= MAX_PAYLOAD
    ensures DecodeFrame(library, Header(|text|, |payload|) + text + payload) ==
            match library.parse(text)
            case None => Err(BadMetadata)
            case Some(metadata) => CheckMetadata(library, metadata, payload)
  {
    hide Header, ReadBig;
    var frame := Header(|text|, |payload|) + text + payload;
    assert frame == Header(|text|, |payload|) + (text + payload);
    HeaderReads(|text|, |payload|, text + payload);
    assert frame[HEADER_SIZE..HEADER_SIZE + |text|] == text && frame[HEADER_SIZE + |text|..] == payload;
  }

  /** A JSON library that reads what it writes, and never writes nothing. */
  ghost predicate Faithful(library: Library) {
    forall m :: library.dump(m) != [] && library.parse(library.dump(m)) == Some(m)
  }

  /** Decoding undoes encoding for every metadata and payload that can be encoded. */
  lemma FrameRoundTrip(library: Library, metadata: Metadata, payload: ByteString)
    requires Faithful(library) && EncodePrefix(library, metadata, payload).Ok?
    ensures DecodeFrame(library, EncodePrefix(library, metadata, payload).value + payload) ==
            Ok(Decoded(Stamp(library, metadata, payload), payload))
  {
    hide Header, DecodeFrame;
    var text := library.dump(Stamp(library, metadata, payload));
    DecodeOf(library, text, payload);
  }

  /** Conversely a frame decodes only if it is a header with the lengths of the metadata text and of
      the payload it returns, followed by both: there is one way to split it. */
  lemma DecodedIsEncoding(library: Library, frame: ByteString) returns (text: ByteString)
    requires DecodeFrame(library, frame).Ok?
    ensures var r := DecodeFrame(library, frame).value;
            && 0 < |text| <= MAX_METADATA && |r.payload| <= MAX_PAYLOAD
            && frame == Header(|text|, |r.payload|) + text + r.payload
            && library.parse(text) == Some(r.metadata)
            && r.metadata == Stamp(library, r.metadata, r.payload)
  {
    hide Header, ReadBig, DecodeFrame;
    DecodeParts(library, frame);
    HeaderUnique(frame);
    text := frame[HEADER_SIZE..HEADER_SIZE + ReadBig(frame[8..12])];
    assert frame == frame[..HEADER_SIZE] + text + frame[HEADER_SIZE + |text|..];
  }

  lemma DecodeParts(library: Library, frame: ByteString)
    requires DecodeFrame(library, frame).Ok?
    ensures |frame| >= HEADER_SIZE && frame[..4] == MAGIC && ReadBig(frame[4..6]) == VERSION && ReadBig(frame[6..8]) == 0
    ensures var r, n := DecodeFrame(library, frame).value, ReadBig(frame[8..12]);
            && 0 < n <= MAX_METADATA && ReadBig(frame[12..20]) <= MAX_PAYLOAD
            && |frame| == HEADER_SIZE + n + ReadBig(frame[12..20])
            && r.payload == frame[HEADER_SIZE + n..]
            && library.parse(frame[HEADER_SIZE..HEADER_SIZE + n]) == Some(r.metadata)
            && r.metadata == Stamp(library, r.metadata, r.payload)
  {
    hide ReadBig;
  }

  lemma HeaderUnique(frame: ByteString)
    requires |frame| >= HEADER_SIZE && frame[..4] == MAGIC && ReadBig(frame[4..6]) == VERSION && ReadBig(frame[6..8]) == 0
    ensures frame[..HEADER_SIZE] == Header(ReadBig(frame[8..12]), ReadBig(frame[12..20]))
  {
    hide BigEndian, ReadBig;
    BigUnique(frame[4..6]);
    BigUnique(frame[6..8]);
    BigUnique(frame[8..12]);
    BigUnique(frame[12..20]);
    assert frame[..20] == frame[..4] + frame[4..6] + frame[6..8] + frame[8..12] + frame[12..20];
  }

  /** Two encodings with the same bytes carry the same metadata and payload. */
  lemma EncodingInjective(library: Library, m: Metadata, p: ByteString, n: Metadata, q: ByteString)
    requires Faithful(library) && EncodePrefix(library, m, p).Ok? && EncodePrefix(library, n, q).Ok?
    requires EncodePrefix(library, m, p).value + p == EncodePrefix(library, n, q).value + q
    ensures p == q && Stamp(library, m, p) == Stamp(library, n, q)
  {
    hide EncodePrefix, DecodeFrame, Stamp;
    FrameRoundTrip(library, m, p);
    FrameRoundTrip(library, n, q);
  }

  /** A frame as the protocol lays it out, byte for byte. */
  ghost predicate WellFramed(library: Library, frame: ByteString, text: ByteString, d: Decoded) {
    && 0 < |text| <= 1024 * 1024 && |d.payload| <= 512 * 1024 * 1024
    && frame == [0x4A, 0x46, 0x53, 0x54, 0, 2, 0, 0] + BigEndian(|text|, 4) + BigEndian(|d.payload|, 8) + text + d.payload
    && library.parse(text) == Some(d.metadata)
    && d.metadata.version == 2 && d.metadata.payloadBytes == |d.payload|
    && d.metadata.checksum == library.crc(d.payload) && d.metadata.transport == "http_binary_v1"
  }

  lemma HeaderBytes(metadataLength: nat, payloadLength: nat)
    ensures Header(metadataLength, payloadLength) ==
            [0x4A, 0x46, 0x53, 0x54, 0, 2, 0, 0] + BigEndian(metadataLength, 4) + BigEndian(payloadLength, 8)
  {
    Word(0);
    Word(2);
    hide BigEndian;
    assert MAGIC + [0, 2] + [0, 0] == [0x4A, 0x46, 0x53, 0x54, 0, 2, 0, 0];
  }

  lemma Word(value: Byte)
    ensures BigEndian(value, 2) == [0, value]
  {
    assert BigEndian(0, 1) == [0] by { assert BigEndian(0, 0) == []; }
  }

  /** A frame decodes to a message exactly when it is that message's layout. */
  lemma DecodesExactly(library: Library, frame: ByteString, d: Decoded)
    ensures DecodeFrame(library, frame) == Ok(d) <==> exists text :: WellFramed(library, frame, text, d)
  {
    hide Header, ReadBig, BigEndian, DecodeFrame;
    if DecodeFrame(library, frame) == Ok(d) {
      var text := DecodedIsEncoding(library, frame);
      HeaderBytes(|text|, |d.payload|);
      assert WellFramed(library, frame, text, d);
    }
    forall text | WellFramed(library, frame, text, d) ensures DecodeFrame(library, frame) == Ok(d) {
      HeaderBytes(|text|, |d.payload|);
      DecodeOf(library, text, d.payload);
    }
  }

  /** Every proper prefix of a good frame is rejected as truncated. */
  lemma PrefixRejected(library: Library, frame: ByteString, n: nat)
    requires DecodeFrame(library, frame).Ok? && n < |frame|
    ensures DecodeFrame(library, frame[..n]) == Err(if n < 20 then TruncatedHeader else TruncatedFrame)
  {
    hide ReadBig;
    var short := frame[..n];
    if n >= HEADER_SIZE {
      assert short[..4] == frame[..4] && short[4..6] == frame[4..6] && short[6..8] == frame[6..8];
      assert short[8..12] == frame[8..12] && short[12..20] == frame[12..20];
    }
  }

  /** Bytes behind a good frame are never ignored. */
  lemma ExtensionRejected(library: Library, frame: ByteString, extra: ByteString)
    requires DecodeFrame(library, frame).Ok? && extra != []
    ensures DecodeFrame(library, frame + extra) == Err(TrailingData)
  {
    hide ReadBig;
    var long := frame + extra;
    assert long[..4] == frame[..4] && long[4..6] == frame[4..6] && long[6..8] == frame[6..8];
    assert long[8..12] == frame[8..12] && long[12..20] == frame[12..20];
  }

  /** A header that passes: magic, version 2 and no flags. */
  ghost predicate GoodHeader(frame: ByteString) {
    |frame| >= 20 && frame[..8] == [0x4A, 0x46, 0x53, 0x54, 0, 2, 0, 0]
  }

  /** The lengths that a header announces are in range. */
  ghost predicate GoodLengths(frame: ByteString)
    requires |frame| >= 20
  {
    0 < ReadBig(frame[8..12]) <= 1024 * 1024 && ReadBig(frame[12..20]) <= 512 * 1024 * 1024
  }

  /** Every error of the framing is in its case: the header field by field, the lengths, then the size. */
  lemma FramingErrors(library: Library, frame: ByteString)
    ensures var r := DecodeFrame(library, frame);
            && (r == Err(TruncatedHeader) <==> |frame| < 20)
            && (r == Err(BadMagic) <==> |frame| >= 20 && frame[..4] != [0x4A, 0x46, 0x53, 0x54])
            && (r == Err(BadVersion) <==> |frame| >= 20 && frame[..4] == [0x4A, 0x46, 0x53, 0x54] && frame[4..6] != [0, 2])
            && (r == Err(BadFlags) <==> |frame| >= 20 && frame[..6] == [0x4A, 0x46, 0x53, 0x54, 0, 2] && frame[6..8] != [0, 0])
            && (r == Err(TooLarge) <==> GoodHeader(frame) && !GoodLengths(frame))
            && (GoodHeader(frame) && GoodLengths(frame) ==>
                  var size := 20 + ReadBig(frame[8..12]) + ReadBig(frame[12..20]);
                  && (r == Err(TruncatedFrame) <==> |frame| < size)
                  && (r == Err(TrailingData) <==> |frame| > size))
  {
    hide ReadBig, CheckMetadata;
    if |frame| >= 20 {
      WordReads(frame[4..6]);
      WordReads(frame[6..8]);
      assert frame[..6] == frame[..4] + frame[4..6] && frame[..8] == frame[..4] + frame[4..6] + frame[6..8];
      var length := ReadBig(frame[8..12]);
      if GoodHeader(frame) && GoodLengths(frame) && |frame| == 20 + length + ReadBig(frame[12..20]) {
        MetadataErrors(library, frame[20..20 + length], frame[20 + length..]);
      }
    }
  }

  lemma WordReads(b: ByteString)
    requires |b| == 2
    ensures ReadBig(b) == 2 <==> b == [0, 2]
    ensures ReadBig(b) == 0 <==> b == [0, 0]
  {
    assert b[..1][..0] == [];
    assert ReadBig(b[..1]) == b[0];
    var high: int, low: int := b[0], b[1];
    assert ReadBig(b) == 256 * high + low;
  }

  /** And every error of the metadata: text, version, length, checksum, transport, in this order. */
  lemma MetadataErrors(library: Library, text: ByteString, payload: ByteString)
    ensures var r := match library.parse(text)
                     case None => Err(BadMetadata)
                     case Some(metadata) => CheckMetadata(library, metadata, payload);
            && (r == Err(BadMetadata) <==> library.parse(text).None?)
            && (library.parse(text).Some? ==>
                  var m := library.parse(text).value;
                  && (r == Err(VersionMismatch) <==> m.version != 2)
                  && (r == Err(LengthMismatch) <==> m.version == 2 && m.payloadBytes != |payload|)
                  && (r == Err(ChecksumMismatch) <==> m.version == 2 && m.payloadBytes == |payload| && m.checksum != library.crc(payload))
                  && (r == Err(BadTransport) <==>
                        && m.version == 2 && m.payloadBytes == |payload| && m.checksum == library.crc(payload)
                        && m.transport != "http_binary_v1"))
            && (r.Err? ==> r.error in {BadMetadata, VersionMismatch, LengthMismatch, ChecksumMismatch, BadTransport})
  {
  }

  /** What can be sent: metadata text up to 1 MiB and a payload up to 512 MiB. */
  lemma EncodesExactly(library: Library, metadata: Metadata, payload: ByteString)
    ensures var text := library.dump(Stamp(library, metadata, payload));
            && (EncodePrefix(library, metadata, payload).Ok? <==> |text| <= 1024 * 1024 && |payload| <= 512 * 1024 * 1024)
            && (text != [] && EncodePrefix(library, metadata, payload).Ok? && library.parse(text) == Some(Stamp(library, metadata, payload)) ==>
                  WellFramed(library, EncodePrefix(library, metadata, payload).value + payload, text,
                             Decoded(Stamp(library, metadata, payload), payload)))
  {
    hide Header, BigEndian;
    HeaderBytes(|library.dump(Stamp(library, metadata, payload))|, |payload|);
  }

  // --- Tensor shapes --------------------------------------------------------------------------------

  /** validate_tensor_metadata from the element count on: the division guards keep the product from
      overflowing and reject nothing else, since a payload never exceeds the frame limit. */
  method ValidateShape(shape: seq<int>, width: nat, payloadSize: nat) returns (ok: bool)
    requires width > 0 && payloadSize <= MAX_PAYLOAD
    ensures ok <==> (forall k :: 0 <= k < |shape| ==> shape[k] > 0) && Product(shape) * width == payloadSize
  {
    var count := 1;
    for i := 0 to |shape|
      invariant forall k :: 0 <= k < i ==> shape[k] > 0
      invariant count == Product(shape[..i]) && 1 <= count <= MAX_PAYLOAD
    {
      assert shape[..i + 1][..i] == shape[..i];
      if shape[i] <= 0 || count > MAX_PAYLOAD / shape[i] {
        if shape[i] > 0 {
          Guard(count, shape[i]);
          ProductTooBig(shape, i + 1, width);
        }
        return false;
      }
      Guard(count, shape[i]);
      count := count * shape[i];
    }
    assert shape[..|shape|] == shape;
    Guard(count, width);
    ok := count <= MAX_PAYLOAD / width && count * width == payloadSize;
  }

  lemma Guard(count: int, factor: int)
    requires count >= 1 && factor > 0
    ensures count <= MAX_PAYLOAD / factor <==> count * factor <= MAX_PAYLOAD
    ensures count * factor >= 1
  {
    var q, r := MAX_PAYLOAD / factor, MAX_PAYLOAD % factor;
    assert MAX_PAYLOAD == q * factor + r;
    if count <= q {
      Scaled(count, q, factor);
    } else {
      Scaled(q + 1, count, factor);
      assert (q + 1) * factor == q * factor + factor;
    }
    Scaled(1, count, factor);
  }

  lemma {:induction false} ProductTooBig(shape: seq<int>, n: nat, width: nat)
    requires n <= |shape| && Product(shape[..n]) > MAX_PAYLOAD && width > 0
    ensures (forall k :: 0 <= k < |shape| ==> shape[k] > 0) ==> Product(shape) * width > MAX_PAYLOAD
    decreases |shape| - n
  {
    if n == |shape| {
      assert shape[..n] == shape;
      assert Product(shape) * width >= Product(shape);
    } else if shape[n] > 0 {
      assert shape[..n + 1][..n] == shape[..n];
      assert Product(shape[..n]) * shape[n] >= Product(shape[..n]);
      ProductTooBig(shape, n + 1, width);
    }
  }

  // --- The segmented send ------------------------------------------------------------------------------

  /** One sendmsg: interrupted, failed, or the kernel took up to this many of the bytes offered. */
  datatype SendOutcome = Interrupted | Failed | Took(count: nat)

  datatype SendResult = Sent | SendError | Waiting

  function Concat(segments: seq<ByteString>): ByteString {
    if segments == [] then [] else segments[0] + Concat(segments[1..])
  }

  lemma ConcatFrom(segments: seq<ByteString>, first: nat)
    requires first < |segments|
    ensures Concat(segments[first..]) == segments[first] + Concat(segments[first + 1..])
  {
    assert segments[first..][1..] == segments[first + 1..];
  }

  lemma ConcatThree(a: ByteString, b: ByteString, c: ByteString)
    ensures Concat([a, b, c]) == a + b + c
  {
    assert [a, b, c][1..] == [b, c] && [b, c][1..] == [c] && [c][1..] == [];
    assert Concat([c]) == c + [];
    assert Concat([b, c]) == b + c;
  }

  /** Drops the bytes the kernel took from the front of the segments. */
  method Consume(segments: array<ByteString>, start: nat, sent: nat) returns (first: nat)
    requires start <= segments.Length && sent <= |Concat(segments[start..])|
    modifies segments
    ensures start <= first <= segments.Length
    ensures Concat(segments[first..]) == old(Concat(segments[start..]))[sent..]
  {
    first := start;
    var consumed := sent;
    ghost var whole := Concat(segments[start..]);
    while first < segments.Length && consumed >= |segments[first]|
      invariant start <= first <= segments.Length && 0 <= consumed <= sent
      invariant segments[..] == old(segments[..])
      invariant consumed <= |Concat(segments[first..])| && Concat(segments[first..]) == whole[sent - consumed..]
    {
      ConcatFrom(segments[..], first);
      assert segments[..][first..] == segments[first..] && segments[..][first + 1..] == segments[first + 1..];
      consumed := consumed - |segments[first]|;
      first := first + 1;
    }
    if first < segments.Length {
      ConcatFrom(segments[..], first);
      assert segments[..][first..] == segments[first..] && segments[..][first + 1..] == segments[first + 1..];
      ghost var tail := Concat(segments[first + 1..]);
      if consumed != 0 {
        ghost var rest := segments[first + 1..];
        segments[first] := segments[first][consumed..];
        assert segments[first + 1..] == rest;
        ConcatFrom(segments[..], first);
        assert segments[..][first..] == segments[first..] && segments[..][first + 1..] == rest;
      }
    }
  }

  predicate Stops(outcome: SendOutcome) {
    outcome.Failed? || outcome == Took(0)
  }

  /** Bytes the kernel is willing to take before the first failing call. */
  function Willing(outcomes: seq<SendOutcome>): nat {
    if outcomes == [] || Stops(outcomes[0]) then 0
    else (if outcomes[0].Took? then outcomes[0].count else 0) + Willing(outcomes[1..])
  }

  /** The first call from here fails or not, and what remains behind it. */
  lemma WillingStep(outcomes: seq<SendOutcome>, n: nat)
    requires n < |outcomes|
    ensures Willing(outcomes[n..]) ==
            if Stops(outcomes[n]) then 0 else (if outcomes[n].Took? then outcomes[n].count else 0) + Willing(outcomes[n + 1..])
  {
    assert outcomes[n..][1..] == outcomes[n + 1..];
  }

  /** send_stage_frame. However the sends are split, the bytes on the wire are headers, frame prefix and
      payload in this order, as many of them as the kernel takes before a call fails: no gap, no
      repetition. It succeeds exactly when that is everything, fails exactly when a failing call comes
      first, and otherwise is still waiting for the kernel. */
  method SendFrame(headers: ByteString, prefix: ByteString, payload: ByteString, outcomes: seq<SendOutcome>)
    returns (r: SendResult, wire: ByteString)
    ensures var all := headers + prefix + payload; wire == all[..Min(Willing(outcomes), |all|)]
    ensures r.Sent? <==> Willing(outcomes) >= |headers + prefix + payload|
    ensures r.SendError? <==> Willing(outcomes) < |headers + prefix + payload|
                              && exists k :: 0 <= k < |outcomes| && outcomes[k] in {Failed, Took(0)}
  {
    hide Concat, Willing;
    var segments := new ByteString[3][headers, prefix, payload];
    ghost var all := headers + prefix + payload;
    ConcatThree(headers, prefix, payload);
    assert segments[0..] == [headers, prefix, payload] && outcomes[0..] == outcomes;
    wire := [];
    var first, calls := 0, 0;
    while first < segments.Length
      invariant 0 <= first <= segments.Length && calls <= |outcomes|
      invariant wire + Concat(segments[first..]) == all
      invariant Willing(outcomes) >= |wire| && (|wire| < |all| ==> Willing(outcomes) == |wire| + Willing(outcomes[calls..]))
      invariant |wire| == |all| || forall k :: 0 <= k < calls ==> !Stops(outcomes[k])
      decreases |outcomes| - calls, segments.Length - first
    {
      first := SkipEmpty(segments, first);
      if first == segments.Length {
        break;
      }
      SomethingLeft(segments[..], first);
      assert segments[..][first..] == segments[first..];
      WirePrefix(wire, Concat(segments[first..]), all);
      if calls == |outcomes| {
        NothingWilling(outcomes);
        return Waiting, wire;
      }
      WillingStep(outcomes, calls);
      var outcome := outcomes[calls];
      calls := calls + 1;
      if outcome.Interrupted? {
        continue;
      }
      if outcome.Failed? || outcome.count == 0 {
        return SendError, wire;
      }
      var taken := Offer(segments, first, outcome.count);
      WireStep(wire, Concat(segments[first..]), |taken|, all);
      first := Consume(segments, first, |taken|);
      wire := wire + taken;
    }
    assert segments[segments.Length..] == [];
    NothingLeft(wire, all);
    r := Sent;
  }

  lemma SomethingLeft(segments: seq<ByteString>, first: nat)
    requires first < |segments| && segments[first] != []
    ensures Concat(segments[first..]) != []
  {
    ConcatFrom(segments, first);
  }

  lemma NothingWilling(outcomes: seq<SendOutcome>)
    ensures Willing(outcomes[|outcomes|..]) == 0
  {
  }

  lemma WirePrefix(wire: ByteString, rest: ByteString, all: ByteString)
    requires wire + rest == all
    ensures wire <= all
  {
  }

  lemma WireStep(wire: ByteString, offered: ByteString, sent: nat, all: ByteString)
    requires wire + offered == all && sent <= |offered|
    ensures wire + offered[..sent] + offered[sent..] == all
  {
    assert offered == offered[..sent] + offered[sent..];
  }

  lemma NothingLeft(wire: ByteString, all: ByteString)
    ensures wire + Concat([]) == all ==> wire == all
  {
    assert wire + [] == wire;
  }

  method SkipEmpty(segments: array<ByteString>, start: nat) returns (first: nat)
    requires start <= segments.Length
    ensures start <= first <= segments.Length
    ensures first < segments.Length ==> segments[first] != []
    ensures Concat(segments[first..]) == Concat(segments[start..])
  {
    first := start;
    while first < segments.Length && |segments[first]| == 0
      invariant start <= first <= segments.Length && Concat(segments[first..]) == Concat(segments[start..])
    {
      ConcatFrom(segments[..], first);
      assert segments[..][first..] == segments[first..] && segments[..][first + 1..] == segments[first + 1..];
      first := first + 1;
    }
  }

  /** The kernel takes the first bytes of what is offered, at most as many as there are. */
  method Offer(segments: array<ByteString>, first: nat, count: nat) returns (taken: ByteString)
    requires first <= segments.Length
    ensures |taken| == (if count <= |Concat(segments[first..])| then count else |Concat(segments[first..])|)
    ensures taken == Concat(segments[first..])[..|taken|]
  {
    var offered := Concat(segments[first..]);
    taken := offered[..if count <= |offered| then count else |offered|];
  }

  /** End to end: what arrives after the headers decodes to what was sent. */
  lemma SentFrameDecodes(library: Library, headers: ByteString, metadata: Metadata, payload: ByteString, wire: ByteString)
    requires Faithful(library) && EncodePrefix(library, metadata, payload).Ok?
    requires wire == headers + EncodePrefix(library, metadata, payload).value + payload
    ensures DecodeFrame(library, wire[|headers|..]) == Ok(Decoded(Stamp(library, metadata, payload), payload))
  {
    hide DecodeFrame, EncodePrefix;
    FrameRoundTrip(library, metadata, payload);
    assert wire[|headers|..] == EncodePrefix(library, metadata, payload).value + payload;
  }
}
