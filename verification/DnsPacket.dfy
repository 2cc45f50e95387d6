/** Resource records and TXT data of an mDNS answer (internal/discovery/mdns.go:274-316, 368-429, 473-500). */
module DnsPacket {
  import opened Bytes
  import opened DnsName
  import opened Wrappers

  // --- TXT data ---------------------------------------------------------------------------------

  /** encodeTXT: empty strings are skipped, long ones cut to 255 bytes. */
  function EncodedTxt(records: seq<Label>): ByteString {
    Encode(Kept(records, 255))
  }

  method EncodeTxt(records: seq<Label>) returns (out: ByteString)
    ensures out == EncodedTxt(records)
  {
    hide Encode, Kept;
    out := [];
    EncodeNothing(255);
    for i := 0 to |records|
      invariant out == Encode(Kept(records[..i], 255))
    {
      var record := records[i];
      ghost var before := Kept(records[..i], 255);
      KeptStep(records, i, 255);
      assert before + [] == before;
      if record == [] {
        continue;
      }
      if |record| > 255 {
        record := record[..255];
      }
      EncodeAppend(before, record);
      out := out + [|record|];
      out := out + record;
      assert out == Encode(before) + Prefixed(record);
    }
    assert records[..|records|] == records;
  }

  /** decodeTXT: strings up to the first that does not fit. */
  function DecodedTxt(data: ByteString): seq<Label> {
    if data == [] || 1 + data[0] > |data| then []
    else [data[1..1 + data[0]]] + DecodedTxt(data[1 + data[0]..])
  }

  /** One turn of the decoding loop. */
  lemma TxtAt(data: ByteString, offset: nat, done: seq<Label>)
    requires offset < |data|
    ensures var after := offset + 1 + data[offset];
            done + DecodedTxt(data[offset..]) ==
            if after > |data| then done else done + [data[offset + 1..after]] + DecodedTxt(data[after..])
  {
    var rest, length: int := data[offset..], data[offset];
    if offset + 1 + length <= |data| {
      assert rest[1..1 + length] == data[offset + 1..offset + 1 + length];
      assert rest[1 + length..] == data[offset + 1 + length..];
      assert DecodedTxt(rest) == [data[offset + 1..offset + 1 + length]] + DecodedTxt(data[offset + 1 + length..]);
    }
  }

  lemma TxtEnd(data: ByteString)
    ensures data[0..] == data && DecodedTxt(data[|data|..]) == []
  {
  }

  method DecodeTxt(data: ByteString) returns (records: seq<Label>)
    ensures records == DecodedTxt(data)
  {
    hide DecodedTxt;
    records := [];
    var offset := 0;
    TxtEnd(data);
    while offset < |data|
      invariant 0 <= offset <= |data| && records + DecodedTxt(data[offset..]) == DecodedTxt(data)
    {
      TxtAt(data, offset, records);
      var length: int := data[offset];
      offset := offset + 1;
      if offset + length > |data| {
        return;
      }
      records := records + [data[offset..offset + length]];
      offset := offset + length;
    }
  }

  lemma {:induction false} EncodeCons(text: Label, labels: seq<Label>)
    requires |text| < 256 && forall l :: l in labels ==> |l| < 256
    ensures Encode([text] + labels) == Prefixed(text) + Encode(labels)
    decreases |labels|
  {
    hide Prefixed;
    var all := [text] + labels;
    if labels == [] {
      assert all == [text] && all[..0] == [];
    } else {
      var init, last := labels[..|labels| - 1], labels[|labels| - 1];
      EncodeCons(text, init);
      assert all[..|all| - 1] == [text] + init && all[|all| - 1] == last;
    }
  }

  lemma {:induction false} DecodeEncode(labels: seq<Label>)
    requires forall l :: l in labels ==> |l| < 256
    ensures DecodedTxt(Encode(labels)) == labels
  {
    if labels != [] {
      var text, rest := labels[0], labels[1..];
      assert text in labels && labels == [text] + rest;
      DecodeEncode(rest);
      EncodeCons(text, rest);
      var data := Prefixed(text) + Encode(rest);
      assert data[1..1 + |text|] == text && data[1 + |text|..] == Encode(rest);
    }
  }

  /** TXT strings come back without the empty ones and cut to 255 bytes, so unchanged exactly when
      each has 1 to 255 bytes. */
  lemma TxtRoundTrip(records: seq<Label>)
    ensures DecodedTxt(EncodedTxt(records)) == Kept(records, 255)
    ensures DecodedTxt(EncodedTxt(records)) == records <==> Fits(records, 255)
  {
    DecodeEncode(Kept(records, 255));
    KeptSize(records, 255);
    assert Kept(records, 255) == records ==> Fits(records, 255);
  }

  // --- Records ----------------------------------------------------------------------------------

  const TYPE_PTR := 12
  const TYPE_TXT := 16
  const TYPE_SRV := 33

  datatype Record = Record(name: ByteString, recordType: nat, ttl: nat, data: ByteString)

  /** What readDNSRecord returns. */
  datatype Parsed = Parsed(recordType: nat, data: ByteString, next: nat)

  /** Type, class and time to live. */
  function Fields(record: Record): (b: ByteString)
    ensures |b| == 8
  {
    BigEndian(record.recordType, 2) + BigEndian(1, 2) + BigEndian(record.ttl, 4)
  }

  /** appendResourceRecord; each number is cut to its width. */
  function EncodedRecord(record: Record): ByteString {
    EncodedName(record.name) + Fields(record) + BigEndian(|record.data|, 2) + record.data
  }

  method AppendRecord(packet: ByteString, record: Record) returns (out: ByteString)
    ensures out == packet + EncodedRecord(record)
  {
    hide BigEndian, EncodedName;
    out := AppendName(packet, record.name);
    out := out + BigEndian(record.recordType, 2);
    out := out + BigEndian(1, 2);
    out := out + BigEndian(record.ttl, 4);
    out := out + BigEndian(|record.data|, 2);
    out := out + record.data;
    assert out == packet + EncodedRecord(record);
  }

  /** Where the name at an offset ends, if there is one. */
  ghost function NameEnd(packet: ByteString, offset: nat): Option<nat> {
    if exists path, last :: Derivation(packet, offset, path, last) then
      var path, last :| Derivation(packet, offset, path, last);
      Some(NextOf(packet, path, last))
    else None
  }

  method ReadName(packet: ByteString, offset: nat) returns (r: Option<nat>)
    ensures r == NameEnd(packet, offset)
  {
    hide Derivation, NextOf, LabelsOf;
    var ok, labels, next := ReadLabels(packet, offset);
    r := if ok then Some(next) else None;
  }

  lemma WrittenNameEnds(prefix: ByteString, name: ByteString, suffix: ByteString)
    ensures NameEnd(prefix + EncodedName(name) + suffix, |prefix|) == Some(|prefix| + |EncodedName(name)|)
  {
    hide Derivation, NextOf, LabelsOf, EncodedName;
    AppendedReads(prefix, name, suffix);
  }

  /** The fixed fields and the data behind a name that ends at next. */
  function RecordBody(packet: ByteString, next: nat): Option<Parsed> {
    if next + 10 > |packet| then None
    else
      var end := next + 10 + ReadBig(packet[next + 8..next + 10]);
      if end > |packet| then None
      else Some(Parsed(ReadBig(packet[next..next + 2]), packet[next + 10..end], end))
  }

  /** The record at an offset, in terms of the names the packet contains. */
  ghost function RecordAt(packet: ByteString, offset: nat): Option<Parsed> {
    var name := NameEnd(packet, offset);
    if name.None? then None else RecordBody(packet, name.value)
  }

  method ReadRecord(packet: ByteString, offset: nat) returns (r: Option<Parsed>)
    ensures r == RecordAt(packet, offset)
    ensures r.Some? ==> r.value.next <= |packet|
  {
    hide NameEnd, ReadBig;
    var name := ReadName(packet, offset);
    if name.None? || name.value + 10 > |packet| {
      return None;
    }
    var next := name.value;
    var end := next + 10 + ReadBig(packet[next + 8..next + 10]);
    if end > |packet| {
      return None;
    }
    r := Some(Parsed(ReadBig(packet[next..next + 2]), packet[next + 10..end], end));
  }

  lemma ReadCut(value: nat)
    ensures ReadBig(BigEndian(value, 2)) == value % 0x1_0000
  {
    var high := value / 256;
    assert BigEndian(high, 1) == [high % 256] by { assert BigEndian(high / 256, 0) == []; }
    assert BigEndian(value, 2) == [high % 256] + [value % 256];
    var b: ByteString := [high % 256, value % 256];
    assert b[..1] == [high % 256] && [high % 256][..0] == [] && ReadBig([high % 256]) == high % 256;
    assert ReadBig(b) == 256 * (high % 256) + value % 256;
  }

  /** What the reader makes of a record whose encoding starts at start: type and length are cut to two bytes. */
  function Understood(record: Record, start: nat): Parsed {
    var length := |record.data| % 0x1_0000;
    Parsed(record.recordType % 0x1_0000, record.data[..length], start + |EncodedName(record.name)| + 10 + length)
  }

  /** What the fields behind a written name say. */
  lemma BodyOf(before: ByteString, record: Record, suffix: ByteString)
    ensures var packet := before + Fields(record) + BigEndian(|record.data|, 2) + record.data + suffix;
            var length := |record.data| % 0x1_0000;
            RecordBody(packet, |before|) ==
            Some(Parsed(record.recordType % 0x1_0000, record.data[..length], |before| + 10 + length))
  {
    hide BigEndian, ReadBig;
    var packet := before + Fields(record) + BigEndian(|record.data|, 2) + record.data + suffix;
    var next, length := |before|, |record.data| % 0x1_0000;
    assert packet[next..next + 2] == BigEndian(record.recordType, 2);
    assert packet[next + 8..next + 10] == BigEndian(|record.data|, 2);
    ReadCut(record.recordType);
    ReadCut(|record.data|);
    assert packet[next + 10..next + 10 + length] == record.data[..length];
  }

  /** A record appended anywhere reads back with its type and data exactly when both fit two bytes. */
  lemma RecordRoundTrip(prefix: ByteString, record: Record, suffix: ByteString)
    ensures RecordAt(prefix + EncodedRecord(record) + suffix, |prefix|) == Some(Understood(record, |prefix|))
    ensures Understood(record, |prefix|) == Parsed(record.recordType, record.data, |prefix| + |EncodedRecord(record)|) <==>
            record.recordType < 0x1_0000 && |record.data| < 0x1_0000
  {
    hide EncodedName, NameEnd, Fields, BigEndian, RecordBody;
    var tail := Fields(record) + BigEndian(|record.data|, 2) + record.data + suffix;
    var packet := prefix + EncodedRecord(record) + suffix;
    assert packet == prefix + EncodedName(record.name) + tail;
    WrittenNameEnds(prefix, record.name, tail);
    var before := prefix + EncodedName(record.name);
    assert packet == before + Fields(record) + BigEndian(|record.data|, 2) + record.data + suffix;
    BodyOf(before, record, suffix);
  }

  /** The packet holds such a record at an offset: its owner, its class IN, its time to live and, for the
      reader, its type and data. */
  ghost predicate Carries(packet: ByteString, offset: nat, record: Record, next: nat) {
    var fields := offset + |EncodedName(record.name)|;
    && Reads(packet, offset, LabelsWritten(record.name), fields)
    && RecordAt(packet, offset) == Some(Parsed(record.recordType, record.data, next))
    && fields + 10 <= next <= |packet|
    && packet[fields + 2..fields + 4] == [0, 1]
    && ReadBig(packet[fields + 4..fields + 8]) == record.ttl
  }

  lemma ClassBytes()
    ensures BigEndian(1, 2) == [0, 1]
  {
    assert BigEndian(0, 1) == [0] by { assert BigEndian(0, 0) == []; }
  }

  lemma FieldBytes(before: ByteString, record: Record, rest: ByteString)
    requires record.ttl < 0x1_0000_0000
    ensures var packet := before + Fields(record) + rest;
            && packet[|before| + 2..|before| + 4] == [0, 1]
            && ReadBig(packet[|before| + 4..|before| + 8]) == record.ttl
  {
    hide BigEndian, ReadBig;
    var packet, at := before + Fields(record) + rest, |before|;
    ClassBytes();
    assert packet[at + 2..at + 4] == BigEndian(1, 2);
    assert packet[at + 4..at + 8] == BigEndian(record.ttl, 4);
    Powers();
    BigRoundTrip(record.ttl, 4);
  }

  /** Every field of an appended record is in the packet. */
  lemma RecordCarried(prefix: ByteString, record: Record, suffix: ByteString)
    requires record.recordType < 0x1_0000 && |record.data| < 0x1_0000 && record.ttl < 0x1_0000_0000
    ensures Carries(prefix + EncodedRecord(record) + suffix, |prefix|, record, |prefix| + |EncodedRecord(record)|)
  {
    hide EncodedName, RecordAt, Reads, Fields, BigEndian, ReadBig, Understood, LabelsWritten;
    var rest := BigEndian(|record.data|, 2) + record.data + suffix;
    var packet := prefix + EncodedRecord(record) + suffix;
    assert packet == prefix + EncodedName(record.name) + (Fields(record) + rest);
    assert packet == prefix + EncodedName(record.name) + Fields(record) + rest;
    AppendedReads(prefix, record.name, Fields(record) + rest);
    FieldBytes(prefix + EncodedName(record.name), record, rest);
    RecordRoundTrip(prefix, record, suffix);
  }

  // --- All records of a packet ------------------------------------------------------------------

  function TxtIn(recordType: nat, data: ByteString): seq<seq<Label>> {
    if recordType == TYPE_TXT then [DecodedTxt(data)] else []
  }

  /** TXT data of up to count records from an offset, stopping at the first that does not parse. */
  ghost function Collected(packet: ByteString, offset: nat, count: nat): seq<seq<Label>>
    decreases count
  {
    if count == 0 then []
    else
      var r := RecordAt(packet, offset);
      if r.None? then []
      else TxtIn(r.value.recordType, r.value.data) + Collected(packet, r.value.next, count - 1)
  }

  method CollectTxtRecords(packet: ByteString, offset: nat, count: nat) returns (records: seq<seq<Label>>)
    ensures records == Collected(packet, offset, count)
  {
    hide RecordAt, DecodedTxt;
    records := [];
    var at := offset;
    for i := 0 to count
      invariant records + Collected(packet, at, count - i) == Collected(packet, offset, count)
    {
      ghost var rest := Collected(packet, at, count - i);
      ghost var before := records;
      var parsed := ReadRecord(packet, at);
      if parsed.None? {
        assert records + [] == records;
        return;
      }
      var p := parsed.value;
      if p.recordType == TYPE_TXT {
        var txt := DecodeTxt(p.data);
        records := records + [txt];
      }
      assert records == before + TxtIn(p.recordType, p.data);
      at := p.next;
      assert before + rest == records + Collected(packet, at, count - i - 1);
    }
  }

  function EncodedRecords(records: seq<Record>): ByteString {
    if records == [] then [] else EncodedRecord(records[0]) + EncodedRecords(records[1..])
  }

  function TxtOf(records: seq<Record>): seq<seq<Label>> {
    if records == [] then []
    else TxtIn(records[0].recordType % 0x1_0000, records[0].data) + TxtOf(records[1..])
  }

  /** The length field can hold the length of every record's data. */
  ghost predicate Encodable(records: seq<Record>) {
    forall r :: r in records ==> |r.data| < 0x1_0000
  }

  lemma FirstRecord(prefix: ByteString, records: seq<Record>, suffix: ByteString)
    requires records != []
    ensures var packet := prefix + EncodedRecords(records) + suffix;
            && packet == prefix + EncodedRecord(records[0]) + (EncodedRecords(records[1..]) + suffix)
            && packet == prefix + EncodedRecord(records[0]) + EncodedRecords(records[1..]) + suffix
  {
    hide EncodedRecord;
    var a, b := EncodedRecord(records[0]), EncodedRecords(records[1..]);
    assert prefix + (a + b) + suffix == prefix + a + (b + suffix);
    assert prefix + (a + b) + suffix == prefix + a + b + suffix;
  }

  /** Records written one after the other, anywhere in a packet, are collected in order. */
  lemma {:induction false} RecordsRoundTrip(prefix: ByteString, records: seq<Record>, suffix: ByteString)
    requires Encodable(records)
    ensures Collected(prefix + EncodedRecords(records) + suffix, |prefix|, |records|) == TxtOf(records)
    decreases |records|
  {
    hide *;
    if records == [] {
      NothingCollected(prefix + EncodedRecords(records) + suffix, |prefix|);
    } else {
      var record, rest := records[0], records[1..];
      assert Encodable(rest) && |record.data| < 0x1_0000 by { EncodableParts(records); }
      FirstRecord(prefix, records, suffix);
      RecordRoundTrip(prefix, record, EncodedRecords(rest) + suffix);
      WholeData(record, |prefix|);
      RecordsRoundTrip(prefix + EncodedRecord(record), rest, suffix);
      CollectedStep(prefix + EncodedRecords(records) + suffix, |prefix|, records);
    }
  }

  lemma EncodableParts(records: seq<Record>)
    requires records != [] && Encodable(records)
    ensures Encodable(records[1..]) && |records[0].data| < 0x1_0000
  {
  }

  lemma NothingCollected(packet: ByteString, offset: nat)
    ensures Collected(packet, offset, 0) == TxtOf([]) == []
  {
  }

  lemma CollectedStep(packet: ByteString, offset: nat, records: seq<Record>)
    requires records != []
    requires var record := records[0];
             var next := offset + |EncodedRecord(record)|;
             && RecordAt(packet, offset) == Some(Parsed(record.recordType % 0x1_0000, record.data, next))
             && Collected(packet, next, |records| - 1) == TxtOf(records[1..])
    ensures Collected(packet, offset, |records|) == TxtOf(records)
  {
    hide RecordAt, EncodedRecord, DecodedTxt;
  }

  lemma WholeData(record: Record, start: nat)
    requires |record.data| < 0x1_0000
    ensures Understood(record, start) == Parsed(record.recordType % 0x1_0000, record.data, start + |EncodedRecord(record)|)
  {
    hide EncodedName, Fields, BigEndian;
    assert record.data[..|record.data|] == record.data;
  }

  // --- A whole packet ---------------------------------------------------------------------------

  /** Question: a name, its type and the class. */
  datatype Question = Question(name: ByteString, recordType: nat)

  function QuestionFields(question: Question): (b: ByteString)
    ensures |b| == 4
  {
    BigEndian(question.recordType, 2) + BigEndian(1, 2)
  }

  function EncodedQuestion(question: Question): ByteString {
    EncodedName(question.name) + QuestionFields(question)
  }

  function EncodedQuestions(questions: seq<Question>): ByteString {
    if questions == [] then [] else EncodedQuestion(questions[0]) + EncodedQuestions(questions[1..])
  }

  /** Offset behind the questions, or 0 when one does not parse. */
  ghost function Skipped(packet: ByteString, offset: nat, count: nat): nat
    decreases count
  {
    if count == 0 then offset
    else
      var name := NameEnd(packet, offset);
      if name.None? || name.value + 4 > |packet| then 0 else Skipped(packet, name.value + 4, count - 1)
  }

  method SkipQuestions(packet: ByteString, count: nat) returns (offset: nat)
    ensures offset == Skipped(packet, 12, count)
    ensures offset == 0 || (4 <= offset && (count > 0 ==> offset <= |packet|))
  {
    hide NameEnd;
    offset := 12;
    for i := 0 to count
      invariant 4 <= offset && (i > 0 ==> offset <= |packet|)
      invariant Skipped(packet, offset, count - i) == Skipped(packet, 12, count)
    {
      var name := ReadName(packet, offset);
      if name.None? || name.value + 4 > |packet| {
        return 0;
      }
      offset := name.value + 4;
    }
  }

  lemma Regroup(p: ByteString, a: ByteString, b: ByteString, c: ByteString, s: ByteString)
    ensures p + (a + b + c) + s == p + a + (b + c + s) == p + (a + b) + c + s
  {
  }

  lemma FirstQuestion(prefix: ByteString, questions: seq<Question>, suffix: ByteString)
    requires questions != []
    ensures var packet := prefix + EncodedQuestions(questions) + suffix;
            var question, rest := questions[0], EncodedQuestions(questions[1..]);
            && packet == prefix + EncodedName(question.name) + (QuestionFields(question) + rest + suffix)
            && packet == prefix + EncodedQuestion(question) + rest + suffix
  {
    hide EncodedName, QuestionFields;
    var question := questions[0];
    Regroup(prefix, EncodedName(question.name), QuestionFields(question), EncodedQuestions(questions[1..]), suffix);
  }

  /** Questions written one after the other are skipped to their end. */
  lemma {:induction false} QuestionsSkipped(prefix: ByteString, questions: seq<Question>, suffix: ByteString)
    ensures Skipped(prefix + EncodedQuestions(questions) + suffix, |prefix|, |questions|) ==
            |prefix| + |EncodedQuestions(questions)|
    decreases |questions|
  {
    hide NameEnd, EncodedName, QuestionFields;
    if questions != [] {
      var question, rest := questions[0], EncodedQuestions(questions[1..]);
      FirstQuestion(prefix, questions, suffix);
      WrittenNameEnds(prefix, question.name, QuestionFields(question) + rest + suffix);
      QuestionsSkipped(prefix + EncodedQuestion(question), questions[1..], suffix);
    }
  }

  /** appendHeader: id, flags and the four counts. */
  function Header(id: nat, flags: nat, questions: nat, answers: nat, authorities: nat, additional: nat): (b: ByteString)
    ensures |b| == 12
  {
    BigEndian(id, 2) + BigEndian(flags, 2) + BigEndian(questions, 2) + BigEndian(answers, 2)
    + BigEndian(authorities, 2) + BigEndian(additional, 2)
  }

  /** Number of records a header announces, in all three sections. */
  function RecordCount(packet: ByteString): nat
    requires |packet| >= 12
  {
    ReadBig(packet[6..8]) + ReadBig(packet[8..10]) + ReadBig(packet[10..12])
  }

  /** The TXT answers of any packet. */
  ghost function TxtAnswers(packet: ByteString): seq<seq<Label>> {
    if |packet| < 12 then []
    else
      var offset := Skipped(packet, 12, ReadBig(packet[4..6]));
      if offset == 0 then [] else Collected(packet, offset, RecordCount(packet))
  }

  method ParseTxtAnswers(packet: ByteString) returns (records: seq<seq<Label>>)
    ensures records == TxtAnswers(packet)
  {
    hide Skipped, Collected, ReadBig;
    if |packet| < 12 {
      return [];
    }
    var questionCount := ReadBig(packet[4..6]);
    var answerCount := ReadBig(packet[6..8]) + ReadBig(packet[8..10]) + ReadBig(packet[10..12]);
    var offset := SkipQuestions(packet, questionCount);
    if offset == 0 {
      return [];
    }
    records := CollectTxtRecords(packet, offset, answerCount);
  }

  /** Questions follow each other: each is a well-formed name and four bytes, inside the packet. */
  ghost predicate Asked(packet: ByteString, at: seq<nat>) {
    forall i :: 0 <= i < |at| - 1 ==>
      NameEnd(packet, at[i]).Some? && at[i + 1] == NameEnd(packet, at[i]).value + 4 <= |packet|
  }

  lemma {:induction false} SkippedChain(packet: ByteString, offset: nat, count: nat) returns (at: seq<nat>)
    requires Skipped(packet, offset, count) != 0
    ensures |at| == count + 1 && at[0] == offset && at[count] == Skipped(packet, offset, count) && Asked(packet, at)
    decreases count
  {
    hide NameEnd;
    at := [offset];
    if count > 0 {
      var rest := SkippedChain(packet, NameEnd(packet, offset).value + 4, count - 1);
      at := [offset] + rest;
    }
  }

  /** A packet gives answers only when all the questions it announces are there, and then the answers are
      the records right behind them. */
  lemma AnswersBehindQuestions(packet: ByteString) returns (at: seq<nat>)
    requires TxtAnswers(packet) != []
    ensures |packet| >= 12 && |at| == ReadBig(packet[4..6]) + 1 && at[0] == 12 && Asked(packet, at)
    ensures TxtAnswers(packet) == Collected(packet, at[|at| - 1], RecordCount(packet))
  {
    hide NameEnd, Collected, ReadBig, Asked, Skipped;
    at := SkippedChain(packet, 12, ReadBig(packet[4..6]));
  }

  lemma Between(before: ByteString, b: ByteString, after: ByteString)
    ensures (before + b + after)[|before|..|before| + |b|] == b
  {
  }

  lemma HeaderReads(id: nat, flags: nat, questions: nat, answers: nat, authorities: nat, additional: nat)
    ensures var header := Header(id, flags, questions, answers, authorities, additional);
            && ReadBig(header[4..6]) == questions % 0x1_0000
            && RecordCount(header) == answers % 0x1_0000 + authorities % 0x1_0000 + additional % 0x1_0000
  {
    hide BigEndian, ReadBig;
    var q, a, n, r := BigEndian(questions, 2), BigEndian(answers, 2), BigEndian(authorities, 2), BigEndian(additional, 2);
    var header := Header(id, flags, questions, answers, authorities, additional);
    var start := BigEndian(id, 2) + BigEndian(flags, 2);
    assert header == start + q + (a + n + r) == start + q + a + (n + r) == start + q + a + n + r + [];
    Between(start, q, a + n + r);
    Between(start + q, a, n + r);
    Between(start + q + a, n, r);
    Between(start + q + a + n, r, []);
    ReadCut(questions);
    ReadCut(answers);
    ReadCut(authorities);
    ReadCut(additional);
  }

  lemma HeaderKept(header: ByteString, rest: ByteString)
    requires |header| == 12
    ensures (header + rest)[4..6] == header[4..6] && RecordCount(header + rest) == RecordCount(header)
  {
    hide ReadBig;
    var packet := header + rest;
    assert packet[4..6] == header[4..6] && packet[6..8] == header[6..8];
    assert packet[8..10] == header[8..10] && packet[10..12] == header[10..12];
  }

  lemma PacketParses(header: ByteString, questions: seq<Question>, records: seq<Record>)
    requires |header| == 12 && ReadBig(header[4..6]) == |questions| && RecordCount(header) == |records|
    requires Encodable(records)
    ensures TxtAnswers(header + EncodedQuestions(questions) + EncodedRecords(records)) == TxtOf(records)
  {
    hide *;
    var asked, written := EncodedQuestions(questions), EncodedRecords(records);
    var packet := header + asked + written;
    assert packet == header + (asked + written);
    HeaderKept(header, asked + written);
    QuestionsSkipped(header, questions, written);
    RecordsRoundTrip(header + asked, records, []);
    assert packet + [] == packet;
    AnswersFrom(packet, |questions|, |header + asked|, |records|);
  }

  lemma AnswersFrom(packet: ByteString, questions: nat, offset: nat, count: nat)
    requires |packet| >= 12 && ReadBig(packet[4..6]) == questions && RecordCount(packet) == count
    requires Skipped(packet, 12, questions) == offset && offset != 0
    ensures TxtAnswers(packet) == Collected(packet, offset, count)
  {
  }

  lemma Uncut(n: nat)
    requires n < 0x1_0000
    ensures n % 0x1_0000 == n
  {
  }

  /** Any packet of questions and records in whatever sections, with its true counts in the header, gives
      the TXT data of its records in order. */
  lemma PacketRoundTrip(id: nat, flags: nat, questions: seq<Question>, answers: seq<Record>,
                        authorities: seq<Record>, additional: seq<Record>)
    requires |questions| < 0x1_0000 && |answers| < 0x1_0000 && |authorities| < 0x1_0000 && |additional| < 0x1_0000
    requires Encodable(answers + authorities + additional)
    ensures TxtAnswers(Header(id, flags, |questions|, |answers|, |authorities|, |additional|)
                       + EncodedQuestions(questions) + EncodedRecords(answers + authorities + additional)) ==
            TxtOf(answers + authorities + additional)
  {
    hide *;
    Uncut(|questions|);
    Uncut(|answers|);
    Uncut(|authorities|);
    Uncut(|additional|);
    HeaderReads(id, flags, |questions|, |answers|, |authorities|, |additional|);
    PacketParses(Header(id, flags, |questions|, |answers|, |authorities|, |additional|), questions, answers + authorities + additional);
  }

  // --- The announcement of a node ------------------------------------------------------------------

  const TTL_SECONDS := 30

  function ServiceData(port: nat, host: ByteString): ByteString {
    BigEndian(0, 2) + BigEndian(0, 2) + BigEndian(port, 2) + EncodedName(host)
  }

  /** The three records of buildDNSResponse. */
  function Announced(service: ByteString, instanceName: ByteString, host: ByteString, port: nat, strings: seq<Label>): seq<Record> {
    [Record(service, TYPE_PTR, TTL_SECONDS, EncodedName(instanceName)),
     Record(instanceName, TYPE_SRV, TTL_SECONDS, ServiceData(port, host)),
     Record(instanceName, TYPE_TXT, TTL_SECONDS, EncodedTxt(strings))]
  }

  method BuildResponse(service: ByteString, instanceName: ByteString, host: ByteString, port: nat, strings: seq<Label>)
    returns (packet: ByteString)
    ensures packet == Header(0, 0x8400, 0, 3, 0, 0) + EncodedRecords(Announced(service, instanceName, host, port, strings))
  {
    hide Header, EncodedRecord, EncodedTxt, EncodedName, BigEndian;
    var records := Announced(service, instanceName, host, port, strings);
    var target := AppendName([], instanceName);
    assert target == EncodedName(instanceName);
    packet := AppendRecord(Header(0, 0x8400, 0, 3, 0, 0), Record(service, TYPE_PTR, TTL_SECONDS, target));
    var srv := AppendName(BigEndian(0, 2) + BigEndian(0, 2) + BigEndian(port, 2), host);
    packet := AppendRecord(packet, Record(instanceName, TYPE_SRV, TTL_SECONDS, srv));
    var txt := EncodeTxt(strings);
    packet := AppendRecord(packet, Record(instanceName, TYPE_TXT, TTL_SECONDS, txt));
    ThreeRecords(records);
  }

  lemma ThreeRecords(records: seq<Record>)
    requires |records| == 3
    ensures EncodedRecords(records) == EncodedRecord(records[0]) + EncodedRecord(records[1]) + EncodedRecord(records[2])
    ensures TxtOf(records) == TxtIn(records[0].recordType % 0x1_0000, records[0].data)
                              + TxtIn(records[1].recordType % 0x1_0000, records[1].data)
                              + TxtIn(records[2].recordType % 0x1_0000, records[2].data)
  {
    hide EncodedRecord, DecodedTxt;
    var two, one := records[1..], records[2..];
    assert two[1..] == one && one[1..] == [];
    assert EncodedRecords(one) == EncodedRecord(records[2]) + [];
    assert TxtOf(one) == TxtIn(records[2].recordType % 0x1_0000, records[2].data) + [];
  }

  /** The announcement is understood: its strings come out without the empty ones and cut to 255 bytes, so
      unchanged exactly when each has 1 to 255 bytes. */
  lemma AnnouncementUnderstood(service: ByteString, instanceName: ByteString, host: ByteString, port: nat, strings: seq<Label>)
    requires Encodable(Announced(service, instanceName, host, port, strings))
    ensures var packet := Header(0, 0x8400, 0, 3, 0, 0) + EncodedRecords(Announced(service, instanceName, host, port, strings));
            && TxtAnswers(packet) == [Kept(strings, 255)]
            && (TxtAnswers(packet) == [strings] <==> Fits(strings, 255))
  {
    hide *;
    var records := Announced(service, instanceName, host, port, strings);
    HeaderReads(0, 0x8400, 0, 3, 0, 0);
    var header := Header(0, 0x8400, 0, 3, 0, 0);
    ThreeAnnounced(service, instanceName, host, port, strings);
    PacketParses(header, [], records);
    assert header + [] == header;
    TxtRoundTrip(strings);
    assert TxtAnswers(header + EncodedRecords(records))[0] == Kept(strings, 255);
  }

  lemma ThreeAnnounced(service: ByteString, instanceName: ByteString, host: ByteString, port: nat, strings: seq<Label>)
    ensures var records := Announced(service, instanceName, host, port, strings);
            |records| == 3 && TxtOf(records) == [DecodedTxt(EncodedTxt(strings))] && EncodedQuestions([]) == []
  {
    hide DecodedTxt, EncodedTxt, EncodedName, ServiceData, TxtOf;
    ThreeRecords(Announced(service, instanceName, host, port, strings));
  }

  lemma NameAlone(name: ByteString)
    ensures Reads(EncodedName(name), 0, LabelsWritten(name), |EncodedName(name)|)
  {
    hide EncodedName, Reads, LabelsWritten;
    AppendedReads([], name, []);
    assert [] + EncodedName(name) + [] == EncodedName(name);
  }

  /** SRV data: priority and weight zero, the port, and the host as a name. */
  lemma ServiceReads(port: nat, host: ByteString)
    ensures var data := ServiceData(port, host);
            && |data| > 6 && data[..4] == [0, 0, 0, 0] && ReadBig(data[4..6]) == port % 0x1_0000
            && Reads(data, 6, LabelsWritten(host), |data|)
  {
    hide EncodedName, Reads, LabelsWritten, ReadBig;
    var data, front := ServiceData(port, host), BigEndian(0, 2) + BigEndian(0, 2) + BigEndian(port, 2);
    NameNotEmpty(host);
    AppendedReads(front, host, []);
    assert data == front + EncodedName(host) + [] && data[4..6] == BigEndian(port, 2);
    ReadCut(port);
    assert BigEndian(0, 2) == [0, 0] by { assert BigEndian(0, 1) == [0] by { assert BigEndian(0, 0) == []; } }
  }

  lemma NameNotEmpty(name: ByteString)
    ensures EncodedName(name) != []
  {
  }

  /** A reader finds exactly three records in the announcement: the service points at the instance, the
      instance is served at host and port, and its strings are the TXT data. */
  lemma AnnouncedRecords(service: ByteString, instanceName: ByteString, host: ByteString, port: nat, strings: seq<Label>)
    requires Encodable(Announced(service, instanceName, host, port, strings))
    ensures var packet := Header(0, 0x8400, 0, 3, 0, 0) + EncodedRecords(Announced(service, instanceName, host, port, strings));
            exists target, address, text, second: nat, third: nat ::
              && Carries(packet, 12, Record(service, 12, 30, target), second)
              && Carries(packet, second, Record(instanceName, 33, 30, address), third)
              && Carries(packet, third, Record(instanceName, 16, 30, text), |packet|)
              && Reads(target, 0, LabelsWritten(instanceName), |target|)
              && |address| > 6 && address[..4] == [0, 0, 0, 0] && ReadBig(address[4..6]) == port % 0x1_0000
              && Reads(address, 6, LabelsWritten(host), |address|)
              && DecodedTxt(text) == Kept(strings, 255)
  {
    hide *;
    var records := Announced(service, instanceName, host, port, strings);
    var header := Header(0, 0x8400, 0, 3, 0, 0);
    var packet := header + EncodedRecords(records);
    AnnouncedAre(service, instanceName, host, port, strings);
    var a, b, c := EncodedRecord(records[0]), EncodedRecord(records[1]), EncodedRecord(records[2]);
    ThreeRecords(records);
    assert packet == header + a + (b + c) == (header + a) + b + c == (header + a + b) + c + [];
    RecordCarried(header, records[0], b + c);
    RecordCarried(header + a, records[1], c);
    RecordCarried(header + a + b, records[2], []);
    NameAlone(instanceName);
    ServiceReads(port, host);
    TxtRoundTrip(strings);
  }

  lemma AnnouncedAre(service: ByteString, instanceName: ByteString, host: ByteString, port: nat, strings: seq<Label>)
    requires Encodable(Announced(service, instanceName, host, port, strings))
    ensures var records := Announced(service, instanceName, host, port, strings);
            && records == [Record(service, 12, 30, EncodedName(instanceName)),
                           Record(instanceName, 33, 30, ServiceData(port, host)),
                           Record(instanceName, 16, 30, EncodedTxt(strings))]
            && |records[0].data| < 0x1_0000 && |records[1].data| < 0x1_0000 && |records[2].data| < 0x1_0000
  {
    hide EncodedName, ServiceData, EncodedTxt;
  }
}
