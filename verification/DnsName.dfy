/** Names in mDNS packets: the encoder and the reader with compression pointers
    (internal/discovery/mdns.go:318-334, 431-471; section 4.1.4 of RFC 1035). */
module DnsName {
  import opened Bytes
  import Counting

  const DOT: Byte := 46

  type Label = ByteString

  // --- What a packet says at an offset -----------------------------------------------------------

  datatype Step = Bad | End | Jump(target: nat) | Piece(text: Label, after: nat)

  function StepAt(packet: ByteString, offset: nat): Step {
    if offset >= |packet| then Bad
    else
      var length: int := packet[offset];
      if length >= 0xC0 then
        if offset + 1 >= |packet| then Bad else Jump(length % 64 * 256 + packet[offset + 1])
      else if length >= 0x40 then Bad
      else if length == 0 then End
      else if offset + 1 + length > |packet| then Bad
      else Piece(packet[offset + 1..offset + 1 + length], offset + 1 + length)
  }

  /** Offset the reader goes to next. */
  function Follow(step: Step): nat
    requires step.Jump? || step.Piece?
  {
    match step
    case Jump(target) => target
    case Piece(_, after) => after
  }

  /** Consecutive offsets of a reading, none of them final. */
  ghost predicate Path(packet: ByteString, path: seq<nat>, last: nat) {
    if path == [] then true
    else
      var step := StepAt(packet, path[|path| - 1]);
      && (step.Jump? || step.Piece?)
      && Follow(step) == last
      && Path(packet, path[..|path| - 1], path[|path| - 1])
  }

  /** The name at start is well formed: finitely many labels and pointers lead to an end. */
  ghost predicate Derivation(packet: ByteString, start: nat, path: seq<nat>, last: nat) {
    && Path(packet, path, last)
    && (path + [last])[0] == start
    && StepAt(packet, last).End?
  }

  function LabelsOf(packet: ByteString, path: seq<nat>): seq<Label> {
    if path == [] then []
    else
      var step := StepAt(packet, path[|path| - 1]);
      LabelsOf(packet, path[..|path| - 1]) + if step.Piece? then [step.text] else []
  }

  /** Where parsing continues: behind the first pointer, or behind the end when there is none. */
  function NextAfter(packet: ByteString, path: seq<nat>): (next: nat)
  {
    if path == [] then 0
    else
      var before := NextAfter(packet, path[..|path| - 1]);
      if before != 0 then before
      else if StepAt(packet, path[|path| - 1]).Jump? then path[|path| - 1] + 2
      else 0
  }

  function NextOf(packet: ByteString, path: seq<nat>, last: nat): nat {
    if NextAfter(packet, path) != 0 then NextAfter(packet, path) else last + 1
  }

  // --- Readings are deterministic and never repeat an offset -----------------------------------------

  /** Node k of a path with its last offset appended. */
  lemma {:induction false} PathStep(packet: ByteString, path: seq<nat>, last: nat, k: nat)
    requires Path(packet, path, last) && k < |path|
    ensures var nodes := path + [last];
            var step := StepAt(packet, nodes[k]);
            (step.Jump? || step.Piece?) && Follow(step) == nodes[k + 1]
    decreases |path|
  {
    if k < |path| - 1 {
      PathStep(packet, path[..|path| - 1], path[|path| - 1], k);
      assert path[..|path| - 1] + [path[|path| - 1]] == path;
    }
  }

  /** A path and a derivation from the same start agree as far as the path goes. */
  lemma {:induction false} PathsAgree(packet: ByteString, path: seq<nat>, last: nat, full: seq<nat>, end: nat, k: nat)
    requires Path(packet, path, last) && Derivation(packet, (path + [last])[0], full, end)
    requires k <= |path|
    ensures k <= |full| && (path + [last])[k] == (full + [end])[k]
  {
    if k > 0 {
      PathsAgree(packet, path, last, full, end, k - 1);
      PathStep(packet, path, last, k - 1);
      if k - 1 < |full| {
        PathStep(packet, full, end, k - 1);
      }
    }
  }

  /** Suffix of a derivation. */
  lemma {:induction false} SuffixPath(packet: ByteString, path: seq<nat>, last: nat, k: nat)
    requires Path(packet, path, last) && k <= |path|
    ensures Path(packet, path[k..], last)
    decreases |path|
  {
    if k < |path| {
      SuffixPath(packet, path[..|path| - 1], path[|path| - 1], k);
      assert path[k..][..|path[k..]| - 1] == path[..|path| - 1][k..];
    }
  }

  /** A well-formed name never visits an offset twice. */
  lemma NoRepeat(packet: ByteString, start: nat, path: seq<nat>, last: nat, i: nat, j: nat)
    requires Derivation(packet, start, path, last) && i < j <= |path|
    ensures (path + [last])[i] != (path + [last])[j]
  {
    hide StepAt;
    var nodes := path + [last];
    if nodes[i] == nodes[j] {
      SuffixPath(packet, path, last, i);
      SuffixPath(packet, path, last, j);
      assert (path[i..] + [last])[0] == nodes[i] && (path[j..] + [last])[0] == nodes[j];
      PathsAgree(packet, path[i..], last, path[j..], last, |path| - i);
    }
  }

  /** A well-formed name has at most as many steps as the packet has bytes. */
  lemma DerivationShort(packet: ByteString, start: nat, path: seq<nat>, last: nat)
    requires Derivation(packet, start, path, last)
    ensures |path| + 1 <= |packet|
  {
    hide Derivation;
    var nodes := path + [last];
    forall i, j | 0 <= i < j < |nodes| ensures nodes[i] != nodes[j] { NoRepeat(packet, start, path, last, i, j); }
    forall k | 0 <= k < |nodes| ensures nodes[k] < |packet| { NodeInside(packet, start, path, last, k); }
    Counting.Pigeonhole(nodes, |packet|);
  }

  lemma NodeInside(packet: ByteString, start: nat, path: seq<nat>, last: nat, k: nat)
    requires Derivation(packet, start, path, last) && k <= |path|
    ensures (path + [last])[k] < |packet|
  {
    if k < |path| {
      PathStep(packet, path, last, k);
    }
  }

  // --- The reader ----------------------------------------------------------------------------------------

  /** readName without the final joining. It succeeds exactly on well-formed names, cyclic pointers
      included, and then returns their labels and the offset behind them. */
  method ReadLabels(packet: ByteString, start: nat) returns (ok: bool, labels: seq<Label>, next: nat)
    ensures ok <==> exists path, last :: Derivation(packet, start, path, last)
    ensures forall path, last :: Derivation(packet, start, path, last) ==>
              labels == LabelsOf(packet, path) && next == NextOf(packet, path, last)
  {
    hide LabelsOf, NextAfter;
    labels := [];
    var offset: nat, seen, jumped := start, 0, false;
    next := start;
    ghost var path: seq<nat> := [];
    EmptyPath(packet, start);
    while true
      invariant Path(packet, path, offset) && (path + [offset])[0] == start && |path| == seen && seen <= |packet| + 1
      invariant labels == LabelsOf(packet, path)
      invariant jumped <==> NextAfter(packet, path) != 0
      invariant jumped ==> next == NextAfter(packet, path)
      decreases |packet| + 1 - seen
    {
      if offset >= |packet| || seen > |packet| {
        StuckPath(packet, start, path, offset);
        return false, [], 0;
      }
      seen := seen + 1;
      var length: int := packet[offset];
      if length >= 0xC0 {
        if offset + 1 >= |packet| {
          StuckPath(packet, start, path, offset);
          return false, [], 0;
        }
        var pointer := length % 64 * 256 + packet[offset + 1];
        if !jumped {
          next := offset + 2;
        }
        Extend(packet, path, offset);
        path := path + [offset];
        offset := pointer;
        jumped := true;
        continue;
      }
      if length >= 0x40 {
        StuckPath(packet, start, path, offset);
        return false, [], 0;
      }
      if length == 0 {
        if !jumped {
          next := offset + 1;
        }
        Finished(packet, start, path, offset);
        return true, labels, next;
      }
      if offset + 1 + length > |packet| {
        StuckPath(packet, start, path, offset);
        return false, [], 0;
      }
      Extend(packet, path, offset);
      labels := labels + [packet[offset + 1..offset + 1 + length]];
      path := path + [offset];
      offset := offset + 1 + length;
    }
  }

  lemma EmptyPath(packet: ByteString, offset: nat)
    ensures Path(packet, [], offset) && LabelsOf(packet, []) == [] && NextAfter(packet, []) == 0
  {
  }

  lemma Extend(packet: ByteString, path: seq<nat>, offset: nat)
    requires Path(packet, path, offset)
    ensures var step := StepAt(packet, offset);
            && (step.Jump? || step.Piece? ==> Path(packet, path + [offset], Follow(step)))
            && LabelsOf(packet, path + [offset]) == LabelsOf(packet, path) + (if step.Piece? then [step.text] else [])
            && NextAfter(packet, path + [offset]) ==
               if NextAfter(packet, path) != 0 then NextAfter(packet, path) else if step.Jump? then offset + 2 else 0
    ensures (path + [offset])[..|path|] == path
  {
    assert (path + [offset])[..|path|] == path;
  }

  /** A path that cannot continue, or is longer than the packet, belongs to no well-formed name. */
  lemma StuckPath(packet: ByteString, start: nat, path: seq<nat>, offset: nat)
    requires Path(packet, path, offset) && (path + [offset])[0] == start
    requires StepAt(packet, offset).Bad? || |path| > |packet|
    ensures !exists full, end :: Derivation(packet, start, full, end)
  {
    hide StepAt;
    forall full, end ensures !Derivation(packet, start, full, end) {
      if Derivation(packet, start, full, end) {
        DerivationShort(packet, start, full, end);
        PathsAgree(packet, path, offset, full, end, |path|);
        if |path| < |full| { PathStep(packet, full, end, |path|); }
      }
    }
  }

  /** The derivation is unique. */
  lemma Finished(packet: ByteString, start: nat, path: seq<nat>, offset: nat)
    requires Derivation(packet, start, path, offset)
    ensures forall full, end :: Derivation(packet, start, full, end) ==> full == path && end == offset
  {
    hide StepAt;
    forall full, end | Derivation(packet, start, full, end) ensures full == path && end == offset {
      PathsAgree(packet, path, offset, full, end, |path|);
      PathsAgree(packet, full, end, path, offset, |full|);
      forall k | 0 <= k < |path| ensures path[k] == full[k] { PathsAgree(packet, path, offset, full, end, k); }
    }
  }

  // --- The encoder -----------------------------------------------------------------------------------------

  function Prefixed(text: Label): (b: ByteString)
    requires |text| < 256
    ensures |b| == |text| + 1
  {
    [|text|] + text
  }

  function Encode(labels: seq<Label>): ByteString
    requires forall l :: l in labels ==> |l| < 256
  {
    if labels == [] then [] else Encode(labels[..|labels| - 1]) + Prefixed(labels[|labels| - 1])
  }

  /** Parts between separators; a name without separator is its own only part. */
  function Split(name: ByteString): (parts: seq<Label>)
    ensures parts != []
  {
    if name == [] then [[]]
    else
      var last := name[|name| - 1];
      var parts := Split(name[..|name| - 1]);
      if last == DOT then parts + [[]]
      else parts[..|parts| - 1] + [parts[|parts| - 1] + [last]]
  }

  function Join(labels: seq<Label>): ByteString {
    if labels == [] then []
    else if |labels| == 1 then labels[0]
    else Join(labels[..|labels| - 1]) + [DOT] + labels[|labels| - 1]
  }

  function TrimDot(name: ByteString): ByteString {
    if name != [] && name[|name| - 1] == DOT then name[..|name| - 1] else name
  }

  function Clip(text: Label, limit: nat): Label {
    if |text| > limit then text[..limit] else text
  }

  /** Empty parts are skipped and long ones cut. */
  function Kept(parts: seq<Label>, limit: nat): (r: seq<Label>)
    ensures forall l :: l in r ==> |l| <= limit
    ensures limit > 0 ==> forall l :: l in r ==> 0 < |l|
  {
    if parts == [] then []
    else
      var last := parts[|parts| - 1];
      Kept(parts[..|parts| - 1], limit) + if last == [] then [] else [Clip(last, limit)]
  }

  function EncodedName(name: ByteString): ByteString {
    if TrimDot(name) == [] then [0] else Encode(Kept(Split(TrimDot(name)), 63)) + [0]
  }

  method AppendName(packet: ByteString, name: ByteString) returns (out: ByteString)
    ensures out == packet + EncodedName(name)
  {
    hide Encode, Kept, Split;
    var trimmed := TrimDot(name);
    if trimmed == [] {
      return packet + [0];
    }
    var parts := Split(trimmed);
    out := packet;
    EncodeNothing(63);
    for i := 0 to |parts|
      invariant out == packet + Encode(Kept(parts[..i], 63))
    {
      var part := parts[i];
      ghost var before := Kept(parts[..i], 63);
      KeptStep(parts, i, 63);
      assert before + [] == before;
      if part == [] {
        continue;
      }
      if |part| > 63 {
        part := part[..63];
      }
      EncodeAppend(before, part);
      out := out + [|part|];
      out := out + part;
      assert out == packet + (Encode(before) + Prefixed(part));
    }
    assert parts[..|parts|] == parts;
    out := out + [0];
  }

  lemma EncodeNothing(limit: nat)
    ensures Kept([], limit) == [] && Encode([]) == []
  {
  }

  lemma KeptStep(parts: seq<Label>, i: nat, limit: nat)
    requires i < |parts|
    ensures Kept(parts[..i + 1], limit) == Kept(parts[..i], limit) + if parts[i] == [] then [] else [Clip(parts[i], limit)]
  {
    assert parts[..i + 1][..i] == parts[..i];
  }

  lemma EncodeAppend(labels: seq<Label>, text: Label)
    requires forall l :: l in labels + [text] ==> |l| < 256
    ensures forall l :: l in labels ==> |l| < 256
    ensures |text| < 256 && Encode(labels + [text]) == Encode(labels) + Prefixed(text)
  {
    forall l | l in labels ensures |l| < 256 { assert l in labels + [text]; }
    assert text in labels + [text];
    assert (labels + [text])[..|labels|] == labels;
  }

  // --- Reading back what was written ----------------------------------------------------------------------

  /** Offsets of the labels of an encoding that starts at start. */
  function Offsets(start: nat, labels: seq<Label>): seq<nat>
    requires forall l :: l in labels ==> |l| < 256
  {
    if labels == [] then []
    else Offsets(start, labels[..|labels| - 1]) + [start + |Encode(labels[..|labels| - 1])|]
  }

  ghost predicate Writable(labels: seq<Label>) {
    forall l :: l in labels ==> 0 < |l| < 64
  }

  /** A label sits where it was written. */
  lemma LabelAt(before: ByteString, text: Label, rest: ByteString)
    requires 0 < |text| < 64
    ensures StepAt(before + Prefixed(text) + rest, |before|) == Piece(text, |before| + 1 + |text|)
  {
    var packet := before + Prefixed(text) + rest;
    assert packet[|before|] == |text|;
    assert packet[|before| + 1..|before| + 1 + |text|] == text;
  }

  /** The offsets walk over exactly these labels, without a pointer, to the offset behind them. */
  ghost predicate Walks(packet: ByteString, start: nat, path: seq<nat>, labels: seq<Label>, behind: nat) {
    && Path(packet, path, behind)
    && (path + [behind])[0] == start
    && LabelsOf(packet, path) == labels
    && NextAfter(packet, path) == 0
  }

  lemma WalkOn(packet: ByteString, start: nat, path: seq<nat>, labels: seq<Label>, offset: nat, text: Label)
    requires Walks(packet, start, path, labels, offset) && StepAt(packet, offset) == Piece(text, offset + 1 + |text|)
    ensures Walks(packet, start, path + [offset], labels + [text], offset + 1 + |text|)
  {
    hide StepAt, Path, LabelsOf, NextAfter;
    Extend(packet, path, offset);
  }

  lemma SplitLast(labels: seq<Label>)
    requires labels != [] && Writable(labels)
    ensures Writable(labels[..|labels| - 1]) && 0 < |labels[|labels| - 1]| < 64
    ensures labels == labels[..|labels| - 1] + [labels[|labels| - 1]]
  {
    assert labels[|labels| - 1] in labels;
  }

  /** The same packet around all labels and around the last one. */
  lemma Around(prefix: ByteString, labels: seq<Label>, rest: ByteString)
    requires labels != [] && forall l :: l in labels ==> |l| < 256
    ensures var init, text := labels[..|labels| - 1], labels[|labels| - 1];
            && |text| < 256 && (forall l :: l in init ==> |l| < 256)
            && prefix + Encode(labels) + rest == prefix + Encode(init) + (Prefixed(text) + rest)
            && prefix + Encode(labels) + rest == prefix + Encode(init) + Prefixed(text) + rest
            && |Encode(labels)| == |Encode(init)| + 1 + |text|
            && Offsets(|prefix|, labels) == Offsets(|prefix|, init) + [|prefix| + |Encode(init)|]
  {
    hide Prefixed;
    assert labels[|labels| - 1] in labels;
  }

  lemma {:induction false} LabelPath(prefix: ByteString, labels: seq<Label>, rest: ByteString)
    requires Writable(labels)
    ensures forall l :: l in labels ==> |l| < 256
    ensures Walks(prefix + Encode(labels) + rest, |prefix|, Offsets(|prefix|, labels), labels, |prefix| + |Encode(labels)|)
    decreases |labels|
  {
    hide StepAt, Walks, Prefixed, Encode, Offsets;
    var packet := prefix + Encode(labels) + rest;
    if labels == [] {
      NoOffsets(|prefix|);
      EmptyWalk(packet, |prefix|);
    } else {
      SplitLast(labels);
      var init, text := labels[..|labels| - 1], labels[|labels| - 1];
      LabelPath(prefix, init, Prefixed(text) + rest);
      Around(prefix, labels, rest);
      LabelAt(prefix + Encode(init), text, rest);
      WalkOn(packet, |prefix|, Offsets(|prefix|, init), init, |prefix| + |Encode(init)|, text);
    }
  }

  lemma NoOffsets(start: nat)
    ensures Offsets(start, []) == [] && Encode([]) == []
  {
  }

  lemma EmptyWalk(packet: ByteString, offset: nat)
    ensures Walks(packet, offset, [], [], offset)
  {
  }

  /** The encoding of labels followed by a zero byte, anywhere in a packet, is a well-formed name. */
  lemma EncodingDerives(prefix: ByteString, labels: seq<Label>, suffix: ByteString)
    requires Writable(labels)
    ensures forall l :: l in labels ==> |l| < 256
    ensures var packet := prefix + (Encode(labels) + [0]) + suffix;
            exists path, last :: Derivation(packet, |prefix|, path, last) && LabelsOf(packet, path) == labels
                                 && NextOf(packet, path, last) == |prefix| + |Encode(labels)| + 1
  {
    hide Path, LabelsOf, NextAfter;
    LabelPath(prefix, labels, [0] + suffix);
    var packet := prefix + (Encode(labels) + [0]) + suffix;
    assert packet == prefix + Encode(labels) + ([0] + suffix);
    var last := |prefix| + |Encode(labels)|;
    assert packet[last] == 0;
    assert Derivation(packet, |prefix|, Offsets(|prefix|, labels), last);
  }

  function LabelsWritten(name: ByteString): (r: seq<Label>)
    ensures forall l :: l in r ==> 0 < |l| < 64
  {
    if TrimDot(name) == [] then [] else Kept(Split(TrimDot(name)), 63)
  }

  /** A packet has a name at start with these labels, and no other reading of it. */
  ghost predicate Reads(packet: ByteString, start: nat, labels: seq<Label>, next: nat) {
    && (exists path, last :: Derivation(packet, start, path, last))
    && (forall path, last :: Derivation(packet, start, path, last) ==>
          LabelsOf(packet, path) == labels && NextOf(packet, path, last) == next)
  }

  /** An appended name reads back as the labels that were written, and reading continues right behind
      them; this holds for every name and every packet around it. */
  lemma AppendedReads(prefix: ByteString, name: ByteString, suffix: ByteString)
    ensures Reads(prefix + EncodedName(name) + suffix, |prefix|, LabelsWritten(name), |prefix| + |EncodedName(name)|)
  {
    hide Encode, Derivation, LabelsOf, NextOf;
    var labels := LabelsWritten(name);
    EncodeNothing(63);
    assert EncodedName(name) == Encode(labels) + [0];
    EncodingDerives(prefix, labels, suffix);
    var packet := prefix + (Encode(labels) + [0]) + suffix;
    var path, last :| Derivation(packet, |prefix|, path, last) && LabelsOf(packet, path) == labels
                      && NextOf(packet, path, last) == |prefix| + |Encode(labels)| + 1;
    Finished(packet, |prefix|, path, last);
  }

  // --- Whole names ---------------------------------------------------------------------------------------------

  /** Labels without separators inside. */
  ghost predicate Plain(labels: seq<Label>) {
    forall l :: l in labels ==> DOT !in l
  }

  lemma SplitSnoc(name: ByteString, last: Byte)
    requires last != DOT
    ensures var parts := Split(name); Split(name + [last]) == parts[..|parts| - 1] + [parts[|parts| - 1] + [last]]
  {
    assert (name + [last])[..|name|] == name;
  }

  lemma {:induction false} SplitLabel(name: ByteString, text: Label)
    requires DOT !in text
    ensures var parts := Split(name); Split(name + text) == parts[..|parts| - 1] + [parts[|parts| - 1] + text]
    decreases |text|
  {
    hide Split;
    var parts := Split(name);
    if text == [] {
      assert name + text == name && parts[|parts| - 1] + text == parts[|parts| - 1];
    } else {
      var init, last := text[..|text| - 1], text[|text| - 1];
      SplitLabel(name, init);
      SplitSnoc(name + init, last);
      assert name + text == name + init + [last] && text == init + [last];
      assert parts[|parts| - 1] + init + [last] == parts[|parts| - 1] + text;
    }
  }

  lemma SplitDot(name: ByteString)
    ensures Split(name + [DOT]) == Split(name) + [[]] && Split([]) == [[]]
  {
    assert (name + [DOT])[..|name|] == name;
  }

  /** Splitting undoes joining. */
  lemma {:induction false} SplitJoin(labels: seq<Label>)
    requires labels != [] && Plain(labels)
    ensures Split(Join(labels)) == labels
  {
    hide Split, Plain;
    var init, text := labels[..|labels| - 1], labels[|labels| - 1];
    PlainParts(labels);
    if |labels| == 1 {
      SplitDot([]);
      SplitLabel([], text);
      assert [] + text == text && labels == [text];
    } else {
      SplitJoin(init);
      var name := Join(init) + [DOT];
      SplitDot(Join(init));
      SplitLabel(name, text);
      assert Join(labels) == name + text && [] + text == text;
      assert (init + [[]])[..|init|] == init && labels == init + [text];
    }
  }

  lemma PlainParts(labels: seq<Label>)
    requires labels != [] && Plain(labels)
    ensures Plain(labels[..|labels| - 1]) && DOT !in labels[|labels| - 1]
  {
    assert labels[|labels| - 1] in labels;
  }

  /** ensureTrailingDot; trim is strings.TrimSpace. */
  function WithDot(trim: ByteString -> ByteString, name: ByteString): ByteString {
    var value := trim(name);
    if value == [] then [DOT] else if value[|value| - 1] == DOT then value else value + [DOT]
  }

  // The dotted form is compared by its length: a part that does not fit makes it shorter.

  function Size(labels: seq<Label>): nat {
    if labels == [] then 0 else Size(labels[..|labels| - 1]) + |labels[|labels| - 1]| + 1
  }

  lemma {:induction false} JoinSize(labels: seq<Label>)
    ensures labels != [] ==> |Join(labels)| + 1 == Size(labels)
    ensures |Join(labels)| <= Size(labels)
  {
    if labels != [] {
      JoinSize(labels[..|labels| - 1]);
    }
  }

  lemma {:induction false} KeptSize(parts: seq<Label>, limit: nat)
    requires limit > 0
    ensures if Fits(parts, limit) then Kept(parts, limit) == parts else Size(Kept(parts, limit)) < Size(parts)
  {
    if parts != [] {
      hide Fits;
      var init, last := parts[..|parts| - 1], parts[|parts| - 1];
      KeptSize(init, limit);
      FitsLast(parts, limit);
      var kept := Kept(init, limit);
      SizeAppend(kept, Clip(last, limit));
      assert kept + [] == kept;
    }
  }

  ghost predicate Fits(labels: seq<Label>, limit: nat) {
    forall l :: l in labels ==> 0 < |l| <= limit
  }

  lemma FitsLast(parts: seq<Label>, limit: nat)
    requires parts != []
    ensures var init, last := parts[..|parts| - 1], parts[|parts| - 1];
            parts == init + [last] && (Fits(parts, limit) <==> Fits(init, limit) && 0 < |last| <= limit)
  {
    var init, last := parts[..|parts| - 1], parts[|parts| - 1];
    assert parts == init + [last] && last in parts;
  }

  lemma SizeAppend(labels: seq<Label>, text: Label)
    ensures Size(labels + [text]) == Size(labels) + |text| + 1
  {
    assert (labels + [text])[..|labels|] == labels;
  }

  /** Joining undoes splitting. */
  lemma {:induction false} JoinSplit(name: ByteString)
    ensures Join(Split(name)) == name
  {
    if name != [] {
      hide Join;
      var init, last := name[..|name| - 1], name[|name| - 1];
      JoinSplit(init);
      JoinDot(Split(init));
      JoinByte(Split(init), last);
      assert init + [last] == name;
    } else {
      assert Join([[]]) == [];
    }
  }

  lemma JoinDot(parts: seq<Label>)
    requires parts != []
    ensures Join(parts + [[]]) == Join(parts) + [DOT]
  {
    hide Join;
    JoinLast(parts, []);
    assert Join(parts) + [DOT] + [] == Join(parts) + [DOT];
  }

  lemma JoinByte(parts: seq<Label>, last: Byte)
    requires parts != []
    ensures Join(parts[..|parts| - 1] + [parts[|parts| - 1] + [last]]) == Join(parts) + [last]
  {
    hide Join;
    var init, text := parts[..|parts| - 1], parts[|parts| - 1];
    assert init + [text] == parts;
    JoinLast(init, text);
    JoinLast(init, text + [last]);
    Reassociate(Join(init) + [DOT], text, [last]);
  }

  lemma Reassociate(a: ByteString, b: ByteString, c: ByteString)
    ensures a + (b + c) == a + b + c
  {
  }

  lemma JoinLast(init: seq<Label>, text: Label)
    ensures Join(init + [text]) == if init == [] then text else Join(init) + [DOT] + text
  {
    assert (init + [text])[..|init|] == init;
  }

  lemma ShorterJoin(parts: seq<Label>, limit: nat)
    requires limit > 0 && !Fits(parts, limit)
    ensures |Join(Kept(parts, limit))| < |Join(parts)| || Join(parts) == []
  {
    hide Kept;
    KeptSize(parts, limit);
    JoinSize(parts);
    JoinSize(Kept(parts, limit));
  }

  /** Every name: the labels read back are its parts exactly when each has 1 to 63 bytes, and the dotted
      name read back is the name exactly when, besides, it has no space to trim. The trailing dot is
      optional; the empty name is the root. */
  lemma NameRoundTrip(trim: ByteString -> ByteString, name: ByteString)
    requires forall b :: |trim(b)| <= |b|
    ensures var plain := TrimDot(name);
            && (LabelsWritten(name) == Split(plain) <==> Fits(Split(plain), 63))
            && (WithDot(trim, Join(LabelsWritten(name))) == plain + [DOT] <==>
                plain == [] || (Fits(Split(plain), 63) && trim(plain) == plain))
  {
    hide Split, Kept, Size, Join;
    var plain := TrimDot(name);
    JoinSplit(plain);
    SplitDot(plain);
    JoinNothing();
    KeptSize(Split(plain), 63);
    if plain != [] {
      if !Fits(Split(plain), 63) {
        ShorterJoin(Split(plain), 63);
      }
      if plain[|plain| - 1] == DOT { DotLeavesEmpty(plain); }
      DottedBack(trim, plain, Join(LabelsWritten(name)));
    } else {
      assert [] in Split(plain);
    }
  }

  lemma DotLeavesEmpty(name: ByteString)
    requires name != [] && name[|name| - 1] == DOT
    ensures [] in Split(name)
  {
  }

  lemma JoinNothing()
    ensures Join([]) == []
  {
  }

  lemma DottedBack(trim: ByteString -> ByteString, plain: ByteString, joined: ByteString)
    requires |trim(joined)| <= |joined| && plain != [] && (joined == plain || |joined| < |plain|)
    ensures WithDot(trim, joined) == plain + [DOT] <==> joined == plain && trim(plain) == plain && plain[|plain| - 1] != DOT
  {
    var value := trim(joined);
    assert |plain + [DOT]| == |plain| + 1;
    if value != [] && value[|value| - 1] != DOT && value + [DOT] == plain + [DOT] {
      assert value == (plain + [DOT])[..|plain|];
    }
  }

  /** A name made of labels: they come back exactly when each has 1 to 63 bytes. */
  lemma LabelsRoundTrip(labels: seq<Label>)
    requires labels != [] && Plain(labels) && labels[|labels| - 1] != []
    ensures LabelsWritten(Join(labels)) == labels <==> Fits(labels, 63)
    ensures LabelsWritten(Join(labels) + [DOT]) == LabelsWritten(Join(labels))
  {
    hide Split, Kept, Size;
    SplitJoin(labels);
    KeptSize(labels, 63);
    LastByte(labels);
    assert (Join(labels) + [DOT])[..|Join(labels)|] == Join(labels);
  }

  lemma LastByte(labels: seq<Label>)
    requires labels != [] && Plain(labels) && labels[|labels| - 1] != []
    ensures Join(labels) != [] && Join(labels)[|Join(labels)| - 1] != DOT
  {
    var text := labels[|labels| - 1];
    assert text in labels && text[|text| - 1] in text;
    assert Join(labels)[|Join(labels)| - 1] == text[|text| - 1];
  }

  /** A reading that comes back to an offset it has visited is no name. */
  lemma RepeatRejected(packet: ByteString, path: seq<nat>, last: nat, i: nat, j: nat)
    requires Path(packet, path, last) && i < j <= |path| && (path + [last])[i] == (path + [last])[j]
    ensures !exists full, end :: Derivation(packet, (path + [last])[0], full, end)
  {
    hide StepAt;
    var start := (path + [last])[0];
    forall full, end ensures !Derivation(packet, start, full, end) {
      if Derivation(packet, start, full, end) {
        PathsAgree(packet, path, last, full, end, i);
        PathsAgree(packet, path, last, full, end, j);
        NoRepeat(packet, start, full, end, i, j);
      }
    }
  }

  /** No offset on a cycle of pointers and labels is a name. */
  lemma CycleRejected(packet: ByteString, cycle: seq<nat>, k: nat)
    requires k < |cycle| && Path(packet, cycle, cycle[0])
    ensures !exists full, end :: Derivation(packet, cycle[k], full, end)
  {
    hide StepAt;
    forall full: seq<nat>, end: nat ensures !Derivation(packet, cycle[k], full, end) {
      if Derivation(packet, cycle[k], full, end) {
        var m := |cycle| - k;
        SuffixPath(packet, cycle, cycle[0], k);
        assert (cycle[k..] + [cycle[0]])[0] == cycle[k];
        PathsAgree(packet, cycle[k..], cycle[0], full, end, m);
        SuffixPath(packet, full, end, m);
        assert (full[m..] + [end])[0] == cycle[0] == (cycle + [cycle[0]])[0];
        assert Derivation(packet, cycle[0], full[m..], end);
        RepeatRejected(packet, cycle, cycle[0], 0, |cycle|);
      }
    }
  }

  // --- Compression ---------------------------------------------------------------------------------------------

  /** A path goes on where another one ends. */
  lemma {:induction false} PathThen(packet: ByteString, p: seq<nat>, q: seq<nat>, middle: nat, last: nat)
    requires Path(packet, p, middle) && Path(packet, q, last) && (q + [last])[0] == middle
    ensures Path(packet, p + q, last)
    ensures LabelsOf(packet, p + q) == LabelsOf(packet, p) + LabelsOf(packet, q)
    ensures NextAfter(packet, p + q) == if NextAfter(packet, p) != 0 then NextAfter(packet, p) else NextAfter(packet, q)
    decreases |q|
  {
    hide StepAt;
    if q == [] {
      assert p + q == p;
    } else {
      var init, offset := q[..|q| - 1], q[|q| - 1];
      assert init + [offset] == q;
      PathThen(packet, p, init, middle, offset);
      assert (p + q)[..|p + q| - 1] == p + init;
    }
  }

  /** A pointer to a name written anywhere continues with that name's labels, and reading goes on behind the
      two bytes of the pointer. */
  lemma PointerReads(prefix: ByteString, labels: seq<Label>, target: nat, suffix: ByteString, rest: seq<Label>, next: nat)
    requires Writable(labels) && target < 0x4000
    requires forall l :: l in labels ==> |l| < 256
    requires Reads(prefix + Encode(labels) + [0xC0 + target / 256, target % 256] + suffix, target, rest, next)
    ensures Reads(prefix + Encode(labels) + [0xC0 + target / 256, target % 256] + suffix, |prefix|, labels + rest,
                  |prefix| + |Encode(labels)| + 2)
  {
    hide Path, LabelsOf, NextAfter, Encode;
    var tail: ByteString := [0xC0 + target / 256, target % 256] + suffix;
    var packet := prefix + Encode(labels) + [0xC0 + target / 256, target % 256] + suffix;
    assert packet == prefix + Encode(labels) + tail;
    LabelPath(prefix, labels, tail);
    var before, at := Offsets(|prefix|, labels), |prefix| + |Encode(labels)|;
    assert packet[at] == 0xC0 + target / 256 && packet[at + 1] == target % 256;
    assert StepAt(packet, at) == Jump(target) by { PointerNumber(target); }
    Extend(packet, before, at);
    var path: seq<nat>, last: nat :| Derivation(packet, target, path, last);
    PathThen(packet, before + [at], path, target, last);
    var full := before + [at] + path;
    assert (full + [last])[0] == (before + [at])[0] == |prefix|;
    Finished(packet, |prefix|, full, last);
  }

  lemma PointerNumber(target: nat)
    requires target < 0x4000
    ensures (0xC0 + target / 256) % 64 * 256 + target % 256 == target
  {
  }
}
