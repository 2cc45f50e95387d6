/** Incremental UTF-8 scanning of token text (runtime/protocol/utf8.cpp), compared with
    the code point encoding of section 3 of RFC 3629. */
module Utf8 {
  import opened Bytes

  datatype Scan = Malformed | Complete(offset: nat)

  // --- The scanner -------------------------------------------------------------------

  predicate IsContinuation(b: Byte) {
    b / 64 == 2
  }

  /** Width announced by a lead byte; 0 where the source throws. */
  function SequenceWidth(lead: Byte): nat {
    if lead <= 0x7f then 1
    else if 0xc2 <= lead <= 0xdf then 2
    else if 0xe0 <= lead <= 0xef then 3
    else if 0xf0 <= lead <= 0xf4 then 4
    else 0
  }

  predicate ForbiddenSecond(lead: Byte, second: Byte) {
    || (lead == 0xe0 && second < 0xa0)
    || (lead == 0xed && second > 0x9f)
    || (lead == 0xf0 && second < 0x90)
    || (lead == 0xf4 && second > 0x8f)
  }

  /** The bytes of one sequence pass validate_sequence. */
  predicate SequenceOk(t: ByteString)
    requires t != []
  {
    && (forall k :: 1 <= k < |t| ==> IsContinuation(t[k]))
    && (|t| > 1 ==> !ForbiddenSecond(t[0], t[1]))
  }

  function ScanFrom(s: ByteString, offset: nat): Scan
    requires offset <= |s|
    decreases |s| - offset
  {
    if offset == |s| then Complete(offset)
    else
      var w := SequenceWidth(s[offset]);
      if w == 0 then Malformed
      else if |s| - offset < w then Complete(offset)
      else if !SequenceOk(s[offset..offset + w]) then Malformed
      else ScanFrom(s, offset + w)
  }

  function ScanAll(s: ByteString): Scan {
    ScanFrom(s, 0)
  }

  method ValidateSequence(s: ByteString, offset: nat, width: nat) returns (ok: bool)
    requires 1 < width && offset + width <= |s|
    ensures ok == SequenceOk(s[offset..offset + width])
  {
    ghost var t := s[offset..offset + width];
    var index := 1;
    while index < width
      invariant 1 <= index <= width
      invariant forall k :: 1 <= k < index ==> IsContinuation(t[k])
    {
      assert t[index] == s[offset + index];
      if !IsContinuation(s[offset + index]) {
        return false;
      }
      index := index + 1;
    }
    ok := !ForbiddenSecond(s[offset], s[offset + 1]);
  }

  method CompleteUtf8Prefix(value: ByteString) returns (r: Scan)
    ensures r == ScanAll(value)
  {
    var offset := 0;
    while offset < |value|
      invariant offset <= |value|
      invariant ScanAll(value) == ScanFrom(value, offset)
    {
      var width := SequenceWidth(value[offset]);
      if width == 0 {
        return Malformed;
      }
      if |value| - offset < width {
        return Complete(offset);
      }
      if width > 1 {
        var ok := ValidateSequence(value, offset, width);
        if !ok {
          return Malformed;
        }
      }
      offset := offset + width;
    }
    r := Complete(offset);
  }

  /** A string is accepted exactly when it encodes a sequence of Unicode scalar values. */
  method IsValidUtf8(value: ByteString) returns (valid: bool)
    ensures valid <==> exists cs :: AllScalar(cs) && EncodeAll(cs) == value
  {
    var scan := CompleteUtf8Prefix(value);
    valid := scan == Complete(|value|);
    if valid {
      ghost var codes := ScanSound(value, 0);
      assert value[0..|value|] == value;
      assert AllScalar(codes) && EncodeAll(codes) == value;
    } else {
      forall cs | AllScalar(cs) && EncodeAll(cs) == value ensures false {
        assert EncodeAll(cs) + [] == value;
        ScanEncoded(cs, []);
      }
    }
  }

  // --- Reference: RFC 3629, section 3 -------------------------------------------------

  predicate IsScalar(c: nat) {
    c < 0xD800 || 0xE000 <= c <= 0x10FFFF
  }

  ghost predicate AllScalar(cs: seq<nat>) {
    forall k :: 0 <= k < |cs| ==> IsScalar(cs[k])
  }

  function Encode(c: nat): (e: ByteString)
    requires IsScalar(c)
    ensures 1 <= |e| <= 4
  {
    if c < 0x80 then [c]
    else if c < 0x800 then [0xC0 + c / 64, 0x80 + c % 64]
    else if c < 0x10000 then [0xE0 + c / 4096, 0x80 + c / 64 % 64, 0x80 + c % 64]
    else [0xF0 + c / 262144, 0x80 + c / 4096 % 64, 0x80 + c / 64 % 64, 0x80 + c % 64]
  }

  ghost function EncodeAll(cs: seq<nat>): ByteString
    requires AllScalar(cs)
  {
    if cs == [] then [] else Encode(cs[0]) + EncodeAll(cs[1..])
  }

  /** Fewer bytes than their lead announces. */
  predicate Short(t: ByteString) {
    t == [] || |t| < SequenceWidth(t[0])
  }

  /** Some code point is encoded with these bytes and more. */
  ghost predicate Beginning(t: ByteString) {
    exists c: nat {:trigger Encode(c)} :: IsScalar(c) && t < Encode(c)
  }

  // --- One code point -------------------------------------------------------------------

  /** Every encoding is a sequence the scanner accepts, with the width its lead announces. */
  lemma EncodeAccepted(c: nat, rest: ByteString)
    requires IsScalar(c)
    ensures SequenceWidth(Encode(c)[0]) == |Encode(c)|
    ensures SequenceOk((Encode(c) + rest)[0..|Encode(c)|])
  {
    assert (Encode(c) + rest)[0..|Encode(c)|] == Encode(c);
  }

  /** Every accepted sequence is the encoding of a scalar value. */
  lemma AcceptedEncodes(s: ByteString, offset: nat, w: nat) returns (c: nat)
    requires offset < |s| && w == SequenceWidth(s[offset]) && w > 0 && offset + w <= |s|
    requires SequenceOk(s[offset..offset + w])
    ensures IsScalar(c) && Encode(c) == s[offset..offset + w]
  {
    var t := s[offset..offset + w];
    assert w > 1 ==> IsContinuation(t[1]);
    assert w > 2 ==> IsContinuation(t[2]);
    assert w > 3 ==> IsContinuation(t[3]);
    if w == 1 {
      c := t[0];
    } else if w == 2 {
      c := Pack2(t[0], t[1]);
    } else if w == 3 {
      c := Pack3(t[0], t[1], t[2]);
    } else {
      c := Pack4(t[0], t[1], t[2], t[3]);
    }
  }

  lemma Pack2(a: int, b: int) returns (c: nat)
    requires 0xc2 <= a <= 0xdf && 0x80 <= b < 0xc0
    ensures IsScalar(c) && Encode(c) == [a, b]
  {
    c := (a - 0xC0) * 64 + (b - 0x80);
  }

  lemma Pack3(a: int, b: int, d: int) returns (c: nat)
    requires 0xe0 <= a <= 0xef && 0x80 <= b < 0xc0 && 0x80 <= d < 0xc0 && !ForbiddenSecond(a, b)
    ensures IsScalar(c) && Encode(c) == [a, b, d]
  {
    c := (a - 0xE0) * 4096 + (b - 0x80) * 64 + (d - 0x80);
    assert c / 64 == (a - 0xE0) * 64 + (b - 0x80);
  }

  lemma Pack4(a: int, b: int, d: int, e: int) returns (c: nat)
    requires 0xf0 <= a <= 0xf4 && 0x80 <= b < 0xc0 && 0x80 <= d < 0xc0 && 0x80 <= e < 0xc0
    requires !ForbiddenSecond(a, b)
    ensures IsScalar(c) && Encode(c) == [a, b, d, e]
  {
    c := (a - 0xF0) * 262144 + (b - 0x80) * 4096 + (d - 0x80) * 64 + (e - 0x80);
    assert c / 64 == (a - 0xF0) * 4096 + (b - 0x80) * 64 + (d - 0x80);
    assert c / 4096 == (a - 0xF0) * 64 + (b - 0x80);
  }

  /** A second byte that its lead does not forbid. */
  function AllowedSecond(lead: Byte): (b: Byte)
    ensures IsContinuation(b) && !ForbiddenSecond(lead, b)
  {
    if lead == 0xe0 then 0xa0 else if lead == 0xf0 then 0x90 else 0x80
  }

  /** Missing bytes filled in with continuations. */
  function Filled(t: ByteString, width: nat): (s: ByteString)
    requires 0 < |t| <= width && SequenceOk(t)
    ensures |s| == width && t <= s && SequenceOk(s)
    decreases width - |t|
  {
    if |t| == width then t
    else Filled(t + [if |t| == 1 then AllowedSecond(t[0]) else 0x80], width)
  }

  /** Short bytes are the beginning of a code point exactly when they pass the checks so far. */
  lemma BeginningIffOk(t: ByteString)
    requires t != [] && Short(t)
    ensures Beginning(t) <==> SequenceOk(t)
  {
    if SequenceOk(t) {
      var s := Filled(t, SequenceWidth(t[0]));
      var c := AcceptedEncodes(s, 0, |s|);
      assert s[0..|s|] == s;
    } else {
      forall c: nat | IsScalar(c) ensures !(t < Encode(c)) {
        EncodeAccepted(c, []);
        assert (Encode(c) + [])[0..|Encode(c)|] == Encode(c);
      }
    }
  }

  /** Otherwise they are an error as soon as the announced width is reached, whatever comes. */
  lemma HopelessBytes(t: ByteString, more: ByteString)
    requires t != [] && Short(t) && !SequenceOk(t) && |t + more| >= SequenceWidth(t[0])
    ensures ScanAll(t + more).Malformed?
  {
    var s, w := t + more, SequenceWidth(t[0]);
    assert forall k :: 0 <= k < |t| ==> s[0..w][k] == t[k];
  }

  // --- Whole strings ---------------------------------------------------------------------

  lemma EncodeAllCons(c: nat, cs: seq<nat>)
    requires IsScalar(c) && AllScalar(cs)
    ensures AllScalar([c] + cs) && EncodeAll([c] + cs) == Encode(c) + EncodeAll(cs)
  {
    assert ([c] + cs)[1..] == cs;
  }

  lemma EncodeNothing()
    ensures AllScalar([]) && EncodeAll([]) == []
  {
  }

  /** What is released is well formed: the scanned prefix encodes scalar values. */
  lemma {:induction false} ScanSound(s: ByteString, offset: nat) returns (cs: seq<nat>)
    requires offset <= |s| && ScanFrom(s, offset).Complete?
    ensures offset <= ScanFrom(s, offset).offset <= |s|
    ensures AllScalar(cs) && EncodeAll(cs) == s[offset..ScanFrom(s, offset).offset]
    decreases |s| - offset
  {
    hide Encode, EncodeAll, AllScalar, SequenceOk, SequenceWidth, IsScalar;
    if offset == |s| || |s| - offset < SequenceWidth(s[offset]) {
      cs := [];
      EncodeNothing();
    } else {
      var w := SequenceWidth(s[offset]);
      var c := AcceptedEncodes(s, offset, w);
      var rest := ScanSound(s, offset + w);
      EncodeAllCons(c, rest);
      cs := [c] + rest;
      var o := ScanFrom(s, offset).offset;
      assert s[offset..o] == s[offset..offset + w] + s[offset + w..o];
    }
  }

  /** What is kept back is shorter than its lead announces, so at most three bytes. */
  lemma {:induction false} ScanTail(s: ByteString, offset: nat)
    requires offset <= |s| && ScanFrom(s, offset).Complete?
    ensures offset <= ScanFrom(s, offset).offset <= |s|
    ensures |s| - ScanFrom(s, offset).offset <= 3 && Short(s[ScanFrom(s, offset).offset..])
    decreases |s| - offset
  {
    if offset < |s| && |s| - offset >= SequenceWidth(s[offset]) {
      ScanTail(s, offset + SequenceWidth(s[offset]));
    }
  }

  /** Scanning is local: an accepted prefix can be cut off. */
  lemma {:induction false} ScanSuffix(s: ByteString, cut: nat, offset: nat)
    requires cut + offset <= |s|
    ensures ScanFrom(s, cut + offset) ==
              match ScanFrom(s[cut..], offset)
              case Malformed => Malformed
              case Complete(o) => Complete(cut + o)
    decreases |s| - cut - offset
  {
    var t := s[cut..];
    if offset < |t| {
      assert t[offset] == s[cut + offset];
      var w := SequenceWidth(t[offset]);
      if 0 < w <= |t| - offset {
        assert t[offset..offset + w] == s[cut + offset..cut + offset + w];
        if SequenceOk(t[offset..offset + w]) {
          ScanSuffix(s, cut, offset + w);
        }
      }
    }
  }

  /** Every encoded text is scanned in full, whatever follows it. */
  lemma {:induction false} ScanEncoded(cs: seq<nat>, rest: ByteString)
    requires AllScalar(cs)
    ensures ScanAll(EncodeAll(cs) + rest) ==
              match ScanAll(rest)
              case Malformed => Malformed
              case Complete(o) => Complete(|EncodeAll(cs)| + o)
  {
    if cs == [] {
      assert EncodeAll(cs) + rest == rest;
    } else {
      var tail := EncodeAll(cs[1..]) + rest;
      var s := Encode(cs[0]) + tail;
      assert EncodeAll(cs) + rest == s;
      EncodeAccepted(cs[0], tail);
      ScanEncoded(cs[1..], rest);
      ScanSuffix(s, |Encode(cs[0])|, 0);
      assert s[|Encode(cs[0])|..] == tail;
    }
  }

  /** The scan keeps the longest prefix of whole code points. */
  lemma ScanLongest(s: ByteString, cs: seq<nat>, length: nat)
    requires ScanAll(s).Complete? && length <= |s|
    requires AllScalar(cs) && EncodeAll(cs) == s[..length]
    ensures length <= ScanAll(s).offset <= |s|
  {
    assert s == EncodeAll(cs) + s[length..];
    ScanEncoded(cs, s[length..]);
    ScanOffsetInRange(s[length..], 0);
  }

  // --- Streaming --------------------------------------------------------------------------

  /** Text kept back after the scanner has released the complete prefix of everything so far. */
  function Pending(text: ByteString): (p: ByteString)
    requires ScanAll(text).Complete?
  {
    ScanOffsetInRange(text, 0);
    text[ScanAll(text).offset..]
  }

  function Released(text: ByteString): ByteString
    requires ScanAll(text).Complete?
  {
    ScanOffsetInRange(text, 0);
    text[..ScanAll(text).offset]
  }

  lemma ScanOffsetInRange(s: ByteString, offset: nat)
    requires offset <= |s|
    ensures ScanFrom(s, offset).Complete? ==> offset <= ScanFrom(s, offset).offset <= |s|
    decreases |s| - offset
  {
  }

  /** At every moment the released text is whole code points and what is pending is shorter than its
      lead announces. */
  lemma StreamInvariant(text: ByteString) returns (cs: seq<nat>)
    requires ScanAll(text).Complete?
    ensures text == Released(text) + Pending(text)
    ensures AllScalar(cs) && EncodeAll(cs) == Released(text)
    ensures |Pending(text)| <= 3 && Short(Pending(text))
  {
    cs := ScanSound(text, 0);
    ScanTail(text, 0);
  }

  /** Pending bytes are the beginning of a code point exactly when they pass the checks so far. If they
      are not, the scanner says so only later: every text that reaches the announced width is malformed. */
  lemma PendingFate(text: ByteString)
    requires ScanAll(text).Complete? && Pending(text) != []
    ensures Beginning(Pending(text)) <==> SequenceOk(Pending(text))
    ensures !Beginning(Pending(text)) ==>
              forall more: ByteString :: |Pending(text) + more| >= SequenceWidth(Pending(text)[0]) ==> ScanAll(text + more).Malformed?
  {
    ScanTail(text, 0);
    BeginningIffOk(Pending(text));
    if !Beginning(Pending(text)) {
      forall more: ByteString | |Pending(text) + more| >= SequenceWidth(Pending(text)[0]) ensures ScanAll(text + more).Malformed? {
        HopelessBytes(Pending(text), more);
        StreamStep(text, more);
      }
    }
  }

  /** Such bytes exist: a lead of three followed by a letter is kept back, and no text can save it. */
  lemma HopelessPending(more: ByteString)
    ensures var text: ByteString := [0xE2, 0x41];
            && ScanAll(text) == Complete(0) && Pending(text) == text && !Beginning(text)
            && (more != [] ==> ScanAll(text + more).Malformed?)
  {
    var text: ByteString := [0xE2, 0x41];
    assert Pending(text) == text && !IsContinuation(text[1]);
    BeginningIffOk(text);
    if more != [] {
      HopelessBytes(text, more);
    }
  }

  /** An encoded prefix can be set aside: scanning continues as if it were not there. */
  lemma ReleaseAfterPrefix(cs: seq<nat>, tail: ByteString)
    requires AllScalar(cs)
    ensures ScanAll(EncodeAll(cs) + tail).Malformed? <==> ScanAll(tail).Malformed?
    ensures ScanAll(tail).Complete? ==>
              && Released(EncodeAll(cs) + tail) == EncodeAll(cs) + Released(tail)
              && Pending(EncodeAll(cs) + tail) == Pending(tail)
  {
    ScanEncoded(cs, tail);
    if ScanAll(tail).Complete? {
      ScanOffsetInRange(tail, 0);
      var head, k := EncodeAll(cs), ScanAll(tail).offset;
      assert (head + tail)[..|head| + k] == head + tail[..k];
      assert (head + tail)[|head| + k..] == tail[k..];
    }
  }

  /** One streaming step is independent of the cut: scanning only the pending bytes and the new
      chunk gives the same verdict, the same released text and the same pending bytes as scanning
      everything received so far. */
  lemma StreamStep(text: ByteString, chunk: ByteString)
    requires ScanAll(text).Complete?
    ensures ScanAll(Pending(text) + chunk).Malformed? <==> ScanAll(text + chunk).Malformed?
    ensures ScanAll(text + chunk).Complete? ==>
              && Released(text + chunk) == Released(text) + Released(Pending(text) + chunk)
              && Pending(text + chunk) == Pending(Pending(text) + chunk)
  {
    hide ScanFrom, Encode, EncodeAll, AllScalar;
    var cs := ScanSound(text, 0);
    assert EncodeAll(cs) == Released(text);
    assert text + chunk == Released(text) + (Pending(text) + chunk);
    ReleaseAfterPrefix(cs, Pending(text) + chunk);
  }

  /** Errors are never taken back by more text. */
  lemma {:induction false} MalformedStays(s: ByteString, more: ByteString, offset: nat)
    requires offset <= |s| && ScanFrom(s, offset).Malformed?
    ensures ScanFrom(s + more, offset).Malformed?
    decreases |s| - offset
  {
    var t := s + more;
    var w := SequenceWidth(s[offset]);
    if w > 0 {
      assert t[offset..offset + w] == s[offset..offset + w];
      if SequenceOk(s[offset..offset + w]) {
        MalformedStays(s, more, offset + w);
      }
    }
  }
}
