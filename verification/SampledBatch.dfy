/** Wire form of sampled tokens: packing by the last stage (output_for_row and output_for_rows,
    runtime/adapters/llama_cpp_stage_adapter.cpp:312-386) and reading by the runner
    (read_sampled_batch, runtime/pipeline_parallel/generation_runner.cpp:45-84). */
module SampledBatch {
  import opened Bytes
  import opened StageSession
  import opened Wrappers

  datatype Wire =
    | OneToken(payload: ByteString, message: ByteString, completionTokens: int)
    | ManyTokens(payload: ByteString, message: ByteString, offsets: seq<nat>, ends: seq<Byte>)
    | OtherPayload

  // --- Packing ------------------------------------------------------------------------------

  function JoinText(items: seq<SampledItem>): ByteString {
    if items == [] then [] else JoinText(items[..|items| - 1]) + items[|items| - 1].text
  }

  function PackTokens(items: seq<SampledItem>): (b: ByteString)
    ensures |b| == 4 * |items|
  {
    if items == [] then [] else PackTokens(items[..|items| - 1]) + LittleEndian(items[|items| - 1].token, 4)
  }

  function PackOffsets(items: seq<SampledItem>): (o: seq<nat>)
    ensures |o| == |items|
  {
    if items == [] then [] else PackOffsets(items[..|items| - 1]) + [|JoinText(items)|]
  }

  function PackEnds(items: seq<SampledItem>): (e: seq<Byte>)
    ensures |e| == |items|
  {
    seq(|items|, k requires 0 <= k < |items| => if items[k].endOfGeneration then 1 else 0)
  }

  function Pack(items: seq<SampledItem>): Wire
    requires items != []
  {
    if |items| == 1 then
      OneToken(LittleEndian(items[0].token, 4), items[0].text, if items[0].endOfGeneration then 0 else 1)
    else ManyTokens(PackTokens(items), JoinText(items), PackOffsets(items), PackEnds(items))
  }

  // --- Reading ------------------------------------------------------------------------------

  predicate ShapeOk(w: Wire)
    requires w.ManyTokens?
  {
    |w.payload| >= 8 && |w.payload| % 4 == 0 && |w.offsets| == |w.payload| / 4 && |w.ends| == |w.payload| / 4
  }

  function TextStart(w: Wire, k: nat): nat
    requires w.ManyTokens? && k <= |w.offsets|
  {
    if k == 0 then 0 else w.offsets[k - 1]
  }

  /** Offsets never go back and end with the message. */
  ghost predicate OffsetsOk(w: Wire)
    requires w.ManyTokens? && ShapeOk(w)
  {
    && (forall k :: 0 <= k < |w.offsets| ==> TextStart(w, k) <= w.offsets[k] <= |w.message|)
    && w.offsets[|w.offsets| - 1] == |w.message|
  }

  function ItemAt(w: Wire, k: nat): SampledItem
    requires w.ManyTokens? && ShapeOk(w) && k < |w.offsets| && TextStart(w, k) <= w.offsets[k] <= |w.message|
  {
    SampledItem(ReadLittle(w.payload[4 * k..4 * k + 4]), w.message[TextStart(w, k)..w.offsets[k]], w.ends[k] != 0)
  }

  method ReadSampledBatch(w: Wire) returns (r: Option<seq<SampledItem>>)
    ensures w.OtherPayload? ==> r.None?
    ensures w.OneToken? ==>
              r == if |w.payload| != 4 then None
                   else Some([SampledItem(ReadLittle(w.payload), w.message, w.completionTokens == 0)])
    ensures w.ManyTokens? ==>
              && (r.Some? <==> ShapeOk(w) && OffsetsOk(w))
              && (r.Some? ==> |r.value| == |w.offsets| && forall k :: 0 <= k < |w.offsets| ==> r.value[k] == ItemAt(w, k))
  {
    hide ReadLittle, Pow256;
    if w.OneToken? {
      if |w.payload| != 4 {
        return None;
      }
      return Some([SampledItem(ReadLittle(w.payload), w.message, w.completionTokens == 0)]);
    }
    if w.OtherPayload? || !ShapeOk(w) {
      return None;
    }
    r := ReadMany(w);
  }

  method ReadMany(w: Wire) returns (r: Option<seq<SampledItem>>)
    requires w.ManyTokens? && ShapeOk(w)
    ensures r.Some? <==> OffsetsOk(w)
    ensures r.Some? ==> |r.value| == |w.offsets| && forall k :: 0 <= k < |w.offsets| ==> r.value[k] == ItemAt(w, k)
  {
    hide ReadLittle, Pow256;
    var items: seq<SampledItem> := [];
    var textStart := 0;
    for index := 0 to |w.offsets|
      invariant |items| == index && textStart == TextStart(w, index) <= |w.message|
      invariant forall k :: 0 <= k < index ==> TextStart(w, k) <= w.offsets[k] <= |w.message|
      invariant forall k :: 0 <= k < index ==> items[k] == ItemAt(w, k)
    {
      var textEnd := w.offsets[index];
      if textEnd < textStart || textEnd > |w.message| {
        return None;
      }
      items := items + [ItemAt(w, index)];
      textStart := textEnd;
    }
    if textStart != |w.message| {
      return None;
    }
    r := Some(items);
  }

  // --- Round trip ---------------------------------------------------------------------------

  lemma {:induction false} PackPrefix(items: seq<SampledItem>, k: nat)
    requires k <= |items|
    ensures PackOffsets(items[..k]) == PackOffsets(items)[..k]
    ensures PackTokens(items[..k]) == PackTokens(items)[..4 * k]
    ensures |JoinText(items[..k])| <= |JoinText(items)| && JoinText(items[..k]) == JoinText(items)[..|JoinText(items[..k])|]
    decreases |items| - k
  {
    if k == |items| {
      assert items[..k] == items;
    } else {
      PackPrefix(items, k + 1);
      var up := items[..k + 1];
      assert up[..k] == items[..k] && up[|up| - 1] == items[k];
    }
  }

  lemma PackedText(items: seq<SampledItem>, k: nat)
    requires k < |items|
    ensures var from, to := |JoinText(items[..k])|, |JoinText(items[..k + 1])|;
            from <= to <= |JoinText(items)| && JoinText(items)[from..to] == items[k].text
  {
    PackPrefix(items, k);
    PackPrefix(items, k + 1);
    assert items[..k + 1][..k] == items[..k];
  }

  lemma PackedToken(items: seq<SampledItem>, k: nat)
    requires k < |items|
    ensures PackTokens(items)[4 * k..4 * k + 4] == LittleEndian(items[k].token, 4)
  {
    hide LittleEndian;
    PackPrefix(items, k + 1);
    assert items[..k + 1][..k] == items[..k];
    assert PackTokens(items[..k + 1])[4 * k..] == LittleEndian(items[k].token, 4);
  }

  /** The reader gets back every item the last stage packed: tokens, texts and end flags. */
  lemma PackedItem(items: seq<SampledItem>, k: nat)
    requires k < |items| && |items| >= 2 && items[k].token < Pow256(4)
    ensures var w := Pack(items);
            && ShapeOk(w) && OffsetsOk(w)
            && |w.offsets| == |items| && TextStart(w, k) <= w.offsets[k] <= |w.message|
            && ItemAt(w, k) == items[k]
            && w.ends[k] == (if items[k].endOfGeneration then 1 else 0)
  {
    hide LittleEndian, ReadLittle, JoinText, PackTokens, PackOffsets;
    PackedOffsets(items);
    PackedTextStart(items, k);
    PackedTextStart(items, k + 1);
    PackedText(items, k);
    PackedToken(items, k);
    LittleRoundTrip(items[k].token, 4);
  }

  lemma PackedTextStart(items: seq<SampledItem>, k: nat)
    requires k <= |items| && |items| >= 2
    ensures TextStart(Pack(items), k) == |JoinText(items[..k])|
  {
    if k > 0 {
      PackPrefix(items, k);
      assert PackOffsets(items)[k - 1] == PackOffsets(items[..k])[k - 1];
    }
  }

  lemma PackedOffsets(items: seq<SampledItem>)
    requires |items| >= 2
    ensures ShapeOk(Pack(items)) && OffsetsOk(Pack(items))
  {
    hide JoinText, PackTokens, PackOffsets;
    var w := Pack(items);
    forall k | 0 <= k < |items| ensures TextStart(w, k) <= w.offsets[k] <= |w.message| {
      PackedTextStart(items, k);
      PackedTextStart(items, k + 1);
      PackedText(items, k);
    }
    PackedTextStart(items, |items|);
    assert items[..|items|] == items;
  }

  /** A single token travels without offsets: the completion count tells whether it ends the generation. */
  lemma PackedOne(item: SampledItem)
    requires item.token < Pow256(4)
    ensures var w := Pack([item]);
            && w.OneToken? && |w.payload| == 4 && ReadLittle(w.payload) == item.token && w.message == item.text
            && w.completionTokens == (if item.endOfGeneration then 0 else 1)
  {
    LittleRoundTrip(item.token, 4);
  }
}
