/** The coordinator's check of a runtime event stream (internal/coordinator/generation_events.go:81-164)
    and its agreement with what the runner reports. */
module GenerationEvents {
  import opened Bytes
  import opened StageSession
  import opened Generation
  import opened Pipeline
  import opened Wrappers

  datatype Event =
    | TokenMessage(token: Option<Token>, text: ByteString, index: int)
    | DoneMessage(finishReason: string, sampledTokens: seq<Token>, counters: Counters)
    | ErrorMessage
    | UnknownMessage

  datatype Consumed = Consumed(sampledTokens: seq<Token>, text: ByteString, finish: Option<Event>)

  datatype Verdict = Rejected | Continue(state: Consumed) | Finished(state: Consumed)

  // --- What one event does ---------------------------------------------------------------------

  /** Passes the done event claims; without decode passes they are inferred from the tokens. */
  function ClaimedPasses(done: Event, tokens: nat): int
    requires done.DoneMessage?
  {
    if done.counters.targetDecodePasses == 0 then tokens + (if done.finishReason == "stop" then 1 else 0)
    else 1 + done.counters.targetDecodePasses
  }

  predicate DoneAgrees(expectedStages: int, sampled: seq<Token>, done: Event)
    requires expectedStages > 0 && done.DoneMessage?
  {
    var c, passes := done.counters, ClaimedPasses(done, |sampled|);
    && (done.finishReason == "stop" || done.finishReason == "length")
    && done.sampledTokens == sampled
    && c.promptTokens >= 0
    && c.completionTokens == |sampled|
    && c.stageCalls == passes * expectedStages
    && c.remoteStageCalls == passes * (expectedStages - 1)
    && c.rollbackStageCalls % expectedStages == 0
    && c.remoteRollbackStageCalls == c.rollbackStageCalls / expectedStages * (expectedStages - 1)
  }

  function Step(expectedStages: int, s: Consumed, event: Event): Verdict
    requires expectedStages > 0
  {
    match event
    case TokenMessage(token, text, index) =>
      if token.None? || index != |s.sampledTokens| then Rejected
      else Continue(Consumed(s.sampledTokens + [token.value], s.text + text, s.finish))
    case DoneMessage(_, _, _) =>
      if DoneAgrees(expectedStages, s.sampledTokens, event) then Finished(s.(finish := Some(event))) else Rejected
    case ErrorMessage => Rejected
    case UnknownMessage => Rejected
  }

  /** A stream is read until it is rejected or finished. */
  function Consume(expectedStages: int, s: Consumed, stream: seq<Event>): Verdict
    requires expectedStages > 0
    decreases stream
  {
    if stream == [] then Continue(s)
    else
      match Step(expectedStages, s, stream[0])
      case Continue(next) => Consume(expectedStages, next, stream[1..])
      case other => other
  }

  class GenerationEventConsumer {
    const expectedStages: int
    var state: Consumed

    constructor (expectedStages: int)
      requires expectedStages > 0
      ensures this.expectedStages == expectedStages && state == Consumed([], [], None)
    {
      this.expectedStages := expectedStages;
      state := Consumed([], [], None);
    }

    method SameTokens(tokens: seq<Token>) returns (same: bool)
      ensures same <==> tokens == state.sampledTokens
    {
      if |tokens| != |state.sampledTokens| {
        return false;
      }
      for index := 0 to |tokens|
        invariant forall k :: 0 <= k < index ==> tokens[k] == state.sampledTokens[k]
      {
        if tokens[index] != state.sampledTokens[index] {
          return false;
        }
      }
      same := true;
    }

    method Accept(event: Event) returns (done: bool, ok: bool)
      requires expectedStages > 0
      modifies this
      ensures match Step(expectedStages, old(state), event)
              case Rejected => !ok && !done && state == old(state)
              case Continue(next) => ok && !done && state == next
              case Finished(next) => ok && done && state == next
    {
      done, ok := false, false;
      match event
      case TokenMessage(token, text, index) =>
        if token.None? || index != |state.sampledTokens| {
          return;
        }
        state := state.(sampledTokens := state.sampledTokens + [token.value], text := state.text + text);
        ok := true;
      case DoneMessage(finishReason, sampledTokens, c) =>
        if finishReason != "stop" && finishReason != "length" {
          return;
        }
        var same := SameTokens(sampledTokens);
        if !same || c.promptTokens < 0 || c.completionTokens != |state.sampledTokens| {
          return;
        }
        var passes := 1 + c.targetDecodePasses;
        if c.targetDecodePasses == 0 {
          passes := |state.sampledTokens|;
          if finishReason == "stop" {
            passes := passes + 1;
          }
        }
        if c.stageCalls != passes * expectedStages || c.remoteStageCalls != passes * (expectedStages - 1) {
          return;
        }
        if c.rollbackStageCalls % expectedStages != 0 {
          return;
        }
        if c.remoteRollbackStageCalls != c.rollbackStageCalls / expectedStages * (expectedStages - 1) {
          return;
        }
        state := state.(finish := Some(event));
        done, ok := true, true;
      case ErrorMessage =>
      case UnknownMessage =>
    }
  }

  // --- Agreement with the runner -----------------------------------------------------------------

  function TokenMessages(events: seq<TokenEvent>): seq<Event> {
    seq(|events|, k requires 0 <= k < |events| => TokenMessage(Some(events[k].token), events[k].text, events[k].index))
  }

  function DoneOf(result: GenerationResult): Event
    requires result.Done?
  {
    DoneMessage(if result.finishReason.Stop? then "stop" else "length", result.sampledTokens, result.counters)
  }

  /** The indices count up from here. */
  ghost predicate CountsUp(events: seq<TokenEvent>, from: nat) {
    forall k :: 0 <= k < |events| ==> events[k].index == from + k
  }

  lemma NothingCounts(from: nat)
    ensures CountsUp([], from)
  {
  }

  lemma CountsUpFirst(events: seq<TokenEvent>, from: nat)
    requires events != []
    ensures CountsUp(events, from) <==> events[0].index == from && CountsUp(events[1..], from + 1)
  {
    if events[0].index == from && CountsUp(events[1..], from + 1) {
      assert forall k :: 0 < k < |events| ==> events[k] == events[1..][k - 1];
    }
  }

  /** A stream of token events is accepted exactly when the indices count up from what was consumed. */
  lemma {:induction false} TokensConsumed(expectedStages: int, s: Consumed, events: seq<TokenEvent>, tail: seq<Event>)
    requires expectedStages > 0
    ensures Consume(expectedStages, s, TokenMessages(events) + tail) ==
            if CountsUp(events, |s.sampledTokens|)
            then Consume(expectedStages, Consumed(s.sampledTokens + EventTokens(events), s.text + JoinedText(events), s.finish), tail)
            else Rejected
    decreases |events|
  {
    hide CountsUp;
    var stream := TokenMessages(events) + tail;
    if events == [] {
      NothingCounts(|s.sampledTokens|);
      assert stream == tail;
      assert s.sampledTokens + EventTokens(events) == s.sampledTokens && s.text + JoinedText(events) == s.text;
    } else if events[0].index == |s.sampledTokens| {
      var rest := events[1..];
      var next := Consumed(s.sampledTokens + [events[0].token], s.text + events[0].text, s.finish);
      assert stream[1..] == TokenMessages(rest) + tail;
      TokensConsumed(expectedStages, next, rest, tail);
      assert next.sampledTokens + EventTokens(rest) == s.sampledTokens + EventTokens(events);
      assert next.text + JoinedText(rest) == s.text + JoinedText(events);
      CountsUpFirst(events, |s.sampledTokens|);
    } else {
      CountsUpFirst(events, |s.sampledTokens|);
    }
  }

  ghost function JoinedText(events: seq<TokenEvent>): ByteString {
    if events == [] then [] else events[0].text + JoinedText(events[1..])
  }

  lemma {:induction false} JoinedIsEventText(events: seq<TokenEvent>)
    ensures JoinedText(events) == EventText(events)
    decreases |events|
  {
    if |events| > 0 {
      var last := |events| - 1;
      JoinedIsEventText(events[..last]);
      JoinedAppend(events[..last], events[last]);
      assert events[..last] + [events[last]] == events;
    }
  }

  lemma {:induction false} JoinedAppend(events: seq<TokenEvent>, event: TokenEvent)
    ensures JoinedText(events + [event]) == JoinedText(events) + event.text
    decreases |events|
  {
    if events != [] {
      JoinedAppend(events[1..], event);
      assert (events + [event])[1..] == events[1..] + [event];
    }
  }

  /** A complete stream is accepted exactly when the indices count up from zero and the done event
      agrees with the streamed tokens, so lost, repeated and reordered tokens are all detected. */
  lemma StreamAccepted(expectedStages: int, events: seq<TokenEvent>, done: Event)
    requires expectedStages > 0 && done.DoneMessage?
    ensures var verdict := Consume(expectedStages, Consumed([], [], None), TokenMessages(events) + [done]);
            && (verdict.Finished? <==>
                  (forall k :: 0 <= k < |events| ==> events[k].index == k) && DoneAgrees(expectedStages, EventTokens(events), done))
            && (verdict.Finished? ==> verdict.state == Consumed(EventTokens(events), EventText(events), Some(done)))
            && !verdict.Continue?
  {
    TokensConsumed(expectedStages, Consumed([], [], None), events, [done]);
    JoinedIsEventText(events);
    assert [] + EventTokens(events) == EventTokens(events) && [] + JoinedText(events) == JoinedText(events);
  }

  // --- Any stream --------------------------------------------------------------------------------

  predicate GoodToken(event: Event, index: int) {
    event.TokenMessage? && event.token.Some? && event.index == index
  }

  /** The first n events are token events that count up from an index. */
  ghost predicate GoodTokens(stream: seq<Event>, n: nat, from: nat) {
    n <= |stream| && forall k :: 0 <= k < n ==> GoodToken(stream[k], from + k)
  }

  ghost function StreamedTokens(stream: seq<Event>, n: nat, from: nat): (tokens: seq<Token>)
    requires GoodTokens(stream, n, from)
    ensures |tokens| == n
  {
    seq(n, k requires 0 <= k < n => stream[k].token.value)
  }

  ghost function StreamedText(stream: seq<Event>, n: nat, from: nat): ByteString
    requires GoodTokens(stream, n, from)
  {
    if n == 0 then [] else StreamedText(stream, n - 1, from) + stream[n - 1].text
  }

  lemma NextGood(stream: seq<Event>, n: nat)
    requires GoodTokens(stream, n, 0) && n < |stream| && GoodToken(stream[n], n)
    ensures GoodTokens(stream, n + 1, 0)
    ensures StreamedTokens(stream, n + 1, 0) == StreamedTokens(stream, n, 0) + [stream[n].token.value]
  {
  }

  /** After n good token events the consumer holds exactly their tokens and text. */
  lemma {:induction false} ConsumedSoFar(expectedStages: int, stream: seq<Event>, n: nat)
    requires expectedStages > 0 && GoodTokens(stream, n, 0)
    ensures Consume(expectedStages, Consumed([], [], None), stream) ==
            Consume(expectedStages, Consumed(StreamedTokens(stream, n, 0), StreamedText(stream, n, 0), None), stream[n..])
  {
    if n == 0 {
      assert stream[0..] == stream;
    } else {
      ConsumedSoFar(expectedStages, stream, n - 1);
      NextGood(stream, n - 1);
      assert stream[n - 1..][1..] == stream[n..];
    }
  }

  /** The leading good token events of a stream. */
  lemma {:induction false} LeadingTokens(stream: seq<Event>, from: nat) returns (n: nat)
    requires GoodTokens(stream, from, 0)
    ensures GoodTokens(stream, n, 0) && (n < |stream| ==> !GoodToken(stream[n], n))
    decreases |stream| - from
  {
    n := from;
    if n < |stream| && GoodToken(stream[n], n) {
      NextGood(stream, n);
      n := LeadingTokens(stream, n + 1);
    }
  }

  /** The stream finishes at event n: good tokens, then a done event that agrees with them. */
  ghost predicate FinishesAt(expectedStages: int, stream: seq<Event>, n: nat)
    requires expectedStages > 0
  {
    && GoodTokens(stream, n, 0) && n < |stream| && stream[n].DoneMessage?
    && DoneAgrees(expectedStages, StreamedTokens(stream, n, 0), stream[n])
  }

  /** Whatever a runtime sends: the coordinator finishes exactly when good token events are followed by a done
      event that agrees with them, with their tokens and text, goes on waiting exactly while there are good
      token events alone, and rejects everything else, so in particular every stream with an error event. */
  lemma AnyStream(expectedStages: int, stream: seq<Event>)
    requires expectedStages > 0
    ensures var verdict := Consume(expectedStages, Consumed([], [], None), stream);
            && (verdict.Continue? <==> GoodTokens(stream, |stream|, 0))
            && (verdict.Finished? <==> exists n: nat :: FinishesAt(expectedStages, stream, n))
            && (forall n: nat :: FinishesAt(expectedStages, stream, n) ==>
                  verdict == Finished(Consumed(StreamedTokens(stream, n, 0), StreamedText(stream, n, 0), Some(stream[n]))))
  {
    hide DoneAgrees, StreamedText, StreamedTokens;
    var m := LeadingTokens(stream, 0);
    ConsumedSoFar(expectedStages, stream, m);
    assert forall n: nat :: FinishesAt(expectedStages, stream, n) ==> n == m;
    assert stream[m..] == [] <==> m == |stream|;
    if m < |stream| {
      assert stream[m..][0] == stream[m];
      assert FinishesAt(expectedStages, stream, m) <==>
             stream[m].DoneMessage? && DoneAgrees(expectedStages, StreamedTokens(stream, m, 0), stream[m]);
    }
  }

  /** Calls in whole passes and whole rollbacks over all stages. */
  ghost predicate WholeCalls(c: Counters, passes: int, stages: int) {
    && c.stageCalls == passes * stages && c.remoteStageCalls == passes * (stages - 1)
    && exists r: int {:trigger r * stages} :: c.rollbackStageCalls == r * stages && c.remoteRollbackStageCalls == r * (stages - 1)
  }

  /** What an accepted done event says: the streamed tokens, and calls in whole passes and rollbacks. */
  lemma DoneMeans(expectedStages: int, sampled: seq<Token>, done: Event)
    requires expectedStages > 0 && done.DoneMessage?
    ensures var c := done.counters;
            DoneAgrees(expectedStages, sampled, done) <==>
              && done.finishReason in {"stop", "length"} && done.sampledTokens == sampled
              && c.promptTokens >= 0 && c.completionTokens == |sampled|
              && WholeCalls(c, if c.targetDecodePasses != 0 then c.targetDecodePasses + 1
                               else if done.finishReason == "stop" then |sampled| + 1 else |sampled|, expectedStages)
  {
    var c := done.counters;
    if c.rollbackStageCalls % expectedStages == 0 {
      assert c.rollbackStageCalls == c.rollbackStageCalls / expectedStages * expectedStages;
    }
    forall r: int | c.rollbackStageCalls == r * expectedStages
      ensures c.rollbackStageCalls % expectedStages == 0 && c.rollbackStageCalls / expectedStages == r
    {
      MultipleDivides(r, expectedStages);
    }
  }

  /** Every successful run, as GenerationRunner.Run describes it, passes all checks of the coordinator. */
  lemma RunAccepted(model: Model, stageCount: nat, promptLength: nat, made: Tally, result: GenerationResult, events: seq<TokenEvent>, pending: ByteString)
    requires result.Done? && Mirrors(model, result.sampledTokens, events, pending)
    requires Accounted(result.counters, stageCount, promptLength, made, 0)
    requires CompletionAccounted(result.counters, result.sampledTokens, result.finishReason.Stop?)
    ensures Consume(stageCount, Consumed([], [], None), TokenMessages(events) + [DoneOf(result)]) ==
            Finished(Consumed(result.sampledTokens, EventText(events), Some(DoneOf(result))))
  {
    var c := result.counters;
    var r: nat :| c.rollbackStageCalls == r * stageCount && c.remoteRollbackStageCalls == r * (stageCount - 1);
    MultipleDivides(r, stageCount);
    StreamAccepted(stageCount, events, DoneOf(result));
  }

  lemma MultipleDivides(r: int, n: nat)
    requires n > 0
    ensures r * n % n == 0 && r * n / n == r
  {
    var p := r * n;
    var q, m := p / n, p % n;
    assert p == q * n + m && (r - q) * n == m;
    SmallMultiple(r - q, n);
  }

  lemma SmallMultiple(d: int, n: int)
    requires n > 0 && 0 <= d * n < n
    ensures d == 0
  {
    assert d >= 1 ==> d * n >= n;
    assert d <= -1 ==> d * n <= 0 - n;
  }
}
