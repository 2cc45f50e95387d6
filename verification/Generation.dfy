/** Token generation: the plain greedy loop and the speculative runner that must equal it
    (runtime/pipeline_parallel/generation_runner.cpp:382-566, internal/stageexec/generation.go:52-90). */
module Generation {
  import opened Bytes
  import opened StageSession
  import opened Pipeline
  import Utf8
  import opened Wrappers
  import opened Arithmetic

  // --- The meaning of generation -------------------------------------------------------------

  datatype Outcome = Outcome(tokens: seq<Token>, stopped: bool)

  /** One token at a time from a context, until an end token or the budget. */
  ghost function Greedy(model: Model, context: seq<Token>, budget: nat): (o: Outcome)
    ensures |o.tokens| <= budget
    decreases budget
  {
    var next := Target(model, context);
    if budget == 0 then Outcome([], false)
    else if model.isEnd(next) then Outcome([], true)
    else
      var rest := Greedy(model, context + [next], budget - 1);
      Outcome([next] + rest.tokens, rest.stopped)
  }

  function ItemTokens(items: seq<SampledItem>): (tokens: seq<Token>)
    ensures |tokens| == |items|
  {
    seq(|items|, k requires 0 <= k < |items| => items[k].token)
  }

  /** Each item is what the pipeline samples after the base and the items before it. */
  ghost predicate Follows(model: Model, base: seq<Token>, items: seq<SampledItem>) {
    forall k :: 0 <= k < |items| ==> items[k] == Item(model, Target(model, base + ItemTokens(items[..k])))
  }

  ghost predicate NoEnd(items: seq<SampledItem>) {
    forall k :: 0 <= k < |items| ==> !items[k].endOfGeneration
  }

  /** The greedy outcome splits at any point of its own output. */
  lemma {:induction false} GreedyFollows(model: Model, base: seq<Token>, items: seq<SampledItem>, budget: nat)
    requires Follows(model, base, items) && NoEnd(items) && |items| <= budget
    ensures var rest := Greedy(model, base + ItemTokens(items), budget - |items|);
            Greedy(model, base, budget) == Outcome(ItemTokens(items) + rest.tokens, rest.stopped)
    decreases |items|
  {
    hide Target;
    if items == [] {
      assert base + ItemTokens(items) == base;
    } else {
      var next, tail := items[0].token, items[1..];
      FollowsTail(model, base, items);
      hide Follows, ItemTokens;
      GreedyFollows(model, base + [next], tail, budget - 1);
      var rest := Greedy(model, base + ItemTokens(items), budget - |items|);
      assert [next] + (ItemTokens(tail) + rest.tokens) == ItemTokens(items) + rest.tokens;
    }
  }

  lemma FollowsTail(model: Model, base: seq<Token>, items: seq<SampledItem>)
    requires Follows(model, base, items) && items != []
    ensures items[0] == Item(model, Target(model, base))
    ensures Follows(model, base + [items[0].token], items[1..])
    ensures ItemTokens(items) == [items[0].token] + ItemTokens(items[1..])
    ensures base + [items[0].token] + ItemTokens(items[1..]) == base + ItemTokens(items)
  {
    hide Target;
    var next, tail := items[0].token, items[1..];
    assert base + ItemTokens(items[..0]) == base;
    forall k | 0 <= k < |tail|
      ensures tail[k] == Item(model, Target(model, base + [next] + ItemTokens(tail[..k])))
    {
      assert ItemTokens(items[..k + 1]) == [next] + ItemTokens(tail[..k]);
      assert base + [next] + ItemTokens(tail[..k]) == base + ItemTokens(items[..k + 1]);
      assert tail[k] == items[k + 1];
    }
    assert ItemTokens(items) == [next] + ItemTokens(tail);
  }

  lemma FollowersCarryText(model: Model, base: seq<Token>, items: seq<SampledItem>)
    requires Follows(model, base, items)
    ensures CarryText(model, items)
  {
    hide Target, ItemTokens;
  }

  lemma TakeOneMore(base: seq<Token>, tokens: seq<Token>, k: nat)
    requires k < |tokens|
    ensures base + tokens[..k] + [tokens[k]] == base + tokens[..k + 1]
  {
  }

  /** Text of a token sequence. */
  ghost function TextOf(model: Model, tokens: seq<Token>): ByteString {
    if tokens == [] then [] else TextOf(model, tokens[..|tokens| - 1]) + model.piece(tokens[|tokens| - 1])
  }

  ghost predicate MalformedText(model: Model, tokens: seq<Token>) {
    Utf8.ScanAll(TextOf(model, tokens)).Malformed?
  }

  // --- Results ----------------------------------------------------------------------------------

  datatype TokenEvent = TokenEvent(token: Token, text: ByteString, index: int)

  ghost function EventText(events: seq<TokenEvent>): ByteString {
    if events == [] then [] else EventText(events[..|events| - 1]) + events[|events| - 1].text
  }

  ghost function EventTokens(events: seq<TokenEvent>): (tokens: seq<Token>)
    ensures |tokens| == |events|
  {
    seq(|events|, k requires 0 <= k < |events| => events[k].token)
  }

  /** Events mirror the sampled tokens, and their text is what the scanner releases. */
  ghost predicate Mirrors(model: Model, tokens: seq<Token>, events: seq<TokenEvent>, pending: ByteString) {
    && EventTokens(events) == tokens
    && (forall k :: 0 <= k < |events| ==> events[k].index == k)
    && Utf8.ScanAll(TextOf(model, tokens)).Complete?
    && pending == Utf8.Pending(TextOf(model, tokens))
    && EventText(events) == Utf8.Released(TextOf(model, tokens))
  }

  /** One more token: either its text is malformed, or the mirror is extended by one event. */
  lemma MirrorStep(model: Model, tokens: seq<Token>, events: seq<TokenEvent>, pending: ByteString, token: Token)
    requires Mirrors(model, tokens, events, pending)
    ensures var scan := Utf8.ScanAll(pending + model.piece(token));
            && (scan.Malformed? <==> Utf8.ScanAll(TextOf(model, tokens + [token])).Malformed?)
            && (scan.Complete? ==>
                  && scan.offset <= |pending + model.piece(token)|
                  && var text := pending + model.piece(token);
                     Mirrors(model, tokens + [token], events + [TokenEvent(token, text[..scan.offset], |tokens|)], text[scan.offset..]))
  {
    var text := TextOf(model, tokens);
    Utf8.StreamStep(text, model.piece(token));
    Utf8.ScanOffsetInRange(pending + model.piece(token), 0);
    assert (tokens + [token])[..|tokens|] == tokens;
    assert TextOf(model, tokens + [token]) == text + model.piece(token);
    forall event: TokenEvent ensures (events + [event])[..|events|] == events {}
  }

  datatype FinishReason = Stop | Length

  datatype Failure =
    | PrefillFailed(stage: nat, error: StageError)
    | PassFailedAt(stage: nat, error: StageError)
    | RollbackFailed(error: StageError)
    | InvalidTokenText
    | Canceled
    | CleanupFailed(error: StageError)

  datatype Counters = Counters(
    promptTokens: int,
    completionTokens: int,
    stageCalls: int,
    remoteStageCalls: int,
    rollbackStageCalls: int,
    remoteRollbackStageCalls: int,
    targetDecodePasses: int,
    draftTokens: int,
    acceptedTokens: int
  )

  datatype GenerationResult =
    | Done(sampledTokens: seq<Token>, finishReason: FinishReason, counters: Counters)
    | Failed(failure: Failure)

  type DraftStrategy = (seq<Token>, nat) -> seq<Token>

  /** Calls were added, none of them a close. */
  ghost predicate Quiet(before: seq<Call>, after: seq<Call>) {
    before <= after && forall k :: |before| <= k < |after| ==> !after[k].CloseCall?
  }

  function DecodePayload(tokens: seq<Token>): Payload
    requires tokens != []
  {
    if |tokens| == 1 then SampledToken(tokens[0]) else Tokens(tokens)
  }

  lemma DecodePayloadRows(model: Model, config: StageConfig, tokens: seq<Token>)
    requires tokens != [] && IsFirst(config)
    ensures InputRows(model, config, DecodePayload(tokens)) == Some(TokenRows(tokens))
    ensures DecodedTokens(DecodePayload(tokens)) == |tokens|
  {
    assert |tokens| == 1 ==> TokenRows(tokens) == [TokenRow(tokens[0])];
  }

  /** Calls made since an earlier moment. */
  ghost function Since(before: Tally, now: Tally): Tally {
    Tally(now.executes - before.executes, now.remoteExecutes - before.remoteExecutes, now.rollbacks - before.rollbacks,
          now.remoteRollbacks - before.remoteRollbacks, now.undone - before.undone)
  }

  /** The reported counters are the calls really made, in whole passes and rollbacks over all stages, and the
      drafted tokens that were not accepted are those undone on the stages, but for the ones still open. */
  ghost predicate Accounted(c: Counters, stageCount: nat, promptLength: nat, made: Tally, open: nat) {
    && stageCount >= 1
    && c.promptTokens == promptLength
    && c.targetDecodePasses >= 0
    && c.stageCalls == made.executes == (1 + c.targetDecodePasses) * stageCount
    && c.remoteStageCalls == made.remoteExecutes == (1 + c.targetDecodePasses) * (stageCount - 1)
    && c.rollbackStageCalls == made.rollbacks && c.remoteRollbackStageCalls == made.remoteRollbacks
    && (exists r: nat {:trigger r * stageCount} ::
          c.rollbackStageCalls == r * stageCount && c.remoteRollbackStageCalls == r * (stageCount - 1))
    && 0 <= c.acceptedTokens && 0 <= made.undone && c.draftTokens == c.acceptedTokens + made.undone + open
  }

  lemma EmittingKeepsAccount(c: Counters, completionTokens: int, stageCount: nat, promptLength: nat, made: Tally, open: nat)
    requires Accounted(c, stageCount, promptLength, made, open)
    ensures Accounted(c.(completionTokens := completionTokens), stageCount, promptLength, made, open)
  {
  }

  lemma PrefillAccounted(c: Counters, stageCount: nat, promptLength: nat, before: seq<Call>)
    requires stageCount >= 1 && c == Counters(promptLength, 0, stageCount, stageCount - 1, 0, 0, 0, 0, 0)
    ensures Accounted(c, stageCount, promptLength, Since(TallyOf(before), TallyOf(before + ExecuteCalls(stageCount))), 0)
  {
    hide TallyOf;
    TallyExecutes(before, stageCount);
    assert c.rollbackStageCalls == 0 * stageCount;
  }

  lemma PassesMade(c: Counters, stageCount: nat, promptLength: nat, made: Tally, open: nat)
    requires Accounted(c, stageCount, promptLength, made, open)
    ensures c.targetDecodePasses >= 0
  {
  }

  /** Every pass samples one token, and every accepted draft token saves a pass: tokens and the end token, if
      any, are the passes and the accepted tokens. */
  ghost predicate CompletionAccounted(c: Counters, tokens: seq<Token>, stopped: bool) {
    && c.completionTokens == |tokens|
    && |tokens| + (if stopped then 1 else 0) == 1 + c.targetDecodePasses + c.acceptedTokens
    && (c.targetDecodePasses == 0 ==> c.acceptedTokens == 0)
  }

  // --- What a run costs -------------------------------------------------------------------------

  /** Verification passes, drafted and accepted tokens, and passes that rejected something. */
  datatype Effort = Effort(rounds: nat, drafted: nat, accepted: nat, rejections: nat)

  /** How far a draft agrees with the tokens that come. */
  ghost function Agreeing(proposal: seq<Token>, coming: seq<Token>): (n: nat)
    ensures n <= |proposal| && n <= |coming|
  {
    if proposal == [] || coming == [] || proposal[0] != coming[0] then 0 else 1 + Agreeing(proposal[1..], coming[1..])
  }

  lemma {:induction false} AgreeingIs(proposal: seq<Token>, coming: seq<Token>, n: nat)
    requires n <= |proposal| && n <= |coming|
    requires forall k :: 0 <= k < n ==> proposal[k] == coming[k]
    requires n == |proposal| || n == |coming| || proposal[n] != coming[n]
    ensures Agreeing(proposal, coming) == n
    decreases n
  {
    if n > 0 {
      AgreeingIs(proposal[1..], coming[1..], n - 1);
    }
  }

  /** The draft made after n tokens: what the strategy gives for prompt and tokens, within the width and the
      rest of the budget less one; none right after a rejection. */
  ghost function DraftAt(draft: Option<DraftStrategy>, width: nat, budget: nat, prompt: seq<Token>, tokens: seq<Token>, recovering: bool)
    : seq<Token>
  {
    if draft.None? || recovering || |tokens| + 1 >= budget then []
    else draft.value(prompt + tokens, Min(width, budget - |tokens| - 1))
  }

  /** Effort from the moment when n tokens of the outcome are there. */
  ghost function EffortFrom(draft: Option<DraftStrategy>, width: nat, budget: nat, prompt: seq<Token>, plain: seq<Token>, n: nat, recovering: bool)
    : Effort
    requires n <= |plain|
    decreases |plain| - n
  {
    if n >= budget then Effort(0, 0, 0, 0)
    else
      var proposal := DraftAt(draft, width, budget, prompt, plain[..n], recovering);
      var accepted := Agreeing(proposal, plain[n..]);
      var rejected := accepted < |proposal|;
      var rest := if n + accepted >= |plain| then Effort(0, 0, 0, 0)
                  else EffortFrom(draft, width, budget, prompt, plain, n + accepted + 1, rejected);
      Effort(rest.rounds + 1, rest.drafted + |proposal|, rest.accepted + accepted, rest.rejections + if rejected then 1 else 0)
  }

  /** Effort of a whole run: the first token comes from the prefill. */
  ghost function EffortOf(draft: Option<DraftStrategy>, width: nat, budget: nat, prompt: seq<Token>, plain: seq<Token>): Effort {
    if plain == [] then Effort(0, 0, 0, 0) else EffortFrom(draft, width, budget, prompt, plain, 1, false)
  }

  /** The counters have come this far on the way to the total. */
  ghost predicate Spends(c: Counters, stageCount: nat, left: Effort, total: Effort) {
    && c.targetDecodePasses + left.rounds == total.rounds
    && c.draftTokens + left.drafted == total.drafted
    && c.acceptedTokens + left.accepted == total.accepted
    && c.rollbackStageCalls + left.rejections * stageCount == total.rejections * stageCount
  }

  lemma SpendsRound(c: Counters, d: Counters, stageCount: nat, left: Effort, rest: Effort, total: Effort, drafted: nat, accepted: nat)
    requires Spends(c, stageCount, left, total)
    requires left == Effort(rest.rounds + 1, rest.drafted + drafted, rest.accepted + accepted, rest.rejections + if accepted < drafted then 1 else 0)
    requires d.targetDecodePasses == c.targetDecodePasses + 1 && d.draftTokens == c.draftTokens + drafted
    requires d.acceptedTokens == c.acceptedTokens + accepted
    requires d.rollbackStageCalls == c.rollbackStageCalls + if accepted < drafted then stageCount else 0
    ensures Spends(d, stageCount, rest, total)
  {
    assert (rest.rejections + 1) * stageCount == rest.rejections * stageCount + stageCount;
  }

  /** The counters of a finished run. */
  ghost predicate Costs(c: Counters, stageCount: nat, effort: Effort) {
    && c.targetDecodePasses == effort.rounds && c.draftTokens == effort.drafted && c.acceptedTokens == effort.accepted
    && c.rollbackStageCalls == effort.rejections * stageCount
  }

  lemma SpentAll(c: Counters, stageCount: nat, left: Effort, total: Effort)
    requires Spends(c, stageCount, left, total) && left == Effort(0, 0, 0, 0)
    ensures Costs(c, stageCount, total)
  {
  }

  lemma NothingLeft(draft: Option<DraftStrategy>, width: nat, budget: nat, prompt: seq<Token>, plain: seq<Token>, recovering: bool)
    ensures |plain| == budget ==> EffortFrom(draft, width, budget, prompt, plain, |plain|, recovering) == Effort(0, 0, 0, 0)
  {
  }

  /** One round as the effort sees it: from the tokens before and after it. */
  lemma EffortRound(draft: Option<DraftStrategy>, width: nat, budget: nat, prompt: seq<Token>, plain: seq<Token>, tokens: seq<Token>,
                    recovering: bool, outputs: seq<SampledItem>, ended: bool)
    requires tokens <= plain && |tokens| < budget && outputs != []
    requires var proposal := DraftAt(draft, width, budget, prompt, tokens, recovering);
             var last := |outputs| - 1;
             && last <= |proposal|
             && (forall k :: 0 <= k < last ==> outputs[k].token == proposal[k])
             && (!ended && last < |proposal| ==> outputs[last].token != proposal[last])
    requires if ended then tokens + ItemTokens(outputs)[..|outputs| - 1] == plain else tokens + ItemTokens(outputs) <= plain
    ensures var proposal := DraftAt(draft, width, budget, prompt, tokens, recovering);
            var n, accepted := |tokens|, |outputs| - 1;
            var rest := if ended then Effort(0, 0, 0, 0)
                        else EffortFrom(draft, width, budget, prompt, plain, n + accepted + 1, accepted < |proposal|);
            EffortFrom(draft, width, budget, prompt, plain, n, recovering) ==
            Effort(rest.rounds + 1, rest.drafted + |proposal|, rest.accepted + accepted, rest.rejections + if accepted < |proposal| then 1 else 0)
  {
    hide DraftAt, Agreeing;
    var proposal := DraftAt(draft, width, budget, prompt, tokens, recovering);
    assert plain[..|tokens|] == tokens;
    RoundAgrees(proposal, plain, tokens, ItemTokens(outputs), ended);
  }

  /** What a round accepts is as far as its draft agrees with the outcome. */
  lemma RoundAgrees(proposal: seq<Token>, plain: seq<Token>, tokens: seq<Token>, now: seq<Token>, ended: bool)
    requires tokens <= plain && 0 < |now| <= |proposal| + 1
    requires forall k :: 0 <= k < |now| - 1 ==> now[k] == proposal[k]
    requires !ended && |now| <= |proposal| ==> now[|now| - 1] != proposal[|now| - 1]
    requires if ended then tokens + now[..|now| - 1] == plain else tokens + now <= plain
    ensures Agreeing(proposal, plain[|tokens|..]) == |now| - 1
    ensures ended <==> |tokens| + |now| - 1 >= |plain|
  {
    hide Agreeing;
    var n, accepted, coming := |tokens|, |now| - 1, plain[|tokens|..];
    forall k | 0 <= k < accepted ensures proposal[k] == coming[k] {
      assert plain[n + k] == (tokens + now[..accepted])[n + k] == now[k];
    }
    if !ended { assert plain[n + accepted] == (tokens + now)[n + accepted]; }
    AgreeingIs(proposal, coming, accepted);
  }

  /** Items carry the text of their tokens. */
  ghost predicate CarryText(model: Model, items: seq<SampledItem>) {
    forall k :: 0 <= k < |items| && !items[k].endOfGeneration ==> items[k].text == model.piece(items[k].token)
  }

  ghost predicate WideEnough(configs: seq<StageConfig>, speculativeMax: int) {
    forall i :: 0 < i < |configs| ==> speculativeMax <= configs[i].speculativeMax
  }

  ghost predicate Disturbance(faults: nat -> Fault, session: SessionId, from: nat, to: nat) {
    exists k :: from <= k < to && Disturbs(faults(k), session)
  }

  /** Everything a run starts from. */
  datatype Setting = Setting(
    model: Model,
    configs: seq<StageConfig>,
    stages: seq<Sessions>,
    session: SessionId,
    prompt: ByteString,
    maxTokens: int,
    drafting: bool,
    speculativeMax: int,
    sinkAccepts: nat -> bool
  )

  function PromptOf(s: Setting): seq<Token> {
    s.model.tokenize(s.prompt)
  }

  /** Greedy decoding of the request; one token is sampled even when none was asked for. */
  ghost function PlainOf(s: Setting): Outcome {
    Greedy(s.model, PromptOf(s), if s.maxTokens < 1 then 1 else s.maxTokens)
  }

  /** Why a run may fail: a stage call was disturbed, a stage refused the prefill for a reason that its
      table and its size give, a stage is narrower than the drafts, the sink cancelled, or the text is
      malformed. Nothing else, in particular no refusal for lack of room after the prefill. */
  ghost predicate Explains(s: Setting, failure: Failure, events: seq<TokenEvent>, disturbed: bool) {
    match failure
    case PrefillFailed(stage, error) =>
      && events == []
      && (disturbed || PrefillRefused(s, stage, error))
    case Canceled => events != [] && !s.sinkAccepts(|events| - 1)
    case InvalidTokenText => exists k :: 0 <= k <= |PlainOf(s).tokens| && MalformedText(s.model, PlainOf(s).tokens[..k])
    case PassFailedAt(stage, error) => disturbed || TooNarrow(s, stage, error)
    case RollbackFailed(_) => disturbed
    case CleanupFailed(_) => disturbed
  }

  ghost predicate PrefillRefused(s: Setting, stage: nat, error: StageError) {
    && stage < |s.configs| && stage < |s.stages|
    && Refuses(s.configs[stage], s.session in s.stages[stage], Prefill, 0, |PromptOf(s)|, s.maxTokens, error)
  }

  ghost predicate TooNarrow(s: Setting, stage: nat, error: StageError) {
    error.InvalidDecodeActivation? && s.drafting && 0 < stage < |s.configs| && s.configs[stage].speculativeMax < s.speculativeMax
  }

  /** Nothing in the request, the stages or the sink is in the way. */
  ghost predicate Favourable(s: Setting) {
    && PromptOf(s) != [] && |s.configs| == |s.stages|
    && (forall i :: 0 <= i < |s.configs| ==>
          s.session !in s.stages[i] && |PromptOf(s)| + Max(0, s.maxTokens - 1) <= s.configs[i].contextSize)
    && (s.drafting ==> WideEnough(s.configs, s.speculativeMax))
    && (forall n :: s.sinkAccepts(n))
    && (forall k :: 0 <= k <= |PlainOf(s).tokens| ==> !MalformedText(s.model, PlainOf(s).tokens[..k]))
  }

  /** In favourable circumstances only a disturbance explains a failure. */
  lemma OnlyDisturbanceFails(s: Setting, failure: Failure, events: seq<TokenEvent>)
    requires Favourable(s)
    ensures !Explains(s, failure, events, false)
  {
    hide Greedy, MalformedText;
    match failure
    case PrefillFailed(stage, error) => assert stage < |s.configs| ==> s.session !in s.stages[stage];
    case _ =>
  }

  // --- State of one run ---------------------------------------------------------------------------

  /** Locals of GenerationRunner::run that its emit and fail closures capture. */
  class GenerationRun {
    const pipeline: StagePipeline
    const session: SessionId
    const prompt: ByteString
    const maxTokens: int
    const draft: Option<DraftStrategy>
    const speculativeMax: int
    const sinkAccepts: nat -> bool
    ghost const initial: seq<Sessions>
    ghost const base: Tally
    ghost const first: nat

    var endOfGeneration: bool
    var previousToken: Token
    var decodeStep: int
    var recoverAfterRejection: bool
    var pendingText: ByteString
    var history: seq<Token>
    var sampledTokens: seq<Token>
    var events: seq<TokenEvent>
    var counters: Counters
    ghost var promptIds: seq<Token>

    constructor (pipeline: StagePipeline, session: SessionId, prompt: ByteString, maxTokens: int,
                 draft: Option<DraftStrategy>, speculativeMax: int, sinkAccepts: nat -> bool)
      ensures this.pipeline == pipeline && this.session == session && this.prompt == prompt && this.maxTokens == maxTokens
      ensures this.draft == draft && this.speculativeMax == speculativeMax && this.sinkAccepts == sinkAccepts
      ensures initial == pipeline.stages && base == TallyOf(pipeline.calls) && first == |pipeline.calls|
      ensures !endOfGeneration && decodeStep == 1 && !recoverAfterRejection && Streaming() && sampledTokens == []
      ensures counters == Counters(0, 0, 0, 0, 0, 0, 0, 0, 0)
    {
      this.pipeline, this.session, this.prompt, this.maxTokens := pipeline, session, prompt, maxTokens;
      this.draft, this.speculativeMax, this.sinkAccepts := draft, speculativeMax, sinkAccepts;
      endOfGeneration, previousToken, decodeStep, recoverAfterRejection := false, 0, 1, false;
      pendingText, history, sampledTokens, events := [], [], [], [];
      counters := Counters(0, 0, 0, 0, 0, 0, 0, 0, 0);
      promptIds := [];
      initial, base, first := pipeline.stages, TallyOf(pipeline.calls), |pipeline.calls|;
      new;
      assert TextOf(pipeline.model, []) == [];
    }

    ghost function PromptTokens(): seq<Token> {
      pipeline.model.tokenize(prompt)
    }

    /** The runner samples once even when no token was asked for. */
    ghost function Budget(): nat {
      if maxTokens < 1 then 1 else maxTokens
    }

    ghost function Plain(): Outcome {
      PlainOf(Start())
    }

    ghost predicate Streaming()
      reads this
    {
      && Mirrors(pipeline.model, sampledTokens, events, pendingText) && EventTokens(events) == sampledTokens
      && history == promptIds + sampledTokens
      && counters.completionTokens == |sampledTokens|
      && (sampledTokens != [] ==> previousToken == sampledTokens[|sampledTokens| - 1])
    }

    /** Pass one token to the sink with the text that is complete so far. */
    method Emit(item: SampledItem) returns (failure: Option<Failure>)
      requires Streaming() && item.text == pipeline.model.piece(item.token)
      modifies this
      ensures endOfGeneration == old(endOfGeneration) && decodeStep == old(decodeStep)
      ensures recoverAfterRejection == old(recoverAfterRejection) && promptIds == old(promptIds)
      ensures counters == old(counters).(completionTokens := counters.completionTokens)
      ensures failure.None? || failure.value.Canceled? || failure.value.InvalidTokenText?
      ensures Streaming()
      ensures if failure.Some? && failure.value.InvalidTokenText? then
                && sampledTokens == old(sampledTokens)
                && MalformedText(pipeline.model, old(sampledTokens) + [item.token])
              else
                && sampledTokens == old(sampledTokens) + [item.token]
                && (failure.Some? <==> !sinkAccepts(|old(events)|))
    {
      hide Mirrors, TextOf, Utf8.ScanAll;
      var token, text := item.token, pendingText + item.text;
      MirrorStep(pipeline.model, sampledTokens, events, pendingText, token);
      var scan := Utf8.CompleteUtf8Prefix(text);
      if scan.Malformed? {
        return Some(InvalidTokenText);
      }
      var event := TokenEvent(token, text[..scan.offset], |sampledTokens|);
      pendingText := text[scan.offset..];
      sampledTokens := sampledTokens + [token];
      history := history + [token];
      counters := counters.(completionTokens := counters.completionTokens + 1);
      previousToken := token;
      events := events + [event];
      failure := if sinkAccepts(event.index) then None else Some(Canceled);
    }

    /** Emit the outputs of one verification until an end token. */
    method EmitOutputs(items: seq<SampledItem>) returns (failure: Option<Failure>, ghost emitted: nat)
      requires Streaming()
      requires items != [] && |sampledTokens| + |items| <= maxTokens && CarryText(pipeline.model, items)
      requires forall k :: 0 <= k < |items| - 1 ==> !items[k].endOfGeneration
      modifies this
      ensures decodeStep == old(decodeStep) && recoverAfterRejection == old(recoverAfterRejection) && promptIds == old(promptIds)
      ensures counters == old(counters).(completionTokens := counters.completionTokens)
      ensures Streaming() && emitted <= |items|
      ensures emitted == |items| ==> !items[|items| - 1].endOfGeneration
      ensures sampledTokens == old(sampledTokens) + ItemTokens(items)[..emitted]
      ensures endOfGeneration == (old(endOfGeneration) || (failure.None? && items[|items| - 1].endOfGeneration))
      ensures failure.None? ==> emitted == if items[|items| - 1].endOfGeneration then |items| - 1 else |items|
      ensures failure.Some? ==>
                || (failure.value.Canceled? && emitted > 0 && !sinkAccepts(|events| - 1))
                || (failure.value.InvalidTokenText? && emitted < |items| && !items[emitted].endOfGeneration
                    && MalformedText(pipeline.model, sampledTokens + [items[emitted].token]))
    {
      hide Mirrors, TextOf, Utf8.ScanAll;
      ghost var tokens := ItemTokens(items);
      failure, emitted := None, 0;
      var index := 0;
      while index < |items| && counters.completionTokens < maxTokens
        invariant 0 <= index == emitted <= |items|
        invariant index == |items| ==> !items[|items| - 1].endOfGeneration
        invariant endOfGeneration == old(endOfGeneration) && failure.None?
        invariant decodeStep == old(decodeStep) && recoverAfterRejection == old(recoverAfterRejection) && promptIds == old(promptIds)
        invariant counters == old(counters).(completionTokens := counters.completionTokens)
        invariant Streaming()
        invariant sampledTokens == old(sampledTokens) + tokens[..index]
      {
        if items[index].endOfGeneration {
          endOfGeneration := true;
          break;
        }
        failure := Emit(items[index]);
        TakeOneMore(old(sampledTokens), tokens, index);
        if failure.Some? {
          emitted := if failure.value.Canceled? then emitted + 1 else emitted;
          break;
        }
        index := index + 1;
        emitted := index;
      }
    }

    // --- One verification round -----------------------------------------------------------------

    /** What the run has done to other sessions so far. */
    ghost predicate Apart()
      reads this, pipeline
    {
      first <= |pipeline.calls| && Spared(initial, pipeline.stages, session, pipeline.calls, first, pipeline.faults)
    }

    /** What the run will have cost, and what of it is still to come. */
    ghost function Total(): Effort
      requires speculativeMax >= 0
    {
      EffortOf(draft, speculativeMax, Budget(), PromptTokens(), Plain().tokens)
    }

    ghost function Left(): Effort
      requires speculativeMax >= 0 && |sampledTokens| <= |Plain().tokens|
      reads this
    {
      if endOfGeneration then Effort(0, 0, 0, 0)
      else EffortFrom(draft, speculativeMax, Budget(), PromptTokens(), Plain().tokens, |sampledTokens|, recoverAfterRejection)
    }

    ghost predicate Spending()
      reads this, pipeline
    {
      speculativeMax >= 0 && sampledTokens <= Plain().tokens && Spends(counters, |pipeline.configs|, Left(), Total())
    }

    /** Every stage is in step with the emitted tokens, and the tokens are the start of the plain outcome. */
    ghost predicate Progress()
      reads this, pipeline
    {
      && promptIds == PromptTokens()
      && PassesAccounted(0) && CompletionAccounted(counters, sampledTokens, endOfGeneration)
      && if endOfGeneration then Plain() == Outcome(sampledTokens, true)
         else
           && 0 < |sampledTokens| <= Budget()
           && OnTrack(pipeline.model, PromptTokens(), sampledTokens, Budget())
           && decodeStep == |sampledTokens|
           && pipeline.Lockstep(session, PromptTokens() + sampledTokens[..|sampledTokens| - 1], |sampledTokens|)
           && pipeline.Room(|PromptTokens()| + Budget() - 1)
    }

    ghost predicate PassesAccounted(open: nat)
      reads this`counters, pipeline`calls
    {
      Accounted(counters, |pipeline.configs|, |PromptTokens()|, Since(base, TallyOf(pipeline.calls)), open)
    }

    ghost function Start(): Setting {
      Setting(pipeline.model, pipeline.configs, initial, session, prompt, maxTokens, draft.Some?, speculativeMax, sinkAccepts)
    }

    ghost predicate DraftBounded() {
      draft.Some? ==> forall h: seq<Token>, m: nat :: |draft.value(h, m)| <= m
    }

    ghost predicate Disturbed(from: nat, to: nat) {
      Disturbance(pipeline.faults, session, from, to)
    }

    /** Add one pass to the counters; the rejected tokens are open until they are undone. */
    method CountPass(stageCalls: nat, remoteCalls: nat, drafted: nat, accepted: nat, ghost before: seq<Call>)
      requires Accounted(counters, |pipeline.configs|, |PromptTokens()|, Since(base, TallyOf(before)), 0)
      requires pipeline.calls == before + ExecuteCalls(stageCalls)
      requires accepted <= drafted && stageCalls == |pipeline.configs| && remoteCalls == |pipeline.configs| - 1
      modifies this`counters
      ensures PassesAccounted(drafted - accepted) && counters.completionTokens == old(counters.completionTokens)
      ensures counters.targetDecodePasses == old(counters.targetDecodePasses) + 1
      ensures counters.acceptedTokens == old(counters.acceptedTokens) + accepted
      ensures counters.draftTokens == old(counters.draftTokens) + drafted && counters.rollbackStageCalls == old(counters.rollbackStageCalls)
    {
      hide TallyOf;
      TallyExecutes(before, stageCalls);
      counters := counters.(stageCalls := counters.stageCalls + stageCalls,
                            remoteStageCalls := counters.remoteStageCalls + remoteCalls,
                            targetDecodePasses := counters.targetDecodePasses + 1,
                            draftTokens := counters.draftTokens + drafted,
                            acceptedTokens := counters.acceptedTokens + accepted);
    }

    method CountRollback(stageCalls: nat, remoteCalls: nat, ghost rejected: nat, ghost before: seq<Call>)
      requires Accounted(counters, |pipeline.configs|, |PromptTokens()|, Since(base, TallyOf(before)), rejected)
      requires pipeline.calls == before + RollbackCalls(stageCalls, rejected)
      requires stageCalls == |pipeline.configs| && remoteCalls == |pipeline.configs| - 1
      modifies this`counters
      ensures PassesAccounted(0) && counters.completionTokens == old(counters.completionTokens)
      ensures counters.targetDecodePasses == old(counters.targetDecodePasses)
      ensures counters.acceptedTokens == old(counters.acceptedTokens) && counters.draftTokens == old(counters.draftTokens)
      ensures counters.rollbackStageCalls == old(counters.rollbackStageCalls) + stageCalls
    {
      hide TallyOf;
      TallyRollbacks(before, stageCalls, rejected);
      ghost var r: nat :| counters.rollbackStageCalls == r * stageCalls && counters.remoteRollbackStageCalls == r * remoteCalls;
      counters := counters.(rollbackStageCalls := counters.rollbackStageCalls + stageCalls,
                            remoteRollbackStageCalls := counters.remoteRollbackStageCalls + remoteCalls);
      assert counters.rollbackStageCalls == (r + 1) * stageCalls && counters.remoteRollbackStageCalls == (r + 1) * remoteCalls;
    }

    method CountAccepted(proposal: seq<Token>, target: seq<SampledItem>) returns (accepted: nat)
      requires |target| == |proposal| + 1
      ensures accepted <= |proposal|
      ensures forall k :: 0 <= k < accepted ==> !target[k].endOfGeneration && target[k].token == proposal[k]
      ensures accepted < |proposal| ==> target[accepted].endOfGeneration || target[accepted].token != proposal[accepted]
    {
      accepted := 0;
      while accepted < |proposal| && !target[accepted].endOfGeneration && target[accepted].token == proposal[accepted]
        invariant accepted <= |proposal|
        invariant forall k :: 0 <= k < accepted ==> !target[k].endOfGeneration && target[k].token == proposal[k]
      {
        accepted := accepted + 1;
      }
    }

    /** Verify a proposal in one pass, undo what was rejected, and return what may be emitted. */
    method Verify(proposal: seq<Token>) returns (failure: Option<Failure>, outputs: seq<SampledItem>)
      requires pipeline.Valid() && Streaming() && Progress() && Apart() && !endOfGeneration
      requires |sampledTokens| + |proposal| < maxTokens
      requires proposal != [] ==> draft.Some? && |proposal| <= speculativeMax
      modifies this`counters, this`decodeStep, this`recoverAfterRejection, pipeline
      ensures pipeline.Valid() && Streaming() && Apart() && Quiet(old(pipeline.calls), pipeline.calls)
      ensures failure.None? ==>
                && 0 < |outputs| <= |proposal| + 1
                && Follows(pipeline.model, PromptTokens() + sampledTokens, outputs)
                && (forall k :: 0 <= k < |outputs| - 1 ==> !outputs[k].endOfGeneration && outputs[k].token == proposal[k])
                && (|outputs| <= |proposal| ==>
                      outputs[|outputs| - 1].endOfGeneration || outputs[|outputs| - 1].token != proposal[|outputs| - 1])
                && recoverAfterRejection == (old(recoverAfterRejection) || |outputs| <= |proposal|)
                && decodeStep == |sampledTokens| + |outputs|
                && pipeline.Lockstep(session, PromptTokens() + sampledTokens + ItemTokens(outputs)[..|outputs| - 1], decodeStep)
                && CarryText(pipeline.model, outputs)
                && PassesAccounted(0) && counters.completionTokens == old(counters.completionTokens)
                && counters.targetDecodePasses == old(counters.targetDecodePasses) + 1
                && counters.acceptedTokens == old(counters.acceptedTokens) + |outputs| - 1
                && counters.draftTokens == old(counters.draftTokens) + |proposal|
                && counters.rollbackStageCalls == old(counters.rollbackStageCalls) + (if |outputs| <= |proposal| then |pipeline.configs| else 0)
      ensures failure.Some? ==>
                && (failure.value.PassFailedAt? || failure.value.RollbackFailed?)
                && (|| Disturbed(|old(pipeline.calls)|, |pipeline.calls|)
                    || (failure.value.PassFailedAt? && TooNarrow(Start(), failure.value.stage, failure.value.error)))
    {
      hide Mirrors, OnTrack, Image, Targets, Follows, ItemTokens, StagePipeline.Lockstep, StagePipeline.Room, Accounted, TallyOf, CarryText, Spared;
      ghost var ids, tokens := PromptTokens(), sampledTokens;
      ghost var context, before, table := ids + tokens[..|tokens| - 1], pipeline.calls, pipeline.stages;
      var verification := [previousToken] + proposal;
      outputs := [];
      DecodePayloadRows(pipeline.model, pipeline.configs[0], verification);
      RoomForDecode(|proposal|);
      var pass, stageCalls, remoteCalls :=
        pipeline.RunPass(session, Decode, decodeStep, maxTokens, DecodePayload(verification), context, verification);
      SparedThen(initial, table, pipeline.stages, session, before, pipeline.calls, first, pipeline.faults);
      if pass.PassFailed? {
        return Some(PassFailedAt(pass.stage, pass.error)), outputs;
      }
      var accepted := CountAccepted(proposal, pass.items);
      CountPass(stageCalls, remoteCalls, |proposal|, accepted, before);
      OutputsFollow(pipeline.model, ids, tokens, proposal, accepted);
      outputs := pass.items[..accepted + 1];
      FollowersCarryText(pipeline.model, ids + tokens, outputs);
      failure := Settle(proposal, accepted);
    }

    /** Roll every stage back to the accepted part of the proposal. */
    method Settle(proposal: seq<Token>, accepted: nat) returns (failure: Option<Failure>)
      requires pipeline.Valid() && Apart() && sampledTokens != [] && accepted <= |proposal| && PassesAccounted(|proposal| - accepted)
      requires decodeStep == |sampledTokens|
      requires pipeline.Lockstep(session, Fed(sampledTokens, proposal), decodeStep + 1 + |proposal|)
      modifies this`counters, this`decodeStep, this`recoverAfterRejection, pipeline
      ensures pipeline.Valid() && Apart() && PassesAccounted(0) && counters.completionTokens == old(counters.completionTokens)
      ensures counters.targetDecodePasses == old(counters.targetDecodePasses)
      ensures counters.acceptedTokens == old(counters.acceptedTokens) && counters.draftTokens == old(counters.draftTokens)
      ensures counters.rollbackStageCalls == old(counters.rollbackStageCalls) + if accepted < |proposal| then |pipeline.configs| else 0
      ensures Quiet(old(pipeline.calls), pipeline.calls)
      ensures failure.None? ==>
                && decodeStep == |sampledTokens| + 1 + accepted
                && pipeline.Lockstep(session, PromptTokens() + sampledTokens + proposal[..accepted], decodeStep)
                && recoverAfterRejection == (old(recoverAfterRejection) || accepted < |proposal|)
      ensures failure.Some? ==> failure.value.RollbackFailed? && Disturbed(|old(pipeline.calls)|, |pipeline.calls|)
    {
      hide Image, StagePipeline.Lockstep, Accounted, TallyOf, Spared, RollbackReply, FirstRefusal, StagePipeline.Valid;
      KeptTokens(PromptTokens(), sampledTokens, proposal, accepted);
      var rejected := |proposal| - accepted;
      ghost var before, table := pipeline.calls, pipeline.stages;
      if rejected > 0 {
        var error, stageCalls, remoteCalls :=
          pipeline.RollbackSessions(session, rejected, Fed(sampledTokens, proposal), decodeStep + 1 + |proposal|);
        SparedThen(initial, table, pipeline.stages, session, before, pipeline.calls, first, pipeline.faults);
        CountRollback(stageCalls, remoteCalls, rejected, before);
        if error.Some? {
          return Some(RollbackFailed(error.value));
        }
        recoverAfterRejection := true;
      }
      decodeStep := decodeStep + 1 + |proposal| - rejected;
      failure := None;
    }

    /** Tokens every stage has seen after verifying a proposal. */
    ghost function Fed(tokens: seq<Token>, proposal: seq<Token>): seq<Token>
      requires tokens != []
    {
      PromptTokens() + tokens[..|tokens| - 1] + ([tokens[|tokens| - 1]] + proposal)
    }

    ghost predicate Explained(failure: Failure, from: nat)
      reads this, pipeline
    {
      Explains(Start(), failure, events, Disturbed(from, |pipeline.calls|))
    }

    method Propose() returns (proposal: seq<Token>)
      requires DraftBounded() && speculativeMax > 0 && Streaming() && |sampledTokens| < maxTokens
      modifies this`recoverAfterRejection
      ensures |sampledTokens| + |proposal| < maxTokens
      ensures proposal != [] ==> draft.Some? && |proposal| <= speculativeMax
      ensures !recoverAfterRejection
      ensures draft.Some? && !old(recoverAfterRejection) && |sampledTokens| + 1 < maxTokens ==>
                proposal == draft.value(promptIds + sampledTokens, Min(speculativeMax, maxTokens - |sampledTokens| - 1))
      ensures draft.None? || old(recoverAfterRejection) ==> proposal == []
      ensures proposal == DraftAt(draft, speculativeMax, maxTokens, promptIds, sampledTokens, old(recoverAfterRejection))
    {
      var remaining := maxTokens - counters.completionTokens;
      proposal := [];
      if draft.Some? && remaining > 1 && !recoverAfterRejection {
        proposal := draft.value(history, if speculativeMax < remaining - 1 then speculativeMax else remaining - 1);
      }
      recoverAfterRejection := false;
    }

    /** One turn of the decode loop. */
    method Round() returns (failure: Option<Failure>)
      requires pipeline.Valid() && Streaming() && Progress() && Apart() && Spending() && !endOfGeneration
      requires DraftBounded() && speculativeMax > 0 && |sampledTokens| < maxTokens
      modifies this, pipeline
      ensures pipeline.Valid() && Streaming() && Apart() && Quiet(old(pipeline.calls), pipeline.calls)
      ensures OnTrack(pipeline.model, PromptTokens(), sampledTokens, Budget())
      ensures failure.None? ==> Progress() && Spending() && (endOfGeneration || |sampledTokens| > |old(sampledTokens)|)
      ensures failure.Some? ==> Explained(failure.value, |old(pipeline.calls)|)
    {
      hide Mirrors, Greedy, Image, Follows, ItemTokens, StagePipeline.Lockstep, StagePipeline.Room, MalformedText, OnTrack, EventTokens,
           PrefillRefused, TooNarrow, Accounted, TallyOf, CarryText, StagePipeline.Valid, Spared, Spends, EffortFrom, EffortOf, DraftAt;
      ghost var spent, recovering, tokens := counters, recoverAfterRejection, sampledTokens;
      PassesMade(counters, |pipeline.configs|, |PromptTokens()|, Since(base, TallyOf(pipeline.calls)), 0);
      var proposal := Propose();
      var outputs;
      failure, outputs := Verify(proposal);
      if failure.None? {
        failure := Deliver(outputs, |old(pipeline.calls)|);
      }
      if failure.None? {
        TrackEnd(pipeline.model, PromptTokens(), sampledTokens, Budget());
        RoundSpent(spent, tokens, recovering, proposal, outputs);
      }
    }

    /** Emit what a verification has confirmed. */
    method Deliver(outputs: seq<SampledItem>, ghost from: nat) returns (failure: Option<Failure>)
      requires pipeline.Valid() && Streaming() && Apart() && !endOfGeneration && promptIds == PromptTokens() && from <= |pipeline.calls|
      requires OnTrack(pipeline.model, PromptTokens(), sampledTokens, Budget()) && pipeline.Room(|PromptTokens()| + Budget() - 1)
      requires outputs != [] && |sampledTokens| + |outputs| <= maxTokens
      requires Follows(pipeline.model, PromptTokens() + sampledTokens, outputs) && CarryText(pipeline.model, outputs)
      requires forall k :: 0 <= k < |outputs| - 1 ==> !outputs[k].endOfGeneration
      requires decodeStep == |sampledTokens| + |outputs|
      requires pipeline.Lockstep(session, PromptTokens() + sampledTokens + ItemTokens(outputs)[..|outputs| - 1], decodeStep)
      requires PassesAccounted(0) && counters.targetDecodePasses > 0
      requires |sampledTokens| + |outputs| == 1 + counters.targetDecodePasses + counters.acceptedTokens
      modifies this
      ensures Streaming() && Apart() && OnTrack(pipeline.model, PromptTokens(), sampledTokens, Budget())
      ensures recoverAfterRejection == old(recoverAfterRejection) && counters == old(counters).(completionTokens := counters.completionTokens)
      ensures failure.None? ==>
                && Progress() && (endOfGeneration <==> outputs[|outputs| - 1].endOfGeneration)
                && sampledTokens == old(sampledTokens) + ItemTokens(outputs)[..if endOfGeneration then |outputs| - 1 else |outputs|]
      ensures failure.Some? ==> Explained(failure.value, from)
    {
      hide Mirrors, Greedy, Image, Follows, ItemTokens, StagePipeline.Lockstep, StagePipeline.Room, MalformedText, OnTrack, EventTokens,
           PrefillRefused, TooNarrow, Accounted, TallyOf, CarryText, StagePipeline.Valid, Spared, Explains;
      ghost var tokens, before := sampledTokens, counters;
      ghost var emitted;
      failure, emitted := EmitOutputs(outputs);
      EmittingKeepsAccount(before, counters.completionTokens, |pipeline.configs|, |PromptTokens()|, Since(base, TallyOf(pipeline.calls)), 0);
      AllButLast(PromptTokens(), tokens, ItemTokens(outputs));
      OutputsTrack(pipeline.model, PromptTokens(), tokens, outputs, emitted, Budget());
      if failure.Some? {
        EmitExplained(failure.value, from, sampledTokens + if emitted < |outputs| then [outputs[emitted].token] else []);
      }
    }

    /** The round has cost what the effort says. */
    lemma RoundSpent(before: Counters, tokens: seq<Token>, recovering: bool, proposal: seq<Token>, outputs: seq<SampledItem>)
      requires speculativeMax >= 0 && tokens <= Plain().tokens && |tokens| < Budget()
      requires proposal == DraftAt(draft, speculativeMax, Budget(), PromptTokens(), tokens, recovering)
      requires Spends(before, |pipeline.configs|,
                      EffortFrom(draft, speculativeMax, Budget(), PromptTokens(), Plain().tokens, |tokens|, recovering), Total())
      requires 0 < |outputs| <= |proposal| + 1 && forall k :: 0 <= k < |outputs| - 1 ==> outputs[k].token == proposal[k]
      requires !endOfGeneration && |outputs| <= |proposal| ==> outputs[|outputs| - 1].token != proposal[|outputs| - 1]
      requires sampledTokens == tokens + ItemTokens(outputs)[..if endOfGeneration then |outputs| - 1 else |outputs|]
      requires if endOfGeneration then Plain().tokens == sampledTokens else sampledTokens <= Plain().tokens
      requires recoverAfterRejection == (|outputs| <= |proposal|)
      requires counters.targetDecodePasses == before.targetDecodePasses + 1
      requires counters.acceptedTokens == before.acceptedTokens + |outputs| - 1 && counters.draftTokens == before.draftTokens + |proposal|
      requires counters.rollbackStageCalls == before.rollbackStageCalls + if |outputs| <= |proposal| then |pipeline.configs| else 0
      ensures Spending()
    {
      hide Greedy, DraftAt, Spends, EffortFrom, EffortOf, ItemTokens;
      var left := EffortFrom(draft, speculativeMax, Budget(), PromptTokens(), Plain().tokens, |tokens|, recovering);
      assert ItemTokens(outputs)[..|outputs|] == ItemTokens(outputs);
      EffortRound(draft, speculativeMax, Budget(), PromptTokens(), Plain().tokens, tokens, recovering, outputs, endOfGeneration);
      SpendsRound(before, counters, |pipeline.configs|, left, Left(), Total(), |proposal|, |outputs| - 1);
    }

    /** The prefill pass and its one sampled token. */
    method Begin() returns (failure: Option<Failure>)
      requires pipeline.Valid() && Streaming() && sampledTokens == [] && !endOfGeneration && decodeStep == 1
      requires counters == Counters(0, 0, 0, 0, 0, 0, 0, 0, 0) && initial == pipeline.stages && events == []
      requires base == TallyOf(pipeline.calls) && first == |pipeline.calls| && speculativeMax > 0 && !recoverAfterRejection
      modifies this, pipeline
      ensures pipeline.Valid() && Streaming() && Apart() && Quiet(old(pipeline.calls), pipeline.calls)
      ensures OnTrack(pipeline.model, PromptTokens(), sampledTokens, Budget())
      ensures failure.None? ==> Progress() && Spending()
      ensures failure.Some? ==> Explained(failure.value, |old(pipeline.calls)|)
    {
      hide Mirrors, Greedy, Image, StagePipeline.Lockstep, StagePipeline.Room, MalformedText, OnTrack, Spared, Spends, EffortFrom, EffortOf,
           Accounted, TallyOf, Target, TooNarrow;
      ghost var ids := PromptTokens();
      TrackStart(pipeline.model, ids, Budget());
      var pass, stageCalls, remoteCalls := pipeline.RunPass(session, Prefill, 0, maxTokens, Text(prompt), [], ids);
      if pass.PassFailed? {
        return Some(PrefillFailed(pass.stage, pass.error));
      }
      assert [] + ids == ids;
      counters := counters.(stageCalls := stageCalls, remoteStageCalls := remoteCalls, promptTokens := |pass.promptIds|);
      PrefillAccounted(counters, |pipeline.configs|, |ids|, old(pipeline.calls));
      history := pass.promptIds;
      promptIds := pass.promptIds;
      failure := FirstToken(pass.items[0], |old(pipeline.calls)|);
      if failure.None? {
        TrackEnd(pipeline.model, ids, sampledTokens, Budget());
        FirstSpent();
      }
    }

    /** What happens with the token sampled by the prefill pass. */
    method FirstToken(item: SampledItem, ghost from: nat) returns (failure: Option<Failure>)
      requires Streaming() && sampledTokens == [] && !endOfGeneration && decodeStep == 1
      requires promptIds == PromptTokens() && PassesAccounted(0)
      requires counters.targetDecodePasses == counters.acceptedTokens == 0
      requires item == Item(pipeline.model, Target(pipeline.model, PromptTokens())) && Budget() > 0
      requires pipeline.Lockstep(session, PromptTokens(), 1) && pipeline.Room(|PromptTokens()| + Budget() - 1)
      requires from <= |pipeline.calls|
      modifies this
      ensures Streaming() && OnTrack(pipeline.model, PromptTokens(), sampledTokens, Budget())
      ensures failure.None? ==> Progress() && |sampledTokens| == (if endOfGeneration then 0 else 1)
      ensures failure.Some? ==> Explained(failure.value, from)
      ensures recoverAfterRejection == old(recoverAfterRejection) && counters == old(counters).(completionTokens := counters.completionTokens)
    {
      hide Mirrors, Greedy, Image, Target, StagePipeline.Lockstep, StagePipeline.Room, MalformedText, OnTrack, EventTokens, Disturbance, PrefillRefused, TooNarrow,
           Accounted, TallyOf, Explains;
      ghost var ids, before := PromptTokens(), counters;
      TrackStart(pipeline.model, ids, Budget());
      endOfGeneration := item.endOfGeneration;
      failure := None;
      if !endOfGeneration {
        failure := Emit(item);
        EmittingKeepsAccount(before, counters.completionTokens, |pipeline.configs|, |PromptTokens()|, Since(base, TallyOf(pipeline.calls)), 0);
        assert [] + [item.token] == [item.token];
        assert sampledTokens != [] ==> ids + sampledTokens[..|sampledTokens| - 1] == ids;
        if failure.Some? {
          EmitExplained(failure.value, from, [item.token]);
        }
      }
    }

    /** Why emitting a token may fail. */
    lemma EmitExplained(failure: Failure, from: nat, tokens: seq<Token>)
      requires failure.Canceled? || failure.InvalidTokenText?
      requires failure.Canceled? ==> events != [] && !sinkAccepts(|events| - 1)
      requires failure.InvalidTokenText? ==> tokens <= Plain().tokens && MalformedText(pipeline.model, tokens)
      ensures Explained(failure, from)
    {
      hide Greedy, MalformedText;
      assert tokens <= Plain().tokens ==> Plain().tokens[..|tokens|] == tokens;
    }

    lemma FirstSpent()
      requires speculativeMax >= 0 && !recoverAfterRejection
      requires counters.targetDecodePasses == counters.acceptedTokens == counters.draftTokens == counters.rollbackStageCalls == 0
      requires if endOfGeneration then sampledTokens == Plain().tokens == [] else |sampledTokens| == 1 && sampledTokens <= Plain().tokens
      ensures Spending()
    {
      hide Greedy, EffortFrom;
    }

    /** Prefill and decode rounds until the budget is used, an end token comes, or something fails. */
    method Drive() returns (failure: Option<Failure>)
      requires pipeline.Valid() && Streaming() && sampledTokens == [] && !endOfGeneration && decodeStep == 1
      requires counters == Counters(0, 0, 0, 0, 0, 0, 0, 0, 0) && initial == pipeline.stages && events == []
      requires base == TallyOf(pipeline.calls) && first == |pipeline.calls| && !recoverAfterRejection
      requires DraftBounded() && speculativeMax > 0
      modifies this, pipeline
      ensures pipeline.Valid() && Streaming() && Apart() && Quiet(old(pipeline.calls), pipeline.calls)
      ensures OnTrack(pipeline.model, PromptTokens(), sampledTokens, Budget())
      ensures failure.None? ==> Progress() && Spending() && (endOfGeneration || |sampledTokens| == Budget())
      ensures failure.Some? ==> Explained(failure.value, |old(pipeline.calls)|)
    {
      hide Mirrors, Greedy, Image, StagePipeline.Lockstep, StagePipeline.Room, MalformedText, OnTrack, Accounted, Explains, EventTokens, TallyOf,
           Spared, Spends, EffortFrom, EffortOf;
      ghost var from := |pipeline.calls|;
      failure := Begin();
      while failure.None? && counters.completionTokens < maxTokens && !endOfGeneration
        invariant pipeline.Valid() && Streaming() && Apart() && Quiet(old(pipeline.calls), pipeline.calls)
        invariant OnTrack(pipeline.model, PromptTokens(), sampledTokens, Budget())
        invariant failure.None? ==> Progress() && Spending()
        invariant failure.Some? ==> Explained(failure.value, from)
        decreases failure.None?, !endOfGeneration, maxTokens - |sampledTokens|
      {
        ghost var before := |pipeline.calls|;
        failure := Round();
        if failure.Some? {
          ExplainedEarlier(failure.value, from, before);
        }
      }
    }

    lemma ExplainedEarlier(failure: Failure, from: nat, later: nat)
      requires from <= later && Explained(failure, later)
      ensures Explained(failure, from)
    {
      hide Greedy, MalformedText;
      assert Disturbed(later, |pipeline.calls|) ==> Disturbed(from, |pipeline.calls|);
    }

    /** The reservation made at prefill covers every later pass. */
    lemma RoomForDecode(drafted: nat)
      requires Progress() && !endOfGeneration && |sampledTokens| + drafted < maxTokens
      ensures pipeline.Room(|PromptTokens()| + |sampledTokens| + drafted)
    {
    }
  }

  /** The emitted tokens are the start of the greedy outcome. */
  ghost predicate OnTrack(model: Model, prompt: seq<Token>, tokens: seq<Token>, budget: nat) {
    |tokens| <= budget &&
    var rest := Greedy(model, prompt + tokens, budget - |tokens|);
    Greedy(model, prompt, budget) == Outcome(tokens + rest.tokens, rest.stopped)
  }

  /** The accepted prefix and the first disagreement are what one-at-a-time decoding would sample. */
  lemma OutputsFollow(model: Model, prompt: seq<Token>, tokens: seq<Token>, proposal: seq<Token>, accepted: nat)
    requires tokens != [] && accepted <= |proposal|
    requires var added := [tokens[|tokens| - 1]] + proposal;
             var target := Targets(model, prompt + tokens[..|tokens| - 1], added);
             forall k :: 0 <= k < accepted ==> target[k].token == proposal[k]
    ensures var added := [tokens[|tokens| - 1]] + proposal;
            var outputs := Targets(model, prompt + tokens[..|tokens| - 1], added)[..accepted + 1];
            Follows(model, prompt + tokens, outputs) && ItemTokens(outputs)[..accepted] == proposal[..accepted]
  {
    hide Target;
    var last := |tokens| - 1;
    var context, added := prompt + tokens[..last], [tokens[last]] + proposal;
    var outputs := Targets(model, context, added)[..accepted + 1];
    forall k | 0 <= k < |outputs|
      ensures outputs[k] == Item(model, Target(model, prompt + tokens + ItemTokens(outputs[..k])))
    {
      assert ItemTokens(outputs[..k]) == proposal[..k];
      assert context + added[..k + 1] == prompt + tokens + proposal[..k];
    }
  }

  /** What the stages keep: everything emitted and the accepted part of the proposal. */
  lemma KeptTokens(prompt: seq<Token>, tokens: seq<Token>, proposal: seq<Token>, accepted: nat)
    requires tokens != [] && accepted <= |proposal|
    ensures var fed := prompt + tokens[..|tokens| - 1] + ([tokens[|tokens| - 1]] + proposal);
            && fed[..|fed| - (|proposal| - accepted)] == prompt + tokens + proposal[..accepted]
            && (accepted == |proposal| ==> fed == prompt + tokens + proposal[..accepted])
  {
  }

  lemma AllButLast(prompt: seq<Token>, tokens: seq<Token>, outputs: seq<Token>)
    requires outputs != []
    ensures var now := tokens + outputs[..|outputs|];
            prompt + now[..|now| - 1] == prompt + tokens + outputs[..|outputs| - 1]
  {
  }

  lemma FollowsPrefix(model: Model, base: seq<Token>, items: seq<SampledItem>, k: nat)
    requires Follows(model, base, items) && k <= |items|
    ensures Follows(model, base, items[..k])
  {
    hide Target;
    forall j | 0 <= j < k ensures items[..k][j] == Item(model, Target(model, base + ItemTokens(items[..k][..j]))) {
      assert items[..k][..j] == items[..j];
    }
  }

  lemma TrackFollows(model: Model, prompt: seq<Token>, tokens: seq<Token>, items: seq<SampledItem>, budget: nat)
    requires OnTrack(model, prompt, tokens, budget) && |tokens| + |items| <= budget
    requires Follows(model, prompt + tokens, items) && NoEnd(items)
    ensures OnTrack(model, prompt, tokens + ItemTokens(items), budget)
  {
    hide Target, Follows;
    GreedyFollows(model, prompt + tokens, items, budget - |tokens|);
    var now := ItemTokens(items);
    assert prompt + tokens + now == prompt + (tokens + now);
    var rest := Greedy(model, prompt + (tokens + now), budget - |tokens| - |items|);
    assert tokens + (now + rest.tokens) == tokens + now + rest.tokens;
  }

  lemma TrackStart(model: Model, prompt: seq<Token>, budget: nat)
    requires budget > 0
    ensures OnTrack(model, prompt, [], budget)
    ensures var next := Target(model, prompt);
            if model.isEnd(next) then Greedy(model, prompt, budget) == Outcome([], true)
            else OnTrack(model, prompt, [next], budget) && [next] <= Greedy(model, prompt, budget).tokens
  {
    hide Target;
    assert prompt + [] == prompt;
  }

  lemma TrackEnd(model: Model, prompt: seq<Token>, tokens: seq<Token>, budget: nat)
    requires OnTrack(model, prompt, tokens, budget)
    ensures tokens <= Greedy(model, prompt, budget).tokens
    ensures |tokens| == budget ==> Greedy(model, prompt, budget) == Outcome(tokens, false)
  {
    hide Target;
  }

  lemma TrackNext(model: Model, prompt: seq<Token>, tokens: seq<Token>, budget: nat)
    requires OnTrack(model, prompt, tokens, budget) && |tokens| < budget
    ensures var next := Target(model, prompt + tokens);
            if model.isEnd(next) then Greedy(model, prompt, budget) == Outcome(tokens, true)
            else OnTrack(model, prompt, tokens + [next], budget) && tokens + [next] <= Greedy(model, prompt, budget).tokens
  {
    hide Target;
    var next := Target(model, prompt + tokens);
    assert prompt + tokens + [next] == prompt + (tokens + [next]);
  }

  /** Emitting outputs keeps to the greedy outcome; an end token finishes it. */
  lemma OutputsTrack(model: Model, prompt: seq<Token>, tokens: seq<Token>, outputs: seq<SampledItem>, emitted: nat, budget: nat)
    requires OnTrack(model, prompt, tokens, budget) && Follows(model, prompt + tokens, outputs)
    requires emitted <= |outputs| && |tokens| + |outputs| <= budget
    requires forall k :: 0 <= k < emitted ==> !outputs[k].endOfGeneration
    ensures var now := tokens + ItemTokens(outputs)[..emitted];
            && OnTrack(model, prompt, now, budget)
            && (emitted < |outputs| && outputs[emitted].endOfGeneration ==> Greedy(model, prompt, budget) == Outcome(now, true))
            && (emitted < |outputs| && !outputs[emitted].endOfGeneration ==>
                  now + [outputs[emitted].token] <= Greedy(model, prompt, budget).tokens)
  {
    hide Target, OnTrack, Greedy;
    FollowsPrefix(model, prompt + tokens, outputs, emitted);
    TrackFollows(model, prompt, tokens, outputs[..emitted], budget);
    assert ItemTokens(outputs[..emitted]) == ItemTokens(outputs)[..emitted];
    if emitted < |outputs| {
      TrackNext(model, prompt, tokens + ItemTokens(outputs)[..emitted], budget);
      assert prompt + (tokens + ItemTokens(outputs)[..emitted]) == prompt + tokens + ItemTokens(outputs[..emitted]);
    }
  }

  // --- The runner ---------------------------------------------------------------------------------

  /** Every call after the first ones is an execute or rollback, then each stage is closed once. */
  ghost predicate ClosedOnce(before: seq<Call>, after: seq<Call>, stageCount: nat) {
    && |before| + stageCount <= |after|
    && Quiet(before, after[..|after| - stageCount])
    && after[|after| - stageCount..] == CloseCalls(stageCount)
  }

  class GenerationRunner {
    const pipeline: StagePipeline
    const draft: Option<DraftStrategy>
    const speculativeMax: int

    constructor (pipeline: StagePipeline, draft: Option<DraftStrategy>, speculativeMax: int)
      requires speculativeMax > 0
      ensures this.pipeline == pipeline && this.draft == draft && this.speculativeMax == speculativeMax
    {
      this.pipeline, this.draft, this.speculativeMax := pipeline, draft, speculativeMax;
    }

    ghost function Start(session: SessionId, prompt: ByteString, maxTokens: int, sinkAccepts: nat -> bool): Setting
      reads pipeline
    {
      Setting(pipeline.model, pipeline.configs, pipeline.stages, session, prompt, maxTokens, draft.Some?, speculativeMax, sinkAccepts)
    }

    /** Speculative generation. Whatever disturbs the stages and whatever is drafted, a finished run
        has the tokens and finish reason of plain greedy decoding, an unfinished one has emitted a
        prefix of them and failed for a listed reason, and every run closes every stage exactly once,
        last. In favourable circumstances an undisturbed run finishes. */
    method Run(session: SessionId, prompt: ByteString, maxTokens: int, sinkAccepts: nat -> bool)
      returns (result: GenerationResult, events: seq<TokenEvent>)
      requires pipeline.Valid() && speculativeMax > 0
      requires draft.Some? ==> forall h: seq<Token>, m: nat :: |draft.value(h, m)| <= m
      modifies pipeline
      ensures pipeline.Valid() && ClosedOnce(old(pipeline.calls), pipeline.calls, |pipeline.configs|)
      ensures EventTokens(events) <= PlainOf(old(Start(session, prompt, maxTokens, sinkAccepts))).tokens
      ensures result.Done? ==>
                && Outcome(result.sampledTokens, result.finishReason.Stop?) == PlainOf(old(Start(session, prompt, maxTokens, sinkAccepts)))
                && (exists pending :: Mirrors(pipeline.model, result.sampledTokens, events, pending))
                && Accounted(result.counters, |pipeline.configs|, |pipeline.model.tokenize(prompt)|,
                             Since(TallyOf(old(pipeline.calls)), TallyOf(pipeline.calls)), 0)
                && CompletionAccounted(result.counters, result.sampledTokens, result.finishReason.Stop?)
                && Costs(result.counters, |pipeline.configs|,
                         EffortOf(draft, speculativeMax, Max(1, maxTokens), pipeline.model.tokenize(prompt), result.sampledTokens))
                && |result.sampledTokens| <= Max(1, maxTokens)
                && (result.finishReason.Length? ==> |result.sampledTokens| == Max(1, maxTokens))
                && (forall i :: 0 <= i < |pipeline.stages| ==> session !in pipeline.stages[i])
      ensures result.Failed? ==>
                Explains(old(Start(session, prompt, maxTokens, sinkAccepts)), result.failure, events,
                         Disturbance(pipeline.faults, session, |old(pipeline.calls)|, |pipeline.calls|))
      ensures Favourable(old(Start(session, prompt, maxTokens, sinkAccepts))) ==>
                result.Done? || Disturbance(pipeline.faults, session, |old(pipeline.calls)|, |pipeline.calls|)
      ensures Spared(old(pipeline.stages), pipeline.stages, session, pipeline.calls, |old(pipeline.calls)|, pipeline.faults)
    {
      hide Mirrors, Greedy, Image, StagePipeline.Lockstep, StagePipeline.Room, MalformedText, OnTrack, Accounted, Explains, Favourable, EventTokens, TallyOf,
           Spared, Spends, EffortFrom, EffortOf, Costs;
      ghost var start, from := Start(session, prompt, maxTokens, sinkAccepts), |pipeline.calls|;
      var run := new GenerationRun(pipeline, session, prompt, maxTokens, draft, speculativeMax, sinkAccepts);
      var failure := run.Drive();
      events := run.events;
      TrackEnd(pipeline.model, run.PromptTokens(), run.sampledTokens, run.Budget());
      ghost var open, table := pipeline.calls, pipeline.stages;
      var closing := pipeline.CloseSessions(session);
      SparedThen(run.initial, table, pipeline.stages, session, open, pipeline.calls, from, pipeline.faults);
      assert pipeline.calls[..|pipeline.calls| - |pipeline.configs|] == open;
      TallyCloses(open, |pipeline.configs|);
      ghost var disturbed := Disturbance(pipeline.faults, session, from, |pipeline.calls|);
      if failure.Some? {
        result := Failed(failure.value);
        ExplainsMore(start, failure.value, events, Disturbance(pipeline.faults, session, from, |open|), disturbed);
        OnlyDisturbance(start, failure.value, events, disturbed);
      } else if closing.Some? {
        result := Failed(CleanupFailed(closing.value));
        Cleanup(start, closing.value, events);
      } else {
        result := Done(run.sampledTokens, if run.endOfGeneration then Stop else Length, run.counters);
        NothingLeft(draft, speculativeMax, run.Budget(), run.PromptTokens(), run.sampledTokens, run.recoverAfterRejection);
        SpentAll(run.counters, |pipeline.configs|, run.Left(), run.Total());
      }
    }
  }

  lemma ExplainsMore(s: Setting, failure: Failure, events: seq<TokenEvent>, before: bool, after: bool)
    requires Explains(s, failure, events, before) && (before ==> after)
    ensures Explains(s, failure, events, after)
  {
    hide Greedy, MalformedText;
  }

  lemma OnlyDisturbance(s: Setting, failure: Failure, events: seq<TokenEvent>, disturbed: bool)
    requires Explains(s, failure, events, disturbed)
    ensures Favourable(s) ==> disturbed
  {
    hide Explains, Favourable;
    if Favourable(s) {
      OnlyDisturbanceFails(s, failure, events);
    }
  }

  lemma Cleanup(s: Setting, error: StageError, events: seq<TokenEvent>)
    ensures Explains(s, CleanupFailed(error), events, true)
  {
  }

  // --- The plain loop -----------------------------------------------------------------------------

  /** Some stage refuses the prefill on its own account. */
  ghost predicate PrefillBlocked(configs: seq<StageConfig>, stages: seq<Sessions>, session: SessionId, length: nat, maxTokens: int) {
    || length == 0
    || (exists i :: 0 <= i < |configs| && i < |stages| && session in stages[i])
    || (exists i :: 0 <= i < |configs| && length + Max(0, maxTokens - 1) > configs[i].contextSize)
  }

  lemma Blocked(configs: seq<StageConfig>, stages: seq<Sessions>, session: SessionId, length: nat, maxTokens: int, stage: nat, error: StageError)
    requires stage < |configs| && stage < |stages|
    ensures Refuses(configs[stage], session in stages[stage], Prefill, 0, length, maxTokens, error) ==>
              PrefillBlocked(configs, stages, session, length, maxTokens)
  {
  }

  lemma NeverRefused(config: StageConfig, known: bool, held: int, maxTokens: int, error: StageError)
    requires held + 1 <= config.contextSize
    ensures !Refuses(config, known, Decode, held, 1, maxTokens, error)
  {
  }

  lemma OneTarget(model: Model, context: seq<Token>, token: Token)
    ensures Targets(model, context, [token]) == [Item(model, Target(model, context + [token]))]
  {
    hide Target;
    assert [token][..1] == [token];
  }

  /** normalizeGenerationMaxTokens. */
  function NormalizeMaxTokens(value: int): nat {
    if value <= 0 then 128 else if value > 1024 then 1024 else value
  }

  /** One pass per token, as the Go executor does; the session is closed on every stage at the end. Without
      a limit 128 tokens are asked for, and never more than 1024. */
  method Generate(pipeline: StagePipeline, session: SessionId, prompt: ByteString, requested: int)
    returns (ok: bool, sampledTokens: seq<Token>, endOfGeneration: bool)
    requires pipeline.Valid()
    modifies pipeline
    ensures pipeline.Valid() && ClosedOnce(old(pipeline.calls), pipeline.calls, |pipeline.configs|)
    ensures var limit := if requested <= 0 then 128 else if requested > 1024 then 1024 else requested;
            && (ok ==>
                  && Outcome(sampledTokens, endOfGeneration) == Greedy(pipeline.model, pipeline.model.tokenize(prompt), limit)
                  && |sampledTokens| <= limit && (!endOfGeneration ==> |sampledTokens| == limit))
            && (!ok ==>
                  || Disturbance(pipeline.faults, session, |old(pipeline.calls)|, |pipeline.calls|)
                  || PrefillBlocked(pipeline.configs, old(pipeline.stages), session, |pipeline.model.tokenize(prompt)|, limit))
    ensures ok ==> forall i :: 0 <= i < |pipeline.stages| ==> session !in pipeline.stages[i]
    ensures Spared(old(pipeline.stages), pipeline.stages, session, pipeline.calls, |old(pipeline.calls)|, pipeline.faults)
  {
    hide Greedy, Target, OnTrack, Image, StagePipeline.Lockstep, PrefillBlocked, Spared, Refuses, Targets;
    ghost var known, from := pipeline.stages, |pipeline.calls|;
    var maxTokens := NormalizeMaxTokens(requested);
    ghost var model, ids := pipeline.model, pipeline.model.tokenize(prompt);
    TrackStart(model, ids, maxTokens);
    sampledTokens, endOfGeneration := [], false;
    var pass, stageCalls, remoteCalls := pipeline.RunPass(session, Prefill, 0, maxTokens, Text(prompt), [], ids);
    ok := pass.PassOk?;
    if !ok {
      Blocked(pipeline.configs, known, session, |ids|, maxTokens, pass.stage, pass.error);
    } else {
      assert [] + ids == ids;
      endOfGeneration := pass.items[0].endOfGeneration;
      sampledTokens := if endOfGeneration then [] else [pass.items[0].token];
      assert ids + sampledTokens[..0] == ids;
    }
    var decodeStep := 1;
    while ok && |sampledTokens| < maxTokens && !endOfGeneration
      invariant pipeline.Valid() && pipeline.model == model && Quiet(old(pipeline.calls), pipeline.calls)
      invariant Spared(known, pipeline.stages, session, pipeline.calls, from, pipeline.faults)
      invariant ok ==> pipeline.Room(|ids| + maxTokens - 1)
      invariant !ok ==> Disturbance(pipeline.faults, session, from, |pipeline.calls|)
                        || PrefillBlocked(pipeline.configs, known, session, |ids|, maxTokens)
      invariant ok && endOfGeneration ==> Greedy(model, ids, maxTokens) == Outcome(sampledTokens, true)
      invariant ok && !endOfGeneration ==>
                  && decodeStep == |sampledTokens| && 0 < |sampledTokens| <= maxTokens
                  && OnTrack(model, ids, sampledTokens, maxTokens)
                  && pipeline.Lockstep(session, ids + sampledTokens[..|sampledTokens| - 1], decodeStep)
      decreases ok, !endOfGeneration, maxTokens - |sampledTokens|
    {
      var previous := sampledTokens[|sampledTokens| - 1];
      ghost var context := ids + sampledTokens[..|sampledTokens| - 1];
      DecodePayloadRows(model, pipeline.configs[0], [previous]);
      TrackNext(model, ids, sampledTokens, maxTokens);
      assert context + [previous] == ids + sampledTokens;
      ghost var made, table := pipeline.calls, pipeline.stages;
      pass, stageCalls, remoteCalls := pipeline.RunPass(session, Decode, decodeStep, maxTokens, SampledToken(previous), context, [previous]);
      SparedThen(known, table, pipeline.stages, session, made, pipeline.calls, from, pipeline.faults);
      OneTarget(model, context, previous);
      ok := pass.PassOk?;
      if !ok {
        NeverRefused(pipeline.configs[pass.stage], session in table[pass.stage], |context|, maxTokens, pass.error);
      } else {
        endOfGeneration := pass.items[0].endOfGeneration;
        if !endOfGeneration {
          sampledTokens := sampledTokens + [pass.items[0].token];
          assert sampledTokens[..|sampledTokens| - 1] == sampledTokens[..decodeStep];
        }
        decodeStep := decodeStep + 1;
      }
    }
    if ok && !endOfGeneration {
      TrackEnd(model, ids, sampledTokens, maxTokens);
    }
    ghost var open, table := pipeline.calls, pipeline.stages;
    var closing := pipeline.CloseSessions(session);
    SparedThen(known, table, pipeline.stages, session, open, pipeline.calls, from, pipeline.faults);
    assert pipeline.calls[..|pipeline.calls| - |pipeline.configs|] == open;
    ok := ok && closing.None?;
  }
}
