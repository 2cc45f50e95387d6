/** A pipeline of stages driven pass by pass: run_pass, rollback_sessions and close_sessions
    (runtime/pipeline_parallel/generation_runner.cpp:248-378). */
module Pipeline {
  import opened Bytes
  import opened StageSession
  import opened Wrappers
  import opened Arithmetic

  // --- What a pipeline computes -------------------------------------------------------------

  /** Rows that enter stage i for a token sequence. */
  ghost function Image(model: Model, i: nat, tokens: seq<Token>): (rows: seq<Row>)
    requires i <= |model.layers|
    ensures |rows| == |tokens|
  {
    if i == 0 then TokenRows(tokens)
    else Forward(model.layers[i - 1], [], Image(model, i - 1, tokens))
  }

  /** The token the whole pipeline samples after a token sequence. */
  ghost function Target(model: Model, tokens: seq<Token>): Token {
    model.head(Image(model, |model.layers|, tokens))
  }

  /** Samples of the pipeline for each prefix of added tokens after a context. */
  ghost function Targets(model: Model, context: seq<Token>, added: seq<Token>): (items: seq<SampledItem>)
    ensures |items| == |added|
  {
    seq(|added|, k requires 0 <= k < |added| => Item(model, Target(model, context + added[..k + 1])))
  }

  /** Rows that enter stage i for added tokens after a context. */
  ghost function AddedRows(model: Model, i: nat, context: seq<Token>, added: seq<Token>): (rows: seq<Row>)
    requires i <= |model.layers|
    ensures |rows| == |added|
  {
    Image(model, i, context + added)[|context|..]
  }

  /** Stages are causal: cutting the tokens cuts the rows of every stage. */
  lemma {:induction false} ImagePrefix(model: Model, i: nat, tokens: seq<Token>, k: nat)
    requires i <= |model.layers| && k <= |tokens|
    ensures Image(model, i, tokens[..k]) == Image(model, i, tokens)[..k]
  {
    if i > 0 {
      ImagePrefix(model, i - 1, tokens, k);
      var rows := Image(model, i - 1, tokens);
      forall j | 0 <= j < k
        ensures Image(model, i, tokens[..k])[j] == Image(model, i, tokens)[j]
      {
        assert rows[..k][..j + 1] == rows[..j + 1];
      }
    }
  }

  lemma ImageSplit(model: Model, i: nat, context: seq<Token>, added: seq<Token>)
    requires i <= |model.layers|
    ensures Image(model, i, context + added) == Image(model, i, context) + AddedRows(model, i, context, added)
  {
    assert (context + added)[..|context|] == context;
    ImagePrefix(model, i, context + added, |context|);
  }

  lemma AddedPrefix(model: Model, i: nat, context: seq<Token>, added: seq<Token>, k: nat)
    requires i <= |model.layers| && k <= |added|
    ensures Image(model, i, context) + AddedRows(model, i, context, added)[..k] ==
            Image(model, i, context + added)[..|context| + k] ==
            Image(model, i, context + added[..k])
  {
    ImageSplit(model, i, context, added);
    ImagePrefix(model, i, context + added, |context| + k);
    assert (context + added)[..|context| + k] == context + added[..k];
  }

  /** A cached stage run on the added rows alone produces what a run on everything would. */
  lemma ForwardAdded(model: Model, i: nat, context: seq<Token>, added: seq<Token>)
    requires i < |model.layers|
    ensures Forward(model.layers[i], Image(model, i, context), AddedRows(model, i, context, added)) ==
            AddedRows(model, i + 1, context, added)
  {
    var out := Forward(model.layers[i], Image(model, i, context), AddedRows(model, i, context, added));
    forall k | 0 <= k < |added|
      ensures out[k] == AddedRows(model, i + 1, context, added)[k]
    {
      AddedPrefix(model, i, context, added, k + 1);
      var rows := Image(model, i, context + added)[..|context| + k + 1];
      assert [] + rows == rows;
    }
  }

  lemma SampleAdded(model: Model, context: seq<Token>, added: seq<Token>)
    ensures SampleRows(model, Image(model, |model.layers|, context), AddedRows(model, |model.layers|, context, added)) ==
            Targets(model, context, added)
  {
    hide Image, AddedRows, Target, Item;
    var out := SampleRows(model, Image(model, |model.layers|, context), AddedRows(model, |model.layers|, context, added));
    forall k | 0 <= k < |added|
      ensures out[k] == Targets(model, context, added)[k]
    {
      TargetAdded(model, context, added, k);
    }
  }

  lemma TargetAdded(model: Model, context: seq<Token>, added: seq<Token>, k: nat)
    requires k < |added|
    ensures model.head(Image(model, |model.layers|, context) + AddedRows(model, |model.layers|, context, added)[..k + 1]) ==
            Target(model, context + added[..k + 1])
  {
    hide Image, AddedRows;
    AddedPrefix(model, |model.layers|, context, added, k + 1);
  }

  lemma TokensEnterFirst(model: Model, context: seq<Token>, added: seq<Token>)
    ensures AddedRows(model, 0, context, added) == TokenRows(added)
  {
  }

  ghost function OutputOnAdded(model: Model, config: StageConfig, context: seq<Token>, added: seq<Token>, input: StageInput)
    : StageOutput
    requires config.assignment.index <= |model.layers|
  {
    var i, ids := config.assignment.index, PromptIds(model, config, input);
    if i < |model.layers| then HiddenOutput(AddedRows(model, i + 1, context, added), ids)
    else SampleOutput(if input.phase.Prefill? then [Item(model, Target(model, added))]
                      else Targets(model, context, added), ids)
  }

  /** Why a stage that is in step refuses rows on its own account: nothing to decode, a prefill of a
      session it already has, too many rows at once, or no room. */
  ghost predicate Refuses(config: StageConfig, known: bool, phase: Phase, held: int, width: int, maxTokens: int, error: StageError) {
    match error
    case DuplicateSession => phase.Prefill? && known
    case EmptyTokens => width == 0
    case InvalidDecodeActivation => phase.Decode? && config.assignment.index > 0 && width > Max(1, config.speculativeMax + 1)
    case ContextExhausted => held + width + (if phase.Prefill? then Max(0, maxTokens - 1) else 0) > config.contextSize
    case _ => false
  }

  /** What a stage computes for the added rows when it holds the context, and that it then
      fails only because of the engine or for a listed refusal. */
  lemma RunOnAdded(model: Model, config: StageConfig, context: seq<Token>, added: seq<Token>, step: int,
                   input: StageInput, engine: EngineOutcome)
    requires config.assignment.index <= |model.layers| && config.assignment.count == |model.layers| + 1
    requires InputRows(model, config, input.payload) == Some(AddedRows(model, config.assignment.index, context, added))
    requires input.phase.Prefill? ==> context == []
    ensures var i := config.assignment.index;
            var (next, r) := RunSerial(model, config, Session(Image(model, i, context), |context|, step), input, engine);
            if r.Ok? then
              && added != []
              && next == Session(Image(model, i, context + added), |context + added|, step)
              && r.value == OutputOnAdded(model, config, context, added, input)
            else
              !engine.EngineOk? || Refuses(config, false, input.phase, |context|, |added|, input.maxTokens, r.error)
  {
    var i := config.assignment.index;
    ImageSplit(model, i, context, added);
    if i < |model.layers| {
      ForwardAdded(model, i, context, added);
    } else {
      SampleAdded(model, context, added);
      assert [] + added == added;
    }
  }

  /** The same for the session table of a stage. */
  lemma ExecuteOnAdded(model: Model, config: StageConfig, sessions: Sessions, context: seq<Token>, added: seq<Token>,
                       input: StageInput, engine: EngineOutcome)
    requires config.assignment.index <= |model.layers| && config.assignment.count == |model.layers| + 1
    requires InputRows(model, config, input.payload) == Some(AddedRows(model, config.assignment.index, context, added))
    requires input.assignment == config.assignment
    requires input.phase.Prefill? ==> context == []
    requires input.phase.Decode? ==> DecodedTokens(input.payload) == |added|
    requires input.phase.Decode? && input.session in sessions ==>
               sessions[input.session] == Session(Image(model, config.assignment.index, context), |context|, input.decodeStep)
    ensures var i := config.assignment.index;
            var (after, r) := ExecuteSerial(model, config, sessions, input, engine);
            var step := if input.phase.Prefill? then 1 else input.decodeStep + |added|;
            if r.Ok? then
              && added != []
              && input.session in after
              && after[input.session] == Session(Image(model, i, context + added), |context + added|, step)
              && r.value == OutputOnAdded(model, config, context, added, input)
              && (input.phase.Prefill? ==> |added| + Max(0, input.maxTokens - 1) <= config.contextSize)
            else
              || !engine.EngineOk? || (input.phase.Decode? && input.session !in sessions)
              || Refuses(config, input.session in sessions, input.phase, |context|, |added|, input.maxTokens, r.error)
  {
    RunOnAdded(model, config, context, added, if input.phase.Prefill? then 1 else input.decodeStep, input, engine);
    assert input.phase.Prefill? ==> Image(model, config.assignment.index, context) == [];
  }

  // --- The stages as seen by the driver ------------------------------------------------------

  datatype Delivery = Delivered | RequestLost | ReplyDropped

  /** The table of stage i holds the session with exactly these tokens and this decode step. */
  ghost predicate Holds(model: Model, i: nat, sessions: Sessions, session: SessionId, tokens: seq<Token>, step: int)
    requires i <= |model.layers|
  {
    session in sessions && sessions[session] == Session(Image(model, i, tokens), |tokens|, step)
  }

  /** A rollback of decoded tokens on a stage that holds them is refused only by a disturbance. */
  lemma RollbackHeld(model: Model, i: nat, sessions: Sessions, session: SessionId, count: int, tokens: seq<Token>, step: int,
                     engineAccepts: bool)
    requires i <= |model.layers| && 0 < count < step && count <= |tokens|
    requires session in sessions ==> Holds(model, i, sessions, session, tokens, step)
    ensures var (after, r) := RollbackSerial(sessions, session, count, engineAccepts);
            if r.Ok? then Holds(model, i, after, session, tokens[..|tokens| - count], step - count)
            else session !in sessions || !engineAccepts
  {
    ImagePrefix(model, i, tokens, |tokens| - count);
  }

  /** Everything that can disturb one stage call. */
  datatype Fault = Fault(expired: set<SessionId>, engine: EngineOutcome, delivery: Delivery)

  predicate Disturbs(fault: Fault, session: SessionId) {
    session in fault.expired || !fault.engine.EngineOk? || !fault.delivery.Delivered?
  }

  datatype Call = ExecuteCall(stage: nat) | RollbackCall(stage: nat, count: int) | CloseCall(stage: nat)

  function ExecuteCalls(n: nat): seq<Call> {
    seq(n, k requires 0 <= k => ExecuteCall(k))
  }

  function RollbackCalls(n: nat, count: int): seq<Call> {
    seq(n, k requires 0 <= k => RollbackCall(k, count))
  }

  function CloseCalls(n: nat): seq<Call> {
    seq(n, k requires 0 <= k => CloseCall(k))
  }

  /** Calls of each kind, to all stages and to the remote ones, and the tokens undone on the first stage. */
  datatype Tally = Tally(executes: int, remoteExecutes: int, rollbacks: int, remoteRollbacks: int, undone: int)

  ghost function TallyOf(calls: seq<Call>): Tally {
    if calls == [] then Tally(0, 0, 0, 0, 0)
    else
      var t := TallyOf(calls[..|calls| - 1]);
      match calls[|calls| - 1]
      case ExecuteCall(i) =>
        t.(executes := t.executes + 1, remoteExecutes := t.remoteExecutes + if i == 0 then 0 else 1)
      case RollbackCall(i, count) =>
        t.(rollbacks := t.rollbacks + 1, remoteRollbacks := t.remoteRollbacks + (if i == 0 then 0 else 1),
           undone := t.undone + if i == 0 then count else 0)
      case CloseCall(_) => t
  }

  lemma {:induction false} TallyExecutes(calls: seq<Call>, n: nat)
    ensures TallyOf(calls + ExecuteCalls(n)) ==
            var t := TallyOf(calls);
            t.(executes := t.executes + n, remoteExecutes := t.remoteExecutes + if n == 0 then 0 else n - 1)
  {
    var all := calls + ExecuteCalls(n);
    if n == 0 {
      assert all == calls;
    } else {
      TallyExecutes(calls, n - 1);
      assert all[..|all| - 1] == calls + ExecuteCalls(n - 1);
    }
  }

  lemma {:induction false} TallyRollbacks(calls: seq<Call>, n: nat, count: int)
    ensures TallyOf(calls + RollbackCalls(n, count)) ==
            var t := TallyOf(calls);
            t.(rollbacks := t.rollbacks + n, remoteRollbacks := t.remoteRollbacks + (if n == 0 then 0 else n - 1),
               undone := t.undone + if n == 0 then 0 else count)
  {
    var all := calls + RollbackCalls(n, count);
    if n == 0 {
      assert all == calls;
    } else {
      TallyRollbacks(calls, n - 1, count);
      assert all[..|all| - 1] == calls + RollbackCalls(n - 1, count);
    }
  }

  lemma {:induction false} TallyCloses(calls: seq<Call>, n: nat)
    ensures TallyOf(calls + CloseCalls(n)) == TallyOf(calls)
  {
    var all := calls + CloseCalls(n);
    if n == 0 {
      assert all == calls;
    } else {
      TallyCloses(calls, n - 1);
      assert all[..|all| - 1] == calls + CloseCalls(n - 1);
    }
  }

  // --- Other sessions -----------------------------------------------------------------------

  /** Sessions that expired on a stage in the calls from a number on. */
  ghost function ExpiredOn(stage: nat, calls: seq<Call>, from: nat, faults: nat -> Fault): set<SessionId> {
    if |calls| <= from then {}
    else
      var n := |calls| - 1;
      ExpiredOn(stage, calls[..n], from, faults) + if calls[n].stage == stage then faults(n).expired else {}
  }

  /** On every stage each other session is there with its old value, unless it has expired in a call to
      that stage. */
  ghost predicate Spared(before: seq<Sessions>, after: seq<Sessions>, session: SessionId, calls: seq<Call>, from: nat, faults: nat -> Fault) {
    && |after| == |before|
    && forall i, id :: 0 <= i < |after| && id != session ==>
         && (id in after[i] <==> id in before[i] && id !in ExpiredOn(i, calls, from, faults))
         && (id in after[i] ==> after[i][id] == before[i][id])
  }

  lemma SparedStart(stages: seq<Sessions>, session: SessionId, calls: seq<Call>, faults: nat -> Fault)
    ensures Spared(stages, stages, session, calls, |calls|, faults)
  {
  }

  /** One more call, to one stage, in which the others expire or stay. */
  lemma SparedCall(before: seq<Sessions>, mid: seq<Sessions>, after: seq<Sessions>, session: SessionId, calls: seq<Call>, from: nat,
                   faults: nat -> Fault, call: Call)
    requires Spared(before, mid, session, calls, from, faults) && from <= |calls| && call.stage < |mid| == |after|
    requires forall j :: 0 <= j < |mid| && j != call.stage ==> after[j] == mid[j]
    requires after[call.stage] - {session} == mid[call.stage] - faults(|calls|).expired - {session}
    ensures Spared(before, after, session, calls + [call], from, faults)
  {
    hide Spared, ExpiredOn;
    var all := calls + [call];
    SparedAt(before, mid, session, calls, from, faults, 0, session);
    forall i, id | 0 <= i < |after| && id != session
      ensures id in after[i] <==> id in before[i] && id !in ExpiredOn(i, all, from, faults)
      ensures id in after[i] ==> after[i][id] == before[i][id]
    {
      ExpiredSnoc(i, calls, from, faults, call);
      SparedAt(before, mid, session, calls, from, faults, i, id);
      CutAt(after[call.stage], mid[call.stage], faults(|calls|).expired, session, id);
    }
    SparedAll(before, after, session, all, from, faults);
  }

  lemma ExpiredSnoc(stage: nat, calls: seq<Call>, from: nat, faults: nat -> Fault, call: Call)
    requires from <= |calls|
    ensures ExpiredOn(stage, calls + [call], from, faults) ==
            ExpiredOn(stage, calls, from, faults) + if call.stage == stage then faults(|calls|).expired else {}
  {
    assert (calls + [call])[..|calls|] == calls;
  }

  lemma CutAt(after: Sessions, before: Sessions, expired: set<SessionId>, session: SessionId, id: SessionId)
    requires after - {session} == before - expired - {session} && id != session
    ensures (id in after <==> id in before && id !in expired) && (id in after ==> after[id] == before[id])
  {
    assert id in after <==> id in after - {session};
    assert id in after ==> (after - {session})[id] == after[id];
  }

  lemma SparedAt(before: seq<Sessions>, after: seq<Sessions>, session: SessionId, calls: seq<Call>, from: nat, faults: nat -> Fault, i: nat, id: SessionId)
    requires Spared(before, after, session, calls, from, faults)
    ensures |after| == |before|
    ensures i < |after| && id != session ==>
              && (id in after[i] <==> id in before[i] && id !in ExpiredOn(i, calls, from, faults))
              && (id in after[i] ==> after[i][id] == before[i][id])
  {
    hide ExpiredOn;
  }

  lemma SparedAll(before: seq<Sessions>, after: seq<Sessions>, session: SessionId, calls: seq<Call>, from: nat, faults: nat -> Fault)
    requires |after| == |before|
    requires forall i, id :: 0 <= i < |after| && id != session ==>
               && (id in after[i] <==> id in before[i] && id !in ExpiredOn(i, calls, from, faults))
               && (id in after[i] ==> after[i][id] == before[i][id])
    ensures Spared(before, after, session, calls, from, faults)
  {
    hide ExpiredOn;
  }

  lemma {:induction false} ExpiredSplit(stage: nat, calls: seq<Call>, from: nat, middle: nat, faults: nat -> Fault)
    requires from <= middle <= |calls|
    ensures ExpiredOn(stage, calls, from, faults) ==
            ExpiredOn(stage, calls[..middle], from, faults) + ExpiredOn(stage, calls, middle, faults)
    decreases |calls|
  {
    if |calls| == middle {
      assert calls[..middle] == calls;
    } else {
      var init := calls[..|calls| - 1];
      ExpiredSplit(stage, init, from, middle, faults);
      assert init[..middle] == calls[..middle];
    }
  }

  /** Two stretches of calls after each other. */
  lemma SparedThen(before: seq<Sessions>, mid: seq<Sessions>, after: seq<Sessions>, session: SessionId,
                   calls: seq<Call>, all: seq<Call>, from: nat, faults: nat -> Fault)
    requires Spared(before, mid, session, calls, from, faults) && from <= |calls| && calls <= all
    requires Spared(mid, after, session, all, |calls|, faults)
    ensures Spared(before, after, session, all, from, faults)
  {
    hide Spared, ExpiredOn;
    assert all[..|calls|] == calls;
    SparedAt(before, mid, session, calls, from, faults, 0, session);
    SparedAt(mid, after, session, all, |calls|, faults, 0, session);
    forall i, id | 0 <= i < |after| && id != session
      ensures id in after[i] <==> id in before[i] && id !in ExpiredOn(i, all, from, faults)
      ensures id in after[i] ==> after[i][id] == before[i][id]
    {
      ExpiredSplit(i, all, from, |calls|, faults);
      SparedAt(before, mid, session, calls, from, faults, i, id);
      SparedAt(mid, after, session, all, |calls|, faults, i, id);
    }
    SparedAll(before, after, session, all, from, faults);
  }

  lemma ExecuteSpares(model: Model, config: StageConfig, sessions: Sessions, input: StageInput, engine: EngineOutcome)
    ensures ExecuteSerial(model, config, sessions, input, engine).0 - {input.session} == sessions - {input.session}
  {
    hide RunSerial;
  }

  lemma RollbackSpares(sessions: Sessions, session: SessionId, count: int, engineAccepts: bool)
    ensures RollbackSerial(sessions, session, count, engineAccepts).0 - {session} == sessions - {session}
  {
  }

  /** What a rollback request to a stage does and answers. */
  ghost function RollbackReply(sessions: Sessions, session: SessionId, count: int, fault: Fault): (Sessions, Result<()>) {
    var (after, result) := RollbackSerial(sessions - fault.expired, session, count, fault.engine.EngineOk?);
    (if fault.delivery.RequestLost? then sessions - fault.expired else after,
     if fault.delivery.Delivered? then result else Err(ReplyLost))
  }

  /** The error of the first stage of those before n that refuses. */
  ghost function FirstRefusal(stages: seq<Sessions>, n: nat, session: SessionId, count: int, faults: nat -> Fault, from: nat): Option<StageError>
    requires n <= |stages|
  {
    if n == 0 then None
    else
      var before := FirstRefusal(stages, n - 1, session, count, faults, from);
      var reply := RollbackReply(stages[n - 1], session, count, faults(from + n - 1)).1;
      if before.Some? || reply.Ok? then before else Some(reply.error)
  }

  lemma {:induction false} FirstRefusalMeans(stages: seq<Sessions>, n: nat, session: SessionId, count: int, faults: nat -> Fault, from: nat)
    requires n <= |stages|
    ensures var e := FirstRefusal(stages, n, session, count, faults, from);
            && (e.None? <==> forall i :: 0 <= i < n ==> RollbackReply(stages[i], session, count, faults(from + i)).1.Ok?)
            && (e.Some? ==>
                  exists i :: && 0 <= i < n && RollbackReply(stages[i], session, count, faults(from + i)).1 == Err(e.value)
                              && forall j :: 0 <= j < i ==> RollbackReply(stages[j], session, count, faults(from + j)).1.Ok?)
  {
    hide RollbackReply;
    if n > 0 {
      FirstRefusalMeans(stages, n - 1, session, count, faults, from);
      assert from + (n - 1) == from + n - 1;
    }
  }

  lemma OneRefusal(stages: seq<Sessions>, n: nat, session: SessionId, count: int, faults: nat -> Fault, from: nat)
    requires n < |stages|
    ensures var before, reply := FirstRefusal(stages, n, session, count, faults, from), RollbackReply(stages[n], session, count, faults(from + n)).1;
            FirstRefusal(stages, n + 1, session, count, faults, from) == if before.Some? || reply.Ok? then before else Some(reply.error)
  {
    hide RollbackReply;
  }

  /** A rollback on stages that all hold these tokens leaves each with the shorter ones, unless it was disturbed. */
  lemma HeldReply(model: Model, i: nat, sessions: Sessions, session: SessionId, count: int, tokens: seq<Token>, step: int, fault: Fault)
    requires i <= |model.layers| && 0 < count < step && count <= |tokens| && Holds(model, i, sessions, session, tokens, step)
    ensures var (after, r) := RollbackReply(sessions, session, count, fault);
            if r.Ok? then Holds(model, i, after, session, tokens[..|tokens| - count], step - count) else Disturbs(fault, session)
  {
    hide Image;
    RollbackHeld(model, i, sessions - fault.expired, session, count, tokens, step, fault.engine.EngineOk?);
  }

  lemma RollbackSettles(model: Model, before: seq<Sessions>, after: seq<Sessions>, session: SessionId, count: int, tokens: seq<Token>, step: int,
                        faults: nat -> Fault, from: nat)
    requires |after| == |before| <= |model.layers| + 1 && 0 < count < step && count <= |tokens|
    requires forall i :: 0 <= i < |before| ==> Holds(model, i, before[i], session, tokens, step)
    requires forall i :: 0 <= i < |before| ==> after[i] == RollbackReply(before[i], session, count, faults(from + i)).0
    ensures if FirstRefusal(before, |before|, session, count, faults, from).None?
            then forall i :: 0 <= i < |after| ==> Holds(model, i, after[i], session, tokens[..|tokens| - count], step - count)
            else exists k :: from <= k < from + |before| && Disturbs(faults(k), session)
  {
    hide RollbackReply, Holds, FirstRefusal, Disturbs;
    FirstRefusalMeans(before, |before|, session, count, faults, from);
    forall i | 0 <= i < |before|
      ensures var (next, r) := RollbackReply(before[i], session, count, faults(from + i));
              if r.Ok? then Holds(model, i, next, session, tokens[..|tokens| - count], step - count) else Disturbs(faults(from + i), session)
    {
      HeldReply(model, i, before[i], session, count, tokens, step, faults(from + i));
    }
  }

  datatype PassResult =
    | PassOk(items: seq<SampledItem>, promptIds: seq<Token>)
    | PassFailed(stage: nat, error: StageError)

  /** The stages of one route with the calls made to them. Disturbances are a function of the call
      number, so a statement about every such function is a statement about every run. */
  class StagePipeline {
    const model: Model
    const configs: seq<StageConfig>
    const faults: nat -> Fault
    var stages: seq<Sessions>
    var calls: seq<Call>

    ghost predicate Valid()
      reads this
    {
      && |configs| == |model.layers| + 1 == |stages|
      && (forall i :: 0 <= i < |configs| ==> configs[i].assignment.index == i && configs[i].assignment.count == |configs|)
    }

    constructor (model: Model, configs: seq<StageConfig>, stages: seq<Sessions>, faults: nat -> Fault)
      requires |configs| == |model.layers| + 1 == |stages|
      requires forall i :: 0 <= i < |configs| ==> configs[i].assignment.index == i && configs[i].assignment.count == |configs|
      ensures Valid() && this.model == model && this.configs == configs && this.faults == faults
      ensures this.stages == stages && calls == []
    {
      this.model, this.configs, this.faults, this.stages, this.calls := model, configs, faults, stages, [];
    }

    /** Every stage holds the session with exactly these tokens and this decode step. */
    ghost predicate Lockstep(session: SessionId, tokens: seq<Token>, step: int)
      reads this
    {
      |stages| <= |model.layers| + 1 &&
      forall i :: 0 <= i < |stages| ==> Holds(model, i, stages[i], session, tokens, step)
    }

    /** Every stage has room for these positions. */
    ghost predicate Room(positions: int) {
      forall i :: 0 <= i < |configs| ==> positions <= configs[i].contextSize
    }

    /** One execute call to stage i, with whatever disturbs it. */
    method InvokeExecute(i: nat, input: StageInput) returns (r: Result<StageOutput>)
      requires Valid() && i < |stages|
      modifies this
      ensures Valid() && calls == old(calls) + [ExecuteCall(i)]
      ensures forall j :: 0 <= j < |stages| && j != i ==> stages[j] == old(stages)[j]
      ensures var fault := faults(|old(calls)|);
              var (after, result) := ExecuteSerial(model, configs[i], old(stages)[i] - fault.expired, input, fault.engine);
              && r == (if fault.delivery.Delivered? then result else Err(ReplyLost))
              && stages[i] == (if fault.delivery.RequestLost? then old(stages)[i] - fault.expired else after)
              && stages[i] - {input.session} == old(stages)[i] - fault.expired - {input.session}
    {
      var fault := faults(|calls|);
      ExecuteSpares(model, configs[i], stages[i] - fault.expired, input, fault.engine);
      calls := calls + [ExecuteCall(i)];
      if fault.delivery.RequestLost? {
        stages := stages[i := stages[i] - fault.expired];
        return Err(ReplyLost);
      }
      var (after, result) := ExecuteSerial(model, configs[i], stages[i] - fault.expired, input, fault.engine);
      stages := stages[i := after];
      r := if fault.delivery.ReplyDropped? then Err(ReplyLost) else result;
    }

    /** One stage of a pass: added rows after a context the stage holds. */
    method PassStage(i: nat, input: StageInput, ghost context: seq<Token>, ghost added: seq<Token>)
      returns (r: Result<StageOutput>)
      requires Valid() && i < |stages|
      requires InputRows(model, configs[i], input.payload) == Some(AddedRows(model, i, context, added))
      requires input.assignment == configs[i].assignment
      requires input.phase.Prefill? ==> context == []
      requires input.phase.Decode? ==> DecodedTokens(input.payload) == |added|
      requires input.phase.Decode? ==> Holds(model, i, stages[i], input.session, context, input.decodeStep)
      modifies this
      ensures Valid() && calls == old(calls) + [ExecuteCall(i)]
      ensures forall j :: 0 <= j < |stages| && j != i ==> stages[j] == old(stages)[j]
      ensures r.Ok? ==>
                && added != []
                && Holds(model, i, stages[i], input.session, context + added,
                         if input.phase.Prefill? then 1 else input.decodeStep + |added|)
                && r.value == OutputOnAdded(model, configs[i], context, added, input)
                && (input.phase.Prefill? ==> |added| + Max(0, input.maxTokens - 1) <= configs[i].contextSize)
      ensures r.Err? ==>
                || Disturbs(faults(|old(calls)|), input.session)
                || Refuses(configs[i], input.session in old(stages)[i], input.phase, |context|, |added|, input.maxTokens, r.error)
      ensures stages[i] - {input.session} == old(stages)[i] - faults(|old(calls)|).expired - {input.session}
      ensures r == Err(ReplyLost) <==> !faults(|old(calls)|).delivery.Delivered?
    {
      ghost var fault := faults(|calls|);
      ExecuteOnAdded(model, configs[i], stages[i] - fault.expired, context, added, input, fault.engine);
      r := InvokeExecute(i, input);
    }

    /** One pass of added tokens through every stage, after a context all stages hold. */
    method RunPass(session: SessionId, phase: Phase, decodeStep: int, maxTokens: int, payload: Payload,
                   ghost context: seq<Token>, ghost added: seq<Token>)
      returns (r: PassResult, stageCalls: nat, remoteCalls: nat)
      requires Valid()
      requires InputRows(model, configs[0], payload) == Some(TokenRows(added))
      requires if phase.Prefill? then decodeStep == 0 else decodeStep > 0
      requires phase.Prefill? ==> context == [] && payload.Text? && model.tokenize(payload.bytes) == added
      requires phase.Decode? ==> Lockstep(session, context, decodeStep) && DecodedTokens(payload) == |added|
      modifies this
      ensures Valid() && calls == old(calls) + ExecuteCalls(stageCalls) && stageCalls > 0
      ensures r.PassOk? ==>
                && Lockstep(session, context + added, if phase.Prefill? then 1 else decodeStep + |added|)
                && r.items == (if phase.Prefill? then [Item(model, Target(model, added))] else Targets(model, context, added))
                && r.promptIds == (if phase.Prefill? then added else [])
                && stageCalls == |configs| && remoteCalls == |configs| - 1
                && added != []
                && (phase.Prefill? ==> Room(|added| + Max(0, maxTokens - 1)))
      ensures r.PassFailed? ==>
                && r.stage < |configs| && stageCalls == r.stage + 1 && remoteCalls == r.stage
                && (r.error.ReplyLost? <==> !faults(|calls| - 1).delivery.Delivered?)
                && (forall j :: r.stage < j < |stages| ==> stages[j] == old(stages)[j])
                && (|| Disturbs(faults(|calls| - 1), session)
                    || Refuses(configs[r.stage], session in old(stages)[r.stage], phase, |context|, |added|, maxTokens, r.error))
      ensures Spared(old(stages), stages, session, calls, |old(calls)|, faults)
    {
      hide Spared, Disturbs, Refuses, Holds, Image, Target;
      var current := payload;
      var items: seq<SampledItem> := [];
      var promptIds: seq<Token> := [];
      ghost var before := calls;
      ghost var newStep := if phase.Prefill? then 1 else decodeStep + |added|;
      SparedStart(stages, session, calls, faults);
      stageCalls, remoteCalls := 0, 0;
      for i := 0 to |configs|
        invariant Valid() && stageCalls == i && remoteCalls == (if i == 0 then 0 else i - 1)
        invariant calls == before + ExecuteCalls(i) && Spared(old(stages), stages, session, calls, |before|, faults)
        invariant forall j :: 0 <= j < i ==> Holds(model, j, stages[j], session, context + added, newStep)
        invariant forall j :: i <= j < |stages| ==> stages[j] == old(stages)[j]
        invariant phase.Decode? ==> forall j :: i <= j < |stages| ==> Holds(model, j, stages[j], session, context, decodeStep)
        invariant i == 0 ==> current == payload
        invariant 0 < i < |configs| ==> current == Activation(AddedRows(model, i, context, added))
        invariant i > 0 ==> added != [] && promptIds == (if phase.Prefill? then added else [])
        invariant i == |configs| ==>
                    items == if phase.Prefill? then [Item(model, Target(model, added))] else Targets(model, context, added)
        invariant phase.Prefill? ==> forall j :: 0 <= j < i ==> |added| + Max(0, maxTokens - 1) <= configs[j].contextSize
      {
        var input := StageInput(session, configs[i].assignment, phase, decodeStep, maxTokens, current);
        if i == 0 {
          TokensEnterFirst(model, context, added);
        }
        ghost var held, made := stages, calls;
        var result := PassStage(i, input, context, added);
        SparedCall(old(stages), held, stages, session, made, |before|, faults, ExecuteCall(i));
        stageCalls := stageCalls + 1;
        if i != 0 {
          remoteCalls := remoteCalls + 1;
        }
        assert ExecuteCalls(i + 1) == ExecuteCalls(i) + [ExecuteCall(i)];
        if result.Err? {
          return PassFailed(i, result.error), stageCalls, remoteCalls;
        }
        if i == 0 {
          promptIds := result.value.promptIds;
        }
        if result.value.HiddenOutput? {
          current := Activation(result.value.rows);
        } else {
          items := result.value.items;
        }
      }
      r := PassOk(items, promptIds);
    }

    method InvokeRollback(i: nat, session: SessionId, count: int) returns (r: Result<()>)
      requires Valid() && i < |stages|
      modifies this
      ensures Valid() && calls == old(calls) + [RollbackCall(i, count)]
      ensures forall j :: 0 <= j < |stages| && j != i ==> stages[j] == old(stages)[j]
      ensures (stages[i], r) == RollbackReply(old(stages)[i], session, count, faults(|old(calls)|))
      ensures stages[i] - {session} == old(stages)[i] - faults(|old(calls)|).expired - {session}
    {
      var fault := faults(|calls|);
      RollbackSpares(stages[i] - fault.expired, session, count, fault.engine.EngineOk?);
      calls := calls + [RollbackCall(i, count)];
      var (after, result) := RollbackSerial(stages[i] - fault.expired, session, count, fault.engine.EngineOk?);
      stages := stages[i := if fault.delivery.RequestLost? then stages[i] - fault.expired else after];
      r := if fault.delivery.Delivered? then result else Err(ReplyLost);
    }

    /** Undo the last tokens on every stage; every stage is asked even after a failure. */
    method RollbackSessions(session: SessionId, count: int, ghost tokens: seq<Token>, ghost step: int)
      returns (firstError: Option<StageError>, stageCalls: nat, remoteCalls: nat)
      requires Valid()
      modifies this
      ensures Valid() && calls == old(calls) + RollbackCalls(|configs|, count)
      ensures stageCalls == |configs| && remoteCalls == |configs| - 1
      ensures old(Lockstep(session, tokens, step)) && 0 < count < step && count <= |tokens| ==>
                if firstError.None? then Lockstep(session, tokens[..|tokens| - count], step - count)
                else exists k :: |old(calls)| <= k < |calls| && Disturbs(faults(k), session)
      ensures Spared(old(stages), stages, session, calls, |old(calls)|, faults)
      ensures forall i :: 0 <= i < |stages| ==> stages[i] == RollbackReply(old(stages)[i], session, count, faults(|old(calls)| + i)).0
      ensures firstError == FirstRefusal(old(stages), |old(stages)|, session, count, faults, |old(calls)|)
    {
      hide Spared, RollbackReply, FirstRefusal, Holds, Disturbs;
      SparedStart(stages, session, calls, faults);
      FirstRefusalMeans(stages, 0, session, count, faults, |calls|);
      ghost var before := calls;
      firstError, stageCalls, remoteCalls := None, 0, 0;
      for i := 0 to |configs|
        invariant Valid() && stageCalls == i && remoteCalls == (if i == 0 then 0 else i - 1)
        invariant calls == before + RollbackCalls(i, count) && Spared(old(stages), stages, session, calls, |before|, faults)
        invariant forall j :: i <= j < |stages| ==> stages[j] == old(stages)[j]
        invariant forall j :: 0 <= j < i ==> stages[j] == RollbackReply(old(stages)[j], session, count, faults(|before| + j)).0
        invariant firstError == FirstRefusal(old(stages), i, session, count, faults, |before|)
      {
        ghost var table, made := stages, calls;
        var result := InvokeRollback(i, session, count);
        SparedCall(old(stages), table, stages, session, made, |before|, faults, RollbackCall(i, count));
        assert RollbackCalls(i + 1, count) == RollbackCalls(i, count) + [RollbackCall(i, count)];
        OneRefusal(old(stages), i, session, count, faults, |before|);
        stageCalls := stageCalls + 1;
        if i != 0 {
          remoteCalls := remoteCalls + 1;
        }
        if result.Err? && firstError.None? {
          firstError := Some(result.error);
        }
      }
      if old(Lockstep(session, tokens, step)) && 0 < count < step && count <= |tokens| {
        RollbackSettles(model, old(stages), stages, session, count, tokens, step, faults, |before|);
      }
    }

    /** Close the session on every stage; every stage is asked even after a failure. */
    method CloseSessions(session: SessionId) returns (firstError: Option<StageError>)
      requires Valid()
      modifies this
      ensures Valid() && calls == old(calls) + CloseCalls(|configs|)
      ensures firstError.None? ==> forall i :: 0 <= i < |stages| ==> session !in stages[i]
      ensures firstError.Some? ==> exists k :: |old(calls)| <= k < |calls| && Disturbs(faults(k), session)
      ensures firstError.None? <==> forall k :: |old(calls)| <= k < |calls| ==> faults(k).delivery.Delivered?
      ensures firstError.Some? ==> firstError.value.ReplyLost?
      ensures Spared(old(stages), stages, session, calls, |old(calls)|, faults)
      ensures forall i :: 0 <= i < |stages| ==>
                var fault := faults(|old(calls)| + i);
                session in stages[i] <==> session in old(stages)[i] && session !in fault.expired && fault.delivery.RequestLost?
    {
      hide Spared;
      SparedStart(stages, session, calls, faults);
      ghost var before := calls;
      firstError := None;
      for i := 0 to |configs|
        invariant Valid() && calls == before + CloseCalls(i) && Spared(old(stages), stages, session, calls, |before|, faults)
        invariant firstError.None? ==> forall j :: 0 <= j < i ==> session !in stages[j]
        invariant firstError.Some? ==> exists k :: |before| <= k < |calls| && Disturbs(faults(k), session)
        invariant firstError.None? <==> forall k :: |before| <= k < |calls| ==> faults(k).delivery.Delivered?
        invariant firstError.Some? ==> firstError.value.ReplyLost?
        invariant forall j :: i <= j < |stages| ==> stages[j] == old(stages)[j]
        invariant forall j :: 0 <= j < i ==>
                    var fault := faults(|before| + j);
                    session in stages[j] <==> session in old(stages)[j] && session !in fault.expired && fault.delivery.RequestLost?
      {
        ghost var table, made := stages, calls;
        var fault := faults(|calls|);
        calls := calls + [CloseCall(i)];
        assert CloseCalls(i + 1) == CloseCalls(i) + [CloseCall(i)];
        var pruned := stages[i] - fault.expired;
        stages := stages[i := if fault.delivery.RequestLost? then pruned else pruned - {session}];
        SparedCall(old(stages), table, stages, session, made, |before|, faults, CloseCall(i));
        if !fault.delivery.Delivered? && firstError.None? {
          firstError := Some(ReplyLost);
          assert Disturbs(faults(|calls| - 1), session);
        }
      }
    }
  }
}
