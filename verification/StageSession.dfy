/** One pipeline stage in serial mode: sessions, KV rows and the two position counters
    (runtime/adapters/llama_cpp_stage_adapter.cpp).

    A stage is an arbitrary causal function: the output row at a position depends on the input
    rows up to that position. The KV cache of a session is the sequence of rows decoded so far. */
module StageSession {
  import opened Bytes
  import opened Wrappers
  import opened Arithmetic

  type Token = nat
  type SessionId = string

  datatype Row = TokenRow(token: Token) | HiddenRow(values: seq<int>)

  datatype Phase = Prefill | Decode

  datatype Payload =
    | Text(bytes: ByteString)
    | Tokens(ids: seq<Token>)
    | SampledToken(id: Token)
    | Activation(rows: seq<Row>)

  /** Foreign code as functions: tokenizer, layer ranges of the stages but the last, greedy head
      of the last stage, end-of-generation test and token text. */
  datatype Model = Model(
    tokenize: ByteString -> seq<Token>,
    layers: seq<seq<Row> -> Row>,
    head: seq<Row> -> Token,
    isEnd: Token -> bool,
    piece: Token -> ByteString
  )

  datatype Assignment = Assignment(index: nat, count: nat, layerStart: int, layerEnd: int)

  datatype StageConfig = StageConfig(assignment: Assignment, contextSize: int, speculativeMax: int)

  datatype Session = Session(kv: seq<Row>, nextPosition: int, expectedDecodeStep: int)

  type Sessions = map<SessionId, Session>

  datatype StageInput = StageInput(
    session: SessionId,
    assignment: Assignment,
    phase: Phase,
    decodeStep: int,
    maxTokens: int,
    payload: Payload
  )

  datatype SampledItem = SampledItem(token: Token, text: ByteString, endOfGeneration: bool)

  datatype StageOutput =
    | HiddenOutput(rows: seq<Row>, promptIds: seq<Token>)
    | SampleOutput(items: seq<SampledItem>, promptIds: seq<Token>)

  datatype StageError =
    | AssignmentMismatch
    | DuplicateSession
    | SessionNotFound
    | DecodeStepMismatch
    | EmptyTokens
    | InvalidDecodeActivation
    | ContextExhausted
    | InvalidInput
    | DecodeFailed
    | OutputMissing
    | ExecutionFailed
    | RollbackCountInvalid
    | RollbackExceedsSuffix
    | RollbackRejected
    | ReplyLost

  datatype Result<+T> = Ok(value: T) | Err(error: StageError)

  /** What the engine does with a batch that passed every check of the adapter: it may throw before it
      has decoded, or later, while the output is read. */
  datatype EngineOutcome = EngineOk | EngineThrew | EngineDecodeFailed | EngineOutputMissing | EngineThrewLate

  // --- Causal stages ----------------------------------------------------------------------

  function TokenRows(ids: seq<Token>): seq<Row> {
    seq(|ids|, k requires 0 <= k < |ids| => TokenRow(ids[k]))
  }

  /** Output rows for new input rows decoded after the rows already in the cache. */
  function Forward(layer: seq<Row> -> Row, kv: seq<Row>, rows: seq<Row>): seq<Row> {
    seq(|rows|, k requires 0 <= k < |rows| => layer(kv + rows[..k + 1]))
  }

  function Item(model: Model, token: Token): SampledItem {
    SampledItem(token, if model.isEnd(token) then [] else model.piece(token), model.isEnd(token))
  }

  /** One sampled item per new row. */
  function SampleRows(model: Model, kv: seq<Row>, rows: seq<Row>): seq<SampledItem> {
    seq(|rows|, k requires 0 <= k < |rows| => Item(model, model.head(kv + rows[..k + 1])))
  }

  // --- One execution ----------------------------------------------------------------------

  predicate IsFirst(config: StageConfig) {
    config.assignment.count > 0 && config.assignment.index == 0
  }

  predicate IsLast(config: StageConfig) {
    config.assignment.index < config.assignment.count && config.assignment.index == config.assignment.count - 1
  }

  /** Rows of a payload; None where the adapter throws. */
  function InputRows(model: Model, config: StageConfig, payload: Payload): Option<seq<Row>> {
    if IsFirst(config) then
      match payload
      case Text(bytes) => Some(TokenRows(model.tokenize(bytes)))
      case Tokens(ids) => if ids == [] then None else Some(TokenRows(ids))
      case SampledToken(id) => Some([TokenRow(id)])
      case Activation(_) => None
    else
      match payload
      case Activation(rows) => if rows == [] then None else Some(rows)
      case _ => None
  }

  predicate Exhausted(config: StageConfig, nextPosition: int, count: int, input: StageInput) {
    var reserved := if input.phase.Prefill? then Max(0, input.maxTokens - 1) else 0;
    nextPosition + count + reserved > config.contextSize
  }

  function PromptIds(model: Model, config: StageConfig, input: StageInput): seq<Token> {
    if !IsFirst(config) || input.phase.Decode? then []
    else
      match input.payload
      case Text(bytes) => model.tokenize(bytes)
      case Tokens(ids) => ids
      case SampledToken(id) => [id]
      case Activation(_) => []
  }

  function OutputFor(model: Model, config: StageConfig, kv: seq<Row>, rows: seq<Row>, input: StageInput): StageOutput
    requires rows != []
  {
    var ids := PromptIds(model, config, input);
    if !IsLast(config) && config.assignment.index < |model.layers| then
      HiddenOutput(Forward(model.layers[config.assignment.index], kv, rows), ids)
    else if input.phase.Prefill? then
      SampleOutput([Item(model, model.head(kv + rows))], ids)
    else
      SampleOutput(SampleRows(model, kv, rows), ids)
  }

  function RunSerial(model: Model, config: StageConfig, session: Session, input: StageInput, engine: EngineOutcome)
    : (Session, Result<StageOutput>)
  {
    match InputRows(model, config, input.payload)
    case None => (session, Err(InvalidInput))
    case Some(rows) =>
      if rows == [] then (session, Err(EmptyTokens))
      else if !IsFirst(config) && input.phase.Decode? && |rows| > Max(1, config.speculativeMax + 1) then
        (session, Err(InvalidDecodeActivation))
      else if Exhausted(config, session.nextPosition, |rows|, input) then (session, Err(ContextExhausted))
      else if engine.EngineThrew? then (session, Err(ExecutionFailed))
      else if engine.EngineDecodeFailed? then (session, Err(DecodeFailed))
      else
        var advanced := session.(kv := session.kv + rows, nextPosition := session.nextPosition + |rows|);
        if engine.EngineOutputMissing? then (advanced, Err(OutputMissing))
        else if engine.EngineThrewLate? then (advanced, Err(ExecutionFailed))
        else (advanced, Ok(OutputFor(model, config, session.kv, rows, input)))
  }

  /** Step count credited to a decode, taken from the payload as the adapter does. */
  function DecodedTokens(payload: Payload): int {
    match payload
    case Activation(rows) => |rows|
    case Text(bytes) => |bytes| / 4
    case Tokens(ids) => |ids|
    case SampledToken(_) => 1
  }

  function ExecuteSerial(model: Model, config: StageConfig, sessions: Sessions, input: StageInput, engine: EngineOutcome)
    : (Sessions, Result<StageOutput>)
  {
    if input.assignment != config.assignment then (sessions, Err(AssignmentMismatch))
    else if input.phase.Prefill? then
      if input.session in sessions then (sessions, Err(DuplicateSession))
      else
        var (session, result) := RunSerial(model, config, Session([], 0, 1), input, engine);
        (if result.Ok? then sessions[input.session := session] else sessions, result)
    else if input.session !in sessions then (sessions, Err(SessionNotFound))
    else if input.decodeStep != sessions[input.session].expectedDecodeStep then (sessions, Err(DecodeStepMismatch))
    else
      var (session, result) := RunSerial(model, config, sessions[input.session], input, engine);
      var counted := if result.Ok? then
                       session.(expectedDecodeStep := session.expectedDecodeStep + DecodedTokens(input.payload))
                     else session;
      (sessions[input.session := counted], result)
  }

  function RollbackSerial(sessions: Sessions, id: SessionId, count: int, engineAccepts: bool): (Sessions, Result<()>)
  {
    if count <= 0 then (sessions, Err(RollbackCountInvalid))
    else if id !in sessions then (sessions, Err(SessionNotFound))
    else
      var session := sessions[id];
      if count > session.nextPosition || count >= session.expectedDecodeStep then
        (sessions, Err(RollbackExceedsSuffix))
      else if !engineAccepts then (sessions, Err(RollbackRejected))
      else
        var position := session.nextPosition - count;
        var kept := if position < |session.kv| then session.kv[..position] else session.kv;
        (sessions[id := Session(kept, position, session.expectedDecodeStep - count)], Ok(()))
  }

  // --- What a call needs and what it returns ------------------------------------------------

  /** Rows a payload stands for, whoever may send it. */
  function PayloadRows(model: Model, payload: Payload): seq<Row> {
    match payload
    case Text(bytes) => TokenRows(model.tokenize(bytes))
    case Tokens(ids) => TokenRows(ids)
    case SampledToken(id) => [TokenRow(id)]
    case Activation(rows) => rows
  }

  /** Nothing about the session table, the input or the size of the context stands in the way. Stage 0
      takes text and tokens, every other stage activations. */
  predicate Acceptable(model: Model, config: StageConfig, sessions: Sessions, input: StageInput) {
    var width := |PayloadRows(model, input.payload)|;
    && input.assignment == config.assignment
    && (input.phase.Prefill? <==> input.session !in sessions)
    && (input.phase.Decode? ==> input.decodeStep == sessions[input.session].expectedDecodeStep)
    && (input.payload.Activation? <==> config.assignment.index > 0 || config.assignment.count == 0)
    && width > 0
    && (input.phase.Decode? && input.payload.Activation? ==> width <= Max(1, config.speculativeMax + 1))
    && (if input.phase.Decode? then sessions[input.session].nextPosition else 0) + width <= config.contextSize
    && (input.phase.Prefill? ==> width + input.maxTokens - 1 <= config.contextSize)
  }

  /** Before the last stage a hidden row for each row; on the last a sample for each row of a decode and one
      for a prefill. A sample carries the text of its token, and an end token none. The ids of a prompt are
      reported by the stage that reads it. */
  predicate Spelled(model: Model, config: StageConfig, input: StageInput, output: StageOutput) {
    && (output.HiddenOutput? <==> config.assignment.index + 1 != config.assignment.count && config.assignment.index < |model.layers|)
    && TokenRows(output.promptIds) ==
       (if input.phase.Prefill? && !input.payload.Activation? then PayloadRows(model, input.payload) else [])
    && var width := |PayloadRows(model, input.payload)|;
       if output.HiddenOutput? then |output.rows| == width
       else
         && |output.items| == (if input.phase.Prefill? then 1 else width)
         && forall k :: 0 <= k < |output.items| ==>
              var item := output.items[k];
              if model.isEnd(item.token) then item.endOfGeneration && item.text == []
              else !item.endOfGeneration && item.text == model.piece(item.token)
  }

  lemma OutputSpelled(model: Model, config: StageConfig, kv: seq<Row>, rows: seq<Row>, input: StageInput)
    requires InputRows(model, config, input.payload) == Some(rows) && rows != []
    ensures Spelled(model, config, input, OutputFor(model, config, kv, rows, input))
  {
    var items := SampleRows(model, kv, rows);
    assert forall k :: 0 <= k < |items| ==> items[k] == Item(model, model.head(kv + rows[..k + 1]));
  }

  /** Why rows that would come at a position are not decoded, or their output not given, in the order of the
      checks: unreadable input, no rows, too wide a decode, no room, and then the engine. */
  predicate RunFails(model: Model, config: StageConfig, position: int, input: StageInput, engine: EngineOutcome, error: StageError) {
    var width := |PayloadRows(model, input.payload)|;
    var later := config.assignment.index > 0 || config.assignment.count == 0;
    var readable := (input.payload.Activation? <==> later) && (width > 0 || input.payload.Text?);
    var wide := input.phase.Decode? && later && width > Max(1, config.speculativeMax + 1);
    var full := position + width + (if input.phase.Prefill? then Max(0, input.maxTokens - 1) else 0) > config.contextSize;
    var fits := readable && width > 0 && !wide && !full;
    match error
    case InvalidInput => !readable
    case EmptyTokens => readable && width == 0
    case InvalidDecodeActivation => readable && width > 0 && wide
    case ContextExhausted => readable && width > 0 && !wide && full
    case ExecutionFailed => fits && (engine.EngineThrew? || engine.EngineThrewLate?)
    case DecodeFailed => fits && engine.EngineDecodeFailed?
    case OutputMissing => fits && engine.EngineOutputMissing?
    case _ => false
  }

  /** Why an execute call fails: the wrong assignment, then the session and its step, then the run. */
  predicate CallFails(model: Model, config: StageConfig, sessions: Sessions, input: StageInput, engine: EngineOutcome, error: StageError) {
    if input.assignment != config.assignment then error.AssignmentMismatch?
    else if input.phase.Prefill? then
      if input.session in sessions then error.DuplicateSession? else RunFails(model, config, 0, input, engine, error)
    else if input.session !in sessions then error.SessionNotFound?
    else if input.decodeStep != sessions[input.session].expectedDecodeStep then error.DecodeStepMismatch?
    else RunFails(model, config, sessions[input.session].nextPosition, input, engine, error)
  }

  // --- The adapter ------------------------------------------------------------------------

  /** Session table of one stage. Expired sessions, engine outcomes and engine refusals of a
      rollback are inputs; pruning may remove any set of sessions. */
  class SerialStage {
    const model: Model
    const config: StageConfig
    var sessions: Sessions

    constructor (model: Model, config: StageConfig)
      ensures this.model == model && this.config == config && sessions == map[]
    {
      this.model, this.config := model, config;
      sessions := map[];
    }

    method Prune(expired: set<SessionId>)
      modifies this
      ensures sessions == old(sessions) - expired
    {
      sessions := sessions - expired;
    }

    method Execute(input: StageInput, expired: set<SessionId>, engine: EngineOutcome) returns (r: Result<StageOutput>)
      modifies this
      ensures (sessions, r) == ExecuteSerial(model, config, old(sessions) - expired, input, engine)
      ensures r.Ok? <==> Acceptable(model, config, old(sessions) - expired, input) && engine.EngineOk?
      ensures r.Ok? ==> Spelled(model, config, input, r.value)
      ensures forall id :: id != input.session ==>
                (id in sessions <==> id in old(sessions) && id !in expired) && (id in sessions ==> sessions[id] == old(sessions)[id])
      ensures r.Err? ==> CallFails(model, config, old(sessions) - expired, input, engine, r.error)
      ensures r.Ok? && input.phase.Prefill? ==>
                var rows := PayloadRows(model, input.payload);
                input.session in sessions && sessions[input.session] == Session(rows, |rows|, 1)
      ensures r.Ok? && input.phase.Decode? ==>
                var rows := PayloadRows(model, input.payload);
                && input.session in old(sessions) && input.session in sessions
                && var before := old(sessions)[input.session];
                   && before.expectedDecodeStep == input.decodeStep
                   && sessions[input.session] == Session(before.kv + rows, before.nextPosition + |rows|,
                                                         input.decodeStep + if input.payload.Text? then |input.payload.bytes| / 4 else |rows|)
      ensures r.Err? && input.phase.Prefill? ==> sessions == old(sessions) - expired
      ensures r.Err? && input.phase.Decode? && input.session in sessions ==>
                && input.session in old(sessions)
                && sessions[input.session].expectedDecodeStep == old(sessions)[input.session].expectedDecodeStep
                && (!r.error.OutputMissing? && !engine.EngineThrewLate? ==> sessions == old(sessions) - expired)
    {
      Prune(expired);
      if input.assignment != config.assignment {
        return Err(AssignmentMismatch);
      }
      if input.phase.Prefill? {
        if input.session in sessions {
          return Err(DuplicateSession);
        }
        var session, result := RunOn(Session([], 0, 1), input, engine);
        if result.Ok? {
          sessions := sessions[input.session := session];
        }
        return result;
      }
      if input.session !in sessions {
        return Err(SessionNotFound);
      }
      if input.decodeStep != sessions[input.session].expectedDecodeStep {
        return Err(DecodeStepMismatch);
      }
      var session, result := RunOn(sessions[input.session], input, engine);
      if result.Ok? {
        session := session.(expectedDecodeStep := session.expectedDecodeStep + DecodedTokens(input.payload));
      }
      sessions := sessions[input.session := session];
      r := result;
    }

    method RunOn(session: Session, input: StageInput, engine: EngineOutcome) returns (next: Session, r: Result<StageOutput>)
      ensures (next, r) == RunSerial(model, config, session, input, engine)
      ensures next.expectedDecodeStep == session.expectedDecodeStep
      ensures r.Ok? || r.error.OutputMissing? || (r.error.ExecutionFailed? && engine.EngineThrewLate?) ==>
                && var rows := PayloadRows(model, input.payload);
                   && rows != [] && next.kv == session.kv + rows && next.nextPosition == session.nextPosition + |rows|
                   && next.nextPosition <= config.contextSize
      ensures r.Err? && !r.error.OutputMissing? && !engine.EngineThrewLate? ==> next == session
      ensures r.Ok? ==> engine.EngineOk? && Spelled(model, config, input, r.value)
      ensures r.Err? ==> RunFails(model, config, session.nextPosition, input, engine, r.error)
    {
      next := session;
      var rows := InputRows(model, config, input.payload);
      if rows.None? {
        return next, Err(InvalidInput);
      }
      if rows.value == [] {
        return next, Err(EmptyTokens);
      }
      if !IsFirst(config) && input.phase.Decode? && |rows.value| > Max(1, config.speculativeMax + 1) {
        return next, Err(InvalidDecodeActivation);
      }
      if Exhausted(config, next.nextPosition, |rows.value|, input) {
        return next, Err(ContextExhausted);
      }
      if engine.EngineThrew? {
        return next, Err(ExecutionFailed);
      }
      if engine.EngineDecodeFailed? {
        return next, Err(DecodeFailed);
      }
      next := next.(kv := next.kv + rows.value, nextPosition := next.nextPosition + |rows.value|);
      if engine.EngineOutputMissing? {
        return next, Err(OutputMissing);
      }
      if engine.EngineThrewLate? {
        return next, Err(ExecutionFailed);
      }
      OutputSpelled(model, config, session.kv, rows.value, input);
      r := Ok(OutputFor(model, config, session.kv, rows.value, input));
    }

    method RollbackSession(id: SessionId, count: int, engineAccepts: bool) returns (r: Result<()>)
      modifies this
      ensures (sessions, r) == RollbackSerial(old(sessions), id, count, engineAccepts)
      ensures r.Ok? <==> && id in old(sessions) && engineAccepts
                         && 0 < count <= old(sessions)[id].nextPosition && count < old(sessions)[id].expectedDecodeStep
      ensures r.Err? ==> sessions == old(sessions)
      ensures r.Err? ==>
                match r.error
                case RollbackCountInvalid => count <= 0
                case SessionNotFound => count > 0 && id !in sessions
                case RollbackExceedsSuffix => && count > 0 && id in sessions
                                              && (count > sessions[id].nextPosition || count >= sessions[id].expectedDecodeStep)
                case RollbackRejected => && id in sessions && 0 < count <= sessions[id].nextPosition
                                         && count < sessions[id].expectedDecodeStep && !engineAccepts
                case _ => false
      ensures r.Ok? ==>
                && id in sessions && sessions[id].nextPosition == old(sessions)[id].nextPosition - count
                && sessions[id].expectedDecodeStep == old(sessions)[id].expectedDecodeStep - count
                && (|old(sessions)[id].kv| == old(sessions)[id].nextPosition ==>
                      sessions[id].kv == old(sessions)[id].kv[..|old(sessions)[id].kv| - count])
      ensures r.Ok? ==> sessions.Keys == old(sessions).Keys && forall other :: other in sessions && other != id ==> sessions[other] == old(sessions)[other]
    {
      if count <= 0 {
        return Err(RollbackCountInvalid);
      }
      if id !in sessions {
        return Err(SessionNotFound);
      }
      var session := sessions[id];
      if count > session.nextPosition || count >= session.expectedDecodeStep {
        return Err(RollbackExceedsSuffix);
      }
      if !engineAccepts {
        return Err(RollbackRejected);
      }
      var position := session.nextPosition - count;
      var kept := if position < |session.kv| then session.kv[..position] else session.kv;
      sessions := sessions[id := Session(kept, position, session.expectedDecodeStep - count)];
      r := Ok(());
    }

    method CloseSession(id: SessionId)
      modifies this
      ensures sessions == old(sessions) - {id}
    {
      sessions := sessions - {id};
    }
  }

  // --- What every history of calls keeps ----------------------------------------------------

  datatype Operation =
    | ExecuteOp(input: StageInput, engine: EngineOutcome)
    | RollbackOp(id: SessionId, count: int, engineAccepts: bool)
    | CloseOp(id: SessionId)
    | PruneOp(expired: set<SessionId>)

  function Apply(model: Model, config: StageConfig, sessions: Sessions, op: Operation): Sessions {
    match op
    case ExecuteOp(input, engine) => ExecuteSerial(model, config, sessions, input, engine).0
    case RollbackOp(id, count, engineAccepts) => RollbackSerial(sessions, id, count, engineAccepts).0
    case CloseOp(id) => sessions - {id}
    case PruneOp(expired) => sessions - expired
  }

  /** Sessions after a history of calls, starting from an empty table. */
  function Replay(model: Model, config: StageConfig, ops: seq<Operation>): Sessions {
    if ops == [] then map[]
    else Apply(model, config, Replay(model, config, ops[..|ops| - 1]), ops[|ops| - 1])
  }

  /** Rows each live session was prefilled with, tracked beside the table. */
  function ReplayPrompts(model: Model, config: StageConfig, ops: seq<Operation>): map<SessionId, seq<Row>> {
    if ops == [] then map[]
    else
      var before := Replay(model, config, ops[..|ops| - 1]);
      var after := Replay(model, config, ops);
      var prompts := ReplayPrompts(model, config, ops[..|ops| - 1]);
      map id | id in after :: if id in before && id in prompts then prompts[id] else after[id].kv
  }

  /** Input kinds that inference::is_allowed_input permits; the adapter itself does not ask. */
  predicate AllowedInput(config: StageConfig, input: StageInput) {
    if !IsFirst(config) then input.payload.Activation?
    else if input.phase.Prefill? then input.payload.Text? || input.payload.Tokens?
    else input.payload.SampledToken? || input.payload.Tokens?
  }

  /** Of what a stage would accept, that forbids text in a decode and a sampled token in a prefill. */
  lemma AllowedMeans(model: Model, config: StageConfig, sessions: Sessions, input: StageInput)
    requires Acceptable(model, config, sessions, input)
    ensures AllowedInput(config, input) <==>
            !(input.phase.Decode? && input.payload.Text?) && !(input.phase.Prefill? && input.payload.SampledToken?)
  {
  }

  predicate AllowedOp(config: StageConfig, op: Operation) {
    op.ExecuteOp? ==> AllowedInput(config, op.input)
  }

  /** The prompt is still in the cache and the decoded suffix covers the steps that can be undone. */
  predicate Covers(session: Session, prompt: seq<Row>) {
    && |session.kv| == session.nextPosition
    && session.expectedDecodeStep >= 1
    && |prompt| + session.expectedDecodeStep - 1 <= session.nextPosition
    && prompt <= session.kv
  }

  lemma RunCovers(model: Model, config: StageConfig, session: Session, prompt: seq<Row>, input: StageInput, engine: EngineOutcome)
    requires Covers(session, prompt)
    requires AllowedInput(config, input) && input.phase.Decode?
    ensures var (next, r) := RunSerial(model, config, session, input, engine);
            var step := if r.Ok? then DecodedTokens(input.payload) else 0;
            Covers(next.(expectedDecodeStep := next.expectedDecodeStep + step), prompt)
  {
  }

  ghost predicate AllCover(sessions: Sessions, prompts: map<SessionId, seq<Row>>) {
    sessions.Keys == prompts.Keys && forall id :: id in sessions ==> Covers(sessions[id], prompts[id])
  }

  /** One step: surviving sessions keep their prompt, a new session holds exactly its prompt. */
  lemma ApplyCovers(model: Model, config: StageConfig, before: Sessions, prompts: map<SessionId, seq<Row>>, op: Operation)
    requires AllCover(before, prompts) && AllowedOp(config, op)
    ensures forall id :: id in Apply(model, config, before, op) ==>
              var after := Apply(model, config, before, op)[id];
              Covers(after, if id in before then prompts[id] else after.kv)
  {
    if op.ExecuteOp? && op.input.phase.Decode? && op.input.session in before {
      RunCovers(model, config, before[op.input.session], prompts[op.input.session], op.input, op.engine);
    }
  }

  /** Over every history with allowed input kinds, each live session keeps its prompt and
      next_position >= prompt length + expected_decode_step - 1. */
  lemma {:induction false} HistoryKeepsPrompt(model: Model, config: StageConfig, ops: seq<Operation>)
    requires forall op :: op in ops ==> AllowedOp(config, op)
    ensures AllCover(Replay(model, config, ops), ReplayPrompts(model, config, ops))
  {
    if ops != [] {
      var init, last := ops[..|ops| - 1], ops[|ops| - 1];
      HistoryKeepsPrompt(model, config, init);
      assert last in ops;
      ApplyCovers(model, config, Replay(model, config, init), ReplayPrompts(model, config, init), last);
    }
  }

  /** Rows that a decode call has put into the cache without giving their output: the engine decoded them,
      and then the output was missing or reading it threw. */
  function LostBy(model: Model, config: StageConfig, sessions: Sessions, op: Operation, id: SessionId): nat {
    if op.ExecuteOp? && op.input.session == id && op.input.phase.Decode?
       && Acceptable(model, config, sessions, op.input) && (op.engine.EngineOutputMissing? || op.engine.EngineThrewLate?)
    then |PayloadRows(model, op.input.payload)|
    else 0
  }

  /** Such rows of each live session since its prefill. */
  function ReplayLost(model: Model, config: StageConfig, ops: seq<Operation>): map<SessionId, nat> {
    if ops == [] then map[]
    else
      var init, last := ops[..|ops| - 1], ops[|ops| - 1];
      var before, lost := Replay(model, config, init), ReplayLost(model, config, init);
      map id | id in Replay(model, config, ops) ::
        if id in before && id in lost then lost[id] + LostBy(model, config, before, last, id) else 0
  }

  /** How far the cache is ahead of prompt and counted steps. */
  function Ahead(session: Session, prompt: seq<Row>): int {
    session.nextPosition - (|prompt| + session.expectedDecodeStep - 1)
  }

  /** One call moves a session ahead by exactly the rows whose output it lost; a rollback by nothing. */
  lemma ApplyLost(model: Model, config: StageConfig, before: Sessions, prompts: map<SessionId, seq<Row>>, op: Operation)
    requires AllCover(before, prompts) && AllowedOp(config, op)
    ensures forall id :: id in Apply(model, config, before, op) ==>
              var after := Apply(model, config, before, op)[id];
              if id in before then Ahead(after, prompts[id]) == Ahead(before[id], prompts[id]) + LostBy(model, config, before, op, id)
              else Ahead(after, after.kv) == 0
  {
  }

  /** Over every history the cache of a live session is ahead of its counted steps by exactly the rows whose
      output was lost; so position and step agree just when no output was lost. */
  lemma {:induction false} HistoryLost(model: Model, config: StageConfig, ops: seq<Operation>)
    requires forall op :: op in ops ==> AllowedOp(config, op)
    ensures ReplayLost(model, config, ops).Keys == Replay(model, config, ops).Keys == ReplayPrompts(model, config, ops).Keys
    ensures forall id :: id in Replay(model, config, ops) ==>
              Ahead(Replay(model, config, ops)[id], ReplayPrompts(model, config, ops)[id]) == ReplayLost(model, config, ops)[id]
  {
    if ops != [] {
      hide Apply, LostBy, AllowedOp;
      var init, last := ops[..|ops| - 1], ops[|ops| - 1];
      HistoryLost(model, config, init);
      HistoryKeepsPrompt(model, config, init);
      assert last in ops;
      ApplyLost(model, config, Replay(model, config, init), ReplayPrompts(model, config, init), last);
    }
  }

  /** So no accepted rollback removes a prompt position: the cache afterwards still starts with the prompt. */
  lemma RollbackSparesPrompt(model: Model, config: StageConfig, ops: seq<Operation>, id: SessionId, count: int, engineAccepts: bool)
    requires forall op :: op in ops ==> AllowedOp(config, op)
    requires RollbackSerial(Replay(model, config, ops), id, count, engineAccepts).1.Ok?
    ensures var (after, _) := RollbackSerial(Replay(model, config, ops), id, count, engineAccepts);
            var before := Replay(model, config, ops);
            && after.Keys == before.Keys && count <= |before[id].kv|
            && after[id].kv == before[id].kv[..|before[id].kv| - count]
            && id in ReplayPrompts(model, config, ops)
            && ReplayPrompts(model, config, ops)[id] <= after[id].kv
  {
    HistoryKeepsPrompt(model, config, ops);
  }

  /** A text payload in decode is accepted by the adapter and credited by its byte count: coverage survives
      exactly when the tokens of the text, with what the session is ahead, reach that credit. */
  lemma TextDecodeCovers(model: Model, config: StageConfig, sessions: Sessions, prompt: seq<Row>, input: StageInput)
    requires IsFirst(config) && input.phase.Decode? && input.payload.Text? && input.session in sessions
    requires Covers(sessions[input.session], prompt)
    requires ExecuteSerial(model, config, sessions, input, EngineOk).1.Ok?
    ensures var (after, _) := ExecuteSerial(model, config, sessions, input, EngineOk);
            var session := sessions[input.session];
            Covers(after[input.session], prompt) <==>
            session.nextPosition + |model.tokenize(input.payload.bytes)| >=
            |prompt| + session.expectedDecodeStep + |input.payload.bytes| / 4 - 1
  {
  }

  /** A tokenizer that makes one token of any text. */
  const ONE_TOKEN := Model(_ => [0], [], _ => 0, _ => false, _ => [])

  const ONE_STAGE := StageConfig(Assignment(0, 1, 0, 1), 2, 0)

  /** One token of prompt, then eight bytes of text that are one token but credited as two. */
  const TEXT_DECODE := [
    ExecuteOp(StageInput("s", ONE_STAGE.assignment, Prefill, 0, 1, Text([])), EngineOk),
    ExecuteOp(StageInput("s", ONE_STAGE.assignment, Decode, 1, 1, Text([0, 0, 0, 0, 0, 0, 0, 0])), EngineOk)]

  /** Coverage really breaks: after that history a rollback of two is accepted and takes the prompt away. */
  lemma TextDecodeLosesPrompt()
    ensures var after := Replay(ONE_TOKEN, ONE_STAGE, TEXT_DECODE);
            var prompts := ReplayPrompts(ONE_TOKEN, ONE_STAGE, TEXT_DECODE);
            var (cut, r) := RollbackSerial(after, "s", 2, true);
            && !AllCover(after, prompts) && "s" in prompts && prompts["s"] == [TokenRow(0)]
            && r.Ok? && "s" in cut && cut["s"].kv == []
  {
    var first := TEXT_DECODE[..1];
    assert ONE_TOKEN.tokenize([]) == [0] && ONE_TOKEN.tokenize([0, 0, 0, 0, 0, 0, 0, 0]) == [0];
    assert TokenRows([0]) == [TokenRow(0)];
    var before := map["s" := Session([TokenRow(0)], 1, 1)];
    assert first[..0] == [] && first[0] == TEXT_DECODE[0];
    assert Replay(ONE_TOKEN, ONE_STAGE, first) == before by {
      assert [] + [TokenRow(0)] == [TokenRow(0)];
      assert RunSerial(ONE_TOKEN, ONE_STAGE, Session([], 0, 1), first[0].input, EngineOk).0 == before["s"];
    }
    var after := Replay(ONE_TOKEN, ONE_STAGE, TEXT_DECODE);
    assert TEXT_DECODE[..|TEXT_DECODE| - 1] == first;
    var decoded := RunSerial(ONE_TOKEN, ONE_STAGE, before["s"], TEXT_DECODE[1].input, EngineOk);
    assert decoded.1.Ok? && decoded.0 == Session([TokenRow(0), TokenRow(0)], 2, 1);
    assert after == map["s" := Session([TokenRow(0), TokenRow(0)], 2, 3)];
    assert ReplayPrompts(ONE_TOKEN, ONE_STAGE, first)["s"] == [TokenRow(0)];
  }
}
