/** Decoding several sessions in one engine batch on a shared context
    (runtime/adapters/llama_cpp_stage_adapter.cpp:703-823): each live session owns a slot of the
    engine memory, and one engine call carries one row for every accepted session. */
module SharedDecode {
  import opened StageSession
  import opened Wrappers

  datatype SharedSession = SharedSession(slot: nat, nextPosition: int, expectedDecodeStep: int)

  /** Rows the engine holds for one slot, by position. A position holds more than one row when a row was
      stored there but its output never read, and the position was decoded again. */
  type Cells = seq<seq<Row>>

  /** Session table, slot marks and the engine memory of every slot. */
  datatype Shared = Shared(sessions: map<SessionId, SharedSession>, marked: seq<bool>, memory: map<nat, Cells>)

  datatype SharedError =
    | StageProblem(error: StageError)
    | DuplicateBatchSession
    | BatchTooLarge
    | CapacityExceeded

  datatype SharedResult = SharedOk(output: StageOutput) | SharedErr(error: SharedError)

  /** The engine call of a batch and, if it succeeds, what reading back each row does. */
  datatype CallOutcome = CallOk | CallFailed | CallThrew

  datatype RowOutcome = RowOk | RowMissing | RowThrew

  datatype BatchEngine = BatchEngine(call: CallOutcome, rows: nat -> RowOutcome)

  // --- Engine memory -------------------------------------------------------------------------

  /** All rows of a slot in the order of their positions. */
  function Flat(cells: Cells): seq<Row> {
    if cells == [] then [] else Flat(cells[..|cells| - 1]) + cells[|cells| - 1]
  }

  /** Storing a row keeps what the position already holds. */
  function Put(cells: Cells, position: int, row: Row): Cells {
    if 0 <= position < |cells| then cells[position := cells[position] + [row]] else cells + [[row]]
  }

  function CellsOf(memory: map<nat, Cells>, slot: nat): Cells {
    if slot in memory then memory[slot] else []
  }

  // --- One input -----------------------------------------------------------------------------

  /** The single row of a decode payload; None where reading it throws. */
  function DecodeRow(config: StageConfig, payload: Payload): Option<Row> {
    match payload
    case SampledToken(id) => if IsFirst(config) then Some(TokenRow(id)) else None
    case Tokens(ids) => if IsFirst(config) && |ids| == 1 then Some(TokenRow(ids[0])) else None
    case Activation(rows) => if !IsFirst(config) && |rows| == 1 then Some(rows[0]) else None
    case Text(_) => None
  }

  predicate Readable(config: StageConfig, input: StageInput) {
    DecodeRow(config, input.payload).Some?
  }

  /** The input reaches the point where its slot is entered in the set of this batch. */
  predicate Claims(config: StageConfig, st: Shared, input: StageInput) {
    && input.assignment == config.assignment
    && input.session in st.sessions
    && input.decodeStep == st.sessions[input.session].expectedDecodeStep
  }

  /** Why an input is left out, given the slots claimed by earlier inputs of the batch. */
  function Refusal(config: StageConfig, st: Shared, claimed: set<nat>, input: StageInput): Option<SharedError> {
    if input.assignment != config.assignment then Some(StageProblem(AssignmentMismatch))
    else if input.session !in st.sessions then Some(StageProblem(SessionNotFound))
    else
      var session := st.sessions[input.session];
      if input.decodeStep != session.expectedDecodeStep then Some(StageProblem(DecodeStepMismatch))
      else if session.slot in claimed then Some(DuplicateBatchSession)
      else if Exhausted(config, session.nextPosition, 1, input) then Some(StageProblem(ContextExhausted))
      else None
  }

  /** Output read back for an accepted row: a function of the memory of its own slot. */
  function RowOutput(model: Model, config: StageConfig, st: Shared, input: StageInput): StageOutput
    requires input.session in st.sessions && Readable(config, input)
  {
    OutputFor(model, config, Flat(CellsOf(st.memory, st.sessions[input.session].slot)), [DecodeRow(config, input.payload).value], input)
  }

  /** Engine memory after the row of an accepted input was decoded. */
  function Store(config: StageConfig, sessions: map<SessionId, SharedSession>, memory: map<nat, Cells>, input: StageInput): map<nat, Cells>
    requires input.session in sessions && Readable(config, input)
  {
    var session := sessions[input.session];
    memory[session.slot := Put(CellsOf(memory, session.slot), session.nextPosition, DecodeRow(config, input.payload).value)]
  }

  /** Counters after the output of an accepted input was read. */
  function Count(sessions: map<SessionId, SharedSession>, input: StageInput): map<SessionId, SharedSession>
    requires input.session in sessions
  {
    var session := sessions[input.session];
    sessions[input.session :=
      session.(nextPosition := session.nextPosition + 1, expectedDecodeStep := session.expectedDecodeStep + 1)]
  }

  // --- A batch -------------------------------------------------------------------------------

  function Claimed(config: StageConfig, st: Shared, inputs: seq<StageInput>): set<nat> {
    if inputs == [] then {}
    else
      var last := inputs[|inputs| - 1];
      var before := Claimed(config, st, inputs[..|inputs| - 1]);
      if Claims(config, st, last) then before + {st.sessions[last.session].slot} else before
  }

  function Verdict(config: StageConfig, st: Shared, inputs: seq<StageInput>, i: nat): Option<SharedError>
    requires i < |inputs|
  {
    Refusal(config, st, Claimed(config, st, inputs[..i]), inputs[i])
  }

  lemma {:induction false} ClaimedHas(config: StageConfig, st: Shared, inputs: seq<StageInput>, k: nat)
    requires k < |inputs| && Claims(config, st, inputs[k])
    ensures st.sessions[inputs[k].session].slot in Claimed(config, st, inputs)
    decreases |inputs|
  {
    if k < |inputs| - 1 {
      ClaimedHas(config, st, inputs[..|inputs| - 1], k);
    }
  }

  /** A session that an earlier input of the batch names with the right step is refused as a duplicate, even
      if the earlier one is left out for lack of room. */
  lemma SecondRefused(config: StageConfig, st: Shared, inputs: seq<StageInput>, i: nat, j: nat)
    requires i < j < |inputs| && inputs[i].session == inputs[j].session && inputs[j].session in st.sessions
    requires inputs[i].assignment == inputs[j].assignment == config.assignment
    requires inputs[i].decodeStep == inputs[j].decodeStep == st.sessions[inputs[j].session].expectedDecodeStep
    ensures Verdict(config, st, inputs, j) == Some(DuplicateBatchSession)
  {
    ClaimedHas(config, st, inputs[..j], i);
  }

  /** Positions below n whose input is accepted, in order. */
  function Valid(config: StageConfig, st: Shared, inputs: seq<StageInput>, n: nat): (valid: seq<nat>)
    requires n <= |inputs|
    ensures forall k :: 0 <= k < |valid| ==> valid[k] < n && Verdict(config, st, inputs, valid[k]).None?
    ensures forall i :: 0 <= i < n && Verdict(config, st, inputs, i).None? ==> i in valid
    ensures forall k, l :: 0 <= k < l < |valid| ==> valid[k] < valid[l]
  {
    if n == 0 then []
    else
      var before := Valid(config, st, inputs, n - 1);
      if Verdict(config, st, inputs, n - 1).None? then before + [n - 1] else before
  }

  /** The accepted inputs have live sessions and one readable row each. */
  predicate Usable(config: StageConfig, sessions: map<SessionId, SharedSession>, inputs: seq<StageInput>, valid: seq<nat>) {
    forall k :: 0 <= k < |valid| ==>
      valid[k] < |inputs| && inputs[valid[k]].session in sessions && Readable(config, inputs[valid[k]])
  }

  /** The engine call stores the row of every accepted input. */
  function StoreAll(config: StageConfig, sessions: map<SessionId, SharedSession>, memory: map<nat, Cells>, inputs: seq<StageInput>, valid: seq<nat>)
    : map<nat, Cells>
    requires Usable(config, sessions, inputs, valid)
  {
    if valid == [] then memory
    else Store(config, sessions, StoreAll(config, sessions, memory, inputs, valid[..|valid| - 1]), inputs[valid[|valid| - 1]])
  }

  /** Reading back advances the counters of the rows that have an output. */
  function CountAll(config: StageConfig, sessions: map<SessionId, SharedSession>, inputs: seq<StageInput>, valid: seq<nat>, engine: BatchEngine)
    : (after: map<SessionId, SharedSession>)
    requires Usable(config, sessions, inputs, valid)
    ensures after.Keys == sessions.Keys
  {
    if valid == [] then sessions
    else
      var before := CountAll(config, sessions, inputs, valid[..|valid| - 1], engine);
      if engine.rows(valid[|valid| - 1]).RowOk? then Count(before, inputs[valid[|valid| - 1]]) else before
  }

  /** Number of rows read back before one throws. */
  function RowsReached(valid: seq<nat>, engine: BatchEngine): (n: nat)
    ensures n <= |valid|
    ensures forall k :: 0 <= k < n ==> !engine.rows(valid[k]).RowThrew?
    ensures n < |valid| ==> engine.rows(valid[n]).RowThrew?
  {
    if valid == [] || engine.rows(valid[0]).RowThrew? then 0
    else
      var rest := RowsReached(valid[1..], engine);
      assert forall k :: 1 <= k < |valid| ==> valid[k] == valid[1..][k - 1];
      rest + 1
  }

  /** What an accepted input gets. */
  function RowResult(model: Model, config: StageConfig, st: Shared, inputs: seq<StageInput>, valid: seq<nat>, engine: BatchEngine, i: nat)
    : SharedResult
    requires i in valid && i < |inputs|
  {
    if !Usable(config, st.sessions, inputs, valid) then SharedErr(StageProblem(InvalidInput))
    else if engine.call.CallFailed? then SharedErr(StageProblem(DecodeFailed))
    else if engine.call.CallThrew? || RowsReached(valid, engine) < |valid| then SharedErr(StageProblem(ExecutionFailed))
    else if engine.rows(i).RowMissing? then SharedErr(StageProblem(OutputMissing))
    else SharedOk(RowOutput(model, config, st, inputs[i]))
  }

  function BatchState(config: StageConfig, st: Shared, inputs: seq<StageInput>, valid: seq<nat>, engine: BatchEngine): Shared {
    if Usable(config, st.sessions, inputs, valid) && engine.call.CallOk? then
      st.(sessions := CountAll(config, st.sessions, inputs, valid[..RowsReached(valid, engine)], engine),
          memory := StoreAll(config, st.sessions, st.memory, inputs, valid))
    else st
  }

  function DecodeBatch(model: Model, config: StageConfig, limit: nat, st: Shared, inputs: seq<StageInput>, engine: BatchEngine)
    : (r: (Shared, seq<SharedResult>))
    ensures |r.1| == |inputs|
  {
    var valid := Valid(config, st, inputs, |inputs|);
    if |valid| > limit then (st, seq(|inputs|, i => SharedErr(BatchTooLarge)))
    else
      (BatchState(config, st, inputs, valid, engine),
       seq(|inputs|, i requires 0 <= i < |inputs| =>
         match Verdict(config, st, inputs, i)
         case Some(e) => SharedErr(e)
         case None => RowResult(model, config, st, inputs, valid, engine, i)))
  }

  /** Some accepted input of the batch cannot be read. */
  ghost predicate Spoilt(config: StageConfig, st: Shared, inputs: seq<StageInput>) {
    exists k: nat :: k < |inputs| && Verdict(config, st, inputs, k).None? && !Readable(config, inputs[k])
  }

  /** The engine call throws, or reading back the row of some accepted input does. */
  ghost predicate Throws(config: StageConfig, st: Shared, inputs: seq<StageInput>, engine: BatchEngine) {
    engine.call.CallThrew? || exists k: nat :: k < |inputs| && Verdict(config, st, inputs, k).None? && engine.rows(k).RowThrew?
  }

  lemma ValidFacts(config: StageConfig, st: Shared, inputs: seq<StageInput>, engine: BatchEngine)
    ensures var valid := Valid(config, st, inputs, |inputs|);
            && (Usable(config, st.sessions, inputs, valid) <==> !Spoilt(config, st, inputs))
            && (engine.call.CallThrew? || RowsReached(valid, engine) < |valid| <==> Throws(config, st, inputs, engine))
            && forall k: nat :: k in valid <==> k < |inputs| && Verdict(config, st, inputs, k).None?
  {
    hide DecodeRow, Claimed, RowsReached, Valid;
    var valid := Valid(config, st, inputs, |inputs|);
    var n := RowsReached(valid, engine);
    forall k: nat | k < |inputs| && Verdict(config, st, inputs, k).None? ensures k in valid && inputs[k].session in st.sessions {}
    if n < |valid| {
      assert Verdict(config, st, inputs, valid[n]).None?;
    }
  }

  /** What each input of a batch gets, in the order of the causes, and when nothing changes. */
  lemma BatchAnswers(model: Model, config: StageConfig, limit: nat, st: Shared, inputs: seq<StageInput>, engine: BatchEngine, i: nat)
    requires i < |inputs|
    ensures var (after, results) := DecodeBatch(model, config, limit, st, inputs, engine);
            var r, verdict := results[i], Verdict(config, st, inputs, i);
            var many := |Valid(config, st, inputs, |inputs|)| > limit;
            var accepted := !many && verdict.None?;
            && (many ==> r == SharedErr(BatchTooLarge))
            && (!many && verdict.Some? ==> r == SharedErr(verdict.value))
            && (accepted && Spoilt(config, st, inputs) ==> r == SharedErr(StageProblem(InvalidInput)))
            && (accepted && !Spoilt(config, st, inputs) ==>
                  && (engine.call.CallFailed? ==> r == SharedErr(StageProblem(DecodeFailed)))
                  && (!engine.call.CallFailed? && Throws(config, st, inputs, engine) ==> r == SharedErr(StageProblem(ExecutionFailed)))
                  && (!engine.call.CallFailed? && !Throws(config, st, inputs, engine) ==>
                        && (engine.rows(i).RowMissing? ==> r == SharedErr(StageProblem(OutputMissing)))
                        && (!engine.rows(i).RowMissing? ==> r.SharedOk?)))
            && (many || Spoilt(config, st, inputs) || !engine.call.CallOk? ==> after == st)
  {
    hide DecodeRow, Verdict, RowsReached, Valid, Usable, Spoilt, Throws;
    ValidFacts(config, st, inputs, engine);
  }

  // --- One at a time ---------------------------------------------------------------------------

  const HEALTHY: BatchEngine := BatchEngine(CallOk, i => RowOk)

  /** Decoding alone: a batch of one. */
  function Alone(model: Model, config: StageConfig, limit: nat, st: Shared, input: StageInput): (Shared, SharedResult) {
    var (after, results) := DecodeBatch(model, config, limit, st, [input], HEALTHY);
    (after, results[0])
  }

  /** The inputs decoded one after the other, each in the state its predecessors left. */
  function Sequential(model: Model, config: StageConfig, limit: nat, st: Shared, inputs: seq<StageInput>)
    : (r: (Shared, seq<SharedResult>))
    ensures |r.1| == |inputs|
  {
    if inputs == [] then (st, [])
    else
      var (before, results) := Sequential(model, config, limit, st, inputs[..|inputs| - 1]);
      var (after, result) := Alone(model, config, limit, before, inputs[|inputs| - 1]);
      (after, results + [result])
  }

  /** Each session at most once. */
  ghost predicate Distinct(inputs: seq<StageInput>) {
    forall i, j :: 0 <= i < j < |inputs| ==> inputs[i].session != inputs[j].session
  }

  /** Live sessions hold pairwise distinct slots. */
  ghost predicate DistinctSlots(st: Shared) {
    forall a, b :: a in st.sessions && b in st.sessions && a != b ==> st.sessions[a].slot != st.sessions[b].slot
  }

  // --- Independence of sessions ----------------------------------------------------------------

  predicate Accepts(config: StageConfig, st: Shared, input: StageInput) {
    Refusal(config, st, {}, input).None?
  }

  function Advanced(config: StageConfig, st: Shared, input: StageInput): Shared
    requires input.session in st.sessions && Readable(config, input)
  {
    st.(sessions := Count(st.sessions, input), memory := Store(config, st.sessions, st.memory, input))
  }

  /** One input without the batch around it. */
  function StepOf(config: StageConfig, st: Shared, input: StageInput): Shared {
    if Accepts(config, st, input) && Readable(config, input) then Advanced(config, st, input) else st
  }

  function OutcomeOf(model: Model, config: StageConfig, st: Shared, input: StageInput): SharedResult {
    match Refusal(config, st, {}, input)
    case Some(e) => SharedErr(e)
    case None => if Readable(config, input) then SharedOk(RowOutput(model, config, st, input)) else SharedErr(StageProblem(InvalidInput))
  }

  /** A step touches its own session and its own slot, and keeps every slot. */
  lemma StepFrame(config: StageConfig, st: Shared, a: StageInput, id: SessionId)
    requires DistinctSlots(st)
    ensures var after := StepOf(config, st, a);
            && after.sessions.Keys == st.sessions.Keys && after.marked == st.marked && DistinctSlots(after)
            && (id in st.sessions ==> after.sessions[id].slot == st.sessions[id].slot)
            && (id in st.sessions && id != a.session ==>
                  && after.sessions[id] == st.sessions[id]
                  && CellsOf(after.memory, st.sessions[id].slot) == CellsOf(st.memory, st.sessions[id].slot))
  {
    hide Exhausted, DecodeRow, Put;
  }

  /** Decoding one session changes neither the verdict nor the output of another. */
  lemma StepIndependent(model: Model, config: StageConfig, st: Shared, a: StageInput, b: StageInput)
    requires DistinctSlots(st) && a.session != b.session
    ensures OutcomeOf(model, config, StepOf(config, st, a), b) == OutcomeOf(model, config, st, b)
    ensures Refusal(config, StepOf(config, st, a), {}, b) == Refusal(config, st, {}, b)
  {
    hide StepOf, Exhausted, DecodeRow, DistinctSlots, CellsOf;
    StepFrame(config, st, a, b.session);
  }

  lemma StepsCommute(config: StageConfig, st: Shared, a: StageInput, b: StageInput)
    requires DistinctSlots(st) && a.session != b.session
    ensures StepOf(config, StepOf(config, st, a), b) == StepOf(config, StepOf(config, st, b), a)
  {
    hide Refusal, DecodeRow, DistinctSlots, CellsOf, Put;
    StepVerdict(config, st, a, b);
    StepVerdict(config, st, b, a);
    if Accepts(config, st, a) && Accepts(config, st, b) && Readable(config, a) && Readable(config, b) {
      AcceptedLive(config, st, a);
      AcceptedLive(config, st, b);
      AdvancesCommute(config, st, a, b);
    }
  }

  lemma AcceptedLive(config: StageConfig, st: Shared, input: StageInput)
    requires Accepts(config, st, input)
    ensures input.session in st.sessions
  {
  }

  lemma StepVerdict(config: StageConfig, st: Shared, a: StageInput, b: StageInput)
    requires a.session != b.session
    ensures Refusal(config, StepOf(config, st, a), {}, b) == Refusal(config, st, {}, b)
  {
    hide DecodeRow;
  }

  lemma AdvancesCommute(config: StageConfig, st: Shared, a: StageInput, b: StageInput)
    requires DistinctSlots(st) && a.session != b.session && a.session in st.sessions && b.session in st.sessions
    requires Readable(config, a) && Readable(config, b)
    ensures Advanced(config, Advanced(config, st, a), b) == Advanced(config, Advanced(config, st, b), a)
  {
    hide DecodeRow, Put;
    var sa, sb := Advanced(config, st, a), Advanced(config, st, b);
    var p, q := st.sessions[a.session].slot, st.sessions[b.session].slot;
    UpdatesCommute(st.sessions, a.session, sa.sessions[a.session], b.session, sb.sessions[b.session]);
    UpdatesCommute(st.memory, p, sa.memory[p], q, sb.memory[q]);
  }

  lemma UpdatesCommute<K, V>(m: map<K, V>, a: K, x: V, b: K, y: V)
    requires a != b
    ensures m[a := x][b := y] == m[b := y][a := x]
  {
  }

  function Fold(config: StageConfig, st: Shared, inputs: seq<StageInput>): Shared {
    if inputs == [] then st
    else StepOf(config, Fold(config, st, inputs[..|inputs| - 1]), inputs[|inputs| - 1])
  }

  lemma {:induction false} FoldKeepsSlots(config: StageConfig, st: Shared, inputs: seq<StageInput>)
    requires DistinctSlots(st)
    ensures DistinctSlots(Fold(config, st, inputs))
  {
    hide StepOf, DistinctSlots, CellsOf;
    if inputs != [] {
      FoldKeepsSlots(config, st, inputs[..|inputs| - 1]);
      StepFrame(config, Fold(config, st, inputs[..|inputs| - 1]), inputs[|inputs| - 1], "");
    }
  }

  ghost predicate Absent(inputs: seq<StageInput>, id: SessionId) {
    forall k :: 0 <= k < |inputs| ==> inputs[k].session != id
  }

  lemma {:induction false} FoldIndependent(model: Model, config: StageConfig, st: Shared, inputs: seq<StageInput>, b: StageInput)
    requires DistinctSlots(st) && Absent(inputs, b.session)
    ensures OutcomeOf(model, config, Fold(config, st, inputs), b) == OutcomeOf(model, config, st, b)
    ensures Refusal(config, Fold(config, st, inputs), {}, b) == Refusal(config, st, {}, b)
    ensures b.session in Fold(config, st, inputs).sessions <==> b.session in st.sessions
    ensures b.session in st.sessions ==> Fold(config, st, inputs).sessions[b.session] == st.sessions[b.session]
  {
    hide StepOf, OutcomeOf, Refusal, DistinctSlots, CellsOf;
    if inputs != [] {
      var init, last := inputs[..|inputs| - 1], inputs[|inputs| - 1];
      FoldIndependent(model, config, st, init, b);
      FoldKeepsSlots(config, st, init);
      StepFrame(config, Fold(config, st, init), last, b.session);
      StepIndependent(model, config, Fold(config, st, init), last, b);
    }
  }

  // --- Any order gives the same --------------------------------------------------------------------

  /** A step can be moved past the later ones. */
  lemma {:induction false} MoveLast(config: StageConfig, st: Shared, xs: seq<StageInput>, y: StageInput, zs: seq<StageInput>)
    requires DistinctSlots(st) && Absent(zs, y.session)
    ensures Fold(config, st, xs + [y] + zs) == StepOf(config, Fold(config, st, xs + zs), y)
    decreases |zs|
  {
    hide StepOf, DistinctSlots;
    if zs == [] {
      assert xs + [] == xs && xs + [y] + zs == xs + [y];
      FoldSnoc(config, st, xs, y);
    } else {
      var init, z := zs[..|zs| - 1], zs[|zs| - 1];
      assert xs + [y] + zs == xs + [y] + init + [z] && xs + zs == xs + init + [z];
      FoldSnoc(config, st, xs + [y] + init, z);
      FoldSnoc(config, st, xs + init, z);
      MoveLast(config, st, xs, y, init);
      FoldKeepsSlots(config, st, xs + init);
      StepsCommute(config, Fold(config, st, xs + init), y, z);
    }
  }

  lemma FoldSnoc(config: StageConfig, st: Shared, xs: seq<StageInput>, y: StageInput)
    ensures Fold(config, st, xs + [y]) == StepOf(config, Fold(config, st, xs), y)
  {
    hide StepOf;
    assert (xs + [y])[..|xs|] == xs;
  }

  /** Taking one input out leaves distinct sessions, none of them its own. */
  lemma Remove(inputs: seq<StageInput>, i: nat)
    requires Distinct(inputs) && i < |inputs|
    ensures Distinct(inputs[..i] + inputs[i + 1..]) && Absent(inputs[i + 1..], inputs[i].session)
    ensures Absent(inputs[..i] + inputs[i + 1..], inputs[i].session)
  {
    var rest := inputs[..i] + inputs[i + 1..];
    forall k | 0 <= k < |rest| ensures rest[k] == inputs[if k < i then k else k + 1] {}
  }

  lemma RemoveCounts(inputs: seq<StageInput>, i: nat)
    requires i < |inputs|
    ensures inputs == inputs[..i] + [inputs[i]] + inputs[i + 1..]
    ensures multiset(inputs[..i] + inputs[i + 1..]) == multiset(inputs) - multiset{inputs[i]}
  {
    assert inputs == inputs[..i] + [inputs[i]] + inputs[i + 1..];
  }

  lemma {:induction false} FoldAnyOrder(config: StageConfig, st: Shared, inputs: seq<StageInput>, order: seq<StageInput>)
    requires DistinctSlots(st) && Distinct(inputs) && multiset(order) == multiset(inputs)
    ensures Fold(config, st, order) == Fold(config, st, inputs)
    decreases |order|
  {
    hide StepOf, DistinctSlots, Fold, Distinct, Absent;
    assert |multiset(inputs)| == |inputs| && |multiset(order)| == |order|;
    if order == [] {
      assert order == inputs;
    } else {
      var init, y := order[..|order| - 1], order[|order| - 1];
      assert order == init + [y];
      assert y in multiset(inputs);
      var i :| 0 <= i < |inputs| && inputs[i] == y;
      Remove(inputs, i);
      RemoveCounts(inputs, i);
      assert multiset(init) == multiset(order) - multiset{y};
      FoldAnyOrder(config, st, inputs[..i] + inputs[i + 1..], init);
      MoveLast(config, st, inputs[..i], y, inputs[i + 1..]);
      FoldSnoc(config, st, init, y);
    }
  }

  lemma {:induction false} ReorderedDistinct(inputs: seq<StageInput>, order: seq<StageInput>)
    requires Distinct(inputs) && multiset(order) == multiset(inputs)
    ensures Distinct(order)
    decreases |order|
  {
    hide Distinct, Absent;
    assert |multiset(inputs)| == |inputs| && |multiset(order)| == |order|;
    if order == [] {
      assert order == inputs;
    } else {
      var init, y := order[..|order| - 1], order[|order| - 1];
      assert order == init + [y];
      assert y in multiset(inputs);
      var i :| 0 <= i < |inputs| && inputs[i] == y;
      Remove(inputs, i);
      RemoveCounts(inputs, i);
      assert multiset(init) == multiset(order) - multiset{y};
      ReorderedDistinct(inputs[..i] + inputs[i + 1..], init);
      AppendDistinct(init, y, inputs[..i] + inputs[i + 1..]);
    }
  }

  lemma AppendDistinct(init: seq<StageInput>, y: StageInput, rest: seq<StageInput>)
    requires Distinct(init) && multiset(init) == multiset(rest) && Absent(rest, y.session)
    ensures Distinct(init + [y])
  {
    forall k | 0 <= k < |init| ensures init[k].session != y.session {
      assert init[k] in multiset(init) && init[k] in rest;
    }
  }

  // --- A batch and its inputs one at a time --------------------------------------------------------

  lemma {:induction false} ClaimedBySomeone(config: StageConfig, st: Shared, inputs: seq<StageInput>, slot: nat)
    requires slot in Claimed(config, st, inputs)
    ensures exists k :: 0 <= k < |inputs| && inputs[k].session in st.sessions && st.sessions[inputs[k].session].slot == slot
  {
    var init, last := inputs[..|inputs| - 1], inputs[|inputs| - 1];
    if slot in Claimed(config, st, init) {
      ClaimedBySomeone(config, st, init, slot);
      var k :| 0 <= k < |init| && init[k].session in st.sessions && st.sessions[init[k].session].slot == slot;
      assert inputs[k] == init[k];
    }
  }

  /** Distinct sessions never meet the duplicate check. */
  lemma VerdictAlone(config: StageConfig, st: Shared, inputs: seq<StageInput>, i: nat)
    requires DistinctSlots(st) && Distinct(inputs) && i < |inputs|
    ensures Verdict(config, st, inputs, i) == Refusal(config, st, {}, inputs[i])
  {
    hide Exhausted;
    var input := inputs[i];
    if input.session in st.sessions && st.sessions[input.session].slot in Claimed(config, st, inputs[..i]) {
      ClaimedBySomeone(config, st, inputs[..i], st.sessions[input.session].slot);
    }
  }

  /** Every accepted input can be read; no accepted input can be read. */
  ghost predicate AllReadable(config: StageConfig, st: Shared, inputs: seq<StageInput>) {
    forall i :: 0 <= i < |inputs| && Accepts(config, st, inputs[i]) ==> Readable(config, inputs[i])
  }

  ghost predicate NoneReadable(config: StageConfig, st: Shared, inputs: seq<StageInput>) {
    forall i :: 0 <= i < |inputs| && Accepts(config, st, inputs[i]) ==> !Readable(config, inputs[i])
  }

  lemma ValidStep(config: StageConfig, st: Shared, inputs: seq<StageInput>, n: nat)
    requires 0 < n <= |inputs|
    ensures Valid(config, st, inputs, n) ==
            if Verdict(config, st, inputs, n - 1).None? then Valid(config, st, inputs, n - 1) + [n - 1] else Valid(config, st, inputs, n - 1)
  {
    hide Verdict;
  }

  lemma ValidUsable(config: StageConfig, st: Shared, inputs: seq<StageInput>, n: nat)
    requires DistinctSlots(st) && Distinct(inputs) && n <= |inputs|
    ensures var valid := Valid(config, st, inputs, n);
            AllReadable(config, st, inputs) ==> Usable(config, st.sessions, inputs, valid)
  {
    hide Verdict, Exhausted, DecodeRow, DistinctSlots, Distinct, Readable, Valid;
    var valid := Valid(config, st, inputs, n);
    if AllReadable(config, st, inputs) {
      forall k | 0 <= k < |valid| ensures inputs[valid[k]].session in st.sessions && Readable(config, inputs[valid[k]]) {
        VerdictAlone(config, st, inputs, valid[k]);
        assert Accepts(config, st, inputs[valid[k]]);
      }
    }
  }

  /** The state that a batch reaches through its accepted inputs. */
  function Reached(config: StageConfig, st: Shared, inputs: seq<StageInput>, valid: seq<nat>): Shared
    requires Usable(config, st.sessions, inputs, valid)
  {
    st.(sessions := CountAll(config, st.sessions, inputs, valid, HEALTHY), memory := StoreAll(config, st.sessions, st.memory, inputs, valid))
  }

  lemma ReachedSnoc(config: StageConfig, st: Shared, inputs: seq<StageInput>, valid: seq<nat>, i: nat)
    requires Usable(config, st.sessions, inputs, valid) && Usable(config, st.sessions, inputs, valid + [i])
    requires i < |inputs| && inputs[i].session in st.sessions
    requires Reached(config, st, inputs, valid).sessions[inputs[i].session] == st.sessions[inputs[i].session]
    ensures Readable(config, inputs[i])
    ensures Reached(config, st, inputs, valid + [i]) == Advanced(config, Reached(config, st, inputs, valid), inputs[i])
  {
    hide Put, DecodeRow, Readable, CellsOf;
    assert (valid + [i])[..|valid|] == valid && (valid + [i])[|valid|] == i;
  }

  /** Storing all rows and then reading all outputs is the fold of the single steps. */
  lemma {:induction false} ReachedIsFold(model: Model, config: StageConfig, st: Shared, inputs: seq<StageInput>, n: nat)
    requires DistinctSlots(st) && Distinct(inputs) && AllReadable(config, st, inputs) && n <= |inputs|
    ensures var valid := Valid(config, st, inputs, n);
            && Usable(config, st.sessions, inputs, valid)
            && Reached(config, st, inputs, valid) == Fold(config, st, inputs[..n])
  {
    hide Verdict, Refusal, OutcomeOf, Readable, DistinctSlots, Distinct, AllReadable, Valid, Reached, Fold, Usable, Advanced;
    ValidUsable(config, st, inputs, n);
    if n == 0 {
      NothingReached(config, st, inputs);
    } else {
      var before, x := Valid(config, st, inputs, n - 1), inputs[n - 1];
      ReachedIsFold(model, config, st, inputs, n - 1);
      ValidStep(config, st, inputs, n);
      VerdictAlone(config, st, inputs, n - 1);
      PrefixAbsent(inputs, n - 1);
      FoldIndependent(model, config, st, inputs[..n - 1], x);
      assert inputs[..n] == inputs[..n - 1] + [x];
      FoldSnoc(config, st, inputs[..n - 1], x);
      if Accepts(config, st, x) {
        AcceptedLive(config, st, x);
        ReachedSnoc(config, st, inputs, before, n - 1);
      }
    }
  }

  lemma NothingReached(config: StageConfig, st: Shared, inputs: seq<StageInput>)
    ensures Valid(config, st, inputs, 0) == [] && Usable(config, st.sessions, inputs, [])
    ensures Reached(config, st, inputs, []) == st && inputs[..0] == [] && Fold(config, st, []) == st
  {
  }

  lemma PrefixAbsent(inputs: seq<StageInput>, n: nat)
    requires Distinct(inputs) && n < |inputs|
    ensures Distinct(inputs[..n]) && Absent(inputs[..n], inputs[n].session)
  {
  }

  lemma ReachesAll(valid: seq<nat>)
    ensures RowsReached(valid, HEALTHY) == |valid| && valid[..|valid|] == valid
  {
  }

  /** A healthy batch of readable inputs is the fold of its single steps. */
  lemma BatchIsFold(model: Model, config: StageConfig, limit: nat, st: Shared, inputs: seq<StageInput>)
    requires DistinctSlots(st) && Distinct(inputs) && AllReadable(config, st, inputs)
    requires |Valid(config, st, inputs, |inputs|)| <= limit
    ensures var (after, results) := DecodeBatch(model, config, limit, st, inputs, HEALTHY);
            && after == Fold(config, st, inputs)
            && forall i :: 0 <= i < |inputs| ==> results[i] == OutcomeOf(model, config, st, inputs[i])
  {
    hide DistinctSlots, Verdict, Fold, RowResult, OutcomeOf, Valid, RowsReached, Distinct, AllReadable, Usable;
    var valid := Valid(config, st, inputs, |inputs|);
    ReachedIsFold(model, config, st, inputs, |inputs|);
    assert inputs[..|inputs|] == inputs;
    ReachesAll(valid);
    forall i | 0 <= i < |inputs|
      ensures DecodeBatch(model, config, limit, st, inputs, HEALTHY).1[i] == OutcomeOf(model, config, st, inputs[i])
    {
      ResultAlone(model, config, st, inputs, i);
    }
  }

  /** What an input of a batch of distinct sessions gets: what it gets alone, unless another accepted
      input cannot be read. */
  lemma ResultAlone(model: Model, config: StageConfig, st: Shared, inputs: seq<StageInput>, i: nat)
    requires DistinctSlots(st) && Distinct(inputs) && i < |inputs|
    ensures var valid := Valid(config, st, inputs, |inputs|);
            match Verdict(config, st, inputs, i)
            case Some(e) => OutcomeOf(model, config, st, inputs[i]) == SharedErr(e)
            case None =>
              && i in valid
              && RowResult(model, config, st, inputs, valid, HEALTHY, i) ==
                 if Usable(config, st.sessions, inputs, valid) then OutcomeOf(model, config, st, inputs[i])
                 else SharedErr(StageProblem(InvalidInput))
  {
    hide Refusal, DistinctSlots, Distinct, Verdict, RowOutput, Readable, Valid;
    VerdictAlone(config, st, inputs, i);
    ReachesAll(Valid(config, st, inputs, |inputs|));
  }

  lemma UsableIffReadable(config: StageConfig, st: Shared, inputs: seq<StageInput>)
    requires DistinctSlots(st) && Distinct(inputs)
    ensures Usable(config, st.sessions, inputs, Valid(config, st, inputs, |inputs|)) <==> AllReadable(config, st, inputs)
  {
    hide Verdict, Refusal, DistinctSlots, Distinct, Readable, Valid;
    ValidUsable(config, st, inputs, |inputs|);
    var valid := Valid(config, st, inputs, |inputs|);
    if Usable(config, st.sessions, inputs, valid) {
      forall i | 0 <= i < |inputs| && Accepts(config, st, inputs[i]) ensures Readable(config, inputs[i]) {
        VerdictAlone(config, st, inputs, i);
        assert i in valid;
      }
    }
  }

  function SpoiltOutcome(model: Model, config: StageConfig, st: Shared, input: StageInput): SharedResult {
    if Accepts(config, st, input) then SharedErr(StageProblem(InvalidInput)) else OutcomeOf(model, config, st, input)
  }

  /** One unreadable accepted input spoils a batch: nothing changes and every accepted input is refused. */
  lemma SpoiltBatch(model: Model, config: StageConfig, limit: nat, st: Shared, inputs: seq<StageInput>)
    requires DistinctSlots(st) && Distinct(inputs) && !AllReadable(config, st, inputs)
    requires |Valid(config, st, inputs, |inputs|)| <= limit
    ensures var (after, results) := DecodeBatch(model, config, limit, st, inputs, HEALTHY);
            && after == st
            && forall i :: 0 <= i < |inputs| ==> results[i] == SpoiltOutcome(model, config, st, inputs[i])
  {
    hide DistinctSlots, Verdict, RowResult, OutcomeOf, Valid, RowsReached, Distinct, AllReadable, Usable, Refusal;
    UsableIffReadable(config, st, inputs);
    forall i | 0 <= i < |inputs|
      ensures DecodeBatch(model, config, limit, st, inputs, HEALTHY).1[i] == SpoiltOutcome(model, config, st, inputs[i])
    {
      ResultAlone(model, config, st, inputs, i);
      VerdictAlone(config, st, inputs, i);
    }
  }

  lemma {:induction false} FoldOfNothing(model: Model, config: StageConfig, st: Shared, inputs: seq<StageInput>)
    requires DistinctSlots(st) && Distinct(inputs) && NoneReadable(config, st, inputs)
    ensures Fold(config, st, inputs) == st
  {
    hide DistinctSlots, Refusal, Readable, OutcomeOf;
    if inputs != [] {
      var n := |inputs| - 1;
      PrefixAbsent(inputs, n);
      FoldOfNothing(model, config, st, inputs[..n]);
      assert Accepts(config, st, inputs[n]) ==> !Readable(config, inputs[n]);
    }
  }

  lemma AloneIs(model: Model, config: StageConfig, limit: nat, st: Shared, input: StageInput)
    requires limit >= 1 && DistinctSlots(st)
    ensures Alone(model, config, limit, st, input) == (StepOf(config, st, input), OutcomeOf(model, config, st, input))
  {
    hide DecodeBatch, DistinctSlots, Refusal, Readable, Fold, Valid, Advanced, RowOutput;
    var inputs := [input];
    FewValid(config, st, inputs, 1);
    NothingReached(config, st, inputs);
    FoldSnoc(config, st, [], input);
    assert [] + [input] == inputs && inputs[0] == input;
    if AllReadable(config, st, inputs) {
      BatchIsFold(model, config, limit, st, inputs);
      assert Accepts(config, st, input) ==> Readable(config, input);
    } else {
      SpoiltBatch(model, config, limit, st, inputs);
    }
  }

  lemma {:induction false} SequentialIsFold(model: Model, config: StageConfig, limit: nat, st: Shared, inputs: seq<StageInput>)
    requires DistinctSlots(st) && Distinct(inputs) && limit >= 1
    ensures var (after, results) := Sequential(model, config, limit, st, inputs);
            && after == Fold(config, st, inputs)
            && forall i :: 0 <= i < |inputs| ==> results[i] == OutcomeOf(model, config, st, inputs[i])
  {
    hide Alone, StepOf, OutcomeOf, DistinctSlots;
    if inputs != [] {
      var n := |inputs| - 1;
      PrefixAbsent(inputs, n);
      SequentialIsFold(model, config, limit, st, inputs[..n]);
      FoldIndependent(model, config, st, inputs[..n], inputs[n]);
      FoldKeepsSlots(config, st, inputs[..n]);
      AloneIs(model, config, limit, Fold(config, st, inputs[..n]), inputs[n]);
    }
  }

  /** The batch and the series agree: the same state, and the same result for every input. */
  ghost predicate Agree(batch: (Shared, seq<SharedResult>), inputs: seq<StageInput>, series: (Shared, seq<SharedResult>), order: seq<StageInput>) {
    && |batch.1| == |inputs| && |series.1| == |order|
    && batch.0 == series.0
    && forall i, k :: 0 <= i < |inputs| && 0 <= k < |order| && inputs[i] == order[k] ==> batch.1[i] == series.1[k]
  }

  /** For distinct sessions within the batch limit and a healthy engine, batched decode is decode one at a
      time, in every order, exactly when the accepted inputs can all be read or none of them can. */
  lemma BatchEqualsAnyOrder(model: Model, config: StageConfig, limit: nat, st: Shared, inputs: seq<StageInput>, order: seq<StageInput>)
    requires DistinctSlots(st) && Distinct(inputs) && multiset(order) == multiset(inputs)
    requires limit >= 1 && |Valid(config, st, inputs, |inputs|)| <= limit
    ensures Agree(DecodeBatch(model, config, limit, st, inputs, HEALTHY), inputs, Sequential(model, config, limit, st, order), order)
            <==> AllReadable(config, st, inputs) || NoneReadable(config, st, inputs)
  {
    hide DecodeBatch, Sequential, Fold, OutcomeOf, DistinctSlots, Readable, Distinct, Refusal, Valid, AllReadable, NoneReadable;
    ReorderedDistinct(inputs, order);
    FoldAnyOrder(config, st, inputs, order);
    SequentialIsFold(model, config, limit, st, order);
    if AllReadable(config, st, inputs) {
      BatchIsFold(model, config, limit, st, inputs);
    } else {
      SpoiltBatch(model, config, limit, st, inputs);
      if NoneReadable(config, st, inputs) {
        FoldOfNothing(model, config, st, inputs);
        AllRefused(model, config, st, inputs);
      } else {
        var i := SpoiltNeighbour(model, config, st, inputs);
        assert inputs[i] in multiset(order);
        var k :| 0 <= k < |order| && order[k] == inputs[i];
      }
    }
  }

  lemma AllRefused(model: Model, config: StageConfig, st: Shared, inputs: seq<StageInput>)
    requires NoneReadable(config, st, inputs)
    ensures forall i :: 0 <= i < |inputs| && Accepts(config, st, inputs[i]) ==>
              OutcomeOf(model, config, st, inputs[i]) == SharedErr(StageProblem(InvalidInput))
  {
    hide Refusal, Readable;
  }

  /** Somebody who could be read does worse in the batch than alone. */
  lemma SpoiltNeighbour(model: Model, config: StageConfig, st: Shared, inputs: seq<StageInput>) returns (i: nat)
    requires !NoneReadable(config, st, inputs)
    ensures i < |inputs| && Accepts(config, st, inputs[i]) && OutcomeOf(model, config, st, inputs[i]).SharedOk?
  {
    hide Refusal, Readable;
    i :| 0 <= i < |inputs| && Accepts(config, st, inputs[i]) && Readable(config, inputs[i]);
  }

  /** Such a batch: beside a payload of two tokens, the good step of another session is refused. */
  lemma TwoTokensSpoilNeighbour(model: Model)
    ensures var a := Assignment(0, 1, 0, 1);
            var config := StageConfig(a, 8, 0);
            var st := Shared(map["s" := SharedSession(0, 1, 1), "t" := SharedSession(1, 1, 1)], [true, true], map[]);
            var good := StageInput("s", a, Decode, 1, 1, SampledToken(5));
            var bad := StageInput("t", a, Decode, 1, 1, Tokens([6, 7]));
            && Alone(model, config, 2, st, good).1.SharedOk?
            && DecodeBatch(model, config, 2, st, [good, bad], HEALTHY).1[0] == SharedErr(StageProblem(InvalidInput))
  {
    hide OutputFor, Alone, DecodeBatch, Valid;
    var a := Assignment(0, 1, 0, 1);
    var config := StageConfig(a, 8, 0);
    var st := Shared(map["s" := SharedSession(0, 1, 1), "t" := SharedSession(1, 1, 1)], [true, true], map[]);
    var good := StageInput("s", a, Decode, 1, 1, SampledToken(5));
    var bad := StageInput("t", a, Decode, 1, 1, Tokens([6, 7]));
    var inputs := [good, bad];
    AloneIs(model, config, 2, st, good);
    assert Accepts(config, st, inputs[1]) && !Readable(config, inputs[1]);
    FewValid(config, st, inputs, 2);
    SpoiltBatch(model, config, 2, st, inputs);
  }

  lemma {:induction false} FewValid(config: StageConfig, st: Shared, inputs: seq<StageInput>, n: nat)
    requires n <= |inputs|
    ensures |Valid(config, st, inputs, n)| <= n
  {
    hide Verdict;
    if n > 0 {
      FewValid(config, st, inputs, n - 1);
    }
  }

  /** The limit matters: with more accepted inputs nobody decodes, while one at a time everybody would. */
  lemma OversizedBatchDecodesNobody(model: Model, config: StageConfig, limit: nat, st: Shared, inputs: seq<StageInput>, engine: BatchEngine)
    requires |Valid(config, st, inputs, |inputs|)| > limit
    ensures var (after, results) := DecodeBatch(model, config, limit, st, inputs, engine);
            after == st && forall i :: 0 <= i < |inputs| ==> results[i] == SharedErr(BatchTooLarge)
  {
  }

  // --- The serial adapter ----------------------------------------------------------------------------

  /** A shared session as the serial adapter would hold it. */
  function AsSerial(st: Shared): Sessions {
    map id | id in st.sessions ::
      Session(Flat(CellsOf(st.memory, st.sessions[id].slot)), st.sessions[id].nextPosition, st.sessions[id].expectedDecodeStep)
  }

  /** The engine holds nothing beyond the position that is decoded next. */
  predicate AtEnd(st: Shared, session: SharedSession) {
    session.nextPosition >= 0 && |CellsOf(st.memory, session.slot)| <= session.nextPosition + 1
  }

  lemma FlatSnoc(cells: Cells, rows: seq<Row>)
    ensures Flat(cells + [rows]) == Flat(cells) + rows
  {
    assert (cells + [rows])[..|cells|] == cells;
  }

  lemma PutLast(init: Cells, last: seq<Row>, row: Row)
    ensures Put(init + [last], |init|, row) == init + [last + [row]]
  {
  }

  lemma FlatPut(cells: Cells, position: int, row: Row)
    requires position >= 0 && position >= |cells| - 1
    ensures Flat(Put(cells, position, row)) == Flat(cells) + [row]
  {
    hide Flat;
    if position < |cells| {
      hide Put;
      var init, last := cells[..position], cells[position];
      assert cells == init + [last];
      PutLast(init, last, row);
      FlatSnoc(init, last);
      FlatSnoc(init, last + [row]);
      MoreRows(Flat(init), last, row);
    } else {
      FlatSnoc(cells, [row]);
    }
  }

  lemma MoreRows(before: seq<Row>, rows: seq<Row>, row: Row)
    ensures before + (rows + [row]) == before + rows + [row]
  {
  }

  /** A single-row step on the shared context is the serial step on the same session. */
  lemma StepIsSerial(model: Model, config: StageConfig, st: Shared, input: StageInput)
    requires DistinctSlots(st) && input.phase.Decode? && Readable(config, input)
    requires input.session in st.sessions ==> AtEnd(st, st.sessions[input.session])
    ensures AsSerial(StepOf(config, st, input)) == ExecuteSerial(model, config, AsSerial(st), input, EngineOk).0
    ensures match ExecuteSerial(model, config, AsSerial(st), input, EngineOk).1
            case Ok(output) => OutcomeOf(model, config, st, input) == SharedOk(output)
            case Err(e) => OutcomeOf(model, config, st, input) == SharedErr(StageProblem(e))
  {
    hide OutputFor, DecodeRow, InputRows, DecodedTokens, Advanced, CellsOf, Flat;
    SingleRow(model, config, input.payload);
    if Accepts(config, st, input) {
      AdvancedIsSerial(config, st, input);
    } else if input.session in st.sessions {
      assert AsSerial(st)[input.session := AsSerial(st)[input.session]] == AsSerial(st);
    }
  }

  lemma AdvancedIsSerial(config: StageConfig, st: Shared, input: StageInput)
    requires DistinctSlots(st) && input.session in st.sessions && Readable(config, input)
    requires AtEnd(st, st.sessions[input.session])
    ensures var s := AsSerial(st)[input.session];
            AsSerial(Advanced(config, st, input)) ==
            AsSerial(st)[input.session := Session(s.kv + [DecodeRow(config, input.payload).value], s.nextPosition + 1, s.expectedDecodeStep + 1)]
  {
    hide DecodeRow, Put, Flat;
    var session := st.sessions[input.session];
    FlatPut(CellsOf(st.memory, session.slot), session.nextPosition, DecodeRow(config, input.payload).value);
  }

  lemma SingleRow(model: Model, config: StageConfig, payload: Payload)
    requires DecodeRow(config, payload).Some?
    ensures InputRows(model, config, payload) == Some([DecodeRow(config, payload).value]) && DecodedTokens(payload) == 1
  {
    var row := DecodeRow(config, payload).value;
    assert payload.Tokens? ==> TokenRows(payload.ids) == [row];
    assert payload.Activation? ==> payload.rows == [row];
  }
}
