/** The shared context behaves as the serial adapter: over every smooth history each call gets the reply that
    serial mode gives, and the sessions are the serial ones
    (runtime/adapters/llama_cpp_stage_adapter.cpp:495-529, 556-823, 882-937). */
module SharedRefinement {
  import opened StageSession
  import opened SharedDecode
  import opened SharedStage
  import opened Wrappers

  // --- The same calls in both modes ---------------------------------------------------------------

  datatype Reply = Outputs(results: seq<SharedResult>) | Undone(result: Result<()>) | Closed

  function AsShared(r: Result<StageOutput>): SharedResult {
    match r
    case Ok(output) => SharedOk(output)
    case Err(e) => SharedErr(StageProblem(e))
  }

  function SharedCall(model: Model, config: StageConfig, limit: nat, st: Shared, op: SharedOp): (Shared, Reply) {
    match op
    case PrefillOp(input, engine) =>
      var (after, r) := SharedPrefill(model, config, st, input, engine);
      (after, Outputs([r]))
    case DecodeOp(inputs, batch) =>
      var (after, rs) := DecodeBatch(model, config, limit, st, inputs, batch);
      (after, Outputs(rs))
    case RollbackOp(id, count, engineAccepts) =>
      var (after, r) := SharedRollback(st, id, count, engineAccepts);
      (after, Undone(r))
    case CloseOp(id) => (SharedClose(st, id), Closed)
  }

  /** Inputs executed one after the other by the serial adapter. */
  function SerialSeries(model: Model, config: StageConfig, sessions: Sessions, inputs: seq<StageInput>): (r: (Sessions, seq<SharedResult>))
    ensures |r.1| == |inputs|
  {
    if inputs == [] then (sessions, [])
    else
      var (before, results) := SerialSeries(model, config, sessions, inputs[..|inputs| - 1]);
      var (after, result) := ExecuteSerial(model, config, before, inputs[|inputs| - 1], EngineOk);
      (after, results + [AsShared(result)])
  }

  function SerialCall(model: Model, config: StageConfig, sessions: Sessions, op: SharedOp): (Sessions, Reply) {
    match op
    case PrefillOp(input, engine) =>
      var (after, r) := ExecuteSerial(model, config, sessions, input, engine);
      (after, Outputs([AsShared(r)]))
    case DecodeOp(inputs, _) =>
      var (after, rs) := SerialSeries(model, config, sessions, inputs);
      (after, Outputs(rs))
    case RollbackOp(id, count, engineAccepts) =>
      var (after, r) := RollbackSerial(sessions, id, count, engineAccepts);
      (after, Undone(r))
    case CloseOp(id) => (sessions - {id}, Closed)
  }

  function SharedRun(model: Model, config: StageConfig, limit: nat, slots: nat, ops: seq<SharedOp>): (Shared, seq<Reply>) {
    if ops == [] then (Start(slots), [])
    else
      var (before, replies) := SharedRun(model, config, limit, slots, ops[..|ops| - 1]);
      var (after, reply) := SharedCall(model, config, limit, before, ops[|ops| - 1]);
      (after, replies + [reply])
  }

  function SerialRun(model: Model, config: StageConfig, ops: seq<SharedOp>): (Sessions, seq<Reply>) {
    if ops == [] then (map[], [])
    else
      var (before, replies) := SerialRun(model, config, ops[..|ops| - 1]);
      var (after, reply) := SerialCall(model, config, before, ops[|ops| - 1]);
      (after, replies + [reply])
  }

  /** What the two modes share: a prefill finds a free slot and its failure is reported the same way, and a
      batch of distinct sessions has one readable row each, fits and meets no engine trouble. */
  ghost predicate Smooth(config: StageConfig, limit: nat, st: Shared, op: SharedOp) {
    match op
    case PrefillOp(input, engine) =>
      && input.phase.Prefill? && FirstFree(st.marked) < |st.marked|
      && (engine.EngineOutputMissing? ==> IsLast(config))
    case DecodeOp(inputs, batch) =>
      && batch == HEALTHY && Distinct(inputs) && 1 <= limit && |Valid(config, st, inputs, |inputs|)| <= limit
      && (forall k :: 0 <= k < |inputs| ==> inputs[k].phase.Decode? && Readable(config, inputs[k]))
    case _ => true
  }

  ghost predicate SmoothRun(model: Model, config: StageConfig, limit: nat, slots: nat, ops: seq<SharedOp>) {
    forall n :: 0 <= n < |ops| ==> Smooth(config, limit, SharedRun(model, config, limit, slots, ops[..n]).0, ops[n])
  }

  // --- Prefill --------------------------------------------------------------------------------------

  /** Sessions look the same when their counters and cells do. */
  lemma SameSerial(a: Shared, b: Shared)
    requires a.sessions == b.sessions
    requires forall id :: id in a.sessions ==> CellsOf(a.memory, a.sessions[id].slot) == CellsOf(b.memory, b.sessions[id].slot)
    ensures AsSerial(a) == AsSerial(b)
  {
    hide Flat, CellsOf;
  }

  lemma PrefillRejected(st: Shared, leaked: set<nat>, slot: nat)
    requires Partitioned(st, leaked) && slot < |st.marked| && !st.marked[slot]
    ensures AsSerial(st.(marked := st.marked[slot := true])) == AsSerial(st)
    ensures AsSerial(Release(st.(marked := st.marked[slot := true]), slot)) == AsSerial(st)
  {
    FreeSlotUnused(st, leaked, slot);
    SameSerial(st.(marked := st.marked[slot := true]), st);
    SameSerial(Release(st.(marked := st.marked[slot := true]), slot), st);
  }

  lemma PrefillAdmitted(st: Shared, leaked: set<nat>, slot: nat, id: SessionId, rows: seq<Row>)
    requires Partitioned(st, leaked) && slot < |st.marked| && !st.marked[slot] && id !in st.sessions
    ensures AsSerial(Shared(st.sessions[id := SharedSession(slot, |rows|, 1)], st.marked[slot := true], st.memory[slot := Fill(rows)])) ==
            AsSerial(st)[id := Session(rows, |rows|, 1)]
  {
    hide Fill, Flat;
    FreeSlotUnused(st, leaked, slot);
    FlatFill(rows);
  }

  lemma SerialKeys(st: Shared)
    ensures AsSerial(st).Keys == st.sessions.Keys
  {
    hide Flat, CellsOf;
  }

  /** A prefill that finds a slot is the serial prefill: sessions, output and errors. */
  lemma PrefillIsSerial(model: Model, config: StageConfig, st: Shared, prompts: map<SessionId, seq<Row>>, leaked: set<nat>, input: StageInput, engine: EngineOutcome)
    requires AllExact(st, prompts) && Partitioned(st, leaked)
    requires input.phase.Prefill? && FirstFree(st.marked) < |st.marked| && (engine.EngineOutputMissing? ==> IsLast(config))
    ensures AsSerial(SharedPrefill(model, config, st, input, engine).0) == ExecuteSerial(model, config, AsSerial(st), input, engine).0
    ensures SharedPrefill(model, config, st, input, engine).1 == AsShared(ExecuteSerial(model, config, AsSerial(st), input, engine).1)
  {
    hide InputRows, Exhausted, OutputFor, Release, Fill, AllExact, Partitioned, Flat, AsSerial, CellsOf;
    var slot := FirstFree(st.marked);
    SerialKeys(st);
    if input.assignment == config.assignment && input.session !in st.sessions {
      PrefillRejected(st, leaked, slot);
      match InputRows(model, config, input.payload)
      case None =>
      case Some(rows) =>
        PrefillAdmitted(st, leaked, slot, input.session, rows);
        AdmittedKeeps(st, prompts, leaked, slot, input.session, rows);
        EmptyStart(rows);
    }
  }

  lemma EmptyStart(rows: seq<Row>)
    ensures [] + rows == rows && [] + Fill(rows) == Fill(rows) && Flat([]) == []
  {
    hide Fill;
  }

  // --- Batched decode -----------------------------------------------------------------------------

  lemma ExactAtEnd(st: Shared, prompts: map<SessionId, seq<Row>>, id: SessionId)
    requires AllExact(st, prompts) && id in st.sessions
    ensures AtEnd(st, st.sessions[id])
  {
  }

  /** One step of the shared decode is the serial step. */
  lemma AloneIsSerial(model: Model, config: StageConfig, limit: nat, st: Shared, prompts: map<SessionId, seq<Row>>, input: StageInput)
    requires AllExact(st, prompts) && limit >= 1 && input.phase.Decode? && Readable(config, input)
    ensures AsSerial(Alone(model, config, limit, st, input).0) == ExecuteSerial(model, config, AsSerial(st), input, EngineOk).0
    ensures Alone(model, config, limit, st, input).1 == AsShared(ExecuteSerial(model, config, AsSerial(st), input, EngineOk).1)
    ensures AllExact(Alone(model, config, limit, st, input).0, prompts)
  {
    hide DecodeBatch, Readable, StepOf, OutcomeOf, ExecuteSerial, AsSerial, Exact, Alone;
    AloneIs(model, config, limit, st, input);
    if input.session in st.sessions {
      ExactAtEnd(st, prompts, input.session);
    }
    StepIsSerial(model, config, st, input);
    AloneExact(model, config, limit, st, prompts, input);
  }

  lemma AloneExact(model: Model, config: StageConfig, limit: nat, st: Shared, prompts: map<SessionId, seq<Row>>, input: StageInput)
    requires AllExact(st, prompts)
    ensures AllExact(Alone(model, config, limit, st, input).0, prompts)
  {
    hide DecodeBatch, AllExact;
    DecodeKeeps(model, config, limit, st, prompts, [input], HEALTHY);
  }

  lemma {:induction false} SequentialIsSerial(model: Model, config: StageConfig, limit: nat, st: Shared, prompts: map<SessionId, seq<Row>>, inputs: seq<StageInput>)
    requires AllExact(st, prompts) && limit >= 1
    requires forall k :: 0 <= k < |inputs| ==> inputs[k].phase.Decode? && Readable(config, inputs[k])
    ensures AsSerial(Sequential(model, config, limit, st, inputs).0) == SerialSeries(model, config, AsSerial(st), inputs).0
    ensures Sequential(model, config, limit, st, inputs).1 == SerialSeries(model, config, AsSerial(st), inputs).1
    ensures AllExact(Sequential(model, config, limit, st, inputs).0, prompts)
  {
    hide Alone, ExecuteSerial, AllExact, Readable, AsSerial;
    if inputs != [] {
      var n := |inputs| - 1;
      SequentialIsSerial(model, config, limit, st, prompts, inputs[..n]);
      AloneIsSerial(model, config, limit, Sequential(model, config, limit, st, inputs[..n]).0, prompts, inputs[n]);
    }
  }

  /** A batch is the serial series of its inputs. */
  lemma DecodeIsSerial(model: Model, config: StageConfig, limit: nat, st: Shared, prompts: map<SessionId, seq<Row>>, inputs: seq<StageInput>)
    requires AllExact(st, prompts) && Smooth(config, limit, st, DecodeOp(inputs, HEALTHY))
    ensures AsSerial(DecodeBatch(model, config, limit, st, inputs, HEALTHY).0) == SerialSeries(model, config, AsSerial(st), inputs).0
    ensures DecodeBatch(model, config, limit, st, inputs, HEALTHY).1 == SerialSeries(model, config, AsSerial(st), inputs).1
  {
    hide DecodeBatch, Sequential, SerialSeries, Readable, AsSerial, Exact, Refusal, Valid, Distinct;
    SequentialIsSerial(model, config, limit, st, prompts, inputs);
    BatchEqualsAnyOrder(model, config, limit, st, inputs, inputs);
  }

  // --- Rollback and close ---------------------------------------------------------------------------

  lemma {:induction false} CleanFlat(cells: Cells, k: nat)
    requires k <= |cells| && forall p :: 0 <= p < |cells| ==> |cells[p]| == 1
    ensures |Flat(cells)| == |cells| && Flat(cells[..k]) == Flat(cells)[..k]
  {
    if k < |cells| {
      CleanFlat(cells[..|cells| - 1], k);
      assert cells[..|cells| - 1][..k] == cells[..k];
    } else {
      assert cells[..k] == cells;
      if cells != [] {
        CleanFlat(cells[..|cells| - 1], |cells| - 1);
      }
    }
  }

  lemma RollbackIsSerial(st: Shared, prompts: map<SessionId, seq<Row>>, id: SessionId, count: int, engineAccepts: bool)
    requires AllExact(st, prompts) && AllClean(st)
    ensures AsSerial(SharedRollback(st, id, count, engineAccepts).0) == RollbackSerial(AsSerial(st), id, count, engineAccepts).0
    ensures SharedRollback(st, id, count, engineAccepts).1 == RollbackSerial(AsSerial(st), id, count, engineAccepts).1
    ensures AllClean(SharedRollback(st, id, count, engineAccepts).0)
  {
    hide Flat, Held, AsSerial, AllClean, Exact;
    SerialKeys(st);
    if id in st.sessions {
      SerialAt(st, id);
      if SharedRollback(st, id, count, engineAccepts).1.Ok? {
        var session, position := st.sessions[id], st.sessions[id].nextPosition - count;
        var cells := CellsOf(st.memory, session.slot);
        CleanAt(st, id);
        CleanFlat(cells, position);
        var cut := SharedSession(session.slot, position, session.expectedDecodeStep - count);
        ReplacedIsSerial(st, id, cut, cells[..position]);
        CutClean(st, id, cut, cells[..position]);
      }
    }
  }

  lemma SerialAt(st: Shared, id: SessionId)
    requires id in st.sessions
    ensures id in AsSerial(st)
    ensures AsSerial(st)[id] == Session(Flat(CellsOf(st.memory, st.sessions[id].slot)), st.sessions[id].nextPosition, st.sessions[id].expectedDecodeStep)
  {
    hide Flat, CellsOf;
  }

  lemma CleanAt(st: Shared, id: SessionId)
    requires AllClean(st) && id in st.sessions
    ensures Clean(CellsOf(st.memory, st.sessions[id].slot), st.sessions[id].nextPosition)
  {
  }

  /** Replacing one session and the cells of its slot replaces one serial session. */
  lemma ReplacedIsSerial(st: Shared, id: SessionId, session: SharedSession, cells: Cells)
    requires DistinctSlots(st) && id in st.sessions && session.slot == st.sessions[id].slot
    ensures AsSerial(st.(sessions := st.sessions[id := session], memory := st.memory[session.slot := cells])) ==
            AsSerial(st)[id := Session(Flat(cells), session.nextPosition, session.expectedDecodeStep)]
  {
    hide Flat;
  }

  lemma CutClean(st: Shared, id: SessionId, session: SharedSession, cells: Cells)
    requires DistinctSlots(st) && AllClean(st) && id in st.sessions && session.slot == st.sessions[id].slot
    requires Clean(cells, session.nextPosition)
    ensures AllClean(st.(sessions := st.sessions[id := session], memory := st.memory[session.slot := cells]))
  {
    hide Clean;
  }

  lemma CloseIsSerial(st: Shared, id: SessionId)
    requires DistinctSlots(st)
    ensures AsSerial(SharedClose(st, id)) == AsSerial(st) - {id}
    ensures AllClean(st) ==> AllClean(SharedClose(st, id))
  {
    hide Flat, Clean;
  }

  lemma PrefillClean(model: Model, config: StageConfig, st: Shared, prompts: map<SessionId, seq<Row>>, leaked: set<nat>, input: StageInput, engine: EngineOutcome)
    requires AllExact(st, prompts) && Partitioned(st, leaked) && AllClean(st)
    ensures AllClean(SharedPrefill(model, config, st, input, engine).0)
  {
    hide InputRows, Exhausted, OutputFor, Held, FirstFree, AllExact, Partitioned, AllClean, Release, Fill;
    var slot := FirstFree(st.marked);
    if slot < |st.marked| {
      FreeSlotEmpty(st, prompts, leaked, slot);
      var held := st.(marked := st.marked[slot := true]);
      MarkedClean(st, slot);
      ReleaseClean(held, slot);
      match InputRows(model, config, input.payload)
      case None =>
      case Some(rows) => FilledClean(held, input.session, slot, rows);
    }
  }

  lemma FreeSlotEmpty(st: Shared, prompts: map<SessionId, seq<Row>>, leaked: set<nat>, slot: nat)
    requires AllExact(st, prompts) && Partitioned(st, leaked) && slot < |st.marked| && !st.marked[slot]
    ensures CellsOf(st.memory, slot) == [] && forall id :: id in st.sessions ==> st.sessions[id].slot != slot
  {
    hide Held, Exact;
    FreeSlotUnused(st, leaked, slot);
  }

  lemma MarkedClean(st: Shared, slot: nat)
    requires AllClean(st) && slot < |st.marked|
    ensures AllClean(st.(marked := st.marked[slot := true]))
  {
  }

  lemma ReleaseClean(st: Shared, slot: nat)
    requires AllClean(st) && forall id :: id in st.sessions ==> st.sessions[id].slot != slot
    ensures AllClean(Release(st, slot))
  {
    hide Clean;
  }

  lemma FilledClean(st: Shared, id: SessionId, slot: nat, rows: seq<Row>)
    requires AllClean(st) && CellsOf(st.memory, slot) == [] && forall other :: other in st.sessions ==> st.sessions[other].slot != slot
    ensures AllClean(st.(sessions := st.sessions[id := SharedSession(slot, |rows|, 1)],
                         memory := st.memory[slot := CellsOf(st.memory, slot) + Fill(rows)]))
  {
    assert [] + Fill(rows) == Fill(rows);
  }

  lemma DecodeClean(model: Model, config: StageConfig, limit: nat, st: Shared, prompts: map<SessionId, seq<Row>>, inputs: seq<StageInput>)
    requires AllExact(st, prompts) && AllClean(st)
    ensures AllClean(DecodeBatch(model, config, limit, st, inputs, HEALTHY).0)
  {
    hide DecodeBatch, AllExact, AllClean, Valid, Usable;
    CleanIffRead(model, config, limit, st, prompts, inputs, HEALTHY);
    ReachesAll(Valid(config, st, inputs, |inputs|));
  }

  // --- Every smooth history -------------------------------------------------------------------------

  lemma CallIsSerial(model: Model, config: StageConfig, limit: nat, st: Shared, prompts: map<SessionId, seq<Row>>, leaked: set<nat>, op: SharedOp)
    requires AllExact(st, prompts) && Partitioned(st, leaked) && AllClean(st) && Smooth(config, limit, st, op)
    ensures AsSerial(SharedCall(model, config, limit, st, op).0) == SerialCall(model, config, AsSerial(st), op).0
    ensures SharedCall(model, config, limit, st, op).1 == SerialCall(model, config, AsSerial(st), op).1
    ensures AllClean(SharedCall(model, config, limit, st, op).0)
  {
    hide SharedPrefill, DecodeBatch, SharedRollback, SharedClose, ExecuteSerial, SerialSeries, RollbackSerial, AsSerial, AllClean, Exact, FirstFree;
    match op
    case PrefillOp(input, engine) =>
      PrefillIsSerial(model, config, st, prompts, leaked, input, engine);
      PrefillClean(model, config, st, prompts, leaked, input, engine);
    case DecodeOp(inputs, batch) =>
      DecodeIsSerial(model, config, limit, st, prompts, inputs);
      DecodeClean(model, config, limit, st, prompts, inputs);
    case RollbackOp(id, count, engineAccepts) =>
      RollbackIsSerial(st, prompts, id, count, engineAccepts);
    case CloseOp(id) =>
      CloseIsSerial(st, id);
  }

  lemma {:induction false} RunIsReplay(model: Model, config: StageConfig, limit: nat, slots: nat, ops: seq<SharedOp>)
    ensures SharedRun(model, config, limit, slots, ops).0 == ReplayShared(model, config, limit, slots, ops)
  {
    hide SharedPrefill, DecodeBatch, SharedRollback, SharedClose;
    if ops != [] {
      RunIsReplay(model, config, limit, slots, ops[..|ops| - 1]);
    }
  }

  lemma SmoothPrefix(model: Model, config: StageConfig, limit: nat, slots: nat, ops: seq<SharedOp>)
    requires SmoothRun(model, config, limit, slots, ops) && ops != []
    ensures SmoothRun(model, config, limit, slots, ops[..|ops| - 1])
  {
    hide Smooth, SharedRun;
    var init := ops[..|ops| - 1];
    forall n | 0 <= n < |init| ensures Smooth(config, limit, SharedRun(model, config, limit, slots, init[..n]).0, init[n]) {
      assert init[..n] == ops[..n];
    }
  }

  /** Sharing one context among the sessions is invisible: over every smooth history of prefills, batched
      decodes, rollbacks and closes, each call gets the reply of serial mode, where every session has a context
      of its own, and the sessions end with the serial caches and counters. */
  lemma {:induction false} SharedIsSerial(model: Model, config: StageConfig, limit: nat, slots: nat, ops: seq<SharedOp>)
    requires SmoothRun(model, config, limit, slots, ops)
    ensures AsSerial(SharedRun(model, config, limit, slots, ops).0) == SerialRun(model, config, ops).0
    ensures SharedRun(model, config, limit, slots, ops).1 == SerialRun(model, config, ops).1
    ensures AllClean(SharedRun(model, config, limit, slots, ops).0)
  {
    if ops != [] {
      hide SharedCall, SerialCall, AllExact, Partitioned, AllClean, AsSerial, Smooth;
      var init, last := ops[..|ops| - 1], ops[|ops| - 1];
      SmoothPrefix(model, config, limit, slots, ops);
      SharedIsSerial(model, config, limit, slots, init);
      RunIsReplay(model, config, limit, slots, init);
      HistorySlots(model, config, limit, slots, init);
      CallIsSerial(model, config, limit, ReplayShared(model, config, limit, slots, init),
                   SharedStage.ReplayPrompts(model, config, limit, slots, init), ReplayLeaked(model, config, limit, slots, init), last);
    }
  }
}
