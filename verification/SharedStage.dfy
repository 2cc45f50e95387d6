/** Slot lifecycle of the shared context: allocation at prefill, release at close, expiry or failed
    prefill (runtime/adapters/llama_cpp_stage_adapter.cpp:531-554, 677-701, 882-937). */
module SharedStage {
  import opened StageSession
  import opened SharedDecode
  import Counting
  import opened Wrappers

  // --- The calls on values ------------------------------------------------------------------------

  /** Lowest unmarked slot, or the number of slots when all are marked. */
  function FirstFree(marked: seq<bool>): (slot: nat)
    ensures slot <= |marked|
    ensures slot < |marked| ==> !marked[slot]
    ensures forall k :: 0 <= k < slot ==> marked[k]
  {
    if marked == [] || !marked[0] then 0
    else
      var rest := FirstFree(marked[1..]);
      assert forall k :: 1 <= k < |marked| ==> marked[k] == marked[1..][k - 1];
      rest + 1
  }

  function Release(st: Shared, slot: nat): Shared {
    st.(marked := if slot < |st.marked| then st.marked[slot := false] else st.marked, memory := st.memory - {slot})
  }

  /** The prefill of these rows throws: before or after the engine call, or because a stage but the last
      finds a hidden row missing. */
  predicate PrefillThrows(config: StageConfig, engine: EngineOutcome) {
    engine.EngineThrew? || engine.EngineThrewLate? || (engine.EngineOutputMissing? && !IsLast(config))
  }

  /** A thrown prefill skips the release; a failed one does not. */
  function SharedPrefill(model: Model, config: StageConfig, st: Shared, input: StageInput, engine: EngineOutcome)
    : (Shared, SharedResult)
  {
    var slot := FirstFree(st.marked);
    if input.assignment != config.assignment then (st, SharedErr(StageProblem(AssignmentMismatch)))
    else if input.session in st.sessions then (st, SharedErr(StageProblem(DuplicateSession)))
    else if slot == |st.marked| then (st, SharedErr(CapacityExceeded))
    else
      var held := st.(marked := st.marked[slot := true]);
      match InputRows(model, config, input.payload)
      case None => (held, SharedErr(StageProblem(InvalidInput)))
      case Some(rows) =>
        if rows == [] then (Release(held, slot), SharedErr(StageProblem(EmptyTokens)))
        else if Exhausted(config, 0, |rows|, input) then (Release(held, slot), SharedErr(StageProblem(ContextExhausted)))
        else
          if PrefillThrows(config, engine) then (held, SharedErr(StageProblem(ExecutionFailed)))
          else if engine.EngineDecodeFailed? then (Release(held, slot), SharedErr(StageProblem(DecodeFailed)))
          else if engine.EngineOutputMissing? then (Release(held, slot), SharedErr(StageProblem(OutputMissing)))
          else
            (held.(sessions := held.sessions[input.session := SharedSession(slot, |rows|, 1)],
                   memory := held.memory[slot := CellsOf(held.memory, slot) + Fill(rows)]),
             SharedOk(OutputFor(model, config, Flat(CellsOf(held.memory, slot)), rows, input)))
  }

  /** One row at each position. */
  function Fill(rows: seq<Row>): (cells: Cells)
    ensures |cells| == |rows| && forall p :: 0 <= p < |rows| ==> cells[p] == [rows[p]]
  {
    seq(|rows|, p requires 0 <= p < |rows| => [rows[p]])
  }

  function SharedClose(st: Shared, id: SessionId): Shared {
    if id in st.sessions then Release(st, st.sessions[id].slot).(sessions := st.sessions - {id}) else st
  }

  function SharedRollback(st: Shared, id: SessionId, count: int, engineAccepts: bool): (Shared, Result<()>) {
    if count <= 0 then (st, Err(RollbackCountInvalid))
    else if id !in st.sessions then (st, Err(SessionNotFound))
    else
      var session := st.sessions[id];
      if count > session.nextPosition || count >= session.expectedDecodeStep then (st, Err(RollbackExceedsSuffix))
      else if !engineAccepts then (st, Err(RollbackRejected))
      else
        var position := session.nextPosition - count;
        var cells := CellsOf(st.memory, session.slot);
        (st.(sessions := st.sessions[id := SharedSession(session.slot, position, session.expectedDecodeStep - count)],
             memory := st.memory[session.slot := if position < |cells| then cells[..position] else cells]),
         Ok(()))
  }

  // --- Histories ------------------------------------------------------------------------------------

  /** Expiry of idle sessions is a series of closes. */
  datatype SharedOp =
    | PrefillOp(input: StageInput, engine: EngineOutcome)
    | DecodeOp(inputs: seq<StageInput>, batch: BatchEngine)
    | RollbackOp(id: SessionId, count: int, engineAccepts: bool)
    | CloseOp(id: SessionId)

  function ApplyShared(model: Model, config: StageConfig, limit: nat, st: Shared, op: SharedOp): Shared {
    match op
    case PrefillOp(input, engine) => SharedPrefill(model, config, st, input, engine).0
    case DecodeOp(inputs, batch) => DecodeBatch(model, config, limit, st, inputs, batch).0
    case RollbackOp(id, count, engineAccepts) => SharedRollback(st, id, count, engineAccepts).0
    case CloseOp(id) => SharedClose(st, id)
  }

  function Start(slots: nat): Shared {
    Shared(map[], seq(slots, k => false), map[])
  }

  function ReplayShared(model: Model, config: StageConfig, limit: nat, slots: nat, ops: seq<SharedOp>): Shared {
    if ops == [] then Start(slots)
    else ApplyShared(model, config, limit, ReplayShared(model, config, limit, slots, ops[..|ops| - 1]), ops[|ops| - 1])
  }

  /** Rows each live session was prefilled with. */
  function NextPrompts(before: Shared, prompts: map<SessionId, seq<Row>>, after: Shared): map<SessionId, seq<Row>> {
    map id | id in after.sessions ::
      if id in before.sessions && id in prompts then prompts[id] else Flat(CellsOf(after.memory, after.sessions[id].slot))
  }

  function ReplayPrompts(model: Model, config: StageConfig, limit: nat, slots: nat, ops: seq<SharedOp>): map<SessionId, seq<Row>> {
    if ops == [] then map[]
    else
      NextPrompts(ReplayShared(model, config, limit, slots, ops[..|ops| - 1]),
                  ReplayPrompts(model, config, limit, slots, ops[..|ops| - 1]),
                  ReplayShared(model, config, limit, slots, ops))
  }

  /** The slot a call leaves marked without a session: a prefill that throws after allocation. */
  function LeakedBy(model: Model, config: StageConfig, st: Shared, op: SharedOp): set<nat> {
    if && op.PrefillOp?
       && op.input.assignment == config.assignment
       && op.input.session !in st.sessions
       && FirstFree(st.marked) < |st.marked|
    then
      match InputRows(model, config, op.input.payload)
      case None => {FirstFree(st.marked)}
      case Some(rows) =>
        if rows != [] && !Exhausted(config, 0, |rows|, op.input) && PrefillThrows(config, op.engine) then {FirstFree(st.marked)}
        else {}
    else {}
  }

  function ReplayLeaked(model: Model, config: StageConfig, limit: nat, slots: nat, ops: seq<SharedOp>): set<nat> {
    if ops == [] then {}
    else
      ReplayLeaked(model, config, limit, slots, ops[..|ops| - 1])
      + LeakedBy(model, config, ReplayShared(model, config, limit, slots, ops[..|ops| - 1]), ops[|ops| - 1])
  }

  /** The slot leaked by call n of a history. */
  function StepLeak(model: Model, config: StageConfig, limit: nat, slots: nat, ops: seq<SharedOp>, n: nat): set<nat>
    requires n < |ops|
  {
    LeakedBy(model, config, ReplayShared(model, config, limit, slots, ops[..n]), ops[n])
  }

  // --- What every history keeps -----------------------------------------------------------------------

  ghost function LiveSlots(st: Shared): set<nat> {
    set id | id in st.sessions :: st.sessions[id].slot
  }

  ghost function MarkedSlots(st: Shared): set<nat> {
    set k | 0 <= k < |st.marked| && st.marked[k]
  }

  /** The cells start with the prompt, one row at each of its positions, every position so far holds a
      row, and at most the position that is decoded next holds one already. */
  predicate Held(cells: Cells, prompt: seq<Row>, next: int) {
    && |prompt| <= next <= |cells| <= next + 1
    && (forall p :: 0 <= p < |prompt| ==> cells[p] == [prompt[p]])
    && (forall p :: 0 <= p < |cells| ==> cells[p] != [])
  }

  /** No row was stored without being read: one row for each position so far. */
  predicate Clean(cells: Cells, next: int) {
    |cells| == next && forall p :: 0 <= p < |cells| ==> |cells[p]| == 1
  }

  /** The slot holds the prompt and a row for every position, and the counters agree. */
  predicate Exact(st: Shared, session: SharedSession, prompt: seq<Row>) {
    && session.slot in st.memory
    && Held(st.memory[session.slot], prompt, session.nextPosition)
    && session.expectedDecodeStep >= 1
    && session.nextPosition == |prompt| + session.expectedDecodeStep - 1
  }

  ghost predicate AllExact(st: Shared, prompts: map<SessionId, seq<Row>>) {
    && st.sessions.Keys == prompts.Keys
    && DistinctSlots(st)
    && (forall id :: id in st.sessions ==> Exact(st, st.sessions[id], prompts[id]))
    && (forall slot :: slot in st.memory ==> slot < |st.marked| && st.marked[slot])
  }

  ghost predicate AllClean(st: Shared) {
    forall id :: id in st.sessions ==> Clean(CellsOf(st.memory, st.sessions[id].slot), st.sessions[id].nextPosition)
  }

  /** Marked slots are the live ones and the leaked ones, and no live slot is leaked. */
  ghost predicate Partitioned(st: Shared, leaked: set<nat>) {
    MarkedSlots(st) == LiveSlots(st) + leaked && LiveSlots(st) !! leaked
  }

  // --- A batch, session by session ------------------------------------------------------------------

  /** Accepted inputs belong to different sessions. */
  ghost predicate OneEach(inputs: seq<StageInput>, valid: seq<nat>) {
    forall k, l :: 0 <= k < l < |valid| && valid[k] < |inputs| && valid[l] < |inputs| ==> inputs[valid[k]].session != inputs[valid[l]].session
  }

  lemma ValidOneEach(config: StageConfig, st: Shared, inputs: seq<StageInput>, n: nat)
    requires n <= |inputs|
    ensures OneEach(inputs, Valid(config, st, inputs, n))
  {
    hide Valid, Exhausted;
    var valid := Valid(config, st, inputs, n);
    forall k, l | 0 <= k < l < |valid| ensures inputs[valid[k]].session != inputs[valid[l]].session {
      assert inputs[..valid[l]][valid[k]] == inputs[valid[k]];
      ClaimedHas(config, st, inputs[..valid[l]], valid[k]);
    }
  }

  ghost predicate Carries(inputs: seq<StageInput>, valid: seq<nat>, id: SessionId) {
    exists k :: 0 <= k < |valid| && valid[k] < |inputs| && inputs[valid[k]].session == id
  }

  lemma UsablePrefix(config: StageConfig, sessions: map<SessionId, SharedSession>, inputs: seq<StageInput>, valid: seq<nat>, n: nat)
    requires Usable(config, sessions, inputs, valid) && OneEach(inputs, valid) && n <= |valid|
    ensures Usable(config, sessions, inputs, valid[..n]) && OneEach(inputs, valid[..n])
  {
  }

  /** What the engine call leaves in the slot of a session. */
  lemma {:induction false} StoredAt(config: StageConfig, st: Shared, inputs: seq<StageInput>, valid: seq<nat>, id: SessionId)
    requires DistinctSlots(st) && Usable(config, st.sessions, inputs, valid) && OneEach(inputs, valid) && id in st.sessions
    ensures var slot, next := st.sessions[id].slot, st.sessions[id].nextPosition;
            var cells := CellsOf(StoreAll(config, st.sessions, st.memory, inputs, valid), slot);
            && (!Carries(inputs, valid, id) ==> cells == CellsOf(st.memory, slot))
            && (forall k :: 0 <= k < |valid| && inputs[valid[k]].session == id ==>
                  cells == Put(CellsOf(st.memory, slot), next, DecodeRow(config, inputs[valid[k]].payload).value))
  {
    hide Put, DecodeRow;
    if valid != [] {
      var init, last := valid[..|valid| - 1], inputs[valid[|valid| - 1]];
      UsablePrefix(config, st.sessions, inputs, valid, |init|);
      StoredAt(config, st, inputs, init, id);
      if last.session == id {
        assert !Carries(inputs, init, id);
      } else {
        assert forall k :: 0 <= k < |valid| && inputs[valid[k]].session == id ==> k < |init| && init[k] == valid[k];
        assert Carries(inputs, init, id) ==> Carries(inputs, valid, id);
      }
    }
  }

  lemma {:induction false} StoredKeys(config: StageConfig, st: Shared, inputs: seq<StageInput>, valid: seq<nat>)
    requires Usable(config, st.sessions, inputs, valid) && forall id :: id in st.sessions ==> st.sessions[id].slot in st.memory
    ensures StoreAll(config, st.sessions, st.memory, inputs, valid).Keys == st.memory.Keys
  {
    hide Put, DecodeRow;
    if valid != [] {
      assert forall k :: 0 <= k < |valid| - 1 ==> valid[..|valid| - 1][k] == valid[k];
      StoredKeys(config, st, inputs, valid[..|valid| - 1]);
    }
  }

  function Bumped(session: SharedSession): SharedSession {
    session.(nextPosition := session.nextPosition + 1, expectedDecodeStep := session.expectedDecodeStep + 1)
  }

  /** What reading back does to the counters of a session. */
  lemma {:induction false} CountedAt(config: StageConfig, sessions: map<SessionId, SharedSession>, inputs: seq<StageInput>, valid: seq<nat>, engine: BatchEngine, id: SessionId)
    requires Usable(config, sessions, inputs, valid) && OneEach(inputs, valid) && id in sessions
    ensures var after := CountAll(config, sessions, inputs, valid, engine);
            && (!Carries(inputs, valid, id) ==> after[id] == sessions[id])
            && (forall k :: 0 <= k < |valid| && inputs[valid[k]].session == id ==>
                  after[id] == if engine.rows(valid[k]).RowOk? then Bumped(sessions[id]) else sessions[id])
  {
    hide DecodeRow;
    if valid != [] {
      var init, last := valid[..|valid| - 1], inputs[valid[|valid| - 1]];
      UsablePrefix(config, sessions, inputs, valid, |init|);
      CountedAt(config, sessions, inputs, init, engine, id);
      if last.session == id {
        assert !Carries(inputs, init, id);
      } else {
        assert forall k :: 0 <= k < |valid| && inputs[valid[k]].session == id ==> k < |init| && init[k] == valid[k];
        assert Carries(inputs, init, id) ==> Carries(inputs, valid, id);
      }
    }
  }

  /** The output of the row at place k was read. */
  predicate WasRead(valid: seq<nat>, engine: BatchEngine, k: nat)
    requires k < |valid|
  {
    k < RowsReached(valid, engine) && engine.rows(valid[k]).RowOk?
  }

  /** A session after a batch whose engine call succeeded: its row is stored, and its counters move when
      the output was read. */
  lemma SessionAfter(config: StageConfig, st: Shared, inputs: seq<StageInput>, valid: seq<nat>, engine: BatchEngine, id: SessionId)
    requires DistinctSlots(st) && Usable(config, st.sessions, inputs, valid) && OneEach(inputs, valid) && id in st.sessions
    requires engine.call.CallOk?
    ensures var after, slot := BatchState(config, st, inputs, valid, engine), st.sessions[id].slot;
            && id in after.sessions
            && (!Carries(inputs, valid, id) ==> after.sessions[id] == st.sessions[id] && CellsOf(after.memory, slot) == CellsOf(st.memory, slot))
            && (forall k :: 0 <= k < |valid| && inputs[valid[k]].session == id ==>
                  && after.sessions[id] == (if WasRead(valid, engine, k) then Bumped(st.sessions[id]) else st.sessions[id])
                  && CellsOf(after.memory, slot) ==
                     Put(CellsOf(st.memory, slot), st.sessions[id].nextPosition, DecodeRow(config, inputs[valid[k]].payload).value))
  {
    hide Put, DecodeRow, StoreAll, CountAll, RowsReached, DistinctSlots, Usable;
    var n := RowsReached(valid, engine);
    forall k | 0 <= k < |valid| ensures valid[k] < |inputs| { LiveAt(config, st, inputs, valid, k); }
    UsablePrefix(config, st.sessions, inputs, valid, n);
    StoredAt(config, st, inputs, valid, id);
    CountedAt(config, st.sessions, inputs, valid[..n], engine, id);
    assert Carries(inputs, valid[..n], id) ==> Carries(inputs, valid, id);
    forall k | 0 <= k < |valid| && inputs[valid[k]].session == id
      ensures BatchState(config, st, inputs, valid, engine).sessions[id] == if WasRead(valid, engine, k) then Bumped(st.sessions[id]) else st.sessions[id]
    {
      if k < n {
        assert valid[..n][k] == valid[k];
      } else {
        NotCarried(inputs, valid, n, k);
      }
    }
  }

  lemma NotCarried(inputs: seq<StageInput>, valid: seq<nat>, n: nat, k: nat)
    requires OneEach(inputs, valid) && n <= k < |valid| && valid[k] < |inputs|
    ensures !Carries(inputs, valid[..n], inputs[valid[k]].session)
  {
  }

  /** Storing a row at the next position and moving the counters or not keeps a session exact. */
  lemma PutHeld(cells: Cells, prompt: seq<Row>, next: int, row: Row)
    requires Held(cells, prompt, next)
    ensures Held(Put(cells, next, row), prompt, next) && Held(Put(cells, next, row), prompt, next + 1)
    ensures !Clean(Put(cells, next, row), next)
    ensures Clean(cells, next) ==> Clean(Put(cells, next, row), next + 1)
  {
  }

  /** Whatever a batch does, it leaves the slots alone and each session exact. */
  lemma BatchKeeps(config: StageConfig, st: Shared, prompts: map<SessionId, seq<Row>>, inputs: seq<StageInput>, valid: seq<nat>, engine: BatchEngine)
    requires AllExact(st, prompts) && OneEach(inputs, valid)
    ensures var after := BatchState(config, st, inputs, valid, engine);
            AllExact(after, prompts) && LiveSlots(after) == LiveSlots(st) && after.marked == st.marked
  {
    hide Put, DecodeRow, StoreAll, CountAll, RowsReached, Usable, Held, LiveSlots, WasRead;
    if Usable(config, st.sessions, inputs, valid) && engine.call.CallOk? {
      var after := BatchState(config, st, inputs, valid, engine);
      StoredKeys(config, st, inputs, valid);
      forall id | id in st.sessions ensures after.sessions[id].slot == st.sessions[id].slot && Exact(after, after.sessions[id], prompts[id]) {
        SessionAfter(config, st, inputs, valid, engine, id);
        var cells, next := CellsOf(st.memory, st.sessions[id].slot), st.sessions[id].nextPosition;
        if Carries(inputs, valid, id) {
          var k :| 0 <= k < |valid| && valid[k] < |inputs| && inputs[valid[k]].session == id;
          LiveAt(config, st, inputs, valid, k);
          PutHeld(cells, prompts[id], next, DecodeRow(config, inputs[valid[k]].payload).value);
        }
      }
      SameSlots(st, after);
    }
  }

  lemma SameSlots(before: Shared, after: Shared)
    requires before.sessions.Keys == after.sessions.Keys
    requires forall id :: id in before.sessions ==> after.sessions[id].slot == before.sessions[id].slot
    ensures LiveSlots(after) == LiveSlots(before)
  {
    assert forall slot :: slot in LiveSlots(before) <==> slot in LiveSlots(after);
  }

  lemma DecodeKeeps(model: Model, config: StageConfig, limit: nat, st: Shared, prompts: map<SessionId, seq<Row>>, inputs: seq<StageInput>, engine: BatchEngine)
    requires AllExact(st, prompts)
    ensures var after := DecodeBatch(model, config, limit, st, inputs, engine).0;
            AllExact(after, prompts) && LiveSlots(after) == LiveSlots(st) && after.marked == st.marked
  {
    hide AllExact, LiveSlots, BatchState, RowResult, Valid, OneEach;
    ValidOneEach(config, st, inputs, |inputs|);
    BatchKeeps(config, st, prompts, inputs, Valid(config, st, inputs, |inputs|), engine);
  }

  /** The engine decoded a row whose output was not read. */
  ghost predicate LeavesUnread(config: StageConfig, limit: nat, st: Shared, inputs: seq<StageInput>, engine: BatchEngine) {
    var valid := Valid(config, st, inputs, |inputs|);
    && |valid| <= limit && Usable(config, st.sessions, inputs, valid) && engine.call.CallOk?
    && exists k :: 0 <= k < |valid| && !WasRead(valid, engine, k)
  }

  /** From slots with one row for each position, a batch leaves such slots exactly when every row it stored
      was also read. */
  lemma CleanIffRead(model: Model, config: StageConfig, limit: nat, st: Shared, prompts: map<SessionId, seq<Row>>, inputs: seq<StageInput>, engine: BatchEngine)
    requires AllExact(st, prompts) && AllClean(st)
    ensures AllClean(DecodeBatch(model, config, limit, st, inputs, engine).0) <==> !LeavesUnread(config, limit, st, inputs, engine)
  {
    hide Put, DecodeRow, Valid, RowsReached, Held, RowResult, WasRead, DistinctSlots, Usable, StoreAll, CountAll, Clean;
    var valid := Valid(config, st, inputs, |inputs|);
    ValidOneEach(config, st, inputs, |inputs|);
    if |valid| <= limit && Usable(config, st.sessions, inputs, valid) && engine.call.CallOk? {
      var after := BatchState(config, st, inputs, valid, engine);
      forall id | id in st.sessions
        ensures Clean(CellsOf(after.memory, after.sessions[id].slot), after.sessions[id].nextPosition)
                <==> forall k :: 0 <= k < |valid| && inputs[valid[k]].session == id ==> WasRead(valid, engine, k)
      {
        CleanAfter(config, st, prompts[id], inputs, valid, engine, id);
      }
      forall k | 0 <= k < |valid| ensures inputs[valid[k]].session in st.sessions { LiveAt(config, st, inputs, valid, k); }
      if k :| 0 <= k < |valid| && !WasRead(valid, engine, k) {
        assert inputs[valid[k]].session in after.sessions;
      }
    }
  }

  lemma LiveAt(config: StageConfig, st: Shared, inputs: seq<StageInput>, valid: seq<nat>, k: nat)
    requires Usable(config, st.sessions, inputs, valid) && k < |valid|
    ensures valid[k] < |inputs| && inputs[valid[k]].session in st.sessions && DecodeRow(config, inputs[valid[k]].payload).Some?
  {
  }

  lemma CleanAfter(config: StageConfig, st: Shared, prompt: seq<Row>, inputs: seq<StageInput>, valid: seq<nat>, engine: BatchEngine, id: SessionId)
    requires DistinctSlots(st) && Usable(config, st.sessions, inputs, valid) && OneEach(inputs, valid) && engine.call.CallOk?
    requires forall k :: 0 <= k < |valid| ==> valid[k] < |inputs|
    requires id in st.sessions && Exact(st, st.sessions[id], prompt)
    requires Clean(CellsOf(st.memory, st.sessions[id].slot), st.sessions[id].nextPosition)
    ensures var after := BatchState(config, st, inputs, valid, engine);
            && id in after.sessions
            && (Clean(CellsOf(after.memory, after.sessions[id].slot), after.sessions[id].nextPosition)
                <==> forall k :: 0 <= k < |valid| && inputs[valid[k]].session == id ==> WasRead(valid, engine, k))
  {
    hide Put, DecodeRow, Held, WasRead, DistinctSlots, Usable, BatchState, Clean;
    SessionAfter(config, st, inputs, valid, engine, id);
    if Carries(inputs, valid, id) {
      var k :| 0 <= k < |valid| && valid[k] < |inputs| && inputs[valid[k]].session == id;
      LiveAt(config, st, inputs, valid, k);
      PutHeld(CellsOf(st.memory, st.sessions[id].slot), prompt, st.sessions[id].nextPosition, DecodeRow(config, inputs[valid[k]].payload).value);
      assert forall l :: 0 <= l < |valid| && inputs[valid[l]].session == id ==> l == k;
    }
  }

  // --- The other calls ------------------------------------------------------------------------------

  lemma ReleaseKeeps(st: Shared, prompts: map<SessionId, seq<Row>>, leaked: set<nat>, id: SessionId)
    requires AllExact(st, prompts) && Partitioned(st, leaked)
    ensures var after := SharedClose(st, id);
            AllExact(after, NextPrompts(st, prompts, after)) && Partitioned(after, leaked)
  {
    hide Held, Exact, SharedClose, NextPrompts, MarkedSlots, LiveSlots;
    if id in st.sessions {
      CloseExact(st, prompts, id);
      CloseMarks(st, leaked, id);
      LiveWithout(st, id);
    } else {
      NothingClosed(st, prompts, id);
    }
  }

  lemma NothingClosed(st: Shared, prompts: map<SessionId, seq<Row>>, id: SessionId)
    requires st.sessions.Keys == prompts.Keys && id !in st.sessions
    ensures SharedClose(st, id) == st && NextPrompts(st, prompts, st) == prompts
  {
  }

  lemma CloseExact(st: Shared, prompts: map<SessionId, seq<Row>>, id: SessionId)
    requires AllExact(st, prompts) && id in st.sessions
    ensures AllExact(SharedClose(st, id), NextPrompts(st, prompts, SharedClose(st, id)))
  {
    hide Held;
  }

  lemma CloseMarks(st: Shared, leaked: set<nat>, id: SessionId)
    requires Partitioned(st, leaked) && id in st.sessions
    ensures MarkedSlots(SharedClose(st, id)) == MarkedSlots(st) - {st.sessions[id].slot} && st.sessions[id].slot !in leaked
  {
    assert st.sessions[id].slot in LiveSlots(st);
    assert st.sessions[id].slot in MarkedSlots(st);
  }

  lemma LiveWithout(st: Shared, id: SessionId)
    requires DistinctSlots(st) && id in st.sessions
    ensures LiveSlots(SharedClose(st, id)) == LiveSlots(st) - {st.sessions[id].slot}
  {
    var after, slot := SharedClose(st, id), st.sessions[id].slot;
    forall k | k in LiveSlots(st) - {slot} ensures k in LiveSlots(after) {
      var other :| other in st.sessions && st.sessions[other].slot == k;
      assert other in after.sessions && after.sessions[other] == st.sessions[other];
    }
  }

  lemma RollbackKeeps(st: Shared, prompts: map<SessionId, seq<Row>>, id: SessionId, count: int, engineAccepts: bool)
    requires AllExact(st, prompts)
    ensures var after := SharedRollback(st, id, count, engineAccepts).0;
            AllExact(after, prompts) && LiveSlots(after) == LiveSlots(st) && after.marked == st.marked
  {
    hide LiveSlots, Exact;
    var (after, result) := SharedRollback(st, id, count, engineAccepts);
    if result.Ok? {
      SameSlots(st, after);
      CutExact(st, after, st.sessions[id], after.sessions[id], prompts[id]);
      forall other | other in st.sessions ensures Exact(after, after.sessions[other], prompts[other]) {
        MemoryKept(st, prompts, other);
        if other != id {
          ExactFrame(st, after, st.sessions[other], prompts[other]);
        }
      }
      MemoryKept(st, prompts, id);
    }
  }

  lemma MemoryKept(st: Shared, prompts: map<SessionId, seq<Row>>, id: SessionId)
    requires AllExact(st, prompts) && id in st.sessions
    ensures st.sessions[id].slot in st.memory
  {
  }

  lemma ExactFrame(st: Shared, after: Shared, session: SharedSession, prompt: seq<Row>)
    requires Exact(st, session, prompt) && session.slot in after.memory && after.memory[session.slot] == st.memory[session.slot]
    ensures Exact(after, session, prompt)
  {
    hide Held;
  }

  lemma CutExact(st: Shared, after: Shared, session: SharedSession, cut: SharedSession, prompt: seq<Row>)
    requires Exact(st, session, prompt) && cut.slot == session.slot
    requires 0 <= cut.nextPosition < session.nextPosition && cut.expectedDecodeStep >= 1
    requires session.nextPosition - cut.nextPosition == session.expectedDecodeStep - cut.expectedDecodeStep
    requires var cells := CellsOf(st.memory, session.slot);
             session.slot in after.memory
             && after.memory[session.slot] == if cut.nextPosition < |cells| then cells[..cut.nextPosition] else cells
    ensures Exact(after, cut, prompt)
  {
  }

  /** A free slot belongs to no session and holds nothing. */
  lemma FreeSlotUnused(st: Shared, leaked: set<nat>, slot: nat)
    requires Partitioned(st, leaked) && slot < |st.marked| && !st.marked[slot]
    ensures slot !in MarkedSlots(st) && slot !in LiveSlots(st) && slot !in leaked
    ensures forall id :: id in st.sessions ==> st.sessions[id].slot != slot
  {
    assert forall id :: id in st.sessions ==> st.sessions[id].slot in LiveSlots(st);
  }

  lemma HeldKeeps(st: Shared, prompts: map<SessionId, seq<Row>>, leaked: set<nat>, slot: nat)
    requires AllExact(st, prompts) && Partitioned(st, leaked) && slot < |st.marked| && !st.marked[slot]
    ensures var held := st.(marked := st.marked[slot := true]);
            AllExact(held, NextPrompts(st, prompts, held)) && Partitioned(held, leaked + {slot})
  {
    hide Held;
    FreeSlotUnused(st, leaked, slot);
    var held := st.(marked := st.marked[slot := true]);
    assert MarkedSlots(held) == MarkedSlots(st) + {slot};
    assert LiveSlots(held) == LiveSlots(st);
    assert NextPrompts(st, prompts, held) == prompts;
  }

  lemma ReleasedKeeps(st: Shared, prompts: map<SessionId, seq<Row>>, leaked: set<nat>, slot: nat)
    requires AllExact(st, prompts) && Partitioned(st, leaked) && slot < |st.marked| && !st.marked[slot]
    ensures var released := Release(st.(marked := st.marked[slot := true]), slot);
            AllExact(released, NextPrompts(st, prompts, released)) && Partitioned(released, leaked)
  {
    hide Held;
    FreeSlotUnused(st, leaked, slot);
    var released := Release(st.(marked := st.marked[slot := true]), slot);
    assert released.marked == st.marked;
    assert LiveSlots(released) == LiveSlots(st);
    assert NextPrompts(st, prompts, released) == prompts;
  }

  lemma {:induction false} FlatFill(rows: seq<Row>)
    ensures Flat(Fill(rows)) == rows
  {
    if rows != [] {
      FlatFill(rows[..|rows| - 1]);
      assert Fill(rows)[..|rows| - 1] == Fill(rows[..|rows| - 1]);
    }
  }

  lemma AdmittedKeeps(st: Shared, prompts: map<SessionId, seq<Row>>, leaked: set<nat>, slot: nat, id: SessionId, rows: seq<Row>)
    requires AllExact(st, prompts) && Partitioned(st, leaked) && slot < |st.marked| && !st.marked[slot] && id !in st.sessions
    ensures CellsOf(st.memory, slot) == []
    ensures var after := Shared(st.sessions[id := SharedSession(slot, |rows|, 1)], st.marked[slot := true], st.memory[slot := Fill(rows)]);
            AllExact(after, NextPrompts(st, prompts, after)) && Partitioned(after, leaked)
  {
    hide Fill, Flat, Held, NextPrompts, Exact, AllExact;
    FreeSlotUnused(st, leaked, slot);
    AdmittedExact(st, prompts, slot, id, rows);
    var after := Shared(st.sessions[id := SharedSession(slot, |rows|, 1)], st.marked[slot := true], st.memory[slot := Fill(rows)]);
    assert MarkedSlots(after) == MarkedSlots(st) + {slot};
    LiveWith(st, id, SharedSession(slot, |rows|, 1), after);
  }

  lemma AdmittedExact(st: Shared, prompts: map<SessionId, seq<Row>>, slot: nat, id: SessionId, rows: seq<Row>)
    requires AllExact(st, prompts) && slot < |st.marked| && !st.marked[slot] && id !in st.sessions
    requires forall other :: other in st.sessions ==> st.sessions[other].slot != slot
    ensures CellsOf(st.memory, slot) == []
    ensures var after := Shared(st.sessions[id := SharedSession(slot, |rows|, 1)], st.marked[slot := true], st.memory[slot := Fill(rows)]);
            AllExact(after, NextPrompts(st, prompts, after))
  {
    hide Fill, Flat, Held;
    FlatFill(rows);
    FilledHeld(rows);
  }

  lemma FilledHeld(rows: seq<Row>)
    ensures Held(Fill(rows), rows, |rows|)
  {
  }

  lemma LiveWith(st: Shared, id: SessionId, session: SharedSession, after: Shared)
    requires id !in st.sessions && after.sessions == st.sessions[id := session]
    ensures LiveSlots(after) == LiveSlots(st) + {session.slot}
  {
    assert after.sessions[id].slot == session.slot;
    forall k | k in LiveSlots(st) ensures k in LiveSlots(after) {
      var other :| other in st.sessions && st.sessions[other].slot == k;
      assert other in after.sessions && after.sessions[other] == st.sessions[other];
    }
  }

  lemma SamePrompts(st: Shared, prompts: map<SessionId, seq<Row>>)
    requires AllExact(st, prompts)
    ensures NextPrompts(st, prompts, st) == prompts
  {
  }

  lemma PrefillKeeps(model: Model, config: StageConfig, st: Shared, prompts: map<SessionId, seq<Row>>, leaked: set<nat>, input: StageInput, engine: EngineOutcome)
    requires AllExact(st, prompts) && Partitioned(st, leaked)
    ensures var after := SharedPrefill(model, config, st, input, engine).0;
            && AllExact(after, NextPrompts(st, prompts, after))
            && Partitioned(after, leaked + LeakedBy(model, config, st, PrefillOp(input, engine)))
  {
    hide InputRows, Exhausted, OutputFor, Partitioned, AllExact, NextPrompts, Release, Flat, Fill, CellsOf, FirstFree;
    var slot := FirstFree(st.marked);
    assert leaked + {} == leaked;
    SamePrompts(st, prompts);
    if slot < |st.marked| && input.session !in st.sessions {
      HeldKeeps(st, prompts, leaked, slot);
      ReleasedKeeps(st, prompts, leaked, slot);
      match InputRows(model, config, input.payload)
      case None =>
      case Some(rows) =>
        AdmittedKeeps(st, prompts, leaked, slot, input.session, rows);
        assert [] + Fill(rows) == Fill(rows);
    }
  }

  lemma ApplyKeeps(model: Model, config: StageConfig, limit: nat, st: Shared, prompts: map<SessionId, seq<Row>>, leaked: set<nat>, op: SharedOp)
    requires AllExact(st, prompts) && Partitioned(st, leaked)
    ensures var after := ApplyShared(model, config, limit, st, op);
            && AllExact(after, NextPrompts(st, prompts, after))
            && Partitioned(after, leaked + LeakedBy(model, config, st, op))
  {
    hide SharedPrefill, DecodeBatch, SharedRollback, SharedClose, Exact, DistinctSlots, LiveSlots, InputRows, FirstFree;
    var after := ApplyShared(model, config, limit, st, op);
    assert !op.PrefillOp? ==> leaked + LeakedBy(model, config, st, op) == leaked;
    assert after.sessions.Keys == st.sessions.Keys ==> NextPrompts(st, prompts, after) == prompts;
    match op
    case PrefillOp(input, engine) => PrefillKeeps(model, config, st, prompts, leaked, input, engine);
    case DecodeOp(inputs, batch) => DecodeKeeps(model, config, limit, st, prompts, inputs, batch);
    case RollbackOp(id, count, engineAccepts) => RollbackKeeps(st, prompts, id, count, engineAccepts);
    case CloseOp(id) => ReleaseKeeps(st, prompts, leaked, id);
  }

  /** Over every history: live sessions hold pairwise distinct slots, each slot starts with its prompt and
      holds a row for every position, next_position == prompt length + expected_decode_step - 1, and the
      marked slots are the live slots plus those that thrown prefills left behind. */
  lemma {:induction false} HistorySlots(model: Model, config: StageConfig, limit: nat, slots: nat, ops: seq<SharedOp>)
    ensures AllExact(ReplayShared(model, config, limit, slots, ops), ReplayPrompts(model, config, limit, slots, ops))
    ensures Partitioned(ReplayShared(model, config, limit, slots, ops), ReplayLeaked(model, config, limit, slots, ops))
  {
    if ops == [] {
      assert MarkedSlots(Start(slots)) == {};
    } else {
      hide ApplyShared, AllExact, Partitioned, LeakedBy, NextPrompts;
      var init, last := ops[..|ops| - 1], ops[|ops| - 1];
      HistorySlots(model, config, limit, slots, init);
      ApplyKeeps(model, config, limit, ReplayShared(model, config, limit, slots, init),
                 ReplayPrompts(model, config, limit, slots, init), ReplayLeaked(model, config, limit, slots, init), last);
    }
  }

  /** The marks are exactly the live slots just when no prefill of the history threw after allocation. */
  lemma MarksAreLiveSlots(model: Model, config: StageConfig, limit: nat, slots: nat, ops: seq<SharedOp>)
    ensures MarkedSlots(ReplayShared(model, config, limit, slots, ops)) == LiveSlots(ReplayShared(model, config, limit, slots, ops))
            <==> forall n :: 0 <= n < |ops| ==> StepLeak(model, config, limit, slots, ops, n) == {}
  {
    hide AllExact, LiveSlots, MarkedSlots, LeakedBy;
    HistorySlots(model, config, limit, slots, ops);
    LeaksAddUp(model, config, limit, slots, ops);
  }

  lemma StepLeakPrefix(model: Model, config: StageConfig, limit: nat, slots: nat, ops: seq<SharedOp>, n: nat)
    requires n < |ops| - 1
    ensures StepLeak(model, config, limit, slots, ops[..|ops| - 1], n) == StepLeak(model, config, limit, slots, ops, n)
  {
    assert ops[..|ops| - 1][..n] == ops[..n];
  }

  lemma LastLeak(model: Model, config: StageConfig, limit: nat, slots: nat, ops: seq<SharedOp>)
    requires ops != []
    ensures ReplayLeaked(model, config, limit, slots, ops) ==
            ReplayLeaked(model, config, limit, slots, ops[..|ops| - 1]) + StepLeak(model, config, limit, slots, ops, |ops| - 1)
  {
  }

  lemma {:induction false} LeaksAddUp(model: Model, config: StageConfig, limit: nat, slots: nat, ops: seq<SharedOp>)
    ensures ReplayLeaked(model, config, limit, slots, ops) == {}
            <==> forall n :: 0 <= n < |ops| ==> StepLeak(model, config, limit, slots, ops, n) == {}
  {
    hide LeakedBy, ReplayShared, StepLeak;
    if ops != [] {
      var init := ops[..|ops| - 1];
      LeaksAddUp(model, config, limit, slots, init);
      forall n | 0 <= n < |init| ensures StepLeak(model, config, limit, slots, init, n) == StepLeak(model, config, limit, slots, ops, n) {
        StepLeakPrefix(model, config, limit, slots, ops, n);
      }
      LastLeak(model, config, limit, slots, ops);
    }
  }

  // --- Lost slots ---------------------------------------------------------------------------------------

  /** Number of calls of a history that leaked a slot. */
  function LeakCount(model: Model, config: StageConfig, limit: nat, slots: nat, ops: seq<SharedOp>): nat {
    if ops == [] then 0
    else LeakCount(model, config, limit, slots, ops[..|ops| - 1])
         + if StepLeak(model, config, limit, slots, ops, |ops| - 1) == {} then 0 else 1
  }

  lemma SlotsStay(model: Model, config: StageConfig, limit: nat, st: Shared, op: SharedOp)
    ensures |ApplyShared(model, config, limit, st, op).marked| == |st.marked|
  {
    hide InputRows, Exhausted, OutputFor, Valid, RowResult, StoreAll, CountAll, Usable, RowsReached;
  }

  lemma {:induction false} SlotCount(model: Model, config: StageConfig, limit: nat, slots: nat, ops: seq<SharedOp>)
    ensures |ReplayShared(model, config, limit, slots, ops).marked| == slots
  {
    hide ApplyShared;
    if ops != [] {
      SlotCount(model, config, limit, slots, ops[..|ops| - 1]);
      SlotsStay(model, config, limit, ReplayShared(model, config, limit, slots, ops[..|ops| - 1]), ops[|ops| - 1]);
    }
  }

  /** A call leaks at most one slot, and one that was free. */
  lemma LeakIsFree(model: Model, config: StageConfig, st: Shared, op: SharedOp)
    ensures LeakedBy(model, config, st, op) == {} ||
            (FirstFree(st.marked) < |st.marked| && LeakedBy(model, config, st, op) == {FirstFree(st.marked)})
  {
    hide InputRows, Exhausted, FirstFree;
  }

  /** Every leaking call costs another slot. */
  lemma {:induction false} LeaksCounted(model: Model, config: StageConfig, limit: nat, slots: nat, ops: seq<SharedOp>)
    ensures |ReplayLeaked(model, config, limit, slots, ops)| == LeakCount(model, config, limit, slots, ops)
  {
    hide ReplayShared, LeakedBy, FirstFree, AllExact, LiveSlots;
    if ops != [] {
      var init := ops[..|ops| - 1];
      var st := ReplayShared(model, config, limit, slots, init);
      LeaksCounted(model, config, limit, slots, init);
      LastLeak(model, config, limit, slots, ops);
      LeakIsFree(model, config, st, ops[|ops| - 1]);
      HistorySlots(model, config, limit, slots, init);
      FreeUnmarked(st);
    }
  }

  lemma FreeUnmarked(st: Shared)
    ensures FirstFree(st.marked) !in MarkedSlots(st)
  {
  }

  lemma {:induction false} LeaksStay(model: Model, config: StageConfig, limit: nat, slots: nat, ops: seq<SharedOp>, later: seq<SharedOp>)
    ensures ReplayLeaked(model, config, limit, slots, ops) <= ReplayLeaked(model, config, limit, slots, ops + later)
    decreases |later|
  {
    hide ReplayShared, LeakedBy;
    if later == [] {
      assert ops + later == ops;
    } else {
      var all := ops + later;
      LeaksStay(model, config, limit, slots, ops, later[..|later| - 1]);
      assert all[..|all| - 1] == ops + later[..|later| - 1];
    }
  }

  lemma {:induction false} FullSet(s: set<nat>, n: nat)
    requires forall k :: k in s ==> k < n
    requires |s| >= n
    ensures forall k :: 0 <= k < n ==> k in s
  {
    forall k | 0 <= k < n ensures k in s {
      var all := Counting.Below(n);
      var ints: set<int> := s;
      if k !in s {
        Counting.Included(ints, all - {k});
      }
    }
  }

  /** Once as many prefills have thrown as there are slots, the stage never serves again: after every
      later history no session is live and every prefill is refused for lack of capacity. */
  lemma StarvedForever(model: Model, config: StageConfig, limit: nat, slots: nat, ops: seq<SharedOp>, later: seq<SharedOp>, input: StageInput, engine: EngineOutcome)
    requires LeakCount(model, config, limit, slots, ops) >= slots && input.assignment == config.assignment
    ensures var now := ReplayShared(model, config, limit, slots, ops + later);
            && now.sessions == map[]
            && SharedPrefill(model, config, now, input, engine) == (now, SharedErr(CapacityExceeded))
  {
    hide ReplayShared, AllExact, InputRows, ReplayLeaked, LeakCount;
    var now, lost := ReplayShared(model, config, limit, slots, ops + later), ReplayLeaked(model, config, limit, slots, ops + later);
    LeaksCounted(model, config, limit, slots, ops);
    LeaksStay(model, config, limit, slots, ops, later);
    HistorySlots(model, config, limit, slots, ops + later);
    SlotCount(model, config, limit, slots, ops + later);
    Larger(ReplayLeaked(model, config, limit, slots, ops), lost);
    assert forall k :: k in lost ==> k in MarkedSlots(now);
    FullSet(lost, slots);
    assert forall k :: k in LiveSlots(now) ==> k in MarkedSlots(now) && k < slots && k in lost;
    assert LiveSlots(now) == {};
    NobodyLive(now);
    forall k | 0 <= k < slots ensures now.marked[k] { assert k in MarkedSlots(now); }
  }

  lemma NobodyLive(st: Shared)
    requires LiveSlots(st) == {}
    ensures st.sessions == map[]
  {
    hide LiveSlots;
    forall id: SessionId ensures id !in st.sessions { SomebodyLive(st, id); }
    assert st.sessions.Keys == {};
  }

  lemma SomebodyLive(st: Shared, id: SessionId)
    ensures id in st.sessions ==> LiveSlots(st) != {}
  {
    if id in st.sessions {
      assert st.sessions[id].slot in LiveSlots(st);
    }
  }

  lemma {:induction false} Larger(small: set<nat>, large: set<nat>)
    requires small <= large
    ensures |small| <= |large|
  {
    var a: set<int>, b: set<int> := small, large;
    Counting.Included(a, b);
  }

  /** The prefill of one activation row that a first stage cannot read: the adapter throws. */
  function Misdirected(a: Assignment, n: nat): seq<SharedOp> {
    seq(n, k => PrefillOp(StageInput("s", a, Prefill, 0, 1, Activation([HiddenRow([0])])), EngineOk))
  }

  lemma {:induction false} MisdirectedLeak(model: Model, config: StageConfig, limit: nat, slots: nat, n: nat)
    requires IsFirst(config) && n <= slots
    ensures var ops := Misdirected(config.assignment, n);
            && ReplayShared(model, config, limit, slots, ops).sessions == map[]
            && LeakCount(model, config, limit, slots, ops) == n
  {
    hide FirstFree, SharedPrefill, LeakedBy, AllExact, Partitioned, ReplayLeaked, NextPrompts;
    var ops := Misdirected(config.assignment, n);
    if n > 0 {
      var init := Misdirected(config.assignment, n - 1);
      assert ops[..n - 1] == init;
      MisdirectedLeak(model, config, limit, slots, n - 1);
      var st := ReplayShared(model, config, limit, slots, init);
      LeaksCounted(model, config, limit, slots, init);
      HistorySlots(model, config, limit, slots, init);
      SlotCount(model, config, limit, slots, init);
      SomeFree(st, ReplayLeaked(model, config, limit, slots, init), slots);
      MisdirectedStep(model, config, st);
    }
  }

  lemma MisdirectedStep(model: Model, config: StageConfig, st: Shared)
    requires IsFirst(config) && st.sessions == map[] && FirstFree(st.marked) < |st.marked|
    ensures var op := PrefillOp(StageInput("s", config.assignment, Prefill, 0, 1, Activation([HiddenRow([0])])), EngineOk);
            LeakedBy(model, config, st, op) != {} && SharedPrefill(model, config, st, op.input, op.engine).0.sessions == map[]
  {
  }

  lemma SomeFree(st: Shared, lost: set<nat>, slots: nat)
    requires st.sessions == map[] && Partitioned(st, lost) && |lost| < slots && |st.marked| == slots
    ensures FirstFree(st.marked) < slots
  {
    if FirstFree(st.marked) == slots {
      assert LiveSlots(st) == {};
      var ints: set<int> := lost;
      forall k | 0 <= k < slots ensures k in ints { assert k in MarkedSlots(st); }
      Counting.Included(Counting.Below(slots), ints);
    }
  }

  /** A first stage with any number of slots is lost for good to that many misdirected prefills. */
  lemma ThrownPrefillsStarve(model: Model, config: StageConfig, limit: nat, slots: nat, later: seq<SharedOp>, input: StageInput, engine: EngineOutcome)
    requires IsFirst(config) && input.assignment == config.assignment
    ensures var now := ReplayShared(model, config, limit, slots, Misdirected(config.assignment, slots) + later);
            && now.sessions == map[]
            && SharedPrefill(model, config, now, input, engine) == (now, SharedErr(CapacityExceeded))
  {
    MisdirectedLeak(model, config, limit, slots, slots);
    StarvedForever(model, config, limit, slots, Misdirected(config.assignment, slots), later, input, engine);
  }

  lemma NothingCounted(config: StageConfig, sessions: map<SessionId, SharedSession>, inputs: seq<StageInput>, engine: BatchEngine)
    ensures CountAll(config, sessions, inputs, [], engine) == sessions
  {
  }

  lemma CountSnoc(config: StageConfig, sessions: map<SessionId, SharedSession>, inputs: seq<StageInput>, valid: seq<nat>, i: nat, engine: BatchEngine)
    requires Usable(config, sessions, inputs, valid) && i < |inputs| && inputs[i].session in sessions && Readable(config, inputs[i])
    ensures Usable(config, sessions, inputs, valid + [i])
    ensures CountAll(config, sessions, inputs, valid + [i], engine) ==
            if engine.rows(i).RowOk? then Count(CountAll(config, sessions, inputs, valid, engine), inputs[i])
            else CountAll(config, sessions, inputs, valid, engine)
  {
    hide Readable;
    assert (valid + [i])[..|valid|] == valid;
  }

  lemma ReadableRow(config: StageConfig, st: Shared, inputs: seq<StageInput>, valid: seq<nat>, i: nat)
    requires Usable(config, st.sessions, inputs, valid) && i in valid
    ensures i < |inputs| && inputs[i].session in st.sessions && Readable(config, inputs[i])
  {
  }

  // --- The adapter --------------------------------------------------------------------------------------

  /** The shared-context half of the adapter; slot marks live in a fixed array. */
  class SharedAdapter {
    const model: Model
    const config: StageConfig
    const decodeBatchSize: nat
    const inUse: array<bool>
    var sessions: map<SessionId, SharedSession>
    var memory: map<nat, Cells>

    function View(): Shared
      reads this, inUse
    {
      Shared(sessions, inUse[..], memory)
    }

    constructor (model: Model, config: StageConfig, decodeBatchSize: nat, slots: nat)
      ensures View() == Start(slots)
      ensures this.model == model && this.config == config && this.decodeBatchSize == decodeBatchSize && fresh(inUse)
    {
      this.model, this.config, this.decodeBatchSize := model, config, decodeBatchSize;
      inUse := new bool[slots](k => false);
      sessions, memory := map[], map[];
      new;
      assert inUse[..] == seq(slots, k => false);
    }

    /** Marks and returns the lowest free slot; -1 when there is none. */
    method AllocateSequence() returns (slot: int)
      modifies inUse
      ensures slot == -1 <==> forall k :: 0 <= k < inUse.Length ==> old(inUse[k])
      ensures slot == -1 ==> FirstFree(old(inUse[..])) == inUse.Length && inUse[..] == old(inUse[..])
      ensures slot != -1 ==> 0 <= slot < inUse.Length && slot == FirstFree(old(inUse[..])) && inUse[..] == old(inUse[..])[slot := true]
    {
      var index := 0;
      while index < inUse.Length
        invariant 0 <= index <= inUse.Length
        invariant forall k :: 0 <= k < index ==> inUse[k]
        invariant inUse[..] == old(inUse[..])
      {
        if !inUse[index] {
          assert inUse[..][index] == inUse[index];
          inUse[index] := true;
          return index;
        }
        index := index + 1;
      }
      slot := -1;
    }

    method ReleaseSequence(slot: nat)
      modifies this`memory, inUse
      ensures View() == Release(old(View()), slot)
    {
      memory := memory - {slot};
      if slot < inUse.Length {
        inUse[slot] := false;
      }
    }

    method ExecutePrefill(input: StageInput, engine: EngineOutcome) returns (r: SharedResult)
      modifies this, inUse
      ensures (View(), r) == SharedPrefill(model, config, old(View()), input, engine)
    {
      hide InputRows, Exhausted, OutputFor;
      if input.assignment != config.assignment {
        return SharedErr(StageProblem(AssignmentMismatch));
      }
      if input.session in sessions {
        return SharedErr(StageProblem(DuplicateSession));
      }
      var slot := AllocateSequence();
      if slot < 0 {
        return SharedErr(CapacityExceeded);
      }
      var rows := InputRows(model, config, input.payload);
      if rows.None? {
        return SharedErr(StageProblem(InvalidInput));
      }
      if rows.value != [] && !Exhausted(config, 0, |rows.value|, input) {
        if PrefillThrows(config, engine) {
          return SharedErr(StageProblem(ExecutionFailed));
        }
        if engine.EngineOk? {
          var cells := CellsOf(memory, slot);
          memory := memory[slot := cells + Fill(rows.value)];
          sessions := sessions[input.session := SharedSession(slot, |rows.value|, 1)];
          return SharedOk(OutputFor(model, config, Flat(cells), rows.value, input));
        }
      }
      ReleaseSequence(slot);
      var error := if rows.value == [] then EmptyTokens
                   else if Exhausted(config, 0, |rows.value|, input) then ContextExhausted
                   else if engine.EngineDecodeFailed? then DecodeFailed
                   else OutputMissing;
      r := SharedErr(StageProblem(error));
    }

    /** Verdict on one input, with the slots that earlier ones have taken. */
    method Judge(input: StageInput, claimed: set<nat>) returns (refusal: Option<SharedError>, after: set<nat>)
      ensures refusal == Refusal(config, View(), claimed, input)
      ensures after == if Claims(config, View(), input) then claimed + {sessions[input.session].slot} else claimed
      ensures refusal == Some(StageProblem(AssignmentMismatch)) <==> input.assignment != config.assignment
      ensures refusal == Some(StageProblem(SessionNotFound)) <==> input.assignment == config.assignment && input.session !in sessions
      ensures input.assignment == config.assignment && input.session in sessions ==>
                var s := sessions[input.session];
                && (refusal == Some(StageProblem(DecodeStepMismatch)) <==> input.decodeStep != s.expectedDecodeStep)
                && (refusal == Some(DuplicateBatchSession) <==> input.decodeStep == s.expectedDecodeStep && s.slot in claimed)
                && (input.phase.Decode? ==>
                      (refusal.None? <==> input.decodeStep == s.expectedDecodeStep && s.slot !in claimed && s.nextPosition < config.contextSize))
    {
      after := claimed;
      if input.assignment != config.assignment {
        return Some(StageProblem(AssignmentMismatch)), after;
      }
      if input.session !in sessions {
        return Some(StageProblem(SessionNotFound)), after;
      }
      var session := sessions[input.session];
      if input.decodeStep != session.expectedDecodeStep {
        return Some(StageProblem(DecodeStepMismatch)), after;
      }
      if session.slot in claimed {
        assert claimed + {session.slot} == claimed;
        return Some(DuplicateBatchSession), after;
      }
      after := claimed + {session.slot};
      refusal := if Exhausted(config, session.nextPosition, 1, input) then Some(StageProblem(ContextExhausted)) else None;
    }

    /** First loop of a batch: verdict of every input and positions of the accepted ones. */
    method Screen(inputs: seq<StageInput>) returns (valid: seq<nat>, refused: seq<Option<SharedError>>)
      ensures valid == Valid(config, View(), inputs, |inputs|)
      ensures |refused| == |inputs| && forall i :: 0 <= i < |inputs| ==> refused[i] == Verdict(config, View(), inputs, i)
    {
      hide Refusal, Claims;
      valid, refused := [], [];
      var claimed: set<nat> := {};
      for index := 0 to |inputs|
        invariant valid == Valid(config, View(), inputs, index)
        invariant claimed == Claimed(config, View(), inputs[..index])
        invariant |refused| == index && forall i :: 0 <= i < index ==> refused[i] == Verdict(config, View(), inputs, i)
      {
        var refusal, after := Judge(inputs[index], claimed);
        assert inputs[..index + 1][..index] == inputs[..index];
        refused := refused + [refusal];
        claimed := after;
        if refusal.None? {
          valid := valid + [index];
        }
      }
    }

    /** The engine call: the row of every accepted input is stored in its slot. */
    method StoreRows(inputs: seq<StageInput>, valid: seq<nat>)
      requires Usable(config, sessions, inputs, valid)
      modifies this`memory
      ensures memory == StoreAll(config, sessions, old(memory), inputs, valid)
    {
      hide DecodeRow, Put;
      var row := 0;
      while row < |valid|
        invariant 0 <= row <= |valid| && Usable(config, sessions, inputs, valid[..row])
        invariant memory == StoreAll(config, sessions, old(memory), inputs, valid[..row])
      {
        assert valid[..row + 1][..row] == valid[..row];
        var input := inputs[valid[row]];
        var session := sessions[input.session];
        memory := memory[session.slot := Put(CellsOf(memory, session.slot), session.nextPosition, DecodeRow(config, input.payload).value)];
        row := row + 1;
      }
      assert valid[..|valid|] == valid;
    }

    /** Reads back the rows in order until one throws; the counters of the rows read so far have moved. */
    method ReadRows(inputs: seq<StageInput>, valid: seq<nat>, engine: BatchEngine) returns (threw: bool)
      requires Usable(config, sessions, inputs, valid)
      modifies this`sessions
      ensures Usable(config, old(sessions), inputs, valid[..RowsReached(valid, engine)])
      ensures sessions == CountAll(config, old(sessions), inputs, valid[..RowsReached(valid, engine)], engine)
      ensures threw <==> RowsReached(valid, engine) < |valid|
    {
      hide DecodeRow, Readable, CountAll;
      var row := 0;
      NothingCounted(config, sessions, inputs, engine);
      while row < |valid|
        invariant 0 <= row <= RowsReached(valid, engine) && Usable(config, old(sessions), inputs, valid[..row])
        invariant sessions == CountAll(config, old(sessions), inputs, valid[..row], engine)
      {
        if engine.rows(valid[row]).RowThrew? {
          return true;
        }
        assert valid[..row + 1] == valid[..row] + [valid[row]];
        CountSnoc(config, old(sessions), inputs, valid[..row], valid[row], engine);
        if engine.rows(valid[row]).RowOk? {
          var id := inputs[valid[row]].session;
          var session := sessions[id];
          sessions := sessions[id :=
            session.(nextPosition := session.nextPosition + 1, expectedDecodeStep := session.expectedDecodeStep + 1)];
        }
        row := row + 1;
      }
      threw := false;
    }

    /** One engine call for all accepted inputs; the failure they share, if any. */
    method DecodeRows(inputs: seq<StageInput>, valid: seq<nat>, engine: BatchEngine) returns (failure: Option<StageError>)
      modifies this
      ensures View() == BatchState(config, old(View()), inputs, valid, engine)
      ensures failure.Some? ==> forall i :: i in valid && i < |inputs| ==>
                RowResult(model, config, old(View()), inputs, valid, engine, i) == SharedErr(StageProblem(failure.value))
      ensures failure.None? ==> Usable(config, old(sessions), inputs, valid)
      ensures failure == Some(InvalidInput) <==> !Usable(config, old(sessions), inputs, valid)
      ensures failure == Some(DecodeFailed) <==> Usable(config, old(sessions), inputs, valid) && engine.call.CallFailed?
      ensures failure.None? <==>
                Usable(config, old(sessions), inputs, valid) && engine.call.CallOk? && forall i :: i in valid ==> !engine.rows(i).RowThrew?
      ensures failure.Some? ==> failure.value in {InvalidInput, DecodeFailed, ExecutionFailed}
      ensures failure.Some? && !engine.call.CallOk? ==> View() == old(View())
      ensures failure.None? ==> forall i :: i in valid && i < |inputs| ==>
                RowResult(model, config, old(View()), inputs, valid, engine, i) ==
                (if engine.rows(i).RowMissing? then SharedErr(StageProblem(OutputMissing))
                 else SharedOk(RowOutput(model, config, old(View()), inputs[i])))
    {
      hide RowOutput, DecodeRow, StoreAll, CountAll, Usable;
      if !Usable(config, sessions, inputs, valid) {
        return Some(InvalidInput);
      }
      if engine.call.CallFailed? {
        return Some(DecodeFailed);
      }
      if engine.call.CallThrew? {
        return Some(ExecutionFailed);
      }
      StoreRows(inputs, valid);
      var threw := ReadRows(inputs, valid, engine);
      failure := if threw then Some(ExecutionFailed) else None;
    }

    method ExecuteDecode(inputs: seq<StageInput>, engine: BatchEngine) returns (results: seq<SharedResult>)
      modifies this
      ensures (View(), results) == DecodeBatch(model, config, decodeBatchSize, old(View()), inputs, engine)
    {
      hide Verdict, BatchState, RowOutput, RowResult, Usable, Valid;
      ghost var (_, expected) := DecodeBatch(model, config, decodeBatchSize, View(), inputs, engine);
      var valid, refused := Screen(inputs);
      if |valid| > decodeBatchSize {
        results := seq(|inputs|, i => SharedErr(BatchTooLarge));
        assert results == expected;
        return;
      }
      var before := Shared(sessions, inUse[..], memory);
      var failure := DecodeRows(inputs, valid, engine);
      results := [];
      for index := 0 to |inputs|
        invariant results == expected[..index]
        invariant View() == BatchState(config, before, inputs, valid, engine)
      {
        if refused[index].Some? {
          results := results + [SharedErr(refused[index].value)];
        } else if failure.Some? {
          results := results + [SharedErr(StageProblem(failure.value))];
        } else if engine.rows(index).RowMissing? {
          results := results + [SharedErr(StageProblem(OutputMissing))];
        } else {
          ReadableRow(config, before, inputs, valid, index);
          results := results + [SharedOk(RowOutput(model, config, before, inputs[index]))];
        }
      }
      assert expected[..|inputs|] == expected;
    }

    method CloseSession(id: SessionId)
      modifies this, inUse
      ensures View() == SharedClose(old(View()), id)
    {
      if id !in sessions {
        return;
      }
      ReleaseSequence(sessions[id].slot);
      sessions := sessions - {id};
    }

    method RollbackSession(id: SessionId, count: int, engineAccepts: bool) returns (r: Result<()>)
      modifies this
      ensures (View(), r) == SharedRollback(old(View()), id, count, engineAccepts)
    {
      if count <= 0 {
        return Err(RollbackCountInvalid);
      }
      if id !in sessions {
        return Err(SessionNotFound);
      }
      var session := sessions[id];
      if count > session.nextPosition || count >= session.expectedDecodeStep {
        return Err(RollbackExceedsSuffix);
      }
      if !engineAccepts {
        return Err(RollbackRejected);
      }
      var position := session.nextPosition - count;
      var cells := CellsOf(memory, session.slot);
      memory := memory[session.slot := if position < |cells| then cells[..position] else cells];
      sessions := sessions[id := SharedSession(session.slot, position, session.expectedDecodeStep - count)];
      r := Ok(());
    }
  }
}
