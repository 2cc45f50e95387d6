/** The decode queue in front of the adapter (runtime/pipeline_parallel/continuous_batching_executor.cpp):
    callers enqueue and wait, one worker takes batches from the front and completes each caller, and
    at shutdown the worker fails whatever is still queued. Callers, the stop request, the worker and the
    calls that go straight to the adapter interleave in any order. */
module ContinuousBatching {
  import opened StageSession
  import opened SharedDecode
  import opened SharedStage
  import opened Arithmetic

  /** What the delegate does with a batch. */
  datatype Reply = Returned(results: seq<SharedResult>) | Threw

  /** What a waiting caller receives. */
  datatype Answer = FromDelegate(result: SharedResult) | BatchFailed | ResultMismatch | Stopped

  /** One thing that happened to the adapter or the queue: a batch of the worker, a call past the queue
      (prefill, close, rollback, expiry or a direct batch), or the sweep at shutdown. */
  datatype Entry = Ran(items: seq<StageInput>, reply: Reply) | Called(op: SharedOp) | Swept(items: seq<StageInput>)

  /** Queued requests that an entry completes. */
  function Items(entry: Entry): seq<StageInput> {
    if entry.Called? then [] else entry.items
  }

  datatype Batcher = Batcher(
    queue: seq<StageInput>,
    running: seq<StageInput>,
    stopping: bool,
    swept: bool,
    log: seq<Entry>
  )

  datatype Action = Submit(input: StageInput) | Direct(op: SharedOp) | RequestStop | Take | Finish(reply: Reply) | Sweep

  const IDLE := Batcher([], [], false, false, [])

  /** One step; an action that is not enabled changes nothing. The wait for a full batch may end
      at any queue length, since it is bounded by a deadline. */
  function Next(max: nat, s: Batcher, a: Action): Batcher {
    match a
    case Submit(input) => s.(queue := s.queue + [input])
    case Direct(op) => s.(log := s.log + [Called(op)])
    case RequestStop => s.(stopping := true)
    case Take =>
      if s.stopping || s.running != [] then s
      else
        var count := Min(max, |s.queue|);
        s.(running := s.queue[..count], queue := s.queue[count..])
    case Finish(reply) =>
      if s.running == [] then s else s.(running := [], log := s.log + [Ran(s.running, reply)])
    case Sweep =>
      if !s.stopping || s.running != [] || s.swept then s
      else s.(queue := [], swept := true, log := s.log + [Swept(s.queue)])
  }

  function Run(max: nat, actions: seq<Action>): Batcher {
    if actions == [] then IDLE else Next(max, Run(max, actions[..|actions| - 1]), actions[|actions| - 1])
  }

  /** Requests of a run in the order they were queued. */
  function Submitted(actions: seq<Action>): seq<StageInput> {
    if actions == [] then []
    else
      var last := actions[|actions| - 1];
      Submitted(actions[..|actions| - 1]) + if last.Submit? then [last.input] else []
  }

  // --- Answers ---------------------------------------------------------------------------------

  function AnswersOf(entry: Entry): (r: seq<Answer>)
    ensures |r| == |Items(entry)|
  {
    match entry
    case Ran(items, Threw) => seq(|items|, i => BatchFailed)
    case Ran(items, Returned(results)) =>
      if |results| != |items| then seq(|items|, i => ResultMismatch)
      else seq(|items|, i requires 0 <= i < |items| => FromDelegate(results[i]))
    case Called(_) => []
    case Swept(items) => seq(|items|, i => Stopped)
  }

  /** Requests the worker has completed, in completion order. */
  function Served(log: seq<Entry>): seq<StageInput> {
    if log == [] then [] else Served(log[..|log| - 1]) + Items(log[|log| - 1])
  }

  /** The answers given, in completion order. */
  function Answers(log: seq<Entry>): (r: seq<Answer>)
    ensures |r| == |Served(log)|
  {
    if log == [] then [] else Answers(log[..|log| - 1]) + AnswersOf(log[|log| - 1])
  }

  // --- Every run --------------------------------------------------------------------------------

  ghost predicate Inv(max: nat, s: Batcher, submitted: seq<StageInput>) {
    && Served(s.log) + s.running + s.queue == submitted
    && |s.running| <= max
    && (forall n :: 0 <= n < |s.log| && s.log[n].Ran? ==> 1 <= |s.log[n].items| <= max)
    && (forall n :: 0 <= n < |s.log| && s.log[n].Swept? ==> s.swept && forall m :: n < m < |s.log| ==> s.log[m].Called?)
    && (s.swept ==> s.stopping && s.running == [])
  }

  lemma StepInv(max: nat, s: Batcher, submitted: seq<StageInput>, a: Action)
    requires Inv(max, s, submitted)
    ensures Inv(max, Next(max, s, a), submitted + if a.Submit? then [a.input] else [])
  {
    hide Served, Answers, AnswersOf;
    var next := Next(max, s, a);
    match a
    case Submit(input) => assert Served(s.log) + s.running + (s.queue + [input]) == submitted + [input];
    case Direct(op) => LogAppend(s.log, Called(op));
    case RequestStop =>
    case Take => assert Served(next.log) + next.running + next.queue == Served(s.log) + s.running + s.queue;
    case Finish(reply) => LogAppend(s.log, Ran(s.running, reply));
    case Sweep => LogAppend(s.log, Swept(s.queue));
  }

  /** Over every interleaving: completed, running and queued requests, in this order, are exactly the
      submitted ones, so none is lost, doubled or overtaken, and no batch is empty or over the limit. */
  lemma {:induction false} RequestsConserved(max: nat, actions: seq<Action>)
    ensures Inv(max, Run(max, actions), Submitted(actions))
  {
    if actions != [] {
      hide Inv, Next;
      RequestsConserved(max, actions[..|actions| - 1]);
      StepInv(max, Run(max, actions[..|actions| - 1]), Submitted(actions[..|actions| - 1]), actions[|actions| - 1]);
    } else {
      assert Served([]) == [];
    }
  }

  /** Length of what was served before entry n. */
  function Before(log: seq<Entry>, n: nat): nat
    requires n <= |log|
  {
    |Served(log[..n])|
  }

  /** Request number k of entry n gets the answer in its own position of that entry. */
  lemma {:induction false} AnsweredInPlace(log: seq<Entry>, n: nat, k: nat)
    requires n < |log| && k < |Items(log[n])|
    ensures Before(log, n) + k < |Served(log)|
    ensures Served(log)[Before(log, n) + k] == Items(log[n])[k]
    ensures Answers(log)[Before(log, n) + k] == AnswersOf(log[n])[k]
  {
    hide AnswersOf;
    if n == |log| - 1 {
      assert log[..n] == log[..|log| - 1];
    } else {
      AnsweredInPlace(log[..|log| - 1], n, k);
      assert log[..|log| - 1][..n] == log[..n];
    }
  }

  // --- The worker makes progress ------------------------------------------------------------------

  /** An idle worker takes the front of the queue: a full batch, or everything there is. */
  lemma IdleTakesFront(max: nat, s: Batcher)
    requires !s.stopping && s.running == []
    ensures var t := Next(max, s, Take);
            && t.running + t.queue == s.queue && |t.running| <= max && (|t.running| == max || t.queue == [])
            && t.log == s.log && !t.stopping && t.swept == s.swept
  {
  }

  /** Turns of the worker with what the delegate does in each. */
  function Turns(replies: seq<Reply>): seq<Action> {
    if replies == [] then [] else Turns(replies[..|replies| - 1]) + [Take, Finish(replies[|replies| - 1])]
  }

  lemma RunSnoc(max: nat, actions: seq<Action>, a: Action)
    ensures Run(max, actions + [a]) == Next(max, Run(max, actions), a)
    ensures Submitted(actions + [a]) == Submitted(actions) + if a.Submit? then [a.input] else []
  {
    assert (actions + [a])[..|actions|] == actions;
  }

  lemma {:induction false} TurnsShorten(max: nat, prefix: seq<Action>, replies: seq<Reply>)
    requires !Run(max, prefix).stopping && Run(max, prefix).running == []
    ensures var s, t := Run(max, prefix), Run(max, prefix + Turns(replies));
            && !t.stopping && t.running == [] && Submitted(prefix + Turns(replies)) == Submitted(prefix)
            && |t.queue| == Max(0, |s.queue| - |replies| * max)
  {
    hide Run, Submitted, Next;
    if replies == [] {
      assert prefix + Turns(replies) == prefix;
    } else {
      var n := |replies| - 1;
      var init, last := replies[..n], replies[n];
      TurnsShorten(max, prefix, init);
      var done := prefix + Turns(init);
      assert prefix + Turns(replies) == done + [Take] + [Finish(last)];
      RunSnoc(max, done, Take);
      RunSnoc(max, done + [Take], Finish(last));
      IdleTakesFront(max, Run(max, done));
      TurnEnds(max, Run(max, done + [Take]), last);
      assert |replies| * max == n * max + max;
    }
  }

  lemma TurnEnds(max: nat, s: Batcher, reply: Reply)
    requires !s.stopping
    ensures var t := Next(max, s, Finish(reply)); t.running == [] && t.queue == s.queue && !t.stopping
  {
  }

  /** From every moment before a stop, once the running batch ends, so many turns that their batches can hold
      the queue complete every request submitted so far. */
  lemma WorkerDrains(max: nat, prefix: seq<Action>, reply: Reply, replies: seq<Reply>)
    requires !Run(max, prefix).stopping && |Run(max, prefix).queue| <= |replies| * max
    ensures Served(Run(max, prefix + [Finish(reply)] + Turns(replies)).log) == Submitted(prefix)
  {
    hide Run, Submitted, Next, Served, Turns;
    RunSnoc(max, prefix, Finish(reply));
    TurnEnds(max, Run(max, prefix), reply);
    TurnsShorten(max, prefix + [Finish(reply)], replies);
    RequestsConserved(max, prefix + [Finish(reply)] + Turns(replies));
    var t := Run(max, prefix + [Finish(reply)] + Turns(replies));
    assert Served(t.log) + t.running + t.queue == Served(t.log);
  }

  /** And a stop at any moment lets the running batch end and fails the rest: nobody who was queued by then
      is left without an answer. */
  lemma StopCompletes(max: nat, prefix: seq<Action>, reply: Reply)
    requires !Run(max, prefix).swept
    ensures Served(Run(max, prefix + [RequestStop] + [Finish(reply)] + [Sweep]).log) == Submitted(prefix)
  {
    hide Run, Submitted, Served;
    RunSnoc(max, prefix, RequestStop);
    RunSnoc(max, prefix + [RequestStop], Finish(reply));
    RunSnoc(max, prefix + [RequestStop] + [Finish(reply)], Sweep);
    RequestsConserved(max, prefix + [RequestStop] + [Finish(reply)] + [Sweep]);
    var t := Run(max, prefix + [RequestStop] + [Finish(reply)] + [Sweep]);
    assert Served(t.log) + t.running + t.queue == Served(t.log);
  }

  // --- Shutdown ----------------------------------------------------------------------------------

  lemma {:induction false} SweptStays(max: nat, prefix: seq<Action>, later: seq<Action>)
    requires Run(max, prefix).swept
    ensures Run(max, prefix + later).swept
    ensures Served(Run(max, prefix + later).log) == Served(Run(max, prefix).log)
    ensures Answers(Run(max, prefix + later).log) == Answers(Run(max, prefix).log)
  {
    hide Served, Answers;
    var all := prefix + later;
    if later == [] {
      assert all == prefix;
    } else {
      var init, last := later[..|later| - 1], later[|later| - 1];
      assert all[..|all| - 1] == prefix + init && all[|all| - 1] == last;
      SweptStays(max, prefix, init);
      RequestsConserved(max, prefix + init);
      var s := Run(max, prefix + init);
      if last.Direct? {
        LogAppend(s.log, Called(last.op));
        assert Served(s.log) + [] == Served(s.log) && Answers(s.log) + [] == Answers(s.log);
      }
    }
  }

  /** Once the worker has swept, the completed requests are exactly those submitted before the sweep,
      whatever happens later: a request that arrives after it is never completed by the worker. */
  lemma AnsweredIffBeforeSweep(max: nat, prefix: seq<Action>, later: seq<Action>)
    requires prefix != [] && !Run(max, prefix[..|prefix| - 1]).swept && Run(max, prefix).swept
    ensures Served(Run(max, prefix + later).log) == Submitted(prefix)
    ensures Submitted(prefix) + Run(max, prefix + later).queue == Submitted(prefix + later)
  {
    hide Served, Run, Submitted, Answers, Next;
    SweptStays(max, prefix, later);
    SweepEmpties(max, prefix);
    Conserved(max, prefix);
    Conserved(max, prefix + later);
  }

  lemma SweepEmpties(max: nat, prefix: seq<Action>)
    requires prefix != [] && !Run(max, prefix[..|prefix| - 1]).swept && Run(max, prefix).swept
    ensures Run(max, prefix).queue == []
  {
  }

  lemma Conserved(max: nat, actions: seq<Action>)
    ensures var s := Run(max, actions); s.swept ==> Served(s.log) + s.queue == Submitted(actions)
  {
    hide Served, Run, Submitted;
    RequestsConserved(max, actions);
    var s := Run(max, actions);
    assert s.swept ==> Served(s.log) + s.running == Served(s.log);
  }

  /** Such a request: after the sweep it is in no completion of any longer run. */
  lemma LateRequestNeverAnswered(max: nat, input: StageInput, later: seq<Action>)
    ensures var actions := [RequestStop, Sweep, Submit(input)] + later;
            input in Submitted(actions) && Served(Run(max, actions).log) == []
  {
    var prefix := [RequestStop, Sweep];
    var rest := [Submit(input)] + later;
    assert prefix[..1] == [RequestStop] && [RequestStop][..0] == [];
    assert Run(max, [RequestStop]) == Next(max, IDLE, RequestStop);
    assert Run(max, prefix) == Next(max, Run(max, [RequestStop]), Sweep);
    assert Submitted([RequestStop]) == [] && Submitted(prefix) == [];
    AnsweredIffBeforeSweep(max, prefix, rest);
    assert prefix + rest == [RequestStop, Sweep, Submit(input)] + later;
    SubmittedAppend([RequestStop, Sweep, Submit(input)], later);
    var three := [RequestStop, Sweep, Submit(input)];
    assert three[..2] == prefix && Submitted(three) == [input];
  }

  lemma {:induction false} SubmittedAppend(first: seq<Action>, second: seq<Action>)
    ensures Submitted(first + second) == Submitted(first) + Submitted(second)
  {
    var all := first + second;
    if second == [] {
      assert all == first;
    } else {
      assert all[..|all| - 1] == first + second[..|second| - 1] && all[|all| - 1] == second[|second| - 1];
      SubmittedAppend(first, second[..|second| - 1]);
    }
  }

  // --- Batching is invisible -------------------------------------------------------------------------

  function OpOf(entry: Entry): seq<SharedOp> {
    match entry
    case Ran(items, _) => [DecodeOp(items, HEALTHY)]
    case Called(op) => [op]
    case Swept(_) => []
  }

  function OpsOf(log: seq<Entry>): seq<SharedOp> {
    if log == [] then [] else OpsOf(log[..|log| - 1]) + OpOf(log[|log| - 1])
  }

  /** The adapter after everything in the log. */
  function StateAfter(model: Model, config: StageConfig, limit: nat, slots: nat, log: seq<Entry>): Shared {
    ReplayShared(model, config, limit, slots, OpsOf(log))
  }

  /** The batch suits the adapter: each session once, within the limit, and its payloads all readable or
      all not. */
  ghost predicate Suits(config: StageConfig, limit: nat, st: Shared, items: seq<StageInput>) {
    Distinct(items) && |items| <= limit && (AllReadable(config, st, items) || NoneReadable(config, st, items))
  }

  /** The log is what a healthy adapter answers: suitable batches between calls of any kind. */
  ghost predicate Decodes(model: Model, config: StageConfig, limit: nat, slots: nat, log: seq<Entry>) {
    log == [] ||
    (var init, last := log[..|log| - 1], log[|log| - 1];
     var before := StateAfter(model, config, limit, slots, init);
     && Decodes(model, config, limit, slots, init)
     && !last.Swept?
     && (last.Ran? ==>
           && Suits(config, limit, before, last.items)
           && last.reply == Returned(DecodeBatch(model, config, limit, before, last.items, HEALTHY).1)))
  }

  /** The same calls without batching: the requests of every batch one by one in queue order. State of the
      adapter and results of the queued requests. */
  function Unbatched(model: Model, config: StageConfig, limit: nat, slots: nat, log: seq<Entry>): (Shared, seq<SharedResult>) {
    if log == [] then (Start(slots), [])
    else
      var (before, results) := Unbatched(model, config, limit, slots, log[..|log| - 1]);
      match log[|log| - 1]
      case Ran(items, _) =>
        var (after, more) := Sequential(model, config, limit, before, items);
        (after, results + more)
      case Called(op) => (ApplyShared(model, config, limit, before, op), results)
      case Swept(_) => (before, results)
  }

  /** One batch in queue order: results and state of its items one by one. */
  lemma BatchInQueueOrder(model: Model, config: StageConfig, limit: nat, st: Shared, items: seq<StageInput>)
    requires DistinctSlots(st) && limit >= 1 && Suits(config, limit, st, items)
    ensures DecodeBatch(model, config, limit, st, items, HEALTHY) == Sequential(model, config, limit, st, items)
  {
    hide DecodeBatch, Sequential, DistinctSlots, Distinct, AllReadable, NoneReadable, Valid;
    FewValid(config, st, items, |items|);
    BatchEqualsAnyOrder(model, config, limit, st, items, items);
    assert DecodeBatch(model, config, limit, st, items, HEALTHY).1 == Sequential(model, config, limit, st, items).1;
  }

  function Delegated(results: seq<SharedResult>): seq<Answer> {
    seq(|results|, i requires 0 <= i < |results| => FromDelegate(results[i]))
  }

  lemma DelegatedAppend(a: seq<SharedResult>, b: seq<SharedResult>)
    ensures Delegated(a + b) == Delegated(a) + Delegated(b)
  {
  }

  lemma StateStep(model: Model, config: StageConfig, limit: nat, slots: nat, log: seq<Entry>)
    requires log != [] && !log[|log| - 1].Swept?
    ensures StateAfter(model, config, limit, slots, log) ==
            ApplyShared(model, config, limit, StateAfter(model, config, limit, slots, log[..|log| - 1]), OpOf(log[|log| - 1])[0])
  {
    hide ApplyShared;
    var before, op := OpsOf(log[..|log| - 1]), OpOf(log[|log| - 1])[0];
    assert OpsOf(log) == before + [op];
    assert (before + [op])[..|before|] == before;
  }

  lemma SlotsDiffer(model: Model, config: StageConfig, limit: nat, slots: nat, log: seq<Entry>)
    ensures DistinctSlots(StateAfter(model, config, limit, slots, log))
  {
    hide ReplayShared, Exact, Partitioned;
    HistorySlots(model, config, limit, slots, OpsOf(log));
  }

  /** However the worker cut the queue into batches, and whatever prefills, closes, rollbacks and expiries
      came between them, every caller gets the answer it would have got had the requests been decoded one
      by one in the order they were queued, and the adapter ends in the same state. */
  lemma {:induction false} BatchingInvisible(model: Model, config: StageConfig, limit: nat, slots: nat, log: seq<Entry>)
    requires limit >= 1 && Decodes(model, config, limit, slots, log)
    ensures StateAfter(model, config, limit, slots, log) == Unbatched(model, config, limit, slots, log).0
    ensures Answers(log) == Delegated(Unbatched(model, config, limit, slots, log).1)
  {
    hide DecodeBatch, Sequential, DistinctSlots, Suits, StateAfter, ApplyShared;
    if log == [] {
      NothingYet(model, config, limit, slots);
    } else {
      var init, last := log[..|log| - 1], log[|log| - 1];
      BatchingInvisible(model, config, limit, slots, init);
      StateStep(model, config, limit, slots, log);
      var before := StateAfter(model, config, limit, slots, init);
      var results := Unbatched(model, config, limit, slots, init).1;
      if last.Ran? {
        SlotsDiffer(model, config, limit, slots, init);
        BatchInQueueOrder(model, config, limit, before, last.items);
        DecodeApplied(model, config, limit, before, last.items);
        var more := Sequential(model, config, limit, before, last.items).1;
        assert AnswersOf(last) == Delegated(more);
        DelegatedAppend(results, more);
      } else {
        assert Answers(init) + [] == Answers(init);
      }
    }
  }

  lemma DecodeApplied(model: Model, config: StageConfig, limit: nat, st: Shared, items: seq<StageInput>)
    ensures ApplyShared(model, config, limit, st, DecodeOp(items, HEALTHY)) == DecodeBatch(model, config, limit, st, items, HEALTHY).0
  {
  }

  lemma NothingYet(model: Model, config: StageConfig, limit: nat, slots: nat)
    ensures StateAfter(model, config, limit, slots, []) == Start(slots)
  {
  }

  // --- The executor ---------------------------------------------------------------------------------

  datatype Pending = Pending(ticket: nat, input: StageInput)

  function Inputs(items: seq<Pending>): seq<StageInput> {
    seq(|items|, i requires 0 <= i < |items| => items[i].input)
  }

  /** The answer at place k of a batch of n. */
  function AnswerAt(reply: Reply, n: nat, k: nat): Answer
    requires k < n
  {
    if reply.Threw? then BatchFailed
    else if |reply.results| != n then ResultMismatch
    else FromDelegate(reply.results[k])
  }

  /** Tickets in order from a number on. */
  ghost predicate Numbered(items: seq<Pending>, from: nat) {
    forall k :: 0 <= k < |items| ==> items[k].ticket == from + k
  }

  /** The first tickets with their answers. */
  ghost function Table(answers: seq<Answer>): map<nat, Answer> {
    map t: nat | t < |answers| :: answers[t]
  }

  lemma TableNext(done: seq<Answer>, answers: seq<Answer>, k: nat)
    requires k < |answers|
    ensures |done| + k !in Table(done + answers[..k])
    ensures Table(done + answers[..k + 1]) == Table(done + answers[..k])[|done| + k := answers[k]]
  {
    assert (done + answers[..k + 1])[|done| + k] == answers[k];
  }

  lemma TicketAnswered(done: seq<Answer>, answers: seq<Answer>, t: nat)
    ensures t in Table(done) ==> t in Table(done + answers) && Table(done + answers)[t] == Table(done)[t]
    ensures |done| <= t < |done| + |answers| ==> t in Table(done + answers) && Table(done + answers)[t] == answers[t - |done|]
  {
  }

  /** Queue, worker batch and completions; a promise is a ticket that may be completed once. */
  class Executor {
    const maxBatchSize: nat
    var queue: seq<Pending>
    var batch: seq<Pending>
    var stopRequested: bool
    var finished: bool
    var nextTicket: nat
    var completed: map<nat, Answer>
    ghost var log: seq<Entry>

    ghost function View(): Batcher
      reads this
    {
      Batcher(Inputs(queue), Inputs(batch), stopRequested, finished, log)
    }

    /** Tickets number the requests in queue order, and the completed ones carry the answers of the log. */
    ghost predicate Valid()
      reads this
    {
      && Numbered(batch, |Served(log)|) && Numbered(queue, |Served(log)| + |batch|)
      && nextTicket == |Served(log)| + |batch| + |queue|
      && |Answers(log)| == |Served(log)| && completed == Table(Answers(log))
    }

    constructor (maxBatchSize: nat)
      ensures Valid() && View() == IDLE && this.maxBatchSize == maxBatchSize
    {
      this.maxBatchSize := maxBatchSize;
      queue, batch, stopRequested, finished, nextTicket, completed, log := [], [], false, false, 0, map[], [];
    }

    /** A call that goes past the queue leaves it alone. */
    ghost method Pass(op: SharedOp)
      requires Valid()
      modifies this`log
      ensures Valid() && View() == Next(maxBatchSize, old(View()), Direct(op))
    {
      hide Served, Answers;
      LogAppend(log, Called(op));
      assert Served(log) + [] == Served(log) && Answers(log) + [] == Answers(log);
      log := log + [Called(op)];
    }

    /** Decode path of execute: the caller then waits on its ticket. */
    method Enqueue(input: StageInput) returns (ticket: nat)
      requires Valid()
      modifies this
      ensures Valid() && View() == Next(maxBatchSize, old(View()), Submit(input))
      ensures ticket == old(|Served(log)| + |batch| + |queue|) && completed == old(completed)
      ensures queue == old(queue) + [Pending(ticket, input)] && batch == old(batch) && ticket !in completed
    {
      hide Served, Answers;
      ticket := nextTicket;
      queue := queue + [Pending(ticket, input)];
      nextTicket := nextTicket + 1;
      assert Inputs(queue) == old(Inputs(queue)) + [input];
    }

    method Stop()
      requires Valid()
      modifies this`stopRequested
      ensures Valid() && View() == Next(maxBatchSize, old(View()), RequestStop)
    {
      stopRequested := true;
    }

    /** Pops up to a full batch from the front. */
    method NextBatch()
      requires Valid() && batch == []
      modifies this
      ensures Valid() && View() == Next(maxBatchSize, old(View()), Take) && completed == old(completed)
      ensures batch + queue == old(queue) && |batch| <= maxBatchSize
      ensures if stopRequested then batch == [] else |batch| == maxBatchSize || queue == []
    {
      hide Served, Answers;
      if stopRequested {
        return;
      }
      var count := Min(maxBatchSize, |queue|);
      ghost var whole := queue;
      while |batch| < count
        invariant |batch| <= count && batch == whole[..|batch|] && queue == whole[|batch|..]
        invariant stopRequested == old(stopRequested) && finished == old(finished) && log == old(log)
        invariant nextTicket == old(nextTicket) && completed == old(completed)
        decreases count - |batch|
      {
        batch := batch + [queue[0]];
        queue := queue[1..];
      }
      assert Inputs(batch) == Inputs(whole)[..count] && Inputs(queue) == Inputs(whole)[count..];
    }

    /** Completing a promise; a second completion would be an error. */
    method SetValue(ticket: nat, answer: Answer)
      requires ticket !in completed
      modifies this`completed
      ensures completed == old(completed)[ticket := answer]
    {
      completed := completed[ticket := answer];
    }

    /** Completes every item with the answer in its own position. */
    method CompleteAll(items: seq<Pending>, answers: seq<Answer>, ghost done: seq<Answer>)
      requires |answers| == |items| && Numbered(items, |done|) && completed == Table(done)
      modifies this`completed
      ensures completed == Table(done + answers)
      ensures forall t :: t in old(completed) ==> t in completed && completed[t] == old(completed)[t]
      ensures forall k :: 0 <= k < |items| ==> items[k].ticket in completed && completed[items[k].ticket] == answers[k]
    {
      hide Table;
      assert done + answers[..0] == done;
      for index := 0 to |items|
        invariant completed == Table(done + answers[..index])
      {
        TableNext(done, answers, index);
        SetValue(items[index].ticket, answers[index]);
      }
      assert answers[..|answers|] == answers;
      forall t | t in old(completed) ensures t in completed && completed[t] == old(completed)[t] {
        TicketAnswered(done, answers, t);
      }
      forall k | 0 <= k < |items| ensures items[k].ticket in completed && completed[items[k].ticket] == answers[k] {
        TicketAnswered(done, answers, items[k].ticket);
      }
    }

    /** The results of the batch, or one failure for everybody when the delegate threw or miscounted. */
    method ResultsOf(reply: Reply) returns (answers: seq<Answer>)
      ensures answers == AnswersOf(Ran(Inputs(batch), reply))
      ensures |answers| == |batch| && forall k :: 0 <= k < |batch| ==> answers[k] == AnswerAt(reply, |batch|, k)
    {
      match reply {
        case Threw => answers := seq(|batch|, i => BatchFailed);
        case Returned(results) =>
          if |results| != |batch| {
            answers := seq(|batch|, i => ResultMismatch);
          } else {
            answers := Delegated(results);
          }
      }
      assert |answers| == |batch|;
    }

    /** The worker's turn with a batch: run it, check the number of results, complete every caller. */
    method FinishBatch(reply: Reply)
      requires Valid() && batch != []
      modifies this
      ensures Valid() && View() == Next(maxBatchSize, old(View()), Finish(reply))
      ensures batch == [] && queue == old(queue)
      ensures forall k :: 0 <= k < |old(batch)| ==>
                old(batch)[k].ticket in completed && completed[old(batch)[k].ticket] == AnswerAt(reply, |old(batch)|, k)
      ensures forall t :: t in old(completed) ==> t in completed && completed[t] == old(completed)[t]
    {
      hide Served, Answers, AnswersOf, AnswerAt, Delegated, Table;
      ghost var entry := Ran(Inputs(batch), reply);
      var answers := ResultsOf(reply);
      LogAppend(log, entry);
      CompleteAll(batch, answers, Answers(log));
      batch := [];
      log := log + [entry];
    }

    /** After the loop of the worker: everything still queued fails. */
    method FailPending()
      requires Valid() && batch == [] && stopRequested && !finished
      modifies this
      ensures Valid() && View() == Next(maxBatchSize, old(View()), Sweep)
      ensures queue == [] && finished
      ensures forall k :: 0 <= k < |old(queue)| ==> old(queue)[k].ticket in completed && completed[old(queue)[k].ticket] == Stopped
    {
      hide Served, Answers;
      ghost var entry := Swept(Inputs(queue));
      var answers := seq(|queue|, i => Stopped);
      assert answers == AnswersOf(entry);
      LogAppend(log, entry);
      var abandoned := queue;
      queue := [];
      CompleteAll(abandoned, answers, Answers(log));
      finished := true;
      log := log + [entry];
    }
  }

  lemma LogAppend(log: seq<Entry>, entry: Entry)
    ensures Served(log + [entry]) == Served(log) + Items(entry)
    ensures Answers(log + [entry]) == Answers(log) + AnswersOf(entry)
  {
    assert (log + [entry])[..|log|] == log;
  }
}
