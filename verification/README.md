# Verified models of JetsonFabric

JetsonFabric runs one language model as a pipeline of stages on several small machines. A coordinator
plans which node runs which layers, hands sessions over from one deployment to the next, and drives
token generation through the stages. This project models the hard parts in Dafny 4.11 and proves what
they promise. `dafny verify dfyconfig.toml` checks everything.

## What is proved

- **Speculative decoding is plain decoding** (`StageSession`, `Pipeline`, `Generation`). For an arbitrary
  causal model, an arbitrary bounded draft strategy, an arbitrary sink and arbitrary stage faults (lost
  replies, engine failures, expired sessions), a successful run of the speculative runner has exactly the
  tokens and finish reason of the plain greedy loop. Every other run has emitted a prefix of them, closes
  every stage exactly once, and has a cause. With a new session, a non-empty prompt, room and width on
  every stage, an accepting sink and well-formed text only a disturbed call can be that cause. The
  counters of a run are the calls that the stages received. Text leaves in whole code points (`Utf8`), drafts
  are longest-suffix matches (`PromptLookup`), the final stage's packed output reads back (`SampledBatch`), and
  the coordinator accepts every successful run and knows exactly which streams to accept
  (`GenerationEvents`).
- **Batching is invisible** (`SharedDecode`, `SharedStage`, `SharedRefinement`, `ContinuousBatching`). Over
  whole histories, if every prefill finds a slot and the engine is healthy, a stage that packs all sessions
  into one context replies like one that gives each session its own, and leaves each session with the same
  cache. With a healthy engine a batched decode of distinct sessions equals decoding them one at a time, in
  every order, exactly when the accepted payloads can all be read or none can. The queue in front loses,
  doubles and reorders nothing in any interleaving. Composed, for such batches: every caller gets the answer
  of sequential decoding in queue order, however the worker cuts the queue and whatever prefills, closes,
  rollbacks and expiries happen between batches; the worker drains any queue, and a stop answers everybody
  queued before it.
- **Handoff** (`DeploymentState`, `ModelManager`, `Handoff`, `HandoffProgress`). Over every interleaving of the
  coordinator, its controller, a network that loses, delays and repeats requests, and the runtimes, no
  epoch is unloaded under an outstanding session: until its release every stage of the plan that the
  admission returned serves exactly that plan. And there is always a way on: a switch to free nodes completes,
  a retired plan disappears once its sessions are released, a failed one is cleaned up, a repair restores an
  active plan that nodes have lost, and from every moment of every run the controller can come back to rest.
- **Codecs and formats** (`HalfFloat`, `DnsName`, `DnsPacket`, `SegmentLayout`, `SegmentReader`,
  `StageWire`). Correct rounding against a definition over all f16 values; DNS names with compression
  pointers and whole packets; the segment writer against the engine's own reader, and what any accepted
  file exposes; stage frames and their segmented send.
- **Layer planning** (`LayerPlan`). Which outcome every request has, on which nodes its stages run and how
  many layers each gets, and every valid preview is a tiling of the layers on distinct nodes.

## How the model reads

- Objects that the source updates are classes, and each method is proved against a function on values;
  the theorems over histories and interleavings are about those functions. Loops of the source are loops.
- Foreign code is a parameter: tokenizer, layer functions and greedy head (`Model`), draft strategy, token
  sink, JSON text and checksum (`Library`), `strings.TrimSpace` (`trim`), tensor type table, engine
  outcomes, faults per call, socket results. The theorems hold for all of them.
- Bit patterns are numbers and shifts are divisions; uint64 overflow, uint32 casts and 16-bit fields are
  written out where they matter.
- Where the source has a check that can never fire, the model has no such branch and the proof says why:
  the internal size and overlap checks of `write_segment`, the overflow checks behind the file-size checks
  of `map_tensor_segment`, a verification with the wrong number of outputs in the runner.

## Where the code does less than one might expect

- A prefill that throws after taking a slot never gives it back, so as many as there are slots end the
  service of a stage (`SharedStage.ThrownPrefillsStarve`, `StarvedForever`); `MarksAreLiveSlots` states
  exactly when marks and live slots agree.
- One accepted payload that cannot be read refuses every accepted request of its batch
  (`SharedDecode.TwoTokensSpoilNeighbour`); `BatchEqualsAnyOrder` states exactly when a batch is harmless.
- A row that the engine stored but that is not read back stays in its slot, and the retried step stores
  another one (`SharedStage.CleanIffRead`).
- A decode whose output is missing or cannot be read has already filled the cache of a serial stage, and the
  retried step fills it again (`StageSession.HistoryLost` says by how much over every history).
- A deployment can be in the active phase while another still drains
  (`DeploymentState.ActiveWhileDraining`); `ActiveDrainingExactly` states over every history exactly when.
- A decode request queued after the batching worker's final sweep is never completed by the worker
  (`ContinuousBatching.LateRequestNeverAnswered`); `AnsweredIffBeforeSweep` states exactly which are.
- A text payload in decode is credited by bytes, not tokens, and a rollback can then remove the prompt
  (`StageSession.TextDecodeLosesPrompt`, `TextDecodeCovers`). The adapter accepts it; the runner never
  sends one.
- Pending text may be hopeless: the scanner looks at bytes only when the announced width is there
  (`Utf8.HopelessPending`, `PendingFate`).
- Names, TXT strings and records beyond their length fields are cut without an error
  (`DnsName.NameRoundTrip`, `DnsPacket.TxtRoundTrip`, `DnsPacket.RecordRoundTrip`).
- f16 re-encoding quiets signalling NaNs (`HalfFloat.HalfRoundTrip`).
- A configured layer split is compared with the requested stage count, but a pipeline found by its reports
  may have another length; the preview then carries the stage-count reason
  (`LayerPlan.SplitAgainstReports`, `StageCountReason`).

## Model

| member | source | states |
|---|---|---|
| StageSession.SerialStage.Execute | runtime/adapters/llama_cpp_stage_adapter.cpp:495-529 | one execute call on a serial stage: succeeds exactly when assignment, session, step, payload kind, width and room are right and the engine works, and each error in its case; the session then holds exactly the payload rows more and the credited steps; the reply has a hidden row or a sample for every row, a sample with the text of its token; no other session changes, and a failed prefill leaves no session |
| StageSession.SerialStage.RunOn | runtime/adapters/llama_cpp_stage_adapter.cpp:388-493 | tokens or rows to output: success, a missing output and a late exception put exactly the payload rows into the cache and advance the position by as many; every other failure changes nothing; each error in its case; the position stays inside the context |
| StageSession.SerialStage.RollbackSession | runtime/adapters/llama_cpp_stage_adapter.cpp:895-917 | accepted exactly inside the decoded suffix when the engine agrees, each error in its case; cuts cache, position and step together |
| StageSession.SerialStage.CloseSession | runtime/adapters/llama_cpp_stage_adapter.cpp:882-885 | removes this session and no other |
| StageSession.SerialStage.Prune | runtime/adapters/llama_cpp_stage_adapter.cpp:939-946 | removes the expired sessions and no other |
| StageSession.HistoryKeepsPrompt | runtime/adapters/llama_cpp_stage_adapter.cpp:495-529 | over every history of calls with permitted input kinds each live session still starts with its prompt and next_position >= prompt length + expected_decode_step - 1 |
| StageSession.ApplyCovers | runtime/adapters/llama_cpp_stage_adapter.cpp:495-529 | the same for one call of any kind from any covered state |
| StageSession.RollbackSparesPrompt | runtime/adapters/llama_cpp_stage_adapter.cpp:902-916 | so an accepted rollback removes exactly the newest rows and never a prompt row |
| StageSession.TextDecodeCovers | runtime/adapters/llama_cpp_stage_adapter.cpp:515-527 | a text payload in decode is credited by its byte count: coverage survives exactly when position and tokens reach prompt, steps and a quarter of the bytes |
| StageSession.TextDecodeLosesPrompt | runtime/adapters/llama_cpp_stage_adapter.cpp:515-527 | a tokenizer and a text for which it does not, and an accepted rollback that then removes the prompt |
| StageSession.HistoryLost | runtime/adapters/llama_cpp_stage_adapter.cpp:388-493 | over every history the cache is ahead of prompt and counted steps by exactly the rows whose output was lost, so they agree just when none was |
| StageSession.ApplyLost | runtime/adapters/llama_cpp_stage_adapter.cpp:388-493 | the same for one call |
| StageSession.AllowedMeans | runtime/inference/stage.cpp:162-173 | of the inputs a stage would accept, the permitted ones are all but text in a decode and a sampled token in a prefill |
| Pipeline.ImagePrefix | runtime/adapters/llama_cpp_stage_adapter.cpp:388-475 | stages are causal: cutting the tokens cuts the rows of every stage |
| Pipeline.ForwardAdded | runtime/adapters/llama_cpp_stage_adapter.cpp:388-475 | a cached stage run on the added rows alone gives what a run on all rows would |
| Pipeline.SampleAdded | runtime/adapters/llama_cpp_stage_adapter.cpp:349-386 | one verification pass samples, for each prefix of the added tokens, what the whole pipeline samples after that prefix |
| Pipeline.RunOnAdded | runtime/adapters/llama_cpp_stage_adapter.cpp:388-493 | a stage in step with the context fails only because of the engine, for lack of room, or on no tokens, in prefill and decode |
| Pipeline.ExecuteOnAdded | runtime/adapters/llama_cpp_stage_adapter.cpp:495-529 | an accepted call leaves it in step with context and added tokens; a refused one was disturbed, repeated a known session, had no tokens or no room |
| Pipeline.RollbackHeld | runtime/adapters/llama_cpp_stage_adapter.cpp:895-917 | a rollback returns a stage to the state of the shorter context |
| Pipeline.StagePipeline.PassStage | runtime/pipeline_parallel/generation_runner.cpp:257-290 | one stage of a pass under any fault: in step with the tokens, or failed for a cause named over the state before |
| Pipeline.StagePipeline.RunPass | runtime/pipeline_parallel/generation_runner.cpp:248-292 | a pass that succeeds puts every stage in step with all tokens and returns the samples of the full pipeline; a failed pass names its stage, stops there and was disturbed there or refused for a stated reason; every other session of every stage stays with its value unless it expired in a call to that stage |
| Pipeline.StagePipeline.RollbackSessions | runtime/pipeline_parallel/generation_runner.cpp:328-378 | calls every stage even after an error and reports the first; without error all stages are in step with the shorter context; every other session stays unless it expired |
| Pipeline.FirstRefusalMeans | runtime/pipeline_parallel/generation_runner.cpp:328-378 | the reported rollback error is the one of the first stage that refuses, and there is none exactly when all agree |
| Pipeline.StagePipeline.CloseSessions | runtime/pipeline_parallel/generation_runner.cpp:294-326 | closes every stage exactly once, in order, even after an error; the session is left exactly where the request was lost, an error is reported exactly when a reply is missing, and every other session stays with its value unless it expired in a call to that stage |
| Pipeline.SparedThen | runtime/pipeline_parallel/generation_runner.cpp:248-378 | what calls do to other sessions adds up over stretches of calls |
| Generation.GenerationRunner.Run | runtime/pipeline_parallel/generation_runner.cpp:398-566 | speculative decoding equals plain greedy decoding on success, emits a prefix of it always, closes every stage exactly once and last, fails only for a cause that holds of the start, and succeeds in favourable circumstances unless a call was disturbed; its counters equal the executes, rollbacks and closes that the stages received; passes, drafted and accepted tokens and rejections are the ones that the draft strategy, the greedy tokens and the budget determine; no other session of any stage changes unless it expires |
| Generation.OnlyDisturbanceFails | runtime/pipeline_parallel/generation_runner.cpp:398-566 | with a new session, a non-empty prompt, room and width on every stage, an accepting sink and well-formed text no failure but a disturbance has a cause |
| Generation.EffortRound | runtime/pipeline_parallel/generation_runner.cpp:469-543 | one round costs what the draft made at that point costs: its length is drafted, the part that agrees with the greedy tokens accepted, and a rejection silences the next draft |
| Generation.GenerationRun.Drive | runtime/pipeline_parallel/generation_runner.cpp:444-555 | prefill and decode rounds: on the greedy track throughout, finished at the budget or an end token, or a failure with its cause |
| Generation.GenerationRun.Begin | runtime/pipeline_parallel/generation_runner.cpp:444-467 | prefill pass and first token, or the stage that refused or was disturbed |
| Generation.GenerationRun.FirstToken | runtime/pipeline_parallel/generation_runner.cpp:460-467 | the first sampled token is emitted or ends the run as greedy decoding would |
| Generation.GenerationRun.Round | runtime/pipeline_parallel/generation_runner.cpp:469-555 | one turn of the decode loop stays on the greedy track and makes progress |
| Generation.GenerationRun.Deliver | runtime/pipeline_parallel/generation_runner.cpp:542-555 | the confirmed outputs are emitted in order and keep the run on the greedy track until an end token or a failure |
| Generation.GenerationRun.RoundSpent | runtime/pipeline_parallel/generation_runner.cpp:470-520 | the counters of a round grow by its draft, its accepted part, one pass and the rollback of a rejection |
| Generation.GenerationRun.Verify | runtime/pipeline_parallel/generation_runner.cpp:480-540 | the longest agreeing prefix of the draft is accepted and no longer one, the rest is rolled back on all stages; step counter and outputs of one verification |
| Generation.GenerationRun.Settle | runtime/pipeline_parallel/generation_runner.cpp:521-543 | rejected tokens are rolled back on every stage and only then does the step counter move; the next draft is skipped exactly after a rejection |
| Generation.GenerationRun.Propose | runtime/pipeline_parallel/generation_runner.cpp:470-478 | a draft is what the strategy gives for the history, cut to the width and the remaining budget less one, and empty right after a rejection |
| Generation.GenerationRun.EmitOutputs | runtime/pipeline_parallel/generation_runner.cpp:542-555 | outputs are emitted in order until an end token or a failure |
| Generation.GenerationRun.Emit | runtime/pipeline_parallel/generation_runner.cpp:419-442 | token, complete text taken from the sampled item, index and counters of one event; malformed text is reported before the token counts |
| Generation.GenerationRun.RoomForDecode | runtime/adapters/llama_cpp_stage_adapter.cpp:477-486 | the reservation made at prefill covers every later pass, so no decode is refused for lack of room |
| Generation.GreedyFollows | internal/stageexec/generation.go:52-90 | greedy decoding splits at any point of its own output |
| Generation.OutputsFollow | runtime/pipeline_parallel/generation_runner.cpp:512-543 | accepted draft tokens and the first disagreement are what one-at-a-time decoding samples |
| Generation.MirrorStep | runtime/pipeline_parallel/generation_runner.cpp:419-442 | emitted texts and pending bytes always spell the text of the emitted tokens |
| Generation.Generate | internal/stageexec/generation.go:22-90 | the plain loop computes greedy decoding within 128 tokens without a limit, 1024 at most and the requested number otherwise, using them all unless an end token comes; it closes every stage exactly once and changes no other session unless it expires; it fails only after a disturbance or when a stage must refuse the prefill |
| GenerationEvents.GenerationEventConsumer.Accept | internal/coordinator/generation_events.go:81-164 | verdict and new state for each kind of event |
| GenerationEvents.StreamAccepted | internal/coordinator/generation_events.go:81-164 | a stream is accepted exactly when indices count from zero and the done event agrees with tokens and call accounting; lost, repeated and reordered tokens are detected |
| GenerationEvents.AnyStream | internal/coordinator/generation_events.go:81-164 | whatever a runtime sends, the coordinator finishes exactly when good token events are followed by a done event that agrees, waits exactly while there are good token events alone, and rejects everything else, so every stream with an error event |
| GenerationEvents.DoneMeans | internal/coordinator/generation_events.go:100-158 | a done event is accepted exactly with the streamed tokens, a known reason and calls in whole passes and rollbacks of all stages |
| GenerationEvents.RunAccepted | internal/coordinator/generation_events.go:90-158 | every successful run passes all checks of the coordinator, with the same tokens and text |
| PromptLookup.Propose | runtime/speculative/prompt_lookup_draft.cpp:15-44 | the search loops compute the longest, latest match |
| PromptLookup.SearchFindsLongest | runtime/speculative/prompt_lookup_draft.cpp:23-43 | a draft continues the last occurrence of the longest repeated suffix, and is empty exactly when no suffix of an allowed length is repeated |
| PromptLookup.DraftCopies | runtime/speculative/prompt_lookup_draft.cpp:15-44 | token by token a draft is what followed the last place of the longest repeated suffix, as far as there is room, and there is one exactly when some suffix of an allowed length is repeated |
| SampledBatch.ReadSampledBatch | runtime/pipeline_parallel/generation_runner.cpp:45-84 | accepted exactly when sizes match and offsets are ordered and consume the message; then every item is the token, text slice and end flag at its place |
| SampledBatch.PackedItem | runtime/adapters/llama_cpp_stage_adapter.cpp:349-386 | the reader gets back every item the last stage packed |
| SampledBatch.PackedOne | runtime/adapters/llama_cpp_stage_adapter.cpp:312-347 | a single token reads back with its text, and its completion count is zero exactly at an end token |
| Utf8.ValidateSequence | runtime/protocol/utf8.cpp:20-35 | accepts exactly the well-formed sequences of the given width |
| Utf8.CompleteUtf8Prefix | runtime/protocol/utf8.cpp:39-52 | the loop computes the scan of the text |
| Utf8.IsValidUtf8 | runtime/protocol/utf8.cpp:54-60 | true exactly when the text is the encoding of a sequence of Unicode scalar values |
| Utf8.EncodeAccepted | runtime/protocol/utf8.cpp:12-35 | every encoded scalar value is one accepted sequence |
| Utf8.AcceptedEncodes | runtime/protocol/utf8.cpp:12-35 | every accepted sequence is the encoding of a scalar value, so no overlong form and no surrogate |
| Utf8.ScanSound | runtime/protocol/utf8.cpp:39-52 | the released prefix is an encoding of scalar values |
| Utf8.ScanLongest | runtime/protocol/utf8.cpp:39-52 | and no longer prefix is |
| Utf8.StreamInvariant | runtime/pipeline_parallel/generation_runner.cpp:419-428 | at every moment the emitted text is whole code points and at most three bytes, fewer than their lead announces, are pending |
| Utf8.PendingFate | runtime/protocol/utf8.cpp:39-52 | pending bytes begin a code point exactly when they pass the checks so far; otherwise every text that reaches the announced width is malformed |
| Utf8.HopelessPending | runtime/protocol/utf8.cpp:39-52 | such bytes: a three-byte lead and a letter |
| Utf8.StreamStep | runtime/pipeline_parallel/generation_runner.cpp:419-428 | scanning only pending bytes and the new chunk gives the verdict, text and rest of scanning everything, wherever the text was cut |
| Utf8.MalformedStays | runtime/protocol/utf8.cpp:39-52 | an error is never taken back by more text |
| SharedDecode.BatchEqualsAnyOrder | runtime/adapters/llama_cpp_stage_adapter.cpp:703-823 | for distinct sessions, a batch within the limit and a healthy engine, batched decode gives every session the result, and leaves the counters, marks and memory, of decoding one at a time in every order, exactly when the accepted payloads can all be read or none can |
| SharedDecode.BatchAnswers | runtime/adapters/llama_cpp_stage_adapter.cpp:703-823 | what each input of a batch gets, in the order of the causes: too many, its own refusal, an unreadable neighbour, a failed call, an exception, a missing row, its output; and when nothing changes |
| SharedDecode.SpoiltBatch | runtime/adapters/llama_cpp_stage_adapter.cpp:746-791 | with an accepted payload that cannot be read nothing changes and every accepted request is refused |
| SharedDecode.TwoTokensSpoilNeighbour | runtime/adapters/llama_cpp_stage_adapter.cpp:746-791 | such a batch, and the neighbour that alone would succeed |
| SharedDecode.BatchIsFold | runtime/adapters/llama_cpp_stage_adapter.cpp:766-823 | a batch is the fold of its single steps |
| SharedDecode.FoldAnyOrder | runtime/adapters/llama_cpp_stage_adapter.cpp:812-822 | the fold does not depend on the order |
| SharedDecode.StepIndependent | runtime/adapters/llama_cpp_stage_adapter.cpp:711-738 | decoding one session changes neither the verdict nor the output of another |
| SharedDecode.VerdictAlone | runtime/adapters/llama_cpp_stage_adapter.cpp:726-732 | distinct sessions never meet the duplicate check |
| SharedDecode.SecondRefused | runtime/adapters/llama_cpp_stage_adapter.cpp:726-732 | a session named twice in a batch with the right step is refused the second time |
| SharedDecode.StepIsSerial | runtime/adapters/llama_cpp_stage_adapter.cpp:495-529 | a single-row step on a shared slot that holds no row beyond the next position is the serial step on the same session: state, output and errors |
| SharedDecode.OversizedBatchDecodesNobody | runtime/adapters/llama_cpp_stage_adapter.cpp:742-744 | beyond the batch limit nobody decodes and nothing changes |
| SharedStage.SharedAdapter.AllocateSequence | runtime/adapters/llama_cpp_stage_adapter.cpp:531-539 | marks the lowest free slot; none exactly when all are marked |
| SharedStage.SharedAdapter.ReleaseSequence | runtime/adapters/llama_cpp_stage_adapter.cpp:541-554 | clears the mark and the memory of one slot |
| SharedStage.SharedAdapter.ExecutePrefill | runtime/adapters/llama_cpp_stage_adapter.cpp:677-701 | all outcomes of a prefill; a failed one releases its slot, a thrown one does not |
| SharedStage.SharedAdapter.Judge | runtime/adapters/llama_cpp_stage_adapter.cpp:711-738 | verdict on one input: each refusal exactly in its case, and the slots taken so far |
| SharedStage.SharedAdapter.Screen | runtime/adapters/llama_cpp_stage_adapter.cpp:706-738 | verdict of every input in order, with the slots claimed so far |
| SharedStage.SharedAdapter.StoreRows | runtime/adapters/llama_cpp_stage_adapter.cpp:766-809 | the engine call stores the row of every accepted request in its slot, at its position |
| SharedStage.SharedAdapter.ReadRows | runtime/adapters/llama_cpp_stage_adapter.cpp:811-822 | rows are read back in order until one throws; only sessions whose row was read are counted forward |
| SharedStage.SharedAdapter.DecodeRows | runtime/adapters/llama_cpp_stage_adapter.cpp:746-809 | one engine call for all accepted inputs and the failure they share: unreadable payload, failed call, or an exception in the call or while reading, each exactly in its case |
| SharedStage.SharedAdapter.ExecuteDecode | runtime/adapters/llama_cpp_stage_adapter.cpp:703-764 | the whole batch call, results and state |
| SharedStage.SharedAdapter.CloseSession | runtime/adapters/llama_cpp_stage_adapter.cpp:887-892 | releases the slot of one session |
| SharedStage.SharedAdapter.RollbackSession | runtime/adapters/llama_cpp_stage_adapter.cpp:920-936 | as in serial mode, on the memory of the slot |
| SharedStage.HistorySlots | runtime/adapters/llama_cpp_stage_adapter.cpp:531-554 | over every history live sessions hold pairwise distinct slots, each slot starts with its prompt and holds a row for every position, next_position == prompt length + expected_decode_step - 1, and the marks are the live slots plus those of thrown prefills |
| SharedStage.CleanIffRead | runtime/adapters/llama_cpp_stage_adapter.cpp:801-822 | a batch keeps one row per position in every slot exactly when each row it stored was also read |
| SharedStage.MarksAreLiveSlots | runtime/adapters/llama_cpp_stage_adapter.cpp:684-700 | marks are exactly the live slots just when no prefill of the history threw after allocation |
| SharedStage.StarvedForever | runtime/adapters/llama_cpp_stage_adapter.cpp:684-700 | once as many prefills have thrown as there are slots, no later history has a live session and every prefill is refused |
| SharedStage.ThrownPrefillsStarve | runtime/adapters/llama_cpp_stage_adapter.cpp:692-697 | such histories exist for every number of slots: activations sent to a first stage |
| SharedRefinement.SharedIsSerial | runtime/adapters/llama_cpp_stage_adapter.cpp:677-936 | over every smooth history of prefills, batched decodes, rollbacks and closes each call gets the reply of serial mode and the sessions end with the serial caches and counters |
| SharedRefinement.PrefillIsSerial | runtime/adapters/llama_cpp_stage_adapter.cpp:677-701 | a prefill that finds a slot is the serial prefill: sessions, output and errors |
| SharedRefinement.DecodeIsSerial | runtime/adapters/llama_cpp_stage_adapter.cpp:703-823 | a batch is the serial series of its inputs |
| SharedRefinement.RollbackIsSerial | runtime/adapters/llama_cpp_stage_adapter.cpp:920-936 | a rollback on the shared memory is the serial one |
| SharedRefinement.CloseIsSerial | runtime/adapters/llama_cpp_stage_adapter.cpp:887-892 | and so is a close |
| ContinuousBatching.RequestsConserved | runtime/pipeline_parallel/continuous_batching_executor.cpp:44-141 | over every interleaving of callers, worker, stop request and direct calls, completed, running and queued requests, in this order, are the submitted ones, and no batch is empty or over the limit |
| ContinuousBatching.AnsweredInPlace | runtime/pipeline_parallel/continuous_batching_executor.cpp:95-97 | every request gets the answer in its own position of its batch |
| ContinuousBatching.AnsweredIffBeforeSweep | runtime/pipeline_parallel/continuous_batching_executor.cpp:99-141 | after the final sweep the completed requests are exactly those queued before it, whatever happens later |
| ContinuousBatching.LateRequestNeverAnswered | runtime/pipeline_parallel/continuous_batching_executor.cpp:50-57 | a request queued after the sweep is never completed by the worker |
| ContinuousBatching.IdleTakesFront | runtime/pipeline_parallel/continuous_batching_executor.cpp:102-127 | an idle worker takes the front of the queue in order: a full batch, or everything there is |
| ContinuousBatching.WorkerDrains | runtime/pipeline_parallel/continuous_batching_executor.cpp:59-100 | from every moment before a stop, so many turns that their batches can hold the queue complete every request submitted so far |
| ContinuousBatching.StopCompletes | runtime/pipeline_parallel/continuous_batching_executor.cpp:99-141 | a stop at any moment lets the running batch end and fails the rest, so nobody queued by then is left without an answer |
| ContinuousBatching.BatchingInvisible | runtime/pipeline_parallel/continuous_batching_executor.cpp:44-98 | however the queue is cut into batches and whatever prefills, closes, rollbacks and expiries come between them, every caller gets the answer of decoding the requests one by one in queue order, and the adapter ends in the same state, if each batch has distinct sessions and payloads that can all be read or none |
| ContinuousBatching.Executor.Enqueue | runtime/pipeline_parallel/continuous_batching_executor.cpp:50-57 | appends to the queue |
| ContinuousBatching.Executor.NextBatch | runtime/pipeline_parallel/continuous_batching_executor.cpp:102-127 | takes the front of the queue in order, as many as there are up to a full batch, and nothing after a stop request |
| ContinuousBatching.Executor.CompleteAll | runtime/pipeline_parallel/continuous_batching_executor.cpp:95-97 | completes every ticket once, with the answer at its position |
| ContinuousBatching.Executor.ResultsOf | runtime/pipeline_parallel/continuous_batching_executor.cpp:73-94 | results of the batch, or one failure for everybody when the delegate throws or miscounts |
| ContinuousBatching.Executor.FinishBatch | runtime/pipeline_parallel/continuous_batching_executor.cpp:67-97 | one batch of the worker |
| ContinuousBatching.Executor.FailPending | runtime/pipeline_parallel/continuous_batching_executor.cpp:129-141 | fails whatever is queued and empties the queue |
| DeploymentState.DeploymentStateObject.AdmitSession | internal/coordinator/deployment_state.go:98-122 | admits exactly when the phase is neither degraded nor failed and no other model is active; returns the active plan and raises the count of its epoch and of no other, or refuses with the reason |
| DeploymentState.DeploymentStateObject.ReleaseSession | internal/coordinator/deployment_state.go:236-246 | release lowers the count of its epoch, if positive, and of no other; the entry goes exactly when the count reaches zero and no plan has the epoch |
| DeploymentState.DeploymentStateObject.Begin | internal/coordinator/deployment_state.go:124-141 | starts a transition exactly when none is preparing and the epoch is the next one; or changes nothing |
| DeploymentState.DeploymentStateObject.PublishPlan | internal/coordinator/deployment_state.go:143-164 | publishes the prepared plan and moves the previous one to draining |
| DeploymentState.DeploymentStateObject.RollbackPlan | internal/coordinator/deployment_state.go:166-182 | drops the prepared plan, keeping it in draining when cleanup is pending; failed without an active plan, degraded when unhealthy, draining exactly with plans left to drain, else active |
| DeploymentState.DeploymentStateObject.RecordError | internal/coordinator/deployment_state.go:184-193 | records a reconcile error and the serving phase |
| DeploymentState.DeploymentStateObject.SetServingPhase | internal/coordinator/deployment_state.go:259-270 | failed, degraded, draining and active each exactly in its case of active plan, health and draining plans |
| DeploymentState.DeploymentStateObject.Finish | internal/coordinator/deployment_state.go:212-225 | forgets a drained epoch; every count and every other draining plan stays |
| DeploymentState.HistoryConsistent | internal/coordinator/deployment_state.go:98-270 | over every history each epoch counts exactly its unreleased admissions; active, preparing and draining epochs are distinct and at most the last epoch; the phase is Preparing exactly when a plan is preparing |
| DeploymentState.AdmissionKeepsPlans | internal/coordinator/deployment_state.go:98-122 | admissions and releases change no plan and no phase |
| DeploymentState.ReleaseUndoesAdmission | internal/coordinator/deployment_state.go:98-122 | an admission and its release leave every count and plan as before, and any outstanding session can be released |
| DeploymentState.ActiveWithDrains | internal/coordinator/deployment_state.go:143-164 | a published plan is in the active phase with plans still draining exactly when it is the first active one and a failed rollback left some |
| DeploymentState.ActiveDrainingExactly | internal/coordinator/deployment_state.go:124-225 | over every history the phase is active while a plan drains exactly when the first publication found a plan draining, no transition has begun since and that plan has not been finished |
| DeploymentState.ActiveWhileDraining | internal/coordinator/deployment_state.go:143-182 | such a history: a first deployment that fails and cannot be cleaned up, and a second that succeeds |
| DeploymentState.RetiredStaysDown | internal/coordinator/deployment_state.go:195-246 | an epoch that left service never returns and its count never grows: once zero, zero forever |
| ModelManager.ModelManagerObject.LoadFirst | runtime/deployment/model_manager.cpp:128-190 | a load up to its first locked half: builder, assignment, identity and duplicate checks in order, each refusal exactly in its case; a refusal changes nothing, success adds this identity in the loading state and registers the load |
| ModelManager.ModelManagerObject.LoadSecond | runtime/deployment/model_manager.cpp:192-238 | the locked second half: succeeds exactly when the engine was built and the load not cancelled; a cancelled one changes no resident |
| ModelManager.ModelManagerObject.ActivateDeployment | runtime/deployment/model_manager.cpp:240-278 | succeeds exactly for the identity held ready or active; success means it is served, and no other resident changes |
| ModelManager.ModelManagerObject.DrainDeployment | runtime/deployment/model_manager.cpp:280-302 | succeeds for every managed identity; what is served is draining and still served |
| ModelManager.ModelManagerObject.UnloadDeployment | runtime/deployment/model_manager.cpp:304-343 | refused exactly for an active deployment; cancels a load in progress; success means the identity is gone, no other resident changes, and the preferred deployment is the last one that serves |
| ModelManager.ModelManagerObject.SelectPreferredAfterErase | runtime/deployment/model_manager.cpp:604-615 | prefers a key that serves if there is one: of the same id the greatest epoch, against another id the greater text; the same among all keys when none serves; none exactly when the table is empty |
| ModelManager.KeyMeans | runtime/deployment/model_manager.cpp:24 | the order of the table: the id greater at the first character that differs, or longer, and for the same id the greater epoch |
| ModelManager.InterleavingSafe | runtime/deployment/model_manager.cpp:128-343 | in every interleaving of loads, commits, activations, drains and unloads the table stays consistent and no call reaches an illegal transition |
| ModelManager.CanceledNeverInstalls | runtime/deployment/model_manager.cpp:192-232 | a load unloaded while loading never installs its execution, even if the same identity is loaded again before it finishes |
| ModelManager.LifeCycle | runtime/deployment/model_manager.cpp:128-343 | load, commit, activate, drain and unload of a new identity all succeed in this order; it is served from activation until unload, and the table ends as it began |
| ModelManager.DrainThenUnload | runtime/deployment/model_manager.cpp:280-343 | drain and then unload get rid of a deployment in every state; a drain alone stops none from serving |
| ModelManager.ActiveNotUnloaded | runtime/deployment/model_manager.cpp:304-343 | an unload is refused exactly for an active deployment, and then changes nothing |
| ModelManager.ManagedMeans | runtime/deployment/model_manager.cpp:128-190 | a managed identity has a deployment, a model, a positive epoch and a digest of 64 hexadecimal digits |
| ModelManager.GreatestUnique | runtime/deployment/model_manager.cpp:604-615 | the key order is total, so the preferred deployment is determined |
| Handoff.HandoffSafety | internal/coordinator/deployment_transition.go:85-181 | in every interleaving of switches, repairs, admissions, releases and lost, late or repeated calls: while a session of a managed epoch is outstanding every stage of its plan holds exactly that identity, active or draining, with an execution, and no unload of the epoch was sent |
| Handoff.PublishedStays | internal/coordinator/deployment_transition.go:85-110 | the plan of a published epoch never changes |
| Handoff.NextKeeps | internal/coordinator/deployment_runtime.go:99-278 | one step of coordinator, controller, network or runtime keeps the invariant |
| Handoff.AdvanceKeeps | internal/coordinator/deployment_transition.go:85-161 | the controller loops: load all, activate all, publish, drain, wait, unload |
| Handoff.RecordKeeps | internal/coordinator/deployment_transition.go:128-143 | giving up on a prepared plan |
| Handoff.ControllerKeeps | internal/coordinator/reconciler.go:60-111 | failures, retries of a retirement and repairs by the reconciler |
| Handoff.ServesKept | runtime/deployment/model_manager.cpp:128-343 | only an unload of the same identity stops a runtime from serving it |
| Handoff.AdmittedPlanServed | internal/coordinator/deployment_state.go:98-122 | the plan an admission returns is for the requested model, and until its release every stage serves exactly that plan |
| HandoffProgress.SwitchCompletes | internal/coordinator/deployment_transition.go:85-126 | a switch to a plan whose nodes are reachable and free completes: every stage serves it, it is published and active, new sessions get it, and the previous plan is being retired |
| HandoffProgress.RetireCompletes | internal/coordinator/deployment_transition.go:144-161 | once its sessions are released a plan is retired: no stage holds it, the coordinator forgets it, and with nothing else draining the phase is active again |
| HandoffProgress.RetireWaits | internal/coordinator/deployment_state.go:195-210 | the retirement waits for the sessions of its epoch and for nothing else |
| HandoffProgress.FailureCompletes | internal/coordinator/deployment_transition.go:128-142 | a failed preparation is cleaned up: no stage holds the plan, the previous plan is as active as before, and the next transition can begin |
| HandoffProgress.RepairEnds | internal/coordinator/deployment_runtime.go:197-242 | a repair visits every stage once, in order, and ends with the record of the coordinator as it was |
| HandoffProgress.RepairRestores | internal/coordinator/deployment_runtime.go:197-242 | a repair restores the active plan: afterwards every stage serves it, those that had lost it as well, and the record of the coordinator is as it was |
| HandoffProgress.LeftoverRetires | internal/coordinator/reconciler.go:102-111 | a plan that was left draining can be retired later, once its sessions are released |
| HandoffProgress.NeverStuck | internal/coordinator/deployment_transition.go:85-181 | from every moment of every run the controller can come back to rest, even if every further call is lost |
| HalfFloat.FloatToHalf | runtime/activation/builtin_activation_codecs.cpp:51-106 | IEEE round to nearest, ties to even, over all f16 values including infinity; sign kept; NaN stays a quiet NaN with its top payload bits |
| HalfFloat.SpecialsKept | runtime/activation/builtin_activation_codecs.cpp:51-68 | infinity narrows to infinity and a NaN to the NaN with the quiet bit and its top payload bits, by the fields of both formats |
| HalfFloat.HalfToFloat | runtime/activation/builtin_activation_codecs.cpp:108-137 | exact widening of every value; NaN payload kept |
| HalfFloat.RoundNormal | runtime/activation/builtin_activation_codecs.cpp:87-105 | the normal range with carry into the exponent and to infinity |
| HalfFloat.RoundSubnormal | runtime/activation/builtin_activation_codecs.cpp:70-85 | results below the normal range |
| HalfFloat.Normalize | runtime/activation/builtin_activation_codecs.cpp:118-123 | the normalising loop |
| HalfFloat.NearestUnique | runtime/activation/builtin_activation_codecs.cpp:51-106 | there is one nearest-even value |
| HalfFloat.NarrowedUnique | runtime/activation/builtin_activation_codecs.cpp:51-106 | so the definition of narrowing leaves one result for every f32 |
| HalfFloat.HalfRoundTrip | runtime/activation/builtin_activation_codecs.cpp:51-137 | widening and narrowing gives the same half exactly unless it is a signalling NaN, which comes back quiet |
| HalfFloat.Encode | runtime/activation/builtin_activation_codecs.cpp:166-182 | errors by kind, type and length; element by element narrowing |
| HalfFloat.Decode | runtime/activation/builtin_activation_codecs.cpp:184-201 | errors by kind, type and length; element by element widening |
| HalfFloat.PayloadRoundTrip | runtime/activation/builtin_activation_codecs.cpp:166-201 | decode then encode gives the same bytes exactly when no element is a signalling NaN |
| DnsName.ReadLabels | internal/discovery/mdns.go:431-470 | terminates in bounds on every packet and succeeds exactly on well-formed names, cyclic pointers included, returning their labels and the offset behind |
| DnsName.DerivationShort | internal/discovery/mdns.go:436-440 | a well-formed name never revisits an offset, so the step limit rejects none |
| DnsName.AppendName | internal/discovery/mdns.go:318-334 | appends the labels that are kept, cut to 63 bytes, and a zero byte |
| DnsName.AppendedReads | internal/discovery/mdns.go:318-334 | an appended name reads back as the labels written, at any position of any packet |
| DnsName.PointerReads | internal/discovery/mdns.go:443-454 | labels followed by a pointer to a name anywhere in the packet read as both together, and reading goes on behind the pointer |
| DnsName.NameRoundTrip | internal/discovery/mdns.go:246-255 | every name: its parts come back exactly when each has 1 to 63 bytes, and the dotted name exactly when, besides, there is no space to trim |
| DnsName.LabelsRoundTrip | internal/discovery/mdns.go:318-334 | a name made of labels, with or without trailing dot, gives them back exactly when each has 1 to 63 bytes |
| DnsName.RepeatRejected | internal/discovery/mdns.go:436-440 | a reading that comes back to an offset is no name |
| DnsName.CycleRejected | internal/discovery/mdns.go:443-454 | no offset on a cycle of pointers and labels is a name |
| DnsPacket.EncodeTxt | internal/discovery/mdns.go:473-486 | length-prefixed strings, empty ones skipped, long ones cut |
| DnsPacket.DecodeTxt | internal/discovery/mdns.go:488-500 | strings up to the first that does not fit |
| DnsPacket.TxtRoundTrip | internal/discovery/mdns.go:473-500 | unchanged exactly when each string has 1 to 255 bytes |
| DnsPacket.AppendRecord | internal/discovery/mdns.go:308-316 | bytes of a resource record |
| DnsPacket.ReadRecord | internal/discovery/mdns.go:416-429 | type, data and end of the record at an offset, or failure |
| DnsPacket.RecordRoundTrip | internal/discovery/mdns.go:308-316 | a record appended anywhere reads back cut to 16-bit type and length, so unchanged exactly when both fit |
| DnsPacket.RecordCarried | internal/discovery/mdns.go:308-316 | every field of an appended record is in the packet: owner, type, class, time to live and data |
| DnsPacket.ServiceReads | internal/discovery/mdns.go:288-292 | SRV data reads as priority and weight zero, the port and the host |
| DnsPacket.CollectTxtRecords | internal/discovery/mdns.go:395-408 | TXT data of the records up to the first that does not parse |
| DnsPacket.RecordsRoundTrip | internal/discovery/mdns.go:395-408 | records written one after the other are collected in order |
| DnsPacket.SkipQuestions | internal/discovery/mdns.go:383-393 | offset behind the questions, or 0 when one does not parse |
| DnsPacket.QuestionsSkipped | internal/discovery/mdns.go:383-393 | written questions are skipped to their end |
| DnsPacket.ParseTxtAnswers | internal/discovery/mdns.go:368-381 | TXT answers of any packet by its header counts |
| DnsPacket.AnswersBehindQuestions | internal/discovery/mdns.go:368-393 | a packet gives answers only when all the questions it announces are there, one well-formed name and four bytes after the other, and then the answers are the records right behind them |
| DnsPacket.PacketRoundTrip | internal/discovery/mdns.go:368-381 | a packet of questions and records in any of the sections, with its true counts, gives the TXT data of its records in order |
| DnsPacket.BuildResponse | internal/discovery/mdns.go:274-296 | header and the three records of an announcement |
| DnsPacket.AnnouncedRecords | internal/discovery/mdns.go:274-296 | a reader finds exactly three records in an announcement: the service points at the instance, the instance is served at host and port, and its strings are the TXT data |
| DnsPacket.AnnouncementUnderstood | internal/discovery/mdns.go:274-296 | the strings of an announcement come out cut and without empty ones, so unchanged exactly when each has 1 to 255 bytes |
| SegmentLayout.PlanIndex | runtime/compiler/jf_model_compile.cpp:695-703 | size of the index, or overflow |
| SegmentLayout.PlanSegment | runtime/compiler/jf_model_compile.cpp:695-721 | succeeds exactly when the file size fits in uint64; the check on the byte total never fires |
| SegmentLayout.OffsetsDisjoint | runtime/compiler/jf_model_compile.cpp:709-720 | offsets are 64-aligned, behind the index, and tensor ranges never overlap |
| SegmentLayout.IndexLength | runtime/compiler/jf_model_compile.cpp:747-749 | the predicted index size is the emitted one, so the internal size check never fires |
| SegmentLayout.BuildIndex | runtime/compiler/jf_model_compile.cpp:723-750 | bytes of header and records |
| SegmentLayout.PadTo | runtime/compiler/jf_model_compile.cpp:332-336 | zeros up to the next multiple |
| SegmentLayout.CopyRange | runtime/compiler/jf_model_compile.cpp:648-676 | the bytes of one tensor, or failure when seek or read fails |
| SegmentLayout.WriteSegment | runtime/compiler/jf_model_compile.cpp:694-770 | fails exactly for overflow or an uncopyable tensor; otherwise the planned file; the overlap check never fires |
| SegmentLayout.DataInPlace | runtime/compiler/jf_model_compile.cpp:759-770 | the bytes of every tensor stand at its offset |
| SegmentReader.CheckShape | runtime/engines/native/src/engine.c:411-423 | accepted exactly when extents are positive, trailing ones are one and the row count fits uint64 |
| SegmentReader.CheckStorage | runtime/engines/native/src/engine.c:424-433 | accepted exactly when rows are whole blocks and length times block elements is elements times block bytes, in uint64 |
| SegmentReader.CheckRecord | runtime/engines/native/src/engine.c:368-433 | accepted exactly when every check holds, each spelled out in its numbers: name, place, alignment, flags, layer, rank, extents, whole blocks and length |
| SegmentReader.MapTensorSegment | runtime/engines/native/src/engine.c:336-454 | the loop over the index accepts or rejects as the record-by-record definition does; an accepted file has magic, version, zero padding and the counts of the descriptor |
| SegmentReader.MappedDisjoint | runtime/engines/native/src/engine.c:336-454 | any file that maps exposes aligned, pairwise disjoint ranges behind the index, inside the file, as long as their shapes say and together the bytes of the descriptor |
| SegmentReader.SegmentRoundTrip | runtime/engines/native/src/engine.c:336-454 | a written segment maps exactly when every tensor is self-consistent for it and there is room, and then each tensor has its fields and its source bytes |
| StageWire.FrameRoundTrip | runtime/protocol/stage.cpp:273-364 | decoding undoes encoding |
| StageWire.DecodedIsEncoding | runtime/protocol/stage.cpp:273-317 | a frame decodes only if it is header, metadata text and payload with exactly their lengths |
| StageWire.DecodesExactly | runtime/protocol/stage.cpp:273-317 | a frame decodes to a message exactly when it is the layout of that message, byte for byte |
| StageWire.FramingErrors | runtime/protocol/stage.cpp:273-300 | every framing error exactly in its case: short header, magic, version, flags, lengths out of range, truncated frame, trailing data |
| StageWire.MetadataErrors | runtime/protocol/stage.cpp:303-317 | every metadata error exactly in its case: text, version, payload length, checksum, transport |
| StageWire.EncodesExactly | runtime/protocol/stage.cpp:331-364 | a message can be sent exactly when its metadata text has at most 1 MiB and its payload at most 512 MiB, and then as that layout |
| StageWire.PrefixRejected | runtime/protocol/stage.cpp:273-300 | every proper prefix of a good frame is rejected as truncated |
| StageWire.ExtensionRejected | runtime/protocol/stage.cpp:273-300 | and every extension as trailing data |
| StageWire.EncodingInjective | runtime/protocol/stage.cpp:331-364 | equal frames carry equal metadata and payload |
| StageWire.ValidateShape | runtime/protocol/stage.cpp:255-265 | accepted exactly when all extents are positive and their product times the width is the payload size; the guards reject nothing else |
| StageWire.SendFrame | runtime/transport/http_stage_transport.cpp:162-203 | whatever the kernel takes per call, the bytes sent are headers, prefix and payload as far as it took them before a failing call; success exactly when that is all of them, error exactly when a failing call came first |
| StageWire.Consume | runtime/transport/http_stage_transport.cpp:192-201 | drops exactly the bytes taken from the front of the segments |
| StageWire.SentFrameDecodes | runtime/transport/http_stage_transport.cpp:162-203 | what arrives behind the headers decodes to what was sent |
| LayerPlan.AssignLayerRanges | internal/clusterplan/plan.go:491-510 | an even contiguous split, first stages one layer wider |
| LayerPlan.AssignConfiguredLayerRanges | internal/clusterplan/plan.go:477-489 | the configured split, or nothing |
| LayerPlan.ValidatePlanningRequest | internal/clusterplan/validation.go:13-24 | each reason exactly in its case |
| LayerPlan.HasRuntimeAssignments | internal/clusterplan/plan.go:314-321 | true exactly when some candidate reports an assignment |
| LayerPlan.ValidateStageLayerCounts | internal/clusterplan/validation.go:36-54 | accepts exactly positive counts of the right number and sum |
| LayerPlan.ValidateStagePlan | internal/clusterplan/validation.go:58-83 | no reason exactly for stages numbered in order that tile the layers; each other reason in its case |
| LayerPlan.ExplicitPipelinePlacements | internal/clusterplan/plan.go:323-368 | finds a complete reported pipeline whenever there is one, by first reports, the shortest if several |
| LayerPlan.RangesCoverModel | internal/clusterplan/plan.go:370-379 | true exactly when reported ranges tile the model |
| LayerPlan.FullModelReplica | internal/clusterplan/validation.go:85-96 | the first candidate that reports the whole model, and none exactly when there is none |
| LayerPlan.BuildStages | internal/clusterplan/plan.go:441-475 | stage k on placement k with its reported range, the configured width or its share of an even split, or nothing when the numbers differ |
| LayerPlan.SelectDistinctHosts | internal/clusterplan/plan.go:425-439 | the first candidate of each host in order, up to a number; with fewer, every host |
| LayerPlan.Colocated | internal/clusterplan/plan.go:226-238 | colocated unless several hosts, none twice |
| LayerPlan.DataParallelPreview | internal/clusterplan/plan.go:167-176 | one stage for the whole model, always valid |
| LayerPlan.PipelinePreview | internal/clusterplan/plan.go:178-196 | valid, or the colocation or stage-count reason and when |
| LayerPlan.PlanRoute | internal/clusterplan/plan.go:110-165 | on every input the reason, the mode and the place and width of every stage are determined: refusals in order, the shortest reported pipeline, a full replica, or a new plan; valid exactly without reason, and then the stages tile the layers on distinct candidates |
| LayerPlan.PreviewDetermined | internal/clusterplan/plan.go:110-165 | a request has one preview: validity, reason, mode and every stage follow from the candidates in their order, the layers, the policy and whether pipelines are supported |
| LayerPlan.SameStages | internal/clusterplan/plan.go:441-475 | placements and widths leave one plan |
| LayerPlan.ValidExactly | internal/clusterplan/plan.go:110-165 | valid exactly when not refused and the reported pipeline fits split and host policy, or a replica reports the whole model, or nothing is reported and nodes and hosts suffice |
| LayerPlan.StageCountReason | internal/clusterplan/plan.go:178-196 | the stage-count reason comes exactly when the shortest reported pipeline has another length than the configured split |
| LayerPlan.SplitAgainstReports | internal/clusterplan/plan.go:178-196 | such a request: six layers split in three against two nodes that report halves |
| LayerPlan.PlanFresh | internal/clusterplan/plan.go:145-165 | without reports: one stage on the first candidate, a pipeline on the first candidates of distinct hosts, on the first candidates when hosts are too few, or the reason why not |
| LayerPlan.OneStagePerLayer | internal/clusterplan/validation.go:56-83 | in a valid preview every layer is run by exactly one stage |
| LayerPlan.ValidateDeploymentStages | internal/clusterplan/deployment.go:136-165 | accepts exactly plans on distinct non-blank node IDs |
| LayerPlan.ValidPreviewDeploys | internal/clusterplan/deployment.go:136-165 | for distinct non-blank node IDs every valid preview passes |

## Left out

- Sockets, HTTP, timeouts, clocks, idle-time expiry rules and retries: they appear as outcomes, faults and sets of expired sessions.
- llama.cpp and the native kernels: a stage is an arbitrary causal function; rows that a failed engine call or a thrown prefill may leave behind are not visible in the model.
- Pipeline.StagePipeline.RunPass: identity and timing fields of stage replies are not modelled, so a reply that fails its identity check is the same fault as a lost one.
- Activation encoding between stages is absorbed in the layer functions of `Model`; the codec is proved on its own.
- SharedStage.SharedAdapter.ExecuteDecode: the reported execution batch size and batches that mix prefill and decode are not modelled.
- ContinuousBatching.Executor.SetValue: promises are tickets and shared pointers are values, so object identity and the wake-up of waiting threads are not captured.
- ModelManager.ModelManagerObject.LoadFirst: shared-pointer identity of a resident is a ticket; engine construction is an outcome.
- Handoff.HandoffSafety: a change of leader and a runtime that restarts with empty memory are not modelled.
- HandoffProgress.SwitchCompletes: a run that completes exists from every such state; that the scheduler and the network take it is not modelled.
- SharedRefinement.SharedIsSerial: for histories in which every prefill finds a slot and the engine of a batch is healthy; `SharedStage` states what happens otherwise.
- LayerPlan.PlanRoute: eligibility of members, the sort of candidates (not a strict weak order, so any order is allowed), warnings and topology counts are not modelled.
- StageWire.FrameRoundTrip: JSON text is a library that reads what it writes; CRC-32 is any function of the payload.
- SegmentLayout.WriteSegment: SHA-256, fsync, the manifest and the metadata segment are not modelled.
- DnsPacket.RecordsRoundTrip: for records with less than 65536 bytes of data; behind a longer one the reader goes on inside its data.
- DnsPacket.PacketRoundTrip: the same condition on the data, and counts that fit the header.
- DnsPacket.AnnouncementUnderstood: the same condition on the data; names and TXT strings of a member are parameters.
- Election, membership, configuration, installers, the command line and the dashboards: they would add only easy members.
