/** The coordinator's deployment state: admissions, epochs and phases
    (internal/coordinator/deployment_state.go:53-283). */
module DeploymentState {
  import opened Wrappers

  datatype Identity = Identity(deploymentId: string, epoch: nat, modelId: string, modelSha256: string)

  type NodeId = string

  /** An immutable deployment plan: its identity and the node of every stage. */
  datatype Plan = Plan(identity: Identity, nodes: seq<NodeId>)

  datatype Phase = Unmanaged | Preparing | Active | Draining | Degraded | Failed

  datatype Coordinator = Coordinator(
    phase: Phase,
    active: Option<Plan>,
    preparing: Option<Plan>,
    draining: map<nat, Plan>,
    inFlight: map<nat, nat>,
    lastError: string,
    lastEpoch: nat
  )

  datatype AdmitResult = Admitted(plan: Option<Plan>, epoch: nat) | Unavailable | ModelNotActive

  // --- Operations on values ------------------------------------------------------------------

  const Initial := Coordinator(Unmanaged, None, None, map[], map[], "", 0)

  function Epoch(plan: Plan): nat {
    plan.identity.epoch
  }

  function Count(c: Coordinator, epoch: nat): nat {
    if epoch in c.inFlight then c.inFlight[epoch] else 0
  }

  function Admit(c: Coordinator, modelId: string): (Coordinator, AdmitResult) {
    if c.phase.Degraded? || c.phase.Failed? then (c, Unavailable)
    else if c.active.Some? && c.active.value.identity.modelId != modelId then (c, ModelNotActive)
    else
      var epoch := if c.active.Some? then Epoch(c.active.value) else 0;
      (c.(inFlight := c.inFlight[epoch := Count(c, epoch) + 1]), Admitted(c.active, epoch))
  }

  predicate Tracked(c: Coordinator, epoch: nat) {
    || (c.active.Some? && Epoch(c.active.value) == epoch)
    || (c.preparing.Some? && Epoch(c.preparing.value) == epoch)
    || epoch in c.draining
  }

  function Release(c: Coordinator, epoch: nat): Coordinator {
    if Count(c, epoch) == 0 then c
    else if Count(c, epoch) == 1 && !Tracked(c, epoch) then c.(inFlight := c.inFlight - {epoch})
    else c.(inFlight := c.inFlight[epoch := Count(c, epoch) - 1])
  }

  /** None where the source returns an error; otherwise the new state and the previous plan. */
  function BeginTransition(c: Coordinator, next: Plan): Option<Coordinator> {
    if c.preparing.Some? || Epoch(next) != c.lastEpoch + 1 then None
    else Some(c.(lastEpoch := Epoch(next), preparing := Some(next), phase := Preparing, lastError := ""))
  }

  function Publish(c: Coordinator, plan: Plan): Coordinator {
    var drained := if c.active.Some? then c.draining[Epoch(c.active.value) := c.active.value] else c.draining;
    c.(draining := drained, active := Some(plan), preparing := None, lastError := "",
       phase := if c.active.None? then Active else Draining)
  }

  function ServingPhase(c: Coordinator, healthy: bool): Phase {
    if c.active.None? then Failed
    else if !healthy then Degraded
    else if c.draining != map[] then Draining
    else Active
  }

  function Rollback(c: Coordinator, plan: Plan, error: string, healthy: bool, cleanupPending: bool): Coordinator {
    var cleared := c.(preparing := None, lastError := error,
                      draining := if cleanupPending then c.draining[Epoch(plan) := plan] else c.draining);
    cleared.(phase := ServingPhase(cleared, healthy))
  }

  function RecordReconcileError(c: Coordinator, error: string, healthy: bool): Coordinator {
    var noted := c.(lastError := error);
    if c.preparing.None? && c.draining == map[] then noted.(phase := ServingPhase(noted, healthy)) else noted
  }

  function FinishDraining(c: Coordinator, epoch: nat): Coordinator {
    var dropped := c.(draining := c.draining - {epoch},
                      inFlight := if epoch in c.inFlight && c.inFlight[epoch] == 0 then c.inFlight - {epoch} else c.inFlight);
    if dropped.draining == map[] && dropped.preparing.None? && dropped.active.Some? then
      dropped.(phase := Active, lastError := "")
    else dropped
  }

  // --- The mutex-guarded object ---------------------------------------------------------------

  class DeploymentStateObject {
    var phase: Phase
    var active: Option<Plan>
    var preparing: Option<Plan>
    var draining: map<nat, Plan>
    var inFlight: map<nat, nat>
    var lastError: string
    var lastEpoch: nat

    function View(): Coordinator
      reads this
    {
      Coordinator(phase, active, preparing, draining, inFlight, lastError, lastEpoch)
    }

    constructor ()
      ensures View() == Initial
    {
      phase, active, preparing := Unmanaged, None, None;
      draining, inFlight, lastError, lastEpoch := map[], map[], "", 0;
    }

    method AdmitSession(modelId: string) returns (r: AdmitResult)
      modifies this
      ensures (View(), r) == Admit(old(View()), modelId)
      ensures r.Unavailable? <==> phase.Degraded? || phase.Failed?
      ensures r.Admitted? <==> !phase.Degraded? && !phase.Failed? && (active.Some? ==> active.value.identity.modelId == modelId)
      ensures r.Admitted? ==> r.plan == old(active) && r.epoch == if active.Some? then active.value.identity.epoch else 0
      ensures forall e: nat :: Count(View(), e) == old(Count(View(), e)) + if r.Admitted? && r.epoch == e then 1 else 0
    {
      if phase.Degraded? || phase.Failed? {
        return Unavailable;
      }
      if active.Some? && active.value.identity.modelId != modelId {
        return ModelNotActive;
      }
      var epoch := 0;
      if active.Some? {
        epoch := Epoch(active.value);
      }
      inFlight := inFlight[epoch := (if epoch in inFlight then inFlight[epoch] else 0) + 1];
      r := Admitted(active, epoch);
    }

    method ReleaseSession(epoch: nat)
      modifies this
      ensures View() == Release(old(View()), epoch)
      ensures forall e: nat :: Count(View(), e) == old(Count(View(), e)) - if e == epoch && old(Count(View(), e)) > 0 then 1 else 0
      ensures forall e :: e != epoch ==> (e in inFlight <==> e in old(inFlight))
      ensures epoch in inFlight <==>
                && epoch in old(inFlight)
                && (old(inFlight)[epoch] != 1
                    || (active.Some? && active.value.identity.epoch == epoch)
                    || (preparing.Some? && preparing.value.identity.epoch == epoch)
                    || epoch in draining)
      ensures View() == old(View()).(inFlight := inFlight)
    {
      if epoch in inFlight && inFlight[epoch] > 0 {
        inFlight := inFlight[epoch := inFlight[epoch] - 1];
        if inFlight[epoch] == 0 && !Tracked(View(), epoch) {
          inFlight := inFlight - {epoch};
        }
      }
    }

    method Begin(next: Plan) returns (previous: Option<Plan>, ok: bool)
      modifies this
      ensures ok <==> old(preparing).None? && next.identity.epoch == old(lastEpoch) + 1
      ensures ok ==> preparing == Some(next) && phase.Preparing? && lastEpoch == next.identity.epoch && lastError == ""
      ensures View() == if ok then BeginTransition(old(View()), next).value else old(View())
      ensures ok ==> previous == old(active)
      ensures active == old(active) && inFlight == old(inFlight) && draining == old(draining)
    {
      if preparing.Some? || Epoch(next) != lastEpoch + 1 {
        return None, false;
      }
      lastEpoch, preparing, phase, lastError := Epoch(next), Some(next), Preparing, "";
      previous, ok := active, true;
    }

    method PublishPlan(plan: Plan) returns (previous: Option<Plan>)
      modifies this
      ensures View() == Publish(old(View()), plan) && previous == old(active)
      ensures active == Some(plan) && preparing.None? && inFlight == old(inFlight) && lastEpoch == old(lastEpoch)
      ensures previous.None? ==> phase.Active? && draining == old(draining)
      ensures previous.Some? ==> phase.Draining? && draining == old(draining)[previous.value.identity.epoch := previous.value]
    {
      previous := active;
      if previous.Some? {
        draining := draining[Epoch(previous.value) := previous.value];
      }
      active, preparing, lastError := Some(plan), None, "";
      phase := if previous.None? then Active else Draining;
    }

    method RollbackPlan(plan: Plan, error: string, healthy: bool, cleanupPending: bool)
      modifies this
      ensures View() == Rollback(old(View()), plan, error, healthy, cleanupPending)
      ensures active == old(active) && inFlight == old(inFlight) && preparing.None? && lastError == error
      ensures draining == if cleanupPending then old(draining)[plan.identity.epoch := plan] else old(draining)
      ensures phase.Failed? <==> active.None?
      ensures phase.Degraded? <==> active.Some? && !healthy
      ensures phase.Draining? <==> active.Some? && healthy && draining != map[]
      ensures phase.Active? <==> active.Some? && healthy && draining == map[]
    {
      preparing := None;
      if cleanupPending {
        draining := draining[Epoch(plan) := plan];
      }
      lastError := error;
      SetServingPhase(healthy);
    }

    method SetServingPhase(healthy: bool)
      modifies this`phase
      ensures phase == ServingPhase(old(View()), healthy)
      ensures phase.Failed? <==> active.None?
      ensures phase.Degraded? <==> active.Some? && !healthy
      ensures phase.Draining? <==> active.Some? && healthy && draining != map[]
      ensures phase.Active? <==> active.Some? && healthy && draining == map[]
    {
      if active.None? {
        phase := Failed;
      } else if !healthy {
        phase := Degraded;
      } else if |draining| > 0 {
        phase := Draining;
      } else {
        phase := Active;
      }
    }

    method RecordError(error: string, healthy: bool)
      modifies this
      ensures View() == RecordReconcileError(old(View()), error, healthy)
      ensures View() == old(View()).(phase := phase, lastError := error)
      ensures preparing.Some? || draining != map[] ==> phase == old(phase)
      ensures preparing.None? && draining == map[] ==>
                phase == if active.None? then Failed else if healthy then Active else Degraded
    {
      lastError := error;
      if preparing.None? && draining == map[] {
        SetServingPhase(healthy);
      }
    }

    method Finish(epoch: nat)
      modifies this
      ensures View() == FinishDraining(old(View()), epoch)
      ensures forall e: nat :: Count(View(), e) == old(Count(View(), e))
      ensures forall e :: e in inFlight <==> e in old(inFlight) && !(e == epoch && old(inFlight)[e] == 0)
      ensures epoch !in draining && active == old(active) && preparing == old(preparing) && lastEpoch == old(lastEpoch)
      ensures forall e :: e != epoch && e in old(draining) ==> e in draining && draining[e] == old(draining)[e]
      ensures draining == map[] && preparing.None? && active.Some? ==> phase.Active? && lastError == ""
      ensures !(draining == map[] && preparing.None? && active.Some?) ==> phase == old(phase) && lastError == old(lastError)
    {
      draining := draining - {epoch};
      if epoch in inFlight && inFlight[epoch] == 0 {
        inFlight := inFlight - {epoch};
      }
      if draining == map[] && preparing.None? && active.Some? {
        phase, lastError := Active, "";
      }
    }
  }

  // --- What every history keeps ------------------------------------------------------------------

  /** Calls as the controller and the sessions make them: publish and rollback finish the plan that
      is being prepared, and an admission is released at most once. */
  datatype Operation =
    | AdmitOp(modelId: string)
    | ReleaseOp(epoch: nat)
    | BeginOp(plan: Plan)
    | PublishOp
    | RollbackOp(error: string, healthy: bool, cleanupPending: bool)
    | RecordOp(error: string, healthy: bool)
    | FinishOp(epoch: nat)

  /** The coordinator with the admissions that have not been released. */
  datatype Tracking = Tracking(c: Coordinator, outstanding: multiset<nat>)

  function Apply(t: Tracking, op: Operation): Tracking {
    match op
    case AdmitOp(modelId) =>
      var (next, r) := Admit(t.c, modelId);
      Tracking(next, if r.Admitted? then t.outstanding + multiset{r.epoch} else t.outstanding)
    case ReleaseOp(epoch) =>
      if epoch in t.outstanding then Tracking(Release(t.c, epoch), t.outstanding - multiset{epoch}) else t
    case BeginOp(plan) =>
      var next := BeginTransition(t.c, plan);
      if next.Some? then t.(c := next.value) else t
    case PublishOp => if t.c.preparing.Some? then t.(c := Publish(t.c, t.c.preparing.value)) else t
    case RollbackOp(error, healthy, cleanupPending) =>
      if t.c.preparing.Some? then t.(c := Rollback(t.c, t.c.preparing.value, error, healthy, cleanupPending)) else t
    case RecordOp(error, healthy) => t.(c := RecordReconcileError(t.c, error, healthy))
    case FinishOp(epoch) => t.(c := FinishDraining(t.c, epoch))
  }

  function Replay(ops: seq<Operation>): Tracking {
    if ops == [] then Tracking(Initial, multiset{}) else Apply(Replay(ops[..|ops| - 1]), ops[|ops| - 1])
  }

  /** Each count is the number of unreleased admissions. */
  ghost predicate Conserved(t: Tracking) {
    forall e: nat :: Count(t.c, e) == t.outstanding[e]
  }

  /** Active, preparing and draining epochs are pairwise distinct and known, and the phase is
      Preparing exactly when a plan is being prepared. */
  ghost predicate Ordered(c: Coordinator) {
    && (forall e :: e in c.draining ==> Epoch(c.draining[e]) == e && 0 < e <= c.lastEpoch)
    && (c.active.Some? ==> 0 < Epoch(c.active.value) <= c.lastEpoch && Epoch(c.active.value) !in c.draining)
    && (c.preparing.Some? ==> Epoch(c.preparing.value) == c.lastEpoch > 0 && c.lastEpoch !in c.draining)
    && (c.preparing.Some? && c.active.Some? ==> Epoch(c.active.value) != Epoch(c.preparing.value))
    && (c.phase.Preparing? <==> c.preparing.Some?)
  }

  /** No session is counted for an epoch that has not been published. */
  ghost predicate NoneAhead(c: Coordinator) {
    && (c.preparing.Some? ==> Count(c, c.lastEpoch) == 0)
    && (forall e: nat :: e > c.lastEpoch ==> Count(c, e) == 0)
  }

  /** What a phase says about the plans. An active phase does not say that nothing is draining. */
  ghost predicate PhaseTells(c: Coordinator) {
    match c.phase
    case Unmanaged => c.active.None?
    case Failed => c.active.None?
    case Active => c.active.Some?
    case Degraded => c.active.Some?
    case Draining => c.active.Some? && c.draining != map[]
    case Preparing => true
  }

  ghost predicate Consistent(t: Tracking) {
    Conserved(t) && Ordered(t.c) && NoneAhead(t.c) && PhaseTells(t.c)
  }

  lemma AdmitCounts(c: Coordinator, modelId: string, e: nat)
    ensures var (next, r) := Admit(c, modelId);
            && Count(next, e) == Count(c, e) + (if r.Admitted? && r.epoch == e then 1 else 0)
            && next == c.(inFlight := next.inFlight)
            && (r.Admitted? ==> r.plan == c.active && r.epoch == if c.active.Some? then Epoch(c.active.value) else 0)
  {
  }

  lemma ReleaseCounts(c: Coordinator, epoch: nat, e: nat)
    ensures var next := Release(c, epoch);
            && Count(next, e) == Count(c, e) - (if epoch == e && Count(c, e) > 0 then 1 else 0)
            && next == c.(inFlight := next.inFlight)
  {
  }

  /** A release takes back exactly one admission: after an admission and its release every count and plan is
      as before, and any outstanding session can be released. */
  lemma ReleaseUndoesAdmission(t: Tracking, modelId: string)
    requires Consistent(t)
    ensures var r := Admit(t.c, modelId).1;
            var admitted := Apply(t, AdmitOp(modelId));
            r.Admitted? ==>
              var released := Apply(admitted, ReleaseOp(r.epoch));
              && admitted.outstanding == t.outstanding + multiset{r.epoch} && released.outstanding == t.outstanding
              && released.c == t.c.(inFlight := released.c.inFlight)
              && forall e: nat :: Count(released.c, e) == Count(t.c, e)
    ensures forall e: nat :: e in t.outstanding ==> Count(Apply(t, ReleaseOp(e)).c, e) == Count(t.c, e) - 1
  {
    hide Count, Admit, Release;
    var (next, r) := Admit(t.c, modelId);
    forall e: nat
      ensures r.Admitted? ==> Count(Release(next, r.epoch), e) == Count(t.c, e)
      ensures e in t.outstanding ==> Count(Release(t.c, e), e) == Count(t.c, e) - 1
    {
      AdmitCounts(t.c, modelId, e);
      ReleaseCounts(next, if r.Admitted? then r.epoch else 0, e);
      ReleaseCounts(t.c, e, e);
    }
    if r.Admitted? {
      AdmitCounts(t.c, modelId, r.epoch);
      ReleaseCounts(next, r.epoch, r.epoch);
    }
  }

  lemma AdmissionConsistent(t: Tracking, op: Operation)
    requires Consistent(t) && (op.AdmitOp? || op.ReleaseOp?)
    ensures Consistent(Apply(t, op))
  {
    hide Count, Admit, Release;
    var next := Apply(t, op);
    forall e: nat
      ensures Count(next.c, e) == next.outstanding[e]
      ensures Count(next.c, e) > Count(t.c, e) ==> e == if t.c.active.Some? then Epoch(t.c.active.value) else 0
    {
      if op.AdmitOp? {
        AdmitCounts(t.c, op.modelId, e);
      } else {
        ReleaseCounts(t.c, op.epoch, e);
      }
    }
    AdmissionKeepsPlans(t, op);
  }

  lemma AdmissionKeepsPlans(t: Tracking, op: Operation)
    requires op.AdmitOp? || op.ReleaseOp?
    ensures Apply(t, op).c == t.c.(inFlight := Apply(t, op).c.inFlight)
  {
  }

  lemma TransitionConsistent(t: Tracking, op: Operation)
    requires Consistent(t) && !op.AdmitOp? && !op.ReleaseOp?
    ensures Consistent(Apply(t, op))
  {
    hide Admit, Release, FinishDraining;
    if op.FinishOp? {
      FinishConsistent(t, op.epoch);
    }
    assert op.FinishOp? || forall e: nat :: Count(Apply(t, op).c, e) == Count(t.c, e);
    if op.PublishOp? && t.c.active.Some? && t.c.preparing.Some? {
      assert Epoch(t.c.active.value) in Apply(t, op).c.draining;
    }
  }

  lemma FinishConsistent(t: Tracking, epoch: nat)
    requires Consistent(t)
    ensures Consistent(t.(c := FinishDraining(t.c, epoch)))
  {
    assert forall e: nat :: Count(FinishDraining(t.c, epoch), e) == Count(t.c, e);
  }

  lemma ApplyConsistent(t: Tracking, op: Operation)
    requires Consistent(t)
    ensures Consistent(Apply(t, op))
  {
    if op.AdmitOp? || op.ReleaseOp? {
      AdmissionConsistent(t, op);
    } else {
      TransitionConsistent(t, op);
    }
  }

  lemma {:induction false} HistoryConsistent(ops: seq<Operation>)
    ensures Consistent(Replay(ops))
  {
    if ops != [] {
      HistoryConsistent(ops[..|ops| - 1]);
      ApplyConsistent(Replay(ops[..|ops| - 1]), ops[|ops| - 1]);
    }
  }

  /** A published plan is in the active phase with plans still draining exactly when it is the first one to
      be active and a failed rollback has left some. */
  lemma ActiveWithDrains(t: Tracking)
    requires Consistent(t) && t.c.preparing.Some?
    ensures var c := Apply(t, PublishOp).c;
            c.phase.Active? && c.draining != map[] <==> t.c.active.None? && t.c.draining != map[]
  {
  }

  /** Call k published the first plan ever, and no transition has begun since. */
  ghost predicate FirstStage(ops: seq<Operation>, k: nat) {
    && k < |ops| && ops[k].PublishOp?
    && Replay(ops[..k]).c.active.None? && Replay(ops[..k]).c.preparing.Some?
    && Replay(ops[..k]).c.lastEpoch == Replay(ops).c.lastEpoch
  }

  lemma EpochGrows(t: Tracking, op: Operation)
    ensures t.c.lastEpoch <= Apply(t, op).c.lastEpoch
    ensures op.BeginOp? && Apply(t, op) != t ==> t.c.lastEpoch < Apply(t, op).c.lastEpoch
  {
  }

  lemma {:induction false} EpochGrown(ops: seq<Operation>, k: nat)
    requires k <= |ops|
    ensures Replay(ops[..k]).c.lastEpoch <= Replay(ops).c.lastEpoch
    decreases |ops|
  {
    hide Apply;
    if k == |ops| {
      assert ops[..k] == ops;
    } else {
      var init := ops[..|ops| - 1];
      EpochGrown(init, k);
      assert init[..k] == ops[..k];
      EpochGrows(Replay(init), ops[|ops| - 1]);
    }
  }

  /** What one call does to plans that drain beside a first active plan, while no transition begins. */
  lemma StageStep(t: Tracking, op: Operation)
    requires t.c.active.Some? && t.c.preparing.None? && Apply(t, op).c.lastEpoch == t.c.lastEpoch
    requires t.c.draining != map[] ==> t.c.phase.Active?
    ensures var c := Apply(t, op).c;
            && c.active.Some? && c.preparing.None?
            && c.draining == (if op.FinishOp? then t.c.draining - {op.epoch} else t.c.draining)
            && (c.draining != map[] ==> c.phase.Active?)
  {
    hide Admit, Release, FinishDraining;
    if op.AdmitOp? || op.ReleaseOp? {
      AdmissionKeepsPlans(t, op);
    } else if op.FinishOp? {
      FinishStep(t.c, op.epoch);
    }
  }

  lemma FinishStep(c: Coordinator, epoch: nat)
    ensures var d := FinishDraining(c, epoch);
            && d.active == c.active && d.preparing == c.preparing && d.draining == c.draining - {epoch}
            && d.lastEpoch == c.lastEpoch && (d.draining != map[] ==> d.phase == c.phase && c.draining != map[])
  {
  }

  /** During the first stage the phase stays active as long as something drains, and what drains is what
      drained at the publication and has not been finished since. */
  lemma {:induction false} StageKeeps(ops: seq<Operation>, k: nat)
    requires FirstStage(ops, k)
    ensures var before, c := Replay(ops[..k]).c, Replay(ops).c;
            && c.active.Some? && c.preparing.None? && (c.draining != map[] ==> c.phase.Active?)
            && forall e: nat :: e in c.draining <==> e in before.draining && FinishOp(e) !in ops[k + 1..]
    decreases |ops|
  {
    hide Apply;
    var init, last := ops[..|ops| - 1], ops[|ops| - 1];
    if k == |ops| - 1 {
      Published(Replay(init));
    } else {
      assert init[..k] == ops[..k];
      EpochGrown(init, k);
      EpochGrows(Replay(init), last);
      StageKeeps(init, k);
      StageStep(Replay(init), last);
      assert ops[k + 1..] == init[k + 1..] + [last];
    }
  }

  lemma Published(t: Tracking)
    requires t.c.active.None? && t.c.preparing.Some?
    ensures var c := Apply(t, PublishOp).c;
            c.active.Some? && c.preparing.None? && c.phase.Active? && c.draining == t.c.draining && c.lastEpoch == t.c.lastEpoch
  {
  }

  /** An active phase with plans draining comes from a first publication or was there before. */
  lemma ActiveFrom(t: Tracking, op: Operation)
    ensures var c := Apply(t, op).c;
            c.phase.Active? && c.draining != map[] ==>
              && c.lastEpoch == t.c.lastEpoch
              && ((op.PublishOp? && t.c.active.None? && t.c.preparing.Some?) || (t.c.phase.Active? && t.c.draining != map[]))
  {
    hide Admit, Release, FinishDraining;
    if op.AdmitOp? || op.ReleaseOp? {
      AdmissionKeepsPlans(t, op);
    } else if op.FinishOp? {
      FinishStep(t.c, op.epoch);
    }
  }

  lemma {:induction false} ActiveStage(ops: seq<Operation>) returns (k: nat)
    requires Replay(ops).c.phase.Active? && Replay(ops).c.draining != map[]
    ensures FirstStage(ops, k)
    decreases |ops|
  {
    hide Apply;
    k := 0;
    if ops != [] {
      var init, last := ops[..|ops| - 1], ops[|ops| - 1];
      ActiveFrom(Replay(init), last);
      if last.PublishOp? && Replay(init).c.active.None? && Replay(init).c.preparing.Some? {
        k := |init|;
      } else {
        k := ActiveStage(init);
        assert init[..k] == ops[..k];
      }
    }
  }

  /** Over every history: the phase is active while a plan drains exactly when the first publication found a
      plan draining, no transition has begun since, and that plan has not been finished. */
  lemma ActiveDrainingExactly(ops: seq<Operation>)
    ensures Replay(ops).c.phase.Active? && Replay(ops).c.draining != map[] <==>
            exists k: nat, e: nat :: FirstStage(ops, k) && e in Replay(ops[..k]).c.draining && FinishOp(e) !in ops[k + 1..]
  {
    hide Apply, Replay;
    if Replay(ops).c.phase.Active? && Replay(ops).c.draining != map[] {
      var k := ActiveStage(ops);
      StageKeeps(ops, k);
      var e: nat :| e in Replay(ops).c.draining;
    }
    forall k: nat, e: nat | FirstStage(ops, k) && e in Replay(ops[..k]).c.draining && FinishOp(e) !in ops[k + 1..]
      ensures Replay(ops).c.phase.Active? && Replay(ops).c.draining != map[]
    {
      StageKeeps(ops, k);
      assert e in Replay(ops).c.draining;
    }
  }

  const FIRST := Plan(Identity("a", 1, "m", ""), ["n"])
  const SECOND := Plan(Identity("b", 2, "m", ""), ["n"])

  /** Such a history: a first deployment that fails and cannot be cleaned up, and a second that succeeds. */
  lemma ActiveWhileDraining()
    ensures var c := Replay([BeginOp(FIRST), RollbackOp("", true, true), BeginOp(SECOND), PublishOp]).c;
            c.phase.Active? && c.active == Some(SECOND) && c.draining == map[1 := FIRST]
  {
    var ops := [BeginOp(FIRST), RollbackOp("", true, true), BeginOp(SECOND), PublishOp];
    assert ops[..3][..2][..1][..0] == [];
    assert ops[..3][..2][..1] == [BeginOp(FIRST)] && ops[..3][..2] == [BeginOp(FIRST), RollbackOp("", true, true)];
    assert ops[..3] == [BeginOp(FIRST), RollbackOp("", true, true), BeginOp(SECOND)];
    assert Replay(ops[..3][..2][..1]).c == Coordinator(Preparing, None, Some(FIRST), map[], map[], "", 1);
    assert Replay(ops[..3][..2]).c == Coordinator(Failed, None, None, map[1 := FIRST], map[], "", 1);
  }

  /** An epoch that has left service: known, and neither active nor being prepared. */
  predicate Retired(c: Coordinator, epoch: nat) {
    && 0 < epoch <= c.lastEpoch
    && (c.active.Some? ==> Epoch(c.active.value) != epoch)
    && (c.preparing.Some? ==> Epoch(c.preparing.value) != epoch)
  }

  /** A retired epoch never returns to service, and its count never grows: once zero, zero forever. */
  lemma {:induction false} RetiredStaysDown(before: seq<Operation>, after: seq<Operation>, epoch: nat)
    requires Retired(Replay(before).c, epoch)
    ensures Retired(Replay(before + after).c, epoch)
    ensures Count(Replay(before + after).c, epoch) <= Count(Replay(before).c, epoch)
    decreases |after|
  {
    hide Apply, Retired, Count, Consistent;
    if after == [] {
      assert before + after == before;
    } else {
      var init, last := after[..|after| - 1], after[|after| - 1];
      RetiredStaysDown(before, init, epoch);
      HistoryConsistent(before + init);
      assert (before + after)[..|before + after| - 1] == before + init;
      RetiredStep(Replay(before + init), last, epoch);
    }
  }

  lemma RetiredStep(t: Tracking, op: Operation, epoch: nat)
    requires Consistent(t) && Retired(t.c, epoch)
    ensures Retired(Apply(t, op).c, epoch) && Count(Apply(t, op).c, epoch) <= Count(t.c, epoch)
  {
    if op.AdmitOp? {
      AdmitCounts(t.c, op.modelId, epoch);
    } else if op.ReleaseOp? {
      ReleaseCounts(t.c, op.epoch, epoch);
    } else {
      TransitionRetired(t, op, epoch);
    }
  }

  lemma TransitionRetired(t: Tracking, op: Operation, epoch: nat)
    requires Consistent(t) && Retired(t.c, epoch) && !op.AdmitOp? && !op.ReleaseOp?
    ensures Retired(Apply(t, op).c, epoch) && Count(Apply(t, op).c, epoch) <= Count(t.c, epoch)
  {
  }
}
