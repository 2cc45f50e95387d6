/** Epoch handoff: one coordinator, its controller loop and the runtimes it drives by RPC
    (internal/coordinator/deployment_transition.go:85-181, deployment_runtime.go:99-278, reconciler.go:60-111).

    Every step is atomic. Requests and replies may be lost, delayed, reordered and delivered more than
    once: a request that was sent can reach its runtime at any later time. */
module Handoff {
  import opened DeploymentState
  import M = ModelManager
  import opened Wrappers

  datatype Kind = LoadKind | ActivateKind | DrainKind | UnloadKind

  datatype Request = Request(node: NodeId, kind: Kind, identity: Identity)

  /** Where the controller is while it holds the reconcile lock; k is the stage being called. */
  datatype Control =
    | Idle
    | LoadingPlan(plan: Plan, k: nat)
    | ActivatingPlan(plan: Plan, k: nat)
    | CleaningDrain(plan: Plan, k: nat)
    | CleaningUnload(plan: Plan, k: nat)
    | RetireDrain(plan: Plan, k: nat)
    | RetireWait(plan: Plan)
    | RetireUnload(plan: Plan, k: nat)
    | Repairing(plan: Plan, k: nat)

  datatype System = System(
    t: Tracking,
    control: Control,
    runtimes: map<NodeId, M.Runtime>,
    sent: set<Request>,
    acked: set<Request>,
    published: map<nat, Plan>
  )

  datatype Action =
    | AdmitAction(modelId: string)
    | ReleaseAction(epoch: nat)
    | BeginAction(plan: Plan)
    | SendAction(request: Request)
    | DeliverAction(request: Request)
    | CommitAction(node: NodeId, ticket: nat, build: M.Build)
    | AdvanceAction
    | FailAction
    | RollbackAction(error: string, healthy: bool, cleanupPending: bool)
    | RetireAction(epoch: nat)
    | AbandonAction(error: string, healthy: bool)
    | RepairAction

  // --- Steps ----------------------------------------------------------------------------------------

  /** Requests the controller may issue where it is. */
  predicate MaySend(control: Control, r: Request) {
    match control
    case LoadingPlan(plan, k) => k < |plan.nodes| && r == Request(plan.nodes[k], LoadKind, plan.identity)
    case ActivatingPlan(plan, k) => k < |plan.nodes| && r == Request(plan.nodes[k], ActivateKind, plan.identity)
    case CleaningDrain(plan, k) => k < |plan.nodes| && r == Request(plan.nodes[k], DrainKind, plan.identity)
    case CleaningUnload(plan, k) => k < |plan.nodes| && r == Request(plan.nodes[k], UnloadKind, plan.identity)
    case RetireDrain(plan, k) => k < |plan.nodes| && r == Request(plan.nodes[k], DrainKind, plan.identity)
    case RetireUnload(plan, k) => k < |plan.nodes| && r == Request(plan.nodes[k], UnloadKind, plan.identity)
    case Repairing(plan, k) =>
      && k < |plan.nodes|
      && (r == Request(plan.nodes[k], LoadKind, plan.identity) || r == Request(plan.nodes[k], ActivateKind, plan.identity))
    case _ => false
  }

  function OperationOf(r: Request): M.Operation {
    match r.kind
    case LoadKind => M.BeginLoadOp(r.identity)
    case ActivateKind => M.ActivateOp(r.identity)
    case DrainKind => M.DrainOp(r.identity)
    case UnloadKind => M.UnloadOp(r.identity)
  }

  /** A runtime executes a request; a validated activation reply may reach the controller. */
  ghost function Deliver(s: System, r: Request): System {
    if r !in s.sent || r.node !in s.runtimes then s
    else
      var (after, reply) := M.Apply(s.runtimes[r.node], OperationOf(r));
      s.(runtimes := s.runtimes[r.node := after],
         acked := if r.kind.ActivateKind? && reply.code.Success? then s.acked + {r} else s.acked)
  }

  /** A load finishes on a runtime; its ready reply may reach the controller. */
  ghost function Commit(s: System, node: NodeId, ticket: nat, build: M.Build): System {
    if node !in s.runtimes || ticket !in s.runtimes[node].pending then s
    else
      var identity := s.runtimes[node].pending[ticket].identity;
      var (after, reply) := M.CommitLoad(s.runtimes[node], ticket, build);
      s.(runtimes := s.runtimes[node := after],
         acked := if reply.code.Success? then s.acked + {Request(node, LoadKind, identity)} else s.acked)
  }

  /** The controller goes on to the next stage or the next loop. Loading and activating need the reply
      of the current stage; draining, unloading and repairing go on after a failure as well. */
  function Advance(s: System): System {
    match s.control
    case LoadingPlan(plan, k) =>
      if k == |plan.nodes| then s.(control := ActivatingPlan(plan, 0))
      else if k < |plan.nodes| && Request(plan.nodes[k], LoadKind, plan.identity) in s.acked then
        s.(control := LoadingPlan(plan, k + 1))
      else s
    case ActivatingPlan(plan, k) =>
      if k == |plan.nodes| then
        s.(t := Apply(s.t, PublishOp), published := s.published[Epoch(plan) := plan],
           control := if s.t.c.active.Some? then RetireDrain(s.t.c.active.value, 0) else Idle)
      else if k < |plan.nodes| && Request(plan.nodes[k], ActivateKind, plan.identity) in s.acked then
        s.(control := ActivatingPlan(plan, k + 1))
      else s
    case CleaningDrain(plan, k) =>
      s.(control := if k < |plan.nodes| then CleaningDrain(plan, k + 1) else CleaningUnload(plan, 0))
    case CleaningUnload(plan, k) => if k < |plan.nodes| then s.(control := CleaningUnload(plan, k + 1)) else s
    case RetireDrain(plan, k) =>
      s.(control := if k < |plan.nodes| then RetireDrain(plan, k + 1) else RetireWait(plan))
    case RetireWait(plan) => if Count(s.t.c, Epoch(plan)) == 0 then s.(control := RetireUnload(plan, 0)) else s
    case RetireUnload(plan, k) =>
      if k < |plan.nodes| then s.(control := RetireUnload(plan, k + 1))
      else s.(t := Apply(s.t, FinishOp(Epoch(plan))), control := Idle)
    case Repairing(plan, k) => s.(control := if k < |plan.nodes| then Repairing(plan, k + 1) else Idle)
    case Idle => s
  }

  ghost function Next(s: System, a: Action): System {
    match a
    case AdmitAction(modelId) => s.(t := Apply(s.t, AdmitOp(modelId)))
    case ReleaseAction(epoch) => s.(t := Apply(s.t, ReleaseOp(epoch)))
    case BeginAction(plan) =>
      if s.control.Idle? && M.ManagedIdentity(plan.identity) && BeginTransition(s.t.c, plan).Some? then
        s.(t := Apply(s.t, BeginOp(plan)), control := LoadingPlan(plan, 0))
      else s
    case SendAction(request) => if MaySend(s.control, request) then s.(sent := s.sent + {request}) else s
    case DeliverAction(request) => Deliver(s, request)
    case CommitAction(node, ticket, build) => Commit(s, node, ticket, build)
    case AdvanceAction => Advance(s)
    case FailAction =>
      if s.control.LoadingPlan? || s.control.ActivatingPlan? then s.(control := CleaningDrain(s.control.plan, 0)) else s
    case RollbackAction(error, healthy, cleanupPending) =>
      if s.control.CleaningUnload? && s.control.k >= |s.control.plan.nodes| then
        s.(t := Apply(s.t, RollbackOp(error, healthy, cleanupPending)), control := Idle)
      else s
    case RetireAction(epoch) =>
      if s.control.Idle? && epoch in s.t.c.draining then s.(control := RetireDrain(s.t.c.draining[epoch], 0)) else s
    case AbandonAction(error, healthy) =>
      if s.control.RetireDrain? || s.control.RetireWait? || s.control.RetireUnload? || s.control.Repairing? || s.control.Idle? then
        s.(t := Apply(s.t, RecordOp(error, healthy)), control := Idle)
      else s
    case RepairAction =>
      if s.control.Idle? && s.t.c.active.Some? then s.(control := Repairing(s.t.c.active.value, 0)) else s
  }

  // --- Invariant ------------------------------------------------------------------------------------

  /** Some unload of the epoch has been sent. */
  ghost predicate UnloadSent(s: System, epoch: nat) {
    exists r :: r in s.sent && r.kind.UnloadKind? && r.identity.epoch == epoch
  }

  ghost predicate RuntimesOk(s: System) {
    forall n :: n in s.runtimes ==> M.RuntimeOk(s.runtimes[n])
  }

  /** An acknowledged activation stays true until an unload of its epoch is sent. */
  ghost predicate AcksHold(s: System) {
    forall r :: r in s.acked && r.kind.ActivateKind? && !UnloadSent(s, r.identity.epoch) ==>
      r.node in s.runtimes && M.Serves(s.runtimes[r.node], r.identity)
  }

  /** Every stage of a published plan has acknowledged its activation. */
  ghost predicate PublishedOk(s: System) {
    && (forall e :: e in s.published ==>
          Epoch(s.published[e]) == e && 0 < e <= s.t.c.lastEpoch && ActivationsAcked(s, s.published[e], |s.published[e].nodes|))
    && (s.t.c.active.Some? ==>
          Epoch(s.t.c.active.value) in s.published && s.published[Epoch(s.t.c.active.value)] == s.t.c.active.value)
    && (s.t.c.preparing.Some? ==> s.t.c.lastEpoch !in s.published)
    && (forall e: nat :: e > 0 && Count(s.t.c, e) > 0 ==> e in s.published)
  }

  ghost predicate ActivationsAcked(s: System, plan: Plan, k: nat) {
    k <= |plan.nodes| && forall i :: 0 <= i < k ==> Request(plan.nodes[i], ActivateKind, plan.identity) in s.acked
  }

  /** An unload is only ever sent for an epoch without sessions that cannot get any. */
  ghost predicate UnloadsSafe(s: System) {
    forall r :: r in s.sent && r.kind.UnloadKind? ==>
      && 0 < r.identity.epoch <= s.t.c.lastEpoch
      && Count(s.t.c, r.identity.epoch) == 0
      && (s.t.c.active.Some? ==> Epoch(s.t.c.active.value) != r.identity.epoch)
      && (s.t.c.preparing.Some? && s.t.c.lastEpoch == r.identity.epoch ==>
            s.control.CleaningDrain? || s.control.CleaningUnload?)
  }

  ghost predicate ControlOk(s: System) {
    match s.control
    case LoadingPlan(plan, k) => s.t.c.preparing == Some(plan)
    case ActivatingPlan(plan, k) => s.t.c.preparing == Some(plan) && ActivationsAcked(s, plan, k)
    case CleaningDrain(plan, k) => s.t.c.preparing == Some(plan)
    case CleaningUnload(plan, k) => s.t.c.preparing == Some(plan)
    case RetireDrain(plan, k) => s.t.c.preparing.None? && Epoch(plan) in s.t.c.draining
    case RetireWait(plan) => s.t.c.preparing.None? && Epoch(plan) in s.t.c.draining
    case RetireUnload(plan, k) => s.t.c.preparing.None? && Epoch(plan) in s.t.c.draining && Count(s.t.c, Epoch(plan)) == 0
    case Repairing(plan, k) => s.t.c.preparing.None? && s.t.c.active == Some(plan)
    case Idle => s.t.c.preparing.None?
  }

  ghost predicate Inv(s: System) {
    Consistent(s.t) && RuntimesOk(s) && AcksHold(s) && PublishedOk(s) && UnloadsSafe(s) && ControlOk(s)
  }

  // --- Runtimes keep serving -------------------------------------------------------------------------

  /** Only an unload of the same identity can stop a runtime from serving it. */
  lemma ServesKept(rt: M.Runtime, identity: Identity, op: M.Operation)
    requires M.RuntimeOk(rt) && M.Serves(rt, identity) && op != M.UnloadOp(identity)
    ensures M.Serves(M.Apply(rt, op).0, identity)
  {
  }

  lemma ActivationServes(rt: M.Runtime, identity: Identity)
    requires M.RuntimeOk(rt) && M.Activate(rt, identity).1.code.Success?
    ensures M.Serves(M.Activate(rt, identity).0, identity)
  {
  }

  // --- Every step keeps the invariant -------------------------------------------------------------------

  /** Steps of the coordinator alone leave runtimes, requests and acknowledgements as they are. */
  lemma RuntimesFrame(s: System, next: System)
    requires RuntimesOk(s) && AcksHold(s) && next.runtimes == s.runtimes && next.acked == s.acked && next.sent == s.sent
    ensures RuntimesOk(next) && AcksHold(next)
    ensures forall plan, k: nat :: ActivationsAcked(next, plan, k) <==> ActivationsAcked(s, plan, k)
  {
    hide M.RuntimeOk, M.Serves;
    assert forall e: nat :: UnloadSent(next, e) <==> UnloadSent(s, e);
  }

  lemma SessionsKeep(s: System, a: Action)
    requires Inv(s) && (a.AdmitAction? || a.ReleaseAction?)
    ensures Inv(Next(s, a))
  {
    hide RuntimesOk, AcksHold, ActivationsAcked, Admit, Release, Consistent, Count;
    var op := if a.AdmitAction? then AdmitOp(a.modelId) else ReleaseOp(a.epoch);
    ApplyConsistent(s.t, op);
    AdmissionKeepsPlans(s.t, op);
    var next := Next(s, a);
    RuntimesFrame(s, next);
    forall e: nat
      ensures Count(next.t.c, e) > Count(s.t.c, e) ==> e == if s.t.c.active.Some? then Epoch(s.t.c.active.value) else 0
    {
      if a.AdmitAction? {
        AdmitCounts(s.t.c, a.modelId, e);
      } else {
        ReleaseCounts(s.t.c, a.epoch, e);
      }
    }
    assert Ordered(s.t.c) by { assert Consistent(s.t); ConsistentOrdered(s.t); }
  }

  lemma ConsistentOrdered(t: Tracking)
    requires Consistent(t)
    ensures Ordered(t.c) && NoneAhead(t.c)
  {
  }

  lemma SendKeeps(s: System, r: Request)
    requires Inv(s)
    ensures Inv(Next(s, SendAction(r)))
  {
    hide M.RuntimeOk, M.Serves, Consistent, Count;
    ConsistentOrdered(s.t);
  }

  lemma RuntimeKeeps(s: System, node: NodeId, op: M.Operation, acks: set<Request>)
    requires Inv(s) && node in s.runtimes && s.acked <= acks
    requires forall r :: r in acks && r !in s.acked && r.kind.ActivateKind? ==>
               r.node == node && M.Serves(M.Apply(s.runtimes[node], op).0, r.identity)
    requires op.UnloadOp? ==> Request(node, UnloadKind, op.identity) in s.sent
    ensures Inv(s.(runtimes := s.runtimes[node := M.Apply(s.runtimes[node], op).0], acked := acks))
  {
    hide M.RuntimeOk, M.Serves, M.Apply, Consistent;
    var next := s.(runtimes := s.runtimes[node := M.Apply(s.runtimes[node], op).0], acked := acks);
    M.ApplyKeeps(s.runtimes[node], op);
    forall r | r in next.acked && r.kind.ActivateKind? && !UnloadSent(next, r.identity.epoch)
      ensures r.node in next.runtimes && M.Serves(next.runtimes[r.node], r.identity)
    {
      if r in s.acked {
        assert !UnloadSent(s, r.identity.epoch);
        if r.node == node {
          ServesKept(s.runtimes[node], r.identity, op);
        }
      }
    }
  }

  lemma DeliverKeeps(s: System, r: Request)
    requires Inv(s)
    ensures Inv(Deliver(s, r))
  {
    hide Inv, M.Serves, M.RuntimeOk;
    if r in s.sent && r.node in s.runtimes {
      var acks := Deliver(s, r).acked;
      if r.kind.ActivateKind? && M.Apply(s.runtimes[r.node], OperationOf(r)).1.code.Success? {
        InvRuntime(s, r.node);
        ActivationServes(s.runtimes[r.node], r.identity);
      }
      RuntimeKeeps(s, r.node, OperationOf(r), acks);
    }
  }

  lemma InvRuntime(s: System, node: NodeId)
    requires Inv(s) && node in s.runtimes
    ensures M.RuntimeOk(s.runtimes[node])
  {
  }

  lemma CommitKeeps(s: System, node: NodeId, ticket: nat, build: M.Build)
    requires Inv(s)
    ensures Inv(Commit(s, node, ticket, build))
  {
    hide Inv, M.Serves, M.RuntimeOk;
    if node in s.runtimes && ticket in s.runtimes[node].pending {
      RuntimeKeeps(s, node, M.CommitLoadOp(ticket, build), Commit(s, node, ticket, build).acked);
    }
  }

  /** Steps of the controller that change the coordinator. */
  lemma TransitionKeeps(s: System, op: Operation)
    requires Inv(s) && !op.AdmitOp? && !op.ReleaseOp?
    ensures Consistent(Apply(s.t, op))
    ensures forall e: nat :: Count(Apply(s.t, op).c, e) == Count(s.t.c, e)
  {
    TransitionConsistent(s.t, op);
    assert forall e: nat :: Count(Apply(s.t, op).c, e) == Count(s.t.c, e);
  }

  lemma BeginKeeps(s: System, plan: Plan)
    requires Inv(s)
    ensures Inv(Next(s, BeginAction(plan)))
  {
    hide M.RuntimeOk, M.Serves, Consistent, Count, M.ManagedIdentity;
    TransitionKeeps(s, BeginOp(plan));
    ConsistentOrdered(s.t);
  }

  lemma PublishKeeps(s: System)
    requires Inv(s) && s.control.ActivatingPlan? && s.control.k == |s.control.plan.nodes|
    ensures Inv(Advance(s))
  {
    hide M.RuntimeOk, M.Serves, Consistent, Count;
    TransitionKeeps(s, PublishOp);
    ConsistentOrdered(s.t);
  }

  lemma FinishKeeps(s: System)
    requires Inv(s) && s.control.RetireUnload? && s.control.k >= |s.control.plan.nodes|
    ensures Inv(Advance(s))
  {
    hide M.RuntimeOk, M.Serves, Consistent, Count;
    TransitionKeeps(s, FinishOp(Epoch(s.control.plan)));
    ConsistentOrdered(s.t);
  }

  lemma AdvanceKeeps(s: System)
    requires Inv(s)
    ensures Inv(Advance(s))
  {
    hide M.RuntimeOk, M.Serves, Consistent, Count;
    if s.control.ActivatingPlan? && s.control.k == |s.control.plan.nodes| {
      PublishKeeps(s);
    } else if s.control.RetireUnload? && s.control.k >= |s.control.plan.nodes| {
      FinishKeeps(s);
    } else {
      assert Advance(s) == s.(control := Advance(s).control);
    }
  }

  lemma RollbackKeeps(s: System, a: Action)
    requires Inv(s) && a.RollbackAction?
    ensures Inv(Next(s, a))
  {
    hide RuntimesOk, AcksHold, ActivationsAcked, Consistent, Count, ServingPhase;
    RuntimesFrame(s, Next(s, a));
    TransitionKeeps(s, RollbackOp(a.error, a.healthy, a.cleanupPending));
    ConsistentOrdered(s.t);
  }

  lemma AbandonKeeps(s: System, a: Action)
    requires Inv(s) && a.AbandonAction?
    ensures Inv(Next(s, a))
  {
    hide RuntimesOk, AcksHold, ActivationsAcked, Consistent, Count, ServingPhase;
    RuntimesFrame(s, Next(s, a));
    TransitionKeeps(s, RecordOp(a.error, a.healthy));
  }

  /** Giving up on a transition changes the coordinator's record. */
  lemma RecordKeeps(s: System, a: Action)
    requires Inv(s) && (a.RollbackAction? || a.AbandonAction?)
    ensures Inv(Next(s, a))
  {
    hide Inv, Next;
    if a.RollbackAction? {
      RollbackKeeps(s, a);
    } else {
      AbandonKeeps(s, a);
    }
  }

  lemma ControllerKeeps(s: System, a: Action)
    requires Inv(s) && (a.FailAction? || a.RetireAction? || a.RepairAction?)
    ensures Inv(Next(s, a))
  {
    hide RuntimesOk, AcksHold, ActivationsAcked, Consistent, Count;
    RuntimesFrame(s, Next(s, a));
    ConsistentOrdered(s.t);
  }

  lemma NextKeeps(s: System, a: Action)
    requires Inv(s)
    ensures Inv(Next(s, a))
  {
    hide Inv, Apply, Advance, Deliver, Commit;
    match a
    case AdmitAction(_) => SessionsKeep(s, a);
    case ReleaseAction(_) => SessionsKeep(s, a);
    case BeginAction(plan) => BeginKeeps(s, plan);
    case SendAction(request) => SendKeeps(s, request);
    case DeliverAction(request) => DeliverKeeps(s, request);
    case CommitAction(node, ticket, build) => CommitKeeps(s, node, ticket, build);
    case AdvanceAction => AdvanceKeeps(s);
    case FailAction => ControllerKeeps(s, a);
    case RollbackAction(_, _, _) => RecordKeeps(s, a);
    case RetireAction(_) => ControllerKeeps(s, a);
    case AbandonAction(_, _) => RecordKeeps(s, a);
    case RepairAction => ControllerKeeps(s, a);
  }

  // --- Handoff safety -------------------------------------------------------------------------------------

  /** A new coordinator facing runtimes in any consistent state. */
  ghost predicate Start(s: System) {
    && s.t == Tracking(Initial, multiset{}) && s.control == Idle
    && s.sent == {} && s.acked == {} && s.published == map[] && RuntimesOk(s)
  }

  ghost function Run(s: System, actions: seq<Action>): System {
    if actions == [] then s else Next(Run(s, actions[..|actions| - 1]), actions[|actions| - 1])
  }

  lemma {:induction false} RunKeeps(s: System, actions: seq<Action>)
    requires Start(s)
    ensures Inv(Run(s, actions))
    decreases |actions|
  {
    hide Inv, Next, Start;
    if actions == [] {
      StartInv(s);
    } else {
      RunKeeps(s, actions[..|actions| - 1]);
      NextKeeps(Run(s, actions[..|actions| - 1]), actions[|actions| - 1]);
    }
  }

  lemma StartInv(s: System)
    requires Start(s)
    ensures Inv(s)
  {
  }

  /** While a session of a managed epoch is outstanding, every stage of its plan holds exactly that
      identity, active or draining, with an execution; no unload of the epoch has been sent. */
  lemma HandoffSafety(s: System, actions: seq<Action>, epoch: nat)
    requires Start(s)
    requires epoch > 0 && epoch in Run(s, actions).t.outstanding
    ensures var now := Run(s, actions);
            && epoch in now.published && Epoch(now.published[epoch]) == epoch
            && !UnloadSent(now, epoch)
            && forall node :: node in now.published[epoch].nodes ==>
                 node in now.runtimes && M.Serves(now.runtimes[node], now.published[epoch].identity)
  {
    RunKeeps(s, actions);
    var now := Run(s, actions);
    assert Count(now.t.c, epoch) == now.t.outstanding[epoch] > 0;
    var plan := now.published[epoch];
    forall node | node in plan.nodes
      ensures node in now.runtimes && M.Serves(now.runtimes[node], plan.identity)
    {
      var i :| 0 <= i < |plan.nodes| && plan.nodes[i] == node;
      assert Request(plan.nodes[i], ActivateKind, plan.identity) in now.acked;
    }
  }

  /** The plan of an admission is the one every later state serves: plans of an epoch never change. */
  lemma {:induction false} PublishedStays(s: System, before: seq<Action>, after: seq<Action>, epoch: nat)
    requires Start(s) && epoch in Run(s, before).published
    ensures epoch in Run(s, before + after).published
    ensures Run(s, before + after).published[epoch] == Run(s, before).published[epoch]
    decreases |after|
  {
    hide Inv, Next, Start;
    if after == [] {
      assert before + after == before;
    } else {
      var init, last := after[..|after| - 1], after[|after| - 1];
      PublishedStays(s, before, init, epoch);
      assert (before + after)[..|before + after| - 1] == before + init;
      RunKeeps(s, before + init);
      PublishedStep(Run(s, before + init), last, epoch);
    }
  }

  /** The plan an admission returns is for the requested model, and until the session is released every
      one of its stages serves that plan's identity, whatever else happens. */
  lemma AdmittedPlanServed(s: System, before: seq<Action>, modelId: string, after: seq<Action>)
    requires Start(s)
    requires var r := Admit(Run(s, before).t.c, modelId).1;
             r.Admitted? && r.epoch > 0 && r.epoch in Run(s, before + ([AdmitAction(modelId)] + after)).t.outstanding
    ensures var r := Admit(Run(s, before).t.c, modelId).1;
            var later := Run(s, before + ([AdmitAction(modelId)] + after));
            && r.plan.Some? && r.plan.value.identity.modelId == modelId && Epoch(r.plan.value) == r.epoch
            && r.epoch in later.published && later.published[r.epoch] == r.plan.value
            && forall node :: node in r.plan.value.nodes ==>
                 node in later.runtimes && M.Serves(later.runtimes[node], r.plan.value.identity)
  {
    hide Start, Run, M.Serves, UnloadSent;
    RunKeeps(s, before);
    var now := Run(s, before);
    var epoch := Admit(now.t.c, modelId).1.epoch;
    PublishedStays(s, before, [AdmitAction(modelId)] + after, epoch);
    HandoffSafety(s, before + ([AdmitAction(modelId)] + after), epoch);
  }

  lemma PublishedStep(s: System, a: Action, epoch: nat)
    requires Inv(s) && epoch in s.published
    ensures epoch in Next(s, a).published && Next(s, a).published[epoch] == s.published[epoch]
  {
    hide M.RuntimeOk, M.ManagedIdentity, M.Apply, M.CommitLoad, MaySend, RuntimesOk, AcksHold, UnloadsSafe;
    ConsistentOrdered(s.t);
  }
}
