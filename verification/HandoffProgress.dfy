/** What the handoff achieves when nothing goes wrong, and that it never gets stuck
    (internal/coordinator/deployment_transition.go:85-181, deployment_runtime.go:99-278). */
module HandoffProgress {
  import opened DeploymentState
  import opened Handoff
  import M = ModelManager
  import opened Wrappers

  lemma {:induction false} RunAppend(s: System, first: seq<Action>, second: seq<Action>)
    ensures Run(s, first + second) == Run(Run(s, first), second)
    decreases |second|
  {
    hide Next;
    var all := first + second;
    if second == [] {
      assert all == first;
    } else {
      assert all[..|all| - 1] == first + second[..|second| - 1];
      RunAppend(s, first, second[..|second| - 1]);
    }
  }

  lemma RunOne(s: System, a: Action)
    ensures Run(s, [a]) == Next(s, a)
  {
    hide Next;
    assert [a][..0] == [];
    assert Run(s, []) == s;
  }

  lemma RunThen(s: System, actions: seq<Action>, a: Action)
    ensures Run(s, actions + [a]) == Next(Run(s, actions), a)
  {
    hide Next;
    assert (actions + [a])[..|actions|] == actions;
  }

  // --- Single steps ---------------------------------------------------------------------------------

  lemma Sends(s: System, r: Request)
    requires MaySend(s.control, r)
    ensures Next(s, SendAction(r)) == s.(sent := s.sent + {r})
  {
    hide MaySend;
  }

  lemma Delivers(s: System, r: Request)
    requires r in s.sent && r.node in s.runtimes
    ensures var (after, reply) := M.Apply(s.runtimes[r.node], OperationOf(r));
            Next(s, DeliverAction(r)) ==
            s.(runtimes := s.runtimes[r.node := after],
               acked := if r.kind.ActivateKind? && reply.code.Success? then s.acked + {r} else s.acked)
  {
    hide M.Apply, MaySend, Advance;
  }

  lemma AllLoaded(s: System, plan: Plan)
    requires s.control == LoadingPlan(plan, |plan.nodes|)
    ensures Next(s, AdvanceAction) == s.(control := ActivatingPlan(plan, 0))
  {
  }

  lemma AllActive(s: System, plan: Plan)
    requires s.control == ActivatingPlan(plan, |plan.nodes|)
    ensures Next(s, AdvanceAction) ==
            s.(t := Apply(s.t, PublishOp), published := s.published[Epoch(plan) := plan],
               control := if s.t.c.active.Some? then RetireDrain(s.t.c.active.value, 0) else Idle)
  {
    hide Apply;
  }

  lemma AllDrained(s: System, cleaning: bool, plan: Plan)
    requires s.control == DrainAt(cleaning, plan, |plan.nodes|)
    ensures Next(s, AdvanceAction) == s.(control := if cleaning then CleaningUnload(plan, 0) else RetireWait(plan))
  {
  }

  lemma AllUnloaded(s: System, plan: Plan)
    requires s.control == RetireUnload(plan, |plan.nodes|)
    ensures Next(s, AdvanceAction) == s.(t := Apply(s.t, FinishOp(Epoch(plan))), control := Idle)
  {
    hide Apply;
  }

  lemma RollsBack(s: System, plan: Plan, error: string, healthy: bool, cleanupPending: bool)
    requires s.control == CleaningUnload(plan, |plan.nodes|)
    ensures Next(s, RollbackAction(error, healthy, cleanupPending)) ==
            s.(t := Apply(s.t, RollbackOp(error, healthy, cleanupPending)), control := Idle)
  {
    hide Apply;
  }

  lemma StepsOne(s: System)
    requires s.control.CleaningDrain? || s.control.CleaningUnload? || s.control.Repairing?
    requires s.control.k < |s.control.plan.nodes|
    ensures Next(s, AdvanceAction) == s.(control := s.control.(k := s.control.k + 1))
  {
  }

  // --- One call ---------------------------------------------------------------------------------------

  /** The request is issued and executed. */
  function Call(r: Request): seq<Action> {
    [SendAction(r), DeliverAction(r)]
  }

  lemma CallDone(s: System, r: Request)
    requires MaySend(s.control, r) && r.node in s.runtimes
    ensures var after := M.Apply(s.runtimes[r.node], OperationOf(r)).0;
            var now := Run(s, Call(r));
            && now.t == s.t && now.control == s.control && now.published == s.published
            && now.runtimes == s.runtimes[r.node := after]
            && (r.kind.ActivateKind? && M.Apply(s.runtimes[r.node], OperationOf(r)).1.code.Success? ==> r in now.acked)
  {
    hide M.Apply, MaySend, Next, Run;
    RunOne(s, SendAction(r));
    assert Call(r) == [SendAction(r)] + [DeliverAction(r)];
    RunThen(s, [SendAction(r)], DeliverAction(r));
    Sends(s, r);
    Delivers(Next(s, SendAction(r)), r);
  }

  ghost predicate Reachable(s: System, plan: Plan) {
    forall i :: 0 <= i < |plan.nodes| ==> plan.nodes[i] in s.runtimes
  }

  ghost predicate DistinctNodes(plan: Plan) {
    forall i, j :: 0 <= i < j < |plan.nodes| ==> plan.nodes[i] != plan.nodes[j]
  }

  ghost predicate InState(s: System, node: NodeId, identity: Identity, state: M.Residency) {
    node in s.runtimes && M.Holds(s.runtimes[node], identity) && M.StateOf(s.runtimes[node], identity) == state
  }

  // --- A switch -----------------------------------------------------------------------------------

  lemma LoadsReady(rt: M.Runtime, identity: Identity)
    requires M.RuntimeOk(rt) && M.ManagedIdentity(identity) && M.KeyFor(identity) !in rt.deployments
    ensures var loading := M.BeginLoad(rt, identity).0;
            && rt.nextTicket in loading.pending && loading.pending[rt.nextTicket].identity == identity
            && var (ready, reply) := M.CommitLoad(loading, rt.nextTicket, M.BuildOk);
               && reply.code.Success? && M.RuntimeOk(ready) && M.Holds(ready, identity) && M.StateOf(ready, identity).Ready?
               && ready.deployments[M.KeyFor(identity)].execution
  {
    hide M.RuntimeOk;
    M.BeginLoadKeeps(rt, identity);
    M.CommitLoadKeeps(M.BeginLoad(rt, identity).0, rt.nextTicket, M.BuildOk);
  }

  lemma ActivatesReady(rt: M.Runtime, identity: Identity)
    requires M.RuntimeOk(rt) && M.ManagedIdentity(identity) && M.Holds(rt, identity) && M.StateOf(rt, identity).Ready?
    ensures var (active, reply) := M.Activate(rt, identity);
            && reply.code.Success? && M.RuntimeOk(active) && M.Holds(active, identity) && M.StateOf(active, identity).ActiveState?
            && M.Serves(active, identity)
  {
    hide M.RuntimeOk;
    M.ActivateKeeps(rt, identity);
    M.ResidentFacts(rt, identity);
  }

  /** One stage is loaded. */
  function LoadStage(plan: Plan, k: nat, ticket: nat): seq<Action>
    requires k < |plan.nodes|
  {
    Call(Request(plan.nodes[k], LoadKind, plan.identity)) + [CommitAction(plan.nodes[k], ticket, M.BuildOk)] + [AdvanceAction]
  }

  lemma StageLoads(s: System, plan: Plan, k: nat)
    requires s.control == LoadingPlan(plan, k) && k < |plan.nodes| && plan.nodes[k] in s.runtimes
    requires M.ManagedIdentity(plan.identity) && M.RuntimeOk(s.runtimes[plan.nodes[k]])
    requires M.KeyFor(plan.identity) !in s.runtimes[plan.nodes[k]].deployments
    ensures var now := Run(s, LoadStage(plan, k, s.runtimes[plan.nodes[k]].nextTicket));
            && now.control == LoadingPlan(plan, k + 1) && now.t == s.t && now.published == s.published
            && InState(now, plan.nodes[k], plan.identity, M.Ready) && M.RuntimeOk(now.runtimes[plan.nodes[k]])
            && now.runtimes == s.runtimes[plan.nodes[k] := now.runtimes[plan.nodes[k]]]
  {
    hide M.RuntimeOk, M.BeginLoad, M.CommitLoad, M.ManagedIdentity, MaySend;
    var node, rt := plan.nodes[k], s.runtimes[plan.nodes[k]];
    var r := Request(node, LoadKind, plan.identity);
    MayLoad(plan, k);
    LoadsReady(rt, plan.identity);
    CallDone(s, r);
    RunThen(s, Call(r), CommitAction(node, rt.nextTicket, M.BuildOk));
    RunThen(s, Call(r) + [CommitAction(node, rt.nextTicket, M.BuildOk)], AdvanceAction);
    assert s.runtimes[node := M.BeginLoad(rt, plan.identity).0][node := M.CommitLoad(M.BeginLoad(rt, plan.identity).0, rt.nextTicket, M.BuildOk).0]
           == s.runtimes[node := M.CommitLoad(M.BeginLoad(rt, plan.identity).0, rt.nextTicket, M.BuildOk).0];
  }

  lemma MayLoad(plan: Plan, k: nat)
    requires k < |plan.nodes|
    ensures MaySend(LoadingPlan(plan, k), Request(plan.nodes[k], LoadKind, plan.identity))
    ensures MaySend(ActivatingPlan(plan, k), Request(plan.nodes[k], ActivateKind, plan.identity))
  {
  }

  function ActivateStage(plan: Plan, k: nat): seq<Action>
    requires k < |plan.nodes|
  {
    Call(Request(plan.nodes[k], ActivateKind, plan.identity)) + [AdvanceAction]
  }

  lemma StageActivates(s: System, plan: Plan, k: nat)
    requires s.control == ActivatingPlan(plan, k) && k < |plan.nodes| && M.ManagedIdentity(plan.identity)
    requires InState(s, plan.nodes[k], plan.identity, M.Ready) && M.RuntimeOk(s.runtimes[plan.nodes[k]])
    ensures var now := Run(s, ActivateStage(plan, k));
            && now.control == ActivatingPlan(plan, k + 1) && now.t == s.t && now.published == s.published
            && InState(now, plan.nodes[k], plan.identity, M.ActiveState) && M.Serves(now.runtimes[plan.nodes[k]], plan.identity)
            && now.runtimes == s.runtimes[plan.nodes[k] := now.runtimes[plan.nodes[k]]]
  {
    hide M.RuntimeOk, M.Activate, M.ManagedIdentity, MaySend, M.Serves;
    var r := Request(plan.nodes[k], ActivateKind, plan.identity);
    MayLoad(plan, k);
    ActivatesReady(s.runtimes[plan.nodes[k]], plan.identity);
    CallDone(s, r);
    RunThen(s, Call(r), AdvanceAction);
  }

  /** Stages below k are ready, the others as they were. */
  ghost predicate LoadedTo(s: System, now: System, plan: Plan, k: nat) {
    && Reachable(s, plan) && k <= |plan.nodes| && now.control == LoadingPlan(plan, k) && now.t == s.t && now.published == s.published
    && (forall i :: 0 <= i < k ==> InState(now, plan.nodes[i], plan.identity, M.Ready) && M.RuntimeOk(now.runtimes[plan.nodes[i]]))
    && (forall i :: k <= i < |plan.nodes| ==> plan.nodes[i] in now.runtimes && now.runtimes[plan.nodes[i]] == s.runtimes[plan.nodes[i]])
  }

  /** The plan can be loaded: every node is there and has nothing under its key. */
  ghost predicate Loadable(s: System, plan: Plan) {
    && Reachable(s, plan) && DistinctNodes(plan) && M.ManagedIdentity(plan.identity)
    && (forall i :: 0 <= i < |plan.nodes| ==>
          M.RuntimeOk(s.runtimes[plan.nodes[i]]) && M.KeyFor(plan.identity) !in s.runtimes[plan.nodes[i]].deployments)
  }

  lemma {:induction false} LoadsAll(s: System, plan: Plan, k: nat) returns (actions: seq<Action>)
    requires Loadable(s, plan) && s.control == LoadingPlan(plan, 0) && k <= |plan.nodes|
    ensures LoadedTo(s, Run(s, actions), plan, k)
  {
    hide M.RuntimeOk, Next, M.ManagedIdentity, M.StateOf, M.Holds;
    actions := [];
    if k > 0 {
      var before := LoadsAll(s, plan, k - 1);
      var mid, node := Run(s, before), plan.nodes[k - 1];
      var stage := LoadStage(plan, k - 1, mid.runtimes[node].nextTicket);
      StageLoads(mid, plan, k - 1);
      RunAppend(s, before, stage);
      actions := before + stage;
    }
  }

  ghost predicate ActivatedTo(s: System, now: System, plan: Plan, k: nat) {
    && k <= |plan.nodes| && now.control == ActivatingPlan(plan, k) && now.t == s.t && now.published == s.published
    && (forall i :: 0 <= i < k ==>
          InState(now, plan.nodes[i], plan.identity, M.ActiveState) && M.Serves(now.runtimes[plan.nodes[i]], plan.identity))
    && (forall i :: k <= i < |plan.nodes| ==>
          InState(now, plan.nodes[i], plan.identity, M.Ready) && M.RuntimeOk(now.runtimes[plan.nodes[i]]))
  }

  lemma {:induction false} ActivatesAll(s: System, plan: Plan, k: nat) returns (actions: seq<Action>)
    requires DistinctNodes(plan) && M.ManagedIdentity(plan.identity) && ActivatedTo(s, s, plan, 0) && k <= |plan.nodes|
    ensures ActivatedTo(s, Run(s, actions), plan, k)
  {
    hide M.RuntimeOk, Next, M.ManagedIdentity, M.StateOf, M.Holds, M.Serves;
    actions := [];
    if k > 0 {
      var before := ActivatesAll(s, plan, k - 1);
      StageActivates(Run(s, before), plan, k - 1);
      RunAppend(s, before, ActivateStage(plan, k - 1));
      actions := before + ActivateStage(plan, k - 1);
    }
  }

  /** A switch to a plan whose nodes are reachable and free completes: the plan is published and active, every
      stage serves it in the active state, new sessions get it, and the previous plan is being retired. */
  lemma SwitchCompletes(s: System, plan: Plan) returns (actions: seq<Action>)
    requires s.control.Idle? && Loadable(s, plan) && BeginTransition(s.t.c, plan).Some?
    ensures var now := Run(s, actions);
            && now.t.c.active == Some(plan) && now.t.c.preparing.None? && now.t.c.lastEpoch == Epoch(plan)
            && now.published == s.published[Epoch(plan) := plan]
            && now.t.outstanding == s.t.outstanding && now.t.c.inFlight == s.t.c.inFlight
            && (forall i :: 0 <= i < |plan.nodes| ==>
                  InState(now, plan.nodes[i], plan.identity, M.ActiveState) && M.Serves(now.runtimes[plan.nodes[i]], plan.identity))
            && Admit(now.t.c, plan.identity.modelId).1 == Admitted(Some(plan), Epoch(plan))
            && now.control == (if s.t.c.active.Some? then RetireDrain(s.t.c.active.value, 0) else Idle)
            && (s.t.c.active.Some? ==>
                  Epoch(s.t.c.active.value) in now.t.c.draining && now.t.c.draining[Epoch(s.t.c.active.value)] == s.t.c.active.value)
  {
    hide M.RuntimeOk, M.ManagedIdentity, M.StateOf, M.Holds, M.Serves, Next, Run, Apply, BeginTransition, Admit;
    Begins(s, plan);
    var begun := Next(s, BeginAction(plan));
    RunOne(s, BeginAction(plan));
    var loads := LoadsAll(begun, plan, |plan.nodes|);
    var loaded := Run(begun, loads);
    RunAppend(s, [BeginAction(plan)], loads);
    var first := [BeginAction(plan)] + loads;
    RunThen(s, first, AdvanceAction);
    AllLoaded(loaded, plan);
    var ready := Next(loaded, AdvanceAction);
    var activations := ActivatesAll(ready, plan, |plan.nodes|);
    RunAppend(s, first + [AdvanceAction], activations);
    RunThen(s, first + [AdvanceAction] + activations, AdvanceAction);
    AllActive(Run(ready, activations), plan);
    Published(s.t, plan);
    actions := first + [AdvanceAction] + activations + [AdvanceAction];
  }

  lemma Begins(s: System, plan: Plan)
    requires s.control.Idle? && M.ManagedIdentity(plan.identity) && BeginTransition(s.t.c, plan).Some?
    ensures Next(s, BeginAction(plan)) == s.(t := Apply(s.t, BeginOp(plan)), control := LoadingPlan(plan, 0))
    ensures Apply(s.t, BeginOp(plan)).c.active == s.t.c.active
  {
    hide M.ManagedIdentity;
  }

  /** The coordinator's record after a transition that began and was published. */
  lemma Published(t: Tracking, plan: Plan)
    requires BeginTransition(t.c, plan).Some?
    ensures var now := Apply(Apply(t, BeginOp(plan)), PublishOp);
            && now.c.active == Some(plan) && now.c.preparing.None? && now.c.lastEpoch == Epoch(plan)
            && now.outstanding == t.outstanding && now.c.inFlight == t.c.inFlight
            && Admit(now.c, plan.identity.modelId).1 == Admitted(Some(plan), Epoch(plan))
            && (t.c.active.Some? ==>
                  Epoch(t.c.active.value) in now.c.draining && now.c.draining[Epoch(t.c.active.value)] == t.c.active.value)
  {
  }

  // --- Getting rid of a plan ------------------------------------------------------------------------

  /** The drain and unload loops, of a retirement or of a cleanup after a failure. */
  function DrainAt(cleaning: bool, plan: Plan, k: nat): Control {
    if cleaning then CleaningDrain(plan, k) else RetireDrain(plan, k)
  }

  function UnloadAt(cleaning: bool, plan: Plan, k: nat): Control {
    if cleaning then CleaningUnload(plan, k) else RetireUnload(plan, k)
  }

  predicate Inactive(rt: M.Runtime, identity: Identity) {
    !(M.Holds(rt, identity) && M.StateOf(rt, identity).ActiveState?)
  }

  ghost predicate Healthy(s: System, plan: Plan) {
    Reachable(s, plan) && forall i :: 0 <= i < |plan.nodes| ==> M.RuntimeOk(s.runtimes[plan.nodes[i]])
  }

  function StageCall(plan: Plan, k: nat, kind: Kind): seq<Action>
    requires k < |plan.nodes|
  {
    Call(Request(plan.nodes[k], kind, plan.identity)) + [AdvanceAction]
  }

  lemma StageDrains(s: System, cleaning: bool, plan: Plan, k: nat)
    requires s.control == DrainAt(cleaning, plan, k) && k < |plan.nodes| && Healthy(s, plan) && M.ManagedIdentity(plan.identity)
    ensures var now := Run(s, StageCall(plan, k, DrainKind));
            && now.control == DrainAt(cleaning, plan, k + 1) && now.t == s.t && now.published == s.published && Healthy(now, plan)
            && Inactive(now.runtimes[plan.nodes[k]], plan.identity)
            && now.runtimes == s.runtimes[plan.nodes[k] := now.runtimes[plan.nodes[k]]]
  {
    hide M.RuntimeOk, M.ManagedIdentity, M.Drain, Inactive, Next, Run;
    var r := Request(plan.nodes[k], DrainKind, plan.identity);
    CallDone(s, r);
    RunThen(s, Call(r), AdvanceAction);
    GoesOn(Run(s, Call(r)), cleaning, plan, k);
    BecomesInactive(s.runtimes[plan.nodes[k]], plan.identity);
  }

  lemma GoesOn(s: System, cleaning: bool, plan: Plan, k: nat)
    requires s.control == DrainAt(cleaning, plan, k) || s.control == UnloadAt(cleaning, plan, k)
    requires k < |plan.nodes|
    ensures Next(s, AdvanceAction) ==
            s.(control := if s.control == DrainAt(cleaning, plan, k) then DrainAt(cleaning, plan, k + 1) else UnloadAt(cleaning, plan, k + 1))
  {
  }

  lemma BecomesInactive(rt: M.Runtime, identity: Identity)
    requires M.RuntimeOk(rt) && M.ManagedIdentity(identity)
    ensures M.RuntimeOk(M.Drain(rt, identity).0) && Inactive(M.Drain(rt, identity).0, identity)
  {
    hide M.RuntimeOk, M.ManagedIdentity;
    M.DrainKeeps(rt, identity);
    M.ResidentFacts(rt, identity);
  }

  lemma BecomesGone(rt: M.Runtime, identity: Identity)
    requires M.RuntimeOk(rt) && M.ManagedIdentity(identity) && Inactive(rt, identity)
    ensures M.RuntimeOk(M.Unload(rt, identity).0) && !M.Holds(M.Unload(rt, identity).0, identity)
  {
    hide M.RuntimeOk, M.ManagedIdentity, M.SelectPreferred;
    M.UnloadKeeps(rt, identity);
    M.ResidentFacts(rt, identity);
  }

  lemma StageUnloads(s: System, cleaning: bool, plan: Plan, k: nat)
    requires s.control == UnloadAt(cleaning, plan, k) && k < |plan.nodes| && Healthy(s, plan) && M.ManagedIdentity(plan.identity)
    requires Inactive(s.runtimes[plan.nodes[k]], plan.identity)
    ensures var now := Run(s, StageCall(plan, k, UnloadKind));
            && now.control == UnloadAt(cleaning, plan, k + 1) && now.t == s.t && now.published == s.published && Healthy(now, plan)
            && !M.Holds(now.runtimes[plan.nodes[k]], plan.identity)
            && now.runtimes == s.runtimes[plan.nodes[k] := now.runtimes[plan.nodes[k]]]
  {
    hide M.RuntimeOk, M.ManagedIdentity, M.Unload, M.Holds, Inactive, Next, Run;
    var r := Request(plan.nodes[k], UnloadKind, plan.identity);
    CallDone(s, r);
    RunThen(s, Call(r), AdvanceAction);
    GoesOn(Run(s, Call(r)), cleaning, plan, k);
    BecomesGone(s.runtimes[plan.nodes[k]], plan.identity);
  }

  ghost predicate DrainedTo(s: System, now: System, cleaning: bool, plan: Plan, k: nat) {
    && k <= |plan.nodes| && now.control == DrainAt(cleaning, plan, k) && now.t == s.t && now.published == s.published
    && Healthy(now, plan) && forall i :: 0 <= i < k ==> Inactive(now.runtimes[plan.nodes[i]], plan.identity)
  }

  lemma {:induction false} DrainsAll(s: System, cleaning: bool, plan: Plan, k: nat) returns (actions: seq<Action>)
    requires s.control == DrainAt(cleaning, plan, 0) && Healthy(s, plan) && M.ManagedIdentity(plan.identity) && k <= |plan.nodes|
    ensures DrainedTo(s, Run(s, actions), cleaning, plan, k)
  {
    hide M.RuntimeOk, Next, M.ManagedIdentity, Inactive;
    actions := [];
    if k > 0 {
      var before := DrainsAll(s, cleaning, plan, k - 1);
      StageDrains(Run(s, before), cleaning, plan, k - 1);
      RunAppend(s, before, StageCall(plan, k - 1, DrainKind));
      actions := before + StageCall(plan, k - 1, DrainKind);
    }
  }

  ghost predicate UnloadedTo(s: System, now: System, cleaning: bool, plan: Plan, k: nat) {
    && k <= |plan.nodes| && now.control == UnloadAt(cleaning, plan, k) && now.t == s.t && now.published == s.published
    && Healthy(now, plan)
    && (forall i :: 0 <= i < |plan.nodes| ==> Inactive(now.runtimes[plan.nodes[i]], plan.identity))
    && (forall i :: 0 <= i < k ==> !M.Holds(now.runtimes[plan.nodes[i]], plan.identity))
  }

  lemma {:induction false} UnloadsAll(s: System, cleaning: bool, plan: Plan, k: nat) returns (actions: seq<Action>)
    requires M.ManagedIdentity(plan.identity) && UnloadedTo(s, s, cleaning, plan, 0) && k <= |plan.nodes|
    ensures UnloadedTo(s, Run(s, actions), cleaning, plan, k)
  {
    hide M.RuntimeOk, Next, M.ManagedIdentity, M.Holds;
    actions := [];
    if k > 0 {
      var before := UnloadsAll(s, cleaning, plan, k - 1);
      StageUnloads(Run(s, before), cleaning, plan, k - 1);
      RunAppend(s, before, StageCall(plan, k - 1, UnloadKind));
      actions := before + StageCall(plan, k - 1, UnloadKind);
    }
  }

  ghost predicate Gone(s: System, plan: Plan) {
    forall i :: 0 <= i < |plan.nodes| ==> plan.nodes[i] in s.runtimes && !M.Holds(s.runtimes[plan.nodes[i]], plan.identity)
  }

  /** Once its sessions are released, a plan is retired: no stage holds it any more, the coordinator forgets it,
      and with nothing else draining the phase is active again. */
  lemma RetireCompletes(s: System, plan: Plan) returns (actions: seq<Action>)
    requires s.control == RetireDrain(plan, 0) && Healthy(s, plan) && M.ManagedIdentity(plan.identity)
    requires Count(s.t.c, Epoch(plan)) == 0
    ensures var now := Run(s, actions);
            && now.control.Idle? && Gone(now, plan) && now.published == s.published
            && now.t.c.active == s.t.c.active && now.t.c.draining == s.t.c.draining - {Epoch(plan)}
            && (now.t.c.draining == map[] && s.t.c.preparing.None? && s.t.c.active.Some? ==> now.t.c.phase.Active?)
  {
    hide M.RuntimeOk, M.ManagedIdentity, Inactive, M.Holds, Next, Run, Apply, Count;
    var drains := DrainsAll(s, false, plan, |plan.nodes|);
    RunThen(s, drains, AdvanceAction);
    AllDrained(Run(s, drains), false, plan);
    RunThen(s, drains + [AdvanceAction], AdvanceAction);
    RetireWaits(Run(s, drains + [AdvanceAction]), plan);
    var first := drains + [AdvanceAction] + [AdvanceAction];
    var mid := Run(s, first);
    var unloads := UnloadsAll(mid, false, plan, |plan.nodes|);
    RunAppend(s, first, unloads);
    RunThen(s, first + unloads, AdvanceAction);
    AllUnloaded(Run(mid, unloads), plan);
    Forgotten(s.t, plan);
    actions := first + unloads + [AdvanceAction];
  }

  lemma Forgotten(t: Tracking, plan: Plan)
    ensures var now := Apply(t, FinishOp(Epoch(plan)));
            && now.c.active == t.c.active && now.c.draining == t.c.draining - {Epoch(plan)}
            && (now.c.draining == map[] && t.c.preparing.None? && t.c.active.Some? ==> now.c.phase.Active?)
  {
  }

  /** The retirement waits for the sessions and for nothing else. */
  lemma RetireWaits(s: System, plan: Plan)
    requires s.control == RetireWait(plan)
    ensures Next(s, AdvanceAction).control == RetireUnload(plan, 0) <==> Count(s.t.c, Epoch(plan)) == 0
    ensures Next(s, AdvanceAction) == if Count(s.t.c, Epoch(plan)) > 0 then s else s.(control := RetireUnload(plan, 0))
  {
    hide Count;
  }

  /** A failed preparation is cleaned up: no stage holds the plan, the previous plan is as active as before, and
      the next transition can begin. */
  lemma FailureCompletes(s: System, plan: Plan, error: string, healthy: bool) returns (actions: seq<Action>)
    requires (s.control.LoadingPlan? || s.control.ActivatingPlan?) && s.control.plan == plan
    requires s.t.c.preparing == Some(plan) && Healthy(s, plan) && M.ManagedIdentity(plan.identity)
    ensures var now := Run(s, actions);
            && now.control.Idle? && Gone(now, plan) && now.published == s.published
            && now.t.c.active == s.t.c.active && now.t.c.preparing.None? && now.t.c.draining == s.t.c.draining
            && now.t.c.lastError == error && now.t.c.lastEpoch == s.t.c.lastEpoch
            && forall next: Plan :: Epoch(next) == s.t.c.lastEpoch + 1 ==> BeginTransition(now.t.c, next).Some?
  {
    hide M.RuntimeOk, M.ManagedIdentity, Inactive, M.Holds, Next, Run, Apply, BeginTransition;
    RunOne(s, FailAction);
    Fails(s, plan);
    var failed := Next(s, FailAction);
    var drains := DrainsAll(failed, true, plan, |plan.nodes|);
    RunAppend(s, [FailAction], drains);
    RunThen(s, [FailAction] + drains, AdvanceAction);
    AllDrained(Run(failed, drains), true, plan);
    var first := [FailAction] + drains + [AdvanceAction];
    var mid := Run(s, first);
    var unloads := UnloadsAll(mid, true, plan, |plan.nodes|);
    RunAppend(s, first, unloads);
    RunThen(s, first + unloads, RollbackAction(error, healthy, false));
    RollsBack(Run(mid, unloads), plan, error, healthy, false);
    RolledBack(s.t, plan, error, healthy);
    actions := first + unloads + [RollbackAction(error, healthy, false)];
  }

  lemma Fails(s: System, plan: Plan)
    requires (s.control.LoadingPlan? || s.control.ActivatingPlan?) && s.control.plan == plan
    ensures Next(s, FailAction) == s.(control := CleaningDrain(plan, 0))
  {
  }

  lemma RolledBack(t: Tracking, plan: Plan, error: string, healthy: bool)
    requires t.c.preparing == Some(plan)
    ensures var now := Apply(t, RollbackOp(error, healthy, false));
            && now.c.active == t.c.active && now.c.preparing.None? && now.c.draining == t.c.draining
            && now.c.lastError == error && now.c.lastEpoch == t.c.lastEpoch
            && forall next: Plan :: Epoch(next) == t.c.lastEpoch + 1 ==> BeginTransition(now.c, next).Some?
  {
    hide ServingPhase;
  }

  // --- Never stuck ----------------------------------------------------------------------------------

  function Advances(n: nat): seq<Action> {
    seq(n, k => AdvanceAction)
  }

  lemma {:induction false} StepsOn(s: System, plan: Plan, n: nat)
    requires s.control.CleaningDrain? || s.control.CleaningUnload? || s.control.Repairing?
    requires s.control.plan == plan && s.control.k + n <= |plan.nodes|
    ensures var now := Run(s, Advances(n));
            && now.t == s.t
            && now.control == if s.control.CleaningDrain? then CleaningDrain(plan, s.control.k + n)
                              else if s.control.CleaningUnload? then CleaningUnload(plan, s.control.k + n)
                              else Repairing(plan, s.control.k + n)
  {
    hide Next, Run;
    if n == 0 {
      NoSteps(s);
    } else {
      StepsOn(s, plan, n - 1);
      StepsOne(Run(s, Advances(n - 1)));
      assert Advances(n) == Advances(n - 1) + [AdvanceAction];
      RunThen(s, Advances(n - 1), AdvanceAction);
    }
  }

  lemma NoSteps(s: System)
    ensures Run(s, Advances(0)) == s
  {
    hide Next;
  }

  lemma CleanupEnds(s: System) returns (actions: seq<Action>)
    requires s.control.CleaningUnload? && s.control.k <= |s.control.plan.nodes|
    ensures Run(s, actions).control.Idle?
  {
    var n := |s.control.plan.nodes| - s.control.k;
    StepsOn(s, s.control.plan, n);
    RunThen(s, Advances(n), RollbackAction("", true, true));
    actions := Advances(n) + [RollbackAction("", true, true)];
  }

  lemma DrainEnds(s: System) returns (actions: seq<Action>)
    requires s.control.CleaningDrain? && s.control.k <= |s.control.plan.nodes|
    ensures Run(s, actions).control.Idle?
  {
    var n := |s.control.plan.nodes| - s.control.k;
    StepsOn(s, s.control.plan, n);
    RunThen(s, Advances(n), AdvanceAction);
    var rest := CleanupEnds(Run(s, Advances(n) + [AdvanceAction]));
    RunAppend(s, Advances(n) + [AdvanceAction], rest);
    actions := Advances(n) + [AdvanceAction] + rest;
  }

  /** A repair visits every stage and ends, with the record of the coordinator as it was. */
  lemma RepairEnds(s: System, plan: Plan)
    requires s.control == Repairing(plan, 0)
    ensures var now := Run(s, Advances(|plan.nodes|) + [AdvanceAction]);
            now.control.Idle? && now.t == s.t
    ensures forall k: nat :: k < |plan.nodes| ==>
              Run(s, Advances(k)).control == Repairing(plan, k)
              && MaySend(Repairing(plan, k), Request(plan.nodes[k], LoadKind, plan.identity))
              && MaySend(Repairing(plan, k), Request(plan.nodes[k], ActivateKind, plan.identity))
  {
    StepsOn(s, plan, |plan.nodes|);
    RunThen(s, Advances(|plan.nodes|), AdvanceAction);
    forall k: nat | k < |plan.nodes| ensures Run(s, Advances(k)).control == Repairing(plan, k) {
      StepsOn(s, plan, k);
    }
  }

  // --- Repairs and leftovers -------------------------------------------------------------------------

  lemma TriesAgain(s: System, epoch: nat)
    requires s.control.Idle? && epoch in s.t.c.draining
    ensures Next(s, RetireAction(epoch)) == s.(control := RetireDrain(s.t.c.draining[epoch], 0))
  {
  }

  /** A plan that was left draining can be retired later, once its sessions are released. */
  lemma LeftoverRetires(s: System, epoch: nat) returns (actions: seq<Action>)
    requires s.control.Idle? && epoch in s.t.c.draining && Epoch(s.t.c.draining[epoch]) == epoch
    requires Healthy(s, s.t.c.draining[epoch]) && M.ManagedIdentity(s.t.c.draining[epoch].identity) && Count(s.t.c, epoch) == 0
    ensures var now := Run(s, actions);
            && now.control.Idle? && Gone(now, s.t.c.draining[epoch])
            && now.t.c.active == s.t.c.active && now.t.c.draining == s.t.c.draining - {epoch}
  {
    hide Next, Run, Gone, Healthy, M.ManagedIdentity, Count;
    TriesAgain(s, epoch);
    RunOne(s, RetireAction(epoch));
    var started := Next(s, RetireAction(epoch));
    assert Healthy(started, s.t.c.draining[epoch]) by { SameRuntimes(s, started, s.t.c.draining[epoch]); }
    var rest := RetireCompletes(started, s.t.c.draining[epoch]);
    RunAppend(s, [RetireAction(epoch)], rest);
    actions := [RetireAction(epoch)] + rest;
  }

  lemma SameRuntimes(s: System, now: System, plan: Plan)
    requires Healthy(s, plan) && now.runtimes == s.runtimes
    ensures Healthy(now, plan)
  {
    hide M.RuntimeOk;
  }

  /** One stage of a repair: load and activate a plan that the node has lost. */
  function RepairStage(plan: Plan, k: nat, ticket: nat): seq<Action>
    requires k < |plan.nodes|
  {
    Call(Request(plan.nodes[k], LoadKind, plan.identity)) + [CommitAction(plan.nodes[k], ticket, M.BuildOk)]
    + Call(Request(plan.nodes[k], ActivateKind, plan.identity)) + [AdvanceAction]
  }

  lemma MayRepair(plan: Plan, k: nat)
    requires k < |plan.nodes|
    ensures MaySend(Repairing(plan, k), Request(plan.nodes[k], LoadKind, plan.identity))
    ensures MaySend(Repairing(plan, k), Request(plan.nodes[k], ActivateKind, plan.identity))
  {
  }

  lemma Commits(s: System, node: NodeId, ticket: nat)
    requires node in s.runtimes && ticket in s.runtimes[node].pending
    ensures var now := Next(s, CommitAction(node, ticket, M.BuildOk));
            && now.t == s.t && now.control == s.control && now.published == s.published
            && now.runtimes == s.runtimes[node := M.CommitLoad(s.runtimes[node], ticket, M.BuildOk).0]
  {
    hide M.CommitLoad;
  }

  lemma StageRepaired(s: System, plan: Plan, k: nat)
    requires s.control == Repairing(plan, k) && k < |plan.nodes| && plan.nodes[k] in s.runtimes
    requires M.ManagedIdentity(plan.identity) && M.RuntimeOk(s.runtimes[plan.nodes[k]])
    requires M.KeyFor(plan.identity) !in s.runtimes[plan.nodes[k]].deployments
    ensures var now := Run(s, RepairStage(plan, k, s.runtimes[plan.nodes[k]].nextTicket));
            && now.control == Repairing(plan, k + 1) && now.t == s.t && now.published == s.published
            && InState(now, plan.nodes[k], plan.identity, M.ActiveState) && M.Serves(now.runtimes[plan.nodes[k]], plan.identity)
            && now.runtimes == s.runtimes[plan.nodes[k] := now.runtimes[plan.nodes[k]]]
  {
    hide M.RuntimeOk, M.BeginLoad, M.CommitLoad, M.Activate, M.ManagedIdentity, MaySend, Next, Run, M.Serves, M.Holds, M.StateOf;
    var node, rt := plan.nodes[k], s.runtimes[plan.nodes[k]];
    var load, activate := Request(node, LoadKind, plan.identity), Request(node, ActivateKind, plan.identity);
    var commit := CommitAction(node, rt.nextTicket, M.BuildOk);
    MayRepair(plan, k);
    LoadsReady(rt, plan.identity);
    CallDone(s, load);
    RunThen(s, Call(load), commit);
    Commits(Run(s, Call(load)), node, rt.nextTicket);
    var ready := Run(s, Call(load) + [commit]);
    ActivatesReady(ready.runtimes[node], plan.identity);
    CallDone(ready, activate);
    RunAppend(s, Call(load) + [commit], Call(activate));
    RunThen(s, Call(load) + [commit] + Call(activate), AdvanceAction);
    StepsOne(Run(ready, Call(activate)));
  }

  /** Every stage is reachable and either serves the plan or has nothing under its key. */
  ghost predicate Repairable(s: System, plan: Plan) {
    && Reachable(s, plan) && DistinctNodes(plan) && M.ManagedIdentity(plan.identity)
    && (forall i :: 0 <= i < |plan.nodes| ==> M.RuntimeOk(s.runtimes[plan.nodes[i]]))
    && (forall i :: 0 <= i < |plan.nodes| ==>
          || M.KeyFor(plan.identity) !in s.runtimes[plan.nodes[i]].deployments
          || Serving(s, plan.nodes[i], plan.identity))
  }

  ghost predicate Serving(s: System, node: NodeId, identity: Identity) {
    InState(s, node, identity, M.ActiveState) && M.Serves(s.runtimes[node], identity)
  }

  ghost predicate RepairedTo(s: System, now: System, plan: Plan, k: nat) {
    && Reachable(s, plan) && k <= |plan.nodes| && now.control == Repairing(plan, k) && now.t == s.t && now.published == s.published
    && (forall i :: 0 <= i < k ==> Serving(now, plan.nodes[i], plan.identity))
    && (forall i :: k <= i < |plan.nodes| ==> plan.nodes[i] in now.runtimes && now.runtimes[plan.nodes[i]] == s.runtimes[plan.nodes[i]])
  }

  lemma {:induction false} RepairsAll(s: System, plan: Plan, k: nat) returns (actions: seq<Action>)
    requires Repairable(s, plan) && s.control == Repairing(plan, 0) && k <= |plan.nodes|
    ensures RepairedTo(s, Run(s, actions), plan, k)
  {
    hide M.RuntimeOk, Next, M.ManagedIdentity, M.StateOf, M.Holds, M.Serves;
    actions := [];
    if k > 0 {
      var before := RepairsAll(s, plan, k - 1);
      var mid, node := Run(s, before), plan.nodes[k - 1];
      if M.KeyFor(plan.identity) !in mid.runtimes[node].deployments {
        var stage := RepairStage(plan, k - 1, mid.runtimes[node].nextTicket);
        StageRepaired(mid, plan, k - 1);
        RunAppend(s, before, stage);
        actions := before + stage;
      } else {
        StepsOne(mid);
        RunThen(s, before, AdvanceAction);
        actions := before + [AdvanceAction];
      }
    }
  }

  lemma RepairStarts(s: System, plan: Plan)
    requires s.control.Idle? && s.t.c.active == Some(plan)
    ensures Next(s, RepairAction) == s.(control := Repairing(plan, 0))
  {
  }

  lemma RepairOver(s: System, plan: Plan)
    requires s.control == Repairing(plan, |plan.nodes|)
    ensures Next(s, AdvanceAction) == s.(control := Idle)
  {
  }

  /** A repair restores the active plan: afterwards every stage serves it, those that had lost it as well, and
      the record of the coordinator is as it was. */
  lemma RepairRestores(s: System, plan: Plan) returns (actions: seq<Action>)
    requires s.control.Idle? && s.t.c.active == Some(plan) && Repairable(s, plan)
    ensures var now := Run(s, actions);
            && now.control.Idle? && now.t == s.t && now.published == s.published
            && forall i :: 0 <= i < |plan.nodes| ==> Serving(now, plan.nodes[i], plan.identity)
  {
    hide M.RuntimeOk, Next, Run, M.ManagedIdentity, M.StateOf, M.Holds, M.Serves;
    RepairStarts(s, plan);
    RunOne(s, RepairAction);
    var started := Next(s, RepairAction);
    var repairs := RepairsAll(started, plan, |plan.nodes|);
    RunAppend(s, [RepairAction], repairs);
    var first := [RepairAction] + repairs;
    RunThen(s, first, AdvanceAction);
    RepairOver(Run(started, repairs), plan);
    actions := first + [AdvanceAction];
  }

  /** The stage index never runs past the plan. */
  predicate InPlan(control: Control) {
    match control
    case CleaningDrain(plan, k) => k <= |plan.nodes|
    case CleaningUnload(plan, k) => k <= |plan.nodes|
    case _ => true
  }

  lemma {:induction false} StaysInPlan(s: System, actions: seq<Action>)
    requires InPlan(s.control)
    ensures InPlan(Run(s, actions).control)
    decreases |actions|
  {
    if actions != [] {
      StaysInPlan(s, actions[..|actions| - 1]);
    }
  }

  /** From every moment of every run the controller can come back to rest without a single reply: whatever
      calls are lost, a transition can fail and be rolled back, and a retirement or repair be given up. */
  lemma NeverStuck(s: System, before: seq<Action>) returns (actions: seq<Action>)
    requires Start(s)
    ensures Run(s, before + actions).control.Idle?
  {
    hide Start;
    assert InPlan(s.control) by { StartIdle(s); }
    StaysInPlan(s, before);
    var now := Run(s, before);
    if now.control.CleaningDrain? {
      actions := DrainEnds(now);
    } else if now.control.CleaningUnload? {
      actions := CleanupEnds(now);
    } else if now.control.LoadingPlan? || now.control.ActivatingPlan? {
      RunOne(now, FailAction);
      var rest := DrainEnds(Next(now, FailAction));
      RunAppend(now, [FailAction], rest);
      actions := [FailAction] + rest;
    } else {
      RunOne(now, AbandonAction("", true));
      actions := [AbandonAction("", true)];
    }
    RunAppend(s, before, actions);
  }

  lemma StartIdle(s: System)
    requires Start(s)
    ensures s.control.Idle?
  {
  }
}
