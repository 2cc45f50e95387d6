/** Resident deployments of one runtime (runtime/deployment/model_manager.cpp:128-343, 583-615 and
    runtime/deployment/deployment.hpp:39-72). A load is two critical sections with arbitrary other
    calls between them; a ticket stands for the identity of the resident object a load holds. */
module ModelManager {
  import opened DeploymentState
  import opened Wrappers

  datatype Residency = Loading | Ready | ActiveState | DrainingState | Unloading | FailedState

  type Key = (string, nat)

  datatype Resident = Resident(identity: Identity, state: Residency, execution: bool, ticket: nat)

  /** A load call between inserting its resident and committing it. */
  datatype PendingLoad = PendingLoad(identity: Identity, cancelRequested: bool)

  datatype Runtime = Runtime(
    deployments: map<Key, Resident>,
    preferred: Option<Key>,
    pending: map<nat, PendingLoad>,
    nextTicket: nat
  )

  datatype Build = BuildOk | BuildInvalid | BuildThrew

  datatype Code =
    | Success
    | InvalidEngineBuilder
    | InvalidStageAssignment
    | InvalidIdentity
    | ResidentExists
    | LoadCanceled
    | InvalidEngineConfig
    | LoadFailed
    | NotFound
    | Transitioning
    | DeploymentFailed
    | InvalidState
    | NotDraining
    | LogicError

  datatype Reply = Reply(code: Code, identity: Option<Identity>, state: Option<Residency>)

  /** is_valid_resident_deployment_transition on resident states. */
  predicate ValidTransition(from: Residency, to: Residency) {
    match from
    case Loading => to.Ready? || to.FailedState?
    case Ready => to.ActiveState? || to.Unloading? || to.FailedState?
    case ActiveState => to.DrainingState? || to.FailedState?
    case DrainingState => to.Unloading? || to.FailedState?
    case Unloading => to.FailedState?
    case FailedState => to.Unloading?
  }

  function KeyFor(identity: Identity): Key {
    (identity.deploymentId, identity.epoch)
  }

  predicate HexDigit(c: char) {
    '0' <= c <= '9' || 'a' <= c <= 'f' || 'A' <= c <= 'F'
  }

  predicate ManagedIdentity(identity: Identity) {
    && identity.deploymentId != "" && identity.modelId != "" && identity.epoch > 0
    && |identity.modelSha256| == 64
    && (forall k :: 0 <= k < 64 ==> HexDigit(identity.modelSha256[k]))
  }

  /** A managed identity names a deployment, an epoch and a model by its digest: 64 hexadecimal digits. */
  lemma ManagedMeans(identity: Identity)
    ensures ManagedIdentity(identity) <==>
            && identity.deploymentId != [] && identity.modelId != [] && identity.epoch >= 1 && |identity.modelSha256| == 64
            && forall c :: c in identity.modelSha256 ==> c in "0123456789abcdefABCDEF"
  {
    forall c: char ensures HexDigit(c) <==> c in "0123456789abcdefABCDEF" { HexDigits(c); }
  }

  lemma HexDigits(c: char)
    ensures HexDigit(c) <==> c in "0123456789abcdefABCDEF"
  {
    var hex := "0123456789abcdefABCDEF";
    var n := c as int;
    if '0' <= c <= '9' {
      assert hex[n - 48] == c;
    } else if 'a' <= c <= 'f' {
      assert hex[n - 87] == c;
    } else if 'A' <= c <= 'F' {
      assert hex[n - 49] == c;
    }
  }

  predicate Executable(r: Resident) {
    r.execution && (r.state.ActiveState? || r.state.DrainingState?)
  }

  /** The resident with exactly this identity, if any. */
  predicate Holds(rt: Runtime, identity: Identity) {
    KeyFor(identity) in rt.deployments && rt.deployments[KeyFor(identity)].identity == identity
  }

  predicate Serves(rt: Runtime, identity: Identity) {
    Holds(rt, identity) && Executable(rt.deployments[KeyFor(identity)])
  }

  // --- Order of keys, as in std::map ---------------------------------------------------------------

  predicate TextLess(a: string, b: string) {
    if b == [] then false
    else if a == [] then true
    else a[0] < b[0] || (a[0] == b[0] && TextLess(a[1..], b[1..]))
  }

  predicate KeyLess(a: Key, b: Key) {
    TextLess(a.0, b.0) || (a.0 == b.0 && a.1 < b.1)
  }

  lemma {:induction false} TextTotal(a: string, b: string)
    ensures TextLess(a, b) || a == b || TextLess(b, a)
    ensures !(TextLess(a, b) && TextLess(b, a))
    decreases |a|
  {
    if a != [] && b != [] {
      TextTotal(a[1..], b[1..]);
      if a[0] == b[0] && a[1..] == b[1..] {
        assert a == [a[0]] + a[1..] && b == [b[0]] + b[1..];
      }
    }
  }

  lemma {:induction false} TextTransitive(a: string, b: string, c: string)
    requires TextLess(a, b) && TextLess(b, c)
    ensures TextLess(a, c)
    decreases |a|
  {
    if a != [] && b != [] && a[0] == b[0] && b[0] == c[0] {
      TextTransitive(a[1..], b[1..], c[1..]);
    }
  }

  lemma KeyTotal(a: Key, b: Key)
    ensures KeyLess(a, b) || a == b || KeyLess(b, a)
    ensures !(KeyLess(a, b) && KeyLess(b, a)) && !KeyLess(a, a)
  {
    TextTotal(a.0, b.0);
    TextTotal(a.0, a.0);
  }

  lemma KeyTransitive(a: Key, b: Key, c: Key)
    requires KeyLess(a, b) && KeyLess(b, c)
    ensures KeyLess(a, c)
  {
    if TextLess(a.0, b.0) && TextLess(b.0, c.0) {
      TextTransitive(a.0, b.0, c.0);
    }
  }

  /** A text comes after another: greater at the first character where they differ, or longer. */
  ghost predicate TextAfter(a: string, b: string) {
    || (exists n :: 0 <= n < |a| && n < |b| && a[..n] == b[..n] && a[n] > b[n])
    || (|b| < |a| && b == a[..|b|])
  }

  /** A key comes after another: by the id, or by the epoch of the same id. */
  ghost predicate Outranks(k: Key, j: Key) {
    if k.0 == j.0 then k.1 > j.1 else TextAfter(k.0, j.0)
  }

  lemma DiffersAt(a: string, b: string, n: nat)
    requires n < |a| && n < |b| && a[..n] == b[..n] && a[n] > b[n]
    ensures TextAfter(a, b)
  {
  }

  lemma {:induction false} LessAfter(a: string, b: string)
    ensures TextLess(b, a) ==> TextAfter(a, b)
    decreases |a|
  {
    if TextLess(b, a) && b != [] {
      if b[0] < a[0] {
        DiffersAt(a, b, 0);
      } else {
        var c, d := a[1..], b[1..];
        LessAfter(c, d);
        assert a == [a[0]] + c && b == [b[0]] + d;
        if n: nat :| n < |c| && n < |d| && c[..n] == d[..n] && c[n] > d[n] {
          assert a[..n + 1] == [a[0]] + c[..n] && b[..n + 1] == [b[0]] + d[..n];
          DiffersAt(a, b, n + 1);
        } else {
          assert a[..|b|] == [a[0]] + c[..|d|];
        }
      }
    }
  }

  lemma {:induction false} AfterLess(a: string, b: string, n: nat)
    requires n <= |a| && n <= |b| && a[..n] == b[..n] && n < |a| && (n == |b| || a[n] > b[n])
    ensures TextLess(b, a)
    decreases n
  {
    if n > 0 {
      assert a[0] == a[..n][0] == b[..n][0] == b[0];
      assert a[1..][..n - 1] == a[..n][1..] && b[1..][..n - 1] == b[..n][1..];
      AfterLess(a[1..], b[1..], n - 1);
    }
  }

  /** The order of the table is the order of texts and numbers. */
  lemma KeyMeans(j: Key, k: Key)
    ensures KeyLess(j, k) <==> Outranks(k, j)
  {
    hide TextLess;
    LessAfter(k.0, j.0);
    TextTotal(k.0, j.0);
    TextTotal(j.0, j.0);
    if TextAfter(k.0, j.0) {
      if n: nat :| n < |k.0| && n < |j.0| && k.0[..n] == j.0[..n] && k.0[n] > j.0[n] {
        AfterLess(k.0, j.0, n);
      } else {
        assert j.0[..|j.0|] == j.0;
        AfterLess(k.0, j.0, |j.0|);
      }
    }
  }

  /** The last key that serves, or the last key when none does. */
  ghost predicate Prefers(d: map<Key, Resident>, preferred: Option<Key>) {
    && (preferred.None? <==> d == map[])
    && (preferred.Some? ==>
          && preferred.value in d
          && if Executable(d[preferred.value]) then
               forall j :: j in d && j != preferred.value && Executable(d[j]) ==> Outranks(preferred.value, j)
             else
               forall j :: j in d && j != preferred.value ==> !Executable(d[j]) && Outranks(preferred.value, j))
  }

  lemma SelectedPrefers(d: map<Key, Resident>)
    ensures Prefers(d, SelectPreferred(d))
  {
    hide Outranks, KeyLess;
    if d != map[] {
      var k := SelectPreferred(d).value;
      assert d.Keys != {};
      forall j | j in d ensures KeyLess(j, k) <==> Outranks(k, j) { KeyMeans(j, k); }
      forall j | j in d && Executable(d[j]) ensures j in ExecutableKeys(d) {}
    }
  }

  ghost predicate IsGreatest(k: Key, keys: set<Key>) {
    k in keys && forall j :: j in keys && j != k ==> KeyLess(j, k)
  }

  lemma GreatestUnique(a: Key, b: Key, keys: set<Key>)
    requires IsGreatest(a, keys) && IsGreatest(b, keys)
    ensures a == b
  {
    KeyTotal(a, b);
  }

  method GreatestKey(keys: set<Key>) returns (k: Key)
    requires keys != {}
    ensures IsGreatest(k, keys)
  {
    k :| k in keys;
    var rest := keys - {k};
    while rest != {}
      invariant k in keys && rest <= keys && k !in rest
      invariant forall j :: j in keys && j !in rest && j != k ==> KeyLess(j, k)
      decreases rest
    {
      var j :| j in rest;
      KeyTotal(j, k);
      if KeyLess(k, j) {
        forall i | i in keys && i !in rest && i != k ensures KeyLess(i, j) {
          KeyTransitive(i, k, j);
        }
        k := j;
      }
      rest := rest - {j};
    }
  }

  lemma GreatestExists(keys: set<Key>) returns (k: Key)
    requires keys != {}
    ensures IsGreatest(k, keys)
    decreases keys
  {
    k :| k in keys;
    var rest := keys - {k};
    assert keys == rest + {k};
    if rest != {} {
      var j := GreatestExists(rest);
      KeyTotal(j, k);
      if KeyLess(k, j) {
        k := j;
      } else {
        forall i | i in keys && i != k ensures KeyLess(i, k) {
          if i != j {
            KeyTransitive(i, j, k);
          }
        }
      }
    }
  }

  ghost function Greatest(keys: set<Key>): (k: Key)
    requires keys != {}
    ensures IsGreatest(k, keys)
  {
    assert exists k :: IsGreatest(k, keys) by {
      var k := GreatestExists(keys);
    }
    var k :| IsGreatest(k, keys);
    k
  }

  function ExecutableKeys(d: map<Key, Resident>): set<Key> {
    set k | k in d && Executable(d[k])
  }

  /** select_preferred_after_erase: the last executable key, else the last key. */
  ghost function SelectPreferred(d: map<Key, Resident>): Option<Key> {
    if d == map[] then None
    else if ExecutableKeys(d) != {} then Some(Greatest(ExecutableKeys(d)))
    else Some(Greatest(d.Keys))
  }

  // --- Operations on values --------------------------------------------------------------------------

  function StateOf(rt: Runtime, identity: Identity): Residency
    requires Holds(rt, identity)
  {
    rt.deployments[KeyFor(identity)].state
  }

  /** Move a resident along the transition table; a move outside it throws. */
  function Move(rt: Runtime, identity: Identity, to: Residency): Option<Runtime>
    requires Holds(rt, identity)
  {
    var key := KeyFor(identity);
    if !ValidTransition(rt.deployments[key].state, to) then None
    else Some(rt.(deployments := rt.deployments[key := rt.deployments[key].(state := to)]))
  }

  datatype StageAssignment = StageAssignment(index: int, count: int, layerStart: int, layerEnd: int)

  /** validate_stage_assignment. */
  predicate ValidAssignment(a: StageAssignment) {
    a.count >= 1 && 0 <= a.index < a.count && a.layerEnd > a.layerStart
  }

  /** A load up to the end of its first critical section; a refused call changes nothing. */
  function StartLoad(rt: Runtime, identity: Identity, assignment: StageAssignment, hasBuilder: bool): (Runtime, Reply) {
    if !hasBuilder then (rt, Reply(InvalidEngineBuilder, None, None))
    else if !ValidAssignment(assignment) then (rt, Reply(InvalidStageAssignment, None, None))
    else BeginLoad(rt, identity)
  }

  /** First critical section of a load. */
  function BeginLoad(rt: Runtime, identity: Identity): (Runtime, Reply) {
    var key := KeyFor(identity);
    if !ManagedIdentity(identity) then (rt, Reply(InvalidIdentity, None, None))
    else if key in rt.deployments then
      (rt, Reply(ResidentExists, Some(rt.deployments[key].identity), Some(rt.deployments[key].state)))
    else
      (Runtime(rt.deployments[key := Resident(identity, Loading, false, rt.nextTicket)],
               if rt.preferred.None? then Some(key) else rt.preferred,
               rt.pending[rt.nextTicket := PendingLoad(identity, false)],
               rt.nextTicket + 1),
       Reply(Success, Some(identity), Some(Loading)))
  }

  /** Second critical section of a load, by its outcome; the load call is over afterwards. */
  function CommitLoad(rt: Runtime, ticket: nat, build: Build): (Runtime, Reply)
    requires ticket in rt.pending
  {
    var load := rt.pending[ticket];
    var key, over := KeyFor(load.identity), rt.(pending := rt.pending - {ticket});
    if load.cancelRequested || key !in rt.deployments || rt.deployments[key].ticket != ticket then
      (over, Reply(LoadCanceled, Some(load.identity), Some(Loading)))
    else
      var resident := rt.deployments[key];
      var to := if build.BuildOk? then Ready else FailedState;
      if !ValidTransition(resident.state, to) then (over, Reply(LogicError, None, None))
      else
        (over.(deployments := rt.deployments[key := resident.(state := to, execution := resident.execution || build.BuildOk?)]),
         Reply(if build.BuildOk? then Success else if build.BuildInvalid? then InvalidEngineConfig else LoadFailed,
               Some(resident.identity), Some(to)))
  }

  function Activate(rt: Runtime, identity: Identity): (Runtime, Reply) {
    if !ManagedIdentity(identity) then (rt, Reply(InvalidIdentity, None, None))
    else if !Holds(rt, identity) then (rt, Reply(NotFound, Some(identity), None))
    else
      var state := StateOf(rt, identity);
      if state.ActiveState? then (rt.(preferred := Some(KeyFor(identity))), Reply(Success, Some(identity), Some(ActiveState)))
      else if state.Loading? || state.DrainingState? || state.Unloading? then (rt, Reply(Transitioning, Some(identity), Some(state)))
      else if state.FailedState? then (rt, Reply(DeploymentFailed, Some(identity), Some(state)))
      else if !rt.deployments[KeyFor(identity)].execution then (rt, Reply(InvalidState, Some(identity), Some(state)))
      else
        match Move(rt, identity, ActiveState)
        case None => (rt, Reply(LogicError, None, None))
        case Some(moved) => (moved.(preferred := Some(KeyFor(identity))), Reply(Success, Some(identity), Some(ActiveState)))
  }

  function Drain(rt: Runtime, identity: Identity): (Runtime, Reply) {
    if !ManagedIdentity(identity) then (rt, Reply(InvalidIdentity, None, None))
    else if !Holds(rt, identity) then (rt, Reply(Success, Some(identity), None))
    else
      var state := StateOf(rt, identity);
      if state.Unloading? then (rt, Reply(Transitioning, Some(identity), Some(state)))
      else if state.ActiveState? then
        match Move(rt, identity, DrainingState)
        case None => (rt, Reply(LogicError, None, None))
        case Some(moved) => (moved, Reply(Success, Some(identity), Some(DrainingState)))
      else (rt, Reply(Success, Some(identity), Some(state)))
  }

  ghost function Erase(rt: Runtime, identity: Identity): Runtime {
    var rest := rt.deployments - {KeyFor(identity)};
    rt.(deployments := rest, preferred := SelectPreferred(rest))
  }

  ghost function Unload(rt: Runtime, identity: Identity): (Runtime, Reply) {
    if !ManagedIdentity(identity) then (rt, Reply(InvalidIdentity, None, None))
    else if !Holds(rt, identity) then (rt, Reply(Success, Some(identity), None))
    else
      var resident := rt.deployments[KeyFor(identity)];
      if resident.state.Loading? then
        var canceled := if resident.ticket in rt.pending then
                          rt.pending[resident.ticket := rt.pending[resident.ticket].(cancelRequested := true)]
                        else rt.pending;
        (Erase(rt.(pending := canceled), identity), Reply(Success, Some(identity), None))
      else if resident.state.Unloading? then (rt, Reply(Transitioning, Some(identity), Some(resident.state)))
      else if resident.state.ActiveState? then (rt, Reply(NotDraining, Some(identity), Some(resident.state)))
      else if !ValidTransition(resident.state, Unloading) then (rt, Reply(LogicError, None, None))
      else (Erase(rt, identity), Reply(Success, Some(identity), None))
  }

  // --- What every interleaving keeps -------------------------------------------------------------------

  /** Residents: keys match, an execution is present exactly in the states that have one, and a
      resident is Loading exactly while its own load is pending and not cancelled. */
  ghost predicate ResidentsOk(rt: Runtime) {
    forall k :: k in rt.deployments ==>
      var r := rt.deployments[k];
      && KeyFor(r.identity) == k
      && r.ticket < rt.nextTicket
      && !r.state.Unloading?
      && (r.execution <==> r.state.Ready? || r.state.ActiveState? || r.state.DrainingState?)
      && (r.state.Loading? <==> r.ticket in rt.pending)
      && (r.ticket in rt.pending ==> rt.pending[r.ticket] == PendingLoad(r.identity, false))
  }

  /** Loads: a pending load is cancelled exactly when its resident is gone. */
  ghost predicate LoadsOk(rt: Runtime) {
    forall t :: t in rt.pending ==>
      && t < rt.nextTicket
      && (rt.pending[t].cancelRequested <==>
            !(KeyFor(rt.pending[t].identity) in rt.deployments && rt.deployments[KeyFor(rt.pending[t].identity)].ticket == t))
  }

  /** A preferred deployment is set exactly when one is resident, and is executable whenever any is. */
  ghost predicate PreferredOk(rt: Runtime) {
    && (rt.preferred.Some? <==> rt.deployments != map[])
    && (rt.preferred.Some? ==> rt.preferred.value in rt.deployments)
    && ((exists k :: k in rt.deployments && Executable(rt.deployments[k])) ==>
          rt.preferred.Some? && Executable(rt.deployments[rt.preferred.value]))
  }

  ghost predicate RuntimeOk(rt: Runtime) {
    ResidentsOk(rt) && LoadsOk(rt) && PreferredOk(rt)
  }

  datatype Operation =
    | BeginLoadOp(identity: Identity)
    | CommitLoadOp(ticket: nat, build: Build)
    | ActivateOp(identity: Identity)
    | DrainOp(identity: Identity)
    | UnloadOp(identity: Identity)

  /** One call; a commit without a pending load is not a call and changes nothing. */
  ghost function Apply(rt: Runtime, op: Operation): (Runtime, Reply) {
    match op
    case BeginLoadOp(identity) => BeginLoad(rt, identity)
    case CommitLoadOp(ticket, build) =>
      if ticket in rt.pending then CommitLoad(rt, ticket, build) else (rt, Reply(NotFound, None, None))
    case ActivateOp(identity) => Activate(rt, identity)
    case DrainOp(identity) => Drain(rt, identity)
    case UnloadOp(identity) => Unload(rt, identity)
  }

  lemma PreferredSelected(rt: Runtime)
    requires rt.preferred == SelectPreferred(rt.deployments)
    ensures PreferredOk(rt)
  {
    if rt.deployments != map[] {
      var k :| k in rt.deployments;
      if exists j :: j in rt.deployments && Executable(rt.deployments[j]) {
        var j :| j in rt.deployments && Executable(rt.deployments[j]);
        assert j in ExecutableKeys(rt.deployments);
      }
    }
  }

  lemma BeginLoadKeeps(rt: Runtime, identity: Identity)
    ensures RuntimeOk(rt) ==> RuntimeOk(BeginLoad(rt, identity).0) && !BeginLoad(rt, identity).1.code.LogicError?
  {
  }

  /** A pending load owns the resident with its ticket, and no other. */
  lemma OwnResident(rt: Runtime, ticket: nat)
    requires ResidentsOk(rt) && LoadsOk(rt) && ticket in rt.pending
    ensures forall k :: k in rt.deployments && k != KeyFor(rt.pending[ticket].identity) ==> rt.deployments[k].ticket != ticket
    ensures var key := KeyFor(rt.pending[ticket].identity);
            rt.pending[ticket].cancelRequested || (key in rt.deployments && rt.deployments[key].ticket == ticket && rt.deployments[key].state.Loading?)
  {
  }

  lemma CommitResidents(rt: Runtime, ticket: nat, build: Build)
    requires ResidentsOk(rt) && LoadsOk(rt) && ticket in rt.pending
    ensures ResidentsOk(CommitLoad(rt, ticket, build).0) && !CommitLoad(rt, ticket, build).1.code.LogicError?
  {
    OwnResident(rt, ticket);
    hide LoadsOk;
  }

  lemma CommitLoads(rt: Runtime, ticket: nat, build: Build)
    requires ResidentsOk(rt) && LoadsOk(rt) && ticket in rt.pending
    ensures LoadsOk(CommitLoad(rt, ticket, build).0)
  {
    hide ResidentsOk;
  }

  lemma CommitLoadKeeps(rt: Runtime, ticket: nat, build: Build)
    requires ticket in rt.pending
    ensures RuntimeOk(rt) ==> RuntimeOk(CommitLoad(rt, ticket, build).0) && !CommitLoad(rt, ticket, build).1.code.LogicError?
  {
    hide ResidentsOk, LoadsOk, PreferredOk, CommitLoad;
    if RuntimeOk(rt) {
      CommitResidents(rt, ticket, build);
      CommitLoads(rt, ticket, build);
      CommitPreferred(rt, ticket, build);
    }
  }

  lemma CommitPreferred(rt: Runtime, ticket: nat, build: Build)
    requires ticket in rt.pending && PreferredOk(rt) && ResidentsOk(rt)
    ensures PreferredOk(CommitLoad(rt, ticket, build).0)
  {
  }

  lemma ActivateKeeps(rt: Runtime, identity: Identity)
    ensures RuntimeOk(rt) ==>
              var (after, reply) := Activate(rt, identity);
              RuntimeOk(after) && !reply.code.LogicError? && (reply.code.Success? ==> Serves(after, identity))
  {
  }

  lemma DrainKeeps(rt: Runtime, identity: Identity)
    ensures RuntimeOk(rt) ==> RuntimeOk(Drain(rt, identity).0) && !Drain(rt, identity).1.code.LogicError?
  {
  }

  lemma UnloadResidents(rt: Runtime, identity: Identity)
    requires ResidentsOk(rt) && LoadsOk(rt)
    ensures ResidentsOk(Unload(rt, identity).0) && !Unload(rt, identity).1.code.LogicError?
  {
    hide SelectPreferred;
  }

  lemma UnloadLoads(rt: Runtime, identity: Identity)
    requires ResidentsOk(rt) && LoadsOk(rt)
    ensures LoadsOk(Unload(rt, identity).0)
  {
    hide SelectPreferred;
  }

  lemma UnloadPreferred(rt: Runtime, identity: Identity)
    requires PreferredOk(rt)
    ensures PreferredOk(Unload(rt, identity).0)
  {
    hide PreferredOk, SelectPreferred;
    var after := Unload(rt, identity).0;
    if after.deployments != rt.deployments {
      PreferredSelected(after);
    } else {
      assert after == rt;
    }
  }

  lemma UnloadKeeps(rt: Runtime, identity: Identity)
    ensures RuntimeOk(rt) ==> RuntimeOk(Unload(rt, identity).0) && !Unload(rt, identity).1.code.LogicError?
  {
    hide ResidentsOk, LoadsOk, PreferredOk, Unload;
    if RuntimeOk(rt) {
      UnloadResidents(rt, identity);
      UnloadLoads(rt, identity);
      UnloadPreferred(rt, identity);
    }
  }

  /** State after a sequence of calls. */
  ghost function Run(rt: Runtime, ops: seq<Operation>): Runtime {
    if ops == [] then rt else Apply(Run(rt, ops[..|ops| - 1]), ops[|ops| - 1]).0
  }

  /** In every interleaving the invariant holds, so no call ever reaches an invalid transition. */
  lemma {:induction false} InterleavingSafe(rt: Runtime, ops: seq<Operation>, next: Operation)
    requires RuntimeOk(rt)
    ensures RuntimeOk(Run(rt, ops)) && !Apply(Run(rt, ops), next).1.code.LogicError?
    decreases |ops|
  {
    hide RuntimeOk, Apply;
    if ops != [] {
      InterleavingSafe(rt, ops[..|ops| - 1], ops[|ops| - 1]);
      ApplyKeeps(Run(rt, ops[..|ops| - 1]), ops[|ops| - 1]);
    }
    ApplyKeeps(Run(rt, ops), next);
  }

  lemma ApplyKeeps(rt: Runtime, op: Operation)
    requires RuntimeOk(rt)
    ensures RuntimeOk(Apply(rt, op).0) && !Apply(rt, op).1.code.LogicError?
  {
    match op
    case BeginLoadOp(identity) => BeginLoadKeeps(rt, identity);
    case CommitLoadOp(ticket, build) =>
      if ticket in rt.pending {
        CommitLoadKeeps(rt, ticket, build);
      }
    case ActivateOp(identity) => ActivateKeeps(rt, identity);
    case DrainOp(identity) => DrainKeeps(rt, identity);
    case UnloadOp(identity) => UnloadKeeps(rt, identity);
  }

  /** The load with this ticket was cancelled and its resident is gone. */
  ghost predicate Canceled(rt: Runtime, ticket: nat) {
    && (ticket in rt.pending ==> rt.pending[ticket].cancelRequested)
    && ticket < rt.nextTicket
    && (forall k :: k in rt.deployments ==> rt.deployments[k].ticket != ticket)
  }

  lemma CanceledStep(rt: Runtime, ticket: nat, op: Operation)
    requires Canceled(rt, ticket)
    ensures Canceled(Apply(rt, op).0, ticket)
  {
  }

  /** A load unloaded while Loading never installs its execution, whatever happens before it commits
      and even if the same identity is loaded again. */
  lemma {:induction false} CanceledNeverInstalls(rt: Runtime, ticket: nat, ops: seq<Operation>, build: Build)
    requires RuntimeOk(rt) && ticket in rt.pending && rt.pending[ticket].cancelRequested
    ensures var now := Run(rt, ops);
            && Canceled(now, ticket)
            && Apply(now, CommitLoadOp(ticket, build)).0.deployments == now.deployments
            && Apply(now, CommitLoadOp(ticket, build)).1.code in {LoadCanceled, NotFound}
    decreases |ops|
  {
    if ops != [] {
      CanceledNeverInstalls(rt, ticket, ops[..|ops| - 1], build);
      CanceledStep(Run(rt, ops[..|ops| - 1]), ticket, ops[|ops| - 1]);
    }
  }

  // --- The life of a deployment --------------------------------------------------------------------------

  /** Drain and then unload get rid of a deployment in every state; a drain alone stops none from serving. */
  lemma DrainThenUnload(rt: Runtime, identity: Identity)
    requires RuntimeOk(rt) && ManagedIdentity(identity)
    ensures var (drained, first) := Drain(rt, identity);
            var (gone, second) := Unload(drained, identity);
            && first.code.Success? && second.code.Success? && !Holds(gone, identity) && RuntimeOk(gone)
            && (Serves(rt, identity) ==> Serves(drained, identity) && StateOf(drained, identity).DrainingState?)
            && Untouched(rt.deployments, gone.deployments, KeyFor(identity))
  {
    hide RuntimeOk, SelectPreferred;
    DrainKeeps(rt, identity);
    ResidentFacts(rt, identity);
    UnloadKeeps(Drain(rt, identity).0, identity);
  }

  /** No resident is seen unloading; it has an execution just in the states that run; a loading one has its
      load pending. */
  lemma ResidentFacts(rt: Runtime, identity: Identity)
    ensures RuntimeOk(rt) && Holds(rt, identity) ==>
              var r := rt.deployments[KeyFor(identity)];
              && !r.state.Unloading? && (r.state.Loading? ==> r.ticket in rt.pending)
              && (r.execution <==> r.state.Ready? || r.state.ActiveState? || r.state.DrainingState?)
  {
  }

  /** A load that was not cancelled finds its own resident, still loading. */
  lemma PendingFacts(rt: Runtime, ticket: nat)
    ensures RuntimeOk(rt) && ticket in rt.pending && !rt.pending[ticket].cancelRequested ==>
              var identity := rt.pending[ticket].identity;
              Holds(rt, identity) && StateOf(rt, identity).Loading? && rt.deployments[KeyFor(identity)].ticket == ticket
  {
    if RuntimeOk(rt) && ticket in rt.pending && !rt.pending[ticket].cancelRequested {
      OwnResident(rt, ticket);
    }
  }

  /** An active deployment cannot be unloaded, so draining first is needed. */
  lemma ActiveNotUnloaded(rt: Runtime, identity: Identity)
    requires RuntimeOk(rt) && ManagedIdentity(identity)
    ensures Unload(rt, identity).1.code.Success? <==> !(Holds(rt, identity) && StateOf(rt, identity).ActiveState?)
    ensures !Unload(rt, identity).1.code.Success? ==> Unload(rt, identity).0 == rt
  {
    ResidentFacts(rt, identity);
  }

  /** Load, commit, activate, drain and unload of a new identity all succeed in this order; it is served from
      activation until unload, and the table is in the end what it was. */
  lemma LifeCycle(rt: Runtime, identity: Identity)
    requires RuntimeOk(rt) && ManagedIdentity(identity) && KeyFor(identity) !in rt.deployments
    ensures var (loading, r1) := BeginLoad(rt, identity);
            && r1.code.Success? && rt.nextTicket in loading.pending
            && var (ready, r2) := CommitLoad(loading, rt.nextTicket, BuildOk);
               var (active, r3) := Activate(ready, identity);
               var (draining, r4) := Drain(active, identity);
               var (gone, r5) := Unload(draining, identity);
               && r2.code.Success? && r3.code.Success? && r4.code.Success? && r5.code.Success?
               && !Serves(ready, identity) && Serves(active, identity) && Serves(draining, identity) && !Holds(gone, identity)
               && active.preferred == Some(KeyFor(identity)) && gone.deployments == rt.deployments && gone.pending == rt.pending
  {
    hide SelectPreferred, PreferredOk, LoadsOk;
    var loading := BeginLoad(rt, identity).0;
    assert rt.nextTicket !in rt.pending by { FreshTicket(rt); }
    var ready := CommitLoad(loading, rt.nextTicket, BuildOk).0;
    assert ready.deployments == rt.deployments[KeyFor(identity) := Resident(identity, Ready, true, rt.nextTicket)];
    assert ready.pending == rt.pending;
  }

  lemma FreshTicket(rt: Runtime)
    requires LoadsOk(rt)
    ensures rt.nextTicket !in rt.pending
  {
  }

  /** A call for one key leaves the residents of all other keys alone. */
  ghost predicate Untouched(before: map<Key, Resident>, after: map<Key, Resident>, key: Key) {
    forall k :: k != key ==> (k in after <==> k in before) && (k in after ==> after[k] == before[k])
  }

  // --- The mutex-guarded object ---------------------------------------------------------------------

  class ModelManagerObject {
    var deployments: map<Key, Resident>
    var preferred: Option<Key>
    var pending: map<nat, PendingLoad>
    var nextTicket: nat

    function View(): Runtime
      reads this
    {
      Runtime(deployments, preferred, pending, nextTicket)
    }

    constructor ()
      ensures View() == Runtime(map[], None, map[], 0) && RuntimeOk(View())
    {
      deployments, preferred, pending, nextTicket := map[], None, map[], 0;
    }

    method SetState(key: Key, state: Residency) returns (ok: bool)
      requires key in deployments
      modifies this`deployments
      ensures ok <==> ValidTransition(old(deployments)[key].state, state)
      ensures deployments == if ok then old(deployments)[key := old(deployments)[key].(state := state)] else old(deployments)
    {
      ok := ValidTransition(deployments[key].state, state);
      if ok {
        deployments := deployments[key := deployments[key].(state := state)];
      }
    }

    method SelectPreferredAfterErase()
      modifies this`preferred
      ensures preferred == SelectPreferred(deployments) && Prefers(deployments, preferred)
    {
      SelectedPrefers(deployments);
      hide Prefers;
      preferred := None;
      var remaining := deployments.Keys;
      while remaining != {}
        invariant remaining <= deployments.Keys && preferred.None?
        invariant forall k :: k in deployments && k !in remaining ==> !Executable(deployments[k])
        invariant forall j, k :: j in remaining && k in deployments && k !in remaining ==> KeyLess(j, k)
        decreases remaining
      {
        var k := GreatestKey(remaining);
        if Executable(deployments[k]) {
          preferred := Some(k);
          assert IsGreatest(k, ExecutableKeys(deployments));
          GreatestUnique(k, Greatest(ExecutableKeys(deployments)), ExecutableKeys(deployments));
          return;
        }
        remaining := remaining - {k};
      }
      assert ExecutableKeys(deployments) == {};
      if deployments.Keys != {} {
        var k := GreatestKey(deployments.Keys);
        GreatestUnique(k, Greatest(deployments.Keys), deployments.Keys);
        preferred := Some(k);
      }
    }

    method LoadFirst(identity: Identity, assignment: StageAssignment, hasBuilder: bool) returns (r: Reply)
      modifies this
      ensures (View(), r) == StartLoad(old(View()), identity, assignment, hasBuilder)
      ensures hasBuilder && ValidAssignment(assignment) ==>
                && (r.code.InvalidIdentity? <==> !ManagedIdentity(identity))
                && (r.code.ResidentExists? <==> ManagedIdentity(identity) && KeyFor(identity) in old(deployments))
                && (r.code.ResidentExists? ==> var resident := deployments[KeyFor(identity)];
                                               r.identity == Some(resident.identity) && r.state == Some(resident.state))
      ensures r.code.Success? ==> r.identity == Some(identity) && r.state == Some(Loading)
      ensures r.code.Success? ==> preferred == if old(preferred).None? then Some(KeyFor(identity)) else old(preferred)
      ensures r.code.Success? <==> hasBuilder && ValidAssignment(assignment) && ManagedIdentity(identity) && KeyFor(identity) !in old(deployments)
      ensures r.code.InvalidEngineBuilder? <==> !hasBuilder
      ensures r.code.InvalidStageAssignment? <==>
                hasBuilder && !(0 <= assignment.index < assignment.count && assignment.layerStart < assignment.layerEnd)
      ensures !r.code.Success? ==> View() == old(View())
      ensures r.code.Success? ==> pending == old(pending)[old(nextTicket) := PendingLoad(identity, false)] && nextTicket == old(nextTicket) + 1
      ensures r.code.Success? ==> Holds(View(), identity) && StateOf(View(), identity).Loading? && Untouched(old(deployments), deployments, KeyFor(identity))
      ensures old(RuntimeOk(View())) ==> RuntimeOk(View())
    {
      hide RuntimeOk;
      BeginLoadKeeps(View(), identity);
      if !hasBuilder {
        return Reply(InvalidEngineBuilder, None, None);
      }
      if !ValidAssignment(assignment) {
        return Reply(InvalidStageAssignment, None, None);
      }
      if !ManagedIdentity(identity) {
        return Reply(InvalidIdentity, None, None);
      }
      var key := KeyFor(identity);
      if key in deployments {
        return Reply(ResidentExists, Some(deployments[key].identity), Some(deployments[key].state));
      }
      deployments := deployments[key := Resident(identity, Loading, false, nextTicket)];
      if preferred.None? {
        preferred := Some(key);
      }
      pending := pending[nextTicket := PendingLoad(identity, false)];
      nextTicket := nextTicket + 1;
      r := Reply(Success, Some(identity), Some(Loading));
    }

    method LoadSecond(ticket: nat, build: Build) returns (r: Reply)
      requires ticket in pending
      modifies this
      ensures (View(), r) == CommitLoad(old(View()), ticket, build)
      ensures old(RuntimeOk(View())) ==> r.identity == Some(old(pending)[ticket].identity)
      ensures preferred == old(preferred) && nextTicket == old(nextTicket)
      ensures old(RuntimeOk(View())) && !old(pending)[ticket].cancelRequested ==>
                && (r.code.InvalidEngineConfig? <==> build.BuildInvalid?) && (r.code.LoadFailed? <==> !build.BuildOk? && !build.BuildInvalid?)
                && r.state == Some(if build.BuildOk? then Ready else FailedState)
      ensures old(RuntimeOk(View())) ==> RuntimeOk(View()) && !r.code.LogicError?
      ensures old(RuntimeOk(View())) ==>
                (r.code.Success? <==> build.BuildOk? && !old(pending)[ticket].cancelRequested)
      ensures old(RuntimeOk(View())) && !old(pending)[ticket].cancelRequested ==>
                var identity := old(pending)[ticket].identity;
                Holds(View(), identity) && StateOf(View(), identity) == if build.BuildOk? then Ready else FailedState
      ensures ticket !in pending && pending == old(pending) - {ticket}
      ensures old(pending)[ticket].cancelRequested ==> deployments == old(deployments) && r.code.LoadCanceled?
      ensures Untouched(old(deployments), deployments, KeyFor(old(pending)[ticket].identity))
    {
      hide RuntimeOk;
      CommitLoadKeeps(View(), ticket, build);
      PendingFacts(View(), ticket);
      var load := pending[ticket];
      var key := KeyFor(load.identity);
      pending := pending - {ticket};
      if load.cancelRequested || key !in deployments || deployments[key].ticket != ticket {
        return Reply(LoadCanceled, Some(load.identity), Some(Loading));
      }
      var ok := SetState(key, if build.BuildOk? then Ready else FailedState);
      if !ok {
        return Reply(LogicError, None, None);
      }
      if build.BuildOk? {
        deployments := deployments[key := deployments[key].(execution := true)];
      }
      assert deployments == old(deployments)[key := deployments[key]];
      r := Reply(if build.BuildOk? then Success else if build.BuildInvalid? then InvalidEngineConfig else LoadFailed,
                 Some(deployments[key].identity), Some(deployments[key].state));
    }

    method ActivateDeployment(identity: Identity) returns (r: Reply)
      modifies this
      ensures (View(), r) == Activate(old(View()), identity)
      ensures r.code.InvalidIdentity? <==> !ManagedIdentity(identity)
      ensures old(RuntimeOk(View())) && ManagedIdentity(identity) ==>
                r.identity == Some(identity) && r.state == if Holds(View(), identity) then Some(StateOf(View(), identity)) else None
      ensures r.code.NotFound? <==> ManagedIdentity(identity) && !old(Holds(View(), identity))
      ensures ManagedIdentity(identity) && old(Holds(View(), identity)) ==>
                var state := old(StateOf(View(), identity));
                && (r.code.DeploymentFailed? <==> state.FailedState?)
                && (r.code.Transitioning? <==> state.Loading? || state.DrainingState? || state.Unloading?)
                && (r.code.InvalidState? <==> state.Ready? && !old(deployments)[KeyFor(identity)].execution)
      ensures old(RuntimeOk(View())) ==> RuntimeOk(View()) && !r.code.LogicError? && (r.code.Success? ==> Serves(View(), identity))
      ensures old(RuntimeOk(View())) ==>
                (r.code.Success? <==>
                  ManagedIdentity(identity) && old(Holds(View(), identity) && (StateOf(View(), identity).Ready? || StateOf(View(), identity).ActiveState?)))
      ensures r.code.Success? ==> Holds(View(), identity) && StateOf(View(), identity).ActiveState? && preferred == Some(KeyFor(identity))
      ensures !r.code.Success? ==> View() == old(View())
      ensures Untouched(old(deployments), deployments, KeyFor(identity))
    {
      hide RuntimeOk;
      ActivateKeeps(View(), identity);
      ResidentFacts(View(), identity);
      if !ManagedIdentity(identity) {
        return Reply(InvalidIdentity, None, None);
      }
      if !Holds(View(), identity) {
        return Reply(NotFound, Some(identity), None);
      }
      var key := KeyFor(identity);
      var state := deployments[key].state;
      if state.ActiveState? {
        preferred := Some(key);
        return Reply(Success, Some(identity), Some(ActiveState));
      }
      if state.Loading? || state.DrainingState? || state.Unloading? {
        return Reply(Transitioning, Some(identity), Some(state));
      }
      if state.FailedState? {
        return Reply(DeploymentFailed, Some(identity), Some(state));
      }
      if !deployments[key].execution {
        return Reply(InvalidState, Some(identity), Some(state));
      }
      var ok := SetState(key, ActiveState);
      preferred := Some(key);
      r := Reply(Success, Some(identity), Some(ActiveState));
    }

    method DrainDeployment(identity: Identity) returns (r: Reply)
      modifies this
      ensures (View(), r) == Drain(old(View()), identity)
      ensures r.code.InvalidIdentity? <==> !ManagedIdentity(identity)
      ensures old(RuntimeOk(View())) && ManagedIdentity(identity) ==>
                r.identity == Some(identity) && r.state == if Holds(View(), identity) then Some(StateOf(View(), identity)) else None
      ensures r.code.Transitioning? <==> ManagedIdentity(identity) && old(Holds(View(), identity) && StateOf(View(), identity).Unloading?)
      ensures old(RuntimeOk(View())) ==> RuntimeOk(View()) && !r.code.LogicError?
      ensures old(Serves(View(), identity)) ==> Serves(View(), identity)
      ensures old(RuntimeOk(View())) ==> (r.code.Success? <==> ManagedIdentity(identity))
      ensures r.code.Success? ==> old(Holds(View(), identity)) == Holds(View(), identity)
      ensures r.code.Success? && Holds(View(), identity) ==>
                StateOf(View(), identity) == if old(StateOf(View(), identity)).ActiveState? then DrainingState else old(StateOf(View(), identity))
      ensures preferred == old(preferred) && pending == old(pending)
      ensures Untouched(old(deployments), deployments, KeyFor(identity))
    {
      hide RuntimeOk;
      DrainKeeps(View(), identity);
      ResidentFacts(View(), identity);
      if !ManagedIdentity(identity) {
        return Reply(InvalidIdentity, None, None);
      }
      if !Holds(View(), identity) {
        return Reply(Success, Some(identity), None);
      }
      var key := KeyFor(identity);
      if deployments[key].state.Unloading? {
        return Reply(Transitioning, Some(identity), Some(Unloading));
      }
      if deployments[key].state.ActiveState? {
        var ok := SetState(key, DrainingState);
      }
      r := Reply(Success, Some(identity), Some(deployments[key].state));
    }

    method UnloadDeployment(identity: Identity) returns (r: Reply)
      modifies this
      ensures (View(), r) == Unload(old(View()), identity)
      ensures r.code.InvalidIdentity? <==> !ManagedIdentity(identity)
      ensures old(RuntimeOk(View())) && ManagedIdentity(identity) ==>
                r.identity == Some(identity) && r.state == if Holds(View(), identity) then Some(StateOf(View(), identity)) else None
      ensures r.code.NotDraining? <==> ManagedIdentity(identity) && old(Holds(View(), identity) && StateOf(View(), identity).ActiveState?)
      ensures r.code.Transitioning? <==> ManagedIdentity(identity) && old(Holds(View(), identity) && StateOf(View(), identity).Unloading?)
      ensures old(RuntimeOk(View())) ==> RuntimeOk(View()) && !r.code.LogicError?
      ensures r.code.Success? ==> !Holds(View(), identity)
      ensures old(RuntimeOk(View())) ==>
                (r.code.Success? <==> ManagedIdentity(identity) && !old(Holds(View(), identity) && StateOf(View(), identity).ActiveState?))
      ensures !r.code.Success? ==> View() == old(View())
      ensures old(RuntimeOk(View())) && r.code.Success? && old(Holds(View(), identity) && StateOf(View(), identity).Loading?) ==>
                var ticket := old(deployments)[KeyFor(identity)].ticket;
                ticket in pending && pending[ticket].cancelRequested
      ensures if r.code.Success? && old(Holds(View(), identity)) then Prefers(deployments, preferred) else preferred == old(preferred)
      ensures Untouched(old(deployments), deployments, KeyFor(identity))
    {
      hide RuntimeOk;
      UnloadKeeps(View(), identity);
      ResidentFacts(View(), identity);
      if !ManagedIdentity(identity) {
        return Reply(InvalidIdentity, None, None);
      }
      if !Holds(View(), identity) {
        return Reply(Success, Some(identity), None);
      }
      var key := KeyFor(identity);
      var resident := deployments[key];
      if resident.state.Unloading? {
        return Reply(Transitioning, Some(identity), Some(Unloading));
      }
      if resident.state.ActiveState? {
        return Reply(NotDraining, Some(identity), Some(ActiveState));
      }
      if resident.state.Loading? && resident.ticket in pending {
        pending := pending[resident.ticket := pending[resident.ticket].(cancelRequested := true)];
      }
      deployments := deployments - {key};
      SelectPreferredAfterErase();
      r := Reply(Success, Some(identity), None);
    }
  }
}
