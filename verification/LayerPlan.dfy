/** Planning which node runs which layers (internal/clusterplan/plan.go, validation.go, deployment.go).
    Candidates arrive in any order: the sort in front of the planner is not modelled, and nothing here
    depends on it. */
module LayerPlan {
  import Counting
  import opened Wrappers

  type NodeId = string

  /** A candidate node, with the pipeline assignment its runtime reports, if any. */
  datatype Placement = Placement(
    nodeId: NodeId, hostId: string,
    reported: bool, stageIndex: int, stageCount: int, layerStart: int, layerEnd: int
  )

  datatype Range = Range(start: int, end: int)

  datatype Stage = Stage(stageIndex: int, stageCount: int, nodeId: NodeId, hostId: string, layerStart: int, layerEnd: int)

  datatype Reason =
    | NoReason
    | InvalidLayerCount
    | InvalidStageCount
    | InvalidStageLayerCounts
    | StageCountExceedsLayers
    | InvalidStageIndices
    | InvalidLayerRanges
    | NoEligibleMembers
    | IncompleteRuntimeAssignments
    | InsufficientStages
    | ColocatedStagesDisallowed

  datatype Policy = Policy(allowColocated: bool, stageCount: int, stageLayerCounts: seq<int>)

  datatype Mode = NoMode | DataParallel | PipelineParallel

  datatype Preview = Preview(valid: bool, reason: Reason, mode: Mode, stages: seq<Stage>)

  // --- Tilings -------------------------------------------------------------------------------------

  /** Contiguous non-empty ranges from 0 to a bound. */
  ghost predicate Tiles(ranges: seq<Range>, upTo: int) {
    if ranges == [] then upTo == 0
    else
      var last := ranges[|ranges| - 1];
      last.end == upTo && last.start < last.end && Tiles(ranges[..|ranges| - 1], last.start)
  }

  lemma {:induction false} TilesNonNegative(ranges: seq<Range>, upTo: int)
    requires Tiles(ranges, upTo)
    ensures upTo >= |ranges|
  {
    if ranges != [] {
      TilesNonNegative(ranges[..|ranges| - 1], ranges[|ranges| - 1].start);
    }
  }

  predicate Owns(range: Range, layer: int) {
    range.start <= layer < range.end
  }

  /** In a tiling every layer belongs to exactly one range. */
  lemma {:induction false} ExactlyOneOwner(ranges: seq<Range>, upTo: int, layer: int)
    requires Tiles(ranges, upTo) && 0 <= layer < upTo
    ensures exists i :: 0 <= i < |ranges| && Owns(ranges[i], layer)
    ensures forall i, j :: 0 <= i < |ranges| && 0 <= j < |ranges| && Owns(ranges[i], layer) && Owns(ranges[j], layer) ==> i == j
  {
    var init, last := ranges[..|ranges| - 1], ranges[|ranges| - 1];
    forall i | 0 <= i < |init| ensures ranges[i].end <= last.start { EndsBefore(init, last.start, i); }
    if layer < last.start {
      ExactlyOneOwner(init, last.start, layer);
      var i :| 0 <= i < |init| && Owns(init[i], layer);
      assert Owns(ranges[i], layer);
      forall i, j | 0 <= i < |ranges| && 0 <= j < |ranges| && Owns(ranges[i], layer) && Owns(ranges[j], layer) ensures i == j {
        assert ranges[i] == init[i] && ranges[j] == init[j];
      }
    } else {
      assert Owns(ranges[|ranges| - 1], layer);
    }
  }

  lemma {:induction false} EndsBefore(ranges: seq<Range>, upTo: int, i: nat)
    requires Tiles(ranges, upTo) && i < |ranges|
    ensures ranges[i].end <= upTo && ranges[i].start < ranges[i].end
  {
    if i < |ranges| - 1 {
      EndsBefore(ranges[..|ranges| - 1], ranges[|ranges| - 1].start, i);
    }
  }

  lemma TilesAppend(ranges: seq<Range>, start: int, end: int)
    requires Tiles(ranges, start) && start < end
    ensures Tiles(ranges + [Range(start, end)], end)
  {
    assert (ranges + [Range(start, end)])[..|ranges|] == ranges;
  }

  // --- Range assignment ------------------------------------------------------------------------------

  /** AssignLayerRanges: an even split, the first stages one layer wider. */
  method AssignLayerRanges(layerCount: int, stageCount: int) returns (ranges: seq<Range>)
    ensures layerCount <= 0 || stageCount <= 0 || stageCount > layerCount ==> ranges == []
    ensures 0 < stageCount <= layerCount ==> |ranges| == stageCount && Tiles(ranges, layerCount)
    ensures 0 < stageCount <= layerCount ==> forall i :: 0 <= i < stageCount ==>
              ranges[i].end - ranges[i].start == layerCount / stageCount + if i < layerCount % stageCount then 1 else 0
  {
    ranges := [];
    if layerCount <= 0 || stageCount <= 0 || stageCount > layerCount {
      return;
    }
    var base, remainder := layerCount / stageCount, layerCount % stageCount;
    Division(layerCount, stageCount);
    var start := 0;
    for i := 0 to stageCount
      invariant |ranges| == i && Tiles(ranges, start)
      invariant start == i * base + if i < remainder then i else remainder
      invariant forall k :: 0 <= k < i ==> ranges[k].end - ranges[k].start == base + if k < remainder then 1 else 0
    {
      var width := base;
      if i < remainder {
        width := width + 1;
      }
      var end := start + width;
      TilesAppend(ranges, start, end);
      Advance(i, base);
      ranges := ranges + [Range(start, end)];
      start := end;
    }
  }

  lemma Division(a: int, b: int)
    requires 0 < b <= a
    ensures a == b * (a / b) + a % b && a / b >= 1 && 0 <= a % b < b
  {
  }

  lemma Advance(i: int, base: int)
    ensures (i + 1) * base == i * base + base
  {
  }

  function Sum(counts: seq<int>): int {
    if counts == [] then 0 else Sum(counts[..|counts| - 1]) + counts[|counts| - 1]
  }

  /** What validateStageLayerCounts accepts. */
  predicate CountsOk(layerCount: int, stageCount: int, counts: seq<int>) {
    counts == [] || (stageCount == |counts| && (forall k :: 0 <= k < |counts| ==> counts[k] > 0) && Sum(counts) == layerCount)
  }

  method ValidateStageLayerCounts(layerCount: int, stageCount: int, counts: seq<int>) returns (reason: Reason)
    ensures reason == if CountsOk(layerCount, stageCount, counts) then NoReason else InvalidStageLayerCounts
    ensures reason.NoReason? <==> counts == [] || (|counts| == stageCount && Sum(counts) == layerCount && forall c :: c in counts ==> 0 < c)
  {
    if counts == [] {
      return NoReason;
    }
    if stageCount != |counts| {
      return InvalidStageLayerCounts;
    }
    var total := 0;
    for i := 0 to |counts|
      invariant total == Sum(counts[..i]) && forall k :: 0 <= k < i ==> counts[k] > 0
    {
      assert counts[..i + 1][..i] == counts[..i];
      if counts[i] <= 0 {
        assert counts[i] in counts;
        return InvalidStageLayerCounts;
      }
      total := total + counts[i];
    }
    assert counts[..|counts|] == counts;
    reason := if total != layerCount then InvalidStageLayerCounts else NoReason;
  }

  method AssignConfiguredLayerRanges(layerCount: int, counts: seq<int>) returns (ranges: seq<Range>)
    ensures counts != [] && CountsOk(layerCount, |counts|, counts) ==> |ranges| == |counts| && Tiles(ranges, layerCount)
    ensures counts != [] && CountsOk(layerCount, |counts|, counts) ==>
              forall k :: 0 <= k < |counts| ==> ranges[k].end - ranges[k].start == counts[k]
    ensures counts == [] || !CountsOk(layerCount, |counts|, counts) ==> ranges == []
  {
    ranges := [];
    var reason := ValidateStageLayerCounts(layerCount, |counts|, counts);
    if !reason.NoReason? {
      return;
    }
    var start := 0;
    for i := 0 to |counts|
      invariant |ranges| == i && start == Sum(counts[..i]) && Tiles(ranges, start)
      invariant forall k :: 0 <= k < i ==> ranges[k].end - ranges[k].start == counts[k]
    {
      assert counts[..i + 1][..i] == counts[..i];
      var end := start + counts[i];
      TilesAppend(ranges, start, end);
      ranges := ranges + [Range(start, end)];
      start := end;
    }
    assert counts[..|counts|] == counts;
  }

  // --- Stage plans -------------------------------------------------------------------------------------

  function RangesOf(stages: seq<Stage>): seq<Range> {
    seq(|stages|, i requires 0 <= i < |stages| => Range(stages[i].layerStart, stages[i].layerEnd))
  }

  /** Stages numbered in order that tile the layers. */
  ghost predicate Plan(stages: seq<Stage>, layerCount: int) {
    && stages != []
    && (forall i :: 0 <= i < |stages| ==> stages[i].stageIndex == i && stages[i].stageCount == |stages|)
    && Tiles(RangesOf(stages), layerCount)
  }

  /** The running start of the validators: the stages before n are in order and tile up to it. */
  ghost predicate PlannedSoFar(stages: seq<Stage>, n: nat, start: int)
    requires n <= |stages|
  {
    && (forall i :: 0 <= i < n ==> stages[i].stageIndex == i && stages[i].stageCount == |stages|)
    && Tiles(RangesOf(stages[..n]), start)
  }

  lemma RangesSnoc(stages: seq<Stage>, n: nat)
    requires n < |stages|
    ensures RangesOf(stages[..n + 1]) == RangesOf(stages[..n]) + [Range(stages[n].layerStart, stages[n].layerEnd)]
    ensures RangesOf(stages[..n + 1])[..n] == RangesOf(stages[..n])
  {
  }

  lemma {:induction false} PlanPrefix(stages: seq<Stage>, layerCount: int, n: nat)
    requires Tiles(RangesOf(stages), layerCount) && n <= |stages|
    ensures exists start :: Tiles(RangesOf(stages[..n]), start) && start <= layerCount
    decreases |stages| - n
  {
    if n == |stages| {
      assert stages[..n] == stages;
    } else {
      PlanPrefix(stages, layerCount, n + 1);
      RangesSnoc(stages, n);
      var start :| Tiles(RangesOf(stages[..n + 1]), start) && start <= layerCount;
      assert Tiles(RangesOf(stages[..n]), stages[n].layerStart);
    }
  }

  lemma TilesUnique(ranges: seq<Range>, a: int, b: int)
    requires Tiles(ranges, a) && Tiles(ranges, b)
    ensures a == b
  {
  }

  /** validateStagePlan: no reason exactly for a plan. */
  method ValidateStagePlan(stages: seq<Stage>, layerCount: int) returns (reason: Reason)
    ensures reason.NoReason? <==> Plan(stages, layerCount)
    ensures reason.InvalidLayerCount? <==> layerCount <= 0
    ensures reason.InvalidStageCount? <==> 0 < layerCount && stages == []
    ensures reason.StageCountExceedsLayers? <==> 0 < layerCount < |stages|
    ensures reason.InvalidStageIndices? ==> exists i :: 0 <= i < |stages| && (stages[i].stageIndex != i || stages[i].stageCount != |stages|)
    ensures reason.InvalidLayerRanges? ==> !Tiles(RangesOf(stages), layerCount)
    ensures reason in {NoReason, InvalidLayerCount, InvalidStageCount, StageCountExceedsLayers, InvalidStageIndices, InvalidLayerRanges}
  {
    hide Tiles;
    if layerCount <= 0 {
      PlanPositive(stages, layerCount);
      return InvalidLayerCount;
    }
    if stages == [] {
      return InvalidStageCount;
    }
    PlanPositive(stages, layerCount);
    if |stages| > layerCount {
      return StageCountExceedsLayers;
    }
    var expectedStart := 0;
    NothingPlanned(stages);
    for index := 0 to |stages|
      invariant PlannedSoFar(stages, index, expectedStart)
    {
      NextStage(stages, layerCount, index, expectedStart);
      var stage := stages[index];
      if stage.stageIndex != index || stage.stageCount != |stages| {
        return InvalidStageIndices;
      }
      if stage.layerStart != expectedStart || stage.layerEnd <= stage.layerStart || stage.layerEnd > layerCount {
        return InvalidLayerRanges;
      }
      expectedStart := stage.layerEnd;
    }
    assert stages[..|stages|] == stages;
    LastStage(stages, layerCount, expectedStart);
    reason := if expectedStart != layerCount then InvalidLayerRanges else NoReason;
  }

  lemma NothingPlanned(stages: seq<Stage>)
    ensures PlannedSoFar(stages, 0, 0)
  {
  }

  lemma PlanPositive(stages: seq<Stage>, layerCount: int)
    ensures Plan(stages, layerCount) ==> 0 < |stages| <= layerCount
  {
    if Plan(stages, layerCount) {
      TilesNonNegative(RangesOf(stages), layerCount);
    }
  }

  lemma LastStage(stages: seq<Stage>, layerCount: int, start: int)
    requires stages != [] && PlannedSoFar(stages, |stages|, start)
    ensures Plan(stages, layerCount) <==> start == layerCount
    ensures Tiles(RangesOf(stages), layerCount) ==> start == layerCount
  {
    hide Tiles;
    assert stages[..|stages|] == stages;
    if Tiles(RangesOf(stages), layerCount) {
      TilesUnique(RangesOf(stages), start, layerCount);
    }
  }

  /** One turn of a validator: a stage that fails its checks refutes the plan, another one extends it. */
  lemma NextStage(stages: seq<Stage>, layerCount: int, n: nat, start: int)
    requires n < |stages| && PlannedSoFar(stages, n, start)
    ensures var s := stages[n];
            var good := s.stageIndex == n && s.stageCount == |stages| && s.layerStart == start && s.layerEnd > s.layerStart;
            && (good ==> PlannedSoFar(stages, n + 1, s.layerEnd))
            && (!good || s.layerEnd > layerCount ==> !Plan(stages, layerCount))
            && (s.layerStart != start || s.layerEnd <= s.layerStart || s.layerEnd > layerCount ==> !Tiles(RangesOf(stages), layerCount))
  {
    RangesSnoc(stages, n);
    if Tiles(RangesOf(stages), layerCount) {
      PlanPrefix(stages, layerCount, n + 1);
      var end :| Tiles(RangesOf(stages[..n + 1]), end) && end <= layerCount;
      TilesUnique(RangesOf(stages[..n]), start, stages[n].layerStart);
    }
  }

  // --- Candidates that report a complete pipeline --------------------------------------------------------

  predicate Reports(p: Placement, count: int, index: int) {
    p.reported && p.stageCount == count && p.stageIndex == index
  }

  /** The first candidate that reports this stage. */
  function First(candidates: seq<Placement>, count: int, index: int): (r: Option<Placement>)
    ensures r.Some? ==> r.value in candidates && Reports(r.value, count, index)
    ensures r.None? ==> forall p :: p in candidates ==> !Reports(p, count, index)
  {
    if candidates == [] then None
    else
      var before := First(candidates[..|candidates| - 1], count, index);
      var last := candidates[|candidates| - 1];
      if before.Some? then before else if Reports(last, count, index) then Some(last) else None
  }

  function ReportedRanges(placements: seq<Placement>): seq<Range> {
    seq(|placements|, i requires 0 <= i < |placements| => Range(placements[i].layerStart, placements[i].layerEnd))
  }

  /** These placements are the first reports of all stages of their pipeline, and cover the model. */
  ghost predicate Explicit(candidates: seq<Placement>, layerCount: int, requested: int, ordered: seq<Placement>) {
    && |ordered| >= 2
    && (requested > 0 ==> |ordered| == requested)
    && (forall i :: 0 <= i < |ordered| ==> First(candidates, |ordered|, i) == Some(ordered[i]))
    && Tiles(ReportedRanges(ordered), layerCount)
  }

  /** runtimeRangesCoverModel. */
  method RangesCoverModel(placements: seq<Placement>, layerCount: int) returns (ok: bool)
    requires layerCount > 0
    ensures ok <==> Tiles(ReportedRanges(placements), layerCount)
  {
    hide Tiles;
    var expectedStart := 0;
    NoRanges(placements);
    for i := 0 to |placements|
      invariant Tiles(ReportedRanges(placements[..i]), expectedStart)
    {
      NextRange(placements, layerCount, i, expectedStart);
      if placements[i].layerStart != expectedStart || placements[i].layerEnd <= placements[i].layerStart {
        return false;
      }
      expectedStart := placements[i].layerEnd;
    }
    assert placements[..|placements|] == placements;
    ok := expectedStart == layerCount;
    RangesUnique(ReportedRanges(placements), expectedStart, layerCount);
  }

  lemma NoRanges(placements: seq<Placement>)
    ensures Tiles(ReportedRanges(placements[..0]), 0)
  {
  }

  lemma RangesUnique(ranges: seq<Range>, a: int, b: int)
    requires Tiles(ranges, a)
    ensures Tiles(ranges, b) <==> a == b
  {
  }

  lemma {:induction false} TilesPrefix(ranges: seq<Range>, upTo: int, n: nat)
    requires Tiles(ranges, upTo) && n <= |ranges|
    ensures exists start :: Tiles(ranges[..n], start)
    decreases |ranges|
  {
    if n == |ranges| {
      assert ranges[..n] == ranges;
    } else {
      TilesPrefix(ranges[..|ranges| - 1], ranges[|ranges| - 1].start, n);
      assert ranges[..|ranges| - 1][..n] == ranges[..n];
    }
  }

  lemma NextRange(placements: seq<Placement>, layerCount: int, n: nat, start: int)
    requires n < |placements| && Tiles(ReportedRanges(placements[..n]), start)
    ensures var p := placements[n];
            if p.layerStart == start && p.layerEnd > p.layerStart then Tiles(ReportedRanges(placements[..n + 1]), p.layerEnd)
            else !Tiles(ReportedRanges(placements), layerCount)
  {
    var all, next := ReportedRanges(placements), ReportedRanges(placements[..n + 1]);
    assert next[..n] == ReportedRanges(placements[..n]);
    if Tiles(all, layerCount) {
      TilesPrefix(all, layerCount, n + 1);
      assert all[..n + 1] == next;
      var end :| Tiles(next, end);
      TilesUnique(ReportedRanges(placements[..n]), start, placements[n].layerStart);
    }
  }

  lemma FirstStep(group: seq<Placement>, k: nat, count: int, index: int)
    requires k < |group|
    ensures First(group[..k + 1], count, index) ==
            (if First(group[..k], count, index).Some? then First(group[..k], count, index)
             else if Reports(group[k], count, index) then Some(group[k]) else None)
  {
    assert group[..k + 1][..k] == group[..k];
  }

  /** The first report of every stage in one group. */
  method FillSlots(group: seq<Placement>, stageCount: nat) returns (slots: array<Option<Placement>>)
    requires forall k :: 0 <= k < |group| ==> group[k].reported && group[k].stageCount == stageCount
    ensures fresh(slots) && slots.Length == stageCount
    ensures forall i :: 0 <= i < stageCount ==> slots[i] == First(group, stageCount, i)
  {
    slots := new Option<Placement>[stageCount](i => None);
    for k := 0 to |group|
      invariant forall i :: 0 <= i < stageCount ==> slots[i] == First(group[..k], stageCount, i)
    {
      hide First;
      forall i | 0 <= i < stageCount
        ensures First(group[..k + 1], stageCount, i) ==
                (if slots[i].Some? then slots[i] else if Reports(group[k], stageCount, i) then Some(group[k]) else None)
      {
        FirstStep(group, k, stageCount, i);
      }
      var index := group[k].stageIndex;
      if 0 <= index < stageCount && slots[index].None? {
        slots[index] := Some(group[k]);
      }
    }
    assert group[..|group|] == group;
  }

  /** One group of explicitPipelinePlacements: the first report of every stage, if none is missing. */
  method OrderGroup(candidates: seq<Placement>, group: seq<Placement>, stageCount: nat) returns (ordered: seq<Placement>, complete: bool)
    requires group == GroupOf(candidates, stageCount)
    ensures complete <==> forall i :: 0 <= i < stageCount ==> First(candidates, stageCount, i).Some?
    ensures complete ==> |ordered| == stageCount && forall i :: 0 <= i < stageCount ==> First(candidates, stageCount, i) == Some(ordered[i])
  {
    hide First, GroupOf;
    forall k | 0 <= k < |group| ensures group[k].reported && group[k].stageCount == stageCount { GroupMember(candidates, stageCount, k); }
    var slots := FillSlots(group, stageCount);
    forall i | 0 <= i < stageCount ensures slots[i] == First(candidates, stageCount, i) { FirstInGroup(candidates, stageCount, i); }
    ordered := [];
    complete := true;
    for i := 0 to stageCount
      invariant complete && |ordered| == i && forall j :: 0 <= j < i ==> slots[j] == Some(ordered[j])
    {
      assert slots[i] == First(candidates, stageCount, i);
      if slots[i].None? {
        complete := false;
        break;
      }
      ordered := ordered + [slots[i].value];
    }
  }

  /** Candidates that report a pipeline of this many stages, in order. */
  function GroupOf(candidates: seq<Placement>, count: int): seq<Placement> {
    if candidates == [] then []
    else
      var last := candidates[|candidates| - 1];
      GroupOf(candidates[..|candidates| - 1], count) + if last.reported && last.stageCount == count then [last] else []
  }

  lemma {:induction false} GroupMember(candidates: seq<Placement>, count: int, k: nat)
    requires k < |GroupOf(candidates, count)|
    ensures GroupOf(candidates, count)[k].reported && GroupOf(candidates, count)[k].stageCount == count
  {
    var before := GroupOf(candidates[..|candidates| - 1], count);
    if k < |before| {
      GroupMember(candidates[..|candidates| - 1], count, k);
    }
  }

  /** Grouping does not change which report comes first. */
  lemma {:induction false} FirstInGroup(candidates: seq<Placement>, count: int, index: int)
    ensures First(GroupOf(candidates, count), count, index) == First(candidates, count, index)
  {
    if candidates != [] {
      var init, last := candidates[..|candidates| - 1], candidates[|candidates| - 1];
      FirstInGroup(init, count, index);
      var group := GroupOf(init, count);
      assert (group + [last])[..|group|] == group && group + [] == group;
    }
  }

  lemma {:induction false} GroupHas(candidates: seq<Placement>, count: int, p: Placement)
    ensures p in GroupOf(candidates, count) <==> p in candidates && p.reported && p.stageCount == count
  {
    if candidates != [] {
      var init, last := candidates[..|candidates| - 1], candidates[|candidates| - 1];
      GroupHas(init, count, p);
      assert candidates == init + [last];
    }
  }

  /** A pipeline with a missing stage is the only thing the size check can skip. */
  lemma SmallGroupIncomplete(candidates: seq<Placement>, count: nat)
    requires forall i :: 0 <= i < count ==> First(candidates, count, i).Some?
    ensures |GroupOf(candidates, count)| >= count
  {
    hide GroupOf, First;
    var group := GroupOf(candidates, count);
    var indices := seq(|group|, k requires 0 <= k < |group| => group[k].stageIndex);
    forall i | 0 <= i < count ensures i in indices {
      var p := First(candidates, count, i).value;
      GroupHas(candidates, count, p);
      var k :| 0 <= k < |group| && group[k] == p;
      assert indices[k] == i;
    }
    Counting.Covering(indices, count);
  }

  /** Stage counts that some eligible candidate reports. */
  predicate Eligible(p: Placement, requested: int) {
    p.reported && p.stageCount >= 2 && (requested > 0 ==> p.stageCount == requested)
  }

  ghost predicate Grouped(candidates: seq<Placement>, requested: int, groups: map<int, seq<Placement>>) {
    && (forall c :: c in groups ==> c >= 2 && (requested > 0 ==> c == requested) && groups[c] == GroupOf(candidates, c))
    && (forall p :: p in candidates && Eligible(p, requested) ==> p.stageCount in groups)
  }

  method GroupByStageCount(candidates: seq<Placement>, requested: int) returns (groups: map<int, seq<Placement>>)
    ensures Grouped(candidates, requested, groups)
  {
    groups := map[];
    for k := 0 to |candidates|
      invariant Grouped(candidates[..k], requested, groups)
    {
      var p := candidates[k];
      ghost var before := groups;
      if Eligible(p, requested) {
        var group := if p.stageCount in groups then groups[p.stageCount] else [];
        groups := groups[p.stageCount := group + [p]];
      }
      GroupedStep(candidates, requested, k, before, groups);
    }
    assert candidates[..|candidates|] == candidates;
  }

  lemma GroupedStep(candidates: seq<Placement>, requested: int, k: nat, before: map<int, seq<Placement>>, after: map<int, seq<Placement>>)
    requires k < |candidates| && Grouped(candidates[..k], requested, before)
    requires var p := candidates[k];
             after == if Eligible(p, requested)
                      then before[p.stageCount := (if p.stageCount in before then before[p.stageCount] else []) + [p]] else before
    ensures Grouped(candidates[..k + 1], requested, after)
  {
    var now, p := candidates[..k + 1], candidates[k];
    assert now[..k] == candidates[..k] && now[k] == p;
    if Eligible(p, requested) && p.stageCount !in before {
      EmptyGroup(candidates[..k], requested, before, p.stageCount);
    }
    forall c | c in after && (!p.reported || p.stageCount != c) ensures GroupOf(now, c) == GroupOf(candidates[..k], c) {
      assert GroupOf(candidates[..k], c) + [] == GroupOf(candidates[..k], c);
    }
    forall q | q in now && Eligible(q, requested) ensures q.stageCount in after {
      assert q in candidates[..k] || q == p;
    }
  }

  lemma EmptyGroup(candidates: seq<Placement>, requested: int, groups: map<int, seq<Placement>>, count: int)
    requires Grouped(candidates, requested, groups) && count !in groups && count >= 2 && (requested > 0 ==> count == requested)
    ensures GroupOf(candidates, count) == []
  {
    if GroupOf(candidates, count) != [] {
      GroupHas(candidates, count, GroupOf(candidates, count)[0]);
    }
  }

  /** explicitPipelinePlacements: it finds a complete reported pipeline whenever there is one, taking
      the first report of every stage, and the shortest when there are several. */
  method ExplicitPipelinePlacements(candidates: seq<Placement>, layerCount: int, requested: int) returns (found: Option<seq<Placement>>)
    requires layerCount > 0
    ensures found.None? <==> forall ordered :: !Explicit(candidates, layerCount, requested, ordered)
    ensures found.Some? ==> Explicit(candidates, layerCount, requested, found.value)
    ensures found.Some? ==> forall other :: Explicit(candidates, layerCount, requested, other) ==> |found.value| <= |other|
  {
    hide First, Tiles, GroupOf;
    var groups := GroupByStageCount(candidates, requested);
    var keys := groups.Keys;
    forall ordered | Explicit(candidates, layerCount, requested, ordered) ensures |ordered| in keys {
      ExplicitGrouped(candidates, layerCount, requested, ordered, groups);
    }
    while keys != {}
      invariant keys <= groups.Keys
      invariant forall ordered :: Explicit(candidates, layerCount, requested, ordered) ==> |ordered| in keys
      decreases |keys|
    {
      ghost var least := Counting.Least(keys);
      assert least in keys && forall d :: d in keys ==> least <= d;
      var stageCount :| stageCount in keys && forall d :: d in keys ==> stageCount <= d;
      keys := keys - {stageCount};
      if |groups[stageCount]| < stageCount {
        forall ordered | Explicit(candidates, layerCount, requested, ordered) ensures |ordered| != stageCount {
          if |ordered| == stageCount { SmallGroupIncomplete(candidates, stageCount); }
        }
        continue;
      }
      var ordered, complete := OrderGroup(candidates, groups[stageCount], stageCount);
      if complete {
        var covers := RangesCoverModel(ordered, layerCount);
        if covers {
          assert Explicit(candidates, layerCount, requested, ordered);
          return Some(ordered);
        }
      }
      forall other | Explicit(candidates, layerCount, requested, other) ensures |other| != stageCount {
        assert |other| == stageCount && complete ==> other == ordered;
      }
    }
    found := None;
  }

  lemma ExplicitGrouped(candidates: seq<Placement>, layerCount: int, requested: int, ordered: seq<Placement>, groups: map<int, seq<Placement>>)
    requires Explicit(candidates, layerCount, requested, ordered) && Grouped(candidates, requested, groups)
    ensures |ordered| in groups
  {
    assert First(candidates, |ordered|, 0) == Some(ordered[0]);
    assert Eligible(ordered[0], requested);
  }

  // --- Building stages --------------------------------------------------------------------------------------

  function StageFor(p: Placement, i: int, count: int, range: Range): Stage {
    if p.reported then Stage(p.stageIndex, p.stageCount, p.nodeId, p.hostId, p.layerStart, p.layerEnd)
    else Stage(i, count, p.nodeId, p.hostId, range.start, range.end)
  }

  /** The ranges for this many stages exist. */
  predicate Buildable(placements: seq<Placement>, layerCount: int, counts: seq<int>) {
    if counts == [] then 0 < |placements| <= layerCount
    else CountsOk(layerCount, |counts|, counts) && |counts| == |placements|
  }

  /** Stage k runs on placement k, with the layers it reports or else as many as configured, or as an even
      split gives it. */
  ghost predicate RunsOn(stages: seq<Stage>, placements: seq<Placement>, counts: seq<int>, layerCount: int) {
    && |stages| == |placements| && (counts == [] || |counts| == |placements|)
    && forall k :: 0 <= k < |stages| ==>
         var s, p := stages[k], placements[k];
         && s.nodeId == p.nodeId && s.hostId == p.hostId
         && if p.reported then s.layerStart == p.layerStart && s.layerEnd == p.layerEnd
            else s.layerEnd - s.layerStart ==
                 if counts != [] then counts[k]
                 else layerCount / |placements| + if k < layerCount % |placements| then 1 else 0
  }

  method BuildStages(placements: seq<Placement>, layerCount: int, counts: seq<int>) returns (stages: seq<Stage>)
    ensures !Buildable(placements, layerCount, counts) ==> stages == []
    ensures Buildable(placements, layerCount, counts) ==>
              && RunsOn(stages, placements, counts, layerCount)
              && exists ranges :: Tiles(ranges, layerCount) && StagesFrom(placements, ranges, stages)
  {
    hide Tiles;
    var ranges := AssignLayerRanges(layerCount, |placements|);
    if |counts| > 0 {
      ranges := AssignConfiguredLayerRanges(layerCount, counts);
    }
    stages := [];
    if |ranges| != |placements| {
      return;
    }
    for i := 0 to |placements|
      invariant |stages| == i
      invariant forall k :: 0 <= k < i ==> stages[k] == StageFor(placements[k], k, |placements|, ranges[k])
    {
      stages := stages + [StageFor(placements[i], i, |placements|, ranges[i])];
    }
    assert |placements| > 0 ==> StagesFrom(placements, ranges, stages);
  }

  ghost predicate StagesFrom(placements: seq<Placement>, ranges: seq<Range>, stages: seq<Stage>) {
    && |stages| == |placements| == |ranges| && |stages| > 0
    && forall k :: 0 <= k < |stages| ==> stages[k] == StageFor(placements[k], k, |placements|, ranges[k])
  }

  /** Without reports, the assigned ranges make a plan. */
  lemma UnreportedPlan(placements: seq<Placement>, ranges: seq<Range>, stages: seq<Stage>, layerCount: int)
    requires StagesFrom(placements, ranges, stages) && Tiles(ranges, layerCount)
    requires forall p :: p in placements ==> !p.reported
    ensures Plan(stages, layerCount)
  {
    hide Tiles;
    forall k | 0 <= k < |stages| ensures stages[k] == Stage(k, |stages|, placements[k].nodeId, placements[k].hostId, ranges[k].start, ranges[k].end) {
      assert placements[k] in placements;
    }
    assert RangesOf(stages) == ranges;
  }

  /** A complete reported pipeline makes a plan, whatever ranges were computed beside it. */
  lemma ReportedPlan(placements: seq<Placement>, ranges: seq<Range>, stages: seq<Stage>, layerCount: int)
    requires StagesFrom(placements, ranges, stages) && Tiles(ReportedRanges(placements), layerCount)
    requires forall i :: 0 <= i < |placements| ==> Reports(placements[i], |placements|, i)
    ensures Plan(stages, layerCount)
  {
    hide Tiles;
    assert RangesOf(stages) == ReportedRanges(placements);
  }

  // --- Choosing hosts --------------------------------------------------------------------------------------------

  ghost predicate DistinctHosts(placements: seq<Placement>) {
    forall i, j :: 0 <= i < j < |placements| ==> placements[i].hostId != placements[j].hostId
  }

  /** topologyForPlacements: colocated unless there are several hosts and none repeats. */
  method Colocated(placements: seq<Placement>) returns (colocated: bool)
    ensures colocated <==> !DistinctHosts(placements) || |placements| <= 1
  {
    var seen: set<string> := {};
    for i := 0 to |placements|
      invariant DistinctHosts(placements[..i]) && forall h :: h in seen <==> exists k :: 0 <= k < i && placements[k].hostId == h
      invariant |seen| == i
    {
      if placements[i].hostId in seen {
        return true;
      }
      seen := seen + {placements[i].hostId};
    }
    assert placements[..|placements|] == placements;
    colocated := |seen| <= 1;
  }

  function HostsOf(placements: seq<Placement>): set<string> {
    set p | p in placements :: p.hostId
  }

  /** The first candidate of each host, in the order of the candidates. */
  ghost predicate FirstOfHosts(candidates: seq<Placement>, selected: seq<Placement>, at: seq<nat>) {
    && |at| == |selected| && DistinctHosts(selected)
    && (forall k :: 0 <= k < |at| ==> at[k] < |candidates| && selected[k] == candidates[at[k]])
    && (forall k, j :: 0 <= k < |at| && 0 <= j < at[k] && j < |candidates| ==> candidates[j].hostId in HostsOf(selected[..k]))
  }

  lemma FirstOfNext(candidates: seq<Placement>, selected: seq<Placement>, at: seq<nat>, i: nat)
    requires FirstOfHosts(candidates, selected, at) && i < |candidates| && candidates[i].hostId !in HostsOf(selected)
    requires forall j :: 0 <= j < i ==> candidates[j].hostId in HostsOf(selected)
    ensures FirstOfHosts(candidates, selected + [candidates[i]], at + [i])
  {
    hide HostsOf;
    var all, places := selected + [candidates[i]], at + [i];
    assert DistinctHosts(all) by { NewHost(selected, candidates[i]); }
    forall k, j | 0 <= k < |places| && 0 <= j < places[k] && j < |candidates| ensures candidates[j].hostId in HostsOf(all[..k]) {
      assert all[..k] == selected[..k];
      if k == |at| { assert selected[..k] == selected; }
    }
  }

  /** selectDistinctPhysicalHosts: the first candidate of each host, up to a number; with fewer, every
      host is represented. */
  method SelectDistinctHosts(candidates: seq<Placement>, count: nat) returns (selected: seq<Placement>, ghost at: seq<nat>)
    requires count >= 1
    ensures |selected| <= count && FirstOfHosts(candidates, selected, at)
    ensures forall p :: p in selected ==> p in candidates
    ensures |selected| < count ==> HostsOf(selected) == HostsOf(candidates)
  {
    selected, at := [], [];
    var seen: set<string> := {};
    for i := 0 to |candidates|
      invariant |selected| < count && FirstOfHosts(candidates, selected, at)
      invariant forall p :: p in selected ==> p in candidates && p.hostId in seen
      invariant seen == HostsOf(selected) == HostsOf(candidates[..i])
    {
      HostsStep(candidates[..i], candidates[i]);
      HostsStep(selected, candidates[i]);
      assert candidates[..i] + [candidates[i]] == candidates[..i + 1];
      var candidate := candidates[i];
      if candidate.hostId in seen {
        assert seen + {candidate.hostId} == seen;
        continue;
      }
      seen := seen + {candidate.hostId};
      FirstOfNext(candidates, selected, at, i);
      selected, at := selected + [candidate], at + [i];
      if |selected| == count {
        return;
      }
    }
    assert candidates[..|candidates|] == candidates;
  }

  lemma HostsStep(placements: seq<Placement>, p: Placement)
    ensures HostsOf(placements + [p]) == HostsOf(placements) + {p.hostId}
  {
    assert forall q :: q in placements + [p] <==> q in placements || q == p;
  }

  lemma NewHost(placements: seq<Placement>, p: Placement)
    requires DistinctHosts(placements) && p.hostId !in HostsOf(placements)
    ensures DistinctHosts(placements + [p])
  {
    forall k | 0 <= k < |placements| ensures placements[k].hostId != p.hostId {
      assert placements[k] in placements && placements[k].hostId in HostsOf(placements);
    }
  }

  // --- The planner ---------------------------------------------------------------------------------------------

  function PolicyStageCount(policy: Policy): int {
    if policy.stageCount != 0 then policy.stageCount else |policy.stageLayerCounts|
  }

  /** Why a request is refused before any placement is looked at; NoReason when it is not. */
  function Refusal(layerCount: int, policy: Policy, candidates: seq<Placement>): Reason {
    var requested := PolicyStageCount(policy);
    if layerCount <= 0 then InvalidLayerCount
    else if requested < 0 then InvalidStageCount
    else if requested > layerCount then StageCountExceedsLayers
    else if !CountsOk(layerCount, requested, policy.stageLayerCounts) then InvalidStageLayerCounts
    else if candidates == [] then NoEligibleMembers
    else NoReason
  }

  /** Positions in the candidate list, none twice. */
  ghost predicate Positions(candidates: seq<Placement>, at: seq<nat>) {
    && (forall k :: 0 <= k < |at| ==> at[k] < |candidates|)
    && (forall i, j :: 0 <= i < j < |at| ==> at[i] != at[j])
  }

  /** Every stage runs on a candidate of its own. */
  ghost predicate FromCandidates(candidates: seq<Placement>, stages: seq<Stage>) {
    exists at :: |at| == |stages| && Positions(candidates, at)
                 && forall k :: 0 <= k < |at| ==> stages[k].nodeId == candidates[at[k]].nodeId
  }

  /** What every preview keeps: valid exactly when no reason is given, a valid one is a plan on distinct
      candidates, and the plan validator never finds a wrong index or range. */
  ghost predicate Sound(r: Preview, candidates: seq<Placement>, layerCount: int) {
    && (r.valid <==> r.reason.NoReason?)
    && !r.reason.InvalidStageIndices? && !r.reason.InvalidLayerRanges?
    && (r.valid ==> Plan(r.stages, layerCount) && FromCandidates(candidates, r.stages))
    && (r.valid && r.mode.DataParallel? ==> |r.stages| == 1)
  }

  /** Placements taken from different positions of the candidate list. */
  ghost predicate Chosen(candidates: seq<Placement>, placements: seq<Placement>) {
    exists at :: |at| == |placements| && Positions(candidates, at)
                 && forall k :: 0 <= k < |at| ==> placements[k] == candidates[at[k]]
  }

  lemma {:induction false} Locate(candidates: seq<Placement>, placements: seq<Placement>) returns (at: seq<nat>)
    requires forall k :: 0 <= k < |placements| ==> placements[k] in candidates
    ensures |at| == |placements| && forall k :: 0 <= k < |at| ==> at[k] < |candidates| && candidates[at[k]] == placements[k]
  {
    at := [];
    if placements != [] {
      var init, last := placements[..|placements| - 1], placements[|placements| - 1];
      var before := Locate(candidates, init);
      var n :| 0 <= n < |candidates| && candidates[n] == last;
      at := before + [n];
    }
  }

  lemma DifferentChosen(candidates: seq<Placement>, placements: seq<Placement>)
    requires forall k :: 0 <= k < |placements| ==> placements[k] in candidates
    requires forall i, j :: 0 <= i < j < |placements| ==> placements[i] != placements[j]
    ensures Chosen(candidates, placements)
  {
    var at := Locate(candidates, placements);
    assert Positions(candidates, at);
  }

  lemma PrefixChosen(candidates: seq<Placement>, n: nat)
    requires n <= |candidates|
    ensures Chosen(candidates, candidates[..n])
  {
    var at: seq<nat> := seq(n, k => k);
    assert Positions(candidates, at);
    assert forall k :: 0 <= k < |at| ==> candidates[..n][k] == candidates[at[k]];
  }

  lemma ChosenStages(candidates: seq<Placement>, placements: seq<Placement>, ranges: seq<Range>, stages: seq<Stage>)
    requires Chosen(candidates, placements) && StagesFrom(placements, ranges, stages)
    ensures FromCandidates(candidates, stages)
  {
    var at :| |at| == |placements| && Positions(candidates, at)
              && forall k :: 0 <= k < |at| ==> placements[k] == candidates[at[k]];
    assert forall k :: 0 <= k < |at| ==> stages[k].nodeId == candidates[at[k]].nodeId;
  }

  /** dataParallelPreview: one stage for the whole model. */
  method DataParallelPreview(candidates: seq<Placement>, p: Placement, layerCount: int) returns (r: Preview)
    requires layerCount > 0 && p in candidates
    requires p.reported ==> p.stageIndex == 0 && p.stageCount == 1 && p.layerStart == 0 && p.layerEnd == layerCount
    ensures Sound(r, candidates, layerCount) && r.valid && r.mode.DataParallel? && RunsOn(r.stages, [p], [], layerCount)
  {
    hide Tiles;
    var stages := BuildStages([p], layerCount, []);
    ghost var ranges :| Tiles(ranges, layerCount) && StagesFrom([p], ranges, stages);
    if p.reported {
      OneRange(p.layerStart, p.layerEnd);
      assert ReportedRanges([p]) == [Range(0, layerCount)];
      ReportedPlan([p], ranges, stages, layerCount);
    } else {
      UnreportedPlan([p], ranges, stages, layerCount);
    }
    DifferentChosen(candidates, [p]);
    ChosenStages(candidates, [p], ranges, stages);
    var reason := ValidateStagePlan(stages, layerCount);
    r := Preview(reason.NoReason?, reason, DataParallel, stages);
  }

  lemma OneRange(start: int, end: int)
    ensures start == 0 < end ==> Tiles([Range(start, end)], end)
  {
    assert [Range(start, end)][..0] == [];
  }

  /** pipelinePreview. */
  method PipelinePreview(candidates: seq<Placement>, placements: seq<Placement>, policy: Policy, layerCount: int) returns (r: Preview)
    requires layerCount > 0 && Chosen(candidates, placements)
    requires (forall p :: p in placements ==> !p.reported)
             || (Tiles(ReportedRanges(placements), layerCount) && forall i :: 0 <= i < |placements| ==> Reports(placements[i], |placements|, i))
    ensures Sound(r, candidates, layerCount) && r.mode.PipelineParallel?
    ensures Buildable(placements, layerCount, policy.stageLayerCounts) ==>
              r.reason == if (!DistinctHosts(placements)) && |placements| > 1 && !policy.allowColocated then ColocatedStagesDisallowed else NoReason
    ensures !Buildable(placements, layerCount, policy.stageLayerCounts) ==> r.reason == InvalidStageCount
    ensures if Buildable(placements, layerCount, policy.stageLayerCounts)
            then Plan(r.stages, layerCount) && RunsOn(r.stages, placements, policy.stageLayerCounts, layerCount) else r.stages == []
  {
    hide Tiles;
    var stages := BuildStages(placements, layerCount, policy.stageLayerCounts);
    if Buildable(placements, layerCount, policy.stageLayerCounts) {
      BuiltPlan(candidates, placements, layerCount, stages);
    }
    var reason := ValidateStagePlan(stages, layerCount);
    if !reason.NoReason? {
      return Preview(false, reason, PipelineParallel, stages);
    }
    var colocated := Colocated(placements);
    if colocated && |placements| > 1 && !policy.allowColocated {
      return Preview(false, ColocatedStagesDisallowed, PipelineParallel, stages);
    }
    r := Preview(true, NoReason, PipelineParallel, stages);
  }

  lemma BuiltPlan(candidates: seq<Placement>, placements: seq<Placement>, layerCount: int, stages: seq<Stage>)
    requires Chosen(candidates, placements)
    requires (forall p :: p in placements ==> !p.reported)
             || (Tiles(ReportedRanges(placements), layerCount) && forall i :: 0 <= i < |placements| ==> Reports(placements[i], |placements|, i))
    requires exists ranges :: Tiles(ranges, layerCount) && StagesFrom(placements, ranges, stages)
    ensures Plan(stages, layerCount) && FromCandidates(candidates, stages)
  {
    hide Tiles, FromCandidates;
    var ranges :| Tiles(ranges, layerCount) && StagesFrom(placements, ranges, stages);
    if forall p :: p in placements ==> !p.reported {
      UnreportedPlan(placements, ranges, stages, layerCount);
    } else {
      ReportedPlan(placements, ranges, stages, layerCount);
    }
    ChosenStages(candidates, placements, ranges, stages);
  }

  ghost predicate ExplicitExists(candidates: seq<Placement>, layerCount: int, requested: int) {
    exists ordered :: Explicit(candidates, layerCount, requested, ordered)
  }

  lemma ExplicitChosen(candidates: seq<Placement>, layerCount: int, requested: int, ordered: seq<Placement>)
    requires Explicit(candidates, layerCount, requested, ordered)
    ensures Chosen(candidates, ordered) && forall i :: 0 <= i < |ordered| ==> Reports(ordered[i], |ordered|, i)
  {
    hide Tiles;
    forall i | 0 <= i < |ordered| ensures ordered[i] in candidates && Reports(ordered[i], |ordered|, i) {
      assert First(candidates, |ordered|, i) == Some(ordered[i]);
    }
    DifferentChosen(candidates, ordered);
  }

  /** The node reports that it runs the whole model. */
  predicate Replica(p: Placement, layerCount: int) {
    p.reported && p.stageIndex == 0 && p.stageCount == 1 && p.layerStart == 0 && p.layerEnd == layerCount
  }

  /** The first candidate that does. */
  ghost predicate FirstReplica(candidates: seq<Placement>, layerCount: int, i: nat) {
    && i < |candidates| && Replica(candidates[i], layerCount)
    && forall k :: 0 <= k < i ==> !Replica(candidates[k], layerCount)
  }

  /** verifiedFullModelReplica. */
  method FullModelReplica(candidates: seq<Placement>, layerCount: int) returns (r: Option<Placement>)
    ensures r.Some? ==> exists i: nat :: FirstReplica(candidates, layerCount, i) && r.value == candidates[i]
    ensures r.None? <==> forall k :: 0 <= k < |candidates| ==> !Replica(candidates[k], layerCount)
  {
    for i := 0 to |candidates|
      invariant forall k :: 0 <= k < i ==> !Replica(candidates[k], layerCount)
    {
      var p := candidates[i];
      if p.reported && p.stageIndex == 0 && p.stageCount == 1 && p.layerStart == 0 && p.layerEnd == layerCount {
        assert FirstReplica(candidates, layerCount, i);
        return Some(p);
      }
    }
    r := None;
  }

  method ValidatePlanningRequest(layerCount: int, requested: int) returns (reason: Reason)
    ensures reason.NoReason? <==> layerCount > 0 && 0 <= requested <= layerCount
    ensures reason.InvalidLayerCount? <==> layerCount <= 0
    ensures reason.InvalidStageCount? <==> layerCount > 0 && requested < 0
    ensures reason.StageCountExceedsLayers? <==> 0 < layerCount < requested
  {
    if layerCount <= 0 {
      return InvalidLayerCount;
    }
    if requested < 0 {
      return InvalidStageCount;
    }
    if requested > layerCount {
      return StageCountExceedsLayers;
    }
    reason := NoReason;
  }

  method HasRuntimeAssignments(candidates: seq<Placement>) returns (reported: bool)
    ensures reported <==> exists p :: p in candidates && p.reported
  {
    for i := 0 to |candidates|
      invariant forall k :: 0 <= k < i ==> !candidates[k].reported
    {
      if candidates[i].reported {
        return true;
      }
    }
    reported := false;
  }

  /** A shortest complete reported pipeline. */
  ghost predicate Shortest(candidates: seq<Placement>, layerCount: int, requested: int, ordered: seq<Placement>) {
    && Explicit(candidates, layerCount, requested, ordered)
    && forall other :: Explicit(candidates, layerCount, requested, other) ==> |ordered| <= |other|
  }

  lemma ShortestUnique(candidates: seq<Placement>, layerCount: int, requested: int, a: seq<Placement>, b: seq<Placement>)
    requires Shortest(candidates, layerCount, requested, a) && Shortest(candidates, layerCount, requested, b)
    ensures a == b
  {
    hide Tiles, First;
    assert |a| == |b|;
    forall i | 0 <= i < |a| ensures a[i] == b[i] {
      assert First(candidates, |a|, i) == Some(a[i]) && First(candidates, |b|, i) == Some(b[i]);
    }
  }

  ghost predicate SomeReport(candidates: seq<Placement>) {
    exists p :: p in candidates && p.reported
  }

  ghost predicate SomeReplica(candidates: seq<Placement>, layerCount: int) {
    exists k :: 0 <= k < |candidates| && Replica(candidates[k], layerCount)
  }

  function FreshStageCount(layerCount: int, policy: Policy, candidates: seq<Placement>): int {
    if PolicyStageCount(policy) != 0 then PolicyStageCount(policy)
    else if |candidates| < layerCount then |candidates| else layerCount
  }

  /** One node for the whole model, when nothing is reported. */
  predicate Single(layerCount: int, policy: Policy, candidates: seq<Placement>, pipelineSupported: bool) {
    !pipelineSupported || FreshStageCount(layerCount, policy, candidates) <= 1 || |candidates| == 1
  }

  /** Reason for a plan on candidates that report nothing. */
  function FreshReason(layerCount: int, policy: Policy, candidates: seq<Placement>, pipelineSupported: bool): Reason {
    var count := FreshStageCount(layerCount, policy, candidates);
    if Single(layerCount, policy, candidates, pipelineSupported) then NoReason
    else if count > |candidates| then InsufficientStages
    else if |HostsOf(candidates)| < count && !policy.allowColocated then ColocatedStagesDisallowed
    else NoReason
  }

  /** Where a plan on candidates that report nothing puts its stages: on the first candidate, on the first of
      each host when there are enough hosts, or else on the first candidates. */
  ghost predicate FreshPlaces(layerCount: int, policy: Policy, candidates: seq<Placement>, pipelineSupported: bool, stages: seq<Stage>) {
    var count := FreshStageCount(layerCount, policy, candidates);
    if Single(layerCount, policy, candidates, pipelineSupported) then
      candidates != [] && RunsOn(stages, [candidates[0]], [], layerCount)
    else if |HostsOf(candidates)| >= count then
      exists chosen, at :: FirstOfHosts(candidates, chosen, at) && |chosen| == count
                           && RunsOn(stages, chosen, policy.stageLayerCounts, layerCount)
    else 0 <= count <= |candidates| && RunsOn(stages, candidates[..count], policy.stageLayerCounts, layerCount)
  }

  /** Where the stages of a valid preview are, case by case like its reason. */
  ghost predicate Places(candidates: seq<Placement>, layerCount: int, policy: Policy, pipelineSupported: bool, stages: seq<Stage>) {
    if pipelineSupported && ExplicitExists(candidates, layerCount, policy.stageCount) then
      exists ordered :: Shortest(candidates, layerCount, policy.stageCount, ordered)
                        && RunsOn(stages, ordered, policy.stageLayerCounts, layerCount)
    else if SomeReport(candidates) then
      exists i: nat :: FirstReplica(candidates, layerCount, i) && RunsOn(stages, [candidates[i]], [], layerCount)
    else FreshPlaces(layerCount, policy, candidates, pipelineSupported, stages)
  }

  /** The stages a preview shows: a plan at those places, when it is valid or only its hosts are refused. */
  ghost predicate Shows(candidates: seq<Placement>, layerCount: int, policy: Policy, pipelineSupported: bool, r: Preview) {
    if r.valid || r.reason.ColocatedStagesDisallowed?
    then Plan(r.stages, layerCount) && Places(candidates, layerCount, policy, pipelineSupported, r.stages) else r.stages == []
  }

  /** Reason for the pipeline that the runtimes report. */
  ghost function ReportedReason(ordered: seq<Placement>, policy: Policy): Reason {
    if policy.stageLayerCounts != [] && |policy.stageLayerCounts| != |ordered| then InvalidStageCount
    else if !DistinctHosts(ordered) && !policy.allowColocated then ColocatedStagesDisallowed
    else NoReason
  }

  /** The reason and the mode of a preview, case by case: a refused request, a complete reported pipeline,
      other reports with or without a full replica, or a plan from scratch. */
  ghost predicate Decides(candidates: seq<Placement>, layerCount: int, policy: Policy, pipelineSupported: bool, reason: Reason, mode: Mode) {
    var refusal := Refusal(layerCount, policy, candidates);
    if !refusal.NoReason? then reason == refusal && mode == NoMode
    else if pipelineSupported && ExplicitExists(candidates, layerCount, policy.stageCount) then
      mode == PipelineParallel &&
      exists ordered :: Shortest(candidates, layerCount, policy.stageCount, ordered) && reason == ReportedReason(ordered, policy)
    else if SomeReport(candidates) then
      if SomeReplica(candidates, layerCount) then reason == NoReason && mode == DataParallel
      else reason == IncompleteRuntimeAssignments && mode == NoMode
    else
      && reason == FreshReason(layerCount, policy, candidates, pipelineSupported)
      && mode == (if Single(layerCount, policy, candidates, pipelineSupported) then DataParallel
                  else if reason.InsufficientStages? then NoMode else PipelineParallel)
  }

  /** Preview after the candidates are collected. On every input the result is sound, and its reason
      and mode are the ones of its case. */
  method PlanRoute(candidates: seq<Placement>, layerCount: int, policy: Policy, pipelineSupported: bool) returns (r: Preview)
    ensures Sound(r, candidates, layerCount)
    ensures Decides(candidates, layerCount, policy, pipelineSupported, r.reason, r.mode)
    ensures Shows(candidates, layerCount, policy, pipelineSupported, r)
  {
    hide Tiles, Plan, FromCandidates, Explicit, Chosen, FreshReason, FreshPlaces, Single, DistinctHosts, RunsOn;
    var requested := PolicyStageCount(policy);
    var refusal := ValidatePlanningRequest(layerCount, requested);
    if refusal.NoReason? {
      refusal := ValidateStageLayerCounts(layerCount, requested, policy.stageLayerCounts);
    }
    if refusal.NoReason? && candidates == [] {
      refusal := NoEligibleMembers;
    }
    if !refusal.NoReason? {
      return Preview(false, refusal, NoMode, []);
    }
    if pipelineSupported {
      var explicit := ExplicitPipelinePlacements(candidates, layerCount, policy.stageCount);
      if explicit.Some? {
        ExplicitFits(candidates, layerCount, policy, explicit.value);
        assert Shortest(candidates, layerCount, policy.stageCount, explicit.value);
        r := PipelinePreview(candidates, explicit.value, policy, layerCount);
        assert r.reason == ReportedReason(explicit.value, policy);
        return;
      }
    }
    var reported := HasRuntimeAssignments(candidates);
    if reported {
      var replica := FullModelReplica(candidates, layerCount);
      if replica.Some? {
        ghost var i: nat :| FirstReplica(candidates, layerCount, i) && replica.value == candidates[i];
        assert candidates[i] in candidates;
        r := DataParallelPreview(candidates, replica.value, layerCount);
        return;
      }
      return Preview(false, IncompleteRuntimeAssignments, NoMode, []);
    }
    r := PlanFresh(candidates, layerCount, policy, pipelineSupported);
  }

  /** A preview is valid exactly when the request is not refused and either the reported pipeline fits the
      configured split and the host policy, or a replica reports the whole model, or nothing is reported
      and there are enough nodes and hosts. */
  lemma ValidExactly(r: Preview, candidates: seq<Placement>, layerCount: int, policy: Policy, pipelineSupported: bool)
    requires Sound(r, candidates, layerCount) && Decides(candidates, layerCount, policy, pipelineSupported, r.reason, r.mode)
    ensures r.valid <==>
            && Refusal(layerCount, policy, candidates).NoReason?
            && if pipelineSupported && ExplicitExists(candidates, layerCount, policy.stageCount) then
                 exists ordered :: Shortest(candidates, layerCount, policy.stageCount, ordered) && ReportedReason(ordered, policy).NoReason?
               else if SomeReport(candidates) then SomeReplica(candidates, layerCount)
               else FreshReason(layerCount, policy, candidates, pipelineSupported).NoReason?
  {
    hide Tiles, Plan, FromCandidates, Explicit, FreshReason, Single, ReportedReason;
    if pipelineSupported && Refusal(layerCount, policy, candidates).NoReason? && ExplicitExists(candidates, layerCount, policy.stageCount) {
      var a :| Shortest(candidates, layerCount, policy.stageCount, a) && r.reason == ReportedReason(a, policy);
      forall b | Shortest(candidates, layerCount, policy.stageCount, b) ensures a == b {
        ShortestUnique(candidates, layerCount, policy.stageCount, a, b);
      }
    }
  }

  // --- One preview for a request ----------------------------------------------------------------------------

  /** In a tiling every range starts where the one before it ends. */
  lemma {:induction false} TilesAt(ranges: seq<Range>, upTo: int, k: nat)
    requires Tiles(ranges, upTo) && k < |ranges|
    ensures ranges[k].start == if k == 0 then 0 else ranges[k - 1].end
    decreases |ranges|
  {
    var init := ranges[..|ranges| - 1];
    if k < |init| {
      TilesAt(init, ranges[|ranges| - 1].start, k);
    } else if k > 0 {
      assert init[|init| - 1].end == ranges[|ranges| - 1].start;
    }
  }

  lemma StageStarts(stages: seq<Stage>, layerCount: int, k: nat)
    requires Plan(stages, layerCount) && k < |stages|
    ensures stages[k].layerStart == if k == 0 then 0 else stages[k - 1].layerEnd
  {
    hide Tiles;
    TilesAt(RangesOf(stages), layerCount, k);
  }

  lemma {:induction false} SameRanges(a: seq<Stage>, b: seq<Stage>, placements: seq<Placement>, counts: seq<int>, layerCount: int, k: nat)
    requires Plan(a, layerCount) && Plan(b, layerCount) && k < |placements|
    requires RunsOn(a, placements, counts, layerCount) && RunsOn(b, placements, counts, layerCount)
    ensures a[k] == b[k]
  {
    hide Tiles;
    StageStarts(a, layerCount, k);
    StageStarts(b, layerCount, k);
    if k > 0 {
      SameRanges(a, b, placements, counts, layerCount, k - 1);
    }
  }

  /** Placements and widths leave one plan. */
  lemma SameStages(a: seq<Stage>, b: seq<Stage>, placements: seq<Placement>, counts: seq<int>, layerCount: int)
    requires Plan(a, layerCount) && Plan(b, layerCount)
    requires RunsOn(a, placements, counts, layerCount) && RunsOn(b, placements, counts, layerCount)
    ensures a == b
  {
    forall k | 0 <= k < |placements| ensures a[k] == b[k] { SameRanges(a, b, placements, counts, layerCount, k); }
  }

  lemma {:induction false} SameHosts(candidates: seq<Placement>, a: seq<Placement>, at: seq<nat>, b: seq<Placement>, bt: seq<nat>, k: nat)
    requires FirstOfHosts(candidates, a, at) && FirstOfHosts(candidates, b, bt) && |a| == |b| && k <= |a|
    ensures a[..k] == b[..k]
  {
    hide HostsOf;
    if k > 0 {
      var n := k - 1;
      SameHosts(candidates, a, at, b, bt, n);
      NewAt(candidates, a, at, n);
      NewAt(candidates, b, bt, n);
      assert a[..k] == a[..n] + [a[n]] && b[..k] == b[..n] + [b[n]];
    }
  }

  lemma NewAt(candidates: seq<Placement>, selected: seq<Placement>, at: seq<nat>, n: nat)
    requires FirstOfHosts(candidates, selected, at) && n < |selected|
    ensures candidates[at[n]].hostId !in HostsOf(selected[..n])
  {
    assert forall p :: p in selected[..n] ==> p.hostId != selected[n].hostId;
  }

  lemma FirstReplicaUnique(candidates: seq<Placement>, layerCount: int, i: nat, j: nat)
    requires FirstReplica(candidates, layerCount, i) && FirstReplica(candidates, layerCount, j)
    ensures i == j
  {
  }

  lemma SameFresh(layerCount: int, policy: Policy, candidates: seq<Placement>, pipelineSupported: bool, a: seq<Stage>, b: seq<Stage>)
    requires Plan(a, layerCount) && FreshPlaces(layerCount, policy, candidates, pipelineSupported, a)
    requires Plan(b, layerCount) && FreshPlaces(layerCount, policy, candidates, pipelineSupported, b)
    ensures a == b
  {
    hide Plan, RunsOn, FirstOfHosts, HostsOf;
    var count := FreshStageCount(layerCount, policy, candidates);
    if Single(layerCount, policy, candidates, pipelineSupported) {
      SameStages(a, b, [candidates[0]], [], layerCount);
    } else if |HostsOf(candidates)| >= count {
      var c, at :| FirstOfHosts(candidates, c, at) && |c| == count && RunsOn(a, c, policy.stageLayerCounts, layerCount);
      var d, bt :| FirstOfHosts(candidates, d, bt) && |d| == count && RunsOn(b, d, policy.stageLayerCounts, layerCount);
      SameHosts(candidates, c, at, d, bt, |c|);
      assert c[..|c|] == c && d[..|d|] == d;
      SameStages(a, b, c, policy.stageLayerCounts, layerCount);
    } else {
      SameStages(a, b, candidates[..count], policy.stageLayerCounts, layerCount);
    }
  }

  lemma SamePlaces(candidates: seq<Placement>, layerCount: int, policy: Policy, pipelineSupported: bool, a: seq<Stage>, b: seq<Stage>)
    requires Plan(a, layerCount) && Places(candidates, layerCount, policy, pipelineSupported, a)
    requires Plan(b, layerCount) && Places(candidates, layerCount, policy, pipelineSupported, b)
    ensures a == b
  {
    hide Plan, RunsOn, Shortest, FreshPlaces;
    if pipelineSupported && ExplicitExists(candidates, layerCount, policy.stageCount) {
      var c :| Shortest(candidates, layerCount, policy.stageCount, c) && RunsOn(a, c, policy.stageLayerCounts, layerCount);
      var d :| Shortest(candidates, layerCount, policy.stageCount, d) && RunsOn(b, d, policy.stageLayerCounts, layerCount);
      ShortestUnique(candidates, layerCount, policy.stageCount, c, d);
      SameStages(a, b, c, policy.stageLayerCounts, layerCount);
    } else if SomeReport(candidates) {
      var i: nat :| FirstReplica(candidates, layerCount, i) && RunsOn(a, [candidates[i]], [], layerCount);
      var j: nat :| FirstReplica(candidates, layerCount, j) && RunsOn(b, [candidates[j]], [], layerCount);
      FirstReplicaUnique(candidates, layerCount, i, j);
      SameStages(a, b, [candidates[i]], [], layerCount);
    } else {
      SameFresh(layerCount, policy, candidates, pipelineSupported, a, b);
    }
  }

  lemma SameReason(candidates: seq<Placement>, layerCount: int, policy: Policy, pipelineSupported: bool, r: Reason, m: Mode, s: Reason, n: Mode)
    requires Decides(candidates, layerCount, policy, pipelineSupported, r, m)
    requires Decides(candidates, layerCount, policy, pipelineSupported, s, n)
    ensures r == s && m == n
  {
    hide Explicit, Shortest, FreshReason, Single, ReportedReason, SomeReport, SomeReplica;
    forall a, b | Shortest(candidates, layerCount, policy.stageCount, a) && Shortest(candidates, layerCount, policy.stageCount, b) ensures a == b {
      ShortestUnique(candidates, layerCount, policy.stageCount, a, b);
    }
  }

  /** A request has one preview: validity, reason, mode and every stage are determined by the candidates in
      their order, the layers, the policy and whether pipelines are supported. */
  lemma PreviewDetermined(candidates: seq<Placement>, layerCount: int, policy: Policy, pipelineSupported: bool, r: Preview, s: Preview)
    requires Sound(r, candidates, layerCount) && Sound(s, candidates, layerCount)
    requires Decides(candidates, layerCount, policy, pipelineSupported, r.reason, r.mode)
    requires Decides(candidates, layerCount, policy, pipelineSupported, s.reason, s.mode)
    requires Shows(candidates, layerCount, policy, pipelineSupported, r) && Shows(candidates, layerCount, policy, pipelineSupported, s)
    ensures r == s
  {
    hide Plan, FromCandidates, Decides, Places;
    SameReason(candidates, layerCount, policy, pipelineSupported, r.reason, r.mode, s.reason, s.mode);
    if r.valid || r.reason.ColocatedStagesDisallowed? {
      SamePlaces(candidates, layerCount, policy, pipelineSupported, r.stages, s.stages);
    }
  }

  /** The stage-count reason behind an accepted request means a reported pipeline of another length than
      the configured split, and only that. */
  lemma StageCountReason(candidates: seq<Placement>, layerCount: int, policy: Policy, pipelineSupported: bool, reason: Reason, mode: Mode)
    requires Decides(candidates, layerCount, policy, pipelineSupported, reason, mode) && Refusal(layerCount, policy, candidates).NoReason?
    ensures reason.InvalidStageCount? <==>
            && pipelineSupported && policy.stageLayerCounts != []
            && exists ordered :: Shortest(candidates, layerCount, policy.stageCount, ordered) && |ordered| != |policy.stageLayerCounts|
  {
    hide Tiles, Explicit, DistinctHosts;
    forall a, b | Shortest(candidates, layerCount, policy.stageCount, a) && Shortest(candidates, layerCount, policy.stageCount, b) ensures a == b {
      ShortestUnique(candidates, layerCount, policy.stageCount, a, b);
    }
    forall a | Shortest(candidates, layerCount, policy.stageCount, a) ensures ExplicitExists(candidates, layerCount, policy.stageCount) {}
  }

  const LEFT := Placement("a", "h", true, 0, 2, 0, 3)
  const RIGHT := Placement("b", "g", true, 1, 2, 3, 6)

  lemma TwoNotRefused()
    ensures Refusal(6, Policy(false, 0, [2, 2, 2]), [LEFT, RIGHT]) == NoReason
  {
    var counts := [2, 2, 2];
    assert counts[..2] == [2, 2] && [2, 2][..1] == [2] && [2][..0] == [];
    assert Sum([2]) == 2 && Sum([2, 2]) == 4 && Sum(counts) == 6;
  }

  lemma TwoReport()
    ensures Shortest([LEFT, RIGHT], 6, 0, [LEFT, RIGHT])
  {
    var candidates := [LEFT, RIGHT];
    assert candidates[..1] == [LEFT] && [LEFT][..0] == [];
    assert First([LEFT], 2, 0) == Some(LEFT) && First([LEFT], 2, 1) == None;
    assert First(candidates, 2, 0) == Some(LEFT) && First(candidates, 2, 1) == Some(RIGHT);
    var ranges := ReportedRanges(candidates);
    assert ranges == [Range(0, 3), Range(3, 6)] && ranges[..1] == [Range(0, 3)] && [Range(0, 3)][..0] == [];
    assert Tiles([Range(0, 3)], 3);
    assert Tiles(ranges, 6);
    assert Explicit(candidates, 6, 0, candidates);
  }

  /** Such a request: six layers to be split two, two, two, and two nodes that already run three each. */
  lemma SplitAgainstReports(reason: Reason, mode: Mode)
    requires Decides([LEFT, RIGHT], 6, Policy(false, 0, [2, 2, 2]), true, reason, mode)
    ensures reason == InvalidStageCount
  {
    hide Decides, Refusal, Shortest;
    TwoNotRefused();
    TwoReport();
    StageCountReason([LEFT, RIGHT], 6, Policy(false, 0, [2, 2, 2]), true, reason, mode);
  }

  lemma ExplicitFits(candidates: seq<Placement>, layerCount: int, policy: Policy, ordered: seq<Placement>)
    requires Refusal(layerCount, policy, candidates).NoReason? && Explicit(candidates, layerCount, policy.stageCount, ordered)
    ensures Chosen(candidates, ordered) && Tiles(ReportedRanges(ordered), layerCount) && |ordered| > 1
    ensures forall i :: 0 <= i < |ordered| ==> Reports(ordered[i], |ordered|, i)
    ensures Buildable(ordered, layerCount, policy.stageLayerCounts) <==>
            policy.stageLayerCounts == [] || |policy.stageLayerCounts| == |ordered|
  {
    hide First;
    ExplicitChosen(candidates, layerCount, policy.stageCount, ordered);
    TilesNonNegative(ReportedRanges(ordered), layerCount);
  }

  /** The rest of Preview: no candidate reports an assignment. */
  method PlanFresh(candidates: seq<Placement>, layerCount: int, policy: Policy, pipelineSupported: bool) returns (r: Preview)
    requires Refusal(layerCount, policy, candidates).NoReason? && forall p :: p in candidates ==> !p.reported
    ensures Sound(r, candidates, layerCount)
    ensures r.reason == FreshReason(layerCount, policy, candidates, pipelineSupported)
    ensures r.mode == if Single(layerCount, policy, candidates, pipelineSupported) then DataParallel
                      else if r.reason.InsufficientStages? then NoMode else PipelineParallel
    ensures if r.reason.InsufficientStages? then r.stages == []
            else Plan(r.stages, layerCount) && FreshPlaces(layerCount, policy, candidates, pipelineSupported, r.stages)
    ensures var nodes := |candidates|;
            var wanted := if policy.stageCount != 0 then policy.stageCount
                          else if policy.stageLayerCounts != [] then |policy.stageLayerCounts|
                          else if nodes < layerCount then nodes else layerCount;
            && (r.mode.DataParallel? <==> !pipelineSupported || wanted <= 1 || nodes == 1)
            && (r.reason.InsufficientStages? <==> pipelineSupported && 1 < nodes < wanted)
            && (r.reason.ColocatedStagesDisallowed? <==>
                  pipelineSupported && 1 < wanted <= nodes && |HostsOf(candidates)| < wanted && !policy.allowColocated)
            && (r.valid <==> !r.reason.InsufficientStages? && !r.reason.ColocatedStagesDisallowed?)
  {
    hide Tiles, Plan, FromCandidates, Chosen, DistinctHosts, HostsOf, RunsOn, FirstOfHosts;
    var requested := PolicyStageCount(policy);
    if requested == 0 {
      requested := if |candidates| < layerCount then |candidates| else layerCount;
    }
    if !pipelineSupported || requested <= 1 || |candidates| == 1 {
      r := DataParallelPreview(candidates, candidates[0], layerCount);
      return;
    }
    if requested > |candidates| {
      return Preview(false, InsufficientStages, NoMode, []);
    }
    var distributed, at := SelectDistinctHosts(candidates, requested);
    HostsNeeded(candidates, distributed, requested);
    if |distributed| == requested {
      DistinctChosen(candidates, distributed);
      r := PipelinePreview(candidates, distributed, policy, layerCount);
      return;
    }
    PrefixChosen(candidates, requested);
    r := PipelinePreview(candidates, candidates[..requested], policy, layerCount);
  }

  lemma DistinctChosen(candidates: seq<Placement>, placements: seq<Placement>)
    requires DistinctHosts(placements) && forall p :: p in placements ==> p in candidates
    ensures Chosen(candidates, placements)
  {
    DifferentChosen(candidates, placements);
  }

  lemma {:induction false} HostCount(placements: seq<Placement>)
    ensures |HostsOf(placements)| <= |placements|
    ensures DistinctHosts(placements) ==> |HostsOf(placements)| == |placements|
  {
    if placements != [] {
      var init, last := placements[..|placements| - 1], placements[|placements| - 1];
      HostCount(init);
      HostsStep(init, last);
      assert init + [last] == placements;
    }
  }

  lemma {:induction false} FewerHosts(small: set<string>, large: set<string>)
    requires small <= large
    ensures |small| <= |large|
  {
    if small != {} {
      var h :| h in small;
      FewerHosts(small - {h}, large - {h});
    }
  }

  /** The selection is full exactly when there are enough hosts; otherwise any prefix repeats a host. */
  lemma HostsNeeded(candidates: seq<Placement>, selected: seq<Placement>, count: nat)
    requires count <= |candidates| && |selected| <= count && DistinctHosts(selected)
    requires forall p :: p in selected ==> p in candidates
    requires |selected| < count ==> HostsOf(selected) == HostsOf(candidates)
    ensures |selected| == count <==> |HostsOf(candidates)| >= count
    ensures |selected| < count ==> !DistinctHosts(candidates[..count])
  {
    HostCount(selected);
    HostCount(candidates[..count]);
    FewerHosts(HostsOf(selected), HostsOf(candidates));
    FewerHosts(HostsOf(candidates[..count]), HostsOf(candidates));
  }

  // --- Deployment ----------------------------------------------------------------------------------------------

  /** The stage checks of validateDeploymentPlan; trim is strings.TrimSpace. */
  method ValidateDeploymentStages(trim: string -> string, stages: seq<Stage>, layerCount: int) returns (ok: bool)
    ensures ok <==> Deployable(trim, stages, layerCount)
  {
    hide Tiles;
    if stages == [] {
      return false;
    }
    var seen: set<string> := {};
    var expectedStart := 0;
    NothingPlanned(stages);
    for index := 0 to |stages|
      invariant PlannedSoFar(stages, index, expectedStart)
      invariant forall k :: 0 <= k < index ==> trim(stages[k].nodeId) != "" && trim(stages[k].nodeId) in seen
      invariant forall id :: id in seen ==> exists k :: 0 <= k < index && trim(stages[k].nodeId) == id
      invariant forall i, j :: 0 <= i < j < index ==> trim(stages[i].nodeId) != trim(stages[j].nodeId)
    {
      NextStage(stages, layerCount, index, expectedStart);
      var stage := stages[index];
      if stage.stageIndex != index || stage.stageCount != |stages| {
        return false;
      }
      var nodeId := trim(stage.nodeId);
      if nodeId == "" || nodeId in seen {
        return false;
      }
      seen := seen + {nodeId};
      if stage.layerStart != expectedStart || stage.layerEnd <= stage.layerStart {
        return false;
      }
      expectedStart := stage.layerEnd;
    }
    LastStage(stages, layerCount, expectedStart);
    ok := expectedStart == layerCount;
  }

  ghost predicate Deployable(trim: string -> string, stages: seq<Stage>, layerCount: int) {
    && Plan(stages, layerCount)
    && (forall k :: 0 <= k < |stages| ==> trim(stages[k].nodeId) != "")
    && (forall i, j :: 0 <= i < j < |stages| ==> trim(stages[i].nodeId) != trim(stages[j].nodeId))
  }

  /** For members with distinct non-blank node IDs, every valid preview passes the deployment checks. */
  lemma ValidPreviewDeploys(trim: string -> string, r: Preview, candidates: seq<Placement>, layerCount: int)
    requires Sound(r, candidates, layerCount) && r.valid
    requires forall k :: 0 <= k < |candidates| ==> trim(candidates[k].nodeId) != ""
    requires forall i, j :: 0 <= i < j < |candidates| ==> trim(candidates[i].nodeId) != trim(candidates[j].nodeId)
    ensures Deployable(trim, r.stages, layerCount)
  {
    hide Tiles;
    var at :| |at| == |r.stages| && Positions(candidates, at)
              && forall k :: 0 <= k < |at| ==> r.stages[k].nodeId == candidates[at[k]].nodeId;
    forall i, j | 0 <= i < j < |r.stages| ensures trim(r.stages[i].nodeId) != trim(r.stages[j].nodeId) {
      assert at[i] != at[j];
    }
  }

  /** In a valid preview every layer is run by exactly one stage. */
  lemma OneStagePerLayer(r: Preview, candidates: seq<Placement>, layerCount: int, layer: int)
    requires Sound(r, candidates, layerCount) && r.valid && 0 <= layer < layerCount
    ensures exists i :: 0 <= i < |r.stages| && Owns(RangesOf(r.stages)[i], layer)
    ensures var ranges := RangesOf(r.stages);
            forall i, j :: 0 <= i < |ranges| && 0 <= j < |ranges| && Owns(ranges[i], layer) && Owns(ranges[j], layer) ==> i == j
  {
    ExactlyOneOwner(RangesOf(r.stages), layerCount, layer);
  }
}
