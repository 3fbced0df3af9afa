/** The benchmark plan of all cohorts (benchmark/competitors/plan.js, lines 53-87). */
module CohortPlan {
  import opened Common
  import opened Grouping
  import opened Williams

  datatype Lane = Lane(id: string, moduleId: string, transportId: string, cohortId: string)

  datatype Trial = Trial(
    block: nat, cohortId: string, laneId: string, moduleId: string,
    orderIndex: nat, payloadBytes: int, transportId: string, workload: string)

  datatype Samples = Same(n: int) | PerCohort(counts: map<string, int>)

  // ----- cohorts -----

  function CohortId(lane: Lane): string {
    lane.cohortId
  }

  /** The lanes of one cohort, in lane order. */
  function CohortOf(lanes: seq<Lane>, id: string): seq<Lane> {
    GroupOf(lanes, CohortId, id)
  }

  /** Cohort ids in the order the Map iterates in. */
  function CohortOrder(lanes: seq<Lane>): seq<string> {
    GroupOrder(lanes, CohortId)
  }

  method GroupCohorts(lanes: seq<Lane>) returns (order: seq<string>, cohorts: map<string, seq<Lane>>)
    ensures order == CohortOrder(lanes)
    ensures cohorts.Keys == set id | id in order
    ensures forall id :: id in cohorts ==> cohorts[id] == CohortOf(lanes, id)
  {
    order, cohorts := Group(lanes, CohortId);
  }

  lemma CohortLanes(lanes: seq<Lane>, id: string)
    ensures forall lane :: lane in CohortOf(lanes, id) <==> lane in lanes && lane.cohortId == id
    ensures Distinct(lanes) ==> Distinct(CohortOf(lanes, id))
    ensures id in CohortOrder(lanes) <==> CohortOf(lanes, id) != []
    ensures Distinct(CohortOrder(lanes))
    ensures |CohortOf(lanes, id)| <= |lanes|
  {
    GroupFacts(lanes, CohortId, id);
    GroupNotLarger(lanes, CohortId, id);
  }

  // ----- the plan as nested sequences -----

  function TrialOf(block: nat, lane: Lane, p: nat, payload: int, workload: string): Trial {
    Trial(block, lane.cohortId, lane.id, lane.moduleId, p, payload, lane.transportId, workload)
  }

  function CellTrials(cohort: seq<Lane>, block: nat, shift: nat, payload: int, workload: string): (r: seq<Trial>)
    ensures |r| == |cohort|
  {
    var row := Row(cohort, block + shift);
    seq(|cohort|, p requires 0 <= p < |cohort| => TrialOf(block, row[p], p, payload, workload))
  }

  function PayloadTrials(cohort: seq<Lane>, block: nat, pi: nat, payload: int, workloads: seq<string>): seq<Trial>
    decreases |workloads|
  {
    if workloads == [] then []
    else
      var w := |workloads| - 1;
      PayloadTrials(cohort, block, pi, payload, workloads[..w]) + CellTrials(cohort, block, pi + w, payload, workloads[w])
  }

  function BlockTrials(cohort: seq<Lane>, block: nat, payloads: seq<int>, workloads: seq<string>): seq<Trial>
    decreases |payloads|
  {
    if payloads == [] then []
    else
      var p := |payloads| - 1;
      BlockTrials(cohort, block, payloads[..p], workloads) + PayloadTrials(cohort, block, p, payloads[p], workloads)
  }

  function CohortTrials(cohort: seq<Lane>, blocks: nat, payloads: seq<int>, workloads: seq<string>): seq<Trial> {
    if blocks == 0 then []
    else CohortTrials(cohort, blocks - 1, payloads, workloads) + BlockTrials(cohort, blocks - 1, payloads, workloads)
  }

  function SamplesFor(samples: Samples, id: string): Option<int> {
    match samples
    case Same(n) => Some(n)
    case PerCohort(counts) => if id in counts then Some(counts[id]) else None
  }

  predicate GoodSamples(samples: Samples, id: string) {
    SamplesFor(samples, id).Some? && 1 <= SamplesFor(samples, id).value <= MAX_SAFE
  }

  /** The largest block number asked of williamsOrder is still a safe integer. */
  predicate BlocksSafe(blocks: int, payloads: seq<int>, workloads: seq<string>) {
    payloads == [] || workloads == [] || blocks - 1 + (|payloads| - 1) + (|workloads| - 1) <= MAX_SAFE
  }

  predicate Plannable(samples: Samples, ids: seq<string>, payloads: seq<int>, workloads: seq<string>) {
    forall k :: 0 <= k < |ids| ==>
      GoodSamples(samples, ids[k]) && BlocksSafe(SamplesFor(samples, ids[k]).value, payloads, workloads)
  }

  ghost predicate FirstBad(k: nat, samples: Samples, ids: seq<string>, payloads: seq<int>, workloads: seq<string>) {
    k < |ids| && Plannable(samples, ids[..k], payloads, workloads) && !Plannable(samples, ids[..k + 1], payloads, workloads)
  }

  /** The error names the first cohort that has no proper sample count, or says that its blocks run out of integers. */
  ghost predicate FailsAt(error: PlanError, samples: Samples, ids: seq<string>, payloads: seq<int>, workloads: seq<string>) {
    exists k: nat :: FirstBad(k, samples, ids, payloads, workloads)
      && error == if GoodSamples(samples, ids[k]) then BadBlock else BadSamples(ids[k])
  }

  function PlanTrials(lanes: seq<Lane>, ids: seq<string>, samples: Samples, payloads: seq<int>, workloads: seq<string>): seq<Trial>
    requires Plannable(samples, ids, payloads, workloads)
    decreases |ids|
  {
    if ids == [] then []
    else
      var id := ids[|ids| - 1];
      PlanTrials(lanes, ids[..|ids| - 1], samples, payloads, workloads)
      + CohortTrials(CohortOf(lanes, id), SamplesFor(samples, id).value, payloads, workloads)
  }

  method PlanCell(cohort: seq<Lane>, block: nat, shift: nat, payload: int, workload: string)
    returns (r: Result<seq<Trial>, PlanError>)
    requires cohort != [] && |cohort| <= MAX_SAFE
    ensures if block + shift <= MAX_SAFE then r.Ok? else r == Err(BadBlock)
    ensures r.Ok? ==> r.value == CellTrials(cohort, block, shift, payload, workload)
  {
    hide Row;
    var order := WilliamsOrder(cohort, block + shift);
    if order.Err? { return Err(order.error); }
    var cell: seq<Trial> := [];
    for p := 0 to |order.value|
      invariant |cell| == p && forall k :: 0 <= k < p ==> cell[k] == TrialOf(block, order.value[k], k, payload, workload)
    {
      cell := cell + [TrialOf(block, order.value[p], p, payload, workload)];
    }
    assert cell == CellTrials(cohort, block, shift, payload, workload);
    return Ok(cell);
  }

  method PlanBlock(cohort: seq<Lane>, block: nat, payloads: seq<int>, workloads: seq<string>)
    returns (r: Result<seq<Trial>, PlanError>)
    requires cohort != [] && |cohort| <= MAX_SAFE && block <= MAX_SAFE
    ensures if BlocksSafe(block + 1, payloads, workloads) then r.Ok? else r == Err(BadBlock)
    ensures r.Ok? ==> r.value == BlockTrials(cohort, block, payloads, workloads)
  {
    hide CellTrials;
    var plan: seq<Trial> := [];
    for pi := 0 to |payloads|
      invariant plan == BlockTrials(cohort, block, payloads[..pi], workloads)
      invariant pi == 0 || BlocksSafe(block + 1, payloads[..pi], workloads)
    {
      assert payloads[..pi + 1][..pi] == payloads[..pi];
      for wi := 0 to |workloads|
        invariant plan == BlockTrials(cohort, block, payloads[..pi], workloads)
                        + PayloadTrials(cohort, block, pi, payloads[pi], workloads[..wi])
        invariant wi == 0 || block + pi + wi - 1 <= MAX_SAFE
      {
        assert workloads[..wi + 1][..wi] == workloads[..wi];
        var cell := PlanCell(cohort, block, pi + wi, payloads[pi], workloads[wi]);
        if cell.Err? { return cell; }
        plan := plan + cell.value;
      }
      assert workloads[..|workloads|] == workloads;
    }
    assert payloads[..|payloads|] == payloads;
    return Ok(plan);
  }

  method PlanCohort(cohort: seq<Lane>, blocks: nat, payloads: seq<int>, workloads: seq<string>)
    returns (r: Result<seq<Trial>, PlanError>)
    requires cohort != [] && |cohort| <= MAX_SAFE && 1 <= blocks <= MAX_SAFE
    ensures if BlocksSafe(blocks, payloads, workloads) then r.Ok? else r == Err(BadBlock)
    ensures r.Ok? ==> r.value == CohortTrials(cohort, blocks, payloads, workloads)
  {
    hide BlockTrials;
    var plan: seq<Trial> := [];
    for block := 0 to blocks
      invariant plan == CohortTrials(cohort, block, payloads, workloads)
      invariant block == 0 || BlocksSafe(block, payloads, workloads)
    {
      var trials := PlanBlock(cohort, block, payloads, workloads);
      if trials.Err? { return trials; }
      plan := plan + trials.value;
    }
    return Ok(plan);
  }

  method BuildCohortPlan(lanes: seq<Lane>, payloads: seq<int>, workloads: seq<string>, samples: Samples)
    returns (r: Result<seq<Trial>, PlanError>)
    requires |lanes| <= MAX_SAFE
    ensures r.Ok? <==> Plannable(samples, CohortOrder(lanes), payloads, workloads)
    ensures r.Ok? ==> r.value == PlanTrials(lanes, CohortOrder(lanes), samples, payloads, workloads)
    ensures r.Err? ==> FailsAt(r.error, samples, CohortOrder(lanes), payloads, workloads)
  {
    hide CohortTrials, CohortOf, CohortOrder, BlocksSafe;
    var order, cohorts := GroupCohorts(lanes);
    var plan: seq<Trial> := [];
    for k := 0 to |order|
      invariant Plannable(samples, order[..k], payloads, workloads)
      invariant plan == PlanTrials(lanes, order[..k], samples, payloads, workloads)
    {
      var id := order[k];
      var cohort := cohorts[id];
      CohortLanes(lanes, id);
      assert order[..k + 1][..k] == order[..k];
      var count := SamplesFor(samples, id);
      if count.None? || !IsSafeInteger(count.value) || count.value < 1 {
        assert FirstBad(k, samples, order, payloads, workloads);
        return Err(BadSamples(id));
      }
      var trials := PlanCohort(cohort, count.value, payloads, workloads);
      if trials.Err? {
        assert FirstBad(k, samples, order, payloads, workloads);
        return Err(trials.error);
      }
      plan := plan + trials.value;
    }
    assert order[..|order|] == order;
    return Ok(plan);
  }

  // ----- what is in the plan, and how often -----

  /** The trial belongs to the given cell and block and names the lane Williams ordering puts at its position. */
  ghost predicate InCell(t: Trial, cohort: seq<Lane>, block: nat, shift: nat, payload: int, workload: string) {
    t.orderIndex < |cohort| && t == TrialOf(block, Row(cohort, block + shift)[t.orderIndex], t.orderIndex, payload, workload)
  }

  ghost predicate Planned(t: Trial, cohort: seq<Lane>, blocks: nat, payloads: seq<int>, workloads: seq<string>) {
    && t.block < blocks
    && exists pi, wi :: 0 <= pi < |payloads| && 0 <= wi < |workloads| && InCell(t, cohort, t.block, pi + wi, payloads[pi], workloads[wi])
  }

  lemma InCellFields(t: Trial, cohort: seq<Lane>, block: nat, shift: nat, payload: int, workload: string)
    requires InCell(t, cohort, block, shift, payload, workload)
    ensures t.block == block && t.payloadBytes == payload && t.workload == workload
  {
    hide Slot;
  }

  lemma CellExact(cohort: seq<Lane>, block: nat, shift: nat, payload: int, workload: string)
    ensures var s := CellTrials(cohort, block, shift, payload, workload);
            Distinct(s) && forall t :: t in s <==> InCell(t, cohort, block, shift, payload, workload)
  {
    var s := CellTrials(cohort, block, shift, payload, workload);
    forall t ensures t in s <==> InCell(t, cohort, block, shift, payload, workload) {
      if InCell(t, cohort, block, shift, payload, workload) { assert s[t.orderIndex] == t; }
    }
    assert forall p :: 0 <= p < |s| ==> s[p].orderIndex == p;
  }

  lemma DistinctAppend<T>(a: seq<T>, b: seq<T>)
    requires Distinct(a) && Distinct(b) && forall x :: x in a ==> x !in b
    ensures Distinct(a + b)
  {
    forall i, j | 0 <= i < j < |a + b| ensures (a + b)[i] != (a + b)[j] {
      if i < |a| <= j { assert a[i] in a && b[j - |a|] in b; }
    }
  }

  lemma {:induction false} PayloadExact(cohort: seq<Lane>, block: nat, pi: nat, payload: int, workloads: seq<string>)
    requires Distinct(workloads)
    ensures var s := PayloadTrials(cohort, block, pi, payload, workloads);
            && Distinct(s)
            && forall t :: t in s <==> exists wi :: 0 <= wi < |workloads| && InCell(t, cohort, block, pi + wi, payload, workloads[wi])
    decreases |workloads|
  {
    hide CellTrials, InCell;
    if workloads != [] {
      var w := |workloads| - 1;
      PayloadExact(cohort, block, pi, payload, workloads[..w]);
      CellExact(cohort, block, pi + w, payload, workloads[w]);
      var a, b := PayloadTrials(cohort, block, pi, payload, workloads[..w]), CellTrials(cohort, block, pi + w, payload, workloads[w]);
      forall t | t in a ensures t !in b {
        var wi :| 0 <= wi < w && InCell(t, cohort, block, pi + wi, payload, workloads[..w][wi]);
        if t in b {
          InCellFields(t, cohort, block, pi + wi, payload, workloads[wi]);
          InCellFields(t, cohort, block, pi + w, payload, workloads[w]);
        }
      }
      DistinctAppend(a, b);
      forall t ensures t in a + b <==> exists wi :: 0 <= wi < |workloads| && InCell(t, cohort, block, pi + wi, payload, workloads[wi]) {
        if wi :| 0 <= wi < |workloads| && InCell(t, cohort, block, pi + wi, payload, workloads[wi]) {
          if wi < w { assert InCell(t, cohort, block, pi + wi, payload, workloads[..w][wi]); }
        }
      }
    }
  }

  ghost predicate InBlock(t: Trial, cohort: seq<Lane>, block: nat, payloads: seq<int>, workloads: seq<string>) {
    exists pi, wi :: 0 <= pi < |payloads| && 0 <= wi < |workloads| && InCell(t, cohort, block, pi + wi, payloads[pi], workloads[wi])
  }

  lemma {:induction false} BlockExact(cohort: seq<Lane>, block: nat, payloads: seq<int>, workloads: seq<string>)
    requires Distinct(workloads) && Distinct(payloads)
    ensures var s := BlockTrials(cohort, block, payloads, workloads);
            Distinct(s) && forall t :: t in s <==> InBlock(t, cohort, block, payloads, workloads)
    decreases |payloads|
  {
    hide PayloadTrials, InCell;
    if payloads != [] {
      var p := |payloads| - 1;
      BlockExact(cohort, block, payloads[..p], workloads);
      PayloadExact(cohort, block, p, payloads[p], workloads);
      var a, b := BlockTrials(cohort, block, payloads[..p], workloads), PayloadTrials(cohort, block, p, payloads[p], workloads);
      forall t | t in a ensures t !in b {
        var pi, wi :| 0 <= pi < p && 0 <= wi < |workloads| && InCell(t, cohort, block, pi + wi, payloads[..p][pi], workloads[wi]);
        InCellFields(t, cohort, block, pi + wi, payloads[pi], workloads[wi]);
        if t in b {
          var wj :| 0 <= wj < |workloads| && InCell(t, cohort, block, p + wj, payloads[p], workloads[wj]);
          InCellFields(t, cohort, block, p + wj, payloads[p], workloads[wj]);
        }
      }
      DistinctAppend(a, b);
      forall t ensures t in a + b <==> InBlock(t, cohort, block, payloads, workloads) {
        if t in a {
          var pi, wi :| 0 <= pi < p && 0 <= wi < |workloads| && InCell(t, cohort, block, pi + wi, payloads[..p][pi], workloads[wi]);
          assert InCell(t, cohort, block, pi + wi, payloads[pi], workloads[wi]);
        }
        if pi, wi :| 0 <= pi < |payloads| && 0 <= wi < |workloads| && InCell(t, cohort, block, pi + wi, payloads[pi], workloads[wi]) {
          if pi < p { assert InCell(t, cohort, block, pi + wi, payloads[..p][pi], workloads[wi]); }
        }
      }
    }
  }

  lemma {:induction false} CohortExact(cohort: seq<Lane>, blocks: nat, payloads: seq<int>, workloads: seq<string>)
    requires Distinct(workloads) && Distinct(payloads)
    ensures var s := CohortTrials(cohort, blocks, payloads, workloads);
            Distinct(s) && forall t :: t in s <==> Planned(t, cohort, blocks, payloads, workloads)
    decreases blocks
  {
    hide BlockTrials, InCell;
    if blocks > 0 {
      CohortExact(cohort, blocks - 1, payloads, workloads);
      BlockExact(cohort, blocks - 1, payloads, workloads);
      var a, b := CohortTrials(cohort, blocks - 1, payloads, workloads), BlockTrials(cohort, blocks - 1, payloads, workloads);
      forall t | t in b ensures t !in a {
        var pi, wi :| 0 <= pi < |payloads| && 0 <= wi < |workloads| && InCell(t, cohort, blocks - 1, pi + wi, payloads[pi], workloads[wi]);
        InCellFields(t, cohort, blocks - 1, pi + wi, payloads[pi], workloads[wi]);
      }
      DistinctAppend(a, b);
      forall t ensures t in a + b <==> Planned(t, cohort, blocks, payloads, workloads) {
        if InBlock(t, cohort, blocks - 1, payloads, workloads) {
          var pi, wi :| 0 <= pi < |payloads| && 0 <= wi < |workloads| && InCell(t, cohort, blocks - 1, pi + wi, payloads[pi], workloads[wi]);
          InCellFields(t, cohort, blocks - 1, pi + wi, payloads[pi], workloads[wi]);
        }
      }
    }
  }

  /** A trial of the whole plan: its cohort is one of the ids, and that cohort's part holds it. */
  ghost predicate InPlan(t: Trial, lanes: seq<Lane>, ids: seq<string>, samples: Samples, payloads: seq<int>, workloads: seq<string>)
    requires Plannable(samples, ids, payloads, workloads)
  {
    t.cohortId in ids && Planned(t, CohortOf(lanes, t.cohortId), SamplesFor(samples, t.cohortId).value, payloads, workloads)
  }

  lemma PlannedCohort(t: Trial, lanes: seq<Lane>, id: string, blocks: nat, payloads: seq<int>, workloads: seq<string>)
    requires Planned(t, CohortOf(lanes, id), blocks, payloads, workloads)
    ensures t.cohortId == id
  {
    CohortLanes(lanes, id);
    var cohort := CohortOf(lanes, id);
    var pi, wi :| 0 <= pi < |payloads| && 0 <= wi < |workloads| && InCell(t, cohort, t.block, pi + wi, payloads[pi], workloads[wi]);
    assert Row(cohort, t.block + (pi + wi))[t.orderIndex] in cohort;
  }

  /** The plan repeats nothing, and holds exactly the trials that Williams ordering of each cohort asks for. */
  lemma {:induction false} PlanExact(lanes: seq<Lane>, ids: seq<string>, samples: Samples, payloads: seq<int>, workloads: seq<string>)
    requires Plannable(samples, ids, payloads, workloads)
    requires Distinct(ids) && Distinct(workloads) && Distinct(payloads)
    ensures var s := PlanTrials(lanes, ids, samples, payloads, workloads);
            Distinct(s) && forall t :: t in s <==> InPlan(t, lanes, ids, samples, payloads, workloads)
    decreases |ids|
  {
    if ids != [] {
      var k := |ids| - 1;
      var id := ids[k];
      var blocks := SamplesFor(samples, id).value;
      PlanExact(lanes, ids[..k], samples, payloads, workloads);
      CohortExact(CohortOf(lanes, id), blocks, payloads, workloads);
      var a := PlanTrials(lanes, ids[..k], samples, payloads, workloads);
      var b := CohortTrials(CohortOf(lanes, id), blocks, payloads, workloads);
      assert ids == ids[..k] + [id];
      forall t | t in b ensures t.cohortId == id { PlannedCohort(t, lanes, id, blocks, payloads, workloads); }
      DistinctAppend(a, b);
    }
  }

  // ----- uniqueness and balance of the plan -----

  ghost predicate DistinctIds(lanes: seq<Lane>) {
    forall i, j :: 0 <= i < j < |lanes| ==> lanes[i].id != lanes[j].id
  }

  ghost predicate HasTuple(t: Trial, lane: Lane, block: nat, payload: int, workload: string) {
    t.cohortId == lane.cohortId && t.block == block && t.laneId == lane.id && t.payloadBytes == payload && t.workload == workload
  }

  /** Each (cohort, block, lane, payload, workload) occurs exactly once. */
  lemma TupleOnce(lanes: seq<Lane>, samples: Samples, payloads: seq<int>, workloads: seq<string>,
                  lane: Lane, block: nat, pi: nat, wi: nat)
    requires var ids := CohortOrder(lanes); Plannable(samples, ids, payloads, workloads)
    requires Distinct(lanes) && Distinct(workloads) && Distinct(payloads)
    requires DistinctIds(lanes)
    requires lane in lanes && pi < |payloads| && wi < |workloads|
    requires SamplesFor(samples, lane.cohortId).Some? && block < SamplesFor(samples, lane.cohortId).value
    ensures var plan := PlanTrials(lanes, CohortOrder(lanes), samples, payloads, workloads);
            exists k {:trigger plan[k]} :: 0 <= k < |plan| && forall j :: 0 <= j < |plan| ==>
              (HasTuple(plan[j], lane, block, payloads[pi], workloads[wi]) <==> j == k)
  {
    hide Row, PlanTrials, CohortOf, CohortOrder, Distinct, DistinctIds, Plannable, HasTuple, TrialOf;
    var ids := CohortOrder(lanes);
    var plan := PlanTrials(lanes, ids, samples, payloads, workloads);
    PlanDistinct(lanes, samples, payloads, workloads);
    var p := LanePlace(lanes, block + (pi + wi), lane);
    var t := TrialOf(block, lane, p, payloads[pi], workloads[wi]);
    TrialInPlan(lanes, samples, payloads, workloads, lane, block, p, pi, wi);
    TrialHasTuple(block, lane, p, payloads[pi], workloads[wi]);
    var k :| 0 <= k < |plan| && plan[k] == t;
    forall j | 0 <= j < |plan| && HasTuple(plan[j], lane, block, payloads[pi], workloads[wi])
      ensures j == k
    {
      TupleTrial(lanes, samples, payloads, workloads, lane, block, p, pi, wi, plan[j]);
      DistinctIndex(plan, j, k);
    }
  }

  lemma PlanDistinct(lanes: seq<Lane>, samples: Samples, payloads: seq<int>, workloads: seq<string>)
    requires var ids := CohortOrder(lanes); Plannable(samples, ids, payloads, workloads)
    requires Distinct(workloads) && Distinct(payloads)
    ensures Distinct(PlanTrials(lanes, CohortOrder(lanes), samples, payloads, workloads))
  {
    hide PlanTrials, Distinct, Plannable;
    CohortLanes(lanes, "");
    PlanExact(lanes, CohortOrder(lanes), samples, payloads, workloads);
  }

  lemma LanePlace(lanes: seq<Lane>, block: nat, lane: Lane) returns (p: nat)
    requires Distinct(lanes) && lane in lanes
    ensures var cohort := CohortOf(lanes, lane.cohortId); p < |cohort| && Row(cohort, block)[p] == lane
  {
    hide Row, CohortOf, Distinct;
    CohortLanes(lanes, lane.cohortId);
    p := RowPlace(CohortOf(lanes, lane.cohortId), block, lane);
  }

  lemma TrialHasTuple(block: nat, lane: Lane, p: nat, payload: int, workload: string)
    ensures HasTuple(TrialOf(block, lane, p, payload, workload), lane, block, payload, workload)
  {
  }

  /** A trial of the plan with a given tuple is the trial of that lane at its place in its row. */
  lemma TupleTrial(lanes: seq<Lane>, samples: Samples, payloads: seq<int>, workloads: seq<string>,
                   lane: Lane, block: nat, p: nat, pi: nat, wi: nat, u: Trial)
    requires var ids := CohortOrder(lanes); Plannable(samples, ids, payloads, workloads)
    requires Distinct(lanes) && Distinct(workloads) && Distinct(payloads) && DistinctIds(lanes)
    requires lane in lanes && pi < |payloads| && wi < |workloads|
    requires SamplesFor(samples, lane.cohortId).Some? && block < SamplesFor(samples, lane.cohortId).value
    requires var cohort := CohortOf(lanes, lane.cohortId); p < |cohort| && Row(cohort, block + (pi + wi))[p] == lane
    requires u in PlanTrials(lanes, CohortOrder(lanes), samples, payloads, workloads)
    requires HasTuple(u, lane, block, payloads[pi], workloads[wi])
    ensures u == TrialOf(block, lane, p, payloads[pi], workloads[wi])
  {
    hide Slot, PlanTrials, CohortOf, CohortOrder, Planned, Distinct, DistinctIds, Plannable;
    UniqueLane(lanes, lane);
    CohortLanes(lanes, lane.cohortId);
    PlanExact(lanes, CohortOrder(lanes), samples, payloads, workloads);
    assert InPlan(u, lanes, CohortOrder(lanes), samples, payloads, workloads);
    PlannedOnce(u, CohortOf(lanes, lane.cohortId), SamplesFor(samples, lane.cohortId).value, payloads, workloads, lane, block, p, pi, wi);
  }

  lemma UniqueLane(lanes: seq<Lane>, lane: Lane)
    requires lane in lanes && DistinctIds(lanes)
    ensures forall other :: other in lanes && other.id == lane.id ==> other == lane
  {
  }

  lemma PlannedOnce(u: Trial, cohort: seq<Lane>, blocks: nat, payloads: seq<int>, workloads: seq<string>,
                    lane: Lane, b: nat, p: nat, pi: nat, wi: nat)
    requires Distinct(workloads) && Distinct(payloads) && Distinct(cohort)
    requires forall other :: other in cohort && other.id == lane.id ==> other == lane
    requires b < blocks && p < |cohort| && pi < |payloads| && wi < |workloads|
    requires Planned(u, cohort, blocks, payloads, workloads) && HasTuple(u, lane, b, payloads[pi], workloads[wi])
    requires Row(cohort, b + (pi + wi))[p] == lane
    ensures u == TrialOf(b, lane, p, payloads[pi], workloads[wi])
  {
    hide Slot;
    var pj, wj :| 0 <= pj < |payloads| && 0 <= wj < |workloads| && InCell(u, cohort, b, pj + wj, payloads[pj], workloads[wj]);
    DistinctIndex(payloads, pi, pj);
    DistinctIndex(workloads, wi, wj);
    assert Row(cohort, b + (pi + wi))[u.orderIndex] in cohort;
    RowPlaceOnce(cohort, b + (pi + wi), u.orderIndex, p);
  }

  /** A Williams row is a permutation: every lane has a place, and only one. */
  lemma RowPlace(cohort: seq<Lane>, block: nat, lane: Lane) returns (p: nat)
    requires Distinct(cohort) && lane in cohort
    ensures p < |cohort| && Row(cohort, block)[p] == lane
  {
    var n := |cohort|;
    var i :| 0 <= i < n && cohort[i] == lane;
    p := SlotInverse(n, block, i);
  }

  /** The place of an index in the base row. */
  lemma BaseInverse(n: nat, base: nat) returns (q: nat)
    requires base < n
    ensures q < n && BaseAt(n, q) == base
  {
    q := if base == 0 then 0 else if base <= n / 2 then 2 * base - 1 else 2 * (n - base);
  }

  /** The position of subject i in a row. */
  lemma SlotInverse(n: nat, block: nat, i: nat) returns (p: nat)
    requires i < n
    ensures p < n && Slot(n, block, p) == i
  {
    hide BaseAt;
    var z := block % CycleLength(n);
    WrapMod(z, n);
    var base := Sub(i, z % n, n);
    var q := BaseInverse(n, base);
    p := if n % 2 != 0 && z >= n then n - 1 - q else q;
    WrapMod(base + z % n, n);
  }

  lemma RowPlaceOnce(cohort: seq<Lane>, block: nat, p: nat, q: nat)
    requires Distinct(cohort) && p < |cohort| && q < |cohort| && Row(cohort, block)[p] == Row(cohort, block)[q]
    ensures p == q
  {
    hide CycleSlot;
    var n := |cohort|;
    var z := block % CycleLength(n);
    assert Slot(n, block, p) == Slot(n, block, q);
    SlotInjective(n, z, p, q);
  }

  lemma BaseInjective(n: nat, a: nat, b: nat)
    requires a < n && b < n && BaseAt(n, a) == BaseAt(n, b)
    ensures a == b
  {
  }

  lemma SlotInjective(n: nat, z: nat, p: nat, q: nat)
    requires p < n && q < n && z < CycleLength(n) && CycleSlot(n, z, p) == CycleSlot(n, z, q)
    ensures p == q
  {
    hide BaseAt;
    var flip := n % 2 != 0 && z >= n;
    var a, b := if flip then n - 1 - p else p, if flip then n - 1 - q else q;
    var row := z % n;
    WrapMod(BaseAt(n, a) + row, n);
    WrapMod(BaseAt(n, b) + row, n);
    BaseInjective(n, a, b);
  }

  /** A set of blocks moved along by a shift keeps its size. */
  lemma ShiftedSize(x: set<nat>, y: set<nat>, shift: nat, len: nat)
    requires forall b :: b in x ==> b < len
    requires forall b :: b in y ==> shift <= b < shift + len
    requires forall b: nat :: b < len ==> (b in x <==> b + shift in y)
    ensures |x| == |y|
  {
    var up := (b: nat) => b + shift;
    ImageSize(x, up);
    forall b | b in y ensures b in Image(x, up) {
      assert b - shift in x && up(b - shift) == b;
    }
    assert y == Image(x, up);
  }

  lemma ShiftedPairsSize(x: set<(nat, nat)>, y: set<(nat, nat)>, shift: nat, len: nat, width: nat)
    requires forall bp :: bp in x ==> bp.0 < len && bp.1 < width
    requires forall bp :: bp in y ==> shift <= bp.0 < shift + len && bp.1 < width
    requires forall b: nat, p: nat :: b < len && p < width ==> ((b, p) in x <==> (b + shift, p) in y)
    ensures |x| == |y|
  {
    var up := (bp: (nat, nat)) => (bp.0 + shift, bp.1);
    ImageSize(x, up);
    forall bp | bp in y ensures bp in Image(x, up) {
      assert (bp.0 - shift, bp.1) in x && up((bp.0 - shift, bp.1)) == bp;
    }
    assert y == Image(x, up);
  }

  /** The blocks below `len` in which the plan runs a lane at position p of one (payload, workload) cell. */
  ghost function PlanBlocks(plan: seq<Trial>, len: nat, lane: Lane, p: nat, payload: int, workload: string): set<nat> {
    set b: nat | b < len && TrialOf(b, lane, p, payload, workload) in plan
  }

  /** The (block, position) pairs at which a cell of the plan runs `first` right before `second`. */
  ghost function PlanPairs(plan: seq<Trial>, len: nat, width: nat, first: Lane, second: Lane, payload: int, workload: string): set<(nat, nat)> {
    set b: nat, p: nat | b < len && p < width && TrialOf(b, first, p, payload, workload) in plan
      && TrialOf(b, second, p + 1, payload, workload) in plan :: (b, p)
  }

  /**
    Every (payload, workload) cell of a cohort with complete cycles puts each lane at each
    position equally often.
  */
  lemma CellPositionBalance(lanes: seq<Lane>, samples: Samples, payloads: seq<int>, workloads: seq<string>,
                            lane: Lane, cycles: nat, p: nat, pi: nat, wi: nat)
    requires var ids := CohortOrder(lanes); Plannable(samples, ids, payloads, workloads)
    requires Distinct(lanes) && Distinct(workloads) && Distinct(payloads)
    requires lane in lanes && pi < |payloads| && wi < |workloads| && p < |CohortOf(lanes, lane.cohortId)|
    requires SamplesFor(samples, lane.cohortId) == Some(cycles * CycleLength(|CohortOf(lanes, lane.cohortId)|))
    ensures var plan := PlanTrials(lanes, CohortOrder(lanes), samples, payloads, workloads);
            var n := |CohortOf(lanes, lane.cohortId)|;
            |PlanBlocks(plan, cycles * CycleLength(n), lane, p, payloads[pi], workloads[wi])| == cycles * (CycleLength(n) / n)
  {
    hide Row, Slot, PlanTrials, CohortOf, CohortOrder, CycleLength, Distinct, Plannable, InCell;
    var ids := CohortOrder(lanes);
    var cohort := CohortOf(lanes, lane.cohortId);
    var n := |cohort|;
    var len := cycles * CycleLength(n);
    var shift := pi + wi;
    CohortLanes(lanes, lane.cohortId);
    PositionBalance(cohort, shift, cycles, p, lane);
    var plan := PlanTrials(lanes, ids, samples, payloads, workloads);
    var x := PlanBlocks(plan, len, lane, p, payloads[pi], workloads[wi]);
    var y := RowBlocks(cohort, shift, len, p, lane);
    forall b: nat | b < len ensures b in x <==> b + shift in y {
      TrialInPlan(lanes, samples, payloads, workloads, lane, b, p, pi, wi);
    }
    ShiftedSize(x, y, shift, len);
  }

  lemma TrialInPlan(lanes: seq<Lane>, samples: Samples, payloads: seq<int>, workloads: seq<string>,
                    lane: Lane, b: nat, p: nat, pi: nat, wi: nat)
    requires var ids := CohortOrder(lanes); Plannable(samples, ids, payloads, workloads)
    requires Distinct(workloads) && Distinct(payloads)
    requires lane in lanes && pi < |payloads| && wi < |workloads| && p < |CohortOf(lanes, lane.cohortId)|
    requires SamplesFor(samples, lane.cohortId).Some? && b < SamplesFor(samples, lane.cohortId).value
    ensures TrialOf(b, lane, p, payloads[pi], workloads[wi]) in PlanTrials(lanes, CohortOrder(lanes), samples, payloads, workloads)
        <==> Row(CohortOf(lanes, lane.cohortId), b + (pi + wi))[p] == lane
  {
    hide Slot, PlanTrials, CohortOf, CohortOrder, Planned, Distinct;
    var ids := CohortOrder(lanes);
    CohortLanes(lanes, lane.cohortId);
    PlanExact(lanes, ids, samples, payloads, workloads);
    PlannedRow(CohortOf(lanes, lane.cohortId), SamplesFor(samples, lane.cohortId).value, payloads, workloads, lane, b, p, pi, wi);
  }

  lemma PlannedRow(cohort: seq<Lane>, blocks: nat, payloads: seq<int>, workloads: seq<string>,
                   lane: Lane, b: nat, p: nat, pi: nat, wi: nat)
    requires Distinct(workloads) && Distinct(payloads)
    requires forall other :: other in cohort ==> other.cohortId == lane.cohortId
    requires b < blocks && p < |cohort| && pi < |payloads| && wi < |workloads|
    ensures Planned(TrialOf(b, lane, p, payloads[pi], workloads[wi]), cohort, blocks, payloads, workloads)
        <==> Row(cohort, b + (pi + wi))[p] == lane
  {
    hide Slot;
    var t := TrialOf(b, lane, p, payloads[pi], workloads[wi]);
    var row := Row(cohort, b + (pi + wi));
    assert row[p] in cohort;
    if row[p] == lane {
      assert InCell(t, cohort, b, pi + wi, payloads[pi], workloads[wi]);
    }
    if Planned(t, cohort, blocks, payloads, workloads) {
      var pj, wj :| 0 <= pj < |payloads| && 0 <= wj < |workloads| && InCell(t, cohort, t.block, pj + wj, payloads[pj], workloads[wj]);
      DistinctIndex(payloads, pi, pj);
      DistinctIndex(workloads, wi, wj);
    }
  }

  lemma DistinctIndex<T>(s: seq<T>, i: nat, j: nat)
    requires Distinct(s) && i < |s| && j < |s| && s[i] == s[j]
    ensures i == j
  {
  }

  lemma PairInPlan(lanes: seq<Lane>, samples: Samples, payloads: seq<int>, workloads: seq<string>,
                   first: Lane, second: Lane, len: nat, b: nat, p: nat, pi: nat, wi: nat)
    requires var ids := CohortOrder(lanes); Plannable(samples, ids, payloads, workloads)
    requires Distinct(workloads) && Distinct(payloads)
    requires first in lanes && second in lanes && first.cohortId == second.cohortId
    requires pi < |payloads| && wi < |workloads| && p < |CohortOf(lanes, first.cohortId)| - 1
    requires SamplesFor(samples, first.cohortId) == Some(len) && b < len
    ensures var cohort := CohortOf(lanes, first.cohortId);
            var plan := PlanTrials(lanes, CohortOrder(lanes), samples, payloads, workloads);
            ((b, p) in PlanPairs(plan, len, |cohort| - 1, first, second, payloads[pi], workloads[wi])
             <==> (b + (pi + wi), p) in RowPairs(cohort, pi + wi, len, first, second))
  {
    hide Row, Slot, PlanTrials, CohortOf, CohortOrder, CycleLength, Distinct, Plannable;
    TrialInPlan(lanes, samples, payloads, workloads, first, b, p, pi, wi);
    TrialInPlan(lanes, samples, payloads, workloads, second, b, p + 1, pi, wi);
  }

  lemma PairBounds(plan: seq<Trial>, cohort: seq<Lane>, shift: nat, len: nat, width: nat,
                   first: Lane, second: Lane, payload: int, workload: string)
    requires width == |cohort| - 1
    ensures forall bp :: bp in PlanPairs(plan, len, width, first, second, payload, workload) ==> bp.0 < len && bp.1 < width
    ensures forall bp :: bp in RowPairs(cohort, shift, len, first, second) ==> shift <= bp.0 < shift + len && bp.1 < width
  {
    hide Row, TrialOf;
  }

  /** Likewise every ordered pair of lanes of the cohort runs back to back equally often in each cell. */
  lemma CellCarryoverBalance(lanes: seq<Lane>, samples: Samples, payloads: seq<int>, workloads: seq<string>,
                             first: Lane, second: Lane, cycles: nat, pi: nat, wi: nat)
    requires var ids := CohortOrder(lanes); Plannable(samples, ids, payloads, workloads)
    requires Distinct(lanes) && Distinct(workloads) && Distinct(payloads)
    requires first in lanes && second in lanes && first != second && first.cohortId == second.cohortId
    requires pi < |payloads| && wi < |workloads|
    requires SamplesFor(samples, first.cohortId) == Some(cycles * CycleLength(|CohortOf(lanes, first.cohortId)|))
    ensures var plan := PlanTrials(lanes, CohortOrder(lanes), samples, payloads, workloads);
            var n := Max(1, |CohortOf(lanes, first.cohortId)|);
            |PlanPairs(plan, cycles * CycleLength(n), n - 1, first, second, payloads[pi], workloads[wi])|
            == cycles * (CycleLength(n) / n)
  {
    hide Row, Slot, PlanTrials, CohortOf, CohortOrder, CycleLength, Distinct, Plannable, PlanPairs, RowPairs;
    var cohort := CohortOf(lanes, first.cohortId);
    var n := |cohort|;
    var len := cycles * CycleLength(n);
    var shift := pi + wi;
    CohortLanes(lanes, first.cohortId);
    CarryoverBalance(cohort, shift, cycles, first, second);
    var plan := PlanTrials(lanes, CohortOrder(lanes), samples, payloads, workloads);
    var x := PlanPairs(plan, len, n - 1, first, second, payloads[pi], workloads[wi]);
    var y := RowPairs(cohort, shift, len, first, second);
    forall b: nat, p: nat | b < len && p < n - 1 ensures (b, p) in x <==> (b + shift, p) in y {
      PairInPlan(lanes, samples, payloads, workloads, first, second, len, b, p, pi, wi);
    }
    PairBounds(plan, cohort, shift, len, n - 1, first, second, payloads[pi], workloads[wi]);
    ShiftedPairsSize(x, y, shift, len, n - 1);
  }
}
