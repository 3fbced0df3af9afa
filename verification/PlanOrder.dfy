/** The order the benchmark plan runs in: the place of every trial, and balance between neighbours in it. */
module PlanOrder {
  import opened Common
  import opened Grouping
  import opened Williams
  import opened CohortPlan

  // ----- places in a sequence of equal parts -----

  lemma PartFits(part: nat, q: nat, parts: nat, size: nat)
    requires part < parts && q < size
    ensures part * size + q < parts * size && part * size >= 0
  {
    assert (part + 1) * size <= parts * size;
  }

  lemma PartsSplit(parts: nat, size: nat)
    requires parts > 0
    ensures (parts - 1) * size >= 0 && parts * size == (parts - 1) * size + size
  {
  }

  lemma FindPart(k: nat, parts: nat, size: nat) returns (part: nat, q: nat)
    requires k < parts * size
    ensures part < parts && q < size && k == part * size + q
    decreases parts
  {
    PartsSplit(parts, size);
    if k >= (parts - 1) * size {
      part, q := parts - 1, k - (parts - 1) * size;
    } else {
      part, q := FindPart(k, parts - 1, size);
    }
  }

  // ----- the parts of the plan, from the inside out -----

  lemma {:induction false} PayloadAt(cohort: seq<Lane>, block: nat, pi: nat, payload: int, workloads: seq<string>)
    ensures |PayloadTrials(cohort, block, pi, payload, workloads)| == |workloads| * |cohort|
    decreases |workloads|
  {
    if workloads != [] {
      PayloadAt(cohort, block, pi, payload, workloads[..|workloads| - 1]);
      PartsSplit(|workloads|, |cohort|);
    }
  }

  lemma {:induction false} PayloadCell(cohort: seq<Lane>, block: nat, pi: nat, payload: int, workloads: seq<string>, wi: nat, p: nat)
    requires wi < |workloads| && p < |cohort|
    ensures var s, at := PayloadTrials(cohort, block, pi, payload, workloads), wi * |cohort| + p;
            0 <= at < |s| && s[at] == TrialOf(block, Row(cohort, block + (pi + wi))[p], p, payload, workloads[wi])
    decreases |workloads|
  {
    hide Row, TrialOf;
    var w := |workloads| - 1;
    PayloadAt(cohort, block, pi, payload, workloads);
    PayloadAt(cohort, block, pi, payload, workloads[..w]);
    PartFits(wi, p, |workloads|, |cohort|);
    if wi < w {
      PartFits(wi, p, w, |cohort|);
      PayloadCell(cohort, block, pi, payload, workloads[..w], wi, p);
    }
  }

  /** Trials of one block of a cohort. */
  function BlockSize(n: nat, payloads: seq<int>, workloads: seq<string>): nat {
    |payloads| * (|workloads| * n)
  }

  lemma {:induction false} BlockLength(cohort: seq<Lane>, block: nat, payloads: seq<int>, workloads: seq<string>)
    ensures |BlockTrials(cohort, block, payloads, workloads)| == BlockSize(|cohort|, payloads, workloads)
    decreases |payloads|
  {
    if payloads != [] {
      var p := |payloads| - 1;
      BlockLength(cohort, block, payloads[..p], workloads);
      PayloadAt(cohort, block, p, payloads[p], workloads);
      PartsSplit(|payloads|, |workloads| * |cohort|);
    }
  }

  lemma {:induction false} BlockPart(cohort: seq<Lane>, block: nat, payloads: seq<int>, workloads: seq<string>, pi: nat, q: nat)
    requires pi < |payloads| && q < |workloads| * |cohort|
    ensures var s, at := BlockTrials(cohort, block, payloads, workloads), pi * (|workloads| * |cohort|) + q;
            && 0 <= at < |s| && q < |PayloadTrials(cohort, block, pi, payloads[pi], workloads)|
            && s[at] == PayloadTrials(cohort, block, pi, payloads[pi], workloads)[q]
    decreases |payloads|
  {
    hide PayloadTrials;
    var last := |payloads| - 1;
    var size := |workloads| * |cohort|;
    PayloadAt(cohort, block, pi, payloads[pi], workloads);
    BlockLength(cohort, block, payloads, workloads);
    BlockLength(cohort, block, payloads[..last], workloads);
    PartFits(pi, q, |payloads|, size);
    if pi < last {
      PartFits(pi, q, last, size);
      BlockPart(cohort, block, payloads[..last], workloads, pi, q);
    }
  }

  lemma {:induction false} CohortLength(cohort: seq<Lane>, blocks: nat, payloads: seq<int>, workloads: seq<string>)
    ensures |CohortTrials(cohort, blocks, payloads, workloads)| == blocks * BlockSize(|cohort|, payloads, workloads)
    decreases blocks
  {
    hide BlockSize;
    if blocks > 0 {
      CohortLength(cohort, blocks - 1, payloads, workloads);
      BlockLength(cohort, blocks - 1, payloads, workloads);
      PartsSplit(blocks, BlockSize(|cohort|, payloads, workloads));
    }
  }

  lemma {:induction false} CohortPart(cohort: seq<Lane>, blocks: nat, payloads: seq<int>, workloads: seq<string>, b: nat, q: nat)
    requires b < blocks && q < BlockSize(|cohort|, payloads, workloads)
    ensures var s, at := CohortTrials(cohort, blocks, payloads, workloads), b * BlockSize(|cohort|, payloads, workloads) + q;
            && 0 <= at < |s| && q < |BlockTrials(cohort, b, payloads, workloads)|
            && s[at] == BlockTrials(cohort, b, payloads, workloads)[q]
    decreases blocks
  {
    hide BlockSize, BlockTrials;
    var size := BlockSize(|cohort|, payloads, workloads);
    BlockLength(cohort, b, payloads, workloads);
    CohortLength(cohort, blocks, payloads, workloads);
    CohortLength(cohort, blocks - 1, payloads, workloads);
    PartFits(b, q, blocks, size);
    if b < blocks - 1 {
      PartFits(b, q, blocks - 1, size);
      CohortPart(cohort, blocks - 1, payloads, workloads, b, q);
    }
  }

  /** Trials of all cohorts of some ids. */
  function PlanSize(lanes: seq<Lane>, ids: seq<string>, samples: Samples, payloads: seq<int>, workloads: seq<string>): nat
    requires Plannable(samples, ids, payloads, workloads)
    decreases |ids|
  {
    if ids == [] then 0
    else
      var id := ids[|ids| - 1];
      PlanSize(lanes, ids[..|ids| - 1], samples, payloads, workloads)
      + SamplesFor(samples, id).value * BlockSize(|CohortOf(lanes, id)|, payloads, workloads)
  }

  lemma {:induction false} PlanLength(lanes: seq<Lane>, ids: seq<string>, samples: Samples, payloads: seq<int>, workloads: seq<string>)
    requires Plannable(samples, ids, payloads, workloads)
    ensures |PlanTrials(lanes, ids, samples, payloads, workloads)| == PlanSize(lanes, ids, samples, payloads, workloads)
    decreases |ids|
  {
    hide BlockSize;
    if ids != [] {
      var id := ids[|ids| - 1];
      PlanLength(lanes, ids[..|ids| - 1], samples, payloads, workloads);
      CohortLength(CohortOf(lanes, id), SamplesFor(samples, id).value, payloads, workloads);
    }
  }

  lemma {:induction false} PlanPart(lanes: seq<Lane>, ids: seq<string>, samples: Samples, payloads: seq<int>, workloads: seq<string>, ci: nat, q: nat)
    requires Plannable(samples, ids, payloads, workloads) && ci < |ids|
    requires q < |CohortTrials(CohortOf(lanes, ids[ci]), SamplesFor(samples, ids[ci]).value, payloads, workloads)|
    ensures var s, at := PlanTrials(lanes, ids, samples, payloads, workloads), PlanSize(lanes, ids[..ci], samples, payloads, workloads) + q;
            at < |s| && s[at] == CohortTrials(CohortOf(lanes, ids[ci]), SamplesFor(samples, ids[ci]).value, payloads, workloads)[q]
    decreases |ids|
  {
    hide CohortTrials, CohortOf, PlanSize;
    var last := |ids| - 1;
    PlanLength(lanes, ids[..last], samples, payloads, workloads);
    if ci < last {
      assert ids[..last][..ci] == ids[..ci];
      PlanPart(lanes, ids[..last], samples, payloads, workloads, ci, q);
    }
  }

  // ----- the place of every trial -----

  /** Where the trials of a (block, payload, workload) start within those of their cohort: nested in this order. */
  function CellOffset(n: nat, payloads: seq<int>, workloads: seq<string>, b: nat, pi: nat, wi: nat): nat {
    b * BlockSize(n, payloads, workloads) + (pi * (|workloads| * n) + wi * n)
  }

  lemma BlockIndex(cohort: seq<Lane>, b: nat, payloads: seq<int>, workloads: seq<string>, pi: nat, wi: nat, p: nat)
    requires pi < |payloads| && wi < |workloads| && p < |cohort|
    ensures var s, at := BlockTrials(cohort, b, payloads, workloads), pi * (|workloads| * |cohort|) + (wi * |cohort| + p);
            && 0 <= at < |s| && at < BlockSize(|cohort|, payloads, workloads)
            && s[at] == TrialOf(b, Row(cohort, b + (pi + wi))[p], p, payloads[pi], workloads[wi])
  {
    hide Row, TrialOf, BlockTrials, PayloadTrials;
    var n := |cohort|;
    PartFits(wi, p, |workloads|, n);
    PayloadCell(cohort, b, pi, payloads[pi], workloads, wi, p);
    PartFits(pi, wi * n + p, |payloads|, |workloads| * n);
    BlockPart(cohort, b, payloads, workloads, pi, wi * n + p);
  }

  lemma CohortIndex(cohort: seq<Lane>, blocks: nat, payloads: seq<int>, workloads: seq<string>, b: nat, pi: nat, wi: nat, p: nat)
    requires b < blocks && pi < |payloads| && wi < |workloads| && p < |cohort|
    ensures var s, at := CohortTrials(cohort, blocks, payloads, workloads), CellOffset(|cohort|, payloads, workloads, b, pi, wi) + p;
            at < |s| && s[at] == TrialOf(b, Row(cohort, b + (pi + wi))[p], p, payloads[pi], workloads[wi])
  {
    hide Row, TrialOf, BlockTrials, CohortTrials, BlockSize;
    var n := |cohort|;
    BlockIndex(cohort, b, payloads, workloads, pi, wi, p);
    CohortPart(cohort, blocks, payloads, workloads, b, pi * (|workloads| * n) + (wi * n + p));
  }

  /** Where the trials of a (cohort, block, payload, workload) start in the plan. */
  function CellStart(lanes: seq<Lane>, ids: seq<string>, samples: Samples, payloads: seq<int>, workloads: seq<string>,
                     ci: nat, b: nat, pi: nat, wi: nat): nat
    requires Plannable(samples, ids, payloads, workloads) && ci < |ids|
  {
    PlanSize(lanes, ids[..ci], samples, payloads, workloads) + CellOffset(|CohortOf(lanes, ids[ci])|, payloads, workloads, b, pi, wi)
  }

  /**
    The trials of a cell stand one after the other from its start, the p-th with orderIndex p, for the lane
    Williams ordering puts there.
  */
  lemma PlanIndex(lanes: seq<Lane>, ids: seq<string>, samples: Samples, payloads: seq<int>, workloads: seq<string>,
                  ci: nat, b: nat, pi: nat, wi: nat, p: nat)
    requires Plannable(samples, ids, payloads, workloads) && ci < |ids|
    requires b < SamplesFor(samples, ids[ci]).value && pi < |payloads| && wi < |workloads| && p < |CohortOf(lanes, ids[ci])|
    ensures var plan := PlanTrials(lanes, ids, samples, payloads, workloads);
            var at := CellStart(lanes, ids, samples, payloads, workloads, ci, b, pi, wi) + p;
            && at < |plan|
            && plan[at] == TrialOf(b, Row(CohortOf(lanes, ids[ci]), b + (pi + wi))[p], p, payloads[pi], workloads[wi])
  {
    hide Row, TrialOf, PlanTrials, CohortTrials, CohortOf, PlanSize, Plannable, BlockSize, SamplesFor;
    var cohort := CohortOf(lanes, ids[ci]);
    SamplesNatural(samples, ids, payloads, workloads, ci);
    var q := CellOffset(|cohort|, payloads, workloads, b, pi, wi) + p;
    CohortIndex(cohort, SamplesFor(samples, ids[ci]).value, payloads, workloads, b, pi, wi, p);
    PlanPart(lanes, ids, samples, payloads, workloads, ci, q);
  }

  lemma SamplesNatural(samples: Samples, ids: seq<string>, payloads: seq<int>, workloads: seq<string>, ci: nat)
    requires Plannable(samples, ids, payloads, workloads) && ci < |ids|
    ensures SamplesFor(samples, ids[ci]).Some? && SamplesFor(samples, ids[ci]).value >= 1
  {
  }

  lemma {:induction false} FindCohort(lanes: seq<Lane>, ids: seq<string>, samples: Samples, payloads: seq<int>, workloads: seq<string>, k: nat)
    returns (ci: nat, q: nat)
    requires Plannable(samples, ids, payloads, workloads) && k < PlanSize(lanes, ids, samples, payloads, workloads)
    ensures ci < |ids| && k == PlanSize(lanes, ids[..ci], samples, payloads, workloads) + q
    ensures q < SamplesFor(samples, ids[ci]).value * BlockSize(|CohortOf(lanes, ids[ci])|, payloads, workloads)
    decreases |ids|
  {
    hide BlockSize, CohortOf;
    var last := |ids| - 1;
    var before := PlanSize(lanes, ids[..last], samples, payloads, workloads);
    if k < before {
      ci, q := FindCohort(lanes, ids[..last], samples, payloads, workloads, k);
      assert ids[..last][..ci] == ids[..ci];
    } else {
      ci, q := last, k - before;
    }
  }

  /** There is nothing else in the plan: every index is a place in some cell. */
  lemma PlanIndexCovers(lanes: seq<Lane>, ids: seq<string>, samples: Samples, payloads: seq<int>, workloads: seq<string>, k: nat)
    returns (ci: nat, b: nat, pi: nat, wi: nat, p: nat)
    requires Plannable(samples, ids, payloads, workloads)
    requires k < |PlanTrials(lanes, ids, samples, payloads, workloads)|
    ensures ci < |ids| && b < SamplesFor(samples, ids[ci]).value && pi < |payloads| && wi < |workloads| && p < |CohortOf(lanes, ids[ci])|
    ensures k == CellStart(lanes, ids, samples, payloads, workloads, ci, b, pi, wi) + p
  {
    hide PlanTrials, PlanSize, CohortOf, Plannable;
    var q: nat;
    PlanLength(lanes, ids, samples, payloads, workloads);
    ci, q := FindCohort(lanes, ids, samples, payloads, workloads, k);
    var n := |CohortOf(lanes, ids[ci])|;
    SamplesNatural(samples, ids, payloads, workloads, ci);
    b, q := FindPart(q, SamplesFor(samples, ids[ci]).value, BlockSize(n, payloads, workloads));
    pi, q := FindPart(q, |payloads|, |workloads| * n);
    wi, p := FindPart(q, |workloads|, n);
  }

  // ----- balance between neighbours in the plan -----

  /** The trial runs this lane. */
  predicate RunsLane(t: Trial, lane: Lane) {
    t.laneId == lane.id && t.moduleId == lane.moduleId && t.transportId == lane.transportId && t.cohortId == lane.cohortId
  }

  /** The plan runs `first` at place k and `second` at the very next place, both in the same block of the given cell. */
  predicate NextTo(plan: seq<Trial>, k: nat, first: Lane, second: Lane, payload: int, workload: string) {
    && k + 1 < |plan| && plan[k].block == plan[k + 1].block
    && RunsLane(plan[k], first) && plan[k].payloadBytes == payload && plan[k].workload == workload
    && RunsLane(plan[k + 1], second) && plan[k + 1].payloadBytes == payload && plan[k + 1].workload == workload
  }

  ghost function Neighbours(plan: seq<Trial>, first: Lane, second: Lane, payload: int, workload: string): set<nat> {
    set k: nat | k + 1 < |plan| && NextTo(plan, k, first, second, payload, workload)
  }

  /** A trial of the plan for a lane stands at the place of its block and orderIndex in its cell. */
  lemma TrialPlace(lanes: seq<Lane>, samples: Samples, payloads: seq<int>, workloads: seq<string>,
                   lane: Lane, ci: nat, pi: nat, wi: nat, k: nat)
    requires var ids := CohortOrder(lanes); Plannable(samples, ids, payloads, workloads) && ci < |ids| && ids[ci] == lane.cohortId
    requires Distinct(workloads) && Distinct(payloads)
    requires pi < |payloads| && wi < |workloads|
    requires var plan := PlanTrials(lanes, CohortOrder(lanes), samples, payloads, workloads);
             k < |plan| && RunsLane(plan[k], lane) && plan[k].payloadBytes == payloads[pi] && plan[k].workload == workloads[wi]
    ensures var ids := CohortOrder(lanes);
            var t := PlanTrials(lanes, ids, samples, payloads, workloads)[k];
            && t.block < SamplesFor(samples, lane.cohortId).value && t.orderIndex < |CohortOf(lanes, lane.cohortId)|
            && t == TrialOf(t.block, lane, t.orderIndex, payloads[pi], workloads[wi])
            && k == CellStart(lanes, ids, samples, payloads, workloads, ci, t.block, pi, wi) + t.orderIndex
  {
    hide Row, Slot, PlanTrials, CohortOf, CohortOrder, Plannable, Distinct, CellStart, SamplesFor, Planned;
    var ids := CohortOrder(lanes);
    var plan := PlanTrials(lanes, ids, samples, payloads, workloads);
    var t := plan[k];
    CohortLanes(lanes, lane.cohortId);
    PlanDistinct(lanes, samples, payloads, workloads);
    PlanExact(lanes, ids, samples, payloads, workloads);
    assert InPlan(t, lanes, ids, samples, payloads, workloads);
    SamplesNatural(samples, ids, payloads, workloads, ci);
    PlannedAt(t, CohortOf(lanes, lane.cohortId), SamplesFor(samples, lane.cohortId).value, payloads, workloads, pi, wi);
    PlanIndex(lanes, ids, samples, payloads, workloads, ci, t.block, pi, wi, t.orderIndex);
    DistinctIndex(plan, k, CellStart(lanes, ids, samples, payloads, workloads, ci, t.block, pi, wi) + t.orderIndex);
  }

  lemma PlannedAt(t: Trial, cohort: seq<Lane>, blocks: nat, payloads: seq<int>, workloads: seq<string>, pi: nat, wi: nat)
    requires Distinct(workloads) && Distinct(payloads) && pi < |payloads| && wi < |workloads|
    requires Planned(t, cohort, blocks, payloads, workloads) && t.payloadBytes == payloads[pi] && t.workload == workloads[wi]
    ensures t.block < blocks && t.orderIndex < |cohort|
    ensures t == TrialOf(t.block, Row(cohort, t.block + (pi + wi))[t.orderIndex], t.orderIndex, payloads[pi], workloads[wi])
  {
    hide Row, Slot, Distinct;
    var pj, wj :| 0 <= pj < |payloads| && 0 <= wj < |workloads| && InCell(t, cohort, t.block, pj + wj, payloads[pj], workloads[wj]);
    DistinctIndex(payloads, pi, pj);
    DistinctIndex(workloads, wi, wj);
  }

  /** Neighbours in the plan are neighbours by block and orderIndex, and the other way round. */
  lemma NeighbourPair(lanes: seq<Lane>, samples: Samples, payloads: seq<int>, workloads: seq<string>,
                      first: Lane, second: Lane, ci: nat, pi: nat, wi: nat, k: nat)
    requires var ids := CohortOrder(lanes); Plannable(samples, ids, payloads, workloads) && ci < |ids| && ids[ci] == first.cohortId
    requires Distinct(workloads) && Distinct(payloads) && first.cohortId == second.cohortId
    requires pi < |payloads| && wi < |workloads|
    requires var plan := PlanTrials(lanes, CohortOrder(lanes), samples, payloads, workloads);
             NextTo(plan, k, first, second, payloads[pi], workloads[wi])
    ensures var ids := CohortOrder(lanes);
            var plan := PlanTrials(lanes, ids, samples, payloads, workloads);
            var t := plan[k];
            && (t.block, t.orderIndex) in PlanPairs(plan, SamplesFor(samples, first.cohortId).value, Max(1, |CohortOf(lanes, first.cohortId)|) - 1,
                                                    first, second, payloads[pi], workloads[wi])
            && k == CellStart(lanes, ids, samples, payloads, workloads, ci, t.block, pi, wi) + t.orderIndex
  {
    hide PlanTrials, CohortOf, CohortOrder, Plannable, Distinct, CellStart, SamplesFor;
    TrialPlace(lanes, samples, payloads, workloads, first, ci, pi, wi, k);
    TrialPlace(lanes, samples, payloads, workloads, second, ci, pi, wi, k + 1);
  }

  lemma PairNeighbours(lanes: seq<Lane>, samples: Samples, payloads: seq<int>, workloads: seq<string>,
                       first: Lane, second: Lane, ci: nat, pi: nat, wi: nat, b: nat, p: nat)
    requires var ids := CohortOrder(lanes); Plannable(samples, ids, payloads, workloads) && ci < |ids| && ids[ci] == first.cohortId
    requires Distinct(workloads) && Distinct(payloads) && first.cohortId == second.cohortId
    requires pi < |payloads| && wi < |workloads|
    requires var plan := PlanTrials(lanes, CohortOrder(lanes), samples, payloads, workloads);
             (b, p) in PlanPairs(plan, SamplesFor(samples, first.cohortId).value, Max(1, |CohortOf(lanes, first.cohortId)|) - 1,
                                 first, second, payloads[pi], workloads[wi])
    ensures var ids := CohortOrder(lanes);
            var plan := PlanTrials(lanes, ids, samples, payloads, workloads);
            var k := CellStart(lanes, ids, samples, payloads, workloads, ci, b, pi, wi) + p;
            && k in Neighbours(plan, first, second, payloads[pi], workloads[wi])
            && plan[k].block == b && plan[k].orderIndex == p
  {
    hide PlanTrials, CohortOf, CohortOrder, Plannable, Distinct, CellStart, SamplesFor;
    var ids := CohortOrder(lanes);
    var plan := PlanTrials(lanes, ids, samples, payloads, workloads);
    var k: nat :| k < |plan| && plan[k] == TrialOf(b, first, p, payloads[pi], workloads[wi]);
    var j: nat :| j < |plan| && plan[j] == TrialOf(b, second, p + 1, payloads[pi], workloads[wi]);
    TrialPlace(lanes, samples, payloads, workloads, first, ci, pi, wi, k);
    TrialPlace(lanes, samples, payloads, workloads, second, ci, pi, wi, j);
    assert j == k + 1;
  }

  /**
    In each (payload, workload) cell of a cohort with complete cycles, every ordered pair of its lanes
    stands at adjacent places of the plan equally often: cycles times one, or two for odd sizes.
  */
  lemma NeighbourBalance(lanes: seq<Lane>, samples: Samples, payloads: seq<int>, workloads: seq<string>,
                         first: Lane, second: Lane, cycles: nat, pi: nat, wi: nat)
    requires var ids := CohortOrder(lanes); Plannable(samples, ids, payloads, workloads)
    requires Distinct(lanes) && Distinct(workloads) && Distinct(payloads)
    requires first in lanes && second in lanes && first != second && first.cohortId == second.cohortId
    requires pi < |payloads| && wi < |workloads|
    requires SamplesFor(samples, first.cohortId) == Some(cycles * CycleLength(|CohortOf(lanes, first.cohortId)|))
    ensures var plan := PlanTrials(lanes, CohortOrder(lanes), samples, payloads, workloads);
            var n := Max(1, |CohortOf(lanes, first.cohortId)|);
            |Neighbours(plan, first, second, payloads[pi], workloads[wi])| == cycles * (CycleLength(n) / n)
  {
    hide Row, Slot, PlanTrials, CohortOf, CohortOrder, CycleLength, Distinct, Plannable, PlanPairs, NextTo, CellStart;
    var ids := CohortOrder(lanes);
    var plan := PlanTrials(lanes, ids, samples, payloads, workloads);
    CohortLanes(lanes, first.cohortId);
    assert first in CohortOf(lanes, first.cohortId);
    var ci: nat :| ci < |ids| && ids[ci] == first.cohortId;
    CellCarryoverBalance(lanes, samples, payloads, workloads, first, second, cycles, pi, wi);
    var n := |CohortOf(lanes, first.cohortId)|;
    var x := PlanPairs(plan, cycles * CycleLength(n), n - 1, first, second, payloads[pi], workloads[wi]);
    var y := Neighbours(plan, first, second, payloads[pi], workloads[wi]);
    var f := (bp: (nat, nat)) => CellStart(lanes, ids, samples, payloads, workloads, ci, bp.0, pi, wi) + bp.1;
    forall bp | bp in x ensures f(bp) in y && plan[f(bp)].block == bp.0 && plan[f(bp)].orderIndex == bp.1 {
      PairNeighbours(lanes, samples, payloads, workloads, first, second, ci, pi, wi, bp.0, bp.1);
    }
    ImageSize(x, f);
    forall k | k in y ensures k in Image(x, f) {
      NeighbourPair(lanes, samples, payloads, workloads, first, second, ci, pi, wi, k);
      assert f((plan[k].block, plan[k].orderIndex)) == k;
    }
    assert y == Image(x, f);
  }
}
