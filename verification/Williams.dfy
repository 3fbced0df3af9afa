/** Williams counterbalancing (benchmark/competitors/plan.js, lines 1-32). */
module Williams {
  import opened Common

  datatype PlanError = NoSubjects | BadBlock | BadSamples(cohortId: string)

  function CycleLength(n: nat): nat {
    if n == 1 || n % 2 == 0 then n else n * 2
  }

  /** The subject index at place k of the base row 0, 1, n-1, 2, n-2, ... */
  function BaseAt(n: nat, k: nat): (r: nat)
    requires k < n
    ensures r < n
  {
    if k == 0 then 0 else if k % 2 == 1 then (k + 1) / 2 else n - k / 2
  }

  method BaseWilliamsOrder(size: int) returns (r: Result<seq<nat>, PlanError>)
    ensures r.Ok? <==> IsSafeInteger(size) && size >= 1
    ensures r.Err? ==> r.error == NoSubjects
    ensures r.Ok? ==> |r.value| == size && forall k :: 0 <= k < size ==> r.value[k] == BaseAt(size, k)
  {
    if !IsSafeInteger(size) || size < 1 {
      return Err(NoSubjects);
    }
    var order: seq<nat> := [0];
    var offset := 1;
    while |order| < size
      invariant 1 <= offset && 1 <= |order| <= size
      invariant |order| == Min(2 * offset - 1, size)
      invariant forall k :: 0 <= k < |order| ==> order[k] == BaseAt(size, k)
    {
      order := order + [offset];
      if |order| < size {
        order := order + [size - offset];
      }
      offset := offset + 1;
    }
    return Ok(order);
  }

  /** The subject index at position p in the row whose place in the cycle is z. */
  function CycleSlot(n: nat, z: nat, p: nat): (r: nat)
    requires p < n
    ensures r < n
  {
    (BaseAt(n, if n % 2 != 0 && z >= n then n - 1 - p else p) + z % n) % n
  }

  function Slot(n: nat, block: nat, p: nat): (r: nat)
    requires p < n
    ensures r < n
  {
    CycleSlot(n, block % CycleLength(n), p)
  }

  /** The execution order of one block. */
  function Row<T>(subjects: seq<T>, block: nat): (r: seq<T>)
    ensures |r| == |subjects|
    ensures forall p :: 0 <= p < |r| ==> r[p] == subjects[Slot(|subjects|, block, p)]
  {
    seq(|subjects|, p requires 0 <= p < |subjects| => subjects[Slot(|subjects|, block, p)])
  }

  method WilliamsOrder<T>(subjects: seq<T>, block: int) returns (r: Result<seq<T>, PlanError>)
    requires |subjects| <= MAX_SAFE
    ensures !(0 <= block <= MAX_SAFE) ==> r == Err(BadBlock)
    ensures 0 <= block <= MAX_SAFE && subjects == [] ==> r == Err(NoSubjects)
    ensures 0 <= block <= MAX_SAFE && subjects != [] ==> r == Ok(Row(subjects, block))
  {
    var size := |subjects|;
    if !IsSafeInteger(block) || block < 0 {
      return Err(BadBlock);
    }
    var base := BaseWilliamsOrder(size);
    if base.Err? {
      return Err(base.error);
    }
    var sequence := block % CycleLength(size);
    var row := sequence % size;
    var order := seq(size, k requires 0 <= k < size => subjects[(base.value[k] + row) % size]);
    if size % 2 != 0 && sequence >= size {
      order := seq(size, k requires 0 <= k < size => order[size - 1 - k]);
    }
    assert order == Row(subjects, block);
    return Ok(order);
  }

  // ----- modular arithmetic -----

  lemma MulMonotone(k: int, n: int)
    requires n > 0
    ensures k >= 1 ==> k * n >= n
    ensures k <= -1 ==> k * n <= -n
  {
  }

  lemma MulSmall(k: int, n: int)
    requires n > 0 && -n < k * n < n
    ensures k == 0
  {
    MulMonotone(k, n);
  }

  lemma ModUnique(a: int, n: int, q: int, r: int)
    requires n > 0 && 0 <= r < n && a == q * n + r
    ensures a % n == r
  {
    assert a == (a / n) * n + a % n;
    assert (a / n - q) * n == r - a % n;
    MulSmall(a / n - q, n);
  }

  lemma WrapMod(x: int, n: int)
    requires n > 0 && 0 <= x < 2 * n
    ensures x % n == if x < n then x else x - n
  {
    if x < n { ModUnique(x, n, 0, x); } else { ModUnique(x, n, 1, x - n); }
  }

  /** a - b around a clock of n hours */
  function Sub(a: nat, b: nat, n: nat): (r: nat)
    requires a < n && b < n
    ensures r < n
  {
    if a >= b then a - b else a + n - b
  }

  /** The block of the window start, start+1, ..., start+m-1 that leaves remainder z. */
  function Hit(start: nat, m: nat, z: nat): (b: nat)
    requires z < m
    ensures start <= b < start + m
  {
    start + (z - start) % m
  }

  lemma HitIsTheOne(start: nat, m: nat, z: nat, b: nat)
    requires z < m && start <= b < start + m
    ensures b % m == z <==> b == Hit(start, m, z)
  {
    if b == Hit(start, m, z) {
      ModUnique(b, m, -((z - start) / m), z);
    } else if b % m == z {
      ModUnique(z - start, m, -(b / m), b - start);
    }
  }

  // ----- the shape of a row -----

  /** The block's row runs forward; the others, in the second half of an odd cycle, are mirrored. */
  predicate Forward(n: nat, block: nat)
    requires n >= 1
  {
    n == 1 || n % 2 == 0 || block % (2 * n) < n
  }

  lemma CycleMod(n: nat, block: nat)
    requires n >= 1
    ensures block % CycleLength(n) % n == block % n
  {
    var m := CycleLength(n);
    var z := block % m;
    assert m == n || m == 2 * n;
    assert block == (block / m) * m + z && z == (z / n) * n + z % n;
    ModUnique(block, n, (block / m) * (if m == n then 1 else 2) + z / n, z % n);
  }

  /**
    A forward row starts with subject block mod n and then steps one on, two back, three on and so
    forth around the subjects.
  */
  lemma ForwardRow(n: nat, block: nat, p: nat)
    requires p < n && Forward(n, block)
    ensures Slot(n, block, 0) == block % n
    ensures p + 1 < n ==> Slot(n, block, p + 1) == (Slot(n, block, p) + if p % 2 == 0 then p + 1 else n - (p + 1)) % n
  {
    hide BaseAt;
    CycleMod(n, block);
    var row := block % n;
    WrapMod(row, n);
    assert BaseAt(n, 0) == 0 by { BaseFirst(n); }
    if p + 1 < n {
      BaseStep(n, p);
      WrapMod(BaseAt(n, p) + Gap(n, p), n);
      WrapMod(BaseAt(n, p) + row, n);
      WrapMod(BaseAt(n, p + 1) + row, n);
      WrapMod(Slot(n, block, p) + Gap(n, p), n);
    }
  }

  lemma BaseFirst(n: nat)
    requires n >= 1
    ensures BaseAt(n, 0) == 0
  {
  }

  /** A mirrored row is the row n blocks earlier, which is forward, read backwards. */
  lemma MirroredRow(n: nat, block: nat, p: nat)
    requires p < n && !Forward(n, block)
    ensures block >= n && Forward(n, block - n) && Slot(n, block, p) == Slot(n, block - n, n - 1 - p)
  {
    hide BaseAt;
    var m := 2 * n;
    var z := block % m;
    assert block == (block / m) * m + z;
    MulMonotone(block / m, m);
    ModUnique(block - n, m, block / m, z - n);
    WrapMod(z, n);
    WrapMod(z - n, n);
  }

  // ----- one cycle -----

  /** The places in the cycle at which subject i stands at position p: one, or two for odd sizes. */
  function Places(n: nat, p: nat, i: nat): set<nat>
    requires p < n && i < n
  {
    if CycleLength(n) == n then {Sub(i, BaseAt(n, p), n)}
    else {Sub(i, BaseAt(n, p), n), n + Sub(i, BaseAt(n, n - 1 - p), n)}
  }

  lemma PlacesExact(n: nat, p: nat, i: nat, z: nat)
    requires p < n && i < n && z < CycleLength(n)
    ensures CycleSlot(n, z, p) == i <==> z in Places(n, p, i)
  {
    WrapMod(z, n);
    var q := if n % 2 != 0 && z >= n then n - 1 - p else p;
    WrapMod(BaseAt(n, q) + z % n, n);
  }

  /** How far clockwise the base row steps from place p to place p + 1: 1, n-2, 3, n-4, ... */
  function Gap(n: nat, p: nat): (r: nat)
    requires p + 1 < n
    ensures 1 <= r < n
  {
    if p % 2 == 0 then p + 1 else n - (p + 1)
  }

  lemma BaseStep(n: nat, p: nat)
    requires p + 1 < n
    ensures BaseAt(n, p + 1) == (BaseAt(n, p) + Gap(n, p)) % n
  {
    WrapMod(BaseAt(n, p) + Gap(n, p), n);
  }

  lemma ForwardPair(n: nat, row: nat, p: nat, i: nat, j: nat)
    requires p + 1 < n && row < n && i < n && j < n
    ensures (BaseAt(n, p) + row) % n == i && (BaseAt(n, p + 1) + row) % n == j
        <==> row == Sub(i, BaseAt(n, p), n) && Gap(n, p) == Sub(j, i, n)
  {
    hide BaseAt, Gap;
    BaseStep(n, p);
    WrapMod(BaseAt(n, p) + Gap(n, p), n);
    WrapMod(BaseAt(n, p) + row, n);
    WrapMod(BaseAt(n, p + 1) + row, n);
  }

  /** The positions where the base row steps by d: one for even n; two or none for odd n. */
  lemma GapPositions(n: nat, p: nat, d: nat)
    requires p + 1 < n && 1 <= d < n
    ensures n % 2 == 0 ==> (Gap(n, p) == d <==> p == if d % 2 == 1 then d - 1 else n - d - 1)
    ensures n % 2 == 1 ==> (Gap(n, p) == d <==> d % 2 == 1 && (p == d - 1 || p == n - d - 1))
  {
  }

  /** The (place in the cycle, position) pairs at which i stands just before j. */
  function Meetings(n: nat, i: nat, j: nat): set<(nat, nat)>
    requires i < n && j < n && i != j
  {
    var d := Sub(j, i, n);
    if n % 2 == 0 then
      var p := if d % 2 == 1 then d - 1 else n - d - 1;
      {(Sub(i, BaseAt(n, p), n), p)}
    else if d % 2 == 1 then
      {(Sub(i, BaseAt(n, d - 1), n), d - 1), (Sub(i, BaseAt(n, n - d - 1), n), n - d - 1)}
    else
      {(n + Sub(j, BaseAt(n, n - d - 1), n), d - 1), (n + Sub(j, BaseAt(n, d - 1), n), n - d - 1)}
  }

  lemma ForwardMeeting(n: nat, i: nat, j: nat, row: nat, p: nat)
    requires i < n && j < n && i != j && p + 1 < n && row < n
    ensures row == Sub(i, BaseAt(n, p), n) && Gap(n, p) == Sub(j, i, n) <==> (row, p) in Meetings(n, i, j)
  {
    hide BaseAt, Gap;
    GapPositions(n, p, Sub(j, i, n));
  }

  lemma MirroredMeeting(n: nat, i: nat, j: nat, row: nat, p: nat)
    requires i < n && j < n && i != j && p + 1 < n && row < n && n % 2 == 1
    ensures row == Sub(j, BaseAt(n, n - 2 - p), n) && Gap(n, n - 2 - p) == Sub(i, j, n) <==> (n + row, p) in Meetings(n, i, j)
  {
    hide BaseAt, Gap;
    GapPositions(n, n - 2 - p, Sub(i, j, n));
  }

  /** Adjacent slots of a row are adjacent places of the base row, mirrored in a reversed row. */
  lemma SlotPair(n: nat, z: nat, p: nat)
    requires p + 1 < n && z < CycleLength(n)
    ensures var q, row := if n % 2 != 0 && z >= n then n - 2 - p else p, z % n;
            var here, there := (BaseAt(n, q) + row) % n, (BaseAt(n, q + 1) + row) % n;
            if n % 2 != 0 && z >= n then CycleSlot(n, z, p) == there && CycleSlot(n, z, p + 1) == here
            else CycleSlot(n, z, p) == here && CycleSlot(n, z, p + 1) == there
  {
    hide BaseAt;
  }

  lemma MeetingsExact(n: nat, i: nat, j: nat, z: nat, p: nat)
    requires i < n && j < n && i != j && p + 1 < n && z < CycleLength(n)
    ensures CycleSlot(n, z, p) == i && CycleSlot(n, z, p + 1) == j <==> (z, p) in Meetings(n, i, j)
  {
    hide BaseAt, Gap, CycleSlot, Meetings, Sub;
    WrapMod(z, n);
    SlotPair(n, z, p);
    var row := z % n;
    if n % 2 != 0 && z >= n {
      ForwardPair(n, row, n - 2 - p, j, i);
      MirroredMeeting(n, i, j, row, p);
    } else {
      ForwardPair(n, row, p, i, j);
      ForwardMeeting(n, i, j, row, p);
    }
  }

  // ----- whole windows -----

  /** The blocks of a window in which subject i stands at position p. */
  ghost function BlocksAt(n: nat, start: nat, len: nat, p: nat, i: nat): set<nat>
    requires p < n
  {
    set b: nat | start <= b < start + len && Slot(n, b, p) == i
  }

  /** The (block, position) pairs of a window at which i stands just before j. */
  ghost function PairsAt(n: nat, start: nat, len: nat, i: nat, j: nat): set<(nat, nat)> {
    set b: nat, p: nat | start <= b < start + len && p < n - 1 && Slot(n, b, p) == i && Slot(n, b, p + 1) == j :: (b, p)
  }

  lemma CycleRatio(n: nat)
    requires n >= 1
    ensures CycleLength(n) / n == if CycleLength(n) == n then 1 else 2
  {
    if CycleLength(n) != n { assert (n * 2) / n == 2; }
  }

  lemma OneCyclePosition(n: nat, start: nat, p: nat, i: nat)
    requires p < n && i < n
    ensures |BlocksAt(n, start, CycleLength(n), p, i)| == CycleLength(n) / n
  {
    hide CycleSlot, BaseAt, Sub, Hit;
    var m := CycleLength(n);
    var found := BlocksAt(n, start, m, p, i);
    var z0 := Sub(i, BaseAt(n, p), n);
    if m == n {
      forall b: nat | start <= b < start + m ensures b in found <==> b == Hit(start, m, z0) {
        PlacesExact(n, p, i, b % m);
        HitIsTheOne(start, m, z0, b);
      }
      assert found == {Hit(start, m, z0)};
    } else {
      var z1 := n + Sub(i, BaseAt(n, n - 1 - p), n);
      forall b: nat | start <= b < start + m
        ensures b in found <==> b == Hit(start, m, z0) || b == Hit(start, m, z1)
      {
        PlacesExact(n, p, i, b % m);
        HitIsTheOne(start, m, z0, b);
        HitIsTheOne(start, m, z1, b);
      }
      HitIsTheOne(start, m, z0, Hit(start, m, z1));
      HitIsTheOne(start, m, z1, Hit(start, m, z1));
      assert found == {Hit(start, m, z0), Hit(start, m, z1)};
    }
    CycleRatio(n);
  }

  /** The blocks of a window that stand for the two places of an adjacency, with its positions. */
  ghost function MeetingBlocks(n: nat, start: nat, i: nat, j: nat): set<(nat, nat)>
    requires i < n && j < n && i != j
  {
    var m := CycleLength(n);
    set zp | zp in Meetings(n, i, j) && zp.0 < m :: (Hit(start, m, zp.0), zp.1)
  }

  lemma PairInWindow(n: nat, start: nat, i: nat, j: nat, b: nat, p: nat)
    requires i < n && j < n && i != j && start <= b < start + CycleLength(n) && p < n - 1
    ensures (b, p) in PairsAt(n, start, CycleLength(n), i, j) <==> (b, p) in MeetingBlocks(n, start, i, j)
  {
    hide CycleSlot, Meetings, Hit, CycleLength;
    var m := CycleLength(n);
    MeetingsExact(n, i, j, b % m, p);
    HitIsTheOne(start, m, b % m, b);
    forall zp | zp in Meetings(n, i, j) && zp.0 < m && (Hit(start, m, zp.0), zp.1) == (b, p)
      ensures zp == (b % m, p)
    {
      HitIsTheOne(start, m, zp.0, b);
    }
  }

  lemma MeetingsSize(n: nat, i: nat, j: nat)
    requires i < n && j < n && i != j
    ensures |Meetings(n, i, j)| == CycleLength(n) / n
    ensures forall zp :: zp in Meetings(n, i, j) ==> zp.0 < CycleLength(n) && zp.1 < n - 1
  {
    hide BaseAt;
    CycleRatio(n);
    var d := Sub(j, i, n);
    if n % 2 == 1 { assert d - 1 != n - d - 1; }
  }

  lemma HitsSize(start: nat, m: nat, zs: set<(nat, nat)>)
    requires forall zp :: zp in zs ==> zp.0 < m
    ensures |set zp | zp in zs && zp.0 < m :: (Hit(start, m, zp.0), zp.1)| == |zs|
  {
    hide Hit;
    var f := (zp: (nat, nat)) => if zp.0 < m then (Hit(start, m, zp.0), zp.1) else zp;
    forall x, y | x in zs && y in zs && f(x) == f(y) ensures x == y {
      HitIsTheOne(start, m, x.0, f(x).0);
      HitIsTheOne(start, m, y.0, f(y).0);
    }
    ImageSize(zs, f);
    assert (set zp | zp in zs && zp.0 < m :: (Hit(start, m, zp.0), zp.1)) == Image(zs, f);
  }

  lemma OneCyclePairs(n: nat, start: nat, i: nat, j: nat)
    requires i < n && j < n && i != j
    ensures |PairsAt(n, start, CycleLength(n), i, j)| == CycleLength(n) / n
  {
    hide Slot, Meetings, Hit, CycleLength;
    var m := CycleLength(n);
    MeetingsSize(n, i, j);
    HitsSize(start, m, Meetings(n, i, j));
    forall b: nat, p: nat | start <= b < start + m && p < n - 1
      ensures (b, p) in PairsAt(n, start, m, i, j) <==> (b, p) in MeetingBlocks(n, start, i, j)
    {
      PairInWindow(n, start, i, j, b, p);
    }
    assert PairsAt(n, start, m, i, j) == MeetingBlocks(n, start, i, j);
  }

  lemma WindowSplit(n: nat, start: nat, a: nat, b: nat, p: nat, i: nat)
    requires p < n
    ensures |BlocksAt(n, start, a + b, p, i)| == |BlocksAt(n, start, a, p, i)| + |BlocksAt(n, start + a, b, p, i)|
  {
    hide Slot;
    var x, y := BlocksAt(n, start, a, p, i), BlocksAt(n, start + a, b, p, i);
    assert BlocksAt(n, start, a + b, p, i) == x + y;
    assert x !! y;
  }

  lemma WindowPairsSplit(n: nat, start: nat, a: nat, b: nat, i: nat, j: nat)
    ensures |PairsAt(n, start, a + b, i, j)| == |PairsAt(n, start, a, i, j)| + |PairsAt(n, start + a, b, i, j)|
  {
    hide Slot;
    var x, y := PairsAt(n, start, a, i, j), PairsAt(n, start + a, b, i, j);
    assert PairsAt(n, start, a + b, i, j) == x + y;
    assert x !! y;
  }

  lemma MulStep(k: nat, x: nat)
    requires k > 0
    ensures 0 <= (k - 1) * x && k * x == (k - 1) * x + x
  {
  }

  lemma NoBlocks(n: nat, start: nat, p: nat, i: nat)
    requires p < n
    ensures BlocksAt(n, start, 0, p, i) == {}
  {
  }

  /** Over any number of complete cycles, from any block. */
  lemma {:induction false} CyclesPosition(n: nat, start: nat, cycles: nat, p: nat, i: nat)
    requires p < n && i < n
    ensures |BlocksAt(n, start, cycles * CycleLength(n), p, i)| == cycles * (CycleLength(n) / n)
    decreases cycles
  {
    hide Slot, CycleLength, BlocksAt;
    var m := CycleLength(n);
    if cycles > 0 {
      var before := (cycles - 1) * m;
      MulStep(cycles, m);
      MulStep(cycles, m / n);
      CyclesPosition(n, start, cycles - 1, p, i);
      OneCyclePosition(n, start + before, p, i);
      WindowSplit(n, start, before, m, p, i);
    } else {
      NoBlocks(n, start, p, i);
    }
  }

  lemma NoPairs(n: nat, start: nat, i: nat, j: nat)
    ensures PairsAt(n, start, 0, i, j) == {}
  {
  }

  lemma {:induction false} CyclesPairs(n: nat, start: nat, cycles: nat, i: nat, j: nat)
    requires i < n && j < n && i != j
    ensures |PairsAt(n, start, cycles * CycleLength(n), i, j)| == cycles * (CycleLength(n) / n)
    decreases cycles
  {
    hide Slot, CycleLength, PairsAt;
    var m := CycleLength(n);
    if cycles > 0 {
      var before := (cycles - 1) * m;
      MulStep(cycles, m);
      MulStep(cycles, m / n);
      CyclesPairs(n, start, cycles - 1, i, j);
      OneCyclePairs(n, start + before, i, j);
      WindowPairsSplit(n, start, before, m, i, j);
    } else {
      NoPairs(n, start, i, j);
    }
  }

  // ----- the balance of the rows themselves -----

  /** The blocks of a window in which a subject runs at position p. */
  ghost function RowBlocks<T>(subjects: seq<T>, start: nat, len: nat, p: nat, subject: T): set<nat>
    requires p < |subjects|
  {
    set b: nat | start <= b < start + len && Row(subjects, b)[p] == subject
  }

  /** The (block, position) pairs of a window at which `first` runs right before `second`. */
  ghost function RowPairs<T>(subjects: seq<T>, start: nat, len: nat, first: T, second: T): set<(nat, nat)> {
    set b: nat, p: nat | start <= b < start + len && p < |subjects| - 1
      && Row(subjects, b)[p] == first && Row(subjects, b)[p + 1] == second :: (b, p)
  }

  lemma RowAt<T>(subjects: seq<T>, b: nat, p: nat, i: nat)
    requires Distinct(subjects) && p < |subjects| && i < |subjects|
    ensures Row(subjects, b)[p] == subjects[i] <==> Slot(|subjects|, b, p) == i
  {
    hide Slot, Row;
  }

  /** Every subject stands at every position exactly cycle/n times in each complete cycle, from any block on. */
  lemma PositionBalance<T>(subjects: seq<T>, start: nat, cycles: nat, p: nat, subject: T)
    requires Distinct(subjects) && subject in subjects && p < |subjects|
    ensures var n := |subjects|;
            |RowBlocks(subjects, start, cycles * CycleLength(n), p, subject)| == cycles * (CycleLength(n) / n)
  {
    hide Slot, Row, CycleLength, Distinct;
    var n := |subjects|;
    var i :| 0 <= i < n && subjects[i] == subject;
    CyclesPosition(n, start, cycles, p, i);
    forall b: nat ensures Row(subjects, b)[p] == subject <==> Slot(n, b, p) == i {
      RowAt(subjects, b, p, i);
    }
    assert RowBlocks(subjects, start, cycles * CycleLength(n), p, subject) == BlocksAt(n, start, cycles * CycleLength(n), p, i);
  }

  /** Every ordered pair of distinct subjects is adjacent exactly cycle/n times in each complete cycle. */
  lemma CarryoverBalance<T>(subjects: seq<T>, start: nat, cycles: nat, first: T, second: T)
    requires Distinct(subjects) && first in subjects && second in subjects && first != second
    ensures var n := |subjects|;
            |RowPairs(subjects, start, cycles * CycleLength(n), first, second)| == cycles * (CycleLength(n) / n)
  {
    hide Slot, Row, CycleLength, Distinct;
    var n := |subjects|;
    var i :| 0 <= i < n && subjects[i] == first;
    var j :| 0 <= j < n && subjects[j] == second;
    CyclesPairs(n, start, cycles, i, j);
    forall b: nat, p: nat | p < n - 1
      ensures Row(subjects, b)[p] == first && Row(subjects, b)[p + 1] == second <==> Slot(n, b, p) == i && Slot(n, b, p + 1) == j
    {
      RowAt(subjects, b, p, i);
      RowAt(subjects, b, p + 1, j);
    }
    assert RowPairs(subjects, start, cycles * CycleLength(n), first, second) == PairsAt(n, start, cycles * CycleLength(n), i, j);
  }
}
