/** Exactly when a merge has a plan, and what the plan adds, over the artifacts and the directory. */
module MergePlan {
  import opened Common
  import opened Grouping
  import H = History
  import opened Merge
  import CrashSafety

  const PLATFORMS: set<string> := {"darwin", "linux", "win32"}

  /** An artifact is read as a result named after its record. */
  ghost predicate Sound(w: H.World, a: Artifact) {
    H.Validate(w, a.bytes).Some? && a.name == H.Validate(w, a.bytes).value.file
  }

  ghost predicate AllSound(w: H.World, incoming: seq<Artifact>) {
    forall k :: 0 <= k < |incoming| ==> Sound(w, incoming[k])
  }

  ghost function Of(w: H.World, a: Artifact): Candidate
    requires Sound(w, a)
  {
    var i := H.Validate(w, a.bytes).value;
    Candidate(a.bytes, i, H.EntryOf(w, i, a.bytes))
  }

  lemma {:induction false} LoadExactly(w: H.World, incoming: seq<Artifact>)
    ensures Load(w, incoming).Some? <==> AllSound(w, incoming)
    ensures Load(w, incoming).Some? ==>
              && |Load(w, incoming).value| == |incoming|
              && forall k :: 0 <= k < |incoming| ==> Load(w, incoming).value[k] == Of(w, incoming[k])
    decreases |incoming|
  {
    if incoming != [] {
      var n := |incoming| - 1;
      LoadExactly(w, incoming[..n]);
      assert forall k :: 0 <= k < n ==> incoming[..n][k] == incoming[k];
    }
  }

  // ----- complete batches -----

  /** Every platform has a result, and no other does. */
  ghost predicate Covers(batch: seq<Candidate>) {
    && (forall c :: c in batch ==> c.info.platform in PLATFORMS)
    && (forall p :: p in PLATFORMS ==> exists c :: c in batch && c.info.platform == p)
  }

  /** No two results share a platform. */
  ghost predicate Unshared(batch: seq<Candidate>) {
    forall b, c :: b in batch && c in batch && b.info.platform == c.info.platform ==> b == c
  }

  ghost predicate SameVersions(batch: seq<Candidate>) {
    forall b, c :: b in batch && c in batch ==> b.info.node == c.info.node && b.info.rust == c.info.rust
  }

  lemma {:induction false} PlatformsCount(batch: seq<Candidate>)
    ensures |Platforms(batch)| == |batch|
    ensures forall p :: p in Platforms(batch) <==> exists c :: c in batch && c.info.platform == p
  {
    if batch != [] {
      PlatformsCount(batch[1..]);
      assert batch == [batch[0]] + batch[1..];
      forall p ensures p in Platforms(batch) <==> exists c :: c in batch && c.info.platform == p {
        if c :| c in batch && c.info.platform == p { assert c == batch[0] || c in batch[1..]; }
      }
    }
  }

  ghost predicate Once(m: multiset<string>) {
    forall p :: m[p] <= 1
  }

  lemma OnceMore(m: multiset<string>, p: string)
    ensures Once(multiset{p} + m) <==> Once(m) && p !in m
  {
    var more := multiset{p} + m;
    assert more[p] == m[p] + 1;
    assert forall q :: more[q] == m[q] + if q == p then 1 else 0;
  }

  lemma UnsharedMore(batch: seq<Candidate>)
    requires Distinct(batch) && batch != []
    ensures Unshared(batch) <==> Unshared(batch[1..]) && forall c :: c in batch[1..] ==> c.info.platform != batch[0].info.platform
  {
    assert forall c :: c in batch <==> c == batch[0] || c in batch[1..];
    assert batch[0] !in batch[1..];
  }

  /** A platform is counted once exactly when no two members share it. */
  lemma {:induction false} OnceIff(batch: seq<Candidate>)
    requires Distinct(batch)
    ensures Once(Platforms(batch)) <==> Unshared(batch)
  {
    if batch != [] {
      hide Once, Unshared;
      UnsharedMore(batch);
      OnceMore(Platforms(batch[1..]), batch[0].info.platform);
      OnceIff(batch[1..]);
      PlatformsCount(batch[1..]);
    }
  }

  lemma ThreeIff(m: multiset<string>)
    ensures m == multiset{"darwin", "linux", "win32"} <==> Once(m) && forall p :: p in m <==> p in PLATFORMS
  {
    var three := multiset{"darwin", "linux", "win32"};
    assert forall p :: three[p] == if p in PLATFORMS then 1 else 0;
    if Once(m) && forall p :: p in m <==> p in PLATFORMS {
      assert forall p :: m[p] == three[p];
    }
  }

  lemma SameVersionsIff(batch: seq<Candidate>)
    ensures (forall k :: 0 <= k < |batch| ==> batch[k].info.node == batch[0].info.node && batch[k].info.rust == batch[0].info.rust)
            <==> SameVersions(batch)
  {
    assert forall k :: 0 <= k < |batch| ==> batch[k] in batch;
  }

  lemma CoversIff(batch: seq<Candidate>)
    ensures (forall p :: p in Platforms(batch) <==> p in PLATFORMS) <==> Covers(batch)
  {
    hide Platforms, PLATFORMS;
    PlatformsCount(batch);
  }

  lemma ThreePlatforms(batch: seq<Candidate>)
    requires Distinct(batch)
    ensures |batch| == 3 && Platforms(batch) == multiset{"darwin", "linux", "win32"} <==> Covers(batch) && Unshared(batch)
  {
    hide Platforms, Once, Covers, Unshared;
    PlatformsCount(batch);
    OnceIff(batch);
    ThreeIff(Platforms(batch));
    CoversIff(batch);
    assert |multiset{"darwin", "linux", "win32"}| == 3;
  }

  /** A complete batch: one result for each of the three platforms and no other, all with the same versions. */
  lemma CompleteIff(batch: seq<Candidate>)
    requires Distinct(batch)
    ensures CompleteBatch(batch) <==> Covers(batch) && Unshared(batch) && SameVersions(batch)
  {
    hide Platforms, Covers, Unshared, SameVersions;
    ThreePlatforms(batch);
    SameVersionsIff(batch);
  }

  // ----- over all the results that were read -----

  ghost function Results(w: H.World, incoming: seq<Artifact>): seq<Candidate>
    requires AllSound(w, incoming)
  {
    seq(|incoming|, k requires 0 <= k < |incoming| => Of(w, incoming[k]))
  }

  /** For every result: its batch has exactly one result for each of the three platforms, all with the same versions. */
  ghost predicate OneForEach(cs: seq<Candidate>) {
    && (forall c :: c in cs ==> c.info.platform in PLATFORMS)
    && (forall c, p :: c in cs && p in PLATFORMS ==> exists b :: b in cs && BatchKey(b) == BatchKey(c) && b.info.platform == p)
    && (forall b, c :: b in cs && c in cs && BatchKey(b) == BatchKey(c) ==>
          && (b.info.platform == c.info.platform ==> b == c)
          && b.info.node == c.info.node && b.info.rust == c.info.rust)
  }

  /** A batch is wholly new, or wholly in the manifest with the entries it has now. */
  ghost predicate WhollyThereOrNew(cs: seq<Candidate>, results: seq<H.Entry>) {
    && (forall b, c :: b in cs && c in cs && BatchKey(b) == BatchKey(c) ==> (Known(results, b.entry.id) <==> Known(results, c.entry.id)))
    && (forall c :: c in cs && Known(results, c.entry.id) ==> c.entry in results)
  }

  /** The batch of c: the results with its key. */
  ghost predicate IsBatchOf(cs: seq<Candidate>, c: Candidate, batch: seq<Candidate>) {
    Distinct(batch) && forall b :: b in batch <==> b in cs && BatchKey(b) == BatchKey(c)
  }

  lemma BatchOf(cs: seq<Candidate>, c: Candidate)
    requires DistinctFiles(cs) && c in cs
    ensures var g := GroupOf(cs, BatchKey, BatchKey(c));
            IsBatchOf(cs, c, g) && g in Batches(cs, GroupOrder(cs, BatchKey))
  {
    CrashSafety.DistinctFilesDistinct(cs);
    var k := BatchKey(c);
    GroupFacts(cs, BatchKey, k);
    var order := GroupOrder(cs, BatchKey);
    var i :| 0 <= i < |order| && order[i] == k;
    assert Batches(cs, order)[i] == GroupOf(cs, BatchKey, k);
  }

  lemma BatchHas(cs: seq<Candidate>, i: nat) returns (c: Candidate)
    requires DistinctFiles(cs) && i < |GroupOrder(cs, BatchKey)|
    ensures c in cs && GroupOrder(cs, BatchKey)[i] == BatchKey(c)
    ensures Batches(cs, GroupOrder(cs, BatchKey))[i] == GroupOf(cs, BatchKey, BatchKey(c))
    ensures IsBatchOf(cs, c, GroupOf(cs, BatchKey, BatchKey(c)))
  {
    var k := GroupOrder(cs, BatchKey)[i];
    GroupFacts(cs, BatchKey, k);
    c := GroupOf(cs, BatchKey, k)[0];
    assert c in GroupOf(cs, BatchKey, k);
    BatchOf(cs, c);
  }

  /** What is asked of every batch is asked of the batch of every result. */
  lemma OverBatches(cs: seq<Candidate>, good: seq<Candidate> -> bool)
    requires DistinctFiles(cs)
    ensures (forall g :: g in Batches(cs, GroupOrder(cs, BatchKey)) ==> good(g)) <==>
            (forall c :: c in cs ==> good(GroupOf(cs, BatchKey, BatchKey(c))))
  {
    hide IsBatchOf;
    var bs := Batches(cs, GroupOrder(cs, BatchKey));
    if forall g :: g in bs ==> good(g) {
      forall c | c in cs ensures good(GroupOf(cs, BatchKey, BatchKey(c))) { BatchOf(cs, c); }
    }
    if forall c :: c in cs ==> good(GroupOf(cs, BatchKey, BatchKey(c))) {
      forall i | 0 <= i < |bs| ensures good(bs[i]) { var c := BatchHas(cs, i); }
    }
  }

  ghost predicate CompleteOne(cs: seq<Candidate>, c: Candidate) {
    CompleteBatch(GroupOf(cs, BatchKey, BatchKey(c)))
  }

  /** Completeness of the batch of c, over the results themselves. */
  ghost predicate OneForEachAt(cs: seq<Candidate>, c: Candidate) {
    && (forall b :: b in cs && BatchKey(b) == BatchKey(c) ==> b.info.platform in PLATFORMS)
    && (forall p :: p in PLATFORMS ==> exists b :: b in cs && BatchKey(b) == BatchKey(c) && b.info.platform == p)
    && (forall a, b :: a in cs && BatchKey(a) == BatchKey(c) && b in cs && BatchKey(b) == BatchKey(c) ==>
          && (a.info.platform == b.info.platform ==> a == b)
          && a.info.node == b.info.node && a.info.rust == b.info.rust)
  }

  lemma CompleteAt(cs: seq<Candidate>, c: Candidate)
    requires DistinctFiles(cs) && c in cs
    ensures CompleteOne(cs, c) <==> OneForEachAt(cs, c)
  {
    hide CompleteBatch, Covers, Unshared, SameVersions, OneForEachAt;
    BatchOf(cs, c);
    CompleteIff(GroupOf(cs, BatchKey, BatchKey(c)));
    CompleteMembers(cs, c, GroupOf(cs, BatchKey, BatchKey(c)));
  }

  lemma CompleteMembers(cs: seq<Candidate>, c: Candidate, g: seq<Candidate>)
    requires IsBatchOf(cs, c, g)
    ensures Covers(g) && Unshared(g) && SameVersions(g) <==> OneForEachAt(cs, c)
  {
    hide PLATFORMS, BatchKey;
    assert Covers(g) <==>
      (forall b :: b in cs && BatchKey(b) == BatchKey(c) ==> b.info.platform in PLATFORMS)
      && (forall p :: p in PLATFORMS ==> exists b :: b in cs && BatchKey(b) == BatchKey(c) && b.info.platform == p);
  }

  lemma OneForEachIff(cs: seq<Candidate>)
    ensures OneForEach(cs) <==> forall c :: c in cs ==> OneForEachAt(cs, c)
  {
    hide PLATFORMS;
  }

  lemma GoodArtifactsIff(cs: seq<Candidate>)
    requires DistinctFiles(cs)
    ensures GoodArtifacts(cs) <==> cs != [] && OneForEach(cs)
  {
    hide CompleteBatch, OneForEach, OneForEachAt;
    OverBatches(cs, CompleteBatch);
    OneForEachIff(cs);
    var bs := Batches(cs, GroupOrder(cs, BatchKey));
    var order := GroupOrder(cs, BatchKey);
    assert forall k :: 0 <= k < |order| ==> bs[k] == GroupOf(cs, BatchKey, order[k]);
    assert (forall k :: 0 <= k < |order| ==> CompleteBatch(GroupOf(cs, BatchKey, order[k]))) <==> forall g :: g in bs ==> CompleteBatch(g);
    forall c | c in cs ensures CompleteBatch(GroupOf(cs, BatchKey, BatchKey(c))) <==> OneForEachAt(cs, c) {
      CompleteAt(cs, c);
    }
  }

  /** A batch is wholly new or wholly recorded. */
  predicate Settled(batch: seq<Candidate>, results: seq<H.Entry>) {
    || (forall c :: c in batch ==> !Known(results, c.entry.id))
    || (forall c :: c in batch ==> Known(results, c.entry.id) && c.entry in results)
  }

  lemma {:induction false} AdditionsIff(batches: seq<seq<Candidate>>, results: seq<H.Entry>)
    ensures Additions(batches, results).Some? <==> forall g :: g in batches ==> Settled(g, results)
    decreases |batches|
  {
    hide Known;
    if batches != [] {
      var n := |batches| - 1;
      AdditionsIff(batches[..n], results);
      assert forall g :: g in batches <==> g == batches[n] || g in batches[..n];
      assert (forall g :: g in batches ==> Settled(g, results)) <==>
        Settled(batches[n], results) && forall g :: g in batches[..n] ==> Settled(g, results);
      assert Additions(batches, results).Some? <==> Additions(batches[..n], results).Some? && Settled(batches[n], results);
    }
  }

  lemma SettledAt(cs: seq<Candidate>, results: seq<H.Entry>, c: Candidate)
    requires DistinctFiles(cs) && c in cs
    ensures Settled(GroupOf(cs, BatchKey, BatchKey(c)), results) <==>
            forall b :: b in cs && BatchKey(b) == BatchKey(c) ==>
              (Known(results, b.entry.id) <==> Known(results, c.entry.id)) && (Known(results, b.entry.id) ==> b.entry in results)
  {
    hide Known;
    BatchOf(cs, c);
  }

  lemma AllSettled(cs: seq<Candidate>, results: seq<H.Entry>)
    requires DistinctFiles(cs)
    ensures Additions(Batches(cs, GroupOrder(cs, BatchKey)), results).Some? <==> WhollyThereOrNew(cs, results)
  {
    hide Known, Settled, DistinctFiles, Additions, Batches;
    AdditionsIff(Batches(cs, GroupOrder(cs, BatchKey)), results);
    OverBatches(cs, g => Settled(g, results));
    forall c | c in cs ensures Settled(GroupOf(cs, BatchKey, BatchKey(c)), results) <==>
            forall b :: b in cs && BatchKey(b) == BatchKey(c) ==>
              (Known(results, b.entry.id) <==> Known(results, c.entry.id)) && (Known(results, b.entry.id) ==> b.entry in results) {
      SettledAt(cs, results, c);
    }
  }

  /** Everything a merge asks for, over the artifacts and the directory. */
  ghost predicate Mergeable(w: H.World, incoming: seq<Artifact>, d: H.Dir) {
    && incoming != [] && AllSound(w, incoming)
    && (forall j, k :: 0 <= j < k < |incoming| ==> incoming[j].name != incoming[k].name)
    && (forall f :: f in Orphans(d) ==> exists a :: a in incoming && a.name == f && a.bytes == d.files[f])
    && H.ValidHistory(w, d, true, Orphans(d))
    && OneForEach(Results(w, incoming))
    && WhollyThereOrNew(Results(w, incoming), H.IndexOf(d).results)
  }

  lemma DistinctNames(w: H.World, incoming: seq<Artifact>)
    requires AllSound(w, incoming)
    ensures DistinctFiles(Results(w, incoming)) <==> forall j, k :: 0 <= j < k < |incoming| ==> incoming[j].name != incoming[k].name
  {
    var cs := Results(w, incoming);
    assert forall k :: 0 <= k < |incoming| ==> cs[k].info.file == incoming[k].name;
  }

  lemma RecoverableIff(w: H.World, incoming: seq<Artifact>, d: H.Dir)
    requires AllSound(w, incoming)
    ensures Recoverable(Results(w, incoming), d) <==>
            forall f :: f in Orphans(d) ==> exists a :: a in incoming && a.name == f && a.bytes == d.files[f]
  {
    hide Orphans;
    var cs := Results(w, incoming);
    forall f | f in Orphans(d) && f in d.files
      ensures Recovers(cs, f, d.files[f]) <==> exists a :: a in incoming && a.name == f && a.bytes == d.files[f]
    {
      RecoversIff(w, incoming, f, d.files[f]);
    }
    OrphansAreFiles(d);
  }

  lemma OrphansAreFiles(d: H.Dir)
    ensures Orphans(d) <= d.files.Keys
  {
  }

  lemma RecoversIff(w: H.World, incoming: seq<Artifact>, f: string, bytes: string)
    requires AllSound(w, incoming)
    ensures Recovers(Results(w, incoming), f, bytes) <==> exists a :: a in incoming && a.name == f && a.bytes == bytes
  {
    var cs := Results(w, incoming);
    assert forall k :: 0 <= k < |incoming| ==> cs[k].info.file == incoming[k].name && cs[k].bytes == incoming[k].bytes;
    if Recovers(cs, f, bytes) {
      var c :| c in cs && c.info.file == f && bytes == c.bytes;
      var k :| 0 <= k < |cs| && cs[k] == c;
      assert incoming[k] in incoming;
    }
    if a :| a in incoming && a.name == f && a.bytes == bytes {
      var k :| 0 <= k < |incoming| && incoming[k] == a;
      assert cs[k] in cs;
    }
  }

  /**
    A merge has a plan if and only if every artifact is sound and named once, the directory's history is
    valid with every unnamed file among the artifacts byte for byte, every batch has exactly one result
    for each of the three platforms with the same versions, and is wholly new or wholly recorded.
  */
  lemma PlanExistsIff(cfg: Config, incoming: seq<Artifact>, d: H.Dir)
    ensures Plan(cfg, incoming, d).Some? <==> Mergeable(cfg.w, incoming, d)
  {
    hide Load, GoodArtifacts, Recoverable, Additions, H.ValidHistory, OneForEach, WhollyThereOrNew, Orphans, Batches, Sort, Sound, DistinctFiles;
    var w := cfg.w;
    LoadExactly(w, incoming);
    if Load(w, incoming).Some? {
      var cs := Results(w, incoming);
      assert Load(w, incoming).value == cs;
      DistinctNames(w, incoming);
      RecoverableIff(w, incoming, d);
      GoodAreDistinct(cs);
      if DistinctFiles(cs) {
        GoodArtifactsIff(cs);
        AllSettled(cs, H.IndexOf(d).results);
      }
    }
  }

  lemma GoodAreDistinct(cs: seq<Candidate>)
    ensures GoodArtifacts(cs) ==> DistinctFiles(cs)
  {
  }

  /** The plan adds exactly the results whose id the manifest does not know, each once. */
  lemma PlanAddsTheNew(cfg: Config, incoming: seq<Artifact>, d: H.Dir)
    requires Plan(cfg, incoming, d).Some?
    ensures AllSound(cfg.w, incoming)
    ensures DistinctFiles(Plan(cfg, incoming, d).value)
    ensures forall c :: c in Plan(cfg, incoming, d).value <==>
              c in Results(cfg.w, incoming) && !Known(H.IndexOf(d).results, c.entry.id)
  {
    hide Load, CompleteBatch, Recoverable, H.ValidHistory, Sort, Sound, Known, CrashSafety.Apart;
    LoadExactly(cfg.w, incoming);
    CrashSafety.PlanIsPlanned(cfg, incoming, d);
    var cs := Results(cfg.w, incoming);
    assert Load(cfg.w, incoming).value == cs;
    var bs := Batches(cs, GroupOrder(cs, BatchKey));
    var results := H.IndexOf(d).results;
    CrashSafety.BatchesDisjoint(cs);
    CrashSafety.AdditionsFacts(bs, results);
    CrashSafety.AdditionsOnce(bs, results);
    CrashSafety.SortFacts(cfg, Additions(bs, results).value);
  }

  // ----- the time of the update -----

  lemma {:induction false} LatestFrom(at: Option<int>, cs: seq<Candidate>)
    requires cs != []
    ensures var t := Latest(at, cs);
            && t.Some?
            && (at.Some? ==> at.value <= t.value) && (forall c :: c in cs ==> c.info.recordedAt <= t.value)
            && (at == t || exists c :: c in cs && c.info.recordedAt == t.value)
    decreases |cs|
  {
    var next := Some(if at.Some? && at.value > cs[0].info.recordedAt then at.value else cs[0].info.recordedAt);
    assert cs == [cs[0]] + cs[1..];
    if cs[1..] != [] { LatestFrom(next, cs[1..]); }
  }

  /** A new manifest is dated with the latest of its old date and the results it adds. */
  lemma UpdatedAtIsLatest(index: H.Index, additions: seq<Candidate>, t: int)
    requires additions != []
    ensures Updated(index, additions).updatedAt == Some(t) <==>
            && (index.updatedAt.Some? ==> index.updatedAt.value <= t)
            && (forall c :: c in additions ==> c.info.recordedAt <= t)
            && (index.updatedAt == Some(t) || exists c :: c in additions && c.info.recordedAt == t)
  {
    LatestFrom(index.updatedAt, additions);
  }

  // ----- the manifest of the target -----

  /**
    The manifest a merge installs keeps the old entries in front, unchanged, and appends the entries of the
    new results in order of run, then platform: each new result once, and nothing else.
  */
  lemma ManifestAppends(cfg: Config, incoming: seq<Artifact>, d: H.Dir)
    requires Plan(cfg, incoming, d).Some? && Plan(cfg, incoming, d).value != [] && Compares(cfg)
    ensures var additions := Plan(cfg, incoming, d).value;
            var was, now := H.IndexOf(d).results, H.IndexOf(Target(d, additions)).results;
            && |now| == |was| + |additions| && now[..|was|] == was
            && (forall k :: 0 <= k < |additions| ==> now[|was| + k] == additions[k].entry)
            && Sorted(cfg, additions)
  {
    hide Load, GoodArtifacts, Recoverable, H.ValidHistory, Additions, Sort, Batches, Compares, Sorted;
    var additions := Plan(cfg, incoming, d).value;
    var unsorted := Additions(Batches(Load(cfg.w, incoming).value, GroupOrder(Load(cfg.w, incoming).value, BatchKey)), H.IndexOf(d).results).value;
    assert additions == Sort(cfg, unsorted);
    SortOrders(cfg, unsorted, additions[0]);
  }
}
