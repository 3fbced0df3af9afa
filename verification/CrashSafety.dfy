/** What a merge leaves behind when it crashes or fails at any step, and what a rerun makes of it. */
module CrashSafety {
  import opened Common
  import opened Grouping
  import H = History
  import opened Merge

  ghost predicate SubMap(a: map<string, string>, b: map<string, string>) {
    forall f :: f in a ==> f in b && a[f] == b[f]
  }

  /** The files the manifest names. */
  ghost function Retained(d: H.Dir): map<string, string> {
    map f | f in d.files && f in H.Files(H.IndexOf(d).results) :: d.files[f]
  }

  /** The manifest of d still stands, with its own files untouched and some of the additions' files beside them. */
  ghost predicate Between(d: H.Dir, additions: seq<Candidate>, e: H.Dir) {
    e.index == d.index && SubMap(Retained(d), e.files) && SubMap(e.files, Retained(d) + FilesOf(additions))
  }

  // ----- what a plan guarantees -----

  ghost predicate Genuine(w: H.World, c: Candidate) {
    H.RecordedEntry(w, c.bytes) == Some(c.entry) && H.Validate(w, c.bytes) == Some(c.info)
  }

  lemma {:induction false} LoadIsGenuine(w: H.World, incoming: seq<Artifact>)
    requires Load(w, incoming).Some?
    ensures forall c :: c in Load(w, incoming).value ==> Genuine(w, c)
    decreases |incoming|
  {
    if incoming != [] { LoadIsGenuine(w, incoming[..|incoming| - 1]); }
  }

  lemma {:induction false} AdditionsFacts(batches: seq<seq<Candidate>>, results: seq<H.Entry>)
    requires Additions(batches, results).Some?
    ensures forall c :: c in Additions(batches, results).value ==> !Known(results, c.entry.id) && exists b :: b in batches && c in b
    ensures forall b, c :: b in batches && c in b ==> c in Additions(batches, results).value || (Known(results, c.entry.id) && c.entry in results)
    decreases |batches|
  {
    if batches != [] {
      var n := |batches| - 1;
      AdditionsFacts(batches[..n], results);
      assert forall b :: b in batches <==> b == batches[n] || b in batches[..n];
    }
  }

  ghost predicate Apart(batches: seq<seq<Candidate>>) {
    && (forall i :: 0 <= i < |batches| ==> Distinct(batches[i]))
    && (forall i, j, c :: 0 <= i < j < |batches| && c in batches[i] ==> c !in batches[j])
  }

  /** Each addition occurs once, as batches share nothing and repeat nothing. */
  lemma {:induction false} AdditionsOnce(batches: seq<seq<Candidate>>, results: seq<H.Entry>)
    requires Additions(batches, results).Some?
    requires Apart(batches)
    ensures Distinct(Additions(batches, results).value)
    decreases |batches|
  {
    if batches != [] {
      var n := |batches| - 1;
      AdditionsOnce(batches[..n], results);
      AdditionsFacts(batches[..n], results);
      var a, b := Additions(batches[..n], results).value, batches[n];
      assert forall c :: c in a ==> c !in b;
      forall i, j | 0 <= i < j < |a + b| ensures (a + b)[i] != (a + b)[j] {
        if i < |a| <= j { assert a[i] in a && b[j - |a|] in b; }
      }
    }
  }

  lemma DistinctFilesDistinct(cs: seq<Candidate>)
    requires DistinctFiles(cs)
    ensures Distinct(cs)
  {
  }

  lemma BatchesDisjoint(cs: seq<Candidate>)
    requires DistinctFiles(cs)
    ensures var bs := Batches(cs, GroupOrder(cs, BatchKey));
            && Apart(bs)
            && (forall c :: c in cs ==> exists b :: b in bs && c in b)
            && (forall b, c :: b in bs && c in b ==> c in cs)
  {
    var order := GroupOrder(cs, BatchKey);
    var bs := Batches(cs, order);
    DistinctFilesDistinct(cs);
    GroupFacts(cs, BatchKey, "");
    forall k ensures (forall c :: c in GroupOf(cs, BatchKey, k) <==> c in cs && BatchKey(c) == k) && Distinct(GroupOf(cs, BatchKey, k)) {
      GroupFacts(cs, BatchKey, k);
    }
    forall c | c in cs ensures exists b :: b in bs && c in b {
      GroupFacts(cs, BatchKey, BatchKey(c));
      var i :| 0 <= i < |order| && order[i] == BatchKey(c);
      assert bs[i] in bs && c in bs[i];
    }
  }

  lemma SortFacts(cfg: Config, s: seq<Candidate>)
    requires Distinct(s)
    ensures Distinct(Sort(cfg, s)) && (forall c :: c in Sort(cfg, s) <==> c in s) && |Sort(cfg, s)| == |s|
  {
    var t := Sort(cfg, s);
    SortKeeps(cfg, s);
    forall c ensures c in t <==> c in s {
      assert c in t <==> c in multiset(t);
      assert c in s <==> c in multiset(s);
    }
    DistinctCounts(s);
    CountsDistinct(t);
    assert |multiset(t)| == |t| && |multiset(s)| == |s|;
  }

  lemma {:induction false} DistinctCounts<T>(s: seq<T>)
    requires Distinct(s)
    ensures forall x :: multiset(s)[x] <= 1
    decreases |s|
  {
    if s != [] {
      var n := |s| - 1;
      DistinctCounts(s[..n]);
      assert s == s[..n] + [s[n]];
      assert s[n] !in s[..n];
      assert s[n] !in multiset(s[..n]);
    }
  }

  lemma CountsDistinct<T>(s: seq<T>)
    requires forall x :: multiset(s)[x] <= 1
    ensures Distinct(s)
  {
    forall i, j | 0 <= i < j < |s| ensures s[i] != s[j] {
      assert s == s[..j] + s[j..];
      assert multiset(s)[s[j]] == multiset(s[..j])[s[j]] + multiset(s[j..])[s[j]];
      assert s[j..][0] in multiset(s[j..]);
      assert s[j] !in multiset(s[..j]);
      assert s[..j][i] in multiset(s[..j]);
    }
  }

  lemma SameStem(a: string, b: string)
    requires a + ".json" == b + ".json"
    ensures a == b
  {
    assert (a + ".json")[..|a|] == a && (b + ".json")[..|b|] == b;
  }

  /** The candidates of a plan, and what is known of its additions. */
  ghost predicate Planned(w: H.World, d: H.Dir, additions: seq<Candidate>) {
    && H.ValidHistory(w, d, true, Orphans(d))
    && DistinctFiles(additions)
    && (forall c :: c in additions ==> Genuine(w, c) && !Known(H.IndexOf(d).results, c.entry.id))
    && (forall f :: f in Orphans(d) ==> exists c :: c in additions && c.info.file == f && c.bytes == d.files[f])
  }

  lemma PlanIsPlanned(cfg: Config, incoming: seq<Artifact>, d: H.Dir)
    requires Plan(cfg, incoming, d).Some?
    ensures Planned(cfg.w, d, Plan(cfg, incoming, d).value)
  {
    hide CompleteBatch, Sort, Load, H.ValidHistory, Apart;
    var cs := Load(cfg.w, incoming).value;
    var bs := Batches(cs, GroupOrder(cs, BatchKey));
    var results := H.IndexOf(d).results;
    var unsorted := Additions(bs, results).value;
    var additions := Sort(cfg, unsorted);
    LoadIsGenuine(cfg.w, incoming);
    BatchesDisjoint(cs);
    AdditionsFacts(bs, results);
    AdditionsOnce(bs, results);
    SortFacts(cfg, unsorted);
    forall c | c in additions ensures c in cs {
      assert c in unsorted;
    }
    SubsetDistinctFiles(cs, additions);
    forall f | f in Orphans(d) ensures exists c :: c in additions && c.info.file == f && c.bytes == d.files[f] {
      var c :| c in cs && c.info.file == f && d.files[f] == c.bytes;
      var b :| b in bs && c in b;
      assert c.entry.file == f;
      assert c in unsorted;
    }
  }

  lemma SubsetDistinctFiles(cs: seq<Candidate>, s: seq<Candidate>)
    requires DistinctFiles(cs) && Distinct(s) && forall c :: c in s ==> c in cs
    ensures DistinctFiles(s)
  {
    forall j, k | 0 <= j < k < |s| ensures s[j].info.file != s[k].info.file {
      assert s[j] in s && s[k] in s;
      var x :| 0 <= x < |cs| && cs[x] == s[j];
      var y :| 0 <= y < |cs| && cs[y] == s[k];
      assert x != y;
    }
  }

  lemma {:induction false} FilesOfFacts(s: seq<Candidate>)
    requires DistinctFiles(s)
    ensures forall c :: c in s ==> c.info.file in FilesOf(s) && FilesOf(s)[c.info.file] == c.bytes
    ensures forall f :: f in FilesOf(s) ==> exists c :: c in s && c.info.file == f && c.bytes == FilesOf(s)[f]
    decreases |s|
  {
    if s != [] {
      var n := |s| - 1;
      FilesOfFacts(s[..n]);
      assert s == s[..n] + [s[n]];
      forall c | c in s[..n] ensures c.info.file != s[n].info.file {
        var j :| 0 <= j < n && s[j] == c;
      }
    }
  }

  /** No addition's file is named by the manifest. */
  lemma AdditionsAreApart(w: H.World, d: H.Dir, additions: seq<Candidate>)
    requires Planned(w, d, additions)
    ensures FilesOf(additions).Keys !! H.Files(H.IndexOf(d).results)
  {
    FilesOfFacts(additions);
    forall f | f in FilesOf(additions) && f in H.Files(H.IndexOf(d).results) ensures false {
      var c :| c in additions && c.info.file == f;
      var e :| e in H.IndexOf(d).results && e.file == f;
      SameStem(c.info.id, e.id);
    }
  }

  /** A directory in between still has all it needs, and completing it gives the target. */
  lemma BetweenCompletes(w: H.World, d: H.Dir, additions: seq<Candidate>, e: H.Dir)
    requires Planned(w, d, additions) && Between(d, additions, e)
    ensures Target(e, additions) == Target(d, additions)
    ensures Target(d, additions).files == Retained(d) + FilesOf(additions)
  {
    StartIsBetween(w, d, additions);
    UnionAbsorbs(Retained(d), FilesOf(additions), d.files);
    UnionAbsorbs(Retained(d), FilesOf(additions), e.files);
  }

  lemma UnionAbsorbs(base: map<string, string>, more: map<string, string>, m: map<string, string>)
    requires SubMap(base, m) && SubMap(m, base + more)
    ensures m + more == base + more
  {
  }

  lemma StartIsBetween(w: H.World, d: H.Dir, additions: seq<Candidate>)
    requires Planned(w, d, additions)
    ensures Between(d, additions, d)
  {
    FilesOfFacts(additions);
    AdditionsAreApart(w, d, additions);
  }

  lemma BetweenFiles(w: H.World, d: H.Dir, additions: seq<Candidate>, e: H.Dir)
    requires Planned(w, d, additions) && Between(d, additions, e)
    ensures Orphans(e) <= e.files.Keys && e.files.Keys - Orphans(e) == H.Files(H.IndexOf(d).results)
    ensures forall f :: f in e.files && f !in Orphans(e) ==> f in d.files && f !in Orphans(d) && e.files[f] == d.files[f]
    ensures forall x :: x in H.IndexOf(d).results ==> x.file in e.files && x.file in d.files && e.files[x.file] == d.files[x.file]
  {
    hide H.RecordedEntry, H.Validate, Genuine, DistinctFiles, FilesOf;
    AdditionsAreApart(w, d, additions);
    forall x | x in H.IndexOf(d).results ensures x.file in e.files && x.file in d.files && e.files[x.file] == d.files[x.file] {
      assert x.file in Retained(d);
    }
    forall f | f in e.files && f !in Orphans(e) ensures f in d.files && f !in Orphans(d) && e.files[f] == d.files[f] {
      assert f in Retained(d);
    }
  }

  /** In between, the manifest is intact and a new plan is the old one. */
  lemma BetweenIsIntact(w: H.World, d: H.Dir, additions: seq<Candidate>, e: H.Dir)
    requires Planned(w, d, additions) && Between(d, additions, e)
    ensures H.Intact(w, e) && H.ValidHistory(w, e, true, Orphans(e))
  {
    hide H.RecordedEntry, H.Validate, Genuine, DistinctFiles, FilesOf, Retained, SubMap, H.Files, H.DistinctIds, Orphans;
    BetweenFiles(w, d, additions, e);
  }

  lemma BetweenReplans(cfg: Config, incoming: seq<Artifact>, d: H.Dir, e: H.Dir)
    requires Plan(cfg, incoming, d).Some? && Between(d, Plan(cfg, incoming, d).value, e)
    ensures Plan(cfg, incoming, e) == Plan(cfg, incoming, d)
  {
    hide Sort, Load, GoodArtifacts, H.ValidHistory, Additions;
    PlanIsPlanned(cfg, incoming, d);
    var additions := Plan(cfg, incoming, d).value;
    var cs := Load(cfg.w, incoming).value;
    BetweenIsIntact(cfg.w, d, additions, e);
    FilesOfFacts(additions);
    AdditionsAreApart(cfg.w, d, additions);
    forall f | f in Orphans(e) ensures exists c :: c in cs && c.info.file == f && e.files[f] == c.bytes {
      var c :| c in additions && c.info.file == f && c.bytes == FilesOf(additions)[f];
      AdditionsAreCandidates(cfg, incoming, d, c);
    }
  }

  lemma AdditionsAreCandidates(cfg: Config, incoming: seq<Artifact>, d: H.Dir, c: Candidate)
    requires Plan(cfg, incoming, d).Some? && c in Plan(cfg, incoming, d).value
    ensures c in Load(cfg.w, incoming).value
  {
    hide Sort, Load, CompleteBatch, H.ValidHistory;
    var cs := Load(cfg.w, incoming).value;
    var bs := Batches(cs, GroupOrder(cs, BatchKey));
    var unsorted := Additions(bs, H.IndexOf(d).results).value;
    BatchesDisjoint(cs);
    AdditionsFacts(bs, H.IndexOf(d).results);
    SortKeeps(cfg, unsorted);
    assert c in multiset(Sort(cfg, unsorted));
    assert c in multiset(unsorted);
  }

  // ----- the target -----

  lemma LatestIsSome(at: Option<int>, cs: seq<Candidate>)
    requires cs != []
    ensures Latest(at, cs).Some?
    decreases |cs|
  {
    if cs[1..] != [] {
      LatestIsSome(Some(if at.Some? && at.value > cs[0].info.recordedAt then at.value else cs[0].info.recordedAt), cs[1..]);
    }
  }

  lemma NewIdsDistinct(w: H.World, d: H.Dir, additions: seq<Candidate>)
    requires Planned(w, d, additions)
    ensures H.DistinctIds(H.IndexOf(d).results + Entries(additions))
  {
    var results := H.IndexOf(d).results;
    var all := results + Entries(additions);
    forall j, k | 0 <= j < k < |all| ensures all[j].id != all[k].id {
      if j < |results| <= k {
        assert additions[k - |results|] in additions && results[j] in results;
      } else if |results| <= j {
        var a, b := additions[j - |results|], additions[k - |results|];
        assert a in additions && b in additions && a.info.file != b.info.file;
      }
    }
  }

  /** Every entry of the new manifest names a file of the target with its recorded bytes. */
  lemma TargetEntry(w: H.World, d: H.Dir, additions: seq<Candidate>, e: H.Entry)
    requires Planned(w, d, additions) && e in H.IndexOf(d).results + Entries(additions)
    ensures var t := Retained(d) + FilesOf(additions);
            e.file == e.id + ".json" && e.file in t && H.RecordedEntry(w, t[e.file]) == Some(e)
  {
    FilesOfFacts(additions);
    AdditionsAreApart(w, d, additions);
    if e in H.IndexOf(d).results {
      assert e.file in Retained(d);
    } else {
      var k :| 0 <= k < |additions| && additions[k].entry == e;
      assert additions[k] in additions && Genuine(w, additions[k]);
    }
  }

  /** Every file of the target is named by the new manifest and named after its result. */
  lemma TargetFile(w: H.World, d: H.Dir, additions: seq<Candidate>, f: string)
    requires Planned(w, d, additions) && f in Retained(d) + FilesOf(additions)
    ensures f in H.Files(H.IndexOf(d).results + Entries(additions))
    ensures var v := H.Validate(w, (Retained(d) + FilesOf(additions))[f]); v.Some? && v.value.file == f
  {
    hide H.Validate, FilesOf, H.RecordedEntry, DistinctFiles, H.Files, H.DistinctIds;
    PlannedFiles(w, d, additions);
    FilesOfFacts(additions);
    if f in FilesOf(additions) {
      var c :| c in additions && c.info.file == f && c.bytes == FilesOf(additions)[f];
      AddedIsNamed(w, d, additions, c);
    } else {
      RetainedIsNamed(d, additions, f);
    }
  }

  lemma AddedIsNamed(w: H.World, d: H.Dir, additions: seq<Candidate>, c: Candidate)
    requires c in additions && Genuine(w, c)
    ensures c.info.file in H.Files(H.IndexOf(d).results + Entries(additions))
    ensures H.Validate(w, c.bytes) == Some(c.info)
  {
    hide H.Validate;
    var results := H.IndexOf(d).results;
    var k :| 0 <= k < |additions| && additions[k] == c;
    assert (results + Entries(additions))[|results| + k] == c.entry;
    GenuineFile(w, c);
  }

  lemma RetainedIsNamed(d: H.Dir, additions: seq<Candidate>, f: string)
    requires f in Retained(d)
    ensures f in H.Files(H.IndexOf(d).results + Entries(additions))
  {
    var results := H.IndexOf(d).results;
    var e :| e in results && e.file == f;
    assert e in results + Entries(additions);
  }

  lemma GenuineFile(w: H.World, c: Candidate)
    requires Genuine(w, c)
    ensures c.entry.file == c.info.file
  {
  }

  /** What the merge installs passes validateHistory, and leaves nothing unindexed. */
  lemma TargetIsValid(w: H.World, d: H.Dir, additions: seq<Candidate>, allowMissing: bool)
    requires Planned(w, d, additions) && additions != []
    ensures H.ValidHistory(w, Target(d, additions), allowMissing, {}) && Orphans(Target(d, additions)) == {}
  {
    hide Latest, H.DistinctIds, Planned, Retained, FilesOf, H.RecordedEntry, H.Validate, H.Files;
    var t := Target(d, additions);
    var all := H.IndexOf(d).results + Entries(additions);
    StartIsBetween(w, d, additions);
    BetweenCompletes(w, d, additions, d);
    LatestIsSome(H.IndexOf(d).updatedAt, additions);
    NewIdsDistinct(w, d, additions);
    forall e: H.Entry | e in all ensures e.file == e.id + ".json" && e.file in t.files && H.RecordedEntry(w, t.files[e.file]) == Some(e) {
      TargetEntry(w, d, additions, e);
    }
    forall f | f in t.files ensures f in H.Files(all) && H.Validate(w, t.files[f]).Some? && H.Validate(w, t.files[f]).value.file == f {
      TargetFile(w, d, additions, f);
    }
    FilesWithin(all, t.files.Keys);
  }

  lemma FilesWithin(results: seq<H.Entry>, names: set<string>)
    requires forall e :: e in results ==> e.file in names
    ensures H.Files(results) <= names
  {
  }

  lemma ValidIsIntact(w: H.World, d: H.Dir, allowMissing: bool, unindexed: set<string>)
    requires H.ValidHistory(w, d, allowMissing, unindexed)
    ensures H.Intact(w, d)
  {
  }

  /** Every candidate of every batch has its entry in the manifest. */
  ghost predicate Recorded(batches: seq<seq<Candidate>>, results: seq<H.Entry>) {
    forall i: nat, c: Candidate :: i < |batches| && c in batches[i] ==> c.entry in results
  }

  /** With every batch in the manifest there is nothing to add. */
  lemma {:induction false} NothingToAdd(batches: seq<seq<Candidate>>, results: seq<H.Entry>)
    requires forall i :: 0 <= i < |batches| ==> batches[i] != []
    requires Recorded(batches, results)
    ensures Additions(batches, results) == Some([])
    decreases |batches|
  {
    if batches != [] {
      var n := |batches| - 1;
      var batch := batches[n];
      NothingToAdd(batches[..n], results);
      forall c | c in batch ensures Known(results, c.entry.id) {
        assert c.entry in results && c.entry.id == c.entry.id;
      }
      assert batch[0] in batch;
    }
  }

  lemma TargetReplans(cfg: Config, incoming: seq<Artifact>, d: H.Dir)
    requires Plan(cfg, incoming, d).Some? && Plan(cfg, incoming, d).value != []
    ensures Plan(cfg, incoming, Target(d, Plan(cfg, incoming, d).value)) == Some([])
  {
    hide Load, CompleteBatch, H.ValidHistory, Updated, Recorded, Additions;
    var additions := Plan(cfg, incoming, d).value;
    var t := Target(d, additions);
    var cs := Load(cfg.w, incoming).value;
    var bs := Batches(cs, GroupOrder(cs, BatchKey));
    PlanIsPlanned(cfg, incoming, d);
    TargetIsValid(cfg.w, d, additions, true);
    BatchesFull(cs);
    AllRecorded(cfg, incoming, d);
    NothingToAdd(bs, H.IndexOf(t).results);
  }

  lemma BatchesFull(cs: seq<Candidate>)
    requires GoodArtifacts(cs)
    ensures var bs := Batches(cs, GroupOrder(cs, BatchKey)); forall i :: 0 <= i < |bs| ==> bs[i] != []
  {
  }

  /** Every candidate's entry is in the manifest of the target. */
  lemma AllRecorded(cfg: Config, incoming: seq<Artifact>, d: H.Dir)
    requires Plan(cfg, incoming, d).Some? && Plan(cfg, incoming, d).value != []
    ensures var cs := Load(cfg.w, incoming).value;
            Recorded(Batches(cs, GroupOrder(cs, BatchKey)), H.IndexOf(Target(d, Plan(cfg, incoming, d).value)).results)
  {
    hide Load, CompleteBatch, H.ValidHistory, Sort;
    var cs := Load(cfg.w, incoming).value;
    var bs := Batches(cs, GroupOrder(cs, BatchKey));
    var results := H.IndexOf(d).results;
    var unsorted := Additions(bs, results).value;
    var additions := Sort(cfg, unsorted);
    AdditionsFacts(bs, results);
    SortKeeps(cfg, unsorted);
    forall i, c: Candidate | 0 <= i < |bs| && c in bs[i] ensures c.entry in results + Entries(additions) {
      assert bs[i] in bs;
      if c in unsorted {
        assert c in multiset(unsorted);
        assert c in multiset(additions);
        var k :| 0 <= k < |additions| && additions[k] == c;
        assert Entries(additions)[k] == c.entry;
      }
    }
  }

  // ----- every way an install can end -----

  /** The first k additions have their files. */
  ghost predicate Covered(additions: seq<Candidate>, k: nat, e: H.Dir) {
    forall j :: 0 <= j < k && j < |additions| ==> additions[j].info.file in e.files
  }

  lemma PutStaysBetween(w: H.World, d: H.Dir, additions: seq<Candidate>, e: H.Dir, c: Candidate)
    requires Planned(w, d, additions) && Between(d, additions, e) && c in additions
    ensures Between(d, additions, Put(e, c))
  {
    FilesOfFacts(additions);
    AdditionsAreApart(w, d, additions);
  }

  lemma CoveredIsAll(d: H.Dir, additions: seq<Candidate>, e: H.Dir)
    requires DistinctFiles(additions) && Between(d, additions, e) && Covered(additions, |additions|, e)
    ensures e.files == Retained(d) + FilesOf(additions)
  {
    FilesOfFacts(additions);
    forall f | f in FilesOf(additions) ensures f in e.files {
      var c :| c in additions && c.info.file == f;
      var k :| 0 <= k < |additions| && additions[k] == c;
    }
  }

  lemma {:induction false} WritesStayBetween(w: H.World, d: H.Dir, additions: seq<Candidate>, s: Schedule, e: H.Dir, k: nat)
    requires Planned(w, d, additions) && Between(d, additions, e) && k <= |additions| && Covered(additions, k, e)
    requires Orphans(d) <= e.files.Keys
    ensures var p := WriteFrom(additions, Orphans(d), s, e, k);
            && Between(d, additions, p.dir)
            && (p.status == Going ==> p.dir.files == Retained(d) + FilesOf(additions))
    decreases |additions| - k
  {
    hide Between, Planned, Retained, FilesOf, Orphans;
    if k == |additions| {
      PlannedFiles(w, d, additions);
      CoveredIsAll(d, additions, e);
    } else {
      var c := additions[k];
      PutStaysBetween(w, d, additions, e, c);
      WritesStayBetween(w, d, additions, s, if c.info.file in Orphans(d) then e else Put(e, c), k + 1);
    }
  }

  lemma PlannedFiles(w: H.World, d: H.Dir, additions: seq<Candidate>)
    requires Planned(w, d, additions)
    ensures DistinctFiles(additions)
  {
  }

  lemma RemovalStaysBetween(w: H.World, d: H.Dir, additions: seq<Candidate>, s: Schedule, e: H.Dir)
    requires Planned(w, d, additions) && Between(d, additions, e)
    ensures Between(d, additions, RemoveAll(additions, s, e))
  {
    FilesOfFacts(additions);
    AdditionsAreApart(w, d, additions);
    forall f | f in Removed(additions, s) ensures f in FilesOf(additions) {
      var k :| 0 <= k < |additions| && additions[k].info.file == f;
      assert additions[k] in additions;
    }
  }

  /** The manifest was replaced but the step reported an error, and the rollback, not knowing, removed a file. */
  predicate Torn(additions: seq<Candidate>, recovered: set<string>, s: Schedule, d: H.Dir) {
    && s(2 * |additions| + 3) == Good && WriteFrom(additions, recovered, s, d, 0).status == Going
    && s(|additions|) == FailsLate
    && Removed(additions, s) != {}
  }

  /** Unless torn, an install ends with the old manifest in between, or with the target. */
  lemma InstallEnds(w: H.World, d: H.Dir, additions: seq<Candidate>, s: Schedule)
    requires Planned(w, d, additions) && additions != []
    ensures var e := Install(w, additions, Orphans(d), s, d).dir;
            if Torn(additions, Orphans(d), s, d) then e == RemoveAll(additions, s, Target(d, additions))
            else Between(d, additions, e) || e == Target(d, additions)
  {
    hide H.ValidHistory, Updated, Between, Removed, WriteFrom, Planned, Orphans, FilesOf, Retained, H.IndexOf;
    TargetIsValid(w, d, additions, false);
    StartIsBetween(w, d, additions);
    StartWrites(w, d, additions, s);
    var p := WriteFrom(additions, Orphans(d), s, d, 0);
    RemovalStaysBetween(w, d, additions, s, d);
    RemovalStaysBetween(w, d, additions, s, p.dir);
    BetweenCompletes(w, d, additions, d);
    var installed := p.dir.(index := Some(Updated(H.IndexOf(d), additions)));
    BetweenIndex(d, additions, p.dir);
    assert installed.(index := d.index) == p.dir;
    if p.status == Going { assert installed == Target(d, additions); }
    if Removed(additions, s) == {} { assert RemoveAll(additions, s, installed) == installed; }
  }

  lemma BetweenIndex(d: H.Dir, additions: seq<Candidate>, e: H.Dir)
    requires Between(d, additions, e)
    ensures e.index == d.index
  {
  }

  lemma StartWrites(w: H.World, d: H.Dir, additions: seq<Candidate>, s: Schedule)
    requires Planned(w, d, additions)
    ensures var p := WriteFrom(additions, Orphans(d), s, d, 0);
            Between(d, additions, p.dir) && (p.status == Going ==> p.dir.files == Retained(d) + FilesOf(additions))
  {
    StartIsBetween(w, d, additions);
    WritesStayBetween(w, d, additions, s, d, 0);
  }

  // ----- the theorems -----

  lemma TornIsBroken(w: H.World, d: H.Dir, additions: seq<Candidate>, s: Schedule)
    requires Planned(w, d, additions) && Removed(additions, s) != {}
    ensures !H.Intact(w, RemoveAll(additions, s, Target(d, additions)))
  {
    hide H.RecordedEntry, Updated;
    var f :| f in Removed(additions, s);
    var k :| 0 <= k < |additions| && additions[k].info.file == f;
    TornEntry(w, d, additions, k);
  }

  lemma TornEntry(w: H.World, d: H.Dir, additions: seq<Candidate>, k: nat)
    requires Planned(w, d, additions) && k < |additions|
    ensures exists e :: e in H.IndexOf(Target(d, additions)).results && e.file == additions[k].info.file
  {
    var results := H.IndexOf(d).results;
    assert additions[k] in additions && Genuine(w, additions[k]);
    assert (results + Entries(additions))[|results| + k] == additions[k].entry;
    assert additions[k].entry in results + Entries(additions);
  }

  /**
    Whatever steps of a merge fail, and wherever it crashes, every file its manifest names exists with its
    recorded bytes: if and only if it is not the case that replacing the manifest took effect, reported an
    error, and the rollback went on to remove a file.
  */
  lemma ManifestIntactIff(cfg: Config, incoming: seq<Artifact>, d: H.Dir, s: Schedule)
    requires Plan(cfg, incoming, d).Some? && Plan(cfg, incoming, d).value != []
    ensures var additions := Plan(cfg, incoming, d).value;
            H.Intact(cfg.w, Install(cfg.w, additions, Orphans(d), s, d).dir) <==> !Torn(additions, Orphans(d), s, d)
  {
    hide H.Intact, H.ValidHistory, Install, Plan, Between, Target, RemoveAll, WriteFrom, Removed;
    var additions := Plan(cfg, incoming, d).value;
    PlanIsPlanned(cfg, incoming, d);
    InstallEnds(cfg.w, d, additions, s);
    var e := Install(cfg.w, additions, Orphans(d), s, d).dir;
    if Torn(additions, Orphans(d), s, d) {
      TornIsBroken(cfg.w, d, additions, s);
    } else if Between(d, additions, e) {
      BetweenIsIntact(cfg.w, d, additions, e);
    } else {
      TargetIsValid(cfg.w, d, additions, false);
      ValidIsIntact(cfg.w, e, false, {});
    }
  }

  /**
    After a crash or failure at any step, a rerun on the same artifacts that nothing disturbs ends in the
    same directory as a merge that was never disturbed, under the same condition and no other.
  */
  lemma RerunRecoversIff(cfg: Config, incoming: seq<Artifact>, d: H.Dir, s: Schedule)
    requires Plan(cfg, incoming, d).Some? && Plan(cfg, incoming, d).value != []
    ensures var additions := Plan(cfg, incoming, d).value;
            Undisturbed(cfg, incoming, Install(cfg.w, additions, Orphans(d), s, d).dir) == Undisturbed(cfg, incoming, d)
            <==> !Torn(additions, Orphans(d), s, d)
  {
    hide H.Intact, H.ValidHistory, Install, Plan, Between, Target, RemoveAll, WriteFrom, Removed;
    var additions := Plan(cfg, incoming, d).value;
    PlanIsPlanned(cfg, incoming, d);
    InstallEnds(cfg.w, d, additions, s);
    var e := Install(cfg.w, additions, Orphans(d), s, d).dir;
    assert Undisturbed(cfg, incoming, d) == Some(Target(d, additions));
    if Torn(additions, Orphans(d), s, d) {
      TornIsBroken(cfg.w, d, additions, s);
      if Plan(cfg, incoming, e).Some? { PlanNeedsIntact(cfg, incoming, e); }
    } else if Between(d, additions, e) {
      BetweenReplans(cfg, incoming, d, e);
      BetweenCompletes(cfg.w, d, additions, e);
    } else {
      TargetReplans(cfg, incoming, d);
    }
  }

  /** The directory after one merge of the artifacts that goes as the schedule says. */
  function AfterRun(cfg: Config, incoming: seq<Artifact>, s: Schedule, d: H.Dir): H.Dir {
    match Plan(cfg, incoming, d)
    case None => d
    case Some(additions) => if additions == [] then d else Install(cfg.w, additions, Orphans(d), s, d).dir
  }

  function AfterRuns(cfg: Config, incoming: seq<Artifact>, schedules: seq<Schedule>, d: H.Dir): H.Dir
    decreases |schedules|
  {
    if schedules == [] then d else AfterRuns(cfg, incoming, schedules[1..], AfterRun(cfg, incoming, schedules[0], d))
  }

  predicate TearsAt(cfg: Config, incoming: seq<Artifact>, s: Schedule, d: H.Dir) {
    match Plan(cfg, incoming, d)
    case None => false
    case Some(additions) => additions != [] && Torn(additions, Orphans(d), s, d)
  }

  predicate NeverTorn(cfg: Config, incoming: seq<Artifact>, schedules: seq<Schedule>, d: H.Dir)
    decreases |schedules|
  {
    schedules == [] || (
      !TearsAt(cfg, incoming, schedules[0], d)
      && NeverTorn(cfg, incoming, schedules[1..], AfterRun(cfg, incoming, schedules[0], d)))
  }

  lemma RunKeeps(cfg: Config, incoming: seq<Artifact>, s: Schedule, d: H.Dir)
    requires Plan(cfg, incoming, d).Some? && !TearsAt(cfg, incoming, s, d)
    ensures Undisturbed(cfg, incoming, AfterRun(cfg, incoming, s, d)) == Undisturbed(cfg, incoming, d)
    ensures H.IndexOf(d).results <= H.IndexOf(AfterRun(cfg, incoming, s, d)).results
  {
    hide Plan, Install, Torn, Target;
    if Plan(cfg, incoming, d).value != [] {
      RerunRecoversIff(cfg, incoming, d, s);
      EntriesRemainPrefix(cfg, incoming, d, s);
    }
  }

  /**
    Any number of merges of the same artifacts, each crashing or failing where it may, leave the manifest
    intact, only ever extend it, and leave a directory that one undisturbed merge completes as if nothing
    had happened.
  */
  lemma {:induction false} RerunsRecover(cfg: Config, incoming: seq<Artifact>, schedules: seq<Schedule>, d: H.Dir)
    requires Plan(cfg, incoming, d).Some? && NeverTorn(cfg, incoming, schedules, d)
    ensures var e := AfterRuns(cfg, incoming, schedules, d);
            && H.Intact(cfg.w, e)
            && H.IndexOf(d).results <= H.IndexOf(e).results
            && Undisturbed(cfg, incoming, e) == Undisturbed(cfg, incoming, d)
    decreases |schedules|
  {
    hide Plan, H.Intact, AfterRun, TearsAt, Target, H.IndexOf;
    if schedules == [] {
      PlanNeedsIntact(cfg, incoming, d);
    } else {
      RunKeeps(cfg, incoming, schedules[0], d);
      RerunsRecover(cfg, incoming, schedules[1..], AfterRun(cfg, incoming, schedules[0], d));
    }
  }

  lemma PlanNeedsIntact(cfg: Config, incoming: seq<Artifact>, d: H.Dir)
    requires Plan(cfg, incoming, d).Some?
    ensures H.Intact(cfg.w, d)
  {
    hide H.ValidHistory;
    PlanIsPlanned(cfg, incoming, d);
    ValidIsIntact(cfg.w, d, true, Orphans(d));
  }

  lemma {:induction false} AllWritten(additions: seq<Candidate>, recovered: set<string>, s: Schedule, d: H.Dir, k: nat)
    requires k <= |additions| && DistinctFiles(additions) && forall j :: k <= j < |additions| ==> s(j) == Good
    requires forall j :: k <= j < |additions| ==> additions[j].info.file in recovered || additions[j].info.file !in d.files
    ensures WriteFrom(additions, recovered, s, d, k).status == Going
    decreases |additions| - k
  {
    if k < |additions| {
      var c := additions[k];
      AllWritten(additions, recovered, s, if c.info.file in recovered then d else Put(d, c), k + 1);
    }
  }

  /** With every step good the install completes, and what it installs is the target: the checks never refuse it. */
  lemma GoodRunInstalls(cfg: Config, incoming: seq<Artifact>, d: H.Dir, s: Schedule)
    requires Plan(cfg, incoming, d).Some? && Plan(cfg, incoming, d).value != []
    requires forall k: nat :: k <= |Plan(cfg, incoming, d).value| + 1 ==> s(k) == Good
    requires s(2 * |Plan(cfg, incoming, d).value| + 3) == Good
    ensures var additions := Plan(cfg, incoming, d).value;
            Install(cfg.w, additions, Orphans(d), s, d) == Ending(Target(d, additions), true)
  {
    hide Plan, H.ValidHistory, Updated;
    var additions := Plan(cfg, incoming, d).value;
    PlanIsPlanned(cfg, incoming, d);
    TargetIsValid(cfg.w, d, additions, false);
    PlanWrites(cfg, incoming, d, s);
    StartWrites(cfg.w, d, additions, s);
    StartIsBetween(cfg.w, d, additions);
    BetweenCompletes(cfg.w, d, additions, d);
  }

  /** Every merge that adds anything can be torn: all goes well until removing the temporary manifest file fails. */
  lemma CanBeTorn(cfg: Config, incoming: seq<Artifact>, d: H.Dir)
    requires Plan(cfg, incoming, d).Some? && Plan(cfg, incoming, d).value != []
    ensures var additions := Plan(cfg, incoming, d).value;
            var s: Schedule := k => if k == |additions| then FailsLate else Good;
            Torn(additions, Orphans(d), s, d) && !H.Intact(cfg.w, Install(cfg.w, additions, Orphans(d), s, d).dir)
  {
    hide Plan, H.Intact, Install;
    var additions := Plan(cfg, incoming, d).value;
    var s: Schedule := k => if k == |additions| then FailsLate else Good;
    PlanWrites(cfg, incoming, d, s);
    assert additions[0].info.file in Removed(additions, s);
    ManifestIntactIff(cfg, incoming, d, s);
  }

  lemma PlanWrites(cfg: Config, incoming: seq<Artifact>, d: H.Dir, s: Schedule)
    requires Plan(cfg, incoming, d).Some? && forall j :: 0 <= j < |Plan(cfg, incoming, d).value| ==> s(j) == Good
    ensures WriteFrom(Plan(cfg, incoming, d).value, Orphans(d), s, d, 0).status == Going
  {
    hide Plan, H.ValidHistory, Updated;
    var additions := Plan(cfg, incoming, d).value;
    PlanIsPlanned(cfg, incoming, d);
    AdditionsAreApart(cfg.w, d, additions);
    FilesOfFacts(additions);
    forall j | 0 <= j < |additions| ensures additions[j].info.file in Orphans(d) || additions[j].info.file !in d.files {
      assert additions[j] in additions;
    }
    AllWritten(additions, Orphans(d), s, d, 0);
  }

  /** Existing manifest entries remain an exact prefix, in every manifest a merge can leave behind. */
  lemma EntriesRemainPrefix(cfg: Config, incoming: seq<Artifact>, d: H.Dir, s: Schedule)
    requires Plan(cfg, incoming, d).Some? && Plan(cfg, incoming, d).value != []
    ensures H.IndexOf(d).results <= H.IndexOf(Install(cfg.w, Plan(cfg, incoming, d).value, Orphans(d), s, d).dir).results
  {
    hide H.ValidHistory, Install, Plan, WriteFrom, Removed;
    PlanIsPlanned(cfg, incoming, d);
    InstallEnds(cfg.w, d, Plan(cfg, incoming, d).value, s);
  }
}
