/**
  The append-only merge of benchmark results (benchmark/rust/merge.js) and the history check it relies
  on (benchmark/rust/history.js). A directory is its manifest and its result files; writing, renaming or
  removing one file is one step, and a run may crash before any step or see any step fail.
*/
module History {
  import opened Common

  /** What validateResult and manifestEntry read out of a result file. */
  datatype Info = Info(
    id: string, file: string, recordedAt: int, platform: string,
    node: string, rust: string, batchKey: string, runKey: string, details: string)

  datatype Entry = Entry(id: string, file: string, digest: string, platform: string, node: string, rust: string, details: string)

  datatype Index = Index(updatedAt: Option<int>, results: seq<Entry>)

  datatype Dir = Dir(index: Option<Index>, files: map<string, string>)

  /** Reading a result (None when its schema check throws) and hashing it. */
  datatype World = World(describe: string -> Option<Info>, sha256: string -> string)

  const NO_INDEX: Index := Index(None, [])

  /** validateResult: among its checks, the file is named after the id. */
  function Validate(w: World, bytes: string): Option<Info> {
    match w.describe(bytes)
    case Some(i) => if i.file == i.id + ".json" then Some(i) else None
    case None => None
  }

  /** manifestEntry */
  function EntryOf(w: World, i: Info, bytes: string): Entry {
    Entry(i.id, i.file, w.sha256(bytes), i.platform, i.node, i.rust, i.details)
  }

  function RecordedEntry(w: World, bytes: string): Option<Entry> {
    match Validate(w, bytes)
    case Some(i) => Some(EntryOf(w, i, bytes))
    case None => None
  }

  function Files(results: seq<Entry>): set<string> {
    set e | e in results :: e.file
  }

  function IndexOf(d: Dir): Index {
    if d.index.Some? then d.index.value else NO_INDEX
  }

  predicate DistinctIds(results: seq<Entry>) {
    forall j, k :: 0 <= j < k < |results| ==> results[j].id != results[k].id
  }

  /** validateHistoryIndex against the retained records. */
  predicate ValidIndex(w: World, index: Index, files: map<string, string>) {
    && (index.updatedAt.Some? <==> index.results != [])
    && DistinctIds(index.results)
    && forall e :: e in index.results ==> e.file == e.id + ".json" && e.file in files && RecordedEntry(w, files[e.file]) == Some(e)
  }

  /** validateHistory: files outside `unindexed` are exactly the manifest's, and each is what its entry records. */
  predicate ValidHistory(w: World, d: Dir, allowMissing: bool, unindexed: set<string>) {
    && (d.index.None? ==> allowMissing)
    && unindexed <= d.files.Keys
    && d.files.Keys - unindexed == Files(IndexOf(d).results)
    && ValidIndex(w, IndexOf(d), d.files)
    && forall f :: f in d.files && f !in unindexed ==> Validate(w, d.files[f]).Some? && Validate(w, d.files[f]).value.file == f
  }

  /** The manifest can be trusted: every file it names exists with its recorded bytes. */
  ghost predicate Intact(w: World, d: Dir) {
    forall e :: e in IndexOf(d).results ==> e.file in d.files && RecordedEntry(w, d.files[e.file]) == Some(e)
  }
}

module Merge {
  import opened Common
  import opened Grouping
  import opened History

  datatype Artifact = Artifact(name: string, bytes: string)

  datatype Candidate = Candidate(bytes: string, info: Info, entry: Entry)

  /** What the merge reads results with, and String.prototype.localeCompare. */
  datatype Config = Config(w: World, localeCompare: (string, string) -> int)

  // ----- reading the artifacts -----

  function Load(w: World, incoming: seq<Artifact>): Option<seq<Candidate>>
    decreases |incoming|
  {
    if incoming == [] then Some([])
    else
      var n := |incoming| - 1;
      var a := incoming[n];
      match (Load(w, incoming[..n]), Validate(w, a.bytes))
      case (Some(cs), Some(i)) => if a.name != i.file then None else Some(cs + [Candidate(a.bytes, i, EntryOf(w, i, a.bytes))])
      case _ => None
  }

  lemma {:induction false} LoadStopped(w: World, incoming: seq<Artifact>, k: nat)
    requires k <= |incoming| && Load(w, incoming[..k]).None?
    ensures Load(w, incoming).None?
    decreases |incoming|
  {
    var n := |incoming| - 1;
    if k <= n {
      assert incoming[..n][..k] == incoming[..k];
      LoadStopped(w, incoming[..n], k);
    } else {
      assert incoming[..k] == incoming;
    }
  }

  /** The first loop: every artifact is read, checked and named after its record. */
  method LoadArtifacts(w: World, incoming: seq<Artifact>) returns (r: Option<seq<Candidate>>)
    ensures r == Load(w, incoming)
  {
    var cs: seq<Candidate> := [];
    for k := 0 to |incoming|
      invariant Load(w, incoming[..k]) == Some(cs)
    {
      assert incoming[..k + 1][..k] == incoming[..k];
      var info := Validate(w, incoming[k].bytes);
      if info.None? || incoming[k].name != info.value.file {
        LoadStopped(w, incoming, k + 1);
        return None;
      }
      cs := cs + [Candidate(incoming[k].bytes, info.value, EntryOf(w, info.value, incoming[k].bytes))];
    }
    assert incoming[..|incoming|] == incoming;
    return Some(cs);
  }

  function BatchKey(c: Candidate): string {
    c.info.batchKey
  }

  function Platforms(batch: seq<Candidate>): multiset<string> {
    if batch == [] then multiset{} else multiset{batch[0].info.platform} + Platforms(batch[1..])
  }

  /** A CI batch: one result for each of the three platforms, with the same Node and Rust. */
  predicate CompleteBatch(batch: seq<Candidate>) {
    && |batch| == 3 && Platforms(batch) == multiset{"darwin", "linux", "win32"}
    && (forall k :: 0 <= k < |batch| ==> batch[k].info.node == batch[0].info.node && batch[k].info.rust == batch[0].info.rust)
  }

  predicate DistinctFiles(cs: seq<Candidate>) {
    forall j, k :: 0 <= j < k < |cs| ==> cs[j].info.file != cs[k].info.file
  }

  function Batches(cs: seq<Candidate>, order: seq<string>): seq<seq<Candidate>> {
    seq(|order|, k requires 0 <= k < |order| => GroupOf(cs, BatchKey, order[k]))
  }

  predicate GoodArtifacts(cs: seq<Candidate>) {
    && cs != [] && DistinctFiles(cs)
    && forall k :: 0 <= k < |GroupOrder(cs, BatchKey)| ==> CompleteBatch(GroupOf(cs, BatchKey, GroupOrder(cs, BatchKey)[k]))
  }

  // ----- what to add -----

  predicate Known(results: seq<Entry>, id: string) {
    exists e :: e in results && e.id == id
  }

  /** The batches not in the manifest yet; None when a batch is there in part or differs. */
  function Additions(batches: seq<seq<Candidate>>, results: seq<Entry>): Option<seq<Candidate>>
    decreases |batches|
  {
    if batches == [] then Some([])
    else
      var n := |batches| - 1;
      var before, batch := Additions(batches[..n], results), batches[n];
      if before.None? then None
      else if forall c :: c in batch ==> !Known(results, c.entry.id) then Some(before.value + batch)
      else if forall c :: c in batch ==> Known(results, c.entry.id) && c.entry in results then before
      else None
  }

  lemma {:induction false} AdditionsStopped(batches: seq<seq<Candidate>>, results: seq<Entry>, k: nat)
    requires k <= |batches| && Additions(batches[..k], results).None?
    ensures Additions(batches, results).None?
    decreases |batches|
  {
    var n := |batches| - 1;
    if k <= n {
      assert batches[..n][..k] == batches[..k];
      AdditionsStopped(batches[..n], results, k);
    } else {
      assert batches[..k] == batches;
    }
  }

  /** The loop over the batches: new ones are added, old ones must be there in full and unchanged. */
  method CollectAdditions(batches: seq<seq<Candidate>>, results: seq<Entry>) returns (r: Option<seq<Candidate>>)
    ensures r == Additions(batches, results)
  {
    var additions: seq<Candidate> := [];
    for k := 0 to |batches|
      invariant Additions(batches[..k], results) == Some(additions)
    {
      assert batches[..k + 1][..k] == batches[..k];
      var batch := batches[k];
      if forall c :: c in batch ==> !Known(results, c.entry.id) {
        additions := additions + batch;
      } else if exists c :: c in batch && (!Known(results, c.entry.id) || c.entry !in results) {
        AdditionsStopped(batches, results, k + 1);
        return None;
      }
    }
    assert batches[..|batches|] == batches;
    return Some(additions);
  }

  /** The comparison of the sort: run first, then platform. */
  function Rank(cfg: Config, left: Candidate, right: Candidate): int {
    var r := cfg.localeCompare(left.info.runKey, right.info.runKey);
    if r != 0 then r else cfg.localeCompare(left.info.platform, right.info.platform)
  }

  function Insert(cfg: Config, c: Candidate, sorted: seq<Candidate>): seq<Candidate> {
    if sorted == [] || Rank(cfg, sorted[0], c) >= 0 then [c] + sorted else [sorted[0]] + Insert(cfg, c, sorted[1..])
  }

  function Sort(cfg: Config, cs: seq<Candidate>): seq<Candidate> {
    if cs == [] then [] else Insert(cfg, cs[0], Sort(cfg, cs[1..]))
  }

  lemma {:induction false} InsertKeeps(cfg: Config, c: Candidate, s: seq<Candidate>)
    ensures multiset(Insert(cfg, c, s)) == multiset(s) + multiset{c}
  {
    if s != [] && Rank(cfg, s[0], c) < 0 {
      InsertKeeps(cfg, c, s[1..]);
      assert s == [s[0]] + s[1..];
    }
  }

  lemma {:induction false} SortKeeps(cfg: Config, cs: seq<Candidate>)
    ensures multiset(Sort(cfg, cs)) == multiset(cs)
  {
    if cs != [] {
      SortKeeps(cfg, cs[1..]);
      InsertKeeps(cfg, cs[0], Sort(cfg, cs[1..]));
      assert cs == [cs[0]] + cs[1..];
    }
  }

  /** localeCompare is a comparison: opposite both ways round, and transitive. */
  ghost predicate Compares(cfg: Config) {
    && (forall a, b :: cfg.localeCompare(a, b) < 0 <==> cfg.localeCompare(b, a) > 0)
    && (forall a, b, c :: cfg.localeCompare(a, b) <= 0 && cfg.localeCompare(b, c) <= 0 ==> cfg.localeCompare(a, c) <= 0)
  }

  ghost predicate Sorted(cfg: Config, s: seq<Candidate>) {
    forall i, j :: 0 <= i < j < |s| ==> Rank(cfg, s[i], s[j]) <= 0
  }

  /** The candidates that tie with x, in the order they stand in. */
  function Ties(cfg: Config, x: Candidate, s: seq<Candidate>): seq<Candidate> {
    if s == [] then [] else (if Rank(cfg, x, s[0]) == 0 then [s[0]] else []) + Ties(cfg, x, s[1..])
  }

  lemma RankCompares(cfg: Config, a: Candidate, b: Candidate, c: Candidate)
    requires Compares(cfg)
    ensures Rank(cfg, a, b) < 0 <==> Rank(cfg, b, a) > 0
    ensures Rank(cfg, a, b) <= 0 && Rank(cfg, b, c) <= 0 ==> Rank(cfg, a, c) <= 0
  {
    var f := cfg.localeCompare;
    var x, y, z := a.info.runKey, b.info.runKey, c.info.runKey;
    assert f(x, z) == 0 && f(x, y) <= 0 && f(y, z) <= 0 ==> f(x, y) == 0 && f(y, z) == 0 by {
      if f(x, z) == 0 && f(x, y) <= 0 && f(y, z) <= 0 {
        assert f(z, x) == 0;
        assert f(z, y) <= 0 && f(y, x) <= 0;
      }
    }
  }

  lemma {:induction false} InsertOrders(cfg: Config, c: Candidate, s: seq<Candidate>, x: Candidate)
    requires Compares(cfg) && Sorted(cfg, s)
    ensures Sorted(cfg, Insert(cfg, c, s))
    ensures Ties(cfg, x, Insert(cfg, c, s)) == (if Rank(cfg, x, c) == 0 then [c] else []) + Ties(cfg, x, s)
  {
    hide Rank, Compares;
    if s == [] || Rank(cfg, s[0], c) >= 0 {
      InsertFirst(cfg, c, s);
      assert ([c] + s)[1..] == s;
    } else {
      InsertOrders(cfg, c, s[1..], x);
      InsertLater(cfg, c, s);
      var t := Insert(cfg, c, s[1..]);
      assert ([s[0]] + t)[1..] == t;
      TiesApart(cfg, x, s[0], c);
    }
  }

  lemma TiesApart(cfg: Config, x: Candidate, a: Candidate, b: Candidate)
    requires Compares(cfg) && Rank(cfg, a, b) < 0
    ensures Rank(cfg, x, a) != 0 || Rank(cfg, x, b) != 0
  {
    hide Rank, Compares;
    RankCompares(cfg, a, b, x);
    RankCompares(cfg, x, b, a);
    RankCompares(cfg, b, x, a);
  }

  lemma InsertFirst(cfg: Config, c: Candidate, s: seq<Candidate>)
    requires Compares(cfg) && Sorted(cfg, s) && (s == [] || Rank(cfg, s[0], c) >= 0)
    ensures Sorted(cfg, [c] + s)
  {
    hide Rank, Compares;
    forall j | 0 <= j < |s| ensures Rank(cfg, c, s[j]) <= 0 {
      RankCompares(cfg, s[0], c, c);
      RankCompares(cfg, c, s[0], s[j]);
    }
  }

  lemma InsertLater(cfg: Config, c: Candidate, s: seq<Candidate>)
    requires Compares(cfg) && Sorted(cfg, s) && s != [] && Rank(cfg, s[0], c) < 0
    requires Sorted(cfg, Insert(cfg, c, s[1..]))
    ensures Sorted(cfg, [s[0]] + Insert(cfg, c, s[1..]))
  {
    hide Rank, Compares, Insert;
    var t := Insert(cfg, c, s[1..]);
    InsertKeeps(cfg, c, s[1..]);
    forall j | 0 <= j < |t| ensures Rank(cfg, s[0], t[j]) <= 0 {
      assert t[j] in multiset(t);
      if t[j] != c {
        assert t[j] in multiset(s[1..]);
        var k :| 0 <= k < |s| - 1 && s[1..][k] == t[j];
        assert s[k + 1] == t[j];
      }
    }
  }

  /** The additions come out in order of run, then platform, and those that tie in the order they came in. */
  lemma {:induction false} SortOrders(cfg: Config, cs: seq<Candidate>, x: Candidate)
    requires Compares(cfg)
    ensures Sorted(cfg, Sort(cfg, cs))
    ensures Ties(cfg, x, Sort(cfg, cs)) == Ties(cfg, x, cs)
  {
    hide Rank, Compares;
    if cs != [] {
      SortOrders(cfg, cs[1..], x);
      InsertOrders(cfg, cs[0], Sort(cfg, cs[1..]), x);
    }
  }

  function Entries(cs: seq<Candidate>): (r: seq<Entry>)
    ensures |r| == |cs|
  {
    seq(|cs|, k requires 0 <= k < |cs| => cs[k].entry)
  }

  function Latest(at: Option<int>, cs: seq<Candidate>): Option<int>
    decreases |cs|
  {
    if cs == [] then at
    else Latest(Some(if at.Some? && at.value > cs[0].info.recordedAt then at.value else cs[0].info.recordedAt), cs[1..])
  }

  function Updated(index: Index, additions: seq<Candidate>): Index {
    Index(Latest(index.updatedAt, additions), index.results + Entries(additions))
  }

  // ----- planning -----

  /** Result files the manifest does not name. */
  function Orphans(d: Dir): set<string> {
    d.files.Keys - Files(IndexOf(d).results)
  }

  predicate Recovers(cs: seq<Candidate>, f: string, bytes: string) {
    exists c :: c in cs && c.info.file == f && bytes == c.bytes
  }

  /** recoverableResults: every orphan must be one of the artifacts, byte for byte. */
  predicate Recoverable(cs: seq<Candidate>, d: Dir) {
    forall f :: f in Orphans(d) ==> Recovers(cs, f, d.files[f])
  }

  /** The names of the orphans, when all can be recovered: a loop over the directory, in any order. */
  method RecoverableResults(cs: seq<Candidate>, d: Dir) returns (r: Option<set<string>>)
    ensures r == if Recoverable(cs, d) then Some(Orphans(d)) else None
  {
    hide Recovers, Files;
    var referenced := Files(IndexOf(d).results);
    var left, recovered := d.files.Keys, {};
    while left != {}
      invariant left <= d.files.Keys && recovered == d.files.Keys - referenced - left
      invariant forall f :: f in recovered ==> Recovers(cs, f, d.files[f])
      decreases |left|
    {
      var f :| f in left;
      left := left - {f};
      if f !in referenced {
        if !Recovers(cs, f, d.files[f]) { return None; }
        recovered := recovered + {f};
      }
    }
    assert recovered == Orphans(d);
    return Some(recovered);
  }

  /** The checks before anything is written, and what is to be added. */
  function Plan(cfg: Config, incoming: seq<Artifact>, d: Dir): Option<seq<Candidate>> {
    match Load(cfg.w, incoming)
    case None => None
    case Some(cs) =>
      if !GoodArtifacts(cs) || !Recoverable(cs, d) || !ValidHistory(cfg.w, d, true, Orphans(d)) then None
      else match Additions(Batches(cs, GroupOrder(cs, BatchKey)), IndexOf(d).results)
        case None => None
        case Some(additions) => Some(Sort(cfg, additions))
  }

  method PlanMerge(cfg: Config, incoming: seq<Artifact>, d: Dir) returns (r: Option<seq<Candidate>>)
    ensures r == Plan(cfg, incoming, d)
  {
    hide Load, Additions, GoodArtifacts, Recoverable, ValidHistory, Sort;
    var loaded := LoadArtifacts(cfg.w, incoming);
    if loaded.None? { return None; }
    var order, groups := Group(loaded.value, BatchKey);
    if !GoodArtifacts(loaded.value) { return None; }
    var recovered := RecoverableResults(loaded.value, d);
    if recovered.None? || !ValidHistory(cfg.w, d, true, recovered.value) { return None; }
    var batches := seq(|order|, k requires 0 <= k < |order| => groups[order[k]]);
    assert batches == Batches(loaded.value, order);
    var additions := CollectAdditions(batches, IndexOf(d).results);
    if additions.None? { return None; }
    return Some(Sort(cfg, additions.value));
  }

  /** The additions' files. */
  function FilesOf(additions: seq<Candidate>): map<string, string>
    decreases |additions|
  {
    if additions == [] then map[]
    else
      var c := additions[|additions| - 1];
      FilesOf(additions[..|additions| - 1])[c.info.file := c.bytes]
  }

  /** The directory with all the additions' files in place, and the updated manifest. */
  function Target(d: Dir, additions: seq<Candidate>): Dir {
    Dir(Some(Updated(IndexOf(d), additions)), d.files + FilesOf(additions))
  }

  /** A merge that nothing disturbs. */
  function Undisturbed(cfg: Config, incoming: seq<Artifact>, d: Dir): Option<Dir> {
    match Plan(cfg, incoming, d)
    case None => None
    case Some(additions) => if additions == [] then Some(d) else Some(Target(d, additions))
  }

  // ----- installing, step by step -----

  /** How one step goes: as asked, not at all with an error, in full but with an error, or the process dies before it. */
  datatype Mark = Good | Fails | FailsLate | Crashes

  /**
    Marks of the steps of one install of n additions: writing addition k is step k, replacing the manifest
    is step n, the final check step n + 1, restoring the manifest step n + 2, removing addition k step n + 3 + k,
    and building the candidate copy, which comes before all of them, step 2n + 3.
  */
  type Schedule = nat -> Mark

  datatype Status = Going | Failed | Crashed

  datatype Progress = Progress(dir: Dir, status: Status)

  function Put(d: Dir, c: Candidate): Dir {
    d.(files := d.files[c.info.file := c.bytes])
  }

  /** Exclusive creation of the files that are not recovered, from addition k on. */
  function WriteFrom(additions: seq<Candidate>, recovered: set<string>, s: Schedule, d: Dir, k: nat): Progress
    requires k <= |additions|
    decreases |additions| - k
  {
    if k == |additions| then Progress(d, Going)
    else
      var c := additions[k];
      if c.info.file in recovered then WriteFrom(additions, recovered, s, d, k + 1)
      else if s(k) == Crashes then Progress(d, Crashed)
      else if s(k) == Fails || c.info.file in d.files then Progress(d, Failed)
      else if s(k) == FailsLate then Progress(Put(d, c), Failed)
      else WriteFrom(additions, recovered, s, Put(d, c), k + 1)
  }

  predicate Takes(m: Mark) {
    m == Good || m == FailsLate
  }

  /** The files the rollback removes; the removals run at once, so a crash can leave any part of them done. */
  function Removed(additions: seq<Candidate>, s: Schedule): set<string> {
    set k | 0 <= k < |additions| && Takes(s(|additions| + 3 + k)) :: additions[k].info.file
  }

  function RemoveAll(additions: seq<Candidate>, s: Schedule, d: Dir): Dir {
    d.(files := d.files - Removed(additions, s))
  }

  datatype Ending = Ending(dir: Dir, complete: bool)

  /** install: write the files, replace the manifest, check; on an error put the manifest back first, then remove the files. */
  function Install(w: World, additions: seq<Candidate>, recovered: set<string>, s: Schedule, d: Dir): Ending {
    var n := |additions|;
    if s(2 * n + 3) == Crashes then Ending(d, false)
    else if s(2 * n + 3) != Good || !ValidHistory(w, Target(d, additions), false, {}) then Ending(RemoveAll(additions, s, d), false)
    else
      var written := WriteFrom(additions, recovered, s, d, 0);
      var installed := written.dir.(index := Some(Updated(IndexOf(d), additions)));
      if written.status == Crashed then Ending(written.dir, false)
      else if written.status == Failed then Ending(RemoveAll(additions, s, written.dir), false)
      else match s(n)
        case Crashes => Ending(written.dir, false)
        case Fails => Ending(RemoveAll(additions, s, written.dir), false)
        case FailsLate => Ending(RemoveAll(additions, s, installed), false)
        case Good =>
          if s(n + 1) == Crashes then Ending(installed, false)
          else if s(n + 1) == Good && ValidHistory(w, installed, false, {}) then Ending(installed, true)
          else if !Takes(s(n + 2)) then Ending(installed, false)
          else if s(n + 2) == FailsLate then Ending(installed.(index := d.index), false)
          else Ending(RemoveAll(additions, s, installed.(index := d.index)), false)
  }

  /** The output directory. The two flags of the source decide what its `finally` undoes. */
  class OutputDirectory {
    const cfg: Config
    var index: Option<Index>
    var files: map<string, string>

    function View(): Dir
      reads this
    {
      Dir(index, files)
    }

    constructor (cfg: Config, d: Dir)
      ensures this.cfg == cfg && View() == d
    {
      this.cfg := cfg;
      index, files := d.index, d.files;
    }

    /** install. The copy that is checked first holds what the directory will hold. */
    method InstallAdditions(additions: seq<Candidate>, recovered: set<string>, s: Schedule) returns (complete: bool)
      modifies this
      ensures Ending(View(), complete) == Install(cfg.w, additions, recovered, s, old(View()))
    {
      hide ValidHistory;
      var n := |additions|;
      var previousIndex := index;
      var updated := Updated(History.IndexOf(View()), additions);
      var manifestInstalled := false;
      ghost var start := View();
      complete := false;
      if s(2 * n + 3) == Crashes { return; }
      var candidateValid := s(2 * n + 3) == Good && ValidHistory(cfg.w, Target(View(), additions), false, {});
      var failed := !candidateValid;
      var k := 0;
      while !failed && k < n
        invariant 0 <= k <= n && index == previousIndex
        invariant candidateValid && !failed ==> WriteFrom(additions, recovered, s, start, 0) == WriteFrom(additions, recovered, s, View(), k)
        invariant candidateValid && failed ==> WriteFrom(additions, recovered, s, start, 0) == Progress(View(), Failed)
        invariant !candidateValid ==> failed && View() == start
        decreases n - k, !failed
      {
        var c := additions[k];
        if c.info.file in recovered {
          k := k + 1;
        } else if s(k) == Crashes {
          return;
        } else if s(k) == Fails || c.info.file in files {
          failed := true;
        } else {
          files := files[c.info.file := c.bytes];
          failed := s(k) == FailsLate;
          if !failed { k := k + 1; }
        }
      }
      if !failed {
        if s(n) == Crashes { return; }
        if Takes(s(n)) { index := Some(updated); }
        if s(n) != Good {
          failed := true;
        } else {
          manifestInstalled := true;
          if s(n + 1) == Crashes { return; }
          complete := s(n + 1) == Good && ValidHistory(cfg.w, View(), false, {});
        }
      }
      if !complete {
        if manifestInstalled {
          if !Takes(s(n + 2)) { return; }
          index := previousIndex;
          if s(n + 2) == FailsLate { return; }
        }
        files := files - Removed(additions, s);
      }
    }

    /** The whole merge: check, plan, install what is new. */
    method MergeArtifacts(incoming: seq<Artifact>, s: Schedule) returns (complete: bool)
      modifies this
      ensures match Plan(cfg, incoming, old(View()))
        case None => !complete && View() == old(View())
        case Some(additions) =>
          if additions == [] then complete && View() == old(View())
          else Ending(View(), complete) == Install(cfg.w, additions, Orphans(old(View())), s, old(View()))
    {
      hide Install, Plan;
      var plan := PlanMerge(cfg, incoming, View());
      match plan {
        case None => complete := false;
        case Some(additions) =>
          if additions == [] {
            complete := true;
          } else {
            complete := InstallAdditions(additions, Orphans(View()), s);
          }
      }
    }
  }
}
