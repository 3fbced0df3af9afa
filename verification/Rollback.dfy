/** Exactly what an install leaves behind, for every schedule of failures, and when its rollback is clean. */
module Rollback {
  import opened Common
  import H = History
  import opened Merge
  import opened CrashSafety

  // ----- how far an install gets, read off the marks of its steps -----

  /** The file of addition k lies in the directory already. */
  ghost predicate Lies(d: H.Dir, additions: seq<Candidate>, k: nat) {
    k < |additions| && additions[k].info.file in Orphans(d)
  }

  /** The candidate copy was accepted, and the additions before k were there or written without an error. */
  ghost predicate Reaches(d: H.Dir, additions: seq<Candidate>, s: Schedule, k: nat) {
    s(2 * |additions| + 3) == Good && forall j: nat :: j < k && j < |additions| ==> Lies(d, additions, j) || s(j) == Good
  }

  /** The file of addition k is there when the writing is over. */
  ghost predicate InPlace(d: H.Dir, additions: seq<Candidate>, s: Schedule, k: nat) {
    k < |additions| && (Lies(d, additions, k) || (Reaches(d, additions, s, k) && Takes(s(k))))
  }

  /** Writing addition k is the first write that does not go well. */
  ghost predicate StopsAt(d: H.Dir, additions: seq<Candidate>, s: Schedule, k: nat) {
    k < |additions| && Reaches(d, additions, s, k) && !Lies(d, additions, k) && s(k) != Good
  }

  predicate Errs(m: Mark) {
    m == Fails || m == FailsLate
  }

  /** All files are written: the install goes on to the manifest. */
  ghost predicate Wrote(d: H.Dir, additions: seq<Candidate>, s: Schedule) {
    Reaches(d, additions, s, |additions|)
  }

  ghost predicate Completes(d: H.Dir, additions: seq<Candidate>, s: Schedule) {
    Wrote(d, additions, s) && s(|additions|) == Good && s(|additions| + 1) == Good
  }

  /** The new manifest stands: it took effect and was not put back. */
  ghost predicate NewManifest(d: H.Dir, additions: seq<Candidate>, s: Schedule) {
    var n := |additions|;
    && Wrote(d, additions, s)
    && (s(n) == FailsLate || (s(n) == Good && (!Errs(s(n + 1)) || !Takes(s(n + 2)))))
  }

  /** The removal of the additions' files is started: something reported an error, and what was to be put back was. */
  ghost predicate RollsBack(d: H.Dir, additions: seq<Candidate>, s: Schedule) {
    var n := |additions|;
    || Errs(s(2 * n + 3))
    || (exists k: nat :: StopsAt(d, additions, s, k) && Errs(s(k)))
    || (Wrote(d, additions, s) && (Errs(s(n)) || (s(n) == Good && Errs(s(n + 1)) && s(n + 2) == Good)))
  }

  /** The removal of the file of addition k takes effect. */
  ghost predicate TakenBack(d: H.Dir, additions: seq<Candidate>, s: Schedule, k: nat) {
    RollsBack(d, additions, s) && Takes(s(|additions| + 3 + k))
  }

  ghost predicate Named(additions: seq<Candidate>, k: nat, f: string) {
    k < |additions| && additions[k].info.file == f
  }

  ghost predicate NamedBelow(additions: seq<Candidate>, k: nat, f: string) {
    exists j: nat :: j < k && Named(additions, j, f)
  }

  // ----- the writes -----

  /** The files of e are those of d and of the additions before k. */
  ghost predicate UpTo(d: H.Dir, additions: seq<Candidate>, e: H.Dir, k: nat) {
    forall f :: f in e.files <==> f in d.files || NamedBelow(additions, k, f)
  }

  /** The files of e are those of d and of the additions in place. */
  ghost predicate Holds(d: H.Dir, additions: seq<Candidate>, s: Schedule, e: H.Dir) {
    forall f :: f in e.files <==> f in d.files || exists j: nat :: Named(additions, j, f) && InPlace(d, additions, s, j)
  }

  /** A file that does not lie in the directory yet can be created. */
  lemma CanCreate(w: H.World, d: H.Dir, additions: seq<Candidate>, e: H.Dir, k: nat)
    requires Planned(w, d, additions) && k < |additions| && UpTo(d, additions, e, k) && !Lies(d, additions, k)
    ensures additions[k].info.file !in e.files
  {
    FilesOfFacts(additions);
    AdditionsAreApart(w, d, additions);
    assert additions[k] in additions;
  }

  lemma UpToNext(w: H.World, d: H.Dir, additions: seq<Candidate>, e: H.Dir, k: nat)
    requires Planned(w, d, additions) && k < |additions| && UpTo(d, additions, e, k)
    ensures Lies(d, additions, k) ==> UpTo(d, additions, e, k + 1)
    ensures UpTo(d, additions, Put(e, additions[k]), k + 1)
  {
    hide Planned, H.ValidHistory;
    forall f ensures NamedBelow(additions, k + 1, f) <==> NamedBelow(additions, k, f) || f == additions[k].info.file {
      OneMore(additions, k, f);
    }
  }

  lemma OneMore(additions: seq<Candidate>, k: nat, f: string)
    requires k < |additions|
    ensures NamedBelow(additions, k + 1, f) <==> NamedBelow(additions, k, f) || f == additions[k].info.file
  {
    if f == additions[k].info.file { assert Named(additions, k, f); }
  }

  lemma WellBefore(d: H.Dir, additions: seq<Candidate>, s: Schedule, k: nat, j: nat)
    ensures k < j && k < |additions| && Reaches(d, additions, s, j) ==> Lies(d, additions, k) || s(k) == Good
  {
  }

  /** The writing stops before addition k, or at it when it takes effect but reports an error. */
  lemma StoppedHolds(d: H.Dir, additions: seq<Candidate>, s: Schedule, e: H.Dir, k: nat)
    requires k < |additions| && Reaches(d, additions, s, k) && !Lies(d, additions, k) && s(k) != Good
    requires UpTo(d, additions, e, if s(k) == FailsLate then k + 1 else k)
    ensures StopsAt(d, additions, s, k) && !Wrote(d, additions, s) && Holds(d, additions, s, e)
    ensures forall j: nat :: StopsAt(d, additions, s, j) ==> j == k
  {
    forall j: nat ensures InPlace(d, additions, s, j) && !Lies(d, additions, j) <==> j < |additions| && !Lies(d, additions, j) && (j < k || (j == k && s(k) == FailsLate)) {
      WellBefore(d, additions, s, k, j);
    }
  }

  lemma FinishedHolds(d: H.Dir, additions: seq<Candidate>, s: Schedule, e: H.Dir)
    requires Wrote(d, additions, s) && UpTo(d, additions, e, |additions|)
    ensures Holds(d, additions, s, e) && forall j: nat :: !StopsAt(d, additions, s, j)
  {
  }

  ghost predicate StopsWith(d: H.Dir, additions: seq<Candidate>, s: Schedule, m: Mark) {
    exists k: nat :: StopsAt(d, additions, s, k) && s(k) == m
  }

  lemma {:induction false} WritesExactly(w: H.World, d: H.Dir, additions: seq<Candidate>, s: Schedule, e: H.Dir, k: nat)
    requires Planned(w, d, additions) && k <= |additions|
    requires Reaches(d, additions, s, k) && UpTo(d, additions, e, k)
    ensures var p := WriteFrom(additions, Orphans(d), s, e, k);
            && Holds(d, additions, s, p.dir)
            && (p.status == Going <==> Wrote(d, additions, s))
            && (p.status == Crashed <==> StopsWith(d, additions, s, Crashes))
            && (p.status == Failed <==> StopsWith(d, additions, s, Fails) || StopsWith(d, additions, s, FailsLate))
    decreases |additions| - k
  {
    hide Planned, UpTo, Holds, Orphans, InPlace;
    if k == |additions| {
      FinishedHolds(d, additions, s, e);
    } else {
      var c := additions[k];
      UpToNext(w, d, additions, e, k);
      if Lies(d, additions, k) {
        WritesExactly(w, d, additions, s, e, k + 1);
      } else {
        CanCreate(w, d, additions, e, k);
        if s(k) == Good {
          WritesExactly(w, d, additions, s, Put(e, c), k + 1);
        } else {
          StoppedHolds(d, additions, s, if s(k) == FailsLate then Put(e, c) else e, k);
        }
      }
    }
  }

  // ----- the ending -----

  /** The files of e are those the old manifest names, and of the additions in place those that were not taken back. */
  ghost predicate Leaves(d: H.Dir, additions: seq<Candidate>, s: Schedule, e: H.Dir) {
    forall f :: f in e.files <==>
      f in Retained(d) || exists k: nat :: Named(additions, k, f) && InPlace(d, additions, s, k) && !TakenBack(d, additions, s, k)
  }

  lemma OrphansLie(w: H.World, d: H.Dir, additions: seq<Candidate>, s: Schedule, f: string)
    requires Planned(w, d, additions)
    ensures f in d.files <==> f in Retained(d) || (f in Orphans(d) && exists k: nat :: Named(additions, k, f) && InPlace(d, additions, s, k))
    ensures f in Retained(d) ==> forall k: nat :: !Named(additions, k, f)
  {
    hide H.ValidHistory, Genuine;
    FilesOfFacts(additions);
    AdditionsAreApart(w, d, additions);
    if f in Orphans(d) {
      var c :| c in additions && c.info.file == f;
      var k: nat :| k < |additions| && additions[k] == c;
      assert Named(additions, k, f) && Lies(d, additions, k);
    }
    forall k: nat | Named(additions, k, f) ensures f !in Retained(d) {
      assert additions[k] in additions;
    }
  }

  /** Without a rollback everything in place stays. */
  lemma LeavesAll(w: H.World, d: H.Dir, additions: seq<Candidate>, s: Schedule, e: H.Dir)
    requires Planned(w, d, additions) && Holds(d, additions, s, e) && !RollsBack(d, additions, s)
    ensures Leaves(d, additions, s, e)
  {
    hide Planned, RollsBack, InPlace, Orphans, Retained;
    forall f ensures f in e.files <==> f in Retained(d) || exists k: nat :: Named(additions, k, f) && InPlace(d, additions, s, k) {
      OrphansLie(w, d, additions, s, f);
    }
  }

  /** The rollback takes away what is in place, as far as its removals take effect. */
  lemma LeavesRest(w: H.World, d: H.Dir, additions: seq<Candidate>, s: Schedule, e: H.Dir)
    requires Planned(w, d, additions) && Holds(d, additions, s, e) && RollsBack(d, additions, s)
    ensures Leaves(d, additions, s, RemoveAll(additions, s, e))
  {
    hide RollsBack, InPlace, Orphans, Retained, H.ValidHistory, Genuine;
    var r := RemoveAll(additions, s, e);
    forall f ensures f in r.files <==> f in Retained(d) || exists k: nat :: Named(additions, k, f) && InPlace(d, additions, s, k) && !TakenBack(d, additions, s, k) {
      OrphansLie(w, d, additions, s, f);
      RemovedIff(additions, s, f);
    }
  }

  lemma RemovedIff(additions: seq<Candidate>, s: Schedule, f: string)
    requires DistinctFiles(additions)
    ensures forall k: nat :: Named(additions, k, f) ==> (f in Removed(additions, s) <==> Takes(s(|additions| + 3 + k)))
    ensures f in Removed(additions, s) ==> exists k: nat :: Named(additions, k, f)
  {
    forall k: nat | Named(additions, k, f) && f in Removed(additions, s) ensures Takes(s(|additions| + 3 + k)) {
      var j :| 0 <= j < |additions| && Takes(s(|additions| + 3 + j)) && additions[j].info.file == f;
      assert j == k;
    }
    if f in Removed(additions, s) {
      var j: nat :| j < |additions| && Takes(s(|additions| + 3 + j)) && additions[j].info.file == f;
      assert Named(additions, j, f);
    }
  }

  /** The copy was not accepted: nothing has been written. */
  lemma NothingWritten(d: H.Dir, additions: seq<Candidate>, s: Schedule)
    requires s(2 * |additions| + 3) != Good
    ensures !Wrote(d, additions, s) && Holds(d, additions, s, d) && forall k: nat :: !StopsAt(d, additions, s, k)
  {
    forall k: nat | InPlace(d, additions, s, k) ensures additions[k].info.file in d.files {
      assert Lies(d, additions, k);
    }
  }

  lemma StopExcludes(d: H.Dir, additions: seq<Candidate>, s: Schedule, j: nat, k: nat)
    requires StopsAt(d, additions, s, j) && StopsAt(d, additions, s, k)
    ensures j == k
  {
  }

  /** The writing ends in at most one way. */
  lemma StopsOnce(d: H.Dir, additions: seq<Candidate>, s: Schedule)
    ensures Wrote(d, additions, s) ==> forall k: nat :: !StopsAt(d, additions, s, k)
    ensures StopsWith(d, additions, s, Crashes) ==> forall k: nat :: StopsAt(d, additions, s, k) ==> !Errs(s(k))
  {
    hide Lies;
    if StopsWith(d, additions, s, Crashes) {
      var j: nat :| StopsAt(d, additions, s, j) && s(j) == Crashes;
      forall k: nat | StopsAt(d, additions, s, k) ensures j == k { StopExcludes(d, additions, s, j, k); }
    }
  }

  lemma UpdatedIsNew(d: H.Dir, additions: seq<Candidate>)
    requires additions != []
    ensures d.index != Some(Updated(H.IndexOf(d), additions))
  {
    assert |Updated(H.IndexOf(d), additions).results| == |H.IndexOf(d).results| + |additions|;
  }

  ghost predicate EndsAs(d: H.Dir, additions: seq<Candidate>, s: Schedule, e: Ending) {
    && (e.complete <==> Completes(d, additions, s))
    && e.dir.index == (if NewManifest(d, additions, s) then Some(Updated(H.IndexOf(d), additions)) else d.index)
    && Leaves(d, additions, s, e.dir)
    && SubMap(e.dir.files, Retained(d) + FilesOf(additions))
  }

  lemma EndsBeforeWriting(w: H.World, d: H.Dir, additions: seq<Candidate>, s: Schedule)
    requires Planned(w, d, additions) && additions != [] && s(2 * |additions| + 3) != Good
    ensures EndsAs(d, additions, s, Install(w, additions, Orphans(d), s, d))
  {
    hide Planned, Holds, Leaves, Orphans, Retained, FilesOf, H.ValidHistory, Updated, Reaches, StopsAt, Removed;
    NothingWritten(d, additions, s);
    StartIsBetween(w, d, additions);
    if RollsBack(d, additions, s) { LeavesRest(w, d, additions, s, d); } else { LeavesAll(w, d, additions, s, d); }
  }

  lemma EndsWhileWriting(w: H.World, d: H.Dir, additions: seq<Candidate>, s: Schedule)
    requires Planned(w, d, additions) && additions != [] && s(2 * |additions| + 3) == Good && !Wrote(d, additions, s)
    ensures EndsAs(d, additions, s, Install(w, additions, Orphans(d), s, d))
  {
    hide Planned, Holds, UpTo, Leaves, Orphans, Retained, FilesOf, H.ValidHistory, Updated, StopsAt, Removed, WriteFrom;
    TargetIsValid(w, d, additions, false);
    WritesFromStart(w, d, additions, s);
    StopsOnce(d, additions, s);
    StartWrites(w, d, additions, s);
    var p := WriteFrom(additions, Orphans(d), s, d, 0);
    if RollsBack(d, additions, s) { LeavesRest(w, d, additions, s, p.dir); } else { LeavesAll(w, d, additions, s, p.dir); }
    assert p.status == Failed <==> RollsBack(d, additions, s);
  }

  lemma WritesFromStart(w: H.World, d: H.Dir, additions: seq<Candidate>, s: Schedule)
    requires Planned(w, d, additions) && s(2 * |additions| + 3) == Good
    ensures var p := WriteFrom(additions, Orphans(d), s, d, 0);
            && Holds(d, additions, s, p.dir)
            && (p.status == Going <==> Wrote(d, additions, s))
            && (p.status == Crashed <==> StopsWith(d, additions, s, Crashes))
            && (p.status == Failed <==> StopsWith(d, additions, s, Fails) || StopsWith(d, additions, s, FailsLate))
  {
    WritesExactly(w, d, additions, s, d, 0);
  }

  lemma SameFilesLeave(d: H.Dir, additions: seq<Candidate>, s: Schedule, a: H.Dir, b: H.Dir)
    requires a.files == b.files
    ensures Leaves(d, additions, s, a) == Leaves(d, additions, s, b) && Holds(d, additions, s, a) == Holds(d, additions, s, b)
  {
  }

  lemma EndsAfterWriting(w: H.World, d: H.Dir, additions: seq<Candidate>, s: Schedule)
    requires Planned(w, d, additions) && additions != [] && Wrote(d, additions, s)
    ensures EndsAs(d, additions, s, Install(w, additions, Orphans(d), s, d))
  {
    hide Planned, Holds, Leaves, Orphans, Retained, FilesOf, H.ValidHistory, Updated, StopsAt, Removed, WriteFrom;
    TargetIsValid(w, d, additions, false);
    WritesFromStart(w, d, additions, s);
    StopsOnce(d, additions, s);
    StartWrites(w, d, additions, s);
    StartIsBetween(w, d, additions);
    BetweenCompletes(w, d, additions, d);
    var p := WriteFrom(additions, Orphans(d), s, d, 0);
    var installed := p.dir.(index := Some(Updated(H.IndexOf(d), additions)));
    assert installed == Target(d, additions) && installed.(index := d.index) == p.dir;
    if RollsBack(d, additions, s) { LeavesRest(w, d, additions, s, p.dir); } else { LeavesAll(w, d, additions, s, p.dir); }
    SameFilesLeave(d, additions, s, p.dir, installed);
    SameFilesLeave(d, additions, s, RemoveAll(additions, s, p.dir), RemoveAll(additions, s, installed));
  }

  /**
    Every ending of an install, read off the marks: when it completes, which manifest stands, and which
    files lie in the directory, each with the bytes it had or its addition has.
  */
  lemma EndsExactly(cfg: Config, incoming: seq<Artifact>, d: H.Dir, s: Schedule)
    requires Plan(cfg, incoming, d).Some? && Plan(cfg, incoming, d).value != []
    ensures var additions := Plan(cfg, incoming, d).value;
            EndsAs(d, additions, s, Install(cfg.w, additions, Orphans(d), s, d))
  {
    hide Plan, EndsAs, Install, Planned;
    var additions := Plan(cfg, incoming, d).value;
    PlanIsPlanned(cfg, incoming, d);
    if s(2 * |additions| + 3) != Good {
      EndsBeforeWriting(cfg.w, d, additions, s);
    } else if Wrote(d, additions, s) {
      EndsAfterWriting(cfg.w, d, additions, s);
    } else {
      EndsWhileWriting(cfg.w, d, additions, s);
    }
  }

  /** The directory as it was before the merge, without what an earlier run had left over. */
  ghost function Clean(d: H.Dir): H.Dir {
    H.Dir(d.index, Retained(d))
  }

  lemma LeavesNothingIff(w: H.World, d: H.Dir, additions: seq<Candidate>, s: Schedule, e: H.Dir)
    requires Planned(w, d, additions) && Leaves(d, additions, s, e) && SubMap(e.files, Retained(d) + FilesOf(additions))
    ensures e.files == Retained(d) <==> forall k: nat :: InPlace(d, additions, s, k) ==> TakenBack(d, additions, s, k)
  {
    hide Planned, InPlace, TakenBack, Retained, FilesOf, Orphans;
    if e.files == Retained(d) {
      forall k: nat | InPlace(d, additions, s, k) ensures TakenBack(d, additions, s, k) {
        InPlaceIsNamed(d, additions, s, k);
        OrphansLie(w, d, additions, s, additions[k].info.file);
      }
    }
    if forall k: nat :: InPlace(d, additions, s, k) ==> TakenBack(d, additions, s, k) {
      FilesOfApart(w, d, additions);
      assert e.files.Keys == Retained(d).Keys;
    }
  }

  lemma InPlaceIsNamed(d: H.Dir, additions: seq<Candidate>, s: Schedule, k: nat)
    requires InPlace(d, additions, s, k)
    ensures k < |additions| && Named(additions, k, additions[k].info.file)
  {
  }

  lemma FilesOfApart(w: H.World, d: H.Dir, additions: seq<Candidate>)
    requires Planned(w, d, additions)
    ensures FilesOf(additions).Keys !! Retained(d).Keys
  {
    AdditionsAreApart(w, d, additions);
  }

  /**
    A merge ends in the old manifest with exactly the files it names, and nothing else: if and only if the
    new manifest does not stand and every file in place was taken back by a rollback.
  */
  lemma CleanIff(cfg: Config, incoming: seq<Artifact>, d: H.Dir, s: Schedule)
    requires Plan(cfg, incoming, d).Some? && Plan(cfg, incoming, d).value != []
    ensures var additions := Plan(cfg, incoming, d).value;
            Install(cfg.w, additions, Orphans(d), s, d) == Ending(Clean(d), false)
            <==> !NewManifest(d, additions, s)
                 && forall k: nat :: InPlace(d, additions, s, k) ==> TakenBack(d, additions, s, k)
  {
    hide Plan, Install, Planned, Leaves, InPlace, TakenBack, Wrote, Retained, FilesOf, Updated;
    var additions := Plan(cfg, incoming, d).value;
    PlanIsPlanned(cfg, incoming, d);
    EndsExactly(cfg, incoming, d, s);
    UpdatedIsNew(d, additions);
    LeavesNothingIff(cfg.w, d, additions, s, Install(cfg.w, additions, Orphans(d), s, d).dir);
  }

  /**
    An install that reports an error, without a crash, before the new manifest takes effect, or after it
    with the old one put back: it ends clean if and only if the removal of every file in place took effect.
  */
  lemma RollbackIff(cfg: Config, incoming: seq<Artifact>, d: H.Dir, s: Schedule)
    requires Plan(cfg, incoming, d).Some? && Plan(cfg, incoming, d).value != []
    requires RollsBack(d, Plan(cfg, incoming, d).value, s)
    requires !(Wrote(d, Plan(cfg, incoming, d).value, s) && s(|Plan(cfg, incoming, d).value|) == FailsLate)
    ensures var additions := Plan(cfg, incoming, d).value;
            Install(cfg.w, additions, Orphans(d), s, d) == Ending(Clean(d), false)
            <==> forall k: nat :: InPlace(d, additions, s, k) ==> Takes(s(|additions| + 3 + k))
  {
    hide Plan, Install, InPlace, Retained, Lies;
    var additions := Plan(cfg, incoming, d).value;
    StopsOnce(d, additions, s);
    CleanIff(cfg, incoming, d, s);
  }
}
