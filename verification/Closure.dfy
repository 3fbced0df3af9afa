/** The dependency closure of a lockfile (benchmark/competitors/dependencies.js, lines 8-72). */
module Closure {
  import opened Common

  /** A package-lock entry: the names of its dependencies and of its optional dependencies. */
  datatype Package = Package(dependencies: seq<string>, optional: seq<string>)

  type Lock = map<string, Package>

  const MARKER: string := "/node_modules/"

  // ----- resolution -----

  predicate MarkerAt(path: string, i: int) {
    0 <= i && i + |MARKER| <= |path| && path[i..i + |MARKER|] == MARKER
  }

  /** lastIndexOf, at or before `from` */
  function LastMarker(path: string, from: int): (r: int)
    requires from + |MARKER| <= |path|
    ensures r == -1 || (0 <= r <= from && MarkerAt(path, r))
    ensures forall i :: r < i <= from ==> !MarkerAt(path, i)
    decreases from + 1
  {
    if from < 0 then -1 else if MarkerAt(path, from) then from else LastMarker(path, from - 1)
  }

  function MarkerOf(path: string): (r: int)
    ensures r == -1 || (0 <= r < |path| && MarkerAt(path, r))
    ensures forall i :: r < i ==> !MarkerAt(path, i)
  {
    if |path| < |MARKER| then -1 else LastMarker(path, |path| - |MARKER|)
  }

  function Nested(dir: string, name: string): string {
    dir + MARKER + name
  }

  function RootPath(name: string): string {
    "node_modules/" + name
  }

  /** The directories a lookup from `path` tries, innermost first, before the root. */
  function Enclosing(path: string): seq<string>
    decreases |path|
  {
    if path == "" then []
    else
      var m := MarkerOf(path);
      if m == -1 then [path] else [path] + Enclosing(path[..m])
  }

  function FirstHit(lock: Lock, dirs: seq<string>, name: string): Option<string> {
    if dirs == [] then (if RootPath(name) in lock then Some(RootPath(name)) else None)
    else if Nested(dirs[0], name) in lock then Some(Nested(dirs[0], name))
    else FirstHit(lock, dirs[1..], name)
  }

  function Resolve(lock: Lock, parent: string, name: string): Option<string> {
    FirstHit(lock, Enclosing(parent), name)
  }

  /** resolveDependency: the loop shortens the path at each last marker. */
  method ResolveDependency(lock: Lock, parent: string, name: string) returns (r: Option<string>)
    ensures r == Resolve(lock, parent, name)
  {
    var current := parent;
    while current != ""
      invariant FirstHit(lock, Enclosing(current), name) == Resolve(lock, parent, name)
      decreases |current|
    {
      var nested := Nested(current, name);
      if nested in lock { return Some(nested); }
      var marker := MarkerOf(current);
      if marker == -1 { break; }
      current := current[..marker];
    }
    return if RootPath(name) in lock then Some(RootPath(name)) else None;
  }

  /** A directory that encloses the path: the path itself, or the path cut before one of its markers. */
  ghost predicate Encloses(dir: string, path: string) {
    dir != "" && dir <= path && (dir == path || MarkerAt(path, |dir|))
  }

  /** No marker of the path begins with the slash that ends another one. */
  ghost predicate Tidy(path: string) {
    forall i :: MarkerAt(path, i) && i > 0 ==> !MarkerAt(path, i + |MARKER| - 1)
  }

  /** Two markers share at most a slash. */
  lemma MarkersApart(path: string, i: int, m: int)
    requires MarkerAt(path, i) && MarkerAt(path, m) && i < m
    ensures i + |MARKER| - 1 <= m
  {
    if m < i + |MARKER| {
      assert path[i..i + |MARKER|][m - i] == path[m..m + |MARKER|][0];
      assert MARKER[m - i] == '/';
    }
  }

  lemma CutMarkers(path: string, m: nat, i: int)
    requires m <= |path|
    ensures MarkerAt(path[..m], i) <==> MarkerAt(path, i) && i + |MARKER| <= m
  {
    if 0 <= i && i + |MARKER| <= m {
      assert path[..m][i..i + |MARKER|] == path[i..i + |MARKER|];
    }
  }

  /** The lookup tries only enclosing directories, innermost first, each marker ending inside the one before. */
  lemma {:induction false} EnclosingSound(path: string, k: nat)
    requires k < |Enclosing(path)|
    ensures var dir := Enclosing(path)[k];
            && Encloses(dir, path) && (k > 0 ==> |dir| + |MARKER| <= |path|)
            && forall j :: 0 <= j < k ==> |dir| + |MARKER| <= |Enclosing(path)[j]|
    decreases |path|
  {
    hide MarkerAt, MarkerOf;
    var m := MarkerOf(path);
    if k > 0 {
      var outer, dir := path[..m], Enclosing(path)[k];
      EnclosingSound(outer, k - 1);
      CutMarkers(path, m, |dir|);
      LastMarkerFits(path);
      forall j | 0 <= j < k ensures |dir| + |MARKER| <= |Enclosing(path)[j]| {
        if j > 0 { assert Enclosing(path)[j] == Enclosing(outer)[j - 1]; }
      }
    }
  }

  lemma LastMarkerFits(path: string)
    requires MarkerOf(path) != -1
    ensures 0 <= MarkerOf(path) && MarkerOf(path) + |MARKER| <= |path| && MarkerAt(path, MarkerOf(path))
  {
  }

  /** In a tidy path it tries all of them. */
  lemma {:induction false} EnclosingComplete(path: string, dir: string)
    requires Tidy(path) && Encloses(dir, path)
    ensures dir in Enclosing(path)
    decreases |path|
  {
    var m := MarkerOf(path);
    if dir != path {
      var outer := path[..m];
      if |dir| < m {
        MarkersApart(path, |dir|, m);
        CutMarkers(path, m, |dir|);
        assert dir <= outer;
      } else {
        assert dir == outer;
      }
      forall i | MarkerAt(outer, i) && i > 0 ensures !MarkerAt(outer, i + |MARKER| - 1) {
        CutMarkers(path, m, i);
        CutMarkers(path, m, i + |MARKER| - 1);
      }
      EnclosingComplete(outer, dir);
    }
  }

  /**
    The lookup tries exactly the enclosing directories if and only if the path is tidy: in
    a/node_modules/node_modules/b the directory a is passed over.
  */
  lemma EnclosingExactIff(path: string)
    ensures Tidy(path) <==> forall dir :: Encloses(dir, path) ==> dir in Enclosing(path)
  {
    if Tidy(path) {
      forall dir | Encloses(dir, path) ensures dir in Enclosing(path) { EnclosingComplete(path, dir); }
    } else {
      var i :| MarkerAt(path, i) && i > 0 && MarkerAt(path, i + |MARKER| - 1);
      var inner, outer := path[..i + |MARKER| - 1], path[..i];
      assert Encloses(inner, path) && Encloses(outer, path);
      if inner in Enclosing(path) && outer in Enclosing(path) {
        OneBeforeOther(path, inner, outer);
      }
    }
  }

  const UNTIDY: string := "a/node_modules/node_modules/b"

  /** In that path the last marker is taken first, and what it leaves has none. */
  lemma PassedOver()
    ensures !Tidy(UNTIDY) && Encloses("a", UNTIDY) && Enclosing(UNTIDY) == [UNTIDY, "a/node_modules"]
  {
    hide MarkerAt, MarkerOf;
    UntidyMarkers();
    assert UNTIDY[..1] == "a" && UNTIDY[..14] == "a/node_modules";
    assert Enclosing("a/node_modules") == ["a/node_modules"];
  }

  lemma UntidyMarkers()
    ensures MarkerAt(UNTIDY, 1) && MarkerAt(UNTIDY, 14)
    ensures MarkerOf(UNTIDY) == 14 && MarkerOf("a/node_modules") == -1
  {
    hide MarkerOf, MarkerAt;
    UntidyTexts();
    MarkerInside("a", "node_modules/b");
    MarkerInside("a/node_modules", "b");
    MarkerIsSlash(UNTIDY, 15);
    MarkerIsSlash("a/node_modules", 0);
    MarkerFits(UNTIDY, MarkerOf(UNTIDY));
    if MarkerOf("a/node_modules") != -1 { MarkerFits("a/node_modules", MarkerOf("a/node_modules")); }
  }

  lemma UntidyTexts()
    ensures UNTIDY == "a" + MARKER + "node_modules/b"
    ensures UNTIDY == "a/node_modules" + MARKER + "b"
    ensures |MARKER| == 14 && |UNTIDY| == 29 && UNTIDY[15] == 'n'
  {
  }

  lemma MarkerInside(before: string, behind: string)
    ensures MarkerAt(before + MARKER + behind, |before|)
  {
  }

  lemma MarkerFits(path: string, i: int)
    requires MarkerAt(path, i)
    ensures 0 <= i && i + |MARKER| <= |path|
  {
  }

  lemma MarkerIsSlash(path: string, i: nat)
    requires i < |path| && path[i] != '/'
    ensures !MarkerAt(path, i)
  {
    if i + |MARKER| <= |path| { assert path[i..i + |MARKER|][0] == path[i]; }
  }

  lemma OneBeforeOther(path: string, inner: string, outer: string)
    requires inner in Enclosing(path) && outer in Enclosing(path) && |outer| < |inner|
    ensures |outer| + |MARKER| <= |inner|
  {
    var j :| 0 <= j < |Enclosing(path)| && Enclosing(path)[j] == inner;
    var k :| 0 <= k < |Enclosing(path)| && Enclosing(path)[k] == outer;
    EnclosingSound(path, j);
    EnclosingSound(path, k);
  }

  /** The nearest directory tried that holds the package wins; the root comes last. */
  lemma {:induction false} NearestHit(lock: Lock, dirs: seq<string>, name: string)
    ensures match FirstHit(lock, dirs, name)
      case None => RootPath(name) !in lock && forall k :: 0 <= k < |dirs| ==> Nested(dirs[k], name) !in lock
      case Some(hit) =>
        && hit in lock
        && (|| (exists k :: 0 <= k < |dirs| && hit == Nested(dirs[k], name) && forall j :: 0 <= j < k ==> Nested(dirs[j], name) !in lock)
            || (hit == RootPath(name) && forall k :: 0 <= k < |dirs| ==> Nested(dirs[k], name) !in lock))
  {
    if dirs != [] {
      NearestHit(lock, dirs[1..], name);
      if Nested(dirs[0], name) !in lock {
        assert forall k :: 1 <= k < |dirs| ==> dirs[k] == dirs[1..][k - 1];
        var hit := FirstHit(lock, dirs[1..], name);
        if hit.Some? && exists k :: 0 <= k < |dirs| - 1 && hit.value == Nested(dirs[1..][k], name) && forall j :: 0 <= j < k ==> Nested(dirs[1..][j], name) !in lock {
          var k :| 0 <= k < |dirs| - 1 && hit.value == Nested(dirs[1..][k], name) && forall j :: 0 <= j < k ==> Nested(dirs[1..][j], name) !in lock;
          assert hit.value == Nested(dirs[k + 1], name);
        }
      }
    }
  }

  /** A hit in the enclosing directory nearest to the path, or in the root when no enclosing directory has one. */
  ghost predicate IsNearest(lock: Lock, path: string, name: string, hit: string) {
    || (exists dir :: Encloses(dir, path) && hit == Nested(dir, name) && hit in lock
          && forall other :: Encloses(other, path) && Nested(other, name) in lock ==> |other| <= |dir|)
    || (hit == RootPath(name) && hit in lock && forall other :: Encloses(other, path) ==> Nested(other, name) !in lock)
  }

  lemma HitIsNearest(lock: Lock, path: string, name: string)
    requires Tidy(path)
    ensures match Resolve(lock, path, name)
      case Some(hit) => IsNearest(lock, path, name, hit)
      case None => RootPath(name) !in lock && forall other :: Encloses(other, path) ==> Nested(other, name) !in lock
  {
    hide Encloses, Tidy, Nested, RootPath, FirstHit;
    var dirs := Enclosing(path);
    NearestHit(lock, dirs, name);
    forall other | Encloses(other, path) ensures exists j :: 0 <= j < |dirs| && dirs[j] == other {
      EnclosingComplete(path, other);
    }
    var hit := Resolve(lock, path, name);
    if hit.Some? {
      if k :| 0 <= k < |dirs| && hit.value == Nested(dirs[k], name) && forall j :: 0 <= j < k ==> Nested(dirs[j], name) !in lock {
        EnclosingSound(path, k);
        forall other | Encloses(other, path) && Nested(other, name) in lock ensures |other| <= |dirs[k]| {
          var j :| 0 <= j < |dirs| && dirs[j] == other;
          EnclosingSound(path, j);
        }
      }
    }
  }

  /** From a tidy path the lookup finds exactly the nearest enclosing hit, and nothing exactly when there is none. */
  lemma ResolveIsNearest(lock: Lock, path: string, name: string, hit: string)
    requires Tidy(path)
    ensures Resolve(lock, path, name) == Some(hit) <==> IsNearest(lock, path, name, hit)
  {
    hide Resolve, Tidy, Nested, RootPath, MarkerAt;
    HitIsNearest(lock, path, name);
    if IsNearest(lock, path, name, hit) {
      NearestIsUnique(lock, path, name, hit, Resolve(lock, path, name).value);
    }
  }

  lemma NearestIsUnique(lock: Lock, path: string, name: string, a: string, b: string)
    requires IsNearest(lock, path, name, a) && IsNearest(lock, path, name, b)
    ensures a == b
  {
    hide Nested, RootPath, MarkerAt;
    if x, y :| Encloses(x, path) && a == Nested(x, name) && Encloses(y, path) && b == Nested(y, name) && |x| == |y| {
      assert x == path[..|x|] && y == path[..|y|];
    }
  }

  // ----- the closure -----

  datatype Failure = MissingRoot(path: string) | Unresolved(name: string, from: string)

  /** What one entry asks for: all its dependencies must resolve, its optional ones may. */
  function Required(lock: Lock, path: string): seq<string> {
    if path in lock then lock[path].dependencies else []
  }

  function Optional(lock: Lock, path: string): seq<string> {
    if path in lock then lock[path].optional else []
  }

  ghost predicate Resolvable(lock: Lock, path: string) {
    forall name :: name in Required(lock, path) ==> Resolve(lock, path, name).Some?
  }

  /** The packages a root's own dependencies resolve to. */
  ghost predicate StartsAt(lock: Lock, roots: seq<string>, p: string) {
    exists r, name :: r in roots && name in Required(lock, r) && Resolve(lock, r, name) == Some(p)
  }

  /** A dependency edge of a visited package; optional edges count when they resolve. */
  ghost predicate Edge(lock: Lock, from: string, to: string) {
    exists name :: name in Required(lock, from) + Optional(lock, from) && Resolve(lock, from, name) == Some(to)
  }

  /** A path of packages, none of them a root, from a root's dependency along edges. */
  ghost predicate IsPath(lock: Lock, roots: seq<string>, path: seq<string>) {
    && path != [] && StartsAt(lock, roots, path[0])
    && (forall k :: 0 <= k < |path| ==> path[k] !in roots)
    && forall k {:trigger path[k]} :: 1 <= k < |path| ==> Edge(lock, path[k - 1], path[k])
  }

  ghost predicate Reachable(lock: Lock, roots: seq<string>, p: string) {
    exists path :: IsPath(lock, roots, path) && path[|path| - 1] == p
  }

  ghost predicate Sound(lock: Lock, roots: seq<string>) {
    && (forall r :: r in roots ==> r in lock && Resolvable(lock, r))
    && forall p :: Reachable(lock, roots, p) ==> Resolvable(lock, p)
  }

  /** Along tidy paths an edge leads to the nearest enclosing hit of a dependency's name. */
  lemma EdgeIsNearest(lock: Lock, from: string, to: string)
    requires Tidy(from)
    ensures Edge(lock, from, to) <==>
            exists name :: name in Required(lock, from) + Optional(lock, from) && IsNearest(lock, from, name, to)
  {
    hide Resolve, IsNearest, Tidy, Required, Optional;
    forall name ensures Resolve(lock, from, name) == Some(to) <==> IsNearest(lock, from, name, to) {
      ResolveIsNearest(lock, from, name, to);
    }
  }

  /** The dependencies the roots name, repeats included. */
  function DirectEdges(lock: Lock, roots: seq<string>): nat
    decreases |roots|
  {
    if roots == [] then 0
    else DirectEdges(lock, roots[..|roots| - 1]) + |Required(lock, roots[|roots| - 1])|
  }

  lemma ReachableStart(lock: Lock, roots: seq<string>, p: string)
    requires StartsAt(lock, roots, p) && p !in roots
    ensures Reachable(lock, roots, p)
  {
    assert IsPath(lock, roots, [p]);
    assert [p][|[p]| - 1] == p;
  }

  lemma ReachableStep(lock: Lock, roots: seq<string>, p: string, q: string)
    requires Reachable(lock, roots, p) && Edge(lock, p, q) && q !in roots
    ensures Reachable(lock, roots, q)
  {
    hide Edge, StartsAt;
    var path :| IsPath(lock, roots, path) && path[|path| - 1] == p;
    var longer := path + [q];
    forall k {:trigger longer[k]} | 1 <= k < |longer| ensures Edge(lock, longer[k - 1], longer[k]) {
      if k < |path| { assert longer[k] == path[k] && longer[k - 1] == path[k - 1]; }
    }
    assert IsPath(lock, roots, longer) && longer[|longer| - 1] == q;
  }

  /** A set that holds the non-root starts and is closed under edges holds everything reachable. */
  lemma {:induction false} ClosedHolds(lock: Lock, roots: seq<string>, visited: set<string>, path: seq<string>)
    requires IsPath(lock, roots, path)
    requires forall p :: StartsAt(lock, roots, p) && p !in roots ==> p in visited
    requires forall p, q :: p in visited && Edge(lock, p, q) && q !in roots ==> q in visited
    ensures path[|path| - 1] in visited
    decreases |path|
  {
    hide Edge, StartsAt;
    var n := |path| - 1;
    if n > 0 {
      var shorter := path[..n];
      forall k {:trigger shorter[k]} | 1 <= k < n ensures Edge(lock, shorter[k - 1], shorter[k]) {
        assert shorter[k] == path[k] && shorter[k - 1] == path[k - 1];
      }
      ClosedHolds(lock, roots, visited, shorter);
      assert Edge(lock, path[n - 1], path[n]);
    }
  }

  /** Queueing what one package's names resolve to. */
  method Enqueue(lock: Lock, from: string, names: seq<string>, required: bool) returns (r: Result<seq<string>, Failure>)
    ensures r.Ok? <==> !required || forall name :: name in names ==> Resolve(lock, from, name).Some?
    ensures r.Ok? ==> forall p :: p in r.value <==> exists name :: name in names && Resolve(lock, from, name) == Some(p)
    ensures r.Err? ==> exists name :: name in names && r.error == Unresolved(name, from) && Resolve(lock, from, name).None?
  {
    hide Resolve;
    var queue: seq<string> := [];
    for k := 0 to |names|
      invariant required ==> forall j :: 0 <= j < k ==> Resolve(lock, from, names[j]).Some?
      invariant forall p :: p in queue <==> exists name :: name in names[..k] && Resolve(lock, from, name) == Some(p)
    {
      var resolved := ResolveDependency(lock, from, names[k]);
      assert names[..k + 1] == names[..k] + [names[k]];
      if resolved.None? {
        if required { return Err(Unresolved(names[k], from)); }
      } else {
        queue := queue + [resolved.value];
      }
    }
    assert names[..|names|] == names;
    return Ok(queue);
  }

  lemma ResolvedIsLocked(lock: Lock, from: string, name: string)
    ensures Resolve(lock, from, name).Some? ==> Resolve(lock, from, name).value in lock
  {
    NearestHit(lock, Enclosing(from), name);
  }

  /** The part of the worklist's state that its loop keeps. */
  ghost predicate Working(lock: Lock, roots: seq<string>, visited: set<string>, queue: seq<string>) {
    && (forall p :: p in visited ==> p in lock && p !in roots && Reachable(lock, roots, p) && Resolvable(lock, p))
    && (forall q :: q in queue ==> q in lock && (q in roots || Reachable(lock, roots, q)))
    && (forall p :: StartsAt(lock, roots, p) && p !in roots ==> p in visited || p in queue)
    && (forall p, q :: p in visited && Edge(lock, p, q) && q !in roots ==> q in visited || q in queue)
  }

  lemma SkipHead(lock: Lock, roots: seq<string>, visited: set<string>, queue: seq<string>)
    requires Working(lock, roots, visited, queue) && queue != [] && (queue[0] in visited || queue[0] in roots)
    ensures Working(lock, roots, visited, queue[1..])
  {
    hide Reachable, Resolvable, StartsAt, Edge;
    assert queue == [queue[0]] + queue[1..];
  }

  lemma VisitHead(lock: Lock, roots: seq<string>, visited: set<string>, queue: seq<string>, deps: seq<string>, optional: seq<string>)
    requires Working(lock, roots, visited, queue) && queue != [] && queue[0] !in visited && queue[0] !in roots
    requires Resolvable(lock, queue[0])
    requires forall q :: q in deps <==> exists name :: name in Required(lock, queue[0]) && Resolve(lock, queue[0], name) == Some(q)
    requires forall q :: q in optional <==> exists name :: name in Optional(lock, queue[0]) && Resolve(lock, queue[0], name) == Some(q)
    ensures Working(lock, roots, visited + {queue[0]}, queue[1..] + deps + optional)
  {
    hide Resolve, Reachable, Required, Optional, Resolvable, StartsAt;
    var head := queue[0];
    assert queue == [head] + queue[1..];
    forall q | q in deps + optional ensures q in lock && (q in roots || Reachable(lock, roots, q)) {
      var name :| name in Required(lock, head) + Optional(lock, head) && Resolve(lock, head, name) == Some(q);
      ResolvedIsLocked(lock, head, name);
      if q !in roots { ReachableStep(lock, roots, head, q); }
    }
    forall q | Edge(lock, head, q) ensures q in deps + optional {
      var name :| name in Required(lock, head) + Optional(lock, head) && Resolve(lock, head, name) == Some(q);
    }
  }

  lemma StartQueue(lock: Lock, roots: seq<string>, queue: seq<string>)
    requires forall p :: p in queue <==> StartsAt(lock, roots, p)
    ensures Working(lock, roots, {}, queue)
  {
    hide Resolve, Reachable, Required;
    forall p | p in queue ensures p in lock && (p in roots || Reachable(lock, roots, p)) {
      var r, name :| r in roots && name in Required(lock, r) && Resolve(lock, r, name) == Some(p);
      ResolvedIsLocked(lock, r, name);
      if p !in roots { ReachableStart(lock, roots, p); }
    }
  }

  lemma EmptyQueueIsAll(lock: Lock, roots: seq<string>, visited: set<string>)
    requires Working(lock, roots, visited, [])
    ensures forall p :: p in visited <==> Reachable(lock, roots, p)
    ensures forall p :: Reachable(lock, roots, p) ==> Resolvable(lock, p)
  {
    hide Resolvable, StartsAt, Edge;
    forall p | Reachable(lock, roots, p) ensures p in visited {
      var path :| IsPath(lock, roots, path) && path[|path| - 1] == p;
      ClosedHolds(lock, roots, visited, path);
    }
  }

  /** What a failure says is really so. */
  ghost predicate TrueFailure(lock: Lock, roots: seq<string>, e: Failure) {
    match e
    case MissingRoot(path) => path in roots && path !in lock
    case Unresolved(name, from) =>
      (from in roots || Reachable(lock, roots, from)) && name in Required(lock, from) && Resolve(lock, from, name).None?
  }

  lemma FailureIsUnsound(lock: Lock, roots: seq<string>, e: Failure)
    requires TrueFailure(lock, roots, e)
    ensures !Sound(lock, roots)
  {
    hide Resolve, Reachable, Required;
  }

  /** The first loop: what the roots' own dependencies resolve to. */
  method QueueRoots(lock: Lock, roots: seq<string>) returns (r: Result<seq<string>, Failure>, directEdges: nat)
    ensures r.Err? ==> TrueFailure(lock, roots, r.error)
    ensures r.Ok? ==> forall root :: root in roots ==> root in lock && Resolvable(lock, root)
    ensures r.Ok? ==> forall p :: p in r.value <==> StartsAt(lock, roots, p)
    ensures r.Ok? ==> directEdges == DirectEdges(lock, roots)
  {
    hide Resolve, Reachable, StartsAt, Resolvable;
    directEdges := 0;
    var queue: seq<string> := [];
    NoStarts(lock);
    for k := 0 to |roots|
      invariant forall r :: r in roots[..k] ==> r in lock && Resolvable(lock, r)
      invariant forall p :: p in queue <==> StartsAt(lock, roots[..k], p)
      invariant directEdges == DirectEdges(lock, roots[..k])
    {
      var root := roots[k];
      assert roots[..k + 1] == roots[..k] + [root];
      if root !in lock { return Err(MissingRoot(root)), directEdges; }
      directEdges := directEdges + |lock[root].dependencies|;
      var deps := Enqueue(lock, root, lock[root].dependencies, true);
      NamesResolvable(lock, root);
      if deps.Err? { return Err(deps.error), directEdges; }
      MoreStarts(lock, roots, k, deps.value);
      queue := queue + deps.value;
    }
    assert roots[..|roots|] == roots;
    return Ok(queue), directEdges;
  }

  /** One package taken from the queue. */
  method Visit(lock: Lock, roots: seq<string>, ghost visited: set<string>, queue: seq<string>) returns (r: Result<seq<string>, Failure>)
    requires Working(lock, roots, visited, queue) && queue != [] && queue[0] !in visited && queue[0] !in roots
    ensures queue[0] in lock
    ensures r.Err? ==> TrueFailure(lock, roots, r.error)
    ensures r.Ok? ==> Working(lock, roots, visited + {queue[0]}, r.value)
  {
    hide Resolve, Reachable, Working, Edge, StartsAt, Resolvable;
    var path := queue[0];
    HeadIsReachable(lock, roots, visited, queue);
    var deps := Enqueue(lock, path, lock[path].dependencies, true);
    NamesResolvable(lock, path);
    if deps.Err? { return Err(deps.error); }
    var optional := Enqueue(lock, path, lock[path].optional, false);
    VisitHead(lock, roots, visited, queue, deps.value, optional.value);
    return Ok(queue[1..] + deps.value + optional.value);
  }

  /**
    closure: succeeds exactly when every root is in the lockfile and every dependency of a root or of a
    reachable package resolves; what it visited is then exactly what is reachable, cycles or not.
  */
  method ClosureOf(lock: Lock, roots: seq<string>) returns (r: Result<set<string>, Failure>, directEdges: nat)
    ensures r.Ok? <==> Sound(lock, roots)
    ensures r.Ok? ==> forall p :: p in r.value <==> Reachable(lock, roots, p)
    ensures r.Ok? ==> directEdges == DirectEdges(lock, roots)
    ensures r.Err? ==> TrueFailure(lock, roots, r.error)
  {
    hide Resolve, Reachable, Working, StartsAt, Resolvable, TrueFailure, Sound;
    var starts;
    starts, directEdges := QueueRoots(lock, roots);
    if starts.Err? {
      FailureIsUnsound(lock, roots, starts.error);
      return Err(starts.error), directEdges;
    }
    var queue := starts.value;
    StartQueue(lock, roots, queue);
    var visited: set<string> := {};
    while queue != []
      invariant visited <= lock.Keys
      invariant Working(lock, roots, visited, queue)
      decreases |lock.Keys - visited|, |queue|
    {
      var path := queue[0];
      if path in visited || path in roots {
        SkipHead(lock, roots, visited, queue);
        queue := queue[1..];
      } else {
        var next := Visit(lock, roots, visited, queue);
        if next.Err? {
          FailureIsUnsound(lock, roots, next.error);
          return Err(next.error), directEdges;
        }
        assert lock.Keys - (visited + {path}) == lock.Keys - visited - {path};
        visited := visited + {path};
        queue := next.value;
      }
    }
    EmptyQueueIsAll(lock, roots, visited);
    NothingMissing(lock, roots);
    return Ok(visited), directEdges;
  }

  lemma NothingMissing(lock: Lock, roots: seq<string>)
    requires forall r :: r in roots ==> r in lock && Resolvable(lock, r)
    requires forall p :: Reachable(lock, roots, p) ==> Resolvable(lock, p)
    ensures Sound(lock, roots)
  {
  }

  lemma NamesResolvable(lock: Lock, path: string)
    requires path in lock
    ensures Resolvable(lock, path) <==> forall name :: name in lock[path].dependencies ==> Resolve(lock, path, name).Some?
  {
    hide Resolve;
  }

  lemma NoStarts(lock: Lock)
    ensures forall p :: !StartsAt(lock, [], p)
  {
  }

  lemma HeadIsReachable(lock: Lock, roots: seq<string>, visited: set<string>, queue: seq<string>)
    requires Working(lock, roots, visited, queue) && queue != []
    ensures queue[0] in lock && (queue[0] in roots || Reachable(lock, roots, queue[0]))
  {
    hide Reachable, Resolvable, StartsAt, Edge;
    assert queue[0] in queue;
  }

  lemma MoreStarts(lock: Lock, roots: seq<string>, k: nat, deps: seq<string>)
    requires k < |roots|
    requires forall p :: p in deps <==> exists name :: name in Required(lock, roots[k]) && Resolve(lock, roots[k], name) == Some(p)
    ensures forall p :: StartsAt(lock, roots[..k + 1], p) <==> StartsAt(lock, roots[..k], p) || p in deps
  {
    hide Resolve, Required;
    assert roots[..k + 1] == roots[..k] + [roots[k]];
    assert roots[k] in roots[..k + 1];
  }
}
