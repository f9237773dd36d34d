/** The include-closure walk of the Q_OS_* guard, over a finite and possibly cyclic include graph. */
module IncludeScope {

  type Path = string

  datatype Line = Include(target: string) | Other

  // ----- Names ----------------------------------------------------------------------------------

  function Normalized(target: string): (r: string)
    ensures |r| == |target|
    ensures forall k :: 0 <= k < |r| ==> r[k] == if target[k] == '\\' then '/' else target[k]
  {
    seq(|target|, k requires 0 <= k < |target| => if target[k] == '\\' then '/' else target[k])
  }

  /** The parts of `s[start..]` between slashes, where `start` begins a part and `i` is inside it. */
  function Segments(s: string, start: nat, i: nat): (r: seq<string>)
    requires start <= i <= |s|
    ensures |r| > 0
    decreases |s| - i
  {
    if i == |s| then [s[start..]]
    else if s[i] == '/' then [s[start..i]] + Segments(s, i + 1, i + 1)
    else Segments(s, start, i + 1)
  }

  /** The last part that names something, as a path library reads it. */
  function BareName(parts: seq<string>): string {
    if parts == [] then ""
    else if parts[|parts| - 1] in ["", "."] then BareName(parts[..|parts| - 1])
    else parts[|parts| - 1]
  }

  predicate Upper(c: char) {
    'A' <= c <= 'Z'
  }

  /** `Q` or `Qt` and then a capital letter, at the start. */
  predicate QtNamed(segment: string) {
    && |segment| > 1 && segment[0] == 'Q'
    && (Upper(segment[1]) || (segment[1] == 't' && |segment| > 2 && Upper(segment[2])))
  }

  predicate LooksLikeQtHeader(target: string) {
    exists k :: 0 <= k < |Segments(Normalized(target), 0, 0)| && QtNamed(Segments(Normalized(target), 0, 0)[k])
  }

  // ----- The source tree ------------------------------------------------------------------------

  /** `beside` and `underRoot` hold the lookups that find a file; `headers` is the name index. */
  datatype Tree = Tree(files: map<Path, seq<Line>>, beside: map<(Path, string), Path>,
                       underRoot: seq<map<string, Path>>, headers: map<string, seq<Path>>)
  {
    ghost predicate Valid() {
      && beside.Values <= files.Keys
      && (forall r :: 0 <= r < |underRoot| ==> underRoot[r].Values <= files.Keys)
      && (forall name, k :: name in headers && 0 <= k < |headers[name]| ==> headers[name][k] in files)
    }

    function Beside(file: Path, name: string): seq<Path> {
      if (file, name) in beside then [beside[(file, name)]] else []
    }

    function UnderRoots(name: string, r: nat): seq<Path>
      requires r <= |underRoot|
      decreases |underRoot| - r
    {
      if r == |underRoot| then []
      else (if name in underRoot[r] then [underRoot[r][name]] else []) + UnderRoots(name, r + 1)
    }

    function Named(name: string): seq<Path> {
      if name in headers then headers[name] else []
    }

    /** The files an include may mean: own directory, then the roots, then every file so named. */
    function Targets(file: Path, target: string): seq<Path> {
      var name := Normalized(target);
      Unique(Beside(file, name) + UnderRoots(name, 0) + Named(BareName(Segments(name, 0, 0))))
    }

    predicate MissesQt(file: Path, target: string) {
      Targets(file, target) == [] && LooksLikeQtHeader(target)
    }

    /** What the lines of `file` from the `k`-th on lead to. */
    function Links(file: Path, k: nat): seq<Path>
      requires file in files && k <= |files[file]|
      decreases |files[file]| - k
    {
      if k == |files[file]| then []
      else (match files[file][k] case Include(t) => Targets(file, t) case Other => []) + Links(file, k + 1)
    }

    /** The includes from the `k`-th line on that no file answers and that name a Qt header. */
    function QtIncludes(file: Path, k: nat): seq<(Path, string)>
      requires file in files && k <= |files[file]|
      decreases |files[file]| - k
    {
      if k == |files[file]| then []
      else (match files[file][k]
            case Include(t) => if MissesQt(file, t) then [(file, t)] else []
            case Other => []) + QtIncludes(file, k + 1)
    }
  }

  /** The list without its repeats, first occurrences kept in order. */
  function Unique(s: seq<Path>): (r: seq<Path>)
    ensures forall i, j :: 0 <= i < j < |r| ==> r[i] != r[j]
    ensures forall p :: p in r <==> p in s
  {
    if s == [] then [] else
    var front := Unique(s[..|s| - 1]);
    if s[|s| - 1] in front then front else front + [s[|s| - 1]]
  }

  // ----- The walk -------------------------------------------------------------------------------

  datatype Walked = Walked(visited: set<Path>, hits: seq<(Path, string)>)

  /** The worklist: the last pending file is taken, its lines scanned, its targets pushed. */
  function Walk(tree: Tree, pending: seq<Path>, so: Walked): Walked
    requires tree.Valid() && so.visited <= tree.files.Keys && forall p :: p in pending ==> p in tree.files
    decreases |tree.files.Keys - so.visited|, |pending|
  {
    if pending == [] then so else
    var current := pending[|pending| - 1];
    var rest := pending[..|pending| - 1];
    if current in so.visited then Walk(tree, rest, so) else
    LinksAreFiles(tree, current, 0);
    Shrinks(tree, so.visited, current);
    Walk(tree, rest + tree.Links(current, 0),
         Walked(so.visited + {current}, so.hits + tree.QtIncludes(current, 0)))
  }

  lemma Shrinks(tree: Tree, visited: set<Path>, current: Path)
    requires current in tree.files && current !in visited
    ensures |tree.files.Keys - (visited + {current})| < |tree.files.Keys - visited|
  {
    var left := tree.files.Keys - visited;
    assert tree.files.Keys - (visited + {current}) == left - {current};
  }

  lemma TargetsAreFiles(tree: Tree, file: Path, target: string)
    requires tree.Valid()
    ensures forall p :: p in tree.Targets(file, target) ==> p in tree.files
  {
    hide Normalized, Segments, BareName;
    var name := Normalized(target);
    UnderRootsAreFiles(tree, name, 0);
    forall p | p in tree.Beside(file, name) ensures p in tree.files {
      assert p in tree.beside.Values;
    }
  }

  lemma {:induction false} UnderRootsAreFiles(tree: Tree, name: string, r: nat)
    requires tree.Valid() && r <= |tree.underRoot|
    ensures forall p :: p in tree.UnderRoots(name, r) ==> p in tree.files
    decreases |tree.underRoot| - r
  {
    if r < |tree.underRoot| {
      UnderRootsAreFiles(tree, name, r + 1);
      if name in tree.underRoot[r] {
        assert tree.underRoot[r][name] in tree.underRoot[r].Values;
      }
    }
  }

  lemma {:induction false} LinksAreFiles(tree: Tree, file: Path, k: nat)
    requires tree.Valid() && file in tree.files && k <= |tree.files[file]|
    ensures forall p :: p in tree.Links(file, k) ==> p in tree.files
    decreases |tree.files[file]| - k
  {
    if k < |tree.files[file]| {
      LinksAreFiles(tree, file, k + 1);
      if tree.files[file][k].Include? {
        TargetsAreFiles(tree, file, tree.files[file][k].target);
      }
    }
  }

  class Scanner {
    const tree: Tree
    var targetsCache: map<(Path, string), seq<Path>>
    var linesCache: map<Path, seq<Line>>

    ghost predicate Valid()
      reads this
    {
      && tree.Valid()
      && (forall file, target :: (file, target) in targetsCache ==>
            targetsCache[(file, target)] == tree.Targets(file, target))
      && (forall file :: file in linesCache ==> file in tree.files && linesCache[file] == tree.files[file])
    }

    constructor (tree: Tree)
      requires tree.Valid()
      ensures Valid() && this.tree == tree && targetsCache == map[] && linesCache == map[]
    {
      this.tree := tree;
      targetsCache := map[];
      linesCache := map[];
    }

    method FileLines(file: Path) returns (lines: seq<Line>)
      requires Valid() && file in tree.files
      modifies this`linesCache
      ensures Valid() && lines == tree.files[file]
    {
      if file !in linesCache {
        linesCache := linesCache[file := tree.files[file]];
      }
      lines := linesCache[file];
    }

    method Resolve(target: string, includingFile: Path) returns (unique: seq<Path>)
      ensures unique == tree.Targets(includingFile, target)
    {
      hide Normalized, Segments, BareName, Unique;
      var normalized := Normalized(target);
      var resolved: seq<Path> := [];
      if (includingFile, normalized) in tree.beside {
        resolved := resolved + [tree.beside[(includingFile, normalized)]];
      }
      ghost var own := resolved;
      var r := 0;
      while r < |tree.underRoot|
        invariant 0 <= r <= |tree.underRoot|
        invariant resolved + tree.UnderRoots(normalized, r) == own + tree.UnderRoots(normalized, 0)
      {
        if normalized in tree.underRoot[r] {
          resolved := resolved + [tree.underRoot[r][normalized]];
        }
        r := r + 1;
      }
      assert resolved == own + tree.UnderRoots(normalized, 0);
      var name := BareName(Segments(normalized, 0, 0));
      if name in tree.headers {
        resolved := resolved + tree.headers[name];
      }
      assert resolved == tree.Beside(includingFile, normalized) + tree.UnderRoots(normalized, 0) + tree.Named(name);
      unique := Unique(resolved);
    }

    method IncludeTargets(target: string, includingFile: Path) returns (unique: seq<Path>)
      requires Valid()
      modifies this`targetsCache
      ensures Valid() && unique == tree.Targets(includingFile, target)
    {
      hide Tree.Targets;
      var key := (includingFile, target);
      if key in targetsCache {
        return targetsCache[key];
      }
      unique := Resolve(target, includingFile);
      targetsCache := targetsCache[key := unique];
    }

    /** Scans one file's lines: pushes what its includes resolve to, records its Qt includes. */
    method ScanFile(current: Path, pending0: seq<Path>, hits0: seq<(Path, string)>)
      returns (pending: seq<Path>, hits: seq<(Path, string)>)
      requires Valid() && current in tree.files
      modifies this
      ensures Valid()
      ensures pending == pending0 + tree.Links(current, 0)
      ensures hits == hits0 + tree.QtIncludes(current, 0)
    {
      hide LooksLikeQtHeader, Tree.Targets;
      pending, hits := pending0, hits0;
      var lines := FileLines(current);
      var k := 0;
      while k < |lines|
        invariant Valid() && 0 <= k <= |lines|
        invariant pending + tree.Links(current, k) == pending0 + tree.Links(current, 0)
        invariant hits + tree.QtIncludes(current, k) == hits0 + tree.QtIncludes(current, 0)
      {
        if lines[k].Include? {
          var target := lines[k].target;
          var resolved := IncludeTargets(target, current);
          if resolved != [] {
            pending := pending + resolved;
          } else if LooksLikeQtHeader(target) {
            hits := hits + [(current, target)];
          }
        }
        k := k + 1;
      }
    }

    method QtHeadersReached(entry: Path) returns (hits: seq<(Path, string)>, walked: nat)
      requires Valid() && entry in tree.files
      modifies this
      ensures Valid()
      ensures var all := Walk(tree, [entry], Walked({}, [])); hits == all.hits && walked == |all.visited|
    {
      var visited: set<Path> := {};
      hits := [];
      var pending := [entry];
      while pending != []
        invariant Valid() && visited <= tree.files.Keys && forall p :: p in pending ==> p in tree.files
        invariant Walk(tree, pending, Walked(visited, hits)) == Walk(tree, [entry], Walked({}, []))
        decreases |tree.files.Keys - visited|, |pending|
      {
        var current := pending[|pending| - 1];
        pending := pending[..|pending| - 1];
        if current in visited {
          continue;
        }
        LinksAreFiles(tree, current, 0);
        Shrinks(tree, visited, current);
        visited := visited + {current};
        pending, hits := ScanFile(current, pending, hits);
      }
      walked := |visited|;
    }
  }

  // ----- What the walk finds --------------------------------------------------------------------

  predicate Linked(tree: Tree, a: Path, b: Path) {
    a in tree.files && b in tree.Links(a, 0)
  }

  ghost predicate Chain(tree: Tree, p: seq<Path>) {
    |p| > 0 && forall k :: 0 <= k < |p| - 1 ==> Linked(tree, p[k], p[k + 1])
  }

  /** Some chain of includes leads from `entry` to `file`. */
  ghost predicate Reaches(tree: Tree, entry: Path, file: Path) {
    exists p :: Chain(tree, p) && p[0] == entry && p[|p| - 1] == file
  }

  lemma ReachesOneMore(tree: Tree, entry: Path, a: Path, b: Path)
    requires Reaches(tree, entry, a) && Linked(tree, a, b)
    ensures Reaches(tree, entry, b)
  {
    hide Linked;
    var p :| Chain(tree, p) && p[0] == entry && p[|p| - 1] == a;
    var q := p + [b];
    forall k | 0 <= k < |q| - 1 ensures Linked(tree, q[k], q[k + 1]) {
      assert q[k] == p[k];
      assert k + 1 < |p| ==> q[k + 1] == p[k + 1];
    }
    assert Chain(tree, q) && q[0] == entry && q[|q| - 1] == b;
  }

  /** A set that holds the entry and is closed under includes holds all that is reachable. */
  lemma {:induction false} ClosedHoldsChain(tree: Tree, closed: set<Path>, p: seq<Path>)
    requires Chain(tree, p) && p[0] in closed
    requires forall a, b :: a in closed && Linked(tree, a, b) ==> b in closed
    ensures p[|p| - 1] in closed
    decreases |p|
  {
    hide Linked;
    if |p| > 1 {
      var q := p[1..];
      assert Linked(tree, p[0], p[1]);
      forall k | 0 <= k < |q| - 1 ensures Linked(tree, q[k], q[k + 1]) {
        assert q[k] == p[k + 1] && q[k + 1] == p[k + 2];
      }
      ClosedHoldsChain(tree, closed, q);
    }
  }

  /** Mid-walk: all found so far is reachable, and includes of visited files are visited or pending. */
  ghost predicate Frontier(tree: Tree, entry: Path, pending: seq<Path>, visited: set<Path>) {
    && (entry in visited || entry in pending)
    && (forall f :: f in visited || f in pending ==> Reaches(tree, entry, f))
    && (forall a, b :: a in visited && Linked(tree, a, b) ==> b in visited || b in pending)
  }

  lemma FrontierMoves(tree: Tree, entry: Path, pending: seq<Path>, visited: set<Path>)
    requires pending != [] && pending[|pending| - 1] in tree.files && Frontier(tree, entry, pending, visited)
    ensures var current := pending[|pending| - 1];
      var rest := pending[..|pending| - 1];
      if current in visited then Frontier(tree, entry, rest, visited)
      else Frontier(tree, entry, rest + tree.Links(current, 0), visited + {current})
  {
    hide Reaches;
    var current := pending[|pending| - 1];
    var rest := pending[..|pending| - 1];
    assert pending == rest + [current];
    if current !in visited {
      forall f | f in tree.Links(current, 0) ensures Reaches(tree, entry, f) {
        ReachesOneMore(tree, entry, current, f);
      }
    }
  }

  lemma {:induction false} WalkIsClosure(tree: Tree, entry: Path, pending: seq<Path>, so: Walked)
    requires tree.Valid() && so.visited <= tree.files.Keys && forall p :: p in pending ==> p in tree.files
    requires Frontier(tree, entry, pending, so.visited)
    ensures forall f :: f in Walk(tree, pending, so).visited <==> Reaches(tree, entry, f)
    decreases |tree.files.Keys - so.visited|, |pending|
  {
    if pending == [] {
      forall f | Reaches(tree, entry, f) ensures f in so.visited {
        var p :| Chain(tree, p) && p[0] == entry && p[|p| - 1] == f;
        ClosedHoldsChain(tree, so.visited, p);
      }
    } else {
      hide Frontier, Reaches;
      FrontierMoves(tree, entry, pending, so.visited);
      var current := pending[|pending| - 1];
      var rest := pending[..|pending| - 1];
      if current in so.visited {
        WalkIsClosure(tree, entry, rest, so);
      } else {
        LinksAreFiles(tree, current, 0);
        Shrinks(tree, so.visited, current);
        WalkIsClosure(tree, entry, rest + tree.Links(current, 0),
                      Walked(so.visited + {current}, so.hits + tree.QtIncludes(current, 0)));
      }
    }
  }

  /** Some line of `file` from the `k`-th on includes `target`, a Qt name no file answers. */
  ghost predicate HasQtInclude(tree: Tree, file: Path, target: string, k: nat) {
    file in tree.files && Include(target) in tree.files[file][if k <= |tree.files[file]| then k else 0..]
    && tree.Targets(file, target) == [] && exists i :: 0 <= i < |target| && QtNameAt(target, i)
  }

  lemma MissesQtWhere(tree: Tree, file: Path, target: string)
    ensures tree.MissesQt(file, target) <==>
              tree.Targets(file, target) == [] && exists i :: 0 <= i < |target| && QtNameAt(target, i)
  {
    hide LooksLikeQtHeader, QtNameAt, Tree.Targets;
    QtHeaderWhereItStarts(target);
  }

  lemma {:induction false} QtIncludesExact(tree: Tree, file: Path, k: nat)
    requires file in tree.files && k <= |tree.files[file]|
    ensures forall h :: h in tree.QtIncludes(file, k) <==> h.0 == file && HasQtInclude(tree, file, h.1, k)
    decreases |tree.files[file]| - k
  {
    hide Tree.MissesQt, Tree.Targets, QtNameAt;
    var lines := tree.files[file];
    if k < |lines| {
      QtIncludesExact(tree, file, k + 1);
      assert lines[k..] == [lines[k]] + lines[k + 1..];
      if lines[k].Include? {
        MissesQtWhere(tree, file, lines[k].target);
      }
    }
  }

  lemma {:induction false} WalkHits(tree: Tree, pending: seq<Path>, so: Walked)
    requires tree.Valid() && so.visited <= tree.files.Keys && forall p :: p in pending ==> p in tree.files
    ensures so.visited <= Walk(tree, pending, so).visited
    ensures forall h :: h in Walk(tree, pending, so).hits <==>
              h in so.hits || (h.0 in Walk(tree, pending, so).visited - so.visited && HasQtInclude(tree, h.0, h.1, 0))
    decreases |tree.files.Keys - so.visited|, |pending|
  {
    hide HasQtInclude;
    if pending != [] {
      var current := pending[|pending| - 1];
      var rest := pending[..|pending| - 1];
      if current in so.visited {
        WalkHits(tree, rest, so);
      } else {
        LinksAreFiles(tree, current, 0);
        Shrinks(tree, so.visited, current);
        QtIncludesExact(tree, current, 0);
        WalkHits(tree, rest + tree.Links(current, 0),
                 Walked(so.visited + {current}, so.hits + tree.QtIncludes(current, 0)));
      }
    }
  }

  /** On every finite graph, cycles included: exactly the reachable files are visited, and a hit is
      reported exactly for each unanswered Qt include of a reachable file. */
  lemma VisitsExactlyTheReachable(tree: Tree, entry: Path)
    requires tree.Valid() && entry in tree.files
    ensures var all := Walk(tree, [entry], Walked({}, []));
      && (forall f :: f in all.visited <==> Reaches(tree, entry, f))
      && (forall h :: h in all.hits <==> Reaches(tree, entry, h.0) && HasQtInclude(tree, h.0, h.1, 0))
  {
    hide HasQtInclude, Walk;
    assert Frontier(tree, entry, [entry], {}) by {
      var p := [entry];
      assert Chain(tree, p) && p[0] == entry && p[|p| - 1] == entry;
    }
    WalkIsClosure(tree, entry, [entry], Walked({}, []));
    WalkHits(tree, [entry], Walked({}, []));
  }

  // ----- In which order -------------------------------------------------------------------------

  /** The recursive walk: from the last of the files to the first, each unless seen before, and after it,
      before the next, whatever its own includes lead to, again from the last one on. */
  function DepthFirst(tree: Tree, files: seq<Path>, so: Walked): (r: Walked)
    requires tree.Valid() && so.visited <= tree.files.Keys && forall p :: p in files ==> p in tree.files
    ensures so.visited <= r.visited <= tree.files.Keys
    decreases |tree.files.Keys - so.visited|, |files|
  {
    if files == [] then so else
    var current := files[|files| - 1];
    var before := files[..|files| - 1];
    if current in so.visited then DepthFirst(tree, before, so) else
    LinksAreFiles(tree, current, 0);
    Shrinks(tree, so.visited, current);
    var below := DepthFirst(tree, tree.Links(current, 0),
                            Walked(so.visited + {current}, so.hits + tree.QtIncludes(current, 0)));
    ShrinksOn(tree, so.visited + {current}, below.visited);
    DepthFirst(tree, before, below)
  }

  lemma ShrinksOn(tree: Tree, visited: set<Path>, more: set<Path>)
    requires visited <= more
    ensures |tree.files.Keys - more| <= |tree.files.Keys - visited|
  {
    SmallerSet(tree.files.Keys - more, tree.files.Keys - visited);
  }

  lemma SmallerSet(a: set<Path>, b: set<Path>)
    requires a <= b
    ensures |a| <= |b|
  {
    assert b == a + (b - a);
  }

  /** The files at the end of the worklist are done, with all they lead to, before those under them. */
  lemma {:induction false} TopIsDoneFirst(tree: Tree, under: seq<Path>, top: seq<Path>, so: Walked)
    requires tree.Valid() && so.visited <= tree.files.Keys && forall p :: p in under || p in top ==> p in tree.files
    ensures Walk(tree, under + top, so) == Walk(tree, under, DepthFirst(tree, top, so))
    decreases |tree.files.Keys - so.visited|, |top|
  {
    if top == [] {
      assert under + top == under;
    } else {
      var current := top[|top| - 1];
      var before := top[..|top| - 1];
      assert (under + top)[|under + top| - 1] == current && (under + top)[..|under + top| - 1] == under + before;
      if current in so.visited {
        TopIsDoneFirst(tree, under, before, so);
      } else {
        LinksAreFiles(tree, current, 0);
        Shrinks(tree, so.visited, current);
        var entered := Walked(so.visited + {current}, so.hits + tree.QtIncludes(current, 0));
        var links := tree.Links(current, 0);
        TopIsDoneFirst(tree, under + before, links, entered);
        var below := DepthFirst(tree, links, entered);
        ShrinksOn(tree, entered.visited, below.visited);
        TopIsDoneFirst(tree, under, before, below);
      }
    }
  }

  /** The worklist loop is a depth-first walk: it visits the same files and reports the same includes, in
      the same order, as the recursion above. */
  lemma WalkIsDepthFirst(tree: Tree, entry: Path)
    requires tree.Valid() && entry in tree.files
    ensures Walk(tree, [entry], Walked({}, [])) == DepthFirst(tree, [entry], Walked({}, []))
  {
    hide Walk, DepthFirst;
    TopIsDoneFirst(tree, [], [entry], Walked({}, []));
    assert [] + [entry] == [entry];
    NothingPending(tree, DepthFirst(tree, [entry], Walked({}, [])));
  }

  lemma NothingPending(tree: Tree, so: Walked)
    requires tree.Valid() && so.visited <= tree.files.Keys
    ensures Walk(tree, [], so) == so
  {
  }

  /** Within one file they come in the order of its lines. */
  lemma {:induction false} QtIncludesKeepOrder(tree: Tree, file: Path, k: nat) returns (from: seq<nat>)
    requires file in tree.files && k <= |tree.files[file]|
    ensures var hits := tree.QtIncludes(file, k);
      && |from| == |hits|
      && (forall j :: 0 <= j < |from| ==>
            k <= from[j] < |tree.files[file]| && hits[j].0 == file && tree.files[file][from[j]] == Include(hits[j].1))
      && forall i, j :: 0 <= i < j < |from| ==> from[i] < from[j]
    decreases |tree.files[file]| - k
  {
    hide Tree.MissesQt;
    from := [];
    if k < |tree.files[file]| {
      from := QtIncludesKeepOrder(tree, file, k + 1);
      var line := tree.files[file][k];
      if line.Include? && tree.MissesQt(file, line.target) {
        from := [k] + from;
      }
    }
  }

  /** What leads from file to file: an include line of the one and a target of it. */
  lemma {:induction false} LinksExact(tree: Tree, file: Path, k: nat, to: Path)
    requires file in tree.files && k <= |tree.files[file]|
    ensures to in tree.Links(file, k) <==>
              exists j :: (
                && k <= j < |tree.files[file]| && tree.files[file][j].Include?
                && to in tree.Targets(file, tree.files[file][j].target))
    decreases |tree.files[file]| - k
  {
    hide Tree.Targets;
    if k < |tree.files[file]| {
      LinksExact(tree, file, k + 1, to);
    }
  }

  // ----- How includes resolve -------------------------------------------------------------------

  /** Removing repeats commutes with taking prefixes, so first occurrences keep their order. */
  lemma {:induction false} UniqueKeepsOrder(s: seq<Path>, k: nat)
    requires k <= |s|
    ensures Unique(s[..k]) <= Unique(s)
    decreases |s|
  {
    if k < |s| {
      assert s[..|s| - 1][..k] == s[..k];
      UniqueKeepsOrder(s[..|s| - 1], k);
    } else {
      assert s[..k] == s;
    }
  }

  /** Every file an include may mean, and no other: the one beside the including file, those under a root,
      and every header of that bare name. */
  lemma TargetsAre(tree: Tree, file: Path, target: string, p: Path)
    ensures var name := Normalized(target);
      p in tree.Targets(file, target) <==>
        || ((file, name) in tree.beside && tree.beside[(file, name)] == p)
        || (exists r :: 0 <= r < |tree.underRoot| && name in tree.underRoot[r] && tree.underRoot[r][name] == p)
        || (BareName(Segments(name, 0, 0)) in tree.headers && p in tree.headers[BareName(Segments(name, 0, 0))])
  {
    hide Normalized, Segments, BareName, Tree.UnderRoots;
    UnderRootsAre(tree, Normalized(target), 0, p);
  }

  lemma {:induction false} UnderRootsAre(tree: Tree, name: string, r: nat, p: Path)
    requires r <= |tree.underRoot|
    ensures p in tree.UnderRoots(name, r) <==>
              exists k :: r <= k < |tree.underRoot| && name in tree.underRoot[k] && tree.underRoot[k][name] == p
    decreases |tree.underRoot| - r
  {
    if r < |tree.underRoot| {
      UnderRootsAre(tree, name, r + 1, p);
    }
  }

  /** The parts with a slash between each two. */
  function Joined(parts: seq<string>): string {
    if parts == [] then "" else if |parts| == 1 then parts[0] else parts[0] + "/" + Joined(parts[1..])
  }

  /** Splitting at slashes: no part holds one, and together they are the path again. */
  lemma {:induction false} SegmentsSplit(s: string, start: nat, i: nat)
    requires start <= i <= |s| && '/' !in s[start..i]
    ensures Joined(Segments(s, start, i)) == s[start..]
    ensures forall k :: 0 <= k < |Segments(s, start, i)| ==> '/' !in Segments(s, start, i)[k]
    decreases |s| - i
  {
    if i < |s| {
      if s[i] == '/' {
        SegmentsSplit(s, i + 1, i + 1);
        assert Segments(s, start, i)[1..] == Segments(s, i + 1, i + 1);
        assert s[start..] == s[start..i] + "/" + s[i + 1..];
      } else {
        assert s[start..i + 1] == s[start..i] + [s[i]];
        SegmentsSplit(s, start, i + 1);
      }
    } else {
      assert s[start..i] == s[start..];
    }
  }

  /** The bare name is the last part that is neither empty nor a dot. */
  lemma {:induction false} BareNameIsLast(parts: seq<string>)
    ensures BareName(parts) == "" ==> forall k :: 0 <= k < |parts| ==> parts[k] in ["", "."]
    ensures BareName(parts) != "" ==> exists k :: (
              && 0 <= k < |parts| && parts[k] == BareName(parts) != "."
              && forall j :: k < j < |parts| ==> parts[j] in ["", "."])
    decreases |parts|
  {
    if parts != [] && parts[|parts| - 1] in ["", "."] {
      BareNameIsLast(parts[..|parts| - 1]);
    }
  }

  /** The including file's own directory wins; and every header of that bare name is followed, so a
      copy cannot hide another's Qt include. */
  lemma OwnDirectoryFirstAndNoCopyHidden(tree: Tree, file: Path, target: string)
    ensures var name := Normalized(target);
      && ((file, name) in tree.beside ==> tree.Targets(file, target)[..1] == [tree.beside[(file, name)]])
      && (forall h :: h in tree.Named(BareName(Segments(name, 0, 0))) ==> h in tree.Targets(file, target))
  {
    hide Normalized, Segments, BareName, Unique, Tree.UnderRoots;
    var name := Normalized(target);
    var s := tree.Beside(file, name) + tree.UnderRoots(name, 0) + tree.Named(BareName(Segments(name, 0, 0)));
    if (file, name) in tree.beside {
      FirstStaysFirst(s, tree.beside[(file, name)]);
    }
  }

  lemma FirstStaysFirst(s: seq<Path>, own: Path)
    requires s != [] && s[0] == own
    ensures Unique(s) != [] && Unique(s)[..1] == [own]
  {
    assert s[..1] == [own];
    assert Unique([own]) == [own] by {
      assert Unique([own][..0]) == [];
    }
    hide Unique;
    UniqueKeepsOrder(s, 1);
  }

  /** A part of the path starts at `i` and is named like a Qt header. */
  predicate QtNameAt(target: string, i: nat) {
    && i < |target| && (i == 0 || target[i - 1] in "/\\")
    && i + 1 < |target| && target[i] == 'Q'
    && ('A' <= target[i + 1] <= 'Z'
        || (target[i + 1] == 't' && i + 2 < |target| && 'A' <= target[i + 2] <= 'Z'))
  }

  /** Splitting the path finds a Qt name exactly where one starts: at the front or after a slash
      of either kind. */
  lemma QtHeaderWhereItStarts(target: string)
    ensures LooksLikeQtHeader(target) <==> exists i :: 0 <= i < |target| && QtNameAt(target, i)
  {
    var s := Normalized(target);
    SegmentsQt(s, 0, 0);
    forall i: nat ensures QtNameAt(target, i) <==> QtNameAt(s, i) {
    }
  }

  ghost predicate SomeQtSegment(parts: seq<string>) {
    exists k :: 0 <= k < |parts| && QtNamed(parts[k])
  }

  lemma {:induction false} SegmentsQt(s: string, start: nat, i: nat)
    requires start <= i <= |s| && '\\' !in s && (start == 0 || s[start - 1] == '/')
    requires forall k :: start <= k < i ==> s[k] != '/'
    ensures SomeQtSegment(Segments(s, start, i)) <==> exists k: nat :: start <= k < |s| && QtNameAt(s, k)
    decreases |s| - i
  {
    hide QtNamed, QtNameAt, SomeQtSegment;
    NamedWhereItStarts(s, start, i);
    if i == |s| {
      assert s[start..i] == s[start..];
      assert [s[start..i]] + [] == Segments(s, start, i);
      OneMoreSegment(s[start..i], []);
      assert !SomeQtSegment([]) by {
        NoSegment();
      }
    } else if s[i] == '/' {
      SegmentsQt(s, i + 1, i + 1);
      OneMoreSegment(s[start..i], Segments(s, i + 1, i + 1));
    } else {
      SegmentsQt(s, start, i + 1);
    }
  }

  lemma NoSegment()
    ensures !SomeQtSegment([])
  {
  }

  lemma OneMoreSegment(part: string, rest: seq<string>)
    ensures SomeQtSegment([part] + rest) <==> QtNamed(part) || SomeQtSegment(rest)
  {
    hide QtNamed;
    assert forall k :: 0 <= k < |rest| ==> rest[k] == ([part] + rest)[k + 1];
    assert ([part] + rest)[0] == part;
  }

  /** A part is named like a Qt header exactly if one stands at its start, and none stands further on in
      it. */
  lemma NamedWhereItStarts(s: string, start: nat, i: nat)
    requires start <= i <= |s| && '\\' !in s && (start == 0 || s[start - 1] == '/')
    requires forall k :: start <= k < i ==> s[k] != '/'
    ensures i == |s| || s[i] == '/' ==> (QtNamed(s[start..i]) <==> QtNameAt(s, start))
    ensures forall k: nat :: start < k <= i ==> !QtNameAt(s, k)
    ensures i < |s| && s[i] == '/' ==> !QtNameAt(s, i)
    ensures forall k: nat :: k >= |s| ==> !QtNameAt(s, k)
  {
    forall k: nat | start < k <= i ensures !QtNameAt(s, k) {
      assert s[k - 1] != '/' && s[k - 1] in s;
    }
  }
}
