// computeBundleStats: which chunks load at boot, and which further chunks each measured
// route pulls in.

module BundleStats {
  import opened Wrappers
  import opened Graphs

  datatype Chunk = Chunk(fileName: Node, isEntry: bool, facade: Option<string>, imports: seq<Node>)
  datatype Route = Route(entry: Node, chunks: set<Node>)
  datatype Stats = Stats(entry: Node, boot: set<Node>, routes: map<string, Route>, warnings: set<string>)

  // The chunk map: a later chunk of the same name replaces an earlier one.
  function ImportsByName(chunks: seq<Chunk>): Graph {
    if chunks == [] then map[]
    else ImportsByName(chunks[..|chunks| - 1])[chunks[|chunks| - 1].fileName := chunks[|chunks| - 1].imports]
  }

  // A file name of the bundle, and what the last chunk of that name imports.
  ghost predicate IsName(chunks: seq<Chunk>, name: Node) {
    exists c | c in chunks :: c.fileName == name
  }

  ghost predicate Imports(chunks: seq<Chunk>, name: Node, imported: Node) {
    exists i :: IsLast(chunks, i, name) && imported in chunks[i].imports
  }

  ghost predicate IsLast(chunks: seq<Chunk>, i: int, name: Node) {
    0 <= i < |chunks| && chunks[i].fileName == name && forall j | i < j < |chunks| :: chunks[j].fileName != name
  }

  // Loading the first chunk loads the second: import by import, there is a way from one to
  // the other.
  ghost predicate Loads(chunks: seq<Chunk>, from: Node, to: Node) {
    exists p :: IsImportPath(chunks, p) && p[0] == from && p[|p| - 1] == to
  }

  ghost predicate IsImportPath(chunks: seq<Chunk>, p: seq<Node>) {
    p != [] && forall i | 0 <= i < |p| - 1 :: Imports(chunks, p[i], p[i + 1])
  }

  lemma LastOfANameCounts(init: seq<Chunk>, last: Chunk, name: Node, imported: Node)
    ensures Imports(init + [last], name, imported) <==> if last.fileName == name then imported in last.imports else Imports(init, name, imported)
  {
    var chunks := init + [last];
    assert chunks[|init|] == last;
    if last.fileName == name {
      assert IsLast(chunks, |init|, name);
    } else {
      if Imports(init, name, imported) {
        var i :| IsLast(init, i, name) && imported in init[i].imports;
        assert IsLast(chunks, i, name);
      }
      if Imports(chunks, name, imported) {
        var i :| IsLast(chunks, i, name) && imported in chunks[i].imports;
        assert forall j | i < j < |init| :: chunks[j] == init[j];
        assert IsLast(init, i, name);
      }
    }
  }

  lemma {:induction false} GraphIsOfTheChunks(chunks: seq<Chunk>, name: Node, imported: Node)
    ensures name in ImportsByName(chunks) <==> IsName(chunks, name)
    ensures imported in Next(ImportsByName(chunks), name) <==> Imports(chunks, name, imported)
  {
    if chunks != [] {
      var init, last := chunks[..|chunks| - 1], chunks[|chunks| - 1];
      assert chunks == init + [last];
      GraphIsOfTheChunks(init, name, imported);
      LastOfANameCounts(init, last, name, imported);
      assert last in chunks;
    }
  }

  // Reaching through the chunk map is loading.
  lemma ReachingIsLoading(chunks: seq<Chunk>, from: Node, to: Node)
    ensures Reachable(ImportsByName(chunks), from, to, {}) <==> Loads(chunks, from, to)
  {
    var g := ImportsByName(chunks);
    forall p ensures IsPath(g, p) <==> IsImportPath(chunks, p) {
      forall i | 0 <= i < |p| - 1 ensures p[i + 1] in Next(g, p[i]) <==> Imports(chunks, p[i], p[i + 1]) {
        GraphIsOfTheChunks(chunks, p[i], p[i + 1]);
      }
    }
  }

  // Every name the walk can meet.
  ghost predicate Names(g: Graph, universe: set<Node>) {
    g.Keys <= universe && forall n | n in g :: forall m | m in g[n] :: m in universe
  }

  class Closure {
    var members: set<Node>

    constructor ()
      ensures members == {}
    {
      members := {};
    }

    // The recursive walk: adds a name and everything it statically imports, stopping at
    // names already present and at those to skip.
    method Walk(g: Graph, name: Node, skip: set<Node>, ghost start: Node, ghost universe: set<Node>)
      requires Names(g, universe) && name in universe && members <= universe
      requires Reachable(g, start, name, skip) || name in skip
      requires forall n | n in members :: Reachable(g, start, n, skip)
      modifies this
      ensures old(members) <= members <= universe
      ensures name in members || name in skip
      ensures forall n | n in members :: Reachable(g, start, n, skip)
      ensures forall n, m | n in members - old(members) && m in Next(g, n) :: m in members || m in skip
      decreases universe - members
    {
      if name in members || name in skip {
        return;
      }
      members := members + {name};
      if name !in g {
        return;
      }
      var imports := g[name];
      for i := 0 to |imports|
        invariant old(members) + {name} <= members <= universe
        invariant forall n | n in members :: Reachable(g, start, n, skip)
        invariant forall n, m | n in members - old(members) - {name} && m in Next(g, n) :: m in members || m in skip
        invariant forall j | 0 <= j < i :: imports[j] in members || imports[j] in skip
      {
        if imports[i] !in skip {
          ReachLast(g, start, name, imports[i], skip);
        }
        Walk(g, imports[i], skip, start, universe);
      }
    }
  }

  // Skipping loses nothing and adds nothing: the closure is what can be reached without
  // passing through a skipped name.
  method StaticClosure(g: Graph, start: Node, skip: set<Node>, ghost universe: set<Node>) returns (closure: set<Node>)
    requires Names(g, universe) && start in universe
    ensures forall n :: n in closure <==> Reachable(g, start, n, skip)
  {
    var walk := new Closure();
    if start !in skip {
      ReachSelf(g, start, skip);
    }
    walk.Walk(g, start, skip, start, universe);
    closure := walk.members;
    forall n | Reachable(g, start, n, skip) ensures n in closure {
      assert start !in skip;
      ClosedContainsReachable(g, closure, skip, start, n);
    }
  }

  // Once a closed set is skipped, avoiding it is the same as leaving it out.
  lemma SkippingAClosedSet(g: Graph, closed: set<Node>, start: Node, n: Node)
    requires forall a, b | a in closed && b in Next(g, a) :: b in closed
    ensures Reachable(g, start, n, closed) <==> Reachable(g, start, n, {}) && n !in closed
  {
    if Reachable(g, start, n, {}) && n !in closed {
      var p :| IsPath(g, p) && p[0] == start && p[|p| - 1] == n && forall m | m in p :: m !in {};
      forall i | 0 <= i < |p| ensures p[i] !in closed {
        if p[i] in closed {
          StaysClosed(g, closed, p, i, |p| - 1);
        }
      }
    }
  }

  lemma {:induction false} StaysClosed(g: Graph, closed: set<Node>, p: seq<Node>, i: nat, j: nat)
    requires forall a, b | a in closed && b in Next(g, a) :: b in closed
    requires IsPath(g, p) && i <= j < |p| && p[i] in closed
    ensures p[j] in closed
  {
    if i < j {
      StaysClosed(g, closed, p, i, j - 1);
      assert p[j - 1 + 1] in Next(g, p[j - 1]);
    }
  }

  function AllNames(chunks: seq<Chunk>): set<Node> {
    (set c | c in chunks :: c.fileName) + (set c, m | c in chunks && m in c.imports :: m)
  }

  lemma {:induction false} ImportsStayInNames(chunks: seq<Chunk>, universe: set<Node>)
    requires AllNames(chunks) <= universe
    ensures Names(ImportsByName(chunks), universe)
    ensures ImportsByName(chunks).Keys == set c | c in chunks :: c.fileName
  {
    if chunks != [] {
      var init := chunks[..|chunks| - 1];
      assert chunks == init + [chunks[|chunks| - 1]];
      assert AllNames(init) <= AllNames(chunks);
      assert forall m | m in chunks[|chunks| - 1].imports :: m in AllNames(chunks);
      ImportsStayInNames(init, universe);
    }
  }

  predicate EndsWith(s: string, suffix: string) {
    |suffix| <= |s| && s[|s| - |suffix|..] == suffix
  }

  // What a search is for: the entry, or a facade module with a given source suffix.
  datatype Wanted = Entry | Facade(sourceSuffix: string)

  predicate Matches(c: Chunk, wanted: Wanted) {
    match wanted
    case Entry => c.isEntry
    case Facade(sourceSuffix) => c.facade.Some? && EndsWith(c.facade.value, sourceSuffix)
  }

  // What makes a chunk the one looked for.
  ghost predicate IsWanted(c: Chunk, wanted: Wanted) {
    match wanted
    case Entry => c.isEntry
    case Facade(sourceSuffix) => exists before :: c.facade == Some(before + sourceSuffix)
  }

  lemma MatchesTheWanted(c: Chunk, wanted: Wanted)
    ensures Matches(c, wanted) <==> IsWanted(c, wanted)
  {
    if wanted.Facade? && c.facade.Some? && EndsWith(c.facade.value, wanted.sourceSuffix) {
      var facade, before := c.facade.value, c.facade.value[..|c.facade.value| - |wanted.sourceSuffix|];
      assert facade == before + wanted.sourceSuffix;
    }
  }

  ghost predicate IsFirst(chunks: seq<Chunk>, c: Chunk, wanted: Wanted) {
    exists i :: 0 <= i < |chunks| && c == chunks[i] && IsWanted(chunks[i], wanted) && forall j | 0 <= j < i :: !IsWanted(chunks[j], wanted)
  }

  ghost predicate NoneMatch(chunks: seq<Chunk>, wanted: Wanted) {
    forall c | c in chunks :: !IsWanted(c, wanted)
  }

  method Find(chunks: seq<Chunk>, wanted: Wanted) returns (found: Option<Chunk>)
    ensures found.None? <==> NoneMatch(chunks, wanted)
    ensures found.Some? ==> found.value in chunks && IsFirst(chunks, found.value, wanted)
  {
    for i := 0 to |chunks|
      invariant forall j | 0 <= j < i :: !IsWanted(chunks[j], wanted)
    {
      MatchesTheWanted(chunks[i], wanted);
      if Matches(chunks[i], wanted) {
        return Some(chunks[i]);
      }
    }
    found := None;
  }

  // What is loaded at boot: every known chunk that the entry loads.
  ghost predicate IsBoot(chunks: seq<Chunk>, entry: Node, boot: set<Node>) {
    forall n :: n in boot <==> IsName(chunks, n) && Loads(chunks, entry, n)
  }

  // What a route adds: every known chunk that it loads and boot does not.
  ghost predicate IsRoute(chunks: seq<Chunk>, entry: Node, route: Route) {
    forall n :: n in route.chunks <==> IsName(chunks, n) && Loads(chunks, route.entry, n) && !Loads(chunks, entry, n)
  }

  ghost predicate RouteMeasured(chunks: seq<Chunk>, sourceSuffix: string, stats: Stats, route: Route) {
    && (exists c :: IsFirst(chunks, c, Facade(sourceSuffix)) && route.entry == c.fileName)
    && IsRoute(chunks, stats.entry, route)
    && route.chunks !! stats.boot
  }

  method ComputeBundleStats(chunks: seq<Chunk>, measured: map<string, string>) returns (stats: Option<Stats>)
    ensures stats.None? <==> NoneMatch(chunks, Entry)
    ensures stats.Some? ==>
              && (exists c :: IsFirst(chunks, c, Entry) && stats.value.entry == c.fileName)
              && IsBoot(chunks, stats.value.entry, stats.value.boot)
              && stats.value.routes.Keys + stats.value.warnings == measured.Keys
              && stats.value.routes.Keys !! stats.value.warnings
              && (forall name | name in stats.value.warnings :: NoneMatch(chunks, Facade(measured[name])))
              && (forall name | name in stats.value.routes :: RouteMeasured(chunks, measured[name], stats.value, stats.value.routes[name]))
  {
    var g := ImportsByName(chunks);
    ghost var universe := AllNames(chunks);
    ImportsStayInNames(chunks, universe);
    var entry := Find(chunks, Entry);
    if entry.None? {
      return None;
    }
    var start := entry.value.fileName;
    var bootNames := BootOf(chunks, start, universe);
    var result := Stats(start, bootNames * g.Keys, map[], {});
    forall n ensures n in g <==> IsName(chunks, n) {
      GraphIsOfTheChunks(chunks, n, n);
    }
    var rest := measured.Keys;
    while rest != {}
      invariant rest <= measured.Keys && result.entry == start && result.boot == bootNames * g.Keys && IsBoot(chunks, start, result.boot)
      invariant result.routes.Keys + result.warnings == measured.Keys - rest && result.routes.Keys !! result.warnings
      invariant forall name | name in result.warnings :: NoneMatch(chunks, Facade(measured[name]))
      invariant forall name | name in result.routes :: RouteMeasured(chunks, measured[name], result, result.routes[name])
    {
      var name :| name in rest;
      var chunk := Find(chunks, Facade(measured[name]));
      rest := rest - {name};
      if chunk.None? {
        result := result.(warnings := result.warnings + {name});
      } else {
        var route := RouteBeyond(chunks, chunk.value.fileName, bootNames, start, universe);
        assert RouteMeasured(chunks, measured[name], result, route);
        result := result.(routes := result.routes[name := route]);
      }
    }
    stats := Some(result);
  }

  method BootOf(chunks: seq<Chunk>, start: Node, ghost universe: set<Node>) returns (names: set<Node>)
    requires Names(ImportsByName(chunks), universe) && start in universe
    ensures forall n :: n in names <==> Loads(chunks, start, n)
  {
    names := StaticClosure(ImportsByName(chunks), start, {}, universe);
    forall n ensures n in names <==> Loads(chunks, start, n) {
      ReachingIsLoading(chunks, start, n);
    }
  }

  method RouteBeyond(chunks: seq<Chunk>, routeEntry: Node, bootNames: set<Node>, ghost start: Node, ghost universe: set<Node>) returns (route: Route)
    requires Names(ImportsByName(chunks), universe) && routeEntry in universe
    requires forall n :: n in bootNames <==> Loads(chunks, start, n)
    ensures route.entry == routeEntry && IsRoute(chunks, start, route) && route.chunks !! bootNames
  {
    var g := ImportsByName(chunks);
    var names := StaticClosure(g, routeEntry, bootNames, universe);
    route := Route(routeEntry, names * g.Keys);
    forall a, b | a in bootNames && b in Next(g, a) ensures b in bootNames {
      ReachingIsLoading(chunks, start, a);
      ReachLast(g, start, a, b, {});
      ReachingIsLoading(chunks, start, b);
    }
    forall n ensures n in route.chunks <==> IsName(chunks, n) && Loads(chunks, routeEntry, n) && !Loads(chunks, start, n) {
      SkippingAClosedSet(g, bootNames, routeEntry, n);
      ReachingIsLoading(chunks, routeEntry, n);
      GraphIsOfTheChunks(chunks, n, n);
    }
  }
}
