/**
 Collecting the registered route templates of an application: a recursive walk over a router
 graph that may share routers and may be cyclic.
 */
module RouterSearch {
  import opened Wrappers

  /** A route object: its path when that is a string, and the router it mounts, if any. */
  datatype Route = Route(path: Option<string>, router: Router?)

  class Router {
    var routes: seq<Route>
  }

  /** The routes of every router, as they are while the walk runs. */
  type Graph = map<Router, seq<Route>>

  ghost predicate Current(graph: Graph)
    reads graph.Keys
  {
    forall r :: r in graph ==> r.routes == graph[r]
  }

  ghost predicate Within(graph: Graph, routes: seq<Route>) {
    forall x :: x in routes && x.router != null ==> x.router in graph
  }

  /** The graph is finite and knows every router that one of its routers mounts. */
  ghost predicate Closed(graph: Graph) {
    forall r :: r in graph ==> Within(graph, graph[r])
  }

  // ----- what should be collected -----

  /** The routers that can be reached by mounting at most `n + 1` times. */
  ghost function Mounted(graph: Graph, routes: seq<Route>, n: nat): set<Router> {
    if n == 0 then set r | r in graph && exists x :: x in routes && x.router == r
    else
      var near := Mounted(graph, routes, n - 1);
      near + set r | r in graph && exists q, x :: q in graph && q in near && x in graph[q] && x.router == r
  }

  ghost predicate Reachable(graph: Graph, routes: seq<Route>, r: Router) {
    exists n: nat :: r in Mounted(graph, routes, n)
  }

  /** The path of a route in the start list, or in a router that can be reached from it. */
  ghost predicate Registered(graph: Graph, routes: seq<Route>, path: string) {
    || (exists x :: x in routes && x.path == Some(path))
    || (exists r, x :: r in graph && Reachable(graph, routes, r) && x in graph[r] && x.path == Some(path))
  }

  /** Everything these routes offer is registered by the start list. */
  ghost predicate AllRegistered(graph: Graph, start: seq<Route>, routes: seq<Route>) {
    && (forall x :: x in routes && x.path.Some? ==> Registered(graph, start, x.path.value))
    && (forall x :: x in routes && x.router != null ==> Reachable(graph, start, x.router))
  }

  lemma StartRegistered(graph: Graph, start: seq<Route>)
    requires Within(graph, start)
    ensures AllRegistered(graph, start, start)
  {
    forall x | x in start && x.router != null ensures Reachable(graph, start, x.router) {
      assert x.router in Mounted(graph, start, 0);
    }
  }

  lemma MountedRegistered(graph: Graph, start: seq<Route>, r: Router)
    requires Closed(graph) && r in graph && Reachable(graph, start, r)
    ensures AllRegistered(graph, start, graph[r])
  {
    var n: nat :| r in Mounted(graph, start, n);
    forall x | x in graph[r] && x.router != null ensures Reachable(graph, start, x.router) {
      assert x.router in Mounted(graph, start, n + 1);
    }
  }

  // ----- the walk -----

  /** The collected sets have taken in these routes: their paths and their routers. */
  ghost predicate TakenIn(paths: set<string>, visited: set<Router>, routes: seq<Route>) {
    forall x :: x in routes ==>
      && (x.path.Some? ==> x.path.value in paths)
      && (x.router != null ==> x.router in visited)
  }

  /** Every visited router that is not on the call stack is finished. */
  ghost predicate Finished(graph: Graph, paths: set<string>, visited: set<Router>, stack: set<Router>) {
    && visited <= graph.Keys && stack <= visited
    && (forall r :: r in visited && r !in stack ==> TakenIn(paths, visited, graph[r]))
  }

  /** Nothing was collected that the start list does not register. */
  ghost predicate Sound(graph: Graph, start: seq<Route>, paths: set<string>, visited: set<Router>) {
    && (forall r :: r in visited ==> Reachable(graph, start, r))
    && (forall p :: p in paths ==> Registered(graph, start, p))
  }

  /** `expanded` lists the visited routers, each once. */
  ghost predicate Lists(expanded: seq<Router>, visited: set<Router>) {
    && (forall r :: r in expanded ==> r in visited)
    && (forall r :: r in visited ==> r in expanded)
    && (forall i, j :: 0 <= i < j < |expanded| ==> expanded[i] != expanded[j])
  }

  lemma TakenInMore(paths: set<string>, visited: set<Router>, morePaths: set<string>, moreVisited: set<Router>, routes: seq<Route>)
    requires TakenIn(paths, visited, routes) && paths <= morePaths && visited <= moreVisited
    ensures TakenIn(morePaths, moreVisited, routes)
  {
  }

  lemma TakenInNext(paths: set<string>, visited: set<Router>, morePaths: set<string>, moreVisited: set<Router>,
                    routes: seq<Route>, i: nat)
    requires i < |routes| && TakenIn(paths, visited, routes[..i]) && paths <= morePaths && visited <= moreVisited
    requires (routes[i].path.Some? ==> routes[i].path.value in morePaths) && (routes[i].router != null ==> routes[i].router in moreVisited)
    ensures TakenIn(morePaths, moreVisited, routes[..i + 1])
  {
    assert routes[..i + 1] == routes[..i] + [routes[i]];
  }

  lemma AddPath(graph: Graph, start: seq<Route>, paths: set<string>, visited: set<Router>, stack: set<Router>, path: string)
    requires Finished(graph, paths, visited, stack) && Sound(graph, start, paths, visited) && Registered(graph, start, path)
    ensures Finished(graph, paths + {path}, visited, stack) && Sound(graph, start, paths + {path}, visited)
  {
    forall r | r in visited && r !in stack ensures TakenIn(paths + {path}, visited, graph[r]) {
      TakenInMore(paths, visited, paths + {path}, visited, graph[r]);
    }
  }

  lemma Push(graph: Graph, start: seq<Route>, paths: set<string>, visited: set<Router>, stack: set<Router>,
             expanded: seq<Router>, router: Router)
    requires Finished(graph, paths, visited, stack) && Sound(graph, start, paths, visited) && Lists(expanded, visited)
    requires router in graph && router !in visited && Reachable(graph, start, router)
    ensures Finished(graph, paths, visited + {router}, stack + {router})
    ensures Sound(graph, start, paths, visited + {router})
    ensures Lists(expanded + [router], visited + {router})
  {
    forall r | r in visited && r !in stack ensures TakenIn(paths, visited + {router}, graph[r]) {
      TakenInMore(paths, visited, paths, visited + {router}, graph[r]);
    }
  }

  lemma Pop(graph: Graph, paths: set<string>, visited: set<Router>, stack: set<Router>, router: Router)
    requires Finished(graph, paths, visited, stack + {router}) && router in graph && TakenIn(paths, visited, graph[router])
    ensures Finished(graph, paths, visited, stack)
  {
  }

  class Collector {
    var paths: set<string>
    var visited: set<Router>
    ghost var expanded: seq<Router>  // the routers whose routes were walked, in order

    constructor ()
      ensures paths == {} && visited == {} && expanded == []
    {
      paths, visited, expanded := {}, {}, [];
    }

    ghost predicate Valid(graph: Graph, start: seq<Route>, stack: set<Router>)
      reads this
    {
      Finished(graph, paths, visited, stack) && Sound(graph, start, paths, visited) && Lists(expanded, visited)
    }

    /** Walks a route list. Routers on the call stack are skipped, yet every router that leaves
        the stack is finished. */
    method Collect(candidates: seq<Route>, ghost start: seq<Route>, ghost graph: Graph, ghost stack: set<Router>)
      requires Current(graph) && Closed(graph) && Within(graph, candidates)
      requires Valid(graph, start, stack) && AllRegistered(graph, start, candidates)
      modifies this
      ensures Valid(graph, start, stack) && TakenIn(paths, visited, candidates)
      ensures old(paths) <= paths && old(visited) <= visited && old(expanded) <= expanded
      decreases graph.Keys - visited
    {
      for i := 0 to |candidates|
        invariant Valid(graph, start, stack) && TakenIn(paths, visited, candidates[..i])
        invariant old(paths) <= paths && old(visited) <= visited && old(expanded) <= expanded
      {
        var route := candidates[i];
        assert route in candidates;
        ghost var paths0, visited0 := paths, visited;
        if route.path.Some? {
          AddPath(graph, start, paths, visited, stack, route.path.value);
          paths := paths + {route.path.value};
        }
        if route.router != null && route.router !in visited {
          var router := route.router;
          Push(graph, start, paths, visited, stack, expanded, router);
          MountedRegistered(graph, start, router);
          visited := visited + {router};
          expanded := expanded + [router];
          Collect(router.routes, start, graph, stack + {router});
          Pop(graph, paths, visited, stack, router);
        }
        TakenInNext(paths0, visited0, paths, visited, candidates, i);
      }
      assert candidates[..|candidates|] == candidates;
    }
  }

  lemma {:induction false} FinishedCoversMounted(graph: Graph, routes: seq<Route>, paths: set<string>, visited: set<Router>, n: nat)
    requires Finished(graph, paths, visited, {}) && TakenIn(paths, visited, routes)
    ensures Mounted(graph, routes, n) <= visited
  {
    if n > 0 { FinishedCoversMounted(graph, routes, paths, visited, n - 1); }
  }

  /** For every finite router graph, cyclic or not, the walk ends and returns exactly the paths
      registered by the start list, expanding each reachable router once. */
  method RegisteredRoutePaths(routes: seq<Route>, ghost graph: Graph)
    returns (paths: set<string>, ghost expanded: seq<Router>)
    requires Current(graph) && Closed(graph) && Within(graph, routes)
    ensures forall p :: p in paths <==> Registered(graph, routes, p)
    ensures forall i, j :: 0 <= i < j < |expanded| ==> expanded[i] != expanded[j]
    ensures forall r :: r in expanded <==> r in graph && Reachable(graph, routes, r)
  {
    var c := new Collector();
    StartRegistered(graph, routes);
    c.Collect(routes, routes, graph, {});
    paths, expanded := c.paths, c.expanded;
    forall r | r in graph && Reachable(graph, routes, r) ensures r in c.visited {
      var n: nat :| r in Mounted(graph, routes, n);
      FinishedCoversMounted(graph, routes, c.paths, c.visited, n);
    }
  }
}
