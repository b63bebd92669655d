/**
 Which operation ids an app declares (_declared_operation_ids in
 app/api/resonance_data.py). Routes are objects that may contain each other in
 any way, cycles too; an object is known by its identity.
 */
module RouteWalk {
  import opened Wrappers

  type Id = int

  /**
   `routes` and `inner` are None where the object lacks the attribute or has None there; an inner
   router may lack routes.
   */
  datatype Route = Route(operationId: Option<string>, routes: Option<seq<Id>>, inner: Option<Option<seq<Id>>>)

  /** The routes below a route: its own, or those of the router it wraps. */
  function Nested(route: Route): seq<Id> {
    match route.routes
    case Some(routes) => routes
    case None => match route.inner
      case Some(Some(routes)) => routes
      case _ => []
  }

  /** `n` is directly below `route`: in its own list, or, where it has none, in that of the router it wraps. */
  predicate Below(route: Route, n: Id) {
    || (route.routes.Some? && n in route.routes.value)
    || (route.routes.None? && route.inner.Some? && route.inner.value.Some? && n in route.inner.value.value)
  }

  /** Every route an object refers to exists. */
  ghost predicate Exists(routes: seq<Id>, graph: map<Id, Route>) {
    forall r | r in routes :: r in graph
  }

  ghost predicate WellFormed(graph: map<Id, Route>) {
    forall r, n | r in graph && Below(graph[r], n) :: n in graph
  }

  /** A way down from one of `roots` to the route `r`. */
  ghost predicate Way(graph: map<Id, Route>, roots: seq<Id>, way: seq<Id>, r: Id) {
    && way != [] && way[0] in roots && way[|way| - 1] == r
    && (forall i | 0 <= i < |way| :: way[i] in graph)
    && (forall i | 0 < i < |way| :: Below(graph[way[i - 1]], way[i]))
  }

  ghost predicate Reaches(graph: map<Id, Route>, roots: seq<Id>, r: Id) {
    exists way: seq<Id> :: Way(graph, roots, way, r)
  }

  /** The non-empty operation ids of a set of routes. */
  function OperationIds(graph: map<Id, Route>, seen: set<Id>): set<string> {
    set r | r in seen && r in graph && graph[r].operationId.Some? && graph[r].operationId.value != "" ::
        graph[r].operationId.value
  }

  /** What has been entered since `before` has all its nested routes in `seen`. */
  ghost predicate Explored(graph: map<Id, Route>, before: set<Id>, seen: set<Id>) {
    forall r, n | r in seen && r !in before && r in graph && Below(graph[r], n) :: n in seen
  }

  lemma ReachesRoot(graph: map<Id, Route>, roots: seq<Id>, r: Id)
    requires r in roots && r in graph
    ensures Reaches(graph, roots, r)
  {
    assert Way(graph, roots, [r], r);
  }

  /** What is reached from below a root is reached from the roots. */
  lemma ReachesBelow(graph: map<Id, Route>, roots: seq<Id>, r: Id, n: Id)
    requires r in roots && r in graph && Reaches(graph, Nested(graph[r]), n)
    ensures Reaches(graph, roots, n)
  {
    var way: seq<Id> :| Way(graph, Nested(graph[r]), way, n);
    assert Way(graph, roots, [r] + way, n);
  }

  lemma {:induction false} ExploredHasAll(graph: map<Id, Route>, roots: seq<Id>, seen: set<Id>, way: seq<Id>, r: Id)
    requires Explored(graph, {}, seen) && (forall k | k in roots :: k in seen) && Way(graph, roots, way, r)
    ensures r in seen
  {
    if |way| > 1 {
      var shorter := way[..|way| - 1];
      assert Way(graph, roots, shorter, shorter[|shorter| - 1]);
      ExploredHasAll(graph, roots, seen, shorter, shorter[|shorter| - 1]);
    }
  }

  /** walk: enters every route not seen before, then what is nested in it. */
  method Walk(graph: map<Id, Route>, routes: seq<Id>, seen: set<Id>, found: set<string>)
    returns (seen': set<Id>, found': set<string>)
    requires WellFormed(graph) && Exists(routes, graph) && seen <= graph.Keys
    ensures seen <= seen' <= graph.Keys
    ensures forall r | r in routes :: r in seen'
    ensures Explored(graph, seen, seen')
    ensures forall r | r in seen' && r !in seen :: Reaches(graph, routes, r)
    ensures found' == found + OperationIds(graph, seen' - seen)
    decreases graph.Keys - seen
  {
    hide Reaches;
    seen', found' := seen, found;
    for i := 0 to |routes|
      invariant seen <= seen' <= graph.Keys
      invariant forall k | 0 <= k < i :: routes[k] in seen'
      invariant Explored(graph, seen, seen')
      invariant forall r | r in seen' && r !in seen :: Reaches(graph, routes, r)
      invariant found' == found + OperationIds(graph, seen' - seen)
    {
      var r := routes[i];
      if r in seen' {
        continue;
      }
      ghost var before := seen';
      ReachesRoot(graph, routes, r);
      seen' := seen' + {r};
      if graph[r].operationId.Some? && graph[r].operationId.value != "" {
        found' := found' + {graph[r].operationId.value};
      }
      ghost var entered := seen';
      if Nested(graph[r]) != [] {
        seen', found' := Walk(graph, Nested(graph[r]), seen', found');
      }
      forall n | n in seen' && n !in entered
        ensures Reaches(graph, routes, n)
      {
        ReachesBelow(graph, routes, r, n);
      }
      assert seen' - seen == (before - seen) + {r} + (seen' - entered);
    }
  }

  /** The ids found are exactly the non-empty ones of the routes the app leads to. */
  method DeclaredOperationIds(graph: map<Id, Route>, routes: seq<Id>) returns (found: set<string>)
    requires WellFormed(graph) && Exists(routes, graph)
    ensures forall id :: id in found <==>
              id != "" && exists r | r in graph && Reaches(graph, routes, r) :: graph[r].operationId == Some(id)
  {
    var seen: set<Id>;
    seen, found := Walk(graph, routes, {}, {});
    forall r | r in graph && Reaches(graph, routes, r)
      ensures r in seen
    {
      var way: seq<Id> :| Way(graph, routes, way, r);
      ExploredHasAll(graph, routes, seen, way, r);
    }
    assert seen - {} == seen;
  }
}
