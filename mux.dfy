/** The Mux node of components/nodes/mux.go: it forwards events to one of its downstream
    nodes, the current route, which the reset/set/unset signals change, and it remembers
    on which route each held usage was pressed so that its release reaches that route. */
module MuxNode {
  import opened Common
  import opened Usages
  import opened Events

  // ---------------------------------------------------------------- the route list

  /** Run's two locals: the routes set and not yet unset, and the current route. */
  datatype Routes = Routes(list: seq<string>, current: string)

  /** The route that should be current: the last route still set, or the default. */
  function CurrentOf(list: seq<string>, defaultRoute: string): string
  {
    if list == [] then defaultRoute else list[|list| - 1]
  }

  predicate Tracks(rs: Routes, defaultRoute: string)
  {
    rs.current == CurrentOf(rs.list, defaultRoute)
  }

  /** The reset signal. */
  function ResetRoutes(defaultRoute: string): Routes
  {
    Routes([], defaultRoute)
  }

  /** The set signal: a route other than the current one is pushed and made current. */
  function SetRoutes(rs: Routes, route: string): Routes
  {
    if route != rs.current then Routes(rs.list + [route], route) else rs
  }

  /** The first position of route in the list. */
  function FirstIndex(list: seq<string>, route: string): (i: nat)
    requires route in list
    ensures i < |list| && list[i] == route
    ensures forall j :: 0 <= j < i ==> list[j] != route
  {
    if list[0] == route then 0 else 1 + FirstIndex(list[1..], route)
  }

  /** The list without the first occurrence of route. */
  function RemoveFirst(list: seq<string>, route: string): (r: seq<string>)
    ensures route in list ==> multiset(r) + multiset{route} == multiset(list)
    ensures route !in list ==> r == list
  {
    if route in list then
      var i := FirstIndex(list, route);
      assert list == list[..i] + [route] + list[i + 1..];
      list[..i] + list[i + 1..]
    else list
  }

  /** The unset signal: the first occurrence of the route is removed; if the route was
      current, the last remaining route, or the default, becomes current. */
  function UnsetRoutes(rs: Routes, route: string, defaultRoute: string): Routes
  {
    if route !in rs.list then rs
    else
      var list := RemoveFirst(rs.list, route);
      Routes(list, if rs.current == route then CurrentOf(list, defaultRoute) else rs.current)
  }

  /** UnsetRoutes when the first occurrence of the route is at i. */
  lemma UnsetAt(rs: Routes, route: string, defaultRoute: string, i: nat)
    requires i < |rs.list| && rs.list[i] == route && route !in rs.list[..i]
    ensures var list := rs.list[..i] + rs.list[i + 1..];
            UnsetRoutes(rs, route, defaultRoute) == Routes(list, if rs.current == route then CurrentOf(list, defaultRoute) else rs.current)
  {
    assert FirstIndex(rs.list, route) == i;
  }

  /** Every signal keeps the current route equal to the last route still set, or the
      default when none is. */
  lemma SignalsTrack(rs: Routes, route: string, defaultRoute: string)
    requires Tracks(rs, defaultRoute)
    ensures Tracks(ResetRoutes(defaultRoute), defaultRoute)
    ensures Tracks(SetRoutes(rs, route), defaultRoute)
    ensures Tracks(UnsetRoutes(rs, route, defaultRoute), defaultRoute)
  {
    if route in rs.list && rs.current != route {
      var i := FirstIndex(rs.list, route);
      assert i < |rs.list| - 1;
      var list := rs.list[..i] + rs.list[i + 1..];
      assert list[|list| - 1] == rs.list[|rs.list| - 1];
    }
  }

  /** Switch: set on press and unset on release puts the routes back as they were, when
      the route was not already set. */
  lemma SwitchRestores(rs: Routes, route: string, defaultRoute: string)
    requires Tracks(rs, defaultRoute) && route !in rs.list && route != rs.current
    ensures UnsetRoutes(SetRoutes(rs, route), route, defaultRoute) == rs
  {
    var list := rs.list + [route];
    assert FirstIndex(list, route) == |rs.list|;
    assert list[..|rs.list|] == rs.list;
  }

  /** Unsetting a route below the top of the list leaves the top current. */
  lemma UnsetBelowTop(list: seq<string>, a: string, b: string, defaultRoute: string)
    requires a !in list && a != b
    ensures UnsetRoutes(Routes(list + [a] + [b], b), a, defaultRoute) == Routes(list + [b], b)
  {
    var ab := list + [a] + [b];
    assert FirstIndex(ab, a) == |list|;
    assert ab[..|list|] + ab[|list| + 1..] == list + [b];
  }

  /** Two overlapping switches to different routes put the routes back as they were,
      whichever is released first. */
  lemma NestedSwitchesRestore(rs: Routes, a: string, b: string, defaultRoute: string)
    requires Tracks(rs, defaultRoute) && a != b
    requires a !in rs.list && b !in rs.list && a != rs.current && b != rs.current
    ensures UnsetRoutes(UnsetRoutes(SetRoutes(SetRoutes(rs, a), b), b, defaultRoute), a, defaultRoute) == rs
    ensures UnsetRoutes(UnsetRoutes(SetRoutes(SetRoutes(rs, a), b), a, defaultRoute), b, defaultRoute) == rs
  {
    var withA := SetRoutes(rs, a);
    SignalsTrack(rs, a, defaultRoute);
    assert b !in withA.list;
    SwitchRestores(withA, b, defaultRoute);
    SwitchRestores(rs, a, defaultRoute);
    UnsetBelowTop(rs.list, a, b, defaultRoute);
    assert SetRoutes(withA, b) == Routes(rs.list + [a] + [b], b);
    assert Routes(rs.list + [b], b) == SetRoutes(rs, b);
    SwitchRestores(rs, b, defaultRoute);
  }

  // ---------------------------------------------------------------- routing one event

  /** What one event leaves behind: where each held usage was pressed, the deactivation
      event for each other route, and the usages suppressed from the forwarded event. */
  datatype Routed = Routed(bindings: map<Usage, string>, deact: map<string, seq<UsageEvent>>, suppressed: seq<Usage>)

  /** The deactivation event for route with a release of u added. */
  function Deactivated(deact: map<string, seq<UsageEvent>>, route: string, u: Usage): map<string, seq<UsageEvent>>
  {
    deact[route := Added(if route in deact then deact[route] else [], Activation(u, false))]
  }

  /** One iteration of Run's loop over the event's usages: a press or release of a usage
      bound to another route sends that route a release; a press rebinds the usage to the
      current route, a release unbinds it and, when it was bound elsewhere, keeps it out
      of the forwarded event. */
  function RouteStep(st: Routed, current: string, ue: UsageEvent): Routed
  {
    if ue.activate.None? then st
    else
      var u := ue.usage;
      var elsewhere := u in st.bindings && st.bindings[u] != current;
      var deact := if elsewhere then Deactivated(st.deact, st.bindings[u], u) else st.deact;
      if ue.activate.value then Routed(st.bindings[u := current], deact, st.suppressed)
      else Routed(st.bindings - {u}, deact, if elsewhere then st.suppressed + [u] else st.suppressed)
  }

  function RouteAll(es: seq<UsageEvent>, current: string, st: Routed): Routed
  {
    if es == [] then st else RouteAll(es[1..], current, RouteStep(st, current, es[0]))
  }

  lemma RouteAllStep(es: seq<UsageEvent>, i: nat, current: string, st: Routed)
    requires i < |es|
    ensures RouteAll(es[i..], current, st) == RouteAll(es[i + 1..], current, RouteStep(st, current, es[i]))
  {
    assert es[i..][1..] == es[i + 1..];
  }

  /** The usage's release was sent to route. */
  predicate Sent(deact: map<string, seq<UsageEvent>>, route: string, u: Usage)
  {
    route in deact && Lookup(deact[route], u) == Some(Activation(u, false))
  }

  predicate DistinctEvents(deact: map<string, seq<UsageEvent>>)
  {
    forall route :: route in deact ==> Distinct(deact[route])
  }

  lemma LookupCons(es: seq<UsageEvent>, u: Usage)
    requires es != [] && Distinct(es)
    ensures Distinct(es[1..])
    ensures Lookup(es, u) == if es[0].usage == u then Some(es[0]) else Lookup(es[1..], u)
    ensures es[0].usage == u ==> Lookup(es[1..], u).None?
  {
    if es[0].usage == u {
      assert forall e :: e in es[1..] ==> e.usage != u by {
        forall e | e in es[1..] ensures e.usage != u {
          var j :| 0 <= j < |es[1..]| && es[1..][j] == e;
          assert es[j + 1] == e;
        }
      }
    }
  }

  /** One step adds a release of its own usage only, and keeps the events distinct. */
  lemma DeactivatedSent(deact: map<string, seq<UsageEvent>>, r: string, u: Usage, route: string, x: Usage)
    requires DistinctEvents(deact)
    ensures DistinctEvents(Deactivated(deact, r, u))
    ensures Sent(Deactivated(deact, r, u), route, x) <==> Sent(deact, route, x) || (route == r && x == u)
  {
    var es := if r in deact then deact[r] else [];
    AddedLookup(es, Activation(u, false), x);
  }

  /** The event's entry for u settles where u ends up, with each usage appearing once:
      pressed means bound to the current route; released means unbound, and also sent
      to, and suppressed for, the route it was bound to when that was another route; no
      entry leaves u as it was. */
  lemma {:induction false} RouteAllUsage(es: seq<UsageEvent>, current: string, st: Routed, u: Usage, route: string)
    requires Distinct(es) && DistinctEvents(st.deact)
    ensures DistinctEvents(RouteAll(es, current, st).deact)
    ensures var f := RouteAll(es, current, st);
            var l := Lookup(es, u);
            var elsewhere := u in st.bindings && st.bindings[u] != current;
            if l.Some? && l.value.activate == Some(true) then
              u in f.bindings && f.bindings[u] == current && (u in f.suppressed <==> u in st.suppressed) &&
              (Sent(f.deact, route, u) <==> Sent(st.deact, route, u) || (elsewhere && route == st.bindings[u]))
            else if l.Some? && l.value.activate == Some(false) then
              u !in f.bindings &&
              (u in f.suppressed <==> u in st.suppressed || elsewhere) &&
              (Sent(f.deact, route, u) <==> Sent(st.deact, route, u) || (elsewhere && route == st.bindings[u]))
            else
              (u in f.bindings <==> u in st.bindings) && (u in f.bindings ==> f.bindings[u] == st.bindings[u]) &&
              (u in f.suppressed <==> u in st.suppressed) &&
              (Sent(f.deact, route, u) <==> Sent(st.deact, route, u))
  {
    if es != [] {
      LookupCons(es, u);
      var e := es[0];
      var next := RouteStep(st, current, e);
      if e.activate.None? {
        assert next == st;
      } else if e.usage == u {
        StepOwnUsage(st, current, e, route);
      } else {
        StepOtherUsage(st, current, e, u, route);
      }
      RouteAllUsage(es[1..], current, next, u, route);
    }
  }

  /** A press or release of u: a press binds u to the current route, a release unbinds
      it and suppresses it when it was bound elsewhere; either sends the release to that
      other route. */
  lemma StepOwnUsage(st: Routed, current: string, e: UsageEvent, route: string)
    requires DistinctEvents(st.deact) && e.activate.Some?
    ensures var n := RouteStep(st, current, e);
            var u := e.usage;
            var elsewhere := u in st.bindings && st.bindings[u] != current;
            DistinctEvents(n.deact)
            && (e.activate.value ==> u in n.bindings && n.bindings[u] == current && (u in n.suppressed <==> u in st.suppressed))
            && (!e.activate.value ==> u !in n.bindings && (u in n.suppressed <==> u in st.suppressed || elsewhere))
            && (Sent(n.deact, route, u) <==> Sent(st.deact, route, u) || (elsewhere && route == st.bindings[u]))
  {
    var u := e.usage;
    if u in st.bindings && st.bindings[u] != current {
      DeactivatedSent(st.deact, st.bindings[u], u, route, u);
    }
  }

  /** A press or release of another usage leaves u's binding, suppression and releases. */
  lemma StepOtherUsage(st: Routed, current: string, e: UsageEvent, u: Usage, route: string)
    requires DistinctEvents(st.deact) && e.activate.Some? && e.usage != u
    ensures var n := RouteStep(st, current, e);
            DistinctEvents(n.deact)
            && (u in n.bindings <==> u in st.bindings) && (u in n.bindings ==> n.bindings[u] == st.bindings[u])
            && (u in n.suppressed <==> u in st.suppressed)
            && (Sent(n.deact, route, u) <==> Sent(st.deact, route, u))
  {
    var v := e.usage;
    if v in st.bindings && st.bindings[v] != current {
      DeactivatedSent(st.deact, st.bindings[v], v, route, u);
    }
  }

  /** A release is only ever sent to a route other than the current one. */
  lemma {:induction false} NeverSentToCurrent(es: seq<UsageEvent>, current: string, st: Routed, u: Usage)
    requires Distinct(es) && st.deact == map[]
    ensures !Sent(RouteAll(es, current, st).deact, current, u)
  {
    RouteAllUsage(es, current, st, u, current);
  }

  // ---------------------------------------------------------------- the node

  class Mux {
    var nodeIDs: seq<string>
    var defaultRoute: string
    var activatedUsages: map<Usage, string>
    // Run's locals, kept as fields so that each signal and each event is one call.
    var routeList: seq<string>
    var currentRoute: string

    function Routing(): Routes
      reads this
    {
      Routes(routeList, currentRoute)
    }

    /** CreateNode: the downstream nodes are the routes and the last one is the default;
        Run starts at the default with no route set. */
    constructor (downstreams: seq<string>)
      requires |downstreams| > 0
      ensures nodeIDs == downstreams && defaultRoute == downstreams[|downstreams| - 1]
      ensures defaultRoute in nodeIDs
      ensures activatedUsages == map[] && Routing() == ResetRoutes(defaultRoute)
    {
      nodeIDs := downstreams;
      defaultRoute := downstreams[|downstreams| - 1];
      activatedUsages := map[];
      routeList := [];
      currentRoute := downstreams[|downstreams| - 1];
    }

    /** validateNode: the ID must be one of the downstream nodes. */
    method ValidateNode(nodeID: string) returns (err: Option<string>)
      ensures err.None? <==> nodeID in nodeIDs
    {
      var found := false;
      var i := 0;
      while i < |nodeIDs|
        invariant 0 <= i <= |nodeIDs|
        invariant !found ==> nodeID !in nodeIDs[..i]
        invariant found ==> nodeID in nodeIDs
      {
        if nodeIDs[i] == nodeID {
          found := true;
          break;
        }
        i := i + 1;
      }
      if !found {
        assert nodeIDs[..i] == nodeIDs;
        return Some("node is not a downstream node");
      }
      return None;
    }

    /** Configure: the decoded configuration, where a missing fallback keeps the current
        default; the fallback must be a downstream node to become the default. */
    method Configure(config: Result<Option<string>>) returns (err: Option<string>)
      modifies this
      ensures var fallback := if config.Ok? && config.value.Some? then config.value.value else old(defaultRoute);
              (err.None? <==> config.Ok? && fallback in nodeIDs) &&
              defaultRoute == (if err.None? then fallback else old(defaultRoute))
      ensures old(defaultRoute) in old(nodeIDs) ==> defaultRoute in nodeIDs
      ensures nodeIDs == old(nodeIDs) && activatedUsages == old(activatedUsages) && Routing() == old(Routing())
    {
      if !config.Ok? {
        return Some("failed to unmarshal config");
      }
      var fallback := defaultRoute;
      if config.value.Some? {
        fallback := config.value.value;
      }
      err := ValidateNode(fallback);
      if err.Some? {
        return err;
      }
      defaultRoute := fallback;
    }

    /** The start of Run: an empty route list and the current route at the fallback as it
        stands then, after any Configure; the bindings are the node's and carry over. */
    method Start()
      modifies this
      ensures routeList == [] && currentRoute == defaultRoute
      ensures Tracks(Routing(), defaultRoute)
      ensures nodeIDs == old(nodeIDs) && defaultRoute == old(defaultRoute) && activatedUsages == old(activatedUsages)
    {
      routeList := [];
      currentRoute := defaultRoute;
    }

    /** The reset signal. */
    method Reset() returns (changed: bool)
      modifies this
      ensures changed && Routing() == ResetRoutes(defaultRoute)
      ensures nodeIDs == old(nodeIDs) && defaultRoute == old(defaultRoute) && activatedUsages == old(activatedUsages)
    {
      changed := true;
      currentRoute := defaultRoute;
      routeList := [];
    }

    /** The set signal. */
    method Set(route: string) returns (changed: bool)
      modifies this
      ensures changed <==> route != old(currentRoute)
      ensures Routing() == SetRoutes(old(Routing()), route)
      ensures nodeIDs == old(nodeIDs) && defaultRoute == old(defaultRoute) && activatedUsages == old(activatedUsages)
    {
      changed := false;
      if route != currentRoute {
        changed := true;
        routeList := routeList + [route];
        currentRoute := route;
      }
    }

    /** The unset signal: a search for the first occurrence of the route. */
    method Unset(route: string) returns (changed: bool)
      modifies this
      ensures changed <==> route in old(routeList)
      ensures Routing() == UnsetRoutes(old(Routing()), route, defaultRoute)
      ensures nodeIDs == old(nodeIDs) && defaultRoute == old(defaultRoute) && activatedUsages == old(activatedUsages)
    {
      var i := 0;
      while i < |routeList| && routeList[i] != route
        invariant 0 <= i <= |routeList|
        invariant route !in routeList[..i]
      {
        i := i + 1;
      }
      if i == |routeList| {
        assert routeList[..i] == routeList;
        return false;
      }
      changed := true;
      UnsetAt(Routing(), route, defaultRoute, i);
      routeList := routeList[..i] + routeList[i + 1..];
      if currentRoute == route {
        if |routeList| == 0 {
          currentRoute := defaultRoute;
        } else {
          currentRoute := routeList[|routeList| - 1];
        }
      }
    }

    /** One turn of RouteEvent's loop: the usage is routed as RouteStep says, and a
        release kept out of the forwarded event is removed from it. */
    method RouteUsage(e: Event, usage: UsageEvent, deact0: map<string, seq<UsageEvent>>,
                      ghost usages: seq<UsageEvent>, ghost suppressed0: seq<Usage>)
      returns (deact: map<string, seq<UsageEvent>>, ghost suppressed: seq<Usage>)
      requires e.Valid() && e.usages == SuppressAll(usages, suppressed0)
      modifies this, e
      ensures e.Valid() && e.usages == SuppressAll(usages, suppressed)
      ensures Routed(activatedUsages, deact, suppressed)
              == RouteStep(Routed(old(activatedUsages), deact0, suppressed0), currentRoute, usage)
      ensures nodeIDs == old(nodeIDs) && defaultRoute == old(defaultRoute) && Routing() == old(Routing())
    {
      deact, suppressed := deact0, suppressed0;
      if usage.activate.Some? {
        var u := usage.usage;
        if usage.activate.value {
          if u in activatedUsages && activatedUsages[u] != currentRoute {
            deact := Deactivated(deact, activatedUsages[u], u);
          }
          activatedUsages := activatedUsages[u := currentRoute];
        } else {
          if u in activatedUsages && activatedUsages[u] != currentRoute {
            deact := Deactivated(deact, activatedUsages[u], u);
            e.Suppress([u]);
            assert SuppressAll(usages, suppressed + [u]) == Removed(SuppressAll(usages, suppressed), u) by {
              assert (suppressed + [u])[..|suppressed|] == suppressed;
            }
            suppressed := suppressed + [u];
          }
          activatedUsages := activatedUsages - {u};
        }
      }
    }

    /** Run's handling of one incoming event: the event's usages are walked in order as
        RouteStep says; the releases for other routes are returned, one event per route,
        and the event itself is forwarded to the current route unless nothing is left. */
    method RouteEvent(e: Event) returns (deact: map<string, seq<UsageEvent>>, forward: bool)
      requires e.Valid()
      modifies this, e
      ensures e.Valid()
      ensures var r := RouteAll(old(e.usages), currentRoute, Routed(old(activatedUsages), map[], []));
              activatedUsages == r.bindings && deact == r.deact &&
              e.usages == SuppressAll(old(e.usages), r.suppressed)
      ensures forward <==> e.usages != []
      ensures nodeIDs == old(nodeIDs) && defaultRoute == old(defaultRoute) && Routing() == old(Routing())
    {
      var usages := e.Usages();
      ghost var start := Routed(activatedUsages, map[], []);
      ghost var suppressed: seq<Usage> := [];
      deact := map[];
      var i := 0;
      while i < |usages|
        invariant 0 <= i <= |usages|
        invariant e.Valid() && e.usages == SuppressAll(usages, suppressed)
        invariant RouteAll(usages, currentRoute, start) == RouteAll(usages[i..], currentRoute, Routed(activatedUsages, deact, suppressed))
        invariant nodeIDs == old(nodeIDs) && defaultRoute == old(defaultRoute) && Routing() == old(Routing())
      {
        ghost var before := Routed(activatedUsages, deact, suppressed);
        RouteAllStep(usages, i, currentRoute, before);
        deact, suppressed := RouteUsage(e, usages[i], deact, usages, suppressed);
        i := i + 1;
      }
      assert usages[i..] == [];
      var empty := e.IsEmpty();
      forward := !empty;
    }
  }
}
