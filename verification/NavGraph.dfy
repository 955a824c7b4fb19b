/** The navigation graph that the desktop grows from `nav/state` and `nav/transition`. */
module NavGraph {
  import opened Pointer
  import opened Sums
  import opened Clusters

  const MAX_NAV_TRANSITIONS := 300

  type Params = map<string, string>

  datatype Node = Node(name: string, params: Option<Params>, visits: nat, firstSeenAt: int, lastSeenAt: int)

  datatype Edge = Edge(from: string, to: string, count: nat, lastAt: int, action: Option<string>)

  datatype TransitionEvent = TransitionEvent(from: Option<string>, to: string, action: Option<string>, ts: int)

  datatype Graph = Graph(
    nodes: map<string, Node>,
    edges: map<string, Edge>,
    transitions: seq<TransitionEvent>,
    activeName: Option<string>,
    lastEdgeId: Option<string>,
    lastTransitionAt: Option<int>,
    lastAppliedRouteKey: Option<string>)

  const EMPTY := Graph(map[], map[], [], None, None, None, None)

  datatype Route = Route(key: string, name: string, params: Option<Params>, state: Option<State>)

  /** `Malformed`: no object, or `routes` is no array. */
  datatype State = State(routes: seq<Route>) | Malformed

  datatype Transition = Transition(from: Option<string>, toKey: string, toName: string, params: Option<Params>,
                                   action: Option<string>)

  function EdgeId(from: string, to: string): string {
    from + "->" + to
  }

  // ---- nodes ----

  function UpsertNode(nodes: map<string, Node>, name: string, params: Option<Params>, now: int, visit: bool)
    : map<string, Node>
  {
    var one := if visit then 1 else 0;
    nodes[name :=
      if name in nodes then
        var old_ := nodes[name];
        Node(old_.name, if params.Some? then params else old_.params, old_.visits + one, old_.firstSeenAt, now)
      else Node(name, params, one, now, now)]
  }

  // ---- nav/state ----

  datatype Walked = Walked(nodes: map<string, Node>, edges: map<string, Edge>, activeName: Option<string>)

  /** What one route adds, before its own navigator is looked at. */
  function RouteSeen(w: Walked, previous: Option<Route>, route: Route, activeKey: string, now: int): Walked {
    var nodes := UpsertNode(w.nodes, route.name, route.params, now, false);
    var active := if route.key == activeKey then Some(route.name) else w.activeName;
    if previous.None? || EdgeId(previous.value.name, route.name) in w.edges then Walked(nodes, w.edges, active)
    else
      var id := EdgeId(previous.value.name, route.name);
      Walked(nodes, w.edges[id := Edge(previous.value.name, route.name, 0, now, None)], active)
  }

  function Previous(routes: seq<Route>, i: int): Option<Route> {
    if 0 < i <= |routes| then Some(routes[i - 1]) else None
  }

  function StateSeen(w: Walked, state: State, activeKey: string, now: int): Walked
    decreases state, 0
  {
    if state.Malformed? then w else RoutesSeen(w, state.routes, activeKey, now)
  }

  function RoutesSeen(w: Walked, routes: seq<Route>, activeKey: string, now: int): Walked
    decreases routes, 1
  {
    if routes == [] then w
    else
      var last := |routes| - 1;
      var before := RoutesSeen(w, routes[..last], activeKey, now);
      var previous := Previous(routes, last);
      var seen := RouteSeen(before, previous, routes[last], activeKey, now);
      if routes[last].state.None? then seen else StateSeen(seen, routes[last].state.value, activeKey, now)
  }

  /** The variables that the recursive `visit` closes over. */
  class StateWalk {
    const activeRouteKey: string
    const now: int
    var nodes: map<string, Node>
    var edges: map<string, Edge>
    var activeName: Option<string>

    constructor (graph: Graph, activeRouteKey: string, now: int)
      ensures this.activeRouteKey == activeRouteKey && this.now == now
      ensures Contents() == Walked(graph.nodes, graph.edges, None)
    {
      this.activeRouteKey := activeRouteKey;
      this.now := now;
      nodes := graph.nodes;
      edges := graph.edges;
      activeName := None;
    }

    function Contents(): Walked
      reads this
    {
      Walked(nodes, edges, activeName)
    }

    method Visit(state: State)
      modifies this
      ensures Contents() == StateSeen(old(Contents()), state, activeRouteKey, now)
      decreases state
    {
      if state.Malformed? {
        return;
      }
      var routes := state.routes;
      for i := 0 to |routes|
        invariant Contents() == RoutesSeen(old(Contents()), routes[..i], activeRouteKey, now)
      {
        var route := routes[i];
        assert routes[..i + 1][..i] == routes[..i];
        nodes := UpsertNode(nodes, route.name, route.params, now, false);
        if route.key == activeRouteKey {
          activeName := Some(route.name);
        }
        if i > 0 {
          var previous := routes[i - 1];
          var id := EdgeId(previous.name, route.name);
          if id !in edges {
            edges := edges[id := Edge(previous.name, route.name, 0, now, None)];
          }
        }
        if route.state.Some? {
          Visit(route.state.value);
        }
      }
      assert routes[..|routes|] == routes;
    }
  }

  function StateApplied(graph: Graph, state: State, activeKey: string, now: int): Graph {
    var w := StateSeen(Walked(graph.nodes, graph.edges, None), state, activeKey, now);
    graph.(nodes := w.nodes, edges := w.edges,
           activeName := if w.activeName.Some? then w.activeName else graph.activeName)
  }

  method ApplyNavState(graph: Graph, state: State, activeKey: string, now: int) returns (next: Graph)
    ensures next == StateApplied(graph, state, activeKey, now)
  {
    var walk := new StateWalk(graph, activeKey, now);
    walk.Visit(state);
    next := graph.(nodes := walk.nodes, edges := walk.edges,
                   activeName := if walk.activeName.Some? then walk.activeName else graph.activeName);
  }

  // ---- nav/transition ----

  /** The cached last transition, replayed by a reconnect. */
  predicate IsReplay(graph: Graph, t: Transition) {
    t.toKey != "" && graph.lastAppliedRouteKey == Some(t.toKey)
  }

  function TransitionApplied(graph: Graph, t: Transition, now: int): Graph {
    if IsReplay(graph, t) then graph
    else
      var landed := UpsertNode(graph.nodes, t.toName, t.params, now, true);
      var event := TransitionEvent(t.from, t.toName, t.action, now);
      var all := [event] + graph.transitions;
      var next := graph.(
        transitions := if |all| > MAX_NAV_TRANSITIONS then all[..MAX_NAV_TRANSITIONS] else all,
        activeName := Some(t.toName), lastTransitionAt := Some(now), lastAppliedRouteKey := Some(t.toKey));
      if t.from.None? then next.(nodes := landed)
      else
        var id := EdgeId(t.from.value, t.toName);
        var before := if id in graph.edges then graph.edges[id].count else 0;
        next.(nodes := UpsertNode(landed, t.from.value, None, now, false),
              edges := graph.edges[id := Edge(t.from.value, t.toName, before + 1, now, t.action)],
              lastEdgeId := Some(id))
  }

  // ---- runs ----

  datatype Event =
    | NavState(state: State, activeKey: string, now: int)
    | NavTransition(transition: Transition, now: int)

  function Applied(graph: Graph, e: Event): Graph {
    match e
    case NavState(state, activeKey, now) => StateApplied(graph, state, activeKey, now)
    case NavTransition(t, now) => TransitionApplied(graph, t, now)
  }

  /** The graph after the events of a session, from the empty one. */
  function After(events: seq<Event>): Graph {
    if events == [] then EMPTY else Applied(After(events[..|events| - 1]), events[|events| - 1])
  }

  /** The transitions of the session that were not replays, latest first. */
  function History(events: seq<Event>): seq<TransitionEvent> {
    if events == [] then []
    else
      var front, e := events[..|events| - 1], events[|events| - 1];
      if e.NavTransition? && !IsReplay(After(front), e.transition) then
        [TransitionEvent(e.transition.from, e.transition.toName, e.transition.action, e.now)] + History(front)
      else History(front)
  }

  function LandedOn(history: seq<TransitionEvent>, name: string): nat {
    if history == [] then 0
    else (if history[0].to == name then 1 else 0) + LandedOn(history[1..], name)
  }

  predicate Follows(event: TransitionEvent, id: string) {
    event.from.Some? && EdgeId(event.from.value, event.to) == id
  }

  function Followed(history: seq<TransitionEvent>, id: string): nat {
    if history == [] then 0
    else (if Follows(history[0], id) then 1 else 0) + Followed(history[1..], id)
  }

  function WithSource(history: seq<TransitionEvent>): nat {
    if history == [] then 0
    else (if history[0].from.Some? then 1 else 0) + WithSource(history[1..])
  }

  function Visits(graph: Graph): string -> nat {
    name => if name in graph.nodes then graph.nodes[name].visits else 0
  }

  function Counts(graph: Graph): string -> nat {
    id => if id in graph.edges then graph.edges[id].count else 0
  }

  // ---- nothing but transitions counts ----

  /** From `w` to `v` nodes and edges were only added, and no count changed. */
  ghost predicate OnlyGrew(w: Walked, v: Walked) {
    && (forall n | n in w.nodes ::
          n in v.nodes && v.nodes[n].visits == w.nodes[n].visits && v.nodes[n].firstSeenAt == w.nodes[n].firstSeenAt)
    && (forall n | n in v.nodes && n !in w.nodes :: v.nodes[n].visits == 0)
    && (forall id | id in w.edges :: id in v.edges && v.edges[id] == w.edges[id])
    && (forall id | id in v.edges && id !in w.edges :: v.edges[id].count == 0)
  }

  ghost predicate Sound(nodes: map<string, Node>, edges: map<string, Edge>) {
    && (forall n | n in nodes :: nodes[n].name == n)
    && (forall id | id in edges ::
          EdgeId(edges[id].from, edges[id].to) == id && edges[id].from in nodes && edges[id].to in nodes)
  }

  lemma {:induction false} StateOnlyGrows(w: Walked, state: State, activeKey: string, now: int)
    requires Sound(w.nodes, w.edges)
    ensures var v := StateSeen(w, state, activeKey, now); OnlyGrew(w, v) && Sound(v.nodes, v.edges)
    decreases state, 0
  {
    if !state.Malformed? {
      RoutesOnlyGrow(w, state.routes, activeKey, now);
    }
  }

  lemma {:induction false} RoutesOnlyGrow(w: Walked, routes: seq<Route>, activeKey: string, now: int)
    requires Sound(w.nodes, w.edges)
    ensures var v := RoutesSeen(w, routes, activeKey, now);
            && OnlyGrew(w, v) && Sound(v.nodes, v.edges)
            && (routes != [] ==> routes[|routes| - 1].name in v.nodes)
    decreases routes, 1
  {
    if routes != [] {
      var last := |routes| - 1;
      RoutesOnlyGrow(w, routes[..last], activeKey, now);
      var before := RoutesSeen(w, routes[..last], activeKey, now);
      var previous := Previous(routes, last);
      var seen := RouteSeen(before, previous, routes[last], activeKey, now);
      RouteOnlyGrows(before, previous, routes[last], activeKey, now);
      GrewThrough(w, before, seen);
      if routes[last].state.Some? {
        StateOnlyGrows(seen, routes[last].state.value, activeKey, now);
        GrewThrough(w, seen, StateSeen(seen, routes[last].state.value, activeKey, now));
      }
    }
  }

  lemma {:induction false} RouteOnlyGrows(w: Walked, previous: Option<Route>, route: Route, activeKey: string, now: int)
    requires Sound(w.nodes, w.edges) && (previous.Some? ==> previous.value.name in w.nodes)
    ensures var v := RouteSeen(w, previous, route, activeKey, now);
            OnlyGrew(w, v) && Sound(v.nodes, v.edges) && route.name in v.nodes
  {
  }

  lemma {:induction false} GrewThrough(u: Walked, v: Walked, w: Walked)
    requires OnlyGrew(u, v) && OnlyGrew(v, w)
    ensures OnlyGrew(u, w)
  {
  }

  // ---- what a state tree contributes ----

  /** Some route in the tree has the name. */
  predicate Shows(routes: seq<Route>, name: string) {
    exists i :: 0 <= i < |routes| && RouteShows(routes[i], name)
  }

  predicate RouteShows(route: Route, name: string) {
    route.name == name
    || (route.state.Some? && route.state.value.State? && Shows(route.state.value.routes, name))
  }

  /** Two neighbours in one navigator of the tree are joined by the id. */
  predicate Joins(routes: seq<Route>, id: string) {
    exists i :: 0 <= i < |routes| && RouteJoins(Previous(routes, i), routes[i], id)
  }

  predicate RouteJoins(previous: Option<Route>, route: Route, id: string)
    decreases route
  {
    (previous.Some? && EdgeId(previous.value.name, route.name) == id)
    || (route.state.Some? && route.state.value.State? && Joins(route.state.value.routes, id))
  }

  /** A `nav/state` adds exactly the screens of its tree and the links between
      neighbours in one navigator. */
  lemma {:induction false} StateAddsItsTree(w: Walked, state: State, activeKey: string, now: int, s: string)
    ensures var v := StateSeen(w, state, activeKey, now);
            && (s in v.nodes <==> s in w.nodes || (state.State? && Shows(state.routes, s)))
            && (s in v.edges <==> s in w.edges || (state.State? && Joins(state.routes, s)))
    decreases state, 0
  {
    if state.State? {
      RoutesAddTheirTrees(w, state.routes, activeKey, now, s);
    }
  }

  lemma {:induction false} RoutesAddTheirTrees(w: Walked, routes: seq<Route>, activeKey: string, now: int, s: string)
    ensures var v := RoutesSeen(w, routes, activeKey, now);
            && (s in v.nodes <==> s in w.nodes || Shows(routes, s))
            && (s in v.edges <==> s in w.edges || Joins(routes, s))
    decreases routes, 1
  {
    if routes != [] {
      var last := |routes| - 1;
      RoutesAddTheirTrees(w, routes[..last], activeKey, now, s);
      PrefixShows(routes, s);
      PrefixJoins(routes, s);
      var before := RoutesSeen(w, routes[..last], activeKey, now);
      var previous := Previous(routes, last);
      var seen := RouteSeen(before, previous, routes[last], activeKey, now);
      if routes[last].state.Some? {
        StateAddsItsTree(seen, routes[last].state.value, activeKey, now, s);
      }
    }
  }

  lemma {:induction false} PrefixShows(routes: seq<Route>, s: string)
    requires routes != []
    ensures Shows(routes, s) <==> Shows(routes[..|routes| - 1], s) || RouteShows(routes[|routes| - 1], s)
  {
    hide RouteShows;
    var front := routes[..|routes| - 1];
    if Shows(routes, s) {
      var i :| 0 <= i < |routes| && RouteShows(routes[i], s);
      assert i < |front| ==> RouteShows(front[i], s);
    }
    if Shows(front, s) {
      var i :| 0 <= i < |front| && RouteShows(front[i], s);
      assert RouteShows(routes[i], s);
    }
  }

  lemma {:induction false} PrefixJoins(routes: seq<Route>, s: string)
    requires routes != []
    ensures Joins(routes, s) <==>
            Joins(routes[..|routes| - 1], s)
            || RouteJoins(Previous(routes, |routes| - 1), routes[|routes| - 1], s)
  {
    hide RouteJoins;
    var front := routes[..|routes| - 1];
    if Joins(routes, s) {
      var i :| 0 <= i < |routes| && RouteJoins(Previous(routes, i), routes[i], s);
      assert i < |front| ==> RouteJoins(Previous(front, i), front[i], s);
    }
    if Joins(front, s) {
      var i :| 0 <= i < |front| && RouteJoins(Previous(front, i), front[i], s);
      assert RouteJoins(Previous(routes, i), routes[i], s);
    }
  }

  // ---- the session ----

  /** What holds of the graph after every session. */
  ghost predicate Recorded(graph: Graph, history: seq<TransitionEvent>) {
    && Sound(graph.nodes, graph.edges)
    && (forall n :: Visits(graph)(n) == LandedOn(history, n))
    && (forall id :: Counts(graph)(id) == Followed(history, id))
    && graph.transitions == (if |history| > MAX_NAV_TRANSITIONS then history[..MAX_NAV_TRANSITIONS] else history)
  }

  lemma {:induction false} StateKeepsRecord(graph: Graph, history: seq<TransitionEvent>, state: State,
                                            activeKey: string, now: int)
    requires Recorded(graph, history)
    ensures Recorded(StateApplied(graph, state, activeKey, now), history)
  {
    hide LandedOn, Followed, RoutesSeen, StateSeen;
    var w := Walked(graph.nodes, graph.edges, None);
    StateOnlyGrows(w, state, activeKey, now);
    var next := StateApplied(graph, state, activeKey, now);
    var v := StateSeen(w, state, activeKey, now);
    assert next.nodes == v.nodes && next.edges == v.edges;
    forall n ensures Visits(next)(n) == Visits(graph)(n) {}
    forall id ensures Counts(next)(id) == Counts(graph)(id) {}
  }

  lemma {:induction false} TransitionIsRecorded(graph: Graph, history: seq<TransitionEvent>, t: Transition, now: int)
    requires Recorded(graph, history) && !IsReplay(graph, t)
    ensures Recorded(TransitionApplied(graph, t, now),
                     [TransitionEvent(t.from, t.toName, t.action, now)] + history)
  {
    hide LandedOn, Followed;
    var event := TransitionEvent(t.from, t.toName, t.action, now);
    var longer := [event] + history;
    var next := TransitionApplied(graph, t, now);
    forall n ensures Visits(next)(n) == LandedOn(longer, n)
    {
      TalliesGrow(event, history, n);
    }
    forall id ensures Counts(next)(id) == Followed(longer, id)
    {
      TalliesGrow(event, history, id);
    }
    TransitionKeepsSound(graph, t, now);
    assert longer[1..] == history;
  }

  lemma {:induction false} TalliesGrow(event: TransitionEvent, history: seq<TransitionEvent>, s: string)
    ensures LandedOn([event] + history, s) == (if event.to == s then 1 else 0) + LandedOn(history, s)
    ensures Followed([event] + history, s) == (if Follows(event, s) then 1 else 0) + Followed(history, s)
  {
    assert ([event] + history)[1..] == history;
  }

  lemma {:induction false} TransitionKeepsSound(graph: Graph, t: Transition, now: int)
    requires Sound(graph.nodes, graph.edges)
    ensures var next := TransitionApplied(graph, t, now); Sound(next.nodes, next.edges)
  {
  }

  /** Over every session: each node's visits are the applied transitions that landed
      on it, each edge's count is the applied transitions that followed it, and the
      list holds the latest 300. */
  lemma {:induction false} SessionIsRecorded(events: seq<Event>)
    ensures Recorded(After(events), History(events))
  {
    if events != [] {
      hide TransitionApplied, StateApplied, LandedOn, Followed;
      var front, e := events[..|events| - 1], events[|events| - 1];
      SessionIsRecorded(front);
      if e.NavState? {
        StateKeepsRecord(After(front), History(front), e.state, e.activeKey, e.now);
      } else if !IsReplay(After(front), e.transition) {
        TransitionIsRecorded(After(front), History(front), e.transition, e.now);
      } else {
        ReplayChangesNothing(After(front), e.transition, e.now);
      }
    }
  }

  lemma {:induction false} ReplayChangesNothing(graph: Graph, t: Transition, now: int)
    requires IsReplay(graph, t)
    ensures TransitionApplied(graph, t, now) == graph
  {
  }

  // ---- conservation ----

  function Landings(history: seq<TransitionEvent>): string -> nat {
    n => LandedOn(history, n)
  }

  function Followings(history: seq<TransitionEvent>): string -> nat {
    id => Followed(history, id)
  }

  /** The visits add up to the applied transitions, the counts to those with a source. */
  lemma {:induction false} NavigationIsConserved(events: seq<Event>)
    ensures var graph := After(events);
            && Sum(graph.nodes.Keys, Visits(graph)) == |History(events)|
            && Sum(graph.edges.Keys, Counts(graph)) == WithSource(History(events))
  {
    hide After, History, LandedOn, Followed;
    SessionIsRecorded(events);
    var graph, history := After(events), History(events);
    SumSame(graph.nodes.Keys, Visits(graph), Landings(history));
    SumSame(graph.edges.Keys, Counts(graph), Followings(history));
    forall i | 0 <= i < |history|
      ensures history[i].to in graph.nodes
      ensures history[i].from.Some? ==> EdgeId(history[i].from.value, history[i].to) in graph.edges
    {
      SomeoneLanded(history, i);
      assert Visits(graph)(history[i].to) > 0;
      if history[i].from.Some? {
        assert Counts(graph)(EdgeId(history[i].from.value, history[i].to)) > 0;
      }
    }
    LandingsAddUp(graph.nodes.Keys, history);
    FollowingsAddUp(graph.edges.Keys, history);
  }

  lemma {:induction false} SomeoneLanded(history: seq<TransitionEvent>, i: nat)
    requires i < |history|
    ensures LandedOn(history, history[i].to) > 0
    ensures history[i].from.Some? ==> Followed(history, EdgeId(history[i].from.value, history[i].to)) > 0
    decreases i
  {
    if i > 0 {
      SomeoneLanded(history[1..], i - 1);
    }
  }

  lemma {:induction false} LandingsAddUp(names: set<string>, history: seq<TransitionEvent>)
    requires forall i | 0 <= i < |history| :: history[i].to in names
    ensures Sum(names, Landings(history)) == |history|
  {
    if history == [] {
      SumZero(names, Landings(history));
    } else {
      LandingsAddUp(names, history[1..]);
      SumBumped(names, Landings(history), Landings(history[1..]), history[0].to);
    }
  }

  lemma {:induction false} FollowingsAddUp(ids: set<string>, history: seq<TransitionEvent>)
    requires forall i | 0 <= i < |history| && history[i].from.Some? ::
               EdgeId(history[i].from.value, history[i].to) in ids
    ensures Sum(ids, Followings(history)) == WithSource(history)
  {
    if history == [] {
      SumZero(ids, Followings(history));
    } else {
      FollowingsAddUp(ids, history[1..]);
      if history[0].from.Some? {
        SumBumped(ids, Followings(history), Followings(history[1..]),
                  EdgeId(history[0].from.value, history[0].to));
      } else {
        SumSame(ids, Followings(history), Followings(history[1..]));
      }
    }
  }

  // ---- growth, replays and the clusters ----

  /** No event takes a node or an edge away, lowers a count or forgets a first sighting. */
  lemma {:induction false} NavigationOnlyGrows(events: seq<Event>, e: Event)
    ensures var before, after := After(events), After(events + [e]);
            && (forall n | n in before.nodes ::
                  n in after.nodes && after.nodes[n].visits >= before.nodes[n].visits
                  && after.nodes[n].firstSeenAt == before.nodes[n].firstSeenAt)
            && (forall id | id in before.edges ::
                  id in after.edges && after.edges[id].count >= before.edges[id].count)
  {
    SessionIsRecorded(events);
    assert (events + [e])[..|events|] == events;
    var before := After(events);
    if e.NavState? {
      StateOnlyGrows(Walked(before.nodes, before.edges, None), e.state, e.activeKey, e.now);
    }
  }

  predicate OnlyStates(events: seq<Event>) {
    forall i | 0 <= i < |events| :: events[i].NavState?
  }

  /** The last transition, replayed after any number of `nav/state` messages, is ignored. */
  lemma {:induction false} ReplayIsIgnored(events: seq<Event>, t: Transition, now: int, states: seq<Event>,
                                           t': Transition, now': int)
    requires OnlyStates(states) && t.toKey == t'.toKey != ""
    ensures var run := events + [NavTransition(t, now)] + states;
            After(run + [NavTransition(t', now')]) == After(run)
  {
    var run := events + [NavTransition(t, now)] + states;
    KeyIsKept(events, t, now, states);
    assert (run + [NavTransition(t', now')])[..|run|] == run;
  }

  lemma {:induction false} KeyIsKept(events: seq<Event>, t: Transition, now: int, states: seq<Event>)
    requires OnlyStates(states)
    ensures After(events + [NavTransition(t, now)] + states).lastAppliedRouteKey == Some(t.toKey)
    decreases |states|
  {
    var run := events + [NavTransition(t, now)] + states;
    if states == [] {
      assert run[..|events|] == events;
    } else {
      KeyIsKept(events, t, now, states[..|states| - 1]);
      assert run[..|run| - 1] == events + [NavTransition(t, now)] + states[..|states| - 1];
    }
  }

  /** Whatever the session, `computeClusters` may rely on edges between known names. */
  lemma {:induction false} ClustersCanBeComputed(events: seq<Event>, names: seq<string>, links: seq<Link>)
    requires var graph := After(events);
             && (forall n | n in graph.nodes :: n in names)
             && (forall l | l in links :: exists id :: id in graph.edges && l == Link(graph.edges[id].from, graph.edges[id].to))
    ensures EndpointsAreNames(names, links)
  {
    SessionIsRecorded(events);
  }

  // ---- edge ids ----

  predicate HasArrow(s: string) {
    exists i :: 0 <= i < |s| - 1 && s[i] == '-' && s[i + 1] == '>'
  }

  /** Two pairs of which no source has an arrow share an id only if they are the same. */
  lemma {:induction false} EdgeIdsTellPairsApart(from: string, to: string, from': string, to': string)
    requires !HasArrow(from) && !HasArrow(from')
    ensures EdgeId(from, to) == EdgeId(from', to') <==> from == from' && to == to'
  {
    if EdgeId(from, to) == EdgeId(from', to') {
      if |from| < |from'| {
        LongerHasArrow(from, to, from', to');
      } else if |from'| < |from| {
        LongerHasArrow(from', to', from, to);
      } else {
        var id := EdgeId(from, to);
        assert from == id[..|from|] == from' && to == id[|from| + 2..] == to';
      }
    }
  }

  lemma {:induction false} LongerHasArrow(from: string, to: string, from': string, to': string)
    requires EdgeId(from, to) == EdgeId(from', to') && |from| < |from'|
    ensures HasArrow(from')
  {
    var k, id := |from|, EdgeId(from, to);
    assert id[k] == '-' && id[k + 1] == '>' && id[|from'|] == '-';
    assert k + 1 < |from'| && from'[k] == '-' && from'[k + 1] == '>';
  }

  /** The id belongs to this pair alone. */
  ghost predicate IdIsUnique(from: string, to: string) {
    forall f, t :: EdgeId(f, t) == EdgeId(from, to) ==> f == from && t == to
  }

  /** An edge id belongs to one pair of names exactly if neither of them has an arrow. */
  lemma {:induction false} IdIsUniqueExactly(from: string, to: string)
    ensures IdIsUnique(from, to) <==> !HasArrow(from) && !HasArrow(to)
  {
    hide EdgeId, HasArrow;
    if HasArrow(from) || HasArrow(to) {
      var f, t := OtherPair(from, to);
    } else {
      forall f, t | EdgeId(f, t) == EdgeId(from, to) ensures f == from && t == to
      {
        OnlyPair(from, to, f, t);
      }
    }
  }

  lemma {:induction false} OtherPair(from: string, to: string) returns (f: string, t: string)
    requires HasArrow(from) || HasArrow(to)
    ensures EdgeId(f, t) == EdgeId(from, to) && f != from
  {
    if HasArrow(from) {
      var i :| 0 <= i < |from| - 1 && from[i] == '-' && from[i + 1] == '>';
      f, t := from[..i], from[i + 2..] + "->" + to;
      assert from == from[..i] + "->" + from[i + 2..];
      assert EdgeId(f, t) == from[..i] + "->" + from[i + 2..] + "->" + to;
    } else {
      var i :| 0 <= i < |to| - 1 && to[i] == '-' && to[i + 1] == '>';
      f, t := from + "->" + to[..i], to[i + 2..];
      assert to == to[..i] + "->" + to[i + 2..];
      assert EdgeId(from, to) == from + "->" + (to[..i] + "->" + to[i + 2..]);
      assert EdgeId(f, t) == from + "->" + to[..i] + "->" + to[i + 2..];
    }
  }

  lemma {:induction false} OnlyPair(from: string, to: string, f: string, t: string)
    requires !HasArrow(from) && !HasArrow(to) && EdgeId(f, t) == EdgeId(from, to)
    ensures f == from && t == to
  {
    if |from| < |f| {
      ShorterHasArrow(f, t, from, to);
    } else {
      var id := EdgeId(from, to);
      if |f| < |from| {
        LongerHasArrow(f, t, from, to);
      }
      assert |f| == |from|;
      assert f == id[..|f|] == from && t == id[|f| + 2..] == to;
    }
  }

  lemma {:induction false} ShorterHasArrow(f: string, t: string, from: string, to: string)
    requires EdgeId(f, t) == EdgeId(from, to) && |from| < |f|
    ensures HasArrow(to) || HasArrow(from)
  {
    var id, k := EdgeId(from, to), |f|;
    assert id[k] == '-' && id[k + 1] == '>' && id[|from| + 1] == '>';
    var i := k - |from| - 2;
    assert i >= 0 && to[i] == id[k] && to[i + 1] == id[k + 1];
  }

  // ---- what an edge's count means ----

  /** How often exactly this link was followed. */
  function LinkFollowed(history: seq<TransitionEvent>, from: string, to: string): nat {
    if history == [] then 0
    else (if history[0].from == Some(from) && history[0].to == to then 1 else 0) + LinkFollowed(history[1..], from, to)
  }

  /** Over every session an edge's count is the number of times its link was followed,
      exactly if neither name has an arrow. */
  lemma {:induction false} CountsLinksExactly(from: string, to: string)
    ensures (forall events ::
               Counts(After(events))(EdgeId(from, to)) == LinkFollowed(History(events), from, to))
            <==> !HasArrow(from) && !HasArrow(to)
  {
    hide After, History, LinkFollowed, HasArrow, EdgeId, Followed;
    IdIsUniqueExactly(from, to);
    if !HasArrow(from) && !HasArrow(to) {
      forall events ensures Counts(After(events))(EdgeId(from, to)) == LinkFollowed(History(events), from, to)
      {
        SessionIsRecorded(events);
        assert Counts(After(events))(EdgeId(from, to)) == Followed(History(events), EdgeId(from, to));
        UniqueIsFollowed(History(events), from, to);
      }
    } else {
      var f, t := OtherPair(from, to);
      OneTransition(f, t);
      var events := [NavTransition(Transition(Some(f), "", t, None, None), 0)];
      assert LinkFollowed(History(events), from, to) == 0 by {
        OneEvent(f, t, from, to);
      }
      assert Counts(After(events))(EdgeId(from, to)) == 1;
    }
  }

  lemma {:induction false} UniqueIsFollowed(history: seq<TransitionEvent>, from: string, to: string)
    requires IdIsUnique(from, to)
    ensures Followed(history, EdgeId(from, to)) == LinkFollowed(history, from, to)
  {
    hide EdgeId;
    if history != [] {
      UniqueIsFollowed(history[1..], from, to);
    }
  }

  lemma {:induction false} OneTransition(f: string, t: string)
    ensures var events := [NavTransition(Transition(Some(f), "", t, None, None), 0)];
            && History(events) == [TransitionEvent(Some(f), t, None, 0)]
            && Counts(After(events))(EdgeId(f, t)) == 1
  {
    hide EdgeId;
    var events := [NavTransition(Transition(Some(f), "", t, None, None), 0)];
    assert events[..0] == [];
    assert After(events) == Applied(EMPTY, events[0]);
  }

  lemma {:induction false} OneEvent(f: string, t: string, from: string, to: string)
    requires f != from
    ensures LinkFollowed([TransitionEvent(Some(f), t, None, 0)], from, to) == 0
  {
    assert [TransitionEvent(Some(f), t, None, 0)][1..] == [];
  }

  /** A session in which two links share one edge: it is counted twice, and names the
      second only. */
  lemma {:induction false} ArrowsMixLinks()
    ensures var first := NavTransition(Transition(Some("a->b"), "1", "c", None, None), 0);
            var second := NavTransition(Transition(Some("a"), "2", "b->c", None, None), 1);
            var graph := After([first, second]);
            && graph.edges.Keys == {"a->b->c"}
            && graph.edges["a->b->c"] == Edge("a", "b->c", 2, 1, None)
  {
    var first := NavTransition(Transition(Some("a->b"), "1", "c", None, None), 0);
    var second := NavTransition(Transition(Some("a"), "2", "b->c", None, None), 1);
    assert EdgeId("a->b", "c") == "a->b->c" && EdgeId("a", "b->c") == "a->b->c";
    assert [first, second][..1] == [first] && [first][..0] == [];
    var one := After([first]);
    assert After([first]) == Applied(After([first][..0]), first) == Applied(EMPTY, first);
    assert one == TransitionApplied(EMPTY, first.transition, 0);
    assert one.edges == map["a->b->c" := Edge("a->b", "c", 1, 0, None)];
    assert !IsReplay(one, second.transition);
    assert After([first, second]) == TransitionApplied(one, second.transition, 1);
  }
}
