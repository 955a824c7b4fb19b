/** What the navigation graph says at the end of a session besides its counts: which screen
    is active, when each was seen and with what parameters, and how a link was last taken. */
module NavSession {
  import opened Pointer
  import opened NavGraph

  // ---- what a state tree tells ----

  /** Some route in the tree has this key and this name. */
  predicate HasKey(routes: seq<Route>, key: string, name: string) {
    exists i :: 0 <= i < |routes| && RouteHasKey(routes[i], key, name)
  }

  predicate RouteHasKey(route: Route, key: string, name: string) {
    (route.key == key && route.name == name)
    || (route.state.Some? && route.state.value.State? && HasKey(route.state.value.routes, key, name))
  }

  /** Some route in the tree gives the screen these parameters. */
  predicate Carries(routes: seq<Route>, name: string, params: Params) {
    exists i :: 0 <= i < |routes| && RouteCarries(routes[i], name, params)
  }

  predicate RouteCarries(route: Route, name: string, params: Params) {
    (route.name == name && route.params == Some(params))
    || (route.state.Some? && route.state.value.State? && Carries(route.state.value.routes, name, params))
  }

  ghost function NamesOf(state: State, key: string): iset<string> {
    iset name | state.State? && HasKey(state.routes, key, name)
  }

  ghost function AllParamsOf(state: State, name: string): iset<Params> {
    iset params | state.State? && Carries(state.routes, name, params)
  }

  /** The new value is one of those told, if there are any, and else the old one. */
  ghost predicate IsTold<T>(before: Option<T>, after: Option<T>, told: iset<T>) {
    (after == before && told == iset{}) || (after.Some? && after.value in told)
  }

  function ParamsOf(nodes: map<string, Node>, name: string): Option<Params> {
    if name in nodes then nodes[name].params else None
  }

  /** One part tells the value first and the other after it. */
  lemma {:induction false} ToldInTurn<T>(a: Option<T>, b: Option<T>, c: Option<T>, first: iset<T>, second: iset<T>)
    requires IsTold(a, b, first) && IsTold(b, c, second)
    ensures IsTold(a, c, first + second)
  {
  }

  lemma {:induction false} LastRoute(routes: seq<Route>, key: string, n: string)
    requires routes != []
    ensures var front, last := routes[..|routes| - 1], State([routes[|routes| - 1]]);
            && NamesOf(State(routes), key) == NamesOf(State(front), key) + NamesOf(last, key)
            && AllParamsOf(State(routes), n) == AllParamsOf(State(front), n) + AllParamsOf(last, n)
  {
    hide RouteHasKey, RouteCarries;
    var front, last := routes[..|routes| - 1], routes[|routes| - 1];
    forall name ensures HasKey(routes, key, name) <==> HasKey(front, key, name) || HasKey([last], key, name)
    {
      assert HasKey([last], key, name) <==> RouteHasKey(last, key, name) by { assert [last][0] == last; }
      if HasKey(front, key, name) {
        var i :| 0 <= i < |front| && RouteHasKey(front[i], key, name);
        assert RouteHasKey(routes[i], key, name);
      }
      if HasKey(routes, key, name) {
        var i :| 0 <= i < |routes| && RouteHasKey(routes[i], key, name);
        assert i < |front| ==> RouteHasKey(front[i], key, name);
      }
    }
    forall params ensures Carries(routes, n, params) <==> Carries(front, n, params) || Carries([last], n, params)
    {
      assert Carries([last], n, params) <==> RouteCarries(last, n, params) by { assert [last][0] == last; }
      if Carries(front, n, params) {
        var i :| 0 <= i < |front| && RouteCarries(front[i], n, params);
        assert RouteCarries(routes[i], n, params);
      }
      if Carries(routes, n, params) {
        var i :| 0 <= i < |routes| && RouteCarries(routes[i], n, params);
        assert i < |front| ==> RouteCarries(front[i], n, params);
      }
    }
  }

  /** A route's own key and parameters, and those of the navigator inside it. */
  lemma {:induction false} OneRoute(route: Route, key: string, n: string)
    ensures NamesOf(State([route]), key)
         == (if route.key == key then iset{route.name} else iset{})
            + (if route.state.Some? then NamesOf(route.state.value, key) else iset{})
    ensures AllParamsOf(State([route]), n)
         == (if route.name == n && route.params.Some? then iset{route.params.value} else iset{})
            + (if route.state.Some? then AllParamsOf(route.state.value, n) else iset{})
  {
    hide HasKey, Carries;
    forall name ensures HasKey([route], key, name) <==> RouteHasKey(route, key, name) { OneHasKey(route, key, name); }
    forall p ensures Carries([route], n, p) <==> RouteCarries(route, n, p) { OneCarries(route, n, p); }
  }

  lemma {:induction false} OneHasKey(route: Route, key: string, name: string)
    ensures HasKey([route], key, name) <==> RouteHasKey(route, key, name)
  {
    hide RouteHasKey;
    assert [route][0] == route;
  }

  lemma {:induction false} OneCarries(route: Route, name: string, params: Params)
    ensures Carries([route], name, params) <==> RouteCarries(route, name, params)
  {
    hide RouteCarries;
    assert [route][0] == route;
  }

  lemma {:induction false} StateTells(w: Walked, state: State, key: string, now: int, n: string)
    ensures var v := StateSeen(w, state, key, now);
            && IsTold(w.activeName, v.activeName, NamesOf(state, key))
            && IsTold(ParamsOf(w.nodes, n), ParamsOf(v.nodes, n), AllParamsOf(state, n))
            && (n in w.nodes ==> n in v.nodes && v.nodes[n].firstSeenAt == w.nodes[n].firstSeenAt)
            && (n in v.nodes && n !in w.nodes ==> v.nodes[n].firstSeenAt == now)
            && (n in v.nodes ==>
                  v.nodes[n].lastSeenAt == if state.State? && Shows(state.routes, n) then now
                                           else if n in w.nodes then w.nodes[n].lastSeenAt else now)
    decreases state, 0
  {
    hide IsTold, ParamsOf, HasKey, Carries, Shows;
    if state.State? {
      RoutesTell(w, state.routes, key, now, n);
      assert state == State(state.routes);
    } else {
      ToldNothing(w.activeName);
      ToldNothing(ParamsOf(w.nodes, n));
      assert NamesOf(state, key) == iset{} && AllParamsOf(state, n) == iset{};
    }
  }

  lemma {:induction false} ToldNothing<T>(x: Option<T>)
    ensures IsTold(x, x, iset{})
  {
  }

  lemma {:induction false} RoutesTell(w: Walked, routes: seq<Route>, key: string, now: int, n: string)
    ensures var v := RoutesSeen(w, routes, key, now);
            && IsTold(w.activeName, v.activeName, NamesOf(State(routes), key))
            && IsTold(ParamsOf(w.nodes, n), ParamsOf(v.nodes, n), AllParamsOf(State(routes), n))
            && (n in w.nodes ==> n in v.nodes && v.nodes[n].firstSeenAt == w.nodes[n].firstSeenAt)
            && (n in v.nodes && n !in w.nodes ==> v.nodes[n].firstSeenAt == now)
            && (n in v.nodes ==>
                  v.nodes[n].lastSeenAt == if Shows(routes, n) then now
                                           else if n in w.nodes then w.nodes[n].lastSeenAt else now)
    decreases routes, 1
  {
    if routes == [] {
      assert NamesOf(State(routes), key) == iset{} && AllParamsOf(State(routes), n) == iset{};
    } else {
      hide IsTold, NamesOf, AllParamsOf, Shows, ParamsOf, RouteSeen, RouteShows;
      var last := |routes| - 1;
      var before := RoutesSeen(w, routes[..last], key, now);
      RoutesTell(w, routes[..last], key, now, n);
      RouteTells(before, Previous(routes, last), routes[last], key, now, n);
      PrefixShows(routes, n);
      LastRoute(routes, key, n);
      var v := RoutesSeen(w, routes, key, now);
      ToldInTurn(w.activeName, before.activeName, v.activeName, NamesOf(State(routes[..last]), key),
                 NamesOf(State([routes[last]]), key));
      ToldInTurn(ParamsOf(w.nodes, n), ParamsOf(before.nodes, n), ParamsOf(v.nodes, n),
                 AllParamsOf(State(routes[..last]), n), AllParamsOf(State([routes[last]]), n));
    }
  }

  /** One route, with the navigator inside it. */
  lemma {:induction false} RouteTells(w: Walked, previous: Option<Route>, route: Route, key: string, now: int, n: string)
    ensures var seen := RouteSeen(w, previous, route, key, now);
            var v := if route.state.None? then seen else StateSeen(seen, route.state.value, key, now);
            && IsTold(w.activeName, v.activeName, NamesOf(State([route]), key))
            && IsTold(ParamsOf(w.nodes, n), ParamsOf(v.nodes, n), AllParamsOf(State([route]), n))
            && (n in w.nodes ==> n in v.nodes && v.nodes[n].firstSeenAt == w.nodes[n].firstSeenAt)
            && (n in v.nodes && n !in w.nodes ==> v.nodes[n].firstSeenAt == now)
            && (n in v.nodes ==>
                  v.nodes[n].lastSeenAt == if RouteShows(route, n) then now
                                           else if n in w.nodes then w.nodes[n].lastSeenAt else now)
    decreases route, 2
  {
    hide StateSeen, NamesOf, AllParamsOf, Shows, IsTold, ParamsOf, RouteSeen;
    var seen := RouteSeen(w, previous, route, key, now);
    OneRoute(route, key, n);
    RouteItselfTells(w, previous, route, key, now, n);
    var own := if route.key == key then iset{route.name} else iset{};
    var ownParams := if route.name == n && route.params.Some? then iset{route.params.value} else iset{};
    if route.state.Some? {
      var inner := route.state.value;
      StateTells(seen, inner, key, now, n);
      var v := StateSeen(seen, inner, key, now);
      ToldInTurn(w.activeName, seen.activeName, v.activeName, own, NamesOf(inner, key));
      ToldInTurn(ParamsOf(w.nodes, n), ParamsOf(seen.nodes, n), ParamsOf(v.nodes, n), ownParams, AllParamsOf(inner, n));
    } else {
      assert own + iset{} == own && ownParams + iset{} == ownParams;
    }
  }

  lemma {:induction false} RouteItselfTells(w: Walked, previous: Option<Route>, route: Route, key: string, now: int, n: string)
    ensures var seen := RouteSeen(w, previous, route, key, now);
            && IsTold(w.activeName, seen.activeName, if route.key == key then iset{route.name} else iset{})
            && IsTold(ParamsOf(w.nodes, n), ParamsOf(seen.nodes, n),
                      if route.name == n && route.params.Some? then iset{route.params.value} else iset{})
            && (n in w.nodes ==> n in seen.nodes && seen.nodes[n].firstSeenAt == w.nodes[n].firstSeenAt)
            && (n in seen.nodes && n !in w.nodes ==> route.name == n && seen.nodes[n].firstSeenAt == now)
            && (n in seen.nodes ==>
                  seen.nodes[n].lastSeenAt == if route.name == n then now else w.nodes[n].lastSeenAt)
            && (n in w.nodes || route.name == n ==> n in seen.nodes)
  {
  }

  // ---- what an event tells ----

  /** The key of the session's last transition. */
  function LastKey(events: seq<Event>): Option<string> {
    if events == [] then None
    else
      var e := events[|events| - 1];
      if e.NavTransition? then Some(e.transition.toKey) else LastKey(events[..|events| - 1])
  }

  /** Exactly the keyed transitions that repeat the key of the one before are ignored. */
  lemma {:induction false} IgnoredExactly(events: seq<Event>, t: Transition, now: int)
    ensures After(events).lastAppliedRouteKey == LastKey(events)
    ensures History(events + [NavTransition(t, now)])
         == if t.toKey != "" && LastKey(events) == Some(t.toKey) then History(events)
            else [TransitionEvent(t.from, t.toName, t.action, now)] + History(events)
  {
    assert (events + [NavTransition(t, now)])[..|events|] == events;
    if events != [] {
      var e := events[|events| - 1];
      IgnoredExactly(events[..|events| - 1], t, now);
    }
  }

  /** The event counts as a visit: a transition that is not ignored. */
  predicate Moves(before: seq<Event>, e: Event) {
    e.NavTransition? && !(e.transition.toKey != "" && LastKey(before) == Some(e.transition.toKey))
  }

  /** The screens that the event calls active, one of them last. */
  ghost function ActivatedBy(before: seq<Event>, e: Event): iset<string> {
    match e
    case NavState(state, key, _) => NamesOf(state, key)
    case NavTransition(t, _) => if Moves(before, e) then iset{t.toName} else iset{}
  }

  ghost function GivenBy(before: seq<Event>, e: Event, name: string): iset<Params> {
    match e
    case NavState(state, _, _) => AllParamsOf(state, name)
    case NavTransition(t, _) =>
      if Moves(before, e) && t.toName == name && t.params.Some? then iset{t.params.value} else iset{}
  }

  predicate Mentions(before: seq<Event>, e: Event, name: string) {
    match e
    case NavState(state, _, _) => state.State? && Shows(state.routes, name)
    case NavTransition(t, _) => Moves(before, e) && (t.toName == name || t.from == Some(name))
  }

  lemma {:induction false} EventTells(before: seq<Event>, e: Event, n: string)
    ensures var g, h := After(before), Applied(After(before), e);
            && IsTold(g.activeName, h.activeName, ActivatedBy(before, e))
            && IsTold(ParamsOf(g.nodes, n), ParamsOf(h.nodes, n), GivenBy(before, e, n))
            && (n in h.nodes <==> n in g.nodes || Mentions(before, e, n))
            && (n in h.nodes ==>
                  && h.nodes[n].firstSeenAt == (if n in g.nodes then g.nodes[n].firstSeenAt else e.now)
                  && h.nodes[n].lastSeenAt == (if Mentions(before, e, n) then e.now else g.nodes[n].lastSeenAt))
  {
    if e.NavState? {
      hide After, StateSeen, NamesOf, AllParamsOf, Shows, IsTold, ParamsOf;
      StateEventTells(After(before), e, n);
    } else {
      TransitionTells(before, e, n);
    }
  }

  lemma {:induction false} StateEventTells(g: Graph, e: Event, n: string)
    requires e.NavState?
    ensures var h := Applied(g, e);
            && IsTold(g.activeName, h.activeName, NamesOf(e.state, e.activeKey))
            && IsTold(ParamsOf(g.nodes, n), ParamsOf(h.nodes, n), AllParamsOf(e.state, n))
            && (n in h.nodes <==> n in g.nodes || (e.state.State? && Shows(e.state.routes, n)))
            && (n in h.nodes ==>
                  && h.nodes[n].firstSeenAt == (if n in g.nodes then g.nodes[n].firstSeenAt else e.now)
                  && h.nodes[n].lastSeenAt == (if e.state.State? && Shows(e.state.routes, n) then e.now
                                               else g.nodes[n].lastSeenAt))
  {
    hide StateSeen, NamesOf, AllParamsOf, Shows;
    var w := Walked(g.nodes, g.edges, None);
    StateTells(w, e.state, e.activeKey, e.now, n);
    StateAddsItsTree(w, e.state, e.activeKey, e.now, n);
  }

  lemma {:induction false} TransitionTells(before: seq<Event>, e: Event, n: string)
    requires e.NavTransition?
    ensures var g, h := After(before), Applied(After(before), e);
            && IsTold(g.activeName, h.activeName, ActivatedBy(before, e))
            && IsTold(ParamsOf(g.nodes, n), ParamsOf(h.nodes, n), GivenBy(before, e, n))
            && (n in h.nodes <==> n in g.nodes || Mentions(before, e, n))
            && (n in h.nodes ==>
                  && h.nodes[n].firstSeenAt == (if n in g.nodes then g.nodes[n].firstSeenAt else e.now)
                  && h.nodes[n].lastSeenAt == (if Mentions(before, e, n) then e.now else g.nodes[n].lastSeenAt))
  {
    hide After, UpsertNode, History;
    var g, t := After(before), e.transition;
    IgnoredExactly(before, t, e.now);
    if Moves(before, e) {
      MoveTells(g, t, e.now, n);
    } else {
      ReplayChangesNothing(g, t, e.now);
    }
  }

  lemma {:induction false} MoveTells(g: Graph, t: Transition, now: int, n: string)
    requires !IsReplay(g, t)
    ensures var h := TransitionApplied(g, t, now);
            && h.activeName == Some(t.toName)
            && ParamsOf(h.nodes, n) == (if t.toName == n && t.params.Some? then t.params else ParamsOf(g.nodes, n))
            && (n in h.nodes <==> n in g.nodes || t.toName == n || t.from == Some(n))
            && (n in h.nodes ==>
                  && h.nodes[n].firstSeenAt == (if n in g.nodes then g.nodes[n].firstSeenAt else now)
                  && h.nodes[n].lastSeenAt == (if t.toName == n || t.from == Some(n) then now else g.nodes[n].lastSeenAt))
  {
    hide UpsertNode, EdgeId;
    var landed := UpsertNode(g.nodes, t.toName, t.params, now, true);
    NodeUpserted(g.nodes, t.toName, t.params, now, true, n);
    if t.from.Some? {
      NodeUpserted(landed, t.from.value, None, now, false, n);
    }
  }

  lemma {:induction false} NodeUpserted(nodes: map<string, Node>, name: string, params: Option<Params>, now: int,
                                        visit: bool, n: string)
    ensures var after := UpsertNode(nodes, name, params, now, visit);
            && ParamsOf(after, n) == (if name == n && params.Some? then params else ParamsOf(nodes, n))
            && (n in after <==> n in nodes || name == n)
            && (n in after ==>
                  && after[n].firstSeenAt == (if n in nodes then nodes[n].firstSeenAt else now)
                  && after[n].lastSeenAt == (if name == n then now else nodes[n].lastSeenAt))
  {
  }

  // ---- the session ----

  /** The `i`-th event is the last that tells anything of the kind, and tells this. */
  ghost predicate LastTold<T>(events: seq<Event>, i: nat, x: T, told: (seq<Event>, Event) -> iset<T>) {
    && i < |events| && x in told(events[..i], events[i])
    && forall j | i < j < |events| :: told(events[..j], events[j]) == iset{}
  }

  /** The value is what was told last, if anything was. */
  ghost predicate IsLatest<T>(events: seq<Event>, value: Option<T>, told: (seq<Event>, Event) -> iset<T>) {
    match value
    case None => forall j | 0 <= j < |events| :: told(events[..j], events[j]) == iset{}
    case Some(x) => exists i :: LastTold(events, i, x, told)
  }

  lemma {:induction false} LatestStep<T>(events: seq<Event>, old_: Option<T>, new_: Option<T>,
                                         told: (seq<Event>, Event) -> iset<T>)
    requires events != []
    requires IsLatest(events[..|events| - 1], old_, told)
    requires IsTold(old_, new_, told(events[..|events| - 1], events[|events| - 1]))
    ensures IsLatest(events, new_, told)
  {
    var last := |events| - 1;
    var front := events[..last];
    assert forall j | 0 <= j < last :: front[..j] == events[..j] && front[j] == events[j];
    if new_.Some? && new_.value in told(front, events[last]) {
      assert LastTold(events, last, new_.value, told);
    } else if new_.Some? {
      var i: nat :| LastTold(front, i, new_.value, told);
      assert LastTold(events, i, new_.value, told);
    }
  }

  lemma {:induction false} NothingYet<T>(told: (seq<Event>, Event) -> iset<T>)
    ensures IsLatest([], None, told)
    ensures After([]) == EMPTY
  {
  }

  /** After every session the active screen is the one that was told last: the target of a
      transition, or the screen of the active route in a state tree. */
  lemma {:induction false} ActiveIsLatest(events: seq<Event>)
    ensures IsLatest(events, After(events).activeName, ActivatedBy)
  {
    hide IsLatest, IsTold, ActivatedBy, Applied;
    if events == [] {
      NothingYet(ActivatedBy);
    } else {
      var front, e := events[..|events| - 1], events[|events| - 1];
      ActiveIsLatest(front);
      EventTells(front, e, "");
      LatestStep(events, After(front).activeName, After(events).activeName, ActivatedBy);
    }
  }

  /** A screen's parameters are those it was given last. */
  lemma {:induction false} ParamsAreLatest(events: seq<Event>, n: string)
    ensures IsLatest(events, ParamsOf(After(events).nodes, n), (before, e) => GivenBy(before, e, n))
  {
    hide IsLatest, IsTold, GivenBy, Applied;
    var given := (before, e) => GivenBy(before, e, n);
    if events == [] {
      NothingYet(given);
    } else {
      var front, e := events[..|events| - 1], events[|events| - 1];
      ParamsAreLatest(front, n);
      EventTells(front, e, n);
      LatestStep(events, ParamsOf(After(front).nodes, n), ParamsOf(After(events).nodes, n), given);
    }
  }

  predicate MentionedAt(events: seq<Event>, i: nat, n: string) {
    i < |events| && Mentions(events[..i], events[i], n)
  }

  /** A screen is known exactly if some event has mentioned it, and its times are those of
      the first and the last that did. */
  lemma {:induction false} SeenAtItsTimes(events: seq<Event>, n: string) returns (first: nat, last: nat)
    ensures n in After(events).nodes <==> exists i: nat :: MentionedAt(events, i, n)
    ensures n in After(events).nodes ==>
              && MentionedAt(events, first, n) && (forall j: nat | j < first :: !MentionedAt(events, j, n))
              && MentionedAt(events, last, n) && (forall j: nat | j > last :: !MentionedAt(events, j, n))
              && After(events).nodes[n].firstSeenAt == events[first].now
              && After(events).nodes[n].lastSeenAt == events[last].now
  {
    hide Mentions, Applied;
    first, last := 0, 0;
    if events == [] {
      NothingYet(ActivatedBy);
    } else {
      var end := |events| - 1;
      var front, e := events[..end], events[end];
      var f, l := SeenAtItsTimes(front, n);
      EventTells(front, e, n);
      forall j: nat | j < end ensures MentionedAt(events, j, n) <==> MentionedAt(front, j, n)
      {
        assert front[..j] == events[..j] && front[j] == events[j];
      }
      assert MentionedAt(events, end, n) <==> Mentions(front, e, n);
      first := if n in After(front).nodes then f else end;
      last := if Mentions(front, e, n) then end else l;
    }
  }

  // ---- the last time a link was taken ----

  /** The latest of the transitions along the link. */
  ghost predicate LatestAlong(history: seq<TransitionEvent>, i: nat, id: string) {
    i < |history| && Follows(history[i], id) && forall j | 0 <= j < i :: !Follows(history[j], id)
  }

  /** Of every counted link the graph has the ends, time and action of the latest transition
      along it. */
  lemma {:induction false} LinkTellsLatest(events: seq<Event>, id: string) returns (i: nat)
    ensures var g, history := After(events), History(events);
            id in g.edges && g.edges[id].count > 0 ==>
              && LatestAlong(history, i, id)
              && g.edges[id].from == history[i].from.value && g.edges[id].to == history[i].to
              && g.edges[id].lastAt == history[i].ts && g.edges[id].action == history[i].action
  {
    i := 0;
    if events != [] {
      hide LatestAlong;
      var front, e := events[..|events| - 1], events[|events| - 1];
      i := LinkTellsLatest(front, id);
      if e.NavState? {
        var g := After(front);
        SessionIsRecorded(front);
        StateOnlyGrows(Walked(g.nodes, g.edges, None), e.state, e.activeKey, e.now);
      } else if !IsReplay(After(front), e.transition) {
        var t := e.transition;
        LatestInLonger(TransitionEvent(t.from, t.toName, t.action, e.now), History(front), i, id);
        i := if Follows(TransitionEvent(t.from, t.toName, t.action, e.now), id) then 0 else i + 1;
      }
    }
  }

  lemma {:induction false} LatestInLonger(event: TransitionEvent, history: seq<TransitionEvent>, i: nat, id: string)
    ensures Follows(event, id) ==> LatestAlong([event] + history, 0, id)
    ensures !Follows(event, id) && LatestAlong(history, i, id) ==>
              LatestAlong([event] + history, i + 1, id) && ([event] + history)[i + 1] == history[i]
  {
  }

  lemma {:induction false} StateDrawsLinks(w: Walked, state: State, key: string, now: int, id: string)
    ensures var v := StateSeen(w, state, key, now);
            && (id in w.edges ==> id in v.edges && v.edges[id] == w.edges[id])
            && (id in v.edges && id !in w.edges ==>
                  v.edges[id].count == 0 && v.edges[id].lastAt == now && v.edges[id].action == None)
    decreases state, 0
  {
    if state.State? {
      RoutesDrawLinks(w, state.routes, key, now, id);
    }
  }

  lemma {:induction false} RoutesDrawLinks(w: Walked, routes: seq<Route>, key: string, now: int, id: string)
    ensures var v := RoutesSeen(w, routes, key, now);
            && (id in w.edges ==> id in v.edges && v.edges[id] == w.edges[id])
            && (id in v.edges && id !in w.edges ==>
                  v.edges[id].count == 0 && v.edges[id].lastAt == now && v.edges[id].action == None)
    decreases routes, 1
  {
    hide UpsertNode, EdgeId;
    if routes != [] {
      var last := |routes| - 1;
      RoutesDrawLinks(w, routes[..last], key, now, id);
      var before := RoutesSeen(w, routes[..last], key, now);
      var seen := RouteSeen(before, Previous(routes, last), routes[last], key, now);
      if routes[last].state.Some? {
        StateDrawsLinks(seen, routes[last].state.value, key, now, id);
      }
    }
  }

  /** A link that was never taken has the time of the state tree that drew it. */
  lemma {:induction false} DrawnLinkIsTimed(events: seq<Event>, id: string) returns (i: nat)
    ensures id in After(events).edges && After(events).edges[id].count == 0 ==>
              && i < |events| && events[i].NavState? && events[i].state.State? && Joins(events[i].state.routes, id)
              && After(events).edges[id].lastAt == events[i].now && After(events).edges[id].action == None
  {
    i := 0;
    if events != [] {
      hide Joins, StateSeen, UpsertNode;
      var last := |events| - 1;
      var front, e := events[..last], events[last];
      var g := After(front);
      i := DrawnLinkIsTimed(front, id);
      if e.NavState? && id !in g.edges {
        i := last;
        StateDrawsLinks(Walked(g.nodes, g.edges, None), e.state, e.activeKey, e.now, id);
        StateAddsItsTree(Walked(g.nodes, g.edges, None), e.state, e.activeKey, e.now, id);
      } else if e.NavState? {
        StateDrawsLinks(Walked(g.nodes, g.edges, None), e.state, e.activeKey, e.now, id);
      }
    }
  }

  /** The link of the latest transition that came from somewhere. */
  function LatestLink(history: seq<TransitionEvent>): Option<string> {
    if history == [] then None
    else if history[0].from.Some? then Some(EdgeId(history[0].from.value, history[0].to))
    else LatestLink(history[1..])
  }

  lemma {:induction false} LastIsLatest(events: seq<Event>)
    ensures var g, history := After(events), History(events);
            && g.lastTransitionAt == (if history == [] then None else Some(history[0].ts))
            && g.lastEdgeId == LatestLink(history)
  {
    if events != [] {
      hide StateSeen, UpsertNode, EdgeId;
      var front, e := events[..|events| - 1], events[|events| - 1];
      LastIsLatest(front);
      if e.NavTransition? && !IsReplay(After(front), e.transition) {
        assert History(events)[1..] == History(front);
      }
    }
  }
}
