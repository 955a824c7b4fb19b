/** The desktop's WebSocket server: an accept loop that counts connections, one task per
    connection, and the registry that all of them share. Tasks interleave between any two
    accesses to the counter or the registry. */
module WsServer {
  import opened Pointer
  import opened Registry
  import RegistryRuns

  const MAX_CONCURRENT_CONNECTIONS := 64

  /** A connection is known by its sender. `Recording`: a frame is on its way to the
      registry. `Unregistering` and `Marking`: the two parts of the cleanup. */
  datatype Phase = Handshake | Reading | Recording(envelope: Envelope) | Unregistering | Marking | Ended

  datatype Task = Task(phase: Phase, currentAppId: Option<string>)

  datatype Entry = Entry(connection: Sender, envelope: Envelope)

  /** `admitting`: the accept loop has found room and not yet counted the connection.
      The rest records the past: `latest`, who registered last for an app; `bindings`, the
      app that a connection announced first; `recorded`, what went to the registry from
      whom; `history`, all that happened to the registry. */
  datatype System = System(
    registry: State,
    tasks: map<Sender, Task>,
    active: nat,
    admitting: bool,
    next: Sender,
    latest: map<string, Sender>,
    bindings: map<Sender, string>,
    recorded: seq<Entry>,
    history: seq<RegistryRuns.Event>)

  const START := System(EMPTY, map[], 0, false, 0, map[], map[], [], [])

  datatype Event =
    | Accepts
    | Spawns
    | HandshakeFails(c: Sender)
    | HandshakeSucceeds(c: Sender)
    | FrameArrives(c: Sender, envelope: Envelope)
    | FrameRecorded(c: Sender, now: int)
    | StreamEnds(c: Sender)
    | SenderDropped(c: Sender)
    | AppMarked(c: Sender)
    | TaskEnds(c: Sender)
    | AppForgotten(appId: string)
    | AppSwept(appId: string)

  predicate InPhase(s: System, c: Sender, phase: Phase) {
    c in s.tasks && s.tasks[c].phase == phase
  }

  predicate Enabled(s: System, e: Event) {
    match e
    case Accepts => !s.admitting
    case Spawns => s.admitting
    case HandshakeFails(c) => InPhase(s, c, Handshake)
    case HandshakeSucceeds(c) => InPhase(s, c, Handshake)
    case FrameArrives(c, _) => InPhase(s, c, Reading)
    case FrameRecorded(c, _) => c in s.tasks && s.tasks[c].phase.Recording?
    case StreamEnds(c) => InPhase(s, c, Reading)
    case SenderDropped(c) => InPhase(s, c, Unregistering) && s.tasks[c].currentAppId.Some?
    case AppMarked(c) => InPhase(s, c, Marking) && s.tasks[c].currentAppId.Some?
    case TaskEnds(c) => InPhase(s, c, Ended)
    case _ => true
  }

  function AtPhase(s: System, c: Sender, phase: Phase): System
    requires c in s.tasks
  {
    s.(tasks := s.tasks[c := s.tasks[c].(phase := phase)])
  }

  /** What happens to the registry also enters the history. */
  function OnRegistry(s: System, e: RegistryRuns.Event): System {
    s.(registry := RegistryRuns.Step(s.registry, e), history := s.history + [e])
  }

  /** The first frame binds the connection; frames under another id are dropped. */
  function Framed(s: System, c: Sender, e: Envelope): System
    requires c in s.tasks
  {
    var bound := s.tasks[c].currentAppId;
    if bound.None? then
      OnRegistry(s.(tasks := s.tasks[c := Task(Recording(e), Some(e.appId))],
                    latest := s.latest[e.appId := c], bindings := s.bindings[c := e.appId]),
                 RegistryRuns.Registers(e.appId, c))
    else if bound.value != e.appId then s
    else AtPhase(s, c, Recording(e))
  }

  function Step(s: System, e: Event): System
    requires Enabled(s, e)
  {
    match e
    case Accepts => s.(admitting := s.active < MAX_CONCURRENT_CONNECTIONS)
    case Spawns =>
      s.(admitting := false, active := s.active + 1, next := s.next + 1,
         tasks := s.tasks[s.next := Task(Handshake, None)])
    case HandshakeFails(c) => AtPhase(s, c, Ended)
    case HandshakeSucceeds(c) => AtPhase(s, c, Reading)
    case FrameArrives(c, envelope) => Framed(s, c, envelope)
    case FrameRecorded(c, now) =>
      var envelope := s.tasks[c].phase.envelope;
      OnRegistry(AtPhase(s, c, Reading).(recorded := s.recorded + [Entry(c, envelope)]),
                 RegistryRuns.Records(envelope, now))
    case StreamEnds(c) => AtPhase(s, c, if s.tasks[c].currentAppId.None? then Ended else Unregistering)
    case SenderDropped(c) =>
      OnRegistry(AtPhase(s, c, Marking), RegistryRuns.Unregisters(s.tasks[c].currentAppId.value, c))
    case AppMarked(c) => OnRegistry(AtPhase(s, c, Ended), RegistryRuns.Disconnects(s.tasks[c].currentAppId.value))
    case TaskEnds(c) => s.(tasks := s.tasks - {c}, active := if s.active > 0 then s.active - 1 else 0)
    case AppForgotten(appId) => OnRegistry(s, RegistryRuns.Forgets(appId))
    case AppSwept(appId) => OnRegistry(s, RegistryRuns.Disconnects(appId))
  }

  function Reached(events: seq<Event>): Option<System> {
    if events == [] then Some(START)
    else
      var before, e := Reached(events[..|events| - 1]), events[|events| - 1];
      if before.Some? && Enabled(before.value, e) then Some(Step(before.value, e)) else None
  }

  // ---- the counter ----

  ghost predicate Counted(s: System) {
    && s.active == |s.tasks|
    && s.active <= MAX_CONCURRENT_CONNECTIONS
    && (s.admitting ==> s.active < MAX_CONCURRENT_CONNECTIONS)
    && forall c | c in s.tasks :: c < s.next
  }

  lemma {:induction false} SameTaskCount(m: map<Sender, Task>, n: map<Sender, Task>)
    requires m.Keys == n.Keys
    ensures |m| == |n|
  {
    assert |m.Keys| == |n.Keys|;
  }

  lemma {:induction false} StepKeepsTasks(s: System, e: Event)
    requires Enabled(s, e) && !e.Spawns? && !e.TaskEnds?
    ensures var t := Step(s, e);
            && t.tasks.Keys == s.tasks.Keys && t.active == s.active && t.next == s.next
            && (t.admitting == s.admitting || e == Accepts)
  {
    hide RegistryRuns.Step;
  }

  lemma {:induction false} OneMoreTask(m: map<Sender, Task>, c: Sender, task: Task)
    requires c !in m
    ensures |m[c := task]| == |m| + 1
  {
    assert m[c := task].Keys == m.Keys + {c};
    assert |m.Keys + {c}| == |m.Keys| + 1;
  }

  lemma {:induction false} SpawningKeepsCount(s: System)
    requires Counted(s) && Enabled(s, Spawns)
    ensures Counted(Step(s, Spawns))
  {
    hide AtPhase, OnRegistry, Framed, RegistryRuns.Step;
    assert s.next !in s.tasks;
    OneMoreTask(s.tasks, s.next, Task(Handshake, None));
  }

  lemma {:induction false} EndingKeepsCount(s: System, c: Sender)
    requires Counted(s) && Enabled(s, TaskEnds(c))
    ensures Counted(Step(s, TaskEnds(c)))
  {
    var t := Step(s, TaskEnds(c));
    assert t.tasks.Keys == s.tasks.Keys - {c};
    assert |t.tasks.Keys| == |s.tasks.Keys| - 1;
  }

  lemma {:induction false} StepKeepsCount(s: System, e: Event)
    requires Counted(s) && Enabled(s, e)
    ensures Counted(Step(s, e))
  {
    hide Step, Enabled;
    if e.Spawns? {
      SpawningKeepsCount(s);
    } else if e.TaskEnds? {
      EndingKeepsCount(s, e.c);
    } else {
      StepKeepsTasks(s, e);
      AcceptingChecks(s);
      SameTaskCount(s.tasks, Step(s, e).tasks);
    }
  }

  lemma {:induction false} AcceptingChecks(s: System)
    ensures Enabled(s, Accepts) ==> Step(s, Accepts).admitting == (s.active < MAX_CONCURRENT_CONNECTIONS)
  {
  }

  // ---- the senders ----

  /** The connection has announced the app and has not been through its cleanup. */
  predicate Bound(s: System, c: Sender, appId: string) {
    c in s.tasks && s.tasks[c].currentAppId == Some(appId)
    && (s.tasks[c].phase.Reading? || s.tasks[c].phase.Recording? || s.tasks[c].phase.Unregistering?)
  }

  /** An app's sender is that of the connection which registered last for it, as long as
      that one has not been cleaned up. */
  ghost predicate SendersAreLatest(s: System) {
    && (forall a | a in s.registry.senders :: a in s.latest && s.registry.senders[a] == s.latest[a])
    && (forall a | a in s.latest :: a in s.registry.senders <==> Bound(s, s.latest[a], a))
  }

  /** A task knows the app that its connection announced first. */
  ghost predicate TasksAreBound(s: System) {
    && (forall c | c in s.tasks ::
          && c < s.next
          && s.tasks[c].currentAppId == (if c in s.bindings then Some(s.bindings[c]) else None)
          && (s.tasks[c].phase.Handshake? ==> s.tasks[c].currentAppId.None?)
          && (s.tasks[c].phase.Recording? ==> s.tasks[c].currentAppId == Some(s.tasks[c].phase.envelope.appId)))
    && forall c | c in s.bindings :: c < s.next
  }

  ghost predicate PastIsBound(s: System) {
    && (forall a | a in s.latest :: s.latest[a] < s.next && s.latest[a] in s.bindings && s.bindings[s.latest[a]] == a)
    && (forall i | 0 <= i < |s.recorded| ::
          s.recorded[i].connection in s.bindings
          && s.recorded[i].envelope.appId == s.bindings[s.recorded[i].connection])
  }

  ghost predicate BindingsHold(s: System) {
    TasksAreBound(s) && PastIsBound(s)
  }

  ghost predicate HistoryHolds(s: System) {
    s.registry == RegistryRuns.After(s.history)
  }

  lemma {:induction false} StepKeepsTasksBound(s: System, e: Event)
    requires TasksAreBound(s) && Enabled(s, e)
    ensures TasksAreBound(Step(s, e))
  {
    hide RegistryRuns.Step, OnRegistry, TasksAreBound;
    if e.FrameArrives? && s.tasks[e.c].currentAppId.None? {
      FirstFrameKeepsTasksBound(s, e.c, e.envelope);
    } else {
      OtherKeepsTasksBound(s, e);
    }
  }

  lemma {:induction false} FirstFrameKeepsTasksBound(s: System, c: Sender, e: Envelope)
    requires TasksAreBound(s) && Enabled(s, FrameArrives(c, e)) && s.tasks[c].currentAppId.None?
    ensures TasksAreBound(Step(s, FrameArrives(c, e)))
  {
    hide RegistryRuns.Step;
  }

  lemma {:induction false} OtherKeepsTasksBound(s: System, e: Event)
    requires TasksAreBound(s) && Enabled(s, e) && !(e.FrameArrives? && s.tasks[e.c].currentAppId.None?)
    ensures TasksAreBound(Step(s, e))
  {
    hide RegistryRuns.Step;
  }

  lemma {:induction false} BindingsAfterStep(s: System, e: Event)
    requires TasksAreBound(s) && Enabled(s, e)
    ensures Step(s, e).bindings ==
            if e.FrameArrives? && s.tasks[e.c].currentAppId.None? then s.bindings[e.c := e.envelope.appId] else s.bindings
    ensures Step(s, e).recorded ==
            if e.FrameRecorded? then s.recorded + [Entry(e.c, s.tasks[e.c].phase.envelope)] else s.recorded
    ensures Step(s, e).next >= s.next
    ensures e.FrameArrives? && s.tasks[e.c].currentAppId.None? ==> e.c !in s.bindings && e.c < s.next
    ensures e.FrameRecorded? ==> e.c in s.bindings && s.bindings[e.c] == s.tasks[e.c].phase.envelope.appId
  {
    hide RegistryRuns.Step;
  }

  lemma {:induction false} StepKeepsBindings(s: System, e: Event)
    requires BindingsHold(s) && Enabled(s, e)
    ensures BindingsHold(Step(s, e))
    ensures forall c | c in s.bindings :: c in Step(s, e).bindings && Step(s, e).bindings[c] == s.bindings[c]
  {
    hide Step, Enabled, TasksAreBound;
    StepKeepsTasksBound(s, e);
    BindingsAfterStep(s, e);
    LatestAfterStep(s, e);
  }

  /** What the registry's operations do to the senders. */
  lemma {:induction false} SendersChange(s: State, e: RegistryRuns.Event)
    requires RegistryRuns.Capped(s)
    ensures RegistryRuns.Step(s, e).senders ==
            match e
            case Registers(appId, tx) => s.senders[appId := tx]
            case Unregisters(appId, tx) =>
              if appId in s.senders && s.senders[appId] == tx then s.senders - {appId} else s.senders
            case _ => s.senders
  {
    if e.Records? {
      hide AppRecorded, MessageRecorded;
      RegistryRuns.AppRecordedIsCapped(s, e.envelope, e.now);
      RegistryRuns.MessageRecordedIsCapped(AppRecorded(s, e.envelope, e.now), e.envelope);
    }
  }

  lemma {:induction false} SendersAfterStep(s: System, e: Event)
    requires Enabled(s, e) && RegistryRuns.Capped(s.registry)
    ensures var after := Step(s, e).registry.senders; var senders := s.registry.senders;
            if e.FrameArrives? && s.tasks[e.c].currentAppId.None? then after == senders[e.envelope.appId := e.c]
            else if e.SenderDropped? then
              var a := s.tasks[e.c].currentAppId.value;
              after == if a in senders && senders[a] == e.c then senders - {a} else senders
            else after == senders
  {
    hide RegistryRuns.Step, RegistryRuns.Capped;
    match e
    case FrameArrives(c, envelope) => SendersChange(s.registry, RegistryRuns.Registers(envelope.appId, c));
    case FrameRecorded(c, now) => SendersChange(s.registry, RegistryRuns.Records(s.tasks[c].phase.envelope, now));
    case SenderDropped(c) =>
      SendersChange(s.registry, RegistryRuns.Unregisters(s.tasks[c].currentAppId.value, c));
    case AppMarked(c) => SendersChange(s.registry, RegistryRuns.Disconnects(s.tasks[c].currentAppId.value));
    case AppForgotten(appId) => SendersChange(s.registry, RegistryRuns.Forgets(appId));
    case AppSwept(appId) => SendersChange(s.registry, RegistryRuns.Disconnects(appId));
    case _ =>
  }

  lemma {:induction false} BoundAfterStep(s: System, e: Event, c: Sender, a: string)
    requires Enabled(s, e) && BindingsHold(s)
    ensures Bound(Step(s, e), c, a) <==>
            || (Bound(s, c, a) && !(e.SenderDropped? && e.c == c))
            || (e.FrameArrives? && e.c == c && s.tasks[c].currentAppId.None? && e.envelope.appId == a)
  {
    hide RegistryRuns.Step;
  }

  lemma {:induction false} StepKeepsSenders(s: System, e: Event)
    requires SendersAreLatest(s) && BindingsHold(s) && Enabled(s, e) && RegistryRuns.Capped(s.registry)
    ensures SendersAreLatest(Step(s, e))
  {
    hide RegistryRuns.Step, RegistryRuns.Capped, Bound, BindingsHold;
    var t := Step(s, e);
    SendersAfterStep(s, e);
    LatestAfterStep(s, e);
    forall a | a in t.latest ensures a in t.registry.senders <==> Bound(t, t.latest[a], a)
    {
      BoundAfterStep(s, e, t.latest[a], a);
      if e.SenderDropped? && e.c == t.latest[a] {
        DroppedIsBound(s, e.c, a);
      }
    }
  }

  lemma {:induction false} LatestAfterStep(s: System, e: Event)
    requires Enabled(s, e)
    ensures Step(s, e).latest ==
            if e.FrameArrives? && s.tasks[e.c].currentAppId.None? then s.latest[e.envelope.appId := e.c] else s.latest
  {
    hide RegistryRuns.Step;
  }

  lemma {:induction false} DroppedIsBound(s: System, c: Sender, a: string)
    requires BindingsHold(s) && InPhase(s, c, Unregistering) && a in s.latest && s.latest[a] == c
    ensures s.tasks[c].currentAppId == Some(a) && Bound(s, c, a)
  {
  }

  lemma {:induction false} StepKeepsHistory(s: System, e: Event)
    requires HistoryHolds(s) && Enabled(s, e)
    ensures HistoryHolds(Step(s, e))
  {
    hide RegistryRuns.Step;
    var t := Step(s, e);
    assert t.history != s.history ==> t.history[..|s.history|] == s.history;
  }

  ghost predicate Invariant(s: System) {
    Counted(s) && SendersAreLatest(s) && BindingsHold(s) && HistoryHolds(s)
  }

  lemma {:induction false} AlwaysInvariant(events: seq<Event>)
    requires Reached(events).Some?
    ensures Invariant(Reached(events).value)
  {
    hide Step, Enabled, Counted, SendersAreLatest, BindingsHold, RegistryRuns.Capped;
    if events == [] {
      StartsInvariant();
    } else {
      AlwaysInvariant(events[..|events| - 1]);
      var s, e := Reached(events[..|events| - 1]).value, events[|events| - 1];
      RegistryRuns.AlwaysCapped(s.history);
      StepKeepsCount(s, e);
      StepKeepsBindings(s, e);
      StepKeepsSenders(s, e);
      StepKeepsHistory(s, e);
    }
  }

  lemma {:induction false} StartsInvariant()
    ensures Invariant(START)
  {
  }

  // ---- the claims ----

  /** In every interleaving a registered sender belongs to a connection that is bound to
      the app and has not finished its cleanup; it is the one that registered last. */
  lemma {:induction false} SendersAreLive(events: seq<Event>, a: string)
    requires Reached(events).Some?
    ensures var s := Reached(events).value;
            && (a in s.registry.senders <==> a in s.latest && Bound(s, s.latest[a], a))
            && (a in s.registry.senders ==> s.registry.senders[a] == s.latest[a])
  {
    hide Counted, BindingsHold, Bound;
    AlwaysInvariant(events);
  }

  /** The cleanup of a replaced connection, however late, leaves its successor in place. */
  lemma {:induction false} LateCleanupSparesSuccessor(events: seq<Event>, c: Sender, a: string)
    requires Reached(events).Some? && Enabled(Reached(events).value, SenderDropped(c))
    requires a in Reached(events).value.registry.senders && Reached(events).value.registry.senders[a] != c
    ensures var t := Step(Reached(events).value, SenderDropped(c));
            a in t.registry.senders && t.registry.senders[a] == Reached(events).value.registry.senders[a]
  {
    hide Counted, BindingsHold, SendersAreLatest, Step, Enabled;
    AlwaysInvariant(events);
    RegistryRuns.AlwaysCapped(Reached(events).value.history);
    SendersAfterStep(Reached(events).value, SenderDropped(c));
  }

  /** The event marks the app as disconnected: it ends the cleanup of a connection that was
      bound to it, or sweeps the app. */
  predicate Marks(s: System, e: Event, a: string) {
    e == AppSwept(a) || (e.AppMarked? && e.c in s.tasks && s.tasks[e.c].currentAppId == Some(a))
  }

  /** The event takes a message of the app to the registry. */
  predicate Tells(s: System, e: Event, a: string) {
    e.FrameRecorded? && e.c in s.tasks && s.tasks[e.c].phase.Recording? && s.tasks[e.c].phase.envelope.appId == a
  }

  predicate MarkedAt(events: seq<Event>, i: nat, a: string) {
    i < |events| && Reached(events[..i]).Some? && Marks(Reached(events[..i]).value, events[i], a)
  }

  predicate ToldAt(events: seq<Event>, i: nat, a: string) {
    i < |events| && Reached(events[..i]).Some? && Tells(Reached(events[..i]).value, events[i], a)
  }

  ghost predicate NotToldAfter(events: seq<Event>, i: nat, a: string) {
    forall j: nat | i < j < |events| :: !ToldAt(events, j, a)
  }

  /** The app was marked as disconnected, and no message of it has come since. */
  ghost predicate MarkedLast(events: seq<Event>, a: string) {
    exists i: nat :: MarkedAt(events, i, a) && NotToldAfter(events, i, a)
  }

  lemma {:induction false} InFront(events: seq<Event>, i: nat, a: string)
    requires i < |events| - 1
    ensures MarkedAt(events, i, a) <==> MarkedAt(events[..|events| - 1], i, a)
    ensures ToldAt(events, i, a) <==> ToldAt(events[..|events| - 1], i, a)
  {
    hide Reached, Marks, Tells;
    assert events[..|events| - 1][..i] == events[..i];
  }

  lemma {:induction false} MarkedLastStep(events: seq<Event>, a: string)
    requires events != []
    ensures var last := |events| - 1;
            MarkedLast(events, a) <==>
            MarkedAt(events, last, a) || (!ToldAt(events, last, a) && MarkedLast(events[..last], a))
  {
    hide MarkedAt, ToldAt;
    var last := |events| - 1;
    forall i: nat | i < last
      ensures MarkedAt(events, i, a) <==> MarkedAt(events[..last], i, a)
      ensures ToldAt(events, i, a) <==> ToldAt(events[..last], i, a)
    {
      InFront(events, i, a);
    }
    NothingPastTheEnd(events, a);
    NothingPastTheEnd(events[..last], a);
    if MarkedLast(events, a) && !MarkedAt(events, last, a) {
      var i: nat :| MarkedAt(events, i, a) && NotToldAfter(events, i, a);
      assert NotToldAfter(events[..last], i, a);
    }
    if !ToldAt(events, last, a) && MarkedLast(events[..last], a) {
      var i: nat :| MarkedAt(events[..last], i, a) && NotToldAfter(events[..last], i, a);
      assert NotToldAfter(events, i, a);
    }
    if MarkedAt(events, last, a) {
      assert NotToldAfter(events, last, a);
    }
  }

  lemma {:induction false} NothingPastTheEnd(events: seq<Event>, a: string)
    ensures forall i: nat :: MarkedAt(events, i, a) ==> i < |events|
  {
  }

  lemma {:induction false} InfoAfterStep(s: System, e: Event, a: string)
    requires Enabled(s, e) && a in Step(s, e).registry.apps
    ensures var info := Step(s, e).registry.apps[a];
            if Tells(s, e, a) then info.connected && !Marks(s, e, a)
            else a in s.registry.apps && if Marks(s, e, a) then !info.connected else info == s.registry.apps[a]
  {
    hide RegistryRuns.Step;
    var r := s.registry;
    match e
    case FrameArrives(c, envelope) =>
      if s.tasks[c].currentAppId.None? {
        RegistryRuns.StepOnInfo(r, RegistryRuns.Registers(envelope.appId, c), a);
      }
    case FrameRecorded(c, now) => RegistryRuns.StepOnInfo(r, RegistryRuns.Records(s.tasks[c].phase.envelope, now), a);
    case SenderDropped(c) => RegistryRuns.StepOnInfo(r, RegistryRuns.Unregisters(s.tasks[c].currentAppId.value, c), a);
    case AppMarked(c) => RegistryRuns.StepOnInfo(r, RegistryRuns.Disconnects(s.tasks[c].currentAppId.value), a);
    case AppForgotten(appId) => RegistryRuns.StepOnInfo(r, RegistryRuns.Forgets(appId), a);
    case AppSwept(appId) => RegistryRuns.StepOnInfo(r, RegistryRuns.Disconnects(appId), a);
    case _ =>
  }

  /** In every interleaving an app that is listed is shown as connected exactly if nothing
      has marked it as disconnected since its last message went to the registry. */
  lemma {:induction false} ShownConnectedExactly(events: seq<Event>, a: string)
    requires Reached(events).Some? && a in Reached(events).value.registry.apps
    ensures Reached(events).value.registry.apps[a].connected <==> !MarkedLast(events, a)
  {
    hide Step, Enabled, Marks, Tells, MarkedLast;
    if events != [] {
      var last := |events| - 1;
      var s := Reached(events[..last]).value;
      MarkedLastStep(events, a);
      InfoAfterStep(s, events[last], a);
      if a in s.registry.apps {
        ShownConnectedExactly(events[..last], a);
      }
    }
  }

  /** The connection's cleanup is over. */
  predicate Done(s: System, c: Sender) {
    c < s.next && (c in s.tasks ==> s.tasks[c].phase.Ended?)
  }

  lemma {:induction false} DoneStays(s: System, e: Event, c: Sender)
    requires Enabled(s, e) && Done(s, c)
    ensures Done(Step(s, e), c)
  {
    hide RegistryRuns.Step;
  }

  lemma {:induction false} MarkingIsDone(s: System, c: Sender)
    requires Enabled(s, AppMarked(c)) && c < s.next
    ensures Done(Step(s, AppMarked(c)), c)
  {
    hide RegistryRuns.Step;
  }

  lemma {:induction false} MarkedIsDone(events: seq<Event>, i: nat, c: Sender)
    requires Reached(events).Some? && i < |events| && events[i] == AppMarked(c)
    ensures Done(Reached(events).value, c)
  {
    hide Step, Enabled, Done, Counted, SendersAreLatest, PastIsBound, HistoryHolds;
    var last := |events| - 1;
    var s := Reached(events[..last]).value;
    if i < last {
      MarkedIsDone(events[..last], i, c);
      DoneStays(s, events[last], c);
    } else {
      AlwaysInvariant(events[..last]);
      MarkableIsTask(s, c);
      MarkingIsDone(s, c);
    }
  }

  lemma {:induction false} MarkableIsTask(s: System, c: Sender)
    requires Enabled(s, AppMarked(c)) && TasksAreBound(s)
    ensures c < s.next
  {
  }

  /** An app whose sender is in place is nevertheless shown as disconnected exactly if the
      end of another connection, or the sweep, has marked it since its last message. */
  lemma {:induction false} OfflineDespiteSenderExactly(events: seq<Event>, a: string)
    requires Reached(events).Some?
    requires a in Reached(events).value.registry.apps && a in Reached(events).value.registry.senders
    ensures var r := Reached(events).value.registry;
            !r.apps[a].connected <==>
            exists i: nat :: MarkedAt(events, i, a) && NotToldAfter(events, i, a)
                             && events[i] != AppMarked(r.senders[a])
  {
    hide Reached, Marks, MarkedAt, NotToldAfter, Counted, BindingsHold;
    var r := Reached(events).value.registry;
    ShownConnectedExactly(events, a);
    NothingPastTheEnd(events, a);
    SendersAreLive(events, a);
    if !r.apps[a].connected {
      var i: nat :| MarkedAt(events, i, a) && NotToldAfter(events, i, a);
      if events[i] == AppMarked(r.senders[a]) {
        MarkedIsDone(events, i, r.senders[a]);
        assert false;
      }
    }
  }

  /** The next message of a listed app puts that right. */
  lemma {:induction false} NextMessageReconnects(s: System, c: Sender, now: int)
    requires Enabled(s, FrameRecorded(c, now)) && s.tasks[c].phase.envelope.appId in s.registry.apps
    ensures var a := s.tasks[c].phase.envelope.appId;
            var t := Step(s, FrameRecorded(c, now));
            a in t.registry.apps && t.registry.apps[a].connected
  {
    hide MessageRecorded;
    var e := s.tasks[c].phase.envelope;
    MessageKeepsApps(AppRecorded(s.registry, e, now), e);
  }

  lemma {:induction false} MessageKeepsApps(s: State, e: Envelope)
    ensures MessageRecorded(s, e).apps == s.apps
  {
    hide CacheEvicted, KeyOf;
    RegistryRuns.CacheEvictionKeepsApps(s.(cache := s.cache[KeyOf(e) := e], cacheOrder := s.cacheOrder + [KeyOf(e)]));
  }

  /** The second half of that cleanup is not so careful: it marks the app as disconnected
      even though the successor's sender is in place. */
  lemma {:induction false} LateCleanupMarksAppOffline(events: seq<Event>, c: Sender, a: string)
    requires Reached(events).Some? && Enabled(Reached(events).value, AppMarked(c))
    requires var s := Reached(events).value;
             s.tasks[c].currentAppId == Some(a) && a in s.registry.apps && a in s.registry.senders
    ensures var s := Reached(events).value; var t := Step(s, AppMarked(c));
            && !t.registry.apps[a].connected
            && a in t.registry.senders && t.registry.senders[a] == s.registry.senders[a] != c
            && Bound(t, t.registry.senders[a], a)
  {
    hide Counted, RegistryRuns.Capped, RegistryRuns.After;
    AlwaysInvariant(events);
    RegistryRuns.AlwaysCapped(Reached(events).value.history);
    SendersAfterStep(Reached(events).value, AppMarked(c));
  }

  lemma {:induction false} OneMore(events: seq<Event>, e: Event)
    requires Reached(events).Some? && Enabled(Reached(events).value, e)
    ensures Reached(events + [e]) == Some(Step(Reached(events).value, e))
  {
    assert (events + [e])[..|events|] == events;
  }

  /** A connection is accepted and says hello. */
  function Greets(c: Sender, hello: Envelope): seq<Event> {
    [Accepts] + [Spawns] + [HandshakeSucceeds(c)] + [FrameArrives(c, hello)] + [FrameRecorded(c, 0)]
  }

  lemma {:induction false} Connects(events: seq<Event>, c: Sender)
    requires Reached(events).Some?
    requires var s := Reached(events).value; !s.admitting && s.active < MAX_CONCURRENT_CONNECTIONS && s.next == c
    ensures var s, after := Reached(events).value, Reached(events + [Accepts] + [Spawns] + [HandshakeSucceeds(c)]);
            after == Some(s.(active := s.active + 1, next := c + 1, tasks := s.tasks[c := Task(Reading, None)]))
  {
    hide Reached, OnRegistry, Framed;
    var s := Reached(events).value;
    OneMore(events, Accepts);
    OneMore(events + [Accepts], Spawns);
    OneMore(events + [Accepts] + [Spawns], HandshakeSucceeds(c));
    assert s.tasks[c := Task(Handshake, None)][c := Task(Reading, None)] == s.tasks[c := Task(Reading, None)];
  }

  /** A `hello` from an app that is listed, or for which there is room. */
  lemma {:induction false} HelloIsListed(s: State, hello: Envelope, c: Sender)
    requires RegistryRuns.Capped(s) && hello.kind == "hello" && (hello.appId in s.apps || |s.apps| < MAX_APPS)
    ensures var t := Recorded(SenderRegistered(s, hello.appId, c), hello, 0);
            hello.appId in t.apps && t.senders == s.senders[hello.appId := c]
  {
    hide AppRecorded, MessageRecorded;
    var mid := SenderRegistered(s, hello.appId, c);
    RegistryRuns.AppRecordedIsCapped(mid, hello, 0);
    RegistryRuns.MessageRecordedIsCapped(AppRecorded(mid, hello, 0), hello);
    if hello.appId in s.apps {
      KnownAppStays(mid, hello);
    } else {
      RegistryRuns.AddingBelowTheCap(mid, hello, 0);
    }
  }

  lemma {:induction false} KnownAppStays(s: State, hello: Envelope)
    requires hello.kind == "hello" && hello.appId in s.apps
    ensures hello.appId in AppRecorded(s, hello, 0).apps
  {
  }

  lemma {:induction false} Binds(events: seq<Event>, c: Sender, hello: Envelope)
    requires Reached(events).Some? && hello.kind == "hello"
    requires var s := Reached(events).value;
             && c in s.tasks && s.tasks[c] == Task(Reading, None)
             && (hello.appId in s.registry.apps || |s.registry.apps| < MAX_APPS)
    ensures var s, after := Reached(events).value, Reached(events + [FrameArrives(c, hello)] + [FrameRecorded(c, 0)]);
            && after.Some? && after.value.active == s.active && after.value.next == s.next
            && after.value.admitting == s.admitting
            && after.value.tasks == s.tasks[c := Task(Reading, Some(hello.appId))]
            && after.value.registry.senders == s.registry.senders[hello.appId := c]
            && hello.appId in after.value.registry.apps
  {
    hide Reached, Recorded, RegistryRuns.Capped, RegistryRuns.After, Counted, SendersAreLatest, BindingsHold;
    var s := Reached(events).value;
    AlwaysInvariant(events);
    RegistryRuns.AlwaysCapped(s.history);
    OneMore(events, FrameArrives(c, hello));
    OneMore(events + [FrameArrives(c, hello)], FrameRecorded(c, 0));
    HelloIsListed(s.registry, hello, c);
    assert s.tasks[c := Task(Recording(hello), Some(hello.appId))][c := Task(Reading, Some(hello.appId))]
        == s.tasks[c := Task(Reading, Some(hello.appId))];
  }

  lemma {:induction false} FirstConnection(hello: Envelope)
    requires hello.kind == "hello"
    ensures var after := Reached(Greets(0, hello));
            && after.Some? && after.value.active == after.value.next == 1 && !after.value.admitting
            && after.value.tasks == map[0 := Task(Reading, Some(hello.appId))]
            && hello.appId in after.value.registry.apps
  {
    hide Step, Enabled;
    Connects([], 0);
    Binds([] + [Accepts] + [Spawns] + [HandshakeSucceeds(0)], 0, hello);
    assert Greets(0, hello) == [] + [Accepts] + [Spawns] + [HandshakeSucceeds(0)]
                               + [FrameArrives(0, hello)] + [FrameRecorded(0, 0)];
  }

  lemma {:induction false} SecondConnection(hello: Envelope)
    requires hello.kind == "hello"
    ensures var after := Reached(Greets(0, hello) + Greets(1, hello));
            && after.Some? && after.value.tasks.Keys == {0, 1}
            && after.value.tasks[0] == after.value.tasks[1] == Task(Reading, Some(hello.appId))
            && hello.appId in after.value.registry.apps
            && hello.appId in after.value.registry.senders && after.value.registry.senders[hello.appId] == 1
  {
    hide Step, Enabled, Reached;
    var first := Greets(0, hello);
    FirstConnection(hello);
    Connects(first, 1);
    Binds(first + [Accepts] + [Spawns] + [HandshakeSucceeds(1)], 1, hello);
    assert first + Greets(1, hello) == first + [Accepts] + [Spawns] + [HandshakeSucceeds(1)]
                                       + [FrameArrives(1, hello)] + [FrameRecorded(1, 0)];
  }

  /** That happens: an app connects again, and then its first connection ends. The app is
      shown as disconnected while the second connection is up and is its sender. */
  lemma {:induction false} ReconnectedAppLooksOffline(hello: Envelope)
    requires hello.kind == "hello"
    ensures var after := Reached(Greets(0, hello) + Greets(1, hello)
                                 + [StreamEnds(0)] + [SenderDropped(0)] + [AppMarked(0)]);
            && after.Some?
            && hello.appId in after.value.registry.apps && !after.value.registry.apps[hello.appId].connected
            && hello.appId in after.value.registry.senders && after.value.registry.senders[hello.appId] == 1
            && InPhase(after.value, 1, Reading)
  {
    hide Reached, Counted, BindingsHold, SendersAreLatest, RegistryRuns.Capped, RegistryRuns.After;
    var events := Greets(0, hello) + Greets(1, hello);
    SecondConnection(hello);
    OneMore(events, StreamEnds(0));
    OneMore(events + [StreamEnds(0)], SenderDropped(0));
    OneMore(events + [StreamEnds(0)] + [SenderDropped(0)], AppMarked(0));
    LateCleanupMarksAppOffline(events + [StreamEnds(0)] + [SenderDropped(0)], 0, hello.appId);
  }

  /** A connection records envelopes of the first id that it announced and of no other. */
  lemma {:induction false} OnlyOwnEnvelopes(events: seq<Event>, i: nat)
    requires Reached(events).Some? && i < |Reached(events).value.recorded|
    ensures var s := Reached(events).value;
            && s.recorded[i].connection in s.bindings
            && s.recorded[i].envelope.appId == s.bindings[s.recorded[i].connection]
  {
    hide Counted, SendersAreLatest;
    AlwaysInvariant(events);
  }

  /** The counter is the number of tasks that have not ended, and at most 64. */
  lemma {:induction false} CounterIsExact(events: seq<Event>)
    requires Reached(events).Some?
    ensures Reached(events).value.active == |Reached(events).value.tasks| <= MAX_CONCURRENT_CONNECTIONS
  {
    hide BindingsHold, SendersAreLatest;
    AlwaysInvariant(events);
  }

  /** A connection is admitted exactly if fewer than 64 tasks are there, and then gets a task. */
  lemma {:induction false} AdmittedExactly(events: seq<Event>)
    requires Reached(events).Some? && !Reached(events).value.admitting
    ensures Reached(events + [Accepts]).Some?
    ensures var s, t := Reached(events).value, Reached(events + [Accepts]).value;
            && (t.admitting <==> |s.tasks| < 64) && t.tasks == s.tasks && t.registry == s.registry
            && (t.admitting ==>
                  && Reached(events + [Accepts] + [Spawns]).Some?
                  && Reached(events + [Accepts] + [Spawns]).value.tasks == s.tasks[s.next := Task(Handshake, None)]
                  && s.next !in s.tasks)
  {
    hide Reached, BindingsHold, SendersAreLatest, AtPhase, OnRegistry, Framed;
    AlwaysInvariant(events);
    OneMore(events, Accepts);
    if Reached(events + [Accepts]).value.admitting {
      OneMore(events + [Accepts], Spawns);
    }
  }

  /** Whatever the tasks do, the shared registry stays within its caps. */
  lemma {:induction false} SharedRegistryIsCapped(events: seq<Event>)
    requires Reached(events).Some?
    ensures |Reached(events).value.registry.apps| <= MAX_APPS
    ensures |Reached(events).value.registry.cache| <= MAX_CACHE_ENTRIES
  {
    hide Counted, BindingsHold, SendersAreLatest;
    AlwaysInvariant(events);
    RegistryRuns.AlwaysCapped(Reached(events).value.history);
  }

  // ---- one connection by itself ----

  /** `handle_connection` from the first frame on, when nothing interferes: what it does to
      the registry, and the id that it ends up bound to. */
  function FramesServed(s: State, bound: Option<string>, tx: Sender, frames: seq<Envelope>, now: int)
    : (State, Option<string>)
  {
    if frames == [] then (s, bound)
    else
      var (before, id) := FramesServed(s, bound, tx, frames[..|frames| - 1], now);
      var e := frames[|frames| - 1];
      if id.None? then (Recorded(SenderRegistered(before, e.appId, tx), e, now), Some(e.appId))
      else if id.value != e.appId then (before, id)
      else (Recorded(before, e, now), id)
  }

  function Cleaned(s: State, bound: Option<string>, tx: Sender): State {
    if bound.None? then s else MarkedDisconnected(SenderUnregistered(s, bound.value, tx), bound.value)
  }

  method HandleConnection(registry: RegistryInner, tx: Sender, frames: seq<Envelope>, now: int)
    modifies registry
    ensures var (served, id) := FramesServed(old(registry.Contents()), None, tx, frames, now);
            registry.Contents() == Cleaned(served, id, tx)
  {
    hide Recorded;
    var currentAppId: Option<string> := None;
    for i := 0 to |frames|
      invariant (registry.Contents(), currentAppId)
             == FramesServed(old(registry.Contents()), None, tx, frames[..i], now)
    {
      var e := frames[i];
      assert frames[..i + 1][..i] == frames[..i];
      if currentAppId.None? {
        currentAppId := Some(e.appId);
        registry.RegisterSender(e.appId, tx);
      } else if currentAppId.value != e.appId {
        continue;
      }
      var newApp := registry.Record(e, now);
    }
    assert frames[..|frames|] == frames;
    if currentAppId.Some? {
      registry.UnregisterSender(currentAppId.value, tx);
      var changed := registry.MarkDisconnected(currentAppId.value);
    }
  }

  function Own(frames: seq<Envelope>, id: string): seq<Envelope> {
    if frames == [] then []
    else Own(frames[..|frames| - 1], id) + if frames[|frames| - 1].appId == id then [frames[|frames| - 1]] else []
  }

  lemma {:induction false} OneMoreFrame(s: State, tx: Sender, frames: seq<Envelope>, e: Envelope, now: int)
    requires FramesServed(s, None, tx, frames, now).1 == Some(e.appId)
    ensures var before := FramesServed(s, None, tx, frames, now).0;
            FramesServed(s, None, tx, frames + [e], now) == (Recorded(before, e, now), Some(e.appId))
  {
    hide Recorded;
    assert (frames + [e])[..|frames|] == frames;
  }

  /** Frames under another id than the first might as well not have been sent. */
  lemma {:induction false} ForeignFramesAreDropped(s: State, tx: Sender, frames: seq<Envelope>, now: int)
    requires frames != []
    ensures FramesServed(s, None, tx, frames, now) == FramesServed(s, None, tx, Own(frames, frames[0].appId), now)
    ensures FramesServed(s, None, tx, frames, now).1 == Some(frames[0].appId)
  {
    hide Recorded;
    var last, id := |frames| - 1, frames[0].appId;
    var front, e := frames[..last], frames[last];
    if last == 0 {
      assert Own(frames, id) == Own(front, id) + [e] == [e] == frames;
      assert FramesServed(s, None, tx, front, now) == (s, None);
    } else {
      ForeignFramesAreDropped(s, tx, front, now);
      assert frames == front + [e];
      if e.appId == id {
        OneMoreFrame(s, tx, front, e, now);
        OneMoreFrame(s, tx, Own(front, id), e, now);
        assert Own(frames, id) == Own(front, id) + [e];
      } else {
        assert Own(frames, id) == Own(front, id);
      }
    }
  }
}
