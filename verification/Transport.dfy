/** The SDK's WebSocket client: one connection at a time, reconnecting with growing
    delays, and a bounded queue for what is sent while offline. */
module Transport {
  import opened Pointer

  type Envelope = string

  datatype Options = Options(maxQueueSize: nat, reconnectBaseDelayMs: nat, reconnectMaxDelayMs: nat,
                             initialConnectDelayMs: nat, hostReady: bool)

  /** `readyState` of the current socket. `Closing`: given up by the connect timeout, or
      broken, with `onclose` still to come. */
  datatype ReadyState = Connecting | Open | Closing

  /** The first start, which no field of the transport records. */
  datatype Starting = Idle | AwaitingHost | Delayed

  /** A timer of the runtime, by the handle that `setTimeout` returned. */
  datatype Alarm = Alarm(handle: nat, delay: nat)

  /** The transport's fields, the runtime's pending callbacks, and what has been given to
      sockets so far. */
  datatype State = State(
    socket: Option<ReadyState>,
    queue: seq<Envelope>,
    closed: bool,
    reconnectAttempt: nat,
    attemptCount: nat,
    reconnectTimer: Option<nat>,
    starting: Starting,
    armed: Option<Alarm>,
    handles: nat,
    given: seq<Envelope>)

  const NEW := State(None, [], true, 0, 0, None, Idle, None, 0, [])

  function Pow2(n: nat): nat {
    if n == 0 then 1 else 2 * Pow2(n - 1)
  }

  function ReconnectDelay(o: Options, attempt: nat): nat {
    var delay := o.reconnectBaseDelayMs * Pow2(attempt);
    if delay < o.reconnectMaxDelayMs then delay else o.reconnectMaxDelayMs
  }

  /** The last `n` elements, or all of them. */
  function LastN<T>(s: seq<T>, n: nat): seq<T> {
    if |s| <= n then s else s[|s| - n..]
  }

  // ---- the transitions ----

  function SocketOpened(s: State): State {
    s.(attemptCount := s.attemptCount + 1, socket := Some(Connecting))
  }

  function Started(o: Options, s: State): State {
    if s.closed then s
    else if o.initialConnectDelayMs > 0 then s.(starting := Delayed)
    else SocketOpened(s)
  }

  function Connected(o: Options, s: State): State {
    var s' := s.(closed := false);
    if o.hostReady then s'.(starting := AwaitingHost) else Started(o, s')
  }

  function HostSettled(o: Options, s: State): State {
    Started(o, s.(starting := Idle))
  }

  function DelayElapsed(s: State): State {
    var s' := s.(starting := Idle);
    if s.closed then s' else SocketOpened(s')
  }

  /** The socket is on its way down: what is sent from now on is queued. */
  function GoingDown(s: State): State {
    s.(socket := Some(Closing))
  }

  function Opened(s: State): State {
    s.(attemptCount := 0, reconnectAttempt := 0, socket := Some(Open), given := s.given + s.queue, queue := [])
  }

  function Lost(o: Options, s: State): State {
    if s.closed then s.(socket := None)
    else s.(socket := None, reconnectAttempt := s.reconnectAttempt + 1, reconnectTimer := Some(s.handles),
            armed := Some(Alarm(s.handles, ReconnectDelay(o, s.reconnectAttempt))), handles := s.handles + 1)
  }

  /** The field keeps the handle of a timer that has fired. */
  function AlarmFired(s: State): State {
    var s' := s.(armed := None);
    if s.closed then s' else SocketOpened(s')
  }

  function Sent(o: Options, s: State, e: Envelope): State {
    if s.socket == Some(Open) then s.(given := s.given + [e])
    else s.(queue := LastN(s.queue + [e], o.maxQueueSize))
  }

  function Closed(s: State): State {
    s.(closed := true, reconnectTimer := None, socket := None,
       armed := if s.armed.Some? && s.reconnectTimer == Some(s.armed.value.handle) then None else s.armed)
  }

  class Transport {
    const options: Options
    var socket: Option<ReadyState>
    var queue: seq<Envelope>
    var closed: bool
    var reconnectAttempt: nat
    var attemptCount: nat
    var reconnectTimer: Option<nat>
    var starting: Starting
    var armed: Option<Alarm>
    var handles: nat
    var given: seq<Envelope>

    function Contents(): State
      reads this
    {
      State(socket, queue, closed, reconnectAttempt, attemptCount, reconnectTimer, starting, armed, handles, given)
    }

    constructor (options: Options)
      ensures this.options == options && Contents() == NEW
    {
      this.options := options;
      socket, queue, closed, reconnectAttempt, attemptCount := None, [], true, 0, 0;
      reconnectTimer, starting, armed, handles, given := None, Idle, None, 0, [];
    }

    method Connect()
      modifies this
      ensures Contents() == Connected(options, old(Contents()))
    {
      closed := false;
      if options.hostReady {
        starting := AwaitingHost;
      } else {
        Start();
      }
    }

    method Start()
      modifies this
      ensures Contents() == Started(options, old(Contents()))
    {
      if closed {
        return;
      }
      if options.initialConnectDelayMs > 0 {
        starting := Delayed;
        return;
      }
      OpenSocket();
    }

    /** `hostReady` has settled, either way. */
    method OnHostReady()
      modifies this
      ensures Contents() == HostSettled(options, old(Contents()))
    {
      starting := Idle;
      Start();
    }

    method OnInitialDelay()
      modifies this
      ensures Contents() == DelayElapsed(old(Contents()))
    {
      starting := Idle;
      if !closed {
        OpenSocket();
      }
    }

    method OpenSocket()
      modifies this`attemptCount, this`socket
      ensures Contents() == SocketOpened(old(Contents()))
    {
      attemptCount := attemptCount + 1;
      socket := Some(Connecting);
    }

    method OnConnectTimeout()
      requires socket.Some? && socket != Some(Open)
      modifies this`socket
      ensures Contents() == GoingDown(old(Contents()))
    {
      socket := Some(Closing);
    }

    method OnOpen()
      requires socket == Some(Connecting)
      modifies this
      ensures Contents() == Opened(old(Contents()))
    {
      socket := Some(Open);
      attemptCount := 0;
      reconnectAttempt := 0;
      FlushQueue();
    }

    method FlushQueue()
      requires socket.Some?
      modifies this`given, this`queue
      ensures given == old(given) + old(queue) && queue == []
    {
      for i := 0 to |queue|
        invariant queue == old(queue) && given == old(given) + queue[..i]
      {
        given := given + [queue[i]];
      }
      queue := [];
    }

    method OnClose()
      requires socket.Some?
      modifies this
      ensures Contents() == Lost(options, old(Contents()))
    {
      socket := None;
      if !closed {
        ScheduleReconnect();
      }
    }

    method ScheduleReconnect()
      modifies this`reconnectAttempt, this`reconnectTimer, this`armed, this`handles
      ensures reconnectAttempt == old(reconnectAttempt) + 1 && handles == old(handles) + 1
      ensures reconnectTimer == Some(old(handles))
      ensures armed == Some(Alarm(old(handles), ReconnectDelay(options, old(reconnectAttempt))))
    {
      var delay := options.reconnectBaseDelayMs * Pow2(reconnectAttempt);
      if delay >= options.reconnectMaxDelayMs {
        delay := options.reconnectMaxDelayMs;
      }
      reconnectAttempt := reconnectAttempt + 1;
      armed := Some(Alarm(handles, delay));
      reconnectTimer := Some(handles);
      handles := handles + 1;
    }

    method OnReconnectTimer()
      requires armed.Some?
      modifies this
      ensures Contents() == AlarmFired(old(Contents()))
    {
      armed := None;
      if !closed {
        OpenSocket();
      }
    }

    method Send(e: Envelope)
      modifies this`given, this`queue
      ensures Contents() == Sent(options, old(Contents()), e)
    {
      if socket == Some(Open) {
        given := given + [e];
        return;
      }
      queue := queue + [e];
      ghost var all := queue;
      while |queue| > options.maxQueueSize
        invariant |queue| <= |all| && queue == all[|all| - |queue|..]
        invariant |queue| >= options.maxQueueSize || queue == all
        modifies this`queue
      {
        queue := queue[1..];
      }
    }

    method Close()
      modifies this
      ensures Contents() == Closed(old(Contents()))
    {
      closed := true;
      if reconnectTimer.Some? {
        if armed.Some? && armed.value.handle == reconnectTimer.value {
          armed := None;
        }
        reconnectTimer := None;
      }
      socket := None;
    }
  }

  // ---- runs ----

  /** A stretch of time: offline until a socket opens, then online until it breaks. */
  datatype Period = Period(offline: seq<Envelope>, up: bool, online: seq<Envelope>)

  /** `connected`: `connect()` has been called, `terminated`: `close()` has. `delays`: those
      scheduled since the last open. */
  datatype System = System(state: State, connected: bool, terminated: bool, periods: seq<Period>, delays: seq<nat>)

  const START := System(NEW, false, false, [Period([], false, [])], [])

  datatype Event =
    | ConnectCalled
    | HostSettles
    | DelayElapses
    | ConnectTimeout
    | SocketOpens
    | SocketBreaks
    | SocketCloses
    | AlarmFires
    | SendCalled(envelope: Envelope)
    | CloseCalled

  /** `connect()` is called once; a socket closes once and does not open afterwards. */
  predicate Enabled(s: System, e: Event) {
    match e
    case ConnectCalled => !s.connected && !s.terminated
    case HostSettles => s.state.starting == AwaitingHost
    case DelayElapses => s.state.starting == Delayed
    case ConnectTimeout => s.state.socket.Some? && s.state.socket != Some(Open)
    case SocketOpens => s.state.socket == Some(Connecting)
    case SocketBreaks => s.state.socket == Some(Open)
    case SocketCloses => s.state.socket.Some?
    case AlarmFires => s.state.armed.Some?
    case _ => true
  }

  function Last(periods: seq<Period>): Period
    requires periods != []
  {
    periods[|periods| - 1]
  }

  function WithLast(periods: seq<Period>, p: Period): seq<Period>
    requires periods != []
  {
    periods[..|periods| - 1] + [p]
  }

  function Step(o: Options, s: System, e: Event): System
    requires Enabled(s, e) && s.periods != []
  {
    match e
    case ConnectCalled => s.(state := Connected(o, s.state), connected := true)
    case HostSettles => s.(state := HostSettled(o, s.state))
    case DelayElapses => s.(state := DelayElapsed(s.state))
    case ConnectTimeout => s.(state := GoingDown(s.state))
    case SocketOpens =>
      s.(state := Opened(s.state), periods := WithLast(s.periods, Last(s.periods).(up := true)), delays := [])
    case SocketBreaks => s.(state := GoingDown(s.state), periods := s.periods + [Period([], false, [])])
    case SocketCloses =>
      var next := Lost(o, s.state);
      s.(state := next,
         periods := if Last(s.periods).up then s.periods + [Period([], false, [])] else s.periods,
         delays := if s.state.closed then s.delays else s.delays + [next.armed.value.delay])
    case AlarmFires => s.(state := AlarmFired(s.state))
    case SendCalled(x) =>
      var p := Last(s.periods);
      s.(state := Sent(o, s.state, x),
         periods := WithLast(s.periods, if p.up then p.(online := p.online + [x]) else p.(offline := p.offline + [x])))
    case CloseCalled =>
      s.(state := Closed(s.state), terminated := true,
         periods := if Last(s.periods).up then s.periods + [Period([], false, [])] else s.periods)
  }

  function Reached(o: Options, events: seq<Event>): Option<System> {
    if events == [] then Some(START)
    else
      var before, e := Reached(o, events[..|events| - 1]), events[|events| - 1];
      if before.Some? && before.value.periods != [] && Enabled(before.value, e) then Some(Step(o, before.value, e))
      else None
  }

  // ---- one token ----

  function Count(b: bool): nat {
    if b then 1 else 0
  }

  /** While the transport is in use, exactly one thing will drive it on: the first start,
      a socket, or a timer. */
  ghost predicate SingleToken(s: System) {
    var t := s.state;
    && (t.closed <==> !s.connected || s.terminated)
    && (!s.connected ==> t.starting == Idle)
    && (!t.closed ==> Count(t.starting != Idle) + Count(t.socket.Some?) + Count(t.armed.Some?) == 1)
    && (t.closed ==> t.socket.None? && t.armed.None?)
    && (t.armed.Some? ==> t.reconnectTimer == Some(t.armed.value.handle))
  }

  // ---- the queue ----

  /** What a period's sends come to: the last of the offline ones and all online ones. */
  function Kept(o: Options, p: Period): seq<Envelope> {
    LastN(p.offline, o.maxQueueSize) + p.online
  }

  function AllKept(o: Options, periods: seq<Period>): seq<Envelope> {
    if periods == [] then [] else AllKept(o, periods[..|periods| - 1]) + Kept(o, Last(periods))
  }

  function AllSends(periods: seq<Period>): seq<Envelope> {
    if periods == [] then []
    else AllSends(periods[..|periods| - 1]) + Last(periods).offline + Last(periods).online
  }

  ghost predicate Queued(o: Options, s: System) {
    && s.periods != []
    && (Last(s.periods).up <==> s.state.socket == Some(Open))
    && (!Last(s.periods).up ==> Last(s.periods).online == [])
    && (s.state.socket == Some(Open) ==> s.state.queue == [])
    && (!Last(s.periods).up ==> s.state.queue == LastN(Last(s.periods).offline, o.maxQueueSize))
    && s.state.given + s.state.queue == AllKept(o, s.periods)
  }

  ghost predicate DelaysMatch(o: Options, s: System) {
    && s.state.reconnectAttempt == |s.delays|
    && forall i | 0 <= i < |s.delays| :: s.delays[i] == ReconnectDelay(o, i)
  }

  ghost predicate Invariant(o: Options, s: System) {
    SingleToken(s) && Queued(o, s) && DelaysMatch(o, s)
  }

  lemma {:induction false} StepKeepsToken(o: Options, s: System, e: Event)
    requires SingleToken(s) && s.periods != [] && Enabled(s, e)
    ensures SingleToken(Step(o, s, e))
  {
    hide ReconnectDelay, LastN, WithLast;
  }

  lemma {:induction false} StepKeepsDelays(o: Options, s: System, e: Event)
    requires DelaysMatch(o, s) && SingleToken(s) && s.periods != [] && Enabled(s, e)
    ensures DelaysMatch(o, Step(o, s, e))
  {
    hide ReconnectDelay, LastN, WithLast;
  }

  lemma {:induction false} KeptGrows(o: Options, periods: seq<Period>, p: Period)
    ensures AllKept(o, periods + [p]) == AllKept(o, periods) + Kept(o, p)
    ensures AllSends(periods + [p]) == AllSends(periods) + p.offline + p.online
  {
    assert (periods + [p])[..|periods|] == periods;
  }

  lemma {:induction false} LastOfLast(s: seq<Envelope>, x: Envelope, n: nat)
    ensures LastN(LastN(s, n) + [x], n) == LastN(s + [x], n)
  {
  }

  lemma {:induction false} StepKeepsQueue(o: Options, s: System, e: Event)
    requires Queued(o, s) && SingleToken(s) && Enabled(s, e)
    ensures Queued(o, Step(o, s, e))
  {
    hide ReconnectDelay, LastN, AllKept, Pow2;
    var front, p := s.periods[..|s.periods| - 1], Last(s.periods);
    assert s.periods == front + [p];
    KeptGrows(o, front, p);
    match e
    case SocketOpens => OpeningKeepsQueue(o, s, front, p);
    case SendCalled(x) => SendingKeepsQueue(o, s, front, p, x);
    case SocketBreaks => NextPeriod(o, s.periods);
    case SocketCloses => NextPeriod(o, s.periods);
    case CloseCalled => NextPeriod(o, s.periods);
    case _ =>
  }

  lemma {:induction false} NextPeriod(o: Options, periods: seq<Period>)
    ensures AllKept(o, periods + [Period([], false, [])]) == AllKept(o, periods)
    ensures LastN<Envelope>([], o.maxQueueSize) == []
  {
    KeptGrows(o, periods, Period([], false, []));
  }

  lemma {:induction false} OpeningKeepsQueue(o: Options, s: System, front: seq<Period>, p: Period)
    requires Queued(o, s) && Enabled(s, SocketOpens) && s.periods == front + [p]
    ensures Queued(o, Step(o, s, SocketOpens))
  {
    hide LastN, AllKept;
    KeptGrows(o, front, p);
    KeptGrows(o, front, p.(up := true));
  }

  lemma {:induction false} SendingKeepsQueue(o: Options, s: System, front: seq<Period>, p: Period, x: Envelope)
    requires Queued(o, s) && s.periods == front + [p]
    ensures Queued(o, Step(o, s, SendCalled(x)))
  {
    hide LastN, AllKept;
    KeptGrows(o, front, p);
    LastOfLast(p.offline, x, o.maxQueueSize);
    if p.up {
      KeptGrows(o, front, p.(online := p.online + [x]));
      assert Kept(o, p.(online := p.online + [x])) == Kept(o, p) + [x];
      assert s.state.given + [] == s.state.given;
    } else {
      KeptGrows(o, front, p.(offline := p.offline + [x]));
      var t := s.state;
      assert Kept(o, p) == t.queue;
      assert |t.given| == |AllKept(o, front)|;
      assert t.given == (t.given + t.queue)[..|t.given|] == AllKept(o, front);
    }
  }

  lemma {:induction false} AlwaysInvariant(o: Options, events: seq<Event>)
    requires Reached(o, events).Some?
    ensures Invariant(o, Reached(o, events).value)
  {
    hide Enabled, Step, SingleToken, Queued, DelaysMatch;
    if events == [] {
      StartsInvariant(o);
    } else {
      AlwaysInvariant(o, events[..|events| - 1]);
      var s, e := Reached(o, events[..|events| - 1]).value, events[|events| - 1];
      StepKeepsToken(o, s, e);
      StepKeepsQueue(o, s, e);
      StepKeepsDelays(o, s, e);
    }
  }

  lemma {:induction false} StartsInvariant(o: Options)
    ensures Invariant(o, START)
  {
    assert [Period([], false, [])][..0] == [];
  }

  // ---- the claims ----

  predicate Subsequence(a: seq<Envelope>, b: seq<Envelope>) {
    a == [] ||
    (b != [] && ((a[|a| - 1] == b[|b| - 1] && Subsequence(a[..|a| - 1], b[..|b| - 1])) || Subsequence(a, b[..|b| - 1])))
  }

  lemma {:induction false} SubsequenceSnoc(a: seq<Envelope>, b: seq<Envelope>, x: Envelope)
    requires Subsequence(a, b)
    ensures Subsequence(a + [x], b + [x]) && Subsequence(a, b + [x])
  {
    assert (a + [x])[..|a|] == a && (b + [x])[..|b|] == b;
  }

  lemma {:induction false} SubsequenceAppend(a: seq<Envelope>, b: seq<Envelope>, c: seq<Envelope>, n: nat)
    requires Subsequence(a, b)
    ensures Subsequence(a + LastN(c, n), b + c)
    decreases |c|
  {
    hide Subsequence;
    if c == [] {
      assert a + LastN(c, n) == a && b + c == b;
    } else {
      var front, x := c[..|c| - 1], c[|c| - 1];
      assert b + c == b + front + [x];
      var m := if n == 0 then 0 else n - 1;
      SubsequenceAppend(a, b, front, m);
      SubsequenceSnoc(a + LastN(front, m), b + front, x);
      assert n == 0 ==> a + LastN(c, n) == a + LastN(front, m);
      assert n > 0 ==> a + LastN(c, n) == a + LastN(front, m) + [x];
    }
  }

  lemma {:induction false} KeptIsSubsequence(o: Options, periods: seq<Period>)
    ensures Subsequence(AllKept(o, periods), AllSends(periods))
  {
    hide Subsequence, LastN;
    if periods == [] {
      NothingIsSubsequence();
    } else {
      var front, p := periods[..|periods| - 1], Last(periods);
      KeptIsSubsequence(o, front);
      SubsequenceAppend(AllKept(o, front), AllSends(front), p.offline, o.maxQueueSize);
      SubsequenceAppend(AllKept(o, front) + LastN(p.offline, o.maxQueueSize), AllSends(front) + p.offline, p.online,
                        |p.online|);
      AllOfIt(p.online);
      assert AllKept(o, periods)
          == AllKept(o, front) + LastN(p.offline, o.maxQueueSize) + LastN(p.online, |p.online|);
    }
  }

  lemma {:induction false} NothingIsSubsequence()
    ensures Subsequence([], [])
  {
  }

  lemma {:induction false} AllOfIt(s: seq<Envelope>)
    ensures LastN(s, |s|) == s
  {
  }

  /** In every run what has been given to sockets, followed by the queue, is what was kept
      of each offline stretch (its last sends, as many as the queue holds) and everything
      sent online: an in-order subsequence of all sends. */
  lemma {:induction false} QueueKeepsOrder(o: Options, events: seq<Event>)
    requires Reached(o, events).Some?
    ensures var s := Reached(o, events).value;
            && s.state.given + s.state.queue == AllKept(o, s.periods)
            && Subsequence(s.state.given + s.state.queue, AllSends(s.periods))
            && (s.state.socket == Some(Open) ==> s.state.queue == [])
            && (s.state.socket != Some(Open) ==>
                  s.periods != [] && !Last(s.periods).up
                  && s.state.queue == LastN(Last(s.periods).offline, o.maxQueueSize))
  {
    hide SingleToken, DelaysMatch, Step, AllKept, AllSends, LastN, Subsequence;
    AlwaysInvariant(o, events);
    KeptIsSubsequence(o, Reached(o, events).value.periods);
  }

  function Calls(events: seq<Event>): seq<Envelope> {
    if events == [] then []
    else
      var e := events[|events| - 1];
      Calls(events[..|events| - 1]) + if e.SendCalled? then [e.envelope] else []
  }

  /** The periods hold the arguments of all calls of `send`, in order. */
  lemma {:induction false} PeriodsHoldAllSends(o: Options, events: seq<Event>)
    requires Reached(o, events).Some?
    ensures AllSends(Reached(o, events).value.periods) == Calls(events)
  {
    hide AllSends, Queued, SingleToken, DelaysMatch;
    if events == [] {
      KeptGrows(o, [], Period([], false, []));
      NothingSent();
    } else {
      PeriodsHoldAllSends(o, events[..|events| - 1]);
      AlwaysInvariant(o, events[..|events| - 1]);
      StepAddsSend(o, Reached(o, events[..|events| - 1]).value, events[|events| - 1]);
    }
  }

  lemma {:induction false} NothingSent()
    ensures AllSends([]) == []
    ensures [Period([], false, [])] == [] + [Period([], false, [])]
  {
  }

  lemma {:induction false} StepAddsSend(o: Options, s: System, e: Event)
    requires Queued(o, s) && Enabled(s, e)
    ensures AllSends(Step(o, s, e).periods) == AllSends(s.periods) + if e.SendCalled? then [e.envelope] else []
  {
    hide AllSends, AllKept, LastN, ReconnectDelay;
    var front, p := s.periods[..|s.periods| - 1], Last(s.periods);
    assert s.periods == front + [p];
    KeptGrows(o, front, p);
    KeptGrows(o, s.periods, Period([], false, []));
    KeptGrows(o, front, p.(up := true));
    if e.SendCalled? {
      KeptGrows(o, front, p.(online := p.online + [e.envelope]));
      KeptGrows(o, front, p.(offline := p.offline + [e.envelope]));
    }
  }

  /** No offline stretch was longer than the queue. */
  predicate AllFit(o: Options, periods: seq<Period>) {
    forall i | 0 <= i < |periods| :: |periods[i].offline| <= o.maxQueueSize
  }

  lemma {:induction false} KeptExactly(o: Options, periods: seq<Period>)
    ensures AllKept(o, periods) == AllSends(periods) <==> AllFit(o, periods)
    ensures |AllKept(o, periods)| <= |AllSends(periods)|
  {
    if periods != [] {
      var front, p := periods[..|periods| - 1], Last(periods);
      KeptExactly(o, front);
      assert periods == front + [p];
      assert AllFit(o, periods) <==> AllFit(o, front) && |p.offline| <= o.maxQueueSize;
      var kept, sends := AllKept(o, front), AllSends(front);
      assert AllKept(o, periods) == kept + LastN(p.offline, o.maxQueueSize) + p.online;
      if |kept| == |sends| && |p.offline| <= o.maxQueueSize {
        assert AllKept(o, periods)[..|kept|] == kept && AllSends(periods)[..|sends|] == sends;
      }
    }
  }

  /** The transport hands everything over in order, sooner or later, exactly as long as no
      offline stretch brings more messages than the queue holds. What a socket does with the
      messages it has been given is not its affair. */
  lemma {:induction false} HandsOverExactly(o: Options, events: seq<Event>)
    requires Reached(o, events).Some?
    ensures var s := Reached(o, events).value;
            s.state.given + s.state.queue == Calls(events) <==> AllFit(o, s.periods)
  {
    hide SingleToken, DelaysMatch, Step, AllKept, AllSends;
    QueueKeepsOrder(o, events);
    PeriodsHoldAllSends(o, events);
    KeptExactly(o, Reached(o, events).value.periods);
  }

  /** While the transport is in use there is exactly one of a pending first start, a
      socket and a reconnect timer; once it is closed there is no socket and no timer, and
      no step makes one. */
  lemma {:induction false} OneTokenOrClosed(o: Options, events: seq<Event>, e: Event)
    requires Reached(o, events).Some? && Enabled(Reached(o, events).value, e)
    ensures var s := Reached(o, events).value; var t := s.state;
            && (s.connected && !s.terminated ==>
                  Count(t.starting != Idle) + Count(t.socket.Some?) + Count(t.armed.Some?) == 1)
            && (s.terminated ==> t.socket.None? && t.armed.None?)
            && s.periods != []
            && (s.terminated ==> Step(o, s, e).terminated && Step(o, s, e).state.socket.None?)
  {
    hide Queued, DelaysMatch, Step, Enabled;
    AlwaysInvariant(o, events);
    HasPeriods(o, Reached(o, events).value);
    StepKeepsToken(o, Reached(o, events).value, e);
    StaysTerminated(o, Reached(o, events).value, e);
  }

  lemma {:induction false} HasPeriods(o: Options, s: System)
    requires Queued(o, s)
    ensures s.periods != []
  {
  }

  lemma {:induction false} StaysTerminated(o: Options, s: System, e: Event)
    requires Enabled(s, e) && s.periods != []
    ensures s.terminated ==> Step(o, s, e).terminated
  {
    hide Lost, Sent, Connected, HostSettled, DelayElapsed, Closed, AlarmFired, Opened, GoingDown;
  }

  lemma {:induction false} DelaysGrow(o: Options, i: nat, j: nat)
    requires i <= j
    ensures ReconnectDelay(o, i) <= ReconnectDelay(o, j) <= o.reconnectMaxDelayMs
    decreases j
  {
    if i < j {
      DelaysGrow(o, i, j - 1);
      assert o.reconnectBaseDelayMs * Pow2(j) == 2 * (o.reconnectBaseDelayMs * Pow2(j - 1));
    }
  }

  /** Since the last open the scheduled delays began with the base delay, doubled up to the
      maximum, and never shrank. */
  lemma {:induction false} DelaysBackOff(o: Options, events: seq<Event>)
    requires Reached(o, events).Some?
    ensures var d := Reached(o, events).value.delays;
            && (forall i, j | 0 <= i <= j < |d| :: d[i] <= d[j] <= o.reconnectMaxDelayMs)
            && (d != [] && o.reconnectBaseDelayMs <= o.reconnectMaxDelayMs ==> d[0] == o.reconnectBaseDelayMs)
            && (forall i | 0 <= i < |d| - 1 ::
                  d[i + 1] == if 2 * d[i] < o.reconnectMaxDelayMs then 2 * d[i] else o.reconnectMaxDelayMs)
  {
    hide SingleToken, Queued;
    AlwaysInvariant(o, events);
    var d := Reached(o, events).value.delays;
    forall i, j | 0 <= i <= j < |d| ensures d[i] <= d[j] <= o.reconnectMaxDelayMs
    {
      DelaysGrow(o, i, j);
    }
    forall i | 0 <= i < |d| - 1
      ensures d[i + 1] == if 2 * d[i] < o.reconnectMaxDelayMs then 2 * d[i] else o.reconnectMaxDelayMs
    {
      DelayDoubles(o, i);
    }
    if d != [] {
      assert o.reconnectBaseDelayMs * Pow2(0) == o.reconnectBaseDelayMs;
    }
  }

  lemma {:induction false} DelayDoubles(o: Options, i: nat)
    ensures ReconnectDelay(o, i + 1)
         == if 2 * ReconnectDelay(o, i) < o.reconnectMaxDelayMs then 2 * ReconnectDelay(o, i) else o.reconnectMaxDelayMs
  {
    assert o.reconnectBaseDelayMs * Pow2(i + 1) == 2 * (o.reconnectBaseDelayMs * Pow2(i));
  }

  // ---- the first start and the attempts ----

  /** What the first start still waits for: the host, if there is one to come, and after
      that the initial delay, if there is one. */
  function WaitsFor(o: Options, events: seq<Event>): Starting {
    if o.hostReady && HostSettles !in events then AwaitingHost
    else if o.initialConnectDelayMs > 0 && DelayElapses !in events then Delayed
    else Idle
  }

  ghost predicate Waiting(o: Options, events: seq<Event>, s: System) {
    && (s.connected <==> ConnectCalled in events)
    && (s.terminated <==> CloseCalled in events)
    && (!s.connected ==> HostSettles !in events && DelayElapses !in events)
    && (o.hostReady && HostSettles !in events ==> DelayElapses !in events)
    && (!o.hostReady ==> HostSettles !in events)
    && (s.connected && !s.terminated ==> s.state.starting == WaitsFor(o, events))
    && (s.connected && WaitsFor(o, events) == AwaitingHost ==> s.state.starting == AwaitingHost)
    && (!s.connected ==> s.state.starting == Idle)
    && (!o.hostReady ==> s.state.starting != AwaitingHost)
  }

  lemma {:induction false} InLonger(events: seq<Event>, e: Event, x: Event)
    ensures x in events + [e] <==> x in events || x == e
  {
  }

  lemma {:induction false} StepKeepsWaiting(o: Options, s: System, events: seq<Event>, e: Event)
    requires Waiting(o, events, s) && SingleToken(s) && s.periods != [] && Enabled(s, e)
    ensures Waiting(o, events + [e], Step(o, s, e))
  {
    hide ReconnectDelay, LastN, WithLast;
    InLonger(events, e, HostSettles);
    InLonger(events, e, DelayElapses);
    InLonger(events, e, ConnectCalled);
    InLonger(events, e, CloseCalled);
  }

  lemma {:induction false} AlwaysWaiting(o: Options, events: seq<Event>)
    requires Reached(o, events).Some?
    ensures Waiting(o, events, Reached(o, events).value)
  {
    hide Step, Enabled, SingleToken, Queued, DelaysMatch;
    if events == [] {
      StartsWaiting(o);
    } else {
      var front, e := events[..|events| - 1], events[|events| - 1];
      AlwaysWaiting(o, front);
      AlwaysInvariant(o, front);
      StepKeepsWaiting(o, Reached(o, front).value, front, e);
      assert events == front + [e];
    }
  }

  lemma {:induction false} StartsWaiting(o: Options)
    ensures Waiting(o, [], START)
  {
  }

  /** Between `connect()` and `close()` there is a socket, or a timer for the next one,
      exactly if the host has settled, where there is one to wait for, and the initial delay
      has passed, where there is one. */
  lemma {:induction false} SocketWaitsExactly(o: Options, events: seq<Event>)
    requires Reached(o, events).Some? && ConnectCalled in events && CloseCalled !in events
    ensures var t := Reached(o, events).value.state;
            (t.socket.Some? || t.armed.Some?) <==>
            (o.hostReady ==> HostSettles in events) && (o.initialConnectDelayMs > 0 ==> DelayElapses in events)
  {
    hide Queued, DelaysMatch;
    AlwaysWaiting(o, events);
    AlwaysInvariant(o, events);
  }

  /** The sockets created since the last one that opened. */
  function Attempts(o: Options, events: seq<Event>): nat
    requires Reached(o, events).Some?
  {
    if events == [] then 0
    else
      var front, e := events[..|events| - 1], events[|events| - 1];
      if e == SocketOpens then 0
      else if Reached(o, front).value.state.socket.None? && Reached(o, events).value.state.socket.Some?
      then Attempts(o, front) + 1
      else Attempts(o, front)
  }

  lemma {:induction false} AttemptsAreCounted(o: Options, events: seq<Event>)
    requires Reached(o, events).Some?
    ensures Reached(o, events).value.state.attemptCount == Attempts(o, events)
  {
    hide Queued, DelaysMatch, SingleToken, Step, Enabled;
    if events != [] {
      var front, e := events[..|events| - 1], events[|events| - 1];
      AttemptsAreCounted(o, front);
      AlwaysInvariant(o, front);
      AttemptsAfterStep(o, Reached(o, front).value, e);
    }
  }

  lemma {:induction false} AttemptsAfterStep(o: Options, s: System, e: Event)
    requires SingleToken(s) && s.periods != [] && Enabled(s, e)
    ensures var t := Step(o, s, e).state;
            t.attemptCount == if e == SocketOpens then 0
                              else if s.state.socket.None? && t.socket.Some? then s.state.attemptCount + 1
                              else s.state.attemptCount
  {
    hide ReconnectDelay, LastN, WithLast;
  }
}
