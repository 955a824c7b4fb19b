/** The live-write protocol as a whole: the desktop's store, the SDK's dispatcher, and a
    network between them that may delay, reorder, repeat and lose messages. */
module WriteProtocol {
  import opened Values
  import opened Pointer
  import opened Commands
  import opened Equality
  import opened Writes
  import Serialize
  import opened Truncation

  /** `outbound`: every command ever handed to the network. `issued`: the request ids ever
      drawn. `reports`: what the desktop has heard so far. */
  datatype System = System(desktop: Desktop, sdk: Sdk, outbound: set<Command>, issued: map<Ref, nat>,
                           reports: seq<Message>)

  const START := System(EMPTY, Sdk(NO_HANDLERS, [], []), {}, map[], [])

  /** A command as the SDK decodes it. */
  function Delivered(c: Command): Command {
    match c
    case StorageWrite(_, _, _, _, _, value) => c.(value := Wire(value))
    case StateWrite(_, _, state) => c.(state := Wire(state))
    case QueryWrite(_, _, data) => c.(data := Wire(data))
    case _ => c
  }

  datatype Event =
    | Sends(command: Command)
    | SendResolves(ref: Ref)
    | SendRejects(ref: Ref)
    | Ticks(now: nat)
    | Fires(timer: Timer)
    | AppConnects
    | AppDisconnects
    | AppRemoved
    | HandlerRegistered(slot: Slot, handler: Handler)
    | HandlerUnregistered(slot: Slot, handler: Handler)
    | CommandArrives(command: Command)
    | HandlerCalled(index: nat)
    | HandlerSettles(index: nat, outcome: Outcome)
    | Hears(message: Message)

  predicate WasReplied(sdk: Sdk, reply: Reply) {
    exists k :: 0 <= k < |sdk.sent| && sdk.sent[k].reply == reply
  }

  /** Request ids are drawn fresh; timers fire no earlier than due; commands and results
      come from the other side; what the app reports of itself is arbitrary. */
  predicate Enabled(s: System, e: Event) {
    match e
    case Sends(c) => RefOf(c) !in s.issued
    case SendResolves(r) => r in s.desktop.sending
    case SendRejects(r) => r in s.desktop.sending
    case Ticks(now) => now >= s.desktop.now
    case Fires(t) => t in s.desktop.timers && t.due <= s.desktop.now
    case CommandArrives(c) => c in s.outbound
    case HandlerCalled(i) => i < |s.sdk.log| && s.sdk.log[i].progress.Waiting?
    case HandlerSettles(i, _) => i < |s.sdk.log| && s.sdk.log[i].progress.Calling?
    case Hears(m) => m.Result? ==> WasReplied(s.sdk, m.reply)
    case _ => true
  }

  function Step(s: System, e: Event): System
    requires Enabled(s, e)
  {
    match e
    case Sends(c) =>
      s.(desktop := Issued(s.desktop, c), issued := s.issued[RefOf(c) := |s.reports|],
         outbound := if Sendable(c) then s.outbound + {c} else s.outbound)
    case SendResolves(r) => s.(desktop := SendResolved(s.desktop, r))
    case SendRejects(r) => s.(desktop := SendRejected(s.desktop, r))
    case Ticks(now) => s.(desktop := s.desktop.(now := now))
    case Fires(t) => s.(desktop := Fired(s.desktop, t))
    case AppConnects => s.(desktop := s.desktop.(known := true))
    case AppDisconnects => s.(desktop := Disconnected(s.desktop))
    case AppRemoved => s.(desktop := Removed(s.desktop))
    case HandlerRegistered(slot, h) => s.(sdk := s.sdk.(handlers := Register(s.sdk.handlers, slot, h)))
    case HandlerUnregistered(slot, h) => s.(sdk := s.sdk.(handlers := Unregister(s.sdk.handlers, slot, h)))
    case CommandArrives(c) => s.(sdk := Commands.Received(s.sdk, Delivered(c)))
    case HandlerCalled(i) => s.(sdk := Called(s.sdk, i))
    case HandlerSettles(i, outcome) => s.(sdk := SettledAt(s.sdk, i, s.sdk.log[i].progress.handler, outcome))
    case Hears(m) => s.(desktop := Heard(s.desktop, m), reports := s.reports + [m])
  }

  /** Where the events lead from the start, if each was possible in its turn. */
  function Reached(events: seq<Event>): Option<System> {
    if events == [] then Some(START)
    else
      var before, e := Reached(events[..|events| - 1]), events[|events| - 1];
      if before.Some? && Enabled(before.value, e) then Some(Step(before.value, e)) else None
  }

  predicate Possible(events: seq<Event>) {
    Reached(events).Some?
  }

  function After(events: seq<Event>): System
    requires Possible(events)
  {
    Reached(events).value
  }

  // ---- no write is stuck ----

  ghost predicate Armed(d: Desktop, r: Ref, job: Job) {
    exists due: nat :: Timer(r, due, job) in d.timers
  }

  function Delay(t: Timer): nat {
    if t.job == Timeout then STORAGE_WRITE_TIMEOUT_MS else Window(t.ref.kind)
  }

  /** What is pending waits for its send or its timeout, what is applied for its sweep. */
  ghost predicate Timely(d: Desktop) {
    && (forall r | r in d.writes ::
          && (d.writes[r].status == Pending ==> r in d.sending || Armed(d, r, Timeout))
          && (d.writes[r].status == Applied ==> Armed(d, r, Sweep)))
    && (forall t | t in d.timers :: t.due <= d.now + Delay(t))
  }

  lemma {:induction false} IssuedIsTimely(d: Desktop, c: Command)
    requires Timely(d)
    ensures Timely(Issued(d, c))
  {
    hide Armed, Sendable;
    assert forall r, job :: Armed(Issued(d, c), r, job) == Armed(d, r, job) by {
      SameTimersArmed(d, Issued(d, c));
    }
  }

  lemma {:induction false} SameTimersArmed(d: Desktop, d': Desktop)
    requires d'.timers == d.timers
    ensures forall r, job :: Armed(d', r, job) == Armed(d, r, job)
  {
  }

  lemma {:induction false} SendResolvedIsTimely(d: Desktop, r: Ref)
    requires Timely(d)
    ensures Timely(SendResolved(d, r))
  {
    var d' := SendResolved(d, r);
    assert Timer(r, d.now + STORAGE_WRITE_TIMEOUT_MS, Timeout) in d'.timers;
    MoreTimersArmed(d, d');
  }

  lemma {:induction false} MoreTimersArmed(d: Desktop, d': Desktop)
    requires forall t | t in d.timers :: t in d'.timers
    ensures forall r, job | Armed(d, r, job) :: Armed(d', r, job)
  {
    forall r, job | Armed(d, r, job) ensures Armed(d', r, job)
    {
      var due: nat :| Timer(r, due, job) in d.timers;
      assert Timer(r, due, job) in d'.timers;
    }
  }

  lemma {:induction false} SendRejectedIsTimely(d: Desktop, r: Ref)
    requires Timely(d)
    ensures Timely(SendRejected(d, r))
  {
    hide Armed;
    SameTimersArmed(d, SendRejected(d, r));
  }

  lemma {:induction false} FiredIsTimely(d: Desktop, t: Timer)
    requires Timely(d) && t in d.timers
    ensures Timely(Fired(d, t))
  {
    hide Armed;
    var d' := Fired(d, t);
    OthersStayArmed(d, d', t);
  }

  lemma {:induction false} OthersStayArmed(d: Desktop, d': Desktop, t: Timer)
    requires d'.timers == d.timers - multiset{t}
    ensures forall r, job | Armed(d, r, job) && !(r == t.ref && job == t.job) :: Armed(d', r, job)
  {
    forall r, job | Armed(d, r, job) && !(r == t.ref && job == t.job) ensures Armed(d', r, job)
    {
      var due: nat :| Timer(r, due, job) in d.timers;
      assert Timer(r, due, job) in d'.timers;
    }
  }

  lemma {:induction false} HeardIsTimely(d: Desktop, m: Message)
    requires Timely(d)
    ensures Timely(Heard(d, m))
  {
    hide Armed, Handled;
    var d' := Heard(d, m);
    MoreTimersArmed(d, d');
    forall r | r in d'.writes && d'.writes[r].status == Applied ensures Armed(d', r, Sweep)
    {
      if r in NewlyApplied(d.writes, d'.writes) {
        SweepIsArmed(d, m, r);
      }
    }
    HandledMakesNothingPending(d.writes, m);
  }

  lemma {:induction false} SweepIsArmed(d: Desktop, m: Message, r: Ref)
    requires r in NewlyApplied(d.writes, Handled(d.writes, m))
    ensures Armed(Heard(d, m), r, Sweep)
  {
    hide Handled;
    assert SweepFor(r, d.now) in Sweeps(NewlyApplied(d.writes, Handled(d.writes, m)), d.now);
    assert Timer(r, d.now + Window(r.kind), Sweep) in Heard(d, m).timers;
  }

  /** No message adds an entry, changes a command, or makes anything pending. */
  lemma {:induction false} HandledMakesNothingPending(writes: Writes, m: Message)
    ensures var next := Handled(writes, m);
            && next.Keys == writes.Keys
            && forall r | r in next :: next[r].command == writes[r].command
                                       && (next[r].status == Pending ==> writes[r].status == Pending)
  {
  }

  lemma {:induction false} DisconnectedIsTimely(d: Desktop)
    requires Timely(d)
    ensures Timely(Disconnected(d)) && Timely(Removed(d))
  {
    hide Armed;
    SameTimersArmed(d, Disconnected(d));
  }

  lemma {:induction false} TickedIsTimely(d: Desktop, now: nat, known: bool)
    requires Timely(d) && now >= d.now
    ensures Timely(d.(now := now)) && Timely(d.(known := known))
  {
    hide Armed;
    SameTimersArmed(d, d.(now := now));
    SameTimersArmed(d, d.(known := known));
  }

  lemma {:induction false} StepIsTimely(s: System, e: Event)
    requires Enabled(s, e) && Timely(s.desktop)
    ensures Timely(Step(s, e).desktop)
  {
    hide Timely, Issued, SendResolved, SendRejected, Fired, Heard, Disconnected, Removed;
    match e
    case Sends(c) => IssuedIsTimely(s.desktop, c);
    case SendResolves(r) => SendResolvedIsTimely(s.desktop, r);
    case SendRejects(r) => SendRejectedIsTimely(s.desktop, r);
    case Ticks(now) => TickedIsTimely(s.desktop, now, true);
    case Fires(t) => FiredIsTimely(s.desktop, t);
    case AppConnects => TickedIsTimely(s.desktop, s.desktop.now, true);
    case AppDisconnects => DisconnectedIsTimely(s.desktop);
    case AppRemoved => DisconnectedIsTimely(s.desktop);
    case Hears(m) => HeardIsTimely(s.desktop, m);
    case _ =>
  }

  lemma {:induction false} AlwaysTimely(events: seq<Event>)
    requires Possible(events)
    ensures Timely(After(events).desktop)
  {
    hide Enabled, Step;
    if events != [] {
      AlwaysTimely(events[..|events| - 1]);
      StepIsTimely(After(events[..|events| - 1]), events[|events| - 1]);
    }
  }

  /** In every run: once no send is under way and every timer has fired, no write is left
      pending or applied; and no timer is due later than its delay from now. */
  lemma {:induction false} NoWriteIsStuck(events: seq<Event>)
    requires Possible(events)
    ensures var d := After(events).desktop;
            && (d.sending == {} && d.timers == multiset{} ==>
                  forall r | r in d.writes :: d.writes[r].status == Failed || d.writes[r].status == Superseded)
            && (forall t | t in d.timers :: t.due <= d.now + Delay(t))
  {
    AlwaysTimely(events);
  }

  // ---- what is resolved stays so until the app is heard ----

  /** The entry is as it was, or was pending and has failed. */
  predicate Stays(before: Writes, after: Writes, r: Ref) {
    && r in before && r in after
    && (after[r] == before[r] || (before[r].status == Pending && after[r] == Write(before[r].command, Failed)))
  }

  lemma {:induction false} FailuresStay(writes: Writes, r: Ref, other: Ref)
    ensures r in FailOne(writes, other) ==> Stays(writes, FailOne(writes, other), r)
    ensures r in AllFailed(writes) ==> Stays(writes, AllFailed(writes), r)
    ensures r in Swept(writes, other) ==> Stays(writes, Swept(writes, other), r)
    ensures r in writes ==> Stays(writes, writes, r)
  {
  }

  lemma {:induction false} StepKeepsEntries(s: System, e: Event, r: Ref)
    requires Enabled(s, e) && r in Step(s, e).desktop.writes
    requires !e.Hears? && !(e.Sends? && r == RefOf(e.command))
    ensures Stays(s.desktop.writes, Step(s, e).desktop.writes, r)
  {
    hide KindOf, Commands.Received, Called, SettledAt, Register, Unregister, FailOne, AllFailed, Swept, Stays;
    if e.Sends? {
      SendingStays(s.desktop, e.command, r);
    } else {
      FailuresStay(s.desktop.writes, r, if e.Fires? then e.timer.ref else if e.SendRejects? then e.ref else r);
    }
  }

  lemma {:induction false} SendingStays(d: Desktop, c: Command, r: Ref)
    requires r in Issued(d, c).writes && r != RefOf(c)
    ensures Stays(d.writes, Issued(d, c).writes, r)
  {
    hide Sendable, KindOf;
  }

  /** What a result says about the entry that it names. */
  function Verdict(reply: Reply): Status {
    if reply.ok then Applied else Failed
  }

  /** The message is a result that names the entry and says otherwise, or a query report on
      an applied write to that query which it does not match. */
  predicate Overturns(w: Write, r: Ref, m: Message) {
    || (m.Result? && Ref.Ref(m.reply.kind, m.reply.requestId) == r && w.status != Verdict(m.reply))
    || (m.QueryChange? && w.command.QueryWrite? && w.command.queryHash == m.queryHash && w.status == Applied
        && !Matches(w.command, m))
  }

  /** A resolved entry is not final, but timeouts, disconnects, refused sends and storage
      reports never touch it. It changes exactly when a result of its own says otherwise or,
      if it is an applied query write, when a report on its query shows other data. */
  lemma {:induction false} ResultChangesExactly(s: System, e: Event, r: Ref)
    requires Enabled(s, e) && Known(s)
    requires r in s.desktop.writes && s.desktop.writes[r].status != Pending
    requires r in Step(s, e).desktop.writes
    ensures var w, next := s.desktop.writes[r], Step(s, e).desktop.writes[r];
            && (next != w <==> e.Hears? && Overturns(w, r, e.message))
            && (next != w ==>
                  next == Write(w.command, if e.message.Result? then Verdict(e.message.reply) else Superseded))
  {
    hide Step, Matches, DeepEqual;
    if e.Hears? {
      HearingStep(s, e.message);
    } else {
      FreshIsNew(s, e);
      StepKeepsEntries(s, e, r);
    }
  }

  lemma {:induction false} FreshIsNew(s: System, e: Event)
    requires Enabled(s, e) && Known(s)
    ensures e.Sends? ==> RefOf(e.command) !in s.desktop.writes
  {
  }

  lemma {:induction false} OneMore(events: seq<Event>, e: Event)
    requires Possible(events) && Enabled(After(events), e)
    ensures Possible(events + [e]) && After(events + [e]) == Step(After(events), e)
  {
    hide Enabled, Step;
    assert (events + [e])[..|events|] == events;
  }

  const LATE := ClearCache("cc_1")
  const LATE_REF := Ref.Ref(ClearCacheKind, "cc_1")

  const LATE_TIMER := Timer(LATE_REF, STORAGE_WRITE_TIMEOUT_MS, Timeout)

  /** The caches are to be cleared; this is how far it has come. */
  function Clearing(status: Status, sending: set<Ref>, timers: multiset<Timer>, now: nat, log: seq<Entry>): System {
    System(Desktop(false, map[LATE_REF := Write(LATE, status)], sending, timers, now), Sdk(NO_HANDLERS, log, []),
           {LATE}, map[LATE_REF := 0], [])
  }

  lemma {:induction false} ClearingIsSent()
    ensures Enabled(START, Sends(LATE)) && Step(START, Sends(LATE)) == Clearing(Pending, {LATE_REF}, multiset{}, 0, [])
    ensures var s := Clearing(Pending, {LATE_REF}, multiset{}, 0, []);
            Enabled(s, SendResolves(LATE_REF))
            && Step(s, SendResolves(LATE_REF)) == Clearing(Pending, {}, multiset{LATE_TIMER}, 0, [])
  {
  }

  lemma {:induction false} ClearingArrives()
    ensures var s := Clearing(Pending, {}, multiset{LATE_TIMER}, 0, []);
            Enabled(s, CommandArrives(LATE))
            && Step(s, CommandArrives(LATE)) == Clearing(Pending, {}, multiset{LATE_TIMER}, 0, [Entry(LATE, Waiting(None))])
    ensures var s := Clearing(Pending, {}, multiset{LATE_TIMER}, 0, [Entry(LATE, Waiting(None))]);
            Enabled(s, HandlerCalled(0))
            && Step(s, HandlerCalled(0)) == Clearing(Pending, {}, multiset{LATE_TIMER}, 0, [Entry(LATE, Calling(None))])
  {
  }

  lemma {:induction false} ClearingTimesOut()
    ensures var s := Clearing(Pending, {}, multiset{LATE_TIMER}, 0, [Entry(LATE, Calling(None))]);
            Enabled(s, Ticks(STORAGE_WRITE_TIMEOUT_MS))
            && Step(s, Ticks(STORAGE_WRITE_TIMEOUT_MS))
            == Clearing(Pending, {}, multiset{LATE_TIMER}, STORAGE_WRITE_TIMEOUT_MS, [Entry(LATE, Calling(None))])
    ensures var s := Clearing(Pending, {}, multiset{LATE_TIMER}, STORAGE_WRITE_TIMEOUT_MS, [Entry(LATE, Calling(None))]);
            Enabled(s, Fires(LATE_TIMER))
            && Step(s, Fires(LATE_TIMER))
            == Clearing(Failed, {}, multiset{}, STORAGE_WRITE_TIMEOUT_MS, [Entry(LATE, Calling(None))])
  {
  }

  lemma {:induction false} ClearingCompletes()
    ensures var s := Clearing(Failed, {}, multiset{}, STORAGE_WRITE_TIMEOUT_MS, [Entry(LATE, Calling(None))]);
            var reply := Reply(ClearCacheKind, "cc_1", true, None);
            && Enabled(s, HandlerSettles(0, Completed))
            && var t := Step(s, HandlerSettles(0, Completed));
               && t.desktop == s.desktop && WasReplied(t.sdk, reply)
               && Enabled(t, Hears(Result(reply)))
               && Step(t, Hears(Result(reply))).desktop.writes == map[LATE_REF := Write(LATE, Applied)]
  {
    var s := Clearing(Failed, {}, multiset{}, STORAGE_WRITE_TIMEOUT_MS, [Entry(LATE, Calling(None))]);
    var t := Step(s, HandlerSettles(0, Completed));
    assert t.sdk.sent[0].reply == Reply(ClearCacheKind, "cc_1", true, None);
  }

  /** A run in which the caches are cleared, but not within the three seconds: the entry has
      failed when the handler completes, and then becomes applied. */
  lemma {:induction false} TimedOutBecomesApplied() returns (early: seq<Event>, late: seq<Event>)
    ensures Possible(early) && Possible(late) && early <= late
    ensures LATE_REF in After(early).desktop.writes && After(early).desktop.writes[LATE_REF].status == Failed
    ensures LATE_REF in After(late).desktop.writes && After(late).desktop.writes[LATE_REF].status == Applied
  {
    hide Step, Enabled, Reached;
    ClearingIsSent();
    ClearingArrives();
    ClearingTimesOut();
    ClearingCompletes();
    NothingHappened();
    early := Extended([], Sends(LATE));
    early := Extended(early, SendResolves(LATE_REF));
    early := Extended(early, CommandArrives(LATE));
    early := Extended(early, HandlerCalled(0));
    early := Extended(early, Ticks(STORAGE_WRITE_TIMEOUT_MS));
    early := Extended(early, Fires(LATE_TIMER));
    late := Extended(early, HandlerSettles(0, Completed));
    late := Extended(late, Hears(Result(Reply(ClearCacheKind, "cc_1", true, None))));
  }

  lemma {:induction false} NothingHappened()
    ensures Possible([]) && After([]) == START
  {
  }

  lemma {:induction false} Extended(events: seq<Event>, e: Event) returns (longer: seq<Event>)
    requires Possible(events) && Enabled(After(events), e)
    ensures Possible(longer) && After(longer) == Step(After(events), e) && events <= longer
  {
    OneMore(events, e);
    longer := events + [e];
  }

  // ---- applied means applied ----

  predicate HandlerCompleted(sdk: Sdk, c: Command) {
    exists i :: 0 <= i < |sdk.log| && CompletedAt(sdk.log[i], c)
  }

  predicate CompletedAt(e: Entry, c: Command) {
    e.command == c && e.progress.Settled? && e.progress.outcome.Completed?
  }

  /** Among the reports from the given one on, one says so. */
  predicate AppReported(reports: seq<Message>, since: nat, c: Command) {
    exists j :: since <= j < |reports| && Matches(c, reports[j])
  }

  /** The handler was given this very command and completed normally, or the app reported
      the written value for the written target after the command was issued. */
  predicate Confirmed(s: System, c: Command) {
    RefOf(c) in s.issued
    && (HandlerCompleted(s.sdk, Delivered(c)) || AppReported(s.reports, s.issued[RefOf(c)], c))
  }

  /** Request ids identify commands. */
  ghost predicate Known(s: System) {
    && (forall r | r in s.desktop.writes :: RefOf(s.desktop.writes[r].command) == r && r in s.issued)
    && (forall c | c in s.outbound ::
          && RefOf(c) in s.issued && Sendable(c)
          && (RefOf(c) in s.desktop.writes ==> s.desktop.writes[RefOf(c)].command == c))
    && (forall r | r in s.issued :: s.issued[r] <= |s.reports|)
  }

  ghost predicate CameFrom(outbound: set<Command>, c: Command) {
    exists o :: o in outbound && c == Delivered(o)
  }

  ghost predicate Honest(s: System) {
    && Commands.Invariant(s.sdk)
    && forall i | 0 <= i < |s.sdk.log| :: CameFrom(s.outbound, s.sdk.log[i].command)
  }

  ghost predicate Truthful(s: System) {
    forall r | r in s.desktop.writes && s.desktop.writes[r].status == Applied ::
      Confirmed(s, s.desktop.writes[r].command)
  }

  lemma {:induction false} SendingKeepsKnown(s: System, c: Command)
    requires Enabled(s, Sends(c)) && Known(s)
    ensures Known(Step(s, Sends(c)))
    ensures var w := Step(s, Sends(c)).desktop.writes; RefOf(c) in w && w[RefOf(c)].status != Applied
  {
    hide Sendable, KindOf;
  }

  lemma {:induction false} StepKeepsKnown(s: System, e: Event)
    requires Enabled(s, e) && Known(s)
    ensures Known(Step(s, e))
  {
    if e.Sends? {
      SendingKeepsKnown(s, e.command);
    } else {
      hide Handled, Sendable, KindOf, RefOf, Commands.Received, Called, SettledAt, Register, Unregister, Step, Enabled;
      var t := Step(s, e);
      SameOutbound(s, e);
      forall r | r in t.desktop.writes
        ensures r in s.desktop.writes && t.desktop.writes[r].command == s.desktop.writes[r].command
      {
        if e.Hears? {
          HearingStep(s, e.message);
          HandledMakesNothingPending(s.desktop.writes, e.message);
        } else {
          StepKeepsEntries(s, e, r);
        }
      }
    }
  }

  lemma {:induction false} SameOutbound(s: System, e: Event)
    requires Enabled(s, e) && !e.Sends?
    ensures Step(s, e).outbound == s.outbound && Step(s, e).issued == s.issued
  {
    hide Commands.Received, Called, SettledAt, Register, Unregister;
  }

  lemma {:induction false} StepKeepsHonest(s: System, e: Event)
    requires Enabled(s, e) && Honest(s)
    ensures Honest(Step(s, e))
  {
    hide Commands.Invariant, Handled, Issued, Dispatch, Register, Unregister, KindOf, CameFrom;
    var t := Step(s, e);
    SdkStep(s, e);
    forall i | 0 <= i < |t.sdk.log| ensures CameFrom(t.outbound, t.sdk.log[i].command)
    {
      if i < |s.sdk.log| {
        assert t.sdk.log[i].command == s.sdk.log[i].command;
        StillCameFrom(s.outbound, t.outbound, s.sdk.log[i].command);
      } else {
        NewlyCameFrom(s.outbound, e.command);
      }
    }
  }

  lemma {:induction false} StillCameFrom(outbound: set<Command>, more: set<Command>, c: Command)
    requires CameFrom(outbound, c) && outbound <= more
    ensures CameFrom(more, c)
  {
    var o :| o in outbound && c == Delivered(o);
    assert o in more;
  }

  lemma {:induction false} NewlyCameFrom(outbound: set<Command>, o: Command)
    requires o in outbound
    ensures CameFrom(outbound, Delivered(o))
  {
  }

  /** The SDK's part of a step is one of the dispatcher's own steps. */
  lemma {:induction false} SdkStep(s: System, e: Event)
    requires Enabled(s, e) && Commands.Invariant(s.sdk)
    ensures Commands.Invariant(Step(s, e).sdk)
  {
    hide Commands.Invariant, Handled, Issued, Register, Unregister, Commands.Received, Called, SettledAt;
    var t := Step(s, e);
    if t.sdk != s.sdk {
      assert Next(s.sdk, t.sdk) by {
        match e
        case HandlerSettles(i, outcome) => assert Commands.Settles(s.sdk, t.sdk, i, outcome);
        case _ =>
      }
      NextKeepsInvariant(s.sdk, t.sdk);
    }
  }

  lemma {:induction false} PositiveReply(sdk: Sdk, k: nat)
    requires Commands.Invariant(sdk) && k < |sdk.sent| && sdk.sent[k].reply.ok
    ensures sdk.sent[k].sender < |sdk.log|
    ensures var e := sdk.log[sdk.sent[k].sender];
            && CompletedAt(e, e.command)
            && RefOf(e.command) == Ref.Ref(sdk.sent[k].reply.kind, sdk.sent[k].reply.requestId)
  {
    hide Answers;
  }

  lemma {:induction false} Origin(outbound: set<Command>, c: Command) returns (o: Command)
    requires CameFrom(outbound, c)
    ensures o in outbound && c == Delivered(o) && RefOf(o) == RefOf(c)
  {
    o :| o in outbound && c == Delivered(o);
  }

  /** A positive result on the wire means that the write it names was carried out. */
  lemma {:induction false} ResultIsTrue(s: System, reply: Reply)
    requires Known(s) && Honest(s) && WasReplied(s.sdk, reply) && reply.ok
    requires Ref(reply.kind, reply.requestId) in s.desktop.writes
    ensures HandlerCompleted(s.sdk, Delivered(s.desktop.writes[Ref(reply.kind, reply.requestId)].command))
  {
    hide Answers, Sendable, CameFrom, Commands.Invariant;
    var k :| 0 <= k < |s.sdk.sent| && s.sdk.sent[k].reply == reply;
    PositiveReply(s.sdk, k);
    var i := s.sdk.sent[k].sender;
    var c := s.sdk.log[i].command;
    var o := Origin(s.outbound, c);
    assert RefOf(o) == RefOf(c) == Ref(reply.kind, reply.requestId);
    assert CompletedAt(s.sdk.log[i], Delivered(s.desktop.writes[RefOf(o)].command));
  }

  /** Evidence is never lost. */
  lemma {:induction false} StaysConfirmed(s: System, e: Event, c: Command)
    requires Enabled(s, e) && Confirmed(s, c)
    ensures Confirmed(Step(s, e), c)
  {
    hide Matches, Delivered, Enabled, Step, KindOf;
    var t := Step(s, e);
    StepKeepsEvidence(s, e);
    if HandlerCompleted(s.sdk, Delivered(c)) {
      var i :| 0 <= i < |s.sdk.log| && CompletedAt(s.sdk.log[i], Delivered(c));
      assert CompletedAt(t.sdk.log[i], Delivered(c));
    } else {
      var j :| s.issued[RefOf(c)] <= j < |s.reports| && Matches(c, s.reports[j]);
      assert t.issued[RefOf(c)] == s.issued[RefOf(c)];
      assert Matches(c, t.reports[j]);
    }
  }

  /** What has settled stays settled, what was heard or issued stays recorded. */
  lemma {:induction false} StepKeepsEvidence(s: System, e: Event)
    requires Enabled(s, e)
    ensures var t := Step(s, e);
            && s.reports <= t.reports && |s.sdk.log| <= |t.sdk.log|
            && (forall i | 0 <= i < |s.sdk.log| && s.sdk.log[i].progress.Settled? :: t.sdk.log[i] == s.sdk.log[i])
            && (forall r | r in s.issued :: r in t.issued && t.issued[r] == s.issued[r])
  {
    hide Handled, Issued, Dispatch, Register, Unregister, KindOf, Delivered;
  }

  lemma {:induction false} StepKeepsTruthful(s: System, e: Event)
    requires Enabled(s, e) && Known(s) && Honest(s) && Truthful(s)
    ensures Truthful(Step(s, e))
  {
    hide Honest, Known, Confirmed, Handled, Step, Enabled;
    var t := Step(s, e);
    forall r | r in t.desktop.writes && t.desktop.writes[r].status == Applied
      ensures Confirmed(t, t.desktop.writes[r].command)
    {
      if e.Sends? && r == RefOf(e.command) {
        SendingKeepsKnown(s, e.command);
      } else if e.Hears? {
        HearingStep(s, e.message);
        HearingConfirms(s, e.message, r);
      } else {
        StepKeepsEntries(s, e, r);
        StaysConfirmed(s, e, s.desktop.writes[r].command);
      }
    }
  }

  lemma {:induction false} HearingStep(s: System, m: Message)
    requires Enabled(s, Hears(m))
    ensures Step(s, Hears(m)).desktop.writes == Handled(s.desktop.writes, m)
  {
  }

  lemma {:induction false} HearingConfirms(s: System, m: Message, r: Ref)
    requires Enabled(s, Hears(m)) && Known(s) && Honest(s) && Truthful(s)
    requires r in Handled(s.desktop.writes, m) && Handled(s.desktop.writes, m)[r].status == Applied
    ensures Confirmed(Step(s, Hears(m)), Handled(s.desktop.writes, m)[r].command)
  {
    hide Honest, Known, HandlerCompleted, Delivered, Matches, Concerns, KindOf;
    HandledMakesNothingPending(s.desktop.writes, m);
    IssuedBefore(s, r);
    var w := s.desktop.writes[r];
    if w.status == Applied && Handled(s.desktop.writes, m)[r] == w {
      StaysConfirmed(s, Hears(m), w.command);
    } else if m.Result? {
      ResultIsTrue(s, m.reply);
    } else {
      assert (s.reports + [m])[|s.reports|] == m;
      assert Matches(w.command, m);
    }
  }

  lemma {:induction false} IssuedBefore(s: System, r: Ref)
    requires Known(s) && r in s.desktop.writes
    ensures RefOf(s.desktop.writes[r].command) == r && r in s.issued && s.issued[r] <= |s.reports|
  {
  }

  lemma {:induction false} AlwaysTruthful(events: seq<Event>)
    requires Possible(events)
    ensures var s := After(events); Known(s) && Honest(s) && Truthful(s)
  {
    hide Enabled, Step, Known, Honest, Truthful;
    if events == [] {
      StartIsTruthful();
    } else {
      var s, e := After(events[..|events| - 1]), events[|events| - 1];
      AlwaysTruthful(events[..|events| - 1]);
      StepKeepsKnown(s, e);
      StepKeepsHonest(s, e);
      StepKeepsTruthful(s, e);
    }
  }

  lemma {:induction false} StartIsTruthful()
    ensures Known(START) && Honest(START) && Truthful(START)
  {
    NothingAnswered();
  }

  /** In every run a write is marked applied only if the SDK's handler was given this very
      command and completed normally, or the app itself reported the write after it was
      issued. */
  lemma {:induction false} AppliedIsConfirmed(events: seq<Event>, r: Ref)
    requires Possible(events)
    requires r in After(events).desktop.writes && After(events).desktop.writes[r].status == Applied
    ensures Confirmed(After(events), After(events).desktop.writes[r].command)
  {
    hide Confirmed, Known, Honest;
    AlwaysTruthful(events);
  }

  /** A report that confirms a `set` carries exactly the written value, if that value holds
      no undefined field. */
  lemma {:induction false} ReportCarriesTheValue(c: Command, m: Message)
    requires c.StorageWrite? && c.op != "remove" && NoUndefFields(c.value) && c.value != Undef
    requires Matches(c, m)
    ensures m.StorageChange? && m.engine == c.engine && m.dbName == c.dbName && m.key.Some? && m.key.value == c.key
    ensures m.changeType != "remove" && m.value == c.value
  {
    DeepEqualIsEqual(c.value, if m.changeType == "remove" then Undef else m.value);
  }

  /** So does one that confirms a query write. */
  lemma {:induction false} QueryReportCarriesTheData(c: Command, m: Message)
    requires c.QueryWrite? && NoUndefFields(c.data) && c.data != Undef
    requires Matches(c, m)
    ensures m.QueryChange? && m.queryHash == c.queryHash && m.changeType != "removed"
    ensures m.query == Some(c.data)
  {
    DeepEqualIsEqual(c.data, if m.query.Some? then m.query.value else Undef);
  }

  /** The value that a command carries, if it has one to be searched. */
  function Carried(c: Command): Value {
    match c
    case StorageWrite(_, _, _, op, _, value) => if op == "set" then value else Undef
    case StateWrite(_, _, state) => state
    case QueryWrite(_, _, data) => data
    case _ => Undef
  }

  lemma {:induction false} CarriedIsSearched(c: Command)
    requires Sendable(c)
    ensures !ContainsTruncatedValue(Carried(c), 0)
  {
  }

  /** No truncation marker leaves the desktop within twelve levels of the root; of the
      values that the serializer and single edits produce, none at all does. */
  lemma {:induction false} NoMarkerIsSent(events: seq<Event>, c: Command)
    requires Possible(events) && c in After(events).outbound
    ensures forall d: nat, w | Below(Carried(c), d, w) && d <= Serialize.MAX_SERIALIZE_DEPTH :: !Serialize.IsMarker(w)
    ensures MarkersWithin(Carried(c), Serialize.MAX_SERIALIZE_DEPTH) ==> !Serialize.HasMarker(Carried(c))
    ensures c.QueryWrite? ==> c.data != Undef
  {
    hide Serialize.HasMarker, Serialize.IsMarker, MarkersWithin, Below, ContainsTruncatedValue, Carried, Honest;
    AlwaysTruthful(events);
    SentIsSendable(After(events), c);
    CarriedIsSearched(c);
    SearchedExactly(Carried(c), 0);
    if MarkersWithin(Carried(c), Serialize.MAX_SERIALIZE_DEPTH) {
      SearchIsExact(Carried(c), 0);
    }
  }

  lemma {:induction false} SentIsSendable(s: System, c: Command)
    requires Known(s) && c in s.outbound
    ensures Sendable(c) && (c.QueryWrite? ==> c.data != Undef)
  {
    hide ContainsTruncatedValue;
  }
}
