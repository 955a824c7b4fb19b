/** What becomes of a write: for every run and every event, how each entry of the pending
    maps, and each timer, goes on. */
module WriteOutcomes {
  import opened Values
  import opened Pointer
  import opened Commands
  import opened Equality
  import opened Writes
  import opened WriteProtocol
  import Serialize
  import Truncation

  function WritesAfter(events: seq<Event>): Writes
    requires Possible(events)
  {
    After(events).desktop.writes
  }

  // ---- what the app answers ----

  /** A result decides the entry that it names, whatever its status was, and no other. */
  lemma {:induction false} ResultDecides(events: seq<Event>, reply: Reply)
    requires Possible(events) && Enabled(After(events), Hears(Result(reply)))
    ensures Possible(events + [Hears(Result(reply))])
    ensures var before, after := WritesAfter(events), WritesAfter(events + [Hears(Result(reply))]);
            && after.Keys == before.Keys
            && forall r | r in before ::
                 && after[r].command == before[r].command
                 && after[r].status == (if r == Ref.Ref(reply.kind, reply.requestId)
                                        then (if reply.ok then Applied else Failed) else before[r].status)
  {
    hide Enabled;
    OneMore(events, Hears(Result(reply)));
    HearingStep(After(events), Result(reply));
  }

  /** A storage report decides the pending writes to its key: each is applied if the report
      shows what was written, and superseded otherwise. Nothing else changes. */
  lemma {:induction false} StorageReportDecides(events: seq<Event>, m: Message, r: Ref)
    requires Possible(events) && m.StorageChange? && r in WritesAfter(events)
    ensures Possible(events + [Hears(m)]) && r in WritesAfter(events + [Hears(m)])
    ensures var w, next := WritesAfter(events)[r], WritesAfter(events + [Hears(m)])[r];
            var c := w.command;
            var sameKey := c.StorageWrite? && c.engine == m.engine && c.dbName == m.dbName && Some(c.key) == m.key;
            && next.command == c
            && (w.status != Pending || !sameKey ==> next == w)
            && (w.status == Pending && sameKey ==> next.status == Applied || next.status == Superseded)
            && (w.status == Pending && sameKey && c.op == "remove" ==>
                  (next.status == Applied <==> m.changeType == "remove"))
            && (w.status == Pending && sameKey && c.op != "remove" && NoUndefFields(c.value) ==>
                  (next.status == Applied <==> c.value == if m.changeType == "remove" then Undef else m.value))
  {
    hide Enabled, Step, Judged, NoUndefFields;
    MayHear(After(events), m);
    OneMore(events, Hears(m));
    HearingStep(After(events), m);
    assert WritesAfter(events + [Hears(m)])[r] == Judged(WritesAfter(events)[r], m);
    StorageJudged(WritesAfter(events)[r], m);
  }

  lemma {:induction false} EqualIfPlain(a: Value, b: Value)
    requires NoUndefFields(a)
    ensures DeepEqual(a, b) <==> a == b
  {
    if DeepEqual(a, b) {
      DeepEqualIsEqual(a, b);
    } else if a == b {
      Reflexive(a);
    }
  }

  lemma {:induction false} StorageJudged(w: Write, m: Message)
    requires m.StorageChange?
    ensures var c, next := w.command, Judged(w, m);
            var sameKey := c.StorageWrite? && c.engine == m.engine && c.dbName == m.dbName && Some(c.key) == m.key;
            && next.command == c
            && (w.status != Pending || !sameKey ==> next == w)
            && (w.status == Pending && sameKey ==> next.status == Applied || next.status == Superseded)
            && (w.status == Pending && sameKey && c.op == "remove" ==>
                  (next.status == Applied <==> m.changeType == "remove"))
            && (w.status == Pending && sameKey && c.op != "remove" && NoUndefFields(c.value) ==>
                  (next.status == Applied <==> c.value == if m.changeType == "remove" then Undef else m.value))
  {
    hide DeepEqual, NoUndefFields;
    if w.command.StorageWrite? && NoUndefFields(w.command.value) {
      EqualIfPlain(w.command.value, if m.changeType == "remove" then Undef else m.value);
    }
  }

  lemma {:induction false} QueryJudged(w: Write, m: Message)
    requires m.QueryChange?
    ensures var c, next := w.command, Judged(w, m);
            var watched := c.QueryWrite? && c.queryHash == m.queryHash && (w.status == Pending || w.status == Applied);
            && next.command == c
            && (!watched ==> next == w)
            && (watched ==> next.status == Applied || next.status == Superseded)
            && (watched && NoUndefFields(c.data) && c.data != Undef ==>
                  (next.status == Applied <==> m.changeType != "removed" && m.query == Some(c.data)))
  {
    hide DeepEqual, NoUndefFields;
    if w.command.QueryWrite? && NoUndefFields(w.command.data) {
      EqualIfPlain(w.command.data, if m.query.Some? then m.query.value else Undef);
    }
  }

  /** A query report decides the writes to its query, those already applied too. */
  lemma {:induction false} QueryReportDecides(events: seq<Event>, m: Message, r: Ref)
    requires Possible(events) && m.QueryChange? && r in WritesAfter(events)
    ensures Possible(events + [Hears(m)]) && r in WritesAfter(events + [Hears(m)])
    ensures var w, next := WritesAfter(events)[r], WritesAfter(events + [Hears(m)])[r];
            var c := w.command;
            var watched := c.QueryWrite? && c.queryHash == m.queryHash && (w.status == Pending || w.status == Applied);
            && next.command == c
            && (!watched ==> next == w)
            && (watched ==> next.status == Applied || next.status == Superseded)
            && (watched && NoUndefFields(c.data) && c.data != Undef ==>
                  (next.status == Applied <==> m.changeType != "removed" && m.query == Some(c.data)))
  {
    hide Enabled, Step, Judged, NoUndefFields;
    MayHear(After(events), m);
    OneMore(events, Hears(m));
    HearingStep(After(events), m);
    assert WritesAfter(events + [Hears(m)])[r] == Judged(WritesAfter(events)[r], m);
    QueryJudged(WritesAfter(events)[r], m);
  }

  lemma {:induction false} MayHear(s: System, m: Message)
    requires !m.Result?
    ensures Enabled(s, Hears(m))
  {
  }

  // ---- what time and the connection do ----

  /** Unheard of, a pending write fails exactly when its timeout fires, its send is
      rejected, or its app disconnects. */
  lemma {:induction false} PendingFailsExactly(events: seq<Event>, e: Event, r: Ref)
    requires Possible(events) && Enabled(After(events), e) && !e.Hears?
    requires r in WritesAfter(events) && WritesAfter(events)[r].status == Pending
    ensures Possible(events + [e])
    ensures r in WritesAfter(events + [e]) ==>
              var w, next := WritesAfter(events)[r], WritesAfter(events + [e])[r];
              && (next == w || next == Write(w.command, Failed))
              && (next != w <==>
                  || (e.Fires? && e.timer.ref == r && e.timer.job == Timeout)
                  || (e.SendRejects? && e.ref == r)
                  || (e.AppDisconnects? && After(events).desktop.known))
  {
    hide Enabled, Step;
    OneMore(events, e);
    AlwaysTruthful(events);
    KnownStepOnPending(After(events), e, r);
  }

  /** The events that reach the entry, other than messages. */
  predicate Fails(e: Event, known: bool, r: Ref) {
    || (e.Fires? && e.timer.ref == r && e.timer.job == Timeout)
    || (e.SendRejects? && e.ref == r)
    || (e.AppDisconnects? && known)
  }

  lemma {:induction false} KnownStepOnPending(s: System, e: Event, r: Ref)
    requires Known(s) && Enabled(s, e) && !e.Hears?
    requires r in s.desktop.writes && s.desktop.writes[r].status == Pending
    ensures r in Step(s, e).desktop.writes ==>
              Step(s, e).desktop.writes[r]
              == if Fails(e, s.desktop.known, r) then Write(s.desktop.writes[r].command, Failed) else s.desktop.writes[r]
  {
    hide Known, Step, Issued, Enabled;
    match e
    case Sends(c) =>
      FreshIsNew(s, e);
      SendingLeaves(s, c, r);
    case _ => OtherStepOnPending(s, e, r);
  }

  lemma {:induction false} SendingLeaves(s: System, c: Command, r: Ref)
    requires Enabled(s, Sends(c)) && r in s.desktop.writes && r != RefOf(c)
    ensures Step(s, Sends(c)).desktop.writes[r] == s.desktop.writes[r]
  {
    hide Sendable, RefOf;
  }

  lemma {:induction false} OtherStepOnPending(s: System, e: Event, r: Ref)
    requires Enabled(s, e) && !e.Hears? && !e.Sends?
    requires r in s.desktop.writes && s.desktop.writes[r].status == Pending
    ensures r in Step(s, e).desktop.writes ==>
              Step(s, e).desktop.writes[r]
              == if Fails(e, s.desktop.known, r) then Write(s.desktop.writes[r].command, Failed) else s.desktop.writes[r]
  {
    hide Commands.Received, Called, SettledAt, Register, Unregister;
  }

  /** An entry goes exactly when the window of an applied one ends or the app is removed,
      and comes exactly when it is sent. */
  lemma {:induction false} ListedExactly(events: seq<Event>, e: Event, r: Ref)
    requires Possible(events) && Enabled(After(events), e)
    ensures Possible(events + [e])
    ensures r in WritesAfter(events) ==>
              (r !in WritesAfter(events + [e]) <==>
               || e.AppRemoved?
               || (e.Fires? && e.timer.ref == r && e.timer.job == Sweep && WritesAfter(events)[r].status == Applied))
    ensures r !in WritesAfter(events) ==>
              (r in WritesAfter(events + [e]) <==> e.Sends? && RefOf(e.command) == r)
  {
    hide Enabled, Step;
    OneMore(events, e);
    KeysAfterStep(After(events), e, r);
  }

  /** The entry is removed. */
  predicate Goes(d: Desktop, e: Event, r: Ref)
    requires r in d.writes
  {
    e.AppRemoved? || (e.Fires? && e.timer.ref == r && e.timer.job == Sweep && d.writes[r].status == Applied)
  }

  lemma {:induction false} KeysAfterStep(s: System, e: Event, r: Ref)
    requires Enabled(s, e)
    ensures r in Step(s, e).desktop.writes <==>
            (e.Sends? && RefOf(e.command) == r) || (r in s.desktop.writes && !Goes(s.desktop, e, r))
  {
    hide Step, Enabled, RefOf;
    match e
    case Sends(c) => KeysAfterSending(s, c);
    case Hears(m) => KeysAfterHearing(s, m);
    case _ => KeysAfterOther(s, e, r);
  }

  lemma {:induction false} KeysAfterSending(s: System, c: Command)
    requires Enabled(s, Sends(c))
    ensures Step(s, Sends(c)).desktop.writes.Keys == s.desktop.writes.Keys + {RefOf(c)}
  {
    hide Sendable, RefOf, Enabled;
  }

  lemma {:induction false} KeysAfterHearing(s: System, m: Message)
    requires Enabled(s, Hears(m))
    ensures Step(s, Hears(m)).desktop.writes.Keys == s.desktop.writes.Keys
  {
    hide Handled, Enabled;
    HandledMakesNothingPending(s.desktop.writes, m);
  }

  lemma {:induction false} KeysAfterOther(s: System, e: Event, r: Ref)
    requires Enabled(s, e) && !e.Sends? && !e.Hears?
    ensures r in Step(s, e).desktop.writes <==> r in s.desktop.writes && !Goes(s.desktop, e, r)
  {
    hide Commands.Received, Called, SettledAt, Register, Unregister, FailOne, AllFailed, Swept;
    FailingKeepsKeys(s.desktop.writes, if e.Fires? then e.timer.ref else if e.SendRejects? then e.ref else r, r);
  }

  lemma {:induction false} FailingKeepsKeys(writes: Writes, other: Ref, r: Ref)
    ensures r in FailOne(writes, other) <==> r in writes
    ensures r in AllFailed(writes) <==> r in writes
    ensures r in Swept(writes, other) <==> r in writes && !(r == other && writes[r].status == Applied)
  {
  }

  // ---- what is sent ----

  /** A truncation marker lies in the value, no deeper than the search looks. */
  ghost predicate MarkerNear(v: Value) {
    exists d: nat, w :: Truncation.Below(v, d, w) && d <= Serialize.MAX_SERIALIZE_DEPTH && Serialize.IsMarker(w)
  }

  /** The desktop may send the command: what it would write has no marker, and query data is
      there. */
  ghost predicate MaySend(c: Command) {
    match c
    case StorageWrite(_, _, _, op, _, value) => op == "set" ==> !MarkerNear(value)
    case StateWrite(_, _, state) => !MarkerNear(state)
    case QueryWrite(_, _, data) => data != Undef && !MarkerNear(data)
    case StorageClear(_, _, _, _, _) => true
    case QueryCommand(_, _, _) => true
    case ClearCache(_) => true
  }

  lemma {:induction false} SearchIsForMarkers(v: Value)
    ensures Truncation.ContainsTruncatedValue(v, 0) <==> MarkerNear(v)
  {
    hide Truncation.ContainsTruncatedValue, Truncation.Below, Serialize.IsMarker;
    Truncation.SearchedExactly(v, 0);
    if exists d: nat, w :: Truncation.Below(v, d, w) && 0 + d <= Serialize.MAX_SERIALIZE_DEPTH && Serialize.IsMarker(w) {
      var d: nat, w :| Truncation.Below(v, d, w) && 0 + d <= Serialize.MAX_SERIALIZE_DEPTH && Serialize.IsMarker(w);
      assert Truncation.Below(v, d, w) && d <= Serialize.MAX_SERIALIZE_DEPTH && Serialize.IsMarker(w);
    }
  }

  lemma {:induction false} SendableExactly(c: Command)
    ensures Sendable(c) <==> MaySend(c)
  {
    hide Truncation.ContainsTruncatedValue, MarkerNear;
    match c
    case StorageWrite(_, _, _, _, _, value) => SearchIsForMarkers(value);
    case StateWrite(_, _, state) => SearchIsForMarkers(state);
    case QueryWrite(_, _, data) => SearchIsForMarkers(data);
    case _ =>
  }

  /** Exactly those commands leave the desktop, and wait for their results; the others fail
      at once, unsent. */
  lemma {:induction false} SentExactly(events: seq<Event>, c: Command)
    requires Possible(events) && Enabled(After(events), Sends(c))
    ensures Possible(events + [Sends(c)])
    ensures var s, t := After(events), After(events + [Sends(c)]);
            && t.desktop.writes == s.desktop.writes[RefOf(c) := Write(c, if MaySend(c) then Pending else Failed)]
            && t.outbound == (if MaySend(c) then s.outbound + {c} else s.outbound)
            && t.desktop.sending == (if MaySend(c) then s.desktop.sending + {RefOf(c)} else s.desktop.sending)
            && t.desktop.timers == s.desktop.timers
  {
    hide Enabled, Sendable, MaySend, RefOf;
    OneMore(events, Sends(c));
    SendableExactly(c);
  }

  // ---- the timers ----

  /** The entry becomes applied. */
  predicate Turns(before: Writes, after: Writes, r: Ref) {
    r in after && after[r].status == Applied && (r !in before || before[r].status != Applied)
  }

  /** A write that becomes applied stays for 1200 ms, a query write for 6000 ms; a send that
      has resolved is given 3000 ms; a timer that fires is gone. No other timer is set, and
      none is taken back. */
  lemma {:induction false} TimersExactly(events: seq<Event>, e: Event, t: Timer)
    requires Possible(events) && Enabled(After(events), e)
    ensures Possible(events + [e])
    ensures var s, next := After(events).desktop, After(events + [e]).desktop;
            var set_ := t.job == Sweep && e.Hears? && Turns(s.writes, next.writes, t.ref)
                        && t.due == s.now + (if next.writes[t.ref].command.QueryWrite? then 6000 else 1200);
            var armed := t.job == Timeout && e == SendResolves(t.ref) && t.due == s.now + 3000;
            next.timers[t] == if set_ || armed then s.timers[t] + 1
                              else if e == Fires(t) then s.timers[t] - 1 else s.timers[t]
  {
    hide Enabled, Step;
    OneMore(events, e);
    AlwaysTruthful(events);
    if e.Hears? {
      KindsOfWrites(After(events), e.message);
      HearingTimers(After(events), e.message, t);
    } else {
      OtherTimers(After(events), e, t);
    }
  }

  lemma {:induction false} KindsOfWrites(s: System, m: Message)
    requires Known(s)
    ensures forall r | r in Handled(s.desktop.writes, m) ::
              r.kind == QueryWriteKind <==> Handled(s.desktop.writes, m)[r].command.QueryWrite?
  {
    hide Handled;
    HandledMakesNothingPending(s.desktop.writes, m);
  }

  lemma {:induction false} HearingTimers(s: System, m: Message, t: Timer)
    requires Enabled(s, Hears(m))
    requires forall r | r in Handled(s.desktop.writes, m) ::
               r.kind == QueryWriteKind <==> Handled(s.desktop.writes, m)[r].command.QueryWrite?
    ensures var d, next := s.desktop, Step(s, Hears(m)).desktop;
            next.timers[t] == if t.job == Sweep && Turns(d.writes, next.writes, t.ref)
                                 && t.due == d.now + (if next.writes[t.ref].command.QueryWrite? then 6000 else 1200)
                              then d.timers[t] + 1 else d.timers[t]
  {
    hide Handled;
    var d := s.desktop;
    var next := Handled(d.writes, m);
    var refs := NewlyApplied(d.writes, next);
    var fresh_ := Sweeps(refs, d.now);
    assert t in fresh_ <==> t.ref in refs && t == SweepFor(t.ref, d.now);
    assert t.ref in refs <==> Turns(d.writes, next, t.ref);
    assert multiset(fresh_)[t] == if t in fresh_ then 1 else 0;
  }

  lemma {:induction false} OtherTimers(s: System, e: Event, t: Timer)
    requires Enabled(s, e) && !e.Hears?
    ensures Step(s, e).desktop.timers[t]
         == if t.job == Timeout && e == SendResolves(t.ref) && t.due == s.desktop.now + 3000
            then s.desktop.timers[t] + 1
            else if e == Fires(t) then s.desktop.timers[t] - 1 else s.desktop.timers[t]
  {
    hide Sendable, RefOf, Commands.Received, Called, SettledAt, Register, Unregister, FailOne, Swept, AllFailed;
  }

  // ---- the connection ----

  ghost predicate ConnectedAt(events: seq<Event>, i: nat) {
    i < |events| && events[i] == AppConnects && forall j | i < j < |events| :: events[j] != AppRemoved
  }

  /** The app is known exactly if it has connected and has not been removed since; a send is
      under way exactly from the command on until it is resolved or rejected. */
  lemma {:induction false} UnderWayExactly(events: seq<Event>, e: Event, r: Ref)
    requires Possible(events) && Enabled(After(events), e)
    ensures Possible(events + [e])
    ensures After(events + [e]).desktop.known <==> exists i: nat :: ConnectedAt(events + [e], i)
    ensures r in After(events + [e]).desktop.sending <==>
            || (e.Sends? && RefOf(e.command) == r && MaySend(e.command))
            || (r in After(events).desktop.sending && e != SendResolves(r) && e != SendRejects(r))
  {
    hide Enabled, Step, MaySend, RefOf;
    OneMore(events, e);
    KnownWhileConnected(events);
    KnownAfterStep(After(events), e, r);
    ConnectedStep(events, e);
    if e.Sends? {
      SendableExactly(e.command);
    }
  }

  lemma {:induction false} KnownAfterStep(s: System, e: Event, r: Ref)
    requires Enabled(s, e)
    ensures Step(s, e).desktop.known <==> e.AppConnects? || (s.desktop.known && !e.AppRemoved?)
    ensures r in Step(s, e).desktop.sending <==>
            || (e.Sends? && RefOf(e.command) == r && Sendable(e.command))
            || (r in s.desktop.sending && e != SendResolves(r) && e != SendRejects(r))
  {
    hide Sendable, RefOf, Commands.Received, Called, SettledAt, Register, Unregister, FailOne, AllFailed, Swept, Handled;
  }

  lemma {:induction false} ConnectedStep(events: seq<Event>, e: Event)
    ensures (exists i: nat :: ConnectedAt(events + [e], i)) <==>
            e.AppConnects? || ((exists i: nat :: ConnectedAt(events, i)) && !e.AppRemoved?)
  {
    var longer := events + [e];
    if e.AppConnects? {
      assert ConnectedAt(longer, |events|);
    }
    if i: nat :| ConnectedAt(longer, i) {
      assert longer[|events|] == e;
      if i < |events| {
        assert forall j | i < j < |events| :: longer[j] == events[j];
        assert ConnectedAt(events, i);
      }
    }
    if !e.AppRemoved? {
      if i: nat :| ConnectedAt(events, i) {
        assert ConnectedAt(longer, i);
      }
    }
  }

  lemma {:induction false} KnownWhileConnected(events: seq<Event>)
    requires Possible(events)
    ensures After(events).desktop.known <==> exists i: nat :: ConnectedAt(events, i)
  {
    hide Enabled, Step, ConnectedAt;
    if events == [] {
      UnknownAtFirst();
    } else {
      var front, e := events[..|events| - 1], events[|events| - 1];
      KnownWhileConnected(front);
      KnownAfterStep(After(front), e, Ref.Ref(ClearCacheKind, ""));
      ConnectedStep(front, e);
      assert events == front + [e];
    }
  }

  lemma {:induction false} UnknownAtFirst()
    ensures Possible([]) && !After([]).desktop.known && forall i: nat :: !ConnectedAt([], i)
  {
  }
}
