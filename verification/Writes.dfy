/** The desktop's side of live writes, for one connected app: the six pending maps, the
    timers, and what each message from the app does to them. */
module Writes {
  import opened Values
  import opened Pointer
  import opened Commands
  import opened Equality
  import Truncation

  const STORAGE_WRITE_TIMEOUT_MS := 3000
  const APPLIED_WINDOW_MS := 1200
  const QUERY_WRITE_WATCH_MS := 6000

  datatype Status = Pending | Applied | Failed | Superseded

  /** An entry of a pending map: what was sent, and what is known of it. */
  datatype Write = Write(command: Command, status: Status)

  /** Which of the six maps, and the key in it. */
  datatype Ref = Ref(kind: Kind, requestId: string)

  type Writes = map<Ref, Write>

  function RefOf(c: Command): Ref {
    Ref(KindOf(c), c.requestId)
  }

  /** The app's own reports, and the results of commands. */
  datatype Message =
    | Result(reply: Reply)
    | StorageChange(engine: string, dbName: Option<string>, changeType: string, key: Option<string>, value: Value)
    | QueryChange(queryHash: string, changeType: string, query: Option<Value>)
    | Unrelated

  // ---- one status at a time ----

  function WithStatus(writes: Writes, r: Ref, status: Status): Writes
    requires r in writes
  {
    writes[r := Write(writes[r].command, status)]
  }

  /** `fail`: never clobbers a result. */
  function FailOne(writes: Writes, r: Ref): Writes {
    if r in writes && writes[r].status == Pending then WithStatus(writes, r, Failed) else writes
  }

  /** The end of the confirmation window. */
  function Swept(writes: Writes, r: Ref): Writes {
    if r in writes && writes[r].status == Applied then writes - {r} else writes
  }

  function WithResult(writes: Writes, reply: Reply): Writes {
    var r := Ref(reply.kind, reply.requestId);
    if r in writes then WithStatus(writes, r, if reply.ok then Applied else Failed) else writes
  }

  // ---- reports of the app ----

  /** The storage report is about the key that was written. */
  predicate SameTarget(c: Command, m: Message)
    requires m.StorageChange? && m.key.Some?
  {
    c.StorageWrite? && c.engine == m.engine && c.dbName == m.dbName && c.key == m.key.value
  }

  /** What a report says about a write to its target: it landed as sent. */
  predicate Matches(c: Command, m: Message) {
    match m
    case StorageChange(_, _, changeType, key, value) =>
      && key.Some? && SameTarget(c, m)
      && if c.op == "remove" then changeType == "remove"
         else DeepEqual(c.value, if changeType == "remove" then Undef else value)
    case QueryChange(queryHash, changeType, query) =>
      && c.QueryWrite? && c.queryHash == queryHash
      && changeType != "removed" && DeepEqual(c.data, if query.Some? then query.value else Undef)
    case _ => false
  }

  /** Which writes a report settles: a storage report those still pending, a query report
      those already applied as well. */
  predicate Concerns(w: Write, m: Message) {
    match m
    case StorageChange(_, _, _, key, _) => key.Some? && SameTarget(w.command, m) && w.status == Pending
    case QueryChange(queryHash, _, _) =>
      w.command.QueryWrite? && w.command.queryHash == queryHash && (w.status == Pending || w.status == Applied)
    case _ => false
  }

  function Judged(w: Write, m: Message): Write {
    if Concerns(w, m) then Write(w.command, if Matches(w.command, m) then Applied else Superseded) else w
  }

  function Reconciled(writes: Writes, m: Message): Writes {
    map r | r in writes :: Judged(writes[r], m)
  }

  /** The pending maps after a message. */
  function Handled(writes: Writes, m: Message): Writes {
    match m
    case Result(reply) => WithResult(writes, reply)
    case Unrelated => writes
    case _ => Reconciled(writes, m)
  }

  function AllFailed(writes: Writes): Writes {
    map r | r in writes :: if writes[r].status == Pending then Write(writes[r].command, Failed) else writes[r]
  }

  // ---- timers ----

  datatype Job = Timeout | Sweep

  datatype Timer = Timer(ref: Ref, due: nat, job: Job)

  function NewlyApplied(prev: Writes, next: Writes): set<Ref> {
    set r | r in next && next[r].status == Applied && !(r in prev && prev[r].status == Applied)
  }

  function Window(kind: Kind): nat {
    if kind == QueryWriteKind then QUERY_WRITE_WATCH_MS else APPLIED_WINDOW_MS
  }

  function SweepFor(r: Ref, now: nat): Timer {
    Timer(r, now + Window(r.kind), Sweep)
  }

  function Sweeps(refs: set<Ref>, now: nat): set<Timer> {
    set r | r in refs :: SweepFor(r, now)
  }

  // ---- the store ----

  /** `known`: the app is listed. `sending`: `sendToApp` has not resolved yet. */
  datatype Desktop = Desktop(known: bool, writes: Writes, sending: set<Ref>, timers: multiset<Timer>, now: nat)

  /** What may leave the desktop: no truncation marker, no undefined query data. */
  predicate Sendable(c: Command) {
    match c
    case StorageWrite(_, _, _, op, _, value) => op == "set" ==> !Truncation.ContainsTruncatedValue(value, 0)
    case StateWrite(_, _, state) => !Truncation.ContainsTruncatedValue(state, 0)
    case QueryWrite(_, _, data) => data != Undef && !Truncation.ContainsTruncatedValue(data, 0)
    case _ => true
  }

  function Issued(d: Desktop, c: Command): Desktop {
    var pending := d.writes[RefOf(c) := Write(c, Pending)];
    if Sendable(c) then d.(writes := pending, sending := d.sending + {RefOf(c)})
    else d.(writes := FailOne(pending, RefOf(c)))
  }

  function SendResolved(d: Desktop, r: Ref): Desktop {
    d.(sending := d.sending - {r},
       timers := d.timers + multiset{Timer(r, d.now + STORAGE_WRITE_TIMEOUT_MS, Timeout)})
  }

  function SendRejected(d: Desktop, r: Ref): Desktop {
    d.(sending := d.sending - {r}, writes := FailOne(d.writes, r))
  }

  function Fired(d: Desktop, t: Timer): Desktop {
    d.(timers := d.timers - multiset{t},
       writes := if t.job == Timeout then FailOne(d.writes, t.ref) else Swept(d.writes, t.ref))
  }

  function Heard(d: Desktop, m: Message): Desktop {
    var next := Handled(d.writes, m);
    d.(writes := next, timers := d.timers + multiset(Sweeps(NewlyApplied(d.writes, next), d.now)))
  }

  function Disconnected(d: Desktop): Desktop {
    if d.known then d.(writes := AllFailed(d.writes)) else d
  }

  function Removed(d: Desktop): Desktop {
    d.(known := false, writes := map[])
  }

  const EMPTY := Desktop(false, map[], {}, multiset{}, 0)

  /** The store actions. They change the store at once; `sendToApp` and the timers come
      back later. */
  class ConnectionStore {
    var known: bool
    var writes: Writes
    var sending: set<Ref>
    var timers: multiset<Timer>
    var now: nat

    function Contents(): Desktop
      reads this
    {
      Desktop(known, writes, sending, timers, now)
    }

    constructor ()
      ensures Contents() == EMPTY
    {
      known, writes, sending, timers, now := false, map[], {}, multiset{}, 0;
    }

    method UpsertApp()
      modifies this`known
      ensures Contents() == old(Contents()).(known := true)
    {
      known := true;
    }

    method RemoveApp()
      modifies this
      ensures Contents() == Removed(old(Contents()))
    {
      known, writes := false, map[];
    }

    method MarkDisconnected()
      modifies this
      ensures Contents() == Disconnected(old(Contents()))
    {
      if !known {
        return;
      }
      FailAllPending();
    }

    method FailAllPending()
      modifies this`writes
      ensures writes == AllFailed(old(writes))
    {
      var ids := set r | r in writes && writes[r].status == Pending;
      ghost var before := writes;
      while ids != {}
        invariant forall r | r in ids :: r in before && before[r].status == Pending
        invariant writes.Keys == before.Keys
        invariant forall r | r in before ::
                    writes[r] == if r in ids || before[r].status != Pending then before[r]
                                 else Write(before[r].command, Failed)
        decreases ids
      {
        var r :| r in ids;
        ids := ids - {r};
        writes := writes[r := Write(writes[r].command, Failed)];
      }
    }

    method Fail(r: Ref)
      modifies this`writes
      ensures writes == FailOne(old(writes), r)
    {
      if r !in writes || writes[r].status != Pending {
        return;
      }
      writes := writes[r := Write(writes[r].command, Failed)];
    }

    /** The six `send` actions, which differ in what they refuse to send. */
    method Send(c: Command)
      modifies this
      ensures Contents() == Issued(old(Contents()), c)
    {
      var r := RefOf(c);
      writes := writes[r := Write(c, Pending)];
      if c.QueryWrite? && c.data == Undef {
        Fail(r);
        return;
      }
      if (c.StorageWrite? && c.op == "set" && Truncation.ContainsTruncatedValue(c.value, 0))
         || (c.StateWrite? && Truncation.ContainsTruncatedValue(c.state, 0))
         || (c.QueryWrite? && Truncation.ContainsTruncatedValue(c.data, 0)) {
        Fail(r);
        return;
      }
      sending := sending + {r};
    }

    method SendToAppResolved(r: Ref)
      modifies this
      ensures Contents() == SendResolved(old(Contents()), r)
    {
      sending := sending - {r};
      timers := timers + multiset{Timer(r, now + STORAGE_WRITE_TIMEOUT_MS, Timeout)};
    }

    method SendToAppRejected(r: Ref)
      modifies this
      ensures Contents() == SendRejected(old(Contents()), r)
    {
      sending := sending - {r};
      Fail(r);
    }

    method Fire(t: Timer)
      requires t in timers
      modifies this
      ensures Contents() == Fired(old(Contents()), t)
    {
      timers := timers - multiset{t};
      if t.job == Timeout {
        Fail(t.ref);
      } else if t.ref in writes && writes[t.ref].status == Applied {
        writes := writes - {t.ref};
      }
    }

    method HandleEnvelope(m: Message)
      modifies this
      ensures Contents() == Heard(old(Contents()), m)
    {
      var prev := writes;
      if m.Result? {
        var r := Ref(m.reply.kind, m.reply.requestId);
        if r in writes {
          writes := writes[r := Write(writes[r].command, if m.reply.ok then Applied else Failed)];
        }
      } else if !m.Unrelated? {
        Reconcile(m);
      }
      ArmSweeps(prev);
    }

    /** The six loops over what has just become applied. */
    method ArmSweeps(prev: Writes)
      modifies this`timers
      ensures timers == old(timers) + multiset(Sweeps(NewlyApplied(prev, writes), now))
    {
      hide Sweeps;
      var applied := NewlyApplied(prev, writes);
      ghost var before := timers;
      ghost var all := applied;
      NoSweeps(now);
      assert all - applied == {};
      while applied != {}
        invariant applied <= all
        invariant timers == before + multiset(Sweeps(all - applied, now))
        decreases applied
      {
        var r :| r in applied;
        ghost var done := all - applied;
        applied := applied - {r};
        assert all - applied == done + {r};
        OneMoreSweep(done, r, now);
        timers := timers + multiset{Timer(r, now + Window(r.kind), Sweep)};
      }
      assert all - {} == all;
    }

    /** The loops over the pending writes in the cases of the two reports. */
    method Reconcile(m: Message)
      requires m.StorageChange? || m.QueryChange?
      modifies this`writes
      ensures writes == Reconciled(old(writes), m)
    {
      var before := writes;
      var rest := before.Keys;
      while rest != {}
        invariant rest <= before.Keys && writes.Keys == before.Keys
        invariant forall r | r in before :: writes[r] == if r in rest then before[r] else Judged(before[r], m)
        decreases rest
      {
        var r :| r in rest;
        rest := rest - {r};
        var w := before[r];
        if m.StorageChange? {
          if m.key.Some? && w.status == Pending && w.command.StorageWrite? && w.command.engine == m.engine
             && w.command.dbName == m.dbName && w.command.key == m.key.value {
            var incoming := if m.changeType == "remove" then Undef else m.value;
            var matches := if w.command.op == "remove" then m.changeType == "remove"
                           else DeepEqual(w.command.value, incoming);
            writes := writes[r := Write(w.command, if matches then Applied else Superseded)];
          }
        } else if w.command.QueryWrite? && w.command.queryHash == m.queryHash
                  && (w.status == Pending || w.status == Applied) {
          var data := if m.query.Some? then m.query.value else Undef;
          var next := if m.changeType != "removed" && DeepEqual(w.command.data, data) then Applied else Superseded;
          if w.status != next {
            writes := writes[r := Write(w.command, next)];
          }
        }
      }
    }
  }

  lemma {:induction false} NoSweeps(now: nat)
    ensures multiset(Sweeps({}, now)) == multiset{}
  {
  }

  lemma {:induction false} OneMoreSweep(refs: set<Ref>, r: Ref, now: nat)
    requires r !in refs
    ensures multiset(Sweeps(refs + {r}, now)) == multiset(Sweeps(refs, now)) + multiset{SweepFor(r, now)}
  {
    assert Sweeps(refs + {r}, now) == Sweeps(refs, now) + {SweepFor(r, now)};
    assert SweepFor(r, now) !in Sweeps(refs, now);
  }
}
