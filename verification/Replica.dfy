/** The state replica: the SDK's Zustand and Redux adapters send one snapshot and
    then diffs, the desktop rebuilds the state from them. */
module Replica {
  import opened Values
  import opened Patch
  import opened Diff
  import opened Landing
  import opened RoundTrip
  import opened DiffPatch
  import opened EmptyKey
  import opened WirePatch
  import Serialize
  import Serialized

  datatype Message =
    | StateInit(storeId: string, state: Value)
    | StateAction(storeId: string, diff: seq<Op>)

  // ---- the producers ----

  /** What an adapter remembers between calls. */
  datatype Producer = Producer(started: bool, prev: Value)

  /** The snapshot goes out, once. */
  ghost predicate Starts(p: Producer, q: Producer, id: string, state: Value, sent: seq<Message>) {
    !p.started && q == Producer(true, state) && sent == [StateInit(id, state)]
  }

  /** The difference to the last state goes out, unless there is none. */
  ghost predicate Reports(p: Producer, q: Producer, id: string, state: Value, sent: seq<Message>) {
    && q == p.(prev := state)
    && exists ops :: IsDiffOf(p.prev, state, ops) && sent == if ops == [] then [] else [StateAction(id, ops)]
  }

  /** `withSpyglass`: `prevState` is a variable of the closure. */
  class ZustandAdapter {
    const storeId: string
    var prevState: Value
    ghost var created: bool
    var outbox: seq<Message>

    ghost function Abstract(): Producer
      reads this
    {
      Producer(created, prevState)
    }

    constructor (storeId: string)
      ensures this.storeId == storeId && Abstract() == Producer(false, Undef) && outbox == []
    {
      this.storeId := storeId;
      prevState := Undef;
      created := false;
      outbox := [];
    }

    /** `wrappedSet`, once the store holds `root`. The creator function may call it
        before the store is created. */
    method WrappedSet(heap: Serialize.Heap, root: Serialize.HeapValue)
      modifies this
      ensures old(outbox) <= outbox
      ensures Reports(old(Abstract()), Abstract(), storeId, Serialize.SafeSerialize(heap, root), outbox[|old(outbox)|..])
    {
      var state := Serialize.SafeSerialize(heap, root);
      var diff, rel := DiffValues(prevState, state, "");
      assert IsDiffOf(prevState, state, diff);
      prevState := state;
      if diff != [] {
        outbox := outbox + [StateAction(storeId, diff)];
      }
    }

    method Create(heap: Serialize.Heap, root: Serialize.HeapValue)
      requires !created
      modifies this
      ensures old(outbox) <= outbox
      ensures Starts(old(Abstract()), Abstract(), storeId, Serialize.SafeSerialize(heap, root), outbox[|old(outbox)|..])
    {
      prevState := Serialize.SafeSerialize(heap, root);
      created := true;
      outbox := outbox + [StateInit(storeId, prevState)];
    }
  }

  /** `createSpyglassReduxMiddleware`: the first action after which it looks at the
      store yields the snapshot. */
  class ReduxMiddleware {
    const storeId: string
    var initialized: bool
    var prevState: Value
    var outbox: seq<Message>

    ghost function Abstract(): Producer
      reads this
    {
      Producer(initialized, prevState)
    }

    constructor (storeId: string)
      ensures this.storeId == storeId && Abstract() == Producer(false, Undef) && outbox == []
    {
      this.storeId := storeId;
      initialized := false;
      prevState := Undef;
      outbox := [];
    }

    method Dispatched(heap: Serialize.Heap, root: Serialize.HeapValue)
      modifies this
      ensures old(outbox) <= outbox
      ensures var state, sent := Serialize.SafeSerialize(heap, root), outbox[|old(outbox)|..];
              if old(initialized) then Reports(old(Abstract()), Abstract(), storeId, state, sent)
              else Starts(old(Abstract()), Abstract(), storeId, state, sent)
    {
      var state := Serialize.SafeSerialize(heap, root);
      if !initialized {
        initialized := true;
        prevState := state;
        outbox := outbox + [StateInit(storeId, state)];
        return;
      }
      var diff, rel := DiffValues(prevState, state, "");
      assert IsDiffOf(prevState, state, diff);
      prevState := state;
      if diff != [] {
        outbox := outbox + [StateAction(storeId, diff)];
      }
    }
  }

  // ---- the consumer ----

  /** A message as the desktop decodes it. */
  function Decoded(m: Message): Message {
    match m
    case StateInit(id, state) => StateInit(id, Wire(state))
    case StateAction(id, diff) => StateAction(id, WireOps(diff))
  }

  /** `applyEnvelopeToAppData` for the two state messages: an action for a store whose
      snapshot has not been seen is ignored. */
  function Received(stores: map<string, Value>, m: Message): map<string, Value> {
    match m
    case StateInit(id, state) => stores[id := state]
    case StateAction(id, diff) =>
      if id in stores then stores[id := Patched(stores[id], Ops(diff))] else stores
  }

  // ---- the system: several stores, one first-in-first-out channel ----

  /** A message under way, with the state its adapter had just remembered. */
  datatype Packet = Packet(message: Message, snapshot: Value)

  /** `delivered` records, for each store, the snapshot of its last delivered packet. */
  datatype System = System(
    producers: map<string, Producer>,
    channel: seq<Packet>,
    stores: map<string, Value>,
    delivered: map<string, Value>)

  /** States that a diff can carry in full: what `safeSerialize` yields for data
      without reserved keys, and without an empty key at the root. */
  predicate Ordinary(v: Value) {
    && NoFunc(v)
    && NoReservedKeys(v)
    && DepthAtMost(v, MAX_PATCH_PATH_SEGMENTS)
    && (v.Obj? ==> "" !in v.fields)
  }

  ghost predicate Initial(s: System) {
    && (forall id | id in s.producers :: s.producers[id] == Producer(false, Undef))
    && s.channel == [] && s.stores == map[] && s.delivered == map[]
  }

  function Packets(sent: seq<Message>, state: Value): seq<Packet> {
    seq(|sent|, i requires 0 <= i < |sent| => Packet(sent[i], state))
  }

  /** An adapter looks at its store. A Zustand adapter may report before it starts. */
  ghost predicate Produces(s: System, t: System, id: string, state: Value, sent: seq<Message>) {
    && id in s.producers && t.producers.Keys == s.producers.Keys
    && (forall other | other in s.producers && other != id :: t.producers[other] == s.producers[other])
    && Ordinary(state)
    && (Starts(s.producers[id], t.producers[id], id, state, sent)
        || Reports(s.producers[id], t.producers[id], id, state, sent))
    && t.channel == s.channel + Packets(sent, state)
    && t.stores == s.stores && t.delivered == s.delivered
  }

  ghost predicate Delivers(s: System, t: System) {
    && s.channel != []
    && t.producers == s.producers
    && t.channel == s.channel[1..]
    && t.stores == Received(s.stores, Decoded(s.channel[0].message))
    && t.delivered == s.delivered[s.channel[0].message.storeId := s.channel[0].snapshot]
  }

  ghost predicate Next(s: System, t: System) {
    (exists id, state, sent :: Produces(s, t, id, state, sent)) || Delivers(s, t)
  }

  ghost predicate Run(trace: seq<System>) {
    && trace != []
    && Initial(trace[0])
    && forall i | 0 <= i < |trace| - 1 :: Next(trace[i], trace[i + 1])
  }

  /** An adapter is silent about a state that is the one it remembers, and only about one
      that looks the same on the wire. It never sends an empty diff. */
  lemma {:induction false} SilentOnlyWhenSame(p: Producer, q: Producer, id: string, state: Value, sent: seq<Message>)
    requires Reports(p, q, id, state, sent)
    ensures state == p.prev ==> sent == []
    ensures Ordinary(p.prev) && Ordinary(state) && sent == [] ==> Same(p.prev, state)
    ensures sent != [] ==> |sent| == 1 && sent[0].StateAction? && sent[0].storeId == id && sent[0].diff != []
  {
    hide IsDiff, IsDiffOf, Wire, Ordinary;
    var ops :| IsDiffOf(p.prev, state, ops) && sent == if ops == [] then [] else [StateAction(id, ops)];
    if state == p.prev {
      SameStateNoOps(state, ops);
    }
    if Ordinary(p.prev) && Ordinary(state) && ops == [] {
      NoOpsSameState(p.prev, state);
    }
  }

  lemma {:induction false} SameStateNoOps(v: Value, ops: seq<Op>)
    requires IsDiffOf(v, v, ops)
    ensures ops == []
  {
    hide IsDiff;
    var rel :| IsDiff(v, v, rel) && ops == AtBase("", rel);
    NothingToSay(v, rel);
  }

  lemma {:induction false} NoOpsSameState(p: Value, n: Value)
    requires Ordinary(p) && Ordinary(n) && IsDiffOf(p, n, [])
    ensures Same(p, n)
  {
    hide IsDiff, IsDiffOf, Wire, Transmissible, NoReservedKeys, DepthAtMost, NoFunc;
    OrdinaryIsTransmissible(p, n, MAX_PATCH_PATH_SEGMENTS);
    RoundTripExactly(p, n, []);
    assert ApplyOps(p, []) == p;
  }

  // ---- the invariant ----

  /** Seen from store `id`: the packets of the channel lead step by step from the
      replica's state to the adapter's. `known` says that the snapshot has been
      delivered, and `cur` is then the state to which the replica is equal. */
  ghost predicate Leads(id: string, known: bool, cur: Value, channel: seq<Packet>, p: Producer)
    decreases |channel|
  {
    if channel == [] then
      && (p.started <==> known)
      && (known ==> Same(cur, p.prev) && Ordinary(p.prev))
    else
      var packet := channel[0];
      if packet.message.storeId != id then Leads(id, known, cur, channel[1..], p)
      else
        && Ordinary(packet.snapshot)
        && match packet.message
           case StateInit(_, state) => state == packet.snapshot && Leads(id, true, state, channel[1..], p)
           case StateAction(_, ops) =>
             && (known ==> exists q :: Same(cur, q) && Ordinary(q) && IsDiffOf(q, packet.snapshot, ops))
             && Leads(id, known, packet.snapshot, channel[1..], p)
  }

  /** What the replica of `id` is equal to. */
  function Current(s: System, id: string): Value {
    if id in s.delivered then s.delivered[id] else Undef
  }

  ghost predicate Invariant(s: System) {
    && s.stores.Keys <= s.producers.Keys
    && (forall i | 0 <= i < |s.channel| :: s.channel[i].message.storeId in s.producers)
    && (forall id | id in s.stores :: id in s.delivered && Same(s.stores[id], s.delivered[id]))
    && (forall id | id in s.producers :: Leads(id, id in s.stores, Current(s, id), s.channel, s.producers[id]))
  }

  lemma {:induction false} OrdinaryStep(d: Value, p: Value, n: Value, ops: seq<Op>)
    requires Ordinary(p) && Ordinary(n) && IsDiffOf(p, n, ops) && Same(d, p)
    ensures Same(ApplyOps(d, ops), n)
  {
    hide IsDiff, IsDiffOf, Wire, Transmissible, NoReservedKeys, DepthAtMost, NoFunc, ApplyOps;
    OrdinaryIsTransmissible(p, n, MAX_PATCH_PATH_SEGMENTS);
    SafeRedelivery(d, p, n, ops);
  }

  /** The data of an app is ordinary as soon as its keys are. */
  lemma {:induction false} SerializedIsOrdinary(heap: Serialize.Heap, root: Serialize.HeapValue)
    requires var v := Serialize.SafeSerialize(heap, root);
             NoReservedKeys(v) && (v.Obj? ==> "" !in v.fields)
    ensures Ordinary(Serialize.SafeSerialize(heap, root))
  {
    hide Serialize.Walk, NoReservedKeys;
    Serialized.WalkDepth(heap, root, {}, 0);
    Serialized.DeeperAllowed(Serialize.SafeSerialize(heap, root), Serialize.MAX_SERIALIZE_DEPTH + 1,
                             MAX_PATCH_PATH_SEGMENTS);
  }

  /** Packets of other stores do not matter, nor does appending one. */
  lemma {:induction false} LeadsPastOthers(id: string, known: bool, cur: Value, channel: seq<Packet>, p: Producer,
                                           more: seq<Packet>)
    requires Leads(id, known, cur, channel, p)
    requires forall i | 0 <= i < |more| :: more[i].message.storeId != id
    ensures Leads(id, known, cur, channel + more, p)
    decreases |channel| + |more|
  {
    hide Ordinary, IsDiffOf, Wire;
    if channel == [] {
      if more == [] {
        assert channel + more == channel;
      } else {
        assert channel + more == more;
        LeadsPastOthers(id, known, cur, channel, p, more[1..]);
        assert [] + more[1..] == more[1..];
      }
    } else {
      assert (channel + more)[1..] == channel[1..] + more;
      var packet := channel[0];
      if packet.message.storeId != id {
        LeadsPastOthers(id, known, cur, channel[1..], p, more);
      } else if packet.message.StateInit? {
        LeadsPastOthers(id, true, packet.message.state, channel[1..], p, more);
      } else {
        LeadsPastOthers(id, known, packet.snapshot, channel[1..], p, more);
      }
    }
  }

  /** An adapter's own step extends the chain by what it sends. */
  lemma {:induction false} LeadsOn(id: string, known: bool, cur: Value, channel: seq<Packet>, p: Producer,
                                   q: Producer, state: Value, sent: seq<Message>)
    requires Leads(id, known, cur, channel, p) && Ordinary(state)
    requires Starts(p, q, id, state, sent) || Reports(p, q, id, state, sent)
    ensures Leads(id, known, cur, channel + Packets(sent, state), q)
    decreases |channel|
  {
    hide IsDiffOf, Wire, Ordinary;
    var more := Packets(sent, state);
    if channel == [] {
      assert channel + more == more;
      LeadsFromHere(id, known, cur, p, q, state, sent);
    } else {
      assert (channel + more)[1..] == channel[1..] + more;
      var packet := channel[0];
      if packet.message.storeId != id {
        LeadsOn(id, known, cur, channel[1..], p, q, state, sent);
      } else if packet.message.StateInit? {
        LeadsOn(id, true, packet.message.state, channel[1..], p, q, state, sent);
      } else {
        LeadsOn(id, known, packet.snapshot, channel[1..], p, q, state, sent);
      }
    }
  }

  lemma {:induction false} LeadsFromHere(id: string, known: bool, cur: Value, p: Producer,
                                         q: Producer, state: Value, sent: seq<Message>)
    requires Leads(id, known, cur, [], p) && Ordinary(state)
    requires Starts(p, q, id, state, sent) || Reports(p, q, id, state, sent)
    ensures Leads(id, known, cur, Packets(sent, state), q)
  {
    hide Wire, Ordinary;
    var more := Packets(sent, state);
    if Starts(p, q, id, state, sent) {
      assert more == [Packet(StateInit(id, state), state)];
      assert more[1..] == [];
    } else {
      var ops :| IsDiffOf(p.prev, state, ops) && sent == if ops == [] then [] else [StateAction(id, ops)];
      if ops == [] {
        assert more == [];
        if known {
          OrdinaryStep(cur, p.prev, state, ops);
        }
      } else {
        assert more == [Packet(StateAction(id, ops), state)];
        assert more[1..] == [];
      }
    }
  }

  // ---- every step keeps it ----

  lemma {:induction false} InitiallyInvariant(s: System)
    requires Initial(s)
    ensures Invariant(s)
  {
  }

  lemma {:induction false} ProducingKeepsInvariant(s: System, t: System, id: string, state: Value, sent: seq<Message>)
    requires Invariant(s) && Produces(s, t, id, state, sent)
    ensures Invariant(t)
  {
    hide Wire, Ordinary, IsDiffOf, Leads;
    var more := Packets(sent, state);
    assert forall i | 0 <= i < |more| :: more[i].message.storeId == id;
    forall i | 0 <= i < |t.channel| ensures t.channel[i].message.storeId in t.producers
    {
      if i >= |s.channel| {
        assert t.channel[i] == more[i - |s.channel|];
      }
    }
    forall other | other in t.producers
      ensures Leads(other, other in t.stores, Current(t, other), t.channel, t.producers[other])
    {
      if other == id {
        LeadsOn(id, id in s.stores, Current(s, id), s.channel, s.producers[id], t.producers[id], state, sent);
      } else {
        LeadsPastOthers(other, other in s.stores, Current(s, other), s.channel, s.producers[other], more);
      }
    }
  }

  lemma {:induction false} DeliveringKeepsInvariant(s: System, t: System)
    requires Invariant(s) && Delivers(s, t)
    ensures Invariant(t)
  {
    hide Wire, Ordinary, IsDiffOf;
    var packet := s.channel[0];
    var id := packet.message.storeId;
    assert Leads(id, id in s.stores, Current(s, id), s.channel, s.producers[id]);
    if id in t.stores {
      DeliveredIsSame(s, t);
    }
    forall other | other in t.producers
      ensures Leads(other, other in t.stores, Current(t, other), t.channel, t.producers[other])
    {
      assert Leads(other, other in s.stores, Current(s, other), s.channel, s.producers[other]);
      if other == id && id !in t.stores {
        LeadsUnknown(id, packet.snapshot, Current(t, id), t.channel, t.producers[id]);
      }
    }
  }

  /** Before the snapshot has arrived nothing is assumed of the replica. */
  lemma {:induction false} LeadsUnknown(id: string, cur: Value, other: Value, channel: seq<Packet>, p: Producer)
    requires Leads(id, false, cur, channel, p)
    ensures Leads(id, false, other, channel, p)
    decreases |channel|
  {
    hide Wire, Ordinary, IsDiffOf;
    if channel != [] {
      if channel[0].message.storeId != id {
        LeadsUnknown(id, cur, other, channel[1..], p);
      }
    }
  }

  lemma {:induction false} DeliveredIsSame(s: System, t: System)
    requires Invariant(s) && Delivers(s, t) && s.channel[0].message.storeId in t.stores
    ensures var id := s.channel[0].message.storeId;
            Same(t.stores[id], s.channel[0].snapshot)
  {
    hide Wire, Ordinary, IsDiffOf, ApplyOps;
    var packet := s.channel[0];
    var id := packet.message.storeId;
    assert Leads(id, id in s.stores, Current(s, id), s.channel, s.producers[id]);
    match packet.message
    case StateInit(_, state) => WireTwice(state);
    case StateAction(_, ops) =>
      var q :| Same(s.delivered[id], q) && Ordinary(q) && IsDiffOf(q, packet.snapshot, ops);
      WireCommutes(s.stores[id], s.stores[id], ops);
      OrdinaryStep(s.stores[id], q, packet.snapshot, ops);
  }

  lemma {:induction false} RunInvariant(trace: seq<System>, i: nat)
    requires Run(trace) && i < |trace|
    ensures Invariant(trace[i])
    decreases i
  {
    hide Invariant, Initial, Produces, Delivers;
    if i == 0 {
      InitiallyInvariant(trace[0]);
    } else {
      RunInvariant(trace, i - 1);
      var s, t := trace[i - 1], trace[i];
      assert Next(s, t);
      if Delivers(s, t) {
        DeliveringKeepsInvariant(s, t);
      } else {
        var id, state, sent :| Produces(s, t, id, state, sent);
        ProducingKeepsInvariant(s, t, id, state, sent);
      }
    }
  }

  /** At every moment of every run, what the desktop shows for a store is the state
      that its adapter had when it sent the last delivered message. */
  lemma {:induction false} ReplicaAgrees(trace: seq<System>, i: nat, id: string)
    requires Run(trace) && i < |trace| && id in trace[i].stores
    ensures id in trace[i].delivered && Same(trace[i].stores[id], trace[i].delivered[id])
  {
    RunInvariant(trace, i);
  }

  /** With nothing under way, every started adapter's store is on display, as its
      adapter knows it. */
  lemma {:induction false} ReplicaCatchesUp(trace: seq<System>, i: nat, id: string)
    requires Run(trace) && i < |trace| && trace[i].channel == []
    requires id in trace[i].producers && trace[i].producers[id].started
    ensures id in trace[i].stores && Same(trace[i].stores[id], trace[i].producers[id].prev)
  {
    hide Wire, Ordinary;
    RunInvariant(trace, i);
    var s := trace[i];
    assert Leads(id, id in s.stores, Current(s, id), s.channel, s.producers[id]);
  }

  // ---- hydration from the server's cache ----

  /** What the desktop shows after a reload: the cached snapshot with the last cached action
      on top, however many there were in between. */
  function Hydrated(id: string, snapshot: Value, ops: seq<Op>): (stores: map<string, Value>)
    ensures id in stores
  {
    Received(Received(map[], Decoded(StateInit(id, snapshot))), Decoded(StateAction(id, ops)))
  }

  lemma {:induction false} HydratedIsPatched(id: string, snapshot: Value, ops: seq<Op>)
    ensures Same(Hydrated(id, snapshot, ops)[id], ApplyOps(snapshot, ops))
  {
    hide Wire, ApplyOps, WireOps;
    WireTwice(snapshot);
    WireCommutes(Wire(snapshot), snapshot, ops);
  }

  /** When the last action led from `earlier` to `now`, hydration is right exactly if that
      action's diff lands on `now` from the snapshot; where the root's empty key is
      affected, exactly if the rest of the diff makes `now` out of nothing. */
  lemma {:induction false} HydrationExactly(id: string, snapshot: Value, earlier: Value, now: Value, ops: seq<Op>)
    requires NoFunc(now) && IsDiffOf(earlier, now, ops)
    ensures ClearRoot(earlier, now) ==>
              (Same(Hydrated(id, snapshot, ops)[id], now)
               <==> Lands(snapshot, earlier, now, MAX_PATCH_PATH_SEGMENTS))
    ensures !ClearRoot(earlier, now) ==>
              BothObjects(earlier, now) &&
              forall i | 0 <= i < |ops| && ops[i].Op? && ops[i].path == "/" ::
                Same(Hydrated(id, snapshot, ops)[id], now)
                <==> Wire(Get(now.fields, "")) == Undef && Regrows(earlier, now, ops[i + 1..])
  {
    hide Wire, ApplyOps, WireOps, IsDiffOf, Hydrated, Lands, Regrows;
    HydratedIsPatched(id, snapshot, ops);
    if ClearRoot(earlier, now) {
      PatchLandsExactly(snapshot, earlier, now, ops);
    } else {
      forall i | 0 <= i < |ops| && ops[i].Op? && ops[i].path == "/"
        ensures Same(ApplyOps(snapshot, ops), now)
                <==> Wire(Get(now.fields, "")) == Undef && Regrows(earlier, now, ops[i + 1..])
      {
        EmptyKeyExactly(snapshot, earlier, now, ops, i);
      }
    }
  }

  /** A field that an earlier action changed, and the last one did not, shows the
      snapshot's value. */
  lemma {:induction false} HydrationMissesEarlierActions(id: string, snapshot: Value, earlier: Value, now: Value,
                                                         ops: seq<Op>, k: string)
    requires snapshot.Obj? && BothObjects(earlier, now) && IsDiffOf(earlier, now, ops) && ClearRoot(earlier, now)
    requires k in earlier.fields && k in now.fields && earlier.fields[k] == now.fields[k]
    ensures var shown := Hydrated(id, snapshot, ops)[id];
            && shown.Obj? && Same(Get(shown.fields, k), Get(snapshot.fields, k))
            && (!Same(Get(snapshot.fields, k), now.fields[k]) ==> !Same(shown, now))
  {
    hide ApplyOps, ClearRoot, IsDiffOf, Hydrated;
    UnchangedFieldIsKept(snapshot, earlier, now, ops, k);
    HydratedIsPatched(id, snapshot, ops);
    var shown, patched := Hydrated(id, snapshot, ops)[id], ApplyOps(snapshot, ops);
    SameObj(shown.fields, patched.fields);
    SameObj(shown.fields, now.fields);
    assert Same(Get(shown.fields, k), Get(patched.fields, k));
  }

  function Counters(a: int, b: int): Value {
    Obj(map["a" := Num(a), "b" := Num(b)])
  }

  /** Two actions after the snapshot are enough: the first is not shown. */
  lemma {:induction false} SecondActionHidesFirst(id: string, ops: seq<Op>)
    requires IsDiffOf(Counters(1, 0), Counters(1, 1), ops)
    ensures !Same(Hydrated(id, Counters(0, 0), ops)[id], Counters(1, 1))
  {
    hide IsDiffOf, Hydrated;
    assert "" !in Counters(1, 0).fields && "" !in Counters(1, 1).fields;
    HydrationMissesEarlierActions(id, Counters(0, 0), Counters(1, 0), Counters(1, 1), ops, "a");
  }
}
