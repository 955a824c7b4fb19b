/** The SDK's inbound commands: handlers are registered and unregistered, commands are
    dispatched to them, and every command is answered once. */
module Commands {
  import opened Values
  import opened Pointer

  /** A handler is known by its identity, as `===` tells functions apart. */
  type Handler = nat

  datatype Command =
    | StorageWrite(requestId: string, engine: string, dbName: Option<string>, op: string, key: string, value: Value)
    | StorageClear(requestId: string, engine: string, dbName: Option<string>, scope: string, table: Option<string>)
    | StateWrite(requestId: string, storeId: string, state: Value)
    | QueryWrite(requestId: string, queryHash: string, data: Value)
    | QueryCommand(requestId: string, queryHash: string, command: string)
    | ClearCache(requestId: string)

  datatype Kind = StorageWriteKind | StorageClearKind | StateWriteKind | QueryWriteKind | QueryCommandKind | ClearCacheKind

  function KindOf(c: Command): Kind {
    match c
    case StorageWrite(_, _, _, _, _, _) => StorageWriteKind
    case StorageClear(_, _, _, _, _) => StorageClearKind
    case StateWrite(_, _, _) => StateWriteKind
    case QueryWrite(_, _, _) => QueryWriteKind
    case QueryCommand(_, _, _) => QueryCommandKind
    case ClearCache(_) => ClearCacheKind
  }

  datatype ErrorCode = NoAdapter | NoStore | UnsupportedOp | InvalidData | EngineError | NoQuery | NotApplied

  /** A result message; `kind` is the command's, the message type is its `-result`. */
  datatype Reply = Reply(kind: Kind, requestId: string, ok: bool, errorCode: Option<ErrorCode>)

  /** The error classes that the dispatcher tells apart. */
  datatype Outcome = Completed | QueryNotFound | QueryWriteNotApplied | ClearUnsupported | OtherError

  // ---- the registered handlers ----

  datatype Slot =
    | WriteSlot(key: string)
    | ClearSlot(key: string)
    | StoreSlot(storeId: string)
    | QueryWriteSlot
    | QueryCommandSlot

  function StorageHandlerKey(engine: string, dbName: Option<string>): string {
    engine + "::" + (if dbName.Some? then dbName.value else "")
  }

  datatype Handlers = Handlers(
    storageWrite: map<string, Handler>,
    storageClear: map<string, Handler>,
    stateWrite: map<string, Handler>,
    queryWrite: Option<Handler>,
    queryCommand: Option<Handler>)

  const NO_HANDLERS := Handlers(map[], map[], map[], None, None)

  function Find(m: map<string, Handler>, k: string): Option<Handler> {
    if k in m then Some(m[k]) else None
  }

  function Lookup(h: Handlers, slot: Slot): Option<Handler> {
    match slot
    case WriteSlot(k) => Find(h.storageWrite, k)
    case ClearSlot(k) => Find(h.storageClear, k)
    case StoreSlot(id) => Find(h.stateWrite, id)
    case QueryWriteSlot => h.queryWrite
    case QueryCommandSlot => h.queryCommand
  }

  function Register(h: Handlers, slot: Slot, handler: Handler): Handlers {
    match slot
    case WriteSlot(k) => h.(storageWrite := h.storageWrite[k := handler])
    case ClearSlot(k) => h.(storageClear := h.storageClear[k := handler])
    case StoreSlot(id) => h.(stateWrite := h.stateWrite[id := handler])
    case QueryWriteSlot => h.(queryWrite := Some(handler))
    case QueryCommandSlot => h.(queryCommand := Some(handler))
  }

  /** What the function returned by a registration does. A store has none. */
  function Unregister(h: Handlers, slot: Slot, handler: Handler): Handlers {
    if slot.StoreSlot? || Lookup(h, slot) != Some(handler) then h
    else match slot
      case WriteSlot(k) => h.(storageWrite := h.storageWrite - {k})
      case ClearSlot(k) => h.(storageClear := h.storageClear - {k})
      case StoreSlot(_) => h
      case QueryWriteSlot => h.(queryWrite := None)
      case QueryCommandSlot => h.(queryCommand := None)
  }

  // ---- which handler is current ----

  datatype Change = Registered(slot: Slot, handler: Handler) | Unregistered(slot: Slot, handler: Handler)

  function AfterChanges(changes: seq<Change>): Handlers {
    if changes == [] then NO_HANDLERS
    else
      var before, last := AfterChanges(changes[..|changes| - 1]), changes[|changes| - 1];
      if last.Registered? then Register(before, last.slot, last.handler)
      else Unregister(before, last.slot, last.handler)
  }

  /** The change is the slot's latest registration or withdraws this very handler. */
  predicate Displaces(c: Change, slot: Slot, handler: Handler) {
    c.slot == slot && (c.Registered? || (c.handler == handler && !slot.StoreSlot?))
  }

  predicate StandsSince(changes: seq<Change>, i: nat, slot: Slot, handler: Handler) {
    && i < |changes| && changes[i] == Registered(slot, handler)
    && forall j | i < j < |changes| :: !Displaces(changes[j], slot, handler)
  }

  /** The current handler of a slot is the one registered last, unless that handler has
      been unregistered since; another handler's late unregistration does not matter. */
  lemma {:induction false} CurrentIsLatest(changes: seq<Change>, slot: Slot, handler: Handler)
    ensures Lookup(AfterChanges(changes), slot) == Some(handler)
            <==> exists i :: StandsSince(changes, i, slot, handler)
  {
    if changes != [] {
      var front, last := changes[..|changes| - 1], changes[|changes| - 1];
      CurrentIsLatest(front, slot, handler);
      ChangeIsLocal(AfterChanges(front), last, slot, handler);
      StandsOn(changes, slot, handler);
    }
  }

  lemma {:induction false} ChangeIsLocal(h: Handlers, c: Change, slot: Slot, handler: Handler)
    ensures var next := if c.Registered? then Register(h, c.slot, c.handler) else Unregister(h, c.slot, c.handler);
            Lookup(next, slot) == Some(handler)
            <==> c == Registered(slot, handler) || (Lookup(h, slot) == Some(handler) && !Displaces(c, slot, handler))
  {
  }

  lemma {:induction false} StandsOn(changes: seq<Change>, slot: Slot, handler: Handler)
    requires changes != []
    ensures var front, last := changes[..|changes| - 1], changes[|changes| - 1];
            (exists i :: StandsSince(changes, i, slot, handler))
            <==> last == Registered(slot, handler)
                 || ((exists i :: StandsSince(front, i, slot, handler)) && !Displaces(last, slot, handler))
  {
    var front, last := changes[..|changes| - 1], changes[|changes| - 1];
    if exists i :: StandsSince(changes, i, slot, handler) {
      var i: nat :| StandsSince(changes, i, slot, handler);
      assert i < |front| ==> StandsSince(front, i, slot, handler);
    }
    if last == Registered(slot, handler) {
      assert StandsSince(changes, |front|, slot, handler);
    }
    if (exists i :: StandsSince(front, i, slot, handler)) && !Displaces(last, slot, handler) {
      var i: nat :| StandsSince(front, i, slot, handler);
      assert StandsSince(changes, i, slot, handler);
    }
  }

  // ---- dispatch ----

  /** How far a command has come: answered at once, waiting for its microtask (with the
      handler found at dispatch, if the closure holds one), with its handler, or settled. */
  datatype Progress =
    | Refused(code: ErrorCode)
    | Waiting(captured: Option<Handler>)
    | Calling(handler: Option<Handler>)
    | Settled(handler: Option<Handler>, outcome: Outcome)

  datatype Entry = Entry(command: Command, progress: Progress)

  /** A reply and the command, by its place in the log, whose closure sent it. */
  datatype Sent = Sent(sender: nat, reply: Reply)

  datatype Sdk = Sdk(handlers: Handlers, log: seq<Entry>, sent: seq<Sent>)

  /** The start of a `case` of the dispatcher: refused, or left to a microtask. */
  function Dispatch(h: Handlers, c: Command): Progress {
    match c
    case StorageWrite(_, engine, dbName, op, _, _) =>
      var handler := Lookup(h, WriteSlot(StorageHandlerKey(engine, dbName)));
      if handler.None? then Refused(NoAdapter)
      else if op != "set" && op != "remove" then Refused(UnsupportedOp)
      else Waiting(handler)
    case StorageClear(_, engine, dbName, scope, table) =>
      var handler := Lookup(h, ClearSlot(StorageHandlerKey(engine, dbName)));
      if handler.None? then Refused(NoAdapter)
      else if scope != "all" && scope != "table" then Refused(UnsupportedOp)
      else if scope == "table" && (table.None? || table.value == "") then Refused(UnsupportedOp)
      else Waiting(handler)
    case StateWrite(_, storeId, _) =>
      var handler := Lookup(h, StoreSlot(storeId));
      if handler.None? then Refused(NoStore) else Waiting(handler)
    case QueryWrite(_, _, data) =>
      if h.queryWrite.None? then Refused(NoAdapter)
      else if data == Undef then Refused(InvalidData)
      else Waiting(None)
    case QueryCommand(_, _, _) =>
      if h.queryCommand.None? then Refused(NoAdapter) else Waiting(None)
    case ClearCache(_) => Waiting(None)
  }

  function ErrorCodeFor(kind: Kind, outcome: Outcome): ErrorCode {
    match outcome
    case QueryNotFound =>
      if kind == QueryWriteKind || kind == QueryCommandKind then NoQuery else EngineError
    case QueryWriteNotApplied => if kind == QueryWriteKind then NotApplied else EngineError
    case ClearUnsupported => if kind == StorageClearKind then UnsupportedOp else EngineError
    case _ => EngineError
  }

  function ReplyTo(c: Command, outcome: Outcome): Reply {
    if outcome.Completed? then Reply(KindOf(c), c.requestId, true, None)
    else Reply(KindOf(c), c.requestId, false, Some(ErrorCodeFor(KindOf(c), outcome)))
  }

  function Refusal(c: Command, code: ErrorCode): Reply {
    Reply(KindOf(c), c.requestId, false, Some(code))
  }

  function Received(s: Sdk, c: Command): Sdk {
    var progress := Dispatch(s.handlers, c);
    Sdk(s.handlers, s.log + [Entry(c, progress)],
        if progress.Refused? then s.sent + [Sent(|s.log|, Refusal(c, progress.code))] else s.sent)
  }

  /** The handler that the microtask calls: the captured one, or what the slot holds now. */
  function Callee(h: Handlers, e: Entry): Option<Handler>
    requires e.progress.Waiting?
  {
    match e.command
    case QueryWrite(_, _, _) => h.queryWrite
    case QueryCommand(_, _, _) => h.queryCommand
    case _ => e.progress.captured
  }

  function SettledAt(s: Sdk, i: nat, handler: Option<Handler>, outcome: Outcome): Sdk
    requires i < |s.log|
  {
    var e := s.log[i];
    Sdk(s.handlers, s.log[i := Entry(e.command, Settled(handler, outcome))],
        s.sent + [Sent(i, ReplyTo(e.command, outcome))])
  }

  /** The microtask of command `i`. A slot that has been emptied in the meantime makes
      the call throw. */
  function Called(s: Sdk, i: nat): Sdk
    requires i < |s.log| && s.log[i].progress.Waiting?
  {
    var e := s.log[i];
    var callee := Callee(s.handlers, e);
    if callee.None? && !e.command.ClearCache? then SettledAt(s, i, None, OtherError)
    else s.(log := s.log[i := Entry(e.command, Calling(callee))])
  }

  /** The module's state and the transport's. */
  class Dispatcher {
    const appId: string
    var storageWriteHandlers: map<string, Handler>
    var storageClearHandlers: map<string, Handler>
    var stateWriteHandlers: map<string, Handler>
    var queryWriteHandler: Option<Handler>
    var queryCommandHandler: Option<Handler>
    var log: seq<Entry>
    var sent: seq<Sent>

    function Contents(): Sdk
      reads this
    {
      Sdk(Handlers(storageWriteHandlers, storageClearHandlers, stateWriteHandlers, queryWriteHandler,
                   queryCommandHandler), log, sent)
    }

    constructor (appId: string)
      ensures this.appId == appId && Contents() == Sdk(NO_HANDLERS, [], [])
    {
      this.appId := appId;
      storageWriteHandlers, storageClearHandlers, stateWriteHandlers := map[], map[], map[];
      queryWriteHandler, queryCommandHandler := None, None;
      log, sent := [], [];
    }

    /** The five `register` functions. */
    method RegisterHandler(slot: Slot, handler: Handler)
      modifies this
      ensures Contents() == old(Contents()).(handlers := Register(old(Contents()).handlers, slot, handler))
    {
      match slot
      case WriteSlot(k) => storageWriteHandlers := storageWriteHandlers[k := handler];
      case ClearSlot(k) => storageClearHandlers := storageClearHandlers[k := handler];
      case StoreSlot(id) => stateWriteHandlers := stateWriteHandlers[id := handler];
      case QueryWriteSlot => queryWriteHandler := Some(handler);
      case QueryCommandSlot => queryCommandHandler := Some(handler);
    }

    /** The four functions that registrations return. */
    method UnregisterHandler(slot: Slot, handler: Handler)
      modifies this
      ensures Contents() == old(Contents()).(handlers := Unregister(old(Contents()).handlers, slot, handler))
    {
      match slot
      case WriteSlot(k) =>
        if k in storageWriteHandlers && storageWriteHandlers[k] == handler {
          storageWriteHandlers := storageWriteHandlers - {k};
        }
      case ClearSlot(k) =>
        if k in storageClearHandlers && storageClearHandlers[k] == handler {
          storageClearHandlers := storageClearHandlers - {k};
        }
      case StoreSlot(_) =>
      case QueryWriteSlot =>
        if queryWriteHandler == Some(handler) {
          queryWriteHandler := None;
        }
      case QueryCommandSlot =>
        if queryCommandHandler == Some(handler) {
          queryCommandHandler := None;
        }
    }

    /** `reply…`: the result goes to the transport. */
    method Answer(sender: nat, reply: Reply)
      modifies this`sent
      ensures sent == old(sent) + [Sent(sender, reply)]
    {
      sent := sent + [Sent(sender, reply)];
    }

    /** The message handler. Messages for another app, and of other types, do nothing. */
    method OnMessage(to: string, message: Option<Command>)
      modifies this
      ensures Contents() ==
              if to == appId && message.Some? then Received(old(Contents()), message.value) else old(Contents())
    {
      if to != appId || message.None? {
        return;
      }
      var c := message.value;
      var me := |log|;
      match c
      case StorageWrite(requestId, engine, dbName, op, _, _) =>
        var k := StorageHandlerKey(engine, dbName);
        if k !in storageWriteHandlers {
          log := log + [Entry(c, Refused(NoAdapter))];
          Answer(me, Reply(StorageWriteKind, requestId, false, Some(NoAdapter)));
          return;
        }
        if op != "set" && op != "remove" {
          log := log + [Entry(c, Refused(UnsupportedOp))];
          Answer(me, Reply(StorageWriteKind, requestId, false, Some(UnsupportedOp)));
          return;
        }
        log := log + [Entry(c, Waiting(Some(storageWriteHandlers[k])))];
      case StorageClear(requestId, engine, dbName, scope, table) =>
        var k := StorageHandlerKey(engine, dbName);
        if k !in storageClearHandlers {
          log := log + [Entry(c, Refused(NoAdapter))];
          Answer(me, Reply(StorageClearKind, requestId, false, Some(NoAdapter)));
          return;
        }
        if (scope != "all" && scope != "table") || (scope == "table" && (table.None? || table.value == "")) {
          log := log + [Entry(c, Refused(UnsupportedOp))];
          Answer(me, Reply(StorageClearKind, requestId, false, Some(UnsupportedOp)));
          return;
        }
        log := log + [Entry(c, Waiting(Some(storageClearHandlers[k])))];
      case StateWrite(requestId, storeId, _) =>
        if storeId !in stateWriteHandlers {
          log := log + [Entry(c, Refused(NoStore))];
          Answer(me, Reply(StateWriteKind, requestId, false, Some(NoStore)));
          return;
        }
        log := log + [Entry(c, Waiting(Some(stateWriteHandlers[storeId])))];
      case QueryWrite(requestId, _, data) =>
        if queryWriteHandler.None? {
          log := log + [Entry(c, Refused(NoAdapter))];
          Answer(me, Reply(QueryWriteKind, requestId, false, Some(NoAdapter)));
          return;
        }
        if data == Undef {
          log := log + [Entry(c, Refused(InvalidData))];
          Answer(me, Reply(QueryWriteKind, requestId, false, Some(InvalidData)));
          return;
        }
        log := log + [Entry(c, Waiting(None))];
      case QueryCommand(requestId, _, _) =>
        if queryCommandHandler.None? {
          log := log + [Entry(c, Refused(NoAdapter))];
          Answer(me, Reply(QueryCommandKind, requestId, false, Some(NoAdapter)));
          return;
        }
        log := log + [Entry(c, Waiting(None))];
      case ClearCache(_) =>
        log := log + [Entry(c, Waiting(None))];
    }

    /** The first `then`: the handler is called. */
    method Call(i: nat)
      requires i < |log| && log[i].progress.Waiting?
      modifies this
      ensures Contents() == Called(old(Contents()), i)
    {
      var c := log[i].command;
      var callee := log[i].progress.captured;
      if c.QueryWrite? {
        callee := queryWriteHandler;
      } else if c.QueryCommand? {
        callee := queryCommandHandler;
      }
      if callee.None? && !c.ClearCache? {
        Settle(i, None, OtherError);
        return;
      }
      log := log[i := Entry(c, Calling(callee))];
    }

    /** The second `then`: what the handler came to is reported. */
    method Settle(i: nat, handler: Option<Handler>, outcome: Outcome)
      requires i < |log|
      modifies this
      ensures Contents() == SettledAt(old(Contents()), i, handler, outcome)
    {
      var c := log[i].command;
      log := log[i := Entry(c, Settled(handler, outcome))];
      match outcome
      case Completed => Answer(i, Reply(KindOf(c), c.requestId, true, None));
      case _ => Answer(i, Reply(KindOf(c), c.requestId, false, Some(ErrorCodeFor(KindOf(c), outcome))));
    }
  }

  // ---- runs ----

  ghost predicate Next(s: Sdk, t: Sdk) {
    || (exists slot, handler :: t == s.(handlers := Register(s.handlers, slot, handler)))
    || (exists slot, handler :: t == s.(handlers := Unregister(s.handlers, slot, handler)))
    || (exists c :: t == Received(s, c))
    || (exists i: nat :: i < |s.log| && s.log[i].progress.Waiting? && t == Called(s, i))
    || (exists i: nat, outcome :: Settles(s, t, i, outcome))
  }

  predicate Settles(s: Sdk, t: Sdk, i: nat, outcome: Outcome) {
    i < |s.log| && s.log[i].progress.Calling? && t == SettledAt(s, i, s.log[i].progress.handler, outcome)
  }

  ghost predicate Run(trace: seq<Sdk>) {
    && trace != [] && trace[0] == Sdk(NO_HANDLERS, [], [])
    && forall i | 0 <= i < |trace| - 1 :: Next(trace[i], trace[i + 1])
  }

  function Answers(sent: seq<Sent>, i: nat): nat {
    if sent == [] then 0
    else Answers(sent[..|sent| - 1], i) + (if sent[|sent| - 1].sender == i then 1 else 0)
  }

  predicate Answered(p: Progress) {
    p.Refused? || p.Settled?
  }

  /** The answer that a command in this state of progress has had. */
  function Answer(e: Entry): Reply
    requires Answered(e.progress)
  {
    if e.progress.Refused? then Refusal(e.command, e.progress.code) else ReplyTo(e.command, e.progress.outcome)
  }

  /** Every answered command was answered once, by its own result, and no other was. */
  ghost predicate Invariant(s: Sdk) {
    && (forall k | 0 <= k < |s.sent| ::
          && s.sent[k].sender < |s.log| && Answered(s.log[s.sent[k].sender].progress)
          && s.sent[k].reply == Answer(s.log[s.sent[k].sender]))
    && (forall i | 0 <= i < |s.log| :: Answers(s.sent, i) == if Answered(s.log[i].progress) then 1 else 0)
    && (forall i: nat | i >= |s.log| :: Answers(s.sent, i) == 0)
  }

  lemma {:induction false} AnswersGrow(sent: seq<Sent>, x: Sent, i: nat)
    ensures Answers(sent + [x], i) == Answers(sent, i) + if x.sender == i then 1 else 0
  {
    assert (sent + [x])[..|sent|] == sent;
  }

  /** An answer is sent for a command that had none. */
  lemma {:induction false} AnsweringKeepsInvariant(s: Sdk, t: Sdk, i: nat, e: Entry)
    requires Invariant(s) && i <= |s.log| && Answered(e.progress)
    requires i < |s.log| ==> !Answered(s.log[i].progress)
    requires t.log == (if i < |s.log| then s.log[i := e] else s.log + [e])
    requires t.sent == s.sent + [Sent(i, Answer(e))]
    ensures Invariant(t)
  {
    hide Answers;
    forall j: nat ensures Answers(t.sent, j) == Answers(s.sent, j) + if i == j then 1 else 0
    {
      AnswersGrow(s.sent, Sent(i, Answer(e)), j);
    }
  }

  /** A command moves on without an answer. */
  lemma {:induction false} WaitingKeepsInvariant(s: Sdk, t: Sdk, i: nat, e: Entry)
    requires Invariant(s) && i <= |s.log| && !Answered(e.progress)
    requires i < |s.log| ==> !Answered(s.log[i].progress)
    requires t.log == (if i < |s.log| then s.log[i := e] else s.log + [e])
    requires t.sent == s.sent
    ensures Invariant(t)
  {
    hide Answers;
  }

  lemma {:induction false} NextKeepsInvariant(s: Sdk, t: Sdk)
    requires Invariant(s) && Next(s, t)
    ensures Invariant(t)
  {
    hide Invariant, Dispatch, Register, Unregister, Answers, KindOf;
    if t.log == s.log && t.sent == s.sent {
      SameRecordKeepsInvariant(s, t);
    } else if c :| t == Received(s, c) {
      var e := Entry(c, Dispatch(s.handlers, c));
      DispatchNeverSettles(s.handlers, c);
      if e.progress.Refused? {
        AnsweringKeepsInvariant(s, t, |s.log|, e);
      } else {
        WaitingKeepsInvariant(s, t, |s.log|, e);
      }
    } else if i: nat :| i < |s.log| && s.log[i].progress.Waiting? && t == Called(s, i) {
      if t.log[i].progress.Settled? {
        AnsweringKeepsInvariant(s, t, i, t.log[i]);
      } else {
        WaitingKeepsInvariant(s, t, i, t.log[i]);
      }
    } else {
      var i: nat, outcome :| Settles(s, t, i, outcome);
      AnsweringKeepsInvariant(s, t, i, t.log[i]);
    }
  }

  lemma {:induction false} DispatchNeverSettles(h: Handlers, c: Command)
    ensures Dispatch(h, c).Refused? || Dispatch(h, c).Waiting?
  {
  }

  lemma {:induction false} SameRecordKeepsInvariant(s: Sdk, t: Sdk)
    requires Invariant(s) && t.log == s.log && t.sent == s.sent
    ensures Invariant(t)
  {
  }

  lemma {:induction false} RunInvariant(trace: seq<Sdk>, n: nat)
    requires Run(trace) && n < |trace|
    ensures Invariant(trace[n])
    decreases n
  {
    hide Invariant, Next;
    if n == 0 {
      NothingAnswered();
    } else {
      RunInvariant(trace, n - 1);
      assert Next(trace[n - 1], trace[n]);
      NextKeepsInvariant(trace[n - 1], trace[n]);
    }
  }

  lemma {:induction false} NothingAnswered()
    ensures Invariant(Sdk(NO_HANDLERS, [], []))
  {
  }

  /** In every run a command has one answer as soon as it is refused or its handler has
      settled, and none before; the answer carries its type and id, and says ok exactly
      if the handler completed normally. */
  lemma {:induction false} ExactlyOneReply(trace: seq<Sdk>, n: nat, i: nat)
    requires Run(trace) && n < |trace| && i < |trace[n].log|
    ensures var s := trace[n]; var e := s.log[i];
            && Answers(s.sent, i) == (if Answered(e.progress) then 1 else 0)
            && forall k | 0 <= k < |s.sent| && s.sent[k].sender == i ::
                 && s.sent[k].reply.kind == KindOf(e.command) && s.sent[k].reply.requestId == e.command.requestId
                 && (s.sent[k].reply.ok <==> e.progress.Settled? && e.progress.outcome.Completed?)
  {
    RunInvariant(trace, n);
  }

  // ---- whose handler is called ----

  function SlotOf(c: Command): Option<Slot> {
    match c
    case StorageWrite(_, engine, dbName, _, _, _) => Some(WriteSlot(StorageHandlerKey(engine, dbName)))
    case StorageClear(_, engine, dbName, _, _) => Some(ClearSlot(StorageHandlerKey(engine, dbName)))
    case StateWrite(_, storeId, _) => Some(StoreSlot(storeId))
    case QueryWrite(_, _, _) => Some(QueryWriteSlot)
    case QueryCommand(_, _, _) => Some(QueryCommandSlot)
    case ClearCache(_) => None
  }

  function HandlerOf(p: Progress): Option<Handler> {
    match p
    case Refused(_) => None
    case Waiting(captured) => captured
    case Calling(handler) => handler
    case Settled(handler, _) => handler
  }

  /** At step `m` the command was dispatched, and the handler was its slot's. */
  predicate DispatchedTo(trace: seq<Sdk>, m: nat, i: nat, c: Command, handler: Handler)
    requires m + 1 < |trace|
  {
    |trace[m].log| <= i < |trace[m + 1].log| && !c.QueryWrite? && !c.QueryCommand?
    && SlotOf(c).Some? && Lookup(trace[m].handlers, SlotOf(c).value) == Some(handler)
  }

  /** At step `m` the command's microtask ran, and the handler was its slot's. */
  predicate CalledWith(trace: seq<Sdk>, m: nat, i: nat, c: Command, handler: Handler)
    requires m + 1 < |trace|
  {
    i < |trace[m].log| && trace[m].log[i].progress.Waiting? && i < |trace[m + 1].log|
    && trace[m + 1].log[i].progress.Calling? && (c.QueryWrite? || c.QueryCommand?)
    && SlotOf(c).Some? && Lookup(trace[m].handlers, SlotOf(c).value) == Some(handler)
  }

  ghost predicate WasCurrent(trace: seq<Sdk>, n: nat, i: nat, c: Command, handler: Handler)
    requires n < |trace|
  {
    exists m :: 0 <= m < n && (DispatchedTo(trace, m, i, c, handler) || CalledWith(trace, m, i, c, handler))
  }

  /** In every run the handler that a command has been given was the current one of the slot
      that the command addresses: for a query write or command when it was called, for the
      others when the command was dispatched. */
  lemma {:induction false} OnlyCurrentHandlersAreCalled(trace: seq<Sdk>, n: nat, i: nat)
    requires Run(trace) && n < |trace| && i < |trace[n].log|
    ensures var e := trace[n].log[i];
            HandlerOf(e.progress).Some? ==> WasCurrent(trace, n, i, e.command, HandlerOf(e.progress).value)
    decreases n
  {
    hide Run, Register, Unregister, KindOf, StorageHandlerKey, Lookup, SlotOf;
    if n == 0 {
      RunStartsEmpty(trace);
    } else {
      RunSteps(trace, n - 1);
      var s, t := trace[n - 1], trace[n];
      HandlerIsCurrent(s, t, i);
      var e := t.log[i];
      if HandlerOf(e.progress).Some? && i < |s.log| && HandlerOf(e.progress) == HandlerOf(s.log[i].progress) {
        OnlyCurrentHandlersAreCalled(trace, n - 1, i);
        StillWasCurrent(trace, n, i, e.command, HandlerOf(e.progress).value);
      } else if HandlerOf(e.progress).Some? {
        var h := HandlerOf(e.progress).value;
        assert DispatchedTo(trace, n - 1, i, e.command, h) || CalledWith(trace, n - 1, i, e.command, h);
      }
    }
  }

  lemma {:induction false} RunStartsEmpty(trace: seq<Sdk>)
    requires Run(trace)
    ensures trace[0].log == []
  {
  }

  lemma {:induction false} RunSteps(trace: seq<Sdk>, n: nat)
    requires Run(trace) && n + 1 < |trace|
    ensures Next(trace[n], trace[n + 1])
  {
  }

  lemma {:induction false} StillWasCurrent(trace: seq<Sdk>, n: nat, i: nat, c: Command, handler: Handler)
    requires 0 < n < |trace| && WasCurrent(trace, n - 1, i, c, handler)
    ensures WasCurrent(trace, n, i, c, handler)
  {
    hide DispatchedTo, CalledWith;
    var m :| 0 <= m < n - 1 && (DispatchedTo(trace, m, i, c, handler) || CalledWith(trace, m, i, c, handler));
    assert 0 <= m < n;
  }

  /** A step leaves a command's handler alone or sets it to the slot's current one, at the
      dispatch or, for queries, at the call. */
  lemma {:induction false} HandlerIsCurrent(s: Sdk, t: Sdk, i: nat)
    requires Next(s, t) && i < |t.log|
    ensures var e := t.log[i];
            && (i < |s.log| ==> e.command == s.log[i].command)
            && (|| (i < |s.log| && HandlerOf(e.progress) == HandlerOf(s.log[i].progress))
                || HandlerOf(e.progress).None?
                || (&& SlotOf(e.command).Some? && Lookup(s.handlers, SlotOf(e.command).value) == HandlerOf(e.progress)
                    && if e.command.QueryWrite? || e.command.QueryCommand?
                       then i < |s.log| && s.log[i].progress.Waiting? && e.progress.Calling?
                       else i >= |s.log|))
  {
    hide Register, Unregister, KindOf, StorageHandlerKey;
  }
}
