/** Which commands the SDK refuses, whom it calls with the others, and what it answers, over
    every run of registrations, commands and microtasks. */
module CommandRuns {
  import opened Values
  import opened Pointer
  import opened Commands

  datatype Act =
    | Changes(change: Change)
    | Receives(command: Command)
    | Runs(index: nat)
    | Settles(index: nat, outcome: Outcome)

  const START := Sdk(NO_HANDLERS, [], [])

  predicate Possible(s: Sdk, a: Act) {
    match a
    case Runs(i) => i < |s.log| && s.log[i].progress.Waiting?
    case Settles(i, _) => i < |s.log| && s.log[i].progress.Calling?
    case _ => true
  }

  function Done(s: Sdk, a: Act): Sdk
    requires Possible(s, a)
  {
    match a
    case Changes(Registered(slot, h)) => s.(handlers := Register(s.handlers, slot, h))
    case Changes(Unregistered(slot, h)) => s.(handlers := Unregister(s.handlers, slot, h))
    case Receives(c) => Received(s, c)
    case Runs(i) => Called(s, i)
    case Settles(i, outcome) => SettledAt(s, i, s.log[i].progress.handler, outcome)
  }

  function Reached(acts: seq<Act>): Option<Sdk> {
    if acts == [] then Some(START)
    else
      var before, a := Reached(acts[..|acts| - 1]), acts[|acts| - 1];
      if before.Some? && Possible(before.value, a) then Some(Done(before.value, a)) else None
  }

  lemma {:induction false} OneMore(acts: seq<Act>, a: Act)
    requires Reached(acts).Some? && Possible(Reached(acts).value, a)
    ensures Reached(acts + [a]) == Some(Done(Reached(acts).value, a))
  {
    assert (acts + [a])[..|acts|] == acts;
  }

  /** So what holds of the states of every run holds here. */
  lemma {:induction false} ActsMakeARun(acts: seq<Act>) returns (trace: seq<Sdk>)
    requires Reached(acts).Some?
    ensures Run(trace) && |trace| == |acts| + 1
    ensures forall n | 0 <= n <= |acts| :: Reached(acts[..n]) == Some(trace[n])
  {
    hide Done, Possible, Next;
    if acts == [] {
      trace := [START];
    } else {
      var front := acts[..|acts| - 1];
      var before := ActsMakeARun(front);
      trace := before + [Reached(acts).value];
      assert front[..|front|] == front && acts[..|acts|] == acts;
      assert Reached(front[..|front|]) == Some(before[|front|]);
      DoingIsNext(Reached(front).value, acts[|acts| - 1]);
      forall n | 0 <= n <= |acts| ensures Reached(acts[..n]) == Some(trace[n])
      {
        if n <= |front| {
          assert front[..n] == acts[..n];
        }
      }
    }
  }

  lemma {:induction false} DoingIsNext(s: Sdk, a: Act)
    requires Possible(s, a)
    ensures Next(s, Done(s, a))
  {
    hide Register, Unregister, Received, Called, SettledAt;
    if a.Settles? {
      assert Commands.Settles(s, Done(s, a), a.index, a.outcome);
    }
  }

  // ---- the current handler ----

  function ChangesOf(acts: seq<Act>): seq<Change> {
    if acts == [] then []
    else
      var before, a := ChangesOf(acts[..|acts| - 1]), acts[|acts| - 1];
      if a.Changes? then before + [a.change] else before
  }

  /** The handler was registered for the slot, and nothing has displaced it. */
  ghost predicate Current(acts: seq<Act>, slot: Slot, handler: Handler) {
    exists i :: StandsSince(ChangesOf(acts), i, slot, handler)
  }

  ghost predicate Vacant(acts: seq<Act>, slot: Slot) {
    forall handler :: !Current(acts, slot, handler)
  }

  lemma {:induction false} HandlersFollow(acts: seq<Act>)
    requires Reached(acts).Some?
    ensures Reached(acts).value.handlers == AfterChanges(ChangesOf(acts))
  {
    hide Register, Unregister, Received, Called, SettledAt;
    if acts != [] {
      var front, a := acts[..|acts| - 1], acts[|acts| - 1];
      HandlersFollow(front);
      if !a.Changes? {
        StepOnHandlers(Reached(front).value, a);
      } else {
        assert (ChangesOf(front) + [a.change])[..|ChangesOf(front)|] == ChangesOf(front);
      }
    }
  }

  lemma {:induction false} StepOnHandlers(s: Sdk, a: Act)
    requires Possible(s, a) && !a.Changes?
    ensures Done(s, a).handlers == s.handlers
  {
  }

  lemma {:induction false} CurrentIsFound(acts: seq<Act>, slot: Slot)
    requires Reached(acts).Some?
    ensures forall h: Handler :: Lookup(Reached(acts).value.handlers, slot) == Some(h) <==> Current(acts, slot, h)
    ensures Lookup(Reached(acts).value.handlers, slot) == None <==> Vacant(acts, slot)
  {
    hide Reached, Lookup, AfterChanges, StandsSince, ChangesOf;
    HandlersFollow(acts);
    forall h: Handler ensures Lookup(Reached(acts).value.handlers, slot) == Some(h) <==> Current(acts, slot, h)
    {
      CurrentIsLatest(ChangesOf(acts), slot, h);
    }
    var found := Lookup(Reached(acts).value.handlers, slot);
    assert found.Some? ==> Current(acts, slot, found.value);
  }

  // ---- refused or taken ----

  /** What is wrong with the command itself. */
  function Fault(c: Command): Option<ErrorCode> {
    if c.StorageWrite? && c.op !in ["set", "remove"] then Some(UnsupportedOp)
    else if c.StorageClear? && c.scope == "table" && (c.table == None || c.table == Some("")) then Some(UnsupportedOp)
    else if c.StorageClear? && c.scope !in ["all", "table"] then Some(UnsupportedOp)
    else if c.QueryWrite? && c.data == Undef then Some(InvalidData)
    else None
  }

  predicate IsQuery(c: Command) {
    c.QueryWrite? || c.QueryCommand?
  }

  /** The entry that a command gets. */
  function Taken(acts: seq<Act>, c: Command): Progress
    requires Reached(acts).Some? && Reached(acts + [Receives(c)]).Some?
    requires |Reached(acts + [Receives(c)]).value.log| == |Reached(acts).value.log| + 1
  {
    Reached(acts + [Receives(c)]).value.log[|Reached(acts).value.log|].progress
  }

  /** In every run a command is refused exactly if its slot has no current handler, or it is
      itself at fault; then with that code. Otherwise it waits for its microtask, together
      with the current handler unless it is a query's. A cache is always cleared. */
  lemma {:induction false} RefusedExactly(acts: seq<Act>, c: Command)
    requires Reached(acts).Some?
    ensures Reached(acts + [Receives(c)]).Some?
    ensures var s, t := Reached(acts).value, Reached(acts + [Receives(c)]).value;
            && |t.log| == |s.log| + 1 && t.log[..|s.log|] == s.log && t.log[|s.log|].command == c
            && t.handlers == s.handlers
    ensures c.ClearCache? ==> Taken(acts, c) == Waiting(None)
    ensures !c.ClearCache? ==>
              var slot := SlotOf(c).value;
              if Vacant(acts, slot) then Taken(acts, c) == Refused(if c.StateWrite? then NoStore else NoAdapter)
              else if Fault(c).Some? then Taken(acts, c) == Refused(Fault(c).value)
              else && Taken(acts, c).Waiting?
                   && forall h: Handler | Current(acts, slot, h) :: Taken(acts, c).captured == if IsQuery(c) then None else Some(h)
  {
    hide Reached, Dispatch, Fault, SlotOf, Lookup;
    OneMore(acts, Receives(c));
    var s := Reached(acts).value;
    assert Taken(acts, c) == Dispatch(s.handlers, c);
    DispatchedExactly(s.handlers, c);
    if !c.ClearCache? {
      CurrentIsFound(acts, SlotOf(c).value);
    }
  }

  lemma {:induction false} DispatchedExactly(h: Handlers, c: Command)
    ensures c.ClearCache? ==> Dispatch(h, c) == Waiting(None)
    ensures !c.ClearCache? ==>
              && SlotOf(c).Some?
              && var found := Lookup(h, SlotOf(c).value);
                 Dispatch(h, c) == if found == None then Refused(if c.StateWrite? then NoStore else NoAdapter)
                                   else if Fault(c).Some? then Refused(Fault(c).value)
                                   else Waiting(if IsQuery(c) then None else found)
  {
    hide StorageHandlerKey;
  }

  // ---- called ----

  /** Command `i` was received at act `m`. */
  ghost predicate ReceivedAt(acts: seq<Act>, m: nat, i: nat, c: Command) {
    m < |acts| && acts[m] == Receives(c) && Reached(acts[..m]).Some? && |Reached(acts[..m]).value.log| == i
  }

  lemma {:induction false} ReceivedOnce(acts: seq<Act>, i: nat) returns (m: nat)
    requires Reached(acts).Some? && i < |Reached(acts).value.log|
    ensures ReceivedAt(acts, m, i, Reached(acts).value.log[i].command)
    ensures Reached(acts[..m + 1]).Some? && i < |Reached(acts[..m + 1]).value.log|
    ensures Reached(acts).value.log[i].progress.Waiting? ==>
              Reached(acts).value.log[i] == Reached(acts[..m + 1]).value.log[i]
  {
    hide Done, Possible;
    var front, last := acts[..|acts| - 1], |acts| - 1;
    var s, a := Reached(front).value, acts[last];
    StepOnLog(s, a, i);
    if i < |s.log| {
      m := ReceivedOnce(front, i);
      assert front[..m] == acts[..m] && front[..m + 1] == acts[..m + 1];
    } else {
      m := last;
      assert acts[..last + 1] == acts;
    }
  }

  lemma {:induction false} StepOnLog(s: Sdk, a: Act, i: nat)
    requires Possible(s, a) && i < |Done(s, a).log|
    ensures if i < |s.log| then
              && Done(s, a).log[i].command == s.log[i].command
              && (Done(s, a).log[i].progress.Waiting? ==> Done(s, a).log[i] == s.log[i])
            else a == Receives(Done(s, a).log[i].command) && i == |s.log|
  {
    hide Dispatch, Register, Unregister, KindOf;
  }

  /** In every run the microtask of a command that was not refused calls the handler that
      was current when the command came; for a query, the one that is current now. It
      settles without a call only if the query's slot is empty by then. */
  lemma {:induction false} CalledExactly(acts: seq<Act>, i: nat) returns (m: nat)
    requires Reached(acts).Some? && Possible(Reached(acts).value, Runs(i))
    ensures Reached(acts + [Runs(i)]).Some?
    ensures var s, t := Reached(acts).value, Reached(acts + [Runs(i)]).value; var c := s.log[i].command;
            && |t.log| == |s.log| && t.log[i].command == c
            && ReceivedAt(acts, m, i, c)
            && (c.ClearCache? ==> t.log[i].progress == Calling(None))
            && (!c.ClearCache? ==>
                  var slot, since := SlotOf(c).value, if IsQuery(c) then acts else acts[..m];
                  && (forall h: Handler | Current(since, slot, h) :: t.log[i].progress == Calling(Some(h)))
                  && (Vacant(since, slot) ==> IsQuery(c) && t.log[i].progress == Settled(None, OtherError)))
  {
    hide Reached, SlotOf, Lookup, Current, Vacant, KindOf, Dispatch;
    OneMore(acts, Runs(i));
    m := ReceivedOnce(acts, i);
    var s := Reached(acts).value;
    var c := s.log[i].command;
    var past := acts[..m];
    assert acts[..m + 1] == past + [Receives(c)];
    OneMore(past, Receives(c));
    DispatchedExactly(Reached(past).value.handlers, c);
    if !c.ClearCache? {
      SlotOfCommand(s.handlers, c);
      CurrentIsFound(past, SlotOf(c).value);
      CurrentIsFound(acts, SlotOf(c).value);
    }
  }

  lemma {:induction false} SlotOfCommand(h: Handlers, c: Command)
    requires !c.ClearCache?
    ensures SlotOf(c).Some?
    ensures c.QueryWrite? ==> h.queryWrite == Lookup(h, SlotOf(c).value)
    ensures c.QueryCommand? ==> h.queryCommand == Lookup(h, SlotOf(c).value)
  {
  }

  // ---- answered ----

  /** What a failure is reported as: missing queries and data that did not take only for
      queries, an unsupported clear only for a clear, and everything else as an error of the
      engine. */
  lemma {:induction false} FailureCodes(acts: seq<Act>, i: nat, outcome: Outcome)
    requires Reached(acts).Some? && Possible(Reached(acts).value, Settles(i, outcome))
    ensures Reached(acts + [Settles(i, outcome)]).Some?
    ensures var s, t := Reached(acts).value, Reached(acts + [Settles(i, outcome)]).value; var c := s.log[i].command;
            && |t.sent| == |s.sent| + 1 && t.sent[..|s.sent|] == s.sent
            && var reply := t.sent[|s.sent|].reply;
               && t.sent[|s.sent|].sender == i && reply.requestId == c.requestId
               && (reply.ok <==> outcome == Completed) && (reply.ok <==> reply.errorCode == None)
               && (reply.errorCode == Some(NoQuery) <==> IsQuery(c) && outcome == QueryNotFound)
               && (reply.errorCode == Some(NotApplied) <==> c.QueryWrite? && outcome == QueryWriteNotApplied)
               && (reply.errorCode == Some(UnsupportedOp) <==> c.StorageClear? && outcome == ClearUnsupported)
               && reply.errorCode in [None, Some(NoQuery), Some(NotApplied), Some(UnsupportedOp), Some(EngineError)]
  {
    hide Reached;
    OneMore(acts, Settles(i, outcome));
  }

  // ---- storage handlers are found by a joined key ----

  function DbText(dbName: Option<string>): string {
    if dbName == None then "" else dbName.value
  }

  /** A pair of colons begins at `j`. */
  predicate ColonsAt(s: string, j: nat) {
    j + 1 < |s| && s[j] == ':' && s[j + 1] == ':'
  }

  ghost predicate NamesOnly(engine: string, dbName: Option<string>) {
    forall engine', dbName' | StorageHandlerKey(engine', dbName') == StorageHandlerKey(engine, dbName) ::
      engine' == engine && DbText(dbName') == DbText(dbName)
  }

  /** The key of a storage handler names one engine and database exactly if it has no other
      pair of colons than the one that joins them. */
  lemma {:induction false} KeyIsUniqueExactly(engine: string, dbName: Option<string>)
    ensures NamesOnly(engine, dbName) <==>
            forall j: nat | ColonsAt(StorageHandlerKey(engine, dbName), j) :: j == |engine|
  {
    var key := StorageHandlerKey(engine, dbName);
    forall engine', dbName' | StorageHandlerKey(engine', dbName') == key
      ensures ColonsAt(key, |engine'|)
      ensures |engine'| == |engine| ==> engine' == engine && DbText(dbName') == DbText(dbName)
    {
      KeyParts(engine, dbName);
      KeyParts(engine', dbName');
    }
    forall j: nat | ColonsAt(key, j) && j != |engine| ensures !NamesOnly(engine, dbName)
    {
      var engine', dbName' := key[..j], Some(key[j + 2..]);
      assert key == engine' + "::" + dbName'.value;
      assert StorageHandlerKey(engine', dbName') == key;
      assert |engine'| == j;
    }
  }

  lemma {:induction false} KeyParts(engine: string, dbName: Option<string>)
    ensures var key := StorageHandlerKey(engine, dbName);
            && ColonsAt(key, |engine|) && key[..|engine|] == engine && key[|engine| + 2..] == DbText(dbName)
  {
  }

  /** Among engines whose names have no colon, as all of the SDK's have, the key tells engine
      and database. */
  lemma {:induction false} KeysTellTargets(engine: string, dbName: Option<string>, engine': string, dbName': Option<string>)
    requires ':' !in engine && ':' !in engine'
    ensures StorageHandlerKey(engine, dbName) == StorageHandlerKey(engine', dbName') <==>
            engine == engine' && DbText(dbName) == DbText(dbName')
  {
    if StorageHandlerKey(engine, dbName) == StorageHandlerKey(engine', dbName') {
      KeyParts(engine, dbName);
      KeyParts(engine', dbName');
      FirstColon(engine, dbName, |engine'|);
      FirstColon(engine', dbName', |engine|);
    }
  }

  lemma {:induction false} FirstColon(engine: string, dbName: Option<string>, j: nat)
    requires ':' !in engine
    ensures ColonsAt(StorageHandlerKey(engine, dbName), j) ==> j >= |engine|
  {
  }
}
