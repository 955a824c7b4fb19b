# Spyglass, verified

Spyglass connects a running app (through its SDK) with a desktop inspector. The SDK sends
snapshots and diffs of the app's state over a WebSocket, the desktop rebuilds the state from
them, draws it, and sends edits back. This project models the parts of that machinery where a
mistake would be hard to see, and proves what they are for.

`dafny verify dfyconfig.toml` checks everything.

## How the model is laid out

*State replica.* `Values` has JavaScript values and what is left of one after a trip over the
wire. `Pointer` has the JSON Pointer escaping of RFC 6901, sections 3 and 4, and its reader.
`Patch` is `applyPatch`, the add, replace and remove operations of RFC 6902. `Diff` is
`diffValues` with its two loops. `Landing` finds, on paths as sequences, for which values a diff
leads to the next value; `RoundTrip` draws from it what happens from the previous value and from
every value between the two. `DiffPatch` carries that over to the real path strings, and `EmptyKey`
settles the one case in which the strings mislead. `PatchLaws` has what single operations do that
the SDK's diffs never hold. `WirePatch` shows that patching and encoding
commute. `Replica` puts the Zustand and Redux adapters at one end of a first-in-first-out
channel and the desktop's reducer at the other.

*Serializer.* `Serialize` is `safeSerialize` over a heap of objects by identity, which may be
shared or cyclic. `Serialized` bounds its output in depth and size, `Lossless` says exactly when it
is a faithful copy, `Copied` what stands in each place of it and why, and `Truncation` fits its depth
cap to the two that rely on it.

*Graph views.* The `JsonGraph` modules are `buildJsonGraph`: one container (`JsonGraph`), the loop's
bookkeeping (`JsonGraphBuild`), ids and trees (`JsonGraphTree`), the loop itself and the node budget
(`JsonGraphBudget`), what a reader may rely on (`JsonGraphTheorems`), what each row says and where an
edit of it goes (`JsonGraphRows`), and the method itself (`JsonGraphResult`). `NavGraph` is the
navigation graph reducer with its counts, `NavSession` what else it says after a session, and
`Clusters` the connected components drawn from it.

*Live writes.* `Commands` is the SDK's dispatcher with its handler registrations, and `CommandRuns`
says which commands it refuses and whom it calls with the others. `Equality` is
`deepEqual`. `Writes` is the desktop store's side, with pending entries and timers, and
`WriteProtocol` the composition of both over a network that may delay, reorder, repeat and lose;
`WriteOutcomes` says what every event does to every entry and timer.

*Connections.* `Transport` is the SDK's reconnecting socket with its bounded queue. `Registry` and
`RegistryRuns` are the desktop server's capped tables, `RegistryContents` says what they hold after
any run, `WsServer` is the accept loop and the connection tasks, interleaved at every access to the
shared counter and registry, and `WsSession` ties one connection's code to its steps there.

*Printers.* `Lens` is `toJsonPointer` and the edits made with it; `Curl` is `toCurl`, read back by
the token rules of the POSIX Shell Command Language, sections 2.2.1, 2.2.2 and 2.3, and then as
options. `Sums` has sums
over finite sets.

Objects whose methods update fields are classes here too (`Serializer`, `ZustandAdapter`,
`ReduxMiddleware`, `StateWalk`, `Dispatcher`, `ConnectionStore`, `Transport`, `RegistryInner`); each
method is tied to a function of the old fields, and the theorems are about runs of those functions.
Loops that update variables are methods with loops.

## Where the code does less than one would think

Each of these is a lemma, with the exact condition or the input that shows it.

- An entry under the empty key of the root object has the path `/`, which the reader takes for the
  root itself: a defined value written there replaces the whole state for good, and its removal
  clears the state (`EmptyKeyExactly`, `EmptyKeyRemovedExactly`; for edits `EditLandsExactly`,
  `EmptyKeyEditReplacesRoot`).
- A difference under a key that objects inherit, or one of the three refused keys, is not carried
  over (`RoundTripExactly`, `InheritedKeyStays`; for edits `EditLandsExactly`,
  `ConstructorCannotBeEdited`).
- `deepEqual` counts keys but reads missing ones as undefined, so it takes `{a: undefined}` and
  `{b: 1}` for equal; it decides equality exactly when no object on the written side holds
  undefined (`DecidesEqualityExactly`, `UndefinedIsConfused`).
- A marker below the depth cap is not found by `containsTruncatedValue` (`SearchedExactly`,
  `ThirteenArraysHideMarker`); no serialized value has one there (`SerializedIsChecked`).
- A failed or superseded write can still become applied by a late result (`ResultChangesExactly`,
  `TimedOutBecomesApplied`).
- Replaying the cached snapshot and the last cached action shows old values for fields that earlier
  actions changed (`HydrationExactly`, `SecondActionHidesFirst`), although the comment in
  `hydrateFromCache` speaks only of the order of the two.
- Arrows in screen names can make two links share one edge of the navigation graph
  (`CountsLinksExactly`, `ArrowsMixLinks`).
- Ids of containers in the value graph can collide when keys hold dots or opening brackets, and then
  a container gets no node (`IdsCollideExactly`, `TwinIsLost`).
- A forgotten app that stays connected does not reappear with its heartbeats, although the comment on
  `forget` says so: they are `ping` messages, and only a `hello` lists an app
  (`BecomesListedExactly`).
- A request by GET that has a body is printed as a command that makes a POST (`MethodIsKeptExactly`).
- Of a full registry, even an app that says hello again can be evicted at once
  (`NewcomerEvictedExactly`, `ForgottenAppIsShutOut`), and so can a message that has just been cached
  (`NewMessageEvictedExactly`, `ReturningHelloIsLost`).
- The cleanup of a replaced connection spares the successor's sender but marks the app as
  disconnected until its next message (`OfflineDespiteSenderExactly`, `NextMessageReconnects`,
  `ReconnectedAppLooksOffline`).

## Model

| member | source | states |
|---|---|---|
| Pointer.UnescapeEscape | packages/protocol/src/diff.ts:79-85 | every key survives escaping, `~` and `/` included |
| PatchLaws.EscapeIsPerChar | packages/protocol/src/diff.ts:79-81 | the two replacements make `~0` of each `~`, `~1` of each `/` and leave every other character |
| Pointer.ParseRender | packages/protocol/src/diff.ts:105-108 | the reader gets back exactly the segments of a rendered path, except that the path of the root's empty key reads as the root |
| Pointer.ToIntegerDecimal | packages/protocol/src/diff.ts:121-128 | the index read from the decimal text of `i` is `i` |
| PatchLaws.IndexSpellings | packages/protocol/src/diff.ts:122-128 | an index may be signed and set in blanks, and no text is index zero |
| Patch.ApplyPatch | packages/protocol/src/diff.ts:93-103 | the operations are applied in order; a diff that is no array changes nothing |
| PatchLaws.ArrayOpExactly | packages/protocol/src/diff.ts:121-136 | on an array an operation changes one item, takes one out and closes the gap, or adds one at the end; with no such index it does nothing |
| PatchLaws.ArrayDescends | packages/protocol/src/diff.ts:137-140 | deeper down nothing but the named item changes |
| PatchLaws.FieldOpExactly | packages/protocol/src/diff.ts:149-159 | elsewhere a refused key does nothing, another sets or removes that one field |
| Diff.DiffValues | packages/protocol/src/diff.ts:18-34 | returns one of the diffs that `IsDiff` allows, whatever order keys are enumerated in, under its base path |
| Diff.DiffObjects | packages/protocol/src/diff.ts:36-61 | the two loops produce removals for lost keys, then additions or nested diffs for the next value's keys, each key once |
| Diff.DiffArrays | packages/protocol/src/diff.ts:63-72 | item by item for equal lengths, one replacement otherwise |
| Landing.LandsExactly | packages/protocol/src/diff.ts:18-160 | whatever value a diff is applied to, the result is the next value if and only if a condition on the three values, given by recursion on them, holds |
| RoundTrip.LandsFromPrevious | packages/protocol/src/diff.ts:18-160 | from the previous value that condition says that each difference can be carried |
| RoundTrip.PrefixIsBetween | packages/protocol/src/diff.ts:93-103 | however many operations of a diff have been applied, the value lies between the two ends |
| RoundTrip.DiffLands | packages/protocol/src/diff.ts:18-160 | a transmissible diff turns every value between its two ends into the next value |
| RoundTrip.DiffMisses | packages/protocol/src/diff.ts:45-58 | if some difference cannot be carried, the result is not the next value |
| DiffPatch.RoundTripExactly | packages/protocol/src/diff.ts:18-160 | through the real path strings, patching the previous value gives the next one if and only if no refused or inherited key and no path over 64 segments is involved |
| DiffPatch.PatchLandsExactly | packages/protocol/src/diff.ts:18-160 | the same through the real path strings from any value whatever, which settles when a diff may be applied to a value that it was not computed from |
| DiffPatch.InheritedKeyStays | packages/protocol/src/diff.ts:45-49 | the removal of a key that every object inherits is not noticed |
| DiffPatch.SafeRedelivery | packages/protocol/src/diff.ts:87-103 | patching the next value again, or any value between the two ends, also gives the next value |
| DiffPatch.PartlyPatchedIsBetween | packages/protocol/src/diff.ts:93-103 | every prefix of a patch leaves the previous value between the two ends |
| DiffPatch.ResumedDelivery | packages/protocol/src/diff.ts:93-103 | so a delivery that broke off anywhere can be started over, and arrives |
| DiffPatch.OrdinaryRoundTrip | packages/protocol/src/diff.ts:18-160 | for JSON values without reserved keys the diff leads from either end to the next value itself |
| EmptyKey.EmptyKeyExactly | packages/protocol/src/diff.ts:105-108 | when the root's empty key is affected, from whatever value the result is the next value if and only if that holds no defined value there and what follows makes it out of nothing |
| EmptyKey.EmptyKeyRemovedExactly | packages/protocol/src/diff.ts:105-108 | when it is removed: a next value with a defined field is reached if and only if the diff lands on it from nothing, one without if and only if some later operation takes effect |
| EmptyKey.RootOpIsThere | packages/protocol/src/diff.ts:45-58 | such a diff has an operation on the path `/` |
| EmptyKey.EmptyKeyNeverArrives | packages/protocol/src/diff.ts:107-107 | a defined value written under the root's empty key never arrives |
| EmptyKey.EmptyKeyNeverLeaves | packages/protocol/src/diff.ts:107-107 | the key is never removed while some defined field stays the same |
| DiffPatch.NothingToSay | packages/protocol/src/diff.ts:19-19 | equal values have the empty diff, so stopping at identical ones changes nothing |
| DiffPatch.UnchangedFieldIsKept | packages/protocol/src/diff.ts:51-58 | on any object, a diff leaves alone each field that was the same at both its ends |
| DiffPatch.UnchangedItemIsKept | packages/protocol/src/diff.ts:63-72 | between arrays of one length, a diff leaves alone each item that was the same at both ends |
| WirePatch.WireCommutes | packages/protocol/src/diff.ts:93-160 | patching decoded values with decoded operations gives what encoding would make of the patched value |
| Replica.ZustandAdapter.WrappedSet | packages/sdk/src/state/zustand.ts:54-71 | remembers the new state and sends the difference to the remembered one, unless it is empty |
| Replica.ZustandAdapter.Create | packages/sdk/src/state/zustand.ts:84-93 | remembers and sends the initial snapshot, whatever was set before |
| Replica.ReduxMiddleware.Dispatched | packages/sdk/src/state/redux.ts:48-82 | the first action yields the snapshot, each later one the difference unless it is empty |
| Replica.SilentOnlyWhenSame | packages/sdk/src/state/zustand.ts:54-71 | an adapter sends nothing about the state it remembers, only nothing about one that looks the same on the wire, and never an empty diff |
| Replica.SerializedIsOrdinary | packages/protocol/src/serialize.ts:10-77 | serialized states without reserved keys and root empty key are among those the replica theorems cover |
| Replica.ReplicaAgrees | apps/desktop/src/state/connection.ts:1110-1132 | in every run over several stores and a lossless channel, actions before the snapshot included, what the desktop shows is the state its adapter had when it sent the last delivered message |
| Replica.ReplicaCatchesUp | apps/desktop/src/state/connection.ts:1110-1132 | with nothing under way the desktop shows every started adapter's current state |
| Replica.HydrationExactly | apps/desktop/src/state/connection.ts:1050-1059 | replaying the snapshot and the last action shows the current state if and only if that action's diff lands on it from the snapshot |
| Replica.HydrationMissesEarlierActions | apps/desktop/src/state/connection.ts:1050-1059 | a field that only earlier actions changed shows the snapshot's value, so the state shown is wrong whenever the two differ on the wire |
| Replica.SecondActionHidesFirst | apps/desktop/src/state/connection.ts:1050-1059 | two actions on two counters are enough |
| Serialize.Serializer.Visit | packages/protocol/src/serialize.ts:14-77 | the recursion over a shared set of seen objects computes the function that the theorems below are about, on every finite heap, cyclic or not |
| Serialize.Serializer.VisitItems | packages/protocol/src/serialize.ts:27-30 | items are walked in order, each seeing what its predecessors saw |
| Serialize.Serializer.VisitFields | packages/protocol/src/serialize.ts:58-76 | fields likewise; an error's own name, message and stack are not overwritten |
| Copied.SerializedIsCopy | packages/protocol/src/serialize.ts:14-117 | on every heap each place of the output holds the copy that belongs there, or a marker with a reason that holds and a true preview: depth twelve, an object met elsewhere, a map, a set, a function, a symbol, a long string; errors keep name, message, stack and own fields |
| Lossless.LeafIsCopiedOrMarked | packages/protocol/src/serialize.ts:79-93 | a leaf is copied as it is, a big integer as its digits, and marked if and only if it is a function, a symbol or a string of more than 20000 characters |
| Serialized.WalkDepth | packages/protocol/src/serialize.ts:14-29 | the copy has at most 13 levels, fewer by the depth at which the walk starts |
| Serialized.SeenGrows | packages/protocol/src/serialize.ts:23-54 | seen objects stay seen |
| Serialized.WalkNodes | packages/protocol/src/serialize.ts:23-76 | each object is expanded at most once: the copy is no larger than the newly seen objects, each counted once |
| Serialized.OutputIsLinear | packages/protocol/src/serialize.ts:10-77 | the size of the output is linear in the objects it was made from |
| Lossless.UnmarkedExactly | packages/protocol/src/serialize.ts:10-77 | on plain data there is no marker in the output if and only if the value is a finite tree without repeated objects, within the caps on depth and strings and without markers of its own; then the output is that tree, leaf for leaf |
| Lossless.TreeIsCopied | packages/protocol/src/serialize.ts:14-77 | such a tree is copied as it is |
| Truncation.SearchIsExact | apps/desktop/src/state/connection.ts:507-515 | the capped search finds a marker if and only if there is one, when none lies more than 12 levels down |
| Truncation.SerializedIsChecked | apps/desktop/src/state/connection.ts:496-515 | every serialized value meets that condition |
| Truncation.EditedIsChecked | apps/desktop/src/state/connection.ts:503-515 | so does one after any single marker-free edit through `applyPatch` |
| Truncation.SearchedExactly | apps/desktop/src/state/connection.ts:507-515 | on any value the capped search finds a marker if and only if one lies within 12 levels of where it starts |
| Truncation.DeepMarkersAreMissed | apps/desktop/src/state/connection.ts:508-508 | arrays around a value keep its markers and, beyond the cap, hide them from the search |
| Truncation.ThirteenArraysHideMarker | apps/desktop/src/state/connection.ts:508-508 | thirteen arrays around a marker are enough |
| Truncation.DiffPathsWithin | packages/protocol/src/diff.ts:18-72 | a diff's paths are no longer than the next value is deep |
| Truncation.SerializedPathsAreShort | packages/protocol/src/diff.ts:108-110 | between serialized values a path has at most 13 segments, below the cap of 64 |
| Truncation.SerializedIsTransmissible | packages/protocol/src/constants.ts:21-33 | so no diff between two of them, free of reserved keys, is dropped |
| JsonGraph.ExpandNode | apps/desktop/src/components/jsonGraph/buildJsonGraph.ts:166-209 | rows, queue entries and edges of one container, tied to the function that the theorems are about |
| JsonGraph.ExpandPushes | apps/desktop/src/components/jsonGraph/buildJsonGraph.ts:195-208 | what is queued is a prefix of what is wanted, and falls short only when the budget is spent, which is noticed |
| JsonGraph.ExpandRows | apps/desktop/src/components/jsonGraph/buildJsonGraph.ts:169-209 | one row per visible entry, of the kind that the entry calls for |
| JsonGraphResult.BuildJsonGraph | apps/desktop/src/components/jsonGraph/buildJsonGraph.ts:125-225 | ends on every heap and states the whole result: shape, the place and rows of every node, and without dots and opening brackets in keys the spanning tree, the number of nodes, the meaning of `truncated` for whatever is opened by depth or by clicks, and that a complete graph tells the value; a primitive gets its one row |
| JsonGraphBudget.Traverse | apps/desktop/src/components/jsonGraph/buildJsonGraph.ts:145-222 | the breadth-first loop, with the facts that the theorems below rest on |
| JsonGraphTree.IdsTellPathsApart | apps/desktop/src/components/jsonGraph/buildJsonGraph.ts:92-99 | without dots and opening brackets in keys, two paths have the same id only if they are the same |
| JsonGraphTree.IdsCollideExactly | apps/desktop/src/components/jsonGraph/buildJsonGraph.ts:92-99 | on all paths: two have the same id if and only if cutting their keys at dots and opening brackets leaves the same pieces |
| JsonGraphTheorems.NodesArePlaces | apps/desktop/src/components/jsonGraph/buildJsonGraph.ts:145-222 | on any heap each node has the id of a path that leads to a container |
| JsonGraphRows.RowsTell | apps/desktop/src/components/jsonGraph/buildJsonGraph.ts:151-222 | on any heap each node shows the container that a path leads to, with its id, depth, caption and first entries, one row each: every row has its entry's path and key and the kind that the entry calls for, and a last row counts what is held back |
| JsonGraphRows.RowIsEdited | apps/desktop/src/views/storage/StorageView.tsx:435-435 | a leaf's row has the path under which the value has that leaf, so an edit of the row puts the new value there and changes nothing on paths that part from it |
| JsonGraphTheorems.TwinIsLost | apps/desktop/src/components/jsonGraph/buildJsonGraph.ts:152-153 | for `{a: {b: {}}, "a.b": {}}` a container gets no node, whatever is opened |
| JsonGraphTheorems.GraphShape | apps/desktop/src/components/jsonGraph/buildJsonGraph.ts:145-224 | on any heap, at most 300 nodes with distinct ids in order of depth; child rows and both ends of edges name nodes |
| JsonGraphTheorems.EdgesSpanNodes | apps/desktop/src/components/jsonGraph/buildJsonGraph.ts:206-208 | with such keys the edges form a spanning tree from `$` |
| JsonGraphTheorems.BudgetExactly | apps/desktop/src/components/jsonGraph/buildJsonGraph.ts:198-204 | the number of nodes is the number needed or 300; with every container below the root opened, by depth or by clicks, `truncated` if and only if more than 300 are needed |
| JsonGraphTheorems.GraphTellsValue | apps/desktop/src/components/jsonGraph/buildJsonGraph.ts:151-222 | with no collapsed and no overflow row, the value can be read back from nodes and rows, cycles marked |
| JsonGraphTheorems.CompleteExactly | apps/desktop/src/components/jsonGraph/buildJsonGraph.ts:198-219 | with every container opened and every overflow on the way expanded, nothing is collapsed or hidden if and only if `truncated` is false |
| JsonGraphBudget.ClicksOpen | apps/desktop/src/components/jsonGraph/buildJsonGraph.ts:162-200 | clicks on every container and overflow row open all, whatever the default depth |
| JsonGraphBudget.DepthOpens | apps/desktop/src/components/jsonGraph/buildJsonGraph.ts:200-200 | so does a default depth that no chain of containers exceeds |
| NavGraph.StateWalk.Visit | apps/desktop/src/state/connection.ts:1436-1456 | the recursive walk over the closed-over variables, malformed states skipped |
| NavGraph.ApplyNavState | apps/desktop/src/state/connection.ts:1431-1461 | the walk's nodes and edges, and the active screen if it was met |
| NavGraph.StateAddsItsTree | apps/desktop/src/state/connection.ts:1423-1456 | a `nav/state` adds exactly the screens of its tree and the links between neighbours in one navigator |
| NavGraph.SessionIsRecorded | apps/desktop/src/state/connection.ts:1463-1503 | after every session each screen's visits and each edge's count are the numbers of applied transitions to and along it, `nav/state` counts for nothing, and the list holds the latest 300 |
| NavGraph.NavigationIsConserved | apps/desktop/src/state/connection.ts:1423-1503 | the visits add up to the applied transitions, the counts to those with a source |
| NavGraph.NavigationOnlyGrows | apps/desktop/src/state/connection.ts:300-300 | no event removes a screen or an edge, lowers a count or changes a first sighting |
| NavGraph.ReplayIsIgnored | apps/desktop/src/state/connection.ts:123-133 | the last keyed transition, replayed after any number of `nav/state` messages, changes nothing |
| NavSession.IgnoredExactly | apps/desktop/src/state/connection.ts:1463-1465 | a transition is ignored if and only if it has a key and repeats that of the transition before it |
| NavSession.ActiveIsLatest | apps/desktop/src/state/connection.ts:1431-1500 | after every session the active screen is the one told last, by a transition or by the active route of a state tree |
| NavSession.ParamsAreLatest | apps/desktop/src/state/connection.ts:1436-1470 | a screen's parameters are those it was given last |
| NavSession.SeenAtItsTimes | apps/desktop/src/state/connection.ts:1423-1480 | a screen is known if and only if some event has mentioned it, and its times are those of the first and the last that did |
| NavSession.LinkTellsLatest | apps/desktop/src/state/connection.ts:1472-1486 | a counted link has the ends, time and action of the latest transition along it |
| NavSession.DrawnLinkIsTimed | apps/desktop/src/state/connection.ts:1446-1451 | a link never taken has the time of a state tree that draws it |
| NavSession.LastIsLatest | apps/desktop/src/state/connection.ts:1490-1502 | the last transition's time and link are those of the latest one applied |
| NavGraph.ClustersCanBeComputed | apps/desktop/src/views/graph/GraphView.tsx:216-219 | after every session both ends of every edge are known screens |
| NavGraph.CountsLinksExactly | apps/desktop/src/state/connection.ts:1463-1503 | in every session an edge's count is the number of times its very link was followed, if and only if neither of its names has an arrow |
| NavGraph.IdIsUniqueExactly | apps/desktop/src/state/connection.ts:1394-1396 | an edge id names one pair if and only if neither of its names has an arrow |
| NavGraph.EdgeIdsTellPairsApart | apps/desktop/src/state/connection.ts:1394-1396 | links whose sources have no arrow share an edge only if they are the same |
| NavGraph.ArrowsMixLinks | apps/desktop/src/state/connection.ts:1463-1503 | a session of two transitions along different links, counted as two along the second |
| Clusters.Adjacency | apps/desktop/src/views/graph/GraphView.tsx:262-267 | each name's neighbours, in both directions |
| Clusters.Visit | apps/desktop/src/views/graph/GraphView.tsx:275-281 | one turn of the inner loop keeps cluster, stack and seen names in step |
| Clusters.ComputeClusters | apps/desktop/src/views/graph/GraphView.tsx:261-287 | ends, and partitions the names into non-empty components |
| Clusters.TogetherExactly | apps/desktop/src/views/graph/GraphView.tsx:269-285 | two names share a cluster if and only if an undirected path of edges joins them |
| Commands.CurrentIsLatest | packages/sdk/src/commands.ts:63-156 | the current handler of a key is the one registered last, unless that very handler has been unregistered since |
| Commands.Dispatcher.RegisterHandler | packages/sdk/src/commands.ts:63-156 | the five registrations |
| Commands.Dispatcher.UnregisterHandler | packages/sdk/src/commands.ts:70-155 | the four unregistrations, by the handler's identity |
| Commands.Dispatcher.OnMessage | packages/sdk/src/commands.ts:207-352 | what is refused at once and why, what is left to a microtask, what is ignored |
| Commands.Dispatcher.Call | packages/sdk/src/commands.ts:227-228 | the captured handler is called, for queries the slot's present one, and an emptied slot throws |
| Commands.Dispatcher.Settle | packages/sdk/src/commands.ts:229-232 | the outcome is reported with the code for its error class |
| Commands.ExactlyOneReply | packages/sdk/src/commands.ts:206-353 | in every interleaving a command has exactly one result, of its type and with its id, once it is refused or its handler has settled, and none before; it says ok if and only if the handler completed normally |
| Commands.OnlyCurrentHandlersAreCalled | packages/sdk/src/commands.ts:211-334 | a command's handler was the current one of the slot it addresses: for queries when it was called, for all others when the command was dispatched |
| CommandRuns.RefusedExactly | packages/sdk/src/commands.ts:207-346 | over every run of registrations and commands: refused if and only if the slot has no current handler or the command is itself at fault, and with which code; otherwise it waits together with the current handler |
| CommandRuns.CalledExactly | packages/sdk/src/commands.ts:206-353 | a command that was not refused is given to the handler that was current when it came, a query's to the one current now; it settles without a call only if the query's slot is empty by then |
| CommandRuns.FailureCodes | packages/sdk/src/commands.ts:227-342 | one reply for the outcome, with the one code for the kind of failure and of command |
| CommandRuns.KeyIsUniqueExactly | packages/sdk/src/commands.ts:46-48 | a handler's key names one engine and database, among all names, if and only if it has no other pair of colons |
| CommandRuns.KeysTellTargets | packages/sdk/src/commands.ts:46-48 | among engines without colons in their names, as the SDK's are, it always does |
| Equality.DecidesEqualityExactly | apps/desktop/src/state/connection.ts:518-531 | `deepEqual` decides equality with a value if and only if no object in it holds undefined |
| Equality.UndefinedIsConfused | apps/desktop/src/state/connection.ts:525-530 | the smallest confusion |
| Equality.JsonHasNoUndefFields | apps/desktop/src/state/connection.ts:517-517 | JSON values are safe to compare |
| Writes.ConnectionStore.Send | apps/desktop/src/state/connection.ts:775-1048 | the pending entry is made first; a truncated or undefined value fails it unsent |
| Writes.ConnectionStore.SendToAppResolved | apps/desktop/src/state/connection.ts:811-817 | the 3 s timeout is armed once the send has resolved |
| Writes.ConnectionStore.SendToAppRejected | apps/desktop/src/state/connection.ts:818-818 | a rejected send fails the entry if it is still pending |
| Writes.ConnectionStore.Fail | apps/desktop/src/state/connection.ts:784-798 | only a pending entry fails |
| Writes.ConnectionStore.FailAllPending | apps/desktop/src/state/connection.ts:487-494 | every pending entry fails, all others stay |
| Writes.ConnectionStore.MarkDisconnected | apps/desktop/src/state/connection.ts:588-612 | the same for a listed app, nothing for an unknown one |
| Writes.ConnectionStore.RemoveApp | apps/desktop/src/state/connection.ts:614-621 | entries go, timers stay |
| Writes.ConnectionStore.Reconcile | apps/desktop/src/state/connection.ts:1153-1162 | a report settles the writes to its target: pending ones for storage, applied ones too for queries (lines 1287-1296) |
| Writes.ConnectionStore.HandleEnvelope | apps/desktop/src/state/connection.ts:670-773 | a message's effect on the entries, and a sweep armed for each entry that has just become applied |
| Writes.ConnectionStore.ArmSweeps | apps/desktop/src/state/connection.ts:533-536 | one sweep per newly applied entry, after 1200 ms or for query writes 6000 ms |
| Writes.ConnectionStore.Fire | apps/desktop/src/state/connection.ts:697-705 | a sweep removes an entry that is still applied, a timeout fails one that is still pending |
| WriteProtocol.NoWriteIsStuck | apps/desktop/src/state/connection.ts:670-819 | in every run, with no send under way and every timer fired nothing is pending or applied, and every timer is due within its delay |
| WriteProtocol.ResultChangesExactly | apps/desktop/src/state/connection.ts:1187-1198 | a resolved entry changes if and only if a result of its own says otherwise or, when it is an applied query write, a report on its query does not match it; what it changes to; timeouts, disconnects, failed sends and storage reports never change it |
| WriteOutcomes.ResultDecides | apps/desktop/src/state/connection.ts:1187-1198 | in every run a result decides the entry that it names, whatever its status was, and no other |
| WriteOutcomes.StorageReportDecides | apps/desktop/src/state/connection.ts:1147-1165 | a storage report makes each pending write to its key applied if it shows what was written and superseded otherwise, and changes nothing else |
| WriteOutcomes.QueryReportDecides | apps/desktop/src/state/connection.ts:1287-1296 | a query report does so with pending and applied writes to its query |
| WriteOutcomes.PendingFailsExactly | apps/desktop/src/state/connection.ts:784-818 | unheard of, a pending write fails if and only if its timeout fires, its send is rejected or its app disconnects |
| WriteOutcomes.ListedExactly | apps/desktop/src/state/connection.ts:697-705 | an entry comes when it is sent, and goes if and only if the window of an applied one ends or the app is removed |
| WriteOutcomes.SentExactly | apps/desktop/src/state/connection.ts:775-819 | a command is sent, and waits, if and only if it has no marker near its value's root and no undefined query data; others fail at once |
| WriteOutcomes.TimersExactly | apps/desktop/src/state/connection.ts:533-536 | which timers every event sets and for when: 1200 ms for what becomes applied, 6000 ms for query writes, 3000 ms for a resolved send |
| WriteOutcomes.UnderWayExactly | apps/desktop/src/state/connection.ts:775-819 | the app is known from its connection until its removal, a send under way from the command until it is resolved or rejected |
| WriteProtocol.TimedOutBecomesApplied | apps/desktop/src/state/connection.ts:1187-1198 | a run in which an entry fails by timeout and then becomes applied |
| WriteProtocol.ResultIsTrue | packages/sdk/src/commands.ts:227-232 | a positive result means that the handler was given the very command of the entry it names and completed normally |
| WriteProtocol.AppliedIsConfirmed | apps/desktop/src/state/connection.ts:1139-1304 | in every run an applied entry's command was completed by the handler, or the app reported the written value for the written target after the write was issued |
| WriteProtocol.ReportCarriesTheValue | apps/desktop/src/state/connection.ts:1155-1158 | such a storage report carries exactly the written value, unless that holds undefined |
| WriteProtocol.QueryReportCarriesTheData | apps/desktop/src/state/connection.ts:1287-1296 | such a query report carries exactly the written data, unless that holds undefined |
| WriteProtocol.NoMarkerIsSent | apps/desktop/src/state/connection.ts:800-807 | no command with a truncation marker within twelve levels of its value's root, and none with undefined query data, leaves the desktop; where markers lie no deeper, as in serialized values, none with any marker does |
| Transport.Transport.Connect | packages/sdk/src/transport/ws.ts:121-144 | waits for the host, for the initial delay, or opens a socket |
| Transport.Transport.OnOpen | packages/sdk/src/transport/ws.ts:222-229 | counters restart and the queue is given to the socket |
| Transport.Transport.FlushQueue | packages/sdk/src/transport/ws.ts:255-261 | everything queued is given in order |
| Transport.Transport.OnClose | packages/sdk/src/transport/ws.ts:237-244 | a lost socket schedules the next attempt unless the transport is closed |
| Transport.Transport.ScheduleReconnect | packages/sdk/src/transport/ws.ts:263-272 | the delay doubles up to the maximum |
| Transport.Transport.Send | packages/sdk/src/transport/ws.ts:160-170 | given at once when open, otherwise queued with the oldest dropped |
| Transport.Transport.Close | packages/sdk/src/transport/ws.ts:172-180 | no socket, no timer |
| Transport.QueueKeepsOrder | packages/sdk/src/transport/ws.ts:160-170 | in every run what was given to sockets and the queue are, in order, the last sends of each offline stretch, as many as the queue holds, and everything sent online: a subsequence of all sends; open means an empty queue |
| Transport.PeriodsHoldAllSends | packages/sdk/src/transport/ws.ts:160-170 | those stretches hold exactly the arguments of all calls of `send` |
| Transport.HandsOverExactly | packages/sdk/src/transport/ws.ts:103-108 | in every run all messages are handed to sockets in order, or still queued, if and only if no offline stretch brings more than the queue holds |
| Transport.OneTokenOrClosed | packages/sdk/src/transport/ws.ts:121-272 | in use there is exactly one of a pending first start, a socket and a timer; after `close()` no socket is ever created |
| Transport.SocketWaitsExactly | packages/sdk/src/transport/ws.ts:121-144 | between `connect()` and `close()` there is a socket, or a timer for one, if and only if the host has settled, where there is one to come, and the initial delay has passed |
| Transport.AttemptsAreCounted | packages/sdk/src/transport/ws.ts:200-226 | the attempt counter is the number of sockets created since the last that opened |
| Transport.DelaysBackOff | packages/sdk/src/transport/ws.ts:263-272 | since the last open the delays start at the base, double, never shrink and stay below the maximum |
| Registry.RegistryInner.EvictOldestAppIfNeeded | apps/desktop/src-tauri/src/registry.rs:94-104 | pops until the cap holds |
| Registry.RegistryInner.EvictOldestCacheEntryIfNeeded | apps/desktop/src-tauri/src/registry.rs:106-115 | likewise for the cache |
| Registry.RegistryInner.Record | apps/desktop/src-tauri/src/registry.rs:182-224 | the app is registered or refreshed, then the envelope cached |
| Registry.RegistryInner.Forget | apps/desktop/src-tauri/src/registry.rs:230-234 | the app and its messages go, the deques stay |
| Registry.RegistryInner.UnregisterSender | apps/desktop/src-tauri/src/registry.rs:143-150 | only the registered sender itself is removed |
| Registry.RegistryInner.MarkDisconnected | apps/desktop/src-tauri/src/registry.rs:236-245 | reports whether the app was connected |
| Registry.AppEviction | apps/desktop/src-tauri/src/registry.rs:94-104 | one app too many costs exactly the first listed app of the deque, and the messages of every id popped on the way |
| Registry.CacheEviction | apps/desktop/src-tauri/src/registry.rs:106-115 | one message too many costs exactly the first cached key of the deque |
| RegistryRuns.AlwaysCapped | apps/desktop/src-tauri/src/registry.rs:19-27 | in every run the deques name every entry and there are at most 64 apps and 2000 messages |
| RegistryContents.CachedExactly | apps/desktop/src-tauri/src/registry.rs:94-115 | in every run a message type is cached if and only if it was recorded and since then neither its app was forgotten or popped by an eviction nor its key evicted |
| RegistryContents.ListedExactly | apps/desktop/src-tauri/src/registry.rs:182-234 | an app is listed if and only if it has said hello and since then was neither forgotten nor hit by an eviction |
| RegistryContents.ReplayedExactly | apps/desktop/src-tauri/src/registry.rs:169-177 | what is replayed for an app are exactly its cached messages, each the last recorded of its type |
| RegistryContents.RecordKeepsTheRest | apps/desktop/src-tauri/src/registry.rs:213-219 | a recorded message is in the cache, in place of the last of its type, and all others stay, unless something has to go |
| RegistryContents.InfoIsLatest | apps/desktop/src-tauri/src/registry.rs:186-211 | what is known of a listed app is what its last hello said and when, and when its last message came |
| RegistryRuns.ReplaysAreLatest | apps/desktop/src-tauri/src/registry.rs:169-177 | replayed envelopes are the app's own, each the last recorded of its type |
| RegistryRuns.ConnectedExactly | apps/desktop/src-tauri/src/registry.rs:190-245 | in every run a listed app is connected if and only if it has not been marked as disconnected since its last message |
| RegistryRuns.FirstInFirstOut | apps/desktop/src-tauri/src/registry.rs:80-84 | without `forget` the apps are exactly the 64 registered last |
| RegistryRuns.NewcomerEvictedExactly | apps/desktop/src-tauri/src/registry.rs:200-205 | at the cap a newcomer is itself evicted if and only if one of its own old ids precedes every listed app in the deque |
| RegistryRuns.BecomesListedExactly | apps/desktop/src-tauri/src/registry.rs:190-230 | an app that is not listed becomes listed by its own `hello` only, and by that if and only if it is not evicted at once |
| RegistryRuns.ForgottenAppCannotReturn | apps/desktop/src-tauri/src/registry.rs:226-234 | from any full registry three events shut the oldest app out |
| RegistryRuns.ForgottenAppIsShutOut | apps/desktop/src-tauri/src/registry.rs:226-234 | such a run from the start: 64 apps, one forgotten, one more, and the first is shut out |
| RegistryRuns.NewMessageEvictedExactly | apps/desktop/src-tauri/src/registry.rs:213-219 | a message under a new key that finds the cache full is itself evicted if and only if an old copy of its key precedes every cached key in the deque |
| RegistryRuns.ReturningHelloIsLost | apps/desktop/src-tauri/src/registry.rs:213-234 | a run from the start in which a forgotten app's hello is lost that way |
| WsServer.SendersAreLive | apps/desktop/src-tauri/src/registry.rs:134-150 | in every interleaving an app has a sender if and only if the connection that registered last for it is bound to it and not cleaned up, and the sender is that one's |
| WsServer.LateCleanupSparesSuccessor | apps/desktop/src-tauri/src/registry.rs:139-150 | a late cleanup leaves every other connection's sender in place |
| WsServer.ShownConnectedExactly | apps/desktop/src-tauri/src/ws_server.rs:149-163 | in every interleaving a listed app is shown as connected if and only if no connection's cleanup and no sweep has marked it since its last message reached the registry |
| WsServer.OfflineDespiteSenderExactly | apps/desktop/src-tauri/src/ws_server.rs:158-163 | an app whose sender is in place is shown as disconnected if and only if the end of another connection, or a sweep, has marked it since its last message |
| WsServer.NextMessageReconnects | apps/desktop/src-tauri/src/registry.rs:207-212 | the next message of a listed app shows it as connected again |
| WsServer.LateCleanupMarksAppOffline | apps/desktop/src-tauri/src/ws_server.rs:158-163 | in particular the cleanup of a replaced connection marks the app as disconnected |
| WsServer.ReconnectedAppLooksOffline | apps/desktop/src-tauri/src/ws_server.rs:111-163 | a run from the start in which an app that has connected again is shown as disconnected when its first connection ends |
| WsServer.OnlyOwnEnvelopes | apps/desktop/src-tauri/src/ws_server.rs:111-156 | a connection records envelopes of the first id it announced only |
| WsServer.CounterIsExact | apps/desktop/src-tauri/src/ws_server.rs:55-80 | the counter is the number of tasks that have not ended, and at most 64 |
| WsServer.AdmittedExactly | apps/desktop/src-tauri/src/ws_server.rs:55-80 | a connection is admitted if and only if fewer than 64 tasks are there |
| WsServer.SharedRegistryIsCapped | apps/desktop/src-tauri/src/ws_server.rs:75-79 | the registry's caps hold under all interleavings |
| WsServer.HandleConnection | apps/desktop/src-tauri/src/ws_server.rs:116-163 | the read loop and the cleanup of one connection |
| WsSession.HandledAsInSystem | apps/desktop/src-tauri/src/ws_server.rs:111-163 | the connection's own events, in a row, leave the registry just as that method does |
| WsSession.EndedConnectionIsGone | apps/desktop/src-tauri/src/ws_server.rs:158-163 | at the end its app is disconnected, if listed, and has this connection's sender no longer; nothing else changes |
| WsServer.ForeignFramesAreDropped | apps/desktop/src-tauri/src/ws_server.rs:143-150 | frames under another id than the first might as well not have been sent |
| Lens.ParsePointer | apps/desktop/src/lib/jsonPointer.ts:10-12 | the reader recovers the path, except the root's empty key |
| Lens.EditIsALens | packages/protocol/src/diff.ts:114-160 | editing an existing leaf obeys the lens laws and leaves disjoint paths as they were |
| Lens.EditLandsExactly | packages/protocol/src/diff.ts:105-149 | an edit of an existing value lands if and only if no key on the way is refused and the path has at most 64 segments and is not the root's empty key; otherwise it changes nothing, except for that key |
| Lens.ConstructorCannotBeEdited | packages/protocol/src/diff.ts:149-149 | what an object holds under `constructor` cannot be edited |
| Lens.EmptyKeyEditReplacesRoot | packages/protocol/src/diff.ts:107-107 | an edit under the root's empty key replaces the whole value |
| Curl.ToCurl | apps/desktop/src/lib/curl.ts:13-40 | a shell that tokenizes the command gets exactly the intended arguments, for all strings |
| Curl.CommandIsRequest | apps/desktop/src/lib/curl.ts:13-40 | read as options, those arguments ask for the request's URL, headers and body, for its method unless that is GET or missing, and for the type of a body that is no text unless the request names one |
| Curl.MethodIsKeptExactly | apps/desktop/src/lib/curl.ts:16-21 | the command uses the captured method if and only if there is no body or the method is not GET |
| Curl.ReadShellQuote | apps/desktop/src/lib/curl.ts:42-45 | a quoted value is read as that value, whatever it contains |

## Left out

- Numbers are known by their identity: NaN, minus zero and the text of numbers are not modelled.
- Array indices are read from signed decimal digits; the other spellings that `Number()` accepts (hexadecimal, exponents, fractions) are not.
- Keys are enumerated in any order, so that results hold for the actual one; own `__proto__` keys and what assigning to one does to a prototype are not modelled.
- Strings are sequences of characters without regard to UTF-16 surrogates.
- Curl.ToCurl: upper and lower case are those of ASCII; a body that JSON cannot encode is not modelled, nor what curl makes of a URL that begins with a dash or of data that begins with `@`, nor the headers it adds itself.
- Serialize.Serializer.Visit: invalid dates, whose conversion throws, getters, proxies, and errors whose name or message is an object are not modelled; the texts of symbols, big integers and dates are given with the heap.
- Lossless.UnmarkedExactly: is about heaps without errors, whose copies add three fields that are not enumerable; dates and big integers stand for their texts.
- Replica.ReplicaAgrees: is about states without reserved keys and without an empty key at the root, for which `RoundTripExactly` and `EmptyKeyExactly` say what happens, and assumes that the channel loses nothing. The transport gives every message to a socket as long as no offline stretch overflows the queue (`HandsOverExactly`), but what a socket still held when it broke may be lost.
- The MobX, Jotai and Recoil adapters; the last two share one store id among their atoms, so that the replica claim would not hold for them.
- `hashValue` and `nextStateHash`, which nothing reads.
- Node summaries and labels from the translation tables; of the overflow row only the number of hidden entries is modelled.
- NavGraph.SessionIsRecorded: a session starts from the empty graph; clearing the graph starts another one. Screen names that objects inherit are not modelled.
- Commands.Dispatcher.Settle: the handler's completion and the reply are one step, and the texts of error messages are left out.
- Writes.ConnectionStore.Send: the six actions are one method, told apart by the command; error texts, `sentAt`, and what messages do to the rest of the app's data are left out.
- WriteProtocol.NoWriteIsStuck: a timer fires at any time from its due moment on; that it does fire is the runtime's promise.
- An app that reconnects under a new id takes the place of the old one; for the old id that is its removal.
- Request ids are fresh by assumption; they are random in the program.
- Transport.OneTokenOrClosed: `connect()` is called once, `close()` is final, a socket closes once and does not open after it was closed; a missing WebSocket implementation is not modelled.
- Envelope encoding and decoding, and a send that throws on an open socket.
- RegistryRuns.FirstInFirstOut: is about apps; the cache is not first-in-first-out even without `forget`, since evicting an app leaves its keys in the deque (`NewMessageEvictedExactly`).
- The registry's mutex is modelled as atomicity of its operations; sweeping stale apps is a sequence of single disconnections.
- Frame types, size limits and the handshake of the WebSocket server, beyond its success or failure.
- The user interface, layout, adb, device memory, network detection, the rate limiter and the per-list caps of logs and performance samples: no invariants of this kind.
- Unseen-alert counters: removing an app can select one whose badge is visible and not zero, so the natural invariant is false.
