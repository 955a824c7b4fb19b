/** What a reader of the graph may rely on. */
module JsonGraphTheorems {
  import opened Lens
  import opened JsonGraph
  import opened JsonGraphBuild
  import opened JsonGraphTree
  import opened JsonGraphBudget
  import Diff
  import Values

  function NodeIds(nodes: seq<Node>): seq<string> {
    seq(|nodes|, i requires 0 <= i < |nodes| => nodes[i].id)
  }

  lemma {:induction false} NodeIdsAreItemIds(heap: Heap, opts: Options, nodes: seq<Node>, done: seq<QueueItem>,
                                             used: seq<nat>)
    requires NodesOf(heap, opts, nodes, done, used)
    ensures NodeIds(nodes) == Ids(done)
    ensures forall i | 0 <= i < |nodes| :: nodes[i].depth == done[i].depth
  {
    hide Expand, Visible;
  }

  /** A child row stands for a container that was pushed. */
  lemma {:induction false} ChildRowIsPushed(heap: Heap, opts: Options, nodes: seq<Node>, done: seq<QueueItem>,
                                            used: seq<nat>, i: nat, row: Row)
    returns (c: QueueItem)
    requires NodesOf(heap, opts, nodes, done, used) && AllSound(heap, opts, done) && i < |nodes|
    requires row in nodes[i].rows && row.ChildRefRow?
    ensures c in PushesOf(heap, opts, done, used, i) && c.id == row.childNodeId
  {
    hide Expand, Visible, IsGraphChild;
    var entries := Visible(heap, opts, done[i]);
    var x := Expand(heap, opts, done[i], entries, used[i]);
    ExpandRows(heap, opts, done[i], entries, used[i]);
    assert row in x.rows;
    var k :| 0 <= k < |x.rows| && x.rows[k] == row;
    assert Shows(heap, done[i], entries[k], row, x.pushes);
    GraphChildIsRef(heap, done[i], entries[k]);
    c := ChildOf(done[i], entries[k]);
  }

  /** On any heap, cyclic or shared: at most 300 nodes with ids of their own, in order
      of depth; every child row names a node, and so do both ends of every edge. */
  lemma {:induction false} GraphShape(heap: Heap, opts: Options, ref: nat, nodes: seq<Node>, edges: seq<Edge>,
                                      truncated: bool, done: seq<QueueItem>, used: seq<nat>)
    requires Closed(heap) && ref in heap
    requires Built(heap, opts, ref, nodes, edges, truncated, done, used)
    ensures 1 <= |nodes| <= MAX_NODES && nodes[0].id == "$" && nodes[0].depth == 0
    ensures Diff.Distinct(NodeIds(nodes))
    ensures forall i | 0 <= i < |nodes| - 1 :: nodes[i].depth <= nodes[i + 1].depth
    ensures forall i, row | 0 <= i < |nodes| && row in nodes[i].rows && row.ChildRefRow? ::
              row.childNodeId in NodeIds(nodes)
    ensures forall i | 0 <= i < |edges| :: edges[i].source in NodeIds(nodes) && edges[i].target in NodeIds(nodes)
  {
    hide Closed, Fresh, Expand, Visible, PushesOf, NodesOf, CutsNoticed, CleanHeap, Tree, Count, Diff.Distinct;
    assert done + [] == done;
    NodeIdsAreItemIds(heap, opts, nodes, done, used);
    assert |nodes| == |done| by { SameCount(heap, opts, nodes, done, used); }
    assert NodeIds(nodes)[0] == nodes[0].id && Ids(done)[0] == done[0].id;
    forall i, row | 0 <= i < |nodes| && row in nodes[i].rows && row.ChildRefRow?
      ensures row.childNodeId in NodeIds(nodes)
    {
      var c := ChildRowIsPushed(heap, opts, nodes, done, used, i, row);
      assert c.id in Ids(done) || c.id in Ids([]);
    }
    assert Ids([]) == [];
  }

  lemma {:induction false} SameCount(heap: Heap, opts: Options, nodes: seq<Node>, done: seq<QueueItem>, used: seq<nat>)
    requires NodesOf(heap, opts, nodes, done, used)
    ensures |nodes| == |done| == |used|
  {
  }

  /** Edge `i` leads to node `i + 1`, from an earlier node one level up. */
  predicate IsTreeEdge(nodes: seq<Node>, edges: seq<Edge>, i: nat)
    requires i < |edges| == |nodes| - 1
  {
    && edges[i].target == nodes[i + 1].id
    && exists j :: 0 <= j <= i && edges[i].source == nodes[j].id && nodes[i + 1].depth == nodes[j].depth + 1
  }

  lemma {:induction false} EdgeIsTreeEdge(heap: Heap, opts: Options, nodes: seq<Node>, edges: seq<Edge>,
                                          done: seq<QueueItem>, used: seq<nat>, i: nat)
    requires NodesOf(heap, opts, nodes, done, used) && AllSound(heap, opts, done)
    requires i < |edges| == |done| - 1 && GoodEdge(heap, opts, edges, done, used, done, i)
    ensures |nodes| == |done| && IsTreeEdge(nodes, edges, i)
  {
    hide Expand, Visible, PushesOf, NodesOf, Sound;
    SameCount(heap, opts, nodes, done, used);
    NodeIdsAreItemIds(heap, opts, nodes, done, used);
    var j :| 0 <= j < |done| && j <= i && edges[i].source == done[j].id
          && done[i + 1] in PushesOf(heap, opts, done, used, j);
    PushedDepth(heap, opts, done, used, j, done[i + 1]);
    assert NodeIds(nodes)[i + 1] == Ids(done)[i + 1] && NodeIds(nodes)[j] == Ids(done)[j];
    assert edges[i].source == nodes[j].id && nodes[i + 1].depth == nodes[j].depth + 1;
  }

  /** Where keys have no dots or opening brackets, the edges are a spanning tree: each
      node but the root is the target of exactly one edge, which comes from an earlier
      node one level up. */
  lemma {:induction false} EdgesSpanNodes(heap: Heap, opts: Options, ref: nat, nodes: seq<Node>, edges: seq<Edge>,
                                          truncated: bool, done: seq<QueueItem>, used: seq<nat>)
    requires Closed(heap) && ref in heap && CleanHeap(heap)
    requires Built(heap, opts, ref, nodes, edges, truncated, done, used)
    ensures |edges| == |nodes| - 1
    ensures forall i | 0 <= i < |edges| :: IsTreeEdge(nodes, edges, i)
  {
    hide Closed, Fresh, Expand, Visible, PushesOf, NodesOf, CutsNoticed, Count, Diff.Distinct, CleanPath, Linked,
         GoodEdge, IsTreeEdge;
    SameCount(heap, opts, nodes, done, used);
    forall i | 0 <= i < |edges| ensures IsTreeEdge(nodes, edges, i)
    {
      EdgeIsTreeEdge(heap, opts, nodes, edges, done, used, i);
    }
  }

  lemma {:induction false} PushedDepth(heap: Heap, opts: Options, done: seq<QueueItem>, used: seq<nat>, j: nat,
                                       c: QueueItem)
    requires |done| == |used| && AllSound(heap, opts, done) && j < |done|
    requires c in PushesOf(heap, opts, done, used, j)
    ensures c.depth == done[j].depth + 1
  {
    hide Expand, Visible, IsGraphChild;
    var e := PushedFrom(heap, opts, done[j], used[j], c);
    GraphChildIsRef(heap, done[j], e);
  }

  /** On any heap each node is a container that a path of its own leads to. */
  lemma {:induction false} NodesArePlaces(heap: Heap, opts: Options, ref: nat, nodes: seq<Node>, edges: seq<Edge>,
                                          truncated: bool, done: seq<QueueItem>, used: seq<nat>, i: nat)
    returns (path: seq<Segment>, trail: seq<nat>)
    requires Closed(heap) && ref in heap && i < |nodes|
    requires Built(heap, opts, ref, nodes, edges, truncated, done, used)
    ensures IsTrail(heap, ref, path, trail) && |trail| == |path| + 1 && trail[|path|] in heap
    ensures nodes[i].id == PathToId(path)
  {
    hide Closed, Expand, Visible, NodesOf, CutsNoticed, CleanHeap, Tree, Count, Linked, Spread, IsTrail, PathToId;
    SameCount(heap, opts, nodes, done, used);
    NodeIdsAreItemIds(heap, opts, nodes, done, used);
    assert NodeIds(nodes)[i] == Ids(done)[i];
    path, trail := done[i].path, TrailOf(done[i]);
    FreshId(heap, done[i]);
    TrailEnds(heap, ref, done[i]);
  }

  /** An object with the keys "a" and "a.b", the first leading to one with the key "b". */
  const TWINS: Heap := map[
    0 := ObjectOf([("a", Ref(1)), ("a.b", Ref(2))]),
    1 := ObjectOf([("b", Ref(3))]),
    2 := ObjectOf([]),
    3 := ObjectOf([])]

  function TwinId(ref: nat): string {
    if ref == 0 then "$" else if ref == 1 then "$.a" else "$.a.b"
  }

  lemma {:induction false} TwinStep(via: nat, seg: Segment, to: nat)
    requires Holds(TWINS, via, seg, to)
    ensures TwinId(via) + SegmentId(seg) == TwinId(to)
  {
    assert (via == 0 && seg == Key("a") && to == 1) || (via == 0 && seg == Key("a.b") && to == 2)
        || (via == 1 && seg == Key("b") && to == 3);
    assert "$" + ".a" == "$.a" && "$" + ".a.b" == "$.a.b" && "$.a" + ".b" == "$.a.b";
  }

  lemma {:induction false} OneSegmentMore(path: seq<Segment>, seg: Segment)
    ensures PathToId(path + [seg]) == PathToId(path) + SegmentId(seg)
  {
    assert (path + [seg])[..|path|] == path;
  }

  lemma {:induction false} TwinIds(path: seq<Segment>, trail: seq<nat>)
    requires IsTrail(TWINS, 0, path, trail)
    ensures PathToId(path) == TwinId(trail[|path|])
    decreases |path|
  {
    hide Holds, TWINS, TwinId, SegmentId;
    if path == [] {
      RootTwinId();
    } else {
      hide PathToId;
      var last := |path| - 1;
      TwinIds(path[..last], trail[..last + 1]);
      TwinStep(trail[last], path[last], trail[last + 1]);
      OneSegmentMore(path[..last], path[last]);
      assert path == path[..last] + [path[last]];
    }
  }

  lemma {:induction false} RootTwinId()
    ensures TwinId(0) == "$"
  {
  }

  lemma {:induction false} EachTwinIsLedTo(to: nat)
    requires to in TWINS
    ensures Reachable(TWINS, 0, to)
  {
    var a, ab, b := Key("a"), Key("a.b"), Key("b");
    assert IsTrail(TWINS, 0, [], [0]);
    assert TWINS[0].fields[0] == ("a", Ref(1)) && TWINS[0].fields[1] == ("a.b", Ref(2));
    assert TWINS[1].fields[0] == ("b", Ref(3));
    TrailGoesOn(TWINS, 0, [], [0], a, 1);
    TrailGoesOn(TWINS, 0, [], [0], ab, 2);
    TrailGoesOn(TWINS, 0, [] + [a], [0] + [1], b, 3);
    hide IsTrail;
    assert ([0] + [1])[1] == 1 && ([0] + [2])[1] == 2 && ([0] + [1] + [3])[2] == 3;
  }

  lemma {:induction false} OnlyThreeTwinIds(ref: nat)
    ensures TwinId(ref) in [TwinId(0), TwinId(1), TwinId(2)]
  {
  }

  lemma {:induction false} TwinSize()
    ensures |TWINS| == 4 && 0 in TWINS
  {
    assert TWINS.Keys == {0, 1, 2, 3};
    assert |TWINS| == |TWINS.Keys|;
  }

  lemma {:induction false} FewIds(ids: seq<string>, some: seq<string>)
    requires Diff.Distinct(ids) && forall x | x in ids :: x in some
    ensures |ids| <= |some|
    decreases |ids|
  {
    if ids != [] {
      var last := |ids| - 1;
      assert ids[last] in ids;
      var k :| 0 <= k < |some| && some[k] == ids[last];
      var rest := some[..k] + some[k + 1..];
      forall x | x in ids[..last] ensures x in rest
      {
        assert x in ids;
        var j :| 0 <= j < |some| && some[j] == x;
        assert j != k;
        assert rest[if j < k then j else j - 1] == x;
      }
      FewIds(ids[..last], rest);
    }
  }

  /** However much is opened, one of these four containers has no node: the paths to the
      last two have the same id. */
  lemma {:induction false} TwinIsLost(opts: Options, nodes: seq<Node>, edges: seq<Edge>, truncated: bool,
                                      done: seq<QueueItem>, used: seq<nat>)
    requires Closed(TWINS) && Built(TWINS, opts, 0, nodes, edges, truncated, done, used)
    ensures |nodes| < |TWINS|
    ensures forall to | to in TWINS :: Reachable(TWINS, 0, to)
  {
    hide Built, IsTrail, Reachable, Closed, PathToId, TWINS, TwinId, Diff.Distinct;
    TwinSize();
    GraphShape(TWINS, opts, 0, nodes, edges, truncated, done, used);
    var all := [TwinId(0), TwinId(1), TwinId(2)];
    forall x | x in NodeIds(nodes) ensures x in all
    {
      var i :| 0 <= i < |nodes| && NodeIds(nodes)[i] == x;
      var path, trail := NodesArePlaces(TWINS, opts, 0, nodes, edges, truncated, done, used, i);
      TwinIds(path, trail);
      OnlyThreeTwinIds(trail[|path|]);
    }
    FewIds(NodeIds(nodes), all);
    forall to | to in TWINS ensures Reachable(TWINS, 0, to)
    {
      EachTwinIsLedTo(to);
    }
  }

  /** How many nodes there are, and when the graph admits to being incomplete. With
      every container opened, by depth or by clicks, the flag is up exactly when the
      value needs more than the budget. */
  lemma {:induction false} BudgetExactly(heap: Heap, opts: Options, ref: nat, nodes: seq<Node>, edges: seq<Edge>,
                                         truncated: bool, done: seq<QueueItem>, used: seq<nat>)
    requires Closed(heap) && ref in heap && CleanHeap(heap)
    requires Built(heap, opts, ref, nodes, edges, truncated, done, used)
    ensures Fresh(heap, Root(ref))
    ensures var need := Need(heap, opts, Root(ref));
            && |nodes| == (if need <= MAX_NODES then need else MAX_NODES)
            && (need > MAX_NODES ==> truncated)
            && (truncated ==> need >= MAX_NODES)
            && (Opened(heap, opts, Root(ref), false) ==> (truncated <==> need > MAX_NODES))
  {
    hide Closed, Fresh, NodesOf, CutsNoticed, Linked, Tree, Adjacent, Need, Opened, Spread;
    RootIsFresh(heap, ref);
    SameCount(heap, opts, nodes, done, used);
  }

  // ---- reading the value back ----

  /** A value with the places marked where it leads back into itself. */
  datatype Doc = LeafDoc(value: Values.Value) | ArrayDoc(items: seq<Doc>) | ObjectDoc(fields: seq<(string, Doc)>) | Cycle

  /** The value itself. */
  ghost function Unfold(heap: Heap, ref: nat, ancestors: seq<nat>): Doc
    requires Closed(heap) && ref in heap && ref !in ancestors
    decreases |heap.Keys - Elems(ancestors)|, 1
  {
    var entries := Entries(heap[ref]);
    if heap[ref].ArrayOf? then
      ArrayDoc(seq(|entries|, i requires 0 <= i < |entries| => EntryDoc(heap, ref, ancestors, i)))
    else
      ObjectDoc(seq(|entries|, i requires 0 <= i < |entries| => (entries[i].key, EntryDoc(heap, ref, ancestors, i))))
  }

  ghost function EntryDoc(heap: Heap, ref: nat, ancestors: seq<nat>, i: nat): Doc
    requires Closed(heap) && ref in heap && ref !in ancestors && i < |Entries(heap[ref])|
    decreases |heap.Keys - Elems(ancestors)|, 0
  {
    var item := Entries(heap[ref])[i].item;
    if item.Leaf? then LeafDoc(item.value)
    else if item.id in ancestors + [ref] then Cycle
    else
      LessLeft(heap, ref, ancestors);
      Unfold(heap, item.id, ancestors + [ref])
  }

  lemma {:induction false} LessLeft(heap: Heap, ref: nat, ancestors: seq<nat>)
    requires ref in heap && ref !in ancestors
    ensures |heap.Keys - Elems(ancestors + [ref])| < |heap.Keys - Elems(ancestors)|
  {
    var a, b := heap.Keys - Elems(ancestors), heap.Keys - Elems(ancestors + [ref]);
    assert ref in a && ref !in b && b <= a - {ref};
    SubsetSize(b, a - {ref});
  }

  function IndexOf(nodes: seq<Node>, id: string): nat {
    if nodes == [] || nodes[0].id == id then 0 else 1 + IndexOf(nodes[1..], id)
  }

  /** The value as the nodes and rows tell it, from node `i` on. */
  function Rebuild(nodes: seq<Node>, i: nat): Doc
    requires i < |nodes|
    decreases |nodes| - i, 1
  {
    var rows := nodes[i].rows;
    if nodes[i].isArray then
      ArrayDoc(seq(|rows|, k requires 0 <= k < |rows| => RowDoc(nodes, i, k)))
    else
      ObjectDoc(seq(|rows|, k requires 0 <= k < |rows| => (RowKey(rows[k]), RowDoc(nodes, i, k))))
  }

  function RowKey(row: Row): string {
    if row.OverflowRow? then "__overflow__" else row.key
  }

  function RowDoc(nodes: seq<Node>, i: nat, k: nat): Doc
    requires i < |nodes| && k < |nodes[i].rows|
    decreases |nodes| - i, 0
  {
    match nodes[i].rows[k]
    case PrimitiveRow(_, _, value) => LeafDoc(value)
    case InlineArrayRow(_, _, items) => ArrayDoc(seq(|items|, j requires 0 <= j < |items| => LeafOf(items[j])))
    case ChildRefRow(_, _, id) =>
      var j := IndexOf(nodes, id);
      if i < j < |nodes| then Rebuild(nodes, j) else Cycle
    case CircularRow(_, _) => Cycle
    case _ => Cycle
  }

  function LeafOf(item: Item): Doc {
    if item.Leaf? then LeafDoc(item.value) else Cycle
  }

  /** No row stands for something that is not shown. */
  predicate Complete(nodes: seq<Node>) {
    forall i | 0 <= i < |nodes| :: forall k | 0 <= k < |nodes[i].rows| ::
      !nodes[i].rows[k].CollapsedRow? && !nodes[i].rows[k].OverflowRow?
  }

  lemma {:induction false} IndexOfDistinct(nodes: seq<Node>, j: nat)
    requires j < |nodes| && Diff.Distinct(NodeIds(nodes))
    ensures IndexOf(nodes, nodes[j].id) == j
  {
    IndexOfFirst(nodes, j, nodes[j].id);
    var k := IndexOf(nodes, nodes[j].id);
    assert NodeIds(nodes)[k] == nodes[k].id && NodeIds(nodes)[j] == nodes[j].id;
    if k < j {
      DistinctIndices(NodeIds(nodes), k, j);
    }
  }

  lemma {:induction false} IndexOfFirst(nodes: seq<Node>, j: nat, id: string)
    requires j < |nodes| && nodes[j].id == id
    ensures IndexOf(nodes, id) <= j && nodes[IndexOf(nodes, id)].id == id
    decreases j
  {
    if nodes[0].id != id {
      IndexOfFirst(nodes[1..], j - 1, id);
    }
  }

  /** One row and the entry it shows tell the same. */
  lemma {:induction false} RowTellsEntry(heap: Heap, opts: Options, nodes: seq<Node>, done: seq<QueueItem>,
                                         used: seq<nat>, i: nat, k: nat)
    requires Closed(heap) && NodesOf(heap, opts, nodes, done, used) && AllSound(heap, opts, done)
    requires AllFresh(heap, done) && Diff.Distinct(NodeIds(nodes)) && Complete(nodes)
    requires forall j, c | 0 <= j < |done| && c in PushesOf(heap, opts, done, used, j) :: After(done, j, c)
    requires i < |nodes| && k < |nodes[i].rows| && |nodes[i].rows| == |Entries(heap[done[i].ref])|
    requires done[i].ref !in done[i].ancestors
    ensures RowKey(nodes[i].rows[k]) == Entries(heap[done[i].ref])[k].key
    ensures RowDoc(nodes, i, k) == EntryDoc(heap, done[i].ref, done[i].ancestors, k)
    decreases |nodes| - i, 0
  {
    hide Expand, Rebuild, Unfold, PushesOf, NodesOf, Diff.Distinct, Sound, Closed, IndexOf, After;
    SameCount(heap, opts, nodes, done, used);
    var item, row := done[i], nodes[i].rows[k];
    var e := Entries(heap[item.ref])[k];
    RowShows(heap, opts, nodes, done, used, i, k);
    var pushes := PushesOf(heap, opts, done, used, i);
    match row
    case PrimitiveRow(_, _, _) =>
    case CircularRow(_, _) =>
    case InlineArrayRow(_, _, items) => InlineTells(heap, item, e, items);
    case ChildRefRow(_, _, id) =>
      var c := ChildOf(item, e);
      GraphChildIsRef(heap, item, e);
      assert c in pushes;
      var j := PlaceOf(done, i, c);
      NodeIdsAreItemIds(heap, opts, nodes, done, used);
      assert NodeIds(nodes)[j] == Ids(done)[j];
      IndexOfDistinct(nodes, j);
      RebuildIs(heap, opts, nodes, done, used, j);
    case CollapsedRow(_, _, _, _) => assert false;
    case OverflowRow(_, _, _) => assert false;
  }

  lemma {:induction false} PlaceOf(done: seq<QueueItem>, i: nat, c: QueueItem) returns (j: nat)
    requires After(done, i, c)
    ensures i < j < |done| && done[j] == c
  {
    j :| i < j < |done| && done[j] == c;
  }

  lemma {:induction false} RowsBehind(shown: seq<Row>, more: seq<Row>)
    ensures more != [] ==> |shown + more| > 0 && (shown + more)[|shown + more| - 1] == more[|more| - 1]
  {
  }

  lemma {:induction false} OnlyShownRows(heap: Heap, opts: Options, item: QueueItem, shown: seq<Row>, rows: seq<Row>)
    requires item.ref in heap && rows == shown + OverflowRows(heap, opts, item)
    requires forall k | 0 <= k < |rows| :: !rows[k].OverflowRow?
    ensures rows == shown && |Visible(heap, opts, item)| == |Entries(heap[item.ref])|
  {
    hide Entries;
    RowsBehind(shown, OverflowRows(heap, opts, item));
  }

  lemma {:induction false} RowShows(heap: Heap, opts: Options, nodes: seq<Node>, done: seq<QueueItem>,
                                    used: seq<nat>, i: nat, k: nat)
    requires NodesOf(heap, opts, nodes, done, used) && AllSound(heap, opts, done) && Complete(nodes)
    requires i < |nodes| && k < |nodes[i].rows| && |nodes[i].rows| == |Entries(heap[done[i].ref])|
    ensures Shows(heap, done[i], Entries(heap[done[i].ref])[k], nodes[i].rows[k], PushesOf(heap, opts, done, used, i))
    ensures !nodes[i].rows[k].CollapsedRow? && !nodes[i].rows[k].OverflowRow?
  {
    hide Expand, Entries, Shows;
    var entries := Visible(heap, opts, done[i]);
    var x := Expand(heap, opts, done[i], entries, used[i]);
    ExpandRows(heap, opts, done[i], entries, used[i]);
    OnlyShownRows(heap, opts, done[i], x.rows, nodes[i].rows);
  }

  lemma {:induction false} InlineTells(heap: Heap, item: QueueItem, e: Entry, items: seq<Item>)
    requires Closed(heap) && item.ref in heap && e.item.Ref? && e.item.id in heap && !IsCircular(item, e)
    requires IsInline(heap[e.item.id]) && heap[e.item.id] == ArrayOf(items)
    ensures ArrayDoc(seq(|items|, j requires 0 <= j < |items| => LeafOf(items[j])))
         == Unfold(heap, e.item.id, item.ancestors + [item.ref])
  {
    var ancestors := item.ancestors + [item.ref];
    var entries := Entries(heap[e.item.id]);
    var a := seq(|items|, j requires 0 <= j < |items| => LeafOf(items[j]));
    var b := Unfold(heap, e.item.id, ancestors).items;
    forall j | 0 <= j < |items| ensures a[j] == b[j]
    {
      assert entries[j].item == items[j];
      assert b[j] == EntryDoc(heap, e.item.id, ancestors, j);
    }
    assert a == b;
  }

  lemma {:induction false} RebuildIs(heap: Heap, opts: Options, nodes: seq<Node>, done: seq<QueueItem>,
                                     used: seq<nat>, i: nat)
    requires Closed(heap) && NodesOf(heap, opts, nodes, done, used) && AllSound(heap, opts, done)
    requires AllFresh(heap, done) && Diff.Distinct(NodeIds(nodes)) && Complete(nodes)
    requires forall j, c | 0 <= j < |done| && c in PushesOf(heap, opts, done, used, j) :: After(done, j, c)
    requires i < |nodes|
    ensures done[i].ref in heap && done[i].ref !in done[i].ancestors
    ensures Rebuild(nodes, i) == Unfold(heap, done[i].ref, done[i].ancestors)
    decreases |nodes| - i, 1
  {
    hide Expand, PushesOf, Diff.Distinct, Closed, RowDoc, EntryDoc, After, Complete, Entries, NodesOf;
    SameCount(heap, opts, nodes, done, used);
    FreshRef(heap, done[i]);
    AllRows(heap, opts, nodes, done, used, i);
    var rows, entries := nodes[i].rows, Entries(heap[done[i].ref]);
    forall k | 0 <= k < |rows|
      ensures RowKey(rows[k]) == entries[k].key
      ensures RowDoc(nodes, i, k) == EntryDoc(heap, done[i].ref, done[i].ancestors, k)
    {
      RowTellsEntry(heap, opts, nodes, done, used, i, k);
    }
    SameDoc(heap, nodes, i, done[i].ref, done[i].ancestors);
  }

  lemma {:induction false} SameDoc(heap: Heap, nodes: seq<Node>, i: nat, ref: nat, ancestors: seq<nat>)
    requires Closed(heap) && ref in heap && ref !in ancestors && i < |nodes|
    requires nodes[i].isArray == heap[ref].ArrayOf? && |nodes[i].rows| == |Entries(heap[ref])|
    requires forall k | 0 <= k < |nodes[i].rows| ::
               RowKey(nodes[i].rows[k]) == Entries(heap[ref])[k].key && RowDoc(nodes, i, k) == EntryDoc(heap, ref, ancestors, k)
    ensures Rebuild(nodes, i) == Unfold(heap, ref, ancestors)
  {
    hide RowDoc, EntryDoc, RowKey, Entries, Closed;
    var a, b := Rebuild(nodes, i), Unfold(heap, ref, ancestors);
    if nodes[i].isArray {
      assert |a.items| == |b.items|;
      forall k | 0 <= k < |a.items| ensures a.items[k] == b.items[k]
      {
        assert a.items[k] == RowDoc(nodes, i, k) && b.items[k] == EntryDoc(heap, ref, ancestors, k);
      }
      assert a.items == b.items;
    } else {
      assert |a.fields| == |b.fields|;
      forall k | 0 <= k < |a.fields| ensures a.fields[k] == b.fields[k]
      {
        assert a.fields[k] == (RowKey(nodes[i].rows[k]), RowDoc(nodes, i, k));
        assert b.fields[k] == (Entries(heap[ref])[k].key, EntryDoc(heap, ref, ancestors, k));
      }
      assert a.fields == b.fields;
    }
  }

  lemma {:induction false} FreshRef(heap: Heap, item: QueueItem)
    requires Fresh(heap, item)
    ensures item.ref in heap && item.ref !in item.ancestors
  {
  }

  lemma {:induction false} AllRows(heap: Heap, opts: Options, nodes: seq<Node>, done: seq<QueueItem>,
                                   used: seq<nat>, i: nat)
    requires NodesOf(heap, opts, nodes, done, used) && AllSound(heap, opts, done) && Complete(nodes)
    requires i < |nodes|
    ensures |nodes[i].rows| == |Entries(heap[done[i].ref])|
    ensures nodes[i].isArray == heap[done[i].ref].ArrayOf?
  {
    hide Expand, Entries;
    var entries := Visible(heap, opts, done[i]);
    var x := Expand(heap, opts, done[i], entries, used[i]);
    ExpandRows(heap, opts, done[i], entries, used[i]);
    OnlyShownRows(heap, opts, done[i], x.rows, nodes[i].rows);
  }

  /** Nothing is lost: when no row is collapsed and none stands for an overflow, the
      value can be read back from the graph. */
  lemma {:induction false} GraphTellsValue(heap: Heap, opts: Options, ref: nat, nodes: seq<Node>, edges: seq<Edge>,
                                           truncated: bool, done: seq<QueueItem>, used: seq<nat>)
    requires Closed(heap) && ref in heap && CleanHeap(heap)
    requires Built(heap, opts, ref, nodes, edges, truncated, done, used) && Complete(nodes)
    ensures |nodes| > 0 && Rebuild(nodes, 0) == Unfold(heap, ref, [])
  {
    hide Closed, Fresh, Expand, Visible, PushesOf, NodesOf, CutsNoticed, Count, Diff.Distinct, CleanPath, Linked,
         GoodEdge, Complete, Rebuild, Unfold, After;
    SameCount(heap, opts, nodes, done, used);
    NodeIdsAreItemIds(heap, opts, nodes, done, used);
    assert done + [] == done;
    RebuildIs(heap, opts, nodes, done, used, 0);
  }

  /** With every container opened and every overflow expanded, the graph is complete
      exactly when the flag is down. */
  lemma {:induction false} CompleteExactly(heap: Heap, opts: Options, ref: nat, nodes: seq<Node>, edges: seq<Edge>,
                                           truncated: bool, done: seq<QueueItem>, used: seq<nat>)
    requires Closed(heap) && ref in heap
    requires Built(heap, opts, ref, nodes, edges, truncated, done, used) && Opened(heap, opts, Root(ref), true)
    ensures Complete(nodes) <==> !truncated
  {
    hide Closed, Fresh, Expand, Visible, Count, Linked, Tree, Opened, Entries, OverflowRows, AllExpandable;
    SameCount(heap, opts, nodes, done, used);
    forall i | 0 <= i < |nodes|
      ensures (exists k :: 0 <= k < |nodes[i].rows| && (nodes[i].rows[k].CollapsedRow? || nodes[i].rows[k].OverflowRow?))
              <==> Expand(heap, opts, done[i], Visible(heap, opts, done[i]), used[i]).cut
    {
      OpenedIsExpandable(heap, opts, done[i], true);
      CutShows(heap, opts, done[i], Visible(heap, opts, done[i]), used[i]);
      NoOverflow(heap, opts, done[i]);
      var x := Expand(heap, opts, done[i], Visible(heap, opts, done[i]), used[i]);
      assert nodes[i].rows == x.rows + [];
      assert nodes[i].rows == x.rows;
    }
  }

  lemma {:induction false} NoOverflow(heap: Heap, opts: Options, item: QueueItem)
    requires item.ref in heap && |Visible(heap, opts, item)| == |Entries(heap[item.ref])|
    ensures OverflowRows(heap, opts, item) == []
  {
    hide Visible, Entries;
  }

  lemma {:induction false} CutShows(heap: Heap, opts: Options, item: QueueItem, entries: seq<Entry>, used: nat)
    requires InHeap(heap, entries) && AllExpandable(heap, opts, item, entries)
    ensures var x := Expand(heap, opts, item, entries, used);
            && (forall k | 0 <= k < |x.rows| :: !x.rows[k].OverflowRow?)
            && (x.cut <==> exists k :: 0 <= k < |x.rows| && x.rows[k].CollapsedRow?)
  {
    hide Entries, ChildOf, IsInline, IsCircular, Expandable;
    if entries != [] {
      var last := |entries| - 1;
      CutShows(heap, opts, item, entries[..last], used);
      var before := Expand(heap, opts, item, entries[..last], used);
      var step := ExpandEntry(heap, opts, item, entries[last], used + |before.pushes|);
      assert step.cut <==> step.rows[0].CollapsedRow?;
      var x := Expand(heap, opts, item, entries, used);
      assert x.rows == before.rows + step.rows;
      if before.cut {
        var k :| 0 <= k < |before.rows| && before.rows[k].CollapsedRow?;
        assert x.rows[k].CollapsedRow?;
      }
      if step.cut {
        assert x.rows[|before.rows|].CollapsedRow?;
      }
    }
  }
}
