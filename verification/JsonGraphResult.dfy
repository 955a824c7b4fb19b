/** `buildJsonGraph` as a whole: one method, and all that its result promises. */
module JsonGraphResult {
  import opened JsonGraph
  import opened JsonGraphBuild
  import opened JsonGraphTree
  import opened JsonGraphBudget
  import opened JsonGraphTheorems
  import opened JsonGraphRows
  import Diff

  /** At most 300 nodes with ids of their own, in order of depth; every child row names a
      node, and so do both ends of every edge. */
  ghost predicate WellShaped(nodes: seq<Node>, edges: seq<Edge>) {
    && 1 <= |nodes| <= 300 && nodes[0].id == "$" && nodes[0].depth == 0
    && Diff.Distinct(NodeIds(nodes))
    && (forall i | 0 <= i < |nodes| - 1 :: nodes[i].depth <= nodes[i + 1].depth)
    && (forall i, row | 0 <= i < |nodes| && row in nodes[i].rows && row.ChildRefRow? ::
          row.childNodeId in NodeIds(nodes))
    && forall i | 0 <= i < |edges| :: edges[i].source in NodeIds(nodes) && edges[i].target in NodeIds(nodes)
  }

  ghost predicate SpanningTree(nodes: seq<Node>, edges: seq<Edge>) {
    |edges| == |nodes| - 1 && forall i | 0 <= i < |edges| :: IsTreeEdge(nodes, edges, i)
  }

  /** How many nodes the value takes when every wanted child gets one. */
  ghost function Needed(heap: Heap, opts: Options, ref: nat): nat
    requires Closed(heap) && ref in heap
  {
    RootIsFresh(heap, ref);
    Need(heap, opts, Root(ref))
  }

  /** The nodes tell the whole value. */
  ghost predicate Tells(heap: Heap, ref: nat, nodes: seq<Node>)
    requires Closed(heap) && ref in heap
  {
    nodes != [] && Rebuild(nodes, 0) == Unfold(heap, ref, [])
  }

  method BuildJsonGraph(heap: Heap, data: Item, opts: Options)
    returns (nodes: seq<Node>, edges: seq<Edge>, isFlat: bool, truncated: bool)
    requires Closed(heap) && (data.Ref? ==> data.id in heap)
    ensures isFlat == (|nodes| <= 1)
    ensures data.Leaf? ==>
              && nodes == [Node("$", LabelFor([], opts.rootLabel), false, 0,
                                [PrimitiveRow(if opts.rootLabel.Some? then opts.rootLabel.value else "value", [], data.value)])]
              && edges == [] && !truncated
    ensures data.Ref? ==> WellShaped(nodes, edges)
    ensures data.Ref? ==> AllTell(heap, opts, data.id, nodes, truncated)
    ensures data.Ref? && CleanHeap(heap) ==>
              && SpanningTree(nodes, edges)
              && |nodes| == (if Needed(heap, opts, data.id) <= 300 then Needed(heap, opts, data.id) else 300)
              && (Opened(heap, opts, Root(data.id), false) ==> (truncated <==> Needed(heap, opts, data.id) > 300))
              && (Complete(nodes) ==> Tells(heap, data.id, nodes))
    ensures data.Ref? && Opened(heap, opts, Root(data.id), true) ==> (Complete(nodes) <==> !truncated)
  {
    hide *;
    if data.Leaf? {
      nodes := [Node("$", LabelFor([], opts.rootLabel), false, 0,
                     [PrimitiveRow(if opts.rootLabel.Some? then opts.rootLabel.value else "value", [], data.value)])];
      edges, isFlat, truncated := [], true, false;
      return;
    }
    ghost var done, used;
    nodes, edges, truncated, done, used := Traverse(heap, data.id, opts);
    isFlat := |nodes| <= 1;
    IsWellShaped(heap, opts, data.id, nodes, edges, truncated, done, used);
    RowsTell(heap, opts, data.id, nodes, edges, truncated, done, used);
    if CleanHeap(heap) {
      IsClean(heap, opts, data.id, nodes, edges, truncated, done, used);
    }
    if Opened(heap, opts, Root(data.id), true) {
      CompleteExactly(heap, opts, data.id, nodes, edges, truncated, done, used);
    }
  }

  lemma {:induction false} IsWellShaped(heap: Heap, opts: Options, ref: nat, nodes: seq<Node>, edges: seq<Edge>,
                                        truncated: bool, done: seq<QueueItem>, used: seq<nat>)
    requires Closed(heap) && ref in heap && Built(heap, opts, ref, nodes, edges, truncated, done, used)
    ensures WellShaped(nodes, edges)
  {
    hide Built, Closed;
    GraphShape(heap, opts, ref, nodes, edges, truncated, done, used);
  }

  lemma {:induction false} IsClean(heap: Heap, opts: Options, ref: nat, nodes: seq<Node>, edges: seq<Edge>,
                                   truncated: bool, done: seq<QueueItem>, used: seq<nat>)
    requires Closed(heap) && ref in heap && CleanHeap(heap)
    requires Built(heap, opts, ref, nodes, edges, truncated, done, used)
    ensures SpanningTree(nodes, edges)
    ensures |nodes| == if Needed(heap, opts, ref) <= 300 then Needed(heap, opts, ref) else 300
    ensures Opened(heap, opts, Root(ref), false) ==> (truncated <==> Needed(heap, opts, ref) > 300)
    ensures Complete(nodes) ==> Tells(heap, ref, nodes)
  {
    hide Built, Closed, CleanHeap, Need, Opened, Complete, Rebuild, Unfold, Fresh, IsTreeEdge;
    EdgesSpanNodes(heap, opts, ref, nodes, edges, truncated, done, used);
    BudgetExactly(heap, opts, ref, nodes, edges, truncated, done, used);
    if Complete(nodes) {
      GraphTellsValue(heap, opts, ref, nodes, edges, truncated, done, used);
    }
  }
}
