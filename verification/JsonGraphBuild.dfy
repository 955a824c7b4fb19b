/** The breadth-first loop of `buildJsonGraph`, and the shape of what it builds. */
module JsonGraphBuild {
  import opened JsonGraph
  import Diff

  function Root(ref: nat): QueueItem {
    QueueItem("$", [], ref, 0, [])
  }

  ghost predicate Sound(heap: Heap, opts: Options, item: QueueItem) {
    item.ref in heap && InHeap(heap, Visible(heap, opts, item))
  }

  ghost predicate AllSound(heap: Heap, opts: Options, items: seq<QueueItem>) {
    forall i | 0 <= i < |items| :: Sound(heap, opts, items[i])
  }

  /** What the container of node `i` pushed. */
  ghost function PushesOf(heap: Heap, opts: Options, done: seq<QueueItem>, used: seq<nat>, i: nat): seq<QueueItem>
    requires |done| == |used| && i < |done| && Sound(heap, opts, done[i])
  {
    Expand(heap, opts, done[i], Visible(heap, opts, done[i]), used[i]).pushes
  }

  // ---- the invariant, in four parts ----

  ghost predicate Adjacent(items: seq<QueueItem>) {
    forall i | 0 <= i < |items| - 1 :: items[i].depth <= items[i + 1].depth
  }

  /** Nodes come from finished items; the rest waits within the budget, by depth. */
  ghost predicate Basic(heap: Heap, opts: Options, root: QueueItem, nodes: seq<Node>,
                        done: seq<QueueItem>, used: seq<nat>, queue: seq<QueueItem>) {
    && NodesOf(heap, opts, nodes, done, used)
    && AllFresh(heap, done) && AllFresh(heap, queue)
    && 0 < |done| + |queue| <= MAX_NODES
    && (done + queue)[0] == root
    && Adjacent(done + queue)
    && (forall i | 0 <= i < |queue| :: queue[i].depth <= queue[0].depth + 1)
  }

  /** Every child row and every edge leads to a node made or an item waiting. */
  ghost predicate Linked(heap: Heap, opts: Options, edges: seq<Edge>, done: seq<QueueItem>, used: seq<nat>,
                         seen: set<string>, queue: seq<QueueItem>)
    requires |done| == |used| && AllSound(heap, opts, done)
  {
    && Diff.Distinct(Ids(done))
    && (forall id :: id in seen <==> id in Ids(done))
    && (forall i, c | 0 <= i < |done| && c in PushesOf(heap, opts, done, used, i) ::
          c.id in seen || c.id in Ids(queue))
    && (forall i | 0 <= i < |edges| ::
          edges[i].source in seen && (edges[i].target in seen || edges[i].target in Ids(queue)))
  }

  // ---- one step of it ----

  lemma {:induction false} ClosedEntries(heap: Heap, opts: Options, item: QueueItem)
    requires Closed(heap) && item.ref in heap
    ensures Sound(heap, opts, item)
  {
    var all := Entries(heap[item.ref]);
    var some := Visible(heap, opts, item);
    forall i | 0 <= i < |some| && some[i].item.Ref? ensures some[i].item.id in heap
    {
      assert some[i] == all[i];
    }
  }

  lemma {:induction false} PushFacts(heap: Heap, opts: Options, item: QueueItem, used: nat)
    requires Fresh(heap, item) && Sound(heap, opts, item)
    ensures var x := Expand(heap, opts, item, Visible(heap, opts, item), used);
            && AllFresh(heap, x.pushes)
            && forall i | 0 <= i < |x.pushes| :: x.pushes[i].depth == item.depth + 1
    ensures used <= MAX_NODES ==>
              used + |Expand(heap, opts, item, Visible(heap, opts, item), used).pushes| <= MAX_NODES
  {
    hide Fresh, IsInline, IsCircular, Visible, Children, Expand;
    var entries := Visible(heap, opts, item);
    ExpandPushes(heap, opts, item, entries, used);
    var pushes := Expand(heap, opts, item, entries, used).pushes;
    forall i | 0 <= i < |pushes| ensures Fresh(heap, pushes[i]) && pushes[i].depth == item.depth + 1
    {
      assert pushes[i] in Children(heap, opts, item, entries);
      var j := ChildrenAre(heap, opts, item, entries, pushes[i]);
      ChildIsFresh(heap, item, entries[j]);
    }
  }

  lemma {:induction false} BasicStep(heap: Heap, opts: Options, root: QueueItem, nodes: seq<Node>,
                                     done: seq<QueueItem>, used: seq<nat>, queue: seq<QueueItem>)
    requires queue != [] && Sound(heap, opts, queue[0])
    requires Basic(heap, opts, root, nodes, done, used, queue)
    ensures var base := |nodes| + |queue|;
            var x := Expand(heap, opts, queue[0], Visible(heap, opts, queue[0]), base);
            Basic(heap, opts, root, nodes + [NodeFor(heap, opts, queue[0], x.rows)],
                  done + [queue[0]], used + [base], queue[1..] + x.pushes)
  {
    hide Expand, Visible, Fresh, NodeFor;
    var item, base := queue[0], |nodes| + |queue|;
    var x := Expand(heap, opts, item, Visible(heap, opts, item), base);
    PushFacts(heap, opts, item, base);
    var a, b := done + queue, (done + [item]) + (queue[1..] + x.pushes);
    assert b == a + x.pushes;
    assert a[|done|] == item;
    NodesPush(heap, opts, nodes, done, used, item, base);
    assert a[|a| - 1] == queue[|queue| - 1];
    AdjacentPush(a, x.pushes, item.depth + 1);
    if |queue| > 1 {
      assert a[|done| + 1] == queue[1];
      assert item.depth <= queue[1].depth;
    }
  }

  lemma {:induction false} AdjacentPush(a: seq<QueueItem>, more: seq<QueueItem>, d: nat)
    requires a != [] && Adjacent(a) && a[|a| - 1].depth <= d
    requires forall i | 0 <= i < |more| :: more[i].depth == d
    ensures Adjacent(a + more)
  {
  }

  lemma {:induction false} NodesPush(heap: Heap, opts: Options, nodes: seq<Node>, done: seq<QueueItem>, used: seq<nat>,
                                     item: QueueItem, base: nat)
    requires NodesOf(heap, opts, nodes, done, used) && Sound(heap, opts, item)
    ensures var x := Expand(heap, opts, item, Visible(heap, opts, item), base);
            NodesOf(heap, opts, nodes + [NodeFor(heap, opts, item, x.rows)], done + [item], used + [base])
  {
    hide Expand, Visible, NodeFor;
  }

  lemma {:induction false} BasicSkip(heap: Heap, opts: Options, root: QueueItem, nodes: seq<Node>,
                                     done: seq<QueueItem>, used: seq<nat>, queue: seq<QueueItem>)
    requires queue != [] && done != [] && Basic(heap, opts, root, nodes, done, used, queue)
    ensures Basic(heap, opts, root, nodes, done, used, queue[1..])
  {
    hide NodesOf, Fresh;
    var a, b := done + queue, done + queue[1..];
    forall i | 0 <= i < |b| - 1 ensures b[i].depth <= b[i + 1].depth
    {
      if i < |done| - 1 {
        assert b[i] == a[i] && b[i + 1] == a[i + 1];
      } else if i == |done| - 1 {
        assert b[i] == a[i] && b[i + 1] == a[i + 2];
        assert a[i].depth <= a[i + 1].depth <= a[i + 2].depth;
      } else {
        assert b[i] == a[i + 1] && b[i + 1] == a[i + 2];
      }
    }
    if |queue| > 1 {
      assert a[|done|] == queue[0] && a[|done| + 1] == queue[1];
    }
  }

  lemma {:induction false} LinkedStep(heap: Heap, opts: Options, edges: seq<Edge>, done: seq<QueueItem>, used: seq<nat>,
                                      seen: set<string>, queue: seq<QueueItem>, base: nat)
    requires queue != [] && |done| == |used| && queue[0].id !in seen
    requires Sound(heap, opts, queue[0]) && AllSound(heap, opts, done)
    requires Linked(heap, opts, edges, done, used, seen, queue)
    ensures var x := Expand(heap, opts, queue[0], Visible(heap, opts, queue[0]), base);
            Linked(heap, opts, edges + EdgesTo(queue[0].id, x.pushes), done + [queue[0]], used + [base],
                   seen + {queue[0].id}, queue[1..] + x.pushes)
  {
    hide Expand, Visible;
    var item := queue[0];
    var x := Expand(heap, opts, item, Visible(heap, opts, item), base);
    var done', used', queue' := done + [item], used + [base], queue[1..] + x.pushes;
    var seen' := seen + {item.id};
    assert Ids(done') == Ids(done) + [item.id];
    assert Ids(done')[..|done|] == Ids(done);
    IdsConcat(queue[1..], x.pushes);
    assert Ids(queue) == [item.id] + Ids(queue[1..]);
    forall i, c | 0 <= i < |done'| && c in PushesOf(heap, opts, done', used', i)
      ensures c.id in seen' || c.id in Ids(queue')
    {
      if i < |done| {
        assert c in PushesOf(heap, opts, done, used, i);
      } else {
        InIds(x.pushes, c);
      }
    }
    var edges' := edges + EdgesTo(item.id, x.pushes);
    forall i | 0 <= i < |edges'|
      ensures edges'[i].source in seen' && (edges'[i].target in seen' || edges'[i].target in Ids(queue'))
    {
      if i >= |edges| {
        var c := x.pushes[i - |edges|];
        assert edges'[i] == Edge(item.id, c.id);
        InIds(x.pushes, c);
      } else {
        assert edges'[i] == edges[i];
      }
    }
  }

  lemma {:induction false} IdsConcat(a: seq<QueueItem>, b: seq<QueueItem>)
    ensures Ids(a + b) == Ids(a) + Ids(b)
  {
  }

  lemma {:induction false} InIds(items: seq<QueueItem>, c: QueueItem)
    requires c in items
    ensures c.id in Ids(items)
  {
    var i :| 0 <= i < |items| && items[i] == c;
    assert Ids(items)[i] == c.id;
  }

  lemma {:induction false} LinkedSkip(heap: Heap, opts: Options, edges: seq<Edge>, done: seq<QueueItem>, used: seq<nat>,
                                      seen: set<string>, queue: seq<QueueItem>)
    requires queue != [] && |done| == |used| && queue[0].id in seen
    requires AllSound(heap, opts, done)
    requires Linked(heap, opts, edges, done, used, seen, queue)
    ensures Linked(heap, opts, edges, done, used, seen, queue[1..])
  {
    hide Expand, Visible, Diff.Distinct;
    assert Ids(queue) == [queue[0].id] + Ids(queue[1..]);
  }
}
