/** The node budget and the breadth-first loop. */
module JsonGraphBudget {
  import opened JsonGraph
  import opened JsonGraphBuild
  import opened JsonGraphTree
  import Diff

  // ---- what is opened ----

  /** Every container that the item leads to is opened, by depth or by a click; if `whole`,
      no rows of it are held back either. */
  ghost predicate Opened(heap: Heap, opts: Options, item: QueueItem, whole: bool)
    decreases Left(heap, item)
  {
    && Fresh(heap, item)
    && AllExpandable(heap, opts, item, Visible(heap, opts, item))
    && (whole ==> |Visible(heap, opts, item)| == |Entries(heap[item.ref])|)
    && forall c | c in Children(heap, opts, item, Visible(heap, opts, item)) ::
         (ChildFacts(heap, opts, item, c); Opened(heap, opts, c, whole))
  }

  /** Where the start is opened, so is everything that the loop comes to. */
  ghost predicate Spread(heap: Heap, opts: Options, root: QueueItem, items: seq<QueueItem>) {
    forall whole, i | Opened(heap, opts, root, whole) && 0 <= i < |items| :: Opened(heap, opts, items[i], whole)
  }

  lemma {:induction false} SpreadStep(heap: Heap, opts: Options, root: QueueItem, items: seq<QueueItem>, item: QueueItem,
                                      pushes: seq<QueueItem>)
    requires Spread(heap, opts, root, items) && item in items && item.ref in heap
    requires var cs := Children(heap, opts, item, Visible(heap, opts, item));
             |pushes| <= |cs| && pushes == cs[..|pushes|]
    ensures Spread(heap, opts, root, items + pushes)
  {
    hide Fresh, Children, Visible, AllExpandable;
    var cs := Children(heap, opts, item, Visible(heap, opts, item));
    forall whole, i | Opened(heap, opts, root, whole) && 0 <= i < |items + pushes|
      ensures Opened(heap, opts, (items + pushes)[i], whole)
    {
      if i >= |items| {
        assert Opened(heap, opts, item, whole);
        assert cs[i - |items|] in cs;
      }
    }
  }

  lemma {:induction false} SpreadSkip(heap: Heap, opts: Options, root: QueueItem, done: seq<QueueItem>,
                                      queue: seq<QueueItem>)
    requires queue != [] && Spread(heap, opts, root, done + queue)
    ensures Spread(heap, opts, root, done + queue[1..])
  {
    hide Opened;
    var all, less := done + queue, done + queue[1..];
    forall whole, i | Opened(heap, opts, root, whole) && 0 <= i < |less| ensures Opened(heap, opts, less[i], whole)
    {
      assert less[i] == all[if i < |done| then i else i + 1];
    }
  }

  lemma {:induction false} OpenedIsExpandable(heap: Heap, opts: Options, item: QueueItem, whole: bool)
    requires Opened(heap, opts, item, whole)
    ensures item.ref in heap && AllExpandable(heap, opts, item, Visible(heap, opts, item))
    ensures whole ==> |Visible(heap, opts, item)| == |Entries(heap[item.ref])|
  {
  }

  /** Whoever has opened all there is to open, by depth or by clicks, has it opened. */
  lemma {:induction false} ClicksOpen(heap: Heap, opts: Options, item: QueueItem, whole: bool)
    requires Closed(heap) && Fresh(heap, item)
    requires forall c | Fresh(heap, c) && c.depth > 0 :: Expandable(opts, c)
    requires whole ==> forall c | Fresh(heap, c) ::
               |Entries(heap[c.ref])| <= MaxOpen(heap[c.ref]) || c.id in opts.expandedOverflow
    ensures Opened(heap, opts, item, whole)
    decreases Left(heap, item)
  {
    hide Closed, Fresh, Children, AllExpandable, Entries, Expandable;
    assert item.ref in heap by { FreshInHeap(heap, item); }
    FreshIsExpandable(heap, opts, item, Visible(heap, opts, item));
    forall c | c in Children(heap, opts, item, Visible(heap, opts, item))
      ensures Fresh(heap, c) && Left(heap, c) < Left(heap, item) && Opened(heap, opts, c, whole)
    {
      ChildFacts(heap, opts, item, c);
      ClicksOpen(heap, opts, c, whole);
    }
  }

  lemma {:induction false} FreshIsExpandable(heap: Heap, opts: Options, item: QueueItem, entries: seq<Entry>)
    requires Fresh(heap, item) && forall c | Fresh(heap, c) && c.depth > 0 :: Expandable(opts, c)
    ensures AllExpandable(heap, opts, item, entries)
  {
    hide Fresh, Expandable, IsInline, IsCircular;
    forall i | 0 <= i < |entries| && IsGraphChild(heap, item, entries[i])
      ensures Expandable(opts, ChildOf(item, entries[i]))
    {
      ChildIsFresh(heap, item, entries[i]);
    }
  }

  /** So does a default depth that no chain of containers exceeds. */
  lemma {:induction false} DepthOpens(heap: Heap, opts: Options, item: QueueItem)
    requires Closed(heap) && Fresh(heap, item) && opts.defaultExpandDepth >= |heap|
    ensures Opened(heap, opts, item, false)
  {
    hide Closed, Opened;
    forall c | Fresh(heap, c) ensures c.depth <= |heap|
    {
      NoRepeatsSize(c.ancestors);
      assert Elems(c.ancestors) <= heap.Keys;
      SubsetSize(Elems(c.ancestors), heap.Keys);
    }
    ClicksOpen(heap, opts, item, false);
  }

  lemma {:induction false} NoRepeatsSize(s: seq<nat>)
    requires NoRepeats(s)
    ensures |Elems(s)| == |s|
  {
    if s != [] {
      var front := s[..|s| - 1];
      NoRepeatsSize(front);
      assert Elems(s) == Elems(front) + {s[|s| - 1]};
    }
  }

  // ---- counting ----

  ghost predicate Count(heap: Heap, opts: Options, root: QueueItem, done: seq<QueueItem>, queue: seq<QueueItem>,
                        truncated: bool)
    requires Closed(heap) && Fresh(heap, root) && AllFresh(heap, queue)
  {
    if truncated then
      && |done| + |queue| == MAX_NODES
      && Need(heap, opts, root) >= MAX_NODES
      && (Opened(heap, opts, root, false) ==> Need(heap, opts, root) > MAX_NODES)
    else |done| + TotalNeed(heap, opts, queue) == Need(heap, opts, root)
  }

  lemma {:induction false} CountStep(heap: Heap, opts: Options, root: QueueItem, done: seq<QueueItem>,
                                     queue: seq<QueueItem>, truncated: bool)
    requires Closed(heap) && Fresh(heap, root) && AllFresh(heap, queue)
    requires queue != [] && Sound(heap, opts, queue[0]) && |done| + |queue| <= MAX_NODES
    requires Count(heap, opts, root, done, queue, truncated) && Spread(heap, opts, root, queue)
    ensures var x := Expand(heap, opts, queue[0], Visible(heap, opts, queue[0]), |done| + |queue|);
            && AllFresh(heap, queue[1..] + x.pushes)
            && Count(heap, opts, root, done + [queue[0]], queue[1..] + x.pushes, truncated || x.cut)
  {
    hide Closed, Fresh, Expand, Visible, Need, Children, AllExpandable, Opened;
    var item, rest, base := queue[0], queue[1..], |done| + |queue|;
    var entries := Visible(heap, opts, item);
    var x := Expand(heap, opts, item, entries, base);
    PushFacts(heap, opts, item, base);
    ExpandPushes(heap, opts, item, entries, base);
    if !truncated {
      NeedOfHead(heap, opts, queue);
      var cs := Children(heap, opts, item, entries);
      TotalConcat(heap, opts, rest, cs);
      if x.cut {
        TotalAtLeast(heap, opts, cs);
        TotalAtLeast(heap, opts, rest);
        if Opened(heap, opts, root, false) {
          OpenedIsExpandable(heap, opts, item, false);
        }
      } else {
        assert x.pushes == cs;
      }
    }
  }

  lemma {:induction false} NeedOfHead(heap: Heap, opts: Options, queue: seq<QueueItem>)
    requires Closed(heap) && AllFresh(heap, queue) && queue != [] && queue[0].ref in heap
    ensures AllFresh(heap, queue[1..])
    ensures AllFresh(heap, Children(heap, opts, queue[0], Visible(heap, opts, queue[0])))
    ensures TotalNeed(heap, opts, queue)
         == 1 + TotalNeed(heap, opts, Children(heap, opts, queue[0], Visible(heap, opts, queue[0])))
              + TotalNeed(heap, opts, queue[1..])
  {
    hide Closed, Fresh, Visible, Need, Children;
    var head := [queue[0]];
    assert queue == head + queue[1..];
    assert head[..0] == [];
    TotalConcat(heap, opts, head, queue[1..]);
    NeedIsTotal(heap, opts, queue[0]);
    assert TotalNeed(heap, opts, head) == TotalNeed(heap, opts, head[..0]) + Need(heap, opts, queue[0]);
  }

  lemma {:induction false} CountStart(heap: Heap, opts: Options, root: QueueItem)
    requires Closed(heap) && Fresh(heap, root)
    ensures AllFresh(heap, [root]) && Count(heap, opts, root, [], [root], false)
  {
    hide Closed, Fresh, Need;
    assert [root][..0] == [];
    assert TotalNeed(heap, opts, [root]) == TotalNeed(heap, opts, []) + Need(heap, opts, root);
  }

  // ---- the method ----

  lemma {:induction false} RootIsFresh(heap: Heap, ref: nat)
    requires ref in heap
    ensures Fresh(heap, Root(ref))
  {
  }

  /** The flag is up exactly when some container was refused its node for lack of
      budget. */
  ghost predicate CutsNoticed(heap: Heap, opts: Options, done: seq<QueueItem>, used: seq<nat>, truncated: bool)
    requires |done| == |used| && AllSound(heap, opts, done)
  {
    truncated <==> exists i :: 0 <= i < |done| && Expand(heap, opts, done[i], Visible(heap, opts, done[i]), used[i]).cut
  }

  lemma {:induction false} CutsStep(heap: Heap, opts: Options, done: seq<QueueItem>, used: seq<nat>, truncated: bool,
                                    item: QueueItem, base: nat)
    requires |done| == |used| && AllSound(heap, opts, done) && Sound(heap, opts, item)
    requires CutsNoticed(heap, opts, done, used, truncated)
    ensures AllSound(heap, opts, done + [item])
    ensures CutsNoticed(heap, opts, done + [item], used + [base],
                        truncated || Expand(heap, opts, item, Visible(heap, opts, item), base).cut)
  {
    hide Expand, Visible;
    var done', used' := done + [item], used + [base];
    if truncated {
      var i :| 0 <= i < |done| && Expand(heap, opts, done[i], Visible(heap, opts, done[i]), used[i]).cut;
      assert done'[i] == done[i] && used'[i] == used[i];
    }
    assert done'[|done|] == item && used'[|done|] == base;
  }

  /** The loop invariant of `buildJsonGraph`. */
  ghost predicate Invariant(heap: Heap, opts: Options, root: QueueItem, nodes: seq<Node>, edges: seq<Edge>,
                            done: seq<QueueItem>, used: seq<nat>, seen: set<string>, queue: seq<QueueItem>,
                            truncated: bool)
    requires Closed(heap) && Fresh(heap, root)
  {
    && |done| == |used| == |nodes|
    && AllSound(heap, opts, done)
    && AllFresh(heap, queue)
    && CutsNoticed(heap, opts, done, used, truncated)
    && Spread(heap, opts, root, done + queue)
    && Led(heap, root.ref, done + queue)
    && Basic(heap, opts, root, nodes, done, used, queue)
    && Linked(heap, opts, edges, done, used, seen, queue)
    && (CleanHeap(heap) ==>
          && Tree(heap, opts, edges, done, used, done + queue)
          && Count(heap, opts, root, done, queue, truncated))
  }

  /** What is known when the queue has run dry. */
  ghost predicate Built(heap: Heap, opts: Options, ref: nat, nodes: seq<Node>, edges: seq<Edge>, truncated: bool,
                        done: seq<QueueItem>, used: seq<nat>)
    requires Closed(heap) && ref in heap
  {
    RootIsFresh(heap, ref);
    && Basic(heap, opts, Root(ref), nodes, done, used, [])
    && AllSound(heap, opts, done)
    && CutsNoticed(heap, opts, done, used, truncated)
    && Spread(heap, opts, Root(ref), done)
    && Led(heap, ref, done)
    && Linked(heap, opts, edges, done, used, set id | id in Ids(done), [])
    && (CleanHeap(heap) ==> Tree(heap, opts, edges, done, used, done) && Count(heap, opts, Root(ref), done, [], truncated))
  }

  /** The breadth-first loop of `buildJsonGraph`. */
  method Traverse(heap: Heap, ref: nat, opts: Options)
    returns (nodes: seq<Node>, edges: seq<Edge>, truncated: bool, ghost done: seq<QueueItem>, ghost used: seq<nat>)
    requires Closed(heap) && ref in heap
    ensures Built(heap, opts, ref, nodes, edges, truncated, done, used)
  {
    hide Fresh, Expand, NodesOf, Adjacent, Linked, Tree, Count, CleanHeap, Visible, NodeFor, PushesOf, CutsNoticed, Opened, IsTrail;
    nodes, edges, truncated, done, used := [], [], false, [], [];
    var seen: set<string> := {};
    var queue := [Root(ref)];
    ghost var root := Root(ref);
    RootIsFresh(heap, ref);
    Start(heap, opts, root);
    while queue != []
      invariant Invariant(heap, opts, root, nodes, edges, done, used, seen, queue, truncated)
      decreases MAX_NODES - |nodes|, |queue|
    {
      var item := queue[0];
      HeadIsSound(heap, opts, queue);
      if item.id in seen {
        SkipStep(heap, opts, root, nodes, edges, done, used, seen, queue, truncated);
        queue := queue[1..];
      } else {
        var base := |nodes| + |queue|;
        NewStep(heap, opts, root, nodes, edges, done, used, seen, queue, truncated);
        var rows, pushes, more, cut := ExpandNode(heap, opts, item, Visible(heap, opts, item), base);
        nodes := nodes + [NodeFor(heap, opts, item, rows)];
        edges := edges + more;
        queue := queue[1..] + pushes;
        seen := seen + {item.id};
        truncated := truncated || cut;
        done, used := done + [item], used + [base];
      }
    }
    Finish(heap, opts, edges, done, used, seen);
    assert done + [] == done;
  }

  lemma {:induction false} HeadIsSound(heap: Heap, opts: Options, queue: seq<QueueItem>)
    requires Closed(heap) && AllFresh(heap, queue) && queue != []
    ensures Sound(heap, opts, queue[0])
  {
    hide Closed, Sound;
    FreshInHeap(heap, queue[0]);
    ClosedEntries(heap, opts, queue[0]);
  }

  lemma {:induction false} Finish(heap: Heap, opts: Options, edges: seq<Edge>, done: seq<QueueItem>, used: seq<nat>,
                                  seen: set<string>)
    requires |done| == |used| && AllSound(heap, opts, done) && Linked(heap, opts, edges, done, used, seen, [])
    ensures seen == set id | id in Ids(done)
  {
    hide Expand, Visible, PushesOf;
  }

  lemma {:induction false} Start(heap: Heap, opts: Options, root: QueueItem)
    requires Closed(heap) && Fresh(heap, root) && root.path == []
    ensures Basic(heap, opts, root, [], [], [], [root])
    ensures Linked(heap, opts, [], [], [], {}, [root])
    ensures Tree(heap, opts, [], [], [], [root])
    ensures AllFresh(heap, [root]) && Count(heap, opts, root, [], [root], false)
    ensures CutsNoticed(heap, opts, [], [], false)
    ensures [] + [root] == [root] && Spread(heap, opts, root, [root]) && Led(heap, root.ref, [root])
  {
    hide Closed, Fresh, Need, Expand, Visible, Opened;
    CountStart(heap, opts, root);
    RootIsLed(heap, root);
    assert Ids([root]) == [root.id] && [root.id][..0] == [];
  }

  lemma {:induction false} RootIsLed(heap: Heap, root: QueueItem)
    requires Fresh(heap, root) && root.path == []
    ensures Led(heap, root.ref, [root])
  {
  }

  lemma {:induction false} SkipStep(heap: Heap, opts: Options, root: QueueItem, nodes: seq<Node>, edges: seq<Edge>,
                                    done: seq<QueueItem>, used: seq<nat>, seen: set<string>, queue: seq<QueueItem>,
                                    truncated: bool)
    requires Closed(heap) && Fresh(heap, root) && queue != [] && queue[0].id in seen
    requires Invariant(heap, opts, root, nodes, edges, done, used, seen, queue, truncated)
    ensures Invariant(heap, opts, root, nodes, edges, done, used, seen, queue[1..], truncated)
  {
    hide Closed, Fresh, Basic, Linked, Tree, Count, CleanHeap, CutsNoticed, Spread, Led;
    SkipParts(heap, opts, root, nodes, edges, done, used, seen, queue);
    SpreadSkip(heap, opts, root, done, queue);
    LedSkip(heap, root.ref, done, queue);
  }

  /** An id that was seen before cannot turn up again where ids tell paths apart. */
  lemma {:induction false} SkipParts(heap: Heap, opts: Options, root: QueueItem, nodes: seq<Node>, edges: seq<Edge>,
                                     done: seq<QueueItem>, used: seq<nat>, seen: set<string>, queue: seq<QueueItem>)
    requires queue != [] && queue[0].id in seen && |done| == |used| && AllSound(heap, opts, done)
    requires Basic(heap, opts, root, nodes, done, used, queue)
    requires Linked(heap, opts, edges, done, used, seen, queue)
    ensures Basic(heap, opts, root, nodes, done, used, queue[1..])
    ensures Linked(heap, opts, edges, done, used, seen, queue[1..])
    ensures !Tree(heap, opts, edges, done, used, done + queue)
  {
    hide Expand, Visible, Fresh, NodesOf, CleanPath, GoodEdge, After, Adjacent, PushesOf;
    var k := SeenIndex(heap, opts, edges, done, used, seen, queue, queue[0].id);
    BasicSkip(heap, opts, root, nodes, done, used, queue);
    LinkedSkip(heap, opts, edges, done, used, seen, queue);
    var all := done + queue;
    assert Ids(all)[k] == done[k].id && Ids(all)[|done|] == queue[0].id;
    if Diff.Distinct(Ids(all)) {
      DistinctIndices(Ids(all), k, |done|);
    }
  }

  lemma {:induction false} SeenIndex(heap: Heap, opts: Options, edges: seq<Edge>, done: seq<QueueItem>, used: seq<nat>,
                                     seen: set<string>, queue: seq<QueueItem>, id: string)
    returns (k: nat)
    requires |done| == |used| && AllSound(heap, opts, done)
    requires Linked(heap, opts, edges, done, used, seen, queue) && id in seen
    ensures k < |done| && done[k].id == id
  {
    hide Expand, Visible, PushesOf, Diff.Distinct;
    assert id in Ids(done);
    k :| 0 <= k < |done| && Ids(done)[k] == id;
  }

  lemma {:induction false} NewStep(heap: Heap, opts: Options, root: QueueItem, nodes: seq<Node>, edges: seq<Edge>,
                                   done: seq<QueueItem>, used: seq<nat>, seen: set<string>, queue: seq<QueueItem>,
                                   truncated: bool)
    requires Closed(heap) && Fresh(heap, root) && root.path == []
    requires queue != [] && queue[0].id !in seen && Sound(heap, opts, queue[0])
    requires Invariant(heap, opts, root, nodes, edges, done, used, seen, queue, truncated)
    ensures var base := |nodes| + |queue|;
            var x := Expand(heap, opts, queue[0], Visible(heap, opts, queue[0]), base);
            Invariant(heap, opts, root, nodes + [NodeFor(heap, opts, queue[0], x.rows)],
                      edges + EdgesTo(queue[0].id, x.pushes), done + [queue[0]], used + [base],
                      seen + {queue[0].id}, queue[1..] + x.pushes, truncated || x.cut)
  {
    hide Closed, Fresh, Expand, Visible, NodesOf, Adjacent, Linked, Tree, Count, CleanHeap, NodeFor, EdgesTo,
         CutsNoticed, Spread, Led, Children;
    var base := |nodes| + |queue|;
    var x := Expand(heap, opts, queue[0], Visible(heap, opts, queue[0]), base);
    BasicStep(heap, opts, root, nodes, done, used, queue);
    LinkedStep(heap, opts, edges, done, used, seen, queue, base);
    CutsStep(heap, opts, done, used, truncated, queue[0], base);
    assert done + [queue[0]] + (queue[1..] + x.pushes) == done + queue + x.pushes;
    ExpandPushes(heap, opts, queue[0], Visible(heap, opts, queue[0]), base);
    assert (done + queue)[|done|] == queue[0];
    SpreadStep(heap, opts, root, done + queue, queue[0], x.pushes);
    LedStep(heap, opts, root.ref, done + queue, queue[0], x.pushes);
    if CleanHeap(heap) {
      TreeStep(heap, opts, edges, done, used, queue, base);
      SpreadBack(heap, opts, root, done, queue);
      CountStep(heap, opts, root, done, queue, truncated);
    }
  }

  lemma {:induction false} SpreadBack(heap: Heap, opts: Options, root: QueueItem, done: seq<QueueItem>,
                                      queue: seq<QueueItem>)
    requires Spread(heap, opts, root, done + queue)
    ensures Spread(heap, opts, root, queue)
  {
    hide Opened;
    forall whole, i | Opened(heap, opts, root, whole) && 0 <= i < |queue| ensures Opened(heap, opts, queue[i], whole)
    {
      assert queue[i] == (done + queue)[|done| + i];
    }
  }
}
