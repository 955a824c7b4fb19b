/** What each row of the graph says: which entry of which container it shows, where that is,
    and so where an edit of it goes. */
module JsonGraphRows {
  import opened Pointer
  import opened Lens
  import opened JsonGraph
  import opened JsonGraphBuild
  import opened JsonGraphTree
  import opened JsonGraphBudget
  import opened JsonGraphTheorems
  import Values

  // ---- what a row should say ----

  function Size(c: Container): nat {
    match c
    case ArrayOf(items) => |items|
    case ObjectOf(fields) => |fields|
  }

  /** The `k`-th entry of a container: its name, and what is under it. */
  function NameAt(c: Container, k: nat): Segment
    requires k < Size(c)
  {
    match c
    case ArrayOf(_) => Index(k)
    case ObjectOf(fields) => Key(fields[k].0)
  }

  function ItemAt(c: Container, k: nat): Item
    requires k < Size(c)
  {
    match c
    case ArrayOf(items) => items[k]
    case ObjectOf(fields) => fields[k].1
  }

  /** A short array of leaves is shown in one row. */
  predicate ShownInline(c: Container) {
    c.ArrayOf? && 1 <= |c.items| <= 10 && forall i | 0 <= i < |c.items| :: c.items[i].Leaf?
  }

  /** By default or by a click, the container at this path is shown as a node. */
  predicate IsOpened(opts: Options, path: seq<Segment>) {
    |path| <= opts.defaultExpandDepth || PathToId(path) in opts.expandedPaths
  }

  /** The row shows the entry: it has its path and key, and the kind that the entry calls for.
      An entry that leads back to a container on the way is circular. Another container has a
      node of its own if it is opened, and if not, or if the budget is spent, its size. */
  ghost predicate RowTells(heap: Heap, opts: Options, path: seq<Segment>, trail: seq<nat>, name: Segment, item: Item,
                           row: Row, truncated: bool) {
    var at := path + [name];
    match item
    case Leaf(value) => row == PrimitiveRow(Text(name), at, value)
    case Ref(id) =>
      && id in heap
      && if id in trail then row == CircularRow(Text(name), at)
         else if ShownInline(heap[id]) then row == InlineArrayRow(Text(name), at, heap[id].items)
         else
           || (IsOpened(opts, at) && row == ChildRefRow(Text(name), at, PathToId(at)))
           || ((IsOpened(opts, at) ==> truncated) && row == CollapsedRow(Text(name), at, PathToId(at), Size(heap[id])))
  }

  function Limit(opts: Options, id: string, c: Container): nat {
    if id in opts.expandedOverflow then Size(c)
    else if c.ArrayOf? then (if Size(c) <= 100 then Size(c) else 100)
    else (if Size(c) <= 50 then Size(c) else 50)
  }

  /** The node shows the container that the path leads to: its first entries, one row each,
      and in one more row how many are held back. */
  ghost predicate NodeTells(heap: Heap, opts: Options, path: seq<Segment>, trail: seq<nat>, node: Node, truncated: bool)
    requires |trail| == |path| + 1 && trail[|path|] in heap
  {
    var c := heap[trail[|path|]];
    var shown := Limit(opts, node.id, c);
    && node.id == PathToId(path) && node.depth == |path| && node.isArray == c.ArrayOf?
    && node.caption == (if path == [] then (if opts.rootLabel.Some? then opts.rootLabel.value else "")
                        else if path[|path| - 1].Index? then "[" + Text(path[|path| - 1]) + "]"
                        else Text(path[|path| - 1]))
    && |node.rows| == shown + (if shown < Size(c) then 1 else 0)
    && (shown < Size(c) ==> node.rows[shown] == OverflowRow(path, node.id, Size(c) - shown))
    && forall k | 0 <= k < shown && k < Size(c) ::
         RowTells(heap, opts, path, trail, NameAt(c, k), ItemAt(c, k), node.rows[k], truncated)
  }

  /** Each node shows a container that some path leads to. */
  ghost predicate AllTell(heap: Heap, opts: Options, ref: nat, nodes: seq<Node>, truncated: bool) {
    forall i | 0 <= i < |nodes| :: TellsOfAPlace(heap, opts, ref, nodes[i], truncated)
  }

  ghost predicate TellsOfAPlace(heap: Heap, opts: Options, ref: nat, node: Node, truncated: bool) {
    exists path, trail ::
      IsTrail(heap, ref, path, trail) && |trail| == |path| + 1 && trail[|path|] in heap
      && NodeTells(heap, opts, path, trail, node, truncated)
  }

  // ---- every row does ----

  lemma {:induction false} EntriesAre(c: Container)
    ensures |Entries(c)| == Size(c)
    ensures forall k | 0 <= k < Size(c) ::
              Entries(c)[k].segment == NameAt(c, k) && Entries(c)[k].item == ItemAt(c, k)
              && Entries(c)[k].key == Text(NameAt(c, k))
  {
  }

  /** A row is what its entry came to, when some number of nodes were used. */
  lemma {:induction false} RowIsExpanded(heap: Heap, opts: Options, item: QueueItem, entries: seq<Entry>, used: nat, k: nat)
    returns (at: nat)
    requires InHeap(heap, entries) && k < |entries|
    ensures var x, step := Expand(heap, opts, item, entries, used), ExpandEntry(heap, opts, item, entries[k], at);
            |x.rows| == |entries| && step.rows == [x.rows[k]] && (step.cut ==> x.cut)
  {
    hide ExpandEntry;
    var last := |entries| - 1;
    var before := Expand(heap, opts, item, entries[..last], used);
    FrontRows(heap, opts, item, entries[..last], used);
    OneRow(heap, opts, item, entries[last], used + |before.pushes|);
    if k < last {
      at := RowIsExpanded(heap, opts, item, entries[..last], used, k);
    } else {
      at := used + |before.pushes|;
    }
  }

  lemma {:induction false} FrontRows(heap: Heap, opts: Options, item: QueueItem, entries: seq<Entry>, used: nat)
    requires InHeap(heap, entries)
    ensures |Expand(heap, opts, item, entries, used).rows| == |entries|
  {
    hide Expand, Shows;
    ExpandRows(heap, opts, item, entries, used);
  }

  lemma {:induction false} OneRow(heap: Heap, opts: Options, item: QueueItem, e: Entry, used: nat)
    requires e.item.Ref? ==> e.item.id in heap
    ensures |ExpandEntry(heap, opts, item, e, used).rows| == 1
  {
  }

  lemma {:induction false} EntryTells(heap: Heap, opts: Options, item: QueueItem, e: Entry, used: nat, truncated: bool)
    requires (e.item.Ref? ==> e.item.id in heap) && e.key == Text(e.segment) && item.depth == |item.path|
    requires ExpandEntry(heap, opts, item, e, used).cut ==> truncated
    ensures |ExpandEntry(heap, opts, item, e, used).rows| == 1
    ensures RowTells(heap, opts, item.path, TrailOf(item), e.segment, e.item,
                     ExpandEntry(heap, opts, item, e, used).rows[0], truncated)
  {
    hide PathToId, Entries, Text;
    if e.item.Ref? {
      EntriesAre(heap[e.item.id]);
    }
  }

  lemma {:induction false} LimitIs(opts: Options, id: string, c: Container)
    ensures VisibleCount(opts, id, c) == Limit(opts, id, c)
  {
    hide Entries;
    EntriesAre(c);
  }

  lemma {:induction false} ItemTells(heap: Heap, opts: Options, item: QueueItem, used: nat, truncated: bool)
    requires Fresh(heap, item) && Sound(heap, opts, item)
    requires Expand(heap, opts, item, Visible(heap, opts, item), used).cut ==> truncated
    ensures |TrailOf(item)| == |item.path| + 1 && TrailOf(item)[|item.path|] in heap
    ensures NodeTells(heap, opts, item.path, TrailOf(item),
                      NodeFor(heap, opts, item, Expand(heap, opts, item, Visible(heap, opts, item), used).rows), truncated)
  {
    hide Expand, PathToId, Entries, NoRepeats, RowTells, VisibleCount, Limit;
    var c, entries := heap[item.ref], Visible(heap, opts, item);
    var x := Expand(heap, opts, item, entries, used);
    var node := NodeFor(heap, opts, item, x.rows);
    EntriesAre(c);
    LimitIs(opts, item.id, c);
    FrontRows(heap, opts, item, entries, used);
    forall k | 0 <= k < Limit(opts, item.id, c) && k < Size(c)
      ensures RowTells(heap, opts, item.path, TrailOf(item), NameAt(c, k), ItemAt(c, k), node.rows[k], truncated)
    {
      assert entries[k] == Entries(c)[k];
      var at := RowIsExpanded(heap, opts, item, entries, used, k);
      EntryTells(heap, opts, item, entries[k], at, truncated);
    }
  }

  /** On any heap every node tells of a container that a path leads to, and every row of it
      of the entry that its own path leads to. */
  lemma {:induction false} RowsTell(heap: Heap, opts: Options, ref: nat, nodes: seq<Node>, edges: seq<Edge>,
                                    truncated: bool, done: seq<QueueItem>, used: seq<nat>)
    requires Closed(heap) && ref in heap
    requires Built(heap, opts, ref, nodes, edges, truncated, done, used)
    ensures AllTell(heap, opts, ref, nodes, truncated)
  {
    hide Closed, Expand, Visible, CleanHeap, Tree, Count, Linked, Spread, IsTrail, PathToId, Fresh, NodeTells, NodeFor,
         Adjacent, Sound;
    SameCount(heap, opts, nodes, done, used);
    forall i | 0 <= i < |nodes| ensures TellsOfAPlace(heap, opts, ref, nodes[i], truncated)
    {
      assert Sound(heap, opts, done[i]) && Fresh(heap, done[i]);
      NodeIsFor(heap, opts, nodes, done, used, i);
      ItemTells(heap, opts, done[i], used[i], truncated);
      assert IsTrail(heap, ref, done[i].path, TrailOf(done[i]));
    }
  }

  lemma {:induction false} NodeIsFor(heap: Heap, opts: Options, nodes: seq<Node>, done: seq<QueueItem>, used: seq<nat>, i: nat)
    requires NodesOf(heap, opts, nodes, done, used) && i < |nodes| && Sound(heap, opts, done[i])
    ensures nodes[i] == NodeFor(heap, opts, done[i], Expand(heap, opts, done[i], Visible(heap, opts, done[i]), used[i]).rows)
  {
    hide Expand, Visible, NodeFor;
  }

  // ---- what an edit of a row edits ----

  /** The heap holds this value, as decoded JSON does. */
  ghost predicate IsValue(heap: Heap, item: Item, v: Values.Value)
    decreases v
  {
    match item
    case Leaf(value) => v == value
    case Ref(id) =>
      && id in heap
      && match heap[id]
         case ArrayOf(items) =>
           v.Arr? && |v.items| == |items| && forall i | 0 <= i < |items| :: IsValue(heap, items[i], v.items[i])
         case ObjectOf(fields) =>
           v.Obj? && forall i | 0 <= i < |fields| ::
             fields[i].0 in v.fields && IsValue(heap, fields[i].1, v.fields[fields[i].0])
  }

  /** What a container holds under a name, its value has there. */
  lemma {:induction false} ValueUnder(heap: Heap, ref: nat, v: Values.Value, k: nat)
    requires IsValue(heap, Ref(ref), v) && k < Size(heap[ref])
    ensures At(v, [NameAt(heap[ref], k)]).Some?
    ensures IsValue(heap, ItemAt(heap[ref], k), At(v, [NameAt(heap[ref], k)]).value)
  {
    var c := heap[ref];
    var name := NameAt(c, k);
    assert [name][1..] == [];
    if c.ObjectOf? {
      assert c.fields[k].0 in v.fields;
    }
  }

  lemma {:induction false} AtInSteps(v: Values.Value, path: seq<Segment>, name: Segment)
    ensures At(v, path + [name]) == if At(v, path).Some? then At(At(v, path).value, [name]) else None
  {
    if path == [] {
      assert path + [name] == [name];
    } else {
      assert (path + [name])[0] == path[0] && (path + [name])[1..] == path[1..] + [name];
      match path[0]
      case Key(k) => if v.Obj? && k in v.fields { AtInSteps(v.fields[k], path[1..], name); }
      case Index(i) => if v.Arr? && i < |v.items| { AtInSteps(v.items[i], path[1..], name); }
    }
  }

  lemma {:induction false} HeldIsNamed(heap: Heap, ref: nat, seg: Segment, to: nat) returns (k: nat)
    requires Holds(heap, ref, seg, to)
    ensures k < Size(heap[ref]) && NameAt(heap[ref], k) == seg && ItemAt(heap[ref], k) == Ref(to)
  {
    match heap[ref]
    case ArrayOf(items) => k := seg.index;
    case ObjectOf(fields) => k :| 0 <= k < |fields| && fields[k] == (seg.key, Ref(to));
  }

  lemma {:induction false} TrailInValue(heap: Heap, from: nat, path: seq<Segment>, trail: seq<nat>, v: Values.Value)
    requires IsTrail(heap, from, path, trail) && IsValue(heap, Ref(from), v)
    ensures At(v, path).Some? && IsValue(heap, Ref(trail[|path|]), At(v, path).value)
    decreases |path|
  {
    hide Holds, IsValue;
    if path == [] {
      AtNothing(v);
    } else {
      hide At;
      var last := |path| - 1;
      TrailInValue(heap, from, path[..last], trail[..last + 1], v);
      assert path == path[..last] + [path[last]];
      AtInSteps(v, path[..last], path[last]);
      var k := HeldIsNamed(heap, trail[last], path[last], trail[last + 1]);
      HeldInHeap(heap, trail[last], path[last], trail[last + 1]);
      ValueUnder(heap, trail[last], At(v, path[..last]).value, k);
    }
  }

  lemma {:induction false} AtNothing(v: Values.Value)
    ensures At(v, []) == Some(v)
  {
  }

  lemma {:induction false} HeldInHeap(heap: Heap, ref: nat, seg: Segment, to: nat)
    requires Holds(heap, ref, seg, to)
    ensures ref in heap
  {
  }

  /** A leaf's row has the path under which the value has that leaf; so an edit of the row
      puts the new value there, and changes nothing on any path that parts from it. */
  lemma {:induction false} RowIsEdited(heap: Heap, opts: Options, ref: nat, nodes: seq<Node>, truncated: bool,
                                       i: nat, k: nat, v: Values.Value, w: Values.Value, other: seq<Segment>)
    requires AllTell(heap, opts, ref, nodes, truncated) && IsValue(heap, Ref(ref), v)
    requires i < |nodes| && k < |nodes[i].rows| && nodes[i].rows[k].PrimitiveRow?
    ensures var row := nodes[i].rows[k];
            && At(v, row.path) == Some(row.value)
            && (SafePath(row.path) && Addressable(row.path) ==>
                  && At(Put(v, row.path, w), row.path) == Some(w)
                  && (Disjoint(row.path, other) ==> At(Put(v, row.path, w), other) == At(v, other)))
  {
    hide IsTrail, IsValue, RowTells, At, Put, SafePath, Addressable, Disjoint, PathToId;
    var row := nodes[i].rows[k];
    assert TellsOfAPlace(heap, opts, ref, nodes[i], truncated);
    var path, trail :| IsTrail(heap, ref, path, trail) && |trail| == |path| + 1 && trail[|path|] in heap
                       && NodeTells(heap, opts, path, trail, nodes[i], truncated);
    var c := heap[trail[|path|]];
    RowOfEntry(heap, opts, path, trail, nodes[i], truncated, k);
    TrailInValue(heap, ref, path, trail, v);
    ValueUnder(heap, trail[|path|], At(v, path).value, k);
    AtInSteps(v, path, NameAt(c, k));
    LeafValue(heap, row.value, At(v, row.path).value);
    if SafePath(row.path) && Addressable(row.path) {
      EditIsALens(v, row.path, w, w, other);
    }
  }

  lemma {:induction false} LeafValue(heap: Heap, value: Values.Value, v: Values.Value)
    requires IsValue(heap, Leaf(value), v)
    ensures v == value
  {
  }

  lemma {:induction false} RowOfEntry(heap: Heap, opts: Options, path: seq<Segment>, trail: seq<nat>, node: Node,
                                      truncated: bool, k: nat)
    requires |trail| == |path| + 1 && trail[|path|] in heap && NodeTells(heap, opts, path, trail, node, truncated)
    requires k < |node.rows| && node.rows[k].PrimitiveRow?
    ensures k < Size(heap[trail[|path|]])
    ensures ItemAt(heap[trail[|path|]], k) == Leaf(node.rows[k].value)
    ensures node.rows[k].path == path + [NameAt(heap[trail[|path|]], k)]
  {
    hide PathToId, Text;
    var c := heap[trail[|path|]];
    assert Limit(opts, node.id, c) <= Size(c);
    assert k < Limit(opts, node.id, c);
    assert RowTells(heap, opts, path, trail, NameAt(c, k), ItemAt(c, k), node.rows[k], truncated);
  }
}
