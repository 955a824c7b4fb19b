/** `buildJsonGraph`: a value on the heap as a graph of nodes and edges, breadth
    first, within a budget of nodes. */
module JsonGraph {
  import opened Pointer
  import opened Lens
  import Values

  const MAX_OBJECT_KEYS_OPEN := 50
  const MAX_ARRAY_ITEMS_OPEN := 100
  const INLINE_ARRAY_MAX_ITEMS := 10
  const MAX_NODES := 300

  // ---- the value ----

  datatype Item = Leaf(value: Values.Value) | Ref(id: nat)

  datatype Container = ArrayOf(items: seq<Item>) | ObjectOf(fields: seq<(string, Item)>)

  /** Containers by identity; references may be shared and may form cycles. */
  type Heap = map<nat, Container>

  /** A key or index with what it holds. */
  datatype Entry = Entry(key: string, segment: Segment, item: Item)

  function Entries(c: Container): seq<Entry> {
    match c
    case ArrayOf(items) =>
      seq(|items|, i requires 0 <= i < |items| => Entry(Decimal(i), Index(i), items[i]))
    case ObjectOf(fields) =>
      seq(|fields|, i requires 0 <= i < |fields| => Entry(fields[i].0, Key(fields[i].0), fields[i].1))
  }

  ghost predicate Closed(heap: Heap) {
    forall id, i | id in heap && 0 <= i < |Entries(heap[id])| && Entries(heap[id])[i].item.Ref? ::
      Entries(heap[id])[i].item.id in heap
  }

  // ---- the result ----

  datatype Row =
    | PrimitiveRow(key: string, path: seq<Segment>, value: Values.Value)
    | InlineArrayRow(key: string, path: seq<Segment>, items: seq<Item>)
    | ChildRefRow(key: string, path: seq<Segment>, childNodeId: string)
    | CollapsedRow(key: string, path: seq<Segment>, childNodeId: string, count: nat)
    | CircularRow(key: string, path: seq<Segment>)
    | OverflowRow(path: seq<Segment>, childNodeId: string, hidden: nat)

  datatype Node = Node(id: string, caption: string, isArray: bool, depth: nat, rows: seq<Row>)

  datatype Edge = Edge(source: string, target: string)

  datatype Options = Options(
    rootLabel: Option<string>,
    defaultExpandDepth: int,
    expandedPaths: set<string>,
    expandedOverflow: set<string>)

  // ---- ids ----

  function SegmentId(seg: Segment): string {
    match seg
    case Index(i) => "[" + Decimal(i) + "]"
    case Key(k) => "." + k
  }

  function PathToId(path: seq<Segment>): string {
    if path == [] then "$" else PathToId(path[..|path| - 1]) + SegmentId(path[|path| - 1])
  }

  function LabelFor(path: seq<Segment>, rootLabel: Option<string>): string {
    if path == [] then (if rootLabel.Some? then rootLabel.value else "")
    else match path[|path| - 1]
      case Index(i) => "[" + Decimal(i) + "]"
      case Key(k) => k
  }

  // ---- one container ----

  /** `ancestors` are the containers from the root down to this one's parent. */
  datatype QueueItem = QueueItem(id: string, path: seq<Segment>, ref: nat, depth: nat, ancestors: seq<nat>)

  predicate IsInline(c: Container) {
    c.ArrayOf? && 0 < |c.items| <= INLINE_ARRAY_MAX_ITEMS && forall i | 0 <= i < |c.items| :: c.items[i].Leaf?
  }

  predicate IsCircular(item: QueueItem, e: Entry) {
    e.item.Ref? && e.item.id in item.ancestors + [item.ref]
  }

  /** The entry wants a node of its own, or a collapsed row in its place. */
  predicate IsGraphChild(heap: Heap, item: QueueItem, e: Entry) {
    && e.item.Ref? && e.item.id in heap
    && !IsCircular(item, e)
    && !IsInline(heap[e.item.id])
  }

  function ChildOf(item: QueueItem, e: Entry): QueueItem
    requires e.item.Ref?
  {
    var path := item.path + [e.segment];
    QueueItem(PathToId(path), path, e.item.id, item.depth + 1, item.ancestors + [item.ref])
  }

  predicate Expandable(opts: Options, child: QueueItem) {
    child.depth <= opts.defaultExpandDepth || child.id in opts.expandedPaths
  }

  function MaxOpen(c: Container): nat {
    if c.ArrayOf? then MAX_ARRAY_ITEMS_OPEN else MAX_OBJECT_KEYS_OPEN
  }

  function VisibleCount(opts: Options, id: string, c: Container): (n: nat)
    ensures n <= |Entries(c)|
  {
    var all := |Entries(c)|;
    if id in opts.expandedOverflow || all <= MaxOpen(c) then all else MaxOpen(c)
  }

  function Visible(heap: Heap, opts: Options, item: QueueItem): seq<Entry>
    requires item.ref in heap
  {
    Entries(heap[item.ref])[..VisibleCount(opts, item.id, heap[item.ref])]
  }

  datatype Expansion = Expansion(rows: seq<Row>, pushes: seq<QueueItem>, cut: bool)

  /** One entry, when `used` nodes are materialized or waiting. */
  function ExpandEntry(heap: Heap, opts: Options, item: QueueItem, e: Entry, used: nat): Expansion
    requires e.item.Ref? ==> e.item.id in heap
  {
    var path := item.path + [e.segment];
    if e.item.Leaf? then Expansion([PrimitiveRow(e.key, path, e.item.value)], [], false)
    else if IsCircular(item, e) then Expansion([CircularRow(e.key, path)], [], false)
    else if IsInline(heap[e.item.id]) then Expansion([InlineArrayRow(e.key, path, heap[e.item.id].items)], [], false)
    else
      var child := ChildOf(item, e);
      var overBudget := used >= MAX_NODES;
      if !Expandable(opts, child) || overBudget then
        Expansion([CollapsedRow(e.key, path, child.id, |Entries(heap[e.item.id])|)], [], overBudget)
      else Expansion([ChildRefRow(e.key, path, child.id)], [child], false)
  }

  ghost predicate InHeap(heap: Heap, entries: seq<Entry>) {
    forall i | 0 <= i < |entries| && entries[i].item.Ref? :: entries[i].item.id in heap
  }

  ghost function Expand(heap: Heap, opts: Options, item: QueueItem, entries: seq<Entry>, used: nat): Expansion
    requires InHeap(heap, entries)
  {
    if entries == [] then Expansion([], [], false)
    else
      var last := |entries| - 1;
      var before := Expand(heap, opts, item, entries[..last], used);
      var step := ExpandEntry(heap, opts, item, entries[last], used + |before.pushes|);
      Expansion(before.rows + step.rows, before.pushes + step.pushes, before.cut || step.cut)
  }

  function OverflowRows(heap: Heap, opts: Options, item: QueueItem): seq<Row>
    requires item.ref in heap
  {
    var hidden := |Entries(heap[item.ref])| - |Visible(heap, opts, item)|;
    if hidden > 0 then [OverflowRow(item.path, item.id, hidden)] else []
  }

  function NodeFor(heap: Heap, opts: Options, item: QueueItem, rows: seq<Row>): Node
    requires item.ref in heap
  {
    Node(item.id, LabelFor(item.path, opts.rootLabel), heap[item.ref].ArrayOf?, item.depth,
         rows + OverflowRows(heap, opts, item))
  }

  // ---- the loop ----

  /** `done` are the queue items that became the nodes. */
  ghost predicate NodesOf(heap: Heap, opts: Options, nodes: seq<Node>, done: seq<QueueItem>, used: seq<nat>) {
    && |nodes| == |done| == |used|
    && forall i | 0 <= i < |nodes| ::
         && done[i].ref in heap
         && InHeap(heap, Visible(heap, opts, done[i]))
         && nodes[i] == NodeFor(heap, opts, done[i],
                                Expand(heap, opts, done[i], Visible(heap, opts, done[i]), used[i]).rows)
  }

  ghost function Ids(items: seq<QueueItem>): seq<string> {
    seq(|items|, i requires 0 <= i < |items| => items[i].id)
  }

  function EdgesTo(source: string, pushes: seq<QueueItem>): seq<Edge> {
    seq(|pushes|, i requires 0 <= i < |pushes| => Edge(source, pushes[i].id))
  }

  /** The inner loop: the rows of one node. */
  method ExpandNode(heap: Heap, opts: Options, item: QueueItem, entries: seq<Entry>, used: nat)
    returns (rows: seq<Row>, pushes: seq<QueueItem>, edges: seq<Edge>, cut: bool)
    requires InHeap(heap, entries)
    ensures Expansion(rows, pushes, cut) == Expand(heap, opts, item, entries, used)
    ensures edges == EdgesTo(item.id, pushes)
  {
    rows, pushes, edges, cut := [], [], [], false;
    for i := 0 to |entries|
      invariant Expansion(rows, pushes, cut) == Expand(heap, opts, item, entries[..i], used)
      invariant edges == EdgesTo(item.id, pushes)
    {
      assert entries[..i + 1][..i] == entries[..i];
      var step := ExpandEntry(heap, opts, item, entries[i], used + |pushes|);
      rows := rows + step.rows;
      edges := edges + EdgesTo(item.id, step.pushes);
      pushes := pushes + step.pushes;
      cut := cut || step.cut;
    }
    assert entries[..|entries|] == entries;
  }

  // ---- children ----

  /** The items that one container would push with no budget to keep to. */
  ghost function Children(heap: Heap, opts: Options, item: QueueItem, entries: seq<Entry>): seq<QueueItem> {
    if entries == [] then []
    else
      var last := |entries| - 1;
      Children(heap, opts, item, entries[..last]) +
      if IsGraphChild(heap, item, entries[last]) && Expandable(opts, ChildOf(item, entries[last]))
      then [ChildOf(item, entries[last])] else []
  }

  ghost predicate AllExpandable(heap: Heap, opts: Options, item: QueueItem, entries: seq<Entry>) {
    forall i | 0 <= i < |entries| && IsGraphChild(heap, item, entries[i]) ::
      Expandable(opts, ChildOf(item, entries[i]))
  }

  /** What is pushed is the beginning of what is wanted; it falls short exactly when
      the budget is used up, and then the cut is noticed. */
  lemma {:induction false} ExpandPushes(heap: Heap, opts: Options, item: QueueItem, entries: seq<Entry>, used: nat)
    requires InHeap(heap, entries)
    ensures var x, cs := Expand(heap, opts, item, entries, used), Children(heap, opts, item, entries);
            && |x.pushes| <= |cs| && x.pushes == cs[..|x.pushes|]
            && (|x.pushes| < |cs| ==> x.cut)
            && (x.cut ==> used + |x.pushes| >= MAX_NODES)
            && (used <= MAX_NODES ==> used + |x.pushes| <= MAX_NODES)
            && (x.cut && AllExpandable(heap, opts, item, entries) ==> |x.pushes| < |cs|)
  {
    hide IsInline, IsCircular, Expandable, ChildOf, Entries;
    if entries != [] {
      ExpandPushes(heap, opts, item, entries[..|entries| - 1], used);
    }
  }

  /** Each row tells of its entry, and a child row of an item pushed for it. */
  ghost predicate Shows(heap: Heap, item: QueueItem, e: Entry, row: Row, pushes: seq<QueueItem>) {
    match row
    case PrimitiveRow(key, _, value) => key == e.key && e.item == Leaf(value)
    case CircularRow(key, _) => key == e.key && IsCircular(item, e)
    case InlineArrayRow(key, _, items) =>
      key == e.key && e.item.Ref? && e.item.id in heap && !IsCircular(item, e) && IsInline(heap[e.item.id])
      && heap[e.item.id] == ArrayOf(items)
    case ChildRefRow(key, _, id) =>
      key == e.key && IsGraphChild(heap, item, e) && id == ChildOf(item, e).id && ChildOf(item, e) in pushes
    case CollapsedRow(key, _, id, _) => key == e.key && IsGraphChild(heap, item, e) && id == ChildOf(item, e).id
    case OverflowRow(_, _, _) => false
  }

  lemma {:induction false} EntryShows(heap: Heap, opts: Options, item: QueueItem, e: Entry, used: nat)
    requires e.item.Ref? ==> e.item.id in heap
    ensures var step := ExpandEntry(heap, opts, item, e, used);
            |step.rows| == 1 && Shows(heap, item, e, step.rows[0], step.pushes)
  {
    hide Entries, Expandable;
  }

  lemma {:induction false} ShowsMore(heap: Heap, item: QueueItem, e: Entry, row: Row, some: seq<QueueItem>, all: seq<QueueItem>)
    requires Shows(heap, item, e, row, some) && forall c | c in some :: c in all
    ensures Shows(heap, item, e, row, all)
  {
  }

  lemma {:induction false} ExpandRows(heap: Heap, opts: Options, item: QueueItem, entries: seq<Entry>, used: nat)
    requires InHeap(heap, entries)
    ensures var x := Expand(heap, opts, item, entries, used);
            && |x.rows| == |entries|
            && forall i | 0 <= i < |entries| :: Shows(heap, item, entries[i], x.rows[i], x.pushes)
  {
    hide ExpandEntry, Shows;
    if entries != [] {
      var last := |entries| - 1;
      var before := Expand(heap, opts, item, entries[..last], used);
      ExpandRows(heap, opts, item, entries[..last], used);
      EntryShows(heap, opts, item, entries[last], used + |before.pushes|);
      var step := ExpandEntry(heap, opts, item, entries[last], used + |before.pushes|);
      var x := Expand(heap, opts, item, entries, used);
      forall i | 0 <= i < |entries| ensures Shows(heap, item, entries[i], x.rows[i], x.pushes)
      {
        if i < last {
          ShowsMore(heap, item, entries[i], before.rows[i], before.pushes, x.pushes);
        } else {
          ShowsMore(heap, item, entries[i], step.rows[0], step.pushes, x.pushes);
        }
      }
    }
  }

  lemma {:induction false} ChildrenAre(heap: Heap, opts: Options, item: QueueItem, entries: seq<Entry>, c: QueueItem)
    returns (i: nat)
    requires c in Children(heap, opts, item, entries)
    ensures i < |entries| && IsGraphChild(heap, item, entries[i]) && c == ChildOf(item, entries[i])
  {
    hide IsInline, IsCircular, Expandable, ChildOf, Entries;
    var last := |entries| - 1;
    if c in Children(heap, opts, item, entries[..last]) {
      i := ChildrenAre(heap, opts, item, entries[..last], c);
    } else {
      i := last;
    }
  }

  // ---- items of the queue ----

  /** A path through distinct containers, and the id made from it. */
  ghost predicate Fresh(heap: Heap, item: QueueItem) {
    && item.ref in heap
    && item.ref !in item.ancestors
    && (forall a | a in item.ancestors :: a in heap)
    && NoRepeats(item.ancestors)
    && item.id == PathToId(item.path)
    && item.depth == |item.ancestors| == |item.path|
  }

  predicate NoRepeats(s: seq<nat>) {
    s == [] || (s[|s| - 1] !in s[..|s| - 1] && NoRepeats(s[..|s| - 1]))
  }

  ghost function Elems(s: seq<nat>): set<nat> {
    set x | x in s
  }

  lemma {:induction false} ChildIsFresh(heap: Heap, item: QueueItem, e: Entry)
    requires Fresh(heap, item) && IsGraphChild(heap, item, e)
    ensures Fresh(heap, ChildOf(item, e))
  {
    hide IsInline, PathToId;
    assert (item.ancestors + [item.ref])[..|item.ancestors|] == item.ancestors;
  }

  ghost function Left(heap: Heap, item: QueueItem): nat {
    |heap.Keys - Elems(item.ancestors)|
  }

  lemma {:induction false} ChildHasLessLeft(heap: Heap, item: QueueItem, e: Entry)
    requires Fresh(heap, item) && e.item.Ref?
    ensures Left(heap, ChildOf(item, e)) < Left(heap, item)
  {
    hide PathToId, NoRepeats;
    var a, b := heap.Keys - Elems(item.ancestors), heap.Keys - Elems(ChildOf(item, e).ancestors);
    assert item.ref in a && item.ref !in b;
    assert b <= a - {item.ref};
    SubsetSize(b, a - {item.ref});
  }

  lemma {:induction false} SubsetSize(a: set<nat>, b: set<nat>)
    requires a <= b
    ensures |a| <= |b|
  {
    assert b == a + (b - a);
  }

  /** How many nodes `item` takes when every wanted child gets one. */
  ghost function Need(heap: Heap, opts: Options, item: QueueItem): nat
    requires Closed(heap) && Fresh(heap, item)
    decreases Left(heap, item), 1, 0
  {
    1 + ChildNeeds(heap, opts, item, |Children(heap, opts, item, Visible(heap, opts, item))|)
  }

  ghost function ChildNeeds(heap: Heap, opts: Options, item: QueueItem, n: nat): nat
    requires Closed(heap) && Fresh(heap, item)
    requires n <= |Children(heap, opts, item, Visible(heap, opts, item))|
    decreases Left(heap, item), 0, n
  {
    if n == 0 then 0
    else
      var c := Children(heap, opts, item, Visible(heap, opts, item))[n - 1];
      ChildFacts(heap, opts, item, c);
      ChildNeeds(heap, opts, item, n - 1) + Need(heap, opts, c)
  }

  lemma {:induction false} ChildFacts(heap: Heap, opts: Options, item: QueueItem, c: QueueItem)
    requires Fresh(heap, item) && c in Children(heap, opts, item, Visible(heap, opts, item))
    ensures Fresh(heap, c) && Left(heap, c) < Left(heap, item)
  {
    hide Children, Fresh, IsInline, IsCircular;
    assert item.ref in heap by { FreshInHeap(heap, item); }
    var entries := Visible(heap, opts, item);
    var i := ChildrenAre(heap, opts, item, entries, c);
    ChildIsFresh(heap, item, entries[i]);
    ChildHasLessLeft(heap, item, entries[i]);
  }

  lemma {:induction false} FreshInHeap(heap: Heap, item: QueueItem)
    requires Fresh(heap, item)
    ensures item.ref in heap
  {
  }

  ghost predicate AllFresh(heap: Heap, items: seq<QueueItem>) {
    forall i | 0 <= i < |items| :: Fresh(heap, items[i])
  }

  ghost function TotalNeed(heap: Heap, opts: Options, items: seq<QueueItem>): nat
    requires Closed(heap) && AllFresh(heap, items)
  {
    if items == [] then 0
    else TotalNeed(heap, opts, items[..|items| - 1]) + Need(heap, opts, items[|items| - 1])
  }

  lemma {:induction false} TotalConcat(heap: Heap, opts: Options, a: seq<QueueItem>, b: seq<QueueItem>)
    requires Closed(heap) && AllFresh(heap, a) && AllFresh(heap, b)
    ensures AllFresh(heap, a + b)
    ensures TotalNeed(heap, opts, a + b) == TotalNeed(heap, opts, a) + TotalNeed(heap, opts, b)
  {
    hide Need, Fresh, Closed;
    if b == [] {
      assert a + b == a;
    } else {
      assert (a + b)[..|a + b| - 1] == a + b[..|b| - 1];
      TotalConcat(heap, opts, a, b[..|b| - 1]);
    }
  }

  lemma {:induction false} TotalAtLeast(heap: Heap, opts: Options, items: seq<QueueItem>)
    requires Closed(heap) && AllFresh(heap, items)
    ensures TotalNeed(heap, opts, items) >= |items|
  {
    hide Fresh, Closed, ChildNeeds;
    if items != [] {
      TotalAtLeast(heap, opts, items[..|items| - 1]);
    }
  }

  lemma {:induction false} ChildrenAreFresh(heap: Heap, opts: Options, item: QueueItem)
    requires Fresh(heap, item)
    ensures AllFresh(heap, Children(heap, opts, item, Visible(heap, opts, item)))
  {
    hide Children, Left;
    var cs := Children(heap, opts, item, Visible(heap, opts, item));
    forall i | 0 <= i < |cs| ensures Fresh(heap, cs[i])
    {
      ChildFacts(heap, opts, item, cs[i]);
    }
  }

  /** A container takes one node and what its children take. */
  lemma {:induction false} NeedIsTotal(heap: Heap, opts: Options, item: QueueItem)
    requires Closed(heap) && Fresh(heap, item)
    ensures AllFresh(heap, Children(heap, opts, item, Visible(heap, opts, item)))
    ensures Need(heap, opts, item)
         == 1 + TotalNeed(heap, opts, Children(heap, opts, item, Visible(heap, opts, item)))
  {
    hide Closed, Children, Visible, NoRepeats, PathToId;
    ChildrenAreFresh(heap, opts, item);
    var cs := Children(heap, opts, item, Visible(heap, opts, item));
    ChildNeedsTotal(heap, opts, item, |cs|);
    assert cs[..|cs|] == cs;
  }

  lemma {:induction false} ChildNeedsTotal(heap: Heap, opts: Options, item: QueueItem, n: nat)
    requires Closed(heap) && Fresh(heap, item)
    requires n <= |Children(heap, opts, item, Visible(heap, opts, item))|
    requires AllFresh(heap, Children(heap, opts, item, Visible(heap, opts, item)))
    ensures ChildNeeds(heap, opts, item, n)
         == TotalNeed(heap, opts, Children(heap, opts, item, Visible(heap, opts, item))[..n])
  {
    hide Closed, Children, Visible, Need, NoRepeats, PathToId;
    var cs := Children(heap, opts, item, Visible(heap, opts, item));
    if n > 0 {
      ChildNeedsTotal(heap, opts, item, n - 1);
      assert cs[..n][..n - 1] == cs[..n - 1];
    }
  }
}
