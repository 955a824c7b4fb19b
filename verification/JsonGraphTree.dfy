/** With ids that tell paths apart, the edges of the graph form a tree. */
module JsonGraphTree {
  import opened Pointer
  import opened Lens
  import opened JsonGraph
  import opened JsonGraphBuild
  import opened Diff

  // ---- ids tell paths apart ----

  predicate IsStarter(c: char) {
    c == '.' || c == '['
  }

  predicate StarterFree(s: string) {
    forall i | 0 <= i < |s| :: !IsStarter(s[i])
  }

  predicate CleanSegment(seg: Segment) {
    seg.Key? ==> StarterFree(seg.key)
  }

  predicate CleanPath(path: seq<Segment>) {
    forall i | 0 <= i < |path| :: CleanSegment(path[i])
  }

  lemma {:induction false} LastStarter(s: string, x: char, b: string, t: string, y: char, c: string)
    requires s + [x] + b == t + [y] + c
    requires IsStarter(x) && IsStarter(y) && StarterFree(b) && StarterFree(c)
    ensures s == t && x == y && b == c
  {
    var l, r := s + [x] + b, t + [y] + c;
    assert IsStarter(l[|s|]) && IsStarter(r[|t|]);
    assert forall i | |s| < i < |l| :: l[i] == b[i - |s| - 1];
    assert forall i | |t| < i < |r| :: r[i] == c[i - |t| - 1];
    assert |s| == |t|;
    assert l[..|s|] == s && r[..|t|] == t;
    assert l[|s|] == x && r[|t|] == y;
    assert l[|s| + 1..] == b && r[|t| + 1..] == c;
  }

  function Body(seg: Segment): string {
    match seg
    case Index(i) => Decimal(i) + "]"
    case Key(k) => k
  }

  function Starter(seg: Segment): char {
    if seg.Index? then '[' else '.'
  }

  lemma {:induction false} SegmentParts(seg: Segment)
    requires CleanSegment(seg)
    ensures SegmentId(seg) == [Starter(seg)] + Body(seg)
    ensures IsStarter(Starter(seg)) && StarterFree(Body(seg))
  {
    if seg.Index? {
      DecimalDigits(seg.index);
    }
  }

  lemma {:induction false} SegmentFromParts(a: Segment, b: Segment)
    requires Starter(a) == Starter(b) && Body(a) == Body(b)
    ensures a == b
  {
    if a.Index? {
      DecimalDigits(a.index);
      DecimalDigits(b.index);
      assert Body(a)[..|Body(a)| - 1] == Decimal(a.index);
      assert Body(b)[..|Body(b)| - 1] == Decimal(b.index);
    }
  }

  /** Two paths without dots and opening brackets in their keys share an id only if
      they are the same path. */
  lemma {:induction false} IdsTellPathsApart(p: seq<Segment>, q: seq<Segment>)
    requires CleanPath(p) && CleanPath(q) && PathToId(p) == PathToId(q)
    ensures p == q
    decreases |p|
  {
    hide SegmentId, Body, Starter, StarterFree;
    if p == [] || q == [] {
      IdLength(p);
      IdLength(q);
    } else {
      var a, b := p[|p| - 1], q[|q| - 1];
      SegmentParts(a);
      SegmentParts(b);
      var s, t := PathToId(p[..|p| - 1]), PathToId(q[..|q| - 1]);
      assert s + [Starter(a)] + Body(a) == s + SegmentId(a);
      assert t + [Starter(b)] + Body(b) == t + SegmentId(b);
      LastStarter(s, Starter(a), Body(a), t, Starter(b), Body(b));
      SegmentFromParts(a, b);
      IdsTellPathsApart(p[..|p| - 1], q[..|q| - 1]);
      assert p == p[..|p| - 1] + [a] && q == q[..|q| - 1] + [b];
    }
  }

  lemma {:induction false} IdLength(p: seq<Segment>)
    ensures |PathToId(p)| >= 1 && (p != [] ==> |PathToId(p)| > 1)
    decreases |p|
  {
    if p != [] {
      IdLength(p[..|p| - 1]);
    }
  }

  // ---- when ids collide ----

  /** One more character, which begins a piece or continues the last one. */
  function Continued(pieces: seq<string>, c: char): seq<string> {
    if pieces == [] || IsStarter(c) then pieces + [[c]]
    else pieces[..|pieces| - 1] + [pieces[|pieces| - 1] + [c]]
  }

  /** The text cut in front of each dot and opening bracket. */
  function Cut(s: string): seq<string> {
    if s == "" then [] else Continued(Cut(s[..|s| - 1]), s[|s| - 1])
  }

  /** The pieces that the path's segments are cut into. */
  function Pieces(path: seq<Segment>): seq<string> {
    if path == [] then [] else Pieces(path[..|path| - 1]) + Cut(SegmentId(path[|path| - 1]))
  }

  function Joined(pieces: seq<string>): string {
    if pieces == [] then "" else Joined(pieces[..|pieces| - 1]) + pieces[|pieces| - 1]
  }

  lemma {:induction false} JoinedContinued(pieces: seq<string>, c: char)
    ensures Joined(Continued(pieces, c)) == Joined(pieces) + [c]
  {
    var all, last := Continued(pieces, c), |pieces| - 1;
    if pieces == [] || IsStarter(c) {
      assert all[..|pieces|] == pieces;
    } else {
      assert all[..last] == pieces[..last];
      assert Joined(pieces[..last]) + (pieces[last] + [c]) == Joined(pieces[..last]) + pieces[last] + [c];
    }
  }

  lemma {:induction false} JoinedCut(s: string)
    ensures Joined(Cut(s)) == s
  {
    hide Joined, Continued;
    if s == "" {
      JoinedNothing();
    } else {
      var last := |s| - 1;
      JoinedCut(s[..last]);
      JoinedContinued(Cut(s[..last]), s[last]);
      assert s == s[..last] + [s[last]];
    }
  }

  lemma {:induction false} JoinedNothing()
    ensures Joined([]) == ""
  {
  }

  lemma {:induction false} ContinuedConcat(a: seq<string>, b: seq<string>, c: char)
    requires b != [] || IsStarter(c)
    ensures Continued(a + b, c) == a + Continued(b, c) && Continued(b, c) != []
  {
    if b == [] {
      assert a + b == a;
    } else if !IsStarter(c) {
      assert (a + b)[..|a + b| - 1] == a + b[..|b| - 1];
    }
  }

  lemma {:induction false} CutConcat(a: string, b: string)
    requires b != "" && IsStarter(b[0])
    ensures Cut(a + b) == Cut(a) + Cut(b) && Cut(b) != []
  {
    hide Continued, IsStarter;
    var last := |b| - 1;
    assert (a + b)[..|a + b| - 1] == a + b[..last];
    if last == 0 {
      assert a + b[..0] == a;
      ContinuedConcat(Cut(a), [], b[0]);
      assert Cut(a) + [] == Cut(a);
    } else {
      CutConcat(a, b[..last]);
      ContinuedConcat(Cut(a), Cut(b[..last]), b[last]);
    }
  }

  lemma {:induction false} CutOfId(path: seq<Segment>)
    ensures Cut(PathToId(path)) == Cut("$") + Pieces(path)
    decreases |path|
  {
    hide Cut;
    if path != [] {
      var last := |path| - 1;
      CutOfId(path[..last]);
      CutConcat(PathToId(path[..last]), SegmentId(path[last]));
    }
  }

  /** Two paths share an id exactly if cutting their keys at dots and opening brackets
      leaves the same pieces. */
  lemma {:induction false} IdsCollideExactly(p: seq<Segment>, q: seq<Segment>)
    ensures PathToId(p) == PathToId(q) <==> Pieces(p) == Pieces(q)
  {
    hide Cut, Pieces, PathToId;
    CutOfId(p);
    CutOfId(q);
    JoinedCut(PathToId(p));
    JoinedCut(PathToId(q));
    if PathToId(p) == PathToId(q) {
      assert Pieces(p) == Cut(PathToId(p))[|Cut("$")|..];
      assert Pieces(q) == Cut(PathToId(q))[|Cut("$")|..];
    }
  }

  // ---- where paths lead ----

  /** The container has the other under this key or index. */
  predicate Holds(heap: Heap, ref: nat, seg: Segment, to: nat) {
    ref in heap &&
    match heap[ref]
    case ArrayOf(items) => seg.Index? && seg.index < |items| && items[seg.index] == Ref(to)
    case ObjectOf(fields) => seg.Key? && (seg.key, Ref(to)) in fields
  }

  /** The containers that the path passes, from the first to the one that it leads to. */
  ghost predicate IsTrail(heap: Heap, from: nat, path: seq<Segment>, trail: seq<nat>) {
    && |trail| == |path| + 1 && trail[0] == from
    && forall j | 0 <= j < |path| :: Holds(heap, trail[j], path[j], trail[j + 1])
  }

  ghost predicate Reachable(heap: Heap, from: nat, to: nat) {
    exists path, trail :: IsTrail(heap, from, path, trail) && trail[|path|] == to
  }

  function TrailOf(item: QueueItem): seq<nat> {
    item.ancestors + [item.ref]
  }

  /** Each item is the container that its path leads to, by way of its ancestors. */
  ghost predicate Led(heap: Heap, from: nat, items: seq<QueueItem>) {
    forall i | 0 <= i < |items| :: IsTrail(heap, from, items[i].path, TrailOf(items[i]))
  }

  lemma {:induction false} EntryIsHeld(heap: Heap, ref: nat, i: nat)
    requires ref in heap && i < |Entries(heap[ref])| && Entries(heap[ref])[i].item.Ref?
    ensures Holds(heap, ref, Entries(heap[ref])[i].segment, Entries(heap[ref])[i].item.id)
  {
  }

  lemma {:induction false} TrailGoesOn(heap: Heap, from: nat, path: seq<Segment>, trail: seq<nat>, seg: Segment, to: nat)
    requires IsTrail(heap, from, path, trail) && Holds(heap, trail[|path|], seg, to)
    ensures IsTrail(heap, from, path + [seg], trail + [to])
  {
    hide Holds;
  }

  lemma {:induction false} LedStep(heap: Heap, opts: Options, from: nat, items: seq<QueueItem>, item: QueueItem,
                                   pushes: seq<QueueItem>)
    requires Led(heap, from, items) && item in items && item.ref in heap
    requires var cs := Children(heap, opts, item, Visible(heap, opts, item));
             |pushes| <= |cs| && pushes == cs[..|pushes|]
    ensures Led(heap, from, items + pushes)
  {
    hide Children, IsTrail, Entries, PathToId, Holds;
    var entries := Visible(heap, opts, item);
    forall i | 0 <= i < |items + pushes|
      ensures IsTrail(heap, from, (items + pushes)[i].path, TrailOf((items + pushes)[i]))
    {
      if i >= |items| {
        var c := pushes[i - |items|];
        assert c in Children(heap, opts, item, entries);
        var k := ChildrenAre(heap, opts, item, entries, c);
        assert entries[k] == Entries(heap[item.ref])[k];
        EntryIsHeld(heap, item.ref, k);
        TrailEnds(heap, from, item);
        TrailGoesOn(heap, from, item.path, TrailOf(item), entries[k].segment, c.ref);
      }
    }
  }

  lemma {:induction false} TrailEnds(heap: Heap, from: nat, item: QueueItem)
    requires IsTrail(heap, from, item.path, TrailOf(item))
    ensures |TrailOf(item)| == |item.path| + 1 && TrailOf(item)[|item.path|] == item.ref
  {
  }

  lemma {:induction false} LedSkip(heap: Heap, from: nat, done: seq<QueueItem>, queue: seq<QueueItem>)
    requires queue != [] && Led(heap, from, done + queue)
    ensures Led(heap, from, done + queue[1..])
  {
    hide IsTrail;
    var all, less := done + queue, done + queue[1..];
    forall i | 0 <= i < |less| ensures IsTrail(heap, from, less[i].path, TrailOf(less[i]))
    {
      assert less[i] == all[if i < |done| then i else i + 1];
    }
  }

  // ---- clean heaps ----

  ghost predicate CleanEntries(entries: seq<Entry>) {
    && (forall i | 0 <= i < |entries| :: CleanSegment(entries[i].segment))
    && (forall i, j | 0 <= i < j < |entries| :: entries[i].segment != entries[j].segment)
  }

  /** The keys of an object are distinct and have no dot or opening bracket. */
  ghost predicate CleanHeap(heap: Heap) {
    forall id | id in heap :: CleanEntries(Entries(heap[id]))
  }

  lemma {:induction false} DistinctIndices(s: seq<string>, i: nat, j: nat)
    requires Distinct(s) && i < j < |s|
    ensures s[i] != s[j]
  {
    var last := |s| - 1;
    if j < last {
      DistinctIndices(s[..last], i, j);
    } else {
      assert s[i] in s[..last];
    }
  }

  lemma {:induction false} DistinctPrefix(s: seq<string>, n: nat)
    requires Distinct(s) && n <= |s|
    ensures Distinct(s[..n])
  {
    if n < |s| {
      DistinctPrefix(s[..|s| - 1], n);
      assert s[..|s| - 1][..n] == s[..n];
    } else {
      assert s[..n] == s;
    }
  }

  lemma {:induction false} DistinctConcat(a: seq<string>, b: seq<string>)
    requires Distinct(a) && Distinct(b) && forall x | x in b :: x !in a
    ensures Distinct(a + b)
  {
    if b == [] {
      assert a + b == a;
    } else {
      assert (a + b)[..|a + b| - 1] == a + b[..|b| - 1];
      DistinctConcat(a, b[..|b| - 1]);
    }
  }

  lemma {:induction false} ChildId(item: QueueItem, e: Entry, f: Entry)
    requires e.item.Ref? && f.item.Ref? && CleanPath(item.path)
    requires CleanSegment(e.segment) && CleanSegment(f.segment) && e.segment != f.segment
    ensures ChildOf(item, e).id != ChildOf(item, f).id
  {
    hide PathToId;
    var p, q := item.path + [e.segment], item.path + [f.segment];
    assert p[|item.path|] != q[|item.path|];
    if PathToId(p) == PathToId(q) {
      IdsTellPathsApart(p, q);
    }
  }

  lemma {:induction false} CleanFront(entries: seq<Entry>)
    requires entries != [] && CleanEntries(entries)
    ensures CleanEntries(entries[..|entries| - 1])
    ensures CleanSegment(entries[|entries| - 1].segment)
    ensures forall i | 0 <= i < |entries| - 1 ::
              CleanSegment(entries[i].segment) && entries[i].segment != entries[|entries| - 1].segment
  {
    var front := entries[..|entries| - 1];
    assert forall i | 0 <= i < |front| :: front[i] == entries[i];
  }

  lemma {:induction false} LastChildIsNew(heap: Heap, opts: Options, item: QueueItem, entries: seq<Entry>)
    requires entries != [] && CleanEntries(entries) && CleanPath(item.path)
    requires IsGraphChild(heap, item, entries[|entries| - 1])
    ensures entries[|entries| - 1].item.Ref?
    ensures ChildOf(item, entries[|entries| - 1]).id
        !in Ids(Children(heap, opts, item, entries[..|entries| - 1]))
  {
    hide CleanPath, ChildOf, IsGraphChild, Expandable, CleanEntries, Children, CleanSegment;
    var last := |entries| - 1;
    var before := Children(heap, opts, item, entries[..last]);
    CleanFront(entries);
    GraphChildIsRef(heap, item, entries[last]);
    forall x | x in Ids(before) ensures x != ChildOf(item, entries[last]).id
    {
      var k :| 0 <= k < |before| && before[k].id == x;
      var i := ChildrenAre(heap, opts, item, entries[..last], before[k]);
      GraphChildIsRef(heap, item, entries[i]);
      ChildId(item, entries[i], entries[last]);
    }
  }

  lemma {:induction false} ChildrenDistinct(heap: Heap, opts: Options, item: QueueItem, entries: seq<Entry>)
    requires CleanEntries(entries) && CleanPath(item.path)
    ensures Distinct(Ids(Children(heap, opts, item, entries)))
  {
    hide CleanPath, ChildOf, IsGraphChild, Expandable, CleanEntries;
    if entries != [] {
      var last := |entries| - 1;
      var before := Children(heap, opts, item, entries[..last]);
      CleanFront(entries);
      ChildrenDistinct(heap, opts, item, entries[..last]);
      if IsGraphChild(heap, item, entries[last]) {
        LastChildIsNew(heap, opts, item, entries);
        var c := ChildOf(item, entries[last]);
        assert Ids(before + [c]) == Ids(before) + [c.id];
        assert Ids(before + [c])[..|before|] == Ids(before);
      }
      assert before + [] == before;
    }
  }

  lemma {:induction false} GraphChildIsRef(heap: Heap, item: QueueItem, e: Entry)
    requires IsGraphChild(heap, item, e)
    ensures e.item.Ref?
  {
  }

  lemma {:induction false} VisibleIsClean(heap: Heap, opts: Options, item: QueueItem)
    requires CleanHeap(heap) && item.ref in heap
    ensures CleanEntries(Visible(heap, opts, item))
  {
    hide Entries;
    assert CleanEntries(Entries(heap[item.ref]));
  }

  // ---- the tree invariant ----

  /** Edge `i` leads to the item after it, from a container finished before. */
  ghost predicate GoodEdge(heap: Heap, opts: Options, edges: seq<Edge>, done: seq<QueueItem>, used: seq<nat>,
                           all: seq<QueueItem>, i: nat)
    requires |done| == |used| && AllSound(heap, opts, done) && i < |edges| == |all| - 1
  {
    && edges[i].target == all[i + 1].id
    && exists j :: 0 <= j < |done| && j <= i && edges[i].source == done[j].id
                && all[i + 1] in PushesOf(heap, opts, done, used, j)
  }

  ghost predicate After(all: seq<QueueItem>, j: nat, c: QueueItem) {
    exists k :: j < k < |all| && all[k] == c
  }

  /** All items ever pushed, in order, have ids of their own; each but the first came
      from one finished container before it, and its edge says so. */
  ghost predicate Tree(heap: Heap, opts: Options, edges: seq<Edge>, done: seq<QueueItem>, used: seq<nat>,
                       all: seq<QueueItem>)
    requires |done| == |used| && AllSound(heap, opts, done)
  {
    && Distinct(Ids(all))
    && (forall i | 0 <= i < |all| :: CleanPath(all[i].path))
    && |edges| == |all| - 1
    && (forall i | 0 <= i < |edges| :: GoodEdge(heap, opts, edges, done, used, all, i))
    && (forall j, c | 0 <= j < |done| && c in PushesOf(heap, opts, done, used, j) :: After(all, j, c))
  }

  /** A container met for the first time pushes only ids that are new. */
  lemma {:induction false} PushIsNew(heap: Heap, opts: Options, edges: seq<Edge>, done: seq<QueueItem>, used: seq<nat>,
                                     queue: seq<QueueItem>, c: QueueItem, e: Entry, k: nat)
    requires |done| == |used| && AllSound(heap, opts, done) && queue != []
    requires AllFresh(heap, done) && AllFresh(heap, queue) && (done + queue)[0].path == []
    requires Tree(heap, opts, edges, done, used, done + queue)
    requires e.item.Ref? && c == ChildOf(queue[0], e) && CleanSegment(e.segment)
    requires k < |done + queue|
    ensures c.id != (done + queue)[k].id
  {
    hide Expand, Visible, PathToId, Distinct;
    var all := done + queue;
    var item := queue[0];
    assert all[|done|] == item;
    assert CleanPath(item.path) && CleanPath(c.path);
    if c.id == all[k].id {
      FreshId(heap, all[k]);
      IdsTellPathsApart(c.path, all[k].path);
      if k > 0 {
          assert GoodEdge(heap, opts, edges, done, used, all, k - 1);
        var j :| 0 <= j < |done| && j <= k - 1 && all[k] in PushesOf(heap, opts, done, used, j);
        var f := PushedFrom(heap, opts, done[j], used[j], all[k]);
        assert c.path[..|c.path| - 1] == item.path;
        assert all[k].path[..|all[k].path| - 1] == done[j].path;
        assert all[j] == done[j];
        FreshId(heap, item);
        FreshId(heap, done[j]);
        DistinctIndices(Ids(all), j, |done|);
      }
    }
  }

  lemma {:induction false} FreshId(heap: Heap, item: QueueItem)
    requires Fresh(heap, item)
    ensures item.id == PathToId(item.path)
  {
  }

  lemma {:induction false} PushedFrom(heap: Heap, opts: Options, item: QueueItem, used: nat, c: QueueItem)
    returns (e: Entry)
    requires Sound(heap, opts, item) && c in Expand(heap, opts, item, Visible(heap, opts, item), used).pushes
    ensures e in Visible(heap, opts, item) && IsGraphChild(heap, item, e) && c == ChildOf(item, e)
  {
    hide Expand, Visible, IsGraphChild, Children;
    ExpandPushes(heap, opts, item, Visible(heap, opts, item), used);
    assert c in Children(heap, opts, item, Visible(heap, opts, item));
    var i := ChildrenAre(heap, opts, item, Visible(heap, opts, item), c);
    e := Visible(heap, opts, item)[i];
  }

  lemma {:induction false} PushesDistinct(heap: Heap, opts: Options, item: QueueItem, used: nat)
    requires CleanHeap(heap) && Sound(heap, opts, item) && CleanPath(item.path)
    ensures Distinct(Ids(Expand(heap, opts, item, Visible(heap, opts, item), used).pushes))
  {
    hide Expand, Visible, Children, CleanHeap, CleanPath, Distinct;
    var entries := Visible(heap, opts, item);
    VisibleIsClean(heap, opts, item);
    ChildrenDistinct(heap, opts, item, entries);
    ExpandPushes(heap, opts, item, entries, used);
    var cs, x := Children(heap, opts, item, entries), Expand(heap, opts, item, entries, used);
    DistinctPrefix(Ids(cs), |x.pushes|);
    assert Ids(cs)[..|x.pushes|] == Ids(x.pushes);
  }

  lemma {:induction false} TreeStep(heap: Heap, opts: Options, edges: seq<Edge>, done: seq<QueueItem>, used: seq<nat>,
                                    queue: seq<QueueItem>, base: nat)
    requires CleanHeap(heap) && |done| == |used| && AllSound(heap, opts, done)
    requires queue != [] && Sound(heap, opts, queue[0])
    requires AllFresh(heap, done) && AllFresh(heap, queue) && (done + queue)[0].path == []
    requires Tree(heap, opts, edges, done, used, done + queue)
    ensures AllSound(heap, opts, done + [queue[0]])
    ensures var x := Expand(heap, opts, queue[0], Visible(heap, opts, queue[0]), base);
            Tree(heap, opts, edges + EdgesTo(queue[0].id, x.pushes), done + [queue[0]], used + [base],
                 done + queue + x.pushes)
  {
    hide Expand, Visible, Distinct, CleanPath, CleanHeap, PushesOf, Fresh, GoodEdge, After;
    var item := queue[0];
    var x := Expand(heap, opts, item, Visible(heap, opts, item), base);
    var all := done + queue;
    assert forall i | 0 <= i < |all| :: CleanPath(all[i].path);
    TreeIdsStep(heap, opts, edges, done, used, queue, base);
    TreeEdgesStep(heap, opts, edges, done, used, queue, base);
    forall i | 0 <= i < |all + x.pushes| ensures CleanPath((all + x.pushes)[i].path)
    {
      if i >= |all| {
        assert (all + x.pushes)[i] == x.pushes[i - |all|];
      }
    }
  }

  lemma {:induction false} TreeIdsStep(heap: Heap, opts: Options, edges: seq<Edge>, done: seq<QueueItem>, used: seq<nat>,
                                       queue: seq<QueueItem>, base: nat)
    requires CleanHeap(heap) && |done| == |used| && AllSound(heap, opts, done)
    requires queue != [] && Sound(heap, opts, queue[0])
    requires AllFresh(heap, done) && AllFresh(heap, queue) && (done + queue)[0].path == []
    requires Tree(heap, opts, edges, done, used, done + queue)
    ensures var x := Expand(heap, opts, queue[0], Visible(heap, opts, queue[0]), base);
            && Distinct(Ids(done + queue + x.pushes))
            && forall i | 0 <= i < |x.pushes| :: CleanPath(x.pushes[i].path)
  {
    hide Expand, Visible, CleanHeap, Distinct, IsGraphChild;
    var item := queue[0];
    var x := Expand(heap, opts, item, Visible(heap, opts, item), base);
    var all := done + queue;
    assert all[|done|] == item;
    assert CleanPath(item.path);
    PushesDistinct(heap, opts, item, base);
    VisibleIsClean(heap, opts, item);
    forall i | 0 <= i < |x.pushes|
      ensures CleanPath(x.pushes[i].path) && x.pushes[i].id !in Ids(all)
    {
      var c := x.pushes[i];
      var e := PushedFrom(heap, opts, item, base, c);
      GraphChildIsRef(heap, item, e);
      assert CleanSegment(e.segment);
      forall k | 0 <= k < |all| ensures c.id != all[k].id
      {
        PushIsNew(heap, opts, edges, done, used, queue, c, e, k);
      }
    }
    IdsConcat(all, x.pushes);
    DistinctConcat(Ids(all), Ids(x.pushes));
  }

  lemma {:induction false} TreeEdgesStep(heap: Heap, opts: Options, edges: seq<Edge>, done: seq<QueueItem>, used: seq<nat>,
                                         queue: seq<QueueItem>, base: nat)
    requires |done| == |used| && AllSound(heap, opts, done) && queue != [] && Sound(heap, opts, queue[0])
    requires Tree(heap, opts, edges, done, used, done + queue)
    ensures AllSound(heap, opts, done + [queue[0]])
    ensures var x := Expand(heap, opts, queue[0], Visible(heap, opts, queue[0]), base);
            var all := done + queue + x.pushes;
            var edges', done', used' := edges + EdgesTo(queue[0].id, x.pushes), done + [queue[0]], used + [base];
            && |edges'| == |all| - 1
            && (forall i | 0 <= i < |edges'| :: GoodEdge(heap, opts, edges', done', used', all, i))
            && (forall j, c | 0 <= j < |done'| && c in PushesOf(heap, opts, done', used', j) :: After(all, j, c))
  {
    hide Expand, Visible, Distinct, CleanPath;
    var item := queue[0];
    var x := Expand(heap, opts, item, Visible(heap, opts, item), base);
    var all := done + queue;
    var all' := all + x.pushes;
    var edges', done', used' := edges + EdgesTo(item.id, x.pushes), done + [item], used + [base];
    assert PushesOf(heap, opts, done', used', |done|) == x.pushes;
    assert |edges'| == |all'| - 1;
    forall i | 0 <= i < |edges'|
      ensures GoodEdge(heap, opts, edges', done', used', all', i)
    {
      if i < |edges| {
        assert GoodEdge(heap, opts, edges, done, used, all, i);
        assert edges'[i] == edges[i] && all'[i + 1] == all[i + 1];
        var j :| 0 <= j < |done| && j <= i && edges[i].source == done[j].id
              && all[i + 1] in PushesOf(heap, opts, done, used, j);
        assert PushesOf(heap, opts, done', used', j) == PushesOf(heap, opts, done, used, j);
      } else {
        assert edges'[i] == Edge(item.id, x.pushes[i - |edges|].id);
        assert all'[i + 1] == x.pushes[i - |edges|];
        assert all'[i + 1] in PushesOf(heap, opts, done', used', |done|);
      }
    }
    forall j, c | 0 <= j < |done'| && c in PushesOf(heap, opts, done', used', j)
      ensures After(all', j, c)
    {
      if j < |done| {
        assert c in PushesOf(heap, opts, done, used, j);
        assert After(all, j, c);
        var k :| j < k < |all| && all[k] == c;
        assert all'[k] == c;
      } else {
        var i :| 0 <= i < |x.pushes| && x.pushes[i] == c;
        assert all'[|all| + i] == c;
      }
    }
  }
}
