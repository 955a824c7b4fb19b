/** Lossless or marked: when `safeSerialize` hands a value through unchanged. */
module Lossless {
  import opened Values
  import opened Serialize

  // ---- heaps of plain data ----

  predicate DistinctNames(fields: seq<(string, HeapValue)>) {
    fields == [] ||
    var last := |fields| - 1;
    && DistinctNames(fields[..last])
    && fields[last].0 != "__proto__"
    && forall i | 0 <= i < last :: fields[i].0 != fields[last].0
  }

  /** No object has a key twice, or the one key that assignment does not create;
      and errors, whose copy is lossy by design, are left aside. */
  ghost predicate PlainHeap(heap: Heap) {
    forall id ::
      && !heap(id).ErrorCell?
      && (heap(id).ObjectCell? ==> DistinctNames(heap(id).fields))
  }

  // ---- the tree that a heap value stands for ----

  /** The leaf itself, and a big integer as its digits. Functions and symbols are no data. */
  predicate IsLeaf(p: Primitive, t: Value) {
    match p
    case Plain(Nothing) => t == Undef
    case Plain(Null) => t == Value.Null
    case Plain(Bool(b)) => t == Value.Bool(b)
    case Plain(Num(n)) => t == Value.Num(n)
    case Plain(Str(s)) => t == Value.Str(s)
    case BigInt(digits) => t == Value.Str(digits)
    case Function(_) => false
    case Symbol(_) => false
  }

  predicate IsLong(p: Primitive) {
    p.Plain? && p.value.Str? && |p.value.s| > 20000
  }

  /** A leaf is copied as it is, or marked: exactly the functions, symbols and long strings
      are. */
  lemma {:induction false} LeafIsCopiedOrMarked(p: Primitive)
    ensures IsMarker(NormalizePrimitive(p)) <==> p.Function? || p.Symbol? || IsLong(p)
    ensures HasMarker(NormalizePrimitive(p)) <==> IsMarker(NormalizePrimitive(p))
    ensures !IsMarker(NormalizePrimitive(p)) ==> IsLeaf(p, NormalizePrimitive(p))
    ensures !IsLong(p) ==> forall t | IsLeaf(p, t) :: t == NormalizePrimitive(p)
  {
  }

  /** `t` is the tree that `v` unfolds to, with nothing left out: dates as their
      ISO text, big integers as their digits. */
  ghost predicate Represents(heap: Heap, v: HeapValue, t: Value)
    decreases t
  {
    match v
    case Prim(p) => IsLeaf(p, t)
    case Ref(id) =>
      match heap(id)
      case ArrayCell(items) =>
        t.Arr? && |t.items| == |items| && forall i | 0 <= i < |items| :: Represents(heap, items[i], t.items[i])
      case ObjectCell(fields) =>
        && t.Obj?
        && (forall k :: k in t.fields <==> exists i :: 0 <= i < |fields| && fields[i].0 == k)
        && (forall i | 0 <= i < |fields| && fields[i].0 in t.fields ::
              Represents(heap, fields[i].1, t.fields[fields[i].0]))
      case DateCell(iso) => t == Value.Str(iso)
      case _ => false
  }

  /** The containers met in unfolding `v` to `t`, as often as they are met. */
  ghost function Visited(heap: Heap, v: HeapValue, t: Value): multiset<nat>
    decreases t, 2
  {
    if v.Prim? then multiset{}
    else
      match heap(v.id)
      case ArrayCell(items) =>
        if t.Arr? && |t.items| == |items| then multiset{v.id} + VisitedItems(heap, items, t, |items|) else multiset{}
      case ObjectCell(fields) =>
        if t.Obj? then multiset{v.id} + VisitedFields(heap, fields, t, |fields|) else multiset{}
      case _ => multiset{}
  }

  ghost function VisitedItems(heap: Heap, items: seq<HeapValue>, t: Value, n: nat): multiset<nat>
    requires t.Arr? && n <= |items| == |t.items|
    decreases t, 1, n
  {
    if n == 0 then multiset{}
    else VisitedItems(heap, items, t, n - 1) + Visited(heap, items[n - 1], t.items[n - 1])
  }

  ghost function VisitedFields(heap: Heap, fields: seq<(string, HeapValue)>, t: Value, n: nat): multiset<nat>
    requires t.Obj? && n <= |fields|
    decreases t, 1, n
  {
    if n == 0 then multiset{}
    else VisitedFields(heap, fields, t, n - 1) + VisitedField(heap, fields[n - 1], t)
  }

  ghost function VisitedField(heap: Heap, field: (string, HeapValue), t: Value): multiset<nat>
    requires t.Obj?
    decreases t, 0
  {
    if field.0 in t.fields then Visited(heap, field.1, t.fields[field.0]) else multiset{}
  }

  /** The tree keeps to the caps: every object, dates included, is met at a depth below `d`,
      and no string is too long. */
  ghost predicate Within(heap: Heap, v: HeapValue, t: Value, d: int)
    decreases t
  {
    if v.Prim? then !IsLong(v.primitive)
    else
      && d > 0
      && (heap(v.id).ArrayCell? && t.Arr? && |t.items| == |heap(v.id).items| ==>
            forall i | 0 <= i < |t.items| :: Within(heap, heap(v.id).items[i], t.items[i], d - 1))
      && (heap(v.id).ObjectCell? && t.Obj? ==>
            forall i | 0 <= i < |heap(v.id).fields| && heap(v.id).fields[i].0 in t.fields ::
              Within(heap, heap(v.id).fields[i].1, t.fields[heap(v.id).fields[i].0], d - 1))
  }

  /** No container is met twice: nothing is shared and nothing is cyclic. */
  ghost predicate Once(m: multiset<nat>) {
    forall id :: m[id] <= 1
  }

  ghost function Members(m: multiset<nat>): set<nat> {
    set id | id in m
  }

  // ---- no marker: nothing was lost ----

  /** The objects that became seen between `a` and `b`, each once. */
  ghost function New(a: set<nat>, b: set<nat>): multiset<nat> {
    multiset(b - a)
  }

  lemma {:induction false} NewInSteps(a: set<nat>, b: set<nat>, c: set<nat>)
    requires a <= b <= c
    ensures New(a, c) == New(a, b) + New(b, c)
  {
    assert c - a == (b - a) + (c - b);
  }

  /** A marker-free copy is the whole tree, no deeper than the cap allows, and every
      container of it was met for the first and only time. */
  lemma {:induction false} UnmarkedIsWhole(heap: Heap, v: HeapValue, seen: set<nat>, depth: nat)
    requires PlainHeap(heap) && depth <= MAX_SERIALIZE_DEPTH
    requires !HasMarker(Walk(heap, v, seen, depth).out)
    ensures var r := Walk(heap, v, seen, depth);
            && Represents(heap, v, r.out)
            && Within(heap, v, r.out, MAX_SERIALIZE_DEPTH - depth)
            && seen <= r.seen
            && Visited(heap, v, r.out) == New(seen, r.seen)
    decreases MAX_SERIALIZE_DEPTH - depth, 1
  {
    hide HasMarker, Visited, Represents, Within, PlainHeap;
    UnmarkedItself(Walk(heap, v, seen, depth).out);
    if v.Prim? {
      UnmarkedPrimitive(heap, v, MAX_SERIALIZE_DEPTH - depth);
    } else if depth == MAX_SERIALIZE_DEPTH || v.id in seen || heap(v.id).MapCell? || heap(v.id).SetCell? {
      CutIsMarked(heap, v.id, seen, depth);
    } else if heap(v.id).DateCell? {
      UnmarkedDate(heap, v.id, MAX_SERIALIZE_DEPTH - depth);
    } else if heap(v.id).ArrayCell? {
      UnmarkedArray(heap, v.id, seen, depth);
    } else {
      NoErrors(heap, v.id);
      UnmarkedObject(heap, v.id, seen, depth);
    }
  }

  lemma {:induction false} UnmarkedItself(t: Value)
    requires !HasMarker(t)
    ensures !IsMarker(t)
    ensures t.Arr? ==> forall i | 0 <= i < |t.items| :: !HasMarker(t.items[i])
    ensures t.Obj? ==> forall k | k in t.fields :: !HasMarker(t.fields[k])
  {
  }

  lemma {:induction false} NoErrors(heap: Heap, id: nat)
    requires PlainHeap(heap)
    ensures !heap(id).ErrorCell?
    ensures heap(id).ObjectCell? ==> DistinctNames(heap(id).fields)
  {
  }

  lemma {:induction false} MarkerIsMarker(originalType: string, preview: string, size: Value)
    ensures IsMarker(Marker(originalType, preview, size))
  {
  }

  lemma {:induction false} CutIsMarked(heap: Heap, id: nat, seen: set<nat>, depth: nat)
    requires depth <= MAX_SERIALIZE_DEPTH
    requires depth == MAX_SERIALIZE_DEPTH || id in seen || heap(id).MapCell? || heap(id).SetCell?
    ensures IsMarker(Walk(heap, Ref(id), seen, depth).out)
  {
    hide Marker, IsMarker, Shape;
    var cell := heap(id);
    MarkerIsMarker("max-depth-exceeded", Shape(cell), Undef);
    MarkerIsMarker("circular-reference", Shape(cell), Undef);
    if cell.MapCell? {
      MarkerIsMarker("Map", "Map(" + Pointer.Decimal(cell.size) + ")", Undef);
    } else if cell.SetCell? {
      MarkerIsMarker("Set", "Set(" + Pointer.Decimal(cell.size) + ")", Undef);
    }
  }

  lemma {:induction false} UnmarkedPrimitive(heap: Heap, v: HeapValue, d: nat)
    requires v.Prim? && !IsMarker(NormalizePrimitive(v.primitive))
    ensures Represents(heap, v, NormalizePrimitive(v.primitive))
    ensures Within(heap, v, NormalizePrimitive(v.primitive), d)
    ensures Visited(heap, v, NormalizePrimitive(v.primitive)) == multiset{}
  {
    LeafIsCopiedOrMarked(v.primitive);
  }

  lemma {:induction false} UnmarkedDate(heap: Heap, id: nat, d: nat)
    requires heap(id).DateCell?
    ensures Represents(heap, Ref(id), Value.Str(heap(id).iso))
    ensures d > 0 ==> Within(heap, Ref(id), Value.Str(heap(id).iso), d)
    ensures Visited(heap, Ref(id), Value.Str(heap(id).iso)) == multiset{}
  {
  }

  lemma {:induction false} WalkContainer(heap: Heap, id: nat, seen: set<nat>, depth: nat)
    requires depth < MAX_SERIALIZE_DEPTH && id !in seen
    ensures heap(id).ArrayCell? ==>
              var r := WalkItems(heap, heap(id).items, seen + {id}, depth + 1);
              Walk(heap, Ref(id), seen, depth) == Walked(Arr(r.items), r.seen)
    ensures heap(id).ObjectCell? ==>
              var r := WalkFields(heap, heap(id).fields, map[], false, seen + {id}, depth + 1);
              Walk(heap, Ref(id), seen, depth) == Walked(Obj(r.fields), r.seen)
  {
    hide WalkItems, WalkFields, NormalizePrimitive, Marker, Shape;
  }

  ghost predicate ItemsWhole(heap: Heap, items: seq<HeapValue>, ts: seq<Value>, d: int) {
    |ts| == |items| &&
    forall i | 0 <= i < |items| :: Represents(heap, items[i], ts[i]) && Within(heap, items[i], ts[i], d)
  }

  lemma {:induction false} ArrayWhole(heap: Heap, id: nat, ts: seq<Value>, d: int)
    requires heap(id).ArrayCell? && d > 0 && ItemsWhole(heap, heap(id).items, ts, d - 1)
    ensures Represents(heap, Ref(id), Arr(ts)) && Within(heap, Ref(id), Arr(ts), d)
    ensures Visited(heap, Ref(id), Arr(ts)) == multiset{id} + VisitedItems(heap, heap(id).items, Arr(ts), |ts|)
  {
    hide VisitedItems;
  }

  lemma {:induction false} UnmarkedArray(heap: Heap, id: nat, seen: set<nat>, depth: nat)
    requires PlainHeap(heap) && depth < MAX_SERIALIZE_DEPTH && id !in seen && heap(id).ArrayCell?
    requires !HasMarker(Walk(heap, Ref(id), seen, depth).out)
    ensures var r := Walk(heap, Ref(id), seen, depth);
            && Represents(heap, Ref(id), r.out)
            && Within(heap, Ref(id), r.out, MAX_SERIALIZE_DEPTH - depth)
            && seen <= r.seen
            && Visited(heap, Ref(id), r.out) == New(seen, r.seen)
    decreases MAX_SERIALIZE_DEPTH - depth, 0
  {
    hide HasMarker, Walk, WalkItems, PlainHeap, ItemsWhole, IsMarker, Represents, Within, Visited, VisitedItems;
    WalkContainer(heap, id, seen, depth);
    var items := heap(id).items;
    var r := WalkItems(heap, items, seen + {id}, depth + 1);
    UnmarkedItself(Arr(r.items));
    UnmarkedItems(heap, items, seen + {id}, depth + 1, r.items);
    ArrayWhole(heap, id, r.items, MAX_SERIALIZE_DEPTH - depth);
    NewInSteps(seen, seen + {id}, r.seen);
    assert New(seen, seen + {id}) == multiset{id};
  }

  lemma {:induction false} UnmarkedItems(heap: Heap, items: seq<HeapValue>, seen: set<nat>, depth: nat, ts: seq<Value>)
    requires PlainHeap(heap) && depth <= MAX_SERIALIZE_DEPTH
    requires WalkItems(heap, items, seen, depth).items == ts
    requires forall i | 0 <= i < |ts| :: !HasMarker(ts[i])
    ensures ItemsWhole(heap, items, ts, MAX_SERIALIZE_DEPTH - depth)
    ensures seen <= WalkItems(heap, items, seen, depth).seen
    ensures VisitedItems(heap, items, Arr(ts), |items|) == New(seen, WalkItems(heap, items, seen, depth).seen)
    decreases MAX_SERIALIZE_DEPTH - depth, 2 + |items|
  {
    hide HasMarker, Walk, Visited, Represents, Within, PlainHeap;
    if items == [] {
      assert New(seen, seen) == multiset{};
    } else {
      var last := |items| - 1;
      var before := WalkItems(heap, items[..last], seen, depth);
      var item := Walk(heap, items[last], before.seen, depth);
      assert ts == before.items + [item.out] && ts[last] == item.out;
      UnmarkedItems(heap, items[..last], seen, depth, ts[..last]);
      UnmarkedIsWhole(heap, items[last], before.seen, depth);
      NewInSteps(seen, before.seen, item.seen);
      VisitedPrefix(heap, items, ts, last);
    }
  }

  lemma {:induction false} VisitedPrefix(heap: Heap, items: seq<HeapValue>, ts: seq<Value>, n: nat)
    requires n < |items| == |ts|
    ensures forall j | 0 <= j <= n ::
              VisitedItems(heap, items[..n], Arr(ts[..n]), j) == VisitedItems(heap, items, Arr(ts), j)
  {
    hide Visited;
    for j := 0 to n
      invariant forall i | 0 <= i <= j ::
                  VisitedItems(heap, items[..n], Arr(ts[..n]), i) == VisitedItems(heap, items, Arr(ts), i)
    {
    }
  }

  ghost predicate FieldsWhole(heap: Heap, fields: seq<(string, HeapValue)>, m: map<string, Value>, d: int) {
    forall i | 0 <= i < |fields| ::
      && fields[i].0 in m
      && Represents(heap, fields[i].1, m[fields[i].0])
      && Within(heap, fields[i].1, m[fields[i].0], d)
  }

  lemma {:induction false} ObjectWhole(heap: Heap, id: nat, m: map<string, Value>, d: int)
    requires heap(id).ObjectCell? && d > 0 && FieldsWhole(heap, heap(id).fields, m, d - 1)
    requires forall k | k in m :: exists i :: 0 <= i < |heap(id).fields| && heap(id).fields[i].0 == k
    ensures Represents(heap, Ref(id), Obj(m)) && Within(heap, Ref(id), Obj(m), d)
    ensures Visited(heap, Ref(id), Obj(m))
         == multiset{id} + VisitedFields(heap, heap(id).fields, Obj(m), |heap(id).fields|)
  {
    hide VisitedFields;
  }

  lemma {:induction false} UnmarkedObject(heap: Heap, id: nat, seen: set<nat>, depth: nat)
    requires PlainHeap(heap) && depth < MAX_SERIALIZE_DEPTH && id !in seen && heap(id).ObjectCell?
    requires DistinctNames(heap(id).fields)
    requires !HasMarker(Walk(heap, Ref(id), seen, depth).out)
    ensures var r := Walk(heap, Ref(id), seen, depth);
            && Represents(heap, Ref(id), r.out)
            && Within(heap, Ref(id), r.out, MAX_SERIALIZE_DEPTH - depth)
            && seen <= r.seen
            && Visited(heap, Ref(id), r.out) == New(seen, r.seen)
    decreases MAX_SERIALIZE_DEPTH - depth, 0
  {
    hide HasMarker, Walk, WalkFields, PlainHeap, DistinctNames, FieldsWhole, IsMarker, Represents, Within, Visited,
         VisitedFields;
    WalkContainer(heap, id, seen, depth);
    var fields := heap(id).fields;
    var r := WalkFields(heap, fields, map[], false, seen + {id}, depth + 1);
    UnmarkedItself(Obj(r.fields));
    FieldKeys(heap, fields, seen + {id}, depth + 1);
    UnmarkedFields(heap, fields, seen + {id}, depth + 1, r.fields);
    ObjectWhole(heap, id, r.fields, MAX_SERIALIZE_DEPTH - depth);
    NewInSteps(seen, seen + {id}, r.seen);
    assert New(seen, seen + {id}) == multiset{id};
  }

  /** `m` holds what the walk over `fields` produced, and maybe more. */
  lemma {:induction false} UnmarkedFields(heap: Heap, fields: seq<(string, HeapValue)>, seen: set<nat>, depth: nat,
                                          m: map<string, Value>)
    requires PlainHeap(heap) && depth <= MAX_SERIALIZE_DEPTH && DistinctNames(fields)
    requires var r := WalkFields(heap, fields, map[], false, seen, depth);
             forall k | k in r.fields :: k in m && m[k] == r.fields[k] && !HasMarker(m[k])
    ensures var r := WalkFields(heap, fields, map[], false, seen, depth);
            && seen <= r.seen
            && VisitedFields(heap, fields, Obj(m), |fields|) == New(seen, r.seen)
    ensures FieldsWhole(heap, fields, m, MAX_SERIALIZE_DEPTH - depth)
    decreases MAX_SERIALIZE_DEPTH - depth, 2 + |fields|
  {
    hide HasMarker, Walk, Visited, VisitedFields, Represents, Within, PlainHeap, WalkFields, DistinctNames, FieldsWhole;
    if fields == [] {
      NoFieldsVisited(heap, fields, seen, depth, m);
    } else {
      var last := |fields| - 1;
      var before := WalkFields(heap, fields[..last], map[], false, seen, depth);
      var field := Walk(heap, fields[last].1, before.seen, depth);
      var r := WalkFields(heap, fields, map[], false, seen, depth);
      LastField(heap, fields, seen, depth);
      assert r.fields[fields[last].0] == field.out;
      assert m[fields[last].0] == field.out;
      UnmarkedFields(heap, fields[..last], seen, depth, m);
      UnmarkedIsWhole(heap, fields[last].1, before.seen, depth);
      NewInSteps(seen, before.seen, field.seen);
      PushField(heap, fields, m, MAX_SERIALIZE_DEPTH - depth);
    }
  }

  lemma {:induction false} NoFieldsVisited(heap: Heap, fields: seq<(string, HeapValue)>, seen: set<nat>, depth: nat,
                                           m: map<string, Value>)
    requires depth <= MAX_SERIALIZE_DEPTH && fields == []
    ensures WalkFields(heap, fields, map[], false, seen, depth) == WalkedFields(map[], seen)
    ensures VisitedFields(heap, fields, Obj(m), 0) == New(seen, seen)
    ensures FieldsWhole(heap, fields, m, MAX_SERIALIZE_DEPTH - depth)
  {
  }

  lemma {:induction false} PushField(heap: Heap, fields: seq<(string, HeapValue)>, m: map<string, Value>, d: int)
    requires fields != [] && fields[|fields| - 1].0 in m
    requires FieldsWhole(heap, fields[..|fields| - 1], m, d)
    requires Represents(heap, fields[|fields| - 1].1, m[fields[|fields| - 1].0])
    requires Within(heap, fields[|fields| - 1].1, m[fields[|fields| - 1].0], d)
    ensures FieldsWhole(heap, fields, m, d)
    ensures VisitedFields(heap, fields, Obj(m), |fields|)
         == VisitedFields(heap, fields[..|fields| - 1], Obj(m), |fields| - 1)
          + Visited(heap, fields[|fields| - 1].1, m[fields[|fields| - 1].0])
  {
    hide Represents, Within, Visited;
    var last := |fields| - 1;
    forall i | 0 <= i < |fields|
      ensures fields[i].0 in m && Represents(heap, fields[i].1, m[fields[i].0])
           && Within(heap, fields[i].1, m[fields[i].0], d)
    {
      if i < last {
        assert fields[..last][i] == fields[i];
      }
    }
    VisitedFieldsPrefix(heap, fields, Obj(m), last);
  }

  lemma {:induction false} LastField(heap: Heap, fields: seq<(string, HeapValue)>, seen: set<nat>, depth: nat)
    requires fields != [] && depth <= MAX_SERIALIZE_DEPTH && DistinctNames(fields)
    ensures var last := |fields| - 1;
            var before := WalkFields(heap, fields[..last], map[], false, seen, depth);
            var field := Walk(heap, fields[last].1, before.seen, depth);
            && DistinctNames(fields[..last])
            && fields[last].0 !in before.fields
            && WalkFields(heap, fields, map[], false, seen, depth)
            == WalkedFields(before.fields[fields[last].0 := field.out], field.seen)
  {
    hide Walk;
    FieldKeys(heap, fields[..|fields| - 1], seen, depth);
  }

  lemma {:induction false} FieldKeys(heap: Heap, fields: seq<(string, HeapValue)>, seen: set<nat>, depth: nat)
    requires depth <= MAX_SERIALIZE_DEPTH && DistinctNames(fields)
    ensures var r := WalkFields(heap, fields, map[], false, seen, depth);
            && (forall k | k in r.fields :: exists i :: 0 <= i < |fields| && fields[i].0 == k)
            && (forall i | 0 <= i < |fields| :: fields[i].0 in r.fields)
    decreases |fields|
  {
    hide Walk;
    if fields != [] {
      FieldKeys(heap, fields[..|fields| - 1], seen, depth);
    }
  }

  lemma {:induction false} VisitedFieldsPrefix(heap: Heap, fields: seq<(string, HeapValue)>, t: Value, n: nat)
    requires n < |fields| && t.Obj?
    ensures forall j | 0 <= j <= n ::
              VisitedFields(heap, fields[..n], t, j) == VisitedFields(heap, fields, t, j)
  {
    hide VisitedField;
    for j := 0 to n
      invariant forall i | 0 <= i <= j ::
                  VisitedFields(heap, fields[..n], t, i) == VisitedFields(heap, fields, t, i)
    {
    }
  }

  // ---- a tree without repetitions: nothing is lost ----

  lemma {:induction false} OncePart(a: multiset<nat>, b: multiset<nat>)
    requires Once(a + b)
    ensures Once(a) && Once(b) && Members(a) !! Members(b)
    ensures Members(a + b) == Members(a) + Members(b)
  {
    forall id ensures a[id] <= 1 && b[id] <= 1 && !(id in Members(a) && id in Members(b))
    {
      assert (a + b)[id] <= 1;
    }
  }

  /** Dates are copied without being remembered. */
  predicate DatesUnseen(heap: Heap, seen: set<nat>) {
    forall id | id in seen :: !heap(id).DateCell?
  }

  lemma {:induction false} VisitedAreContainers(heap: Heap, v: HeapValue, t: Value)
    ensures DatesUnseen(heap, Members(Visited(heap, v, t)))
    decreases t, 2
  {
    hide VisitedItems, VisitedFields;
    if v.Ref? {
      if heap(v.id).ArrayCell? && t.Arr? && |t.items| == |heap(v.id).items| {
        ItemsAreContainers(heap, heap(v.id).items, t, |t.items|);
      } else if heap(v.id).ObjectCell? && t.Obj? {
        FieldsAreContainers(heap, heap(v.id).fields, t, |heap(v.id).fields|);
      }
    }
  }

  lemma {:induction false} ItemsAreContainers(heap: Heap, items: seq<HeapValue>, t: Value, n: nat)
    requires t.Arr? && n <= |items| == |t.items|
    ensures DatesUnseen(heap, Members(VisitedItems(heap, items, t, n)))
    decreases t, 1, n
  {
    hide Visited;
    if n > 0 {
      ItemsAreContainers(heap, items, t, n - 1);
      VisitedAreContainers(heap, items[n - 1], t.items[n - 1]);
    }
  }

  lemma {:induction false} FieldsAreContainers(heap: Heap, fields: seq<(string, HeapValue)>, t: Value, n: nat)
    requires t.Obj? && n <= |fields|
    ensures DatesUnseen(heap, Members(VisitedFields(heap, fields, t, n)))
    decreases t, 1, n
  {
    hide Visited;
    if n > 0 {
      FieldsAreContainers(heap, fields, t, n - 1);
      if fields[n - 1].0 in t.fields {
        VisitedAreContainers(heap, fields[n - 1].1, t.fields[fields[n - 1].0]);
      }
    }
  }

  /** A tree in which no object occurs twice and none was met before, and which is no
      deeper than the cap, is copied as it is. */
  lemma {:induction false} TreeIsCopied(heap: Heap, v: HeapValue, t: Value, seen: set<nat>, depth: nat)
    requires PlainHeap(heap) && depth <= MAX_SERIALIZE_DEPTH && DatesUnseen(heap, seen)
    requires Represents(heap, v, t) && Within(heap, v, t, MAX_SERIALIZE_DEPTH - depth)
    requires Once(Visited(heap, v, t)) && Members(Visited(heap, v, t)) !! seen
    ensures Walk(heap, v, seen, depth) == Walked(t, seen + Members(Visited(heap, v, t)))
    decreases MAX_SERIALIZE_DEPTH - depth, 1
  {
    hide PlainHeap, Once, WalkItems, WalkFields, NormalizePrimitive, Marker, Shape, VisitedItems, VisitedFields,
         DistinctNames, IsMarker;
    if v.Prim? {
      LeafIsCopiedOrMarked(v.primitive);
      assert seen + Members(multiset{}) == seen;
    } else if heap(v.id).DateCell? {
      assert seen + Members(multiset{}) == seen;
    } else if heap(v.id).ArrayCell? {
      ArrayIsCopied(heap, v.id, t, seen, depth);
    } else {
      NoErrors(heap, v.id);
      ObjectIsCopied(heap, v.id, t, seen, depth);
    }
  }

  lemma {:induction false} ArrayIsCopied(heap: Heap, id: nat, t: Value, seen: set<nat>, depth: nat)
    requires PlainHeap(heap) && depth < MAX_SERIALIZE_DEPTH && DatesUnseen(heap, seen) && heap(id).ArrayCell?
    requires Represents(heap, Ref(id), t) && Within(heap, Ref(id), t, MAX_SERIALIZE_DEPTH - depth)
    requires Once(Visited(heap, Ref(id), t)) && Members(Visited(heap, Ref(id), t)) !! seen
    ensures Walk(heap, Ref(id), seen, depth) == Walked(t, seen + Members(Visited(heap, Ref(id), t)))
    decreases MAX_SERIALIZE_DEPTH - depth, 0
  {
    hide PlainHeap, Once, Walk, WalkItems, NormalizePrimitive, VisitedItems, IsMarker, Members;
    var items := heap(id).items;
    var rest := VisitedItems(heap, items, t, |items|);
    OncePart(multiset{id}, rest);
    SingleMember(id);
    WalkContainer(heap, id, seen, depth);
    ItemsAreCopied(heap, items, t, |items|, seen + {id}, depth + 1);
    assert items[..|items|] == items && t.items[..|items|] == t.items;
  }

  lemma {:induction false} SingleMember(id: nat)
    ensures Members(multiset{id}) == {id}
  {
  }

  lemma {:induction false} ItemsAreCopied(heap: Heap, items: seq<HeapValue>, t: Value, n: nat, seen: set<nat>, depth: nat)
    requires PlainHeap(heap) && depth <= MAX_SERIALIZE_DEPTH && DatesUnseen(heap, seen)
    requires t.Arr? && n <= |items| == |t.items|
    requires forall i | 0 <= i < |items| ::
               && Represents(heap, items[i], t.items[i])
               && Within(heap, items[i], t.items[i], MAX_SERIALIZE_DEPTH - depth)
    requires Once(VisitedItems(heap, items, t, n)) && Members(VisitedItems(heap, items, t, n)) !! seen
    ensures WalkItems(heap, items[..n], seen, depth)
         == WalkedItems(t.items[..n], seen + Members(VisitedItems(heap, items, t, n)))
    decreases MAX_SERIALIZE_DEPTH - depth, 2 + n
  {
    hide PlainHeap, Once, Walk, Represents, Within, Visited;
    if n > 0 {
      assert items[..n][..n - 1] == items[..n - 1] && t.items[..n] == t.items[..n - 1] + [t.items[n - 1]];
      var a := VisitedItems(heap, items, t, n - 1);
      var b := Visited(heap, items[n - 1], t.items[n - 1]);
      OncePart(a, b);
      ItemsAreContainers(heap, items, t, n - 1);
      ItemsAreCopied(heap, items, t, n - 1, seen, depth);
      TreeIsCopied(heap, items[n - 1], t.items[n - 1], seen + Members(a), depth);
      assert seen + Members(a) + Members(b) == seen + Members(a + b);
    } else {
      assert seen + Members(multiset{}) == seen;
    }
  }

  lemma {:induction false} ObjectIsCopied(heap: Heap, id: nat, t: Value, seen: set<nat>, depth: nat)
    requires PlainHeap(heap) && depth < MAX_SERIALIZE_DEPTH && DatesUnseen(heap, seen) && heap(id).ObjectCell?
    requires DistinctNames(heap(id).fields)
    requires Represents(heap, Ref(id), t) && Within(heap, Ref(id), t, MAX_SERIALIZE_DEPTH - depth)
    requires Once(Visited(heap, Ref(id), t)) && Members(Visited(heap, Ref(id), t)) !! seen
    ensures Walk(heap, Ref(id), seen, depth) == Walked(t, seen + Members(Visited(heap, Ref(id), t)))
    decreases MAX_SERIALIZE_DEPTH - depth, 0
  {
    hide PlainHeap, Once, Walk, WalkFields, NormalizePrimitive, VisitedFields, IsMarker, Members, DistinctNames;
    var fields := heap(id).fields;
    var rest := VisitedFields(heap, fields, t, |fields|);
    OncePart(multiset{id}, rest);
    SingleMember(id);
    WalkContainer(heap, id, seen, depth);
    assert fields[..|fields|] == fields;
    FieldsAreCopied(heap, fields, t, |fields|, seen + {id}, depth + 1);
    assert WalkFields(heap, fields, map[], false, seen + {id}, depth + 1).fields == t.fields;
  }

  lemma {:induction false} FieldsAreCopied(heap: Heap, fields: seq<(string, HeapValue)>, t: Value, n: nat,
                                           seen: set<nat>, depth: nat)
    requires PlainHeap(heap) && depth <= MAX_SERIALIZE_DEPTH && DatesUnseen(heap, seen)
    requires t.Obj? && n <= |fields| && DistinctNames(fields[..n])
    requires forall i | 0 <= i < |fields| ::
               && fields[i].0 in t.fields
               && Represents(heap, fields[i].1, t.fields[fields[i].0])
               && Within(heap, fields[i].1, t.fields[fields[i].0], MAX_SERIALIZE_DEPTH - depth)
    requires Once(VisitedFields(heap, fields, t, n)) && Members(VisitedFields(heap, fields, t, n)) !! seen
    ensures var r := WalkFields(heap, fields[..n], map[], false, seen, depth);
            && r.seen == seen + Members(VisitedFields(heap, fields, t, n))
            && (forall i | 0 <= i < n :: fields[i].0 in r.fields)
            && (forall k | k in r.fields :: k in t.fields && r.fields[k] == t.fields[k])
    decreases MAX_SERIALIZE_DEPTH - depth, 2 + n
  {
    hide PlainHeap, Once, Walk, Represents, Within, Visited, DistinctNames, WalkFields;
    if n > 0 {
      assert fields[..n][..n - 1] == fields[..n - 1];
      var a := VisitedFields(heap, fields, t, n - 1);
      var b := Visited(heap, fields[n - 1].1, t.fields[fields[n - 1].0]);
      LastField(heap, fields[..n], seen, depth);
      OncePart(a, b);
      FieldsAreContainers(heap, fields, t, n - 1);
      FieldsAreCopied(heap, fields, t, n - 1, seen, depth);
      TreeIsCopied(heap, fields[n - 1].1, t.fields[fields[n - 1].0], seen + Members(a), depth);
      assert seen + Members(a) + Members(b) == seen + Members(a + b);
    } else {
      NoFields(heap, fields, seen, depth);
      assert seen + Members(multiset{}) == seen;
    }
  }

  lemma {:induction false} NoFields(heap: Heap, fields: seq<(string, HeapValue)>, seen: set<nat>, depth: nat)
    requires depth <= MAX_SERIALIZE_DEPTH
    ensures WalkFields(heap, fields[..0], map[], false, seen, depth) == WalkedFields(map[], seen)
  {
  }

  /** Exactly when a copy is free of markers: the value is a finite tree without
      repeated objects, within the depth cap, that holds no marker of its own. Then
      the copy is that tree. */
  lemma {:induction false} UnmarkedExactly(heap: Heap, v: HeapValue)
    requires PlainHeap(heap)
    ensures !HasMarker(SafeSerialize(heap, v)) <==>
            exists t ::
              && Represents(heap, v, t)
              && Within(heap, v, t, MAX_SERIALIZE_DEPTH)
              && Once(Visited(heap, v, t))
              && !HasMarker(t)
    ensures !HasMarker(SafeSerialize(heap, v)) ==> Represents(heap, v, SafeSerialize(heap, v))
  {
    hide PlainHeap, HasMarker, Walk, Represents, Within, Visited;
    var out := SafeSerialize(heap, v);
    if !HasMarker(out) {
      UnmarkedIsWhole(heap, v, {}, 0);
      assert Once(Visited(heap, v, out));
    }
    forall t | Represents(heap, v, t) && Within(heap, v, t, MAX_SERIALIZE_DEPTH) && Once(Visited(heap, v, t))
      ensures out == t
    {
      TreeIsCopied(heap, v, t, {}, 0);
    }
  }
}
