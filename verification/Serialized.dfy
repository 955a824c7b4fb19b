/** What `safeSerialize` promises about its output. */
module Serialized {
  import opened Values
  import opened Serialize
  import opened Sums
  import Diff
  import Pointer

  // ---- depth ----

  lemma {:induction false} PrimitiveDepth(p: Primitive)
    ensures DepthAtMost(NormalizePrimitive(p), 1) && NoFunc(NormalizePrimitive(p))
  {
  }

  /** However deep or cyclic the heap, the copy has at most 13 levels, counted from
      the root: 12 of containers and one for what a marker holds. */
  lemma {:induction false} WalkDepth(heap: Heap, v: HeapValue, seen: set<nat>, depth: nat)
    requires depth <= MAX_SERIALIZE_DEPTH
    ensures DepthAtMost(Walk(heap, v, seen, depth).out, MAX_SERIALIZE_DEPTH + 1 - depth)
    ensures NoFunc(Walk(heap, v, seen, depth).out)
    decreases MAX_SERIALIZE_DEPTH - depth, 0
  {
    hide Shape, NormalizePrimitive, WalkItems, WalkFields, ErrorFields;
    if v.Prim? {
      PrimitiveDepth(v.primitive);
      DeeperAllowed(NormalizePrimitive(v.primitive), 1, MAX_SERIALIZE_DEPTH + 1 - depth);
    } else if depth < MAX_SERIALIZE_DEPTH && v.id !in seen {
      match heap(v.id)
      case ArrayCell(items) => ItemsDepth(heap, items, seen + {v.id}, depth + 1);
      case ErrorCell(_, _, _, fields) =>
        ErrorFieldsDepth(heap(v.id), MAX_SERIALIZE_DEPTH - depth);
        FieldsDepth(heap, fields, ErrorFields(heap(v.id)), true, seen + {v.id}, depth + 1);
      case ObjectCell(fields) => FieldsDepth(heap, fields, map[], false, seen + {v.id}, depth + 1);
      case _ =>
    }
  }

  lemma {:induction false} DeeperAllowed(v: Value, d: int, e: int)
    requires DepthAtMost(v, d) && d <= e
    ensures DepthAtMost(v, e)
  {
    match v
    case Arr(s) =>
      forall i | 0 <= i < |s| ensures DepthAtMost(s[i], e - 1)
      {
        DeeperAllowed(s[i], d - 1, e - 1);
      }
    case Obj(m) =>
      forall k | k in m ensures DepthAtMost(m[k], e - 1)
      {
        DeeperAllowed(m[k], d - 1, e - 1);
      }
    case _ =>
  }

  lemma {:induction false} ErrorFieldsDepth(cell: Cell, d: int)
    requires cell.ErrorCell? && d >= 1
    ensures DepthAtMost(Obj(ErrorFields(cell)), d + 1) && NoFunc(Obj(ErrorFields(cell)))
  {
    hide NormalizePrimitive;
    PrimitiveDepth(cell.name);
    PrimitiveDepth(cell.message);
    PrimitiveDepth(cell.stack);
    DeeperAllowed(NormalizePrimitive(cell.name), 1, d);
    DeeperAllowed(NormalizePrimitive(cell.message), 1, d);
    DeeperAllowed(NormalizePrimitive(cell.stack), 1, d);
  }

  lemma {:induction false} ItemsDepth(heap: Heap, items: seq<HeapValue>, seen: set<nat>, depth: nat)
    requires depth <= MAX_SERIALIZE_DEPTH
    ensures var r := WalkItems(heap, items, seen, depth);
            DepthAtMost(Arr(r.items), MAX_SERIALIZE_DEPTH + 2 - depth) && NoFunc(Arr(r.items))
    decreases MAX_SERIALIZE_DEPTH - depth, 1 + |items|
  {
    hide Walk;
    if items != [] {
      var last := |items| - 1;
      ItemsDepth(heap, items[..last], seen, depth);
      WalkDepth(heap, items[last], WalkItems(heap, items[..last], seen, depth).seen, depth);
    }
  }

  lemma {:induction false} FieldsDepth(heap: Heap, fields: seq<(string, HeapValue)>, out: map<string, Value>,
                                       error: bool, seen: set<nat>, depth: nat)
    requires depth <= MAX_SERIALIZE_DEPTH
    requires DepthAtMost(Obj(out), MAX_SERIALIZE_DEPTH + 2 - depth) && NoFunc(Obj(out))
    ensures var r := WalkFields(heap, fields, out, error, seen, depth);
            DepthAtMost(Obj(r.fields), MAX_SERIALIZE_DEPTH + 2 - depth) && NoFunc(Obj(r.fields))
    decreases MAX_SERIALIZE_DEPTH - depth, 1 + |fields|
  {
    hide Walk;
    if fields != [] {
      var last := |fields| - 1;
      FieldsDepth(heap, fields[..last], out, error, seen, depth);
      var before := WalkFields(heap, fields[..last], out, error, seen, depth);
      WalkDepth(heap, fields[last].1, before.seen, depth);
    }
  }

  // ---- each object is expanded at most once ----

  /** How many values a copy consists of. */
  ghost function Nodes(v: Value): nat {
    match v
    case Arr(s) => 1 + ItemNodes(s)
    case Obj(m) => 1 + Sum(m.Keys, k => if k in m then Nodes(m[k]) else 0)
    case _ => 1
  }

  ghost function ItemNodes(s: seq<Value>): nat {
    if s == [] then 0 else ItemNodes(s[..|s| - 1]) + Nodes(s[|s| - 1])
  }

  /** What one heap object can add to a copy: five values, the size of a marker,
      for each of its slots. */
  function Weight(cell: Cell): nat {
    match cell
    case ArrayCell(items) => 5 * |items|
    case ObjectCell(fields) => 5 * |fields|
    case ErrorCell(_, _, _, fields) => 15 + 5 * |fields|
    case _ => 0
  }

  ghost function FieldNodes(m: map<string, Value>): nat {
    Sum(m.Keys, k => if k in m then Nodes(m[k]) else 0)
  }

  lemma {:induction false} AssignNodes(m: map<string, Value>, k: string, x: Value)
    ensures FieldNodes(m[k := x]) <= FieldNodes(m) + Nodes(x)
  {
    var w := m[k := x];
    var f := k => if k in m then Nodes(m[k]) else 0;
    var g := k => if k in w then Nodes(w[k]) else 0;
    var rest := m.Keys - {k};
    SumSame(rest, f, g);
    SumAdd(rest, k, g);
    assert rest + {k} == w.Keys;
    if k in m {
      SumAdd(rest, k, f);
      assert rest + {k} == m.Keys;
    } else {
      assert rest == m.Keys;
    }
  }

  lemma {:induction false} AssignedNodes(m: map<string, Value>, k: string, x: Value)
    ensures FieldNodes(Assign(m, k, x)) <= FieldNodes(m) + Nodes(x)
  {
    AssignNodes(m, k, x);
  }

  lemma {:induction false} PrimitiveNodes(p: Primitive)
    ensures Nodes(NormalizePrimitive(p)) <= 5
  {
    match p
    case Function(name) =>
      MarkerNodes("function", "\U{0192} " + (if name == "" then "anonymous" else name) + "()", Undef);
    case Symbol(text) => MarkerNodes("symbol", text, Undef);
    case Plain(Str(s)) =>
      if |s| > MAX_VALUE_SIZE {
        MarkerNodes("string", s[..200] + "\U{2026}", Value.Num(|s|));
      }
    case _ =>
  }

  lemma {:induction false} MarkerNodes(originalType: string, preview: string, size: Value)
    requires size == Undef || size.Num?
    ensures Nodes(Marker(originalType, preview, size)) <= 5
  {
    var m0: map<string, Value> := map[];
    var m1 := m0[MARKER_KEY := Value.Bool(true)];
    var m2 := m1["originalType" := Value.Str(originalType)];
    var m3 := m2["preview" := Value.Str(preview)];
    var m4 := m3["originalSize" := size];
    AssignNodes(m0, MARKER_KEY, Value.Bool(true));
    AssignNodes(m1, "originalType", Value.Str(originalType));
    AssignNodes(m2, "preview", Value.Str(preview));
    AssignNodes(m3, "originalSize", size);
    assert Marker(originalType, preview, size) == Obj(m4);
  }

  function WeightOf(heap: Heap): nat -> nat {
    (id: nat) => Weight(heap(id))
  }

  /** The weight of the objects that are in `b` but not in `a`. */
  ghost function Added(heap: Heap, a: set<nat>, b: set<nat>): nat {
    Sum(b - a, WeightOf(heap))
  }

  lemma {:induction false} AddedInSteps(heap: Heap, a: set<nat>, b: set<nat>, c: set<nat>)
    requires a <= b <= c
    ensures Added(heap, a, c) == Added(heap, a, b) + Added(heap, b, c)
  {
    SumUnion(b - a, c - b, WeightOf(heap));
    assert (b - a) + (c - b) == c - a;
  }

  lemma {:induction false} AddedOne(heap: Heap, a: set<nat>, id: nat)
    requires id !in a
    ensures Added(heap, a, a + {id}) == Weight(heap(id))
  {
    SumAdd({}, id, WeightOf(heap));
    assert {} + {id} == (a + {id}) - a;
  }

  lemma {:induction false} SeenGrows(heap: Heap, v: HeapValue, seen: set<nat>, depth: nat)
    requires depth <= MAX_SERIALIZE_DEPTH
    ensures seen <= Walk(heap, v, seen, depth).seen
    decreases MAX_SERIALIZE_DEPTH - depth, 0
  {
    hide Shape, NormalizePrimitive, Marker, ErrorFields;
    if v.Ref? && depth < MAX_SERIALIZE_DEPTH && v.id !in seen {
      match heap(v.id)
      case ArrayCell(items) => ItemsSeenGrows(heap, items, seen + {v.id}, depth + 1);
      case ErrorCell(_, _, _, fields) =>
        FieldsSeenGrows(heap, fields, ErrorFields(heap(v.id)), true, seen + {v.id}, depth + 1);
      case ObjectCell(fields) => FieldsSeenGrows(heap, fields, map[], false, seen + {v.id}, depth + 1);
      case _ =>
    }
  }

  lemma {:induction false} ItemsSeenGrows(heap: Heap, items: seq<HeapValue>, seen: set<nat>, depth: nat)
    requires depth <= MAX_SERIALIZE_DEPTH
    ensures seen <= WalkItems(heap, items, seen, depth).seen
    decreases MAX_SERIALIZE_DEPTH - depth, 1 + |items|
  {
    hide Walk;
    if items != [] {
      var last := |items| - 1;
      ItemsSeenGrows(heap, items[..last], seen, depth);
      SeenGrows(heap, items[last], WalkItems(heap, items[..last], seen, depth).seen, depth);
    }
  }

  lemma {:induction false} FieldsSeenGrows(heap: Heap, fields: seq<(string, HeapValue)>, out: map<string, Value>,
                                           error: bool, seen: set<nat>, depth: nat)
    requires depth <= MAX_SERIALIZE_DEPTH
    ensures seen <= WalkFields(heap, fields, out, error, seen, depth).seen
    decreases MAX_SERIALIZE_DEPTH - depth, 1 + |fields|
  {
    hide Walk, Assign;
    if fields != [] {
      var last := |fields| - 1;
      FieldsSeenGrows(heap, fields[..last], out, error, seen, depth);
      SeenGrows(heap, fields[last].1, WalkFields(heap, fields[..last], out, error, seen, depth).seen, depth);
    }
  }

  lemma {:induction false} CutNodes(heap: Heap, v: HeapValue, seen: set<nat>, depth: nat)
    requires depth <= MAX_SERIALIZE_DEPTH
    requires v.Prim? || depth == MAX_SERIALIZE_DEPTH || v.id in seen
          || heap(v.id).MapCell? || heap(v.id).SetCell? || heap(v.id).DateCell?
    ensures Nodes(Walk(heap, v, seen, depth).out) <= 5
  {
    hide Shape, Marker;
    if v.Prim? {
      PrimitiveNodes(v.primitive);
    } else {
      var cell := heap(v.id);
      MarkerNodes("max-depth-exceeded", Shape(cell), Undef);
      MarkerNodes("circular-reference", Shape(cell), Undef);
      if cell.MapCell? {
        MarkerNodes("Map", "Map(" + Pointer.Decimal(cell.size) + ")", Undef);
      } else if cell.SetCell? {
        MarkerNodes("Set", "Set(" + Pointer.Decimal(cell.size) + ")", Undef);
      }
    }
  }

  /** Each object is expanded at most once: the copy is no larger than a marker
      plus the weight of the objects seen on the way, each counted once. */
  lemma {:induction false} WalkNodes(heap: Heap, v: HeapValue, seen: set<nat>, depth: nat)
    requires depth <= MAX_SERIALIZE_DEPTH
    ensures var r := Walk(heap, v, seen, depth);
            seen <= r.seen && Nodes(r.out) <= 5 + Added(heap, seen, r.seen)
    decreases MAX_SERIALIZE_DEPTH - depth, 1
  {
    SeenGrows(heap, v, seen, depth);
    if v.Prim? || depth == MAX_SERIALIZE_DEPTH || v.id in seen
       || heap(v.id).MapCell? || heap(v.id).SetCell? || heap(v.id).DateCell? {
      CutNodes(heap, v, seen, depth);
    } else {
      ExpandedNodes(heap, v.id, seen, depth);
    }
  }

  lemma {:induction false} ExpandedNodes(heap: Heap, id: nat, seen: set<nat>, depth: nat)
    requires depth < MAX_SERIALIZE_DEPTH && id !in seen
    requires heap(id).ArrayCell? || heap(id).ErrorCell? || heap(id).ObjectCell?
    ensures var r := Walk(heap, Ref(id), seen, depth);
            Nodes(r.out) <= 5 + Added(heap, seen, r.seen)
    decreases MAX_SERIALIZE_DEPTH - depth, 0
  {
    hide WalkItems, WalkFields, ErrorFields, Sum, Marker;
    var inner := seen + {id};
    AddedOne(heap, seen, id);
    match heap(id)
    case ArrayCell(items) =>
      ItemsNodes(heap, items, inner, depth + 1);
      ItemsSeenGrows(heap, items, inner, depth + 1);
      AddedInSteps(heap, seen, inner, WalkItems(heap, items, inner, depth + 1).seen);
    case ErrorCell(_, _, _, fields) =>
      var own := ErrorFields(heap(id));
      ErrorFieldNodes(heap(id));
      FieldsNodes(heap, fields, own, true, inner, depth + 1);
      FieldsSeenGrows(heap, fields, own, true, inner, depth + 1);
      AddedInSteps(heap, seen, inner, WalkFields(heap, fields, own, true, inner, depth + 1).seen);
      ObjNodes(WalkFields(heap, fields, own, true, inner, depth + 1).fields);
    case ObjectCell(fields) =>
      NoFieldNodes();
      FieldsNodes(heap, fields, map[], false, inner, depth + 1);
      FieldsSeenGrows(heap, fields, map[], false, inner, depth + 1);
      AddedInSteps(heap, seen, inner, WalkFields(heap, fields, map[], false, inner, depth + 1).seen);
      ObjNodes(WalkFields(heap, fields, map[], false, inner, depth + 1).fields);
  }

  lemma {:induction false} NoFieldNodes()
    ensures FieldNodes(map[]) == 0
  {
  }

  lemma {:induction false} ObjNodes(m: map<string, Value>)
    ensures Nodes(Obj(m)) == 1 + FieldNodes(m)
  {
  }

  lemma {:induction false} ErrorFieldNodes(cell: Cell)
    requires cell.ErrorCell?
    ensures FieldNodes(ErrorFields(cell)) <= 15
  {
    hide NormalizePrimitive;
    PrimitiveNodes(cell.name);
    PrimitiveNodes(cell.message);
    PrimitiveNodes(cell.stack);
    var m0: map<string, Value> := map[];
    var m1 := m0["name" := NormalizePrimitive(cell.name)];
    var m2 := m1["message" := NormalizePrimitive(cell.message)];
    var m3 := m2["stack" := NormalizePrimitive(cell.stack)];
    AssignNodes(m0, "name", NormalizePrimitive(cell.name));
    AssignNodes(m1, "message", NormalizePrimitive(cell.message));
    AssignNodes(m2, "stack", NormalizePrimitive(cell.stack));
    assert ErrorFields(cell) == m3;
  }

  lemma {:induction false} ItemsNodes(heap: Heap, items: seq<HeapValue>, seen: set<nat>, depth: nat)
    requires depth <= MAX_SERIALIZE_DEPTH
    ensures var r := WalkItems(heap, items, seen, depth);
            ItemNodes(r.items) <= 5 * |items| + Added(heap, seen, r.seen)
    decreases MAX_SERIALIZE_DEPTH - depth, 2 + |items|
  {
    hide Walk, Sum;
    if items != [] {
      var last := |items| - 1;
      var before := WalkItems(heap, items[..last], seen, depth);
      var item := Walk(heap, items[last], before.seen, depth);
      ItemsNodes(heap, items[..last], seen, depth);
      ItemsSeenGrows(heap, items[..last], seen, depth);
      WalkNodes(heap, items[last], before.seen, depth);
      AddedInSteps(heap, seen, before.seen, item.seen);
      assert (before.items + [item.out])[..last] == before.items;
    }
  }

  lemma {:induction false} FieldsNodes(heap: Heap, fields: seq<(string, HeapValue)>, out: map<string, Value>,
                                       error: bool, seen: set<nat>, depth: nat)
    requires depth <= MAX_SERIALIZE_DEPTH
    ensures var r := WalkFields(heap, fields, out, error, seen, depth);
            FieldNodes(r.fields) <= FieldNodes(out) + 5 * |fields| + Added(heap, seen, r.seen)
    decreases MAX_SERIALIZE_DEPTH - depth, 2 + |fields|
  {
    hide Walk, Sum, FieldNodes, Added, Assign, Diff.HasProperty;
    if fields != [] {
      var last := |fields| - 1;
      var before := WalkFields(heap, fields[..last], out, error, seen, depth);
      var field := Walk(heap, fields[last].1, before.seen, depth);
      FieldsNodes(heap, fields[..last], out, error, seen, depth);
      FieldsSeenGrows(heap, fields[..last], out, error, seen, depth);
      WalkNodes(heap, fields[last].1, before.seen, depth);
      AddedInSteps(heap, seen, before.seen, field.seen);
      AssignedNodes(before.fields, fields[last].0, field.out);
    }
  }

  /** The size of a serialized value is linear in the objects it was made from. */
  lemma {:induction false} OutputIsLinear(heap: Heap, v: HeapValue)
    ensures Nodes(SafeSerialize(heap, v)) <= 5 + Sum(Walk(heap, v, {}, 0).seen, WeightOf(heap))
  {
    WalkNodes(heap, v, {}, 0);
    assert Walk(heap, v, {}, 0).seen - {} == Walk(heap, v, {}, 0).seen;
  }
}
