/** What `safeSerialize` puts in each place of its output, on every heap: the copy, or a
    marker that tells the truth. */
module Copied {
  import opened Values
  import opened Serialize
  import Diff
  import Lossless
  import Pointer

  /** A marker that gives this reason. */
  predicate IsMarked(t: Value, reason: string) {
    && IsMarker(t)
    && Get(t.fields, "originalType") == Value.Str(reason)
    && t.fields.Keys == {MARKER_KEY, "originalType", "preview", "originalSize"}
  }

  predicate HasPreview(t: Value, preview: string) {
    t.Obj? && Get(t.fields, "preview") == Value.Str(preview)
  }

  /** A leaf and its copy: a function is named, a symbol spelled out, and of a long string
      the length and the first 200 characters are kept. */
  predicate IsLeafCopy(p: Primitive, t: Value) {
    match p
    case Function(name) =>
      IsMarked(t, "function") && HasPreview(t, "\U{0192} " + (if name == "" then "anonymous" else name) + "()")
    case Symbol(text) => IsMarked(t, "symbol") && HasPreview(t, text)
    case Plain(Str(s)) =>
      if |s| > 20000 then
        && IsMarked(t, "string") && HasPreview(t, s[..200] + "\U{2026}")
        && Get(FieldsOf(t), "originalSize") == Value.Num(|s|)
      else t == Value.Str(s)
    case _ => Lossless.IsLeaf(p, t)
  }

  /** Names in a row, with commas between them. */
  function Listing(names: seq<string>): string {
    if names == [] then ""
    else if |names| == 1 then names[0]
    else Listing(names[..|names| - 1]) + ", " + names[|names| - 1]
  }

  /** The outline of an object that was not opened: the length of an array, or the first six
      keys. */
  predicate IsOutline(cell: Cell, preview: string) {
    match cell
    case ArrayCell(items) => preview == "Array(" + Pointer.Decimal(|items|) + ")"
    case _ =>
      var names := Serialize.Names(cell);
      preview == if |names| <= 6 then "{ " + Listing(names) + " }" else "{ " + Listing(names[..6]) + ", \U{2026} }"
  }

  /** A marker in place of an object gives a reason and its outline. */
  predicate IsCut(cell: Cell, t: Value, reason: string) {
    IsMarked(t, reason) && Get(t.fields, "preview").Str? && IsOutline(cell, Get(t.fields, "preview").s)
  }

  /** The names that an error's copy always has. */
  const ERROR_NAMES := {"name", "message", "stack"}

  /** The copy has a key for each of the object's own, save the one that assignment does not
      create. An error's copy also has three of its own, and none that objects inherit. */
  ghost predicate HasKeys(fields: seq<(string, HeapValue)>, error: bool, m: map<string, Value>) {
    forall k :: k in m <==>
      || (error && k in ERROR_NAMES)
      || (Names(fields, k) && k != "__proto__" && !(error && Diff.IsInherited(k)))
  }

  ghost predicate Names(fields: seq<(string, HeapValue)>, k: string) {
    exists i :: 0 <= i < |fields| && fields[i].0 == k
  }

  /** `t` is what the walk makes of `v` at this depth, when it meets the objects `met` on its
      way from beginning to end. */
  ghost predicate IsCopy(heap: Heap, v: HeapValue, t: Value, depth: nat, met: set<nat>)
    decreases t
  {
    match v
    case Prim(p) => IsLeafCopy(p, t)
    case Ref(id) =>
      if depth >= MAX_SERIALIZE_DEPTH then IsCut(heap(id), t, "max-depth-exceeded")
      else
        || (id in met && IsCut(heap(id), t, "circular-reference"))
        || match heap(id)
           case ArrayCell(items) =>
             && id in met && t.Arr? && |t.items| == |items|
             && forall i | 0 <= i < |items| :: IsCopy(heap, items[i], t.items[i], depth + 1, met)
           case MapCell(size) =>
             id in met && IsMarked(t, "Map") && HasPreview(t, "Map(" + Pointer.Decimal(size) + ")")
           case SetCell(size) =>
             id in met && IsMarked(t, "Set") && HasPreview(t, "Set(" + Pointer.Decimal(size) + ")")
           case DateCell(iso) => t == Value.Str(iso)
           case ErrorCell(name, message, stack, fields) =>
             && id in met && t.Obj? && HasKeys(fields, true, t.fields)
             && IsLeafCopy(name, Get(t.fields, "name"))
             && IsLeafCopy(message, Get(t.fields, "message"))
             && IsLeafCopy(stack, Get(t.fields, "stack"))
             && forall i | 0 <= i < |fields| && fields[i].0 in t.fields && fields[i].0 !in ERROR_NAMES ::
                  IsCopy(heap, fields[i].1, t.fields[fields[i].0], depth + 1, met)
           case ObjectCell(fields) =>
             && id in met && t.Obj? && HasKeys(fields, false, t.fields)
             && forall i | 0 <= i < |fields| && fields[i].0 in t.fields ::
                  IsCopy(heap, fields[i].1, t.fields[fields[i].0], depth + 1, met)
  }

  /** No object has two keys of the same name. */
  ghost predicate ProperHeap(heap: Heap) {
    forall id | heap(id).ObjectCell? || heap(id).ErrorCell? :: DistinctKeys(heap(id).fields)
  }

  ghost predicate DistinctKeys(fields: seq<(string, HeapValue)>) {
    forall i, j | 0 <= i < j < |fields| :: fields[i].0 != fields[j].0
  }

  // ---- the walk makes copies ----

  lemma {:induction false} LeafIsCopy(p: Primitive)
    ensures IsLeafCopy(p, NormalizePrimitive(p))
  {
    Lossless.LeafIsCopiedOrMarked(p);
  }

  lemma {:induction false} MeetingMore(heap: Heap, v: HeapValue, t: Value, depth: nat, met: set<nat>, more: set<nat>)
    requires met <= more && IsCopy(heap, v, t, depth, met)
    ensures IsCopy(heap, v, t, depth, more)
    decreases t
  {
    hide IsCut, IsMarked, HasPreview, HasKeys, IsLeafCopy;
    if v.Ref? && depth < MAX_SERIALIZE_DEPTH && !IsCut(heap(v.id), t, "circular-reference") {
      var cell := heap(v.id);
      if cell.ArrayCell? {
        forall i | 0 <= i < |cell.items| ensures IsCopy(heap, cell.items[i], t.items[i], depth + 1, more)
        {
          MeetingMore(heap, cell.items[i], t.items[i], depth + 1, met, more);
        }
      } else if cell.ErrorCell? || cell.ObjectCell? {
        var fields := cell.fields;
        forall i | 0 <= i < |fields| && fields[i].0 in t.fields && (cell.ErrorCell? ==> fields[i].0 !in ERROR_NAMES)
          ensures IsCopy(heap, fields[i].1, t.fields[fields[i].0], depth + 1, more)
        {
          MeetingMore(heap, fields[i].1, t.fields[fields[i].0], depth + 1, met, more);
        }
      }
    }
  }

  ghost predicate AreCopies(heap: Heap, items: seq<HeapValue>, ts: seq<Value>, depth: nat, met: set<nat>) {
    |ts| == |items| && forall i | 0 <= i < |items| :: IsCopy(heap, items[i], ts[i], depth, met)
  }

  /** What has been filled in, beside what was there at the start. */
  ghost predicate FieldsAreCopies(heap: Heap, fields: seq<(string, HeapValue)>, start: map<string, Value>, error: bool,
                                  m: map<string, Value>, depth: nat, met: set<nat>) {
    && (forall k :: k in m <==>
          k in start || (Names(fields, k) && k != "__proto__" && !(error && Diff.IsInherited(k))))
    && (forall k | k in start :: m[k] == start[k])
    && (forall i | 0 <= i < |fields| && fields[i].0 in m && fields[i].0 !in start ::
          IsCopy(heap, fields[i].1, m[fields[i].0], depth, met))
  }

  lemma {:induction false} WalkCopies(heap: Heap, v: HeapValue, seen: set<nat>, depth: nat)
    requires ProperHeap(heap) && depth <= MAX_SERIALIZE_DEPTH
    ensures var r := Walk(heap, v, seen, depth); seen <= r.seen && IsCopy(heap, v, r.out, depth, r.seen)
    decreases MAX_SERIALIZE_DEPTH - depth, 1
  {
    hide ProperHeap, WalkItems, WalkFields, NormalizePrimitive, Marker, IsCut, IsMarked, HasPreview, IsLeafCopy, HasKeys, IsCopy;
    if v.Prim? {
      LeafCopies(heap, v, seen, depth);
    } else if depth == MAX_SERIALIZE_DEPTH || v.id in seen || heap(v.id).MapCell? || heap(v.id).SetCell? || heap(v.id).DateCell? {
      UnopenedCopies(heap, v.id, seen, depth);
    } else if heap(v.id).ArrayCell? {
      WalkItemsCopies(heap, heap(v.id).items, seen + {v.id}, depth + 1);
      ArrayCopies(heap, v.id, seen, depth);
    } else {
      ProperFields(heap, v.id);
      var start := if heap(v.id).ErrorCell? then ErrorFields(heap(v.id)) else map[];
      WalkFieldsCopies(heap, heap(v.id).fields, start, heap(v.id).ErrorCell?, seen + {v.id}, depth + 1);
      if heap(v.id).ErrorCell? {
        ErrorCopies(heap, v.id, seen, depth);
      } else {
        ObjectCopies(heap, v.id, seen, depth);
      }
    }
  }

  lemma {:induction false} ProperFields(heap: Heap, id: nat)
    requires ProperHeap(heap) && (heap(id).ObjectCell? || heap(id).ErrorCell?)
    ensures DistinctKeys(heap(id).fields)
  {
  }

  lemma {:induction false} LeafCopies(heap: Heap, v: HeapValue, seen: set<nat>, depth: nat)
    requires depth <= MAX_SERIALIZE_DEPTH && v.Prim?
    ensures var r := Walk(heap, v, seen, depth); seen <= r.seen && IsCopy(heap, v, r.out, depth, r.seen)
  {
    hide NormalizePrimitive, IsLeafCopy;
    LeafIsCopy(v.primitive);
  }

  /** Of what is not opened there is a marker, or the text of a date. */
  lemma {:induction false} UnopenedCopies(heap: Heap, id: nat, seen: set<nat>, depth: nat)
    requires depth <= MAX_SERIALIZE_DEPTH
    requires depth == MAX_SERIALIZE_DEPTH || id in seen || heap(id).MapCell? || heap(id).SetCell? || heap(id).DateCell?
    ensures var r := Walk(heap, Ref(id), seen, depth); seen <= r.seen && IsCopy(heap, Ref(id), r.out, depth, r.seen)
  {
    hide WalkItems, WalkFields, HasKeys, Shape, IsLeafCopy, IsCut, IsMarked, HasPreview, Marker;
    var cell := heap(id);
    MarkerOutlines("max-depth-exceeded", cell);
    MarkerOutlines("circular-reference", cell);
    if cell.MapCell? {
      MarkerTells("Map", "Map(" + Pointer.Decimal(cell.size) + ")");
    } else if cell.SetCell? {
      MarkerTells("Set", "Set(" + Pointer.Decimal(cell.size) + ")");
    }
  }

  lemma {:induction false} MarkerTells(reason: string, preview: string)
    ensures IsMarked(Marker(reason, preview, Undef), reason) && HasPreview(Marker(reason, preview, Undef), preview)
  {
  }

  lemma {:induction false} MarkerOutlines(reason: string, cell: Cell)
    ensures IsCut(cell, Marker(reason, Shape(cell), Undef), reason)
  {
    hide IsOutline, Shape, IsMarked;
    MarkerTells(reason, Shape(cell));
    ShapeIsOutline(cell);
  }

  lemma {:induction false} ShapeIsOutline(cell: Cell)
    ensures IsOutline(cell, Shape(cell))
  {
    hide Listing, Joined;
    var names := Serialize.Names(cell);
    JoinedIsListing(names);
    JoinedIsListing(if |names| > 6 then names[..6] else names);
    assert ", \U{2026}" + " }" == ", \U{2026} }";
  }

  lemma {:induction false} JoinedIsListing(names: seq<string>)
    ensures Joined(names) == Listing(names)
  {
    if |names| > 1 {
      JoinedAppends(names[..|names| - 1], names[|names| - 1]);
      JoinedIsListing(names[..|names| - 1]);
      assert names == names[..|names| - 1] + [names[|names| - 1]];
    }
  }

  lemma {:induction false} JoinedAppends(names: seq<string>, last: string)
    requires names != []
    ensures Joined(names + [last]) == Joined(names) + ", " + last
  {
    if |names| == 1 {
      assert (names + [last])[1..] == [last];
    } else {
      assert (names + [last])[1..] == names[1..] + [last];
      JoinedAppends(names[1..], last);
    }
  }

  lemma {:induction false} ArrayCopies(heap: Heap, id: nat, seen: set<nat>, depth: nat)
    requires depth < MAX_SERIALIZE_DEPTH && id !in seen && heap(id).ArrayCell?
    requires var r := WalkItems(heap, heap(id).items, seen + {id}, depth + 1);
             seen + {id} <= r.seen && AreCopies(heap, heap(id).items, r.items, depth + 1, r.seen)
    ensures var r := Walk(heap, Ref(id), seen, depth); seen <= r.seen && IsCopy(heap, Ref(id), r.out, depth, r.seen)
  {
    hide WalkItems, WalkFields, Marker, IsCut, IsMarked, HasPreview;
  }

  lemma {:induction false} ObjectCopies(heap: Heap, id: nat, seen: set<nat>, depth: nat)
    requires depth < MAX_SERIALIZE_DEPTH && id !in seen && heap(id).ObjectCell?
    requires var r := WalkFields(heap, heap(id).fields, map[], false, seen + {id}, depth + 1);
             && seen + {id} <= r.seen
             && FieldsAreCopies(heap, heap(id).fields, map[], false, r.fields, depth + 1, r.seen)
    ensures var r := Walk(heap, Ref(id), seen, depth); seen <= r.seen && IsCopy(heap, Ref(id), r.out, depth, r.seen)
  {
    hide WalkItems, WalkFields, Marker, IsCut, IsMarked, HasPreview;
  }

  lemma {:induction false} ErrorCopies(heap: Heap, id: nat, seen: set<nat>, depth: nat)
    requires depth < MAX_SERIALIZE_DEPTH && id !in seen && heap(id).ErrorCell?
    requires var r := WalkFields(heap, heap(id).fields, ErrorFields(heap(id)), true, seen + {id}, depth + 1);
             && seen + {id} <= r.seen
             && FieldsAreCopies(heap, heap(id).fields, ErrorFields(heap(id)), true, r.fields, depth + 1, r.seen)
    ensures var r := Walk(heap, Ref(id), seen, depth); seen <= r.seen && IsCopy(heap, Ref(id), r.out, depth, r.seen)
  {
    hide WalkItems, WalkFields, Marker, IsCut, IsMarked, HasPreview, NormalizePrimitive, IsLeafCopy;
    LeafIsCopy(heap(id).name);
    LeafIsCopy(heap(id).message);
    LeafIsCopy(heap(id).stack);
  }

  lemma {:induction false} WalkItemsCopies(heap: Heap, items: seq<HeapValue>, seen: set<nat>, depth: nat)
    requires ProperHeap(heap) && depth <= MAX_SERIALIZE_DEPTH
    ensures var r := WalkItems(heap, items, seen, depth);
            seen <= r.seen && AreCopies(heap, items, r.items, depth, r.seen)
    decreases MAX_SERIALIZE_DEPTH - depth, 2 + |items|
  {
    hide ProperHeap, Walk, IsCopy;
    if items != [] {
      var last := |items| - 1;
      var before := WalkItems(heap, items[..last], seen, depth);
      var item := Walk(heap, items[last], before.seen, depth);
      WalkItemsCopies(heap, items[..last], seen, depth);
      WalkCopies(heap, items[last], before.seen, depth);
      forall i | 0 <= i < last ensures IsCopy(heap, items[i], before.items[i], depth, item.seen)
      {
        assert items[..last][i] == items[i];
        MeetingMore(heap, items[i], before.items[i], depth, before.seen, item.seen);
      }
    }
  }

  lemma {:induction false} WalkFieldsCopies(heap: Heap, fields: seq<(string, HeapValue)>, start: map<string, Value>,
                                            error: bool, seen: set<nat>, depth: nat)
    requires ProperHeap(heap) && depth <= MAX_SERIALIZE_DEPTH && DistinctKeys(fields) && (error || start == map[])
    ensures var r := WalkFields(heap, fields, start, error, seen, depth);
            seen <= r.seen && FieldsAreCopies(heap, fields, start, error, r.fields, depth, r.seen)
    decreases MAX_SERIALIZE_DEPTH - depth, 2 + |fields|
  {
    hide ProperHeap, Walk, IsCopy, Diff.IsInherited, FieldsAreCopies;
    if fields == [] {
      NoFieldsCopied(heap, fields, start, error, seen, depth);
    } else {
      var last := |fields| - 1;
      var before := WalkFields(heap, fields[..last], start, error, seen, depth);
      FrontIsDistinct(fields);
      WalkFieldsCopies(heap, fields[..last], start, error, seen, depth);
      WalkCopies(heap, fields[last].1, before.seen, depth);
      if error && Diff.HasProperty(before.fields, fields[last].0) {
        FieldPassedOver(heap, fields, start, before.fields, depth, before.seen);
      } else {
        var field := Walk(heap, fields[last].1, before.seen, depth);
        FieldAssigned(heap, fields, start, error, before.fields, field.out, depth, before.seen, field.seen);
      }
    }
  }

  lemma {:induction false} NoFieldsCopied(heap: Heap, fields: seq<(string, HeapValue)>, start: map<string, Value>,
                                          error: bool, seen: set<nat>, depth: nat)
    requires fields == [] && depth <= MAX_SERIALIZE_DEPTH
    ensures WalkFields(heap, fields, start, error, seen, depth) == WalkedFields(start, seen)
    ensures FieldsAreCopies(heap, fields, start, error, start, depth, seen)
  {
  }

  lemma {:induction false} FrontIsDistinct(fields: seq<(string, HeapValue)>)
    requires DistinctKeys(fields) && fields != []
    ensures DistinctKeys(fields[..|fields| - 1])
    ensures forall k :: Names(fields, k) <==> Names(fields[..|fields| - 1], k) || fields[|fields| - 1].0 == k
    ensures !Names(fields[..|fields| - 1], fields[|fields| - 1].0)
  {
    var front, last := fields[..|fields| - 1], fields[|fields| - 1];
    forall k ensures Names(fields, k) <==> Names(front, k) || last.0 == k
    {
      if Names(front, k) {
        var i :| 0 <= i < |front| && front[i].0 == k;
        assert fields[i].0 == k;
      }
      if Names(fields, k) && last.0 != k {
        var i :| 0 <= i < |fields| && fields[i].0 == k;
        assert front[i].0 == k;
      }
    }
  }

  lemma {:induction false} FieldPassedOver(heap: Heap, fields: seq<(string, HeapValue)>, start: map<string, Value>,
                                           m: map<string, Value>, depth: nat, met: set<nat>)
    requires fields != [] && DistinctKeys(fields) && Diff.HasProperty(m, fields[|fields| - 1].0)
    requires FieldsAreCopies(heap, fields[..|fields| - 1], start, true, m, depth, met)
    ensures FieldsAreCopies(heap, fields, start, true, m, depth, met)
  {
    hide IsCopy, Diff.IsInherited, Names;
    FrontIsDistinct(fields);
    var front := fields[..|fields| - 1];
    forall i | 0 <= i < |fields| && fields[i].0 in m && fields[i].0 !in start
      ensures IsCopy(heap, fields[i].1, m[fields[i].0], depth, met)
    {
      assert i < |front| && front[i] == fields[i];
    }
  }

  lemma {:induction false} FieldAssigned(heap: Heap, fields: seq<(string, HeapValue)>, start: map<string, Value>,
                                         error: bool, m: map<string, Value>, t: Value, depth: nat, met: set<nat>,
                                         more: set<nat>)
    requires fields != [] && DistinctKeys(fields) && (error || start == map[]) && met <= more
    requires error ==> !Diff.HasProperty(m, fields[|fields| - 1].0)
    requires FieldsAreCopies(heap, fields[..|fields| - 1], start, error, m, depth, met)
    requires IsCopy(heap, fields[|fields| - 1].1, t, depth, more)
    ensures FieldsAreCopies(heap, fields, start, error, Assign(m, fields[|fields| - 1].0, t), depth, more)
  {
    hide IsCopy, Diff.IsInherited, Names;
    FrontIsDistinct(fields);
    var last := |fields| - 1;
    var front, next := fields[..last], Assign(m, fields[last].0, t);
    assert fields[last].0 !in m;
    forall i | 0 <= i < |fields| && fields[i].0 in next && fields[i].0 !in start
      ensures IsCopy(heap, fields[i].1, next[fields[i].0], depth, more)
    {
      if i < last {
        assert front[i] == fields[i];
        assert IsCopy(heap, fields[i].1, m[fields[i].0], depth, met);
        MeetingMore(heap, fields[i].1, m[fields[i].0], depth, met, more);
      }
    }
  }

  /** On every heap, cyclic or shared, the output has in each place the copy that belongs
      there, or a marker whose reason holds: a depth of twelve, an object that the walk meets
      elsewhere too, a map, a set, a function, a symbol or a long string. */
  lemma {:induction false} SerializedIsCopy(heap: Heap, v: HeapValue)
    requires ProperHeap(heap)
    ensures IsCopy(heap, v, SafeSerialize(heap, v), 0, Walk(heap, v, {}, 0).seen)
  {
    hide IsCopy, Walk;
    WalkCopies(heap, v, {}, 0);
  }
}
