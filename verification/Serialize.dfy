/** `safeSerialize`: a copy of anything on the heap that is safe to send. */
module Serialize {
  import opened Values
  import Pointer
  import Diff

  const MAX_SERIALIZE_DEPTH := 12
  const MAX_VALUE_SIZE := 20000

  // ---- what the app holds ----

  datatype Primitive =
    | Plain(value: Scalar)
    | Function(name: string)
    | Symbol(text: string)
    | BigInt(digits: string)

  datatype Scalar = Nothing | Null | Bool(b: bool) | Num(n: int) | Str(s: string)

  datatype HeapValue = Prim(primitive: Primitive) | Ref(id: nat)

  /** An object as `walk` tells them apart; `fields` are its own enumerable keys in
      enumeration order. */
  datatype Cell =
    | ArrayCell(items: seq<HeapValue>)
    | MapCell(size: nat)
    | SetCell(size: nat)
    | DateCell(iso: string)
    | ErrorCell(name: Primitive, message: Primitive, stack: Primitive, fields: seq<(string, HeapValue)>)
    | ObjectCell(fields: seq<(string, HeapValue)>)

  /** References may be shared and may form cycles. */
  type Heap = nat -> Cell

  // ---- markers ----

  const MARKER_KEY := "__spyglass_truncated"

  function Marker(originalType: string, preview: string, originalSize: Value): Value {
    Obj(map[
      MARKER_KEY := Value.Bool(true),
      "originalType" := Value.Str(originalType),
      "preview" := Value.Str(preview),
      "originalSize" := originalSize])
  }

  /** `isTruncatedValue` */
  predicate IsMarker(v: Value) {
    v.Obj? && Get(v.fields, MARKER_KEY) == Value.Bool(true)
  }

  predicate HasMarker(v: Value) {
    IsMarker(v) ||
    match v
    case Arr(s) => exists i :: 0 <= i < |s| && HasMarker(s[i])
    case Obj(m) => exists k :: k in m && HasMarker(m[k])
    case _ => false
  }

  function Names(cell: Cell): seq<string> {
    if cell.ObjectCell? || cell.ErrorCell? then seq(|cell.fields|, i requires 0 <= i < |cell.fields| => cell.fields[i].0)
    else []
  }

  function Joined(names: seq<string>): string {
    if names == [] then ""
    else if |names| == 1 then names[0]
    else names[0] + ", " + Joined(names[1..])
  }

  /** `describeShape` */
  function Shape(cell: Cell): string {
    if cell.ArrayCell? then "Array(" + Pointer.Decimal(|cell.items|) + ")"
    else
      var names := Names(cell);
      "{ " + Joined(if |names| > 6 then names[..6] else names) + (if |names| > 6 then ", \U{2026}" else "") + " }"
  }

  function NormalizePrimitive(p: Primitive): Value {
    match p
    case Function(name) =>
      Marker("function", "\U{0192} " + (if name == "" then "anonymous" else name) + "()", Undef)
    case Symbol(text) => Marker("symbol", text, Undef)
    case BigInt(digits) => Value.Str(digits)
    case Plain(Str(s)) =>
      if |s| > MAX_VALUE_SIZE then Marker("string", s[..200] + "\U{2026}", Value.Num(|s|)) else Value.Str(s)
    case Plain(value) => Copy(value)
  }

  function Copy(value: Scalar): Value {
    match value
    case Nothing => Undef
    case Null => Value.Null
    case Bool(b) => Value.Bool(b)
    case Num(n) => Value.Num(n)
    case Str(s) => Value.Str(s)
  }

  // ---- walk ----

  datatype Walked = Walked(out: Value, seen: set<nat>)
  datatype WalkedItems = WalkedItems(items: seq<Value>, seen: set<nat>)
  datatype WalkedFields = WalkedFields(fields: map<string, Value>, seen: set<nat>)

  function Walk(heap: Heap, v: HeapValue, seen: set<nat>, depth: nat): Walked
    requires depth <= MAX_SERIALIZE_DEPTH
    decreases MAX_SERIALIZE_DEPTH - depth, 0
  {
    if v.Prim? then Walked(NormalizePrimitive(v.primitive), seen)
    else
      var cell := heap(v.id);
      if depth >= MAX_SERIALIZE_DEPTH then Walked(Marker("max-depth-exceeded", Shape(cell), Undef), seen)
      else if v.id in seen then Walked(Marker("circular-reference", Shape(cell), Undef), seen)
      else
        match cell
        case ArrayCell(items) =>
          var r := WalkItems(heap, items, seen + {v.id}, depth + 1);
          Walked(Arr(r.items), r.seen)
        case MapCell(size) =>
          Walked(Marker("Map", "Map(" + Pointer.Decimal(size) + ")", Undef), seen + {v.id})
        case SetCell(size) =>
          Walked(Marker("Set", "Set(" + Pointer.Decimal(size) + ")", Undef), seen + {v.id})
        case DateCell(iso) => Walked(Value.Str(iso), seen)
        case ErrorCell(_, _, _, fields) =>
          var r := WalkFields(heap, fields, ErrorFields(cell), true, seen + {v.id}, depth + 1);
          Walked(Obj(r.fields), r.seen)
        case ObjectCell(fields) =>
          var r := WalkFields(heap, fields, map[], false, seen + {v.id}, depth + 1);
          Walked(Obj(r.fields), r.seen)
  }

  function ErrorFields(cell: Cell): map<string, Value>
    requires cell.ErrorCell?
  {
    map["name" := NormalizePrimitive(cell.name),
        "message" := NormalizePrimitive(cell.message),
        "stack" := NormalizePrimitive(cell.stack)]
  }

  function WalkItems(heap: Heap, items: seq<HeapValue>, seen: set<nat>, depth: nat): (r: WalkedItems)
    requires depth <= MAX_SERIALIZE_DEPTH
    ensures |r.items| == |items|
    decreases MAX_SERIALIZE_DEPTH - depth, 1 + |items|
  {
    if items == [] then WalkedItems([], seen)
    else
      var last := |items| - 1;
      var before := WalkItems(heap, items[..last], seen, depth);
      var item := Walk(heap, items[last], before.seen, depth);
      WalkedItems(before.items + [item.out], item.seen)
  }

  /** `out[key] = value`: assigning to this one name adds no key. */
  function Assign(out: map<string, Value>, key: string, value: Value): map<string, Value> {
    if key == "__proto__" then out else out[key := value]
  }

  /** Fills `out` key by key; of an error, the keys that `out` has or inherits are
      passed over. */
  function WalkFields(heap: Heap, fields: seq<(string, HeapValue)>, out: map<string, Value>, error: bool,
                      seen: set<nat>, depth: nat): WalkedFields
    requires depth <= MAX_SERIALIZE_DEPTH
    decreases MAX_SERIALIZE_DEPTH - depth, 1 + |fields|
  {
    if fields == [] then WalkedFields(out, seen)
    else
      var last := |fields| - 1;
      var before := WalkFields(heap, fields[..last], out, error, seen, depth);
      if error && Diff.HasProperty(before.fields, fields[last].0) then before
      else
        var field := Walk(heap, fields[last].1, before.seen, depth);
        WalkedFields(Assign(before.fields, fields[last].0, field.out), field.seen)
  }

  /** `safeSerialize` */
  function SafeSerialize(heap: Heap, v: HeapValue): Value {
    Walk(heap, v, {}, 0).out
  }

  /** The recursion as it runs, with the one WeakSet that all calls share. */
  class Serializer {
    const heap: Heap
    var seen: set<nat>

    constructor (heap: Heap)
      ensures this.heap == heap && seen == {}
    {
      this.heap := heap;
      seen := {};
    }

    method Visit(v: HeapValue, depth: nat) returns (out: Value)
      requires depth <= MAX_SERIALIZE_DEPTH
      modifies this
      ensures Walked(out, seen) == Walk(heap, v, old(seen), depth)
      decreases MAX_SERIALIZE_DEPTH - depth, 0
    {
      if v.Prim? {
        return NormalizePrimitive(v.primitive);
      }
      var cell := heap(v.id);
      if depth >= MAX_SERIALIZE_DEPTH {
        return Marker("max-depth-exceeded", Shape(cell), Undef);
      }
      if v.id in seen {
        return Marker("circular-reference", Shape(cell), Undef);
      }
      match cell
      case ArrayCell(items) =>
        seen := seen + {v.id};
        out := VisitItems(items, depth + 1);
      case MapCell(size) =>
        seen := seen + {v.id};
        return Marker("Map", "Map(" + Pointer.Decimal(size) + ")", Undef);
      case SetCell(size) =>
        seen := seen + {v.id};
        return Marker("Set", "Set(" + Pointer.Decimal(size) + ")", Undef);
      case DateCell(iso) =>
        return Value.Str(iso);
      case ErrorCell(_, _, _, fields) =>
        seen := seen + {v.id};
        out := VisitFields(fields, ErrorFields(cell), true, depth + 1);
      case ObjectCell(fields) =>
        seen := seen + {v.id};
        out := VisitFields(fields, map[], false, depth + 1);
    }

    method VisitItems(items: seq<HeapValue>, depth: nat) returns (out: Value)
      requires depth <= MAX_SERIALIZE_DEPTH
      modifies this
      ensures out.Arr? && WalkedItems(out.items, seen) == WalkItems(heap, items, old(seen), depth)
      decreases MAX_SERIALIZE_DEPTH - depth, 1
    {
      var copies: seq<Value> := [];
      for i := 0 to |items|
        invariant WalkedItems(copies, seen) == WalkItems(heap, items[..i], old(seen), depth)
      {
        assert items[..i + 1][..i] == items[..i];
        var copy := Visit(items[i], depth);
        copies := copies + [copy];
      }
      assert items[..|items|] == items;
      out := Arr(copies);
    }

    method VisitFields(fields: seq<(string, HeapValue)>, start: map<string, Value>, error: bool, depth: nat)
      returns (out: Value)
      requires depth <= MAX_SERIALIZE_DEPTH
      modifies this
      ensures out.Obj? && WalkedFields(out.fields, seen) == WalkFields(heap, fields, start, error, old(seen), depth)
      decreases MAX_SERIALIZE_DEPTH - depth, 1
    {
      var copies := start;
      for i := 0 to |fields|
        invariant WalkedFields(copies, seen) == WalkFields(heap, fields[..i], start, error, old(seen), depth)
      {
        assert fields[..i + 1][..i] == fields[..i];
        if !(error && Diff.HasProperty(copies, fields[i].0)) {
          var copy := Visit(fields[i].1, depth);
          copies := Assign(copies, fields[i].0, copy);
        }
      }
      assert fields[..|fields|] == fields;
      out := Obj(copies);
    }
  }
}
