/** The depth caps of the two packages fit together: what `safeSerialize` lets
    through, `applyPatch` does not refuse and `containsTruncatedValue` sees. */
module Truncation {
  import opened Values
  import opened Pointer
  import opened Patch
  import opened Diff
  import opened RoundTrip
  import opened DiffPatch
  import opened Serialize
  import opened Serialized

  /** `containsTruncatedValue` */
  predicate ContainsTruncatedValue(v: Value, depth: nat)
    decreases v
  {
    if depth > MAX_SERIALIZE_DEPTH then false
    else if IsMarker(v) then true
    else match v
      case Arr(s) => exists i :: 0 <= i < |s| && ContainsTruncatedValue(s[i], depth + 1)
      case Obj(m) => exists k :: k in m && ContainsTruncatedValue(m[k], depth + 1)
      case _ => false
  }

  /** No marker lies more than `d` levels below `v`. */
  predicate MarkersWithin(v: Value, d: int) {
    && (IsMarker(v) ==> d >= 0)
    && match v
       case Arr(s) => forall i | 0 <= i < |s| :: MarkersWithin(s[i], d - 1)
       case Obj(m) => forall k | k in m :: MarkersWithin(m[k], d - 1)
       case _ => true
  }

  lemma {:induction false} DepthBoundsMarkers(v: Value, d: int)
    requires DepthAtMost(v, d + 1)
    ensures MarkersWithin(v, d)
    decreases v
  {
    match v
    case Arr(s) =>
      forall i | 0 <= i < |s| ensures MarkersWithin(s[i], d - 1)
      {
        DepthBoundsMarkers(s[i], d - 1);
      }
    case Obj(m) =>
      forall k | k in m ensures MarkersWithin(m[k], d - 1)
      {
        DepthBoundsMarkers(m[k], d - 1);
      }
    case _ =>
  }

  lemma {:induction false} NothingBelow(v: Value, d: int)
    requires MarkersWithin(v, d) && d < 0
    ensures !HasMarker(v)
    decreases v
  {
    match v
    case Arr(s) =>
      forall i | 0 <= i < |s| ensures !HasMarker(s[i])
      {
        NothingBelow(s[i], d - 1);
      }
    case Obj(m) =>
      forall k | k in m ensures !HasMarker(m[k])
      {
        NothingBelow(m[k], d - 1);
      }
    case _ =>
  }

  /** The capped search finds a marker exactly when there is one. */
  lemma {:induction false} SearchIsExact(v: Value, depth: nat)
    requires MarkersWithin(v, MAX_SERIALIZE_DEPTH - depth)
    ensures ContainsTruncatedValue(v, depth) <==> HasMarker(v)
    decreases v
  {
    if depth > MAX_SERIALIZE_DEPTH {
      NothingBelow(v, MAX_SERIALIZE_DEPTH - depth);
    } else {
      match v
      case Arr(s) =>
        forall i | 0 <= i < |s| ensures ContainsTruncatedValue(s[i], depth + 1) <==> HasMarker(s[i])
        {
          SearchIsExact(s[i], depth + 1);
        }
      case Obj(m) =>
        forall k | k in m ensures ContainsTruncatedValue(m[k], depth + 1) <==> HasMarker(m[k])
        {
          SearchIsExact(m[k], depth + 1);
        }
      case _ =>
    }
  }

  /** The check before a write misses nothing that the serializer marked. */
  lemma {:induction false} SerializedIsChecked(heap: Heap, v: HeapValue)
    ensures ContainsTruncatedValue(SafeSerialize(heap, v), 0) <==> HasMarker(SafeSerialize(heap, v))
  {
    hide Walk, HasMarker;
    WalkDepth(heap, v, {}, 0);
    DepthBoundsMarkers(SafeSerialize(heap, v), MAX_SERIALIZE_DEPTH);
    SearchIsExact(SafeSerialize(heap, v), 0);
  }

  // ---- without the bound ----

  /** `w` lies `d` levels below `v`. */
  ghost predicate Below(v: Value, d: nat, w: Value) {
    if d == 0 then w == v
    else match v
      case Arr(s) => exists i :: 0 <= i < |s| && Below(s[i], d - 1, w)
      case Obj(m) => exists k :: k in m && Below(m[k], d - 1, w)
      case _ => false
  }

  /** The search finds a marker in any value exactly if one lies at most twelve levels
      down, counted from the root. */
  lemma {:induction false} SearchedExactly(v: Value, depth: nat)
    ensures ContainsTruncatedValue(v, depth) <==>
            exists d: nat, w :: Below(v, d, w) && depth + d <= MAX_SERIALIZE_DEPTH && IsMarker(w)
    decreases v
  {
    if ContainsTruncatedValue(v, depth) {
      var d, w := FoundMarker(v, depth);
    }
    if exists d: nat, w :: Below(v, d, w) && depth + d <= MAX_SERIALIZE_DEPTH && IsMarker(w) {
      var d: nat, w :| Below(v, d, w) && depth + d <= MAX_SERIALIZE_DEPTH && IsMarker(w);
      MarkerIsFound(v, depth, d, w);
    }
  }

  lemma {:induction false} FoundMarker(v: Value, depth: nat) returns (d: nat, w: Value)
    requires ContainsTruncatedValue(v, depth)
    ensures Below(v, d, w) && depth + d <= MAX_SERIALIZE_DEPTH && IsMarker(w)
    decreases v
  {
    hide IsMarker;
    if IsMarker(v) {
      d, w := 0, v;
    } else {
      var e: nat;
      match v
      case Arr(s) =>
        var i :| 0 <= i < |s| && ContainsTruncatedValue(s[i], depth + 1);
        e, w := FoundMarker(s[i], depth + 1);
        d := e + 1;
      case Obj(m) =>
        var k :| k in m && ContainsTruncatedValue(m[k], depth + 1);
        e, w := FoundMarker(m[k], depth + 1);
        d := e + 1;
      case _ =>
    }
  }

  lemma {:induction false} MarkerIsFound(v: Value, depth: nat, d: nat, w: Value)
    requires Below(v, d, w) && depth + d <= MAX_SERIALIZE_DEPTH && IsMarker(w)
    ensures ContainsTruncatedValue(v, depth)
    decreases v
  {
    hide IsMarker;
    if d > 0 && !IsMarker(v) {
      match v
      case Arr(s) =>
        var i :| 0 <= i < |s| && Below(s[i], d - 1, w);
        MarkerIsFound(s[i], depth + 1, d - 1, w);
      case Obj(m) =>
        var k :| k in m && Below(m[k], d - 1, w);
        MarkerIsFound(m[k], depth + 1, d - 1, w);
    }
  }

  /** `k` arrays around `v`. */
  function Nest(v: Value, k: nat): Value {
    if k == 0 then v else Arr([Nest(v, k - 1)])
  }

  /** So a marker is missed whenever enough arrays are put around it. */
  lemma {:induction false} DeepMarkersAreMissed(v: Value, k: nat, depth: nat)
    requires k + depth > MAX_SERIALIZE_DEPTH
    ensures !ContainsTruncatedValue(Nest(v, k), depth)
    ensures HasMarker(v) ==> HasMarker(Nest(v, k))
    decreases k
  {
    if HasMarker(v) {
      NestKeepsMarker(v, k);
    }
    if depth <= MAX_SERIALIZE_DEPTH {
      DeepMarkersAreMissed(v, k - 1, depth + 1);
      assert Nest(v, k).items[0] == Nest(v, k - 1);
    }
  }

  lemma {:induction false} NestKeepsMarker(v: Value, k: nat)
    requires HasMarker(v)
    ensures HasMarker(Nest(v, k))
  {
    if k > 0 {
      NestKeepsMarker(v, k - 1);
      assert Nest(v, k).items[0] == Nest(v, k - 1);
    }
  }

  /** Thirteen are enough. */
  lemma {:induction false} ThirteenArraysHideMarker(originalType: string, preview: string)
    ensures var v := Nest(Marker(originalType, preview, Undef), 13);
            HasMarker(v) && !ContainsTruncatedValue(v, 0)
  {
    DeepMarkersAreMissed(Marker(originalType, preview, Undef), 13, 0);
  }

  // ---- after an edit ----

  lemma {:induction false} NoMarkerWithin(v: Value, d: int)
    requires !HasMarker(v)
    ensures MarkersWithin(v, d)
    decreases v
  {
    match v
    case Arr(s) =>
      forall i | 0 <= i < |s| ensures MarkersWithin(s[i], d - 1)
      {
        NoMarkerWithin(s[i], d - 1);
      }
    case Obj(m) =>
      forall k | k in m ensures MarkersWithin(m[k], d - 1)
      {
        NoMarkerWithin(m[k], d - 1);
      }
    case _ =>
  }

  /** A marker-free edit on a path of at most `d + 1` segments, whatever the path
      leads through, creates no marker further down than `d`. */
  lemma {:induction false} EditKeepsBound(v: Value, path: seq<string>, edit: Edit, d: int)
    requires MarkersWithin(v, d) && |path| <= d + 1
    requires edit.Remove? || !HasMarker(edit.value)
    ensures MarkersWithin(SetAt(v, path, edit), d)
    decreases path
  {
    if path == [] {
      if !edit.Remove? {
        NoMarkerWithin(edit.value, d);
      }
    } else if v.Arr? {
      EditItemKeepsBound(v, path, edit, d);
    } else if !IsUnsafe(path[0]) {
      EditFieldKeepsBound(v, path, edit, d);
    }
  }

  lemma {:induction false} EditFieldKeepsBound(v: Value, path: seq<string>, edit: Edit, d: int)
    requires MarkersWithin(v, d) && 0 < |path| <= d + 1 && !v.Arr? && !IsUnsafe(path[0])
    requires edit.Remove? || !HasMarker(edit.value)
    ensures MarkersWithin(SetAt(v, path, edit), d)
    decreases path, 0
  {
    var fields := if v.Obj? then v.fields else map[];
    var old_ := Get(fields, path[0]);
    assert MarkersWithin(old_, d - 1);
    if path[1..] != [] {
      EditKeepsBound(old_, path[1..], edit, d - 1);
    } else if !edit.Remove? {
      NoMarkerWithin(edit.value, d - 1);
    }
  }

  lemma {:induction false} EditItemKeepsBound(v: Value, path: seq<string>, edit: Edit, d: int)
    requires MarkersWithin(v, d) && 0 < |path| <= d + 1 && v.Arr?
    requires edit.Remove? || !HasMarker(edit.value)
    ensures MarkersWithin(SetAt(v, path, edit), d)
    decreases path, 0
  {
    var number := ToInteger(path[0]);
    assert SetAt(v, path, edit) == SetInArray(v.items, path[0], path[1..], edit);
    if !edit.Remove? {
      NoMarkerWithin(edit.value, d - 1);
    }
    if number.Some? && 0 <= number.value < |v.items| && path[1..] != [] {
      EditKeepsBound(v.items[number.value], path[1..], edit, d - 1);
    }
  }

  /** The check also holds good for a serialized value with one leaf edited, by any
      path no longer than such a value is deep. */
  lemma {:induction false} EditedIsChecked(heap: Heap, v: HeapValue, path: string, edit: Edit)
    requires |ParsePath(path)| <= MAX_SERIALIZE_DEPTH + 1
    requires edit.Remove? || !HasMarker(edit.value)
    ensures var edited := ApplyOps(SafeSerialize(heap, v), [Op(path, edit)]);
            ContainsTruncatedValue(edited, 0) <==> HasMarker(edited)
  {
    hide Walk, HasMarker, ParsePath, SetAt, MarkersWithin, ContainsTruncatedValue;
    var value := SafeSerialize(heap, v);
    WalkDepth(heap, v, {}, 0);
    DepthBoundsMarkers(value, MAX_SERIALIZE_DEPTH);
    EditKeepsBound(value, ParsePath(path), edit, MAX_SERIALIZE_DEPTH);
    ApplyOne(value, Op(path, edit));
    SearchIsExact(ApplyOps(value, [Op(path, edit)]), 0);
  }

  // ---- paths of diffs ----

  predicate PathsWithin(ops: seq<RelOp>, d: int) {
    forall op | op in ops :: |op.path| <= d
  }

  lemma {:induction false} FlatPathsWithin(ks: seq<string>, subs: seq<seq<RelOp>>, d: int)
    requires |ks| == |subs| && forall i | 0 <= i < |subs| :: PathsWithin(subs[i], d)
    ensures PathsWithin(Flat(ks, subs), d + 1)
  {
    if ks != [] {
      var last := |ks| - 1;
      FlatPathsWithin(ks[..last], subs[..last], d);
      forall op | op in Under(ks[last], subs[last]) ensures |op.path| <= d + 1
      {
        var i :| 0 <= i < |subs[last]| && op == Under(ks[last], subs[last])[i];
        assert subs[last][i] in subs[last];
      }
    }
  }

  /** A diff never reaches deeper than the value it leads to. */
  lemma {:induction false} DiffPathsWithin(p: Value, n: Value, ops: seq<RelOp>, d: nat)
    requires IsDiff(p, n, ops) && DepthAtMost(n, d)
    ensures PathsWithin(ops, d)
    decreases n
  {
    hide HasProperty, Property, Flat;
    if BothObjects(p, n) {
      var ks, r, subs :| IsObjectDiff(p, n, ks, r, subs) && ops == Flat(ks, subs);
      forall i | 0 <= i < |subs| ensures PathsWithin(subs[i], d - 1)
      {
        if i >= r {
          assert IsEntryDiff(p, n, ks[i], subs[i]);
          if HasProperty(p.fields, ks[i]) {
            DiffPathsWithin(Property(p.fields, ks[i]), n.fields[ks[i]], subs[i], d - 1);
          }
        }
      }
      FlatPathsWithin(ks, subs, d - 1);
    } else if SameLength(p, n) {
      var subs :| IsArrayDiff(p, n, subs) && ops == Flat(Indices(|n.items|), subs);
      forall i | 0 <= i < |subs| ensures PathsWithin(subs[i], d - 1)
      {
        DiffPathsWithin(p.items[i], n.items[i], subs[i], d - 1);
      }
      FlatPathsWithin(Indices(|n.items|), subs, d - 1);
    }
  }

  /** Paths between serialized values have at most 13 segments, far below the cap
      at which `applyOp` drops an operation. */
  lemma {:induction false} SerializedPathsAreShort(heap: Heap, v: HeapValue, p: Value, ops: seq<RelOp>)
    requires IsDiff(p, SafeSerialize(heap, v), ops)
    ensures PathsWithin(ops, MAX_SERIALIZE_DEPTH + 1)
    ensures MAX_SERIALIZE_DEPTH + 1 <= MAX_PATCH_PATH_SEGMENTS
  {
    hide Walk, IsDiff;
    WalkDepth(heap, v, {}, 0);
    DiffPathsWithin(p, SafeSerialize(heap, v), ops, MAX_SERIALIZE_DEPTH + 1);
  }

  /** Serialized values without reserved keys are therefore always transmissible. */
  lemma {:induction false} SerializedIsTransmissible(heap: Heap, v: HeapValue, p: Value)
    requires NoReservedKeys(p) && NoReservedKeys(SafeSerialize(heap, v))
    ensures Transmissible(p, SafeSerialize(heap, v), MAX_PATCH_PATH_SEGMENTS)
    ensures NoFunc(SafeSerialize(heap, v))
  {
    hide Walk, NoReservedKeys, Transmissible;
    WalkDepth(heap, v, {}, 0);
    DeeperAllowed(SafeSerialize(heap, v), MAX_SERIALIZE_DEPTH + 1, MAX_PATCH_PATH_SEGMENTS);
    OrdinaryIsTransmissible(p, SafeSerialize(heap, v), MAX_PATCH_PATH_SEGMENTS);
  }
}
