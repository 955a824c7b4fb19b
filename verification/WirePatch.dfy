/** Patching commutes with the wire: it does not matter whether values are encoded
    before or after a patch is applied. */
module WirePatch {
  import opened Values
  import opened Pointer
  import opened Patch

  function WireEdit(edit: Edit): Edit {
    match edit
    case Add(value) => Add(Wire(value))
    case Replace(value) => Replace(Wire(value))
    case Remove => Remove
  }

  function WireOp(op: Op): Op {
    if op.Malformed? then op else Op(op.path, WireEdit(op.edit))
  }

  function WireOps(ops: seq<Op>): seq<Op> {
    seq(|ops|, i requires 0 <= i < |ops| => WireOp(ops[i]))
  }

  predicate SameItem(v: Value, w: Value) {
    WireItem(v) == WireItem(w)
  }

  lemma {:induction false} WireShape(v: Value)
    ensures Wire(v).Arr? <==> v.Arr?
    ensures Wire(v).Obj? <==> v.Obj?
    ensures WireItem(v) == if Wire(v) == Undef then Null else Wire(v)
  {
  }

  lemma {:induction false} SameShape(v: Value, w: Value)
    requires SameItem(v, w)
    ensures v.Arr? <==> w.Arr?
    ensures v.Obj? <==> w.Obj?
    ensures v.Arr? || v.Obj? ==> Same(v, w)
  {
    hide Wire, WireItem;
    WireShape(v);
    WireShape(w);
  }

  lemma {:induction false} SameSet(v: Value, w: Value, path: seq<string>, e: Edit, f: Edit)
    requires SameItem(v, w) && WireEdit(e) == WireEdit(f)
    ensures path != [] && Same(v, w) ==> Same(SetAt(v, path, e), SetAt(w, path, f))
    ensures path == [] ==> Same(SetAt(v, path, e), SetAt(w, path, f))
    ensures SameItem(SetAt(v, path, e), SetAt(w, path, f))
    decreases path, 1
  {
    hide Wire, ToInteger, SetInArray, Listed;
    SameShape(v, w);
    if path == [] {
      SameWritten(e, f);
    } else if v.Arr? {
      SameSetItem(v, w, path, e, f);
    } else if !IsUnsafe(path[0]) {
      SameSetField(v, w, path, e, f);
    }
  }

  lemma {:induction false} SameWritten(e: Edit, f: Edit)
    requires WireEdit(e) == WireEdit(f)
    ensures e.Remove? <==> f.Remove?
    ensures !e.Remove? ==> Same(e.value, f.value) && SameItem(e.value, f.value)
  {
  }

  lemma {:induction false} SameFields(v: Value, w: Value)
    requires SameItem(v, w) && !v.Arr?
    ensures Same(Obj(FieldsOf(v)), Obj(FieldsOf(w)))
  {
    hide Wire, WireItem, SameItem;
    SameShape(v, w);
  }

  /** What a key holds after `setAtPath`; a removed key reads as undefined. */
  lemma {:induction false} GetAfterSet(v: Value, path: seq<string>, e: Edit, k: string)
    requires path != [] && !v.Arr? && !IsUnsafe(path[0])
    ensures SetAt(v, path, e).Obj?
    ensures Get(SetAt(v, path, e).fields, k)
         == if k == path[0] then SetAt(Get(FieldsOf(v), k), path[1..], e) else Get(FieldsOf(v), k)
  {
    hide IsUnsafe;
  }

  lemma {:induction false} SameSetField(v: Value, w: Value, path: seq<string>, e: Edit, f: Edit)
    requires SameItem(v, w) && WireEdit(e) == WireEdit(f)
    requires path != [] && !v.Arr? && !w.Arr? && !IsUnsafe(path[0])
    ensures Same(SetAt(v, path, e), SetAt(w, path, f))
    decreases path, 0
  {
    hide Wire, WireItem, IsUnsafe, WireEdit, SetAt, FieldsOf;
    var head, rest := path[0], path[1..];
    var m, n := FieldsOf(v), FieldsOf(w);
    SameFields(v, w);
    SameObj(m, n);
    GetAfterSet(v, path, e, head);
    GetAfterSet(w, path, f, head);
    var a, b := SetAt(v, path, e), SetAt(w, path, f);
    forall k ensures Same(Get(a.fields, k), Get(b.fields, k))
    {
      GetAfterSet(v, path, e, k);
      GetAfterSet(w, path, f, k);
      assert Same(Get(m, k), Get(n, k));
      if k == head {
        SameAsItems(Get(m, k), Get(n, k));
        SameSet(Get(m, k), Get(n, k), rest, e, f);
      }
    }
    SameObj(a.fields, b.fields);
  }

  lemma {:induction false} SameAsItems(v: Value, w: Value)
    requires Same(v, w)
    ensures SameItem(v, w)
  {
    hide Wire, WireItem;
    WireShape(v);
    WireShape(w);
  }

  lemma {:induction false} SameSetItem(v: Value, w: Value, path: seq<string>, e: Edit, f: Edit)
    requires SameItem(v, w) && WireEdit(e) == WireEdit(f) && path != [] && v.Arr? && w.Arr?
    ensures Same(SetAt(v, path, e), SetAt(w, path, f))
    decreases path, 0
  {
    hide Wire, ToInteger, Listed, WireEdit;
    SameShape(v, w);
    SameArr(v.items, w.items);
    SameWritten(e, f);
    var a, b := SetAt(v, path, e), SetAt(w, path, f);
    assert a == SetInArray(v.items, path[0], path[1..], e);
    assert b == SetInArray(w.items, path[0], path[1..], f);
    var number := ToInteger(path[0]);
    if number.Some? && 0 <= number.value < |v.items| && path[1..] != [] {
      SameSet(v.items[number.value], w.items[number.value], path[1..], e, f);
    }
    SameArr(a.items, b.items);
  }

  /** Equal up to the wire before, equal up to the wire after. */
  lemma {:induction false} WireCommutes(v: Value, w: Value, ops: seq<Op>)
    requires Same(v, w)
    ensures Same(ApplyOps(v, WireOps(ops)), ApplyOps(w, ops))
  {
    hide Wire, SetAt, ParsePath;
    if ops != [] {
      var last := |ops| - 1;
      assert WireOps(ops)[..last] == WireOps(ops[..last]);
      WireCommutes(v, w, ops[..last]);
      var a, b := ApplyOps(v, WireOps(ops[..last])), ApplyOps(w, ops[..last]);
      if ops[last].Op? {
        WireEditTwice(ops[last].edit);
        SameAsItems(a, b);
        SameSet(a, b, ParsePath(ops[last].path), WireEdit(ops[last].edit), ops[last].edit);
      }
    }
  }

  lemma {:induction false} WireEditTwice(edit: Edit)
    ensures WireEdit(WireEdit(edit)) == WireEdit(edit)
  {
    if !edit.Remove? {
      WireTwice(edit.value);
    }
  }
}
