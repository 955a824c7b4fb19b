/** Editing one leaf of a value from the desktop: `toJsonPointer` names it and
    `applyPatch` puts the new value there. */
module Lens {
  import opened Values
  import opened Pointer
  import opened Patch

  datatype Segment = Key(key: string) | Index(index: nat)

  /** `String(seg)` */
  function Text(seg: Segment): string {
    match seg
    case Key(k) => k
    case Index(i) => Decimal(i)
  }

  function Texts(path: seq<Segment>): (r: seq<string>)
    ensures |r| == |path|
  {
    if path == [] then [] else [Text(path[0])] + Texts(path[1..])
  }

  function ToJsonPointer(path: seq<Segment>): string {
    if path == [] then "" else "/" + Escape(Text(path[0])) + ToJsonPointer(path[1..])
  }

  /** The value that `path` leads to. */
  function At(v: Value, path: seq<Segment>): Option<Value> {
    if path == [] then Some(v)
    else match path[0]
      case Key(k) => if v.Obj? && k in v.fields then At(v.fields[k], path[1..]) else None
      case Index(i) => if v.Arr? && i < |v.items| then At(v.items[i], path[1..]) else None
  }

  /** An edit: one replace operation at the printed path. */
  function Put(v: Value, path: seq<Segment>, w: Value): Value {
    ApplyOps(v, [Op(ToJsonPointer(path), Replace(w))])
  }

  predicate SafePath(path: seq<Segment>) {
    forall i | 0 <= i < |path| && path[i].Key? :: !IsUnsafe(path[i].key)
  }

  /** Paths that name what they look like: a lone empty key reads as the root, and
      longer paths than the cap are refused. */
  predicate Addressable(path: seq<Segment>) {
    path != [Key("")] && |path| <= MAX_PATCH_PATH_SEGMENTS
  }

  lemma {:induction false} PointerIsRendered(path: seq<Segment>)
    ensures ToJsonPointer(path) == Render(Texts(path))
  {
    if path != [] {
      PointerIsRendered(path[1..]);
      assert Texts(path)[1..] == Texts(path[1..]);
    }
  }

  /** The reader in `applyOp` recovers the segments that `toJsonPointer` printed. */
  lemma {:induction false} ParsePointer(path: seq<Segment>)
    ensures ParsePath(ToJsonPointer(path)) == if path == [Key("")] then [] else Texts(path)
  {
    PointerIsRendered(path);
    ParseRender(Texts(path));
    if Texts(path) == [""] {
      assert Texts(path)[0] == Text(path[0]);
      if path[0].Index? {
        DecimalDigits(path[0].index);
      }
      assert path == [Key("")];
    }
  }

  lemma {:induction false} PutIsSetAt(v: Value, path: seq<Segment>, w: Value)
    requires Addressable(path)
    ensures Put(v, path, w) == SetAt(v, Texts(path), Replace(w))
  {
    hide ParsePath, SetAt, ToJsonPointer;
    ParsePointer(path);
    ApplyOne(v, Op(ToJsonPointer(path), Replace(w)));
  }

  /** One step of `setAtPath` along a path that exists. */
  lemma {:induction false} SetStep(v: Value, path: seq<Segment>, w: Value)
    requires path != [] && At(v, path).Some? && SafePath(path)
    ensures match path[0]
            case Key(k) =>
              v.Obj? && k in v.fields &&
              SetAt(v, Texts(path), Replace(w)) == Obj(v.fields[k := SetAt(v.fields[k], Texts(path[1..]), Replace(w))])
            case Index(i) =>
              v.Arr? && i < |v.items| &&
              SetAt(v, Texts(path), Replace(w)) == Arr(v.items[i := SetAt(v.items[i], Texts(path[1..]), Replace(w))])
  {
    var ts := Texts(path);
    assert ts[0] == Text(path[0]) && ts[1..] == Texts(path[1..]);
    if path[0].Index? {
      ToIntegerDecimal(path[0].index);
      assert SetAt(v, ts, Replace(w)) == SetInArray(v.items, ts[0], ts[1..], Replace(w));
    }
  }

  lemma {:induction false} SetThenAt(v: Value, path: seq<Segment>, w: Value)
    requires At(v, path).Some? && SafePath(path)
    ensures At(SetAt(v, Texts(path), Replace(w)), path) == Some(w)
  {
    if path != [] {
      SetStep(v, path, w);
      SetThenAt(if path[0].Key? then v.fields[path[0].key] else v.items[path[0].index], path[1..], w);
    }
  }

  lemma {:induction false} SetSame(v: Value, path: seq<Segment>)
    requires At(v, path).Some? && SafePath(path)
    ensures SetAt(v, Texts(path), Replace(At(v, path).value)) == v
  {
    if path != [] {
      SetStep(v, path, At(v, path).value);
      match path[0]
      case Key(k) =>
        SetSame(v.fields[k], path[1..]);
        assert v.fields[k := v.fields[k]] == v.fields;
      case Index(i) =>
        SetSame(v.items[i], path[1..]);
        assert v.items[i := v.items[i]] == v.items;
    }
  }

  lemma {:induction false} SetTwice(v: Value, path: seq<Segment>, w: Value, u: Value)
    requires At(v, path).Some? && SafePath(path)
    ensures SetAt(SetAt(v, Texts(path), Replace(w)), Texts(path), Replace(u)) == SetAt(v, Texts(path), Replace(u))
  {
    if path != [] {
      SetThenAt(v, path, w);
      SetStep(v, path, w);
      SetStep(v, path, u);
      var x := SetAt(v, Texts(path), Replace(w));
      SetStep(x, path, u);
      match path[0]
      case Key(k) =>
        SetTwice(v.fields[k], path[1..], w, u);
        assert x.fields[k := SetAt(x.fields[k], Texts(path[1..]), Replace(u))]
            == v.fields[k := SetAt(x.fields[k], Texts(path[1..]), Replace(u))];
      case Index(i) =>
        SetTwice(v.items[i], path[1..], w, u);
        assert x.items[i := SetAt(x.items[i], Texts(path[1..]), Replace(u))]
            == v.items[i := SetAt(x.items[i], Texts(path[1..]), Replace(u))];
    }
  }

  /** The paths part at some segment that both have. */
  predicate Disjoint(p: seq<Segment>, q: seq<Segment>) {
    p != [] && q != [] && (p[0] != q[0] || Disjoint(p[1..], q[1..]))
  }

  lemma {:induction false} SetElsewhere(v: Value, path: seq<Segment>, w: Value, other: seq<Segment>)
    requires At(v, path).Some? && SafePath(path) && Disjoint(path, other)
    ensures At(SetAt(v, Texts(path), Replace(w)), other) == At(v, other)
  {
    SetStep(v, path, w);
    if path[0] == other[0] {
      SetElsewhere(if path[0].Key? then v.fields[path[0].key] else v.items[path[0].index], path[1..], w, other[1..]);
    }
  }

  /** Editing a leaf that exists is a lens: what is put is what is read, putting
      what is there changes nothing, the last put wins, and every path that parts
      from the edited one reads as before. */
  lemma {:induction false} EditIsALens(v: Value, path: seq<Segment>, w: Value, u: Value, other: seq<Segment>)
    requires At(v, path).Some? && SafePath(path) && Addressable(path)
    ensures At(Put(v, path, w), path) == Some(w)
    ensures Put(v, path, At(v, path).value) == v
    ensures Put(Put(v, path, w), path, u) == Put(v, path, u)
    ensures Disjoint(path, other) ==> At(Put(v, path, w), other) == At(v, other)
  {
    PutIsSetAt(v, path, w);
    PutIsSetAt(v, path, u);
    PutIsSetAt(v, path, At(v, path).value);
    PutIsSetAt(Put(v, path, w), path, u);
    SetThenAt(v, path, w);
    SetSame(v, path);
    SetTwice(v, path, w, u);
    if Disjoint(path, other) {
      SetElsewhere(v, path, w, other);
    }
  }

  lemma {:induction false} SetUnsafe(v: Value, path: seq<Segment>, w: Value)
    requires At(v, path).Some? && !SafePath(path)
    ensures SetAt(v, Texts(path), Replace(w)) == v
  {
    var ts := Texts(path);
    assert ts[0] == Text(path[0]) && ts[1..] == Texts(path[1..]);
    match path[0]
    case Key(k) =>
      if !IsUnsafe(k) {
        assert !SafePath(path[1..]);
        SetUnsafe(v.fields[k], path[1..], w);
        assert path[1..] != [];
        assert v.fields[k := v.fields[k]] == v.fields;
      }
    case Index(i) =>
      ToIntegerDecimal(i);
      assert !SafePath(path[1..]);
      SetUnsafe(v.items[i], path[1..], w);
      assert path[1..] != [];
      assert SetAt(v, ts, Replace(w)) == SetInArray(v.items, ts[0], ts[1..], Replace(w));
      assert v.items[i := v.items[i]] == v.items;
  }

  /** An edit under the empty key of the root replaces the whole value. */
  lemma {:induction false} EmptyKeyEditReplacesRoot(v: Value, w: Value)
    ensures Put(v, [Key("")], w) == w
  {
    hide ParsePath, Texts, ToJsonPointer;
    ParsePointer([Key("")]);
    ApplyOne(v, Op(ToJsonPointer([Key("")]), Replace(w)));
  }

  /** A longer path than the cap is refused. */
  lemma {:induction false} LongEditIsRefused(v: Value, path: seq<Segment>, w: Value)
    requires |path| > MAX_PATCH_PATH_SEGMENTS
    ensures Put(v, path, w) == v
  {
    hide ParsePath, SetAt, ToJsonPointer;
    ParsePointer(path);
    ApplyOne(v, Op(ToJsonPointer(path), Replace(w)));
  }

  /** No object holds itself under the empty key. */
  lemma {:induction false} NotItsOwnField(w: Value)
    ensures At(w, [Key("")]) != Some(w)
  {
    if w.Obj? && "" in w.fields {
      assert At(w, [Key("")]) == Some(w.fields[""]);
      assert w.fields[""] < w;
    }
  }

  /** An edit of an existing leaf is visible there exactly when no key on the way is one
      that assignment must not reach, and the path is neither the root's empty key nor
      longer than the cap. Otherwise nothing changes at all, except that an edit under
      the root's empty key replaces the whole value. */
  lemma {:induction false} EditLandsExactly(v: Value, path: seq<Segment>, w: Value)
    requires At(v, path).Some? && At(v, path).value != w
    ensures At(Put(v, path, w), path) == Some(w) <==> SafePath(path) && Addressable(path)
    ensures !(SafePath(path) && Addressable(path)) ==> Put(v, path, w) == if path == [Key("")] then w else v
  {
    hide SetAt, ToJsonPointer, ParsePath, Put, At;
    if path == [Key("")] {
      EmptyKeyEditReplacesRoot(v, w);
      NotItsOwnField(w);
    } else if |path| > MAX_PATCH_PATH_SEGMENTS {
      LongEditIsRefused(v, path, w);
    } else {
      PutIsSetAt(v, path, w);
      if SafePath(path) {
        SetThenAt(v, path, w);
      } else {
        SetUnsafe(v, path, w);
      }
    }
  }

  /** For one, what an object holds under "constructor" cannot be edited. */
  lemma {:induction false} ConstructorCannotBeEdited(w: Value)
    ensures var v := Obj(map["constructor" := Num(1)]);
            At(v, [Key("constructor")]) == Some(Num(1)) && Put(v, [Key("constructor")], w) == v
  {
    hide ParsePath, Texts, ToJsonPointer;
    var v, path := Obj(map["constructor" := Num(1)]), [Key("constructor")];
    assert path[1..] == [];
    assert path[0] == Key("constructor") && IsUnsafe("constructor");
    assert !SafePath(path);
    if w == Num(1) {
      PutIsSetAt(v, path, w);
      SetUnsafe(v, path, w);
    } else {
      EditLandsExactly(v, path, w);
    }
  }
}
