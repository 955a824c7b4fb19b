/** Where applying a diff leads: exactly when it ends at the next value, for whatever
    value it is applied to. */
module Landing {
  import opened Values
  import opened Pointer
  import opened Patch
  import opened Diff

  /** A diff cannot change what a key holds: writes to it are refused, or its
      removal goes unnoticed because every object inherits the name. */
  predicate Mute(n: map<string, Value>, k: string) {
    IsUnsafe(k) || (k !in n && IsInherited(k))
  }

  // ---- when a diff says anything ----

  /** The diff holds an operation of at most `b` segments. */
  ghost predicate Speaks(p: Value, n: Value, b: nat)
    decreases n, 1
  {
    if BothObjects(p, n) then exists k :: Touches(p, n, k, b)
    else if SameLength(p, n) then
      b > 0 && exists i :: 0 <= i < |n.items| && Speaks(p.items[i], n.items[i], b - 1)
    else p != n
  }

  /** It holds one that begins with `k`. */
  ghost predicate Touches(p: Value, n: Value, k: string, b: nat)
    requires BothObjects(p, n)
    decreases n, 0
  {
    b > 0 &&
    if k in n.fields then HasProperty(p.fields, k) ==> Speaks(Property(p.fields, k), n.fields[k], b - 1)
    else k in p.fields && !HasProperty(n.fields, k)
  }

  /** It makes an object of what is none. */
  ghost predicate Rouses(p: Value, n: Value, b: nat)
    requires BothObjects(p, n)
  {
    exists k :: !IsUnsafe(k) && Touches(p, n, k, b)
  }

  // ---- where it leads ----

  /** Applied to `d` with paths of at most `b` segments, the diff from `p` to `n` ends
      at `n`. */
  ghost predicate Lands(d: Value, p: Value, n: Value, b: nat)
    decreases n, 1
  {
    if BothObjects(p, n) then
      if b == 0 then Same(d, n)
      else
        && !d.Arr? && (d.Obj? || Rouses(p, n, b))
        && forall k :: KeyLands(Get(FieldsOf(d), k), p, n, k, b - 1)
    else if SameLength(p, n) then
      if b == 0 then Same(d, n)
      else
        && d.Arr? && |d.items| <= |n.items|
        && forall i | 0 <= i < |n.items| ::
             if i < |d.items| then ItemLands(d.items[i], p.items[i], n.items[i], b - 1)
             else Replaced(p.items[i], n.items[i])
    else p != n || Same(d, n)
  }

  /** What key `k` holds becomes what it holds in `n`. */
  ghost predicate KeyLands(x: Value, p: Value, n: Value, k: string, b: nat)
    requires BothObjects(p, n)
    decreases n, 0
  {
    if Mute(n.fields, k) || (k !in n.fields && k !in p.fields) then Same(x, Get(n.fields, k))
    else k in n.fields && k in p.fields ==> Lands(x, p.fields[k], n.fields[k], b)
  }

  /** In an array undefined is null. */
  ghost predicate ItemLands(x: Value, p: Value, n: Value, b: nat)
    decreases n, 2
  {
    if BothObjects(p, n) || SameLength(p, n) then Lands(x, p, n, b)
    else p != n || WireItem(x) == WireItem(n)
  }

  // ---- one node of a diff ----

  /** A key new to the object is written at once, whether or not it is inherited. */
  lemma {:induction false} FreshEntry(p: Value, n: Value, k: string, sub: seq<RelOp>)
    requires BothObjects(p, n) && NoFunc(n) && k in n.fields && k !in p.fields && !IsUnsafe(k)
    requires IsEntryDiff(p, n, k, sub)
    ensures sub == [RelOp([], Add(n.fields[k]))] || sub == [RelOp([], Replace(n.fields[k]))]
  {
    if HasProperty(p.fields, k) {
      assert Property(p.fields, k) == Func(k);
      assert IsDiff(Func(k), n.fields[k], sub);
      assert NoFunc(n.fields[k]);
    }
  }

  /** What an object diff from `p` to `n` makes of the value `d` under key `k`. */
  lemma {:induction false} KeyPatched(d: Value, w: Value, p: Value, n: Value,
                                      ks: seq<string>, r: nat, subs: seq<seq<RelOp>>, k: string, b: nat)
    returns (sub: seq<RelOp>)
    requires BothObjects(p, n) && NoFunc(n) && IsObjectDiff(p, n, ks, r, subs)
    requires k !in ks || IsUnsafe(k) ==> w == d
    requires forall i | 0 <= i < |ks| && ks[i] == k && !IsUnsafe(k) :: w == ApplyRel(d, subs[i], b)
    ensures Mute(n.fields, k) || (k !in n.fields && k !in p.fields) ==> w == d
    ensures !Mute(n.fields, k) && k in n.fields && k in p.fields ==>
              IsDiff(p.fields[k], n.fields[k], sub) && w == ApplyRel(d, sub, b)
    ensures !Mute(n.fields, k) && (k !in n.fields || k !in p.fields) && (k in n.fields || k in p.fields) ==>
              w == Get(n.fields, k)
  {
    hide ApplyRel, IsDiff, IsUnsafe, IsInherited;
    sub := [];
    if IsUnsafe(k) {
    } else if k in n.fields {
      assert k in ks[r..];
      var i :| r <= i < |ks| && ks[i] == k;
      sub := subs[i];
      assert IsEntryDiff(p, n, k, sub);
      if k !in p.fields {
        FreshEntry(p, n, k, sub);
        ApplyWrite(d, sub[0].edit, b);
      }
    } else if k in p.fields && !IsInherited(k) {
      assert k in ks[..r];
      var i :| 0 <= i < r && ks[i] == k;
      ApplyWrite(d, Remove, b);
    } else {
      assert k !in ks;
    }
  }

  lemma {:induction false} ApplyWrite(v: Value, edit: Edit, b: nat)
    ensures ApplyRel(v, [RelOp([], edit)], b) == if edit.Remove? then Undef else edit.value
  {
    assert [RelOp([], edit)][..0] == [];
  }

  lemma {:induction false} LongerPathsDropped(v: Value, ops: seq<RelOp>)
    requires forall op | op in ops :: op.path != []
    ensures ApplyRel(v, ops, 0) == v
  {
    if ops != [] {
      LongerPathsDropped(v, ops[..|ops| - 1]);
    }
  }

  lemma {:induction false} DistinctKeys(p: Value, n: Value, ks: seq<string>, r: nat, subs: seq<seq<RelOp>>)
    requires BothObjects(p, n) && IsObjectDiff(p, n, ks, r, subs)
    ensures |ks| == |subs| && Distinct(ks)
  {
  }

  // ---- short operations ----

  predicate HasShort(ops: seq<RelOp>, b: int) {
    exists j :: 0 <= j < |ops| && |ops[j].path| <= b
  }

  predicate IsRousing(op: RelOp, b: int) {
    0 < |op.path| <= b && !IsUnsafe(op.path[0])
  }

  predicate HasRousing(ops: seq<RelOp>, b: int) {
    exists j :: 0 <= j < |ops| && IsRousing(ops[j], b)
  }

  /** Where an operation of a diff comes from. */
  lemma {:induction false} FromSub(ks: seq<string>, subs: seq<seq<RelOp>>, j: nat) returns (t: nat, u: nat)
    requires |ks| == |subs| && j < |Flat(ks, subs)|
    ensures t < |ks| && u < |subs[t]| && Flat(ks, subs)[j] == RelOp([ks[t]] + subs[t][u].path, subs[t][u].edit)
  {
    var last := |ks| - 1;
    var front := Flat(ks[..last], subs[..last]);
    if j < |front| {
      t, u := FromSub(ks[..last], subs[..last], j);
    } else {
      t, u := last, j - |front|;
    }
  }

  lemma {:induction false} ToFlat(ks: seq<string>, subs: seq<seq<RelOp>>, t: nat, u: nat) returns (j: nat)
    requires |ks| == |subs| && t < |ks| && u < |subs[t]|
    ensures j < |Flat(ks, subs)| && Flat(ks, subs)[j] == RelOp([ks[t]] + subs[t][u].path, subs[t][u].edit)
  {
    var last := |ks| - 1;
    if t < last {
      j := ToFlat(ks[..last], subs[..last], t, u);
    } else {
      j := |Flat(ks[..last], subs[..last])| + u;
    }
  }

  lemma {:induction false} FlatIsShort(ks: seq<string>, subs: seq<seq<RelOp>>, b: int)
    requires |ks| == |subs|
    ensures HasShort(Flat(ks, subs), b) <==> exists t :: 0 <= t < |ks| && HasShort(subs[t], b - 1)
    ensures HasRousing(Flat(ks, subs), b)
            <==> exists t :: 0 <= t < |ks| && !IsUnsafe(ks[t]) && HasShort(subs[t], b - 1)
  {
    hide Flat, IsUnsafe;
    var ops := Flat(ks, subs);
    if HasShort(ops, b) {
      var j :| 0 <= j < |ops| && |ops[j].path| <= b;
      var t, u := FromSub(ks, subs, j);
      assert HasShort(subs[t], b - 1);
    }
    if HasRousing(ops, b) {
      var j :| 0 <= j < |ops| && IsRousing(ops[j], b);
      var t, u := FromSub(ks, subs, j);
      assert HasShort(subs[t], b - 1);
    }
    forall t | 0 <= t < |ks| && HasShort(subs[t], b - 1)
      ensures HasShort(ops, b) && (!IsUnsafe(ks[t]) ==> HasRousing(ops, b))
    {
      var u :| 0 <= u < |subs[t]| && |subs[t][u].path| <= b - 1;
      var j := ToFlat(ks, subs, t, u);
      assert !IsUnsafe(ks[t]) ==> IsRousing(ops[j], b);
    }
  }

  lemma {:induction false} SpeaksExactly(p: Value, n: Value, ops: seq<RelOp>, b: nat)
    requires IsDiff(p, n, ops)
    ensures Speaks(p, n, b) <==> HasShort(ops, b)
    decreases n, 2
  {
    if BothObjects(p, n) {
      var ks, r, subs :| IsObjectDiff(p, n, ks, r, subs) && ops == Flat(ks, subs);
      if b > 0 {
        ObjectSpeaks(p, n, ks, r, subs, b);
      } else {
        NonemptyPaths(ks, subs);
        assert forall j | 0 <= j < |ops| :: ops[j] in ops;
      }
    } else if SameLength(p, n) {
      var subs :| IsArrayDiff(p, n, subs) && ops == Flat(Indices(|n.items|), subs);
      if b > 0 {
        ArraySpeaks(p, n, subs, b);
      } else {
        NonemptyPaths(Indices(|n.items|), subs);
        assert forall j | 0 <= j < |ops| :: ops[j] in ops;
      }
    } else if p != n {
      assert |ops[0].path| <= b;
    }
  }

  lemma {:induction false} ArraySpeaks(p: Value, n: Value, subs: seq<seq<RelOp>>, b: nat)
    requires SameLength(p, n) && b > 0 && IsArrayDiff(p, n, subs)
    ensures Speaks(p, n, b) <==> HasShort(Flat(Indices(|n.items|), subs), b)
    decreases n, 1
  {
    hide IsDiff, Flat, HasShort;
    FlatIsShort(Indices(|n.items|), subs, b);
    forall i | 0 <= i < |n.items| ensures Speaks(p.items[i], n.items[i], b - 1) <==> HasShort(subs[i], b - 1)
    {
      SpeaksExactly(p.items[i], n.items[i], subs[i], b - 1);
    }
  }

  lemma {:induction false} ObjectSpeaks(p: Value, n: Value, ks: seq<string>, r: nat, subs: seq<seq<RelOp>>, b: nat)
    requires BothObjects(p, n) && b > 0 && IsObjectDiff(p, n, ks, r, subs)
    ensures Speaks(p, n, b) <==> HasShort(Flat(ks, subs), b)
    ensures Rouses(p, n, b) <==> HasRousing(Flat(ks, subs), b)
    decreases n, 1
  {
    hide IsDiff, Flat, HasShort, HasRousing, Touches, IsUnsafe, IsInherited, Distinct;
    FlatIsShort(ks, subs, b);
    forall t | 0 <= t < |ks| ensures Touches(p, n, ks[t], b) <==> HasShort(subs[t], b - 1)
    {
      KeySpeaks(p, n, ks, r, subs, t, b);
    }
    forall k | Touches(p, n, k, b) ensures k in ks
    {
      TouchedIsVisited(p, n, ks, r, subs, k, b);
    }
  }

  lemma {:induction false} TouchedIsVisited(p: Value, n: Value, ks: seq<string>, r: nat, subs: seq<seq<RelOp>>,
                                            k: string, b: nat)
    requires BothObjects(p, n) && IsObjectDiff(p, n, ks, r, subs) && Touches(p, n, k, b)
    ensures k in ks
  {
    hide IsDiff, IsEntryDiff, Speaks, IsInherited, Distinct;
    if k in n.fields {
      assert k in ks[r..];
    } else {
      assert k in ks[..r];
    }
  }

  lemma {:induction false} KeySpeaks(p: Value, n: Value, ks: seq<string>, r: nat, subs: seq<seq<RelOp>>, t: nat, b: nat)
    requires BothObjects(p, n) && b > 0 && IsObjectDiff(p, n, ks, r, subs) && t < |ks|
    ensures |subs| == |ks| && (Touches(p, n, ks[t], b) <==> HasShort(subs[t], b - 1))
    decreases n, 0
  {
    hide IsDiff, Speaks, IsInherited, Distinct;
    var k := ks[t];
    if t < r {
      assert |subs[t][0].path| <= b - 1;
    } else {
      assert IsEntryDiff(p, n, k, subs[t]);
      if HasProperty(p.fields, k) {
        SpeaksExactly(Property(p.fields, k), n.fields[k], subs[t], b - 1);
      } else {
        assert |subs[t][0].path| <= b - 1;
      }
    }
  }

  // ---- what is no object ----

  /** What is neither object nor array stays what it is until an operation makes an
      object of it. */
  lemma {:induction false} FromNothing(d: Value, ops: seq<RelOp>, b: int)
    requires !d.Obj? && !d.Arr? && forall op | op in ops :: op.path != []
    ensures var w, v := ApplyRel(d, ops, b), ApplyRel(Obj(map[]), ops, b);
            if HasRousing(ops, b) then w == v else w == d && v == Obj(map[])
  {
    hide IsUnsafe;
    if ops != [] {
      var last := |ops| - 1;
      var front, op := ops[..last], ops[last];
      assert op in ops;
      FromNothing(d, front, b);
      RousingGrows(ops, b);
    }
  }

  lemma {:induction false} RousingGrows(ops: seq<RelOp>, b: int)
    requires ops != []
    ensures HasRousing(ops, b) <==> HasRousing(ops[..|ops| - 1], b) || IsRousing(ops[|ops| - 1], b)
  {
    hide IsRousing;
    var front := ops[..|ops| - 1];
    if HasRousing(ops, b) {
      var j :| 0 <= j < |ops| && IsRousing(ops[j], b);
      assert j < |front| ==> IsRousing(front[j], b);
    }
    if HasRousing(front, b) {
      var j :| 0 <= j < |front| && IsRousing(front[j], b);
      assert IsRousing(ops[j], b);
    }
  }

  /** Below its root a patch makes no array of anything, and nothing else of an array. */
  lemma {:induction false} ArraysStayArrays(d: Value, ops: seq<RelOp>, b: int)
    requires forall op | op in ops :: op.path != []
    ensures ApplyRel(d, ops, b).Arr? <==> d.Arr?
  {
    if ops != [] {
      var op := ops[|ops| - 1];
      assert op in ops;
      ArraysStayArrays(d, ops[..|ops| - 1], b);
      var w := ApplyRel(d, ops[..|ops| - 1], b);
      if w.Arr? {
        assert SetAt(w, op.path, op.edit) == SetInArray(w.items, op.path[0], op.path[1..], op.edit);
      }
    }
  }

  // ---- arrays of another length ----

  /** Beyond its end an array takes a whole value in the next place, and nothing else. */
  lemma {:induction false} ApplyBeyond(s: seq<Value>, i: nat, p: Value, n: Value, sub: seq<RelOp>, b: nat)
    requires |s| <= i && b > 0 && IsDiff(p, n, sub)
    ensures ApplyRel(Arr(s), Under(Decimal(i), sub), b) == Arr(if |s| == i && Replaced(p, n) then s + [n] else s)
  {
    if Replaced(p, n) {
      var all := Under(Decimal(i), sub);
      assert all[..0] == [] && all[0].path == [Decimal(i)] + [];
      ToIntegerDecimal(i);
      assert all[0].path[0] == Decimal(i) && all[0].path[1..] == [];
      assert SetAt(Arr(s), all[0].path, Replace(n)) == SetInArray(s, Decimal(i), [], Replace(n));
    } else {
      ContainerPaths(p, n, sub);
      NestedBeyond(s, i, sub, b);
    }
  }

  lemma {:induction false} NestedBeyond(s: seq<Value>, i: nat, sub: seq<RelOp>, b: int)
    requires |s| <= i && AllBelow(sub)
    ensures ApplyRel(Arr(s), Under(Decimal(i), sub), b) == Arr(s)
  {
    if sub != [] {
      var front, op := sub[..|sub| - 1], sub[|sub| - 1];
      assert op in sub;
      NestedBeyond(s, i, front, b);
      ToIntegerDecimal(i);
      var all := Under(Decimal(i), sub);
      assert all[..|sub| - 1] == Under(Decimal(i), front);
      assert all[|sub| - 1].path[0] == Decimal(i) && all[|sub| - 1].path[1..] == op.path;
      assert SetAt(Arr(s), all[|sub| - 1].path, op.edit) == SetInArray(s, Decimal(i), op.path, op.edit);
    }
  }

  /** After `m` items of a longer array's diff: each of the shorter array's own items is
      patched, and of the missing ones those are there that came in one piece each. */
  lemma {:induction false} ShorterPatched(s: seq<Value>, p: Value, n: Value, subs: seq<seq<RelOp>>, m: nat, b: nat)
    requires SameLength(p, n) && b > 0 && IsArrayDiff(p, n, subs) && |s| <= m <= |n.items|
    ensures var w := ApplyRel(Arr(s), Flat(Indices(m), subs[..m]), b);
            && w.Arr? && |s| <= |w.items| <= m
            && (|w.items| == m <==> forall i | |s| <= i < m :: Replaced(p.items[i], n.items[i]))
            && (forall i | 0 <= i < |s| :: w.items[i] == ApplyRel(s[i], subs[i], b - 1))
            && (forall i | |s| <= i < |w.items| :: w.items[i] == n.items[i])
    decreases m
  {
    hide IsDiff, ApplyRel, Flat, Under, Replaced;
    if m == |s| {
      forall i | 0 <= i < m ensures KeepsSlot(subs[i])
      {
        DiffKeepsSlot(p.items[i], n.items[i], subs[i]);
      }
      ApplyFlatIndices(s, m, subs[..m], b);
    } else {
      ShorterPatched(s, p, n, subs, m - 1, b);
      var w := ApplyRel(Arr(s), Flat(Indices(m - 1), subs[..m - 1]), b);
      assert Indices(m) == Indices(m - 1) + [Decimal(m - 1)] && subs[..m] == subs[..m - 1] + [subs[m - 1]];
      FlatSnoc(Indices(m - 1), subs[..m - 1], Decimal(m - 1), subs[m - 1]);
      ApplyRelConcat(Arr(s), Flat(Indices(m - 1), subs[..m - 1]), Under(Decimal(m - 1), subs[m - 1]), b);
      ApplyBeyond(w.items, m - 1, p.items[m - 1], n.items[m - 1], subs[m - 1], b);
    }
  }

  lemma {:induction false} FlatSnoc(ks: seq<string>, subs: seq<seq<RelOp>>, k: string, sub: seq<RelOp>)
    requires |ks| == |subs|
    ensures Flat(ks + [k], subs + [sub]) == Flat(ks, subs) + Under(k, sub)
  {
    assert (ks + [k])[..|ks|] == ks && (subs + [sub])[..|ks|] == subs;
  }

  // ---- the theorem ----

  /** For every value that the diff is applied to. */
  lemma {:induction false} LandsExactly(d: Value, p: Value, n: Value, ops: seq<RelOp>, b: nat)
    requires NoFunc(n) && IsDiff(p, n, ops)
    ensures Same(ApplyRel(d, ops, b), n) <==> Lands(d, p, n, b)
    decreases n, 2
  {
    hide Wire, Speaks, Rouses, Touches;
    if BothObjects(p, n) {
      var ks, r, subs :| IsObjectDiff(p, n, ks, r, subs) && ops == Flat(ks, subs);
      if b == 0 {
        NonemptyPaths(ks, subs);
        LongerPathsDropped(d, ops);
      } else {
        ObjectLandsExactly(d, p, n, ks, r, subs, b);
      }
    } else if SameLength(p, n) {
      var subs :| IsArrayDiff(p, n, subs) && ops == Flat(Indices(|n.items|), subs);
      if b == 0 {
        NonemptyPaths(Indices(|n.items|), subs);
        LongerPathsDropped(d, ops);
      } else {
        ArrayLandsExactly(d, p, n, subs, b);
      }
    } else if p != n {
      ApplyWrite(d, Replace(n), b);
    }
  }

  lemma {:induction false} ObjectLandsExactly(d: Value, p: Value, n: Value, ks: seq<string>, r: nat,
                                              subs: seq<seq<RelOp>>, b: nat)
    requires NoFunc(n) && BothObjects(p, n) && b > 0 && IsObjectDiff(p, n, ks, r, subs)
    ensures |ks| == |subs| && (Same(ApplyRel(d, Flat(ks, subs), b), n) <==> Lands(d, p, n, b))
    decreases n, 1
  {
    hide Wire, IsDiff, IsObjectDiff, ApplyRel, Flat, KeyLands, Rouses, HasRousing;
    DistinctKeys(p, n, ks, r, subs);
    NonemptyPaths(ks, subs);
    ArraysStayArrays(d, Flat(ks, subs), b);
    NotObject(d, n);
    NotObject(ApplyRel(d, Flat(ks, subs), b), n);
    if !d.Arr? {
      if !d.Obj? {
        FromNothing(d, Flat(ks, subs), b);
        ObjectSpeaks(p, n, ks, r, subs, b);
      }
      FieldsLandExactly(FieldsOf(d), p, n, ks, r, subs, b);
    }
  }

  lemma {:induction false} NotObject(w: Value, n: Value)
    requires n.Obj?
    ensures !w.Obj? ==> !Same(w, n)
  {
  }

  lemma {:induction false} FieldsLandExactly(m: map<string, Value>, p: Value, n: Value, ks: seq<string>, r: nat,
                                             subs: seq<seq<RelOp>>, b: nat)
    requires NoFunc(n) && BothObjects(p, n) && b > 0 && IsObjectDiff(p, n, ks, r, subs)
    ensures |ks| == |subs|
    ensures Same(ApplyRel(Obj(m), Flat(ks, subs), b), n) <==> forall k :: KeyLands(Get(m, k), p, n, k, b - 1)
    decreases n, 0
  {
    hide Wire, IsDiff, IsObjectDiff, ApplyRel, Flat, KeyLands;
    DistinctKeys(p, n, ks, r, subs);
    ApplyFlatKeys(m, ks, subs, b);
    var w := ApplyRel(Obj(m), Flat(ks, subs), b).fields;
    forall k ensures Same(Get(w, k), Get(n.fields, k)) <==> KeyLands(Get(m, k), p, n, k, b - 1)
    {
      KeyLandsExactly(Get(m, k), Get(w, k), p, n, ks, r, subs, k, b - 1);
    }
    SameObj(w, n.fields);
  }

  lemma {:induction false} KeyLandsExactly(d: Value, w: Value, p: Value, n: Value,
                                           ks: seq<string>, r: nat, subs: seq<seq<RelOp>>, k: string, b: nat)
    requires BothObjects(p, n) && NoFunc(n) && IsObjectDiff(p, n, ks, r, subs)
    requires k !in ks || IsUnsafe(k) ==> w == d
    requires forall i | 0 <= i < |ks| && ks[i] == k && !IsUnsafe(k) :: w == ApplyRel(d, subs[i], b)
    ensures Same(w, Get(n.fields, k)) <==> KeyLands(d, p, n, k, b)
    decreases n, 0, 0
  {
    hide Wire, IsDiff, ApplyRel, IsUnsafe, IsInherited, Lands;
    var sub := KeyPatched(d, w, p, n, ks, r, subs, k, b);
    if !Mute(n.fields, k) && k in n.fields && k in p.fields {
      LandsExactly(d, p.fields[k], n.fields[k], sub, b);
    }
  }

  lemma {:induction false} ArrayLandsExactly(d: Value, p: Value, n: Value, subs: seq<seq<RelOp>>, b: nat)
    requires NoFunc(n) && SameLength(p, n) && b > 0 && IsArrayDiff(p, n, subs)
    ensures Same(ApplyRel(d, Flat(Indices(|n.items|), subs), b), n) <==> Lands(d, p, n, b)
    decreases n, 1
  {
    hide Wire, WireItem, IsDiff, ApplyRel, Flat, ItemLands, Replaced;
    var w := ApplyRel(d, Flat(Indices(|n.items|), subs), b);
    NonemptyPaths(Indices(|n.items|), subs);
    ArraysStayArrays(d, Flat(Indices(|n.items|), subs), b);
    if !d.Arr? {
      NoArray(w, n);
    } else if |d.items| > |n.items| {
      LongerPatched(d.items, p, n, subs, b);
      SameArr(w.items, n.items);
    } else {
      assert subs[..|n.items|] == subs;
      ShorterPatched(d.items, p, n, subs, |n.items|, b);
      SameArr(w.items, n.items);
      forall i | 0 <= i < |d.items|
        ensures WireItem(w.items[i]) == WireItem(n.items[i])
                <==> ItemLands(d.items[i], p.items[i], n.items[i], b - 1)
      {
        ItemLandsExactly(d.items[i], p.items[i], n.items[i], subs[i], b - 1);
      }
    }
  }

  lemma {:induction false} NoArray(w: Value, n: Value)
    requires !w.Arr? && n.Arr?
    ensures !Same(w, n)
  {
  }

  lemma {:induction false} LongerPatched(s: seq<Value>, p: Value, n: Value, subs: seq<seq<RelOp>>, b: nat)
    requires SameLength(p, n) && b > 0 && IsArrayDiff(p, n, subs) && |s| > |n.items|
    ensures var w := ApplyRel(Arr(s), Flat(Indices(|n.items|), subs), b); w.Arr? && |w.items| == |s|
  {
    hide IsDiff, ApplyRel, Flat;
    forall i | 0 <= i < |n.items| ensures KeepsSlot(subs[i])
    {
      DiffKeepsSlot(p.items[i], n.items[i], subs[i]);
    }
    ApplyFlatIndices(s, |n.items|, subs, b);
  }

  lemma {:induction false} ItemLandsExactly(d: Value, p: Value, n: Value, ops: seq<RelOp>, b: nat)
    requires NoFunc(n) && IsDiff(p, n, ops)
    ensures WireItem(ApplyRel(d, ops, b)) == WireItem(n) <==> ItemLands(d, p, n, b)
    decreases n, 3
  {
    hide Lands, ApplyRel;
    if BothObjects(p, n) || SameLength(p, n) {
      LandsExactly(d, p, n, ops, b);
      ContainerItem(ApplyRel(d, ops, b), n);
    } else if p != n {
      ApplyWrite(d, Replace(n), b);
    } else {
      ApplyNothing(d, b);
    }
  }

  /** A container differs from null and undefined alike. */
  lemma {:induction false} ContainerItem(w: Value, n: Value)
    requires n.Obj? || n.Arr?
    ensures WireItem(w) == WireItem(n) <==> Same(w, n)
  {
  }
}
