/** `applyPatch` after `diffValues`, through the real path strings. */
module DiffPatch {
  import opened Values
  import opened Pointer
  import opened Patch
  import opened Diff
  import opened Landing
  import opened RoundTrip

  /** What `diffValues(p, n)` returns for some order of visiting keys. */
  ghost predicate IsDiffOf(p: Value, n: Value, ops: seq<Op>) {
    IsDiffAt(p, n, "", ops)
  }

  /** No operation is addressed to the empty key of the root object, whose path
      "/" means the root itself. */
  predicate ClearRoot(p: Value, n: Value) {
    BothObjects(p, n) ==>
      && ("" in p.fields <==> "" in n.fields)
      && ("" in p.fields && "" in n.fields ==> !Replaced(p.fields[""], n.fields[""]))
  }

  lemma {:induction false} FlatPaths(ks: seq<string>, subs: seq<seq<RelOp>>)
    requires |ks| == |subs|
    requires forall i | 0 <= i < |ks| && ks[i] == "" :: AllBelow(subs[i])
    ensures forall op | op in Flat(ks, subs) :: op.path != [""]
  {
    if ks != [] {
      var last := |ks| - 1;
      FlatPaths(ks[..last], subs[..last]);
      forall op | op in Under(ks[last], subs[last]) ensures op.path != [""]
      {
        var i :| 0 <= i < |subs[last]| && op == Under(ks[last], subs[last])[i];
        assert op.path == [ks[last]] + subs[last][i].path;
        if ks[last] == "" {
          assert AllBelow(subs[last]) && subs[last][i] in subs[last];
          assert |op.path| > 1;
        } else {
          assert op.path[0] != "";
        }
      }
    }
  }

  lemma {:induction false} EmptyKeyEntry(p: Value, n: Value, ks: seq<string>, r: nat, subs: seq<seq<RelOp>>, i: nat)
    requires BothObjects(p, n) && ClearRoot(p, n) && IsObjectDiff(p, n, ks, r, subs)
    requires i < |ks| && ks[i] == ""
    ensures AllBelow(subs[i])
  {
    hide IsDiff;
    assert r <= i && "" in n.fields && "" in p.fields;
    assert IsEntryDiff(p, n, "", subs[i]);
    ContainerPaths(p.fields[""], n.fields[""], subs[i]);
  }

  lemma {:induction false} ClearRootPaths(p: Value, n: Value, ops: seq<RelOp>)
    requires IsDiff(p, n, ops) && ClearRoot(p, n)
    ensures forall op | op in ops :: op.path != [""]
  {
    if BothObjects(p, n) {
      var ks, r, subs :| IsObjectDiff(p, n, ks, r, subs) && ops == Flat(ks, subs);
      forall i | 0 <= i < |ks| && ks[i] == "" ensures AllBelow(subs[i])
      {
        EmptyKeyEntry(p, n, ks, r, subs, i);
      }
      FlatPaths(ks, subs);
    } else if SameLength(p, n) {
      var subs :| IsArrayDiff(p, n, subs) && ops == Flat(Indices(|n.items|), subs);
      forall i | 0 <= i < |n.items| ensures Decimal(i) != ""
      {
        DecimalDigits(i);
      }
      FlatPaths(Indices(|n.items|), subs);
    }
  }

  lemma {:induction false} ApplyAtRoot(v: Value, op: RelOp)
    requires op.path != [""]
    ensures ApplyOp(v, Op(PathAt("", op.path), op.edit))
         == if |op.path| <= MAX_PATCH_PATH_SEGMENTS then SetAt(v, op.path, op.edit) else v
  {
    hide SetAt, Render;
    ParseRender(op.path);
    assert "" + Render(op.path) == Render(op.path);
  }

  /** The strings carry the segments: parsing and guarding happen at the root. */
  lemma {:induction false} ApplyAtBase(d: Value, ops: seq<RelOp>)
    requires forall op | op in ops :: op.path != [""]
    ensures ApplyOps(d, AtBase("", ops)) == ApplyRel(d, ops, MAX_PATCH_PATH_SEGMENTS)
  {
    hide ParsePath, SetAt, ApplyOp, PathAt;
    if ops != [] {
      var last := |ops| - 1;
      var op, all := ops[last], AtBase("", ops);
      ApplyAtBase(d, ops[..last]);
      assert all[..last] == AtBase("", ops[..last]);
      assert all[last] == Op(PathAt("", op.path), op.edit);
      assert op in ops;
      ApplyAtRoot(ApplyRel(d, ops[..last], MAX_PATCH_PATH_SEGMENTS), op);
    }
  }

  /** Applied to any value whatever, the patch leads to the next value exactly when the
      three values say so. */
  lemma {:induction false} PatchLandsExactly(d: Value, p: Value, n: Value, ops: seq<Op>)
    requires NoFunc(n) && IsDiffOf(p, n, ops) && ClearRoot(p, n)
    ensures Same(ApplyOps(d, ops), n) <==> Lands(d, p, n, MAX_PATCH_PATH_SEGMENTS)
  {
    hide Lands, ApplyRel, IsDiff, Wire, AtBase, ClearRoot;
    var rel :| IsDiff(p, n, rel) && ops == AtBase("", rel);
    ClearRootPaths(p, n, rel);
    ApplyAtBase(d, rel);
    LandsExactly(d, p, n, rel, MAX_PATCH_PATH_SEGMENTS);
  }

  /** The patch reproduces the next value exactly when every difference is one
      that a diff can carry: no reserved key is affected, and no path is longer
      than the receiver's cap. */
  lemma {:induction false} RoundTripExactly(p: Value, n: Value, ops: seq<Op>)
    requires NoFunc(n) && IsDiffOf(p, n, ops) && ClearRoot(p, n)
    ensures Same(ApplyOps(p, ops), n) <==> Transmissible(p, n, MAX_PATCH_PATH_SEGMENTS)
  {
    hide Transmissible, Lands, IsDiffOf, Wire, ClearRoot;
    PatchLandsExactly(p, p, n, ops);
    LandsFromPrevious(p, n, MAX_PATCH_PATH_SEGMENTS);
  }

  /** For one, a removed key whose name every object inherits stays. */
  lemma {:induction false} InheritedKeyStays(ops: seq<Op>)
    requires IsDiffOf(Obj(map["toString" := Num(1)]), Obj(map[]), ops)
    ensures !Same(ApplyOps(Obj(map["toString" := Num(1)]), ops), Obj(map[]))
  {
    hide IsDiffOf, IsInherited, IsUnsafe, ApplyOps;
    var p, n := Obj(map["toString" := Num(1)]), Obj(map[]);
    ToStringIsInherited();
    assert Mute(n.fields, "toString");
    assert Get(p.fields, "toString") == Num(1) && Get(n.fields, "toString") == Undef;
    assert "" !in p.fields;
    RoundTripExactly(p, n, ops);
  }

  lemma {:induction false} ToStringIsInherited()
    ensures IsInherited("toString")
  {
    assert INHERITED_NAMES[6] == "toString";
    ListedAt("toString", INHERITED_NAMES, 6);
  }

  lemma {:induction false} ListedAt(key: string, names: seq<string>, i: nat)
    requires i < |names| && names[i] == key
    ensures Listed(key, names)
  {
    if i > 0 {
      ListedAt(key, names[1..], i - 1);
    }
  }

  /** Delivering a diff again does no harm, to the next value or to any state in
      which only part of it had arrived. */
  lemma {:induction false} SafeRedelivery(d: Value, p: Value, n: Value, ops: seq<Op>)
    requires NoFunc(n) && IsDiffOf(p, n, ops) && ClearRoot(p, n)
    requires Transmissible(p, n, MAX_PATCH_PATH_SEGMENTS) && Between(d, p, n)
    ensures Same(ApplyOps(d, ops), n)
  {
    hide Transmissible, Between, Lands, IsDiffOf, Wire, ClearRoot;
    PatchLandsExactly(d, p, n, ops);
    LandsFromBetween(d, p, n, MAX_PATCH_PATH_SEGMENTS);
  }

  /** Such a state is whatever the first operations of the patch have made of the
      previous value. */
  lemma {:induction false} PartlyPatchedIsBetween(p: Value, n: Value, ops: seq<Op>, i: nat)
    requires NoFunc(n) && IsDiffOf(p, n, ops) && ClearRoot(p, n) && i <= |ops|
    ensures Between(ApplyOps(p, ops[..i]), p, n)
  {
    hide Between, ApplyRel, IsDiff, Wire, ClearRoot;
    var rel :| IsDiff(p, n, rel) && ops == AtBase("", rel);
    ClearRootPaths(p, n, rel);
    assert AtBase("", rel[..i]) == ops[..i];
    ApplyAtBase(p, rel[..i]);
    PrefixIsBetween(p, n, rel, i, MAX_PATCH_PATH_SEGMENTS);
  }

  /** So a delivery that broke off anywhere can be started over. */
  lemma {:induction false} ResumedDelivery(p: Value, n: Value, ops: seq<Op>, i: nat)
    requires NoFunc(n) && IsDiffOf(p, n, ops) && ClearRoot(p, n) && i <= |ops|
    requires Transmissible(p, n, MAX_PATCH_PATH_SEGMENTS)
    ensures Same(ApplyOps(ApplyOps(p, ops[..i]), ops), n)
  {
    hide Transmissible, Between, IsDiffOf, Wire, ClearRoot;
    PartlyPatchedIsBetween(p, n, ops, i);
    SafeRedelivery(ApplyOps(p, ops[..i]), p, n, ops);
  }

  // ---- a condition on the values alone ----

  predicate NoReservedKeys(v: Value) {
    match v
    case Arr(s) => forall i | 0 <= i < |s| :: NoReservedKeys(s[i])
    case Obj(m) => forall k | k in m :: !IsUnsafe(k) && !IsInherited(k) && NoReservedKeys(m[k])
    case _ => true
  }

  lemma {:induction false} OrdinaryIsTransmissible(p: Value, n: Value, b: nat)
    requires NoReservedKeys(p) && NoReservedKeys(n) && DepthAtMost(n, b)
    ensures Transmissible(p, n, b)
    decreases n
  {
    if BothObjects(p, n) {
      forall k ensures if Mute(n.fields, k) then Same(Get(p.fields, k), Get(n.fields, k))
                       else k in p.fields && k in n.fields ==> Transmissible(p.fields[k], n.fields[k], b - 1)
      {
        if !Mute(n.fields, k) && k in p.fields && k in n.fields {
          OrdinaryIsTransmissible(p.fields[k], n.fields[k], b - 1);
        }
      }
    } else if SameLength(p, n) {
      forall i | 0 <= i < |n.items| ensures Transmissible(p.items[i], n.items[i], b - 1)
      {
        OrdinaryIsTransmissible(p.items[i], n.items[i], b - 1);
      }
    }
  }

  /** On values without reserved keys the diff arrives from either end. */
  lemma {:induction false} OrdinaryRoundTrip(p: Value, n: Value, ops: seq<Op>)
    requires IsJson(n) && IsDiffOf(p, n, ops) && ClearRoot(p, n)
    requires NoReservedKeys(p) && NoReservedKeys(n) && DepthAtMost(n, MAX_PATCH_PATH_SEGMENTS)
    ensures Wire(ApplyOps(p, ops)) == n && Wire(ApplyOps(n, ops)) == n
  {
    JsonHasNoFunc(n);
    WireKeepsJson(n);
    OrdinaryIsTransmissible(p, n, MAX_PATCH_PATH_SEGMENTS);
    SafeRedelivery(p, p, n, ops);
    SafeRedelivery(n, p, n, ops);
  }

  lemma {:induction false} JsonHasNoFunc(v: Value)
    requires IsJson(v)
    ensures NoFunc(v)
  {
    match v
    case Arr(s) =>
      forall i | 0 <= i < |s| ensures NoFunc(s[i])
      {
        JsonHasNoFunc(s[i]);
      }
    case Obj(m) =>
      forall k | k in m ensures NoFunc(m[k])
      {
        JsonHasNoFunc(m[k]);
      }
    case _ =>
  }

  /** Two equal values have nothing to say to each other, which is why it does not
      matter that `Object.is` stops at one and the same object. */
  lemma {:induction false} NothingToSay(v: Value, ops: seq<RelOp>)
    requires IsDiff(v, v, ops)
    ensures ops == []
  {
    if v.Obj? {
      var ks, r, subs :| IsObjectDiff(v, v, ks, r, subs) && ops == Flat(ks, subs);
      NothingRemoved(v, ks, r, subs);
      forall i | 0 <= i < |ks| ensures subs[i] == []
      {
        assert IsEntryDiff(v, v, ks[i], subs[i]);
        NothingToSay(v.fields[ks[i]], subs[i]);
      }
      FlatOfNothing(ks, subs);
    } else if v.Arr? {
      var subs :| IsArrayDiff(v, v, subs) && ops == Flat(Indices(|v.items|), subs);
      forall i | 0 <= i < |subs| ensures subs[i] == []
      {
        NothingToSay(v.items[i], subs[i]);
      }
      FlatOfNothing(Indices(|v.items|), subs);
    }
  }

  lemma {:induction false} NothingRemoved(v: Value, ks: seq<string>, r: nat, subs: seq<seq<RelOp>>)
    requires v.Obj? && IsObjectDiff(v, v, ks, r, subs)
    ensures r == 0
  {
    SomeKeyRemoved(v, v, ks, r, subs);
  }

  lemma {:induction false} SomeKeyRemoved(p: Value, n: Value, ks: seq<string>, r: nat, subs: seq<seq<RelOp>>)
    requires BothObjects(p, n) && IsObjectDiff(p, n, ks, r, subs)
    ensures r > 0 ==> exists k :: k in p.fields && !HasProperty(n.fields, k)
  {
    if r > 0 {
      assert ks[0] in p.fields && !HasProperty(n.fields, ks[0]);
    }
  }

  lemma {:induction false} FlatOfNothing(ks: seq<string>, subs: seq<seq<RelOp>>)
    requires |ks| == |subs| && forall i | 0 <= i < |subs| :: subs[i] == []
    ensures Flat(ks, subs) == []
  {
    if ks != [] {
      FlatOfNothing(ks[..|ks| - 1], subs[..|ks| - 1]);
    }
  }

  lemma {:induction false} ObjectDiffParts(p: Value, n: Value, rel: seq<RelOp>)
    returns (ks: seq<string>, r: nat, subs: seq<seq<RelOp>>)
    requires BothObjects(p, n) && IsDiff(p, n, rel)
    ensures IsObjectDiff(p, n, ks, r, subs) && rel == Flat(ks, subs)
  {
    ks, r, subs :| IsObjectDiff(p, n, ks, r, subs) && rel == Flat(ks, subs);
  }

  /** Applied to any object whatever, a diff leaves a field as it finds it that was the
      same in both values it was computed from. */
  lemma {:induction false} UnchangedFieldIsKept(d: Value, p: Value, n: Value, ops: seq<Op>, k: string)
    requires d.Obj? && p.Obj? && n.Obj? && IsDiffOf(p, n, ops) && ClearRoot(p, n)
    requires k in p.fields && k in n.fields && p.fields[k] == n.fields[k]
    ensures ApplyOps(d, ops).Obj? && Get(ApplyOps(d, ops).fields, k) == Get(d.fields, k)
  {
    hide ApplyRel, Flat, IsDiff, AtBase, IsUnsafe, IsInherited;
    var rel :| IsDiff(p, n, rel) && ops == AtBase("", rel);
    ClearRootPaths(p, n, rel);
    ApplyAtBase(d, rel);
    var ks, r, subs := ObjectDiffParts(p, n, rel);
    ApplyFlatKeys(d.fields, ks, subs, MAX_PATCH_PATH_SEGMENTS);
    forall i | 0 <= i < |ks| && ks[i] == k ensures subs[i] == []
    {
      assert IsEntryDiff(p, n, k, subs[i]);
      NothingToSay(n.fields[k], subs[i]);
    }
    ApplyNothing(Get(d.fields, k), MAX_PATCH_PATH_SEGMENTS - 1);
  }

  lemma {:induction false} ArrayDiffParts(p: Value, n: Value, rel: seq<RelOp>) returns (subs: seq<seq<RelOp>>)
    requires p.Arr? && n.Arr? && |p.items| == |n.items| && IsDiff(p, n, rel)
    ensures IsArrayDiff(p, n, subs) && rel == Flat(Indices(|n.items|), subs)
    ensures forall i | 0 <= i < |subs| :: KeepsSlot(subs[i])
  {
    subs :| IsArrayDiff(p, n, subs) && rel == Flat(Indices(|n.items|), subs);
    forall i | 0 <= i < |subs| ensures KeepsSlot(subs[i])
    {
      DiffKeepsSlot(p.items[i], n.items[i], subs[i]);
    }
  }

  /** So with arrays that are as long as each other: an item that did not change is not
      touched, whatever it has become, and neither is one beyond their end. */
  lemma {:induction false} UnchangedItemIsKept(d: Value, p: Value, n: Value, ops: seq<Op>, i: nat)
    requires d.Arr? && p.Arr? && n.Arr? && |p.items| == |n.items| <= |d.items| && IsDiffOf(p, n, ops)
    requires i < |d.items| && (i < |p.items| ==> p.items[i] == n.items[i])
    ensures var after := ApplyOps(d, ops);
            after.Arr? && |after.items| == |d.items| && after.items[i] == d.items[i]
  {
    hide ApplyRel, Flat, IsDiff, AtBase, IsUnsafe, IsInherited, KeepsSlot;
    var rel :| IsDiff(p, n, rel) && ops == AtBase("", rel);
    ClearRootPaths(p, n, rel);
    ApplyAtBase(d, rel);
    var subs := ArrayDiffParts(p, n, rel);
    ApplyFlatIndices(d.items, |n.items|, subs, MAX_PATCH_PATH_SEGMENTS);
    if i < |p.items| {
      NothingToSay(n.items[i], subs[i]);
      ApplyNothing(d.items[i], MAX_PATCH_PATH_SEGMENTS - 1);
    }
  }
}
