/** What applying a diff does: exactly when it leads to the next value, and from
    which other values it leads there too. */
module RoundTrip {
  import opened Values
  import opened Patch
  import opened Diff
  import opened Landing

  /** Every difference between `p` and `n` is one that a diff can carry when paths
      may have `b` more segments. */
  ghost predicate Transmissible(p: Value, n: Value, b: nat)
    decreases n
  {
    if BothObjects(p, n) then
      if b == 0 then Same(p, n)
      else forall k ::
        if Mute(n.fields, k) then Same(Get(p.fields, k), Get(n.fields, k))
        else k in p.fields && k in n.fields ==> Transmissible(p.fields[k], n.fields[k], b - 1)
    else if SameLength(p, n) then
      if b == 0 then Same(p, n)
      else forall i | 0 <= i < |n.items| :: Transmissible(p.items[i], n.items[i], b - 1)
    else true
  }

  /** `d` is some way from `p` to `n`: at every node below, it looks like one or
      the other. Both ends qualify, and so does every partly patched state. */
  ghost predicate Between(d: Value, p: Value, n: Value)
    decreases n
  {
    || Same(d, p)
    || Same(d, n)
    || (BothObjects(p, n) && d.Obj? &&
        forall k :: if k in n.fields then Between(Get(d.fields, k), Get(p.fields, k), n.fields[k])
                    else Same(Get(d.fields, k), Get(p.fields, k)) || Same(Get(d.fields, k), Undef))
    || (SameLength(p, n) && SameLength(d, n) &&
        forall i | 0 <= i < |n.items| ::
          || Between(d.items[i], p.items[i], n.items[i])
          || WireItem(d.items[i]) == WireItem(p.items[i])
          || WireItem(d.items[i]) == WireItem(n.items[i]))
  }

  lemma {:induction false} BetweenFields(d: Value, p: Value, n: Value)
    requires BothObjects(p, n) && Between(d, p, n)
    ensures d.Obj?
    ensures forall k ::
              if k in n.fields then Between(Get(d.fields, k), Get(p.fields, k), n.fields[k])
              else Same(Get(d.fields, k), Get(p.fields, k)) || Same(Get(d.fields, k), Undef)
  {
    if Same(d, p) {
      SameObj(d.fields, p.fields);
    } else if Same(d, n) {
      SameObj(d.fields, n.fields);
    }
  }

  lemma {:induction false} BetweenItems(d: Value, p: Value, n: Value)
    requires SameLength(p, n) && Between(d, p, n)
    ensures SameLength(d, n)
    ensures forall i | 0 <= i < |n.items| ::
              || Between(d.items[i], p.items[i], n.items[i])
              || WireItem(d.items[i]) == WireItem(p.items[i])
              || WireItem(d.items[i]) == WireItem(n.items[i])
  {
    if Same(d, p) {
      SameArr(d.items, p.items);
    } else if Same(d, n) {
      SameArr(d.items, n.items);
    }
  }

  lemma {:induction false} BetweenEquals(d: Value, p: Value, n: Value)
    requires Between(d, p, n) && Same(p, n)
    ensures Same(d, n)
    decreases n
  {
    if BothObjects(p, n) {
      BetweenFields(d, p, n);
      SameObj(p.fields, n.fields);
      forall k ensures Same(Get(d.fields, k), Get(n.fields, k))
      {
        assert Same(Get(p.fields, k), Get(n.fields, k));
        if k in n.fields {
          BetweenEquals(Get(d.fields, k), Get(p.fields, k), n.fields[k]);
        }
      }
      SameObj(d.fields, n.fields);
    } else if SameLength(p, n) {
      BetweenItems(d, p, n);
      SameArr(p.items, n.items);
      forall i | 0 <= i < |n.items| ensures WireItem(d.items[i]) == WireItem(n.items[i])
      {
        if Between(d.items[i], p.items[i], n.items[i]) && Same(p.items[i], n.items[i]) {
          BetweenEquals(d.items[i], p.items[i], n.items[i]);
        }
      }
      SameArr(d.items, n.items);
    }
  }

  // ---- the value itself, and what lies between ----

  lemma {:induction false} ObjectLands(d: Value, p: Value, n: Value, b: nat)
    requires BothObjects(p, n) && d.Obj? && b > 0
    ensures Lands(d, p, n, b) <==> forall k :: KeyLands(Get(d.fields, k), p, n, k, b - 1)
  {
    hide KeyLands, Rouses;
    assert FieldsOf(d) == d.fields;
    if Lands(d, p, n, b) {
      forall k ensures KeyLands(Get(d.fields, k), p, n, k, b - 1)
      {
        assert KeyLands(Get(FieldsOf(d), k), p, n, k, b - 1);
      }
    }
  }

  lemma {:induction false} ArrayLands(d: Value, p: Value, n: Value, b: nat)
    requires SameLength(p, n) && SameLength(d, n) && b > 0
    ensures Lands(d, p, n, b) <==>
            forall i | 0 <= i < |n.items| :: ItemLands(d.items[i], p.items[i], n.items[i], b - 1)
  {
    hide ItemLands;
  }

  /** From the previous value the diff lands exactly when it can be carried. */
  lemma {:induction false} LandsFromPrevious(p: Value, n: Value, b: nat)
    ensures Lands(p, p, n, b) <==> Transmissible(p, n, b)
    decreases n, 1
  {
    hide Wire;
    if b > 0 && BothObjects(p, n) {
      hide Lands, KeyLands, Mute;
      ObjectLands(p, p, n, b);
      forall k ensures KeyLands(Get(p.fields, k), p, n, k, b - 1)
                       <==> if Mute(n.fields, k) then Same(Get(p.fields, k), Get(n.fields, k))
                            else k in p.fields && k in n.fields ==> Transmissible(p.fields[k], n.fields[k], b - 1)
      {
        KeyLandsFromPrevious(p, n, k, b - 1);
      }
    } else if b > 0 && SameLength(p, n) {
      hide Lands, ItemLands;
      ArrayLands(p, p, n, b);
      forall i | 0 <= i < |n.items|
        ensures ItemLands(p.items[i], p.items[i], n.items[i], b - 1) <==> Transmissible(p.items[i], n.items[i], b - 1)
      {
        ItemLandsFromPrevious(p.items[i], n.items[i], b - 1);
      }
    }
  }

  lemma {:induction false} KeyLandsFromPrevious(p: Value, n: Value, k: string, b: nat)
    requires BothObjects(p, n)
    ensures KeyLands(Get(p.fields, k), p, n, k, b)
            <==> if Mute(n.fields, k) then Same(Get(p.fields, k), Get(n.fields, k))
                 else k in p.fields && k in n.fields ==> Transmissible(p.fields[k], n.fields[k], b)
    decreases n, 0
  {
    hide Wire, Lands, Transmissible, Mute;
    if k in p.fields && k in n.fields {
      LandsFromPrevious(p.fields[k], n.fields[k], b);
    }
  }

  lemma {:induction false} ItemLandsFromPrevious(p: Value, n: Value, b: nat)
    ensures ItemLands(p, p, n, b) <==> Transmissible(p, n, b)
    decreases n, 2
  {
    hide Wire, Lands;
    LandsFromPrevious(p, n, b);
  }

  /** Then it also lands from everywhere between. */
  lemma {:induction false} LandsFromBetween(d: Value, p: Value, n: Value, b: nat)
    requires Between(d, p, n) && Transmissible(p, n, b)
    ensures Lands(d, p, n, b)
    decreases n, 1
  {
    if b > 0 && BothObjects(p, n) {
      hide Wire, Between, Lands, KeyLands, Transmissible;
      BetweenFields(d, p, n);
      ObjectLands(d, p, n, b);
      forall k ensures KeyLands(Get(d.fields, k), p, n, k, b - 1)
      {
        KeyLandsFromBetween(Get(d.fields, k), p, n, k, b);
      }
    } else if b > 0 && SameLength(p, n) {
      hide Wire, WireItem, Between, Lands, ItemLands, Transmissible;
      BetweenItems(d, p, n);
      ArrayLands(d, p, n, b);
      TransmissibleItems(p, n, b);
      forall i | 0 <= i < |n.items| ensures ItemLands(d.items[i], p.items[i], n.items[i], b - 1)
      {
        ItemLandsFromBetween(d.items[i], p.items[i], n.items[i], b - 1);
      }
    } else {
      LeafLandsFromBetween(d, p, n, b);
    }
  }

  lemma {:induction false} LeafLandsFromBetween(d: Value, p: Value, n: Value, b: nat)
    requires Between(d, p, n) && Transmissible(p, n, b) && (b == 0 || (!BothObjects(p, n) && !SameLength(p, n)))
    ensures Lands(d, p, n, b)
  {
    hide Wire, Between;
    if Same(p, n) {
      BetweenEquals(d, p, n);
    }
  }

  lemma {:induction false} TransmissibleItems(p: Value, n: Value, b: nat)
    requires SameLength(p, n) && b > 0 && Transmissible(p, n, b)
    ensures forall i | 0 <= i < |n.items| :: Transmissible(p.items[i], n.items[i], b - 1)
  {
  }

  lemma {:induction false} TransmissibleField(p: Value, n: Value, k: string, b: nat)
    requires BothObjects(p, n) && b > 0 && Transmissible(p, n, b)
    ensures Mute(n.fields, k) ==> Same(Get(p.fields, k), Get(n.fields, k))
    ensures !Mute(n.fields, k) && k in p.fields && k in n.fields ==>
              Transmissible(p.fields[k], n.fields[k], b - 1)
  {
  }

  lemma {:induction false} KeyLandsFromBetween(x: Value, p: Value, n: Value, k: string, b: nat)
    requires BothObjects(p, n) && b > 0 && Transmissible(p, n, b)
    requires if k in n.fields then Between(x, Get(p.fields, k), n.fields[k])
             else Same(x, Get(p.fields, k)) || Same(x, Undef)
    ensures KeyLands(x, p, n, k, b - 1)
    decreases n, 0
  {
    hide Wire, Between, Lands, Mute, Transmissible;
    TransmissibleField(p, n, k, b);
    if Mute(n.fields, k) {
      if k in n.fields {
        BetweenEquals(x, Get(p.fields, k), n.fields[k]);
      }
    } else if k in n.fields && k in p.fields {
      LandsFromBetween(x, p.fields[k], n.fields[k], b - 1);
    }
  }

  lemma {:induction false} ItemLandsFromBetween(x: Value, p: Value, n: Value, b: nat)
    requires Transmissible(p, n, b)
    requires Between(x, p, n) || WireItem(x) == WireItem(p) || WireItem(x) == WireItem(n)
    ensures ItemLands(x, p, n, b)
    decreases n, 2
  {
    hide Lands, Transmissible;
    if BothObjects(p, n) || SameLength(p, n) {
      ContainerItem(x, p);
      ContainerItem(x, n);
      LandsFromBetween(x, p, n, b);
    }
  }

  // ---- the theorems on relative paths ----

  /** From anywhere between `p` and `n` the diff leads to `n`. */
  lemma {:induction false} DiffLands(d: Value, p: Value, n: Value, ops: seq<RelOp>, b: nat)
    requires NoFunc(n) && IsDiff(p, n, ops) && Between(d, p, n) && Transmissible(p, n, b)
    ensures Same(ApplyRel(d, ops, b), n)
  {
    hide Lands, IsDiff, Between, Transmissible, Wire, ApplyRel;
    LandsFromBetween(d, p, n, b);
    LandsExactly(d, p, n, ops, b);
  }

  /** When some difference cannot be carried, the diff misses `n`. */
  lemma {:induction false} DiffMisses(p: Value, n: Value, ops: seq<RelOp>, b: nat)
    requires NoFunc(n) && IsDiff(p, n, ops) && !Transmissible(p, n, b)
    ensures !Same(ApplyRel(p, ops, b), n)
  {
    hide Lands, IsDiff, Transmissible, Wire, ApplyRel;
    LandsFromPrevious(p, n, b);
    LandsExactly(p, p, n, ops, b);
  }

  // ---- partly patched values ----

  /** The operations below a key that are among the first `i`. */
  lemma {:induction false} FlatPrefix(ks: seq<string>, subs: seq<seq<RelOp>>, i: nat) returns (parts: seq<seq<RelOp>>)
    requires |ks| == |subs| && i <= |Flat(ks, subs)|
    ensures |parts| == |ks| && (forall t | 0 <= t < |subs| :: parts[t] <= subs[t])
    ensures Flat(ks, parts) == Flat(ks, subs)[..i]
  {
    hide Flat, Under;
    FlatParts(ks, subs);
    if ks == [] {
      return [];
    }
    var last := |ks| - 1;
    var front := Flat(ks[..last], subs[..last]);
    var rest, part := [], [];
    if i <= |front| {
      rest := FlatPrefix(ks[..last], subs[..last], i);
    } else {
      UnderPrefix(ks[last], subs[last], i - |front|);
      rest, part := subs[..last], subs[last][..i - |front|];
    }
    parts := rest + [part];
    assert parts[..last] == rest;
    FlatParts(ks, parts);
    UnderNothing(ks[last]);
  }

  lemma {:induction false} FlatParts(ks: seq<string>, subs: seq<seq<RelOp>>)
    requires |ks| == |subs|
    ensures ks == [] ==> Flat(ks, subs) == []
    ensures ks != [] ==>
              var last := |ks| - 1;
              && Flat(ks, subs) == Flat(ks[..last], subs[..last]) + Under(ks[last], subs[last])
              && |Under(ks[last], subs[last])| == |subs[last]|
  {
  }

  lemma {:induction false} UnderNothing(k: string)
    ensures Under(k, []) == []
  {
  }

  lemma {:induction false} UnderPrefix(k: string, sub: seq<RelOp>, j: nat)
    requires j <= |sub|
    ensures |Under(k, sub)| == |sub| && Under(k, sub)[..j] == Under(k, sub[..j])
  {
  }

  /** However little of a diff has been applied, the value is between its ends. */
  lemma {:induction false} PrefixIsBetween(p: Value, n: Value, ops: seq<RelOp>, i: nat, b: nat)
    requires NoFunc(n) && IsDiff(p, n, ops) && i <= |ops|
    ensures Between(ApplyRel(p, ops[..i], b), p, n)
    decreases n, 2
  {
    hide Wire;
    if BothObjects(p, n) {
      var ks, r, subs :| IsObjectDiff(p, n, ks, r, subs) && ops == Flat(ks, subs);
      NonemptyPaths(ks, subs);
      if b == 0 {
        LongerPathsDropped(p, ops[..i]);
      } else {
        var parts := FlatPrefix(ks, subs, i);
        ObjectPrefix(p, n, ks, r, subs, parts, b);
      }
    } else if SameLength(p, n) {
      var subs :| IsArrayDiff(p, n, subs) && ops == Flat(Indices(|n.items|), subs);
      NonemptyPaths(Indices(|n.items|), subs);
      if b == 0 {
        LongerPathsDropped(p, ops[..i]);
      } else {
        var parts := FlatPrefix(Indices(|n.items|), subs, i);
        ArrayPrefix(p, n, subs, parts, b);
      }
    } else if i == 0 {
      ApplyNothing(p, b);
    } else {
      assert ops[..i] == ops;
      ApplyWrite(p, Replace(n), b);
    }
  }

  lemma {:induction false} ArrayPrefix(p: Value, n: Value, subs: seq<seq<RelOp>>, parts: seq<seq<RelOp>>, b: nat)
    requires NoFunc(n) && SameLength(p, n) && b > 0 && IsArrayDiff(p, n, subs)
    requires |parts| == |subs| && forall t | 0 <= t < |subs| :: parts[t] <= subs[t]
    ensures Between(ApplyRel(p, Flat(Indices(|n.items|), parts), b), p, n)
    decreases n, 1
  {
    hide Wire, WireItem, IsDiff, ApplyRel, Flat, Between;
    forall t | 0 <= t < |parts| ensures KeepsSlot(parts[t])
    {
      DiffKeepsSlot(p.items[t], n.items[t], subs[t]);
    }
    ApplyFlatIndices(p.items, |n.items|, parts, b);
    var w := ApplyRel(p, Flat(Indices(|n.items|), parts), b).items;
    forall t | 0 <= t < |n.items| ensures Between(w[t], p.items[t], n.items[t])
    {
      assert parts[t] == subs[t][..|parts[t]|];
      PrefixIsBetween(p.items[t], n.items[t], subs[t], |parts[t]|, b - 1);
    }
    BetweenArrays(Arr(w), p, n);
  }

  lemma {:induction false} BetweenArrays(d: Value, p: Value, n: Value)
    requires SameLength(p, n) && SameLength(d, n)
    requires forall t | 0 <= t < |n.items| :: Between(d.items[t], p.items[t], n.items[t])
    ensures Between(d, p, n)
  {
    hide Wire, WireItem;
  }

  lemma {:induction false} BetweenObjects(d: Value, p: Value, n: Value)
    requires BothObjects(p, n) && d.Obj?
    requires forall k ::
               if k in n.fields then Between(Get(d.fields, k), Get(p.fields, k), n.fields[k])
               else Same(Get(d.fields, k), Get(p.fields, k)) || Same(Get(d.fields, k), Undef)
    ensures Between(d, p, n)
  {
    hide Wire;
  }

  lemma {:induction false} ObjectPrefix(p: Value, n: Value, ks: seq<string>, r: nat, subs: seq<seq<RelOp>>,
                                        parts: seq<seq<RelOp>>, b: nat)
    requires NoFunc(n) && BothObjects(p, n) && b > 0 && IsObjectDiff(p, n, ks, r, subs)
    requires |parts| == |subs| && forall t | 0 <= t < |subs| :: parts[t] <= subs[t]
    ensures |ks| == |parts| && Between(ApplyRel(p, Flat(ks, parts), b), p, n)
    decreases n, 1
  {
    hide Wire, IsDiff, IsObjectDiff, ApplyRel, Flat, Between, IsUnsafe;
    DistinctKeys(p, n, ks, r, subs);
    ApplyFlatKeys(p.fields, ks, parts, b);
    var w := ApplyRel(p, Flat(ks, parts), b).fields;
    forall k ensures if k in n.fields then Between(Get(w, k), Get(p.fields, k), n.fields[k])
                     else Same(Get(w, k), Get(p.fields, k)) || Same(Get(w, k), Undef)
    {
      if k in ks && !IsUnsafe(k) {
        var t :| 0 <= t < |ks| && ks[t] == k;
        assert parts[t] == subs[t][..|parts[t]|];
        KeyPrefix(p, n, ks, r, subs, t, |parts[t]|, b - 1);
      } else if k in n.fields {
        StillBetween(Get(p.fields, k), n.fields[k]);
      }
    }
    BetweenObjects(Obj(w), p, n);
  }

  lemma {:induction false} StillBetween(p: Value, n: Value)
    ensures Between(p, p, n)
  {
  }

  lemma {:induction false} KeyPrefix(p: Value, n: Value, ks: seq<string>, r: nat, subs: seq<seq<RelOp>>, t: nat,
                                     l: nat, b: nat)
    requires NoFunc(n) && BothObjects(p, n) && IsObjectDiff(p, n, ks, r, subs)
    requires t < |ks| && l <= |subs[t]| && !IsUnsafe(ks[t])
    ensures var k := ks[t]; var x := ApplyRel(Get(p.fields, k), subs[t][..l], b);
            if k in n.fields then Between(x, Get(p.fields, k), n.fields[k])
            else Same(x, Get(p.fields, k)) || Same(x, Undef)
    decreases n, 0
  {
    hide Wire, IsDiff, ApplyRel, Flat, Between, IsUnsafe, IsInherited, Distinct;
    var k := ks[t];
    if l == 0 {
      ApplyNothing(Get(p.fields, k), b);
      if k in n.fields {
        StillBetween(Get(p.fields, k), n.fields[k]);
      }
    } else if t < r {
      assert subs[t][..l] == subs[t];
      ApplyWrite(Get(p.fields, k), Remove, b);
    } else {
      assert IsEntryDiff(p, n, k, subs[t]);
      if k in p.fields {
        PrefixIsBetween(p.fields[k], n.fields[k], subs[t], l, b);
      } else {
        FreshEntry(p, n, k, subs[t]);
        assert subs[t][..l] == subs[t];
        ApplyWrite(Get(p.fields, k), subs[t][0].edit, b);
        EndIsBetween(Get(p.fields, k), n.fields[k]);
      }
    }
  }

  lemma {:induction false} EndIsBetween(p: Value, n: Value)
    ensures Between(n, p, n)
  {
  }
}
