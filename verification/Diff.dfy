/** `diffValues`: the operations that lead from one value to the next. */
module Diff {
  import opened Values
  import opened Pointer
  import opened Patch

  const INHERITED_NAMES := [
    "__proto__", "constructor", "hasOwnProperty", "isPrototypeOf", "propertyIsEnumerable",
    "toLocaleString", "toString", "valueOf",
    "__defineGetter__", "__defineSetter__", "__lookupGetter__", "__lookupSetter__"]

  /** Every name that `key in obj` finds on any object. */
  predicate IsInherited(key: string) {
    Listed(key, INHERITED_NAMES)
  }

  /** `key in obj` */
  predicate HasProperty(m: map<string, Value>, k: string) {
    k in m || IsInherited(k)
  }

  /** `obj[key]` where `key in obj`: Object.prototype itself has no enumerable
      keys, everything else that objects inherit is a function. */
  function Property(m: map<string, Value>, k: string): Value {
    if k in m then m[k]
    else if k == "__proto__" then Obj(map[])
    else Func(k)
  }

  predicate BothObjects(p: Value, n: Value) {
    p.Obj? && n.Obj?
  }

  predicate SameLength(p: Value, n: Value) {
    p.Arr? && n.Arr? && |p.items| == |n.items|
  }

  /** `diffValues` writes one replace here. */
  predicate Replaced(p: Value, n: Value) {
    !BothObjects(p, n) && !SameLength(p, n) && p != n
  }

  /** An operation relative to the value it was computed for. */
  datatype RelOp = RelOp(path: seq<string>, edit: Edit)

  function Under(k: string, ops: seq<RelOp>): seq<RelOp> {
    seq(|ops|, i requires 0 <= i < |ops| => RelOp([k] + ops[i].path, ops[i].edit))
  }

  /** The operations found below each of `ks`, one after the other. */
  function Flat(ks: seq<string>, subs: seq<seq<RelOp>>): seq<RelOp>
    requires |ks| == |subs|
  {
    if ks == [] then []
    else Flat(ks[..|ks| - 1], subs[..|ks| - 1]) + Under(ks[|ks| - 1], subs[|ks| - 1])
  }

  function Indices(n: nat): seq<string> {
    seq(n, i requires 0 <= i < n => Decimal(i))
  }

  predicate Distinct(s: seq<string>) {
    s == [] || (s[|s| - 1] !in s[..|s| - 1] && Distinct(s[..|s| - 1]))
  }

  // ---- what diffValues may return ----

  /** The keys that the two loops of `diffObjects` visit, each in any order: first
      the `r` own keys of `p` that `n` does not have, then the own keys of `n`. */
  predicate Visits(p: map<string, Value>, n: map<string, Value>, ks: seq<string>, r: nat) {
    && r <= |ks|
    && Distinct(ks)
    && (forall i | 0 <= i < r :: ks[i] in p && !HasProperty(n, ks[i]))
    && (forall k | k in p && !HasProperty(n, k) :: k in ks[..r])
    && (forall i | r <= i < |ks| :: ks[i] in n)
    && (forall k | k in n :: k in ks[r..])
  }

  ghost predicate IsObjectDiff(p: Value, n: Value, ks: seq<string>, r: nat, subs: seq<seq<RelOp>>)
    requires BothObjects(p, n)
    decreases n, 1
  {
    && Visits(p.fields, n.fields, ks, r)
    && |subs| == |ks|
    && (forall i | 0 <= i < r :: subs[i] == [RelOp([], Remove)])
    && (forall i | r <= i < |ks| :: IsEntryDiff(p, n, ks[i], subs[i]))
  }

  ghost predicate IsEntryDiff(p: Value, n: Value, k: string, sub: seq<RelOp>)
    requires BothObjects(p, n) && k in n.fields
    decreases n, 0
  {
    if HasProperty(p.fields, k) then IsDiff(Property(p.fields, k), n.fields[k], sub)
    else sub == [RelOp([], Add(n.fields[k]))]
  }

  ghost predicate IsArrayDiff(p: Value, n: Value, subs: seq<seq<RelOp>>)
    requires SameLength(p, n)
    decreases n, 0
  {
    && |subs| == |n.items|
    && forall i | 0 <= i < |n.items| :: IsDiff(p.items[i], n.items[i], subs[i])
  }

  /** `ops` is a result of `diffValues(p, n)`, for some order of visiting keys. */
  ghost predicate IsDiff(p: Value, n: Value, ops: seq<RelOp>)
    decreases n, 2
  {
    if BothObjects(p, n) then
      exists ks, r, subs ::
        IsObjectDiff(p, n, ks, r, subs) && ops == Flat(ks, subs)
    else if SameLength(p, n) then
      exists subs ::
        IsArrayDiff(p, n, subs) && ops == Flat(Indices(|n.items|), subs)
    else if p == n then ops == []
    else ops == [RelOp([], Replace(n))]
  }

  // ---- applying operations below a node ----

  /** Operations with more than `b` segments are dropped, as `applyOp` does. */
  function ApplyRel(v: Value, ops: seq<RelOp>, b: int): Value {
    if ops == [] then v
    else
      var op := ops[|ops| - 1];
      var w := ApplyRel(v, ops[..|ops| - 1], b);
      if |op.path| <= b then SetAt(w, op.path, op.edit) else w
  }

  lemma {:induction false} ApplyRelConcat(v: Value, a: seq<RelOp>, c: seq<RelOp>, b: int)
    ensures ApplyRel(v, a + c, b) == ApplyRel(ApplyRel(v, a, b), c, b)
  {
    if c == [] {
      assert a + c == a;
    } else {
      assert (a + c)[..|a + c| - 1] == a + c[..|c| - 1];
      ApplyRelConcat(v, a, c[..|c| - 1], b);
    }
  }

  lemma {:induction false} AllDropped(v: Value, ops: seq<RelOp>, b: int)
    requires b < 0
    ensures ApplyRel(v, ops, b) == v
  {
    if ops != [] {
      AllDropped(v, ops[..|ops| - 1], b);
    }
  }

  /** Operations below key `k` change what `k` holds and nothing else; below an
      unsafe key they change nothing at all. */
  lemma {:induction false} ApplyUnderKey(m: map<string, Value>, k: string, ops: seq<RelOp>, b: int)
    ensures ApplyRel(Obj(m), Under(k, ops), b).Obj?
    ensures var w := ApplyRel(Obj(m), Under(k, ops), b).fields;
            && (forall j | j != k :: Get(w, j) == Get(m, j))
            && Get(w, k) == if IsUnsafe(k) then Get(m, k)
                            else ApplyRel(Get(m, k), ops, b - 1)
  {
    if ops != [] {
      var front := ops[..|ops| - 1];
      var op := ops[|ops| - 1];
      ApplyUnderKey(m, k, front, b);
      assert Under(k, ops)[..|ops| - 1] == Under(k, front);
      assert ([k] + op.path)[1..] == op.path;
    }
  }

  /** `diffArrays` never removes an item. */
  predicate KeepsSlot(ops: seq<RelOp>) {
    forall i | 0 <= i < |ops| :: ops[i].path == [] ==> !ops[i].edit.Remove?
  }

  lemma {:induction false} ApplyUnderIndex(s: seq<Value>, i: nat, ops: seq<RelOp>, b: int)
    requires i < |s| && KeepsSlot(ops)
    ensures ApplyRel(Arr(s), Under(Decimal(i), ops), b) == Arr(s[i := ApplyRel(s[i], ops, b - 1)])
  {
    if ops == [] {
      assert s[i := s[i]] == s;
    } else {
      var front := ops[..|ops| - 1];
      var op := ops[|ops| - 1];
      ApplyUnderIndex(s, i, front, b);
      ToIntegerDecimal(i);
      var x := ApplyRel(s[i], front, b - 1);
      var y := SetAt(x, op.path, op.edit);
      assert s[i := x][i := y] == s[i := y];
      var all := Under(Decimal(i), ops);
      assert all[..|ops| - 1] == Under(Decimal(i), front);
      assert all[|ops| - 1].path[0] == Decimal(i) && all[|ops| - 1].path[1..] == op.path;
      if |op.path| < b {
        assert SetAt(Arr(s[i := x]), [Decimal(i)] + op.path, op.edit)
            == SetInArray(s[i := x], Decimal(i), op.path, op.edit);
        assert op.path == [] ==> y == op.edit.value;
      }
    }
  }

  lemma {:induction false} ApplyFlatKeys(m: map<string, Value>, ks: seq<string>, subs: seq<seq<RelOp>>, b: int)
    requires |ks| == |subs| && Distinct(ks)
    ensures ApplyRel(Obj(m), Flat(ks, subs), b).Obj?
    ensures var w := ApplyRel(Obj(m), Flat(ks, subs), b).fields;
            && (forall k | k !in ks || IsUnsafe(k) :: Get(w, k) == Get(m, k))
            && (forall i | 0 <= i < |ks| && !IsUnsafe(ks[i]) ::
                  Get(w, ks[i]) == ApplyRel(Get(m, ks[i]), subs[i], b - 1))
  {
    hide ApplyRel, Under, IsUnsafe;
    if ks == [] {
      ApplyNothing(Obj(m), b);
    } else {
      var last := |ks| - 1;
      var front := ks[..last];
      ApplyFlatKeys(m, front, subs[..last], b);
      var w := ApplyRel(Obj(m), Flat(front, subs[..last]), b).fields;
      ApplyRelConcat(Obj(m), Flat(front, subs[..last]), Under(ks[last], subs[last]), b);
      ApplyUnderKey(w, ks[last], subs[last], b);
      assert ks == front + [ks[last]] && ks[last] !in front;
      assert forall i | 0 <= i < last :: front[i] == ks[i] && ks[i] != ks[last];
    }
  }

  lemma {:induction false} ApplyNothing(v: Value, b: int)
    ensures ApplyRel(v, [], b) == v
  {
  }

  lemma {:induction false} ApplyFlatIndices(s: seq<Value>, n: nat, subs: seq<seq<RelOp>>, b: int)
    requires n == |subs| <= |s| && forall i | 0 <= i < n :: KeepsSlot(subs[i])
    ensures ApplyRel(Arr(s), Flat(Indices(n), subs), b)
         == Arr(seq(|s|, i requires 0 <= i < |s| =>
                  if i < n then ApplyRel(s[i], subs[i], b - 1) else s[i]))
  {
    var goal := seq(|s|, i requires 0 <= i < |s| =>
                      if i < n then ApplyRel(s[i], subs[i], b - 1) else s[i]);
    if n == 0 {
      assert goal == s;
    } else {
      var front := Flat(Indices(n - 1), subs[..n - 1]);
      ApplyFlatIndices(s, n - 1, subs[..n - 1], b);
      assert Indices(n)[..n - 1] == Indices(n - 1);
      ApplyRelConcat(Arr(s), front, Under(Decimal(n - 1), subs[n - 1]), b);
      var w := ApplyRel(Arr(s), front, b).items;
      ApplyUnderIndex(w, n - 1, subs[n - 1], b);
      assert w[n - 1 := ApplyRel(w[n - 1], subs[n - 1], b - 1)] == goal;
    }
  }

  lemma {:induction false} NonemptyPaths(ks: seq<string>, subs: seq<seq<RelOp>>)
    requires |ks| == |subs|
    ensures forall op | op in Flat(ks, subs) :: op.path != []
  {
    if ks != [] {
      NonemptyPaths(ks[..|ks| - 1], subs[..|ks| - 1]);
    }
  }

  lemma {:induction false} DiffKeepsSlot(p: Value, n: Value, ops: seq<RelOp>)
    requires IsDiff(p, n, ops)
    ensures KeepsSlot(ops)
  {
    if BothObjects(p, n) {
      var ks, r, subs :| IsObjectDiff(p, n, ks, r, subs) && ops == Flat(ks, subs);
      NonemptyPaths(ks, subs);
    } else if SameLength(p, n) {
      var subs :| IsArrayDiff(p, n, subs) && ops == Flat(Indices(|n.items|), subs);
      NonemptyPaths(Indices(|n.items|), subs);
    }
  }

  predicate AllBelow(ops: seq<RelOp>) {
    forall op | op in ops :: op.path != []
  }

  lemma {:induction false} ContainerPaths(p: Value, n: Value, ops: seq<RelOp>)
    requires IsDiff(p, n, ops) && !Replaced(p, n)
    ensures AllBelow(ops)
  {
    if BothObjects(p, n) {
      var ks, r, subs :| IsObjectDiff(p, n, ks, r, subs) && ops == Flat(ks, subs);
      NonemptyPaths(ks, subs);
    } else if SameLength(p, n) {
      var subs :| IsArrayDiff(p, n, subs) && ops == Flat(Indices(|n.items|), subs);
      NonemptyPaths(Indices(|n.items|), subs);
    }
  }

  // ---- the two loops ----

  /** `basePath || "/"` for the value itself, the rendered path below it. */
  function PathAt(base: string, path: seq<string>): string {
    if base == "" && path == [] then "/" else base + Render(path)
  }

  function AtBase(base: string, ops: seq<RelOp>): seq<Op> {
    seq(|ops|, i requires 0 <= i < |ops| => Op(PathAt(base, ops[i].path), ops[i].edit))
  }

  lemma {:induction false} PathAtUnder(base: string, k: string, path: seq<string>)
    ensures PathAt(base, [k] + path) == PathAt(base + "/" + Escape(k), path)
  {
    assert ([k] + path)[1..] == path;
    var e, r := Escape(k), Render(path);
    assert base + ("/" + e + r) == base + "/" + e + r;
  }

  lemma {:induction false} AtBaseUnder(base: string, k: string, ops: seq<RelOp>)
    ensures AtBase(base, Under(k, ops)) == AtBase(base + "/" + Escape(k), ops)
  {
    forall i | 0 <= i < |ops|
      ensures PathAt(base, Under(k, ops)[i].path) == PathAt(base + "/" + Escape(k), ops[i].path)
    {
      PathAtUnder(base, k, ops[i].path);
    }
  }

  lemma {:induction false} AtBaseConcat(base: string, a: seq<RelOp>, c: seq<RelOp>)
    ensures AtBase(base, a + c) == AtBase(base, a) + AtBase(base, c)
  {
  }

  lemma {:induction false} AtBaseHere(base: string, edit: Edit)
    ensures AtBase(base, [RelOp([], edit)]) == [Op(if base == "" then "/" else base, edit)]
  {
    assert base + Render([]) == base;
  }

  /** What `diffValues` may return for two values at a base path. */
  ghost predicate IsDiffAt(p: Value, n: Value, base: string, ops: seq<Op>) {
    exists rel :: IsDiff(p, n, rel) && ops == AtBase(base, rel)
  }

  lemma {:induction false} DiffAtBase(p: Value, n: Value, base: string, rel: seq<RelOp>)
    requires IsDiff(p, n, rel)
    ensures IsDiffAt(p, n, base, AtBase(base, rel))
  {
  }

  /** `diffValues`. The two recursive branches run on equal containers too; see
      `NothingToSay` for why they then find nothing, as `Object.is` would for one
      and the same object. */
  method DiffValues(prev: Value, next: Value, base: string) returns (ops: seq<Op>, ghost rel: seq<RelOp>)
    ensures IsDiffAt(prev, next, base, ops)
    ensures IsDiff(prev, next, rel) && ops == AtBase(base, rel)
    decreases next, 1
  {
    if BothObjects(prev, next) {
      ops, rel := DiffObjects(prev, next, base);
    } else if prev.Arr? && next.Arr? {
      ops, rel := DiffArrays(prev, next, base);
    } else if prev == next {
      ops, rel := [], [];
      DiffAtBase(prev, next, base, rel);
    } else {
      rel := [RelOp([], Replace(next))];
      ops := [Op(if base == "" then "/" else base, Replace(next))];
      AtBaseHere(base, Replace(next));
      DiffAtBase(prev, next, base, rel);
    }
  }

  method DiffObjects(prev: Value, next: Value, base: string) returns (ops: seq<Op>, ghost rel: seq<RelOp>)
    requires BothObjects(prev, next)
    ensures IsDiffAt(prev, next, base, ops)
    ensures IsDiff(prev, next, rel) && ops == AtBase(base, rel)
    decreases next, 0
  {
    var p, n := prev.fields, next.fields;
    ghost var ks: seq<string>, subs: seq<seq<RelOp>> := [], [];
    ops := [];
    var keys := p.Keys;
    NothingVisited(prev, next, base);
    assert keys + {} == keys;
    hide *;
    while keys != {}
      invariant keys <= p.Keys
      invariant Progress(prev, next, base, ks, |ks|, subs, keys, n.Keys, ops)
      decreases keys
    {
      var key :| key in keys;
      assert keys == (keys - {key}) + {key};
      keys := keys - {key};
      if !HasProperty(n, key) {
        ops := ops + [Op(base + "/" + Escape(key), Remove)];
        PushRemoval(prev, next, base, ks, subs, keys, key, ops[..|ops| - 1]);
        ks, subs := ks + [key], subs + [[RelOp([], Remove)]];
      } else {
        SkipKey(prev, next, base, ks, subs, keys, key, ops);
      }
    }

    ghost var r := |ks|;
    keys := n.Keys;
    while keys != {}
      invariant keys <= n.Keys
      invariant Progress(prev, next, base, ks, r, subs, {}, keys, ops)
      decreases keys
    {
      var key :| key in keys;
      assert keys == (keys - {key}) + {key};
      keys := keys - {key};
      var path := base + "/" + Escape(key);
      ghost var sub;
      var found;
      if !HasProperty(p, key) {
        found, sub := [Op(path, Add(n[key]))], [RelOp([], Add(n[key]))];
        AddedEntry(prev, next, base, key);
      } else {
        found, sub := DiffValues(Property(p, key), n[key], path);
        DiffedEntry(prev, next, key, sub);
      }
      PushEntry(prev, next, base, ks, r, subs, keys, key, sub, ops);
      ops := ops + found;
      ks, subs := ks + [key], subs + [sub];
    }
    rel := Flat(ks, subs);
    AllVisited(prev, next, base, ks, r, subs, ops);
    DiffAtBase(prev, next, base, rel);
  }

  /** What `diffObjects` has found when these keys are still to be visited. */
  ghost predicate Progress(p: Value, n: Value, base: string, ks: seq<string>, r: nat, subs: seq<seq<RelOp>>,
                           leftInPrev: set<string>, leftInNext: set<string>, ops: seq<Op>)
    requires BothObjects(p, n)
  {
    && r <= |ks| == |subs|
    && Distinct(ks)
    && (forall i | 0 <= i < r ::
          ks[i] in p.fields && !HasProperty(n.fields, ks[i]) && ks[i] !in leftInPrev && subs[i] == [RelOp([], Remove)])
    && (forall k | k in p.fields && !HasProperty(n.fields, k) && k !in leftInPrev :: k in ks[..r])
    && (forall i | r <= i < |ks| ::
          ks[i] in n.fields && ks[i] !in leftInNext && IsEntryDiff(p, n, ks[i], subs[i]))
    && (forall k | k in n.fields && k !in leftInNext :: k in ks[r..])
    && ops == AtBase(base, Flat(ks, subs))
  }

  lemma {:induction false} NothingVisited(p: Value, n: Value, base: string)
    requires BothObjects(p, n)
    ensures Progress(p, n, base, [], 0, [], p.fields.Keys, n.fields.Keys, [])
  {
  }

  lemma {:induction false} AllVisited(p: Value, n: Value, base: string, ks: seq<string>, r: nat,
                                      subs: seq<seq<RelOp>>, ops: seq<Op>)
    requires BothObjects(p, n) && Progress(p, n, base, ks, r, subs, {}, {}, ops)
    ensures |ks| == |subs|
    ensures IsDiff(p, n, Flat(ks, subs)) && ops == AtBase(base, Flat(ks, subs))
  {
    assert IsObjectDiff(p, n, ks, r, subs);
  }

  lemma {:induction false} SkipKey(p: Value, n: Value, base: string, ks: seq<string>, subs: seq<seq<RelOp>>,
                                   left: set<string>, key: string, ops: seq<Op>)
    requires BothObjects(p, n) && HasProperty(n.fields, key)
    requires Progress(p, n, base, ks, |ks|, subs, left + {key}, n.fields.Keys, ops)
    ensures Progress(p, n, base, ks, |ks|, subs, left, n.fields.Keys, ops)
  {
  }

  lemma {:induction false} PushRemoval(p: Value, n: Value, base: string, ks: seq<string>, subs: seq<seq<RelOp>>,
                                       left: set<string>, key: string, ops: seq<Op>)
    requires BothObjects(p, n) && key !in left && key in p.fields && !HasProperty(n.fields, key)
    requires Progress(p, n, base, ks, |ks|, subs, left + {key}, n.fields.Keys, ops)
    ensures Progress(p, n, base, ks + [key], |ks| + 1, subs + [[RelOp([], Remove)]], left, n.fields.Keys,
                     ops + [Op(base + "/" + Escape(key), Remove)])
  {
    hide HasProperty, IsEntryDiff, AtBase, Flat, Escape;
    AtBaseHere(base + "/" + Escape(key), Remove);
    PushFlat(base, ks, subs, key, [RelOp([], Remove)]);
    assert (ks + [key])[..|ks| + 1] == ks[..|ks|] + [key];
    assert (ks + [key])[..|ks|] == ks;
  }

  lemma {:induction false} AddedEntry(p: Value, n: Value, base: string, key: string)
    requires BothObjects(p, n) && key in n.fields && !HasProperty(p.fields, key)
    ensures IsEntryDiff(p, n, key, [RelOp([], Add(n.fields[key]))])
    ensures AtBase(base + "/" + Escape(key), [RelOp([], Add(n.fields[key]))])
         == [Op(base + "/" + Escape(key), Add(n.fields[key]))]
  {
    AtBaseHere(base + "/" + Escape(key), Add(n.fields[key]));
  }

  lemma {:induction false} DiffedEntry(p: Value, n: Value, key: string, sub: seq<RelOp>)
    requires BothObjects(p, n) && key in n.fields && HasProperty(p.fields, key)
    requires IsDiff(Property(p.fields, key), n.fields[key], sub)
    ensures IsEntryDiff(p, n, key, sub)
  {
  }

  lemma {:induction false} PushEntry(p: Value, n: Value, base: string, ks: seq<string>, r: nat, subs: seq<seq<RelOp>>,
                                     left: set<string>, key: string, sub: seq<RelOp>, ops: seq<Op>)
    requires BothObjects(p, n) && key !in left && key in n.fields && IsEntryDiff(p, n, key, sub)
    requires Progress(p, n, base, ks, r, subs, {}, left + {key}, ops)
    ensures Progress(p, n, base, ks + [key], r, subs + [sub], {}, left,
                     ops + AtBase(base + "/" + Escape(key), sub))
  {
    hide IsEntryDiff, AtBase, Flat, Escape, Listed;
    PushFlat(base, ks, subs, key, sub);
    assert (ks + [key])[..r] == ks[..r];
    assert (ks + [key])[r..] == ks[r..] + [key];
    assert (ks + [key])[..|ks|] == ks;
    assert key !in ks by {
      assert forall i | 0 <= i < r :: ks[i] !in n.fields;
    }
  }

  method DiffArrays(prev: Value, next: Value, base: string) returns (ops: seq<Op>, ghost rel: seq<RelOp>)
    requires prev.Arr? && next.Arr?
    ensures IsDiffAt(prev, next, base, ops)
    ensures IsDiff(prev, next, rel) && ops == AtBase(base, rel)
    decreases next, 0
  {
    hide Flat, AtBase, Escape, IsDiff, ItemsCompared, IsDiffAt;
    if |prev.items| != |next.items| {
      ReplacedWhole(prev, next, base);
      DiffAtBase(prev, next, base, [RelOp([], Replace(next))]);
      return [Op(if base == "" then "/" else base, Replace(next))], [RelOp([], Replace(next))];
    }
    ghost var subs: seq<seq<RelOp>> := [];
    ops := [];
    NoItemCompared(prev, next, base);
    for i := 0 to |next.items|
      invariant ItemsCompared(prev, next, base, i, subs, ops)
    {
      var found, sub := DiffValues(prev.items[i], next.items[i], base + "/" + Decimal(i));
      PushItem(prev, next, base, i, subs, ops, sub);
      ops := ops + found;
      subs := subs + [sub];
    }
    AllItemsCompared(prev, next, base, subs, ops);
    rel := Flat(Indices(|next.items|), subs);
    DiffAtBase(prev, next, base, rel);
  }

  lemma {:induction false} ReplacedWhole(p: Value, n: Value, base: string)
    requires p.Arr? && n.Arr? && |p.items| != |n.items|
    ensures IsDiff(p, n, [RelOp([], Replace(n))])
    ensures [Op(if base == "" then "/" else base, Replace(n))] == AtBase(base, [RelOp([], Replace(n))])
  {
    AtBaseHere(base, Replace(n));
  }

  /** What `diffArrays` has found after `i` items. */
  ghost predicate ItemsCompared(p: Value, n: Value, base: string, i: nat, subs: seq<seq<RelOp>>, ops: seq<Op>)
    requires p.Arr? && n.Arr? && |p.items| == |n.items| && i <= |n.items|
  {
    && |subs| == i
    && (forall j | 0 <= j < i :: IsDiff(p.items[j], n.items[j], subs[j]))
    && ops == AtBase(base, Flat(Indices(i), subs))
  }

  lemma {:induction false} NoItemCompared(p: Value, n: Value, base: string)
    requires p.Arr? && n.Arr? && |p.items| == |n.items|
    ensures ItemsCompared(p, n, base, 0, [], [])
  {
  }

  lemma {:induction false} PushItem(p: Value, n: Value, base: string, i: nat, subs: seq<seq<RelOp>>, ops: seq<Op>,
                                    sub: seq<RelOp>)
    requires p.Arr? && n.Arr? && |p.items| == |n.items| && i < |n.items|
    requires ItemsCompared(p, n, base, i, subs, ops) && IsDiff(p.items[i], n.items[i], sub)
    ensures ItemsCompared(p, n, base, i + 1, subs + [sub], ops + AtBase(base + "/" + Decimal(i), sub))
  {
    hide Flat, AtBase, Escape, IsDiff, Decimal;
    EscapeDecimal(i);
    PushFlat(base, Indices(i), subs, Decimal(i), sub);
    assert Indices(i) + [Decimal(i)] == Indices(i + 1);
  }

  lemma {:induction false} AllItemsCompared(p: Value, n: Value, base: string, subs: seq<seq<RelOp>>, ops: seq<Op>)
    requires p.Arr? && n.Arr? && |p.items| == |n.items| && ItemsCompared(p, n, base, |n.items|, subs, ops)
    ensures |subs| == |n.items|
    ensures IsDiff(p, n, Flat(Indices(|n.items|), subs)) && ops == AtBase(base, Flat(Indices(|n.items|), subs))
  {
    assert IsArrayDiff(p, n, subs);
  }

  lemma {:induction false} PushFlat(base: string, ks: seq<string>, subs: seq<seq<RelOp>>, k: string, sub: seq<RelOp>)
    requires |ks| == |subs|
    ensures AtBase(base, Flat(ks + [k], subs + [sub]))
         == AtBase(base, Flat(ks, subs)) + AtBase(base + "/" + Escape(k), sub)
  {
    assert (ks + [k])[..|ks|] == ks && (subs + [sub])[..|ks|] == subs;
    AtBaseConcat(base, Flat(ks, subs), Under(k, sub));
    AtBaseUnder(base, k, sub);
  }
}
