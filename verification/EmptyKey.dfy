/** The empty key at the root of a state: its path is the root's own, so that writing
    to it or removing it replaces the whole state. */
module EmptyKey {
  import opened Values
  import opened Pointer
  import opened Patch
  import opened Diff
  import opened Landing
  import opened DiffPatch

  // ---- the operation on the root ----

  lemma {:induction false} FlatConcat(ks: seq<string>, subs: seq<seq<RelOp>>, ls: seq<string>, tubs: seq<seq<RelOp>>)
    requires |ks| == |subs| && |ls| == |tubs|
    ensures Flat(ks + ls, subs + tubs) == Flat(ks, subs) + Flat(ls, tubs)
  {
    hide Under;
    if ls == [] {
      assert ks + ls == ks && subs + tubs == subs;
    } else {
      var last := |ls| - 1;
      assert (ks + ls)[..|ks + ls| - 1] == ks + ls[..last];
      assert (subs + tubs)[..|ks + ls| - 1] == subs + tubs[..last];
      FlatConcat(ks, subs, ls[..last], tubs[..last]);
    }
  }

  lemma {:induction false} DistinctSplit(ks: seq<string>, i: nat)
    requires Distinct(ks) && i < |ks|
    ensures ks[i] !in ks[i + 1..]
  {
    var last := |ks| - 1;
    if i < last {
      DistinctSplit(ks[..last], i);
      assert ks[i + 1..] == ks[..last][i + 1..] + [ks[last]];
    }
  }

  lemma {:induction false} HeadsOfFlat(ks: seq<string>, subs: seq<seq<RelOp>>)
    requires |ks| == |subs|
    ensures forall op | op in Flat(ks, subs) :: op.path != [] && op.path[0] in ks
  {
    if ks != [] {
      HeadsOfFlat(ks[..|ks| - 1], subs[..|ks| - 1]);
    }
  }

  lemma {:induction false} EmptyKeyIndex(p: Value, n: Value, ks: seq<string>, r: nat, subs: seq<seq<RelOp>>)
    returns (i: nat)
    requires BothObjects(p, n) && "" in n.fields && IsObjectDiff(p, n, ks, r, subs)
    ensures r <= i < |ks| == |subs| && ks[i] == "" && Distinct(ks)
  {
    hide IsDiff, IsEntryDiff, HasProperty;
    assert "" in ks[r..];
    i :| r <= i < |ks| && ks[i] == "";
  }

  lemma {:induction false} EmptyKeyWrite(p: Value, n: Value, ks: seq<string>, r: nat, subs: seq<seq<RelOp>>, i: nat)
    requires BothObjects(p, n) && NoFunc(n) && !ClearRoot(p, n) && "" in n.fields
    requires IsObjectDiff(p, n, ks, r, subs) && r <= i < |ks| && ks[i] == ""
    ensures |subs[i]| == 1 && subs[i][0].path == [] && !subs[i][0].edit.Remove?
    ensures subs[i][0].edit.value == n.fields[""]
  {
    hide IsDiff, Visits, Listed;
    EmptyKeyEntryWrites(p, n, subs[i]);
  }

  lemma {:induction false} EmptyKeyEntryWrites(p: Value, n: Value, sub: seq<RelOp>)
    requires BothObjects(p, n) && NoFunc(n) && !ClearRoot(p, n) && "" in n.fields
    requires IsEntryDiff(p, n, "", sub)
    ensures |sub| == 1 && sub[0].path == [] && !sub[0].edit.Remove? && sub[0].edit.value == n.fields[""]
  {
    hide IsInherited, IsUnsafe;
    EmptyIsSafe();
    if "" in p.fields {
      assert Property(p.fields, "") == p.fields[""] && HasProperty(p.fields, "");
      assert IsDiff(p.fields[""], n.fields[""], sub);
      assert Replaced(p.fields[""], n.fields[""]);
    } else {
      FreshEntry(p, n, "", sub);
    }
  }

  lemma {:induction false} EmptyIsNotListed(names: seq<string>)
    requires forall i | 0 <= i < |names| :: |names[i]| > 0
    ensures !Listed("", names)
  {
    if names != [] {
      EmptyIsNotListed(names[1..]);
    }
  }

  lemma {:induction false} EmptyIsSafe()
    ensures !IsUnsafe("")
  {
  }

  lemma {:induction false} EmptyIsNotInherited()
    ensures !IsInherited("")
  {
    hide Listed;
    EmptyIsNotListed(INHERITED_NAMES);
  }

  lemma {:induction false} RemovedAt(p: Value, n: Value, ks: seq<string>, r: nat, subs: seq<seq<RelOp>>)
    returns (i: nat)
    requires BothObjects(p, n) && "" in p.fields && "" !in n.fields && IsObjectDiff(p, n, ks, r, subs)
    ensures i < r <= |ks| == |subs| && ks[i] == "" && subs[i] == [RelOp([], Remove)] && Distinct(ks)
  {
    hide IsDiff, IsEntryDiff, IsInherited, Distinct;
    EmptyIsNotInherited();
    assert "" in ks[..r];
    i :| 0 <= i < r && ks[i] == "";
  }

  lemma {:induction false} SplitAtKey(ks: seq<string>, subs: seq<seq<RelOp>>, i: nat)
    requires |ks| == |subs| && i < |ks|
    ensures Flat(ks, subs) == Flat(ks[..i], subs[..i]) + Under(ks[i], subs[i]) + Flat(ks[i + 1..], subs[i + 1..])
  {
    assert ks == ks[..i + 1] + ks[i + 1..] && subs == subs[..i + 1] + subs[i + 1..];
    FlatConcat(ks[..i + 1], subs[..i + 1], ks[i + 1..], subs[i + 1..]);
    assert ks[..i + 1][..i] == ks[..i] && subs[..i + 1][..i] == subs[..i];
  }

  function Written(edit: Edit): Value {
    if edit.Remove? then Undef else edit.value
  }

  lemma {:induction false} RootIsOverwritten(d: Value, before: seq<RelOp>, edit: Edit, after: seq<RelOp>)
    requires forall op | op in after :: op.path != [] && op.path[0] != ""
    ensures ApplyOps(d, AtBase("", before + Under("", [RelOp([], edit)]) + after))
         == ApplyRel(Written(edit), after, MAX_PATCH_PATH_SEGMENTS)
  {
    hide Split, Unescape, SetAt;
    var write := Under("", [RelOp([], edit)]);
    AtBaseConcat("", before + write, after);
    AtBaseConcat("", before, write);
    ApplyOpsConcat(d, AtBase("", before) + AtBase("", write), AtBase("", after));
    ApplyOpsConcat(d, AtBase("", before), AtBase("", write));
    RootWrite(ApplyOps(d, AtBase("", before)), edit);
    ApplyAtBase(Written(edit), after);
  }

  lemma {:induction false} RootWrite(v: Value, edit: Edit)
    ensures ApplyOps(v, AtBase("", Under("", [RelOp([], edit)]))) == Written(edit)
  {
    var ops := AtBase("", Under("", [RelOp([], edit)]));
    assert [""] + [] == [""];
    assert Under("", [RelOp([], edit)]) == [RelOp([""], edit)];
    ParseRender([""]);
    assert "" + Render([""]) == Render([""]);
    assert ops[..0] == [] && ops[0] == Op(Render([""]), edit);
  }

  // ---- a value is written ----

  /** What writes to other keys leave of a value under its empty key. */
  ghost predicate EmptyKeyKept(x: Value, w: Value) {
    if x.Obj? then w.Obj? && Get(w.fields, "") == Get(x.fields, "")
    else if x.Arr? then w.Arr?
    else w == x || (w.Obj? && Get(w.fields, "") == Undef)
  }

  lemma {:induction false} OtherKeysKeepIt(x: Value, ops: seq<RelOp>, b: nat)
    requires forall op | op in ops :: op.path != [] && op.path[0] != ""
    ensures EmptyKeyKept(x, ApplyRel(x, ops, b))
  {
    if ops != [] {
      var op := ops[|ops| - 1];
      assert op in ops;
      OtherKeysKeepIt(x, ops[..|ops| - 1], b);
      var w := ApplyRel(x, ops[..|ops| - 1], b);
      if w.Arr? {
        assert SetAt(w, op.path, op.edit) == SetInArray(w.items, op.path[0], op.path[1..], op.edit);
      }
    }
  }

  lemma {:induction false} NoValueHoldsItself(m: map<string, Value>, k: string)
    ensures !Same(Get(m, k), Obj(m))
  {
    var w := Wire(Obj(m));
    if k in w.fields {
      assert w.fields[k] < w;
    }
  }

  lemma {:induction false} NotTheRoot(x: Value, w: Value, n: Value)
    requires n.Obj? && "" in n.fields && n.fields[""] == x && Wire(x) != Undef
    requires EmptyKeyKept(x, w)
    ensures !Same(w, n)
  {
    if w.Obj? {
      SameObj(w.fields, n.fields);
      if Same(w, n) {
        assert Same(Get(w.fields, ""), Get(n.fields, ""));
        if x.Obj? {
          NoValueHoldsItself(x.fields, "");
        }
      }
    }
  }

  // ---- where the operation stands ----

  /** The diff's parts when the empty key is affected, its place among the keys, and the
      one operation found there. */
  lemma {:induction false} RootPlace(p: Value, n: Value, rel: seq<RelOp>)
    returns (ks: seq<string>, r: nat, subs: seq<seq<RelOp>>, t: nat, e: Edit)
    requires NoFunc(n) && IsDiff(p, n, rel) && !ClearRoot(p, n)
    ensures BothObjects(p, n) && IsObjectDiff(p, n, ks, r, subs) && rel == Flat(ks, subs)
    ensures t < |ks| == |subs| && Distinct(ks) && ks[t] == "" && subs[t] == [RelOp([], e)]
    ensures Written(e) == Get(n.fields, "") && r <= |ks| && ("" !in n.fields ==> t < r)
  {
    hide IsDiff, IsEntryDiff, IsObjectDiff, Flat, Distinct;
    assert BothObjects(p, n);
    ks, r, subs := ObjectDiffParts(p, n, rel);
    if "" in n.fields {
      t := EmptyKeyIndex(p, n, ks, r, subs);
      EmptyKeyWrite(p, n, ks, r, subs, t);
      e := subs[t][0].edit;
      assert subs[t] == [RelOp([], e)];
    } else {
      t := RemovedAt(p, n, ks, r, subs);
      e := Remove;
    }
  }

  /** What was there before the operation on the root is forgotten. */
  lemma {:induction false} RootIsForgotten(d: Value, ks: seq<string>, subs: seq<seq<RelOp>>, t: nat, e: Edit)
    requires t < |ks| == |subs| && Distinct(ks) && ks[t] == "" && subs[t] == [RelOp([], e)]
    ensures ApplyOps(d, AtBase("", Flat(ks, subs)))
         == ApplyRel(Written(e), Flat(ks[t + 1..], subs[t + 1..]), MAX_PATCH_PATH_SEGMENTS)
  {
    hide Distinct, Flat, AtBase, ApplyOps, ApplyRel, Under;
    SplitAtKey(ks, subs, t);
    HeadsOfFlat(ks[t + 1..], subs[t + 1..]);
    DistinctSplit(ks, t);
    RootIsOverwritten(d, Flat(ks[..t], subs[..t]), e, Flat(ks[t + 1..], subs[t + 1..]));
  }

  /** A defined value written under the empty key of the root object takes the place of
      the whole root, and nothing that follows can mend it. */
  lemma {:induction false} EmptyKeyNeverArrives(p: Value, n: Value, ops: seq<Op>)
    requires IsDiffOf(p, n, ops) && NoFunc(n) && !ClearRoot(p, n)
    requires "" in n.fields && Wire(n.fields[""]) != Undef
    ensures !Same(ApplyOps(p, ops), n)
  {
    EmptyKeyNeverArrivesAnywhere(p, p, n, ops);
  }

  lemma {:induction false} EmptyKeyNeverArrivesAnywhere(d: Value, p: Value, n: Value, ops: seq<Op>)
    requires IsDiffOf(p, n, ops) && NoFunc(n) && !ClearRoot(p, n)
    requires "" in n.fields && Wire(n.fields[""]) != Undef
    ensures !Same(ApplyOps(d, ops), n)
  {
    hide Wire, Distinct, Flat, AtBase, ApplyOps, ApplyRel, EmptyKeyKept, IsDiff, IsObjectDiff, ClearRoot;
    var rel :| IsDiff(p, n, rel) && ops == AtBase("", rel);
    var ks, r, subs, t, e := RootPlace(p, n, rel);
    var rest := Flat(ks[t + 1..], subs[t + 1..]);
    RootIsForgotten(d, ks, subs, t, e);
    HeadsOfFlat(ks[t + 1..], subs[t + 1..]);
    DistinctSplit(ks, t);
    OtherKeysKeepIt(n.fields[""], rest, MAX_PATCH_PATH_SEGMENTS);
    NotTheRoot(n.fields[""], ApplyRel(n.fields[""], rest, MAX_PATCH_PATH_SEGMENTS), n);
  }

  // ---- the root is cleared ----

  predicate HeadedBy(ops: seq<RelOp>, k: string) {
    exists j :: 0 <= j < |ops| && ops[j].path != [] && ops[j].path[0] == k
  }

  /** What key `k` holds in the next value can be made out of nothing. */
  ghost predicate Made(p: Value, n: Value, k: string)
    requires BothObjects(p, n)
  {
    KeyLands(Undef, p, n, k, MAX_PATCH_PATH_SEGMENTS - 1)
  }

  /** Out of nothing, these operations make the next value. */
  ghost predicate Regrown(p: Value, n: Value, rest: seq<RelOp>)
    requires BothObjects(p, n)
  {
    && HasRousing(rest, MAX_PATCH_PATH_SEGMENTS)
    && forall k :: if HeadedBy(rest, k) then Made(p, n, k)
                   else Same(Undef, Get(n.fields, k))
  }

  lemma {:induction false} RegrownExactly(p: Value, n: Value, ks: seq<string>, r: nat, subs: seq<seq<RelOp>>, t: nat)
    requires NoFunc(n) && BothObjects(p, n) && IsObjectDiff(p, n, ks, r, subs)
    requires t < |ks| == |subs| && Distinct(ks)
    ensures var rest := Flat(ks[t + 1..], subs[t + 1..]);
            Same(ApplyRel(Undef, rest, MAX_PATCH_PATH_SEGMENTS), n) <==> Regrown(p, n, rest)
  {
    hide Wire, IsDiff, IsObjectDiff, ApplyRel, Flat, Made, HasRousing, HeadedBy, Distinct;
    var ls, tubs, rest := ks[t + 1..], subs[t + 1..], Flat(ks[t + 1..], subs[t + 1..]);
    HeadsOfFlat(ls, tubs);
    FromNothing(Undef, rest, MAX_PATCH_PATH_SEGMENTS);
    NotObject(Undef, n);
    DistinctTail(ks, t + 1);
    ApplyFlatKeys(map[], ls, tubs, MAX_PATCH_PATH_SEGMENTS);
    var w := ApplyRel(Obj(map[]), rest, MAX_PATCH_PATH_SEGMENTS).fields;
    forall k ensures Same(Get(w, k), Get(n.fields, k)) <==>
                     if HeadedBy(rest, k) then Made(p, n, k)
                     else Same(Undef, Get(n.fields, k))
    {
      RegrownKey(p, n, ks, r, subs, t, ls, tubs, k, Get(w, k));
    }
    SameObj(w, n.fields);
  }

  lemma {:induction false} DistinctTail(ks: seq<string>, i: nat)
    requires Distinct(ks) && i <= |ks|
    ensures Distinct(ks[i..])
  {
    if i < |ks| {
      var last := |ks| - 1;
      DistinctTail(ks[..last], i);
      assert ks[i..][..|ks[i..]| - 1] == ks[..last][i..];
      assert ks == ks[..last] + [ks[last]];
    }
  }

  lemma {:induction false} SamePlace(ks: seq<string>, i: nat, j: nat)
    requires Distinct(ks) && i < |ks| && j < |ks|
    ensures ks[i] == ks[j] ==> i == j
  {
    var last := |ks| - 1;
    if i < last && j < last {
      SamePlace(ks[..last], i, j);
    } else {
      assert forall m | 0 <= m < last :: ks[..last][m] == ks[m];
    }
  }

  lemma {:induction false} RegrownKey(p: Value, n: Value, ks: seq<string>, r: nat, subs: seq<seq<RelOp>>, t: nat,
                                      ls: seq<string>, tubs: seq<seq<RelOp>>, k: string, x: Value)
    requires NoFunc(n) && BothObjects(p, n) && IsObjectDiff(p, n, ks, r, subs)
    requires t < |ks| == |subs| && Distinct(ks) && ls == ks[t + 1..] && tubs == subs[t + 1..]
    requires k !in ls || IsUnsafe(k) ==> x == Undef
    requires forall j | 0 <= j < |ls| && ls[j] == k && !IsUnsafe(k) ::
               x == ApplyRel(Undef, tubs[j], MAX_PATCH_PATH_SEGMENTS - 1)
    ensures Same(x, Get(n.fields, k)) <==>
            if HeadedBy(Flat(ls, tubs), k) then Made(p, n, k)
            else Same(Undef, Get(n.fields, k))
  {
    hide Wire, IsDiff, IsObjectDiff, ApplyRel, Flat, Made, HeadedBy, Distinct, IsUnsafe;
    if HeadedBy(Flat(ls, tubs), k) {
      HeadIsKey(ls, tubs, k);
      VisitedKeyLands(p, n, ks, r, subs, t, ls, tubs, k, x);
    } else if k in ls && !IsUnsafe(k) {
      var j :| 0 <= j < |ls| && ls[j] == k;
      SilentKey(ls, tubs, j);
      ApplyNothing(Undef, MAX_PATCH_PATH_SEGMENTS - 1);
    }
  }

  lemma {:induction false} HeadIsKey(ls: seq<string>, tubs: seq<seq<RelOp>>, k: string)
    requires |ls| == |tubs| && HeadedBy(Flat(ls, tubs), k)
    ensures k in ls
  {
    hide Flat;
    HeadsOfFlat(ls, tubs);
    var j :| 0 <= j < |Flat(ls, tubs)| && Flat(ls, tubs)[j].path != [] && Flat(ls, tubs)[j].path[0] == k;
    assert Flat(ls, tubs)[j] in Flat(ls, tubs);
  }

  lemma {:induction false} SilentKey(ls: seq<string>, tubs: seq<seq<RelOp>>, j: nat)
    requires j < |ls| == |tubs|
    ensures HeadedBy(Flat(ls, tubs), ls[j]) || tubs[j] == []
  {
    hide Flat;
    if tubs[j] != [] {
      var i := ToFlat(ls, tubs, j, 0);
      assert Flat(ls, tubs)[i].path[0] == ls[j];
    }
  }

  /** A key that is visited after the root was cleared ends up right exactly if it can
      be made from nothing. */
  lemma {:induction false} VisitedKeyLands(p: Value, n: Value, ks: seq<string>, r: nat, subs: seq<seq<RelOp>>,
                                           t: nat, ls: seq<string>, tubs: seq<seq<RelOp>>, k: string, x: Value)
    requires NoFunc(n) && BothObjects(p, n) && IsObjectDiff(p, n, ks, r, subs)
    requires t < |ks| == |subs| && Distinct(ks) && ls == ks[t + 1..] && tubs == subs[t + 1..]
    requires k in ls && (IsUnsafe(k) ==> x == Undef)
    requires forall j | 0 <= j < |ls| && ls[j] == k && !IsUnsafe(k) ::
               x == ApplyRel(Undef, tubs[j], MAX_PATCH_PATH_SEGMENTS - 1)
    ensures Same(x, Get(n.fields, k)) <==> Made(p, n, k)
  {
    hide Wire, IsDiff, IsObjectDiff, ApplyRel, KeyLands, Distinct, IsUnsafe;
    var j :| 0 <= j < |ls| && ls[j] == k;
    forall i | 0 <= i < |ks| && ks[i] == k && !IsUnsafe(k)
      ensures x == ApplyRel(Undef, subs[i], MAX_PATCH_PATH_SEGMENTS - 1)
    {
      SamePlace(ks, i, t + 1 + j);
      assert tubs[j] == subs[i];
    }
    assert k in ks;
    KeyLandsExactly(Undef, x, p, n, ks, r, subs, k, MAX_PATCH_PATH_SEGMENTS - 1);
  }

  // ---- as the strings say it ----

  predicate TakesEffect(op: Op) {
    op.Op? &&
    var segments := ParsePath(op.path);
    0 < |segments| <= MAX_PATCH_PATH_SEGMENTS && !IsUnsafe(segments[0])
  }

  predicate Concerns(op: Op, k: string) {
    op.Op? && ParsePath(op.path) != [] && ParsePath(op.path)[0] == k
  }

  predicate SomeTakesEffect(ops: seq<Op>) {
    exists j :: 0 <= j < |ops| && TakesEffect(ops[j])
  }

  predicate SomeConcerns(ops: seq<Op>, k: string) {
    exists j :: 0 <= j < |ops| && Concerns(ops[j], k)
  }

  /** After the root was cleared, the remaining operations make the next value: one of them
      takes effect, what they write can be made from nothing, and the rest is undefined. */
  ghost predicate Regrows(p: Value, n: Value, after: seq<Op>)
    requires BothObjects(p, n)
  {
    && SomeTakesEffect(after)
    && forall k :: if SomeConcerns(after, k)
                   then Made(p, n, k)
                   else Same(Undef, Get(n.fields, k))
  }

  predicate BelowRoot(rest: seq<RelOp>) {
    forall op | op in rest :: op.path != [] && op.path[0] != ""
  }

  lemma {:induction false} RegrowsParsed(p: Value, n: Value, rest: seq<RelOp>)
    requires BothObjects(p, n) && BelowRoot(rest)
    ensures Regrows(p, n, AtBase("", rest)) <==> Regrown(p, n, rest)
  {
    hide Made, Wire, SomeTakesEffect, SomeConcerns, HasRousing, HeadedBy, BelowRoot, AtBase;
    var after := AtBase("", rest);
    EffectParsed(rest);
    forall k ensures SomeConcerns(after, k) <==> HeadedBy(rest, k)
    {
      HeadParsed(rest, k);
    }
  }

  lemma {:induction false} EffectParsed(rest: seq<RelOp>)
    requires BelowRoot(rest)
    ensures var after := AtBase("", rest);
            SomeTakesEffect(after) <==> HasRousing(rest, MAX_PATCH_PATH_SEGMENTS)
  {
    hide TakesEffect, Concerns, IsRousing;
    var after := AtBase("", rest);
    forall j | 0 <= j < |rest| ensures TakesEffect(after[j]) <==> IsRousing(rest[j], MAX_PATCH_PATH_SEGMENTS)
    {
      assert rest[j] in rest;
      ParsedOp(rest[j]);
    }
    if HasRousing(rest, MAX_PATCH_PATH_SEGMENTS) {
      var j :| 0 <= j < |rest| && IsRousing(rest[j], MAX_PATCH_PATH_SEGMENTS);
      assert TakesEffect(after[j]);
    }
  }

  lemma {:induction false} HeadParsed(rest: seq<RelOp>, k: string)
    requires BelowRoot(rest)
    ensures var after := AtBase("", rest);
            SomeConcerns(after, k) <==> HeadedBy(rest, k)
  {
    hide TakesEffect, Concerns;
    var after := AtBase("", rest);
    forall j | 0 <= j < |rest| ensures Concerns(after[j], k) <==> rest[j].path != [] && rest[j].path[0] == k
    {
      assert rest[j] in rest;
      ParsedOp(rest[j]);
    }
    if HeadedBy(rest, k) {
      var j :| 0 <= j < |rest| && rest[j].path != [] && rest[j].path[0] == k;
      assert Concerns(after[j], k);
    }
  }

  lemma {:induction false} ParsedOp(op: RelOp)
    requires op.path != [] && op.path[0] != ""
    ensures var o := Op(PathAt("", op.path), op.edit);
            && (TakesEffect(o) <==> IsRousing(op, MAX_PATCH_PATH_SEGMENTS))
            && (forall k :: Concerns(o, k) <==> op.path[0] == k)
  {
    hide ParsePath, Render, IsUnsafe;
    ParseRender(op.path);
    assert "" + Render(op.path) == Render(op.path);
  }

  /** The operation on the root is the one with the path "/". */
  lemma {:induction false} RootOpIsAt(ks: seq<string>, subs: seq<seq<RelOp>>, t: nat, e: Edit, i: nat)
    requires t < |ks| == |subs| && Distinct(ks) && ks[t] == "" && subs[t] == [RelOp([], e)]
    requires var ops := AtBase("", Flat(ks, subs)); i < |ops| && ops[i].Op? && ops[i].path == "/"
    ensures var ops := AtBase("", Flat(ks, subs));
            && ops[i + 1..] == AtBase("", Flat(ks[t + 1..], subs[t + 1..]))
            && ops[i] == Op("/", e)
  {
    hide Distinct, Flat, Render, ParsePath, Under;
    var rel := Flat(ks, subs);
    var front, rest := Flat(ks[..t], subs[..t]), Flat(ks[t + 1..], subs[t + 1..]);
    SplitAtKey(ks, subs, t);
    UnderOne(e);
    assert rel == front + [RelOp([""], e)] + rest;
    HeadsOfFlat(ks[..t], subs[..t]);
    HeadsOfFlat(ks[t + 1..], subs[t + 1..]);
    RootPathIsEmptyKey(rel[i].path);
    OthersHaveOtherHeads(ks, t);
    OneOfThree(front, RelOp([""], e), rest, i);
    assert rel[i + 1..] == rest;
  }

  lemma {:induction false} OneOfThree(front: seq<RelOp>, op: RelOp, rest: seq<RelOp>, i: nat)
    requires i < |front| + 1 + |rest|
    ensures i == |front| || (front + [op] + rest)[i] in front || (front + [op] + rest)[i] in rest
  {
    if i > |front| {
      assert (front + [op] + rest)[i] == rest[i - |front| - 1];
    }
  }

  lemma {:induction false} UnderOne(e: Edit)
    ensures Under("", [RelOp([], e)]) == [RelOp([""], e)]
  {
    assert [""] + [] == [""];
  }

  lemma {:induction false} OthersHaveOtherHeads(ks: seq<string>, t: nat)
    requires Distinct(ks) && t < |ks|
    ensures ks[t] !in ks[..t] && ks[t] !in ks[t + 1..]
  {
    hide Distinct;
    DistinctSplit(ks, t);
    forall i | 0 <= i < t ensures ks[i] != ks[t]
    {
      SamePlace(ks, i, t);
    }
  }

  lemma {:induction false} RootPathIsEmptyKey(path: seq<string>)
    requires path != [] && PathAt("", path) == "/"
    ensures path == [""]
  {
    ParseRender(path);
    assert "" + Render(path) == Render(path);
  }

  /** There is one whenever the empty key is affected. */
  lemma {:induction false} RootOpIsThere(p: Value, n: Value, ops: seq<Op>) returns (i: nat)
    requires NoFunc(n) && IsDiffOf(p, n, ops) && !ClearRoot(p, n)
    ensures i < |ops| && ops[i].Op? && ops[i].path == "/"
  {
    hide IsDiff, ClearRoot, Flat, Distinct;
    var rel :| IsDiff(p, n, rel) && ops == AtBase("", rel);
    var ks, r, subs, t, e := RootPlace(p, n, rel);
    i := ToFlat(ks, subs, t, 0);
    assert [""] + [] == [""];
    assert Render([""]) == "/";
  }

  /** When the root's empty key is affected, a patch leads to the next value, from whatever
      value, exactly if that holds no defined value under the empty key and the operations
      after the one on the root make it out of nothing. */
  lemma {:induction false} EmptyKeyExactly(d: Value, p: Value, n: Value, ops: seq<Op>, i: nat)
    requires NoFunc(n) && IsDiffOf(p, n, ops) && !ClearRoot(p, n)
    requires i < |ops| && ops[i].Op? && ops[i].path == "/"
    ensures BothObjects(p, n)
    ensures Same(ApplyOps(d, ops), n) <==> Wire(Get(n.fields, "")) == Undef && Regrows(p, n, ops[i + 1..])
  {
    hide Wire, IsDiff, IsObjectDiff, Distinct, ApplyOps, ApplyRel, Flat, AtBase, Regrows, Regrown, ClearRoot;
    var rel :| IsDiff(p, n, rel) && ops == AtBase("", rel);
    var ks, r, subs, t, e := RootPlace(p, n, rel);
    if Wire(Get(n.fields, "")) != Undef {
      UndefinedOnWire(n);
      EmptyKeyNeverArrivesAnywhere(d, p, n, ops);
    } else {
      UndefinedOnWire(n);
      RootOpIsAt(ks, subs, t, e, i);
      RootIsForgotten(d, ks, subs, t, e);
      RegrownExactly(p, n, ks, r, subs, t);
      HeadsOfFlat(ks[t + 1..], subs[t + 1..]);
      DistinctSplit(ks, t);
      RegrowsParsed(p, n, Flat(ks[t + 1..], subs[t + 1..]));
    }
  }

  lemma {:induction false} UndefinedOnWire(n: Value)
    requires n.Obj? && NoFunc(n)
    ensures Wire(Get(n.fields, "")) == Undef <==> Get(n.fields, "") == Undef
  {
  }

  // ---- the key is removed ----

  predicate HasDefinedField(n: Value) {
    n.Obj? && exists k :: k in n.fields && Wire(n.fields[k]) != Undef
  }

  /** When the empty key is removed, a next value with a defined field is reached exactly if
      the diff makes it out of nothing; one without exactly if anything takes effect
      after the removal. */
  lemma {:induction false} EmptyKeyRemovedExactly(d: Value, p: Value, n: Value, ops: seq<Op>, i: nat)
    requires NoFunc(n) && IsDiffOf(p, n, ops) && !ClearRoot(p, n) && "" !in FieldsOf(n)
    requires i < |ops| && ops[i].Op? && ops[i].path == "/"
    ensures HasDefinedField(n) ==> (Same(ApplyOps(d, ops), n) <==> Lands(Undef, p, n, MAX_PATCH_PATH_SEGMENTS))
    ensures !HasDefinedField(n) ==> (Same(ApplyOps(d, ops), n) <==> SomeTakesEffect(ops[i + 1..]))
  {
    hide Wire, IsDiff, IsObjectDiff, Distinct, ApplyOps, ApplyRel, Flat, AtBase, Regrows, Regrown, ClearRoot,
         HasDefinedField, SomeTakesEffect, HasRousing, Lands;
    var rel :| IsDiff(p, n, rel) && ops == AtBase("", rel);
    var ks, r, subs, t, e := RootPlace(p, n, rel);
    EmptyKeyExactly(d, p, n, ops, i);
    RootOpIsAt(ks, subs, t, e, i);
    UndefinedOnWire(n);
    var rest := Flat(ks[t + 1..], subs[t + 1..]);
    HeadsOfFlat(ks[t + 1..], subs[t + 1..]);
    DistinctSplit(ks, t);
    RegrowsParsed(p, n, rest);
    EffectParsed(rest);
    RegrownAfterRemoval(p, n, ks, r, subs, t);
  }

  lemma {:induction false} RegrownAfterRemoval(p: Value, n: Value, ks: seq<string>, r: nat, subs: seq<seq<RelOp>>, t: nat)
    requires NoFunc(n) && BothObjects(p, n) && IsObjectDiff(p, n, ks, r, subs)
    requires t < r <= |ks| == |subs| && Distinct(ks)
    ensures var rest := Flat(ks[t + 1..], subs[t + 1..]);
            && (HasDefinedField(n) ==> (Regrown(p, n, rest) <==> Lands(Undef, p, n, MAX_PATCH_PATH_SEGMENTS)))
            && (!HasDefinedField(n) ==> (Regrown(p, n, rest) <==> HasRousing(rest, MAX_PATCH_PATH_SEGMENTS)))
  {
    hide Wire, IsDiff, IsObjectDiff, Flat, Made, HasRousing, HeadedBy, Distinct, HasDefinedField, Rouses, Lands;
    LandsFromNothing(p, n);
    var rest := Flat(ks[t + 1..], subs[t + 1..]);
    forall k ensures Made(p, n, k) <==>
                     if HeadedBy(rest, k) then Made(p, n, k)
                     else Same(Undef, Get(n.fields, k))
    {
      UnheadedKey(p, n, ks, r, subs, t, k);
    }
    if HasDefinedField(n) {
      RestRouses(p, n, ks, r, subs, t);
      if forall k :: Made(p, n, k) {
        DefinedFieldRouses(p, n, ks, r, subs, t);
      }
    } else {
      forall k ensures Made(p, n, k)
      {
        UndefinedKeyLands(p, n, k);
      }
    }
  }

  lemma {:induction false} LandsFromNothing(p: Value, n: Value)
    requires BothObjects(p, n)
    ensures Lands(Undef, p, n, MAX_PATCH_PATH_SEGMENTS) <==>
            Rouses(p, n, MAX_PATCH_PATH_SEGMENTS) && forall k :: Made(p, n, k)
  {
    hide KeyLands, Rouses;
    forall k ensures Made(p, n, k) <==> KeyLands(Get(FieldsOf(Undef), k), p, n, k, MAX_PATCH_PATH_SEGMENTS - 1) {}
  }

  /** A key that no later operation concerns stays undefined, and lands if it should. */
  lemma {:induction false} UnheadedKey(p: Value, n: Value, ks: seq<string>, r: nat, subs: seq<seq<RelOp>>, t: nat,
                                       k: string)
    requires NoFunc(n) && BothObjects(p, n) && IsObjectDiff(p, n, ks, r, subs)
    requires t < r <= |ks| == |subs| && Distinct(ks)
    ensures !HeadedBy(Flat(ks[t + 1..], subs[t + 1..]), k) ==>
              (Made(p, n, k) <==> Same(Undef, Get(n.fields, k)))
  {
    hide Wire, IsDiff, Flat, Lands, HeadedBy, Distinct, IsUnsafe, IsInherited;
    var ls, tubs := ks[t + 1..], subs[t + 1..];
    if !HeadedBy(Flat(ls, tubs), k) && k in n.fields {
      assert k in ks[r..];
      VisitedLate(ks, r, t, k);
      forall j | 0 <= j < |ls| && ls[j] == k
        ensures Undef == ApplyRel(Undef, tubs[j], MAX_PATCH_PATH_SEGMENTS - 1)
      {
        SilentKey(ls, tubs, j);
        ApplyNothing(Undef, MAX_PATCH_PATH_SEGMENTS - 1);
      }
      VisitedKeyLands(p, n, ks, r, subs, t, ls, tubs, k, Undef);
    }
  }

  lemma {:induction false} VisitedLate(ks: seq<string>, r: nat, t: nat, k: string)
    requires t < r <= |ks| && k in ks[r..]
    ensures k in ks[t + 1..]
  {
    var i :| 0 <= i < |ks[r..]| && ks[r..][i] == k;
    assert ks[t + 1..][i + r - t - 1] == k;
  }

  /** What takes effect after the removal takes effect. */
  lemma {:induction false} RestRouses(p: Value, n: Value, ks: seq<string>, r: nat, subs: seq<seq<RelOp>>, t: nat)
    requires BothObjects(p, n) && IsObjectDiff(p, n, ks, r, subs) && t < |ks| == |subs|
    ensures HasRousing(Flat(ks[t + 1..], subs[t + 1..]), MAX_PATCH_PATH_SEGMENTS) ==>
              Rouses(p, n, MAX_PATCH_PATH_SEGMENTS)
  {
    hide IsDiff, IsObjectDiff, Flat, Rouses, IsRousing, Under;
    ObjectSpeaks(p, n, ks, r, subs, MAX_PATCH_PATH_SEGMENTS);
    SplitAtKey(ks, subs, t);
    var rest, all := Flat(ks[t + 1..], subs[t + 1..]), Flat(ks, subs);
    if HasRousing(rest, MAX_PATCH_PATH_SEGMENTS) {
      var j :| 0 <= j < |rest| && IsRousing(rest[j], MAX_PATCH_PATH_SEGMENTS);
      assert all[|all| - |rest| + j] == rest[j];
    }
  }

  /** A defined field cannot come out of nothing without an operation that takes effect. */
  lemma {:induction false} DefinedFieldRouses(p: Value, n: Value, ks: seq<string>, r: nat, subs: seq<seq<RelOp>>, t: nat)
    requires NoFunc(n) && BothObjects(p, n) && IsObjectDiff(p, n, ks, r, subs) && HasDefinedField(n)
    requires t < r <= |ks| == |subs| && Distinct(ks)
    requires forall k :: Made(p, n, k)
    ensures HasRousing(Flat(ks[t + 1..], subs[t + 1..]), MAX_PATCH_PATH_SEGMENTS)
  {
    hide Wire, IsDiff, IsObjectDiff, ApplyRel, Flat, Made, Distinct, HasRousing;
    var k :| k in n.fields && Wire(n.fields[k]) != Undef;
    RousedField(p, n, ks, r, subs, t, k);
  }

  lemma {:induction false} RousedField(p: Value, n: Value, ks: seq<string>, r: nat, subs: seq<seq<RelOp>>, t: nat,
                                       k: string)
    requires NoFunc(n) && BothObjects(p, n) && IsObjectDiff(p, n, ks, r, subs)
    requires t < r <= |ks| == |subs| && Distinct(ks)
    requires k in n.fields && Wire(n.fields[k]) != Undef && Made(p, n, k)
    ensures HasRousing(Flat(ks[t + 1..], subs[t + 1..]), MAX_PATCH_PATH_SEGMENTS)
  {
    hide IsDiff, ApplyRel, Flat, Lands, Distinct, HasRousing, IsUnsafe, IsInherited, HeadedBy;
    var ls, tubs, rest := ks[t + 1..], subs[t + 1..], Flat(ks[t + 1..], subs[t + 1..]);
    HeadsOfFlat(ls, tubs);
    FromNothing(Undef, rest, MAX_PATCH_PATH_SEGMENTS);
    DistinctTail(ks, t + 1);
    ApplyFlatKeys(map[], ls, tubs, MAX_PATCH_PATH_SEGMENTS);
    var x := Get(ApplyRel(Obj(map[]), rest, MAX_PATCH_PATH_SEGMENTS).fields, k);
    assert k in ks[r..];
    VisitedLate(ks, r, t, k);
    VisitedKeyLands(p, n, ks, r, subs, t, ls, tubs, k, x);
  }

  lemma {:induction false} UndefinedKeyLands(p: Value, n: Value, k: string)
    requires BothObjects(p, n) && NoFunc(n) && !HasDefinedField(n)
    ensures Made(p, n, k)
  {
    if k in n.fields {
      assert Wire(n.fields[k]) == Undef;
    }
  }

  /** In particular the empty key cannot be removed next to a defined field that stays the
      same: the removal clears the root, and nothing brings that field back. */
  lemma {:induction false} EmptyKeyNeverLeaves(p: Value, n: Value, ops: seq<Op>, k: string)
    requires BothObjects(p, n) && IsDiffOf(p, n, ops) && "" in p.fields && "" !in n.fields
    requires k in p.fields && k in n.fields && p.fields[k] == n.fields[k] && Wire(n.fields[k]) != Undef
    ensures !Same(ApplyOps(p, ops), n)
  {
    hide Wire, Distinct, Flat, AtBase, ApplyOps, ApplyRel, IsDiff, IsObjectDiff, HasRousing, IsUnsafe;
    var rel :| IsDiff(p, n, rel) && ops == AtBase("", rel);
    var ks, r, subs := ObjectDiffParts(p, n, rel);
    var t := RemovedAt(p, n, ks, r, subs);
    var ls, tubs := ks[t + 1..], subs[t + 1..];
    SilentWhereSame(p, n, ks, r, subs, k);
    RootIsForgotten(p, ks, subs, t, Remove);
    HeadsOfFlat(ls, tubs);
    FromNothing(Undef, Flat(ls, tubs), MAX_PATCH_PATH_SEGMENTS);
    DistinctTail(ks, t + 1);
    ApplyFlatKeys(map[], ls, tubs, MAX_PATCH_PATH_SEGMENTS);
    assert forall j | 0 <= j < |ls| && ls[j] == k :: tubs[j] == [];
    ApplyNothing(Undef, MAX_PATCH_PATH_SEGMENTS - 1);
    MissesField(ApplyRel(Undef, Flat(ls, tubs), MAX_PATCH_PATH_SEGMENTS), n, k);
  }

  lemma {:induction false} SilentWhereSame(p: Value, n: Value, ks: seq<string>, r: nat, subs: seq<seq<RelOp>>, k: string)
    requires BothObjects(p, n) && IsObjectDiff(p, n, ks, r, subs)
    requires k in p.fields && k in n.fields && p.fields[k] == n.fields[k]
    ensures |ks| == |subs| && forall j | 0 <= j < |ks| && ks[j] == k :: subs[j] == []
  {
    hide IsInherited, Distinct;
    forall j | 0 <= j < |ks| && ks[j] == k ensures subs[j] == []
    {
      assert IsEntryDiff(p, n, k, subs[j]);
      NothingToSay(n.fields[k], subs[j]);
    }
  }

  lemma {:induction false} MissesField(w: Value, n: Value, k: string)
    requires n.Obj? && k in n.fields && Wire(n.fields[k]) != Undef
    requires w == Undef || (w.Obj? && Get(w.fields, k) == Undef)
    ensures !Same(w, n)
  {
    if w.Obj? {
      SameObj(w.fields, n.fields);
      assert !Same(Get(w.fields, k), Get(n.fields, k));
    }
  }
}
