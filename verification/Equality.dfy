/** `deepEqual`: how the desktop compares what it wrote with what the app reports. */
module Equality {
  import opened Values

  /** Reference equality at the top agrees with this, as `Reflexive` shows. */
  predicate DeepEqual(a: Value, b: Value) {
    match a
    case Arr(s) => b.Arr? && |s| == |b.items| && forall i | 0 <= i < |s| :: DeepEqual(s[i], b.items[i])
    case Obj(m) =>
      b.Obj? && |m.Keys| == |b.fields.Keys| && forall k | k in m :: DeepEqual(m[k], Get(b.fields, k))
    case _ => a == b
  }

  /** No object in the value holds undefined; an array may. */
  predicate NoUndefFields(v: Value) {
    match v
    case Arr(s) => forall i | 0 <= i < |s| :: NoUndefFields(s[i])
    case Obj(m) => forall k | k in m :: m[k] != Undef && NoUndefFields(m[k])
    case _ => true
  }

  lemma {:induction false} Reflexive(a: Value)
    ensures DeepEqual(a, a)
  {
    match a
    case Arr(s) =>
      forall i | 0 <= i < |s| ensures DeepEqual(s[i], s[i])
      {
        Reflexive(s[i]);
      }
    case Obj(m) =>
      forall k | k in m ensures DeepEqual(m[k], Get(m, k))
      {
        Reflexive(m[k]);
      }
    case _ =>
  }

  lemma {:induction false} DeepEqualIsEqual(a: Value, b: Value)
    requires NoUndefFields(a) && DeepEqual(a, b)
    ensures a == b
  {
    match a
    case Arr(s) =>
      forall i | 0 <= i < |s| ensures s[i] == b.items[i]
      {
        DeepEqualIsEqual(s[i], b.items[i]);
      }
    case Obj(m) =>
      forall k | k in m ensures k in b.fields && m[k] == b.fields[k]
      {
        DeepEqualIsEqual(m[k], Get(b.fields, k));
      }
      SubsetOfSameSize(m.Keys, b.fields.Keys);
      assert m == b.fields;
    case _ =>
  }

  lemma {:induction false} SubsetOfSameSize(s: set<string>, t: set<string>)
    requires s <= t && |s| == |t|
    ensures s == t
  {
    var rest := t - s;
    assert t == s + rest && |t| == |s| + |rest|;
  }

  // ---- when it does not decide equality ----

  lemma {:induction false} SomeBound(keys: set<string>) returns (n: nat)
    ensures forall k | k in keys :: |k| <= n
    decreases |keys|
  {
    n := 0;
    if keys != {} {
      var k :| k in keys;
      var m := SomeBound(keys - {k});
      n := if |k| > m then |k| else m;
    }
  }

  lemma {:induction false} FreshKey(keys: set<string>) returns (k: string)
    ensures k !in keys
  {
    var n := SomeBound(keys);
    k := seq(n + 1, _ => 'x');
  }

  /** A value with an undefined field has a double that `deepEqual` cannot tell from it. */
  lemma {:induction false} Double(a: Value) returns (b: Value)
    requires !NoUndefFields(a)
    ensures DeepEqual(a, b) && a != b
  {
    match a
    case Arr(s) =>
      var i :| 0 <= i < |s| && !NoUndefFields(s[i]);
      var item := Double(s[i]);
      b := Arr(s[i := item]);
      forall j | 0 <= j < |s| ensures DeepEqual(s[j], b.items[j])
      {
        Reflexive(s[j]);
      }
      assert a.items[i] != b.items[i];
    case Obj(m) =>
      var k :| k in m && (m[k] == Undef || !NoUndefFields(m[k]));
      if m[k] == Undef {
        b := Renamed(m, k);
      } else {
        var field := Double(m[k]);
        b := Obj(m[k := field]);
        assert b.fields.Keys == m.Keys && b.fields[k] != m[k];
        forall j | j in m ensures DeepEqual(m[j], Get(b.fields, j))
        {
          Reflexive(m[j]);
        }
      }
    case _ =>
  }

  lemma {:induction false} Renamed(m: map<string, Value>, k: string) returns (b: Value)
    requires k in m && m[k] == Undef
    ensures DeepEqual(Obj(m), b) && Obj(m) != b
  {
    var fresh_ := FreshKey(m.Keys);
    var w := (m - {k})[fresh_ := Null];
    assert w.Keys == m.Keys - {k} + {fresh_};
    assert fresh_ in w;
    forall j | j in m ensures DeepEqual(m[j], Get(w, j))
    {
      Reflexive(m[j]);
    }
    b := Obj(w);
  }

  /** `deepEqual` decides equality with `a` exactly if no object in `a` holds undefined. */
  lemma {:induction false} DecidesEqualityExactly(a: Value)
    ensures (forall b :: DeepEqual(a, b) <==> a == b) <==> NoUndefFields(a)
  {
    if NoUndefFields(a) {
      forall b ensures DeepEqual(a, b) <==> a == b
      {
        if DeepEqual(a, b) {
          DeepEqualIsEqual(a, b);
        } else if a == b {
          Reflexive(a);
        }
      }
    } else {
      var b := Double(a);
      assert !(DeepEqual(a, b) <==> a == b);
    }
  }

  /** The smallest such confusion. */
  lemma {:induction false} UndefinedIsConfused()
    ensures DeepEqual(Obj(map["a" := Undef]), Obj(map["b" := Num(1)]))
  {
    assert map["a" := Undef].Keys == {"a"} && map["b" := Num(1)].Keys == {"b"};
  }

  /** What came off the wire holds no undefined, so against it nothing is confused. */
  lemma {:induction false} JsonHasNoUndefFields(a: Value)
    requires IsJson(a)
    ensures NoUndefFields(a)
  {
    match a
    case Arr(s) =>
      forall i | 0 <= i < |s| ensures NoUndefFields(s[i])
      {
        JsonHasNoUndefFields(s[i]);
      }
    case Obj(m) =>
      forall k | k in m ensures NoUndefFields(m[k])
      {
        JsonHasNoUndefFields(m[k]);
      }
    case _ =>
  }
}
