/** JavaScript values as the protocol handles them, and what is left of one after
    a trip over the wire. */
module Values {

  /** `Func` stands for a function: `diffValues` meets one when it reads a name
      that an object inherits, and `JSON.stringify` drops one just as it drops
      `undefined`. A `Num` is known by its identity only. */
  datatype Value =
    | Undef
    | Null
    | Bool(b: bool)
    | Num(n: int)
    | Str(s: string)
    | Func(name: string)
    | Arr(items: seq<Value>)
    | Obj(fields: map<string, Value>)

  /** `copy[key]`: a missing key reads as undefined. */
  function Get(m: map<string, Value>, k: string): Value {
    if k in m then m[k] else Undef
  }

  /** What is not an object counts as an empty one. */
  function FieldsOf(v: Value): map<string, Value> {
    if v.Obj? then v.fields else map[]
  }

  /** The value a receiver decodes for a property that held `v`: undefined and
      functions vanish from objects and become null in arrays. */
  function Wire(v: Value): Value
    decreases v, 0
  {
    match v
    case Func(_) => Undef
    case Arr(s) => Arr(seq(|s|, i requires 0 <= i < |s| => WireItem(s[i])))
    case Obj(m) => Obj(map k | k in m && Wire(m[k]) != Undef :: Wire(m[k]))
    case _ => v
  }

  function WireItem(v: Value): Value
    decreases v, 1
  {
    if Wire(v) == Undef then Null else Wire(v)
  }

  /** Two values a JSON encoder cannot tell apart. */
  predicate Same(a: Value, b: Value) {
    Wire(a) == Wire(b)
  }

  predicate NoFunc(v: Value) {
    match v
    case Func(_) => false
    case Arr(s) => forall i | 0 <= i < |s| :: NoFunc(s[i])
    case Obj(m) => forall k | k in m :: NoFunc(m[k])
    case _ => true
  }

  /** JSON proper: neither undefined nor a function anywhere. */
  predicate IsJson(v: Value) {
    match v
    case Undef => false
    case Func(_) => false
    case Arr(s) => forall i | 0 <= i < |s| :: IsJson(s[i])
    case Obj(m) => forall k | k in m :: IsJson(m[k])
    case _ => true
  }

  /** Container levels: a primitive needs none, `{}` needs one. */
  predicate DepthAtMost(v: Value, d: int) {
    match v
    case Arr(s) => d > 0 && forall i | 0 <= i < |s| :: DepthAtMost(s[i], d - 1)
    case Obj(m) => d > 0 && forall k | k in m :: DepthAtMost(m[k], d - 1)
    case _ => true
  }

  lemma {:induction false} SameObj(m: map<string, Value>, w: map<string, Value>)
    ensures Same(Obj(m), Obj(w)) <==> forall k :: Same(Get(m, k), Get(w, k))
  {
    var a, b := Wire(Obj(m)).fields, Wire(Obj(w)).fields;
    if forall k :: Same(Get(m, k), Get(w, k)) {
      forall k ensures k in a <==> k in b
      {
        assert Same(Get(m, k), Get(w, k));
      }
      forall k | k in a ensures a[k] == b[k]
      {
        assert Same(Get(m, k), Get(w, k));
      }
      assert a == b;
    }
    if a == b {
      forall k ensures Same(Get(m, k), Get(w, k))
      {
        assert k in a <==> k in b;
      }
    }
  }

  lemma {:induction false} SameArr(s: seq<Value>, t: seq<Value>)
    ensures Same(Arr(s), Arr(t)) <==>
            |s| == |t| && forall i | 0 <= i < |s| :: WireItem(s[i]) == WireItem(t[i])
  {
    var a, b := Wire(Arr(s)).items, Wire(Arr(t)).items;
    if a == b {
      forall i | 0 <= i < |s| ensures WireItem(s[i]) == WireItem(t[i])
      {
        assert a[i] == b[i];
      }
    }
  }

  /** On JSON proper the wire changes nothing, so `Same` is equality. */
  lemma {:induction false} WireKeepsJson(v: Value)
    requires IsJson(v)
    ensures Wire(v) == v
  {
    match v
    case Arr(s) =>
      forall i | 0 <= i < |s| ensures WireItem(s[i]) == s[i]
      {
        WireKeepsJson(s[i]);
      }
      assert Wire(v).items == s;
    case Obj(m) =>
      forall k | k in m ensures Wire(m[k]) == m[k]
      {
        WireKeepsJson(m[k]);
      }
      assert Wire(v).fields == m;
    case _ =>
  }

  /** What was sent once can be sent again: the wire is idempotent. */
  lemma {:induction false} WireTwice(v: Value)
    ensures Wire(Wire(v)) == Wire(v)
  {
    match v
    case Arr(s) =>
      forall i | 0 <= i < |s| ensures WireItem(WireItem(s[i])) == WireItem(s[i])
      {
        WireTwice(s[i]);
      }
      assert Wire(Wire(v)).items == Wire(v).items;
    case Obj(m) =>
      forall k | k in m ensures Wire(Wire(m[k])) == Wire(m[k])
      {
        WireTwice(m[k]);
      }
      assert Wire(Wire(v)).fields == Wire(v).fields;
    case _ =>
  }
}
