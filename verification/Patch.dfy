/** `applyPatch` of the protocol package: JSON Patch operations (add, replace and
    remove of RFC 6902) addressed by pointer strings. */
module Patch {
  import opened Values
  import opened Pointer

  const MAX_PATCH_PATH_SEGMENTS := 64

  predicate Listed(key: string, names: seq<string>) {
    names != [] && (key == names[0] || Listed(key, names[1..]))
  }

  /** Keys that assignment by name must never reach. */
  predicate IsUnsafe(key: string) {
    Listed(key, ["__proto__", "constructor", "prototype"])
  }

  datatype Edit = Add(value: Value) | Replace(value: Value) | Remove

  /** `Malformed`: an element that is no object or has no string path. */
  datatype Op = Op(path: string, edit: Edit) | Malformed

  /** A `diff` field as it comes off the wire. */
  datatype Diff = NotAnArray | Ops(ops: seq<Op>)

  /** `setAtPath` on an array node. */
  function SetInArray(items: seq<Value>, head: string, rest: seq<string>, edit: Edit): Value
    decreases rest, 1
  {
    var number := ToInteger(head);
    if number.None? || number.value < 0 || number.value > |items| then Arr(items)
    else
      var index := number.value;
      if rest == [] then
        if edit.Remove? then
          Arr(if index < |items| then items[..index] + items[index + 1..] else items)
        else
          Arr(if index < |items| then items[index := edit.value] else items + [edit.value])
      else if index >= |items| then Arr(items)
      else Arr(items[index := SetAt(items[index], rest, edit)])
  }

  /** `setAtPath`: what is not an object counts as an empty one. */
  function SetAt(node: Value, segments: seq<string>, edit: Edit): Value
    decreases segments, 0
  {
    if segments == [] then
      if edit.Remove? then Undef else edit.value
    else
      var head, rest := segments[0], segments[1..];
      if node.Arr? then SetInArray(node.items, head, rest, edit)
      else if IsUnsafe(head) then node
      else
        var fields := if node.Obj? then node.fields else map[];
        if rest == [] then
          Obj(if edit.Remove? then fields - {head} else fields[head := edit.value])
        else
          Obj(fields[head := SetAt(Get(fields, head), rest, edit)])
  }

  function ApplyOp(root: Value, op: Op): Value {
    if op.Malformed? then root
    else
      var segments := ParsePath(op.path);
      if |segments| > MAX_PATCH_PATH_SEGMENTS then root
      else SetAt(root, segments, op.edit)
  }

  function ApplyOps(value: Value, ops: seq<Op>): Value {
    if ops == [] then value
    else ApplyOp(ApplyOps(value, ops[..|ops| - 1]), ops[|ops| - 1])
  }

  function Patched(value: Value, diff: Diff): Value {
    if diff.NotAnArray? then value else ApplyOps(value, diff.ops)
  }

  /** `applyPatch`: fails safe on a diff that is no array. */
  method ApplyPatch(value: Value, diff: Diff) returns (result: Value)
    ensures result == Patched(value, diff)
  {
    if diff.NotAnArray? {
      return value;
    }
    result := value;
    for i := 0 to |diff.ops|
      invariant result == ApplyOps(value, diff.ops[..i])
    {
      assert diff.ops[..i + 1][..i] == diff.ops[..i];
      result := ApplyOp(result, diff.ops[i]);
    }
    assert diff.ops[..|diff.ops|] == diff.ops;
  }

  lemma {:induction false} ApplyOpsConcat(value: Value, a: seq<Op>, b: seq<Op>)
    ensures ApplyOps(value, a + b) == ApplyOps(ApplyOps(value, a), b)
  {
    if b == [] {
      assert a + b == a;
    } else {
      assert (a + b)[..|a + b| - 1] == a + b[..|b| - 1];
      ApplyOpsConcat(value, a, b[..|b| - 1]);
    }
  }

  lemma {:induction false} ApplyOne(value: Value, op: Op)
    ensures ApplyOps(value, [op]) == ApplyOp(value, op)
  {
    assert [op][..0] == [];
    assert ApplyOps(value, [op]) == ApplyOp(ApplyOps(value, []), op);
  }
}
