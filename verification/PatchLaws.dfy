/** What a single operation does, beyond the diffs that the SDK makes: to arrays, and with
    indices and keys in any spelling. */
module PatchLaws {
  import opened Values
  import opened Pointer
  import opened Patch

  // ---- keys ----

  function EscapedChar(c: char): string {
    if c == '~' then "~0" else if c == '/' then "~1" else [c]
  }

  function EscapedEach(key: string): string {
    if key == "" then "" else EscapedChar(key[0]) + EscapedEach(key[1..])
  }

  /** The two replacements, one after the other, come to one escape for each character. */
  lemma {:induction false} EscapeIsPerChar(key: string)
    ensures Escape(key) == EscapedEach(key)
  {
    if key != "" {
      var c, rest := key[0], ReplaceChar(key[1..], '~', "~0");
      EscapeIsPerChar(key[1..]);
      var first := if c == '~' then "~0" else [c];
      assert ReplaceChar(key, '~', "~0") == first + rest;
      ReplaceConcat(first, rest, '/', "~1");
      if c == '~' {
        assert ReplaceChar("~0", '/', "~1") == "~0" by {
          ReplaceAbsent("~0", '/', "~1");
        }
      } else {
        assert [c][1..] == "";
        assert ReplaceChar("", '/', "~1") == "";
      }
    }
  }

  lemma {:induction false} ReplaceConcat(a: string, b: string, c: char, t: string)
    ensures ReplaceChar(a + b, c, t) == ReplaceChar(a, c, t) + ReplaceChar(b, c, t)
  {
    if a == "" {
      assert a + b == b;
    } else {
      assert (a + b)[1..] == a[1..] + b;
      ReplaceConcat(a[1..], b, c, t);
      var first := if a[0] == c then t else [a[0]];
      assert first + (ReplaceChar(a[1..], c, t) + ReplaceChar(b, c, t))
          == first + ReplaceChar(a[1..], c, t) + ReplaceChar(b, c, t);
    }
  }

  // ---- indices ----

  predicate Blank(s: string) {
    forall i | 0 <= i < |s| :: IsBlank(s[i])
  }

  predicate Solid(s: string) {
    s != "" && !IsBlank(s[0]) && !IsBlank(s[|s| - 1])
  }

  lemma {:induction false} TrimSolid(a: string, s: string, b: string)
    requires Blank(a) && Blank(b) && Solid(s)
    ensures Trim(a + s + b) == s
    decreases |a| + |b|
  {
    var all := a + s + b;
    if a != "" {
      assert all[0] == a[0] && all[1..] == a[1..] + s + b;
      TrimSolid(a[1..], s, b);
    } else if b != "" {
      var last := |b| - 1;
      assert all[0] == s[0] && all[|all| - 1] == b[last] && all[..|all| - 1] == a + s + b[..last];
      TrimSolid(a, s, b[..last]);
    } else {
      assert all == s;
    }
  }

  lemma {:induction false} TrimBlank(s: string)
    requires Blank(s)
    ensures Trim(s) == ""
  {
    if s != "" {
      TrimBlank(s[1..]);
    }
  }

  /** An index may be signed and set in blanks, and no text at all is zero. */
  lemma {:induction false} IndexSpellings(a: string, n: nat, b: string)
    requires Blank(a) && Blank(b)
    ensures ToInteger(a + Decimal(n) + b) == Some(n)
    ensures ToInteger(a + ("+" + Decimal(n)) + b) == Some(n)
    ensures var minus := ToInteger(a + ("-" + Decimal(n)) + b); minus.Some? && minus.value + n == 0
    ensures ToInteger(a) == Some(0)
  {
    hide Trim;
    DecimalDigits(n);
    var d := Decimal(n);
    TrimSolid(a, d, b);
    TrimSolid(a, "+" + d, b);
    TrimSolid(a, "-" + d, b);
    TrimBlank(a);
    assert ("+" + d)[1..] == d && ("-" + d)[1..] == d;
  }

  // ---- one item of an array ----

  /** An operation on an array changes one item, takes one out and closes the gap, or adds one
      at the end; with an index that is none, or beyond the end, it does nothing. */
  lemma {:induction false} ArrayOpExactly(items: seq<Value>, head: string, edit: Edit)
    ensures var index := ToInteger(head);
            var after := SetAt(Arr(items), [head], edit);
            && after.Arr?
            && (index == None || index.value < 0 || index.value > |items| ==> after.items == items)
            && (index.Some? && 0 <= index.value < |items| ==>
                  if edit.Remove? then
                    && |after.items| == |items| - 1
                    && forall j | 0 <= j < |items| - 1 ::
                         after.items[j] == if j < index.value then items[j] else items[j + 1]
                  else
                    && |after.items| == |items|
                    && forall j | 0 <= j < |items| ::
                         after.items[j] == if j == index.value then edit.value else items[j])
            && (index == Some(|items|) ==>
                  after.items == if edit.Remove? then items else items + [edit.value])
  {
    assert [head][1..] == [];
  }

  /** Deeper down it changes nothing but the item that the index names, and nothing at all if
      there is no such item. */
  lemma {:induction false} ArrayDescends(items: seq<Value>, head: string, rest: seq<string>, edit: Edit)
    requires rest != []
    ensures var index := ToInteger(head);
            var after := SetAt(Arr(items), [head] + rest, edit);
            && after.Arr? && |after.items| == |items|
            && forall j | 0 <= j < |items| ::
                 after.items[j] == if index == Some(j) then SetAt(items[j], rest, edit) else items[j]
  {
    assert ([head] + rest)[1..] == rest;
  }

  lemma {:induction false} RefusedKeys(key: string)
    ensures IsUnsafe(key) <==> key in ["__proto__", "constructor", "prototype"]
  {
    var names := ["__proto__", "constructor", "prototype"];
    assert names[1..] == ["constructor", "prototype"] && names[1..][1..] == ["prototype"];
    assert Listed(key, names[1..][1..]) <==> key == "prototype";
    assert Listed(key, names[1..]) <==> key == "constructor" || Listed(key, names[1..][1..]);
  }

  /** On anything else, a refused key does nothing; another sets or removes that one field of
      an object, or of an empty one where there is none. */
  lemma {:induction false} FieldOpExactly(v: Value, key: string, edit: Edit, k: string)
    requires !v.Arr?
    ensures var after := SetAt(v, [key], edit);
            if key in ["__proto__", "constructor", "prototype"] then after == v
            else
              && after.Obj?
              && (k in after.fields <==> if k == key then !edit.Remove? else k in FieldsOf(v))
              && (k in after.fields ==> after.fields[k] == if k == key then edit.value else FieldsOf(v)[k])
  {
    assert [key][1..] == [];
    RefusedKeys(key);
  }
}
