/** JSON Pointer strings (RFC 6901, sections 3 and 4): the escaping of `diff.ts`
    and `jsonPointer.ts`, and the reader in `applyOp`. */
module Pointer {

  datatype Option<T> = None | Some(value: T)

  // ---- key.replace(/c/g, t) and segment.replace(/ab/g, c) ----

  function ReplaceChar(s: string, c: char, t: string): string {
    if s == "" then ""
    else (if s[0] == c then t else [s[0]]) + ReplaceChar(s[1..], c, t)
  }

  function ReplacePair(s: string, a: char, b: char, c: char): string {
    if s == "" then ""
    else if |s| > 1 && s[0] == a && s[1] == b then [c] + ReplacePair(s[2..], a, b, c)
    else [s[0]] + ReplacePair(s[1..], a, b, c)
  }

  function Escape(key: string): string {
    ReplaceChar(ReplaceChar(key, '~', "~0"), '/', "~1")
  }

  function Unescape(segment: string): string {
    ReplacePair(ReplacePair(segment, '~', '1', '/'), '~', '0', '~')
  }

  lemma {:induction false} UnescapeSlashes(key: string)
    ensures ReplacePair(Escape(key), '~', '1', '/') == ReplaceChar(key, '~', "~0")
  {
    if key != "" {
      UnescapeSlashes(key[1..]);
      var rest := ReplaceChar(key[1..], '~', "~0");
      if key[0] == '~' {
        assert ReplaceChar(key, '~', "~0") == "~0" + rest;
        assert ("~0" + rest)[1..] == "0" + rest && ("0" + rest)[1..] == rest;
        var e := ReplaceChar(rest, '/', "~1");
        assert ReplaceChar("0" + rest, '/', "~1") == "0" + e;
        assert Escape(key) == "~" + ("0" + e);
        assert ("~" + ("0" + e))[1..] == "0" + e && ("0" + e)[1..] == e;
      } else {
        assert ReplaceChar(key, '~', "~0") == [key[0]] + rest;
        assert ([key[0]] + rest)[1..] == rest;
        var e := ReplaceChar(rest, '/', "~1");
        if key[0] == '/' {
          assert Escape(key) == "~1" + e;
          assert ("~1" + e)[2..] == e;
        } else {
          assert Escape(key) == [key[0]] + e;
          assert ([key[0]] + e)[1..] == e;
        }
      }
    }
  }

  lemma {:induction false} UnescapeTildes(key: string)
    ensures ReplacePair(ReplaceChar(key, '~', "~0"), '~', '0', '~') == key
  {
    if key != "" {
      UnescapeTildes(key[1..]);
      var rest := ReplaceChar(key[1..], '~', "~0");
      if key[0] == '~' {
        assert ("~0" + rest)[2..] == rest;
      } else {
        assert ([key[0]] + rest)[1..] == rest;
      }
    }
  }

  /** Every key survives the escaping, `~` and `/` included. */
  lemma {:induction false} UnescapeEscape(key: string)
    ensures Unescape(Escape(key)) == key
  {
    UnescapeSlashes(key);
    UnescapeTildes(key);
  }

  lemma {:induction false} ReplacedCharIsGone(s: string, c: char, t: string)
    requires c !in t
    ensures c !in ReplaceChar(s, c, t)
  {
    if s != "" {
      ReplacedCharIsGone(s[1..], c, t);
    }
  }

  // ---- path.split("/").slice(1).map(unescapePointer) ----

  function Split(s: string): (parts: seq<string>)
    ensures |parts| > 0
  {
    if s == "" then [""]
    else if s[0] == '/' then [""] + Split(s[1..])
    else
      var rest := Split(s[1..]);
      [[s[0]] + rest[0]] + rest[1..]
  }

  function UnescapeAll(parts: seq<string>): (r: seq<string>)
    ensures |r| == |parts|
  {
    if parts == [] then [] else [Unescape(parts[0])] + UnescapeAll(parts[1..])
  }

  /** `applyOp`: both "" and "/" address the root. */
  function ParsePath(path: string): seq<string> {
    if path == "/" || path == "" then [] else UnescapeAll(Split(path)[1..])
  }

  /** The string that `diffObjects` and `toJsonPointer` build one segment at a time. */
  function Render(segments: seq<string>): string {
    if segments == [] then "" else "/" + Escape(segments[0]) + Render(segments[1..])
  }

  lemma {:induction false} SplitAfterSegment(e: string, r: string)
    requires '/' !in e
    ensures Split(e + r) == [e + Split(r)[0]] + Split(r)[1..]
  {
    if e == "" {
      assert e + r == r;
      assert "" + Split(r)[0] == Split(r)[0];
    } else {
      SplitAfterSegment(e[1..], r);
      assert (e + r)[1..] == e[1..] + r;
      assert [e[0]] + (e[1..] + Split(r)[0]) == e + Split(r)[0];
    }
  }

  lemma {:induction false} EscapeHasNoSlash(key: string)
    ensures '/' !in Escape(key)
  {
    ReplacedCharIsGone(ReplaceChar(key, '~', "~0"), '/', "~1");
  }

  lemma {:induction false} SplitRender(segments: seq<string>)
    ensures Split(Render(segments))[0] == ""
    ensures UnescapeAll(Split(Render(segments))[1..]) == segments
  {
    hide Escape, Unescape;
    if segments != [] {
      var e, r := Escape(segments[0]), Render(segments[1..]);
      SplitRender(segments[1..]);
      UnescapeEscape(segments[0]);
      EscapeHasNoSlash(segments[0]);
      SplitAfterSegment(e, r);
      assert Render(segments) == "/" + (e + r);
      assert Render(segments)[1..] == e + r;
      assert Split(Render(segments))[1..] == Split(e + r);
      assert e + Split(r)[0] == e;
      assert Split(e + r)[1..] == Split(r)[1..];
    }
  }

  /** Reading a rendered path gives its segments back, with one exception: the
      path of the empty key at the root is "/", which is read as the root. */
  lemma {:induction false} ParseRender(segments: seq<string>)
    ensures ParsePath(Render(segments)) == if segments == [""] then [] else segments
  {
    SplitRender(segments);
    if segments != [] {
      var e, r := Escape(segments[0]), Render(segments[1..]);
      assert Render(segments) == "/" + (e + r);
      if |segments| > 1 {
        assert r == "/" + Escape(segments[1]) + Render(segments[1..][1..]);
        assert |Render(segments)| > 1;
      } else if segments[0] != "" {
        UnescapeEscape(segments[0]);
        assert e != "";
      }
    }
  }

  // ---- array indices: `${i}` and Number(head) ----

  function DecimalDigit(d: nat): char
    requires d < 10
  {
    '0' + d as char
  }

  function Decimal(n: nat): string {
    if n < 10 then [DecimalDigit(n)] else Decimal(n / 10) + [DecimalDigit(n % 10)]
  }

  predicate IsDigits(s: string) {
    forall i | 0 <= i < |s| :: '0' <= s[i] <= '9'
  }

  function DigitsValue(s: string): int
    requires IsDigits(s)
  {
    if s == "" then 0 else DigitsValue(s[..|s| - 1]) * 10 + (s[|s| - 1] - '0') as int
  }

  predicate IsBlank(c: char) {
    c == ' ' || c == '\t' || c == '\n' || c == '\r'
  }

  function Trim(s: string): string {
    if s == "" then ""
    else if IsBlank(s[0]) then Trim(s[1..])
    else if IsBlank(s[|s| - 1]) then Trim(s[..|s| - 1])
    else s
  }

  /** `Number(head)` where it yields an integer: blanks around it do not count,
      the empty string is zero, a sign may precede the digits. */
  function ToInteger(head: string): Option<int> {
    var t := Trim(head);
    if IsDigits(t) then Some(DigitsValue(t))
    else if t[0] == '-' && |t| > 1 && IsDigits(t[1..]) then Some(-DigitsValue(t[1..]))
    else if t[0] == '+' && |t| > 1 && IsDigits(t[1..]) then Some(DigitsValue(t[1..]))
    else None
  }

  lemma {:induction false} DecimalDigits(n: nat)
    ensures IsDigits(Decimal(n)) && DigitsValue(Decimal(n)) == n && Decimal(n) != ""
  {
    if n < 10 {
      assert Decimal(n)[..0] == "";
    } else {
      DecimalDigits(n / 10);
      var s := Decimal(n);
      assert s[..|s| - 1] == Decimal(n / 10);
    }
  }

  /** An index printed by a template literal is read back as that index. */
  lemma {:induction false} ToIntegerDecimal(n: nat)
    ensures ToInteger(Decimal(n)) == Some(n)
  {
    DecimalDigits(n);
  }

  lemma {:induction false} ReplaceAbsent(s: string, c: char, t: string)
    requires c !in s
    ensures ReplaceChar(s, c, t) == s
  {
    if s != "" {
      ReplaceAbsent(s[1..], c, t);
    }
  }

  /** `diffArrays` does not escape its indices and does not have to. */
  lemma {:induction false} EscapeDecimal(n: nat)
    ensures Escape(Decimal(n)) == Decimal(n)
  {
    DecimalDigits(n);
    ReplaceAbsent(Decimal(n), '~', "~0");
    ReplaceAbsent(Decimal(n), '/', "~1");
  }
}
