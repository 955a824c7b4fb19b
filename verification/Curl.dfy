/** `toCurl`, read back by a POSIX shell. */
module Curl {

  datatype Body = NoBody | Text(text: string) | Json(serialized: string)

  /** A captured request. `serialized` is the JSON text of a body that is no string. */
  datatype CurlSource = CurlSource(
    method_: string,
    url: string,
    requestHeaders: seq<(string, string)>,
    requestBody: Body)

  function UpperChar(c: char): char {
    if 'a' <= c <= 'z' then c - 'a' + 'A' else c
  }

  function LowerChar(c: char): char {
    if 'A' <= c <= 'Z' then c - 'A' + 'a' else c
  }

  function Upper(s: string): string {
    seq(|s|, i requires 0 <= i < |s| => UpperChar(s[i]))
  }

  function Lower(s: string): string {
    seq(|s|, i requires 0 <= i < |s| => LowerChar(s[i]))
  }

  function EscapeQuotes(value: string): string {
    if value == "" then ""
    else EscapedChar(value[0]) + EscapeQuotes(value[1..])
  }

  function ShellQuote(value: string): string {
    "'" + EscapeQuotes(value) + "'"
  }

  predicate HasContentType(headers: seq<(string, string)>) {
    exists i :: 0 <= i < |headers| && Lower(headers[i].0) == "content-type"
  }

  // ---- printing ----

  const SEPARATOR := " \\\n  "

  function Joined(parts: seq<string>): string {
    if parts == [] then ""
    else if |parts| == 1 then parts[0]
    else Joined(parts[..|parts| - 1]) + SEPARATOR + parts[|parts| - 1]
  }

  method ToCurl(entry: CurlSource) returns (command: string)
    ensures Tokens(command) == Some(Arguments(entry))
  {
    hide Prints, Tokens, Joined, ShellQuote, Upper, HasContentType;
    var parts := ["curl"];
    ghost var args := ["curl"];
    FirstPart();
    if entry.method_ != "" && Upper(entry.method_) != "GET" {
      parts, args := PushOption(parts, args, "-X", Upper(entry.method_));
    }
    assert args == ["curl"] + MethodArguments(entry.method_);
    PushWord(parts, args, entry.url);
    parts, args := parts + [ShellQuote(entry.url)], args + [entry.url];

    var headers := entry.requestHeaders;
    ghost var before := args;
    for i := 0 to |headers|
      invariant Prints(parts, args)
      invariant args == before + HeaderArguments(headers[..i])
    {
      assert headers[..i + 1][..i] == headers[..i];
      parts, args := PushOption(parts, args, "-H", headers[i].0 + ": " + headers[i].1);
    }
    assert headers[..|headers|] == headers;

    if entry.requestBody != NoBody {
      var serialized := if entry.requestBody.Text? then entry.requestBody.text else entry.requestBody.serialized;
      if !HasContentType(headers) && !entry.requestBody.Text? {
        parts, args := PushOption(parts, args, "-H", "Content-Type: application/json");
      }
      parts, args := PushOption(parts, args, "--data", serialized);
    }
    assert args == before + HeaderArguments(headers) + BodyArguments(entry);
    command := Joined(parts);
    PrintsTokens(parts, args);
  }

  /** The words the command is meant to consist of. */
  function Arguments(entry: CurlSource): seq<string> {
    ["curl"] + MethodArguments(entry.method_) + [entry.url]
    + HeaderArguments(entry.requestHeaders) + BodyArguments(entry)
  }

  function MethodArguments(name: string): seq<string> {
    if name != "" && Upper(name) != "GET" then ["-X", Upper(name)] else []
  }

  function BodyArguments(entry: CurlSource): seq<string> {
    match entry.requestBody
    case NoBody => []
    case Text(text) => ["--data", text]
    case Json(serialized) =>
      (if HasContentType(entry.requestHeaders) then [] else ["-H", "Content-Type: application/json"])
      + ["--data", serialized]
  }

  function HeaderArguments(headers: seq<(string, string)>): seq<string> {
    if headers == [] then []
    else
      var last := |headers| - 1;
      HeaderArguments(headers[..last]) + ["-H", headers[last].0 + ": " + headers[last].1]
  }

  // ---- reading: Shell Command Language, sections 2.2.1, 2.2.2 and 2.3 ----

  datatype Option<T> = None | Some(value: T)

  /** `Between`: no word begun. `Bare`: in a word, unquoted. `Quoted`: inside single
      quotes. The two escape states have just read an unquoted backslash, outside a
      word or in one. `Stuck`: a character this command must not contain unquoted. */
  datatype Mode = Between | Bare | Quoted | EscapeBetween | EscapeBare | Stuck

  datatype Scan = Scan(mode: Mode, words: seq<string>, word: string)

  /** Letters and the dash stand for themselves; everything else that is not a
      blank, a quote or a backslash may mean something to the shell. */
  predicate Plain(c: char) {
    'a' <= c <= 'z' || 'A' <= c <= 'Z' || c == '-'
  }

  function Step(s: Scan, c: char): Scan {
    match s.mode
    case Stuck => s
    case Quoted => if c == '\'' then s.(mode := Bare) else s.(word := s.word + [c])
    case EscapeBetween =>
      if c == '\n' then s.(mode := Between) else s.(mode := Bare, word := [c])
    case EscapeBare =>
      if c == '\n' then s.(mode := Bare) else s.(mode := Bare, word := s.word + [c])
    case Between =>
      if c == ' ' then s
      else if c == '\\' then s.(mode := EscapeBetween)
      else if c == '\'' then s.(mode := Quoted, word := "")
      else if Plain(c) then s.(mode := Bare, word := [c])
      else s.(mode := Stuck)
    case Bare =>
      if c == ' ' then Scan(Between, s.words + [s.word], "")
      else if c == '\\' then s.(mode := EscapeBare)
      else if c == '\'' then s.(mode := Quoted)
      else if Plain(c) then s.(word := s.word + [c])
      else s.(mode := Stuck)
  }

  function Read(s: Scan, text: string): Scan
    decreases |text|
  {
    if text == "" then s else Read(Step(s, text[0]), text[1..])
  }

  /** The words of a command line, if quotes are closed and nothing unquoted is
      left for the shell to interpret. */
  function Tokens(text: string): Option<seq<string>> {
    var s := Read(Scan(Between, [], ""), text);
    match s.mode
    case Between => Some(s.words)
    case Bare => Some(s.words + [s.word])
    case _ => None
  }

  lemma {:induction false} ReadConcat(s: Scan, a: string, b: string)
    ensures Read(s, a + b) == Read(Read(s, a), b)
    decreases |a|
  {
    if a == "" {
      assert a + b == b;
    } else {
      assert (a + b)[1..] == a[1..] + b;
      ReadConcat(Step(s, a[0]), a[1..], b);
    }
  }

  lemma {:induction false} ReadChar(s: Scan, c: char, text: string)
    ensures Read(s, [c] + text) == Read(Step(s, c), text)
  {
    assert ([c] + text)[1..] == text;
  }

  function EscapedChar(c: char): string {
    if c == '\'' then "'\\''" else [c]
  }

  lemma {:induction false} ReadEscapedChar(words: seq<string>, word: string, c: char)
    ensures Read(Scan(Quoted, words, word), EscapedChar(c)) == Scan(Quoted, words, word + [c])
  {
    var s := Scan(Quoted, words, word);
    if c == '\'' {
      ReadChar(s, '\'', "\\''");
      ReadChar(Scan(Bare, words, word), '\\', "''");
      ReadChar(Scan(EscapeBare, words, word), '\'', "'");
      ReadChar(Scan(Bare, words, word + ['\'']), '\'', "");
      assert "'\\''" == ['\''] + "\\''" && "\\''" == ['\\'] + "''" && "''" == ['\''] + "'" && "'" == ['\''] + "";
    } else {
      ReadChar(s, c, "");
      assert [c] == [c] + "";
    }
  }

  lemma {:induction false} ReadEscapedQuotes(words: seq<string>, word: string, value: string)
    ensures Read(Scan(Quoted, words, word), EscapeQuotes(value)) == Scan(Quoted, words, word + value)
    decreases |value|
  {
    if value == "" {
      assert word + value == word;
    } else {
      ReadConcat(Scan(Quoted, words, word), EscapedChar(value[0]), EscapeQuotes(value[1..]));
      ReadEscapedChar(words, word, value[0]);
      ReadEscapedQuotes(words, word + [value[0]], value[1..]);
      assert word + [value[0]] + value[1..] == word + value;
    }
  }

  /** Whatever the value, its quoted form is read as that one word. */
  lemma {:induction false} ReadShellQuote(words: seq<string>, value: string)
    ensures Read(Scan(Between, words, ""), ShellQuote(value)) == Scan(Bare, words, value)
  {
    var s := Scan(Between, words, "");
    var e := EscapeQuotes(value);
    ReadConcat(s, "'" + e, "'");
    ReadConcat(s, "'", e);
    assert "'"[1..] == "";
    ReadEscapedQuotes(words, "", value);
    assert "" + value == value;
  }

  lemma {:induction false} ReadSeparator(words: seq<string>, word: string)
    ensures Read(Scan(Bare, words, word), SEPARATOR) == Scan(Between, words + [word], "")
  {
    var done := Scan(Between, words + [word], "");
    assert SEPARATOR == [' '] + "\\\n  " && "\\\n  " == ['\\'] + "\n  " && "\n  " == ['\n'] + "  ";
    assert "  " == [' '] + " " && " " == [' '] + "";
    ReadChar(Scan(Bare, words, word), ' ', "\\\n  ");
    ReadChar(done, '\\', "\n  ");
    ReadChar(done.(mode := EscapeBetween), '\n', "  ");
    ReadChar(done, ' ', " ");
    ReadChar(done, ' ', "");
  }

  // ---- the parts read back ----

  /** The joined parts read as these words, the last of them still open. */
  ghost predicate Prints(parts: seq<string>, args: seq<string>) {
    && parts != [] && args != []
    && Read(Scan(Between, [], ""), Joined(parts)) == Scan(Bare, args[..|args| - 1], args[|args| - 1])
  }

  lemma {:induction false} PrintsTokens(parts: seq<string>, args: seq<string>)
    requires Prints(parts, args)
    ensures Tokens(Joined(parts)) == Some(args)
  {
    assert args == args[..|args| - 1] + [args[|args| - 1]];
  }

  lemma {:induction false} FirstPart()
    ensures Prints(["curl"], ["curl"])
  {
    assert "curl" == ['c'] + "url";
    ReadChar(Scan(Between, [], ""), 'c', "url");
    ReadPlain([], "c", "url");
    assert "c" + "url" == "curl";
    assert ["curl"][..0] == [];
  }

  lemma {:induction false} PushPart(parts: seq<string>, args: seq<string>, part: string, more: seq<string>, last: string)
    requires Prints(parts, args)
    requires Read(Scan(Between, args, ""), part) == Scan(Bare, args + more, last)
    ensures Prints(parts + [part], args + more + [last])
  {
    var s := Scan(Between, [], "");
    assert (parts + [part])[..|parts|] == parts;
    ReadConcat(s, Joined(parts) + SEPARATOR, part);
    ReadConcat(s, Joined(parts), SEPARATOR);
    ReadSeparator(args[..|args| - 1], args[|args| - 1]);
    assert args[..|args| - 1] + [args[|args| - 1]] == args;
    assert (args + more + [last])[..|args + more|] == args + more;
  }

  lemma {:induction false} PushWord(parts: seq<string>, args: seq<string>, value: string)
    requires Prints(parts, args)
    ensures Prints(parts + [ShellQuote(value)], args + [value])
  {
    ReadShellQuote(args, value);
    assert args + [] == args;
    PushPart(parts, args, ShellQuote(value), [], value);
  }

  lemma {:induction false} ReadPlain(words: seq<string>, word: string, text: string)
    requires forall i | 0 <= i < |text| :: Plain(text[i])
    ensures Read(Scan(Bare, words, word), text) == Scan(Bare, words, word + text)
    decreases |text|
  {
    if text == "" {
      assert word + text == word;
    } else {
      ReadPlain(words, word + [text[0]], text[1..]);
      assert word + [text[0]] + text[1..] == word + text;
    }
  }

  method PushOption(parts: seq<string>, ghost args: seq<string>, option: string, value: string)
    returns (parts': seq<string>, ghost args': seq<string>)
    requires Prints(parts, args)
    requires option != "" && forall i | 0 <= i < |option| :: Plain(option[i])
    ensures parts' == parts + [option + " " + ShellQuote(value)]
    ensures args' == args + [option, value]
    ensures Prints(parts', args')
  {
    parts' := parts + [option + " " + ShellQuote(value)];
    args' := args + [option, value];
    ghost var s := Scan(Between, args, "");
    ReadConcat(s, option + " ", ShellQuote(value));
    ReadConcat(s, option, " ");
    assert option == option[..1] + option[1..] && option[..1] == [option[0]];
    ReadPlain(args, [option[0]], option[1..]);
    assert " "[1..] == "";
    ReadShellQuote(args + [option], value);
    PushPart(parts, args, option + " " + ShellQuote(value), [option], value);
    assert args + [option] + [value] == args + [option, value];
  }

  // ---- what curl is told ----

  /** The request that the options ask for, as far as they say. */
  datatype Told = Told(verb: Option<string>, urls: seq<string>, headers: seq<string>, data: seq<string>)

  const NOTHING := Told(None, [], [], [])

  /** curl reads its arguments: three options with a value, everything else is a URL. */
  function Obeyed(told: Told, args: seq<string>): Option<Told>
    decreases |args|
  {
    if args == [] then Some(told)
    else if args[0] == "-X" then
      if |args| > 1 then Obeyed(told.(verb := Some(args[1])), args[2..]) else None
    else if args[0] == "-H" then
      if |args| > 1 then Obeyed(told.(headers := told.headers + [args[1]]), args[2..]) else None
    else if args[0] == "--data" then
      if |args| > 1 then Obeyed(told.(data := told.data + [args[1]]), args[2..]) else None
    else if args[0] != "" && args[0][0] == '-' then None
    else Obeyed(told.(urls := told.urls + [args[0]]), args[1..])
  }

  lemma {:induction false} ObeyedInTurn(told: Told, a: seq<string>, b: seq<string>)
    requires Obeyed(told, a).Some?
    ensures Obeyed(told, a + b) == Obeyed(Obeyed(told, a).value, b)
    decreases |a|
  {
    if a == [] {
      assert a + b == b;
    } else if a[0] == "-X" {
      assert (a + b)[2..] == a[2..] + b;
      ObeyedInTurn(told.(verb := Some(a[1])), a[2..], b);
    } else if a[0] == "-H" {
      assert (a + b)[2..] == a[2..] + b;
      ObeyedInTurn(told.(headers := told.headers + [a[1]]), a[2..], b);
    } else if a[0] == "--data" {
      assert (a + b)[2..] == a[2..] + b;
      ObeyedInTurn(told.(data := told.data + [a[1]]), a[2..], b);
    } else {
      assert (a + b)[1..] == a[1..] + b;
      ObeyedInTurn(told.(urls := told.urls + [a[0]]), a[1..], b);
    }
  }

  lemma {:induction false} OneOption(told: Told, name: string, value: string)
    ensures Obeyed(told, ["-X", value]) == Some(told.(verb := Some(value)))
    ensures Obeyed(told, ["-H", value]) == Some(told.(headers := told.headers + [value]))
    ensures Obeyed(told, ["--data", value]) == Some(told.(data := told.data + [value]))
    ensures value == "" || value[0] != '-' ==> Obeyed(told, [value]) == Some(told.(urls := told.urls + [value]))
    ensures Obeyed(told, []) == Some(told)
  {
  }

  function HeaderLines(headers: seq<(string, string)>): seq<string> {
    seq(|headers|, i requires 0 <= i < |headers| => headers[i].0 + ": " + headers[i].1)
  }

  lemma {:induction false} HeadersObeyed(told: Told, headers: seq<(string, string)>)
    ensures Obeyed(told, HeaderArguments(headers)) == Some(told.(headers := told.headers + HeaderLines(headers)))
  {
    hide Obeyed;
    if headers == [] {
      OneOption(told, "", "");
      assert told.headers + HeaderLines(headers) == told.headers;
    } else {
      var last := |headers| - 1;
      var line := headers[last].0 + ": " + headers[last].1;
      HeadersObeyed(told, headers[..last]);
      ObeyedInTurn(told, HeaderArguments(headers[..last]), ["-H", line]);
      OneOption(told.(headers := told.headers + HeaderLines(headers[..last])), "", line);
      assert HeaderLines(headers) == HeaderLines(headers[..last]) + [line];
      assert told.headers + HeaderLines(headers[..last]) + [line] == told.headers + HeaderLines(headers);
    }
  }

  /** The headers that the command adds of its own accord: the type of a body that is not
      text, unless the request names one, in whatever case. */
  function AddedHeaders(entry: CurlSource): seq<string> {
    if entry.requestBody.Json? && forall h | h in entry.requestHeaders :: Lower(h.0) != "content-type"
    then ["Content-Type: application/json"] else []
  }

  function Bodies(entry: CurlSource): seq<string> {
    match entry.requestBody
    case NoBody => []
    case Text(text) => [text]
    case Json(serialized) => [serialized]
  }

  /** The command asks for the request's URL, headers and body, and for its method in capitals
      unless that is GET or missing. */
  lemma {:induction false} CommandIsRequest(entry: CurlSource)
    requires entry.url == "" || entry.url[0] != '-'
    ensures Arguments(entry)[0] == "curl"
    ensures Obeyed(NOTHING, Arguments(entry)[1..])
         == Some(Told(if entry.method_ == "" || Upper(entry.method_) == "GET" then None else Some(Upper(entry.method_)),
                      [entry.url], HeaderLines(entry.requestHeaders) + AddedHeaders(entry),
                      Bodies(entry)))
  {
    hide Obeyed, HeaderLines, HeaderArguments, Upper, Lower;
    var a, b := MethodArguments(entry.method_), HeaderArguments(entry.requestHeaders);
    var c := BodyArguments(entry);
    var verb := if a == [] then None else Some(a[1]);
    assert Arguments(entry)[1..] == a + ([entry.url] + (b + c));
    OneOption(NOTHING, "", if a == [] then "" else a[1]);
    assert Obeyed(NOTHING, a) == Some(Told(verb, [], [], []));
    ObeyedInTurn(NOTHING, a, [entry.url] + (b + c));
    var told := Told(verb, [], [], []);
    OneOption(told, "", entry.url);
    assert [] + [entry.url] == [entry.url];
    ObeyedInTurn(told, [entry.url], b + c);
    told := Told(verb, [entry.url], [], []);
    HeadersObeyed(told, entry.requestHeaders);
    ObeyedInTurn(told, b, c);
    assert told.headers + HeaderLines(entry.requestHeaders) == HeaderLines(entry.requestHeaders);
    told := Told(verb, [entry.url], HeaderLines(entry.requestHeaders), []);
    BodyObeyed(told, entry);
    assert [] + Bodies(entry) == Bodies(entry);
  }

  lemma {:induction false} BodyObeyed(told: Told, entry: CurlSource)
    ensures Obeyed(told, BodyArguments(entry))
         == Some(told.(headers := told.headers + AddedHeaders(entry),
                       data := told.data + Bodies(entry)))
  {
    hide Obeyed, Lower;
    assert told.headers + [] == told.headers && told.data + [] == told.data;
    match entry.requestBody
    case NoBody => OneOption(told, "", "");
    case Text(text) => OneOption(told, "", text);
    case Json(serialized) =>
      var line := "Content-Type: application/json";
      OneOption(told, "", line);
      OneOption(told, "", serialized);
      OneOption(told.(headers := told.headers + [line]), "", serialized);
      ObeyedInTurn(told, ["-H", line], ["--data", serialized]);
      if HasContentType(entry.requestHeaders) {
        var i :| 0 <= i < |entry.requestHeaders| && Lower(entry.requestHeaders[i].0) == "content-type";
        assert entry.requestHeaders[i] in entry.requestHeaders;
        assert [] + ["--data", serialized] == ["--data", serialized];
      } else {
        forall h | h in entry.requestHeaders ensures Lower(h.0) != "content-type"
        {
          var i :| 0 <= i < |entry.requestHeaders| && entry.requestHeaders[i] == h;
        }
      }
  }

  /** What curl sends: without `-X`, a POST if there is data and else a GET. */
  function VerbSent(told: Told): string {
    if told.verb.Some? then told.verb.value else if told.data != [] then "POST" else "GET"
  }

  /** The command makes a request by the captured method, GET if that is missing, exactly if
      there is no body or the method is another than GET: with a body, a GET becomes a
      POST. */
  lemma {:induction false} MethodIsKeptExactly(entry: CurlSource)
    requires entry.url == "" || entry.url[0] != '-'
    ensures Obeyed(NOTHING, Arguments(entry)[1..]).Some?
    ensures var asked := if entry.method_ == "" then "GET" else Upper(entry.method_);
            VerbSent(Obeyed(NOTHING, Arguments(entry)[1..]).value) == asked
            <==> entry.requestBody == NoBody || asked != "GET"
  {
    hide Obeyed, Arguments, HeaderLines, Upper, Lower;
    CommandIsRequest(entry);
  }
}
