/** The compact JSON text Python's `json.dumps(..., ensure_ascii=False)` prints for strings, null,
    lists and objects, and a parser that inverts it. Strings follow section 7 of RFC 8259. */
module Json {
  import opened Options
  import opened Sequences

  datatype Json = Null | Str(text: string) | Arr(items: seq<Json>) | Obj(members: seq<Member>)

  datatype Member = Member(key: string, value: Json)

  // ---- Printing ----

  const HEX := "0123456789abcdef"

  function Escape(c: char): string {
    if c == '"' then "\\\""
    else if c == '\\' then "\\\\"
    else if c == '\n' then "\\n"
    else if c == '\r' then "\\r"
    else if c == '\t' then "\\t"
    else if c == '\U{0C}' then "\\f"
    else if c == '\U{08}' then "\\b"
    else if c < ' ' then "\\u00" + [HEX[c as int / 16], HEX[c as int % 16]]
    else [c]
  }

  function EscapeAll(s: string): string {
    if s == [] then [] else Escape(s[0]) + EscapeAll(s[1..])
  }

  function PrintString(s: string): string {
    "\"" + EscapeAll(s) + "\""
  }

  function Print(j: Json): string
    decreases j, 1
  {
    match j
    case Null => "null"
    case Str(text) => PrintString(text)
    case Arr(items) => "[" + PrintItems(items) + "]"
    case Obj(members) => "{" + PrintMembers(members) + "}"
  }

  function PrintItems(items: seq<Json>): string
    decreases items, 0
  {
    if items == [] then ""
    else if |items| == 1 then Print(items[0])
    else Print(items[0]) + "," + PrintItems(items[1..])
  }

  function PrintMember(m: Member): string
    decreases m, 0
  {
    PrintString(m.key) + ":" + Print(m.value)
  }

  function PrintMembers(members: seq<Member>): string
    decreases members, 0
  {
    if members == [] then ""
    else if |members| == 1 then PrintMember(members[0])
    else PrintMember(members[0]) + "," + PrintMembers(members[1..])
  }

  // ---- Parsing ----

  datatype Parsed<+T> = Failed | Got(value: T, rest: string)

  function HexValue(c: char): Option<int> {
    if '0' <= c <= '9' then Some(c as int - '0' as int)
    else if 'a' <= c <= 'f' then Some(c as int - 'a' as int + 10)
    else None
  }

  /** One character of a string body, escaped or not. */
  function ParseChar(t: string): (p: Parsed<char>)
    ensures p.Got? ==> |p.rest| < |t|
  {
    if t == [] || t[0] == '"' || t[0] < ' ' then Failed
    else if t[0] != '\\' then Got(t[0], t[1..])
    else if |t| < 2 then Failed
    else if t[1] == '"' || t[1] == '\\' then Got(t[1], t[2..])
    else if t[1] == 'n' then Got('\n', t[2..])
    else if t[1] == 'r' then Got('\r', t[2..])
    else if t[1] == 't' then Got('\t', t[2..])
    else if t[1] == 'f' then Got('\U{0C}', t[2..])
    else if t[1] == 'b' then Got('\U{08}', t[2..])
    else if |t| >= 6 && t[1..4] == "u00" && HexValue(t[4]).Some? && HexValue(t[5]).Some? then
      Got((16 * HexValue(t[4]).value + HexValue(t[5]).value) as char, t[6..])
    else Failed
  }

  /** The rest of a string, up to and including its closing quote. */
  function ParseBody(t: string): (p: Parsed<string>)
    ensures p.Got? ==> |p.rest| < |t|
    decreases |t|
  {
    if t != [] && t[0] == '"' then Got([], t[1..])
    else
      var c := ParseChar(t);
      if c.Failed? then Failed
      else
        var body := ParseBody(c.rest);
        if body.Failed? then Failed else Got([c.value] + body.value, body.rest)
  }

  function ParseString(t: string): (p: Parsed<string>)
    ensures p.Got? ==> |p.rest| < |t|
  {
    if t != [] && t[0] == '"' then ParseBody(t[1..]) else Failed
  }

  function Parse(t: string): (p: Parsed<Json>)
    ensures p.Got? ==> |p.rest| < |t|
    decreases |t|, 2
  {
    if t == [] then Failed
    else if t[0] == 'n' then
      if |t| >= 4 && t[..4] == "null" then Got(Null, t[4..]) else Failed
    else if t[0] == '"' then
      var s := ParseString(t);
      if s.Failed? then Failed else Got(Str(s.value), s.rest)
    else if t[0] == '[' then
      if |t| >= 2 && t[1] == ']' then Got(Arr([]), t[2..])
      else
        var items := ParseItems(t[1..]);
        if items.Failed? then Failed else Got(Arr(items.value), items.rest)
    else if t[0] == '{' then
      if |t| >= 2 && t[1] == '}' then Got(Obj([]), t[2..])
      else
        var members := ParseMembers(t[1..]);
        if members.Failed? then Failed else Got(Obj(members.value), members.rest)
    else Failed
  }

  /** One or more items, up to and including the closing bracket. */
  function ParseItems(t: string): (p: Parsed<seq<Json>>)
    ensures p.Got? ==> |p.rest| < |t|
    decreases |t|, 3
  {
    var first := Parse(t);
    if first.Failed? || first.rest == [] then Failed
    else if first.rest[0] == ']' then Got([first.value], first.rest[1..])
    else if first.rest[0] == ',' then
      var others := ParseItems(first.rest[1..]);
      if others.Failed? then Failed else Got([first.value] + others.value, others.rest)
    else Failed
  }

  function ParseMember(t: string): (p: Parsed<Member>)
    ensures p.Got? ==> |p.rest| < |t|
    decreases |t|, 3
  {
    var key := ParseString(t);
    if key.Failed? || key.rest == [] || key.rest[0] != ':' then Failed
    else
      var value := Parse(key.rest[1..]);
      if value.Failed? then Failed else Got(Member(key.value, value.value), value.rest)
  }

  function ParseMembers(t: string): (p: Parsed<seq<Member>>)
    ensures p.Got? ==> |p.rest| < |t|
    decreases |t|, 4
  {
    var first := ParseMember(t);
    if first.Failed? || first.rest == [] then Failed
    else if first.rest[0] == '}' then Got([first.value], first.rest[1..])
    else if first.rest[0] == ',' then
      var others := ParseMembers(first.rest[1..]);
      if others.Failed? then Failed else Got([first.value] + others.value, others.rest)
    else Failed
  }

  // ---- The parser inverts the printer ----

  lemma ParseEscaped(c: char, rest: string)
    ensures ParseChar(Escape(c) + rest) == Got(c, rest)
    ensures Escape(c)[0] != '"'
  {
    var t := Escape(c) + rest;
    if |Escape(c)| == 6 {
      assert t[1..4] == "u00";
      assert t[6..] == rest;
    } else if |Escape(c)| == 2 {
      assert t[2..] == rest;
    } else {
      assert t[1..] == rest;
    }
  }

  lemma ParseBodyStep(c: char, tail: string, body: string, rest: string)
    requires ParseBody(tail) == Got(body, rest)
    ensures ParseBody(Escape(c) + tail) == Got([c] + body, rest)
  {
    ParseEscaped(c, tail);
  }

  lemma {:induction false} ParseEscapedAll(s: string, rest: string)
    ensures ParseBody(EscapeAll(s) + ("\"" + rest)) == Got(s, rest)
  {
    var close := "\"" + rest;
    if s == [] {
      assert close[1..] == rest;
      assert EscapeAll(s) + close == close;
    } else {
      ParseEscapedAll(s[1..], rest);
      ParseBodyStep(s[0], EscapeAll(s[1..]) + close, s[1..], rest);
      Associative(Escape(s[0]), EscapeAll(s[1..]), close);
      assert [s[0]] + s[1..] == s;
    }
  }

  lemma ParsePrintedString(s: string, rest: string)
    ensures ParseString(PrintString(s) + rest) == Got(s, rest)
    ensures PrintString(s)[0] == '"'
  {
    ParseEscapedAll(s, rest);
    Unwrap("\"", EscapeAll(s), "\"", rest);
  }

  lemma PrintedHead(j: Json)
    ensures Print(j) != [] && Print(j)[0] in "n\"[{"
  {
  }

  /** Parsing a printed value gives the value back and leaves what follows it alone. */
  lemma {:induction false} ParsePrinted(j: Json, rest: string)
    ensures Parse(Print(j) + rest) == Got(j, rest)
    decreases j, 1
  {
    match j
    case Null =>
      var t := "null" + rest;
      assert t[..4] == "null" && t[4..] == rest;
    case Str(text) =>
      ParsePrintedString(text, rest);
    case Arr(items) =>
      ParsePrintedList(items, rest);
    case Obj(members) =>
      ParsePrintedObject(members, rest);
  }

  lemma {:induction false} ParsePrintedList(items: seq<Json>, rest: string)
    ensures Parse(Print(Arr(items)) + rest) == Got(Arr(items), rest)
    decreases items, 2
  {
    var t := Print(Arr(items)) + rest;
    if items == [] {
      assert t[2..] == rest;
    } else {
      Unwrap("[", PrintItems(items), "]", rest);
      ParsePrintedItems(items, rest);
      PrintedHead(items[0]);
      assert t[1..][0] == Print(items[0])[0];
    }
  }

  lemma {:induction false} ParsePrintedItems(items: seq<Json>, rest: string)
    requires items != []
    ensures ParseItems(PrintItems(items) + ("]" + rest)) == Got(items, rest)
    decreases items, 1
  {
    var close := "]" + rest;
    if |items| == 1 {
      ParsePrinted(items[0], close);
      assert close[1..] == rest && [items[0]] == items;
    } else {
      var tail := PrintItems(items[1..]) + close;
      var comma := "," + tail;
      ParsePrinted(items[0], comma);
      ParsePrintedItems(items[1..], rest);
      Sandwich(Print(items[0]), ",", PrintItems(items[1..]), close);
      HeadAndTail(items);
    }
  }

  lemma {:induction false} ParsePrintedObject(members: seq<Member>, rest: string)
    ensures Parse(Print(Obj(members)) + rest) == Got(Obj(members), rest)
    decreases members, 2
  {
    var t := Print(Obj(members)) + rest;
    if members == [] {
      assert t[2..] == rest;
    } else {
      Unwrap("{", PrintMembers(members), "}", rest);
      ParsePrintedMembers(members, rest);
      assert t[1..][0] == PrintMember(members[0])[0] == '"';
    }
  }

  lemma {:induction false} ParsePrintedMember(m: Member, rest: string)
    ensures ParseMember(PrintMember(m) + rest) == Got(m, rest)
    decreases m, 1
  {
    var colon := ":" + (Print(m.value) + rest);
    Sandwich(PrintString(m.key), ":", Print(m.value), rest);
    ParsePrintedString(m.key, colon);
    ParsePrinted(m.value, rest);
  }

  lemma {:induction false} ParsePrintedMembers(members: seq<Member>, rest: string)
    requires members != []
    ensures ParseMembers(PrintMembers(members) + ("}" + rest)) == Got(members, rest)
    decreases members, 1
  {
    var close := "}" + rest;
    if |members| == 1 {
      ParsePrintedMember(members[0], close);
      assert close[1..] == rest && [members[0]] == members;
    } else {
      var tail := PrintMembers(members[1..]) + close;
      var comma := "," + tail;
      ParsePrintedMember(members[0], comma);
      ParsePrintedMembers(members[1..], rest);
      Sandwich(PrintMember(members[0]), ",", PrintMembers(members[1..]), close);
      HeadAndTail(members);
    }
  }

  /** Distinct values print distinct texts. */
  lemma PrintInjective(a: Json, b: Json)
    requires Print(a) == Print(b)
    ensures a == b
  {
    ParsePrinted(a, []);
    ParsePrinted(b, []);
    assert Print(a) + [] == Print(b) + [];
  }
}
