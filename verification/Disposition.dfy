/** The filename a server suggests in a Content-Disposition header. */
module Disposition {
  import opened Options
  import opened Text

  // ---- Splitting into parameters ----

  datatype Splitting = Splitting(parts: seq<string>, current: string, quoted: bool)

  function Step(state: Splitting, c: char): Splitting {
    var quoted := if c == '"' then !state.quoted else state.quoted;
    if c == ';' && !quoted then Splitting(state.parts + [state.current], [], quoted)
    else Splitting(state.parts, state.current + [c], quoted)
  }

  function Run(state: Splitting, value: string): Splitting {
    if value == [] then state else Step(Run(state, value[..|value| - 1]), value[|value| - 1])
  }

  const START := Splitting([], [], false)

  function PartsOf(value: string): seq<string> {
    Run(START, value).parts + [Run(START, value).current]
  }

  method Parameters(value: string) returns (parts: seq<string>)
    ensures parts == PartsOf(value)
  {
    parts := [];
    var current, quoted := "", false;
    for i := 0 to |value|
      invariant Splitting(parts, current, quoted) == Run(START, value[..i])
    {
      assert value[..i + 1][..i] == value[..i];
      if value[i] == '"' { quoted := !quoted; }
      if value[i] == ';' && !quoted {
        parts := parts + [current];
        current := [];
        continue;
      }
      current := current + [value[i]];
    }
    assert value[..|value|] == value;
    parts := parts + [current];
  }

  /** Whether a quote is open after reading `s`. */
  function OpenAfter(s: string): bool {
    if s == [] then false
    else if s[|s| - 1] == '"' then !OpenAfter(s[..|s| - 1]) else OpenAfter(s[..|s| - 1])
  }

  /** Every semicolon of a parameter is inside quotes. */
  ghost predicate IsParameter(s: string) {
    forall k :: 0 <= k < |s| && s[k] == ';' ==> OpenAfter(s[..k])
  }

  /** Parameters as a server writes them: each but the last closes its quotes. */
  ghost predicate AreParameters(parts: seq<string>) {
    && parts != []
    && (forall i :: 0 <= i < |parts| ==> IsParameter(parts[i]))
    && (forall i :: 0 <= i < |parts| - 1 ==> !OpenAfter(parts[i]))
  }

  lemma {:induction false} RunSum(state: Splitting, a: string, b: string)
    ensures Run(state, a + b) == Run(Run(state, a), b)
  {
    if b == [] {
      assert a + b == a;
    } else {
      assert (a + b)[..|a + b| - 1] == a + b[..|b| - 1];
      RunSum(state, a, b[..|b| - 1]);
    }
  }

  lemma ParameterFront(p: string)
    requires IsParameter(p) && p != []
    ensures IsParameter(p[..|p| - 1]) && (p[|p| - 1] == ';' ==> OpenAfter(p[..|p| - 1]))
  {
    hide OpenAfter;
    var front := p[..|p| - 1];
    forall k | 0 <= k < |front| && front[k] == ';' ensures OpenAfter(front[..k]) {
      assert p[k] == ';' && front[..k] == p[..k];
    }
  }

  lemma {:induction false} RunParameter(done: seq<string>, p: string)
    requires IsParameter(p)
    ensures Run(Splitting(done, [], false), p) == Splitting(done, p, OpenAfter(p))
  {
    hide IsParameter;
    if p != [] {
      var front := p[..|p| - 1];
      ParameterFront(p);
      RunParameter(done, front);
      assert p == front + [p[|p| - 1]];
    }
  }

  lemma RunSeparator(done: seq<string>, p: string)
    requires IsParameter(p) && !OpenAfter(p)
    ensures Run(Splitting(done, [], false), p + ";") == Splitting(done + [p], [], false)
  {
    RunParameter(done, p);
    assert (p + ";")[..|p|] == p;
  }

  lemma {:induction false} RunJoined(done: seq<string>, parts: seq<string>)
    requires AreParameters(parts)
    ensures var last := parts[|parts| - 1];
            Run(Splitting(done, [], false), Join(";", parts)) == Splitting(done + parts[..|parts| - 1], last, OpenAfter(last))
    decreases |parts|
  {
    hide Step, IsParameter, OpenAfter;
    if |parts| == 1 {
      RunParameter(done, parts[0]);
      assert done + parts[..0] == done;
    } else {
      var rest := parts[1..];
      RestAreParameters(parts);
      RunSeparator(done, parts[0]);
      RunSum(Splitting(done, [], false), parts[0] + ";", Join(";", rest));
      RunJoined(done + [parts[0]], rest);
      assert done + [parts[0]] + rest[..|rest| - 1] == done + parts[..|parts| - 1];
    }
  }

  lemma RestAreParameters(parts: seq<string>)
    requires AreParameters(parts) && |parts| > 1
    ensures AreParameters(parts[1..]) && IsParameter(parts[0]) && !OpenAfter(parts[0])
  {
  }

  /** Splitting undoes joining: a semicolon inside quotes never cuts a parameter in half. */
  lemma SplittingInvertsJoining(parts: seq<string>)
    requires AreParameters(parts)
    ensures PartsOf(Join(";", parts)) == parts
  {
    RunJoined([], parts);
  }

  lemma {:induction false} JoinOneMore(parts: seq<string>, last: string)
    ensures parts != [] ==> Join(";", parts + [last]) == Join(";", parts) + ";" + last
    ensures parts == [] ==> Join(";", parts + [last]) == last
  {
    if |parts| > 1 {
      JoinOneMore(parts[1..], last);
      assert (parts + [last])[1..] == parts[1..] + [last];
    } else if |parts| == 1 {
      assert (parts + [last])[1..] == [last];
    }
  }

  /** And joining undoes splitting, for any header whatever: nothing is lost, added or moved. */
  lemma {:induction false} JoiningInvertsSplitting(value: string)
    ensures Join(";", PartsOf(value)) == value
  {
    if value != [] {
      var front, c := value[..|value| - 1], value[|value| - 1];
      JoiningInvertsSplitting(front);
      JoinStep(Run(START, front), c);
      assert value == front + [c];
    }
  }

  lemma JoinStep(before: Splitting, c: char)
    ensures var after := Step(before, c);
            Join(";", after.parts + [after.current]) == Join(";", before.parts + [before.current]) + [c]
  {
    var after := Step(before, c);
    JoinOneMore(before.parts, before.current);
    if |after.parts| > |before.parts| {
      JoinOneMore(after.parts, []);
      assert Join(";", after.parts) + ";" + [] == Join(";", after.parts) + [c];
    } else {
      JoinOneMore(before.parts, after.current);
      assert Join(";", before.parts) + ";" + (before.current + [c]) == Join(";", before.parts) + ";" + before.current + [c];
    }
  }

  lemma {:induction false} PartsAreParameters(value: string)
    ensures AreParameters(PartsOf(value)) && Run(START, value).quoted == OpenAfter(Run(START, value).current)
  {
    if value == [] {
      assert PartsOf(value) == [[]];
    } else {
      var before, c := Run(START, value[..|value| - 1]), value[|value| - 1];
      PartsAreParameters(value[..|value| - 1]);
      if c == ';' && !before.quoted {
        OpenParameter(before);
      } else {
        GrowParameter(before, c);
      }
    }
  }

  lemma OpenParameter(before: Splitting)
    requires AreParameters(before.parts + [before.current]) && !OpenAfter(before.current)
    ensures AreParameters(before.parts + [before.current] + [[]])
  {
    var earlier, now := before.parts + [before.current], before.parts + [before.current] + [[]];
    forall i | 0 <= i < |now| ensures IsParameter(now[i]) { assert i < |earlier| ==> now[i] == earlier[i]; }
    forall i | 0 <= i < |now| - 1 ensures !OpenAfter(now[i]) { assert now[i] == earlier[i]; }
  }

  lemma GrowParameter(before: Splitting, c: char)
    requires AreParameters(before.parts + [before.current]) && before.quoted == OpenAfter(before.current)
    requires !(c == ';' && !before.quoted)
    ensures AreParameters(before.parts + [before.current + [c]])
    ensures OpenAfter(before.current + [c]) == Step(before, c).quoted
  {
    var earlier, now := before.parts + [before.current], before.parts + [before.current + [c]];
    var n := |before.parts|;
    var grown := before.current + [c];
    assert earlier[n] == before.current && grown[..|before.current|] == before.current;
    forall k | 0 <= k < |grown| && grown[k] == ';' ensures OpenAfter(grown[..k]) {
      if k < |before.current| { assert before.current[k] == ';' && grown[..k] == before.current[..k]; }
    }
    forall i | 0 <= i < n ensures IsParameter(now[i]) && !OpenAfter(now[i]) { assert now[i] == earlier[i]; }
  }

  // ---- The filename ----

  function LowerAscii(s: string): string {
    if s == [] then []
    else LowerAscii(s[..|s| - 1]) + [if 'A' <= s[|s| - 1] <= 'Z' then (s[|s| - 1] as int + 32) as char else s[|s| - 1]]
  }

  function EqualsAt(s: string): (k: nat)
    ensures k <= |s|
  {
    if s == [] || s[0] == '=' then 0 else 1 + EqualsAt(s[1..])
  }

  function NameOf(parameter: string): string {
    LowerAscii(Strip(parameter[..EqualsAt(parameter)]))
  }

  function RawOf(parameter: string): string {
    var k := EqualsAt(parameter);
    if k < |parameter| then parameter[k + 1..] else []
  }

  function DropQuotesLeft(s: string): string {
    if s != [] && s[0] == '"' then DropQuotesLeft(s[1..]) else s
  }

  function DropQuotesRight(s: string): string {
    if s != [] && s[|s| - 1] == '"' then DropQuotesRight(s[..|s| - 1]) else s
  }

  function NonEmpty(s: string): Option<string> {
    if s == [] then None else Some(s)
  }

  const ENCODING := "utf-8''"

  predicate IsEncoded(parameter: string) {
    NameOf(parameter) == "filename*" && ENCODING <= LowerAscii(Strip(RawOf(parameter)))
  }

  /** The extended form takes precedence, wherever it stands. */
  function Extended(unquote: string -> string, parts: seq<string>): Option<Option<string>> {
    if parts == [] then None
    else if IsEncoded(parts[0]) then
      var candidate := Strip(RawOf(parts[0]));
      Some(NonEmpty(unquote(if |candidate| >= |ENCODING| then candidate[|ENCODING|..] else [])))
    else Extended(unquote, parts[1..])
  }

  function PlainName(parts: seq<string>): Option<string> {
    if parts == [] then None
    else if NameOf(parts[0]) == "filename" then NonEmpty(DropQuotesRight(DropQuotesLeft(Strip(RawOf(parts[0])))))
    else PlainName(parts[1..])
  }

  function FilenameFrom(unquote: string -> string, value: string): Option<string> {
    if value == [] then None
    else
      var extended := Extended(unquote, PartsOf(value));
      if extended.Some? then extended.value else PlainName(PartsOf(value))
  }

  /** The header a server sends for a quoted name. */
  function Attachment(disposition: string, name: string): string {
    disposition + "; filename=\"" + name + "\""
  }

  lemma {:induction false} OpenInside(name: string, k: nat)
    requires '"' !in name && k <= |name|
    ensures OpenAfter(" filename=\"" + name[..k])
  {
    var s := " filename=\"" + name[..k];
    if k == 0 {
      assert s == " filename=\"";
      NotOpen(" filename=");
      assert s[..|s| - 1] == " filename=";
    } else {
      OpenInside(name, k - 1);
      assert s[..|s| - 1] == " filename=\"" + name[..k - 1] && s[|s| - 1] == name[k - 1];
      assert name[k - 1] in name;
    }
  }

  lemma {:induction false} NotOpen(s: string)
    requires '"' !in s
    ensures !OpenAfter(s)
  {
    if s != [] {
      assert s[|s| - 1] in s;
      NotOpen(s[..|s| - 1]);
    }
  }

  lemma QuotedIsParameter(name: string)
    requires '"' !in name
    ensures IsParameter(" filename=\"" + name + "\"")
  {
    var p, n := " filename=\"" + name + "\"", |" filename=\""|;
    forall k | 0 <= k < |p| && p[k] == ';' ensures OpenAfter(p[..k]) {
      assert k >= n;
      OpenInside(name, k - n);
      assert p[..k] == " filename=\"" + name[..k - n];
    }
  }

  lemma {:induction false} FirstEquals(s: string, k: nat)
    requires k < |s| && s[k] == '=' && '=' !in s[..k]
    ensures EqualsAt(s) == k
  {
    if k > 0 {
      assert s[0] == s[..k][0];
      assert s[1..][..k - 1] == s[..k][1..];
      FirstEquals(s[1..], k - 1);
    }
  }

  lemma {:induction false} NoEquals(s: string)
    requires '=' !in s
    ensures EqualsAt(s) == |s|
  {
    if s != [] { NoEquals(s[1..]); }
  }

  lemma StripQuoted(name: string)
    requires name != [] && '"' !in name
    ensures DropQuotesRight(DropQuotesLeft(Strip("\"" + name + "\""))) == name
  {
    var raw := "\"" + name + "\"";
    assert raw[0] == '"' == raw[|raw| - 1];
    assert Strip(raw) == raw;
    assert raw[1..] == name + "\"" && name[0] in name && name[|name| - 1] in name;
    assert DropQuotesLeft(raw) == name + "\"";
    assert (name + "\"")[..|name|] == name;
  }

  lemma QuotedParameter(name: string)
    requires name != [] && '"' !in name
    ensures NameOf(" filename=\"" + name + "\"") == "filename"
    ensures PlainName([" filename=\"" + name + "\""]) == Some(name)
  {
    var p, k := " filename=\"" + name + "\"", |" filename"|;
    assert p[..k] == " filename" && p[k] == '=' && p[k + 1..] == "\"" + name + "\"";
    FirstEquals(p, k);
    StripQuoted(name);
    LowerOfFilename();
  }

  lemma LowerOfFilename()
    ensures LowerAscii(Strip(" filename")) == "filename"
  {
    hide LowerAscii;
    assert " filename"[1..] == "filename";
    AlreadyLower("filename");
  }

  lemma {:induction false} AlreadyLower(s: string)
    requires forall i :: 0 <= i < |s| ==> !('A' <= s[i] <= 'Z')
    ensures LowerAscii(s) == s
  {
    if s != [] {
      AlreadyLower(s[..|s| - 1]);
      assert s == s[..|s| - 1] + [s[|s| - 1]];
    }
  }

  lemma AttachmentParts(disposition: string, name: string)
    requires '"' !in name && ';' !in disposition && '"' !in disposition
    ensures PartsOf(Attachment(disposition, name)) == [disposition, " filename=\"" + name + "\""]
  {
    var p := " filename=\"" + name + "\"";
    NotOpen(disposition);
    QuotedIsParameter(name);
    forall k | 0 <= k < |disposition| ensures disposition[k] != ';' { assert disposition[k] in disposition; }
    JoinOneMore([disposition], p);
    assert [disposition] + [p] == [disposition, p];
    assert disposition + ";" + p == Attachment(disposition, name);
    SplittingInvertsJoining([disposition, p]);
  }

  lemma OnlyAName(unquote: string -> string, first: string, second: string)
    requires NameOf(first) !in {"filename", "filename*"} && NameOf(second) == "filename"
    ensures Extended(unquote, [first, second]).None?
    ensures PlainName([first, second]) == PlainName([second])
  {
    assert |"filename"| != |"filename*"|;
    assert [first, second][1..] == [second] && [second][1..] == [];
    assert Extended(unquote, [second]).None?;
  }

  /** A quoted name comes back whole, semicolons, spaces and all. */
  lemma QuotedNameComesBack(unquote: string -> string, disposition: string, name: string)
    requires name != [] && '"' !in name
    requires ';' !in disposition && '"' !in disposition && '=' !in disposition
    requires LowerAscii(Strip(disposition)) !in {"filename", "filename*"}
    ensures FilenameFrom(unquote, Attachment(disposition, name)) == Some(name)
  {
    NoEquals(disposition);
    assert disposition[..|disposition|] == disposition;
    AttachmentParts(disposition, name);
    QuotedParameter(name);
    OnlyAName(unquote, disposition, " filename=\"" + name + "\"");
  }

  /** Lower case moves the letters A to Z by the distance of the two cases, and changes nothing else. */
  lemma {:induction false} LowerMeans(s: string, i: nat)
    requires i < |s|
    ensures |LowerAscii(s)| == |s|
    ensures LowerAscii(s)[i] == if 'A' <= s[i] <= 'Z' then (s[i] as int + ('a' as int - 'A' as int)) as char else s[i]
  {
    LowerLength(s[..|s| - 1]);
    if i < |s| - 1 { LowerMeans(s[..|s| - 1], i); }
  }

  lemma {:induction false} LowerLength(s: string)
    ensures |LowerAscii(s)| == |s|
  {
    if s != [] { LowerLength(s[..|s| - 1]); }
  }

  const EXTENDED := " filename*="

  /** A header that gives the extended form is read from it: what follows the encoding, in any case, decoded. */
  lemma ExtendedFormIsRead(unquote: string -> string, disposition: string, encoding: string, encoded: string)
    requires ';' !in disposition && '"' !in disposition && '=' !in disposition && LowerAscii(Strip(disposition)) != "filename*"
    requires ';' !in encoded && '"' !in encoded && encoded != [] && !IsSpace(encoded[|encoded| - 1])
    requires LowerAscii(encoding) == "utf-8''"
    ensures FilenameFrom(unquote, disposition + ";" + EXTENDED + encoding + encoded) == NonEmpty(unquote(encoded))
  {
    hide LowerAscii, Strip, PartsOf, IsEncoded, RawOf;
    var tail := EXTENDED + encoding + encoded;
    EncodingHasNoQuotes(encoding);
    assert disposition + ";" + tail == disposition + ";" + EXTENDED + encoding + encoded;
    DispositionFirst(disposition, tail);
    OnePart(tail);
    ExtendedRead(encoding, encoded);
    NotEncoded(disposition);
    assert [disposition] + [tail] == [disposition, tail];
    assert [disposition, tail][1..] == [tail];
    assert Extended(unquote, [tail]) == Some(NonEmpty(unquote(encoded)));
    assert Extended(unquote, [disposition, tail]) == Extended(unquote, [tail]);
    assert disposition + ";" + tail != [] && |disposition + ";" + tail| > 0;
  }

  lemma NotEncoded(disposition: string)
    requires '=' !in disposition && LowerAscii(Strip(disposition)) != "filename*"
    ensures !IsEncoded(disposition)
  {
    hide LowerAscii, Strip;
    NoEquals(disposition);
    assert disposition[..|disposition|] == disposition;
  }

  lemma EncodingHasNoQuotes(encoding: string)
    requires LowerAscii(encoding) == "utf-8''"
    ensures |encoding| == 7 && '"' !in encoding && ';' !in encoding && !IsSpace(encoding[0])
  {
    hide LowerAscii, IsSpace;
    LowerLength(encoding);
    LowerKeeps(encoding, '"');
    LowerKeeps(encoding, ';');
    LettersAreNoSpace(encoding);
  }

  lemma LettersAreNoSpace(s: string)
    requires s != [] && LowerAscii(s) != [] && LowerAscii(s)[0] == 'u'
    ensures !IsSpace(s[0])
  {
    LowerMeans(s, 0);
  }

  lemma LowerKeeps(s: string, c: char)
    requires !('A' <= c <= 'Z')
    ensures c in s ==> c in LowerAscii(s)
  {
    if i :| 0 <= i < |s| && s[i] == c {
      LowerMeans(s, i);
      assert LowerAscii(s)[i] == c;
    }
  }

  lemma OnePart(value: string)
    requires '"' !in value && ';' !in value
    ensures PartsOf(value) == [value]
  {
    ClosedParameter(value);
    RunParameter([], value);
    assert [] + [value] == [value];
  }

  lemma ExtendedRead(encoding: string, encoded: string)
    requires LowerAscii(encoding) == "utf-8''" && encoded != [] && !IsSpace(encoded[|encoded| - 1])
    ensures var p := EXTENDED + encoding + encoded;
            IsEncoded(p) && Strip(RawOf(p)) == encoding + encoded && |Strip(RawOf(p))| >= |ENCODING|
            && Strip(RawOf(p))[|ENCODING|..] == encoded
  {
    hide LowerAscii;
    var p, k := EXTENDED + encoding + encoded, |" filename*"|;
    EncodingHasNoQuotes(encoding);
    assert p[..k] == " filename*" && p[k] == '=' && p[k + 1..] == encoding + encoded;
    FirstEquals(p, k);
    LowerOfExtended();
    assert Strip(encoding + encoded) == encoding + encoded;
    LowerPrefix(encoding, encoded);
  }

  lemma LowerOfExtended()
    ensures LowerAscii(Strip(" filename*")) == "filename*"
  {
    hide LowerAscii;
    assert " filename*"[1..] == "filename*";
    AlreadyLower("filename*");
  }

  lemma {:induction false} LowerPrefix(a: string, b: string)
    ensures LowerAscii(a) <= LowerAscii(a + b)
  {
    if b == [] {
      assert a + b == a;
    } else {
      assert (a + b)[..|a + b| - 1] == a + b[..|b| - 1];
      LowerPrefix(a, b[..|b| - 1]);
    }
  }

  // ---- Names a server has to escape ----

  /** A backslash before each quote and each backslash, as a quoted string is written. */
  function Escaped(name: string): string {
    if name == [] then []
    else (if name[0] == '"' || name[0] == '\\' then ['\\', name[0]] else [name[0]]) + Escaped(name[1..])
  }

  predicate IsPlain(name: string) {
    '"' !in name && '\\' !in name
  }

  lemma {:induction false} EscapedLength(name: string)
    ensures |Escaped(name)| >= |name| && (|Escaped(name)| == |name| <==> IsPlain(name))
    ensures IsPlain(name) ==> Escaped(name) == name
    ensures '"' !in name ==> '"' !in Escaped(name)
    ensures name != [] ==> Escaped(name) != [] && Escaped(name)[0] != '"'
  {
    if name != [] {
      EscapedLength(name[1..]);
      assert name == [name[0]] + name[1..];
    }
  }

  /** Before its first quote an escaped name is longer than the name is. */
  lemma {:induction false} FirstQuoteMoves(name: string, q: nat)
    requires q < |name| && name[q] == '"' && '"' !in name[..q]
    ensures q < |Escaped(name)| && forall i :: 0 <= i <= q ==> Escaped(name)[i] != '"'
  {
    if q > 0 {
      assert name[0] in name[..q];
      assert name[..q] == [name[0]] + name[1..][..q - 1];
      FirstQuoteMoves(name[1..], q - 1);
    }
  }

  lemma {:induction false} FirstQuote(name: string) returns (q: nat)
    requires '"' in name
    ensures q < |name| && name[q] == '"' && '"' !in name[..q]
  {
    if name[0] == '"' {
      q := 0;
    } else {
      assert name == [name[0]] + name[1..];
      var p := FirstQuote(name[1..]);
      q := p + 1;
      assert name[..q] == [name[0]] + name[1..][..p];
    }
  }

  /** So a name holding a quote is never how its escaped form begins. */
  lemma EscapedBeginsOtherwise(name: string)
    requires name <= Escaped(name)
    ensures '"' !in name
  {
    assert forall i :: 0 <= i < |name| ==> name[i] == Escaped(name)[i];
    if '"' in name {
      var q := FirstQuote(name);
      FirstQuoteMoves(name, q);
    }
  }

  lemma {:induction false} PartsAfter(done: seq<string>, value: string)
    ensures Run(Splitting(done, [], false), value).parts == done + Run(START, value).parts
    ensures Run(Splitting(done, [], false), value).current == Run(START, value).current
    ensures Run(Splitting(done, [], false), value).quoted == Run(START, value).quoted
  {
    if value != [] { PartsAfter(done, value[..|value| - 1]); }
  }

  /** A header begins with its first parameter, which ends with it or before a semicolon. */
  lemma FirstPart(value: string)
    ensures var first := PartsOf(value)[0];
            first <= value && (first == value || value[|first|] == ';')
  {
    JoiningInvertsSplitting(value);
    var parts := PartsOf(value);
    if |parts| > 1 { assert Join(";", parts) == parts[0] + ";" + Join(";", parts[1..]); }
  }

  const OPENING := " filename=\""

  /** Whatever is written between the quotes, the parameter is read as some beginning of it. */
  lemma NameIsABeginning(disposition: string, written: string)
    requires ';' !in disposition && '"' !in disposition && '=' !in disposition
    requires LowerAscii(Strip(disposition)) != "filename" && written != [] && written[0] != '"'
    ensures var name := PlainName(PartsOf(Attachment(disposition, written)));
            name.Some? ==> name.value <= written
  {
    hide LowerAscii, Strip, EqualsAt, DropQuotesLeft, DropQuotesRight, OpenAfter, IsParameter;
    var tail := OPENING + written + "\"";
    DispositionFirst(disposition, tail);
    assert disposition + ";" + tail == Attachment(disposition, written);
    var parts := PartsOf(tail);
    NotAName(disposition, parts);
    FirstPart(tail);
    assert tail[..|OPENING|] == OPENING;
    assert forall k :: 0 <= k < |OPENING| ==> tail[k] == OPENING[k] && OPENING[k] != ';';
    assert |parts[0]| >= |OPENING|;
    var rest := parts[0][|OPENING|..];
    assert parts[0] == OPENING + rest && rest <= written + "\"";
    NameRead(rest, written);
    FirstIsTheName(parts, rest);
  }

  lemma DispositionFirst(disposition: string, tail: string)
    requires ';' !in disposition && '"' !in disposition
    ensures PartsOf(disposition + ";" + tail) == [disposition] + PartsOf(tail)
  {
    NotOpen(disposition);
    forall k | 0 <= k < |disposition| ensures disposition[k] != ';' { assert disposition[k] in disposition; }
    RunSeparator([], disposition);
    assert [] + [disposition] == [disposition];
    RunSum(START, disposition + ";", tail);
    PartsAfter([disposition], tail);
  }

  lemma NotAName(disposition: string, parts: seq<string>)
    requires '=' !in disposition && LowerAscii(Strip(disposition)) != "filename"
    ensures PlainName([disposition] + parts) == PlainName(parts)
  {
    NoEquals(disposition);
    assert disposition[..|disposition|] == disposition;
    assert ([disposition] + parts)[1..] == parts;
  }

  lemma FirstIsTheName(parts: seq<string>, rest: string)
    requires parts != [] && parts[0] == OPENING + rest
    ensures PlainName(parts) == NonEmpty(DropQuotesRight(DropQuotesLeft(Strip("\"" + rest))))
  {
    hide Strip, LowerAscii, DropQuotesLeft, DropQuotesRight;
    var p, k := parts[0], |" filename"|;
    assert p[..k] == " filename" && p[k] == '=' && p[k + 1..] == "\"" + rest;
    FirstEquals(p, k);
    LowerOfFilename();
  }

  lemma {:induction false} DropRightShortens(s: string)
    ensures DropQuotesRight(s) <= s
    ensures DropQuotesRight(s) != [] ==> DropQuotesRight(s)[|DropQuotesRight(s)| - 1] != '"'
  {
    if s != [] && s[|s| - 1] == '"' { DropRightShortens(s[..|s| - 1]); }
  }

  lemma {:induction false} StripRightShortens(s: string)
    ensures StripRight(s) <= s
  {
    if s != [] && IsSpace(s[|s| - 1]) { StripRightShortens(s[..|s| - 1]); }
  }

  /** Stripped of its quotes, a beginning of what was written and its closing quote is one of what was written. */
  lemma NameRead(rest: string, written: string)
    requires rest <= written + "\"" && written != [] && written[0] != '"'
    ensures DropQuotesRight(DropQuotesLeft(Strip("\"" + rest))) <= written
  {
    var raw := "\"" + rest;
    assert StripLeft(raw) == raw;
    StripRightShortens(raw);
    var kept := StripRight(raw);
    StripRightKeepsFirst(raw);
    var inner := kept[1..];
    assert inner <= rest by { assert raw[1..] == rest; }
    assert DropQuotesLeft(kept) == inner by {
      if inner != [] { assert inner[0] == rest[0] == (written + "\"")[0]; }
      assert DropQuotesLeft(inner) == inner;
    }
    DropRightShortens(inner);
    assert DropQuotesRight(inner) <= written + "\"" && (written + "\"")[|written|] == '"';
  }

  lemma {:induction false} StripRightKeepsFirst(s: string)
    requires s != [] && !IsSpace(s[0])
    ensures StripRight(s) != [] && StripRight(s)[0] == s[0]
  {
    if IsSpace(s[|s| - 1]) { StripRightKeepsFirst(s[..|s| - 1]); }
  }

  /** An escaped name comes back exactly when there was nothing to escape: quotes are counted and stripped, and
      backslashes are neither counted nor removed. */
  lemma EscapedNameComesBackIff(disposition: string, name: string)
    requires name != [] && ';' !in disposition && '"' !in disposition && '=' !in disposition
    requires LowerAscii(Strip(disposition)) !in {"filename", "filename*"}
    ensures PlainName(PartsOf(Attachment(disposition, Escaped(name)))) == Some(name) <==> IsPlain(name)
  {
    hide LowerAscii, Strip, PlainName, PartsOf, Attachment;
    EscapedLength(name);
    if '"' in name {
      NameIsABeginning(disposition, Escaped(name));
      if name <= Escaped(name) { EscapedBeginsOtherwise(name); }
    } else {
      PlainNameComesBack(disposition, Escaped(name));
    }
  }

  lemma PlainNameComesBack(disposition: string, name: string)
    requires name != [] && '"' !in name && ';' !in disposition && '"' !in disposition && '=' !in disposition
    requires LowerAscii(Strip(disposition)) !in {"filename", "filename*"}
    ensures PlainName(PartsOf(Attachment(disposition, name))) == Some(name)
  {
    hide LowerAscii, Strip;
    AttachmentParts(disposition, name);
    QuotedParameter(name);
    NotAName(disposition, [" filename=\"" + name + "\""]);
    assert [disposition] + [" filename=\"" + name + "\""] == [disposition, " filename=\"" + name + "\""];
  }

  lemma {:induction false} NothingEncoded(parts: seq<string>)
    ensures Extended((s: string) => "", parts) in {None, Some(None)}
  {
    if parts != [] { NothingEncoded(parts[1..]); }
  }

  /** And through the whole function: it comes back under every decoding of the extended form exactly then. */
  lemma FilenameComesBackIff(disposition: string, name: string)
    requires name != [] && ';' !in disposition && '"' !in disposition && '=' !in disposition
    requires LowerAscii(Strip(disposition)) !in {"filename", "filename*"}
    ensures (forall unquote :: FilenameFrom(unquote, Attachment(disposition, Escaped(name))) == Some(name)) <==> IsPlain(name)
  {
    hide LowerAscii, Strip, PlainName, PartsOf, Extended;
    EscapedNameComesBackIff(disposition, name);
    EscapedLength(name);
    if IsPlain(name) {
      forall unquote ensures FilenameFrom(unquote, Attachment(disposition, name)) == Some(name) {
        QuotedNameComesBack(unquote, disposition, name);
      }
    } else {
      NothingEncoded(PartsOf(Attachment(disposition, Escaped(name))));
      assert FilenameFrom((s: string) => "", Attachment(disposition, Escaped(name))) != Some(name);
    }
  }

  /** For example the name a";b is cut at its semicolon and comes back as a and a backslash. */
  lemma QuotedSemicolonIsCut(unquote: string -> string)
    ensures Escaped("a\";b") == "a\\\";b"
    ensures FilenameFrom(unquote, Attachment("attachment", "a\\\";b")) == Some("a\\")
  {
    hide NameOf, PartsOf, PlainName;
    CutInTwo();
    NamesOfParts();
    ReadAsBackslash();
    EscapedSample();
    var parts := ["attachment", OPENING + "a\\\"", "b\""];
    assert parts[1..] == [OPENING + "a\\\"", "b\""] && parts[2..] == ["b\""] && parts[1..][1..] == ["b\""];
    var none: seq<string> := [];
    assert ["b\""][1..] == none && Extended(unquote, none).None?;
    assert Extended(unquote, ["b\""]).None?;
    assert Extended(unquote, parts[1..]).None?;
    NotAName("attachment", parts[1..]);
    assert ["attachment"] + parts[1..] == parts;
  }

  lemma EscapedSample()
    ensures Escaped("a\";b") == "a\\\";b"
  {
    EscapedLength(";b");
    assert "a\";b"[1..] == "\";b" && "\";b"[1..] == ";b";
    assert Escaped("\";b") == "\\\"" + Escaped(";b");
  }

  lemma CutInTwo()
    ensures PartsOf(Attachment("attachment", "a\\\";b")) == ["attachment", OPENING + "a\\\"", "b\""]
  {
    var parts := ["attachment", OPENING + "a\\\"", "b\""];
    hide IsParameter, OpenAfter, Join, AreParameters, PartsOf;
    SampleAreParameters();
    SampleJoined();
    SplittingInvertsJoining(parts);
  }

  lemma SampleAreParameters()
    ensures AreParameters(["attachment", OPENING + "a\\\"", "b\""])
  {
    ClosedParameter("attachment");
    TwoQuotes(" filename=", "a\\");
    assert IsParameter("b\"");
    hide IsParameter, OpenAfter;
    assert OPENING + "a\\\"" == " filename=" + "\"" + "a\\" + "\"";
  }

  lemma SampleJoined()
    ensures Join(";", ["attachment", OPENING + "a\\\"", "b\""]) == Attachment("attachment", "a\\\";b")
  {
    var one, two := ["attachment"], ["attachment", OPENING + "a\\\""];
    JoinOneMore(one, OPENING + "a\\\"");
    JoinOneMore(two, "b\"");
    hide Join;
    assert one + [OPENING + "a\\\""] == two && two + ["b\""] == ["attachment", OPENING + "a\\\"", "b\""];
    assert Join(";", one) == "attachment" by { JoinOne("attachment"); }
    assert "attachment" + ";" + (OPENING + "a\\\"") + ";" + "b\"" == Attachment("attachment", "a\\\";b");
  }

  lemma JoinOne(part: string)
    ensures Join(";", [part]) == part
  {
  }

  lemma ClosedParameter(s: string)
    requires '"' !in s && ';' !in s
    ensures IsParameter(s) && !OpenAfter(s)
  {
    NotOpen(s);
    forall k | 0 <= k < |s| ensures s[k] != ';' { assert s[k] in s; }
  }

  lemma TwoQuotes(before: string, inside: string)
    requires '"' !in before && ';' !in before && '"' !in inside && ';' !in inside
    ensures IsParameter(before + "\"" + inside + "\"") && !OpenAfter(before + "\"" + inside + "\"")
  {
    var p := before + "\"" + inside;
    NotOpen(before);
    OneMoreQuote(before);
    StaysOpen(before + "\"", inside);
    OneMoreQuote(p);
    hide OpenAfter;
    assert ';' !in p + "\"";
    forall k | 0 <= k < |p + "\""| ensures (p + "\"")[k] != ';' { assert (p + "\"")[k] in p + "\""; }
  }

  lemma OneMoreQuote(s: string)
    ensures OpenAfter(s + "\"") == !OpenAfter(s)
  {
    assert (s + "\"")[..|s|] == s;
  }

  lemma {:induction false} StaysOpen(before: string, inside: string)
    requires OpenAfter(before) && '"' !in inside
    ensures OpenAfter(before + inside)
  {
    if inside == [] {
      assert before + inside == before;
    } else {
      assert (before + inside)[..|before + inside| - 1] == before + inside[..|inside| - 1];
      assert inside[|inside| - 1] in inside;
      StaysOpen(before, inside[..|inside| - 1]);
    }
  }

  lemma NamesOfParts()
    ensures NameOf("attachment") == "attachment" && NameOf(OPENING + "a\\\"") == "filename" && NameOf("b\"") == "b\""
    ensures LowerAscii(Strip("attachment")) == "attachment"
    ensures |"attachment"| != |"filename"| && |"attachment"| != |"filename*"|
    ensures |"b\""| != |"filename"| && |"b\""| != |"filename*"| && |"filename"| != |"filename*"|
  {
    hide LowerAscii, Strip, NameOf;
    AttachmentIsItsName();
    LowerWord("b\"");
    NameBeforeEquals("a\\\"");
  }

  lemma AttachmentIsItsName()
    ensures NameOf("attachment") == "attachment" && LowerAscii(Strip("attachment")) == "attachment"
  {
    hide LowerAscii, Strip, NameOf;
    LowerWord("attachment");
  }

  lemma NameBeforeEquals(rest: string)
    ensures NameOf(OPENING + rest) == "filename"
  {
    hide LowerAscii, Strip;
    var p, k := OPENING + rest, |" filename"|;
    assert p[..k] == " filename" && p[k] == '=';
    FirstEquals(p, k);
    LowerOfFilename();
  }

  lemma LowerWord(word: string)
    requires word != [] && !IsSpace(word[0]) && !IsSpace(word[|word| - 1]) && '=' !in word
    requires forall i :: 0 <= i < |word| ==> !('A' <= word[i] <= 'Z')
    ensures NameOf(word) == word && LowerAscii(Strip(word)) == word
  {
    hide LowerAscii;
    NoEquals(word);
    assert word[..|word|] == word && Strip(word) == word;
    AlreadyLower(word);
  }

  lemma ReadAsBackslash()
    ensures PlainName([OPENING + "a\\\"", "b\""]) == Some("a\\")
  {
    hide PlainName, LowerAscii;
    FirstIsTheName([OPENING + "a\\\"", "b\""], "a\\\"");
    StripQuoted("a\\");
    assert "\"" + "a\\" + "\"" == "\"" + "a\\\"";
  }
}
