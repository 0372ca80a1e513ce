/** The canonical forms that decide which references and which item numbers are the same. */
module Keys {
  import opened Sequences
  import opened Text

  /** The maximal runs of characters that are not separators: with whitespace, Python's `str.split()`. */
  function Words(separates: char -> bool, s: string): seq<string> {
    if s == [] then []
    else if separates(s[0]) then Words(separates, s[1..])
    else if |s| == 1 || separates(s[1]) then [[s[0]]] + Words(separates, s[1..])
    else
      var rest := Words(separates, s[1..]);
      if rest == [] then [[s[0]]] else [[s[0]] + rest[0]] + rest[1..]
  }

  /** Upper-casing maps each character on its own, possibly to several characters. */
  function Upper(up: char -> string, s: string): string {
    if s == [] then [] else up(s[0]) + Upper(up, s[1..])
  }

  function UpperAll(up: char -> string, words: seq<string>): seq<string> {
    if words == [] then [] else [Upper(up, words[0])] + UpperAll(up, words[1..])
  }

  /** The characters an item number is cut at. */
  predicate IsSeparator(c: char) {
    IsSpace(c) || c == '-' || c == '/' || c == '_' || c == '.'
  }

  predicate IsFolded(c: char) {
    IsSpace(c) || c == '-' || c == '/' || c == '_'
  }

  /** What both canonical forms need of a case mapping: nothing disappears, upper case is final, and the
      separators and the digit zero are caseless. Unicode's upper-case mapping is one. */
  ghost predicate CaseMap(up: char -> string) {
    && (forall c :: up(c) != [])
    && (forall c, d :: d in up(c) ==> up(d) == [d])
    && (forall c :: IsSeparator(c) || c == '0' ==> up(c) == [c])
    && (forall c, d :: d in up(c) && (IsSeparator(d) || d == '0') ==> c == d)
  }

  function Ascii(c: char): string {
    if 'a' <= c <= 'z' then [(c as int - 32) as char] else [c]
  }

  /** The ASCII mapping qualifies. */
  lemma AsciiIsACaseMap()
    ensures CaseMap(Ascii)
  {
  }

  // ---- Words ----

  ghost predicate IsWord(separates: char -> bool, w: string) {
    w != [] && forall i :: 0 <= i < |w| ==> !separates(w[i])
  }

  ghost predicate AreWords(separates: char -> bool, words: seq<string>) {
    forall i :: 0 <= i < |words| ==> IsWord(separates, words[i])
  }

  lemma {:induction false} WordsAreWords(separates: char -> bool, s: string)
    ensures AreWords(separates, Words(separates, s))
    ensures s != [] && !separates(s[0]) ==> Words(separates, s) != []
  {
    if s != [] { WordsAreWords(separates, s[1..]); }
  }

  /** A word in front of a separator, or of nothing, is a word of its own. */
  lemma {:induction false} WordApart(separates: char -> bool, w: string, t: string)
    requires IsWord(separates, w) && (t == [] || separates(t[0]))
    ensures Words(separates, w + t) == [w] + Words(separates, t)
  {
    OffTheFront(w, t);
    if |w| == 1 {
      assert w == [w[0]];
    } else {
      WordApart(separates, w[1..], t);
      assert [w[0]] + w[1..] == w;
    }
  }

  lemma OffTheFront(w: string, t: string)
    requires w != []
    ensures (w + t)[0] == w[0] && (w + t)[1..] == w[1..] + t
    ensures |w| > 1 ==> (w + t)[1] == w[1]
    ensures |w| == 1 ==> w[1..] + t == t
  {
  }

  /** Otherwise it is the beginning of the first word. */
  lemma {:induction false} WordGrows(separates: char -> bool, w: string, t: string)
    requires IsWord(separates, w) && t != [] && !separates(t[0])
    ensures Words(separates, t) != []
    ensures Words(separates, w + t) == [w + Words(separates, t)[0]] + Words(separates, t)[1..]
  {
    var rest := Words(separates, t);
    OffTheFront(w, t);
    WordsAreWords(separates, t);
    if |w| == 1 {
      assert w == [w[0]];
    } else {
      WordGrows(separates, w[1..], t);
      assert [w[0]] + (w[1..] + rest[0]) == w + rest[0];
    }
  }

  lemma {:induction false} WordsOfJoin(separates: char -> bool, c: char, words: seq<string>)
    requires separates(c) && AreWords(separates, words)
    ensures Words(separates, Join([c], words)) == words
  {
    if words != [] {
      var first := words[0];
      assert words == [first] + words[1..];
      WordsOfJoin(separates, c, words[1..]);
      if |words| == 1 {
        WordApart(separates, first, []);
        assert first + [] == first;
      } else {
        var rest := [c] + Join([c], words[1..]);
        WordApart(separates, first, rest);
        assert rest[1..] == Join([c], words[1..]);
        assert first + [c] + Join([c], words[1..]) == first + rest;
      }
    }
  }

  /** Joined with a separator, words can be told apart again. */
  lemma JoinInjective(separates: char -> bool, c: char, a: seq<string>, b: seq<string>)
    requires separates(c) && AreWords(separates, a) && AreWords(separates, b)
    ensures Join([c], a) == Join([c], b) <==> a == b
  {
    WordsOfJoin(separates, c, a);
    WordsOfJoin(separates, c, b);
  }

  lemma {:induction false} WordsAgree(one: char -> bool, other: char -> bool, s: string)
    requires forall i :: 0 <= i < |s| ==> one(s[i]) == other(s[i])
    ensures Words(one, s) == Words(other, s)
  {
    if s != [] { WordsAgree(one, other, s[1..]); }
  }

  lemma {:induction false} WordsIgnoreLeading(separates: char -> bool, s: string, k: nat)
    requires k <= |s| && forall i :: 0 <= i < k ==> separates(s[i])
    ensures Words(separates, s) == Words(separates, s[k..])
  {
    if k > 0 { WordsIgnoreLeading(separates, s[1..], k - 1); assert s[1..][k - 1..] == s[k..]; }
  }

  lemma {:induction false} WordsIgnoreTrailing(separates: char -> bool, s: string, k: nat)
    requires k <= |s| && forall i :: k <= i < |s| ==> separates(s[i])
    ensures Words(separates, s) == Words(separates, s[..k])
  {
    if s == [] {
    } else if k == 0 {
      WordsIgnoreTrailing(separates, s[1..], 0);
    } else {
      WordsIgnoreTrailing(separates, s[1..], k - 1);
      assert s[..k][1..] == s[1..][..k - 1] && s[..k][0] == s[0];
      if k == 1 { assert |s| == 1 || separates(s[1]); }
    }
  }

  // ---- Case ----

  lemma {:induction false} UpperOfWord(up: char -> string, separates: char -> bool, w: string)
    requires CaseMap(up) && IsWord(separates, w) && (forall c :: separates(c) ==> IsSeparator(c))
    ensures IsWord(separates, Upper(up, w))
  {
    var first := up(w[0]);
    forall i | 0 <= i < |first| ensures !separates(first[i]) { assert first[i] in first; }
    if |w| > 1 { UpperOfWord(up, separates, w[1..]); }
  }

  lemma {:induction false} UpperTwice(up: char -> string, s: string)
    requires CaseMap(up)
    ensures forall d :: d in Upper(up, s) ==> up(d) == [d]
  {
    if s != [] { UpperTwice(up, s[1..]); }
  }

  lemma {:induction false} UpperFixed(up: char -> string, s: string)
    requires forall d :: d in s ==> up(d) == [d]
    ensures Upper(up, s) == s
  {
    if s != [] {
      assert s[0] in s;
      UpperFixed(up, s[1..]);
    }
  }

  /** Upper-casing changes words, not where they are cut. */
  lemma {:induction false} WordsOfUpper(up: char -> string, separates: char -> bool, s: string)
    requires CaseMap(up) && (forall c :: separates(c) ==> IsSeparator(c))
    ensures Words(separates, Upper(up, s)) == UpperAll(up, Words(separates, s))
  {
    if s != [] {
      var rest := Upper(up, s[1..]);
      WordsOfUpper(up, separates, s[1..]);
      if separates(s[0]) {
        assert up(s[0]) + rest == [s[0]] + rest;
      } else {
        WordsAreWords(separates, s[1..]);
        CharIsWord(up, separates, s[0]);
        HeadOfUpper(up, separates, s[1..]);
        Singleton(up, s[0]);
        if |s| > 1 && !separates(s[1]) {
          WordGrows(separates, up(s[0]), rest);
          FirstGrows(up, s[0], Words(separates, s[1..]));
        } else {
          WordApart(separates, up(s[0]), rest);
        }
      }
    }
  }

  lemma FirstGrows(up: char -> string, c: char, words: seq<string>)
    requires words != []
    ensures UpperAll(up, [[c] + words[0]] + words[1..]) == [up(c) + UpperAll(up, words)[0]] + UpperAll(up, words)[1..]
  {
    assert ([c] + words[0])[1..] == words[0];
    assert ([[c] + words[0]] + words[1..])[1..] == words[1..];
  }

  lemma Singleton(up: char -> string, c: char)
    ensures Upper(up, [c]) == up(c)
  {
    assert up(c) + [] == up(c);
  }

  lemma CharIsWord(up: char -> string, separates: char -> bool, c: char)
    requires CaseMap(up) && !separates(c) && (forall d :: separates(d) ==> IsSeparator(d))
    ensures IsWord(separates, up(c))
  {
    var u := up(c);
    forall i | 0 <= i < |u| ensures !separates(u[i]) { assert u[i] in u; }
  }

  lemma HeadOfUpper(up: char -> string, separates: char -> bool, s: string)
    requires CaseMap(up) && (forall d :: separates(d) ==> IsSeparator(d))
    ensures s == [] <==> Upper(up, s) == []
    ensures s != [] ==> (separates(Upper(up, s)[0]) <==> separates(s[0]))
  {
    if s != [] {
      assert Upper(up, s)[0] == up(s[0])[0];
      assert up(s[0])[0] in up(s[0]);
    }
  }

  lemma {:induction false} UpperAllAt(up: char -> string, words: seq<string>)
    ensures |UpperAll(up, words)| == |words|
    ensures forall i :: 0 <= i < |words| ==> UpperAll(up, words)[i] == Upper(up, words[i])
  {
    if words != [] { UpperAllAt(up, words[1..]); }
  }

  // ---- Project references ----

  function NormaliseProjectKey(up: char -> string, literal: string): string {
    Upper(up, Join(" ", Words(IsSpace, literal)))
  }

  lemma {:induction false} UpperOfJoin(up: char -> string, words: seq<string>)
    requires up(' ') == " "
    ensures Upper(up, Join(" ", words)) == Join(" ", UpperAll(up, words))
  {
    if |words| == 1 {
      assert UpperAll(up, words) == [Upper(up, words[0])];
    } else if words != [] {
      UpperOfJoin(up, words[1..]);
      UpperAllAt(up, words);
      UpperOfSum(up, words[0] + " ", Join(" ", words[1..]));
      UpperOfSum(up, words[0], " ");
      Singleton(up, ' ');
      assert UpperAll(up, words)[1..] == UpperAll(up, words[1..]);
    }
  }

  lemma {:induction false} UpperOfSum(up: char -> string, a: string, b: string)
    ensures Upper(up, a + b) == Upper(up, a) + Upper(up, b)
  {
    if a == [] {
      assert a + b == b;
    } else {
      UpperOfSum(up, a[1..], b);
      OffTheFront(a, b);
      Associative(up(a[0]), Upper(up, a[1..]), Upper(up, b));
    }
  }

  /** Two references are one key exactly when they are the same words in the same order, up to case:
      spacing and case are normalised, and nothing else. */
  lemma ProjectKeyIff(up: char -> string, a: string, b: string)
    requires CaseMap(up)
    ensures NormaliseProjectKey(up, a) == NormaliseProjectKey(up, b) <==>
              UpperAll(up, Words(IsSpace, a)) == UpperAll(up, Words(IsSpace, b))
  {
    UpperOfJoin(up, Words(IsSpace, a));
    UpperOfJoin(up, Words(IsSpace, b));
    UpperWordsAreWords(up, a);
    UpperWordsAreWords(up, b);
    JoinInjective(IsSpace, ' ', UpperAll(up, Words(IsSpace, a)), UpperAll(up, Words(IsSpace, b)));
  }

  lemma UpperWordsAreWords(up: char -> string, s: string)
    requires CaseMap(up)
    ensures AreWords(IsSpace, UpperAll(up, Words(IsSpace, s)))
  {
    var words := Words(IsSpace, s);
    WordsAreWords(IsSpace, s);
    UpperAllAt(up, words);
    forall i | 0 <= i < |words| ensures IsWord(IsSpace, UpperAll(up, words)[i]) {
      UpperOfWord(up, IsSpace, words[i]);
    }
  }

  lemma ProjectKeyIdempotent(up: char -> string, literal: string)
    requires CaseMap(up)
    ensures NormaliseProjectKey(up, NormaliseProjectKey(up, literal)) == NormaliseProjectKey(up, literal)
  {
    var words := UpperAll(up, Words(IsSpace, literal));
    UpperOfJoin(up, Words(IsSpace, literal));
    UpperWordsAreWords(up, literal);
    WordsOfJoin(IsSpace, ' ', words);
    UpperTwice(up, Join(" ", Words(IsSpace, literal)));
    UpperFixed(up, NormaliseProjectKey(up, literal));
  }

  // ---- Item numbers ----

  /** Every run of whitespace, hyphens, slashes and underscores becomes one dot. */
  function Fold(s: string): string {
    if s == [] then []
    else if !IsFolded(s[0]) then [s[0]] + Fold(s[1..])
    else if |s| > 1 && IsFolded(s[1]) then Fold(s[1..])
    else "." + Fold(s[1..])
  }

  function TrimZeros(segment: string): string {
    if segment != [] && segment[0] == '0' then TrimZeros(segment[1..]) else segment
  }

  function Segment(segment: string): string {
    if TrimZeros(segment) == [] then "0" else TrimZeros(segment)
  }

  function SegmentAll(segments: seq<string>): seq<string> {
    if segments == [] then [] else [Segment(segments[0])] + SegmentAll(segments[1..])
  }

  predicate IsDot(c: char) {
    c == '.'
  }

  /** The segments of `split(".")` that are not empty are the words between dots. */
  function NormaliseItem(up: char -> string, identifier: string): string {
    Join(".", SegmentAll(Words(IsDot, Upper(up, Fold(Strip(identifier))))))
  }

  /** The segments an item number is compared by: cut at any separator, in upper case, without leading
      zeros. */
  function Segments(up: char -> string, identifier: string): seq<string> {
    SegmentAll(UpperAll(up, Words(IsSeparator, identifier)))
  }

  lemma {:induction false} WordsOfFold(s: string)
    ensures Words(IsSeparator, Fold(s)) == Words(IsSeparator, s)
    ensures forall i :: 0 <= i < |Fold(s)| ==> !IsFolded(Fold(s)[i])
    ensures s == [] <==> Fold(s) == []
    ensures s != [] ==> (IsSeparator(Fold(s)[0]) <==> IsSeparator(s[0]))
  {
    if s != [] {
      WordsOfFold(s[1..]);
      if !IsFolded(s[0]) {
        assert Fold(s)[1..] == Fold(s[1..]);
      } else if !(|s| > 1 && IsFolded(s[1])) {
        assert Fold(s)[1..] == Fold(s[1..]);
      }
    }
  }

  lemma WordsOfStrip(s: string)
    ensures Words(IsSeparator, Strip(s)) == Words(IsSeparator, s)
  {
    StripLeftDecomposes(s);
    StripRightDecomposes(StripLeft(s));
    var k := |s| - |StripLeft(s)|;
    forall i | 0 <= i < k ensures IsSeparator(s[i]) { assert s[i] == s[..k][i]; }
    WordsIgnoreLeading(IsSeparator, s, k);
    var t := StripLeft(s);
    forall i | |Strip(s)| <= i < |t| ensures IsSeparator(t[i]) { assert t[i] == t[|Strip(s)|..][i - |Strip(s)|]; }
    WordsIgnoreTrailing(IsSeparator, t, |Strip(s)|);
  }

  lemma {:induction false} UpperKeepsUnfolded(up: char -> string, s: string)
    requires CaseMap(up) && forall i :: 0 <= i < |s| ==> !IsFolded(s[i])
    ensures forall i :: 0 <= i < |Upper(up, s)| ==> !IsFolded(Upper(up, s)[i])
  {
    if s != [] {
      UpperKeepsUnfolded(up, s[1..]);
      var u := up(s[0]);
      forall i | 0 <= i < |u| ensures !IsFolded(u[i]) {
        var c, d := s[0], u[i];
        assert d in up(c) && !IsFolded(c);
        assert IsSeparator(d) ==> c == d;
      }
    }
  }

  /** The steps of the code cut an item number exactly at its separators. */
  lemma ItemIsItsSegments(up: char -> string, identifier: string)
    requires CaseMap(up)
    ensures NormaliseItem(up, identifier) == Join(".", Segments(up, identifier))
  {
    var folded := Fold(Strip(identifier));
    WordsOfStrip(identifier);
    WordsOfFold(Strip(identifier));
    UpperKeepsUnfolded(up, folded);
    WordsAgree(IsDot, IsSeparator, Upper(up, folded));
    WordsOfUpper(up, IsSeparator, folded);
  }

  lemma {:induction false} SegmentAllAt(segments: seq<string>)
    ensures |SegmentAll(segments)| == |segments|
    ensures forall i :: 0 <= i < |segments| ==> SegmentAll(segments)[i] == Segment(segments[i])
  {
    if segments != [] { SegmentAllAt(segments[1..]); }
  }

  lemma {:induction false} TrimZerosTrims(w: string)
    ensures forall i :: 0 <= i < |TrimZeros(w)| ==> TrimZeros(w)[i] in w
    ensures TrimZeros(w) != [] ==> TrimZeros(w)[0] != '0'
  {
    if w != [] && w[0] == '0' { TrimZerosTrims(w[1..]); }
  }

  lemma SegmentOf(up: char -> string, w: string)
    requires CaseMap(up) && IsWord(IsSeparator, w)
    ensures var segment := Segment(Upper(up, w));
            IsWord(IsSeparator, segment) && Segment(Upper(up, segment)) == segment
  {
    var upper := Upper(up, w);
    UpperOfWord(up, IsSeparator, w);
    UpperTwice(up, w);
    TrimZerosTrims(upper);
    var segment := Segment(upper);
    forall i | 0 <= i < |segment| ensures !IsSeparator(segment[i]) && up(segment[i]) == [segment[i]] {
      if TrimZeros(upper) != [] { assert segment[i] in upper; }
    }
    UpperFixed(up, segment);
    assert Segment("0") == "0" by { assert TrimZeros("0") == TrimZeros("0"[1..]); }
  }

  lemma SegmentsAreWords(up: char -> string, identifier: string)
    requires CaseMap(up)
    ensures AreWords(IsSeparator, Segments(up, identifier))
    ensures forall i :: 0 <= i < |Segments(up, identifier)| ==>
              Segment(Upper(up, Segments(up, identifier)[i])) == Segments(up, identifier)[i]
  {
    var words := Words(IsSeparator, identifier);
    WordsAreWords(IsSeparator, identifier);
    UpperAllAt(up, words);
    SegmentAllAt(UpperAll(up, words));
    forall i | 0 <= i < |words|
      ensures var segment := Segments(up, identifier)[i];
              IsWord(IsSeparator, segment) && Segment(Upper(up, segment)) == segment
    {
      SegmentOf(up, words[i]);
    }
  }

  /** Two item numbers are one item exactly when they have the same segments: separators, case and leading
      zeros do not tell items apart, and everything else does. */
  lemma SameItemIff(up: char -> string, a: string, b: string)
    requires CaseMap(up)
    ensures NormaliseItem(up, a) == NormaliseItem(up, b) <==> Segments(up, a) == Segments(up, b)
  {
    ItemIsItsSegments(up, a);
    ItemIsItsSegments(up, b);
    SegmentsAreWords(up, a);
    SegmentsAreWords(up, b);
    JoinInjective(IsSeparator, '.', Segments(up, a), Segments(up, b));
  }

  /** A leading zero makes no difference. */
  lemma LeadingZeroIsIgnored(up: char -> string, number: string)
    requires CaseMap(up) && IsWord(IsSeparator, number)
    ensures NormaliseItem(up, "0" + number) == NormaliseItem(up, number)
  {
    OneSegment(up, number);
    OneSegment(up, "0" + number);
    assert Upper(up, "0" + number) == "0" + Upper(up, number) by { assert ("0" + number)[1..] == number; }
    assert ("0" + Upper(up, number))[1..] == Upper(up, number);
    ItemIsItsSegments(up, number);
    ItemIsItsSegments(up, "0" + number);
  }

  lemma OneSegment(up: char -> string, word: string)
    requires IsWord(IsSeparator, word)
    ensures Segments(up, word) == [Segment(Upper(up, word))]
  {
    WordsOfJoin(IsSeparator, '.', [word]);
    assert Join(['.'], [word]) == word;
    assert Words(IsSeparator, word) == [word];
    var upper := [Upper(up, word)];
    assert [word][1..] == [] && UpperAll(up, []) == [] && UpperAll(up, [word]) == upper;
    assert upper[1..] == [] && SegmentAll([]) == [] && SegmentAll(upper) == [Segment(Upper(up, word))];
  }

  lemma NormaliseItemIdempotent(up: char -> string, identifier: string)
    requires CaseMap(up)
    ensures NormaliseItem(up, NormaliseItem(up, identifier)) == NormaliseItem(up, identifier)
  {
    var segments := Segments(up, identifier);
    var item := NormaliseItem(up, identifier);
    ItemIsItsSegments(up, identifier);
    SegmentsAreWords(up, identifier);
    WordsOfJoin(IsSeparator, '.', segments);
    ItemIsItsSegments(up, item);
    UpperAllAt(up, segments);
    SegmentAllAt(UpperAll(up, segments));
    assert SegmentAll(UpperAll(up, segments)) == segments;
  }
}
