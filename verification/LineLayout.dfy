/** The second bill layout: one priced row per line, anchored on the row's own shape. */
module LineLayout {
  import opened Options
  import opened Decimals
  import opened RowArithmetic
  import opened Sequences
  import opened Text
  import opened BillReader

  datatype RowMatch = RowMatch(head: string, unit: string, figures: Literals)

  datatype Literals = Literals(quantity: string, rate: string, amount: string)

  datatype ItemNumber = ItemNumber(number: string, remainder: string)

  /** What the reader's patterns say of one stripped line. Every result holds for any patterns. */
  datatype RowGrammar = RowGrammar(
    pageMarker: string -> bool,
    sectionTotal: string -> bool,
    inlineTotal: string -> Option<string>,
    numbered: string -> Option<ItemNumber>,
    row: string -> Option<RowMatch>,
    bareTriple: string -> Option<Literals>,
    unit: string -> bool,
    decimal: string -> Option<Decimal>)

  /** Everything the reader carries from one line to the next. */
  datatype Reader = Reader(
    rows: seq<BoqRow>, context: seq<string>, identifier: string, previousUnit: Option<string>,
    totals: seq<Figure>)

  const START := Reader([], [], "", None, [])

  // ---- One line ----

  predicate IsSkipped(g: RowGrammar, line: string) {
    line == "" || g.pageMarker(line) || g.sectionTotal(line)
  }

  function TotalOn(g: RowGrammar, line: Line): seq<Figure> {
    var literal := g.inlineTotal(line.text);
    if literal.None? then []
    else
      var value := g.decimal(literal.value);
      if value.Some? && value.value.Value() > 0.0 then [Figure(line.text, line.page, value.value)] else []
  }

  /** The three literals a line prices a row with, if it is a priced row. */
  function PricedBy(g: RowGrammar, previousUnit: Option<string>, line: string): Option<Literals> {
    if IsSkipped(g, line) then None
    else if g.row(line).Some? then Some(g.row(line).value.figures)
    else if previousUnit.Some? then g.bareTriple(line)
    else None
  }

  /** The item number a line states, if it states one: its own, or one that leads a priced row. */
  function StatedNumber(g: RowGrammar, previousUnit: Option<string>, line: string): Option<string> {
    var head := if IsSkipped(g, line) then None
                else if g.row(line).Some? then g.numbered(Strip(g.row(line).value.head))
                else if PricedBy(g, previousUnit, line).Some? then None
                else g.numbered(line);
    if head.Some? then Some(head.value.number) else None
  }

  function DescriptionOf(g: RowGrammar, context: seq<string>, line: string): string {
    if g.row(line).None? then Strip(Join(" ", context))
    else
      var head := Strip(g.row(line).value.head);
      if g.numbered(head).Some? then Strip(g.numbered(head).value.remainder)
      else if head != "" then Strip(Join(" ", context + [head]))
      else Join(" ", context)
  }

  function UnitOf(g: RowGrammar, previousUnit: Option<string>, line: string): Option<string> {
    var unit := if g.row(line).Some? then g.row(line).value.unit
                else if previousUnit.Some? then previousUnit.value else "";
    var bare := DropTrailingDots(unit);
    if bare == "" then None else Some(bare)
  }

  function DropTrailingDots(s: string): string {
    if s != [] && s[|s| - 1] == '.' then DropTrailingDots(s[..|s| - 1]) else s
  }

  function Labelled(identifier: string, order: nat): string {
    if identifier != "" then identifier else "row " + Digits(order)
  }

  function ParsedRow(g: RowGrammar, before: Reader, line: Line, identifier: string, literals: Literals): Option<BoqRow> {
    var q, r, a := g.decimal(literals.quantity), g.decimal(literals.rate), g.decimal(literals.amount);
    if q.None? || r.None? || a.None? then None
    else
      Some(BoqRow(
        Labelled(identifier, |before.rows| + 1),
        Truncate(DescriptionOf(g, before.context, line.text), MAX_DESCRIPTION_CHARACTERS),
        UnitOf(g, before.previousUnit, line.text),
        Figure(literals.quantity, line.page, q.value), Figure(literals.rate, line.page, r.value),
        Figure(literals.amount, line.page, a.value),
        line.page, |before.rows| + 1, Classify(q.value, r.value, a.value)))
  }

  function ContextAfter(g: RowGrammar, context: seq<string>, line: string): seq<string> {
    if g.numbered(line).Some? then
      var remainder := Strip(g.numbered(line).value.remainder);
      if remainder != "" then [remainder] else []
    else if |context| <= MAX_DESCRIPTION_LINES then context + [line]
    else context
  }

  function Step(g: RowGrammar, before: Reader, line: Line): Reader {
    if IsSkipped(g, line.text) then
      before.(previousUnit := None, totals := before.totals + TotalOn(g, line))
    else
      var stated := StatedNumber(g, before.previousUnit, line.text);
      var identifier := if stated.Some? then stated.value else before.identifier;
      var priced := PricedBy(g, before.previousUnit, line.text);
      if priced.None? then
        before.(context := ContextAfter(g, before.context, line.text), identifier := identifier,
                previousUnit := if g.unit(line.text) then Some(line.text) else None)
      else
        var row := ParsedRow(g, before, line, identifier, priced.value);
        if row.None? then before.(identifier := identifier, previousUnit := None)
        else before.(rows := before.rows + [row.value], context := [], identifier := identifier, previousUnit := None)
  }

  function After(g: RowGrammar, lines: seq<Line>): Reader {
    if lines == [] then START else Step(g, After(g, lines[..|lines| - 1]), lines[|lines| - 1])
  }

  // ---- What a row and the totals say ----

  /** A line prices a row by its own figures, or failing those by a bare triple when a unit stands directly above it; it
      states the number in front of its row, or its own when it prices none. Blank lines, page markers and section
      totals do neither. */
  lemma LineMeans(g: RowGrammar, previousUnit: Option<string>, line: string, figures: Literals, number: string)
    ensures PricedBy(g, previousUnit, line) == Some(figures)
            <==> && line != "" && !g.pageMarker(line) && !g.sectionTotal(line)
                 && if g.row(line).Some? then g.row(line).value.figures == figures
                    else previousUnit.Some? && g.bareTriple(line) == Some(figures)
    ensures StatedNumber(g, previousUnit, line) == Some(number)
            <==> && line != "" && !g.pageMarker(line) && !g.sectionTotal(line)
                 && if g.row(line).Some?
                    then g.numbered(Strip(g.row(line).value.head)).Some? && g.numbered(Strip(g.row(line).value.head)).value.number == number
                    else (previousUnit.None? || g.bareTriple(line).None?) && g.numbered(line).Some? && g.numbered(line).value.number == number
  {
    hide Strip;
  }

  lemma {:induction false} DotsAreDropped(s: string)
    ensures DropTrailingDots(s) <= s && (DropTrailingDots(s) != [] ==> DropTrailingDots(s)[|DropTrailingDots(s)| - 1] != '.')
    ensures forall i :: |DropTrailingDots(s)| <= i < |s| ==> s[i] == '.'
  {
    if s != [] && s[|s| - 1] == '.' { DotsAreDropped(s[..|s| - 1]); }
  }

  /** The pages are read one after another, each line on its own page. */
  lemma {:induction false} LinesAreThePages(pages: seq<Page>, more: seq<Page>)
    ensures Flatten(pages + more) == Flatten(pages) + Flatten(more)
    ensures |pages| == 1 ==>
              |Flatten(pages)| == |pages[0].lines|
              && forall i :: 0 <= i < |pages[0].lines| ==> Flatten(pages)[i].page == pages[0].number && Flatten(pages)[i].text == pages[0].lines[i]
  {
    if more == [] {
      assert pages + more == pages;
      if |pages| == 1 { assert pages[..0] == [] && Flatten([]) == []; }
    } else {
      var n := |more| - 1;
      assert (pages + more)[..|pages| + n] == pages + more[..n];
      LinesAreThePages(pages, more[..n]);
      if |pages| == 1 { assert pages[..0] == [] && Flatten([]) == []; }
    }
  }

  /** A line whose own total can be read and is more than nothing. */
  ghost predicate StatesTotal(g: RowGrammar, line: Line) {
    && (line.text == "" || g.pageMarker(line.text) || g.sectionTotal(line.text))
    && g.inlineTotal(line.text).Some? && g.decimal(g.inlineTotal(line.text).value).Some?
    && g.decimal(g.inlineTotal(line.text).value).value.Value() > 0.0
  }

  /** The candidates for the bill's total are the lines that state one, all of them and in order, each as the whole line
      is printed, on its page, with the figure it ends in. */
  lemma {:induction false} CandidatesAreTotals(g: RowGrammar, lines: seq<Line>)
    ensures lines == [] ==> After(g, lines).totals == []
    ensures lines != [] ==>
              var before, last := After(g, lines[..|lines| - 1]).totals, lines[|lines| - 1];
              if StatesTotal(g, last)
              then After(g, lines).totals == before + [Figure(last.text, last.page, g.decimal(g.inlineTotal(last.text).value).value)]
              else After(g, lines).totals == before
  {
    hide ParsedRow, ContextAfter, StatedNumber;
  }

  /** A row is described by what follows its item number when its line states one; otherwise by the lines standing above
      it since the last row or item number, and what its line says before the unit. */
  lemma RowIsDescribed(g: RowGrammar, before: Reader, line: Line, identifier: string, literals: Literals)
    requires ParsedRow(g, before, line, identifier, literals).Some?
    ensures var row := ParsedRow(g, before, line, identifier, literals).value;
            var head := if g.row(line.text).Some? then Strip(g.row(line.text).value.head) else "";
            var full := if g.numbered(head).Some? && g.row(line.text).Some? then Strip(g.numbered(head).value.remainder)
                        else if head != "" then Strip(Join(" ", before.context + [head]))
                        else if g.row(line.text).Some? then Join(" ", before.context)
                        else Strip(Join(" ", before.context));
            && row.description <= full && |row.description| == (if |full| <= 2000 then |full| else 2000)
            && row.itemIdentifier == (if identifier == "" then "row " + Digits(row.order) else identifier)
            && row.order == |before.rows| + 1 && row.page == line.page
            && (g.row(line.text).Some? ==>
                  var unit := DropTrailingDots(g.row(line.text).value.unit);
                  row.unit == if unit == "" then None else Some(unit))
  {
    hide Strip, Join, Classify, DropTrailingDots;
  }

  /** The lines standing above: an item number starts them anew with what follows it, any other line is added as long as
      there are no more than forty, and a row uses them up. */
  lemma ContextStands(g: RowGrammar, before: Reader, line: Line)
    requires !IsSkipped(g, line.text)
    ensures var after := Step(g, before, line);
            if |after.rows| > |before.rows| then after.context == []
            else if PricedBy(g, before.previousUnit, line.text).Some? then after.context == before.context
            else if g.numbered(line.text).Some?
            then after.context == (var text := Strip(g.numbered(line.text).value.remainder); if text == "" then [] else [text])
            else after.context == if |before.context| > 40 then before.context else before.context + [line.text]
    ensures Step(g, before, Line(line.page, "")).context == before.context
  {
    hide Strip, StatedNumber;
  }

  // ---- The whole document ----

  function RowSum(rows: seq<BoqRow>): real {
    if rows == [] then 0.0 else RowSum(rows[..|rows| - 1]) + rows[|rows| - 1].amount.value.Value()
  }

  /** The first total in document order that is not smaller than what the accepted rows add up to. */
  ghost predicate IsFirstCovering(candidates: seq<Figure>, rowSum: real, chosen: Option<Figure>) {
    match chosen
    case None => forall c :: c in candidates ==> c.value.Value() < rowSum
    case Some(total) =>
      total.value.Value() >= rowSum && exists k :: IsFirstAt(candidates, rowSum, total, k)
  }

  ghost predicate IsFirstAt(candidates: seq<Figure>, rowSum: real, total: Figure, k: nat) {
    k < |candidates| && candidates[k] == total && forall c :: c in candidates[..k] ==> c.value.Value() < rowSum
  }

  method BillTotal(candidates: seq<Figure>, rowSum: real) returns (chosen: Option<Figure>)
    ensures IsFirstCovering(candidates, rowSum, chosen)
  {
    for k := 0 to |candidates|
      invariant forall c :: c in candidates[..k] ==> c.value.Value() < rowSum
    {
      if candidates[k].value.Value() >= rowSum {
        assert IsFirstAt(candidates, rowSum, candidates[k], k);
        return Some(candidates[k]);
      }
    }
    return None;
  }

  /** Rows add up by their amounts. */
  lemma {:induction false} RowSumOfBoth(rows: seq<BoqRow>, missed: seq<BoqRow>)
    ensures RowSum(rows + missed) == RowSum(rows) + RowSum(missed) && RowSum([]) == 0.0
    ensures |rows| == 1 ==> RowSum(rows) == rows[0].amount.value.Value()
  {
    if missed == [] {
      assert rows + missed == rows;
    } else {
      var n := |missed| - 1;
      assert (rows + missed)[..|rows| + n] == rows + missed[..n];
      RowSumOfBoth(rows, missed[..n]);
    }
  }

  /** The total of the whole bill, the rows read and the rows missed, is adopted exactly when the missed rows do
      not add up to less than nothing, given that every total before it falls short. A rebate missed is enough
      to reject it as the total of a part. */
  lemma WholeTotalAdoptedIff(candidates: seq<Figure>, rows: seq<BoqRow>, missed: seq<BoqRow>, k: nat, chosen: Option<Figure>)
    requires k < |candidates| && candidates[k].value.Value() == RowSum(rows + missed)
    requires forall c :: c in candidates[..k] ==> c.value.Value() < RowSum(rows)
    requires IsFirstCovering(candidates, RowSum(rows), chosen)
    ensures chosen == Some(candidates[k]) <==> RowSum(missed) >= 0.0
  {
    RowSumOfBoth(rows, missed);
    assert candidates[k] in candidates;
    if chosen.Some? {
      var j: nat :| IsFirstAt(candidates, RowSum(rows), chosen.value, j);
      assert forall i :: 0 <= i < k ==> candidates[i] in candidates[..k];
      assert forall i :: 0 <= i < j ==> candidates[i] in candidates[..j];
    }
  }

  function Flatten(pages: seq<Page>): seq<Line> {
    if pages == [] then [] else Flatten(pages[..|pages| - 1]) + PageLines(pages[|pages| - 1])
  }

  function PageLines(page: Page): seq<Line> {
    seq(|page.lines|, i requires 0 <= i < |page.lines| => Line(page.number, page.lines[i]))
  }

  method ReadLineLayout(g: RowGrammar, pages: seq<Page>) returns (boq: PdfBoq)
    ensures boq.rows == After(g, Flatten(pages)).rows && boq.rejected == []
    ensures boq.firstPage == if boq.rows == [] then None else Some(boq.rows[0].page)
    ensures IsFirstCovering(After(g, Flatten(pages)).totals, RowSum(boq.rows), boq.statedTotal)
  {
    var reader := START;
    for p := 0 to |pages|
      invariant reader == After(g, Flatten(pages[..p]))
    {
      assert pages[..p + 1][..p] == pages[..p];
      ghost var done := Flatten(pages[..p]);
      reader := ReadPage(g, done, pages[p], reader);
    }
    assert pages[..|pages|] == pages;
    var total := BillTotal(reader.totals, RowSum(reader.rows));
    boq := PdfBoq(reader.rows, if reader.rows == [] then None else Some(reader.rows[0].page), [], total);
  }

  method ReadPage(g: RowGrammar, ghost done: seq<Line>, page: Page, before: Reader) returns (after: Reader)
    requires before == After(g, done)
    ensures after == After(g, done + PageLines(page))
  {
    var rows, context, identifier := before.rows, before.context, before.identifier;
    var previousUnit, totals := before.previousUnit, before.totals;
    ghost var lines := PageLines(page);
    assert done + lines[..0] == done;
    for i := 0 to |page.lines|
      invariant Reader(rows, context, identifier, previousUnit, totals) == After(g, done + lines[..i])
    {
      ghost var previous := After(g, done + lines[..i]);
      AfterStep(g, done, lines, i);
      var line := page.lines[i];
      if IsSkipped(g, line) {
        totals := totals + TotalOn(g, Line(page.number, line));
        previousUnit := None;
        continue;
      }
      var priced := PricedBy(g, previousUnit, line);
      var stated := StatedNumber(g, previousUnit, line);
      if stated.Some? { identifier := stated.value; }
      if priced.None? {
        context := ContextAfter(g, context, line);
        previousUnit := if g.unit(line) then Some(line) else None;
        continue;
      }
      var row := ParsedRow(g, Reader(rows, context, identifier, previousUnit, totals),
                           Line(page.number, line), identifier, priced.value);
      previousUnit := None;
      if row.None? { continue; }
      rows := rows + [row.value];
      context := [];
    }
    assert lines[..|lines|] == lines;
    after := Reader(rows, context, identifier, previousUnit, totals);
  }

  lemma AfterStep(g: RowGrammar, done: seq<Line>, lines: seq<Line>, i: nat)
    requires i < |lines|
    ensures After(g, done + lines[..i + 1]) == Step(g, After(g, done + lines[..i]), lines[i])
  {
    hide Step;
    var longer := done + lines[..i + 1];
    assert longer[..|longer| - 1] == done + lines[..i];
  }

  // ---- What the reader promises ----

  /** A line adds a row when it is priced and all three of its figures can be read. */
  ghost predicate AddsRow(g: RowGrammar, before: Reader, line: Line) {
    var priced := PricedBy(g, before.previousUnit, line.text);
    && priced.Some?
    && g.decimal(priced.value.quantity).Some? && g.decimal(priced.value.rate).Some? && g.decimal(priced.value.amount).Some?
  }

  ghost function RowLines(g: RowGrammar, lines: seq<Line>): seq<nat> {
    if lines == [] then []
    else var n := |lines| - 1;
         RowLines(g, lines[..n]) + if AddsRow(g, After(g, lines[..n]), lines[n]) then [n] else []
  }

  /** `row` is what line `k` prints: its page, its three figures as written, and the next number. */
  ghost predicate IsRowOf(g: RowGrammar, lines: seq<Line>, k: nat, row: BoqRow, order: nat) {
    && k < |lines|
    && var before := After(g, lines[..k]);
       var priced := PricedBy(g, before.previousUnit, lines[k].text);
       && priced.Some? && row.order == order && row.page == lines[k].page
       && priced.value == Literals(row.quantity.literal, row.rate.literal, row.amount.literal)
       && g.decimal(row.quantity.literal) == Some(row.quantity.value)
       && g.decimal(row.rate.literal) == Some(row.rate.value)
       && g.decimal(row.amount.literal) == Some(row.amount.value)
       && row.arithmetic == Classify(row.quantity.value, row.rate.value, row.amount.value)
       && row.itemIdentifier == Labelled(After(g, lines[..k + 1]).identifier, order)
  }

  ghost predicate RowsMatchLines(g: RowGrammar, lines: seq<Line>, rows: seq<BoqRow>, sources: seq<nat>) {
    && Increasing(sources, |lines|) && |rows| == |sources|
    && forall i :: 0 <= i < |rows| ==> IsRowOf(g, lines, sources[i], rows[i], i + 1)
  }

  /** Each row comes from one line, no line gives two, and rows are numbered 1..n down the document. */
  lemma {:induction false} EachRowIsOneLine(g: RowGrammar, lines: seq<Line>)
    ensures RowsMatchLines(g, lines, After(g, lines).rows, RowLines(g, lines))
  {
    hide IsRowOf, Step;
    if lines != [] {
      var n := |lines| - 1;
      EachRowIsOneLine(g, lines[..n]);
      LongerDocument(g, lines, After(g, lines[..n]).rows, RowLines(g, lines[..n]));
      LastLineRow(g, lines);
    }
  }

  lemma LongerDocument(g: RowGrammar, lines: seq<Line>, rows: seq<BoqRow>, sources: seq<nat>)
    requires lines != [] && RowsMatchLines(g, lines[..|lines| - 1], rows, sources)
    ensures RowsMatchLines(g, lines, rows, sources)
  {
    var shorter := lines[..|lines| - 1];
    forall i | 0 <= i < |rows| ensures IsRowOf(g, lines, sources[i], rows[i], i + 1) {
      assert IsRowOf(g, shorter, sources[i], rows[i], i + 1);
      assert shorter[..sources[i]] == lines[..sources[i]] && shorter[..sources[i] + 1] == lines[..sources[i] + 1];
    }
  }

  lemma LastLineRow(g: RowGrammar, lines: seq<Line>)
    requires lines != []
    ensures var before, rows := After(g, lines[..|lines| - 1]), After(g, lines).rows;
            if AddsRow(g, before, lines[|lines| - 1])
            then |rows| == |before.rows| + 1 && rows[..|before.rows|] == before.rows
                 && IsRowOf(g, lines, |lines| - 1, rows[|before.rows|], |rows|)
            else rows == before.rows
  {
    assert lines[..|lines| - 1 + 1] == lines;
  }

  /** The reader holds a unit exactly while the line just read was nothing but that unit. */
  lemma PreviousUnitIsLastLine(g: RowGrammar, lines: seq<Line>)
    ensures var held := After(g, lines).previousUnit;
            held.Some? ==>
              && lines != [] && lines[|lines| - 1].text == held.value && g.unit(held.value)
              && !IsSkipped(g, held.value) && g.row(held.value).None?
    ensures lines != [] ==>
              var last := lines[|lines| - 1].text;
              After(g, lines).previousUnit.Some?
              <==> !IsSkipped(g, last) && g.unit(last) && PricedBy(g, After(g, lines[..|lines| - 1]).previousUnit, last).None?
  {
    hide ParsedRow, ContextAfter, StatedNumber, TotalOn;
  }

  /** A row without a unit of its own is a bare triple directly below a line that is only a unit, and
      takes that unit. */
  lemma BareTripleFollowsUnit(g: RowGrammar, lines: seq<Line>, i: nat)
    requires i < |RowLines(g, lines)| && RowLines(g, lines)[i] < |lines|
    requires g.row(lines[RowLines(g, lines)[i]].text).None?
    ensures var k := RowLines(g, lines)[i];
            && k > 0 && g.unit(lines[k - 1].text) && g.row(lines[k - 1].text).None?
            && g.bareTriple(lines[k].text).Some?
            && UnitOf(g, After(g, lines[..k]).previousUnit, lines[k].text)
               == (var u := DropTrailingDots(lines[k - 1].text); if u == "" then None else Some(u))
  {
    hide Step, RowLines, Classify;
    EachRowIsOneLine(g, lines);
    var k := RowLines(g, lines)[i];
    assert IsRowOf(g, lines, k, After(g, lines).rows[i], i + 1);
    PreviousUnitIsLastLine(g, lines[..k]);
  }

  /** The item number line `j` states, read in its place in the document. */
  ghost function NumberAt(g: RowGrammar, lines: seq<Line>, j: nat): Option<string>
    requires j < |lines|
  {
    StatedNumber(g, After(g, lines[..j]).previousUnit, lines[j].text)
  }

  ghost predicate SilentFrom(g: RowGrammar, lines: seq<Line>, from: nat) {
    forall j :: from <= j < |lines| ==> NumberAt(g, lines, j).None?
  }

  /** The last line that states an item number, or -1. */
  ghost function LastStated(g: RowGrammar, lines: seq<Line>): int {
    if lines == [] then -1
    else
      var n := |lines| - 1;
      if NumberAt(g, lines, n).Some? then n else LastStated(g, lines[..n])
  }

  /** The identifier in force is the item number stated nearest above, or none was stated yet. */
  lemma {:induction false} IdentifierIsNearest(g: RowGrammar, lines: seq<Line>)
    ensures -1 <= LastStated(g, lines) < |lines|
    ensures SilentFrom(g, lines, LastStated(g, lines) + 1)
    ensures var j, identifier := LastStated(g, lines), After(g, lines).identifier;
            if j == -1 then identifier == "" else NumberAt(g, lines, j) == Some(identifier)
  {
    hide Step, StatedNumber;
    if lines != [] {
      var n := |lines| - 1;
      IdentifierIsNearest(g, lines[..n]);
      IdentifierStep(g, After(g, lines[..n]), lines[n]);
      forall j | 0 <= j < n ensures NumberAt(g, lines, j) == NumberAt(g, lines[..n], j) {
        NumberAtPrefix(g, lines, n, j);
      }
    }
  }

  lemma IdentifierStep(g: RowGrammar, before: Reader, line: Line)
    ensures var stated := StatedNumber(g, before.previousUnit, line.text);
            Step(g, before, line).identifier == if stated.Some? then stated.value else before.identifier
  {
  }

  lemma NumberAtPrefix(g: RowGrammar, lines: seq<Line>, n: nat, j: nat)
    requires j < n <= |lines|
    ensures NumberAt(g, lines, j) == NumberAt(g, lines[..n], j)
  {
    assert lines[..n][..j] == lines[..j];
  }
}
