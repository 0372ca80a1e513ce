/** The heading-anchored bill layout: one field per line, items numbered 1, 2, 3 without a gap. */
module BillReader {
  import opened Options
  import opened Decimals
  import opened RowArithmetic
  import opened Sequences
  import opened Text

  const MAX_DESCRIPTION_LINES := 40
  const MAX_DESCRIPTION_CHARACTERS := 2000

  datatype Line = Line(page: int, text: string)

  datatype ItemHead = ItemHead(number: nat, digits: string, remainder: string)

  /** What the reader's patterns say of one line. Every result below holds for any patterns. */
  datatype Grammar = Grammar(
    item: string -> Option<ItemHead>,
    money: string -> bool,
    decimal: string -> Option<Decimal>,
    unit: string -> bool,
    totalLabel: string -> bool,
    subItem: string -> Option<char>,
    pageMarker: string -> bool)

  /** One page: its number, its stripped lines, and whether it carries the heading and both column
      headers. */
  datatype Page = Page(number: int, lines: seq<string>, opensTable: bool)

  datatype BoqRow = BoqRow(
    itemIdentifier: string, description: string, unit: Option<string>,
    quantity: Figure, rate: Figure, amount: Figure,
    page: int, order: nat, arithmetic: Classification)

  /** A figure as printed, the page it is on, and its value. */
  datatype Figure = Figure(literal: string, page: int, value: Decimal)

  /** Why a block was refused: it holds more than one complete triple. */
  datatype Refusal = Refusal(identifier: string, page: int, earlier: seq<Figure>, last: seq<Figure>)

  datatype PdfBoq = PdfBoq(
    rows: seq<BoqRow>, firstPage: Option<int>, rejected: seq<Refusal>, statedTotal: Option<Figure>)

  // ---- The item sequence ----

  ghost predicate Continues(g: Grammar, line: Line, expected: nat) {
    g.item(line.text).Some? && g.item(line.text).value.number == expected
  }

  /** Lines that continue the run 1, 2, 3, ... */
  ghost function Starts(g: Grammar, lines: seq<Line>): seq<nat> {
    if lines == [] then []
    else
      var n := |lines| - 1;
      var before := Starts(g, lines[..n]);
      if Continues(g, lines[n], |before| + 1) then before + [n] else before
  }

  method SequentialItemStarts(g: Grammar, lines: seq<Line>) returns (starts: seq<nat>)
    ensures starts == Starts(g, lines)
  {
    starts := [];
    var expected := 1;
    for index := 0 to |lines|
      invariant starts == Starts(g, lines[..index])
      invariant expected == |starts| + 1
    {
      assert lines[..index + 1][..index] == lines[..index];
      var head := g.item(lines[index].text);
      if head.None? || head.value.number != expected { continue; }
      starts := starts + [index];
      expected := expected + 1;
    }
    assert lines[..|lines|] == lines;
  }

  /** Any selection of lines, in order, numbered exactly 1..k. */
  ghost predicate IsNumberedRun(g: Grammar, lines: seq<Line>, run: seq<nat>) {
    && (forall i :: 0 <= i < |run| ==> run[i] < |lines| && Continues(g, lines[run[i]], i + 1))
    && (forall i, j :: 0 <= i < j < |run| ==> run[i] < run[j])
  }

  lemma {:induction false} StartsAreNumbered(g: Grammar, lines: seq<Line>)
    ensures IsNumberedRun(g, lines, Starts(g, lines))
  {
    if lines != [] { StartsAreNumbered(g, lines[..|lines| - 1]); }
  }

  /** Greedy is optimal: no numbered run is longer, and none reaches any number earlier. */
  lemma {:induction false} GreedyIsOptimal(g: Grammar, lines: seq<Line>, run: seq<nat>)
    requires IsNumberedRun(g, lines, run)
    ensures |run| <= |Starts(g, lines)|
    ensures forall i :: 0 <= i < |run| ==> Starts(g, lines)[i] <= run[i]
  {
    if run != [] { assert run[0] < |lines|; }
    if lines != [] {
      var n := |lines| - 1;
      if run != [] && run[|run| - 1] == n {
        RunWithoutLast(g, lines, run);
        GreedyIsOptimal(g, lines[..n], run[..|run| - 1]);
        StartsAreNumbered(g, lines[..n]);
      } else {
        if run != [] { assert run[|run| - 1] < n; }
        assert IsNumberedRun(g, lines[..n], run);
        GreedyIsOptimal(g, lines[..n], run);
      }
    }
  }

  lemma RunWithoutLast(g: Grammar, lines: seq<Line>, run: seq<nat>)
    requires IsNumberedRun(g, lines, run) && run != [] && run[|run| - 1] == |lines| - 1
    ensures IsNumberedRun(g, lines[..|lines| - 1], run[..|run| - 1])
    ensures Continues(g, lines[|lines| - 1], |run|)
  {
    assert Continues(g, lines[run[|run| - 1]], |run| - 1 + 1);
    forall i | 0 <= i < |run| - 1 ensures run[i] < |lines| - 1 {
      assert run[i] < run[|run| - 1];
    }
  }

  ghost function Below(starts: seq<nat>, bound: nat): seq<nat> {
    if starts == [] then []
    else Below(starts[..|starts| - 1], bound)
         + if starts[|starts| - 1] < bound then [starts[|starts| - 1]] else []
  }

  /** What `read_pdf_boq` relies on when it cuts the bill at its total: the starts of a prefix are the
      starts of the whole below the cut. */
  lemma {:induction false} PrefixStarts(g: Grammar, lines: seq<Line>, cut: nat)
    requires cut <= |lines|
    ensures Starts(g, lines[..cut]) == Below(Starts(g, lines), cut)
  {
    if cut == |lines| {
      assert lines[..cut] == lines;
      StartsAreNumbered(g, lines);
      BelowKeepsAll(Starts(g, lines), cut);
    } else {
      var n := |lines| - 1;
      PrefixStarts(g, lines[..n], cut);
      assert lines[..n][..cut] == lines[..cut];
      var before := Starts(g, lines[..n]);
      if Starts(g, lines) != before {
        assert Starts(g, lines)[..|before|] == before;
      }
    }
  }

  lemma {:induction false} BelowKeepsAll(starts: seq<nat>, bound: nat)
    requires forall i :: 0 <= i < |starts| ==> starts[i] < bound
    ensures Below(starts, bound) == starts
  {
    if starts != [] { BelowKeepsAll(starts[..|starts| - 1], bound); }
  }

  // ---- Sub-items ----

  datatype SubBlock = SubBlock(identifier: string, page: int, lines: seq<Line>)

  ghost predicate IsMark(g: Grammar, line: Line) {
    g.subItem(line.text).Some?
  }

  /** The marker lines of a block. */
  ghost function Marks(g: Grammar, block: seq<Line>): seq<nat> {
    if block == [] then []
    else
      var n := |block| - 1;
      Marks(g, block[..n]) + if IsMark(g, block[n]) then [n] else []
  }

  lemma {:induction false} MarksExact(g: Grammar, block: seq<Line>)
    ensures Increasing(Marks(g, block), |block|)
    ensures forall k: nat :: k in Marks(g, block) <==> k < |block| && IsMark(g, block[k])
  {
    if block != [] { MarksExact(g, block[..|block| - 1]); }
  }

  function SubIdentifier(identifier: string, letter: char): string {
    identifier + "(" + [letter] + ")"
  }

  /** The sub-block that the marker at `marks[i]` opens, under the repeated heading. */
  ghost function SubBlockAt(g: Grammar, identifier: string, page: int, block: seq<Line>, i: nat): SubBlock
    requires i < |Marks(g, block)|
  {
    MarksExact(g, block);
    var marks := Marks(g, block);
    assert marks[i] in marks && marks[0] in marks;
    SubBlock(SubIdentifier(identifier, g.subItem(block[marks[i]].text).value), page,
             block[..marks[0]] + Rest(Piece(block, marks, i)))
  }

  ghost function SubBlocks(g: Grammar, identifier: string, page: int, block: seq<Line>): seq<SubBlock> {
    if Marks(g, block) == [] then [SubBlock(identifier, page, block)]
    else seq(|Marks(g, block)|, i requires 0 <= i < |Marks(g, block)| => SubBlockAt(g, identifier, page, block, i))
  }

  method FindMarks(g: Grammar, block: seq<Line>) returns (marks: seq<nat>)
    ensures marks == Marks(g, block)
  {
    marks := [];
    for index := 0 to |block|
      invariant marks == Marks(g, block[..index])
    {
      assert block[..index + 1][..index] == block[..index];
      if g.subItem(block[index].text).Some? { marks := marks + [index]; }
    }
    assert block[..|block|] == block;
  }

  lemma SubBlockAtIs(g: Grammar, identifier: string, page: int, block: seq<Line>, i: nat)
    requires i < |Marks(g, block)|
    ensures var marks := Marks(g, block);
            var end := PieceEnd(marks, i, |block|);
            && marks[0] < |block| && marks[i] < end <= |block| && IsMark(g, block[marks[i]])
            && SubBlockAt(g, identifier, page, block, i)
               == SubBlock(SubIdentifier(identifier, g.subItem(block[marks[i]].text).value), page,
                           block[..marks[0]] + block[marks[i] + 1..end])
  {
    hide Marks;
    var marks := Marks(g, block);
    MarksExact(g, block);
    assert marks[i] in marks && marks[0] in marks;
    PieceBounds(marks, i, |block|);
    var end := PieceEnd(marks, i, |block|);
    assert block[marks[i]..end][1..] == block[marks[i] + 1..end];
  }

  method SplitSubItems(g: Grammar, identifier: string, page: int, block: seq<Line>) returns (split: seq<SubBlock>)
    ensures split == SubBlocks(g, identifier, page, block)
  {
    hide Marks, SubBlockAt, SubIdentifier;
    var marks := FindMarks(g, block);
    if marks == [] {
      return [SubBlock(identifier, page, block)];
    }
    SubBlockAtIs(g, identifier, page, block, 0);
    var heading := block[..marks[0]];
    split := [];
    for position := 0 to |marks|
      invariant |split| == position
      invariant forall i :: 0 <= i < position ==> split[i] == SubBlockAt(g, identifier, page, block, i)
    {
      SubBlockAtIs(g, identifier, page, block, position);
      var mark := marks[position];
      var end := if position + 1 < |marks| then marks[position + 1] else |block|;
      split := split + [SubBlock(SubIdentifier(identifier, g.subItem(block[mark].text).value), page,
                                 heading + block[mark + 1..end])];
    }
  }

  /** Sub-item splitting puts every line after the first marker in exactly one sub-block, in order, and
      repeats the heading over each of them. */
  lemma SubItemsConserve(g: Grammar, identifier: string, page: int, block: seq<Line>)
    requires Marks(g, block) != []
    ensures Increasing(Marks(g, block), |block|)
    ensures var marks, subs := Marks(g, block), SubBlocks(g, identifier, page, block);
            && block == block[..marks[0]] + Concat(Pieces(block, marks))
            && (forall line :: line in block[..marks[0]] ==> !IsMark(g, line))
            && |subs| == |marks|
            && forall i :: 0 <= i < |subs| ==> IsSubItem(g, identifier, page, block[..marks[0]], Piece(block, marks, i), subs[i])
  {
    var marks := Marks(g, block);
    MarksExact(g, block);
    assert marks[0] in marks;
    PiecesConserve(block, marks, 0);
    assert Pieces(block, marks)[0..] == Pieces(block, marks);
    assert block == block[..marks[0]] + block[marks[0]..];
    forall line | line in block[..marks[0]] ensures !IsMark(g, line) {
      var k :| 0 <= k < marks[0] && block[k] == line;
      BetweenCuts(marks, 0, k, |block|);
    }
    forall i | 0 <= i < |marks|
      ensures IsSubItem(g, identifier, page, block[..marks[0]], Piece(block, marks, i),
                        SubBlockAt(g, identifier, page, block, i))
    {
      SubItemAt(g, identifier, page, block, i);
    }
  }

  /** `sub` is what the marker line at the head of `piece` opens: the heading, then the rest of the
      piece, which holds no further marker. */
  ghost predicate IsSubItem(g: Grammar, identifier: string, page: int, heading: seq<Line>, piece: seq<Line>, sub: SubBlock) {
    && piece != [] && IsMark(g, piece[0])
    && (forall line :: line in piece[1..] ==> !IsMark(g, line))
    && sub.identifier == identifier + "(" + [g.subItem(piece[0].text).value] + ")" && sub.page == page
    && sub.lines == heading + piece[1..]
  }

  lemma SubItemAt(g: Grammar, identifier: string, page: int, block: seq<Line>, i: nat)
    requires i < |Marks(g, block)|
    ensures var marks := Marks(g, block);
            marks[0] < |block| &&
            IsSubItem(g, identifier, page, block[..marks[0]], Piece(block, marks, i), SubBlockAt(g, identifier, page, block, i))
  {
    hide Marks;
    var marks := Marks(g, block);
    var piece := Piece(block, marks, i);
    MarksExact(g, block);
    assert marks[i] in marks && marks[0] in marks;
    PieceBounds(marks, i, |block|);
    forall line | line in piece[1..] ensures !IsMark(g, line) {
      var k :| 1 <= k < |piece| && piece[k] == line;
      BetweenCuts(marks, i, marks[i] + k, |block|);
    }
  }

  // ---- One row from one block ----

  function Figures(g: Grammar, block: seq<Line>): seq<Figure> {
    if block == [] then []
    else
      var line := block[|block| - 1];
      Figures(g, block[..|block| - 1])
      + if g.money(line.text) && g.decimal(line.text).Some?
        then [Figure(line.text, line.page, g.decimal(line.text).value)] else []
  }

  lemma {:induction false} FiguresSum(g: Grammar, a: seq<Line>, b: seq<Line>)
    ensures Figures(g, a + b) == Figures(g, a) + Figures(g, b)
  {
    if b == [] {
      assert a + b == a;
    } else {
      assert (a + b)[..|a + b| - 1] == a + b[..|b| - 1];
      FiguresSum(g, a, b[..|b| - 1]);
    }
  }

  function UnitIn(g: Grammar, block: seq<Line>): Option<string> {
    var whole := FirstWholeUnit(g, block);
    if whole.Some? then whole else FirstTailUnit(g, block)
  }

  function FirstWholeUnit(g: Grammar, block: seq<Line>): Option<string> {
    if block == [] then None
    else if g.unit(block[0].text) then Some(block[0].text)
    else FirstWholeUnit(g, block[1..])
  }

  function FirstTailUnit(g: Grammar, block: seq<Line>): Option<string> {
    if block == [] then None
    else
      var tail := LastWord(block[0].text);
      if tail != [] && g.unit(tail) then Some(tail) else FirstTailUnit(g, block[1..])
  }

  function DescriptionLines(g: Grammar, block: seq<Line>): seq<string> {
    if block == [] then []
    else
      (if g.money(block[0].text) || g.unit(block[0].text) then [] else [block[0].text])
      + DescriptionLines(g, block[1..])
  }

  datatype Built = Unpriced | Refused(refusal: Refusal) | Priced(row: BoqRow)

  function BuildRow(g: Grammar, sub: SubBlock, order: nat): Built {
    var figures := Figures(g, sub.lines);
    var n := |figures|;
    if n < 3 then Unpriced
    else if n >= 6 && Closes(figures[n - 6].value, figures[n - 5].value, figures[n - 4].value) then
      Refused(Refusal(sub.identifier, sub.page, figures[n - 6..n - 3], figures[n - 3..]))
    else
      var quantity, rate, amount := figures[n - 3], figures[n - 2], figures[n - 1];
      Priced(BoqRow(
        sub.identifier,
        Truncate(Strip(Join(" ", DescriptionLines(g, sub.lines))), MAX_DESCRIPTION_CHARACTERS),
        UnitIn(g, sub.lines), quantity, rate, amount, sub.page, order,
        Classify(quantity.value, rate.value, amount.value)))
  }

  lemma {:induction false} WholeUnitIsLine(g: Grammar, block: seq<Line>)
    ensures FirstWholeUnit(g, block).None? <==> forall line :: line in block ==> !g.unit(line.text)
    ensures FirstWholeUnit(g, block).Some? ==>
              exists line :: line in block && g.unit(line.text) && line.text == FirstWholeUnit(g, block).value
  {
    if block != [] {
      WholeUnitIsLine(g, block[1..]);
      assert block == [block[0]] + block[1..];
    }
  }

  lemma {:induction false} TailUnitEndsLine(g: Grammar, block: seq<Line>)
    ensures FirstTailUnit(g, block).None? <==> forall line :: line in block ==> !EndsInUnit(g, line)
    ensures FirstTailUnit(g, block).Some? ==>
              exists line :: line in block && EndsInUnit(g, line) && LastWord(line.text) == FirstTailUnit(g, block).value
  {
    if block != [] {
      TailUnitEndsLine(g, block[1..]);
      assert block == [block[0]] + block[1..] && block[0] in block;
    }
  }

  /** A row's unit is a line of the block that is a unit, or failing any such line the unit that ends one;
      it is missing exactly when the block has neither. */
  lemma UnitIsStated(g: Grammar, block: seq<Line>)
    ensures match UnitIn(g, block)
            case None => forall line :: line in block ==> !g.unit(line.text) && !EndsInUnit(g, line)
            case Some(unit) =>
              || (exists line :: line in block && g.unit(line.text) && line.text == unit)
              || ((forall line :: line in block ==> !g.unit(line.text))
                  && exists line :: line in block && EndsInUnit(g, line) && LastWord(line.text) == unit)
  {
    hide LastWord, EndsInUnit, FirstWholeUnit, FirstTailUnit;
    WholeUnitIsLine(g, block);
    TailUnitEndsLine(g, block);
  }

  ghost predicate EndsInUnit(g: Grammar, line: Line) {
    LastWord(line.text) != [] && g.unit(LastWord(line.text))
  }

  ghost predicate Describes(g: Grammar, line: Line) {
    !g.money(line.text) && !g.unit(line.text)
  }

  /** A row is described by the lines of its block that are neither money nor a unit, all of them and in order: a line
      adds its text, or nothing, between what the lines before and behind it add. */
  lemma {:induction false} EachLineDescribes(g: Grammar, before: seq<Line>, line: Line, behind: seq<Line>)
    ensures DescriptionLines(g, before + [line] + behind)
            == DescriptionLines(g, before) + (if Describes(g, line) then [line.text] else []) + DescriptionLines(g, behind)
    ensures DescriptionLines(g, []) == []
  {
    if before == [] {
      assert (before + [line] + behind)[1..] == behind;
    } else {
      assert (before + [line] + behind)[1..] == before[1..] + [line] + behind;
      EachLineDescribes(g, before[1..], line, behind);
    }
  }

  /** The row prints these lines joined by spaces, stripped and cut to length, under its sub-block's unit. */
  lemma RowIsDescribed(g: Grammar, sub: SubBlock, order: nat)
    requires BuildRow(g, sub, order).Priced?
    ensures var row, full := BuildRow(g, sub, order).row, Strip(Join(" ", DescriptionLines(g, sub.lines)));
            && row.description <= full && |row.description| == (if |full| <= 2000 then |full| else 2000)
            && row.unit == UnitIn(g, sub.lines)
  {
    hide Figures, Closes, Classify, Strip, Join, DescriptionLines, UnitIn;
  }

  /** The three figures a row reports, in the order the block prints them. */
  function RowFigures(row: BoqRow): seq<Figure> {
    [row.quantity, row.rate, row.amount]
  }

  /** Where a priced sub-item's three figures come from: its own last ones, and exactly as many of the
      shared heading's as it is short of three. */
  lemma FiguresComeFromOwnTailFirst(g: Grammar, sub: SubBlock, heading: seq<Line>, tail: seq<Line>, order: nat)
    requires sub.lines == heading + tail && BuildRow(g, sub, order).Priced?
    ensures var row, own, shared := BuildRow(g, sub, order).row, Figures(g, tail), Figures(g, heading);
            var borrowed := if |own| >= 3 then 0 else 3 - |own|;
            && row.order == order && row.itemIdentifier == sub.identifier && row.page == sub.page
            && borrowed <= |shared|
            && RowFigures(row) == shared[|shared| - borrowed..] + own[|own| + borrowed - 3..]
  {
    FiguresSum(g, heading, tail);
    RowTakesLastThree(g, sub, order);
    SuffixOfSum(Figures(g, heading), Figures(g, tail), 3);
  }

  lemma RowTakesLastThree(g: Grammar, sub: SubBlock, order: nat)
    requires BuildRow(g, sub, order).Priced?
    ensures var row, figures := BuildRow(g, sub, order).row, Figures(g, sub.lines);
            && row.order == order && row.itemIdentifier == sub.identifier && row.page == sub.page
            && |figures| >= 3 && RowFigures(row) == figures[|figures| - 3..]
            && row.arithmetic == Classify(row.quantity.value, row.rate.value, row.amount.value)
  {
  }

  /** What sub-item `i` prints after the repeated heading. */
  ghost function OwnFigures(g: Grammar, block: seq<Line>, i: nat): seq<Figure>
    requires i < |Marks(g, block)| && Piece(block, Marks(g, block), i) != []
  {
    Figures(g, Piece(block, Marks(g, block), i)[1..])
  }

  /** The row priced from `sub` reports the heading's figure number `p`: it is one of the last three. */
  ghost predicate Reports(g: Grammar, heading: seq<Line>, sub: SubBlock, p: nat) {
    p < |Figures(g, heading)| && |Figures(g, sub.lines)| - 3 <= p
  }

  lemma ReportedInItsSlot(g: Grammar, heading: seq<Line>, tail: seq<Line>, sub: SubBlock, order: nat, p: nat)
    requires sub.lines == heading + tail && BuildRow(g, sub, order).Priced? && Reports(g, heading, sub, p)
    ensures 0 <= p + 3 - |Figures(g, sub.lines)| < 3
    ensures RowFigures(BuildRow(g, sub, order).row)[p + 3 - |Figures(g, sub.lines)|] == Figures(g, heading)[p]
  {
    hide BuildRow, Figures, Classify, RowFigures;
    FiguresSum(g, heading, tail);
    RowTakesLastThree(g, sub, order);
  }

  lemma SubItemFigures(g: Grammar, identifier: string, page: int, block: seq<Line>, i: nat)
    requires i < |Marks(g, block)|
    ensures Marks(g, block)[0] < |block| && Piece(block, Marks(g, block), i) != []
    ensures var heading, piece := block[..Marks(g, block)[0]], Piece(block, Marks(g, block), i);
            && SubBlockAt(g, identifier, page, block, i).lines == heading + piece[1..]
            && Figures(g, SubBlockAt(g, identifier, page, block, i).lines) == Figures(g, heading) + OwnFigures(g, block, i)
  {
    SubItemAt(g, identifier, page, block, i);
    FiguresSum(g, block[..Marks(g, block)[0]], Piece(block, Marks(g, block), i)[1..]);
  }

  /** Any two priced sub-items of one block report a common heading figure exactly when each prints fewer than
      three figures of its own, and then as many as the better stocked of the two is short of three. Both
      report one printed amount exactly when neither prints any figure. */
  lemma SharedFigureIff(g: Grammar, identifier: string, page: int, block: seq<Line>, i: nat, j: nat, orders: (nat, nat))
    requires i < |Marks(g, block)| && j < |Marks(g, block)|
    requires BuildRow(g, SubBlockAt(g, identifier, page, block, i), orders.0).Priced?
    requires BuildRow(g, SubBlockAt(g, identifier, page, block, j), orders.1).Priced?
    ensures Marks(g, block)[0] < |block| && Piece(block, Marks(g, block), i) != [] && Piece(block, Marks(g, block), j) != []
    ensures var heading := block[..Marks(g, block)[0]];
            var one, other := SubBlockAt(g, identifier, page, block, i), SubBlockAt(g, identifier, page, block, j);
            var own, others := |OwnFigures(g, block, i)|, |OwnFigures(g, block, j)|;
            var short := 3 - if own < others then others else own;
            && ((exists p :: Reports(g, heading, one, p) && Reports(g, heading, other, p)) <==> own < 3 && others < 3)
            && (forall p: nat :: Reports(g, heading, one, p) && Reports(g, heading, other, p) <==>
                  |Figures(g, heading)| - short <= p < |Figures(g, heading)|)
            && (|Figures(g, one.lines)| == |Figures(g, heading)| == |Figures(g, other.lines)| <==> own == 0 && others == 0)
  {
    hide Marks, SubBlockAt, BuildRow, Figures, OwnFigures, Piece;
    var one, other := SubBlockAt(g, identifier, page, block, i), SubBlockAt(g, identifier, page, block, j);
    SubItemFigures(g, identifier, page, block, i);
    SubItemFigures(g, identifier, page, block, j);
    RowTakesLastThree(g, one, orders.0);
    RowTakesLastThree(g, other, orders.1);
    var heading := block[..Marks(g, block)[0]];
    if |OwnFigures(g, block, i)| < 3 && |OwnFigures(g, block, j)| < 3 {
      assert Reports(g, heading, one, |Figures(g, heading)| - 1) && Reports(g, heading, other, |Figures(g, heading)| - 1);
    }
  }

  /** Two sub-items without figures under a priced heading: both rows report the heading's figures, so
      the bill counts one printed amount twice. */
  lemma HeadingCountedTwice(g: Grammar, heading: seq<Line>, first: Line, second: Line, page: int)
    requires |Figures(g, heading)| == 3 && Marks(g, heading) == []
    requires IsMark(g, first) && IsMark(g, second)
    ensures var subs := SubBlocks(g, "21", page, heading + [first, second]);
            && |subs| == 2
            && BuildRow(g, subs[0], 1).Priced? && BuildRow(g, subs[1], 2).Priced?
            && RowFigures(BuildRow(g, subs[0], 1).row) == Figures(g, heading)
            && RowFigures(BuildRow(g, subs[1], 2).row) == Figures(g, heading)
  {
    var h, block := |heading|, heading + [first, second];
    TwoMarks(g, heading, first, second);
    assert block[..h] == heading;
    PricedByHeading(g, heading, page, block, 0);
    PricedByHeading(g, heading, page, block, 1);
  }

  lemma OneMoreLine(g: Grammar, block: seq<Line>, line: Line)
    ensures Marks(g, block + [line]) == Marks(g, block) + if IsMark(g, line) then [|block|] else []
  {
    assert (block + [line])[..|block|] == block;
  }

  lemma TwoMarks(g: Grammar, heading: seq<Line>, first: Line, second: Line)
    requires Marks(g, heading) == [] && IsMark(g, first) && IsMark(g, second)
    ensures Marks(g, heading + [first, second]) == [|heading|, |heading| + 1]
  {
    hide Marks;
    OneMoreLine(g, heading, first);
    OneMoreLine(g, heading + [first], second);
    assert heading + [first, second] == heading + [first] + [second];
  }

  lemma ThreeFiguresPrice(g: Grammar, sub: SubBlock, order: nat)
    requires |Figures(g, sub.lines)| == 3
    ensures BuildRow(g, sub, order).Priced?
  {
    hide Figures, DescriptionLines, UnitIn, Classify, Closes, Truncate, Strip, Join;
  }

  /** A sub-item with no line of its own is priced by the heading's figures. */
  lemma PricedByHeading(g: Grammar, heading: seq<Line>, page: int, block: seq<Line>, i: nat)
    requires i < |Marks(g, block)| && |Figures(g, heading)| == 3
    requires Marks(g, block)[0] <= |block| && block[..Marks(g, block)[0]] == heading && |Piece(block, Marks(g, block), i)| == 1
    ensures var sub := SubBlockAt(g, "21", page, block, i);
            BuildRow(g, sub, i + 1).Priced? && RowFigures(BuildRow(g, sub, i + 1).row) == Figures(g, heading)
  {
    hide Figures, Marks, SubBlockAt, BuildRow, Piece;
    var sub, piece := SubBlockAt(g, "21", page, block, i), Piece(block, Marks(g, block), i);
    SubItemAt(g, "21", page, block, i);
    assert heading + piece[1..] == heading;
    ThreeFiguresPrice(g, sub, i + 1);
    forall p: nat | p < 3 ensures RowFigures(BuildRow(g, sub, i + 1).row)[p] == Figures(g, heading)[p] {
      ReportedInItsSlot(g, heading, piece[1..], sub, i + 1, p);
    }
  }

  // ---- A whole bill ----

  function HeadOf(g: Grammar, line: Line): ItemHead {
    if g.item(line.text).Some? then g.item(line.text).value else ItemHead(0, line.text, "")
  }

  ghost function Rest<T>(s: seq<T>): seq<T> {
    if s == [] then [] else s[1..]
  }

  /** The lines of one item: what follows the number on its own line, then its piece of the bill. */
  ghost function ItemLines(g: Grammar, items: seq<Line>, starts: seq<nat>, i: nat): seq<Line>
    requires i < |starts| && starts[i] < |items|
  {
    var head, page := HeadOf(g, items[starts[i]]), items[starts[i]].page;
    (if head.remainder != "" then [Line(page, head.remainder)] else []) + Rest(Piece(items, starts, i))
  }

  /** The sub-blocks an item is read as; a block too long to be an item is not read at all. */
  ghost function ItemBlock(g: Grammar, items: seq<Line>, starts: seq<nat>, i: nat): seq<SubBlock>
    requires i < |starts| && starts[i] < |items|
  {
    var block := ItemLines(g, items, starts, i);
    if |block| > MAX_DESCRIPTION_LINES + 8 then []
    else SubBlocks(g, HeadOf(g, items[starts[i]]).digits, items[starts[i]].page, block)
  }

  datatype Accepted = Accepted(rows: seq<BoqRow>, rejected: seq<Refusal>)

  function AcceptOne(g: Grammar, before: Accepted, sub: SubBlock): Accepted {
    match BuildRow(g, sub, |before.rows| + 1)
    case Unpriced => before
    case Refused(refusal) => before.(rejected := before.rejected + [refusal])
    case Priced(row) => before.(rows := before.rows + [row])
  }

  function Accept(g: Grammar, subs: seq<SubBlock>): Accepted {
    if subs == [] then Accepted([], [])
    else AcceptOne(g, Accept(g, subs[..|subs| - 1]), subs[|subs| - 1])
  }

  /** The sub-blocks of the first `n` items, in order. */
  ghost function SubBlocksOf(g: Grammar, items: seq<Line>, starts: seq<nat>, n: nat): seq<SubBlock>
    requires n <= |starts| && forall k :: 0 <= k < |starts| ==> starts[k] < |items|
  {
    if n == 0 then [] else SubBlocksOf(g, items, starts, n - 1) + ItemBlock(g, items, starts, n - 1)
  }

  /** The first total label at or after `from`. */
  function FirstTotal(g: Grammar, lines: seq<Line>, from: nat): (total: Option<nat>)
    ensures match total
            case Some(k) => from <= k < |lines| && g.totalLabel(lines[k].text)
                            && forall i :: from <= i < k ==> !g.totalLabel(lines[i].text)
            case None => forall i :: from <= i < |lines| ==> !g.totalLabel(lines[i].text)
    decreases |lines| - from
  {
    if from >= |lines| then None
    else if g.totalLabel(lines[from].text) then Some(from)
    else FirstTotal(g, lines, from + 1)
  }

  function FirstMoney(g: Grammar, lines: seq<Line>): Option<Figure> {
    if lines == [] then None
    else if g.money(lines[0].text) && g.decimal(lines[0].text).Some?
    then Some(Figure(lines[0].text, lines[0].page, g.decimal(lines[0].text).value))
    else FirstMoney(g, lines[1..])
  }

  ghost predicate IsReadable(g: Grammar, line: Line) {
    g.money(line.text) && g.decimal(line.text).Some?
  }

  ghost predicate IsFirstReadable(g: Grammar, lines: seq<Line>, k: nat, figure: Figure) {
    && k < |lines| && IsReadable(g, lines[k]) && (forall i :: 0 <= i < k ==> !IsReadable(g, lines[i]))
    && figure.literal == lines[k].text && figure.page == lines[k].page && g.decimal(lines[k].text) == Some(figure.value)
  }

  /** The first line that is a money line and can be read, as it is printed and where. */
  lemma {:induction false} FirstMoneyIsFirst(g: Grammar, lines: seq<Line>)
    ensures FirstMoney(g, lines).None? <==> forall line :: line in lines ==> !IsReadable(g, line)
    ensures FirstMoney(g, lines).Some? ==> exists k: nat :: IsFirstReadable(g, lines, k, FirstMoney(g, lines).value)
  {
    if lines != [] {
      FirstMoneyIsFirst(g, lines[1..]);
      assert lines == [lines[0]] + lines[1..];
      if IsReadable(g, lines[0]) {
        assert IsFirstReadable(g, lines, 0, FirstMoney(g, lines).value);
      } else if FirstMoney(g, lines).Some? {
        var k: nat :| IsFirstReadable(g, lines[1..], k, FirstMoney(g, lines).value);
        assert IsFirstReadable(g, lines, k + 1, FirstMoney(g, lines).value);
      }
    }
  }

  /** The bill's own total row: the first total label after the first item, if there is one. */
  ghost function TotalRow(g: Grammar, lines: seq<Line>): Option<nat> {
    var starts := Starts(g, lines);
    FirstTotal(g, lines, 1 + if starts == [] then 0 else starts[0])
  }

  ghost function Table(g: Grammar, lines: seq<Line>): seq<Line> {
    match TotalRow(g, lines) case Some(k) => lines[..k] case None => lines
  }

  ghost function StatedTotal(g: Grammar, lines: seq<Line>): Option<Figure> {
    match TotalRow(g, lines) case Some(k) => FirstMoney(g, lines[k + 1..]) case None => None
  }

  /** The bill states the first readable money line after its total label, and nothing exactly when there is no label
      after the first item or no such line after it. */
  lemma TotalIsStatedAfterItsLabel(g: Grammar, lines: seq<Line>)
    ensures var stated := HeadingLayout(g, lines).statedTotal;
            var behind := if TotalRow(g, lines).None? then [] else lines[TotalRow(g, lines).value + 1..];
            && (stated.None? <==> forall line :: line in behind ==> !IsReadable(g, line))
            && (stated.Some? ==> exists k: nat :: IsFirstReadable(g, behind, k, stated.value))
    ensures TotalRow(g, lines).Some? ==> TotalRow(g, lines).value < |lines| && g.totalLabel(lines[TotalRow(g, lines).value].text)
  {
    if TotalRow(g, lines).Some? { FirstMoneyIsFirst(g, lines[TotalRow(g, lines).value + 1..]); }
  }

  ghost function TableSubBlocks(g: Grammar, items: seq<Line>): seq<SubBlock> {
    StartsAreNumbered(g, items);
    SubBlocksOf(g, items, Starts(g, items), |Starts(g, items)|)
  }

  ghost function HeadingLayout(g: Grammar, lines: seq<Line>): PdfBoq {
    var accepted := Accept(g, TableSubBlocks(g, Table(g, lines)));
    PdfBoq(accepted.rows,
           if accepted.rows == [] then None else Some(accepted.rows[0].page),
           accepted.rejected,
           StatedTotal(g, lines))
  }

  method StartsBelow(starts: seq<nat>, bound: nat) returns (kept: seq<nat>)
    ensures kept == Below(starts, bound)
  {
    kept := [];
    for i := 0 to |starts|
      invariant kept == Below(starts[..i], bound)
    {
      assert starts[..i + 1][..i] == starts[..i];
      if starts[i] < bound { kept := kept + [starts[i]]; }
    }
    assert starts[..|starts|] == starts;
  }

  /** Cut the bill at its own total row, and keep the item starts that fall before the cut. */
  method CutAtTotal(g: Grammar, lines: seq<Line>) returns (items: seq<Line>, starts: seq<nat>, stated: Option<Figure>)
    ensures items == Table(g, lines) && starts == Starts(g, items) && stated == StatedTotal(g, lines)
  {
    var allStarts := SequentialItemStarts(g, lines);
    var firstItem := if allStarts == [] then 0 else allStarts[0];
    var totalAt := FirstTotal(g, lines, firstItem + 1);
    stated := if totalAt.Some? then FirstMoney(g, lines[totalAt.value + 1..]) else None;
    items := if totalAt.Some? then lines[..totalAt.value] else lines;
    assert lines[..|items|] == items;
    PrefixStarts(g, lines, |items|);
    starts := StartsBelow(allStarts, |items|);
  }

  method ReadHeadingLayout(g: Grammar, lines: seq<Line>) returns (boq: PdfBoq)
    ensures boq == HeadingLayout(g, lines)
  {
    var items, starts, stated := CutAtTotal(g, lines);
    StartsAreNumbered(g, items);
    var rows, rejected := ReadItems(g, items, starts);
    boq := PdfBoq(rows, if rows == [] then None else Some(rows[0].page), rejected, stated);
  }

  method ReadItems(g: Grammar, items: seq<Line>, starts: seq<nat>) returns (rows: seq<BoqRow>, rejected: seq<Refusal>)
    requires Increasing(starts, |items|)
    ensures Accepted(rows, rejected) == Accept(g, SubBlocksOf(g, items, starts, |starts|))
  {
    hide AcceptOne, ItemBlock;
    rows, rejected := [], [];
    for position := 0 to |starts|
      invariant Accepted(rows, rejected) == Accept(g, SubBlocksOf(g, items, starts, position))
    {
      rows, rejected := ReadItem(g, items, starts, position, SubBlocksOf(g, items, starts, position), rows, rejected);
    }
  }

  method ReadItem(g: Grammar, items: seq<Line>, starts: seq<nat>, position: nat, ghost done: seq<SubBlock>,
                  rows0: seq<BoqRow>, rejected0: seq<Refusal>) returns (rows: seq<BoqRow>, rejected: seq<Refusal>)
    requires Increasing(starts, |items|) && position < |starts|
    requires Accepted(rows0, rejected0) == Accept(g, done)
    ensures Accepted(rows, rejected) == Accept(g, done + ItemBlock(g, items, starts, position))
  {
    hide Accept, SubBlocks, HeadOf, ItemBlock;
    var start := starts[position];
    PieceBounds(starts, position, |items|);
    var end := if position + 1 < |starts| then starts[position + 1] else |items|;
    var head, page := HeadOf(g, items[start]), items[start].page;
    var block := (if head.remainder != "" then [Line(page, head.remainder)] else []) + items[start + 1..end];
    ItemBlockIs(g, items, starts, position, block);
    if |block| > MAX_DESCRIPTION_LINES + 8 {
      assert done + [] == done;
      return rows0, rejected0;
    }
    var subs := SplitSubItems(g, head.digits, page, block);
    rows, rejected := AcceptSubBlocks(g, done, rows0, rejected0, subs);
  }

  lemma ItemBlockIs(g: Grammar, items: seq<Line>, starts: seq<nat>, i: nat, block: seq<Line>)
    requires Increasing(starts, |items|) && i < |starts|
    requires starts[i] < PieceEnd(starts, i, |items|) <= |items|
    requires var head, page := HeadOf(g, items[starts[i]]), items[starts[i]].page;
             block == (if head.remainder != "" then [Line(page, head.remainder)] else [])
                      + items[starts[i] + 1..PieceEnd(starts, i, |items|)]
    ensures ItemBlock(g, items, starts, i)
            == if |block| > MAX_DESCRIPTION_LINES + 8 then []
               else SubBlocks(g, HeadOf(g, items[starts[i]]).digits, items[starts[i]].page, block)
  {
    var end := PieceEnd(starts, i, |items|);
    assert Rest(items[starts[i]..end]) == items[starts[i] + 1..end];
  }

  method AcceptSubBlocks(g: Grammar, ghost done: seq<SubBlock>, rows0: seq<BoqRow>, rejected0: seq<Refusal>, subs: seq<SubBlock>)
    returns (rows: seq<BoqRow>, rejected: seq<Refusal>)
    requires Accepted(rows0, rejected0) == Accept(g, done)
    ensures Accepted(rows, rejected) == Accept(g, done + subs)
  {
    rows, rejected := rows0, rejected0;
    assert done + subs[..0] == done;
    for i := 0 to |subs|
      invariant Accepted(rows, rejected) == Accept(g, done + subs[..i])
    {
      AcceptStep(g, done, subs, i);
      match BuildRow(g, subs[i], |rows| + 1) {
        case Unpriced =>
        case Refused(refusal) => rejected := rejected + [refusal];
        case Priced(row) => rows := rows + [row];
      }
    }
    assert subs[..|subs|] == subs;
  }

  lemma AcceptStep(g: Grammar, done: seq<SubBlock>, subs: seq<SubBlock>, i: nat)
    requires i < |subs|
    ensures Accept(g, done + subs[..i + 1]) == AcceptOne(g, Accept(g, done + subs[..i]), subs[i])
  {
    hide AcceptOne;
    var longer := done + subs[..i + 1];
    assert longer[..|longer| - 1] == done + subs[..i];
  }

  // ---- What the reader promises of a bill ----

  /** Which sub-blocks are priced, and which are refused; the rest print fewer than three figures. */
  ghost function PricedAt(g: Grammar, subs: seq<SubBlock>): seq<nat> {
    if subs == [] then []
    else var n := |subs| - 1;
         PricedAt(g, subs[..n]) + if BuildRow(g, subs[n], 0).Priced? then [n] else []
  }

  ghost function RefusedAt(g: Grammar, subs: seq<SubBlock>): seq<nat> {
    if subs == [] then []
    else var n := |subs| - 1;
         RefusedAt(g, subs[..n]) + if BuildRow(g, subs[n], 0).Refused? then [n] else []
  }

  ghost predicate RowsComeFrom(g: Grammar, subs: seq<SubBlock>, rows: seq<BoqRow>, sources: seq<nat>) {
    && Increasing(sources, |subs|) && |rows| == |sources|
    && forall i :: 0 <= i < |rows| ==> BuildRow(g, subs[sources[i]], i + 1) == Priced(rows[i])
  }

  lemma PricingIgnoresOrder(g: Grammar, sub: SubBlock, order: nat)
    ensures BuildRow(g, sub, order).Priced? <==> BuildRow(g, sub, 0).Priced?
    ensures BuildRow(g, sub, order).Refused? ==> BuildRow(g, sub, order) == BuildRow(g, sub, 0)
  {
  }

  /** Accepted rows are numbered 1..n, one from each priced sub-block, in the order of the bill. */
  lemma {:induction false} EveryPricedSubBlockIsARow(g: Grammar, subs: seq<SubBlock>)
    ensures RowsComeFrom(g, subs, Accept(g, subs).rows, PricedAt(g, subs))
  {
    hide BuildRow;
    if subs != [] {
      var n := |subs| - 1;
      EveryPricedSubBlockIsARow(g, subs[..n]);
      LongerBill(g, subs, Accept(g, subs[..n]).rows, PricedAt(g, subs[..n]));
      PricingIgnoresOrder(g, subs[n], |Accept(g, subs[..n]).rows| + 1);
    }
  }

  lemma LongerBill(g: Grammar, subs: seq<SubBlock>, rows: seq<BoqRow>, sources: seq<nat>)
    requires subs != [] && RowsComeFrom(g, subs[..|subs| - 1], rows, sources)
    ensures RowsComeFrom(g, subs, rows, sources)
    ensures forall k :: 0 <= k < |sources| ==> sources[k] < |subs| - 1
  {
    hide BuildRow;
    var shorter := subs[..|subs| - 1];
    assert forall i :: 0 <= i < |sources| ==> shorter[sources[i]] == subs[sources[i]];
  }

  /** Nothing is silently dropped: every refused sub-block is reported, in order, with its figures. */
  lemma {:induction false} EveryRefusalIsReported(g: Grammar, subs: seq<SubBlock>)
    ensures |Accept(g, subs).rejected| == |RefusedAt(g, subs)|
    ensures forall i :: 0 <= i < |RefusedAt(g, subs)| ==>
              RefusedAt(g, subs)[i] < |subs|
              && BuildRow(g, subs[RefusedAt(g, subs)[i]], 0) == Refused(Accept(g, subs).rejected[i])
  {
    if subs != [] {
      var n := |subs| - 1;
      EveryRefusalIsReported(g, subs[..n]);
      PricingIgnoresOrder(g, subs[n], |Accept(g, subs[..n]).rows| + 1);
    }
  }

  lemma UnpricedIff(g: Grammar, sub: SubBlock, order: nat)
    ensures BuildRow(g, sub, order).Unpriced? <==> |Figures(g, sub.lines)| < 3
  {
  }

  /** Sub-blocks leave neither a row nor a refusal exactly when each prints fewer than three figures. */
  lemma {:induction false} LeaveNothingIff(g: Grammar, done: seq<SubBlock>, subs: seq<SubBlock>)
    ensures |Accept(g, done + subs).rows| >= |Accept(g, done).rows| && |Accept(g, done + subs).rejected| >= |Accept(g, done).rejected|
    ensures Accept(g, done + subs) == Accept(g, done) <==> forall sub :: sub in subs ==> |Figures(g, sub.lines)| < 3
    ensures Accept(g, done + subs) == Accept(g, done) <==>
              |Accept(g, done + subs).rows| == |Accept(g, done).rows| && |Accept(g, done + subs).rejected| == |Accept(g, done).rejected|
  {
    hide BuildRow, Figures;
    if subs == [] {
      assert done + subs == done;
    } else {
      var n := |subs| - 1;
      var before := Accept(g, done + subs[..n]);
      LeaveNothingIff(g, done, subs[..n]);
      AcceptStep(g, done, subs, n);
      assert subs[..n + 1] == subs && subs == subs[..n] + [subs[n]];
      UnpricedIff(g, subs[n], |before.rows| + 1);
    }
  }

  /** An item of the bill vanishes, without a row and without a refusal, exactly when it runs over the line limit,
      whatever it prints, or none of its sub-blocks prints three figures. */
  lemma ItemVanishesIff(g: Grammar, items: seq<Line>, starts: seq<nat>, i: nat, done: seq<SubBlock>)
    requires i < |starts| && starts[i] < |items|
    ensures var block := ItemLines(g, items, starts, i);
            Accept(g, done + ItemBlock(g, items, starts, i)) == Accept(g, done)
            <==> || |block| > MAX_DESCRIPTION_LINES + 8
                 || forall sub :: sub in SubBlocks(g, HeadOf(g, items[starts[i]]).digits, items[starts[i]].page, block) ==>
                      |Figures(g, sub.lines)| < 3
  {
    hide Accept, SubBlocks, HeadOf, Figures, ItemLines;
    LeaveNothingIff(g, done, ItemBlock(g, items, starts, i));
  }

  predicate TripleAt(figures: seq<Figure>, k: nat)
    requires k + 3 <= |figures|
  {
    Closes(figures[k].value, figures[k + 1].value, figures[k + 2].value)
  }

  /** Three figures before the last three agree with each other. */
  ghost predicate HoldsAnotherTriple(figures: seq<Figure>) {
    exists k: nat :: k + 6 <= |figures| && TripleAt(figures, k)
  }

  /** A block that holds another complete triple is accepted all the same, and only its last three figures are
      reported, exactly when that triple does not stand directly before them. */
  lemma TripleMissedIff(g: Grammar, sub: SubBlock, order: nat)
    requires HoldsAnotherTriple(Figures(g, sub.lines))
    ensures var figures := Figures(g, sub.lines);
            && |figures| >= 6
            && (BuildRow(g, sub, order).Priced? <==> !TripleAt(figures, |figures| - 6))
            && (BuildRow(g, sub, order).Priced? ==> RowFigures(BuildRow(g, sub, order).row) == figures[|figures| - 3..])
            && (BuildRow(g, sub, order).Refused? ==>
                  BuildRow(g, sub, order).refusal.earlier + BuildRow(g, sub, order).refusal.last == figures[|figures| - 6..])
  {
    hide Figures, Closes, UnitIn, DescriptionLines;
    var figures := Figures(g, sub.lines);
    assert figures[|figures| - 6..|figures| - 3] + figures[|figures| - 3..] == figures[|figures| - 6..];
  }

  /** Row numbers are the rows' positions, and no row is invented: its figures, page and identifier are
      those of its own sub-block. */
  lemma RowsAreNumbered(g: Grammar, subs: seq<SubBlock>, i: nat)
    requires i < |Accept(g, subs).rows|
    ensures Accept(g, subs).rows[i].order == i + 1
    ensures |PricedAt(g, subs)| == |Accept(g, subs).rows| && PricedAt(g, subs)[i] < |subs|
    ensures var row, sub := Accept(g, subs).rows[i], subs[PricedAt(g, subs)[i]];
            && row.itemIdentifier == sub.identifier && row.page == sub.page
            && var figures := Figures(g, sub.lines);
               |figures| >= 3 && RowFigures(row) == figures[|figures| - 3..]
  {
    EveryPricedSubBlockIsARow(g, subs);
    RowTakesLastThree(g, subs[PricedAt(g, subs)[i]], i + 1);
  }

  /** Item blocks are consecutive, disjoint pieces of the bill, from item 1 to the bill's own total row:
      every line of the table from the first item on is in exactly one of them, and piece `i` opens with
      the line numbered `i + 1`. */
  lemma ItemBlocksConserve(g: Grammar, lines: seq<Line>)
    requires Starts(g, lines) != []
    ensures var items := Table(g, lines);
            var starts := Starts(g, items);
            && starts != [] && starts[0] == Starts(g, lines)[0] && Increasing(starts, |items|)
            && items == items[..starts[0]] + Concat(Pieces(items, starts))
            && (forall i :: 0 <= i < |starts| ==>
                  Piece(items, starts, i) != [] && Continues(g, Piece(items, starts, i)[0], i + 1))
            && (forall k :: starts[0] < k < |items| ==> !g.totalLabel(items[k].text))
    ensures Table(g, lines) <= lines
    ensures Table(g, lines) == lines || g.totalLabel(lines[|Table(g, lines)|].text)
  {
    var items := Table(g, lines);
    var starts, all := Starts(g, items), Starts(g, lines);
    assert lines[..|items|] == items;
    StartsAreNumbered(g, items);
    FirstStartIsFirst(g, lines);
    FirstStart(g, lines, items);
    PiecesConserve(items, starts, 0);
    assert Pieces(items, starts)[0..] == Pieces(items, starts);
    assert items == items[..starts[0]] + items[starts[0]..];
    PiecesOpenItems(g, items);
  }

  lemma PiecesOpenItems(g: Grammar, items: seq<Line>)
    ensures var starts := Starts(g, items);
            forall i :: 0 <= i < |starts| ==>
              Piece(items, starts, i) != [] && Continues(g, Piece(items, starts, i)[0], i + 1)
  {
    var starts := Starts(g, items);
    StartsAreNumbered(g, items);
    forall i | 0 <= i < |starts|
      ensures Piece(items, starts, i) != [] && Continues(g, Piece(items, starts, i)[0], i + 1)
    {
      PieceBounds(starts, i, |items|);
      assert Continues(g, items[starts[i]], i + 1);
    }
  }

  /** The first start is the first line numbered 1. */
  lemma {:induction false} FirstStartIsFirst(g: Grammar, lines: seq<Line>)
    ensures Starts(g, lines) == [] ==> forall line :: line in lines ==> !Continues(g, line, 1)
    ensures var starts := Starts(g, lines);
            starts != [] ==> starts[0] < |lines| && Continues(g, lines[starts[0]], 1)
                             && forall line :: line in lines[..starts[0]] ==> !Continues(g, line, 1)
  {
    if lines != [] {
      var n := |lines| - 1;
      FirstStartIsFirst(g, lines[..n]);
      assert lines == lines[..n] + [lines[n]];
      var before := Starts(g, lines[..n]);
      if before != [] { assert lines[..n][..before[0]] == lines[..before[0]]; }
    }
  }

  /** Cutting after the first item keeps it the first item. */
  lemma FirstStart(g: Grammar, lines: seq<Line>, items: seq<Line>)
    requires items <= lines && Starts(g, lines) != [] && Starts(g, lines)[0] < |items|
    ensures Starts(g, items) != [] && Starts(g, items)[0] == Starts(g, lines)[0]
  {
    var first := Starts(g, lines)[0];
    FirstStartIsFirst(g, lines);
    FirstStartIsFirst(g, items);
    assert items[first] in items;
  }
}
