/** Reading whichever bill a document holds: the heading decides the layout, and where reading starts. */
module BillDocument {
  import opened Options
  import opened Sequences
  import opened BillReader
  import L = LineLayout

  /** The number of the first page that carries the bill's heading and both column headers. */
  function TableStart(pages: seq<Page>): Option<int> {
    if pages == [] then None
    else if pages[0].opensTable then Some(pages[0].number)
    else TableStart(pages[1..])
  }

  predicate IsKept(g: Grammar, line: string) {
    line != "" && !g.pageMarker(line)
  }

  function KeptLines(g: Grammar, number: int, lines: seq<string>): seq<Line> {
    if lines == [] then []
    else
      KeptLines(g, number, lines[..|lines| - 1])
      + if IsKept(g, lines[|lines| - 1]) then [Line(number, lines[|lines| - 1])] else []
  }

  /** The lines of the bill, each with its page, from the table's page on. */
  function BillLines(g: Grammar, pages: seq<Page>, start: int): seq<Line> {
    if pages == [] then []
    else
      var page := pages[|pages| - 1];
      BillLines(g, pages[..|pages| - 1], start) + if page.number < start then [] else KeptLines(g, page.number, page.lines)
  }

  method FindTablePage(pages: seq<Page>) returns (start: Option<int>)
    ensures start == TableStart(pages)
  {
    var i := 0;
    assert pages[0..] == pages;
    while i < |pages|
      invariant 0 <= i <= |pages|
      invariant TableStart(pages) == TableStart(pages[i..])
    {
      assert pages[i..][1..] == pages[i + 1..];
      if pages[i].opensTable { return Some(pages[i].number); }
      i := i + 1;
    }
    start := None;
  }

  method CollectLines(g: Grammar, pages: seq<Page>, start: int) returns (numbered: seq<Line>)
    ensures numbered == BillLines(g, pages, start)
  {
    numbered := [];
    for p := 0 to |pages|
      invariant numbered == BillLines(g, pages[..p], start)
    {
      assert pages[..p + 1][..p] == pages[..p];
      var page := pages[p];
      if page.number < start {
        assert numbered + [] == numbered;
        continue;
      }
      ghost var earlier := numbered;
      for i := 0 to |page.lines|
        invariant numbered == earlier + KeptLines(g, page.number, page.lines[..i])
      {
        assert page.lines[..i + 1][..i] == page.lines[..i];
        if IsKept(g, page.lines[i]) { numbered := numbered + [Line(page.number, page.lines[i])]; }
      }
      assert page.lines[..|page.lines|] == page.lines;
    }
    assert pages[..|pages|] == pages;
  }

  /** The line layout is tried only when no page opens a table, so it cannot change what the other reads. */
  method ReadPdfBoq(g: Grammar, h: L.RowGrammar, pages: seq<Page>) returns (boq: PdfBoq)
    ensures TableStart(pages).Some? ==> boq == HeadingLayout(g, BillLines(g, pages, TableStart(pages).value))
    ensures TableStart(pages).None? ==>
              && boq.rows == L.After(h, L.Flatten(pages)).rows && boq.rejected == []
              && boq.firstPage == (if boq.rows == [] then None else Some(boq.rows[0].page))
              && L.IsFirstCovering(L.After(h, L.Flatten(pages)).totals, L.RowSum(boq.rows), boq.statedTotal)
  {
    var start := FindTablePage(pages);
    if start.None? {
      boq := L.ReadLineLayout(h, pages);
    } else {
      var numbered := CollectLines(g, pages, start.value);
      boq := ReadHeadingLayout(g, numbered);
    }
  }

  // ---- Where rows can come from ----

  lemma {:induction false} KeptLinesExact(g: Grammar, number: int, lines: seq<string>)
    ensures forall line :: line in KeptLines(g, number, lines) <==> line.page == number && line.text in lines && IsKept(g, line.text)
  {
    if lines != [] {
      KeptLinesExact(g, number, lines[..|lines| - 1]);
      assert lines == lines[..|lines| - 1] + [lines[|lines| - 1]];
    }
  }

  /** The bill's lines are exactly the lines of the pages from the table's page on, without blank lines and
      page markers. */
  lemma {:induction false} BillLinesExact(g: Grammar, pages: seq<Page>, start: int)
    ensures forall line :: line in BillLines(g, pages, start) <==>
              exists page :: page in pages && page.number >= start && line in KeptLines(g, page.number, page.lines)
  {
    if pages != [] {
      BillLinesExact(g, pages[..|pages| - 1], start);
      assert pages == pages[..|pages| - 1] + [pages[|pages| - 1]];
    }
  }

  /** The table starts on the first page that opens one. */
  lemma {:induction false} TableStartsFirst(pages: seq<Page>)
    ensures match TableStart(pages)
            case None => forall page :: page in pages ==> !page.opensTable
            case Some(number) => exists i :: 0 <= i < |pages| && pages[i].opensTable && pages[i].number == number
                                             && forall j :: 0 <= j < i ==> !pages[j].opensTable
  {
    if pages != [] {
      TableStartsFirst(pages[1..]);
      assert pages == [pages[0]] + pages[1..];
      if !pages[0].opensTable && TableStart(pages).Some? {
        var i :| 0 <= i < |pages[1..]| && pages[1..][i].opensTable && pages[1..][i].number == TableStart(pages).value
                 && forall j :: 0 <= j < i ==> !pages[1..][j].opensTable;
        assert pages[i + 1].opensTable && forall j :: 0 < j < i + 1 ==> pages[j] == pages[1..][j - 1];
      }
    }
  }

  lemma {:induction false} EachLineKept(g: Grammar, number: int, before: seq<string>, line: string, behind: seq<string>)
    ensures KeptLines(g, number, before + [line] + behind)
            == KeptLines(g, number, before) + (if line == "" || g.pageMarker(line) then [] else [Line(number, line)]) + KeptLines(g, number, behind)
    ensures KeptLines(g, number, []) == []
  {
    if behind == [] {
      assert before + [line] + behind == before + [line];
      assert (before + [line])[..|before|] == before;
    } else {
      var n := |behind| - 1;
      assert (before + [line] + behind)[..|before| + 1 + n] == before + [line] + behind[..n];
      EachLineKept(g, number, before, line, behind[..n]);
    }
  }

  /** The bill is read page after page: a page from the table's on adds its lines that are neither blank nor a page
      marker, in order, and one before it adds nothing. */
  lemma {:induction false} EachPageRead(g: Grammar, before: seq<Page>, page: Page, behind: seq<Page>, start: int)
    ensures BillLines(g, before + [page] + behind, start)
            == BillLines(g, before, start) + (if page.number >= start then KeptLines(g, page.number, page.lines) else [])
               + BillLines(g, behind, start)
    ensures BillLines(g, [], start) == []
  {
    if behind == [] {
      assert before + [page] + behind == before + [page];
      assert (before + [page])[..|before|] == before;
    } else {
      var n := |behind| - 1;
      assert (before + [page] + behind)[..|before| + 1 + n] == before + [page] + behind[..n];
      EachPageRead(g, before, page, behind[..n], start);
    }
  }

  ghost predicate PagesWithin(subs: seq<SubBlock>, lines: seq<Line>) {
    forall sub :: sub in subs ==> exists line :: line in lines && line.page == sub.page
  }

  lemma SubBlocksKeepPage(g: Grammar, identifier: string, page: int, block: seq<Line>)
    ensures forall sub :: sub in SubBlocks(g, identifier, page, block) ==> sub.page == page
  {
  }

  lemma ItemBlockPage(g: Grammar, items: seq<Line>, starts: seq<nat>, i: nat)
    requires i < |starts| && starts[i] < |items|
    ensures forall sub :: sub in ItemBlock(g, items, starts, i) ==> sub.page == items[starts[i]].page
  {
    hide SubBlocks;
    var head, page := HeadOf(g, items[starts[i]]), items[starts[i]].page;
    var block := (if head.remainder != "" then [Line(page, head.remainder)] else []) + Rest(Piece(items, starts, i));
    SubBlocksKeepPage(g, head.digits, page, block);
  }

  lemma {:induction false} SubBlockPages(g: Grammar, items: seq<Line>, starts: seq<nat>, n: nat)
    requires n <= |starts| && forall k :: 0 <= k < |starts| ==> starts[k] < |items|
    ensures PagesWithin(SubBlocksOf(g, items, starts, n), items)
  {
    hide ItemBlock;
    if n > 0 {
      SubBlockPages(g, items, starts, n - 1);
      ItemBlockPage(g, items, starts, n - 1);
      assert items[starts[n - 1]] in items;
    }
  }

  /** No row is placed before the page the table starts on, however often the bill is mentioned earlier. */
  lemma RowsStartAtTheTable(g: Grammar, pages: seq<Page>, i: nat)
    requires TableStart(pages).Some?
    requires i < |HeadingLayout(g, BillLines(g, pages, TableStart(pages).value)).rows|
    ensures var row := HeadingLayout(g, BillLines(g, pages, TableStart(pages).value)).rows[i];
            row.page >= TableStart(pages).value && exists page :: page in pages && page.number == row.page
  {
    var start := TableStart(pages).value;
    var lines := BillLines(g, pages, start);
    var items := Table(g, lines);
    var subs := TableSubBlocks(g, items);
    StartsAreNumbered(g, items);
    SubBlockPages(g, items, Starts(g, items), |Starts(g, items)|);
    RowsAreNumbered(g, subs, i);
    var sub := subs[PricedAt(g, subs)[i]];
    assert sub in subs;
    var line :| line in items && line.page == sub.page;
    assert line in lines;
    BillLinesExact(g, pages, start);
    var page :| page in pages && page.number >= start && line in KeptLines(g, page.number, page.lines);
    KeptLinesExact(g, page.number, page.lines);
  }
}
