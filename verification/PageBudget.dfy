/** Spending a character budget over a document's pages, in page order. Shared by the text-layer reader
    and by transcription. */
module PageBudget {
  import opened Sequences

  datatype PageText = PageText(number: nat, text: string)

  datatype DocumentText = DocumentText(pages: seq<PageText>, pageCount: nat, truncated: bool)

  /** Pages kept within a budget, and whether the budget cut anything off. */
  datatype Spent = Spent(pages: seq<PageText>, cut: bool)

  /** Offered in order: a page is cut to what is left of the budget, and once nothing is left the next
      page stops the read. */
  ghost function Spend(offered: seq<PageText>, budget: int): Spent {
    if offered == [] then Spent([], false)
    else if budget <= 0 then Spent([], true)
    else if |offered[0].text| > budget then
      Spent([PageText(offered[0].number, offered[0].text[..budget])] + Spend(offered[1..], 0).pages, true)
    else
      var rest := Spend(offered[1..], budget - |offered[0].text|);
      Spent([offered[0]] + rest.pages, rest.cut)
  }

  function TextOf(pages: seq<PageText>): string {
    if pages == [] then "" else pages[0].text + TextOf(pages[1..])
  }

  function Prefix(s: string, k: int): string {
    if k <= 0 then "" else if k >= |s| then s else s[..k]
  }

  /** What is kept is exactly the beginning of what was offered, as much as the budget allows. */
  lemma {:induction false} KeptIsPrefix(offered: seq<PageText>, budget: int)
    ensures TextOf(Spend(offered, budget).pages) == Prefix(TextOf(offered), budget)
  {
    if offered != [] && budget > 0 {
      var first, rest := offered[0].text, TextOf(offered[1..]);
      if |first| > budget {
        KeptIsPrefix(offered[1..], 0);
        assert (first + rest)[..budget] == first[..budget] + "";
      } else {
        KeptIsPrefix(offered[1..], budget - |first|);
        PrefixOfSum(first, rest, budget);
      }
    }
  }

  lemma PrefixOfSum(a: string, b: string, k: int)
    requires k >= |a|
    ensures Prefix(a + b, k) == a + Prefix(b, k - |a|)
  {
    if |a| < k < |a| + |b| { assert (a + b)[..k] == a + b[..k - |a|]; }
  }

  /** So the budget is never overspent. */
  lemma NeverOverspent(offered: seq<PageText>, budget: int)
    ensures |TextOf(Spend(offered, budget).pages)| <= if budget > 0 then budget else 0
  {
    KeptIsPrefix(offered, budget);
  }

  /** Pages are kept in order from the first, and only the text of the last can be shortened. */
  lemma {:induction false} KeptPagesInOrder(offered: seq<PageText>, budget: int)
    ensures var kept := Spend(offered, budget).pages;
            && |kept| <= |offered|
            && (forall i :: 0 <= i < |kept| ==> kept[i].number == offered[i].number && kept[i].text <= offered[i].text)
            && (forall i :: 0 <= i < |kept| - 1 ==> kept[i] == offered[i])
    ensures !Spend(offered, budget).cut ==> Spend(offered, budget).pages == offered
  {
    if offered != [] && budget > 0 {
      var left := if |offered[0].text| > budget then 0 else budget - |offered[0].text|;
      KeptPagesInOrder(offered[1..], left);
      var kept, rest := Spend(offered, budget).pages, Spend(offered[1..], left).pages;
      assert |kept| == 1 + |rest| && forall i :: 0 < i < |kept| ==> kept[i] == rest[i - 1] && offered[i] == offered[1..][i - 1];
    }
  }

  /** The cut is reported exactly when text was lost, or when the budget was used up before the last
      page was reached. */
  lemma {:induction false} CutExactly(offered: seq<PageText>, budget: int)
    requires offered != []
    ensures Spend(offered, budget).cut
            <==> |TextOf(offered)| > budget || |TextOf(offered[..|offered| - 1])| >= budget
  {
    var last := |offered| - 1;
    if |offered| == 1 {
      assert offered[1..] == [] && offered[..0] == [];
      assert TextOf(offered) == offered[0].text + TextOf([]);
    } else {
      assert offered[..last][0] == offered[0] && offered[..last][1..] == offered[1..][..last - 1];
      if budget > 0 {
        CutExactly(offered[1..], budget - |offered[0].text|);
      }
    }
  }

  // ---- The text layer ----

  datatype Extraction = BadLimits | Extracted(document: DocumentText)

  function Numbered(texts: seq<string>): seq<PageText> {
    seq(|texts|, i requires 0 <= i < |texts| => PageText(i + 1, texts[i]))
  }

  function Least(a: nat, b: nat): nat { if a <= b then a else b }

  /** `texts` holds what each page yields: its text, or nothing for a page that cannot be read. */
  method ExtractText(texts: seq<string>, maxPages: int, maxChars: int) returns (result: Extraction)
    ensures maxPages < 1 || maxChars < 1 <==> result.BadLimits?
    ensures result.Extracted? ==>
              var spent := Spend(Numbered(texts[..Least(|texts|, maxPages)]), maxChars);
              result.document == DocumentText(spent.pages, |texts|, |texts| > maxPages || spent.cut)
  {
    if maxPages < 1 || maxChars < 1 { return BadLimits; }
    var pages: seq<PageText> := [];
    var budget := maxChars;
    var truncated := |texts| > maxPages;
    var limit := Least(|texts|, maxPages);
    ghost var offered := Numbered(texts[..limit]);
    ghost var spent := Spend(offered, maxChars);
    assert offered[0..] == offered;
    var index := 0;
    while index < limit
      invariant 0 <= index <= limit && budget >= 0
      invariant spent.pages == pages + Spend(offered[index..], budget).pages
      invariant spent.cut || |texts| > maxPages
                <==> truncated || Spend(offered[index..], budget).cut
    {
      if budget <= 0 {
        truncated := true;
        break;
      }
      assert offered[index..][1..] == offered[index + 1..];
      var text := texts[index];
      if |text| > budget {
        text := text[..budget];
        truncated := true;
      }
      budget := budget - |text|;
      Associative(pages, [PageText(index + 1, text)], Spend(offered[index + 1..], budget).pages);
      pages := pages + [PageText(index + 1, text)];
      index := index + 1;
    }
    return Extracted(DocumentText(pages, |texts|, truncated));
  }

  /** When the text-layer reader says nothing was truncated, and only then, every page is there and the
      budget outlasted all pages before the last. */
  lemma TruncatedExactly(texts: seq<string>, maxPages: nat, maxChars: nat)
    requires maxPages >= 1 && maxChars >= 1 && texts != []
    ensures var all := Numbered(texts);
            var spent := Spend(Numbered(texts[..Least(|texts|, maxPages)]), maxChars);
            var truncated := |texts| > maxPages || spent.cut;
            && (!truncated ==> |spent.pages| == |texts| && forall i :: 0 <= i < |texts| ==> spent.pages[i] == PageText(i + 1, texts[i]))
            && (!truncated <==> |texts| <= maxPages && |TextOf(all)| <= maxChars
                                && |TextOf(all[..|texts| - 1])| < maxChars)
  {
    if |texts| <= maxPages {
      assert texts[..|texts|] == texts;
      KeptPagesInOrder(Numbered(texts), maxChars);
      CutExactly(Numbered(texts), maxChars);
    }
  }
}
