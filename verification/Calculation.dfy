/** The calculation layer: facts in, derived values out, no verdicts; and the payment path that feeds it
    only what selection chose. */
module Calculation {
  import opened Options
  import opened Ordering
  import opened Sequences
  import opened Text
  import opened Selection

  const CONTRACTED_QUANTITY := "contracted_quantity"
  const MEASURED_QUANTITY := "measured_quantity"
  const CLAIMED_QUANTITY := "cumulative_claim_quantity"
  const CONTRACT_RATE := "contract_rate"
  const CLAIMED_RATE := "claimed_rate"
  const LINE_AMOUNT := "line_amount"

  datatype Kind = QuantityVariance | RemainingContractQuantity | RateVariance | UnsupportedAmount | BillItemsTotal

  datatype Calculated = Calculated(
    kind: Kind, value: real, unit: Option<string>, currency: Option<string>, inputs: map<string, Fact>)

  type ByType = map<string, Fact>

  function Numeric(facts: ByType, factType: string): Option<real> {
    if factType in facts && facts[factType].numericValue.Some?
    then Some(facts[factType].numericValue.value.Value()) else None
  }

  /** Two unit spellings are the same word; `fold` is case folding. */
  predicate SameUnit(fold: string -> string, left: string, right: string) {
    fold(Strip(left)) == fold(Strip(right))
  }

  datatype Pair = Pair(left: real, right: real, unit: Option<string>)

  function ComparablePair(fold: string -> string, facts: ByType, left: string, right: string): Option<Pair> {
    if Numeric(facts, left).None? || Numeric(facts, right).None? then None
    else
      var l, r := facts[left].unit, facts[right].unit;
      if l.Some? && r.Some? && !SameUnit(fold, l.value, r.value) then None
      else Some(Pair(Numeric(facts, left).value, Numeric(facts, right).value,
                     if l.Some? && l.value != "" then l else r))
  }

  function Difference(fold: string -> string, kind: Kind, facts: ByType, left: string, right: string): Option<Calculated> {
    var pair := ComparablePair(fold, facts, left, right);
    if pair.None? then None
    else Some(Calculated(kind, pair.value.left - pair.value.right, pair.value.unit, None,
                         map[left := facts[left], right := facts[right]]))
  }

  function ComputeQuantityVariance(fold: string -> string, facts: ByType): Option<Calculated> {
    Difference(fold, QuantityVariance, facts, CLAIMED_QUANTITY, MEASURED_QUANTITY)
  }

  function ComputeRemainingQuantity(fold: string -> string, facts: ByType): Option<Calculated> {
    Difference(fold, RemainingContractQuantity, facts, CONTRACTED_QUANTITY, CLAIMED_QUANTITY)
  }

  function ComputeRateVariance(facts: ByType): Option<Calculated> {
    var claimed, contracted := Numeric(facts, CLAIMED_RATE), Numeric(facts, CONTRACT_RATE);
    if claimed.None? || contracted.None? then None
    else Some(Calculated(RateVariance, claimed.value - contracted.value, None, facts[CONTRACT_RATE].currency,
                         map[CLAIMED_RATE := facts[CLAIMED_RATE], CONTRACT_RATE := facts[CONTRACT_RATE]]))
  }

  function ComputeUnsupportedAmount(facts: ByType, variance: Option<real>): Option<Calculated> {
    var rate := Numeric(facts, CONTRACT_RATE);
    if variance.None? || rate.None? then None
    else
      var exposure := if variance.value > 0.0 then variance.value else 0.0;
      Some(Calculated(UnsupportedAmount, exposure * rate.value, None, facts[CONTRACT_RATE].currency,
                      map[CONTRACT_RATE := facts[CONTRACT_RATE]]))
  }

  function Optional<T>(x: Option<T>): seq<T> {
    if x.Some? then [x.value] else []
  }

  /** The four calculations in order; the last consumes the variance the first produced. */
  ghost function WorkItemResults(fold: string -> string, facts: ByType): seq<Calculated> {
    var variance := ComputeQuantityVariance(fold, facts);
    Optional(variance) + Optional(ComputeRemainingQuantity(fold, facts)) + Optional(ComputeRateVariance(facts))
    + Optional(ComputeUnsupportedAmount(facts, if variance.Some? then Some(variance.value.value) else None))
  }

  // ---- One fact per type ----

  ghost function KeptByType(facts: seq<Fact>): ByType {
    if facts == [] then map[]
    else
      var last, before := facts[|facts| - 1], KeptByType(facts[..|facts| - 1]);
      if last.factType !in before || Less(before[last.factType].extractorVersion, last.extractorVersion)
      then before[last.factType := last] else before
  }

  method NewestByType(facts: seq<Fact>) returns (newest: ByType)
    ensures newest == KeptByType(facts)
  {
    newest := map[];
    for i := 0 to |facts|
      invariant newest == KeptByType(facts[..i])
    {
      assert facts[..i + 1][..i] == facts[..i];
      var fact := facts[i];
      if fact.factType !in newest || Less(newest[fact.factType].extractorVersion, fact.extractorVersion) {
        newest := newest[fact.factType := fact];
      }
    }
    assert facts[..|facts|] == facts;
  }

  /** `facts` lists the values of `chosen`, each filed under its own type. */
  ghost predicate Lists(facts: seq<Fact>, chosen: ByType) {
    && (forall t :: t in chosen ==> chosen[t].factType == t)
    && (forall f :: f in facts <==> f.factType in chosen && chosen[f.factType] == f)
  }

  lemma {:induction false} ListingKeepsChosen(facts: seq<Fact>, chosen: ByType)
    requires Lists(facts, chosen)
    ensures KeptByType(facts) == chosen
  {
    KeptFromFacts(facts);
    forall t | t in chosen ensures t in KeptByType(facts) && KeptByType(facts)[t] == chosen[t] {
      assert chosen[t] in facts;
      assert KeptByType(facts)[t] in facts;
    }
    forall t | t in KeptByType(facts) ensures t in chosen {
      assert KeptByType(facts)[t] in facts;
    }
  }

  lemma {:induction false} KeptFromFacts(facts: seq<Fact>)
    ensures forall f :: f in facts ==> f.factType in KeptByType(facts)
    ensures forall t :: t in KeptByType(facts) ==> KeptByType(facts)[t] in facts && KeptByType(facts)[t].factType == t
  {
    if facts != [] {
      KeptFromFacts(facts[..|facts| - 1]);
      assert facts == facts[..|facts| - 1] + [facts[|facts| - 1]];
    }
  }

  method ComputeForWorkItem(fold: string -> string, facts: seq<Fact>) returns (results: seq<Calculated>)
    ensures results == WorkItemResults(fold, KeptByType(facts))
  {
    var newest := NewestByType(facts);
    results := [];
    var steps := [ComputeQuantityVariance(fold, newest), ComputeRemainingQuantity(fold, newest), ComputeRateVariance(newest)];
    for i := 0 to 3
      invariant i == 0 ==> results == []
      invariant i == 1 ==> results == Optional(steps[0])
      invariant i == 2 ==> results == Optional(steps[0]) + Optional(steps[1])
      invariant i == 3 ==> results == Optional(steps[0]) + Optional(steps[1]) + Optional(steps[2])
    {
      if steps[i].Some? { results := results + [steps[i].value]; }
    }
    var variance := if steps[0].Some? then Some(steps[0].value.value) else None;
    var exposure := ComputeUnsupportedAmount(newest, variance);
    if exposure.Some? { results := results + [exposure.value]; }
  }

  // ---- The payment path ----

  ghost function Chosen(documents: Documents, facts: seq<Fact>): ByType {
    map t | t in SelectAll(documents, facts) && SelectAll(documents, facts)[t].fact.Some? :: SelectAll(documents, facts)[t].fact.value
  }

  ghost function Derived(fold: string -> string, documents: Documents, facts: seq<Fact>): seq<Calculated> {
    WorkItemResults(fold, Chosen(documents, facts))
  }

  /** Selection, then calculation on the selected facts only. */
  method AnalyseWorkItem(fold: string -> string, facts: seq<Fact>, documents: Documents)
    returns (selections: map<string, Selected>, chosen: ByType, calculated: seq<Calculated>)
    ensures selections == SelectAll(documents, facts)
    ensures chosen == Chosen(documents, facts)
    ensures calculated == Derived(fold, documents, facts)
  {
    selections := SelectFacts(facts, documents);
    chosen := map t | t in selections && selections[t].fact.Some? :: selections[t].fact.value;
    assert chosen == Chosen(documents, facts);
    ChosenIsFiled(documents, facts, chosen);
    var values := ListValues(chosen);
    ListingKeepsChosen(values, chosen);
    calculated := ComputeForWorkItem(fold, values);
  }

  method ListValues(chosen: ByType) returns (values: seq<Fact>)
    requires forall t :: t in chosen ==> chosen[t].factType == t
    ensures Lists(values, chosen)
  {
    values := [];
    var pending := chosen.Keys;
    while pending != {}
      invariant pending <= chosen.Keys
      invariant forall f :: f in values <==> f.factType in chosen.Keys - pending && chosen[f.factType] == f
    {
      var t :| t in pending;
      values := values + [chosen[t]];
      pending := pending - {t};
    }
  }

  lemma ChosenIsFiled(documents: Documents, facts: seq<Fact>, chosen: ByType)
    requires chosen == Chosen(documents, facts)
    ensures forall t :: t in chosen ==> chosen[t].factType == t
  {
    forall t | t in chosen ensures chosen[t].factType == t {
      ChosenIsLive(t, documents, OfType(facts, t));
      OfTypeExact(facts, t);
    }
  }

  // ---- What the payment path promises ----

  lemma {:induction false} FiltersCommute(documents: Documents, facts: seq<Fact>, t: string)
    ensures ActiveFacts(documents, OfType(facts, t)) == OfType(ActiveFacts(documents, facts), t)
  {
    if facts != [] {
      var n := |facts| - 1;
      var last := [facts[n]];
      FiltersCommute(documents, facts[..n], t);
      var typed, active := OfType(facts[..n], t), ActiveFacts(documents, facts[..n]);
      assert (typed + last)[..|typed|] == typed && (active + last)[..|active|] == active;
      assert typed + [] == typed && active + [] == active;
    }
  }

  /** Whatever the withdrawn evidence says, and whether it is there at all, the facts chosen and every
      value derived from them depend on the active evidence alone. */
  lemma WithdrawnEvidenceDoesNotInterfere(fold: string -> string, documents: Documents, a: seq<Fact>, b: seq<Fact>)
    requires ActiveFacts(documents, a) == ActiveFacts(documents, b)
    ensures Chosen(documents, a) == Chosen(documents, b)
    ensures Derived(fold, documents, a) == Derived(fold, documents, b)
  {
    ActiveEvidenceDecides(fold, documents, a, documents, b);
  }

  lemma ActiveEvidenceDecides(fold: string -> string, one: Documents, a: seq<Fact>, other: Documents, b: seq<Fact>)
    requires ActiveFacts(one, a) == ActiveFacts(other, b)
    ensures Chosen(one, a) == Chosen(other, b)
    ensures Derived(fold, one, a) == Derived(fold, other, b)
  {
    hide SelectAll, NewestPerClaim, AllAgree, ActiveFacts, OfType, WorkItemResults;
    forall t ensures ChosenFor(one, a, t) == ChosenFor(other, b, t) {
      ChosenForActive(one, a, t);
      ChosenForActive(other, b, t);
    }
    assert forall t :: t in Chosen(one, a) <==> ChosenFor(one, a, t).Some?;
    assert forall t :: t in Chosen(other, b) <==> ChosenFor(other, b, t).Some?;
  }

  ghost function ChosenFor(documents: Documents, facts: seq<Fact>, t: string): Option<Fact> {
    if t in Chosen(documents, facts) then Some(Chosen(documents, facts)[t]) else None
  }

  lemma ChosenForActive(documents: Documents, facts: seq<Fact>, t: string)
    ensures var candidates := NewestPerClaim(OfType(ActiveFacts(documents, facts), t));
            ChosenFor(documents, facts, t) == if candidates != [] && AllAgree(candidates) then Some(candidates[0]) else None
  {
    FiltersCommute(documents, facts, t);
    ChoosesIffAgreed(t, documents, OfType(facts, t));
    OfTypeExact(facts, t);
    var candidates := NewestPerClaim(ActiveFacts(documents, OfType(facts, t)));
    if candidates != [] {
      KeptAreNewest(ActiveFacts(documents, OfType(facts, t)));
      ActiveExact(documents, OfType(facts, t));
      assert candidates[0] in candidates;
    }
  }

  /** Editing retracted facts, or facts of documents that are not current, is such a change. */
  lemma {:induction false} EditingWithdrawnFacts(documents: Documents, a: seq<Fact>, b: seq<Fact>)
    requires |a| == |b|
    requires forall i :: 0 <= i < |a| ==> a[i] == b[i] || (!IsActive(documents, a[i]) && !IsActive(documents, b[i]))
    ensures ActiveFacts(documents, a) == ActiveFacts(documents, b)
  {
    if a != [] { EditingWithdrawnFacts(documents, a[..|a| - 1], b[..|b| - 1]); }
  }

  /** No calculation receives a fact type whose evidence conflicts: each input was chosen, is live, and
      is filed under its own type. */
  lemma CalculationsReadSettledFacts(fold: string -> string, documents: Documents, facts: seq<Fact>, c: Calculated, t: string)
    requires c in Derived(fold, documents, facts) && t in c.inputs
    ensures t in SelectAll(documents, facts) && !SelectAll(documents, facts)[t].conflicting
    ensures SelectAll(documents, facts)[t].fact == Some(c.inputs[t])
    ensures c.inputs[t].factType == t && c.inputs[t] in facts && IsActive(documents, c.inputs[t])
  {
    var chosen := Chosen(documents, facts);
    InputsAreChosen(fold, chosen, c, t);
    ChosenIsLive(t, documents, OfType(facts, t));
    ChoosesIffAgreed(t, documents, OfType(facts, t));
    OfTypeExact(facts, t);
  }

  lemma InputsAreChosen(fold: string -> string, facts: ByType, c: Calculated, t: string)
    requires c in WorkItemResults(fold, facts) && t in c.inputs
    ensures t in facts && c.inputs[t] == facts[t]
  {
    var variance := ComputeQuantityVariance(fold, facts);
    assert c in Optional(variance) || c in Optional(ComputeRemainingQuantity(fold, facts))
        || c in Optional(ComputeRateVariance(facts))
        || c in Optional(ComputeUnsupportedAmount(facts, if variance.Some? then Some(variance.value.value) else None));
  }

  ghost predicate Produces(fold: string -> string, facts: ByType, kind: Kind) {
    exists c :: c in WorkItemResults(fold, facts) && c.kind == kind
  }

  ghost predicate StatesNumber(facts: ByType, factType: string) {
    factType in facts && facts[factType].numericValue.Some?
  }

  ghost function Stated(facts: ByType, factType: string): real
    requires StatesNumber(facts, factType)
  {
    facts[factType].numericValue.value.Value()
  }

  /** What each result is, in the figures the facts state: by how much the claim exceeds the measurement, how much of
      the contract is left, by how much the claimed rate exceeds the contracted one; and which facts it cites. */
  lemma ResultsMean(fold: string -> string, facts: ByType, c: Calculated)
    requires c in WorkItemResults(fold, facts)
    ensures c.kind == QuantityVariance ==>
              && StatesNumber(facts, "cumulative_claim_quantity") && StatesNumber(facts, "measured_quantity")
              && c.value + Stated(facts, "measured_quantity") == Stated(facts, "cumulative_claim_quantity")
              && c.currency.None? && c.inputs.Keys == {"cumulative_claim_quantity", "measured_quantity"}
    ensures c.kind == RemainingContractQuantity ==>
              && StatesNumber(facts, "contracted_quantity") && StatesNumber(facts, "cumulative_claim_quantity")
              && c.value + Stated(facts, "cumulative_claim_quantity") == Stated(facts, "contracted_quantity")
              && c.currency.None? && c.inputs.Keys == {"contracted_quantity", "cumulative_claim_quantity"}
    ensures c.kind == RateVariance ==>
              && StatesNumber(facts, "claimed_rate") && StatesNumber(facts, "contract_rate")
              && c.value + Stated(facts, "contract_rate") == Stated(facts, "claimed_rate")
              && c.unit.None? && c.currency == facts["contract_rate"].currency && c.inputs.Keys == {"claimed_rate", "contract_rate"}
    ensures c.kind == UnsupportedAmount ==>
              && StatesNumber(facts, "contract_rate")
              && c.unit.None? && c.currency == facts["contract_rate"].currency && c.inputs.Keys == {"contract_rate"}
    ensures c.kind in {QuantityVariance, RemainingContractQuantity, RateVariance, UnsupportedAmount}
    ensures forall t :: t in c.inputs ==> t in facts && c.inputs[t] == facts[t]
  {
    hide SameUnit;
    forall t | t in c.inputs ensures t in facts && c.inputs[t] == facts[t] { InputsAreChosen(fold, facts, c, t); }
    OneOfFour(fold, facts, c);
  }

  lemma OneOfFour(fold: string -> string, facts: ByType, c: Calculated)
    ensures var variance := ComputeQuantityVariance(fold, facts);
            c in WorkItemResults(fold, facts)
            <==> || Some(c) == variance || Some(c) == ComputeRemainingQuantity(fold, facts) || Some(c) == ComputeRateVariance(facts)
                 || Some(c) == ComputeUnsupportedAmount(facts, if variance.Some? then Some(variance.value.value) else None)
  {
    hide ComputeQuantityVariance, ComputeRemainingQuantity, ComputeRateVariance, ComputeUnsupportedAmount;
  }

  /** Two quantities stand for comparison: both are numbers, and no two different units are stated. */
  ghost predicate Comparable(fold: string -> string, facts: ByType, left: string, right: string) {
    && StatesNumber(facts, left) && StatesNumber(facts, right)
    && (facts[left].unit.Some? && facts[right].unit.Some? ==>
          fold(Strip(facts[left].unit.value)) == fold(Strip(facts[right].unit.value)))
  }

  /** Which results there are. */
  lemma ResultsPresentIff(fold: string -> string, facts: ByType)
    ensures Produces(fold, facts, QuantityVariance) <==> Comparable(fold, facts, "cumulative_claim_quantity", "measured_quantity")
    ensures Produces(fold, facts, RemainingContractQuantity) <==> Comparable(fold, facts, "contracted_quantity", "cumulative_claim_quantity")
    ensures Produces(fold, facts, RateVariance) <==> StatesNumber(facts, "claimed_rate") && StatesNumber(facts, "contract_rate")
    ensures Produces(fold, facts, UnsupportedAmount)
            <==> Comparable(fold, facts, "cumulative_claim_quantity", "measured_quantity") && StatesNumber(facts, "contract_rate")
  {
    hide WorkItemResults, Strip;
    var variance := ComputeQuantityVariance(fold, facts);
    forall c
      ensures c in WorkItemResults(fold, facts)
              <==> || Some(c) == variance || Some(c) == ComputeRemainingQuantity(fold, facts) || Some(c) == ComputeRateVariance(facts)
                   || Some(c) == ComputeUnsupportedAmount(facts, if variance.Some? then Some(variance.value.value) else None)
    {
      OneOfFour(fold, facts, c);
    }
    if variance.Some? { assert variance.value in WorkItemResults(fold, facts); }
    var remaining, rate := ComputeRemainingQuantity(fold, facts), ComputeRateVariance(facts);
    if remaining.Some? { assert remaining.value in WorkItemResults(fold, facts); }
    if rate.Some? { assert rate.value in WorkItemResults(fold, facts); }
    var amount := ComputeUnsupportedAmount(facts, if variance.Some? then Some(variance.value.value) else None);
    if amount.Some? { assert amount.value in WorkItemResults(fold, facts); }
  }

  /** What a work item's exposure is worth: nothing unless the claim runs ahead of measured work, and
      never computed when the two quantities cannot be compared. */
  lemma ExposureMeaning(fold: string -> string, facts: ByType, c: Calculated)
    requires c in WorkItemResults(fold, facts) && c.kind == UnsupportedAmount
    ensures Comparable(fold, facts, "cumulative_claim_quantity", "measured_quantity") && StatesNumber(facts, "contract_rate")
    ensures var claimed, measured := Stated(facts, "cumulative_claim_quantity"), Stated(facts, "measured_quantity");
            var rate := Stated(facts, "contract_rate");
            && (claimed <= measured ==> c.value == 0.0)
            && (claimed > measured ==> c.value + measured * rate == claimed * rate)
  {
    OneOfFour(fold, facts, c);
  }

  /** Comparability does not depend on the order of the two, and passes through a third quantity unless that
      one states no unit and the outer two state different ones. */
  lemma ComparableThroughIff(fold: string -> string, facts: ByType, left: string, middle: string, right: string)
    requires ComparablePair(fold, facts, left, middle).Some? && ComparablePair(fold, facts, middle, right).Some?
    ensures ComparablePair(fold, facts, middle, left).Some?
    ensures ComparablePair(fold, facts, left, right).None?
            <==> && facts[middle].unit.None? && facts[left].unit.Some? && facts[right].unit.Some?
                 && !SameUnit(fold, facts[left].unit.value, facts[right].unit.value)
  {
  }

  /** So the two quantities computed for a work item are in different units exactly when the claim states none
      and the contract and the measurement state different ones. */
  lemma ResultsMixUnitsIff(fold: string -> string, facts: ByType)
    requires ComputeQuantityVariance(fold, facts).Some? && ComputeRemainingQuantity(fold, facts).Some?
    ensures var variance, remaining := ComputeQuantityVariance(fold, facts).value.unit, ComputeRemainingQuantity(fold, facts).value.unit;
            var measured, contracted := facts[MEASURED_QUANTITY].unit, facts[CONTRACTED_QUANTITY].unit;
            (variance.Some? && remaining.Some? && !SameUnit(fold, variance.value, remaining.value))
            <==> && facts[CLAIMED_QUANTITY].unit.None? && measured.Some? && contracted.Some? && contracted.value != ""
                 && !SameUnit(fold, measured.value, contracted.value)
  {
    ComparableThroughIff(fold, facts, CONTRACTED_QUANTITY, CLAIMED_QUANTITY, MEASURED_QUANTITY);
  }

  // ---- The sum of a bill ----

  datatype RowKey = RowKey(row: int, id: nat)

  predicate RowKeyLess(a: RowKey, b: RowKey) {
    a.row < b.row || (a.row == b.row && a.id < b.id)
  }

  const BY_ROW: Fact -> RowKey := (f: Fact) => RowKey(if f.sheetRow.Some? then f.sheetRow.value else 0, f.id)

  predicate IsAmount(f: Fact) {
    f.factType == LINE_AMOUNT && f.numericValue.Some?
  }

  /** The newest extractor version among the line amounts. */
  function NewestAmountVersion(facts: seq<Fact>): Option<string> {
    if facts == [] then None
    else
      var f, before := facts[|facts| - 1], NewestAmountVersion(facts[..|facts| - 1]);
      if IsAmount(f) && (before.None? || Less(before.value, f.extractorVersion)) then Some(f.extractorVersion) else before
  }

  function AmountsOf(facts: seq<Fact>, version: string): seq<Fact> {
    if facts == [] then []
    else
      var f := facts[|facts| - 1];
      AmountsOf(facts[..|facts| - 1], version) + if IsAmount(f) && f.extractorVersion == version then [f] else []
  }

  function SumOf(rows: seq<Fact>): real {
    if rows == [] then 0.0
    else SumOf(rows[..|rows| - 1])
         + if rows[|rows| - 1].numericValue.Some? then rows[|rows| - 1].numericValue.value.Value() else 0.0
  }

  datatype BillSum = BillSum(total: real, rows: seq<Fact>)

  /** One extraction of the bill, in row order, and its sum; absent when no line amount was read. */
  function ComputeBillItemsTotal(facts: seq<Fact>): Option<BillSum> {
    var newest := NewestAmountVersion(facts);
    if newest.None? then None
    else
      var rows := SortBy(RowKeyLess, BY_ROW, AmountsOf(facts, newest.value));
      Some(BillSum(SumOf(rows), rows))
  }

  lemma {:induction false} NewestAmountExact(facts: seq<Fact>)
    ensures NewestAmountVersion(facts).None? ==> forall f :: f in facts ==> !IsAmount(f)
    ensures var v := NewestAmountVersion(facts);
            v.Some? ==>
              && (exists f :: f in facts && IsAmount(f) && f.extractorVersion == v.value)
              && forall f :: f in facts && IsAmount(f) ==> !Less(v.value, f.extractorVersion)
  {
    if facts != [] {
      NewestAmountExact(facts[..|facts| - 1]);
      assert facts == facts[..|facts| - 1] + [facts[|facts| - 1]];
      LessIsStrictTotalOrder();
    }
  }

  lemma {:induction false} AmountsExact(facts: seq<Fact>, version: string)
    requires DistinctBy(BY_ROW, facts)
    ensures DistinctBy(BY_ROW, AmountsOf(facts, version))
    ensures forall f :: f in AmountsOf(facts, version) <==> f in facts && IsAmount(f) && f.extractorVersion == version
  {
    hide IsAmount, BY_ROW;
    if facts != [] {
      var front := facts[..|facts| - 1];
      assert facts == front + [facts[|facts| - 1]];
      assert DistinctBy(BY_ROW, front);
      AmountsExact(front, version);
      forall f | f in front ensures BY_ROW(f) != BY_ROW(facts[|facts| - 1]) {
        var i :| 0 <= i < |front| && front[i] == f;
        assert facts[i] == f;
      }
    }
  }

  /** Sums add up: of nothing there is nothing, of one row its amount, of two lists the two sums. */
  lemma {:induction false} SumsAdd(a: seq<Fact>, b: seq<Fact>)
    ensures SumOf(a + b) == SumOf(a) + SumOf(b) && SumOf([]) == 0.0
    ensures |a| == 1 && a[0].numericValue.Some? ==> SumOf(a) == a[0].numericValue.value.Value()
  {
    if b == [] {
      assert a + b == a;
    } else {
      assert (a + b)[..|a + b| - 1] == a + b[..|b| - 1];
      SumsAdd(a, b[..|b| - 1]);
    }
  }

  /** A stated amount of a line of the bill. */
  ghost predicate IsLineAmount(f: Fact) {
    f.factType == "line_amount" && f.numericValue.Some?
  }

  /** By sheet row, a fact without one as if it stood on row zero, and then by id. */
  ghost predicate ComesBefore(f: Fact, g: Fact) {
    var at, behind := if f.sheetRow.None? then 0 else f.sheetRow.value, if g.sheetRow.None? then 0 else g.sheetRow.value;
    at < behind || (at == behind && f.id < g.id)
  }

  lemma SortedMeansBefore(rows: seq<Fact>)
    requires SortedBy(RowKeyLess, BY_ROW, rows)
    ensures forall i, j :: 0 <= i < j < |rows| ==> ComesBefore(rows[i], rows[j])
  {
    forall i, j | 0 <= i < j < |rows| ensures ComesBefore(rows[i], rows[j]) { assert RowKeyLess(BY_ROW(rows[i]), BY_ROW(rows[j])); }
  }

  /** The bill's rows are exactly the newest extraction's line amounts, and no older reading is mixed in. */
  lemma BillSumReadsOneExtraction(facts: seq<Fact>)
    requires DistinctBy(BY_ROW, facts)
    ensures ComputeBillItemsTotal(facts).None? <==> forall f :: f in facts ==> !IsLineAmount(f)
    ensures ComputeBillItemsTotal(facts).Some? ==>
              var rows := ComputeBillItemsTotal(facts).value.rows;
              && (forall i, j :: 0 <= i < j < |rows| ==> ComesBefore(rows[i], rows[j]))
              && SortedBy(RowKeyLess, BY_ROW, rows) && ComputeBillItemsTotal(facts).value.total == SumOf(rows)
              && forall f :: f in rows <==>
                   f in facts && IsLineAmount(f)
                   && forall g :: g in facts && IsLineAmount(g) ==> !Less(f.extractorVersion, g.extractorVersion)
  {
    hide SumOf, AmountsOf, BY_ROW, NewestAmountVersion, Less;
    NewestAmountExact(facts);
    if NewestAmountVersion(facts).Some? {
      var v := NewestAmountVersion(facts).value;
      AmountsExact(facts, v);
      SortBySorts(RowKeyLess, BY_ROW, AmountsOf(facts, v));
      SortedMeansBefore(SortBy(RowKeyLess, BY_ROW, AmountsOf(facts, v)));
      forall f | f in facts && IsAmount(f)
        ensures f.extractorVersion == v <==> forall g :: g in facts && IsAmount(g) ==> !Less(f.extractorVersion, g.extractorVersion)
      {
        LessTotal(f.extractorVersion, v);
      }
    }
  }

  /** The sum, the rows it was added from and their order do not depend on the order rows were read in. */
  lemma BillSumIgnoresOrder(a: seq<Fact>, b: seq<Fact>)
    requires DistinctBy(BY_ROW, a) && DistinctBy(BY_ROW, b) && multiset(a) == multiset(b)
    ensures ComputeBillItemsTotal(a) == ComputeBillItemsTotal(b)
  {
    hide NewestAmountVersion, AmountsOf, IsAmount, Less;
    SameElements(a, b);
    BillSumReadsOneExtraction(a);
    BillSumReadsOneExtraction(b);
    if ComputeBillItemsTotal(a).Some? {
      SortedByUnique(RowKeyLess, BY_ROW, ComputeBillItemsTotal(a).value.rows, ComputeBillItemsTotal(b).value.rows);
    }
  }
}
