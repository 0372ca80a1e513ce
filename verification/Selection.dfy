/** Choosing which fact of a type governs, and refusing to choose when the evidence conflicts. */
module Selection {
  import opened Options
  import opened Decimals
  import opened Ordering
  import opened Sequences

  datatype VersionState = Active | Superseded | Retired | Unknown

  datatype Fact = Fact(
    id: nat, documentId: string, factType: string, literal: string,
    numericValue: Option<Decimal>, currency: Option<string>, unit: Option<string>,
    sheetRow: Option<int>, extractorVersion: string, retracted: bool)

  type Documents = map<string, VersionState>

  /** A claim is a document and a row; a document-scoped fact has no row. */
  datatype Claim = Claim(documentId: string, row: Option<int>)

  function ClaimOf(f: Fact): Claim {
    Claim(f.documentId, f.sheetRow)
  }

  const AS_CLAIM: Claim -> Claim := (c: Claim) => c

  /** By document, then rowless first, then by row. */
  predicate ClaimLess(a: Claim, b: Claim) {
    || Less(a.documentId, b.documentId)
    || (a.documentId == b.documentId && b.row.Some? && (a.row.None? || a.row.value < b.row.value))
  }

  lemma ClaimLessIsStrictTotalOrder()
    ensures StrictTotalOrder(ClaimLess)
  {
    LessIsStrictTotalOrder();
  }

  // ---- The newest reading of each claim ----

  /** The fact kept for a claim: the newest extractor version, the first seen among equals. */
  ghost function Kept(facts: seq<Fact>, claim: Claim): Option<Fact> {
    if facts == [] then None
    else
      var last, before := facts[|facts| - 1], Kept(facts[..|facts| - 1], claim);
      if ClaimOf(last) == claim && (before.None? || Less(before.value.extractorVersion, last.extractorVersion))
      then Some(last) else before
  }

  /** The claims made, in the order they first appear. */
  ghost function Claims(facts: seq<Fact>): seq<Claim> {
    if facts == [] then []
    else
      var claim, before := ClaimOf(facts[|facts| - 1]), Claims(facts[..|facts| - 1]);
      if claim in before then before else before + [claim]
  }

  lemma {:induction false} ClaimsExact(facts: seq<Fact>)
    ensures DistinctBy(AS_CLAIM, Claims(facts))
    ensures forall c :: c in Claims(facts) <==> exists f :: f in facts && ClaimOf(f) == c
  {
    if facts != [] {
      ClaimsExact(facts[..|facts| - 1]);
      assert facts == facts[..|facts| - 1] + [facts[|facts| - 1]];
    }
  }

  /** No reading of the claim is newer than the one kept. */
  ghost predicate IsNewest(facts: seq<Fact>, f: Fact) {
    f in facts && forall g :: g in facts && ClaimOf(g) == ClaimOf(f) ==> !Less(f.extractorVersion, g.extractorVersion)
  }

  lemma {:induction false} KeptIsNewest(facts: seq<Fact>, claim: Claim)
    ensures Kept(facts, claim).None? ==> forall f :: f in facts ==> ClaimOf(f) != claim
    ensures Kept(facts, claim).Some? ==> ClaimOf(Kept(facts, claim).value) == claim && IsNewest(facts, Kept(facts, claim).value)
  {
    if facts != [] {
      var last := facts[|facts| - 1];
      KeptIsNewest(facts[..|facts| - 1], claim);
      assert facts == facts[..|facts| - 1] + [last];
      LessIsStrictTotalOrder();
    }
  }

  ghost function SortedClaims(facts: seq<Fact>): seq<Claim> {
    SortBy(ClaimLess, AS_CLAIM, Claims(facts))
  }

  lemma SortedClaimsExact(facts: seq<Fact>)
    ensures SortedBy(ClaimLess, AS_CLAIM, SortedClaims(facts))
    ensures forall c :: c in SortedClaims(facts) <==> exists f :: f in facts && ClaimOf(f) == c
    ensures forall c :: c in SortedClaims(facts) ==> Kept(facts, c).Some?
  {
    ClaimLessIsStrictTotalOrder();
    ClaimsExact(facts);
    SortBySorts(ClaimLess, AS_CLAIM, Claims(facts));
    forall c | c in SortedClaims(facts) ensures Kept(facts, c).Some? {
      KeptIsNewest(facts, c);
    }
  }

  /** One fact per claim, sorted by claim. */
  ghost function NewestPerClaim(facts: seq<Fact>): seq<Fact> {
    SortedClaimsExact(facts);
    seq(|SortedClaims(facts)|, i requires 0 <= i < |SortedClaims(facts)| => Kept(facts, SortedClaims(facts)[i]).value)
  }

  /** `newest` is the dictionary the reader fills: each claim seen so far, and the fact kept for it. */
  ghost predicate Holds(facts: seq<Fact>, newest: map<Claim, Fact>) {
    forall c :: Kept(facts, c) == if c in newest then Some(newest[c]) else None
  }

  method GatherClaims(facts: seq<Fact>) returns (newest: map<Claim, Fact>, order: seq<Claim>)
    ensures Holds(facts, newest) && order == Claims(facts)
  {
    newest, order := map[], [];
    for i := 0 to |facts|
      invariant order == Claims(facts[..i]) && Holds(facts[..i], newest)
    {
      assert facts[..i + 1][..i] == facts[..i];
      var claim := ClaimOf(facts[i]);
      ClaimedIffKept(facts[..i], claim);
      assert Kept(facts[..i], claim) == if claim in newest then Some(newest[claim]) else None;
      if claim !in newest {
        newest, order := newest[claim := facts[i]], order + [claim];
      } else if Less(newest[claim].extractorVersion, facts[i].extractorVersion) {
        newest := newest[claim := facts[i]];
      }
    }
    assert facts[..|facts|] == facts;
  }

  lemma ClaimedIffKept(facts: seq<Fact>, claim: Claim)
    ensures claim in Claims(facts) <==> Kept(facts, claim).Some?
  {
    ClaimsExact(facts);
    KeptIsNewest(facts, claim);
  }

  method ReadNewestPerClaim(facts: seq<Fact>) returns (kept: seq<Fact>)
    ensures kept == NewestPerClaim(facts)
  {
    var newest, order := GatherClaims(facts);
    var sorted := SortBy(ClaimLess, AS_CLAIM, order);
    SortedClaimsExact(facts);
    kept := [];
    for i := 0 to |sorted|
      invariant kept == NewestPerClaim(facts)[..i]
    {
      assert sorted[i] in SortedClaims(facts);
      kept := kept + [newest[sorted[i]]];
    }
  }

  /** What the unique keys of the fact table give: one row per claim and version. */
  ghost predicate UniqueReadings(facts: seq<Fact>) {
    forall f, g :: f in facts && g in facts && ClaimOf(f) == ClaimOf(g) && f.extractorVersion == g.extractorVersion ==> f == g
  }

  /** The kept facts, without mentioning the order rows arrived in: sorted by claim, and each the newest
      reading of its claim. */
  lemma KeptAreNewest(facts: seq<Fact>)
    ensures SortedBy(ClaimLess, ClaimOf, NewestPerClaim(facts))
    ensures forall k :: k in NewestPerClaim(facts) ==> IsNewest(facts, k)
  {
    var claims, kept := SortedClaims(facts), NewestPerClaim(facts);
    SortedClaimsExact(facts);
    forall i | 0 <= i < |claims| ensures ClaimOf(kept[i]) == claims[i] && IsNewest(facts, kept[i]) {
      assert claims[i] in claims;
      KeptIsNewest(facts, claims[i]);
    }
  }

  /** Every claim made has a fact kept for it. */
  lemma EveryClaimIsKept(facts: seq<Fact>, f: Fact) returns (k: Fact)
    requires f in facts
    ensures k in NewestPerClaim(facts) && ClaimOf(k) == ClaimOf(f)
  {
    var claims, kept := SortedClaims(facts), NewestPerClaim(facts);
    SortedClaimsExact(facts);
    assert ClaimOf(f) in claims;
    var i :| 0 <= i < |claims| && claims[i] == ClaimOf(f);
    KeptIsNewest(facts, claims[i]);
    k := kept[i];
  }

  /** Under the table's unique keys, exactly the newest reading of each claim is kept. */
  lemma KeptIffNewest(facts: seq<Fact>, f: Fact)
    requires UniqueReadings(facts)
    ensures f in NewestPerClaim(facts) <==> IsNewest(facts, f)
  {
    KeptAreNewest(facts);
    if IsNewest(facts, f) {
      var k := EveryClaimIsKept(facts, f);
      OneNewestReading(facts, f, k);
    }
  }

  lemma OneNewestReading(facts: seq<Fact>, f: Fact, g: Fact)
    requires UniqueReadings(facts) && IsNewest(facts, f) && IsNewest(facts, g) && ClaimOf(f) == ClaimOf(g)
    ensures f == g
  {
    LessTotal(f.extractorVersion, g.extractorVersion);
  }

  /** Row order is not an authority: any two orders of the same rows keep the same facts, listed alike. */
  lemma NewestIgnoresOrder(a: seq<Fact>, b: seq<Fact>)
    requires UniqueReadings(a) && forall f :: f in a <==> f in b
    ensures NewestPerClaim(a) == NewestPerClaim(b)
  {
    forall f ensures f in NewestPerClaim(a) <==> f in NewestPerClaim(b) {
      KeptIffNewest(a, f);
      KeptIffNewest(b, f);
    }
    KeptAreNewest(a);
    KeptAreNewest(b);
    ClaimLessIsStrictTotalOrder();
    SortedByUnique(ClaimLess, ClaimOf, NewestPerClaim(a), NewestPerClaim(b));
  }

  // ---- Choosing one fact ----

  /** Current evidence: not withdrawn, and from a document known to be the current version. */
  predicate IsActive(documents: Documents, f: Fact) {
    !f.retracted && f.documentId in documents && documents[f.documentId] == Active
  }

  ghost function ActiveFacts(documents: Documents, facts: seq<Fact>): seq<Fact> {
    if facts == [] then []
    else ActiveFacts(documents, facts[..|facts| - 1])
         + if IsActive(documents, facts[|facts| - 1]) then [facts[|facts| - 1]] else []
  }

  ghost function ExcludedFacts(documents: Documents, facts: seq<Fact>): seq<Fact> {
    if facts == [] then []
    else ExcludedFacts(documents, facts[..|facts| - 1])
         + if IsActive(documents, facts[|facts| - 1]) then [] else [facts[|facts| - 1]]
  }

  lemma {:induction false} ActiveExact(documents: Documents, facts: seq<Fact>)
    ensures forall f :: f in ActiveFacts(documents, facts) <==> f in facts && IsActive(documents, f)
  {
    if facts != [] {
      ActiveExact(documents, facts[..|facts| - 1]);
      assert facts == facts[..|facts| - 1] + [facts[|facts| - 1]];
    }
  }

  lemma {:induction false} ExcludedCount(documents: Documents, facts: seq<Fact>)
    ensures forall f :: multiset(ExcludedFacts(documents, facts))[f] == if IsActive(documents, f) then 0 else multiset(facts)[f]
  {
    if facts != [] {
      ExcludedCount(documents, facts[..|facts| - 1]);
      assert facts == facts[..|facts| - 1] + [facts[|facts| - 1]];
    }
  }

  /** What makes two facts the same claim about the world: value, unit and currency, and the words only
      when there is no number. */
  datatype Comparable = Comparable(
    value: Option<Decimal>, unit: Option<string>, currency: Option<string>, literal: Option<string>)

  function ComparableOf(f: Fact): Comparable {
    Comparable(if f.numericValue.Some? then Some(Normalise(f.numericValue.value)) else None,
               f.unit, f.currency,
               if f.numericValue.Some? then None else Some(f.literal))
  }

  /** Two facts agree: equal as numbers (or word for word when neither is one), in the same unit and
      currency. */
  ghost predicate Agree(f: Fact, g: Fact) {
    && f.unit == g.unit && f.currency == g.currency
    && match (f.numericValue, g.numericValue)
       case (Some(x), Some(y)) => x.Value() == y.Value()
       case (None, None) => f.literal == g.literal
       case _ => false
  }

  lemma ComparableIffAgree(f: Fact, g: Fact)
    ensures ComparableOf(f) == ComparableOf(g) <==> Agree(f, g)
  {
    if f.numericValue.Some? && g.numericValue.Some? {
      NormaliseIsNumericEquality(f.numericValue.value, g.numericValue.value);
    }
  }

  datatype Exclusion = Withdrawn | InState(state: VersionState) | UnknownProvenance

  function ExclusionOf(documents: Documents, f: Fact): Exclusion {
    if f.retracted then Withdrawn
    else if f.documentId in documents then InState(documents[f.documentId]) else UnknownProvenance
  }

  /** How the candidates are spread: several documents, or several rows of one. */
  datatype Subject = SeveralDocuments(count: nat) | RowsOfOneDocument(count: nat)

  function SubjectOf(candidates: seq<Fact>): Subject {
    var sources := set f | f in candidates :: f.documentId;
    if |sources| > 1 then SeveralDocuments(|sources|) else RowsOfOneDocument(|candidates|)
  }

  datatype Reason =
    | NoneStated
    | OnlyExcluded(states: set<Exclusion>)
    | TheOnlyOne
    | InAgreement(subject: Subject)
    | InConflict(subject: Subject)

  datatype Selected = Selected(
    factType: string, fact: Option<Fact>, considered: seq<Fact>, excluded: seq<Fact>, reason: Reason, conflicting: bool)

  function Decide(factType: string, documents: Documents, candidates: seq<Fact>, excluded: seq<Fact>): Selected {
    if candidates == [] then
      Selected(factType, None, [], excluded,
               if excluded == [] then NoneStated else OnlyExcluded(set f | f in excluded :: ExclusionOf(documents, f)), false)
    else if |candidates| == 1 then
      Selected(factType, Some(candidates[0]), candidates, excluded, TheOnlyOne, false)
    else if |set f | f in candidates :: ComparableOf(f)| == 1 then
      Selected(factType, Some(candidates[0]), candidates, excluded, InAgreement(SubjectOf(candidates)), false)
    else
      Selected(factType, None, candidates, excluded, InConflict(SubjectOf(candidates)), true)
  }

  ghost function Select(factType: string, documents: Documents, facts: seq<Fact>): Selected {
    Decide(factType, documents, NewestPerClaim(ActiveFacts(documents, facts)), ExcludedFacts(documents, facts))
  }

  method SelectOne(factType: string, facts: seq<Fact>, documents: Documents) returns (selected: Selected)
    ensures selected == Select(factType, documents, facts)
  {
    var superseded: seq<Fact>, active: seq<Fact> := [], [];
    for i := 0 to |facts|
      invariant active == ActiveFacts(documents, facts[..i])
      invariant superseded == ExcludedFacts(documents, facts[..i])
    {
      assert facts[..i + 1][..i] == facts[..i];
      var fact := facts[i];
      var withdrawn := fact.retracted;
      var stale := fact.documentId !in documents || documents[fact.documentId] != Active;
      if withdrawn || stale {
        superseded := superseded + [fact];
      } else {
        active := active + [fact];
      }
    }
    assert facts[..|facts|] == facts;
    var candidates := ReadNewestPerClaim(active);
    selected := Decide(factType, documents, candidates, superseded);
  }

  // ---- What a selection promises ----

  lemma {:induction false} OneComparable(candidates: seq<Fact>)
    requires candidates != []
    ensures |set f | f in candidates :: ComparableOf(f)| == 1
            <==> forall f, g :: f in candidates && g in candidates ==> ComparableOf(f) == ComparableOf(g)
  {
    var distinct := set f | f in candidates :: ComparableOf(f);
    var first := ComparableOf(candidates[0]);
    assert candidates[0] in candidates && first in distinct;
    if |distinct| == 1 {
      assert |distinct - {first}| == 0;
      forall f | f in candidates ensures ComparableOf(f) == first {
        assert ComparableOf(f) in distinct;
        assert ComparableOf(f) !in distinct - {first};
      }
    }
    if forall f, g :: f in candidates && g in candidates ==> ComparableOf(f) == ComparableOf(g) {
      assert distinct == {first};
    }
  }

  ghost predicate AllAgree(candidates: seq<Fact>) {
    forall f, g :: f in candidates && g in candidates ==> Agree(f, g)
  }

  /** A fact is chosen exactly when some active document states one and every active claim agrees;
      conflict is reported exactly when two of them do not. */
  lemma ChoosesIffAgreed(factType: string, documents: Documents, facts: seq<Fact>)
    ensures var s, candidates := Select(factType, documents, facts), NewestPerClaim(ActiveFacts(documents, facts));
            && s.considered == candidates && s.excluded == ExcludedFacts(documents, facts)
            && (s.fact.Some? <==> candidates != [] && AllAgree(candidates))
            && (s.conflicting <==> !AllAgree(candidates))
            && (s.fact.Some? ==> s.fact.value == candidates[0])
  {
    hide NewestPerClaim, ActiveFacts, ExcludedFacts, ComparableOf, Agree;
    var candidates := NewestPerClaim(ActiveFacts(documents, facts));
    if candidates != [] {
      OneComparable(candidates);
      forall f, g | f in candidates && g in candidates
        ensures ComparableOf(f) == ComparableOf(g) <==> Agree(f, g)
      {
        ComparableIffAgree(f, g);
      }
    }
  }

  /** What is chosen is live evidence: stated by a current document, never withdrawn, and not outdated by
      a newer reading of the same claim. */
  lemma ChosenIsLive(factType: string, documents: Documents, facts: seq<Fact>)
    ensures var s := Select(factType, documents, facts);
            s.fact.Some? ==>
              s.fact.value in facts && IsActive(documents, s.fact.value)
              && IsNewest(ActiveFacts(documents, facts), s.fact.value)
  {
    var active := ActiveFacts(documents, facts);
    KeptAreNewest(active);
    ActiveExact(documents, facts);
    if NewestPerClaim(active) != [] { assert NewestPerClaim(active)[0] in NewestPerClaim(active); }
  }

  lemma SameActive(documents: Documents, a: seq<Fact>, b: seq<Fact>)
    requires multiset(a) == multiset(b)
    ensures forall f :: f in ActiveFacts(documents, a) <==> f in ActiveFacts(documents, b)
  {
    SameElements(a, b);
    ActiveExact(documents, a);
    ActiveExact(documents, b);
  }

  lemma SameExcluded(documents: Documents, a: seq<Fact>, b: seq<Fact>)
    requires multiset(a) == multiset(b)
    ensures multiset(ExcludedFacts(documents, a)) == multiset(ExcludedFacts(documents, b))
  {
    ExcludedCount(documents, a);
    ExcludedCount(documents, b);
    forall f ensures multiset(ExcludedFacts(documents, a))[f] == multiset(ExcludedFacts(documents, b))[f] {
      assert multiset(a)[f] == multiset(b)[f];
    }
  }

  lemma DecideIgnoresExcludedOrder(factType: string, documents: Documents, candidates: seq<Fact>, x: seq<Fact>, y: seq<Fact>)
    requires multiset(x) == multiset(y)
    ensures Decide(factType, documents, candidates, x).(excluded := [])
            == Decide(factType, documents, candidates, y).(excluded := [])
  {
    SameElements(x, y);
    assert |x| == |multiset(x)| == |multiset(y)| == |y|;
    assert (set f | f in x :: ExclusionOf(documents, f)) == (set f | f in y :: ExclusionOf(documents, f));
  }

  /** The order rows come back from the database in decides nothing: same choice, same facts considered
      in the same order, same reason, same conflict; the excluded facts are the same multiset. */
  lemma SelectionIgnoresOrder(factType: string, documents: Documents, a: seq<Fact>, b: seq<Fact>)
    requires multiset(a) == multiset(b) && UniqueReadings(ActiveFacts(documents, a))
    ensures var s, t := Select(factType, documents, a), Select(factType, documents, b);
            && s.(excluded := []) == t.(excluded := [])
            && multiset(s.excluded) == multiset(t.excluded)
  {
    SameActive(documents, a, b);
    SameExcluded(documents, a, b);
    NewestIgnoresOrder(ActiveFacts(documents, a), ActiveFacts(documents, b));
    DecideIgnoresExcludedOrder(factType, documents, NewestPerClaim(ActiveFacts(documents, a)),
                               ExcludedFacts(documents, a), ExcludedFacts(documents, b));
  }

  // ---- What a selection says, in the columns of the facts ----

  /** Not withdrawn, and of a document known to be the current version. */
  ghost predicate Stands(documents: Documents, f: Fact) {
    !f.retracted && f.documentId in documents && documents[f.documentId] == Active
  }

  ghost predicate SameClaim(f: Fact, g: Fact) {
    f.documentId == g.documentId && f.sheetRow == g.sheetRow
  }

  /** One row for each document, sheet row and extractor version. */
  ghost predicate OneReading(facts: seq<Fact>) {
    forall f, g :: f in facts && g in facts && SameClaim(f, g) && f.extractorVersion == g.extractorVersion ==> f == g
  }

  /** The fact stands, and no standing reading of the same document and row is newer. */
  ghost predicate IsCandidate(documents: Documents, facts: seq<Fact>, f: Fact) {
    && f in facts && Stands(documents, f)
    && forall g :: g in facts && Stands(documents, g) && SameClaim(f, g) ==> !Less(f.extractorVersion, g.extractorVersion)
  }

  ghost predicate Precedes(f: Fact, g: Fact) {
    || Less(f.documentId, g.documentId)
    || (f.documentId == g.documentId && g.sheetRow.Some? && (f.sheetRow.None? || f.sheetRow.value < g.sheetRow.value))
  }

  /** What is considered, in which order, what is left out, and what is chosen. */
  lemma SelectionMeans(factType: string, documents: Documents, facts: seq<Fact>)
    requires OneReading(facts)
    ensures var s := Select(factType, documents, facts);
            && s.factType == factType
            && (forall f :: f in s.considered <==> IsCandidate(documents, facts, f))
            && (forall i, j :: 0 <= i < j < |s.considered| ==> Precedes(s.considered[i], s.considered[j]))
            && (forall f :: multiset(s.excluded)[f] == if Stands(documents, f) then 0 else multiset(facts)[f])
            && (s.fact.Some? <==> s.considered != [] && AllAgree(s.considered))
            && (s.fact.Some? ==> s.fact.value == s.considered[0])
            && (s.conflicting <==> !AllAgree(s.considered))
  {
    var active := ActiveFacts(documents, facts);
    ActiveExact(documents, facts);
    ExcludedCount(documents, facts);
    ChoosesIffAgreed(factType, documents, facts);
    KeptAreNewest(active);
    hide ActiveFacts, ExcludedFacts, Select, NewestPerClaim, AllAgree;
    var kept := NewestPerClaim(active);
    assert UniqueReadings(active);
    forall f ensures f in kept <==> IsCandidate(documents, facts, f) { KeptIffNewest(active, f); }
    forall i, j | 0 <= i < j < |kept| ensures Precedes(kept[i], kept[j]) { assert ClaimLess(ClaimOf(kept[i]), ClaimOf(kept[j])); }
    assert Select(factType, documents, facts).factType == factType by { SelectedUnderItsType(factType, documents, facts); }
  }

  lemma SelectedUnderItsType(factType: string, documents: Documents, facts: seq<Fact>)
    ensures Select(factType, documents, facts).factType == factType
  {
  }

  /** Why: nothing was stated, only what does not stand was, one fact was, several agree, or several do not; with the
      reasons what was left out does not stand, and the documents or rows the others come from. */
  lemma ReasonMeans(factType: string, documents: Documents, facts: seq<Fact>)
    ensures var s := Select(factType, documents, facts);
            && (s.reason == NoneStated <==> s.considered == [] && s.excluded == [])
            && (s.reason == TheOnlyOne <==> |s.considered| == 1)
            && (s.reason.OnlyExcluded? <==> s.considered == [] && s.excluded != [])
            && (s.reason.InAgreement? <==> |s.considered| > 1 && s.fact.Some?)
            && (s.reason.InConflict? <==> |s.considered| > 1 && s.fact.None?)
            && (s.reason.OnlyExcluded? ==>
                  && (Withdrawn in s.reason.states <==> exists f :: f in s.excluded && f.retracted)
                  && (UnknownProvenance in s.reason.states
                      <==> exists f :: f in s.excluded && !f.retracted && f.documentId !in documents)
                  && forall state :: InState(state) in s.reason.states
                       <==> exists f :: f in s.excluded && !f.retracted && f.documentId in documents && documents[f.documentId] == state)
            && (s.reason.InAgreement? || s.reason.InConflict? ==>
                  var sources := set f | f in s.considered :: f.documentId;
                  s.reason.subject == if |sources| > 1 then SeveralDocuments(|sources|) else RowsOfOneDocument(|s.considered|))
  {
    hide NewestPerClaim, ActiveFacts, ExcludedFacts, ComparableOf;
    var excluded := ExcludedFacts(documents, facts);
    ExclusionsMean(documents, excluded);
  }

  lemma ExclusionsMean(documents: Documents, excluded: seq<Fact>)
    ensures var states := set f | f in excluded :: ExclusionOf(documents, f);
            && (Withdrawn in states <==> exists f :: f in excluded && f.retracted)
            && (UnknownProvenance in states <==> exists f :: f in excluded && !f.retracted && f.documentId !in documents)
            && forall state :: InState(state) in states
                 <==> exists f :: f in excluded && !f.retracted && f.documentId in documents && documents[f.documentId] == state
  {
  }

  // ---- Every fact type at once ----

  ghost function OfType(facts: seq<Fact>, factType: string): seq<Fact> {
    if facts == [] then []
    else OfType(facts[..|facts| - 1], factType)
         + if facts[|facts| - 1].factType == factType then [facts[|facts| - 1]] else []
  }

  ghost function SelectAll(documents: Documents, facts: seq<Fact>): map<string, Selected> {
    map t | t in (set f | f in facts :: f.factType) :: Select(t, documents, OfType(facts, t))
  }

  method GroupByType(facts: seq<Fact>) returns (grouped: map<string, seq<Fact>>)
    ensures grouped == map t | t in (set f | f in facts :: f.factType) :: OfType(facts, t)
  {
    grouped := map[];
    for i := 0 to |facts|
      invariant forall t :: t in grouped <==> OfType(facts[..i], t) != []
      invariant forall t :: t in grouped ==> grouped[t] == OfType(facts[..i], t)
    {
      assert facts[..i + 1][..i] == facts[..i];
      var t := facts[i].factType;
      grouped := grouped[t := (if t in grouped then grouped[t] else []) + [facts[i]]];
    }
    assert facts[..|facts|] == facts;
    forall t ensures OfType(facts, t) != [] <==> exists f :: f in facts && f.factType == t {
      OfTypeExact(facts, t);
    }
  }

  lemma {:induction false} OfTypeExact(facts: seq<Fact>, t: string)
    ensures forall f :: f in OfType(facts, t) <==> f in facts && f.factType == t
    ensures OfType(facts, t) != [] <==> exists f :: f in facts && f.factType == t
  {
    if facts != [] {
      OfTypeExact(facts[..|facts| - 1], t);
      assert facts == facts[..|facts| - 1] + [facts[|facts| - 1]];
    }
    if OfType(facts, t) != [] { assert OfType(facts, t)[0] in OfType(facts, t); }
  }

  /** An entry for every type seen, the unresolved ones included. */
  method SelectFacts(facts: seq<Fact>, documents: Documents) returns (selections: map<string, Selected>)
    ensures selections == SelectAll(documents, facts)
  {
    hide Select, OfType;
    var grouped := GroupByType(facts);
    selections := map[];
    var pending := grouped.Keys;
    while pending != {}
      invariant pending <= grouped.Keys
      invariant selections.Keys == grouped.Keys - pending
      invariant forall t :: t in selections ==> selections[t] == SelectAll(documents, facts)[t]
    {
      var t :| t in pending;
      var selected := SelectOne(t, grouped[t], documents);
      selections := selections[t := selected];
      pending := pending - {t};
    }
  }
}
