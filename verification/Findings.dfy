/** A finding, the evidence rows it points to, and the human reviews recorded against it. */
module Findings {
  import opened Options
  import opened Ordering
  import opened Text
  import opened Conclusions

  // ---- What a finding cites ----

  /** The row a link points to. The row can be rewritten where it stands. */
  datatype Ref = FactRow(id: nat) | DerivedRow(id: nat) | ProvisionRow(id: nat)

  datatype Link = Link(role: string, ref: Ref)

  /** The columns of a row that a citation shows. */
  datatype Content =
    | Extracted(factType: string, literal: string, numeric: Option<string>, page: nat,
                sheetName: Option<string>, sheetRow: Option<nat>)
    | Derived(factType: string, expression: string, numeric: Option<string>)
    | Policy(provisionType: string, clause: string, share: Option<string>, page: nat)

  type Rows = map<Ref, Content>

  predicate Fits(ref: Ref, content: Content) {
    match ref
    case FactRow(_) => content.Extracted?
    case DerivedRow(_) => content.Derived?
    case ProvisionRow(_) => content.Policy?
  }

  predicate Resolves(links: seq<Link>, rows: Rows) {
    forall i :: 0 <= i < |links| ==> links[i].ref in rows
  }

  datatype Citation = Citation(role: string, content: Content)

  /** A citation described by its content, never by its row identifier. */
  function Cite(citation: Citation): seq<Option<string>> {
    var role := Some(citation.role);
    match citation.content
    case Extracted(factType, literal, numeric, page, sheetName, sheetRow) =>
      [role, Some("extracted"), Some(factType), Some(literal), numeric, Some("page:" + Digits(page)), sheetName,
       if sheetRow.None? then None else Some(Digits(sheetRow.value))]
    case Derived(factType, expression, numeric) =>
      [role, Some("derived"), Some(factType), Some(expression), numeric]
    case Policy(provisionType, clause, share, page) =>
      [role, Some("policy"), Some(provisionType), Some(clause), share, Some("page:" + Digits(page))]
  }

  lemma PageLabelInjective(a: nat, b: nat)
    requires "page:" + Digits(a) == "page:" + Digits(b)
    ensures a == b
  {
    assert ("page:" + Digits(a))[5..] == Digits(a) && ("page:" + Digits(b))[5..] == Digits(b);
    DigitsInjective(a, b);
  }

  /** No two citations of different content read alike, whatever their kind. */
  lemma CiteInjective(a: Citation, b: Citation)
    requires Cite(a) == Cite(b)
    ensures a == b
  {
    var x, y := Cite(a), Cite(b);
    assert |x| == |y| && forall i :: 0 <= i < |x| ==> x[i] == y[i];
    if a.content.Extracted? {
      PageLabelInjective(a.content.page, b.content.page);
      if a.content.sheetRow.Some? { DigitsInjective(a.content.sheetRow.value, b.content.sheetRow.value); }
    }
    if a.content.Policy? { PageLabelInjective(a.content.page, b.content.page); }
  }

  /** What a citation lists: its role and kind; then what is stated, as it is printed, its number and where it stands; or
      what was computed, how, and to what; or what is required, by which clause, at which share and where. */
  lemma CitationLists(citation: Citation)
    ensures var entries := Cite(citation);
            && entries[0] == Some(citation.role)
            && match citation.content
               case Extracted(factType, literal, numeric, page, sheetName, sheetRow) =>
                 && |entries| == 8 && entries[1] == Some("extracted") && entries[2] == Some(factType) && entries[3] == Some(literal)
                 && entries[4] == numeric && entries[5] == Some("page:" + Digits(page)) && entries[6] == sheetName
                 && entries[7] == if sheetRow.Some? then Some(Digits(sheetRow.value)) else None
               case Derived(factType, expression, numeric) =>
                 |entries| == 5 && entries[1] == Some("derived") && entries[2] == Some(factType) && entries[3] == Some(expression) && entries[4] == numeric
               case Policy(provisionType, clause, share, page) =>
                 && |entries| == 6 && entries[1] == Some("policy") && entries[2] == Some(provisionType) && entries[3] == Some(clause)
                 && entries[4] == share && entries[5] == Some("page:" + Digits(page))
  {
  }

  const ROLE: Link -> string := (link: Link) => link.role

  const CITED_AS: Citation -> string := (citation: Citation) => citation.role

  function Follow(links: seq<Link>, rows: Rows): (citations: seq<Citation>)
    requires Resolves(links, rows)
    ensures |citations| == |links|
  {
    seq(|links|, i requires 0 <= i < |links| && links[i].ref in rows => Citation(links[i].role, rows[links[i].ref]))
  }

  function CiteAll(citations: seq<Citation>): seq<seq<Option<string>>> {
    seq(|citations|, i requires 0 <= i < |citations| => Cite(citations[i]))
  }

  lemma CiteAllInjective(a: seq<Citation>, b: seq<Citation>)
    requires CiteAll(a) == CiteAll(b)
    ensures a == b
  {
    var x, y := CiteAll(a), CiteAll(b);
    assert |a| == |x| == |y| == |b|;
    forall i | 0 <= i < |a| ensures a[i] == b[i] {
      assert x[i] == y[i];
      CiteInjective(a[i], b[i]);
    }
  }

  /** The evidence part of a conclusion: each link followed to its row as it is now, in order of role. */
  function Evidence(links: seq<Link>, rows: Rows): seq<seq<Option<string>>>
    requires Resolves(links, rows)
  {
    CiteAll(SortBy(Less, CITED_AS, Follow(links, rows)))
  }

  lemma FollowKeepsRoles(links: seq<Link>, rows: Rows)
    requires Resolves(links, rows) && DistinctBy(ROLE, links)
    ensures DistinctBy(CITED_AS, Follow(links, rows))
  {
    forall i, j | 0 <= i < j < |links| ensures CITED_AS(Follow(links, rows)[i]) != CITED_AS(Follow(links, rows)[j]) {
      assert ROLE(links[i]) != ROLE(links[j]);
    }
  }

  /** The evidence part says which citations there are, and nothing about their order or their rows' ids. */
  lemma EvidenceIffSameCitations(a: seq<Link>, aRows: Rows, b: seq<Link>, bRows: Rows)
    requires Resolves(a, aRows) && Resolves(b, bRows) && DistinctBy(ROLE, a) && DistinctBy(ROLE, b)
    ensures Evidence(a, aRows) == Evidence(b, bRows)
            <==> (forall citation :: citation in Follow(a, aRows) <==> citation in Follow(b, bRows))
  {
    var x, y := Follow(a, aRows), Follow(b, bRows);
    LessIsStrictTotalOrder();
    FollowKeepsRoles(a, aRows);
    FollowKeepsRoles(b, bRows);
    SortBySorts(Less, CITED_AS, x);
    SortBySorts(Less, CITED_AS, y);
    if Evidence(a, aRows) == Evidence(b, bRows) {
      CiteAllInjective(SortBy(Less, CITED_AS, x), SortBy(Less, CITED_AS, y));
    }
    if forall citation :: citation in x <==> citation in y {
      SortedByUnique(Less, CITED_AS, SortBy(Less, CITED_AS, x), SortBy(Less, CITED_AS, y));
    }
  }

  predicate SameContents(links: seq<Link>, a: Rows, b: Rows)
    requires Resolves(links, a) && Resolves(links, b)
  {
    forall i :: 0 <= i < |links| ==> a[links[i].ref] == b[links[i].ref]
  }

  /** Links left alone show the same evidence exactly when every row they point to holds the same content. */
  lemma EvidenceIffSameContents(links: seq<Link>, a: Rows, b: Rows)
    requires Resolves(links, a) && Resolves(links, b) && DistinctBy(ROLE, links)
    ensures Evidence(links, a) == Evidence(links, b) <==> SameContents(links, a, b)
  {
    EvidenceIffSameCitations(links, a, links, b);
    var x, y := Follow(links, a), Follow(links, b);
    if SameContents(links, a, b) { assert x == y; }
    if Evidence(links, a) == Evidence(links, b) {
      forall i | 0 <= i < |links| ensures a[links[i].ref] == b[links[i].ref] {
        assert x[i] in y;
        var j :| 0 <= j < |y| && y[j] == x[i];
        if i != j { assert ROLE(links[i]) == ROLE(links[j]); }
      }
    }
  }

  // ---- What is recorded, and what happens to it ----

  datatype Decision = AcceptedDecision | RejectedDecision | NeedsEvidence

  datatype Review = Review(
    decision: Decision, note: string, reviewer: string,
    reviewedOutcome: string, reviewedRuleVersion: string, reviewedFingerprint: string)

  datatype ReviewError = BlankNote | BlankReviewer

  /** What a rule concluded, as the persister receives it. */
  datatype Verdict = Verdict(outcome: string, expected: string, observed: string, detail: seq<(string, string)>)

  type Shown = Conclusion<string>

  const AS_IS: string -> string := (s: string) => s

  /** A finding's columns and links, the rows of the evidence tables, and two things nothing stores: the
      conclusion the stored digest was computed from, if one was, and the rows as they were then. */
  datatype State = State(
    ruleId: string, ruleVersion: string, verdict: Verdict, links: seq<Link>, rows: Rows,
    fingerprint: string, reviews: seq<Review>,
    digested: Option<Shown>, persisted: Rows)

  function Conclude(ruleId: string, ruleVersion: string, verdict: Verdict, links: seq<Link>, rows: Rows): Shown
    requires Resolves(links, rows)
  {
    Conclusion(ruleId, ruleVersion, verdict.outcome, verdict.expected, verdict.observed, verdict.detail, Evidence(links, rows))
  }

  /** What a reader of the finding is shown, following its links. */
  function Shows(st: State): Shown
    requires Resolves(st.links, st.rows)
  {
    Conclude(st.ruleId, st.ruleVersion, st.verdict, st.links, st.rows)
  }

  function StoredDigest(digest: string -> string, digested: Option<Shown>): string {
    if digested.None? then "" else Fingerprint(digested.value, AS_IS, digest)
  }

  predicate Speaks(review: Review, st: State) {
    && review.reviewedFingerprint == st.fingerprint
    && review.reviewedOutcome == st.verdict.outcome
    && review.reviewedRuleVersion == st.ruleVersion
  }

  datatype Event =
    | Persist(result: Verdict, cited: seq<Link>)
    | Rewrite(ref: Ref, content: Content)
    | Patch(outcome: string, version: string)
    | Decide(decision: Decision, note: string, reviewer: string)

  /** The detail is a mapping, a finding has one link for each role, and every link names a row there is. */
  ghost predicate Allowed(st: State, event: Event) {
    match event
    case Persist(result, cited) => DistinctKeys(result.detail) && Resolves(cited, st.rows) && DistinctBy(ROLE, cited)
    case Rewrite(ref, content) => Fits(ref, content)
    case Patch(_, _) => true
    case Decide(_, _, _) => true
  }

  function Refusal(note: string, reviewer: string): Option<ReviewError> {
    if IsBlank(note) then Some(BlankNote) else if IsBlank(reviewer) then Some(BlankReviewer) else None
  }

  /** The columns a review captures: from the finding, never from the caller. */
  function Captured(st: State, decision: Decision, note: string, reviewer: string): Review {
    Review(decision, Strip(note), Strip(reviewer), st.verdict.outcome, st.ruleVersion, st.fingerprint)
  }

  ghost function Next(digest: string -> string, st: State, event: Event): State
    requires Allowed(st, event)
  {
    match event
    case Persist(result, cited) =>
      var shown := Conclude(st.ruleId, st.ruleVersion, result, cited, st.rows);
      st.(verdict := result, links := cited, fingerprint := Fingerprint(shown, AS_IS, digest),
          digested := Some(shown), persisted := st.rows)
    case Rewrite(ref, content) => st.(rows := st.rows[ref := content])
    case Patch(outcome, version) => st.(verdict := st.verdict.(outcome := outcome), ruleVersion := version)
    case Decide(decision, note, reviewer) =>
      if Refusal(note, reviewer).Some? then st else st.(reviews := st.reviews + [Captured(st, decision, note, reviewer)])
  }

  /** A row from before digests existed has a blank fingerprint, and no reviews. */
  ghost predicate IsStart(st: State) {
    && DistinctKeys(st.verdict.detail) && Resolves(st.links, st.rows) && DistinctBy(ROLE, st.links)
    && st.fingerprint == "" && st.reviews == [] && st.digested.None? && st.persisted == st.rows
  }

  /** What every run keeps: the stored digest is that of the conclusion last persisted, which differs from
      what is shown only in the outcome, the rule version and the content of the cited rows. */
  ghost predicate Valid(digest: string -> string, st: State) {
    && DistinctKeys(st.verdict.detail) && DistinctBy(ROLE, st.links)
    && Resolves(st.links, st.rows) && Resolves(st.links, st.persisted)
    && st.fingerprint == StoredDigest(digest, st.digested)
    && (st.digested.Some? ==>
          && DistinctKeys(st.digested.value.detail)
          && st.digested.value.(outcome := st.verdict.outcome, ruleVersion := st.ruleVersion)
             == Conclude(st.ruleId, st.ruleVersion, st.verdict, st.links, st.persisted))
  }

  ghost predicate IsDigest(digest: string -> string) {
    Injective(digest) && forall text :: digest(text) != ""
  }

  lemma NextIsValid(digest: string -> string, st: State, event: Event)
    requires Valid(digest, st) && Allowed(st, event)
    ensures Valid(digest, Next(digest, st, event))
    ensures st.reviews <= Next(digest, st, event).reviews
  {
  }

  /** A run: the states one finding goes through. */
  ghost predicate IsRun(digest: string -> string, events: seq<Event>, states: seq<State>) {
    && |states| == |events| + 1 && IsStart(states[0])
    && forall k :: 0 <= k < |events| ==> Occurs(digest, states[k], events[k], states[k + 1])
  }

  ghost predicate Occurs(digest: string -> string, st: State, event: Event, next: State) {
    Allowed(st, event) && next == Next(digest, st, event)
  }

  lemma {:induction false} RunsAreValid(digest: string -> string, events: seq<Event>, states: seq<State>, k: nat)
    requires IsRun(digest, events, states) && k < |states|
    ensures Valid(digest, states[k]) && states[k].ruleId == states[0].ruleId
  {
    if k > 0 {
      RunsAreValid(digest, events, states, k - 1);
      assert Occurs(digest, states[k - 1], events[k - 1], states[k - 1 + 1]);
      NextIsValid(digest, states[k - 1], events[k - 1]);
    }
  }

  /** Reviews are history: what was captured at the time stays where it was written. */
  lemma {:induction false} ReviewsStay(digest: string -> string, events: seq<Event>, states: seq<State>, j: nat, k: nat)
    requires IsRun(digest, events, states) && j <= k < |states|
    ensures states[j].reviews <= states[k].reviews
  {
    hide Valid, Next, Allowed;
    if j < k {
      ReviewsStay(digest, events, states, j, k - 1);
      assert Occurs(digest, states[k - 1], events[k - 1], states[k - 1 + 1]);
      RunsAreValid(digest, events, states, k - 1);
      NextIsValid(digest, states[k - 1], events[k - 1]);
    }
  }

  /** What is digested when a finding is persisted: the rule and its version, the verdict with what it expected and what
      it observed, its detail, and the cited rows as they are; which is also what the finding then shows. */
  lemma DigestCoversTheConclusion(digest: string -> string, st: State, result: Verdict, cited: seq<Link>)
    requires Allowed(st, Persist(result, cited))
    ensures var next := Next(digest, st, Persist(result, cited));
            var shown := Conclusion(st.ruleId, st.ruleVersion, result.outcome, result.expected, result.observed, result.detail,
                                    Evidence(cited, st.rows));
            && next.fingerprint == digest(Canonical(shown, AS_IS)) && Shows(next) == shown
            && next.verdict == result && next.links == cited && next.reviews == st.reviews && next.rows == st.rows
  {
  }

  /** And a reader is always shown the finding's own columns and its links followed to the rows as they are. */
  lemma ShownAsStored(st: State)
    requires Resolves(st.links, st.rows)
    ensures var shown := Shows(st);
            && shown.ruleId == st.ruleId && shown.ruleVersion == st.ruleVersion
            && shown.outcome == st.verdict.outcome && shown.expected == st.verdict.expected && shown.observed == st.verdict.observed
            && shown.detail == st.verdict.detail && shown.evidence == Evidence(st.links, st.rows)
  {
  }

  // ---- When a review speaks for what is shown ----

  /** The three stored columns agree exactly when outcome and rule version do and both digests are absent or
      both stand for the same conclusion. */
  lemma ColumnsDecideMatch(digest: string -> string, review: Review, seen: State, now: State)
    requires IsDigest(digest) && Valid(digest, seen) && Valid(digest, now) && Speaks(review, seen)
    ensures Speaks(review, now)
            <==> && seen.verdict.outcome == now.verdict.outcome && seen.ruleVersion == now.ruleVersion
                 && seen.digested.Some? == now.digested.Some?
                 && (seen.digested.Some? ==> SameConclusion(seen.digested.value, now.digested.value, AS_IS))
  {
    if seen.digested.Some? && now.digested.Some? {
      FingerprintIffSame(seen.digested.value, now.digested.value, AS_IS, digest);
    }
  }

  /** No row the finding cites changed since the finding was last persisted. */
  predicate Undisturbed(st: State)
    requires Resolves(st.links, st.rows) && Resolves(st.links, st.persisted)
  {
    SameContents(st.links, st.rows, st.persisted)
  }

  /** A review of a digested conclusion that counts as current was made of the very conclusion now shown exactly
      when the cited rows show what they showed then; and, if they were as persisted then, exactly when no
      cited row changed since the finding was last persisted. */
  lemma CurrentMeansSameConclusionIff(digest: string -> string, review: Review, seen: State, now: State)
    requires IsDigest(digest) && Valid(digest, seen) && Valid(digest, now) && seen.ruleId == now.ruleId
    requires Speaks(review, seen) && Speaks(review, now) && now.fingerprint != ""
    ensures SameConclusion(Shows(seen), Shows(now), AS_IS) <==> Shows(seen).evidence == Shows(now).evidence
    ensures Undisturbed(seen) ==> (SameConclusion(Shows(seen), Shows(now), AS_IS) <==> Undisturbed(now))
  {
    hide Evidence, Fingerprint;
    ColumnsDecideMatch(digest, review, seen, now);
    EvidenceIffSameContents(seen.links, seen.rows, seen.persisted);
    EvidenceIffSameContents(now.links, now.rows, now.persisted);
  }

  /** Over every run, for the review recorded at any step. */
  lemma CurrentOverRunsIff(digest: string -> string, events: seq<Event>, states: seq<State>, j: nat, k: nat)
    requires IsDigest(digest) && IsRun(digest, events, states) && j < k < |states|
    requires events[j].Decide? && !IsBlank(events[j].note) && !IsBlank(events[j].reviewer)
    ensures Valid(digest, states[j]) && Valid(digest, states[k]) && |states[j].reviews| < |states[k].reviews|
    ensures var seen, now := states[j], states[k];
            var review := now.reviews[|seen.reviews|];
            && review.decision == events[j].decision && review.note == Strip(events[j].note) && review.reviewer == Strip(events[j].reviewer)
            && review.reviewedOutcome == seen.verdict.outcome && review.reviewedRuleVersion == seen.ruleVersion
            && review.reviewedFingerprint == seen.fingerprint
            && (Speaks(review, now) && review.reviewedFingerprint != "" ==>
                  && (SameConclusion(Shows(seen), Shows(now), AS_IS) <==> Shows(seen).evidence == Shows(now).evidence)
                  && (Undisturbed(seen) ==> (SameConclusion(Shows(seen), Shows(now), AS_IS) <==> Undisturbed(now))))
  {
    RunsAreValid(digest, events, states, j);
    RunsAreValid(digest, events, states, k);
    assert Occurs(digest, states[j], events[j], states[j + 1]);
    ReviewsStay(digest, events, states, j + 1, k);
    var review := states[k].reviews[|states[j].reviews|];
    assert review == states[j + 1].reviews[|states[j].reviews|];
    if Speaks(review, states[k]) && review.reviewedFingerprint != "" {
      CurrentMeansSameConclusionIff(digest, review, states[j], states[k]);
    }
  }

  /** Rewriting a row leaves every review as current as it was, whoever cites the row; what is shown changes
      with it exactly when the finding cites the row and the content differs. */
  lemma RewritingGoesUnnoticed(digest: string -> string, review: Review, st: State, ref: Ref, content: Content)
    requires Valid(digest, st) && Fits(ref, content)
    ensures var next := Next(digest, st, Rewrite(ref, content));
            && Resolves(next.links, next.rows)
            && (Speaks(review, next) <==> Speaks(review, st))
            && (SameConclusion(Shows(st), Shows(next), AS_IS)
                <==> !(exists i :: 0 <= i < |st.links| && st.links[i].ref == ref && st.rows[ref] != content))
  {
    hide Evidence, Fingerprint;
    var next := Next(digest, st, Rewrite(ref, content));
    EvidenceIffSameContents(st.links, st.rows, next.rows);
    if !SameContents(st.links, st.rows, next.rows) {
      var i :| 0 <= i < |st.links| && st.rows[st.links[i].ref] != next.rows[st.links[i].ref];
      assert st.links[i].ref == ref;
    }
  }

  // ---- At a failing input ----

  const ESTIMATE := FactRow(1)

  function Estimate(literal: string): Content { Extracted("estimated_cost", literal, Some(literal), 3, None, None) }

  function Unpersisted(): State {
    State("cross_document_fact_agreement", "1", Verdict("pass", "", "", []), [], map[ESTIMATE := Estimate("520")], "", [], None,
          map[ESTIMATE := Estimate("520")])
  }

  /** A finding that cites an estimate of 520 is persisted and accepted, and the scan is then read again as
      900: the acceptance is still current over a finding that now cites 900. */
  lemma AcceptanceOutlivesItsFigure(digest: string -> string)
    requires IsDigest(digest)
    ensures var st := Unpersisted();
            var links := [Link("estimated_cost", ESTIMATE)];
            var persisted := Next(digest, st, Persist(st.verdict, links));
            var accepted := Next(digest, persisted, Decide(AcceptedDecision, "seen on both pages", "surveyor"));
            var reread := Next(digest, accepted, Rewrite(ESTIMATE, Estimate("900")));
            && IsStart(st) && Undisturbed(accepted)
            && |reread.reviews| == 1 && reread.reviews[0].decision.AcceptedDecision? && Speaks(reread.reviews[0], reread)
            && Shows(accepted).evidence == CiteAll([Citation("estimated_cost", Estimate("520"))])
            && Shows(reread).evidence == CiteAll([Citation("estimated_cost", Estimate("900"))])
            && !SameConclusion(Shows(accepted), Shows(reread), AS_IS)
  {
    hide Fingerprint, Evidence, Strip, IsBlank, CiteAll;
    var st, links := Unpersisted(), [Link("estimated_cost", ESTIMATE)];
    var persisted := Next(digest, st, Persist(st.verdict, links));
    NeitherBlank();
    var accepted := Next(digest, persisted, Decide(AcceptedDecision, "seen on both pages", "surveyor"));
    var reread := Next(digest, accepted, Rewrite(ESTIMATE, Estimate("900")));
    OneCitation(links[0], st.rows);
    OneCitation(links[0], reread.rows);
    assert Valid(digest, st);
    NextIsValid(digest, st, Persist(st.verdict, links));
    NextIsValid(digest, persisted, Decide(AcceptedDecision, "seen on both pages", "surveyor"));
    RewritingGoesUnnoticed(digest, accepted.reviews[0], accepted, ESTIMATE, Estimate("900"));
    assert accepted.links[0].ref == ESTIMATE && "520"[0] != "900"[0];
  }

  lemma NeitherBlank()
    ensures Refusal("seen on both pages", "surveyor").None?
  {
    assert !IsSpace("seen on both pages"[0]) && !IsSpace("surveyor"[0]);
  }

  lemma OneCitation(link: Link, rows: Rows)
    requires link.ref in rows
    ensures Evidence([link], rows) == CiteAll([Citation(link.role, rows[link.ref])])
  {
    var citation := Citation(link.role, rows[link.ref]);
    assert Follow([link], rows) == [citation] && [citation][..0] == [];
    assert SortBy(Less, CITED_AS, []) == [];
    assert SortBy(Less, CITED_AS, [citation]) == [citation];
  }

  // ---- The finding as it is stored ----

  class Finding {
    const digest: string -> string
    const ruleId: string
    var ruleVersion: string
    var verdict: Verdict
    var evidence: seq<Link>
    /** The rows of the evidence tables, which other runs write too. */
    var rows: Rows
    var conclusionFingerprint: string
    var reviews: seq<Review>
    ghost var digested: Option<Shown>
    ghost var persisted: Rows

    ghost function View(): State
      reads this
    {
      State(ruleId, ruleVersion, verdict, evidence, rows, conclusionFingerprint, reviews, digested, persisted)
    }

    constructor (digest: string -> string, ruleId: string, ruleVersion: string, verdict: Verdict, evidence: seq<Link>, rows: Rows)
      requires DistinctKeys(verdict.detail) && Resolves(evidence, rows) && DistinctBy(ROLE, evidence)
      ensures View() == State(ruleId, ruleVersion, verdict, evidence, rows, "", [], None, rows)
      ensures IsStart(View()) && Valid(digest, View()) && this.digest == digest
    {
      this.digest, this.ruleId, this.ruleVersion := digest, ruleId, ruleVersion;
      this.verdict, this.evidence, this.rows := verdict, evidence, rows;
      conclusionFingerprint, reviews := "", [];
      digested, persisted := None, rows;
    }

    /** Re-analysis: the verdict is overwritten, the links are rebuilt rather than appended, and the
        digest is taken last, over the evidence just written. Reviews are history and stay. */
    method Persist(result: Verdict, links: seq<Link>)
      requires Valid(digest, View()) && Allowed(View(), Event.Persist(result, links))
      modifies this
      ensures View() == Next(digest, old(View()), Event.Persist(result, links))
      ensures Valid(digest, View()) && Undisturbed(View())
    {
      verdict := result;
      evidence := [];
      evidence := links;
      var shown := Conclude(ruleId, ruleVersion, verdict, evidence, rows);
      conclusionFingerprint := Fingerprint(shown, AS_IS, digest);
      digested, persisted := Some(shown), rows;
    }

    /** Another run reads the document or computes the value again, and overwrites the row where it stands. */
    method Rewrite(ref: Ref, content: Content)
      requires Valid(digest, View()) && Fits(ref, content)
      modifies `rows
      ensures View() == Next(digest, old(View()), Event.Rewrite(ref, content)) && Valid(digest, View())
    {
      rows := rows[ref := content];
    }

    /** A hand-written UPDATE of the outcome or the rule version, which no persister saw. */
    method Patch(outcome: string, version: string)
      requires Valid(digest, View())
      modifies `verdict, `ruleVersion
      ensures View() == Next(digest, old(View()), Event.Patch(outcome, version)) && Valid(digest, View())
    {
      verdict, ruleVersion := verdict.(outcome := outcome), version;
    }

    /** Append one decision, captured from the finding and never from the caller. */
    method RecordReview(decision: Decision, note: string, reviewer: string) returns (error: Option<ReviewError>)
      requires Valid(digest, View())
      modifies `reviews
      ensures error == Some(BlankNote) <==> IsBlank(note)
      ensures error == Some(BlankReviewer) <==> !IsBlank(note) && IsBlank(reviewer)
      ensures View() == Next(digest, old(View()), Decide(decision, note, reviewer)) && Valid(digest, View())
    {
      StripEmptyIffBlank(note);
      StripEmptyIffBlank(reviewer);
      if Strip(note) == "" { return Some(BlankNote); }
      if Strip(reviewer) == "" { return Some(BlankReviewer); }
      reviews := reviews + [Review(decision, Strip(note), Strip(reviewer), verdict.outcome, ruleVersion, conclusionFingerprint)];
      return None;
    }

    /** The newest review whose three columns are the finding's present ones, if there is one. */
    method CurrentReview() returns (current: Option<Review>)
      ensures current.None? <==> forall review :: review in reviews ==> !Speaks(review, View())
      ensures current.Some? ==>
                exists i :: 0 <= i < |reviews| && reviews[i] == current.value && Speaks(reviews[i], View())
                            && forall j :: i < j < |reviews| ==> !Speaks(reviews[j], View())
    {
      var i := |reviews|;
      while i > 0
        invariant 0 <= i <= |reviews|
        invariant forall j :: i <= j < |reviews| ==> !Speaks(reviews[j], View())
      {
        i := i - 1;
        var review := reviews[i];
        if review.reviewedFingerprint == conclusionFingerprint
           && review.reviewedOutcome == verdict.outcome
           && review.reviewedRuleVersion == ruleVersion
        {
          assert review in reviews && Speaks(review, View());
          return Some(review);
        }
      }
      return None;
    }
  }
}
