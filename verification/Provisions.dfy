/** Which clause of a reference document governs a project's figure, and the amount it requires. */
module Provisions {
  import opened Options
  import opened Ordering
  import opened Tables

  type Id = nat

  /** A provision as stored, one row for each document that states it. Both ends of its band are inclusive as written; a missing end is open. */
  datatype Provision = Provision(
    id: Id, document: Id, provisionType: string, authority: string, appliesTo: string, clause: string, version: string,
    from: Option<real>, upTo: Option<real>, share: Option<real>, cap: Option<real>)

  /** One retrieval or upload of a document. */
  datatype Origin = Origin(document: Id, source: string)

  datatype Authority = Unrecorded | From(source: string) | SeveralOrigins

  datatype Reason = NoAuthority | NothingExtracted | OutsideEveryBand | SeveralBands | OnlyBand

  datatype Selection =
    | Applicable(provision: Option<Provision>, considered: seq<Provision>, reason: Reason)
    | MultipleResults

  datatype Request = Request(provisionType: string, document: Id, value: real, appliesTo: string)

  // ---- The authority ----

  function SourcesOf(origins: seq<Origin>, document: Id): seq<string> {
    if origins == [] then []
    else
      SourcesOf(origins[..|origins| - 1], document)
      + if origins[|origins| - 1].document == document then [origins[|origins| - 1].source] else []
  }

  /** The query allows one origin row at most. */
  function AuthorityOf(origins: seq<Origin>, document: Id): Authority {
    var sources := SourcesOf(origins, document);
    if sources == [] then Unrecorded else if |sources| == 1 then From(sources[0]) else SeveralOrigins
  }

  // ---- The band ----

  predicate InBand(value: real, p: Provision) {
    (p.from.Some? ==> value >= p.from.value) && (p.upTo.Some? ==> value <= p.upTo.value)
  }

  predicate Concerns(request: Request, authority: string, p: Provision) {
    p.provisionType == request.provisionType && p.authority == authority && p.appliesTo == request.appliesTo
  }

  function Candidates(request: Request, authority: string, table: seq<Provision>): seq<Provision> {
    if table == [] then []
    else
      Candidates(request, authority, table[..|table| - 1])
      + if Concerns(request, authority, table[|table| - 1]) then [table[|table| - 1]] else []
  }

  /** The greatest extractor version, compared as a string. */
  function Newest(candidates: seq<Provision>): string
    requires candidates != []
  {
    var last := candidates[|candidates| - 1].version;
    if |candidates| == 1 then last
    else
      var earlier := Newest(candidates[..|candidates| - 1]);
      if Less(earlier, last) then last else earlier
  }

  function Matching(value: real, newest: string, candidates: seq<Provision>): seq<Provision> {
    if candidates == [] then []
    else
      var p := candidates[|candidates| - 1];
      Matching(value, newest, candidates[..|candidates| - 1]) + if p.version == newest && InBand(value, p) then [p] else []
  }

  function Clause(p: Provision): string {
    p.clause
  }

  function SelectProvision(origins: seq<Origin>, table: seq<Provision>, request: Request): Selection {
    match AuthorityOf(origins, request.document)
    case SeveralOrigins => MultipleResults
    case Unrecorded => Applicable(None, [], NoAuthority)
    case From(authority) =>
      var candidates := Candidates(request, authority, table);
      if candidates == [] then Applicable(None, [], NothingExtracted)
      else
        var matching := SortBy(Less, Clause, Matching(request.value, Newest(candidates), candidates));
        if matching == [] then Applicable(None, [], OutsideEveryBand)
        else if |matching| > 1 then Applicable(None, matching, SeveralBands)
        else Applicable(Some(matching[0]), matching, OnlyBand)
  }

  /** Row ids are a primary key. */
  ghost predicate DistinctRows(table: seq<Provision>) {
    forall i, j :: 0 <= i < j < |table| ==> table[i].id != table[j].id
  }

  // ---- What is selected ----

  lemma {:induction false} SourcesExact(origins: seq<Origin>, document: Id)
    ensures |SourcesOf(origins, document)| == Arrivals(origins, document)
  {
    if origins != [] { SourcesExact(origins[..|origins| - 1], document); }
  }

  /** How many retrievals and uploads brought the document. */
  function Arrivals(origins: seq<Origin>, document: Id): nat {
    if origins == [] then 0
    else Arrivals(origins[..|origins| - 1], document) + if origins[|origins| - 1].document == document then 1 else 0
  }

  lemma {:induction false} SourcesAreItsOwn(origins: seq<Origin>, document: Id)
    ensures forall source :: source in SourcesOf(origins, document) <==> Origin(document, source) in origins
  {
    if origins != [] {
      SourcesAreItsOwn(origins[..|origins| - 1], document);
      assert origins == origins[..|origins| - 1] + [origins[|origins| - 1]];
    }
  }

  /** The authority over a document is the source of its one arrival. */
  lemma AuthorityIff(origins: seq<Origin>, document: Id, source: string)
    ensures AuthorityOf(origins, document) == From(source) <==> Arrivals(origins, document) == 1 && Origin(document, source) in origins
    ensures AuthorityOf(origins, document) == Unrecorded <==> Arrivals(origins, document) == 0
  {
    SourcesExact(origins, document);
    SourcesAreItsOwn(origins, document);
    var sources := SourcesOf(origins, document);
    if |sources| == 1 { assert source in sources <==> source == sources[0]; }
  }

  /** Selection answers for a document exactly when it has not arrived more than once: a second retrieval
      or an upload beside it, even from the same source, makes the query raise. */
  lemma AnsweredIffArrivedOnce(origins: seq<Origin>, table: seq<Provision>, request: Request)
    ensures SelectProvision(origins, table, request).Applicable? <==> Arrivals(origins, request.document) <= 1
  {
    SourcesExact(origins, request.document);
  }

  lemma {:induction false} CandidatesExact(request: Request, authority: string, table: seq<Provision>)
    ensures forall p :: p in Candidates(request, authority, table) <==> p in table && Concerns(request, authority, p)
    ensures NoRepeats(table) ==> NoRepeats(Candidates(request, authority, table))
  {
    if table != [] {
      CandidatesExact(request, authority, table[..|table| - 1]);
      assert table == table[..|table| - 1] + [table[|table| - 1]];
    }
  }

  lemma {:induction false} MatchingExact(value: real, newest: string, candidates: seq<Provision>)
    ensures forall p :: p in Matching(value, newest, candidates) <==> p in candidates && p.version == newest && InBand(value, p)
    ensures NoRepeats(candidates) ==> NoRepeats(Matching(value, newest, candidates))
  {
    if candidates != [] {
      MatchingExact(value, newest, candidates[..|candidates| - 1]);
      assert candidates == candidates[..|candidates| - 1] + [candidates[|candidates| - 1]];
    }
  }

  lemma {:induction false} NewestIsGreatest(candidates: seq<Provision>)
    requires candidates != []
    ensures exists p :: p in candidates && p.version == Newest(candidates)
    ensures forall p :: p in candidates ==> !Less(Newest(candidates), p.version)
  {
    hide Less;
    LessIsStrictTotalOrder();
    var front, last := candidates[..|candidates| - 1], candidates[|candidates| - 1];
    assert candidates == front + [last] && last in candidates;
    if |candidates| > 1 {
      NewestIsGreatest(front);
      var top :| top in front && top.version == Newest(front);
      assert top in candidates;
    }
  }

  lemma {:induction false} SortingKeeps(items: seq<Provision>)
    ensures |SortBy(Less, Clause, items)| == |items|
    ensures forall p :: p in SortBy(Less, Clause, items) <==> p in items
  {
    if items != [] {
      var n := |items| - 1;
      SortingKeeps(items[..n]);
      InsertingKeeps(SortBy(Less, Clause, items[..n]), items[n]);
      assert items == items[..n] + [items[n]];
    }
  }

  lemma {:induction false} InsertingKeeps(sorted: seq<Provision>, x: Provision)
    ensures |InsertBy(Less, Clause, sorted, x)| == |sorted| + 1
    ensures forall p :: p in InsertBy(Less, Clause, sorted, x) <==> p == x || p in sorted
  {
    if sorted != [] && !Less(Clause(x), Clause(sorted[0])) {
      InsertingKeeps(sorted[1..], x);
      assert sorted == [sorted[0]] + sorted[1..];
    }
  }

  ghost predicate ArrivedOnceFrom(origins: seq<Origin>, document: Id, authority: string) {
    Arrivals(origins, document) == 1 && Origin(document, authority) in origins
  }

  /** A statement of what was asked about, by the authority, on the quantity the value is of. */
  ghost predicate IsAbout(table: seq<Provision>, request: Request, authority: string, p: Provision) {
    p in table && p.provisionType == request.provisionType && p.authority == authority && p.appliesTo == request.appliesTo
  }

  /** The newest reading of the authority for the request, whatever the value. */
  ghost predicate IsNewest(table: seq<Provision>, request: Request, authority: string, p: Provision) {
    && IsAbout(table, request, authority, p)
    && forall q :: IsAbout(table, request, authority, q) ==> !Less(p.version, q.version)
  }

  /** The governing provision, if there is one: of the newest reading, with the value between its ends, both of
      them included. */
  ghost predicate Governs(table: seq<Provision>, request: Request, authority: string, p: Provision) {
    && IsNewest(table, request, authority, p)
    && (p.from.Some? ==> p.from.value <= request.value) && (p.upTo.Some? ==> request.value <= p.upTo.value)
  }

  lemma GoverningExact(request: Request, authority: string, table: seq<Provision>, p: Provision)
    requires Candidates(request, authority, table) != []
    ensures var candidates := Candidates(request, authority, table);
            p in Matching(request.value, Newest(candidates), candidates) <==> Governs(table, request, authority, p)
  {
    var candidates := Candidates(request, authority, table);
    CandidatesExact(request, authority, table);
    NewestIsGreatest(candidates);
    MatchingExact(request.value, Newest(candidates), candidates);
    LessIsStrictTotalOrder();
    var top :| top in candidates && top.version == Newest(candidates);
  }

  /** A provision is applied exactly when it alone governs, and more than one is reported, never resolved. */
  lemma AppliedIffOnlyOneGoverns(origins: seq<Origin>, table: seq<Provision>, request: Request, authority: string)
    requires ArrivedOnceFrom(origins, request.document, authority) && DistinctRows(table)
    ensures var selection := SelectProvision(origins, table, request);
            && selection.Applicable?
            && (forall p :: p in selection.considered <==> Governs(table, request, authority, p))
            && |selection.considered| == |Elements(selection.considered)|
            && (selection.provision.Some? <==> |selection.considered| == 1)
            && (selection.provision.Some? ==> selection.considered == [selection.provision.value])
  {
    AuthorityIff(origins, request.document, authority);
    var candidates := Candidates(request, authority, table);
    CandidatesExact(request, authority, table);
    if candidates != [] {
      var matching := Matching(request.value, Newest(candidates), candidates);
      MatchingExact(request.value, Newest(candidates), candidates);
      SortingKeeps(matching);
      CountedOnceIff(matching);
      assert Elements(SortBy(Less, Clause, matching)) == Elements(matching);
      forall p { GoverningExact(request, authority, table, p); }
    }
  }

  /** Why nothing or something was applied. */
  lemma ReasonIff(origins: seq<Origin>, table: seq<Provision>, request: Request)
    requires DistinctRows(table) && Arrivals(origins, request.document) <= 1
    ensures var selection := SelectProvision(origins, table, request);
            && selection.Applicable?
            && (selection.reason == NoAuthority <==> Arrivals(origins, request.document) == 0)
            && (selection.reason == NothingExtracted
                <==> exists authority :: ArrivedOnceFrom(origins, request.document, authority)
                                         && forall p :: !IsAbout(table, request, authority, p))
            && (selection.reason == OutsideEveryBand
                <==> exists authority :: ArrivedOnceFrom(origins, request.document, authority)
                                         && (exists p :: IsAbout(table, request, authority, p))
                                         && forall p :: !Governs(table, request, authority, p))
            && (selection.reason == OnlyBand <==> selection.provision.Some?)
            && (selection.reason == SeveralBands <==> |selection.considered| > 1)
  {
    hide SelectProvision, IsAbout, Governs, IsNewest;
    AuthorityExists(origins, request.document);
    if Arrivals(origins, request.document) == 1 {
      var authority :| ArrivedOnceFrom(origins, request.document, authority);
      ReasonFrom(origins, table, request, authority);
      forall other | ArrivedOnceFrom(origins, request.document, other) ensures other == authority {
        AuthorityIff(origins, request.document, other);
        AuthorityIff(origins, request.document, authority);
      }
    } else {
      Unanswered(origins, table, request);
    }
  }

  lemma AuthorityExists(origins: seq<Origin>, document: Id)
    ensures (exists authority :: ArrivedOnceFrom(origins, document, authority)) <==> Arrivals(origins, document) == 1
  {
    SourcesExact(origins, document);
    SourcesAreItsOwn(origins, document);
    if Arrivals(origins, document) == 1 {
      assert SourcesOf(origins, document)[0] in SourcesOf(origins, document);
      assert ArrivedOnceFrom(origins, document, SourcesOf(origins, document)[0]);
    }
  }

  lemma Unanswered(origins: seq<Origin>, table: seq<Provision>, request: Request)
    requires Arrivals(origins, request.document) == 0
    ensures SelectProvision(origins, table, request) == Applicable(None, [], NoAuthority)
  {
    AuthorityIff(origins, request.document, "");
  }

  lemma ReasonFrom(origins: seq<Origin>, table: seq<Provision>, request: Request, authority: string)
    requires DistinctRows(table) && ArrivedOnceFrom(origins, request.document, authority)
    ensures var selection := SelectProvision(origins, table, request);
            && selection.Applicable? && selection.reason != NoAuthority
            && (selection.reason == NothingExtracted <==> forall p :: !IsAbout(table, request, authority, p))
            && (selection.reason == OutsideEveryBand
                <==> (exists p :: IsAbout(table, request, authority, p)) && forall p :: !Governs(table, request, authority, p))
            && (selection.reason == OnlyBand <==> selection.provision.Some?)
            && (selection.reason == SeveralBands <==> |selection.considered| > 1)
  {
    AuthorityIff(origins, request.document, authority);
    AppliedIffOnlyOneGoverns(origins, table, request, authority);
    CandidatesExact(request, authority, table);
    var candidates, considered := Candidates(request, authority, table), SelectProvision(origins, table, request).considered;
    if candidates != [] { assert candidates[0] in candidates && IsAbout(table, request, authority, candidates[0]); }
    if considered != [] { assert considered[0] in considered; }
  }

  /** Two rows that govern are refused, whatever they require: so is a clause that two documents of one
      authority state alike. */
  lemma TwoGoverningAreRefused(origins: seq<Origin>, table: seq<Provision>, request: Request, authority: string, p: Provision, q: Provision)
    requires ArrivedOnceFrom(origins, request.document, authority) && DistinctRows(table)
    requires Governs(table, request, authority, p) && Governs(table, request, authority, q) && p.id != q.id
    ensures var selection := SelectProvision(origins, table, request);
            selection.Applicable? && selection.provision.None? && selection.reason == SeveralBands
            && p in selection.considered && q in selection.considered
  {
    AppliedIffOnlyOneGoverns(origins, table, request, authority);
    var considered := SelectProvision(origins, table, request).considered;
    assert p in considered && q in considered && p != q;
  }

  // ---- Bands that tile the line ----

  ghost predicate Tiles(bands: seq<Provision>) {
    && bands != [] && bands[0].from.None? && bands[|bands| - 1].upTo.None?
    && (forall i :: 0 <= i < |bands| - 1 ==> bands[i].upTo.Some? && bands[i + 1].from == bands[i].upTo)
    && (forall i, j :: 0 <= i < j < |bands| - 1 ==> bands[i].upTo.value < bands[j].upTo.value)
  }

  /** A value two neighbouring bands share. */
  ghost predicate IsSeam(bands: seq<Provision>, value: real) {
    exists i :: 0 <= i < |bands| - 1 && bands[i].upTo == Some(value)
  }

  /** The band that holds a value: the first whose upper end is not below it. */
  lemma {:induction false} FindBand(bands: seq<Provision>, value: real, from: nat) returns (i: nat)
    requires Tiles(bands) && from < |bands| && (from == 0 || bands[from - 1].upTo.value < value)
    ensures from <= i < |bands| && InBand(value, bands[i])
    ensures i > 0 ==> bands[i - 1].upTo.value < value
    ensures i < |bands| - 1 ==> value <= bands[i].upTo.value
    decreases |bands| - from
  {
    if from == |bands| - 1 || value <= bands[from].upTo.value {
      i := from;
      if i > 0 { assert bands[i - 1 + 1].from == bands[i - 1].upTo; }
    } else {
      i := FindBand(bands, value, from + 1);
    }
  }

  lemma BandsHolding(bands: seq<Provision>, value: real, i: nat, j: nat)
    requires Tiles(bands) && i < j < |bands| && InBand(value, bands[i]) && InBand(value, bands[j])
    ensures j == i + 1 && bands[i].upTo == Some(value)
  {
    assert bands[j - 1 + 1].from == bands[j - 1].upTo;
    SeamsAscend(bands, i, j - 1);
  }

  /** Off the seams exactly one band holds a value; on a seam exactly its two neighbours do. */
  lemma HowManyBands(bands: seq<Provision>, value: real) returns (i: nat)
    requires Tiles(bands)
    ensures i < |bands| && InBand(value, bands[i])
    ensures !IsSeam(bands, value) ==> forall j :: 0 <= j < |bands| && InBand(value, bands[j]) ==> j == i
    ensures IsSeam(bands, value) ==>
              && i + 1 < |bands| && bands[i].upTo == Some(value) && InBand(value, bands[i + 1])
              && forall j :: 0 <= j < |bands| && InBand(value, bands[j]) ==> j == i || j == i + 1
  {
    i := FindBand(bands, value, 0);
    if IsSeam(bands, value) {
      var s :| 0 <= s < |bands| - 1 && bands[s].upTo == Some(value);
      SeamIndex(bands, value, s, i);
      NextHolds(bands, i);
    }
    forall j | 0 <= j < |bands| && InBand(value, bands[j]) && j != i ensures j == i + 1 && IsSeam(bands, value) {
      if j < i { BandsHolding(bands, value, j, i); } else { BandsHolding(bands, value, i, j); }
    }
  }

  lemma SeamIndex(bands: seq<Provision>, value: real, s: nat, i: nat)
    requires Tiles(bands) && s < |bands| - 1 && bands[s].upTo == Some(value) && i < |bands|
    requires i > 0 ==> bands[i - 1].upTo.value < value
    requires i < |bands| - 1 ==> value <= bands[i].upTo.value
    ensures s == i
  {
    if s < i { SeamsAscend(bands, s, i - 1); } else { SeamsAscend(bands, i, s); }
  }

  lemma SeamsAscend(bands: seq<Provision>, i: nat, j: nat)
    requires Tiles(bands) && i <= j < |bands| - 1
    ensures bands[i].upTo.Some? && bands[j].upTo.Some?
    ensures i == j || bands[i].upTo.value < bands[j].upTo.value
  {
  }

  /** The upper end of a band lies in the next one too. */
  lemma NextHolds(bands: seq<Provision>, i: nat)
    requires Tiles(bands) && i < |bands| - 1
    ensures bands[i].upTo.Some? && InBand(bands[i].upTo.value, bands[i + 1])
  {
    if i + 1 < |bands| - 1 { assert bands[i].upTo.value < bands[i + 1].upTo.value; }
  }

  /** When the newest reading's bands tile the line, every value off the seams is governed by one provision
      and every seam is refused as lying in two. */
  lemma TilingResolvesAllButSeams(origins: seq<Origin>, table: seq<Provision>, request: Request, authority: string, bands: seq<Provision>)
    requires ArrivedOnceFrom(origins, request.document, authority) && DistinctRows(table)
    requires Tiles(bands) && DistinctRows(bands)
    requires forall p :: p in bands <==> IsNewest(table, request, authority, p)
    ensures var selection := SelectProvision(origins, table, request);
            && selection.Applicable?
            && (IsSeam(bands, request.value) <==> selection.reason == SeveralBands)
            && (!IsSeam(bands, request.value) <==> selection.reason == OnlyBand)
            && |selection.considered| == if IsSeam(bands, request.value) then 2 else 1
  {
    var selection := SelectProvision(origins, table, request);
    AppliedIffOnlyOneGoverns(origins, table, request, authority);
    forall p ensures p in selection.considered <==> p in bands && InBand(request.value, p) { }
    TwoOnSeams(bands, request.value, Elements(selection.considered));
  }

  /** When a second document of the authority states the same bands, no value is resolved any more. */
  lemma SecondDocumentUnsettlesAll(
      origins: seq<Origin>, table: seq<Provision>, request: Request, authority: string, bands: seq<Provision>, copies: seq<Provision>)
    requires ArrivedOnceFrom(origins, request.document, authority) && DistinctRows(table)
    requires Tiles(bands) && |copies| == |bands|
    requires forall i :: 0 <= i < |bands| ==>
               && copies[i].from == bands[i].from && copies[i].upTo == bands[i].upTo && copies[i].document != bands[i].document
               && IsNewest(table, request, authority, bands[i]) && IsNewest(table, request, authority, copies[i])
    ensures SelectProvision(origins, table, request).Applicable?
    ensures SelectProvision(origins, table, request).provision.None? && SelectProvision(origins, table, request).reason == SeveralBands
  {
    hide SelectProvision, AuthorityOf, Less;
    var i := HowManyBands(bands, request.value);
    assert bands[i] in table && copies[i] in table && bands[i] != copies[i];
    TwoGoverningAreRefused(origins, table, request, authority, bands[i], copies[i]);
  }

  lemma TwoOnSeams(bands: seq<Provision>, value: real, held: set<Provision>)
    requires Tiles(bands) && DistinctRows(bands)
    requires forall p :: p in held <==> p in bands && InBand(value, p)
    ensures |held| == if IsSeam(bands, value) then 2 else 1
  {
    var i := HowManyBands(bands, value);
    assert bands[i] in held;
    if IsSeam(bands, value) {
      assert bands[i + 1] in held && bands[i] != bands[i + 1];
      assert held == {bands[i], bands[i + 1]};
    } else {
      assert held == {bands[i]};
    }
  }

  // ---- The amount required ----

  /** The share of the cost, then the cap. */
  function Required(cost: real, p: Provision): Option<real> {
    if p.share.None? then None
    else
      var required := cost * p.share.value;
      if p.cap.Some? && required > p.cap.value then p.cap else Some(required)
  }

  ghost predicate Priced(bands: seq<Provision>) {
    forall i :: 0 <= i < |bands| ==> bands[i].share.Some? && bands[i].share.value >= 0.0
  }

  /** The lesser of the share of the cost and the cap, so it never falls as the cost rises. */
  lemma RequiredWithinBand(a: real, b: real, p: Provision)
    requires p.share.Some? && p.share.value >= 0.0 && a <= b
    ensures Required(a, p).value <= Required(b, p).value
    ensures Required(a, p).value <= a * p.share.value && (p.cap.Some? ==> Required(a, p).value <= p.cap.value)
    ensures Required(a, p).value == a * p.share.value || (p.cap.Some? && Required(a, p).value == p.cap.value)
  {
    assert a * p.share.value <= b * p.share.value;
  }

  /** A higher cost never requires less, whichever of the bands holding them is applied. */
  ghost predicate Monotone(bands: seq<Provision>)
    requires Priced(bands)
  {
    forall a: real, b: real, i, j ::
      0 <= i < |bands| && 0 <= j < |bands| && a <= b && InBand(a, bands[i]) && InBand(b, bands[j]) && i <= j ==>
        Required(a, bands[i]).value <= Required(b, bands[j]).value
  }

  ghost predicate RisesAtSeams(bands: seq<Provision>)
    requires Priced(bands) && Tiles(bands)
  {
    forall i :: 0 <= i < |bands| - 1 ==> SeamRises(bands, i)
  }

  ghost predicate SeamRises(bands: seq<Provision>, i: nat)
    requires Priced(bands) && Tiles(bands) && i < |bands| - 1
  {
    Required(bands[i].upTo.value, bands[i]).value <= Required(bands[i].upTo.value, bands[i + 1]).value
  }

  lemma {:induction false} RisesAcross(bands: seq<Provision>, a: real, b: real, i: nat, j: nat)
    requires Tiles(bands) && Priced(bands) && RisesAtSeams(bands)
    requires i <= j < |bands| && a <= b && InBand(a, bands[i]) && InBand(b, bands[j])
    ensures Required(a, bands[i]).value <= Required(b, bands[j]).value
    decreases j - i
  {
    if i == j {
      RequiredWithinBand(a, b, bands[i]);
    } else {
      var seam := bands[i].upTo.value;
      assert SeamRises(bands, i);
      RequiredWithinBand(a, seam, bands[i]);
      NextHolds(bands, i);
      SeamsAscend(bands, i, j - 1);
      assert bands[j - 1 + 1].from == bands[j - 1].upTo;
      RisesAcross(bands, seam, b, i + 1, j);
    }
  }

  /** The requirement is monotone over all costs exactly when at each seam the upper band asks no less than
      the lower one. */
  lemma MonotoneIffSeamsRise(bands: seq<Provision>)
    requires Tiles(bands) && Priced(bands)
    ensures Monotone(bands) <==> RisesAtSeams(bands)
  {
    if RisesAtSeams(bands) {
      forall a: real, b: real, i, j | 0 <= i < |bands| && 0 <= j < |bands| && a <= b && InBand(a, bands[i]) && InBand(b, bands[j]) && i <= j
        ensures Required(a, bands[i]).value <= Required(b, bands[j]).value
      {
        RisesAcross(bands, a, b, i, j);
      }
    }
    if Monotone(bands) {
      forall i | 0 <= i < |bands| - 1 ensures SeamRises(bands, i) {
        NextHolds(bands, i);
        OwnEndHolds(bands, i);
      }
    }
  }

  lemma OwnEndHolds(bands: seq<Provision>, i: nat)
    requires Tiles(bands) && i < |bands| - 1
    ensures bands[i].upTo.Some? && InBand(bands[i].upTo.value, bands[i])
  {
    if i > 0 {
      assert bands[i - 1 + 1].from == bands[i - 1].upTo;
      SeamsAscend(bands, i - 1, i);
    }
  }

  // ---- Clause 4.14.1 ----

  function Rate(id: Id, clause: string, from: Option<real>, upTo: Option<real>, share: real, cap: Option<real>): Provision {
    Provision(id, 1, "bid_security_share", "nhai", "estimated_cost", clause, "1", from, upTo, Some(share), cap)
  }

  /** Two percent up to 20 crore, at most 30 lakh; one and a half from 20 to 50 crore, at most 50 lakh; one
      percent above 50 crore. */
  const SCHEDULE := [
    Rate(1, "4.14.1(a)", None, Some(200000000.0), 0.02, Some(3000000.0)),
    Rate(2, "4.14.1(b)", Some(200000000.0), Some(500000000.0), 0.015, Some(5000000.0)),
    Rate(3, "4.14.1(c)", Some(500000000.0), None, 0.01, None)]

  lemma ScheduleSeams()
    ensures Tiles(SCHEDULE) && Priced(SCHEDULE)
    ensures Required(200000000.0, SCHEDULE[0]) == Required(200000000.0, SCHEDULE[1]) == Some(3000000.0)
    ensures Required(500000000.0, SCHEDULE[1]) == Required(500000000.0, SCHEDULE[2]) == Some(5000000.0)
  {
  }

  /** The two bands agree at each shared endpoint, so refusing to choose there changes no amount, and the
      requirement never falls as the cost rises. */
  lemma ScheduleIsMonotone()
    ensures Tiles(SCHEDULE) && Priced(SCHEDULE) && Monotone(SCHEDULE)
    ensures forall i :: 0 <= i < |SCHEDULE| - 1 ==>
              Required(SCHEDULE[i].upTo.value, SCHEDULE[i]) == Required(SCHEDULE[i].upTo.value, SCHEDULE[i + 1])
  {
    hide Required, Monotone, Priced;
    ScheduleSeams();
    MonotoneIffSeamsRise(SCHEDULE);
  }
}
