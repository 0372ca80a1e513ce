/** Walking every stored finding back to the bytes it rests on. */
module Audit {
  import opened Options

  type Id = nat

  datatype Document = Document(storageKey: string, sha256: string)

  datatype Provision = Provision(document: Id)

  datatype Fact = Fact(document: Option<Id>, retracted: bool)

  /** One recorded input of a derived fact. */
  datatype Input = Input(fact: Option<Id>, provision: Option<Id>)

  /** An evidence link; the schema lets at most one of the three be set. */
  datatype Link = Link(fact: Option<Id>, derived: Option<Id>, provision: Option<Id>)

  datatype Finding = Finding(id: Id, outcome: string, links: seq<Link>)

  datatype Database = Database(
    findings: seq<Finding>,
    facts: map<Id, Fact>, derived: map<Id, seq<Input>>, provisions: map<Id, Provision>, documents: map<Id, Document>,
    retrieved: set<Id>, uploaded: set<Id>)

  /** What the object store reports for each key it holds; `None` when objects are skipped. */
  type Objects = Option<map<string, string>>

  datatype Counter = Findings | EvidenceLinks | Provisions | DerivedFacts | FactsReached | DocumentsReached | ArtifactsConfirmed

  datatype Kind =
    | NoEvidence | CitesNothing | MissingFact | MissingDerived | MissingProvision | NoInputs
    | RetractedFact | FactWithoutDocument | ProvisionWithoutDocument | NoProvenance | ArtifactMismatch

  /** `at` is the row the break is reported against. */
  datatype Break = Break(kind: Kind, at: Id)

  /** The accumulated result of a walk. */
  datatype Report = Report(counts: multiset<Counter>, breaks: seq<Break>, fatal: bool)

  const CLEAN := Report(multiset{}, [], false)

  function Noted(report: Report, counter: Counter): Report {
    report.(counts := report.counts + multiset{counter})
  }

  function Broke(report: Report, kind: Kind, at: Id, conclusive: bool): Report {
    report.(breaks := report.breaks + [Break(kind, at)], fatal := report.fatal || conclusive)
  }

  predicate Conclusive(finding: Finding) {
    finding.outcome in {"pass", "fail", "review"}
  }

  // ---- The walk, with every digest compared afresh ----

  predicate DigestMatches(objects: Objects, document: Document) {
    objects.Some? ==> document.storageKey in objects.value && objects.value[document.storageKey] == document.sha256
  }

  function CheckArtifact(report: Report, objects: Objects, document: Document, at: Id, conclusive: bool): Report {
    if objects.None? then report
    else if DigestMatches(objects, document) then Noted(report, ArtifactsConfirmed)
    else Broke(report, ArtifactMismatch, at, conclusive)
  }

  function CheckProvision(report: Report, db: Database, objects: Objects, id: Id, conclusive: bool): Report {
    var noted := Noted(report, Provisions);
    if id !in db.provisions then Broke(noted, MissingProvision, id, conclusive)
    else
      var at := db.provisions[id].document;
      if at !in db.documents then Broke(noted, ProvisionWithoutDocument, id, conclusive)
      else CheckArtifact(Noted(noted, DocumentsReached), objects, db.documents[at], at, conclusive)
  }

  predicate HasProvenance(db: Database, document: Id) {
    document in db.retrieved || document in db.uploaded
  }

  function CheckFact(report: Report, db: Database, objects: Objects, id: Id, conclusive: bool): Report
    requires id in db.facts
  {
    var noted, fact := Noted(report, FactsReached), db.facts[id];
    if fact.retracted then Broke(noted, RetractedFact, id, conclusive)
    else if fact.document.None? || fact.document.value !in db.documents then Broke(noted, FactWithoutDocument, id, conclusive)
    else
      var at := fact.document.value;
      var reached := Noted(noted, DocumentsReached);
      var traced := if HasProvenance(db, at) then reached else Broke(reached, NoProvenance, at, conclusive);
      CheckArtifact(traced, objects, db.documents[at], at, conclusive)
  }

  function CheckFacts(report: Report, db: Database, objects: Objects, ids: seq<Id>, conclusive: bool): Report
    requires forall id :: id in ids ==> id in db.facts
  {
    if ids == [] then report
    else CheckFact(CheckFacts(report, db, objects, ids[..|ids| - 1], conclusive), db, objects, ids[|ids| - 1], conclusive)
  }

  /** The inputs whose fact is there. */
  function InputFacts(db: Database, inputs: seq<Input>): (ids: seq<Id>)
    ensures forall id :: id in ids ==> id in db.facts
  {
    if inputs == [] then []
    else
      var input := inputs[|inputs| - 1];
      InputFacts(db, inputs[..|inputs| - 1])
      + if input.fact.Some? && input.fact.value in db.facts then [input.fact.value] else []
  }

  function InputProvisions(inputs: seq<Input>): seq<Id> {
    if inputs == [] then []
    else
      InputProvisions(inputs[..|inputs| - 1])
      + if inputs[|inputs| - 1].provision.Some? then [inputs[|inputs| - 1].provision.value] else []
  }

  /** Provisions a calculation applied are checked without the object store. */
  function CheckApplied(report: Report, db: Database, ids: seq<Id>, conclusive: bool): Report {
    if ids == [] then report
    else CheckProvision(CheckApplied(report, db, ids[..|ids| - 1], conclusive), db, None, ids[|ids| - 1], conclusive)
  }

  function FactsBehind(db: Database, link: Link): (ids: seq<Id>)
    ensures forall id :: id in ids ==> id in db.facts
  {
    if link.provision.Some? then []
    else if link.fact.Some? then if link.fact.value in db.facts then [link.fact.value] else []
    else if link.derived.None? || link.derived.value !in db.derived then []
    else InputFacts(db, db.derived[link.derived.value])
  }

  /** Following a link to its facts. */
  function FollowLink(report: Report, db: Database, finding: Finding, link: Link): Report {
    var conclusive := Conclusive(finding);
    if link.provision.Some? then report
    else if link.fact.Some?
      then if link.fact.value in db.facts then report else Broke(report, MissingFact, finding.id, conclusive)
    else if link.derived.None? then Broke(report, CitesNothing, finding.id, conclusive)
    else if link.derived.value !in db.derived then Broke(Noted(report, DerivedFacts), MissingDerived, link.derived.value, conclusive)
    else
      var inputs := db.derived[link.derived.value];
      var applied := CheckApplied(Noted(report, DerivedFacts), db, InputProvisions(inputs), conclusive);
      if InputFacts(db, inputs) == [] && InputProvisions(inputs) == [] then Broke(applied, NoInputs, link.derived.value, conclusive)
      else applied
  }

  function CheckLink(report: Report, db: Database, objects: Objects, finding: Finding, link: Link): Report {
    var noted, conclusive := Noted(report, EvidenceLinks), Conclusive(finding);
    if link.provision.Some? then CheckProvision(noted, db, objects, link.provision.value, conclusive)
    else CheckFacts(FollowLink(noted, db, finding, link), db, objects, FactsBehind(db, link), conclusive)
  }

  function CheckLinks(report: Report, db: Database, objects: Objects, finding: Finding, k: nat): Report
    requires k <= |finding.links|
  {
    if k == 0 then report
    else CheckLink(CheckLinks(report, db, objects, finding, k - 1), db, objects, finding, finding.links[k - 1])
  }

  function CheckFinding(report: Report, db: Database, objects: Objects, finding: Finding): Report {
    var noted := Noted(report, Findings);
    if finding.links == [] then Broke(noted, NoEvidence, finding.id, Conclusive(finding))
    else CheckLinks(noted, db, objects, finding, |finding.links|)
  }

  function CheckAll(db: Database, objects: Objects, k: nat): Report
    requires k <= |db.findings|
  {
    if k == 0 then CLEAN else CheckFinding(CheckAll(db, objects, k - 1), db, objects, db.findings[k - 1])
  }

  // ---- The walk as it runs, asking the store once for each key ----

  /** Documents filed under one storage key are one content. */
  ghost predicate KeysDetermineContent(db: Database) {
    forall a, b :: a in db.documents && b in db.documents && db.documents[a].storageKey == db.documents[b].storageKey ==>
      db.documents[a].sha256 == db.documents[b].sha256
  }

  class Auditor {
    const db: Database
    const objects: Objects
    var counts: multiset<Counter>
    var breaks: seq<Break>
    var fatal: bool
    /** The verdict already reached for each storage key. */
    var verified: map<string, bool>

    constructor (db: Database, objects: Objects)
      requires KeysDetermineContent(db)
      ensures this.db == db && this.objects == objects
      ensures Valid() && View() == CLEAN
    {
      this.db, this.objects := db, objects;
      counts, breaks, fatal, verified := multiset{}, [], false, map[];
    }

    ghost function View(): Report
      reads this
    {
      Report(counts, breaks, fatal)
    }

    /** Each cached verdict is what a fresh comparison would say of any document under that key. */
    ghost predicate Valid()
      reads this
    {
      && KeysDetermineContent(db)
      && forall d :: d in db.documents && db.documents[d].storageKey in verified ==>
           verified[db.documents[d].storageKey] == DigestMatches(objects, db.documents[d])
    }

    method Note(counter: Counter)
      modifies this`counts
      ensures View() == Noted(old(View()), counter)
    {
      counts := counts + multiset{counter};
    }

    method AddBreak(kind: Kind, at: Id, conclusive: bool)
      modifies this`breaks, this`fatal
      ensures View() == Broke(old(View()), kind, at, conclusive)
    {
      breaks := breaks + [Break(kind, at)];
      if conclusive { fatal := true; }
    }

    method VisitArtifact(id: Id, conclusive: bool)
      requires Valid() && id in db.documents
      modifies this
      ensures Valid() && View() == CheckArtifact(old(View()), objects, db.documents[id], id, conclusive)
    {
      if objects.None? { return; }
      var document := db.documents[id];
      var key := document.storageKey;
      if key !in verified {
        verified := verified[key := key in objects.value && objects.value[key] == document.sha256];
      }
      if verified[key] {
        Note(ArtifactsConfirmed);
      } else {
        AddBreak(ArtifactMismatch, id, conclusive);
      }
    }

    /** A provision reached through a calculation is visited without the object store. */
    method VisitProvision(id: Id, conclusive: bool, withObjects: bool)
      requires Valid()
      modifies this
      ensures Valid()
      ensures View() == CheckProvision(old(View()), db, if withObjects then objects else None, id, conclusive)
    {
      Note(Provisions);
      if id !in db.provisions {
        AddBreak(MissingProvision, id, conclusive);
        return;
      }
      var at := db.provisions[id].document;
      if at !in db.documents {
        AddBreak(ProvisionWithoutDocument, id, conclusive);
        return;
      }
      Note(DocumentsReached);
      if !withObjects { return; }
      VisitArtifact(at, conclusive);
    }

    method VisitFact(id: Id, conclusive: bool)
      requires Valid() && id in db.facts
      modifies this
      ensures Valid() && View() == CheckFact(old(View()), db, objects, id, conclusive)
    {
      Note(FactsReached);
      var fact := db.facts[id];
      if fact.retracted {
        AddBreak(RetractedFact, id, conclusive);
        return;
      }
      if fact.document.None? || fact.document.value !in db.documents {
        AddBreak(FactWithoutDocument, id, conclusive);
        return;
      }
      var at := fact.document.value;
      Note(DocumentsReached);
      if !HasProvenance(db, at) { AddBreak(NoProvenance, at, conclusive); }
      VisitArtifact(at, conclusive);
    }

    method VisitApplied(ids: seq<Id>, conclusive: bool)
      requires Valid()
      modifies this
      ensures Valid() && View() == CheckApplied(old(View()), db, ids, conclusive)
    {
      for i := 0 to |ids|
        invariant Valid() && View() == CheckApplied(old(View()), db, ids[..i], conclusive)
      {
        assert ids[..i + 1][..i] == ids[..i];
        VisitProvision(ids[i], conclusive, false);
      }
      assert ids[..|ids|] == ids;
    }

    method Follow(finding: Finding, link: Link) returns (ids: seq<Id>)
      requires Valid()
      modifies this
      ensures Valid() && ids == FactsBehind(db, link) && View() == FollowLink(old(View()), db, finding, link)
    {
      var conclusive := Conclusive(finding);
      if link.provision.Some? { return []; }
      if link.fact.Some? {
        if link.fact.value in db.facts { return [link.fact.value]; }
        AddBreak(MissingFact, finding.id, conclusive);
        return [];
      }
      if link.derived.None? {
        AddBreak(CitesNothing, finding.id, conclusive);
        return [];
      }
      Note(DerivedFacts);
      if link.derived.value !in db.derived {
        AddBreak(MissingDerived, link.derived.value, conclusive);
        return [];
      }
      ids := InputFacts(db, db.derived[link.derived.value]);
      var applied := InputProvisions(db.derived[link.derived.value]);
      VisitApplied(applied, conclusive);
      if ids == [] && applied == [] { AddBreak(NoInputs, link.derived.value, conclusive); }
    }

    method VisitFacts(ids: seq<Id>, conclusive: bool)
      requires Valid() && forall id :: id in ids ==> id in db.facts
      modifies this
      ensures Valid() && View() == CheckFacts(old(View()), db, objects, ids, conclusive)
    {
      for i := 0 to |ids|
        invariant Valid() && View() == CheckFacts(old(View()), db, objects, ids[..i], conclusive)
      {
        assert ids[..i + 1][..i] == ids[..i];
        VisitFact(ids[i], conclusive);
      }
      assert ids[..|ids|] == ids;
    }

    method VisitLink(finding: Finding, link: Link)
      requires Valid()
      modifies this
      ensures Valid() && View() == CheckLink(old(View()), db, objects, finding, link)
    {
      Note(EvidenceLinks);
      if link.provision.Some? {
        VisitProvision(link.provision.value, Conclusive(finding), true);
        return;
      }
      var ids := Follow(finding, link);
      VisitFacts(ids, Conclusive(finding));
    }

    method VisitFinding(finding: Finding)
      requires Valid()
      modifies this
      ensures Valid() && View() == CheckFinding(old(View()), db, objects, finding)
    {
      hide CheckLink;
      Note(Findings);
      if finding.links == [] {
        AddBreak(NoEvidence, finding.id, Conclusive(finding));
        return;
      }
      ghost var noted := View();
      for i := 0 to |finding.links|
        invariant Valid() && View() == CheckLinks(noted, db, objects, finding, i)
      {
        VisitLink(finding, finding.links[i]);
      }
    }

    /** The cache changes nothing: the walk reports what it would report comparing every digest afresh. */
    method Run()
      requires Valid() && View() == CLEAN
      modifies this
      ensures Valid() && View() == CheckAll(db, objects, |db.findings|)
    {
      hide CheckFinding;
      for i := 0 to |db.findings|
        invariant Valid()
        invariant View() == CheckAll(db, objects, i)
      {
        ghost var before := View();
        VisitFinding(db.findings[i]);
        OneMoreFinding(db, objects, i, before, View());
      }
    }
  }

  lemma OneMoreFinding(db: Database, objects: Objects, i: nat, before: Report, after: Report)
    requires i < |db.findings| && before == CheckAll(db, objects, i)
    requires after == CheckFinding(before, db, objects, db.findings[i])
    ensures after == CheckAll(db, objects, i + 1)
  {
  }

  /** The process exit code. */
  function ExitCode(report: Report): nat {
    if report.breaks == [] then 0 else if report.fatal then 1 else 0
  }

  // ---- What the walk decides ----

  /** There is nothing to compare with, or the store holds the document's bytes under its key. */
  ghost predicate BytesAreStored(objects: Objects, document: Document) {
    objects.None? || (document.storageKey in objects.value && objects.value[document.storageKey] == document.sha256)
  }

  ghost predicate ProvisionTraces(db: Database, objects: Objects, id: Id) {
    && id in db.provisions && db.provisions[id].document in db.documents
    && BytesAreStored(objects, db.documents[db.provisions[id].document])
  }

  ghost predicate FactTraces(db: Database, objects: Objects, id: Id) {
    && id in db.facts && !db.facts[id].retracted
    && db.facts[id].document.Some? && db.facts[id].document.value in db.documents
    && (db.facts[id].document.value in db.retrieved || db.facts[id].document.value in db.uploaded)
    && BytesAreStored(objects, db.documents[db.facts[id].document.value])
  }

  /** A derived fact rests on something, every fact it rests on traces to its bytes, and every provision it
      applied traces to a document. */
  ghost predicate DerivedTraces(db: Database, objects: Objects, id: Id) {
    && id in db.derived
    && (exists input :: input in db.derived[id] && (input.provision.Some? || (input.fact.Some? && input.fact.value in db.facts)))
    && (forall input :: input in db.derived[id] && input.provision.Some? ==> ProvisionTraces(db, None, input.provision.value))
    && (forall input :: input in db.derived[id] && input.fact.Some? && input.fact.value in db.facts ==>
          FactTraces(db, objects, input.fact.value))
  }

  ghost predicate LinkTraces(db: Database, objects: Objects, link: Link) {
    if link.provision.Some? then ProvisionTraces(db, objects, link.provision.value)
    else if link.fact.Some? then FactTraces(db, objects, link.fact.value)
    else link.derived.Some? && DerivedTraces(db, objects, link.derived.value)
  }

  /** Every link of the finding leads to stored bytes, and there is one. */
  ghost predicate Traces(db: Database, objects: Objects, finding: Finding) {
    finding.links != [] && forall link :: link in finding.links ==> LinkTraces(db, objects, link)
  }

  /** What a stretch of the walk adds to a report when what it checks traces, or does not. */
  ghost predicate Judges(before: Report, after: Report, traces: bool, conclusive: bool) {
    && before.breaks <= after.breaks
    && (after.breaks == before.breaks <==> traces)
    && after.fatal == (before.fatal || (conclusive && !traces))
  }

  lemma ProvisionJudged(report: Report, db: Database, objects: Objects, id: Id, conclusive: bool)
    ensures Judges(report, CheckProvision(report, db, objects, id, conclusive), ProvisionTraces(db, objects, id), conclusive)
  {
  }

  lemma FactJudged(report: Report, db: Database, objects: Objects, id: Id, conclusive: bool)
    requires id in db.facts
    ensures Judges(report, CheckFact(report, db, objects, id, conclusive), FactTraces(db, objects, id), conclusive)
  {
    hide CheckArtifact, BytesAreStored;
    if db.facts[id].document.Some? && db.facts[id].document.value in db.documents {
      var at := db.facts[id].document.value;
      var reached := Noted(Noted(report, FactsReached), DocumentsReached);
      ArtifactJudged(reached, objects, db.documents[at], at, conclusive);
      ArtifactJudged(Broke(reached, NoProvenance, at, conclusive), objects, db.documents[at], at, conclusive);
    }
  }

  lemma ArtifactJudged(report: Report, objects: Objects, document: Document, at: Id, conclusive: bool)
    ensures Judges(report, CheckArtifact(report, objects, document, at, conclusive), BytesAreStored(objects, document), conclusive)
  {
  }

  lemma {:induction false} FactsJudged(report: Report, db: Database, objects: Objects, ids: seq<Id>, conclusive: bool)
    requires forall id :: id in ids ==> id in db.facts
    ensures Judges(report, CheckFacts(report, db, objects, ids, conclusive), forall id :: id in ids ==> FactTraces(db, objects, id), conclusive)
  {
    if ids != [] {
      var front, last := ids[..|ids| - 1], ids[|ids| - 1];
      assert ids == front + [last];
      FactsJudged(report, db, objects, front, conclusive);
      FactJudged(CheckFacts(report, db, objects, front, conclusive), db, objects, last, conclusive);
    }
  }

  lemma {:induction false} AppliedJudged(report: Report, db: Database, ids: seq<Id>, conclusive: bool)
    ensures Judges(report, CheckApplied(report, db, ids, conclusive), forall id :: id in ids ==> ProvisionTraces(db, None, id), conclusive)
  {
    if ids != [] {
      var front, last := ids[..|ids| - 1], ids[|ids| - 1];
      assert ids == front + [last];
      AppliedJudged(report, db, front, conclusive);
      ProvisionJudged(CheckApplied(report, db, front, conclusive), db, None, last, conclusive);
    }
  }

  lemma {:induction false} InputsExact(db: Database, inputs: seq<Input>, id: Id)
    ensures id in InputFacts(db, inputs) <==> exists input :: input in inputs && input.fact == Some(id) && id in db.facts
    ensures id in InputProvisions(inputs) <==> exists input :: input in inputs && input.provision == Some(id)
  {
    if inputs != [] {
      InputsExact(db, inputs[..|inputs| - 1], id);
      assert inputs == inputs[..|inputs| - 1] + [inputs[|inputs| - 1]];
    }
  }

  lemma DerivedTracesByParts(db: Database, objects: Objects, id: Id)
    requires id in db.derived
    ensures var inputs := db.derived[id];
            DerivedTraces(db, objects, id) <==>
              && (InputFacts(db, inputs) != [] || InputProvisions(inputs) != [])
              && (forall p :: p in InputProvisions(inputs) ==> ProvisionTraces(db, None, p))
              && (forall f :: f in InputFacts(db, inputs) ==> FactTraces(db, objects, f))
  {
    hide FactTraces, ProvisionTraces, InputFacts, InputProvisions;
    var inputs := db.derived[id];
    forall x { InputsExact(db, inputs, x); }
    if InputFacts(db, inputs) != [] { assert InputFacts(db, inputs)[0] in InputFacts(db, inputs); }
    if InputProvisions(inputs) != [] { assert InputProvisions(inputs)[0] in InputProvisions(inputs); }
    if input :| input in inputs && (input.provision.Some? || (input.fact.Some? && input.fact.value in db.facts)) {
      if input.provision.Some? { InputsExact(db, inputs, input.provision.value); } else { InputsExact(db, inputs, input.fact.value); }
    }
  }

  /** The link leads to something, and every provision it applied on the way traces. */
  ghost predicate Reaches(db: Database, link: Link) {
    if link.fact.Some? then link.fact.value in db.facts
    else
      && link.derived.Some? && link.derived.value in db.derived
      && var inputs := db.derived[link.derived.value];
         && (InputFacts(db, inputs) != [] || InputProvisions(inputs) != [])
         && forall p :: p in InputProvisions(inputs) ==> ProvisionTraces(db, None, p)
  }

  lemma FollowJudged(report: Report, db: Database, finding: Finding, link: Link)
    requires link.provision.None?
    ensures Judges(report, FollowLink(report, db, finding, link), Reaches(db, link), Conclusive(finding))
  {
    hide CheckApplied, ProvisionTraces, InputFacts, InputProvisions;
    if link.fact.None? && link.derived.Some? && link.derived.value in db.derived {
      AppliedJudged(Noted(report, DerivedFacts), db, InputProvisions(db.derived[link.derived.value]), Conclusive(finding));
    }
  }

  lemma LinkTracesByParts(db: Database, objects: Objects, link: Link)
    requires link.provision.None?
    ensures LinkTraces(db, objects, link) <==> Reaches(db, link) && forall f :: f in FactsBehind(db, link) ==> FactTraces(db, objects, f)
  {
    hide ProvisionTraces, InputFacts, InputProvisions;
    if link.fact.None? && link.derived.Some? && link.derived.value in db.derived {
      DerivedTracesByParts(db, objects, link.derived.value);
    }
  }

  lemma LinkJudged(report: Report, db: Database, objects: Objects, finding: Finding, link: Link)
    ensures Judges(report, CheckLink(report, db, objects, finding, link), LinkTraces(db, objects, link), Conclusive(finding))
  {
    var noted, conclusive := Noted(report, EvidenceLinks), Conclusive(finding);
    if link.provision.Some? {
      ProvisionJudged(noted, db, objects, link.provision.value, conclusive);
    } else {
      hide CheckFacts, FollowLink, FactTraces, FactsBehind, Reaches, LinkTraces;
      FollowJudged(noted, db, finding, link);
      LinkTracesByParts(db, objects, link);
      FactsJudged(FollowLink(noted, db, finding, link), db, objects, FactsBehind(db, link), conclusive);
    }
  }

  lemma {:induction false} LinksJudged(report: Report, db: Database, objects: Objects, finding: Finding, k: nat)
    requires k <= |finding.links|
    ensures Judges(report, CheckLinks(report, db, objects, finding, k),
                   forall i :: 0 <= i < k ==> LinkTraces(db, objects, finding.links[i]), Conclusive(finding))
  {
    hide CheckLink, LinkTraces;
    if k > 0 {
      LinksJudged(report, db, objects, finding, k - 1);
      LinkJudged(CheckLinks(report, db, objects, finding, k - 1), db, objects, finding, finding.links[k - 1]);
    }
  }

  lemma FindingJudged(report: Report, db: Database, objects: Objects, finding: Finding)
    ensures Judges(report, CheckFinding(report, db, objects, finding), Traces(db, objects, finding), Conclusive(finding))
  {
    if finding.links != [] { LinksJudged(Noted(report, Findings), db, objects, finding, |finding.links|); }
  }

  ghost predicate AllTrace(db: Database, objects: Objects, k: nat)
    requires k <= |db.findings|
  {
    forall i :: 0 <= i < k ==> Traces(db, objects, db.findings[i])
  }

  ghost predicate Untraced(db: Database, objects: Objects, finding: Finding) {
    finding.outcome in {"pass", "fail", "review"} && !Traces(db, objects, finding)
  }

  ghost predicate SomeUntraced(db: Database, objects: Objects, k: nat)
    requires k <= |db.findings|
  {
    exists i :: 0 <= i < k && Untraced(db, objects, db.findings[i])
  }

  lemma {:induction false} WalkJudged(db: Database, objects: Objects, k: nat)
    requires k <= |db.findings|
    ensures CheckAll(db, objects, k).breaks == [] <==> AllTrace(db, objects, k)
    ensures CheckAll(db, objects, k).fatal <==> SomeUntraced(db, objects, k)
  {
    hide CheckFinding, Traces;
    if k > 0 {
      var before, finding := CheckAll(db, objects, k - 1), db.findings[k - 1];
      WalkJudged(db, objects, k - 1);
      FindingJudged(before, db, objects, finding);
      var after := CheckFinding(before, db, objects, finding);
      OneMoreFinding(db, objects, k - 1, before, after);
      OneMoreJudged(db, objects, k - 1, before, after);
    }
  }

  lemma OneMoreJudged(db: Database, objects: Objects, k: nat, before: Report, after: Report)
    requires k < |db.findings|
    requires before.breaks == [] <==> AllTrace(db, objects, k)
    requires before.fatal <==> SomeUntraced(db, objects, k)
    requires Judges(before, after, Traces(db, objects, db.findings[k]), Conclusive(db.findings[k]))
    ensures after.breaks == [] <==> AllTrace(db, objects, k + 1)
    ensures after.fatal <==> SomeUntraced(db, objects, k + 1)
  {
  }

  /** Sound and complete: the audit fails exactly when some pass, fail or review finding does not trace to
      stored evidence, and reports a clean chain exactly when every finding does. */
  lemma AuditIsExact(db: Database, objects: Objects)
    ensures var report := CheckAll(db, objects, |db.findings|);
            && (report.fatal <==> exists finding :: finding in db.findings && Untraced(db, objects, finding))
            && (report.breaks == [] <==> forall finding :: finding in db.findings ==> Traces(db, objects, finding))
            && (ExitCode(report) == 1 <==> report.fatal)
  {
    WalkJudged(db, objects, |db.findings|);
  }

  // ---- What is reported ----

  /** The row a break is reported against has the flaw it is reported with. */
  ghost predicate IsReal(db: Database, objects: Objects, b: Break) {
    match b.kind
    case NoEvidence => exists finding :: finding in db.findings && finding.id == b.at && finding.links == []
    case CitesNothing =>
      exists finding, link :: finding in db.findings && finding.id == b.at && link in finding.links && link == Link(None, None, None)
    case MissingFact =>
      exists finding, link :: finding in db.findings && finding.id == b.at && link in finding.links
                              && link.fact.Some? && link.fact.value !in db.facts
    case MissingDerived => b.at !in db.derived
    case MissingProvision => b.at !in db.provisions
    case NoInputs =>
      b.at in db.derived
      && forall input :: input in db.derived[b.at] ==> input.provision.None? && (input.fact.None? || input.fact.value !in db.facts)
    case RetractedFact => b.at in db.facts && db.facts[b.at].retracted
    case FactWithoutDocument =>
      b.at in db.facts && !db.facts[b.at].retracted && (db.facts[b.at].document.None? || db.facts[b.at].document.value !in db.documents)
    case ProvisionWithoutDocument => b.at in db.provisions && db.provisions[b.at].document !in db.documents
    case NoProvenance => b.at in db.documents && b.at !in db.retrieved && b.at !in db.uploaded
    case ArtifactMismatch =>
      && b.at in db.documents && objects.Some?
      && (db.documents[b.at].storageKey in objects.value ==> objects.value[db.documents[b.at].storageKey] != db.documents[b.at].sha256)
  }

  ghost predicate AllReal(db: Database, objects: Objects, report: Report) {
    forall b :: b in report.breaks ==> IsReal(db, objects, b)
  }

  lemma BrokeIsReal(db: Database, objects: Objects, report: Report, kind: Kind, at: Id, conclusive: bool)
    requires AllReal(db, objects, report) && IsReal(db, objects, Break(kind, at))
    ensures AllReal(db, objects, Broke(report, kind, at, conclusive))
  {
  }

  lemma ProvisionIsReal(db: Database, objects: Objects, report: Report, given: Objects, id: Id, conclusive: bool)
    requires AllReal(db, objects, report) && given in {objects, None}
    ensures AllReal(db, objects, CheckProvision(report, db, given, id, conclusive))
  {
  }

  lemma FactIsReal(db: Database, objects: Objects, report: Report, id: Id, conclusive: bool)
    requires AllReal(db, objects, report) && id in db.facts
    ensures AllReal(db, objects, CheckFact(report, db, objects, id, conclusive))
  {
    hide AllReal, CheckArtifact;
    var noted, fact := Noted(report, FactsReached), db.facts[id];
    SameBreaks(db, objects, report, noted);
    if fact.retracted {
      BrokeIsReal(db, objects, noted, RetractedFact, id, conclusive);
    } else if fact.document.None? || fact.document.value !in db.documents {
      BrokeIsReal(db, objects, noted, FactWithoutDocument, id, conclusive);
    } else {
      var at, reached := fact.document.value, Noted(noted, DocumentsReached);
      SameBreaks(db, objects, noted, reached);
      if HasProvenance(db, at) {
        ArtifactIsReal(db, objects, reached, at, conclusive);
      } else {
        BrokeIsReal(db, objects, reached, NoProvenance, at, conclusive);
        ArtifactIsReal(db, objects, Broke(reached, NoProvenance, at, conclusive), at, conclusive);
      }
    }
  }

  lemma ArtifactIsReal(db: Database, objects: Objects, report: Report, at: Id, conclusive: bool)
    requires AllReal(db, objects, report) && at in db.documents
    ensures AllReal(db, objects, CheckArtifact(report, objects, db.documents[at], at, conclusive))
  {
    hide AllReal;
    if objects.Some? {
      if DigestMatches(objects, db.documents[at]) { SameBreaks(db, objects, report, Noted(report, ArtifactsConfirmed)); }
      else { BrokeIsReal(db, objects, report, ArtifactMismatch, at, conclusive); }
    }
  }

  lemma {:induction false} FactsAreReal(db: Database, objects: Objects, report: Report, ids: seq<Id>, conclusive: bool)
    requires AllReal(db, objects, report) && forall id :: id in ids ==> id in db.facts
    ensures AllReal(db, objects, CheckFacts(report, db, objects, ids, conclusive))
  {
    hide AllReal;
    if ids != [] {
      var front := ids[..|ids| - 1];
      assert forall id :: id in front ==> id in ids;
      FactsAreReal(db, objects, report, front, conclusive);
      FactIsReal(db, objects, CheckFacts(report, db, objects, front, conclusive), ids[|ids| - 1], conclusive);
    }
  }

  lemma {:induction false} AppliedAreReal(db: Database, objects: Objects, report: Report, ids: seq<Id>, conclusive: bool)
    requires AllReal(db, objects, report)
    ensures AllReal(db, objects, CheckApplied(report, db, ids, conclusive))
  {
    hide AllReal;
    if ids != [] {
      AppliedAreReal(db, objects, report, ids[..|ids| - 1], conclusive);
      ProvisionIsReal(db, objects, CheckApplied(report, db, ids[..|ids| - 1], conclusive), None, ids[|ids| - 1], conclusive);
    }
  }

  lemma LinkIsReal(db: Database, objects: Objects, report: Report, finding: Finding, link: Link)
    requires AllReal(db, objects, report) && finding in db.findings && link in finding.links
    ensures AllReal(db, objects, CheckLink(report, db, objects, finding, link))
  {
    var noted, conclusive := Noted(report, EvidenceLinks), Conclusive(finding);
    if link.provision.Some? {
      ProvisionIsReal(db, objects, noted, objects, link.provision.value, conclusive);
    } else {
      FollowIsReal(db, objects, noted, finding, link);
      FactsAreReal(db, objects, FollowLink(noted, db, finding, link), FactsBehind(db, link), conclusive);
    }
  }

  lemma FollowIsReal(db: Database, objects: Objects, report: Report, finding: Finding, link: Link)
    requires AllReal(db, objects, report) && finding in db.findings && link in finding.links && link.provision.None?
    ensures AllReal(db, objects, FollowLink(report, db, finding, link))
  {
    hide AllReal, CheckApplied;
    var conclusive := Conclusive(finding);
    if link.fact.Some? {
      if link.fact.value !in db.facts { BrokeIsReal(db, objects, report, MissingFact, finding.id, conclusive); }
    } else if link.derived.None? {
      assert link == Link(None, None, None);
      BrokeIsReal(db, objects, report, CitesNothing, finding.id, conclusive);
    } else {
      var d, noted := link.derived.value, Noted(report, DerivedFacts);
      assert AllReal(db, objects, noted) by { SameBreaks(db, objects, report, noted); }
      if d !in db.derived {
        BrokeIsReal(db, objects, noted, MissingDerived, d, conclusive);
      } else {
        var inputs := db.derived[d];
        AppliedAreReal(db, objects, noted, InputProvisions(inputs), conclusive);
        if InputFacts(db, inputs) == [] && InputProvisions(inputs) == [] {
          forall id { InputsExact(db, inputs, id); }
          assert IsReal(db, objects, Break(NoInputs, d));
          BrokeIsReal(db, objects, CheckApplied(noted, db, InputProvisions(inputs), conclusive), NoInputs, d, conclusive);
        }
      }
    }
  }

  lemma SameBreaks(db: Database, objects: Objects, a: Report, b: Report)
    requires AllReal(db, objects, a) && a.breaks == b.breaks
    ensures AllReal(db, objects, b)
  {
  }

  lemma {:induction false} LinksAreReal(db: Database, objects: Objects, report: Report, finding: Finding, k: nat)
    requires AllReal(db, objects, report) && finding in db.findings && k <= |finding.links|
    ensures AllReal(db, objects, CheckLinks(report, db, objects, finding, k))
  {
    hide AllReal, CheckLink;
    if k > 0 {
      LinksAreReal(db, objects, report, finding, k - 1);
      LinkIsReal(db, objects, CheckLinks(report, db, objects, finding, k - 1), finding, finding.links[k - 1]);
    }
  }

  /** Nothing is reported that is not so: every break of a walk names a row with exactly that flaw. */
  lemma {:induction false} EveryBreakIsReal(db: Database, objects: Objects, k: nat)
    requires k <= |db.findings|
    ensures forall b :: b in CheckAll(db, objects, k).breaks ==> IsReal(db, objects, b)
  {
    if k > 0 {
      EveryBreakIsReal(db, objects, k - 1);
      var before, finding := CheckAll(db, objects, k - 1), db.findings[k - 1];
      SameBreaks(db, objects, before, Noted(before, Findings));
      if finding.links == [] {
        BrokeIsReal(db, objects, Noted(before, Findings), NoEvidence, finding.id, Conclusive(finding));
      } else {
        LinksAreReal(db, objects, Noted(before, Findings), finding, |finding.links|);
      }
    }
  }

  // ---- What is counted ----

  /** What one link is followed through. */
  ghost function LinkSteps(db: Database, link: Link, counter: Counter): nat {
    match counter
    case EvidenceLinks => 1
    case Provisions =>
      if link.provision.Some? then 1
      else if link.fact.None? && link.derived.Some? && link.derived.value in db.derived then |InputProvisions(db.derived[link.derived.value])|
      else 0
    case DerivedFacts => if link.provision.None? && link.fact.None? && link.derived.Some? then 1 else 0
    case FactsReached => |FactsBehind(db, link)|
    case _ => 0
  }

  ghost function FindingSteps(db: Database, links: seq<Link>, counter: Counter): nat {
    if links == [] then 0 else FindingSteps(db, links[..|links| - 1], counter) + LinkSteps(db, links[|links| - 1], counter)
  }

  ghost function AllSteps(db: Database, findings: seq<Finding>, counter: Counter): nat {
    if findings == [] then 0
    else AllSteps(db, findings[..|findings| - 1], counter) + FindingSteps(db, findings[|findings| - 1].links, counter)
  }

  ghost predicate IsStep(counter: Counter) {
    counter in {EvidenceLinks, Provisions, DerivedFacts, FactsReached}
  }

  lemma FactIsCounted(db: Database, objects: Objects, report: Report, id: Id, conclusive: bool, counter: Counter)
    requires id in db.facts && (IsStep(counter) || counter == Findings)
    ensures CheckFact(report, db, objects, id, conclusive).counts[counter] == report.counts[counter] + if counter == FactsReached then 1 else 0
  {
    hide CheckArtifact, HasProvenance;
    if db.facts[id].document.Some? && db.facts[id].document.value in db.documents {
      var at := db.facts[id].document.value;
      var reached := Noted(Noted(report, FactsReached), DocumentsReached);
      ArtifactIsNotCounted(reached, objects, db.documents[at], at, conclusive, counter);
      ArtifactIsNotCounted(Broke(reached, NoProvenance, at, conclusive), objects, db.documents[at], at, conclusive, counter);
    }
  }

  lemma ArtifactIsNotCounted(report: Report, objects: Objects, document: Document, at: Id, conclusive: bool, counter: Counter)
    requires counter != ArtifactsConfirmed
    ensures CheckArtifact(report, objects, document, at, conclusive).counts[counter] == report.counts[counter]
  {
    hide DigestMatches;
  }

  lemma ProvisionIsCounted(db: Database, objects: Objects, report: Report, id: Id, conclusive: bool, counter: Counter)
    requires IsStep(counter) || counter == Findings
    ensures CheckProvision(report, db, objects, id, conclusive).counts[counter] == report.counts[counter] + if counter == Provisions then 1 else 0
  {
    hide CheckArtifact;
    if id in db.provisions && db.provisions[id].document in db.documents {
      var at := db.provisions[id].document;
      ArtifactIsNotCounted(Noted(Noted(report, Provisions), DocumentsReached), objects, db.documents[at], at, conclusive, counter);
    }
  }

  lemma {:induction false} FactsAreCounted(db: Database, objects: Objects, report: Report, ids: seq<Id>, conclusive: bool, counter: Counter)
    requires forall id :: id in ids ==> id in db.facts
    requires IsStep(counter) || counter == Findings
    ensures CheckFacts(report, db, objects, ids, conclusive).counts[counter] == report.counts[counter] + if counter == FactsReached then |ids| else 0
  {
    if ids != [] {
      var front := ids[..|ids| - 1];
      assert forall id :: id in front ==> id in ids;
      hide CheckFact;
      FactsAreCounted(db, objects, report, front, conclusive, counter);
      FactIsCounted(db, objects, CheckFacts(report, db, objects, front, conclusive), ids[|ids| - 1], conclusive, counter);
    }
  }

  lemma {:induction false} AppliedAreCounted(db: Database, report: Report, ids: seq<Id>, conclusive: bool, counter: Counter)
    requires IsStep(counter) || counter == Findings
    ensures CheckApplied(report, db, ids, conclusive).counts[counter] == report.counts[counter] + if counter == Provisions then |ids| else 0
  {
    hide CheckProvision;
    if ids != [] {
      AppliedAreCounted(db, report, ids[..|ids| - 1], conclusive, counter);
      ProvisionIsCounted(db, None, CheckApplied(report, db, ids[..|ids| - 1], conclusive), ids[|ids| - 1], conclusive, counter);
    }
  }

  lemma LinkIsCounted(db: Database, objects: Objects, report: Report, finding: Finding, link: Link, counter: Counter)
    requires IsStep(counter) || counter == Findings
    ensures CheckLink(report, db, objects, finding, link).counts[counter] == report.counts[counter] + LinkSteps(db, link, counter)
  {
    var noted, conclusive := Noted(report, EvidenceLinks), Conclusive(finding);
    hide CheckFacts, CheckProvision, FollowLink, FactsBehind;
    if link.provision.Some? {
      assert FactsBehind(db, link) == [] by { NothingBehind(db, link); }
      ProvisionIsCounted(db, objects, noted, link.provision.value, conclusive, counter);
    } else {
      FollowIsCounted(db, noted, finding, link, counter);
      FactsAreCounted(db, objects, FollowLink(noted, db, finding, link), FactsBehind(db, link), conclusive, counter);
    }
  }

  lemma NothingBehind(db: Database, link: Link)
    requires link.provision.Some?
    ensures FactsBehind(db, link) == []
  {
  }

  lemma FollowIsCounted(db: Database, report: Report, finding: Finding, link: Link, counter: Counter)
    requires link.provision.None? && (IsStep(counter) || counter == Findings)
    ensures FollowLink(report, db, finding, link).counts[counter]
            == report.counts[counter] + if counter in {Provisions, DerivedFacts} then LinkSteps(db, link, counter) else 0
  {
    hide CheckApplied, InputProvisions, InputFacts, FactsBehind;
    if link.fact.None? && link.derived.Some? && link.derived.value in db.derived {
      AppliedAreCounted(db, Noted(report, DerivedFacts), InputProvisions(db.derived[link.derived.value]), Conclusive(finding), counter);
    }
  }

  lemma {:induction false} LinksAreCounted(db: Database, objects: Objects, report: Report, finding: Finding, k: nat, counter: Counter)
    requires k <= |finding.links| && (IsStep(counter) || counter == Findings)
    ensures CheckLinks(report, db, objects, finding, k).counts[counter] == report.counts[counter] + FindingSteps(db, finding.links[..k], counter)
  {
    hide CheckLink, LinkSteps;
    if k > 0 {
      LinksAreCounted(db, objects, report, finding, k - 1, counter);
      LinkIsCounted(db, objects, CheckLinks(report, db, objects, finding, k - 1), finding, finding.links[k - 1], counter);
      assert finding.links[..k][..k - 1] == finding.links[..k - 1];
    }
  }

  /** The walk counts every finding, every link, and every provision, derived value and fact it follows them through. */
  lemma {:induction false} WalkIsCounted(db: Database, objects: Objects, k: nat, counter: Counter)
    requires k <= |db.findings|
    ensures CheckAll(db, objects, k).counts[Findings] == k
    ensures IsStep(counter) ==> CheckAll(db, objects, k).counts[counter] == AllSteps(db, db.findings[..k], counter)
  {
    hide CheckLinks, FindingSteps, Conclusive;
    if k > 0 {
      WalkIsCounted(db, objects, k - 1, counter);
      var before, finding := CheckAll(db, objects, k - 1), db.findings[k - 1];
      LinksAreCounted(db, objects, Noted(before, Findings), finding, |finding.links|, Findings);
      assert finding.links[..|finding.links|] == finding.links && db.findings[..k][..k - 1] == db.findings[..k - 1];
      NoSteps(db, finding.links, counter);
      if IsStep(counter) { LinksAreCounted(db, objects, Noted(before, Findings), finding, |finding.links|, counter); }
    }
  }

  lemma {:induction false} NoSteps(db: Database, links: seq<Link>, counter: Counter)
    ensures FindingSteps(db, links, Findings) == 0 && (links == [] ==> FindingSteps(db, links, counter) == 0)
  {
    if links != [] { NoSteps(db, links[..|links| - 1], counter); }
  }

  // ---- The bytes of applied provisions ----

  /** As `Traces`, with the bytes of the provisions a calculation applied compared too. */
  ghost predicate FullyTraces(db: Database, objects: Objects, finding: Finding) {
    finding.links != [] && forall link :: link in finding.links ==> LinkFullyTraces(db, objects, link)
  }

  ghost predicate LinkFullyTraces(db: Database, objects: Objects, link: Link) {
    if link.provision.Some? then ProvisionTraces(db, objects, link.provision.value)
    else if link.fact.Some? then FactTraces(db, objects, link.fact.value)
    else
      && link.derived.Some? && DerivedTraces(db, objects, link.derived.value)
      && forall input :: input in db.derived[link.derived.value] && input.provision.Some? ==>
           ProvisionTraces(db, objects, input.provision.value)
  }

  ghost predicate BytesMatch(db: Database, objects: Objects, provision: Id) {
    provision in db.provisions && db.provisions[provision].document in db.documents ==>
      BytesAreStored(objects, db.documents[db.provisions[provision].document])
  }

  /** The store holds, unchanged, every provision that a value the link cites was computed with. */
  ghost predicate AppliedMatch(db: Database, objects: Objects, link: Link) {
    link.provision.None? && link.fact.None? && link.derived.Some? && link.derived.value in db.derived ==>
      forall input :: input in db.derived[link.derived.value] && input.provision.Some? ==> BytesMatch(db, objects, input.provision.value)
  }

  ghost predicate AllAppliedMatch(db: Database, objects: Objects, finding: Finding) {
    forall link :: link in finding.links ==> AppliedMatch(db, objects, link)
  }

  lemma LinkFullyTracesIff(db: Database, objects: Objects, link: Link)
    ensures LinkFullyTraces(db, objects, link) <==> LinkTraces(db, objects, link) && AppliedMatch(db, objects, link)
  {
    hide FactTraces, BytesAreStored;
  }

  lemma FullyTracesIff(db: Database, objects: Objects, finding: Finding)
    ensures FullyTraces(db, objects, finding) <==> Traces(db, objects, finding) && AllAppliedMatch(db, objects, finding)
  {
    hide LinkFullyTraces, LinkTraces, AppliedMatch;
    forall link { LinkFullyTracesIff(db, objects, link); }
  }

  /** The audit reaches the verdict of one that compares those bytes too exactly when it has no store to
      compare with, or fails anyway, or every provision behind a conclusive finding is unchanged. */
  lemma AppliedBytesMatterIff(db: Database, objects: Objects)
    ensures var fatal := CheckAll(db, objects, |db.findings|).fatal;
            (fatal <==> exists finding :: finding in db.findings && finding.outcome in {"pass", "fail", "review"} && !FullyTraces(db, objects, finding))
            <==> objects.None? || fatal
                 || forall finding :: finding in db.findings && finding.outcome in {"pass", "fail", "review"} ==> AllAppliedMatch(db, objects, finding)
  {
    hide CheckAll, Traces, FullyTraces;
    AuditIsExact(db, objects);
    forall finding { FullyTracesIff(db, objects, finding); }
    if objects.None? {
      assert forall finding :: AllAppliedMatch(db, objects, finding);
    }
  }

  /** The bytes of a provision are compared when a finding cites the provision itself, and not when it is
      reached through a calculation. */
  lemma AppliedProvisionBytesAreNotCompared(db: Database, objects: Objects, p: Id, d: Id)
    requires d in db.derived && db.derived[d] == [Input(None, Some(p))]
    requires p in db.provisions && db.provisions[p].document in db.documents
    ensures LinkTraces(db, objects, Link(None, Some(d), None))
    ensures LinkTraces(db, objects, Link(None, None, Some(p))) <==> DigestMatches(objects, db.documents[db.provisions[p].document])
  {
    assert Input(None, Some(p)) in db.derived[d];
  }
}
