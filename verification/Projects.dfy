/** Grouping documents into projects by the reference each of them states. */
module Projects {
  import opened Options
  import opened Keys
  import opened Ordering
  import opened Tables

  type Id = nat

  /** The fact types usable as a project key, strongest first. */
  datatype KeyFact = NitNumber | ProjectReference

  datatype Kind = SameTender | SameContract

  /** One extracted fact; `key` is its type when that is a key fact. */
  datatype Fact = Fact(document: Id, key: Option<KeyFact>, literal: string, retracted: bool)

  /** A retrieval or an upload: where a document came from. */
  datatype Origin = Origin(document: Id, source: string)

  /** One answer row of the query joining key facts with origins. */
  datatype Row = Row(document: Id, source: string, key: KeyFact, literal: string)

  /** A project is identified by its source and reference; a declared one may have no reference. */
  datatype Project = Referenced(source: string, reference: string) | Declared(id: nat)

  datatype Link = Link(first: Id, second: Id, kind: Kind)

  datatype Group = Group(project: Project, key: KeyFact, documents: seq<Id>)

  datatype Counts = Counts(projects: int, memberships: int, relationships: int, withoutKey: nat)

  function Rank(key: KeyFact): nat {
    if key == NitNumber then 0 else 1
  }

  function EstablishedBy(key: KeyFact): string {
    "shared_fact:" + if key == NitNumber then "nit_number" else "project_reference"
  }

  function KindFor(key: KeyFact): Kind {
    if key == NitNumber then SameTender else SameContract
  }

  /** What the query returns, in whatever order: every unretracted key fact beside every origin of its
      document, restricted to one source when asked. */
  ghost predicate Answers(rows: seq<Row>, facts: seq<Fact>, origins: seq<Origin>, only: Option<string>) {
    forall row :: row in rows <==>
      && Fact(row.document, Some(row.key), row.literal, false) in facts
      && Origin(row.document, row.source) in origins
      && only in {None, Some(row.source)}
  }

  // ---- One row for each document ----

  /** The first of a document's strongest rows. */
  function Best(rows: seq<Row>): map<Id, Row> {
    if rows == [] then map[]
    else
      var best, row := Best(rows[..|rows| - 1]), rows[|rows| - 1];
      if row.document !in best || Rank(row.key) < Rank(best[row.document].key) then best[row.document := row] else best
  }

  /** The documents in the order their first rows came. */
  function Seen(rows: seq<Row>): seq<Id> {
    if rows == [] then []
    else
      var front, row := rows[..|rows| - 1], rows[|rows| - 1];
      Seen(front) + if row.document in Best(front) then [] else [row.document]
  }

  lemma {:induction false} SeenExact(rows: seq<Row>)
    ensures forall d :: d in Seen(rows) <==> d in Best(rows)
    ensures NoRepeats(Seen(rows))
    ensures forall d :: d in Best(rows) ==> Best(rows)[d].document == d && Best(rows)[d] in rows
  {
    if rows != [] { SeenExact(rows[..|rows| - 1]); }
  }

  ghost predicate FirstAsStrong(rows: seq<Row>, j: nat, row: Row) {
    && j < |rows| && rows[j] == row
    && forall k :: 0 <= k < j && rows[k].document == row.document ==> Rank(rows[k].key) > Rank(row.key)
  }

  /** A document is placed by its strongest identifier, and by the first row that states one that strong. */
  lemma {:induction false} PlacedByStrongest(rows: seq<Row>, i: nat)
    requires i < |rows|
    ensures var d := rows[i].document;
            && d in Best(rows) && Rank(Best(rows)[d].key) <= Rank(rows[i].key)
            && exists j: nat :: FirstAsStrong(rows, j, Best(rows)[d])
  {
    var front, d := rows[..|rows| - 1], rows[i].document;
    if k :| 0 <= k < |front| && front[k].document == d {
      PlacedByStrongest(front, if i < |front| then i else k);
      AllWeaker(front, d);
      var j: nat :| FirstAsStrong(front, j, Best(front)[d]);
      if Best(rows)[d] == Best(front)[d] {
        assert FirstAsStrong(rows, j, Best(rows)[d]);
      } else {
        assert FirstAsStrong(rows, |front|, Best(rows)[d]);
      }
    } else {
      SeenExact(front);
      assert d !in Best(front);
      assert FirstAsStrong(rows, |front|, Best(rows)[d]);
    }
  }

  lemma {:induction false} AllWeaker(rows: seq<Row>, d: Id)
    requires d in Best(rows)
    ensures forall k :: 0 <= k < |rows| && rows[k].document == d ==> Rank(Best(rows)[d].key) <= Rank(rows[k].key)
  {
    var front := rows[..|rows| - 1];
    if d in Best(front) {
      AllWeaker(front, d);
    } else {
      forall k | 0 <= k < |front| && front[k].document == d ensures d in Best(front) { RowIsPlaced(front, k); }
    }
  }

  lemma {:induction false} RowIsPlaced(rows: seq<Row>, k: nat)
    requires k < |rows|
    ensures rows[k].document in Best(rows)
  {
    if k < |rows| - 1 { RowIsPlaced(rows[..|rows| - 1], k); }
  }

  method Place(rows: seq<Row>) returns (best: map<Id, Row>, seen: seq<Id>)
    ensures best == Best(rows) && seen == Seen(rows)
  {
    best, seen := map[], [];
    for i := 0 to |rows|
      invariant best == Best(rows[..i]) && seen == Seen(rows[..i])
    {
      assert rows[..i + 1][..i] == rows[..i];
      var row := rows[i];
      if row.document !in best { seen := seen + [row.document]; }
      if row.document !in best || Rank(row.key) < Rank(best[row.document].key) { best := best[row.document := row]; }
    }
    assert rows[..|rows|] == rows;
  }

  // ---- Grouping ----

  function KeyOf(up: char -> string, row: Row): Project {
    Referenced(row.source, NormaliseProjectKey(up, row.literal))
  }

  /** The documents of one group, in the order they were placed. */
  function Selected(up: char -> string, best: map<Id, Row>, seen: seq<Id>, project: Project): seq<Id>
    requires forall d :: d in seen ==> d in best
  {
    if seen == [] then []
    else
      var d := seen[|seen| - 1];
      Selected(up, best, seen[..|seen| - 1], project) + if KeyOf(up, best[d]) == project then [d] else []
  }

  function KeysSeen(up: char -> string, best: map<Id, Row>, seen: seq<Id>): seq<Project>
    requires forall d :: d in seen ==> d in best
  {
    if seen == [] then []
    else
      var front, key := seen[..|seen| - 1], KeyOf(up, best[seen[|seen| - 1]]);
      KeysSeen(up, best, front) + if Selected(up, best, front, key) == [] then [key] else []
  }

  lemma {:induction false} SelectedExact(up: char -> string, best: map<Id, Row>, seen: seq<Id>, project: Project)
    requires forall d :: d in seen ==> d in best
    ensures forall d :: d in Selected(up, best, seen, project) <==> d in seen && KeyOf(up, best[d]) == project
  {
    if seen != [] {
      SelectedExact(up, best, seen[..|seen| - 1], project);
      assert seen == seen[..|seen| - 1] + [seen[|seen| - 1]];
    }
  }

  lemma {:induction false} SelectedOnce(up: char -> string, best: map<Id, Row>, seen: seq<Id>, project: Project)
    requires (forall d :: d in seen ==> d in best) && NoRepeats(seen)
    ensures NoRepeats(Selected(up, best, seen, project))
  {
    if seen != [] {
      SelectedOnce(up, best, seen[..|seen| - 1], project);
      SelectedExact(up, best, seen[..|seen| - 1], project);
    }
  }

  lemma {:induction false} KeysSeenExact(up: char -> string, best: map<Id, Row>, seen: seq<Id>, project: Project)
    requires forall d :: d in seen ==> d in best
    ensures project in KeysSeen(up, best, seen) <==> Selected(up, best, seen, project) != []
  {
    if seen != [] { KeysSeenExact(up, best, seen[..|seen| - 1], project); }
  }

  lemma {:induction false} KeysSeenOnce(up: char -> string, best: map<Id, Row>, seen: seq<Id>)
    requires forall d :: d in seen ==> d in best
    ensures NoRepeats(KeysSeen(up, best, seen))
  {
    if seen != [] {
      KeysSeenOnce(up, best, seen[..|seen| - 1]);
      KeysSeenExact(up, best, seen[..|seen| - 1], KeyOf(up, best[seen[|seen| - 1]]));
    }
  }

  predicate Below(a: Id, b: Id) {
    a < b
  }

  /** Groups come in the order of (source, reference), compared as a tuple of strings. */
  predicate Before(a: Project, b: Project) {
    match (a, b)
    case (Referenced(s, r), Referenced(t, q)) => Less(s, t) || (s == t && Less(r, q))
    case (Referenced(_, _), Declared(_)) => true
    case (Declared(_), Referenced(_, _)) => false
    case (Declared(i), Declared(j)) => i < j
  }

  function Self<T>(x: T): T {
    x
  }

  lemma BeforeIsStrictTotalOrder()
    ensures StrictTotalOrder(Before)
  {
    LessIsStrictTotalOrder();
  }

  function GroupOf(up: char -> string, best: map<Id, Row>, seen: seq<Id>, project: Project): Group
    requires forall d :: d in seen ==> d in best
    requires Selected(up, best, seen, project) != []
  {
    var documents := Selected(up, best, seen, project);
    SelectedExact(up, best, seen, project);
    Group(project, best[documents[0]].key, SortBy(Below, Self, documents))
  }

  function GroupsOf(up: char -> string, best: map<Id, Row>, seen: seq<Id>, projects: seq<Project>): seq<Group>
    requires forall d :: d in seen ==> d in best
    requires forall p :: p in projects ==> Selected(up, best, seen, p) != []
  {
    if projects == [] then []
    else GroupsOf(up, best, seen, projects[..|projects| - 1]) + [GroupOf(up, best, seen, projects[|projects| - 1])]
  }

  function SortedKeys(up: char -> string, best: map<Id, Row>, seen: seq<Id>): (projects: seq<Project>)
    requires forall d :: d in seen ==> d in best
    ensures forall p :: p in projects ==> Selected(up, best, seen, p) != []
  {
    var keys := KeysSeen(up, best, seen);
    assert forall p :: p in SortBy(Before, Self, keys) ==> Selected(up, best, seen, p) != [] by {
      KeysSeenOnce(up, best, seen);
      BeforeIsStrictTotalOrder();
      SortBySorts(Before, Self, keys);
      forall p | p in keys ensures Selected(up, best, seen, p) != [] { KeysSeenExact(up, best, seen, p); }
    }
    SortBy(Before, Self, keys)
  }

  /** The groups the rows call for. */
  function Plan(up: char -> string, rows: seq<Row>): seq<Group> {
    SeenExact(rows);
    GroupsOf(up, Best(rows), Seen(rows), SortedKeys(up, Best(rows), Seen(rows)))
  }

  // ---- The rows a pass wants to exist ----

  datatype Stored = Stored(
    projects: map<Project, string>,
    memberships: map<(Project, Id), string>,
    relationships: map<Link, (Project, string)>)

  function ProjectRows(plan: seq<Group>): seq<(Project, string)> {
    if plan == [] then []
    else ProjectRows(plan[..|plan| - 1]) + [(plan[|plan| - 1].project, EstablishedBy(plan[|plan| - 1].key))]
  }

  /** The first `k` memberships of a group. */
  function MemberRows(group: Group, k: nat): seq<((Project, Id), string)>
    requires k <= |group.documents|
  {
    if k == 0 then []
    else MemberRows(group, k - 1) + [((group.project, group.documents[k - 1]), EstablishedBy(group.key))]
  }

  function AllMemberRows(plan: seq<Group>): seq<((Project, Id), string)> {
    if plan == [] then []
    else AllMemberRows(plan[..|plan| - 1]) + MemberRows(plan[|plan| - 1], |plan[|plan| - 1].documents|)
  }

  /** Lower document first, so that a pair has one row. */
  function LinkBetween(kind: Kind, a: Id, b: Id): Link {
    if b < a then Link(b, a, kind) else Link(a, b, kind)
  }

  function LinkRow(group: Group, a: Id, b: Id): (Link, (Project, string)) {
    (LinkBetween(KindFor(group.key), a, b), (group.project, EstablishedBy(group.key)))
  }

  /** Document `i` of a group with each later one before position `j`. */
  function LinksFrom(group: Group, i: nat, j: nat): seq<(Link, (Project, string))>
    requires i < j <= |group.documents|
  {
    if j == i + 1 then []
    else LinksFrom(group, i, j - 1) + [LinkRow(group, group.documents[i], group.documents[j - 1])]
  }

  function LinkRows(group: Group, i: nat): seq<(Link, (Project, string))>
    requires i <= |group.documents|
  {
    if i == 0 then [] else LinkRows(group, i - 1) + LinksFrom(group, i - 1, |group.documents|)
  }

  function AllLinkRows(plan: seq<Group>): seq<(Link, (Project, string))> {
    if plan == [] then []
    else AllLinkRows(plan[..|plan| - 1]) + LinkRows(plan[|plan| - 1], |plan[|plan| - 1].documents|)
  }

  function Reconciled(stored: Stored, plan: seq<Group>): Stored {
    Stored(KeepAll(stored.projects, ProjectRows(plan)), KeepAll(stored.memberships, AllMemberRows(plan)),
           KeepAll(stored.relationships, AllLinkRows(plan)))
  }

  function WithGroup(stored: Stored, group: Group): Stored {
    Stored(Keep(stored.projects, (group.project, EstablishedBy(group.key))),
           KeepAll(stored.memberships, MemberRows(group, |group.documents|)),
           KeepAll(stored.relationships, LinkRows(group, |group.documents|)))
  }

  /** How much one state holds that an earlier one did not. */
  function Created(before: Stored, after: Stored, withoutKey: nat): Counts {
    Counts(|after.projects| - |before.projects|, |after.memberships| - |before.memberships|,
           |after.relationships| - |before.relationships|, withoutKey)
  }

  // ---- Documents no group could place ----

  predicate Analysed(facts: seq<Fact>, d: Id) {
    exists i :: 0 <= i < |facts| && facts[i].document == d
  }

  /** Each analysed document once. */
  function AnalysedDocuments(facts: seq<Fact>): seq<Id> {
    if facts == [] then []
    else
      var front, d := facts[..|facts| - 1], facts[|facts| - 1].document;
      AnalysedDocuments(front) + if Analysed(front, d) then [] else [d]
  }

  /** With a source filter, the analysed documents once for each of their origin rows of that source. */
  function FromSource(facts: seq<Fact>, origins: seq<Origin>, source: string): seq<Id> {
    if origins == [] then []
    else
      var origin := origins[|origins| - 1];
      FromSource(facts, origins[..|origins| - 1], source)
      + if origin.source == source && Analysed(facts, origin.document) then [origin.document] else []
  }

  function Candidates(facts: seq<Fact>, origins: seq<Origin>, only: Option<string>): seq<Id> {
    match only
    case None => AnalysedDocuments(facts)
    case Some(source) => FromSource(facts, origins, source)
  }

  function Outside(candidates: seq<Id>, placed: set<Id>): seq<Id> {
    if candidates == [] then []
    else
      var d := candidates[|candidates| - 1];
      Outside(candidates[..|candidates| - 1], placed) + if d in placed then [] else [d]
  }

  function PlacedIn(memberships: map<(Project, Id), string>): set<Id> {
    set m | m in memberships :: m.1
  }

  function Unplaced(facts: seq<Fact>, origins: seq<Origin>, only: Option<string>, memberships: map<(Project, Id), string>): seq<Id> {
    Outside(Candidates(facts, origins, only), PlacedIn(memberships))
  }

  // ---- The pass ----

  method MakeGroups(up: char -> string, best: map<Id, Row>, seen: seq<Id>)
    returns (keys: seq<Project>, grouped: map<Project, seq<Id>>, keyedBy: map<Project, KeyFact>)
    requires forall d :: d in seen ==> d in best
    ensures keys == KeysSeen(up, best, seen)
    ensures GroupedAs(up, best, seen, grouped, keyedBy)
  {
    keys, grouped, keyedBy := [], map[], map[];
    for i := 0 to |seen|
      invariant keys == KeysSeen(up, best, seen[..i])
      invariant GroupedAs(up, best, seen[..i], grouped, keyedBy)
    {
      assert seen[..i + 1][..i] == seen[..i];
      var d := seen[i];
      var key := KeyOf(up, best[d]);
      assert GroupIs(up, best, seen[..i], grouped, keyedBy, key);
      GroupGrows(up, best, seen[..i], d, grouped, keyedBy);
      assert seen[..i + 1] == seen[..i] + [d];
      if key !in grouped { keys := keys + [key]; }
      grouped := grouped[key := (if key in grouped then grouped[key] else []) + [d]];
      if key !in keyedBy { keyedBy := keyedBy[key := best[d].key]; }
    }
    assert seen[..|seen|] == seen;
  }

  /** One more document joins its group, and sets the group's key fact if it is the first. */
  lemma GroupGrows(up: char -> string, best: map<Id, Row>, seen: seq<Id>, d: Id,
                   grouped: map<Project, seq<Id>>, keyedBy: map<Project, KeyFact>)
    requires (forall e :: e in seen + [d] ==> e in best) && d in best && GroupedAs(up, best, seen, grouped, keyedBy)
    ensures var key := KeyOf(up, best[d]);
            GroupedAs(up, best, seen + [d], grouped[key := (if key in grouped then grouped[key] else []) + [d]],
                      if key in keyedBy then keyedBy else keyedBy[key := best[d].key])
  {
    hide KeyOf;
    var longer := seen + [d];
    assert longer[..|seen|] == seen;
    var key := KeyOf(up, best[d]);
    var more := grouped[key := (if key in grouped then grouped[key] else []) + [d]];
    var keyed := if key in keyedBy then keyedBy else keyedBy[key := best[d].key];
    forall p ensures GroupIs(up, best, longer, more, keyed, p) {
      assert GroupIs(up, best, seen, grouped, keyedBy, p);
    }
  }

  ghost predicate GroupedAs(up: char -> string, best: map<Id, Row>, seen: seq<Id>,
                            grouped: map<Project, seq<Id>>, keyedBy: map<Project, KeyFact>)
    requires forall d :: d in seen ==> d in best
  {
    forall p :: GroupIs(up, best, seen, grouped, keyedBy, p)
  }

  ghost predicate GroupIs(up: char -> string, best: map<Id, Row>, seen: seq<Id>,
                          grouped: map<Project, seq<Id>>, keyedBy: map<Project, KeyFact>, p: Project)
    requires forall d :: d in seen ==> d in best
  {
    var documents := Selected(up, best, seen, p);
    if documents == [] then p !in grouped && p !in keyedBy
    else
      && p in grouped && grouped[p] == documents && p in keyedBy
      && documents[0] in best && keyedBy[p] == best[documents[0]].key
  }

  class Database {
    var projects: map<Project, string>
    var memberships: map<(Project, Id), string>
    var relationships: map<Link, (Project, string)>

    ghost function View(): Stored
      reads this
    {
      Stored(projects, memberships, relationships)
    }

    method LinkLater(group: Group, index: nat) returns (created: int)
      requires index < |group.documents|
      modifies this`relationships
      ensures relationships == KeepAll(old(relationships), LinksFrom(group, index, |group.documents|))
      ensures created == |relationships| - |old(relationships)|
    {
      created := 0;
      var documents := group.documents;
      var next := index + 1;
      while next < |documents|
        invariant index < next <= |documents|
        invariant relationships == KeepAll(old(relationships), LinksFrom(group, index, next))
        invariant created == |relationships| - |old(relationships)|
      {
        var link := LinkBetween(KindFor(group.key), documents[index], documents[next]);
        KeepAllOneMore(old(relationships), LinksFrom(group, index, next), LinkRow(group, documents[index], documents[next]));
        next := next + 1;
        if link in relationships { continue; }
        relationships := relationships[link := (group.project, EstablishedBy(group.key))];
        created := created + 1;
      }
    }

    method LinkDocuments(group: Group) returns (created: int)
      modifies this`relationships
      ensures relationships == KeepAll(old(relationships), LinkRows(group, |group.documents|))
      ensures created == |relationships| - |old(relationships)|
    {
      created := 0;
      for index := 0 to |group.documents|
        invariant relationships == KeepAll(old(relationships), LinkRows(group, index))
        invariant created == |relationships| - |old(relationships)|
      {
        KeepAllSum(old(relationships), LinkRows(group, index), LinksFrom(group, index, |group.documents|));
        var links := LinkLater(group, index);
        created := created + links;
      }
    }

    method AddMembers(group: Group) returns (created: int)
      modifies this`memberships
      ensures memberships == KeepAll(old(memberships), MemberRows(group, |group.documents|))
      ensures created == |memberships| - |old(memberships)|
    {
      created := 0;
      for i := 0 to |group.documents|
        invariant memberships == KeepAll(old(memberships), MemberRows(group, i))
        invariant created == |memberships| - |old(memberships)|
      {
        var membership := (group.project, group.documents[i]);
        KeepAllOneMore(old(memberships), MemberRows(group, i), (membership, EstablishedBy(group.key)));
        if membership !in memberships {
          memberships := memberships[membership := EstablishedBy(group.key)];
          created := created + 1;
        }
      }
    }

    method ApplyGroup(group: Group) returns (counts: Counts)
      modifies this
      ensures View() == WithGroup(old(View()), group)
      ensures counts == Counts(|projects| - |old(projects)|, |memberships| - |old(memberships)|,
                               |relationships| - |old(relationships)|, 0)
    {
      var created := 0;
      if group.project !in projects {
        projects := projects[group.project := EstablishedBy(group.key)];
        created := 1;
      }
      var members := AddMembers(group);
      var links := LinkDocuments(group);
      counts := Counts(created, members, links, 0);
    }

    method ApplyPlan(plan: seq<Group>) returns (counts: Counts)
      modifies this
      ensures View() == Reconciled(old(View()), plan)
      ensures counts == Counts(|projects| - |old(projects)|, |memberships| - |old(memberships)|,
                               |relationships| - |old(relationships)|, 0)
    {
      counts := Counts(0, 0, 0, 0);
      for i := 0 to |plan|
        invariant View() == Reconciled(old(View()), plan[..i])
        invariant counts == Counts(|projects| - |old(projects)|, |memberships| - |old(memberships)|,
                                   |relationships| - |old(relationships)|, 0)
      {
        ReconciledOneMore(old(View()), plan, i);
        var more := ApplyGroup(plan[i]);
        counts := Counts(counts.projects + more.projects, counts.memberships + more.memberships,
                         counts.relationships + more.relationships, 0);
      }
      assert plan[..|plan|] == plan;
    }

    method CountUnplaced(facts: seq<Fact>, origins: seq<Origin>, only: Option<string>) returns (count: nat)
      ensures count == |Unplaced(facts, origins, only, memberships)|
    {
      var placed := PlacedIn(memberships);
      var candidates := Candidates(facts, origins, only);
      count := 0;
      for i := 0 to |candidates|
        invariant count == |Outside(candidates[..i], placed)|
      {
        assert candidates[..i + 1][..i] == candidates[..i];
        if candidates[i] !in placed { count := count + 1; }
      }
      assert candidates[..|candidates|] == candidates;
    }

    method ReconcileProjects(up: char -> string, facts: seq<Fact>, origins: seq<Origin>, only: Option<string>, rows: seq<Row>)
      returns (counts: Counts)
      modifies this
      ensures View() == Reconciled(old(View()), Plan(up, rows))
      ensures counts == Created(old(View()), View(), |Unplaced(facts, origins, only, memberships)|)
    {
      var plan := BuildPlan(up, rows);
      counts := ApplyPlan(plan);
      var withoutKey := CountUnplaced(facts, origins, only);
      counts := counts.(withoutKey := withoutKey);
    }
  }

  method BuildPlan(up: char -> string, rows: seq<Row>) returns (plan: seq<Group>)
    ensures plan == Plan(up, rows)
  {
    SeenExact(rows);
    var best, seen := Place(rows);
    var keys, grouped, keyedBy := MakeGroups(up, best, seen);
    assert SortBy(Before, Self, keys) == SortedKeys(up, best, seen);
    plan := PlanFrom(up, best, seen, SortBy(Before, Self, keys), grouped, keyedBy);
  }

  lemma ReconciledOneMore(stored: Stored, plan: seq<Group>, i: nat)
    requires i < |plan|
    ensures Reconciled(stored, plan[..i + 1]) == WithGroup(Reconciled(stored, plan[..i]), plan[i])
  {
    var group := plan[i];
    assert plan[..i + 1][..i] == plan[..i];
    KeepAllOneMore(stored.projects, ProjectRows(plan[..i]), (group.project, EstablishedBy(group.key)));
    KeepAllSum(stored.memberships, AllMemberRows(plan[..i]), MemberRows(group, |group.documents|));
    KeepAllSum(stored.relationships, AllLinkRows(plan[..i]), LinkRows(group, |group.documents|));
  }

  method PlanFrom(up: char -> string, best: map<Id, Row>, seen: seq<Id>, keys: seq<Project>,
                  grouped: map<Project, seq<Id>>, keyedBy: map<Project, KeyFact>) returns (plan: seq<Group>)
    requires forall d :: d in seen ==> d in best
    requires GroupedAs(up, best, seen, grouped, keyedBy)
    requires forall p :: p in keys ==> Selected(up, best, seen, p) != []
    ensures plan == GroupsOf(up, best, seen, keys)
  {
    plan := [];
    for i := 0 to |keys|
      invariant plan == GroupsOf(up, best, seen, keys[..i])
    {
      assert keys[..i + 1][..i] == keys[..i] && keys[i] in keys;
      assert GroupIs(up, best, seen, grouped, keyedBy, keys[i]);
      plan := plan + [Group(keys[i], keyedBy[keys[i]], SortBy(Below, Self, grouped[keys[i]]))];
    }
    assert keys[..|keys|] == keys;
  }

  // ---- A second run, and what no run does ----

  /** A second run over the same rows changes nothing, and so creates nothing. */
  lemma SecondRunAddsNothing(stored: Stored, plan: seq<Group>)
    ensures Reconciled(Reconciled(stored, plan), plan) == Reconciled(stored, plan)
  {
    KeepAllTwice(stored.projects, ProjectRows(plan));
    KeepAllTwice(stored.memberships, AllMemberRows(plan));
    KeepAllTwice(stored.relationships, AllLinkRows(plan));
  }

  lemma {:induction false} OutsideExact(candidates: seq<Id>, placed: set<Id>)
    ensures Outside(candidates, placed) == [] <==> forall d :: d in candidates ==> d in placed
    ensures forall d :: d in Outside(candidates, placed) <==> d in candidates && d !in placed
  {
    if candidates != [] {
      OutsideExact(candidates[..|candidates| - 1], placed);
      assert candidates == candidates[..|candidates| - 1] + [candidates[|candidates| - 1]];
    }
  }

  /** No row of any table is removed or rewritten. */
  lemma NothingIsRemoved(stored: Stored, plan: seq<Group>)
    ensures var after := Reconciled(stored, plan);
            && (forall p :: p in stored.projects ==> p in after.projects && after.projects[p] == stored.projects[p])
            && (forall m :: m in stored.memberships ==> m in after.memberships && after.memberships[m] == stored.memberships[m])
            && (forall l :: l in stored.relationships ==> l in after.relationships && after.relationships[l] == stored.relationships[l])
  {
    KeepAllKeeps(stored.projects, ProjectRows(plan));
    KeepAllKeeps(stored.memberships, AllMemberRows(plan));
    KeepAllKeeps(stored.relationships, AllLinkRows(plan));
  }

  // ---- What a group is ----

  lemma {:induction false} GroupsOfAt(up: char -> string, best: map<Id, Row>, seen: seq<Id>, projects: seq<Project>, i: nat)
    requires forall d :: d in seen ==> d in best
    requires forall p :: p in projects ==> Selected(up, best, seen, p) != []
    requires i < |projects|
    ensures |GroupsOf(up, best, seen, projects)| == |projects|
    ensures GroupsOf(up, best, seen, projects)[i] == GroupOf(up, best, seen, projects[i])
  {
    var n := |projects| - 1;
    if i < n {
      GroupsOfAt(up, best, seen, projects[..n], i);
    } else if n > 0 {
      GroupsOfAt(up, best, seen, projects[..n], 0);
    }
  }

  lemma BelowIsStrictTotalOrder()
    ensures StrictTotalOrder(Below)
  {
  }

  lemma SortedDocuments(up: char -> string, best: map<Id, Row>, seen: seq<Id>, project: Project)
    requires (forall d :: d in seen ==> d in best) && NoRepeats(seen) && Selected(up, best, seen, project) != []
    ensures var documents := GroupOf(up, best, seen, project).documents;
            && SortedBy(Below, Self, documents)
            && forall d :: d in documents <==> d in seen && KeyOf(up, best[d]) == project
  {
    SelectedExact(up, best, seen, project);
    SelectedOnce(up, best, seen, project);
    BelowIsStrictTotalOrder();
    SortBySorts(Below, Self, Selected(up, best, seen, project));
  }

  /** Group `i` of a plan: its documents in ascending order, and they are exactly the documents whose
      placing row has the group's source and reference. */
  lemma GroupHolds(up: char -> string, rows: seq<Row>, i: nat)
    requires i < |Plan(up, rows)|
    ensures var group := Plan(up, rows)[i];
            && group.project.Referenced? && SortedBy(Below, Self, group.documents)
            && forall d :: d in group.documents <==> d in Best(rows) && KeyOf(up, Best(rows)[d]) == group.project
  {
    SeenExact(rows);
    var best, seen := Best(rows), Seen(rows);
    var projects := SortedKeys(up, best, seen);
    GroupsOfCount(up, best, seen, projects);
    GroupsOfAt(up, best, seen, projects, i);
    assert projects[i] in projects;
    SortedDocuments(up, best, seen, projects[i]);
    SelectedExact(up, best, seen, projects[i]);
    var some := Selected(up, best, seen, projects[i])[0];
    assert some in Selected(up, best, seen, projects[i]);
  }

  lemma {:induction false} GroupsOfCount(up: char -> string, best: map<Id, Row>, seen: seq<Id>, projects: seq<Project>)
    requires forall d :: d in seen ==> d in best
    requires forall p :: p in projects ==> Selected(up, best, seen, p) != []
    ensures |GroupsOf(up, best, seen, projects)| == |projects|
  {
    if projects != [] { GroupsOfCount(up, best, seen, projects[..|projects| - 1]); }
  }

  /** Membership is evidence: a grouped document states, in a fact nobody withdrew, the reference the group
      is named after, and it came from the group's own source. So no group spans two sources. */
  lemma MembershipIsEvidence(up: char -> string, rows: seq<Row>, facts: seq<Fact>, origins: seq<Origin>, only: Option<string>,
                             i: nat, d: Id) returns (fact: Fact)
    requires Answers(rows, facts, origins, only)
    requires i < |Plan(up, rows)| && d in Plan(up, rows)[i].documents
    ensures fact in facts && fact.document == d && fact.key.Some? && !fact.retracted
    ensures Plan(up, rows)[i].project.Referenced?
    ensures Origin(d, Plan(up, rows)[i].project.source) in origins
    ensures NormaliseProjectKey(up, fact.literal) == Plan(up, rows)[i].project.reference
    ensures only in {None, Some(Plan(up, rows)[i].project.source)}
  {
    GroupHolds(up, rows, i);
    SeenExact(rows);
    var row := Best(rows)[d];
    assert row in rows;
    fact := Fact(d, Some(row.key), row.literal, false);
  }

  /** The first document, in the order their rows came, that belongs to the group. */
  ghost predicate IsFirstMember(rows: seq<Row>, group: Group, d: Id) {
    exists n :: 0 <= n < |Seen(rows)| && Seen(rows)[n] == d && d in group.documents
                && forall m :: 0 <= m < n ==> Seen(rows)[m] !in group.documents
  }

  lemma {:induction false} SelectedFirst(up: char -> string, best: map<Id, Row>, seen: seq<Id>, project: Project)
    requires forall d :: d in seen ==> d in best
    ensures Selected(up, best, seen, project) != [] ==>
              exists n :: 0 <= n < |seen| && seen[n] == Selected(up, best, seen, project)[0]
                          && forall m :: 0 <= m < n ==> seen[m] !in Selected(up, best, seen, project)
  {
    if seen != [] {
      var front := seen[..|seen| - 1];
      SelectedFirst(up, best, front, project);
      SelectedExact(up, best, front, project);
      SelectedExact(up, best, seen, project);
      if Selected(up, best, front, project) != [] {
        var n :| 0 <= n < |front| && front[n] == Selected(up, best, front, project)[0]
                 && forall m :: 0 <= m < n ==> front[m] !in Selected(up, best, front, project);
        forall m | 0 <= m < n ensures seen[m] !in Selected(up, best, seen, project) {
          assert front[m] == seen[m] && seen[m] in front;
        }
        assert seen[n] == Selected(up, best, seen, project)[0];
      } else {
        forall m | 0 <= m < |front| ensures Selected(up, best, seen, project) != [] ==> seen[m] !in Selected(up, best, seen, project) {
          assert front[m] == seen[m] && seen[m] in front;
        }
      }
    }
  }

  /** The group's documents are those of its project, and its key fact is that of the first of them. */
  lemma FirstMemberKeys(up: char -> string, rows: seq<Row>, i: nat)
    requires i < |Plan(up, rows)|
    ensures var group, best := Plan(up, rows)[i], Best(rows);
            && (forall d :: d in group.documents ==> d in best)
            && (exists d :: IsFirstMember(rows, group, d) && best[d].key == group.key)
  {
    GroupHolds(up, rows, i);
    SeenExact(rows);
    var best, seen := Best(rows), Seen(rows);
    var projects := SortedKeys(up, best, seen);
    GroupsOfCount(up, best, seen, projects);
    GroupsOfAt(up, best, seen, projects, i);
    SelectedExact(up, best, seen, projects[i]);
    SelectedFirst(up, best, seen, projects[i]);
    hide KeyOf, Best, Seen, Selected, SortedKeys;
    var selected, group := Selected(up, best, seen, projects[i]), Plan(up, rows)[i];
    assert selected[0] in selected;
    assert forall d :: d in group.documents <==> d in selected;
    assert IsFirstMember(rows, group, selected[0]);
  }

  lemma OneFirstMember(rows: seq<Row>, group: Group, a: Id, b: Id)
    requires IsFirstMember(rows, group, a) && IsFirstMember(rows, group, b)
    ensures a == b && a in group.documents
  {
    hide Seen;
  }

  /** A group's key fact, which decides the kind of its relationships, is that of the first of its documents
      to appear; so the kind fits every document exactly when all were placed by that kind of fact. */
  lemma KindFitsIff(up: char -> string, rows: seq<Row>, i: nat)
    requires i < |Plan(up, rows)|
    ensures var group, best := Plan(up, rows)[i], Best(rows);
            && (forall d :: d in group.documents ==> d in best)
            && (exists d :: IsFirstMember(rows, group, d))
            && (forall d :: IsFirstMember(rows, group, d) ==> d in best && best[d].key == group.key)
            && ((forall d :: d in group.documents ==> KindFor(best[d].key) == KindFor(group.key)) <==>
                forall d, e :: d in group.documents && e in group.documents ==> best[d].key == best[e].key)
  {
    FirstMemberKeys(up, rows, i);
    hide Plan, Best, IsFirstMember;
    var group, best := Plan(up, rows)[i], Best(rows);
    var first :| IsFirstMember(rows, group, first) && best[first].key == group.key;
    forall d | IsFirstMember(rows, group, d) ensures d == first && d in group.documents { OneFirstMember(rows, group, d, first); }
  }

  /** Every placed document is in exactly one group. */
  lemma PlacedOnce(up: char -> string, rows: seq<Row>, d: Id) returns (i: nat)
    requires d in Best(rows)
    ensures i < |Plan(up, rows)| && d in Plan(up, rows)[i].documents
    ensures forall j :: 0 <= j < |Plan(up, rows)| && d in Plan(up, rows)[j].documents ==> j == i
  {
    SeenExact(rows);
    var best, seen := Best(rows), Seen(rows);
    var projects := SortedKeys(up, best, seen);
    var key := KeyOf(up, best[d]);
    SelectedExact(up, best, seen, key);
    KeysSeenExact(up, best, seen, key);
    SortedKeysExact(up, best, seen);
    i :| 0 <= i < |projects| && projects[i] == key;
    GroupsOfCount(up, best, seen, projects);
    GroupIsNamed(up, rows, i);
    GroupHolds(up, rows, i);
    forall j | 0 <= j < |projects| && d in Plan(up, rows)[j].documents ensures j == i {
      GroupHolds(up, rows, j);
      GroupIsNamed(up, rows, j);
    }
  }

  lemma GroupIsNamed(up: char -> string, rows: seq<Row>, i: nat)
    requires (forall d :: d in Seen(rows) ==> d in Best(rows)) && i < |SortedKeys(up, Best(rows), Seen(rows))|
    ensures i < |Plan(up, rows)| && Plan(up, rows)[i].project == SortedKeys(up, Best(rows), Seen(rows))[i]
  {
    GroupsOfAt(up, Best(rows), Seen(rows), SortedKeys(up, Best(rows), Seen(rows)), i);
  }

  lemma SortedKeysExact(up: char -> string, best: map<Id, Row>, seen: seq<Id>)
    requires forall d :: d in seen ==> d in best
    ensures forall p :: p in SortedKeys(up, best, seen) <==> p in KeysSeen(up, best, seen)
    ensures NoRepeats(SortedKeys(up, best, seen))
  {
    KeysSeenOnce(up, best, seen);
    BeforeIsStrictTotalOrder();
    SortBySorts(Before, Self, KeysSeen(up, best, seen));
  }

  // ---- Who is placed, by what a caller can look up ----

  lemma {:induction false} MemberRowsNames(group: Group, k: nat, project: Project, d: Id)
    requires k <= |group.documents|
    ensures Names(MemberRows(group, k), (project, d)) <==> project == group.project && d in group.documents[..k]
  {
    if k > 0 {
      MemberRowsNames(group, k - 1, project, d);
      var row := ((group.project, group.documents[k - 1]), EstablishedBy(group.key));
      NamesSum(MemberRows(group, k - 1), [row], (project, d));
      assert Names([row], (project, d)) <==> (project, d) == row.0 by { if (project, d) == row.0 { assert [row][0].0 == (project, d); } }
      assert group.documents[..k] == group.documents[..k - 1] + [group.documents[k - 1]];
    }
  }

  ghost predicate Puts(plan: seq<Group>, project: Project, d: Id) {
    exists i :: 0 <= i < |plan| && plan[i].project == project && d in plan[i].documents
  }

  lemma {:induction false} AllMemberRowsNames(plan: seq<Group>, project: Project, d: Id)
    ensures Names(AllMemberRows(plan), (project, d)) <==> Puts(plan, project, d)
  {
    if plan != [] {
      var front, last := plan[..|plan| - 1], plan[|plan| - 1];
      AllMemberRowsNames(front, project, d);
      MemberRowsNames(last, |last.documents|, project, d);
      assert last.documents[..|last.documents|] == last.documents;
      NamesSum(AllMemberRows(front), MemberRows(last, |last.documents|), (project, d));
      PutsOneMore(plan, project, d);
    }
  }

  lemma PutsOneMore(plan: seq<Group>, project: Project, d: Id)
    requires plan != []
    ensures var front, last := plan[..|plan| - 1], plan[|plan| - 1];
            Puts(plan, project, d) <==> Puts(front, project, d) || (last.project == project && d in last.documents)
  {
    var front := plan[..|plan| - 1];
    if i :| 0 <= i < |front| && front[i].project == project && d in front[i].documents {
      assert plan[i].project == project && d in plan[i].documents;
    }
    if i :| 0 <= i < |plan| && plan[i].project == project && d in plan[i].documents && i < |front| {
      assert front[i].project == project && d in front[i].documents;
    }
  }

  /** The plan puts a document where its placing row says, and nowhere else. */
  lemma PutsExact(up: char -> string, rows: seq<Row>, project: Project, d: Id)
    ensures Puts(Plan(up, rows), project, d) <==> d in Best(rows) && KeyOf(up, Best(rows)[d]) == project
  {
    hide Plan, Best;
    if i :| 0 <= i < |Plan(up, rows)| && Plan(up, rows)[i].project == project && d in Plan(up, rows)[i].documents {
      GroupHolds(up, rows, i);
    }
    if d in Best(rows) {
      var i := PlacedOnce(up, rows, d);
      GroupHolds(up, rows, i);
    }
  }

  lemma {:induction false} PlacedIffRow(rows: seq<Row>, d: Id)
    ensures d in Best(rows) <==> exists i :: 0 <= i < |rows| && rows[i].document == d
  {
    if rows != [] {
      var front := rows[..|rows| - 1];
      PlacedIffRow(front, d);
      if i :| 0 <= i < |front| && front[i].document == d { assert rows[i].document == d; }
    }
  }

  /** A run places the documents that have a row, and keeps those placed before. */
  lemma PlacedAfter(up: char -> string, stored: Stored, rows: seq<Row>, d: Id)
    ensures d in PlacedIn(Reconciled(stored, Plan(up, rows)).memberships) <==> d in PlacedIn(stored.memberships) || d in Best(rows)
  {
    hide Plan, Best;
    var plan := Plan(up, rows);
    forall project
      ensures (project, d) in Reconciled(stored, plan).memberships <==> (project, d) in stored.memberships || Puts(plan, project, d)
    {
      KeepAllHolds(stored.memberships, AllMemberRows(plan), (project, d));
      AllMemberRowsNames(plan, project, d);
    }
    if d in Best(rows) { PutsExact(up, rows, KeyOf(up, Best(rows)[d]), d); }
    if project :| (project, d) in Reconciled(stored, plan).memberships { PutsExact(up, rows, project, d); }
    InPlaced(stored.memberships, d);
    InPlaced(Reconciled(stored, plan).memberships, d);
  }

  lemma InPlaced(memberships: map<(Project, Id), string>, d: Id)
    ensures d in PlacedIn(memberships) <==> exists project :: (project, d) in memberships
  {
    if d in PlacedIn(memberships) {
      var m :| m in memberships && m.1 == d;
      assert (m.0, d) in memberships;
    }
  }

  /** Some key fact of the document stands, and it arrived from a source the run looks at. */
  ghost predicate CanBePlaced(facts: seq<Fact>, origins: seq<Origin>, only: Option<string>, d: Id) {
    exists key, literal, source :: IsAnswer(facts, origins, only, d, key, literal, source)
  }

  ghost predicate IsAnswer(facts: seq<Fact>, origins: seq<Origin>, only: Option<string>, d: Id, key: KeyFact, literal: string, source: string) {
    Fact(d, Some(key), literal, false) in facts && Origin(d, source) in origins && only in {None, Some(source)}
  }

  lemma RowIffAnswer(rows: seq<Row>, facts: seq<Fact>, origins: seq<Origin>, only: Option<string>, d: Id)
    requires Answers(rows, facts, origins, only)
    ensures d in Best(rows) <==> CanBePlaced(facts, origins, only, d)
  {
    PlacedIffRow(rows, d);
    if i :| 0 <= i < |rows| && rows[i].document == d {
      assert rows[i] in rows;
      assert IsAnswer(facts, origins, only, d, rows[i].key, rows[i].literal, rows[i].source);
    }
    if key, literal, source :| IsAnswer(facts, origins, only, d, key, literal, source) {
      assert Row(d, source, key, literal) in rows;
    }
  }

  /** The second run's report is all zeroes exactly when every candidate was in a project before the first or
      can be placed; the others are counted again on every run. */
  lemma SecondReportZeroIff(up: char -> string, stored: Stored, facts: seq<Fact>, origins: seq<Origin>, only: Option<string>, rows: seq<Row>)
    requires Answers(rows, facts, origins, only)
    ensures var once := Reconciled(stored, Plan(up, rows));
            var twice := Reconciled(once, Plan(up, rows));
            Created(once, twice, |Unplaced(facts, origins, only, twice.memberships)|) == Counts(0, 0, 0, 0) <==>
              forall d :: d in Candidates(facts, origins, only) ==>
                d in PlacedIn(stored.memberships) || CanBePlaced(facts, origins, only, d)
  {
    hide Plan, Best, Reconciled, CanBePlaced;
    SecondRunAddsNothing(stored, Plan(up, rows));
    var once := Reconciled(stored, Plan(up, rows));
    OutsideExact(Candidates(facts, origins, only), PlacedIn(once.memberships));
    forall d ensures d in PlacedIn(once.memberships) <==> d in PlacedIn(stored.memberships) || CanBePlaced(facts, origins, only, d) {
      PlacedAfter(up, stored, rows, d);
      RowIffAnswer(rows, facts, origins, only, d);
    }
  }

  /** For example one document that states no key: every report counts it. */
  lemma KeylessIsCountedAgain(up: char -> string)
    ensures var nothing, facts := Stored(map[], map[], map[]), [Fact(1, None, "", false)];
            var once := Reconciled(nothing, Plan(up, []));
            && Answers([], facts, [], None)
            && Created(once, Reconciled(once, Plan(up, [])), |Unplaced(facts, [], None, once.memberships)|) == Counts(0, 0, 0, 1)
  {
    hide Plan, Unplaced;
    NothingPlanned(up);
    var facts := [Fact(1, None, "", false)];
    var twice := [Origin(1, "s"), Origin(1, "s")];
    OneDocumentCountedTwice(facts, twice);
    OriginsOnlyFilter(facts, [], twice, map[]);
  }

  lemma NothingPlanned(up: char -> string)
    ensures Plan(up, []) == [] && Reconciled(Stored(map[], map[], map[]), []) == Stored(map[], map[], map[])
  {
  }

  lemma OriginsOnlyFilter(facts: seq<Fact>, a: seq<Origin>, b: seq<Origin>, memberships: map<(Project, Id), string>)
    ensures Unplaced(facts, a, None, memberships) == Unplaced(facts, b, None, memberships)
  {
  }

  // ---- Which identifier is the stronger, and which relationship it makes ----

  /** Row `j` is the first of its document with its kind of key. */
  ghost predicate IsFirstWith(rows: seq<Row>, j: nat) {
    j < |rows| && forall k :: 0 <= k < j && rows[k].document == rows[j].document ==> rows[k].key != rows[j].key
  }

  ghost predicate States(rows: seq<Row>, d: Id, key: KeyFact) {
    exists j :: 0 <= j < |rows| && rows[j].document == d && rows[j].key == key
  }

  /** The row a document is placed by: the first that states a tender number, or if none does the first that states
      a project reference. */
  ghost predicate IsPlacing(rows: seq<Row>, j: nat) {
    IsFirstWith(rows, j) && (rows[j].key == NitNumber || !States(rows, rows[j].document, NitNumber))
  }

  lemma {:induction false} TenderNumberWins(rows: seq<Row>, d: Id)
    ensures d in Best(rows) <==> States(rows, d, NitNumber) || States(rows, d, ProjectReference)
    ensures d in Best(rows) ==>
              && (Best(rows)[d].key == NitNumber <==> States(rows, d, NitNumber))
              && exists j: nat :: j < |rows| && IsPlacing(rows, j) && rows[j] == Best(rows)[d] && rows[j].document == d
  {
    hide IsPlacing, States;
    if rows == [] {
      assert !States(rows, d, NitNumber) && !States(rows, d, ProjectReference) by { NothingStated(d); }
    } else {
      var n := |rows| - 1;
      var front, row := rows[..n], rows[n];
      TenderNumberWins(front, d);
      StatesOneMore(rows, d, NitNumber);
      StatesOneMore(rows, d, ProjectReference);
      if d in Best(front) {
        var j: nat :| j < n && IsPlacing(front, j) && front[j] == Best(front)[d] && front[j].document == d;
        if Best(rows)[d] == Best(front)[d] { PlacingStays(rows, j); } else { PlacedAtEnd(rows); }
      } else if row.document == d {
        PlacedAtEnd(rows);
      }
    }
  }

  lemma NothingStated(d: Id)
    ensures forall key :: !States([], d, key)
  {
  }

  lemma PlacingStays(rows: seq<Row>, j: nat)
    requires rows != [] && j < |rows| - 1 && IsPlacing(rows[..|rows| - 1], j)
    requires rows[|rows| - 1].document == rows[j].document ==> rows[|rows| - 1].key != NitNumber || rows[j].key == NitNumber
    ensures IsPlacing(rows, j)
  {
    StatesOneMore(rows, rows[j].document, NitNumber);
    assert forall k :: 0 <= k < |rows| - 1 ==> rows[..|rows| - 1][k] == rows[k];
  }

  lemma PlacedAtEnd(rows: seq<Row>)
    requires rows != []
    requires var front, row := rows[..|rows| - 1], rows[|rows| - 1];
             !States(front, row.document, NitNumber) && (row.key == NitNumber || !States(front, row.document, ProjectReference))
    ensures IsPlacing(rows, |rows| - 1)
  {
    var front, row := rows[..|rows| - 1], rows[|rows| - 1];
    StatesOneMore(rows, row.document, NitNumber);
    forall k | 0 <= k < |front| && rows[k].document == row.document ensures rows[k].key != row.key {
      assert front[k] == rows[k];
      assert rows[k].key == row.key ==> States(front, row.document, row.key);
    }
  }

  lemma StatesOneMore(rows: seq<Row>, d: Id, key: KeyFact)
    requires rows != []
    ensures var front, row := rows[..|rows| - 1], rows[|rows| - 1];
            States(rows, d, key) <==> States(front, d, key) || (row.document == d && row.key == key)
  {
    var front := rows[..|rows| - 1];
    if j :| 0 <= j < |front| && front[j].document == d && front[j].key == key { assert rows[j].document == d && rows[j].key == key; }
    if j :| 0 <= j < |rows| && rows[j].document == d && rows[j].key == key && j < |front| { assert front[j].document == d; }
  }

  /** After a run a document is a member where it was before, and of the project its placing row names: the row's
      source and its reference in normal form. */
  lemma MemberIff(up: char -> string, stored: Stored, rows: seq<Row>, source: string, reference: string, d: Id)
    ensures (Referenced(source, reference), d) in Reconciled(stored, Plan(up, rows)).memberships
            <==> || (Referenced(source, reference), d) in stored.memberships
                 || exists j :: 0 <= j < |rows| && IsPlacing(rows, j) && rows[j].document == d
                                && rows[j].source == source && NormaliseProjectKey(up, rows[j].literal) == reference
  {
    hide Plan, Best, IsPlacing, IsFirstWith;
    var plan, project := Plan(up, rows), Referenced(source, reference);
    KeepAllHolds(stored.memberships, AllMemberRows(plan), (project, d));
    AllMemberRowsNames(plan, project, d);
    PutsExact(up, rows, project, d);
    TenderNumberWins(rows, d);
    if d in Best(rows) {
      var j: nat :| j < |rows| && IsPlacing(rows, j) && rows[j] == Best(rows)[d] && rows[j].document == d;
      assert KeyOf(up, Best(rows)[d]) == Referenced(rows[j].source, NormaliseProjectKey(up, rows[j].literal));
    }
    forall j: nat | j < |rows| && IsPlacing(rows, j) && rows[j].document == d ensures d in Best(rows) && rows[j] == Best(rows)[d] {
      OnePlacing(rows, j);
    }
  }

  lemma OnePlacing(rows: seq<Row>, j: nat)
    requires j < |rows| && IsPlacing(rows, j)
    ensures rows[j].document in Best(rows) && Best(rows)[rows[j].document] == rows[j]
  {
    var d := rows[j].document;
    TenderNumberWins(rows, d);
    assert States(rows, d, rows[j].key);
    var i: nat :| i < |rows| && IsPlacing(rows, i) && rows[i] == Best(rows)[d] && rows[i].document == d;
    assert rows[i].key == rows[j].key;
  }

  lemma {:induction false} ProjectRowsNames(plan: seq<Group>, project: Project)
    ensures Names(ProjectRows(plan), project) <==> exists i :: 0 <= i < |plan| && plan[i].project == project
  {
    if plan != [] {
      var front, last := plan[..|plan| - 1], plan[|plan| - 1];
      ProjectRowsNames(front, project);
      NamesSum(ProjectRows(front), [(last.project, EstablishedBy(last.key))], project);
      assert Names([(last.project, EstablishedBy(last.key))], project) <==> project == last.project by {
        if project == last.project { assert [(last.project, EstablishedBy(last.key))][0].0 == project; }
      }
      if i :| 0 <= i < |front| && front[i].project == project { assert plan[i].project == project; }
      if i :| 0 <= i < |plan| && plan[i].project == project && i < |front| { assert front[i].project == project; }
    }
  }

  /** A run adds a project for every reference some document is placed by, and no other. */
  lemma ProjectsAddedIff(up: char -> string, stored: Stored, rows: seq<Row>, project: Project)
    ensures project in Reconciled(stored, Plan(up, rows)).projects
            <==> project in stored.projects || exists d :: d in Best(rows) && KeyOf(up, Best(rows)[d]) == project
  {
    hide Plan, Best, KeyOf;
    var plan := Plan(up, rows);
    KeepAllHolds(stored.projects, ProjectRows(plan), project);
    ProjectRowsNames(plan, project);
    if i :| 0 <= i < |plan| && plan[i].project == project {
      GroupIsNotEmpty(up, rows, i);
      var d :| d in plan[i].documents;
      GroupHolds(up, rows, i);
    }
    if d :| d in Best(rows) && KeyOf(up, Best(rows)[d]) == project {
      var i := PlacedOnce(up, rows, d);
      GroupHolds(up, rows, i);
    }
  }

  lemma GroupIsNotEmpty(up: char -> string, rows: seq<Row>, i: nat)
    requires i < |Plan(up, rows)|
    ensures exists d :: d in Plan(up, rows)[i].documents
  {
    hide Plan, Best;
    KindFitsIff(up, rows, i);
    var d :| IsFirstMember(rows, Plan(up, rows)[i], d);
    assert d in Plan(up, rows)[i].documents;
  }

  lemma EstablishmentIsNamed(key: KeyFact)
    ensures EstablishedBy(key) == if key == NitNumber then "shared_fact:nit_number" else "shared_fact:project_reference"
  {
  }

  ghost predicate Together(group: Group, x: Id, y: Id) {
    x in group.documents && y in group.documents
  }

  /** After a run two documents are related as they were before, and as every group that holds both says: they
      share a tender when the group's key is a tender number, and a contract when it is a project reference. */
  lemma RelationshipMeans(up: char -> string, stored: Stored, rows: seq<Row>, x: Id, y: Id)
    requires x < y
    ensures var plan, after := Plan(up, rows), Reconciled(stored, Plan(up, rows)).relationships;
            && (Link(x, y, SameTender) in after
                <==> Link(x, y, SameTender) in stored.relationships
                     || exists i :: 0 <= i < |plan| && Together(plan[i], x, y) && plan[i].key == NitNumber)
            && (Link(x, y, SameContract) in after
                <==> Link(x, y, SameContract) in stored.relationships
                     || exists i :: 0 <= i < |plan| && Together(plan[i], x, y) && plan[i].key == ProjectReference)
  {
    hide Plan, Reconciled, Pairs;
    var plan := Plan(up, rows);
    RelatedIff(stored, plan, Link(x, y, SameTender));
    RelatedIff(stored, plan, Link(x, y, SameContract));
    forall i: nat | i < |plan|
      ensures Pairs(plan[i], Link(x, y, SameTender)) <==> Together(plan[i], x, y) && plan[i].key == NitNumber
      ensures Pairs(plan[i], Link(x, y, SameContract)) <==> Together(plan[i], x, y) && plan[i].key == ProjectReference
    {
      GroupHolds(up, rows, i);
      PairsIff(plan[i], x, y, SameTender);
      PairsIff(plan[i], x, y, SameContract);
    }
  }

  lemma PairsIff(group: Group, x: Id, y: Id, kind: Kind)
    requires SortedBy(Below, Self, group.documents) && x < y
    ensures Pairs(group, Link(x, y, kind))
            <==> Together(group, x, y) && kind == if group.key == NitNumber then SameTender else SameContract
  {
    if Pairs(group, Link(x, y, kind)) { PairAscends(group, Link(x, y, kind)); }
    if Together(group, x, y) && kind == KindFor(group.key) { AscendingIsPair(group, Link(x, y, kind)); }
  }

  /** The key of a group is a tender number exactly when the first of its documents to appear states one. */
  lemma GroupKeyIff(up: char -> string, rows: seq<Row>, i: nat, d: Id)
    requires i < |Plan(up, rows)| && IsFirstMember(rows, Plan(up, rows)[i], d)
    ensures Plan(up, rows)[i].key == NitNumber <==> States(rows, d, NitNumber)
  {
    hide Plan, Best, IsFirstMember, States;
    KindFitsIff(up, rows, i);
    TenderNumberWins(rows, d);
  }

  // ---- The order of the query's rows ----

  ghost predicate IsStrongest(rows: seq<Row>, row: Row) {
    row in rows && forall other :: other in rows && other.document == row.document ==> Rank(row.key) <= Rank(other.key)
  }

  ghost predicate Reordered(rows: seq<Row>, other: seq<Row>) {
    multiset(other) == multiset(rows)
  }

  ghost predicate SamePlaces(up: char -> string, rows: seq<Row>, other: seq<Row>) {
    forall project, d :: Puts(Plan(up, other), project, d) <==> Puts(Plan(up, rows), project, d)
  }

  /** All the strongest rows of each document name one project. */
  ghost predicate OneReferenceEach(up: char -> string, rows: seq<Row>) {
    forall a, b :: IsStrongest(rows, a) && IsStrongest(rows, b) && a.document == b.document ==> KeyOf(up, a) == KeyOf(up, b)
  }

  lemma BestIsStrongest(rows: seq<Row>, d: Id)
    requires d in Best(rows)
    ensures IsStrongest(rows, Best(rows)[d]) && Best(rows)[d].document == d
  {
    hide Best;
    SeenExact(rows);
    AllWeaker(rows, d);
  }

  /** A strongest row that comes first is the one its document is placed by. */
  lemma FirstIsBest(row: Row, rest: seq<Row>)
    requires IsStrongest([row] + rest, row)
    ensures row.document in Best([row] + rest) && Best([row] + rest)[row.document] == row
  {
    hide Best;
    var rows := [row] + rest;
    PlacedByStrongest(rows, 0);
    var j: nat :| FirstAsStrong(rows, j, Best(rows)[row.document]);
    SeenExact(rows);
    assert rows[0] == row && rows[j] in rows;
  }

  lemma SameRows(rows: seq<Row>, other: seq<Row>)
    requires Reordered(rows, other)
    ensures forall row :: row in other <==> row in rows
  {
    forall row ensures row in other <==> row in rows {
      assert row in other <==> row in multiset(other);
      assert row in rows <==> row in multiset(rows);
    }
  }

  /** The query orders nothing. Where documents are placed is independent of the order of its rows exactly when
      each document's strongest rows all name one project. */
  lemma OrderIsHarmlessIff(up: char -> string, rows: seq<Row>)
    ensures (forall other :: Reordered(rows, other) ==> SamePlaces(up, rows, other)) <==> OneReferenceEach(up, rows)
  {
    hide Plan, Best, Puts, KeyOf, Reordered;
    if OneReferenceEach(up, rows) {
      forall other | Reordered(rows, other) ensures SamePlaces(up, rows, other) { SamePlacement(up, rows, other); }
    }
    if forall other :: Reordered(rows, other) ==> SamePlaces(up, rows, other) {
      forall a, b | IsStrongest(rows, a) && IsStrongest(rows, b) && a.document == b.document ensures KeyOf(up, a) == KeyOf(up, b) {
        PutFirst(up, rows, a);
        PutFirst(up, rows, b);
        PutsExact(up, rows, KeyOf(up, a), a.document);
        PutsExact(up, rows, KeyOf(up, b), a.document);
      }
    }
  }

  lemma SamePlacement(up: char -> string, rows: seq<Row>, other: seq<Row>)
    requires OneReferenceEach(up, rows) && Reordered(rows, other)
    ensures SamePlaces(up, rows, other)
  {
    hide Plan, Best, Puts, KeyOf;
    SameRows(rows, other);
    forall project, d ensures Puts(Plan(up, other), project, d) <==> Puts(Plan(up, rows), project, d) {
      PutsExact(up, rows, project, d);
      PutsExact(up, other, project, d);
      PlacedInBoth(rows, other, d);
      if d in Best(rows) {
        BestIsStrongest(rows, d);
        BestIsStrongest(other, d);
      }
    }
  }

  lemma PlacedInBoth(rows: seq<Row>, other: seq<Row>, d: Id)
    requires forall row :: row in other <==> row in rows
    ensures d in Best(rows) <==> d in Best(other)
  {
    PlacedIffRow(rows, d);
    PlacedIffRow(other, d);
    if i :| 0 <= i < |rows| && rows[i].document == d { assert rows[i] in other; }
    if i :| 0 <= i < |other| && other[i].document == d { assert other[i] in rows; }
  }

  /** If no order matters, a document is placed by any of its strongest rows. */
  lemma PutFirst(up: char -> string, rows: seq<Row>, row: Row)
    requires IsStrongest(rows, row) && forall other :: Reordered(rows, other) ==> SamePlaces(up, rows, other)
    ensures Puts(Plan(up, rows), KeyOf(up, row), row.document)
  {
    hide Plan, Best, Puts, KeyOf;
    var i :| 0 <= i < |rows| && rows[i] == row;
    var rest := rows[..i] + rows[i + 1..];
    var other := [row] + rest;
    assert rows == rows[..i] + [row] + rows[i + 1..];
    assert Reordered(rows, other);
    SameRows(rows, other);
    FirstIsBest(row, rest);
    PutsExact(up, other, KeyOf(up, row), row.document);
    assert SamePlaces(up, rows, other);
  }

  // ---- One relationship for each pair ----

  lemma NamesSum<K, V>(a: seq<(K, V)>, b: seq<(K, V)>, k: K)
    ensures Names(a + b, k) <==> Names(a, k) || Names(b, k)
  {
    if i :| 0 <= i < |a| && a[i].0 == k { assert (a + b)[i].0 == k; }
    if i :| 0 <= i < |b| && b[i].0 == k { assert (a + b)[|a| + i].0 == k; }
  }

  /** A pair of the group's documents, in ascending order of position. */
  ghost predicate IsPair(group: Group, link: Link, a: nat, b: nat) {
    a < b < |group.documents| && link == LinkBetween(KindFor(group.key), group.documents[a], group.documents[b])
  }

  lemma {:induction false} LinksFromNames(group: Group, i: nat, j: nat, link: Link)
    requires i < j <= |group.documents|
    ensures Names(LinksFrom(group, i, j), link) <==> exists b: nat :: b < j && IsPair(group, link, i, b)
  {
    if j > i + 1 {
      LinksFromNames(group, i, j - 1, link);
      var row := LinkRow(group, group.documents[i], group.documents[j - 1]);
      NamesSum(LinksFrom(group, i, j - 1), [row], link);
      assert Names([row], link) <==> link == row.0 by { if link == row.0 { assert [row][0].0 == link; } }
      if link == row.0 { assert IsPair(group, link, i, j - 1); }
    }
  }

  lemma {:induction false} LinkRowsNames(group: Group, i: nat, link: Link)
    requires i <= |group.documents|
    ensures Names(LinkRows(group, i), link) <==> exists a: nat, b: nat :: a < i && IsPair(group, link, a, b)
  {
    hide LinksFrom;
    if i > 0 {
      LinkRowsNames(group, i - 1, link);
      LinksFromNames(group, i - 1, |group.documents|, link);
      NamesSum(LinkRows(group, i - 1), LinksFrom(group, i - 1, |group.documents|), link);
    }
  }

  ghost predicate Pairs(group: Group, link: Link) {
    exists a: nat, b: nat :: IsPair(group, link, a, b)
  }

  lemma {:induction false} AllLinkRowsNames(plan: seq<Group>, link: Link)
    ensures Names(AllLinkRows(plan), link) <==> exists i: nat :: i < |plan| && Pairs(plan[i], link)
  {
    if plan != [] {
      var front, last := plan[..|plan| - 1], plan[|plan| - 1];
      AllLinkRowsNames(front, link);
      LinkRowsNames(last, |last.documents|, link);
      NamesSum(AllLinkRows(front), LinkRows(last, |last.documents|), link);
      assert forall i :: 0 <= i < |front| ==> front[i] == plan[i];
      assert (exists i: nat :: i < |front| && Pairs(front[i], link)) ==> exists i: nat :: i < |plan| && Pairs(plan[i], link);
      if i: nat :| i < |plan| && Pairs(plan[i], link) {
        if i < |front| { assert Pairs(front[i], link); }
      }
      if Pairs(last, link) { assert Pairs(plan[|plan| - 1], link); }
    }
  }

  /** A relationship exists afterwards exactly if it existed before or relates two documents of one group. */
  lemma RelatedIff(stored: Stored, plan: seq<Group>, link: Link)
    ensures link in Reconciled(stored, plan).relationships <==>
              link in stored.relationships || exists i: nat :: i < |plan| && Pairs(plan[i], link)
  {
    KeepAllHolds(stored.relationships, AllLinkRows(plan), link);
    AllLinkRowsNames(plan, link);
  }

  /** Each stored relationship runs from the lower document to the higher. */
  ghost predicate Canonical(stored: Stored) {
    forall link :: link in stored.relationships ==> link.first < link.second
  }

  lemma RunsKeepCanonical(up: char -> string, stored: Stored, rows: seq<Row>)
    requires Canonical(stored)
    ensures Canonical(Reconciled(stored, Plan(up, rows)))
  {
    var plan := Plan(up, rows);
    forall link | link in Reconciled(stored, plan).relationships ensures link.first < link.second {
      RelatedIff(stored, plan, link);
      if link !in stored.relationships {
        var i: nat :| i < |plan| && Pairs(plan[i], link);
        GroupHolds(up, rows, i);
        PairAscends(plan[i], link);
      }
    }
  }

  lemma PairAscends(group: Group, link: Link)
    requires SortedBy(Below, Self, group.documents) && Pairs(group, link)
    ensures link.first < link.second && link.first in group.documents && link.second in group.documents
    ensures link.kind == KindFor(group.key)
  {
    var a: nat, b: nat :| IsPair(group, link, a, b);
    assert Below(Self(group.documents[a]), Self(group.documents[b]));
  }

  ghost function WithLast(group: Group, a: nat, b: nat): set<Link>
    requires a <= b < |group.documents|
  {
    if a == 0 then {}
    else WithLast(group, a - 1, b) + {Link(group.documents[a - 1], group.documents[b], KindFor(group.key))}
  }

  ghost function Within(group: Group, n: nat): set<Link>
    requires n <= |group.documents|
  {
    if n == 0 then {} else Within(group, n - 1) + WithLast(group, n - 1, n - 1)
  }

  lemma {:induction false} WithLastHolds(group: Group, a: nat, b: nat, link: Link)
    requires a <= b < |group.documents| && SortedBy(Below, Self, group.documents)
    ensures link in WithLast(group, a, b) <==> exists x: nat :: x < a && IsPair(group, link, x, b)
  {
    if a > 0 {
      WithLastHolds(group, a - 1, b, link);
      assert Below(Self(group.documents[a - 1]), Self(group.documents[b]));
      if link == Link(group.documents[a - 1], group.documents[b], KindFor(group.key)) { assert IsPair(group, link, a - 1, b); }
    }
  }

  lemma Ascend(group: Group, a: nat, b: nat)
    requires a < |group.documents| && b < |group.documents| && SortedBy(Below, Self, group.documents)
    ensures group.documents[a] < group.documents[b] <==> a < b
    ensures group.documents[a] == group.documents[b] <==> a == b
  {
    if a < b { assert Below(Self(group.documents[a]), Self(group.documents[b])); }
    if b < a { assert Below(Self(group.documents[b]), Self(group.documents[a])); }
  }

  lemma {:induction false} WithLastSize(group: Group, a: nat, b: nat)
    requires a <= b < |group.documents| && SortedBy(Below, Self, group.documents)
    ensures |WithLast(group, a, b)| == a
  {
    if a > 0 {
      WithLastSize(group, a - 1, b);
      var link := Link(group.documents[a - 1], group.documents[b], KindFor(group.key));
      WithLastHolds(group, a - 1, b, link);
      forall x: nat | x < a - 1 ensures !IsPair(group, link, x, b) {
        Ascend(group, x, a - 1);
        Ascend(group, x, b);
      }
    }
  }

  lemma {:induction false} WithinHolds(group: Group, n: nat, link: Link)
    requires n <= |group.documents| && SortedBy(Below, Self, group.documents)
    ensures link in Within(group, n) <==> exists a: nat, b: nat :: b < n && IsPair(group, link, a, b)
  {
    if n > 0 {
      WithinHolds(group, n - 1, link);
      WithLastHolds(group, n - 1, n - 1, link);
    }
  }

  lemma {:induction false} WithinSize(group: Group, n: nat)
    requires n <= |group.documents| && SortedBy(Below, Self, group.documents)
    ensures 2 * |Within(group, n)| == n * (n - 1)
  {
    hide WithLast;
    if n > 0 {
      var earlier := |Within(group, n - 1)|;
      WithinSize(group, n - 1);
      WithLastSize(group, n - 1, n - 1);
      NewPairs(group, n - 1);
      assert n * (n - 1) == (n - 1) * (n - 2) + 2 * (n - 1);
      assert |Within(group, n)| == earlier + (n - 1);
    }
  }

  lemma NewPairs(group: Group, b: nat)
    requires b < |group.documents| && SortedBy(Below, Self, group.documents)
    ensures |Within(group, b) + WithLast(group, b, b)| == |Within(group, b)| + |WithLast(group, b, b)|
  {
    var earlier, added := Within(group, b), WithLast(group, b, b);
    forall link | link in earlier ensures link !in added {
      WithinHolds(group, b, link);
      WithLastHolds(group, b, b, link);
      OnePosition(group, b, link);
    }
    assert earlier !! added;
  }

  lemma OnePosition(group: Group, b: nat, link: Link)
    requires SortedBy(Below, Self, group.documents) && b < |group.documents|
    requires exists x: nat, y: nat :: y < b && IsPair(group, link, x, y)
    ensures !exists x: nat :: x < b && IsPair(group, link, x, b)
  {
    var x: nat, y: nat :| y < b && IsPair(group, link, x, y);
    Ascend(group, x, y);
    Ascend(group, y, b);
    forall z: nat | z < b ensures !IsPair(group, link, z, b) { Ascend(group, z, b); }
  }

  /** The relationships of its kind among a group's documents. */
  ghost function RelatedWithin(stored: Stored, group: Group): set<Link> {
    set link | link in stored.relationships && link.kind == KindFor(group.key)
               && link.first in group.documents && link.second in group.documents
  }

  /** After a run every group of n documents has exactly n(n-1)/2 relationships of its kind: one for each
      pair, lower document first. */
  lemma OneRelationshipPerPair(up: char -> string, stored: Stored, rows: seq<Row>, i: nat)
    requires Canonical(stored) && i < |Plan(up, rows)|
    ensures var group := Plan(up, rows)[i];
            var n := |group.documents|;
            var links := RelatedWithin(Reconciled(stored, Plan(up, rows)), group);
            && 2 * |links| == n * (n - 1)
            && forall x, y :: x in group.documents && y in group.documents && x < y ==> Link(x, y, KindFor(group.key)) in links
  {
    var group := Plan(up, rows)[i];
    var after := Reconciled(stored, Plan(up, rows));
    GroupHolds(up, rows, i);
    RunsKeepCanonical(up, stored, rows);
    forall link ensures link in RelatedWithin(after, group) <==> link in Within(group, |group.documents|) {
      WithinHolds(group, |group.documents|, link);
      if link in Within(group, |group.documents|) {
        assert Pairs(group, link);
        PairAscends(group, link);
        RelatedIff(stored, Plan(up, rows), link);
      } else if link in RelatedWithin(after, group) {
        AscendingIsPair(group, link);
      }
    }
    assert RelatedWithin(after, group) == Within(group, |group.documents|);
    WithinSize(group, |group.documents|);
    forall x, y | x in group.documents && y in group.documents && x < y
      ensures Link(x, y, KindFor(group.key)) in Within(group, |group.documents|)
    {
      AscendingIsPair(group, Link(x, y, KindFor(group.key)));
      WithinHolds(group, |group.documents|, Link(x, y, KindFor(group.key)));
    }
  }

  lemma AscendingIsPair(group: Group, link: Link)
    requires SortedBy(Below, Self, group.documents)
    requires link.first in group.documents && link.second in group.documents && link.first < link.second
    requires link.kind == KindFor(group.key)
    ensures exists a: nat, b: nat :: b < |group.documents| && IsPair(group, link, a, b)
  {
    var a: nat :| a < |group.documents| && group.documents[a] == link.first;
    var b: nat :| b < |group.documents| && group.documents[b] == link.second;
    Ascend(group, a, b);
    assert IsPair(group, link, a, b);
  }

  // ---- What the count of unplaced documents counts ----

  lemma {:induction false} AnalysedOnce(facts: seq<Fact>)
    ensures NoRepeats(AnalysedDocuments(facts))
    ensures forall d :: d in AnalysedDocuments(facts) <==> Analysed(facts, d)
  {
    if facts != [] {
      var front, last := facts[..|facts| - 1], facts[|facts| - 1].document;
      AnalysedOnce(front);
      forall d ensures Analysed(facts, d) <==> Analysed(front, d) || d == last {
        if Analysed(front, d) {
          var i :| 0 <= i < |front| && front[i].document == d;
          assert facts[i].document == d;
        }
        if d == last { assert facts[|facts| - 1].document == d; }
      }
    }
  }

  lemma {:induction false} OutsideOnce(candidates: seq<Id>, placed: set<Id>)
    requires NoRepeats(candidates)
    ensures NoRepeats(Outside(candidates, placed))
  {
    if candidates != [] {
      OutsideOnce(candidates[..|candidates| - 1], placed);
      OutsideExact(candidates[..|candidates| - 1], placed);
    }
  }

  /** Without a source filter the report is the number of analysed documents outside every project. */
  lemma UnfilteredCountIsExact(facts: seq<Fact>, origins: seq<Origin>, memberships: map<(Project, Id), string>)
    ensures var unplaced := Unplaced(facts, origins, None, memberships);
            && |unplaced| == |Elements(unplaced)|
            && forall d :: d in Elements(unplaced) <==> Analysed(facts, d) && d !in PlacedIn(memberships)
  {
    AnalysedOnce(facts);
    OutsideOnce(AnalysedDocuments(facts), PlacedIn(memberships));
    OutsideExact(AnalysedDocuments(facts), PlacedIn(memberships));
    CountedOnceIff(Unplaced(facts, origins, None, memberships));
  }

  /** Two origin rows of the source for one analysed document outside every project. */
  ghost predicate ArrivedTwice(facts: seq<Fact>, origins: seq<Origin>, source: string, placed: set<Id>) {
    exists i: nat, j: nat :: i < j < |origins| && Twins(facts, origins, source, placed, i, j)
  }

  ghost predicate Twins(facts: seq<Fact>, origins: seq<Origin>, source: string, placed: set<Id>, i: nat, j: nat)
    requires i < j < |origins|
  {
    && origins[i] == origins[j] && origins[i].source == source
    && Analysed(facts, origins[i].document) && origins[i].document !in placed
  }

  lemma {:induction false} FromSourceExact(facts: seq<Fact>, origins: seq<Origin>, source: string)
    ensures forall d :: d in FromSource(facts, origins, source) <==> Origin(d, source) in origins && Analysed(facts, d)
  {
    if origins != [] {
      FromSourceExact(facts, origins[..|origins| - 1], source);
      assert origins == origins[..|origins| - 1] + [origins[|origins| - 1]];
    }
  }

  lemma OutsideOneMore(candidates: seq<Id>, d: Id, placed: set<Id>)
    ensures Outside(candidates + [d], placed) == Outside(candidates, placed) + if d in placed then [] else [d]
  {
    assert (candidates + [d])[..|candidates|] == candidates;
  }

  lemma AppendRepeats<T>(s: seq<T>, x: T)
    ensures NoRepeats(s + [x]) <==> NoRepeats(s) && x !in s
  {
    var longer := s + [x];
    assert forall i :: 0 <= i < |s| ==> longer[i] == s[i];
    if NoRepeats(longer) {
      assert forall i, j :: 0 <= i < j < |s| ==> s[i] == longer[i] && s[j] == longer[j];
      assert forall i :: 0 <= i < |s| ==> longer[i] != longer[|s|];
    }
  }

  lemma StillOutside(facts: seq<Fact>, origins: seq<Origin>, last: Origin, placed: set<Id>)
    requires Analysed(facts, last.document) && last.document !in placed
    ensures last.document in Outside(FromSource(facts, origins, last.source), placed) <==> last in origins
  {
    FromSourceExact(facts, origins, last.source);
    OutsideExact(FromSource(facts, origins, last.source), placed);
  }

  lemma NothingNewOutside(earlier: seq<Id>, d: Id, placed: set<Id>)
    ensures Outside(earlier + [], placed) == Outside(earlier, placed)
    ensures d in placed ==> Outside(earlier + [d], placed) == Outside(earlier, placed)
  {
    assert earlier + [] == earlier;
    OutsideOneMore(earlier, d, placed);
  }

  lemma {:induction false} RepeatedIffArrivedTwice(facts: seq<Fact>, origins: seq<Origin>, source: string, placed: set<Id>)
    ensures NoRepeats(Outside(FromSource(facts, origins, source), placed)) <==> !ArrivedTwice(facts, origins, source, placed)
  {
    if origins != [] {
      var front, last := origins[..|origins| - 1], origins[|origins| - 1];
      RepeatedIffArrivedTwice(facts, front, source, placed);
      TwinsSplit(facts, origins, source, placed);
      var earlier := FromSource(facts, front, source);
      if last.source == source && Analysed(facts, last.document) && last.document !in placed {
        assert FromSource(facts, origins, source) == earlier + [last.document];
        OutsideOneMore(earlier, last.document, placed);
        AppendRepeats(Outside(earlier, placed), last.document);
        StillOutside(facts, front, last, placed);
      } else {
        NothingNewOutside(earlier, last.document, placed);
      }
    }
  }

  lemma TwinsSplit(facts: seq<Fact>, origins: seq<Origin>, source: string, placed: set<Id>)
    requires origins != []
    ensures var front, last := origins[..|origins| - 1], origins[|origins| - 1];
            ArrivedTwice(facts, origins, source, placed) <==>
              ArrivedTwice(facts, front, source, placed)
              || (last in front && last.source == source && Analysed(facts, last.document) && last.document !in placed)
  {
    var front, last := origins[..|origins| - 1], origins[|origins| - 1];
    if i: nat, j: nat :| i < j < |origins| && Twins(facts, origins, source, placed, i, j) {
      if j < |front| { assert Twins(facts, front, source, placed, i, j); } else { assert front[i] == last; }
    }
    if i: nat, j: nat :| i < j < |front| && Twins(facts, front, source, placed, i, j) {
      assert Twins(facts, origins, source, placed, i, j);
    }
    if last in front && last.source == source && Analysed(facts, last.document) && last.document !in placed {
      var i: nat :| i < |front| && front[i] == last;
      assert Twins(facts, origins, source, placed, i, |front|);
    }
  }

  /** With a source filter a document is counted once for each time it arrived, so the report is the number
      of documents exactly when none of them arrived from the source twice. */
  lemma FilteredCountIsExactIff(facts: seq<Fact>, origins: seq<Origin>, source: string, memberships: map<(Project, Id), string>)
    ensures var unplaced := Unplaced(facts, origins, Some(source), memberships);
            && |unplaced| >= |Elements(unplaced)|
            && (|unplaced| == |Elements(unplaced)| <==> !ArrivedTwice(facts, origins, source, PlacedIn(memberships)))
            && forall d :: d in Elements(unplaced) <==>
                 Origin(d, source) in origins && Analysed(facts, d) && d !in PlacedIn(memberships)
  {
    FromSourceExact(facts, origins, source);
    OutsideExact(FromSource(facts, origins, source), PlacedIn(memberships));
    RepeatedIffArrivedTwice(facts, origins, source, PlacedIn(memberships));
    CountedOnceIff(Unplaced(facts, origins, Some(source), memberships));
  }

  /** For example one unplaced document that was both fetched and uploaded is reported as two. */
  lemma OneDocumentCountedTwice(facts: seq<Fact>, origins: seq<Origin>)
    requires facts == [Fact(1, None, "", false)] && origins == [Origin(1, "s"), Origin(1, "s")]
    ensures Unplaced(facts, origins, Some("s"), map[]) == [1, 1] && Unplaced(facts, origins, None, map[]) == [1]
  {
    assert facts[0].document == 1;
    assert origins[..2][..1] == [Origin(1, "s")];
    assert FromSource(facts, origins[..1], "s") == [1];
    assert FromSource(facts, origins, "s") == [1, 1];
    assert AnalysedDocuments(facts) == [1];
    var memberships: map<(Project, Id), string> := map[];
    assert PlacedIn(memberships) == {};
    var none: seq<Id> := [];
    OutsideOneMore(none, 1, {});
    OutsideOneMore([1], 1, {});
    assert none + [1] == [1];
  }
}
