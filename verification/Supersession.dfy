/** Recording that one document replaces another, over whole histories of decisions. */
module Supersession {
  import opened Options

  type Id = nat

  /** A document's version state, with what the stored reason names. */
  datatype Standing =
    | Active
    | Superseded(heir: Id, decidedBy: string)
    | Unknown(one: Id, other: Id)

  datatype Edge = Edge(superseding: Id, superseded: Id)

  datatype Relationship = Relationship(edge: Edge, project: Id, decidedBy: string)

  datatype Refusal = SameDocument | UnknownSuperseding | UnknownSuperseded | NoSharedProject

  /** `standing` holds every known document; `members` the (project, document) rows. */
  datatype Store = Store(standing: map<Id, Standing>, members: set<(Id, Id)>, rows: seq<Relationship>)

  datatype Call = Call(superseding: Id, superseded: Id, decidedBy: string, project: Id)

  datatype Outcome = Recorded(created: bool, project: Id) | Refused(refusal: Refusal)

  predicate Has(rows: seq<Relationship>, edge: Edge) {
    exists i :: 0 <= i < |rows| && rows[i].edge == edge
  }

  function Shared(members: set<(Id, Id)>, a: Id, b: Id): set<Id> {
    set m | m in members && m.1 == a && (m.0, b) in members :: m.0
  }

  function RefusalOf(store: Store, a: Id, b: Id): Option<Refusal> {
    if a == b then Some(SameDocument)
    else if a !in store.standing then Some(UnknownSuperseding)
    else if b !in store.standing then Some(UnknownSuperseded)
    else if Shared(store.members, a, b) == {} then Some(NoSharedProject)
    else None
  }

  /** The store after an accepted decision. A contradiction leaves neither document current. */
  function After(store: Store, call: Call): Store {
    var a, b := call.superseding, call.superseded;
    var rows := if Has(store.rows, Edge(a, b)) then store.rows
                else store.rows + [Relationship(Edge(a, b), call.project, call.decidedBy)];
    var standing := if Has(rows, Edge(b, a)) then store.standing[a := Unknown(a, b)][b := Unknown(a, b)]
                    else store.standing[b := Superseded(a, call.decidedBy)];
    store.(rows := rows, standing := standing)
  }

  function Step(store: Store, call: Call): Store {
    if RefusalOf(store, call.superseding, call.superseded) == None then After(store, call) else store
  }

  /** The decisions recorded one after another, from documents nobody has superseded. */
  function Run(documents: set<Id>, members: set<(Id, Id)>, calls: seq<Call>): Store {
    if calls == [] then Store(map d | d in documents :: Active, members, [])
    else Step(Run(documents, members, calls[..|calls| - 1]), calls[|calls| - 1])
  }

  class Corpus {
    var standing: map<Id, Standing>
    var members: set<(Id, Id)>
    var rows: seq<Relationship>

    ghost function View(): Store
      reads this
    {
      Store(standing, members, rows)
    }

    /** Which shared project the row is filed under is whichever the database lists first. */
    method RecordSupersession(superseding: Id, superseded: Id, decidedBy: string) returns (outcome: Outcome)
      modifies this`standing, this`rows
      ensures outcome.Refused? <==> RefusalOf(old(View()), superseding, superseded).Some?
      ensures outcome.Refused? ==> View() == old(View()) && RefusalOf(old(View()), superseding, superseded) == Some(outcome.refusal)
      ensures outcome.Recorded? ==>
                && View() == After(old(View()), Call(superseding, superseded, decidedBy, outcome.project))
                && outcome.project in Shared(members, superseding, superseded)
                && outcome.created == !Has(old(rows), Edge(superseding, superseded))
    {
      if superseding == superseded { return Refused(SameDocument); }
      if superseding !in standing { return Refused(UnknownSuperseding); }
      if superseded !in standing { return Refused(UnknownSuperseded); }
      var shared := Shared(members, superseding, superseded);
      if shared == {} { return Refused(NoSharedProject); }
      var project :| project in shared;

      var created := !Has(rows, Edge(superseding, superseded));
      if created {
        rows := rows + [Relationship(Edge(superseding, superseded), project, decidedBy)];
      }
      if Has(rows, Edge(superseded, superseding)) {
        standing := standing[superseding := Unknown(superseding, superseded)];
        standing := standing[superseded := Unknown(superseding, superseded)];
      } else {
        standing := standing[superseded := Superseded(superseding, decidedBy)];
      }
      outcome := Recorded(created, project);
    }
  }

  // ---- What every history keeps ----

  ghost predicate IsSuperseded(store: Store, d: Id) {
    exists a :: Has(store.rows, Edge(a, d))
  }

  /** The rows form a simple graph over known documents that share a project. */
  ghost predicate SimpleGraph(store: Store) {
    && (forall i :: 0 <= i < |store.rows| ==> RefusalOf(store, store.rows[i].edge.superseding, store.rows[i].edge.superseded) == None)
    && (forall i, j :: 0 <= i < j < |store.rows| ==> store.rows[i].edge != store.rows[j].edge)
  }

  /** Each document's standing is explained by the rows: nothing points at an active one; a superseded one
      names a document that replaced it and that it never replaced in turn; an unknown one names a
      contradiction it is part of. */
  ghost predicate Explained(store: Store, d: Id)
    requires d in store.standing
  {
    match store.standing[d]
    case Active => forall a :: !Has(store.rows, Edge(a, d))
    case Superseded(heir, _) => Has(store.rows, Edge(heir, d)) && !Has(store.rows, Edge(d, heir))
    case Unknown(one, other) =>
      (d == one || d == other) && Has(store.rows, Edge(one, other)) && Has(store.rows, Edge(other, one))
  }

  ghost predicate Sound(store: Store) {
    && SimpleGraph(store)
    && forall d :: d in store.standing ==> Explained(store, d)
  }

  lemma AfterHas(store: Store, call: Call, edge: Edge)
    ensures Has(After(store, call).rows, edge) <==> Has(store.rows, edge) || edge == Edge(call.superseding, call.superseded)
  {
    var rows := After(store, call).rows;
    if Has(store.rows, edge) {
      var i :| 0 <= i < |store.rows| && store.rows[i].edge == edge;
      assert rows[i].edge == edge;
    }
    if edge == Edge(call.superseding, call.superseded) && !Has(store.rows, edge) {
      assert rows[|store.rows|].edge == edge;
    }
  }

  lemma AfterIsSimple(store: Store, call: Call)
    requires SimpleGraph(store) && RefusalOf(store, call.superseding, call.superseded) == None
    ensures SimpleGraph(After(store, call))
  {
    var next := After(store, call);
    assert next.standing.Keys == store.standing.Keys;
    forall i | 0 <= i < |next.rows|
      ensures RefusalOf(next, next.rows[i].edge.superseding, next.rows[i].edge.superseded) == None
    {
    }
  }

  lemma AfterIsExplained(store: Store, call: Call, d: Id)
    requires Sound(store) && RefusalOf(store, call.superseding, call.superseded) == None
    requires d in store.standing
    ensures Explained(After(store, call), d)
  {
    var a, b := call.superseding, call.superseded;
    assert Explained(store, d);
    AfterHas(store, call, Edge(b, a));
    AfterHas(store, call, Edge(a, b));
    match store.standing[d] {
      case Active => forall x { AfterHas(store, call, Edge(x, d)); }
      case Superseded(heir, _) => AfterHas(store, call, Edge(heir, d)); AfterHas(store, call, Edge(d, heir));
      case Unknown(one, other) => AfterHas(store, call, Edge(one, other)); AfterHas(store, call, Edge(other, one));
    }
  }

  lemma StepKeepsSound(store: Store, call: Call)
    requires Sound(store)
    ensures Sound(Step(store, call))
  {
    if RefusalOf(store, call.superseding, call.superseded) == None {
      AfterIsSimple(store, call);
      forall d | d in store.standing ensures Explained(After(store, call), d) { AfterIsExplained(store, call, d); }
    }
  }

  lemma {:induction false} EveryHistoryIsSound(documents: set<Id>, members: set<(Id, Id)>, calls: seq<Call>)
    ensures Sound(Run(documents, members, calls))
    ensures Run(documents, members, calls).standing.Keys == documents
    ensures Run(documents, members, calls).members == members
  {
    if calls != [] {
      EveryHistoryIsSound(documents, members, calls[..|calls| - 1]);
      StepKeepsSound(Run(documents, members, calls[..|calls| - 1]), calls[|calls| - 1]);
    }
  }

  /** A document is current exactly when no recorded decision supersedes it. */
  lemma ActiveIffNothingSupersedesIt(store: Store, d: Id)
    requires Sound(store) && d in store.standing
    ensures store.standing[d] == Active <==> !IsSuperseded(store, d)
  {
    assert Explained(store, d);
    match store.standing[d] {
      case Active =>
      case Superseded(heir, _) => assert Has(store.rows, Edge(heir, d));
      case Unknown(one, other) => assert Has(store.rows, Edge(if d == one then other else one, d));
    }
  }

  /** Decisions are never undone: rows are only added, and a document once superseded never becomes
      current again. */
  lemma {:induction false} HistoryOnlyGrows(documents: set<Id>, members: set<(Id, Id)>, calls: seq<Call>, k: nat)
    requires k <= |calls|
    ensures Run(documents, members, calls[..k]).rows <= Run(documents, members, calls).rows
    ensures var was, now := Run(documents, members, calls[..k]), Run(documents, members, calls);
            forall d :: d in was.standing && was.standing[d] != Active ==> d in now.standing && now.standing[d] != Active
  {
    if k < |calls| {
      HistoryOnlyGrows(documents, members, calls[..|calls| - 1], k);
      assert calls[..|calls| - 1][..k] == calls[..k];
    } else {
      assert calls[..k] == calls;
    }
  }

  /** Two different known documents in one project. */
  ghost predicate Accepts(documents: set<Id>, members: set<(Id, Id)>, call: Call) {
    && call.superseding != call.superseded && call.superseding in documents && call.superseded in documents
    && exists project :: (project, call.superseding) in members && (project, call.superseded) in members
  }

  lemma AcceptsIff(store: Store, call: Call)
    ensures RefusalOf(store, call.superseding, call.superseded) == None <==> Accepts(store.standing.Keys, store.members, call)
  {
    var shared := Shared(store.members, call.superseding, call.superseded);
    if project :| (project, call.superseding) in store.members && (project, call.superseded) in store.members {
      assert project in shared;
    }
    if shared != {} {
      var project :| project in shared;
      assert (project, call.superseding) in store.members && (project, call.superseded) in store.members;
    }
  }

  /** Why a decision is refused, in the order it is checked. */
  lemma RefusalMeans(store: Store, call: Call)
    ensures match RefusalOf(store, call.superseding, call.superseded)
            case Some(SameDocument) => call.superseding == call.superseded
            case Some(UnknownSuperseding) => call.superseding != call.superseded && call.superseding !in store.standing
            case Some(UnknownSuperseded) =>
              call.superseding != call.superseded && call.superseding in store.standing && call.superseded !in store.standing
            case Some(NoSharedProject) =>
              && call.superseding != call.superseded && call.superseding in store.standing && call.superseded in store.standing
              && !exists project :: (project, call.superseding) in store.members && (project, call.superseded) in store.members
            case None => Accepts(store.standing.Keys, store.members, call)
  {
    AcceptsIff(store, call);
  }

  ghost predicate Decided(documents: set<Id>, members: set<(Id, Id)>, calls: seq<Call>, edge: Edge) {
    exists call :: call in calls && Accepts(documents, members, call) && Edge(call.superseding, call.superseded) == edge
  }

  lemma DecidedSplits(documents: set<Id>, members: set<(Id, Id)>, front: seq<Call>, last: Call, edge: Edge)
    ensures Decided(documents, members, front + [last], edge) <==>
              Decided(documents, members, front, edge)
              || (Accepts(documents, members, last) && Edge(last.superseding, last.superseded) == edge)
  {
    assert last in front + [last];
    assert forall call :: call in front + [last] <==> call in front || call == last;
  }

  lemma NothingRecorded(documents: set<Id>, members: set<(Id, Id)>, edge: Edge)
    ensures !Has(Run(documents, members, []).rows, edge) && !Decided(documents, members, [], edge)
  {
  }

  /** An accepted decision is on record, and nothing else is. */
  lemma {:induction false} RowsAreTheAcceptedDecisions(documents: set<Id>, members: set<(Id, Id)>, calls: seq<Call>, edge: Edge)
    ensures Has(Run(documents, members, calls).rows, edge) <==> Decided(documents, members, calls, edge)
  {
    hide Has, Decided, Sound;
    if calls == [] {
      NothingRecorded(documents, members, edge);
    } else {
      var front, last := calls[..|calls| - 1], calls[|calls| - 1];
      RowsAreTheAcceptedDecisions(documents, members, front, edge);
      EveryHistoryIsSound(documents, members, front);
      AfterHas(Run(documents, members, front), last, edge);
      AcceptsIff(Run(documents, members, front), last);
      assert calls == front + [last];
      DecidedSplits(documents, members, front, last, edge);
    }
  }

  ghost predicate FirstDecides(documents: set<Id>, members: set<(Id, Id)>, calls: seq<Call>, k: nat, edge: Edge) {
    && k < |calls| && Accepts(documents, members, calls[k]) && Edge(calls[k].superseding, calls[k].superseded) == edge
    && !Decided(documents, members, calls[..k], edge)
  }

  /** And each row is filed as the first decision of its kind was: under that project, by that person. */
  lemma {:induction false} RowsAreFiledOnce(documents: set<Id>, members: set<(Id, Id)>, calls: seq<Call>, i: nat) returns (k: nat)
    requires i < |Run(documents, members, calls).rows|
    ensures var row := Run(documents, members, calls).rows[i];
            && FirstDecides(documents, members, calls, k, row.edge)
            && row.project == calls[k].project && row.decidedBy == calls[k].decidedBy
  {
    hide Has, Decided, Sound;
    var front, last := calls[..|calls| - 1], calls[|calls| - 1];
    var before, edge := Run(documents, members, front), Edge(last.superseding, last.superseded);
    EveryHistoryIsSound(documents, members, front);
    AcceptsIff(before, last);
    if i < |before.rows| {
      k := RowsAreFiledOnce(documents, members, front, i);
      assert calls[..k] == front[..k];
    } else {
      k := |front|;
      RowsAreTheAcceptedDecisions(documents, members, front, edge);
      assert calls[..k] == front;
    }
  }

  /** So which documents are current does not depend on the order decisions were taken in. */
  lemma CurrentIgnoresOrder(documents: set<Id>, members: set<(Id, Id)>, a: seq<Call>, b: seq<Call>, d: Id)
    requires forall c :: c in a <==> c in b
    requires d in documents
    ensures Run(documents, members, a).standing.Keys == Run(documents, members, b).standing.Keys == documents
    ensures Run(documents, members, a).standing[d] == Active <==> Run(documents, members, b).standing[d] == Active
  {
    CurrentIffUndecided(documents, members, a, d);
    CurrentIffUndecided(documents, members, b, d);
  }

  lemma CurrentIffUndecided(documents: set<Id>, members: set<(Id, Id)>, calls: seq<Call>, d: Id)
    requires d in documents
    ensures Run(documents, members, calls).standing.Keys == documents
    ensures Run(documents, members, calls).standing[d] == Active <==> forall x :: !Decided(documents, members, calls, Edge(x, d))
  {
    EveryHistoryIsSound(documents, members, calls);
    ActiveIffNothingSupersedesIt(Run(documents, members, calls), d);
    forall x { RowsAreTheAcceptedDecisions(documents, members, calls, Edge(x, d)); }
  }

  // ---- Superseded or unknown? ----

  /** One decision later, an unknown document is still unknown unless this decision replaces it by a document
      it never replaced. */
  lemma StaysUnknownIff(store: Store, call: Call, d: Id)
    requires Sound(store) && d in store.standing && store.standing[d].Unknown?
    requires RefusalOf(store, call.superseding, call.superseded) == None
    ensures After(store, call).standing[d].Unknown? <==> !(call.superseded == d && !Has(store.rows, Edge(d, call.superseding)))
  {
    AfterHas(store, call, Edge(call.superseded, call.superseding));
  }

  /** The decision is accepted and finds its opposite among those before it. */
  ghost predicate Contradicts(documents: set<Id>, members: set<(Id, Id)>, calls: seq<Call>, k: nat)
    requires k < |calls|
  {
    && Accepts(documents, members, calls[k])
    && Decided(documents, members, calls[..k], Edge(calls[k].superseded, calls[k].superseding))
  }

  /** A decision rewrites the document it supersedes, and in a contradiction both. */
  ghost predicate Rewrites(documents: set<Id>, members: set<(Id, Id)>, calls: seq<Call>, k: nat, d: Id)
    requires k < |calls|
  {
    && Accepts(documents, members, calls[k])
    && (calls[k].superseded == d || (calls[k].superseding == d && Contradicts(documents, members, calls, k)))
  }

  ghost predicate RewritesLast(documents: set<Id>, members: set<(Id, Id)>, calls: seq<Call>, k: nat, d: Id)
    requires k < |calls|
  {
    && Rewrites(documents, members, calls, k, d)
    && forall j :: k < j < |calls| ==> !Rewrites(documents, members, calls, j, d)
  }

  lemma StepRewrites(documents: set<Id>, members: set<(Id, Id)>, front: seq<Call>, last: Call, d: Id)
    requires d in documents
    ensures var calls, k := front + [last], |front|;
            && Run(documents, members, calls).standing.Keys == documents == Run(documents, members, front).standing.Keys
            && (if Rewrites(documents, members, calls, k, d)
                then Run(documents, members, calls).standing[d]
                     == if Contradicts(documents, members, calls, k) then Unknown(last.superseding, last.superseded)
                        else Superseded(last.superseding, last.decidedBy)
                else Run(documents, members, calls).standing[d] == Run(documents, members, front).standing[d])
  {
    hide Has, Decided, Sound;
    var calls := front + [last];
    var reverse := Edge(last.superseded, last.superseding);
    assert calls[..|front|] == front;
    EveryHistoryIsSound(documents, members, front);
    EveryHistoryIsSound(documents, members, calls);
    RowsAreTheAcceptedDecisions(documents, members, front, reverse);
    AcceptsIff(Run(documents, members, front), last);
    if last.superseding != last.superseded { AfterHas(Run(documents, members, front), last, reverse); }
  }

  /** Over every history: a document ends unknown exactly when the last decision to rewrite it contradicts an
      earlier one, and superseded exactly when that one does not; and it names that decision. */
  lemma {:induction false} LastRewriteDecides(documents: set<Id>, members: set<(Id, Id)>, calls: seq<Call>, d: Id)
    requires d in documents
    ensures Run(documents, members, calls).standing.Keys == documents
    ensures var now := Run(documents, members, calls).standing[d];
            && (now.Unknown? <==>
                  exists k :: 0 <= k < |calls| && RewritesLast(documents, members, calls, k, d) && Contradicts(documents, members, calls, k))
            && (now.Superseded? <==>
                  exists k :: 0 <= k < |calls| && RewritesLast(documents, members, calls, k, d) && !Contradicts(documents, members, calls, k))
            && forall k :: 0 <= k < |calls| && RewritesLast(documents, members, calls, k, d) ==>
                 now == if Contradicts(documents, members, calls, k) then Unknown(calls[k].superseding, calls[k].superseded)
                        else Superseded(calls[k].superseding, calls[k].decidedBy)
  {
    hide Run, Decided;
    if calls == [] {
      StartsActive(documents, members);
    } else {
      var n := |calls| - 1;
      var front, last := calls[..n], calls[n];
      assert calls == front + [last];
      LastRewriteDecides(documents, members, front, d);
      StepRewrites(documents, members, front, last, d);
      if Rewrites(documents, members, calls, n, d) {
        assert RewritesLast(documents, members, calls, n, d);
      } else {
        forall k | 0 <= k < n
          ensures Contradicts(documents, members, calls, k) <==> Contradicts(documents, members, front, k)
          ensures RewritesLast(documents, members, calls, k, d) <==> RewritesLast(documents, members, front, k, d)
        {
          RewritesFront(documents, members, front, last, d);
        }
        if k :| 0 <= k < n && RewritesLast(documents, members, front, k, d) {
          assert RewritesLast(documents, members, calls, k, d);
        }
      }
    }
  }

  lemma StartsActive(documents: set<Id>, members: set<(Id, Id)>)
    ensures Run(documents, members, []).standing.Keys == documents
    ensures forall d :: d in documents ==> Run(documents, members, []).standing[d] == Active
  {
  }

  lemma RewritesFront(documents: set<Id>, members: set<(Id, Id)>, front: seq<Call>, last: Call, d: Id)
    ensures forall k :: 0 <= k < |front| ==>
              && (Contradicts(documents, members, front + [last], k) <==> Contradicts(documents, members, front, k))
              && (Rewrites(documents, members, front + [last], k, d) <==> Rewrites(documents, members, front, k, d))
  {
    hide Decided;
    forall k | 0 <= k < |front|
      ensures Contradicts(documents, members, front + [last], k) <==> Contradicts(documents, members, front, k)
      ensures Rewrites(documents, members, front + [last], k, d) <==> Rewrites(documents, members, front, k, d)
    {
      assert (front + [last])[..k] == front[..k];
    }
  }

  predicate InProject(documents: set<Id>, members: set<(Id, Id)>, project: Id, call: Call) {
    && call.superseding != call.superseded && call.superseding in documents && call.superseded in documents
    && (project, call.superseding) in members && (project, call.superseded) in members
  }

  lemma AcceptedLast(documents: set<Id>, members: set<(Id, Id)>, project: Id, before: seq<Call>, call: Call)
    requires InProject(documents, members, project, call)
    ensures Run(documents, members, before + [call]) == After(Run(documents, members, before), call)
  {
    EveryHistoryIsSound(documents, members, before);
    assert (before + [call])[..|before|] == before;
    assert project in Shared(members, call.superseding, call.superseded);
  }

  lemma InSequence(documents: set<Id>, members: set<(Id, Id)>, project: Id, a: Call, b: Call, c: Call)
    requires InProject(documents, members, project, a)
    requires InProject(documents, members, project, b)
    requires InProject(documents, members, project, c)
    ensures Run(documents, members, [a, b, c]) == After(After(After(Run(documents, members, []), a), b), c)
  {
    hide Run, After, InProject;
    var none: seq<Call> := [];
    AcceptedLast(documents, members, project, none, a);
    AcceptedLast(documents, members, project, none + [a], b);
    AcceptedLast(documents, members, project, none + [a] + [b], c);
    assert [a, b, c] == none + [a] + [b] + [c];
  }

  lemma HasOneMore(rows: seq<Relationship>, row: Relationship, edge: Edge)
    ensures Has(rows + [row], edge) <==> Has(rows, edge) || row.edge == edge
  {
    var longer := rows + [row];
    if Has(rows, edge) {
      var i :| 0 <= i < |rows| && rows[i].edge == edge;
      assert longer[i].edge == edge;
    }
    if row.edge == edge { assert longer[|rows|].edge == edge; }
  }

  /** The row a decision adds. */
  function RowOf(call: Call): Relationship {
    Relationship(Edge(call.superseding, call.superseded), call.project, call.decidedBy)
  }

  /** A decision taken for the first time, with nothing or with its opposite already on record. */
  lemma FirstTime(store: Store, call: Call)
    requires call.superseding != call.superseded && !Has(store.rows, Edge(call.superseding, call.superseded))
    ensures var a, b := call.superseding, call.superseded;
            After(store, call) == store.(
              rows := store.rows + [RowOf(call)],
              standing := if Has(store.rows, Edge(b, a)) then store.standing[a := Unknown(a, b)][b := Unknown(a, b)]
                          else store.standing[b := Superseded(a, call.decidedBy)])
  {
    HasOneMore(store.rows, RowOf(call), Edge(call.superseded, call.superseding));
  }

  /** Three decisions, none taken twice, from documents nobody has superseded. */
  lemma ThreeFirstTimes(store: Store, a: Call, b: Call, c: Call)
    requires store.rows == [] && a.superseding != a.superseded && b.superseding != b.superseded && c.superseding != c.superseded
    requires RowOf(a).edge != RowOf(b).edge && RowOf(b).edge != RowOf(c).edge && RowOf(c).edge != RowOf(a).edge
    ensures After(store, a).rows == [RowOf(a)] && After(After(store, a), b).rows == [RowOf(a), RowOf(b)]
    ensures forall edge :: !Has(store.rows, edge)
    ensures forall edge :: Has([RowOf(a)], edge) <==> edge == RowOf(a).edge
    ensures forall edge :: Has([RowOf(a), RowOf(b)], edge) <==> edge == RowOf(a).edge || edge == RowOf(b).edge
  {
    hide After;
    var none: seq<Relationship> := [];
    assert none + [RowOf(a)] == [RowOf(a)] && [RowOf(a)] + [RowOf(b)] == [RowOf(a), RowOf(b)];
    forall edge
      ensures Has([RowOf(a)], edge) <==> edge == RowOf(a).edge
      ensures Has([RowOf(a), RowOf(b)], edge) <==> edge == RowOf(a).edge || edge == RowOf(b).edge
    {
      HasOneMore(none, RowOf(a), edge);
      HasOneMore([RowOf(a)], RowOf(b), edge);
    }
    FirstTime(store, a);
    FirstTime(After(store, a), b);
  }

  const TRIO := {1, 2, 3}
  const SHARED := {(9, 1), (9, 2), (9, 3)}

  function Decide(superseding: Id, superseded: Id): Call {
    Call(superseding, superseded, "", 9)
  }

  /** For a document with replacements of both kinds the last decision wins, so the order shows: first
      contradicted and then replaced, document 1 is superseded; the other way round it is unknown. */
  lemma MixedStandingDependsOnOrder()
    ensures Run(TRIO, SHARED, [Decide(1, 2), Decide(2, 1), Decide(3, 1)]).standing
              == map[1 := Superseded(3, ""), 2 := Unknown(2, 1), 3 := Active]
    ensures Run(TRIO, SHARED, [Decide(3, 1), Decide(1, 2), Decide(2, 1)]).standing
              == map[1 := Unknown(2, 1), 2 := Unknown(2, 1), 3 := Active]
  {
    ContradictedThenReplaced();
    ReplacedThenContradicted();
  }

  lemma ContradictedThenReplaced()
    ensures Run(TRIO, SHARED, [Decide(1, 2), Decide(2, 1), Decide(3, 1)]).standing
              == map[1 := Superseded(3, ""), 2 := Unknown(2, 1), 3 := Active]
  {
    hide After, Has;
    var start := Run(TRIO, SHARED, []);
    InSequence(TRIO, SHARED, 9, Decide(1, 2), Decide(2, 1), Decide(3, 1));
    ThreeFirstTimes(start, Decide(1, 2), Decide(2, 1), Decide(3, 1));
    FirstTime(start, Decide(1, 2));
    FirstTime(After(start, Decide(1, 2)), Decide(2, 1));
    FirstTime(After(After(start, Decide(1, 2)), Decide(2, 1)), Decide(3, 1));
  }

  lemma ReplacedThenContradicted()
    ensures Run(TRIO, SHARED, [Decide(3, 1), Decide(1, 2), Decide(2, 1)]).standing
              == map[1 := Unknown(2, 1), 2 := Unknown(2, 1), 3 := Active]
  {
    hide After, Has;
    var start := Run(TRIO, SHARED, []);
    InSequence(TRIO, SHARED, 9, Decide(3, 1), Decide(1, 2), Decide(2, 1));
    ThreeFirstTimes(start, Decide(3, 1), Decide(1, 2), Decide(2, 1));
    FirstTime(start, Decide(3, 1));
    FirstTime(After(start, Decide(3, 1)), Decide(1, 2));
    FirstTime(After(After(start, Decide(3, 1)), Decide(1, 2)), Decide(2, 1));
  }

  // ---- Following the chain back to a current document ----

  ghost predicate IsChain(store: Store, chain: seq<Id>) {
    && chain != []
    && forall i :: 0 <= i < |chain| - 1 ==> Has(store.rows, Edge(chain[i], chain[i + 1]))
  }

  ghost predicate IsCycle(store: Store, chain: seq<Id>) {
    IsChain(store, chain) && |chain| >= 2 && chain[0] == chain[|chain| - 1]
  }

  lemma {:induction false} DistinctFit(s: seq<Id>, within: set<Id>)
    requires forall i :: 0 <= i < |s| ==> s[i] in within
    requires forall i, j :: 0 <= i < j < |s| ==> s[i] != s[j]
    ensures |s| <= |within|
  {
    if s != [] { DistinctFit(s[1..], within - {s[0]}); }
  }

  ghost predicate Acyclic(store: Store) {
    forall chain :: !IsCycle(store, chain)
  }

  /** A chain of known documents that meets none twice. */
  ghost predicate IsSimple(store: Store, chain: seq<Id>) {
    && IsChain(store, chain)
    && (forall i :: 0 <= i < |chain| ==> chain[i] in store.standing)
    && (forall i, j :: 0 <= i < j < |chain| ==> chain[i] != chain[j])
  }

  lemma IsChainPrepended(store: Store, before: Id, chain: seq<Id>)
    requires IsChain(store, chain) && Has(store.rows, Edge(before, chain[0]))
    ensures IsChain(store, [before] + chain)
  {
    var longer := [before] + chain;
    forall i | 0 <= i < |longer| - 1 ensures Has(store.rows, Edge(longer[i], longer[i + 1])) {
      if i > 0 { assert Has(store.rows, Edge(chain[i - 1], chain[i - 1 + 1])); }
    }
  }

  /** Without cycles the chain can be extended backwards by a document it has not met. */
  lemma PrependSimple(store: Store, before: Id, chain: seq<Id>)
    requires SimpleGraph(store) && Acyclic(store) && IsSimple(store, chain) && Has(store.rows, Edge(before, chain[0]))
    ensures IsSimple(store, [before] + chain)
  {
    hide Has, SimpleGraph;
    var longer := [before] + chain;
    KnownEnds(store, before, chain[0]);
    IsChainPrepended(store, before, chain);
    forall k | 0 <= k < |chain| ensures chain[k] != before {
      var loop := longer[..k + 2];
      assert IsChain(store, loop);
      assert !IsCycle(store, loop);
    }
  }

  /** Walking back from `chain[0]` until nothing supersedes the document reached. */
  lemma {:induction false} ExtendBack(store: Store, chain: seq<Id>) returns (full: seq<Id>)
    requires Sound(store) && Acyclic(store) && IsSimple(store, chain)
    ensures IsChain(store, full) && full[|full| - 1] == chain[|chain| - 1]
    ensures full[0] in store.standing && store.standing[full[0]] == Active
    decreases |store.standing.Keys| - |chain|
  {
    hide Has, SimpleGraph, Explained, Acyclic;
    ActiveIffNothingSupersedesIt(store, chain[0]);
    if store.standing[chain[0]] == Active {
      full := chain;
    } else {
      var before :| Has(store.rows, Edge(before, chain[0]));
      PrependSimple(store, before, chain);
      DistinctFit([before] + chain, store.standing.Keys);
      full := ExtendBack(store, [before] + chain);
    }
  }

  /** Without a cycle of replacements, every superseded document leads back to a current one. */
  lemma EveryChainHasAHead(store: Store, d: Id) returns (chain: seq<Id>)
    requires Sound(store) && d in store.standing && Acyclic(store)
    ensures IsChain(store, chain) && chain[|chain| - 1] == d
    ensures chain[0] in store.standing && store.standing[chain[0]] == Active
  {
    chain := ExtendBack(store, [d]);
  }

  /** A group of documents nobody outside the group replaced, each replaced by someone in it. */
  ghost predicate Headless(store: Store, group: set<Id>) {
    && group != {} && group <= store.standing.Keys
    && (forall d :: d in group ==> IsSuperseded(store, d))
    && (forall a, d :: d in group && Has(store.rows, Edge(a, d)) ==> a in group)
  }

  ghost predicate LeadsTo(store: Store, a: Id, d: Id) {
    exists chain :: IsChain(store, chain) && chain[0] == a && chain[|chain| - 1] == d
  }

  lemma {:induction false} ChainsStayInside(store: Store, group: set<Id>, chain: seq<Id>)
    requires Headless(store, group) && IsChain(store, chain) && chain[|chain| - 1] in group
    ensures chain[0] in group
  {
    if |chain| > 1 {
      assert IsChain(store, chain[1..]);
      ChainsStayInside(store, group, chain[1..]);
    }
  }

  /** Longer cycles are not detected. Exactly when some group is headless, a document is left that no
      current document leads to. */
  lemma SomeoneIsOrphanedIffHeadless(store: Store)
    requires Sound(store)
    ensures (exists group :: Headless(store, group)) <==>
              exists d :: d in store.standing && Orphaned(store, d)
  {
    hide Has, Explained, SimpleGraph;
    if group :| Headless(store, group) {
      var d :| d in group;
      forall a | a in store.standing && store.standing[a] == Active ensures !LeadsTo(store, a, d) {
        ActiveIffNothingSupersedesIt(store, a);
        if LeadsTo(store, a, d) {
          var chain :| IsChain(store, chain) && chain[0] == a && chain[|chain| - 1] == d;
          ChainsStayInside(store, group, chain);
        }
      }
      assert Orphaned(store, d);
    }
    if d :| d in store.standing && Orphaned(store, d) {
      AncestorsAreHeadless(store, d);
    }
  }

  ghost predicate Orphaned(store: Store, d: Id) {
    forall a :: a in store.standing && store.standing[a] == Active ==> !LeadsTo(store, a, d)
  }

  lemma LeadsToPrepends(store: Store, a: Id, x: Id, d: Id)
    requires Has(store.rows, Edge(a, x)) && LeadsTo(store, x, d)
    ensures LeadsTo(store, a, d)
  {
    var chain :| IsChain(store, chain) && chain[0] == x && chain[|chain| - 1] == d;
    var longer := [a] + chain;
    IsChainPrepended(store, a, chain);
    assert longer[0] == a && longer[|longer| - 1] == d;
  }

  ghost function Ancestors(store: Store, d: Id): set<Id> {
    set a | a in store.standing && LeadsTo(store, a, d)
  }

  lemma LeadsToItself(store: Store, d: Id)
    ensures LeadsTo(store, d, d)
  {
    assert IsChain(store, [d]) && [d][0] == d == [d][|[d]| - 1];
  }

  lemma AncestorsAreHeadless(store: Store, d: Id)
    requires Sound(store) && d in store.standing && Orphaned(store, d)
    ensures Headless(store, Ancestors(store, d))
  {
    hide Has, IsChain, SimpleGraph, Explained;
    var group := Ancestors(store, d);
    LeadsToItself(store, d);
    assert d in group;
    forall x | x in group ensures IsSuperseded(store, x) {
      ActiveIffNothingSupersedesIt(store, x);
    }
    forall a, x | x in group && Has(store.rows, Edge(a, x)) ensures a in group {
      KnownEnds(store, a, x);
      LeadsToPrepends(store, a, x, d);
    }
  }

  lemma KnownEnds(store: Store, a: Id, d: Id)
    requires SimpleGraph(store) && Has(store.rows, Edge(a, d))
    ensures a in store.standing && d in store.standing && a != d
  {
    var i :| 0 <= i < |store.rows| && store.rows[i].edge == Edge(a, d);
    assert RefusalOf(store, store.rows[i].edge.superseding, store.rows[i].edge.superseded) == None;
  }

  /** For example three documents replacing each other in turn: none is current, none is contradicted. */
  lemma ThreeCycleLeavesNothingCurrent()
    ensures Run(TRIO, SHARED, [Decide(1, 2), Decide(2, 3), Decide(3, 1)]).standing
              == map[1 := Superseded(3, ""), 2 := Superseded(1, ""), 3 := Superseded(2, "")]
  {
    hide After, Has;
    var start := Run(TRIO, SHARED, []);
    InSequence(TRIO, SHARED, 9, Decide(1, 2), Decide(2, 3), Decide(3, 1));
    ThreeFirstTimes(start, Decide(1, 2), Decide(2, 3), Decide(3, 1));
    FirstTime(start, Decide(1, 2));
    FirstTime(After(start, Decide(1, 2)), Decide(2, 3));
    FirstTime(After(After(start, Decide(1, 2)), Decide(2, 3)), Decide(3, 1));
  }
}
