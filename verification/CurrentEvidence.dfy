/** From supersession decisions to payment figures: what selection and calculation make of a history. */
module CurrentEvidence {
  import Selection
  import Calculation
  import S = Supersession

  /** The version states selection reads are those the history left; `name` writes a document's id. */
  ghost predicate Describes(documents: Selection.Documents, store: S.Store, name: S.Id -> string) {
    && (forall d, e :: name(d) == name(e) ==> d == e)
    && (forall n :: n in documents <==> exists d :: d in store.standing && name(d) == n)
    && (forall d :: d in store.standing ==> (documents[name(d)] == Selection.Active <==> store.standing[d] == S.Active))
  }

  /** Two views of the documents that agree on which are current. */
  ghost predicate AgreeOnCurrent(a: Selection.Documents, b: Selection.Documents) {
    forall n :: (n in a && a[n] == Selection.Active) <==> (n in b && b[n] == Selection.Active)
  }

  lemma {:induction false} SameActiveFacts(a: Selection.Documents, b: Selection.Documents, facts: seq<Selection.Fact>)
    requires AgreeOnCurrent(a, b)
    ensures Selection.ActiveFacts(a, facts) == Selection.ActiveFacts(b, facts)
  {
    if facts != [] { SameActiveFacts(a, b, facts[..|facts| - 1]); }
  }

  /** Of a document's version state only whether it is current reaches a figure: superseded, retired and
      unknown documents are left out alike. */
  lemma OnlyCurrencyMatters(fold: string -> string, a: Selection.Documents, b: Selection.Documents, facts: seq<Selection.Fact>)
    requires AgreeOnCurrent(a, b)
    ensures Calculation.Chosen(a, facts) == Calculation.Chosen(b, facts)
    ensures Calculation.Derived(fold, a, facts) == Calculation.Derived(fold, b, facts)
  {
    SameActiveFacts(a, b, facts);
    Calculation.ActiveEvidenceDecides(fold, a, facts, b, facts);
  }

  /** The order supersessions were decided in never reaches a figure: two histories of the same decisions
      choose the same facts and derive the same values. */
  lemma DecisionOrderNeverReachesAFigure(fold: string -> string, name: S.Id -> string, ids: set<S.Id>, members: set<(S.Id, S.Id)>,
                                         a: seq<S.Call>, b: seq<S.Call>,
                                         after: Selection.Documents, other: Selection.Documents, facts: seq<Selection.Fact>)
    requires forall call :: call in a <==> call in b
    requires Describes(after, S.Run(ids, members, a), name) && Describes(other, S.Run(ids, members, b), name)
    ensures Calculation.Chosen(after, facts) == Calculation.Chosen(other, facts)
    ensures Calculation.Derived(fold, after, facts) == Calculation.Derived(fold, other, facts)
  {
    S.EveryHistoryIsSound(ids, members, a);
    S.EveryHistoryIsSound(ids, members, b);
    forall d | d in ids
      ensures S.Run(ids, members, a).standing[d] == S.Active <==> S.Run(ids, members, b).standing[d] == S.Active
    {
      S.CurrentIgnoresOrder(ids, members, a, b, d);
    }
    OnlyCurrencyMatters(fold, after, other, facts);
  }

  /** No input of a payment figure comes from a document a recorded decision supersedes. */
  lemma SupersededEvidenceIsNeverUsed(fold: string -> string, name: S.Id -> string, store: S.Store, documents: Selection.Documents,
                                      facts: seq<Selection.Fact>, c: Calculation.Calculated, t: string) returns (d: S.Id)
    requires S.Sound(store) && Describes(documents, store, name)
    requires c in Calculation.Derived(fold, documents, facts) && t in c.inputs
    ensures d in store.standing && name(d) == c.inputs[t].documentId && !S.IsSuperseded(store, d)
  {
    Calculation.CalculationsReadSettledFacts(fold, documents, facts, c, t);
    d :| d in store.standing && name(d) == c.inputs[t].documentId;
    S.ActiveIffNothingSupersedesIt(store, d);
  }
}
