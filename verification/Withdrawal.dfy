/** What withdrawing facts does to the items of work: the rows a withdrawal reaches are never on an item. */
module Withdrawal {
  import opened Options
  import F = FactStore
  import W = WorkItems

  datatype Event<V> =
    | Persist(document: F.Id, fields: seq<F.Field<V>>, extractor: string, version: string)
    | Withdraw(document: F.Id, factTypes: seq<string>, retraction: F.Retraction)

  datatype State<V> = State(facts: F.Facts<V>, retractions: map<F.Id, F.Retraction>)

  function Next<V>(st: State<V>, event: Event<V>): State<V> {
    match event
    case Persist(document, fields, extractor, version) => st.(facts := F.WriteAll(st.facts, document, fields, extractor, version))
    case Withdraw(document, factTypes, retraction) =>
      st.(retractions := F.Withdraw(st.retractions, F.Stale(st.facts, st.retractions, document, factTypes), retraction))
  }

  /** Analyses and withdrawals one after another, from empty tables. */
  function Run<V>(events: seq<Event<V>>): State<V> {
    if events == [] then State(F.Facts(map[], 0), map[]) else Next(Run(events[..|events| - 1]), events[|events| - 1])
  }

  /** Every withdrawn row belongs to a document as a whole. */
  ghost predicate OnlyUnscoped<V>(st: State<V>) {
    && F.IdsDistinct(st.facts)
    && (forall key :: key in st.facts.rows && st.facts.rows[key].id in st.retractions ==> key.sheetRow.None?)
    && (forall id :: id in st.retractions ==> id < st.facts.nextId)
  }

  lemma WriteKeepsUnscoped<V>(st: State<V>, key: F.Key, content: V, extractor: string)
    requires OnlyUnscoped(st)
    ensures OnlyUnscoped(st.(facts := F.Write(st.facts, key, content, extractor)))
  {
    F.WriteKeepsIds(st.facts, key, content, extractor);
  }

  lemma {:induction false} PersistKeepsUnscoped<V>(st: State<V>, document: F.Id, fields: seq<F.Field<V>>, extractor: string, version: string)
    requires OnlyUnscoped(st)
    ensures OnlyUnscoped(st.(facts := F.WriteAll(st.facts, document, fields, extractor, version)))
  {
    hide OnlyUnscoped;
    if fields != [] {
      var front, last := fields[..|fields| - 1], fields[|fields| - 1];
      PersistKeepsUnscoped(st, document, front, extractor, version);
      WriteKeepsUnscoped(st.(facts := F.WriteAll(st.facts, document, front, extractor, version)), F.KeyOf(document, version, last),
                         last.content, extractor);
    }
  }

  lemma {:induction false} RunsWithdrawOnlyUnscoped<V>(events: seq<Event<V>>)
    ensures OnlyUnscoped(Run(events))
  {
    if events != [] {
      var before, event := Run(events[..|events| - 1]), events[|events| - 1];
      RunsWithdrawOnlyUnscoped(events[..|events| - 1]);
      if event.Persist? { PersistKeepsUnscoped(before, event.document, event.fields, event.extractor, event.version); }
    }
  }

  /** The facts a linking pass reads are rows of the table. */
  ghost predicate Reads<V>(facts: seq<W.Fact>, st: State<V>) {
    forall fact :: fact in facts ==> exists key :: IsRowOf(fact, st, key)
  }

  ghost predicate IsRowOf<V>(fact: W.Fact, st: State<V>, key: F.Key) {
    key in st.facts.rows && st.facts.rows[key].id == fact.id && key.document == fact.document && key.sheetRow == fact.sheetRow
  }

  /** After any run, linking plans what it would without the withdrawn facts, leaves what it would, and differs
      only in counting each of them as a fact without an item. */
  lemma WithdrawalNeverReachesAnItem<V>(up: char -> string, events: seq<Event<V>>, facts: seq<W.Fact>, stored: W.Stored, project: W.Id)
    requires Reads(facts, Run(events))
    ensures var withdrawn := Run(events).retractions.Keys;
            var kept := W.Kept(facts, withdrawn);
            && W.Linked(stored, project, W.Plan(up, facts)) == W.Linked(stored, project, W.Plan(up, kept))
            && var read, left := W.Report(up, stored, project, facts), W.Report(up, stored, project, kept);
               && read.created == left.created && read.linked == left.linked
               && read.withoutItem == left.withoutItem + |facts| - |kept|
  {
    var st := Run(events);
    RunsWithdrawOnlyUnscoped(events);
    forall fact | fact in facts && fact.id in st.retractions.Keys ensures fact.sheetRow.None? {
      var key :| IsRowOf(fact, st, key);
    }
    hide Run, W.Plan, W.Linked, W.Unattached, W.Identifiers, W.Kept, W.Links;
    W.WithdrawnAreOnlyCounted(up, facts, st.retractions.Keys);
  }
}
