/** The table of extracted facts: re-analysis updates it, and withdrawal hides rows without removing any. */
module FactStore {
  import opened Options

  type Id = nat

  /** One field an extractor produced. `content` is everything the row copies from it. */
  datatype Field<V> = Field(name: string, sheetRow: Option<nat>, content: V)

  /** The unique key of a fact row. */
  datatype Key = Key(document: Id, factType: string, version: string, sheetRow: Option<nat>)

  /** `workItem` is written by linking, never by extraction. */
  datatype Row<V> = Row(id: Id, content: V, extractor: string, workItem: Option<Id>)

  datatype Retraction = Retraction(extractor: string, version: string, reason: string)

  /** The rows and the next unused row id. */
  datatype Facts<V> = Facts(rows: map<Key, Row<V>>, nextId: Id)

  function KeyOf<V>(document: Id, version: string, field: Field<V>): Key {
    Key(document, field.name, version, field.sheetRow)
  }

  function Write<V>(facts: Facts<V>, key: Key, content: V, extractor: string): Facts<V> {
    if key in facts.rows
    then facts.(rows := facts.rows[key := facts.rows[key].(content := content, extractor := extractor)])
    else Facts(facts.rows[key := Row(facts.nextId, content, extractor, None)], facts.nextId + 1)
  }

  function WriteAll<V>(facts: Facts<V>, document: Id, fields: seq<Field<V>>, extractor: string, version: string): Facts<V> {
    if fields == [] then facts
    else
      var field := fields[|fields| - 1];
      Write(WriteAll(facts, document, fields[..|fields| - 1], extractor, version), KeyOf(document, version, field), field.content, extractor)
  }

  /** The row a document-scoped type leads to: the last one written. */
  function ByType<V>(fields: seq<Field<V>>): map<string, nat> {
    if fields == [] then map[]
    else
      var n := |fields| - 1;
      if fields[n].sheetRow.None? then ByType(fields[..n])[fields[n].name := n] else ByType(fields[..n])
  }

  class Store<V(==)> {
    var facts: Facts<V>
    var retractions: map<Id, Retraction>

    /** Ids are a primary key. */
    ghost predicate Valid()
      reads this
    {
      IdsDistinct(facts)
    }

    /** The returned rows are named by their keys, in extraction order. */
    method PersistFacts(document: Id, fields: seq<Field<V>>, extractor: string, version: string)
      returns (all: seq<Key>, byType: map<string, nat>)
      requires Valid()
      modifies this`facts
      ensures Valid()
      ensures facts == WriteAll(old(facts), document, fields, extractor, version)
      ensures |all| == |fields| && forall i :: 0 <= i < |fields| ==> all[i] == KeyOf(document, version, fields[i])
      ensures byType == ByType(fields)
    {
      hide IdsDistinct;
      all, byType := [], map[];
      for i := 0 to |fields|
        invariant Valid()
        invariant facts == WriteAll(old(facts), document, fields[..i], extractor, version)
        invariant |all| == i && forall k :: 0 <= k < i ==> all[k] == KeyOf(document, version, fields[k])
        invariant byType == ByType(fields[..i])
      {
        assert fields[..i + 1][..i] == fields[..i];
        var field := fields[i];
        var key := KeyOf(document, version, field);
        WriteKeepsIds(facts, key, field.content, extractor);
        if key in facts.rows {
          var row := facts.rows[key];
          facts := facts.(rows := facts.rows[key := row.(content := field.content, extractor := extractor)]);
        } else {
          facts := Facts(facts.rows[key := Row(facts.nextId, field.content, extractor, None)], facts.nextId + 1);
        }
        all := all + [key];
        if field.sheetRow.None? { byType := byType[field.name := i]; }
      }
      assert fields[..|fields|] == fields;
    }

    method PersistRetractions(document: Id, factTypes: seq<string>, reason: string, extractor: string, version: string)
      returns (written: set<Id>)
      modifies this`retractions
      ensures written == Stale(facts, old(retractions), document, factTypes)
      ensures retractions == Withdraw(old(retractions), written, Retraction(extractor, version, reason))
    {
      WithdrawNone(retractions, Retraction(extractor, version, reason));
      if factTypes == [] { return {}; }
      written := WithdrawEach(Stale(facts, retractions, document, factTypes), Retraction(extractor, version, reason));
    }

    method WithdrawEach(stale: set<Id>, retraction: Retraction) returns (written: set<Id>)
      modifies this`retractions
      ensures written == stale && retractions == Withdraw(old(retractions), stale, retraction)
    {
      WithdrawNone(retractions, retraction);
      written := {};
      while written != stale
        invariant written <= stale
        invariant retractions == Withdraw(old(retractions), written, retraction)
        decreases |stale - written|
      {
        var id :| id in stale - written;
        WithdrawOneMore(old(retractions), written, id, retraction);
        retractions := retractions[id := retraction];
        written := written + {id};
      }
    }
  }

  lemma WithdrawNone(retractions: map<Id, Retraction>, retraction: Retraction)
    ensures Withdraw(retractions, {}, retraction) == retractions
  {
  }

  lemma WithdrawOneMore(retractions: map<Id, Retraction>, ids: set<Id>, id: Id, retraction: Retraction)
    ensures Withdraw(retractions, ids + {id}, retraction) == Withdraw(retractions, ids, retraction)[id := retraction]
  {
  }

  ghost predicate IdsDistinct<V>(facts: Facts<V>) {
    && (forall key :: key in facts.rows ==> facts.rows[key].id < facts.nextId)
    && (forall a, b :: a in facts.rows && b in facts.rows && facts.rows[a].id == facts.rows[b].id ==> a == b)
  }

  lemma WriteKeepsIds<V>(facts: Facts<V>, key: Key, content: V, extractor: string)
    requires IdsDistinct(facts)
    ensures IdsDistinct(Write(facts, key, content, extractor))
  {
  }

  /** Document-scoped rows of the given types that nobody withdrew yet. */
  function Stale<V>(facts: Facts<V>, retractions: map<Id, Retraction>, document: Id, factTypes: seq<string>): set<Id> {
    set key | key in facts.rows && key.document == document && key.factType in factTypes && key.sheetRow.None?
              && facts.rows[key].id !in retractions :: facts.rows[key].id
  }

  function Withdraw(retractions: map<Id, Retraction>, ids: set<Id>, retraction: Retraction): map<Id, Retraction> {
    retractions + map id | id in ids :: retraction
  }

  // ---- What writing does to each row ----

  ghost predicate Writes<V>(document: Id, version: string, fields: seq<Field<V>>, key: Key) {
    exists i :: 0 <= i < |fields| && KeyOf(document, version, fields[i]) == key
  }

  /** The last field written under a key. */
  ghost function LastFor<V>(document: Id, version: string, fields: seq<Field<V>>, key: Key): (content: V)
    requires Writes(document, version, fields, key)
  {
    var n := |fields| - 1;
    if KeyOf(document, version, fields[n]) == key then fields[n].content
    else
      assert Writes(document, version, fields[..n], key) by { WritesFront(document, version, fields, key); }
      LastFor(document, version, fields[..n], key)
  }

  lemma WritesFront<V>(document: Id, version: string, fields: seq<Field<V>>, key: Key)
    requires fields != []
    ensures Writes(document, version, fields, key) <==>
              Writes(document, version, fields[..|fields| - 1], key) || KeyOf(document, version, fields[|fields| - 1]) == key
  {
    var front := fields[..|fields| - 1];
    if i :| 0 <= i < |fields| && KeyOf(document, version, fields[i]) == key && i < |front| {
      assert KeyOf(document, version, front[i]) == key;
    }
    if i :| 0 <= i < |front| && KeyOf(document, version, front[i]) == key {
      assert KeyOf(document, version, fields[i]) == key;
    }
  }

  /** A row that was not written is as it was; one that was keeps its id and its work item, and carries
      the last field written under its key; and no row disappears. */
  lemma {:induction false} RowAfterwards<V>(facts: Facts<V>, document: Id, fields: seq<Field<V>>, extractor: string, version: string, key: Key)
    ensures var after := WriteAll(facts, document, fields, extractor, version).rows;
            && (key in after <==> key in facts.rows || Writes(document, version, fields, key))
            && (key in facts.rows ==> after[key].id == facts.rows[key].id && after[key].workItem == facts.rows[key].workItem)
            && (key in facts.rows && !Writes(document, version, fields, key) ==> after[key] == facts.rows[key])
            && (Writes(document, version, fields, key) ==>
                  after[key].content == LastFor(document, version, fields, key) && after[key].extractor == extractor)
  {
    if fields != [] {
      RowAfterwards(facts, document, fields[..|fields| - 1], extractor, version, key);
      WritesFront(document, version, fields, key);
    }
  }

  /** A row that was not there before has an id none had, and is linked to no work item yet. */
  lemma {:induction false} NewRowStartsUnlinked<V>(facts: Facts<V>, document: Id, fields: seq<Field<V>>, extractor: string, version: string, key: Key)
    requires key !in facts.rows && key in WriteAll(facts, document, fields, extractor, version).rows
    ensures var row := WriteAll(facts, document, fields, extractor, version).rows[key];
            row.workItem == None && row.id >= facts.nextId
  {
    if fields != [] {
      var front := fields[..|fields| - 1];
      IdsGrow(facts, document, front, extractor, version);
      if key in WriteAll(facts, document, front, extractor, version).rows { NewRowStartsUnlinked(facts, document, front, extractor, version, key); }
    }
  }

  lemma {:induction false} IdsGrow<V>(facts: Facts<V>, document: Id, fields: seq<Field<V>>, extractor: string, version: string)
    ensures WriteAll(facts, document, fields, extractor, version).nextId >= facts.nextId
  {
    if fields != [] { IdsGrow(facts, document, fields[..|fields| - 1], extractor, version); }
  }

  /** Rows of other documents and of other extractor versions are history: nothing about them changes. */
  lemma HistoryIsUntouched<V>(facts: Facts<V>, document: Id, fields: seq<Field<V>>, extractor: string, version: string, key: Key)
    requires key in facts.rows && (key.document != document || key.version != version)
    ensures key in WriteAll(facts, document, fields, extractor, version).rows
    ensures WriteAll(facts, document, fields, extractor, version).rows[key] == facts.rows[key]
  {
    RowAfterwards(facts, document, fields, extractor, version, key);
  }

  lemma {:induction false} NoNewIds<V>(facts: Facts<V>, document: Id, fields: seq<Field<V>>, extractor: string, version: string)
    requires forall i :: 0 <= i < |fields| ==> KeyOf(document, version, fields[i]) in facts.rows
    ensures WriteAll(facts, document, fields, extractor, version).nextId == facts.nextId
    ensures WriteAll(facts, document, fields, extractor, version).rows.Keys == facts.rows.Keys
  {
    if fields != [] {
      var front := fields[..|fields| - 1];
      assert forall i :: 0 <= i < |front| ==> front[i] == fields[i];
      NoNewIds(facts, document, front, extractor, version);
    }
  }

  /** Analysing a document again, with the same result, changes nothing at all. */
  lemma PersistingTwiceIsPersistingOnce<V>(facts: Facts<V>, document: Id, fields: seq<Field<V>>, extractor: string, version: string)
    ensures var once := WriteAll(facts, document, fields, extractor, version);
            WriteAll(once, document, fields, extractor, version) == once
  {
    var once := WriteAll(facts, document, fields, extractor, version);
    var twice := WriteAll(once, document, fields, extractor, version);
    forall i | 0 <= i < |fields| ensures KeyOf(document, version, fields[i]) in once.rows {
      RowAfterwards(facts, document, fields, extractor, version, KeyOf(document, version, fields[i]));
      assert Writes(document, version, fields, KeyOf(document, version, fields[i]));
    }
    NoNewIds(once, document, fields, extractor, version);
    forall key | key in once.rows ensures twice.rows[key] == once.rows[key] {
      RowAfterwards(facts, document, fields, extractor, version, key);
      RowAfterwards(once, document, fields, extractor, version, key);
    }
    assert twice.rows == once.rows;
  }

  lemma {:induction false} LastForIsAField<V>(document: Id, version: string, fields: seq<Field<V>>, key: Key) returns (i: nat)
    requires Writes(document, version, fields, key)
    ensures i < |fields| && KeyOf(document, version, fields[i]) == key && LastFor(document, version, fields, key) == fields[i].content
  {
    i := |fields| - 1;
    if KeyOf(document, version, fields[i]) != key {
      WritesFront(document, version, fields, key);
      i := LastForIsAField(document, version, fields[..i], key);
    }
  }

  /** Afterwards the table states what the field states. */
  ghost predicate IsStored<V>(after: Facts<V>, document: Id, version: string, field: Field<V>) {
    KeyOf(document, version, field) in after.rows && after.rows[KeyOf(document, version, field)].content == field.content
  }

  /** Every field that was read is in the table exactly when no two of one name and row differ in content. */
  lemma NoFieldLostIff<V>(facts: Facts<V>, document: Id, fields: seq<Field<V>>, extractor: string, version: string)
    ensures (forall i :: 0 <= i < |fields| ==> IsStored(WriteAll(facts, document, fields, extractor, version), document, version, fields[i]))
            <==> forall i, j :: 0 <= i < j < |fields| && fields[i].name == fields[j].name && fields[i].sheetRow == fields[j].sheetRow
                                ==> fields[i].content == fields[j].content
  {
    var after := WriteAll(facts, document, fields, extractor, version);
    if forall i, j :: 0 <= i < j < |fields| && fields[i].name == fields[j].name && fields[i].sheetRow == fields[j].sheetRow
                      ==> fields[i].content == fields[j].content {
      forall i | 0 <= i < |fields| ensures IsStored(after, document, version, fields[i]) {
        var key := KeyOf(document, version, fields[i]);
        assert Writes(document, version, fields, key);
        RowAfterwards(facts, document, fields, extractor, version, key);
        var j := LastForIsAField(document, version, fields, key);
      }
    }
    if forall i :: 0 <= i < |fields| ==> IsStored(after, document, version, fields[i]) {
      forall i, j | 0 <= i < j < |fields| && fields[i].name == fields[j].name && fields[i].sheetRow == fields[j].sheetRow
        ensures fields[i].content == fields[j].content
      {
        assert KeyOf(document, version, fields[i]) == KeyOf(document, version, fields[j]);
        assert IsStored(after, document, version, fields[i]) && IsStored(after, document, version, fields[j]);
      }
    }
  }

  /** A document-scoped type is answered by the last document-scoped field of that name, and a row of a
      table never answers for a type. */
  lemma {:induction false} ByTypeIsLast<V>(fields: seq<Field<V>>, name: string)
    ensures name in ByType(fields) <==> exists i :: 0 <= i < |fields| && fields[i].name == name && fields[i].sheetRow.None?
    ensures name in ByType(fields) ==>
              var n := ByType(fields)[name];
              && n < |fields| && fields[n].name == name && fields[n].sheetRow.None?
              && forall i :: n < i < |fields| && fields[i].name == name ==> fields[i].sheetRow.Some?
  {
    if fields != [] {
      var front := fields[..|fields| - 1];
      ByTypeIsLast(front, name);
      assert forall i :: 0 <= i < |front| ==> front[i] == fields[i];
      if i :| 0 <= i < |front| && fields[i].name == name && fields[i].sheetRow.None? {
        assert front[i].name == name && front[i].sheetRow.None?;
      }
    }
  }

  // ---- What withdrawing hides ----

  ghost predicate Visible<V>(facts: Facts<V>, retractions: map<Id, Retraction>, key: Key) {
    key in facts.rows && facts.rows[key].id !in retractions
  }

  /** Withdrawing hides exactly the document's own document-scoped rows of the given types. */
  lemma HiddenExactly<V>(facts: Facts<V>, retractions: map<Id, Retraction>, document: Id, factTypes: seq<string>,
                         retraction: Retraction, key: Key)
    requires IdsDistinct(facts)
    ensures var after := Withdraw(retractions, Stale(facts, retractions, document, factTypes), retraction);
            Visible(facts, after, key) <==>
              Visible(facts, retractions, key)
              && !(key.document == document && key.factType in factTypes && key.sheetRow.None?)
  {
  }

  /** Withdrawing again withdraws nothing, and what was withdrawn keeps the reason first given. */
  lemma WithdrawnOnce<V>(facts: Facts<V>, retractions: map<Id, Retraction>, document: Id, factTypes: seq<string>, retraction: Retraction)
    ensures var after := Withdraw(retractions, Stale(facts, retractions, document, factTypes), retraction);
            && Stale(facts, after, document, factTypes) == {}
            && forall id :: id in retractions ==> id in after && after[id] == retractions[id]
  {
  }

  /** Extraction never restores a withdrawn row: re-reading the same value under the same version updates
      the hidden row and leaves it hidden. A document-scoped type becomes visible again only through a
      row that was not there before, or was never withdrawn. */
  lemma ReextractionDoesNotRestore<V>(facts: Facts<V>, retractions: map<Id, Retraction>, document: Id, fields: seq<Field<V>>,
                                      extractor: string, version: string, key: Key)
    requires IdsDistinct(facts) && key in facts.rows
    ensures Visible(WriteAll(facts, document, fields, extractor, version), retractions, key) <==> Visible(facts, retractions, key)
  {
    RowAfterwards(facts, document, fields, extractor, version, key);
  }

  /** One analysis run: withdraw the suppressed types, and write fields that contain none of them. Nothing
      of a suppressed type is then left visible for the document as a whole. */
  lemma SuppressedTypesStayHidden<V>(facts: Facts<V>, retractions: map<Id, Retraction>, document: Id, fields: seq<Field<V>>,
                                     factTypes: seq<string>, extractor: string, version: string, reason: string, key: Key)
    requires IdsDistinct(facts)
    requires forall i :: 0 <= i < |fields| && fields[i].sheetRow.None? ==> fields[i].name !in factTypes
    requires key.document == document && key.factType in factTypes && key.sheetRow.None?
    ensures var written := WriteAll(facts, document, fields, extractor, version);
            var withdrawn := Withdraw(retractions, Stale(written, retractions, document, factTypes), Retraction(extractor, version, reason));
            !Visible(written, withdrawn, key)
    ensures var withdrawn := Withdraw(retractions, Stale(facts, retractions, document, factTypes), Retraction(extractor, version, reason));
            !Visible(WriteAll(facts, document, fields, extractor, version), withdrawn, key)
  {
    RowAfterwards(facts, document, fields, extractor, version, key);
    var written := WriteAll(facts, document, fields, extractor, version);
    if key in written.rows && written.rows[key].id !in retractions {
      assert written.rows[key].id in Stale(written, retractions, document, factTypes);
    }
    if key in facts.rows && facts.rows[key].id !in retractions {
      assert facts.rows[key].id in Stale(facts, retractions, document, factTypes);
    }
  }
}
