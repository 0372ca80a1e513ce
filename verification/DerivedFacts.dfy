/** Storing computed values beside the facts and provisions that fed them. */
module DerivedFacts {
  import opened Options
  import opened Decimals
  import opened Keys
  import opened Ordering
  import opened Tables
  import opened Text

  type Id = nat

  /** What one input link cites. */
  datatype Cited = CitedFact(fact: Id) | CitedProvision(provision: Id)

  /** A computed value. `inputs` and `provisions` are mappings by role, in the order they iterate. */
  datatype Calculated = Calculated(
    factType: string, value: real, expression: string, calculationVersion: string,
    inputs: seq<(string, Id)>, provisions: seq<(string, Id)>)

  /** The unique key of a derived row: its subject, its scoped type and the calculation's version. */
  datatype Key = Key(document: Option<Id>, project: Option<Id>, scopedType: string, version: string)

  datatype Row = Row(value: Decimal, expression: string, fingerprint: string, inputs: seq<(string, Cited)>)

  datatype Result = Stored(keys: map<string, Key>) | SubjectError

  const SCALE := -10

  function Role(entry: (string, Id)): string {
    entry.0
  }

  function Sorted(entries: seq<(string, Id)>): seq<(string, Id)> {
    SortBy(Less, Role, entries)
  }

  function FactLinks(entries: seq<(string, Id)>): seq<(string, Cited)> {
    if entries == [] then []
    else FactLinks(entries[..|entries| - 1]) + [(entries[|entries| - 1].0, CitedFact(entries[|entries| - 1].1))]
  }

  function ProvisionLinks(entries: seq<(string, Id)>): seq<(string, Cited)> {
    if entries == [] then []
    else
      ProvisionLinks(entries[..|entries| - 1])
      + [("provision:" + entries[|entries| - 1].0, CitedProvision(entries[|entries| - 1].1))]
  }

  /** The item number, when there is one, is folded into the stored type. */
  function Prefix(workItem: Option<string>): string {
    match workItem
    case None => ""
    case Some(normalised) => normalised + ":"
  }

  function KeyFor(document: Option<Id>, project: Option<Id>, workItem: Option<string>, item: Calculated): Key {
    Key(document, project, Prefix(workItem) + item.factType, item.calculationVersion)
  }

  // ---- The digest of what fed a calculation ----

  function FactParts(show: Id -> string, entries: seq<(string, Id)>): seq<string> {
    if entries == [] then []
    else FactParts(show, entries[..|entries| - 1]) + [entries[|entries| - 1].0 + "=" + show(entries[|entries| - 1].1)]
  }

  function ProvisionParts(show: Id -> string, entries: seq<(string, Id)>): seq<string> {
    if entries == [] then []
    else
      ProvisionParts(show, entries[..|entries| - 1])
      + ["provision:" + entries[|entries| - 1].0 + "=" + show(entries[|entries| - 1].1)]
  }

  function FingerprintText(show: Id -> string, item: Calculated): string {
    Join("|", FactParts(show, Sorted(item.inputs)) + ProvisionParts(show, Sorted(item.provisions)))
  }

  /** `show` writes an id as text, and `digest` stands for SHA-256. */
  datatype Encoding = Encoding(show: Id -> string, digest: string -> string)

  function RowFor(encoding: Encoding, item: Calculated): Row {
    Row(Quantise(item.value, SCALE), item.expression, encoding.digest(FingerprintText(encoding.show, item)),
        FactLinks(Sorted(item.inputs)) + ProvisionLinks(Sorted(item.provisions)))
  }

  /** The rows a run writes, in the order it writes them. */
  function Rows(encoding: Encoding, document: Option<Id>, project: Option<Id>, workItem: Option<string>, items: seq<Calculated>): seq<(Key, Row)> {
    if items == [] then []
    else
      var item := items[|items| - 1];
      Rows(encoding, document, project, workItem, items[..|items| - 1])
      + [(KeyFor(document, project, workItem, item), RowFor(encoding, item))]
  }

  /** What the caller gets back: the last row stored for each unscoped type. */
  function KeysByType(document: Option<Id>, project: Option<Id>, workItem: Option<string>, items: seq<Calculated>): map<string, Key> {
    if items == [] then map[]
    else
      var item := items[|items| - 1];
      KeysByType(document, project, workItem, items[..|items| - 1])[item.factType := KeyFor(document, project, workItem, item)]
  }

  class Store {
    const encoding: Encoding
    var derived: map<Key, Row>

    constructor (encoding: Encoding)
      ensures this.encoding == encoding && derived == map[]
    {
      this.encoding := encoding;
      derived := map[];
    }

    /** Rebuilds the input links of one row. */
    method LinksOf(item: Calculated) returns (links: seq<(string, Cited)>)
      ensures links == FactLinks(Sorted(item.inputs)) + ProvisionLinks(Sorted(item.provisions))
    {
      links := [];
      var facts, provisions := Sorted(item.inputs), Sorted(item.provisions);
      for i := 0 to |facts|
        invariant links == FactLinks(facts[..i])
      {
        assert facts[..i + 1][..i] == facts[..i];
        links := links + [(facts[i].0, CitedFact(facts[i].1))];
      }
      assert facts[..|facts|] == facts;
      for i := 0 to |provisions|
        invariant links == FactLinks(facts) + ProvisionLinks(provisions[..i])
      {
        assert provisions[..i + 1][..i] == provisions[..i];
        links := links + [("provision:" + provisions[i].0, CitedProvision(provisions[i].1))];
      }
      assert provisions[..|provisions|] == provisions;
    }

    method BuildRow(item: Calculated) returns (row: Row)
      ensures row == RowFor(encoding, item)
    {
      var links := LinksOf(item);
      row := Row(Quantise(item.value, SCALE), item.expression, encoding.digest(FingerprintText(encoding.show, item)), links);
    }

    method PersistDerivedFacts(calculated: seq<Calculated>, document: Option<Id>, project: Option<Id>, workItem: Option<string>)
      returns (result: Result)
      modifies this`derived
      ensures result.SubjectError? <==> document.None? == project.None?
      ensures result.SubjectError? ==> derived == old(derived)
      ensures result.Stored? ==> derived == PutAll(old(derived), Rows(encoding, document, project, workItem, calculated))
      ensures result.Stored? ==> result.keys == KeysByType(document, project, workItem, calculated)
    {
      hide KeyFor, RowFor, Rows, PutAll, KeysByType;
      if document.None? == project.None? { return SubjectError; }
      var keys: map<string, Key> := map[];
      NothingWritten(encoding, document, project, workItem, old(derived));
      assert calculated[..0] == [];
      for i := 0 to |calculated|
        invariant derived == PutAll(old(derived), Rows(encoding, document, project, workItem, calculated[..i]))
        invariant keys == KeysByType(document, project, workItem, calculated[..i])
      {
        OneMoreWritten(encoding, document, project, workItem, calculated, i, old(derived));
        var item := calculated[i];
        var key := KeyFor(document, project, workItem, item);
        var row := BuildRow(item);
        derived := derived[key := row];
        keys := keys[item.factType := key];
      }
      assert calculated[..|calculated|] == calculated;
      result := Stored(keys);
    }
  }

  lemma NothingWritten(encoding: Encoding, document: Option<Id>, project: Option<Id>, workItem: Option<string>, derived: map<Key, Row>)
    ensures PutAll(derived, Rows(encoding, document, project, workItem, [])) == derived
    ensures KeysByType(document, project, workItem, []) == map[]
  {
  }

  lemma OneMoreWritten(encoding: Encoding, document: Option<Id>, project: Option<Id>, workItem: Option<string>,
                       items: seq<Calculated>, i: nat, derived: map<Key, Row>)
    requires i < |items|
    ensures var key, row := KeyFor(document, project, workItem, items[i]), RowFor(encoding, items[i]);
            && PutAll(derived, Rows(encoding, document, project, workItem, items[..i + 1]))
               == PutAll(derived, Rows(encoding, document, project, workItem, items[..i]))[key := row]
            && KeysByType(document, project, workItem, items[..i + 1])
               == KeysByType(document, project, workItem, items[..i])[items[i].factType := key]
  {
    hide KeyFor, RowFor, PutAll;
    assert items[..i + 1][..i] == items[..i];
    PutAllOneMore(derived, Rows(encoding, document, project, workItem, items[..i]),
                  (KeyFor(document, project, workItem, items[i]), RowFor(encoding, items[i])));
  }

  // ---- What a run leaves behind ----

  lemma {:induction false} RowsAt(encoding: Encoding, document: Option<Id>, project: Option<Id>, workItem: Option<string>, items: seq<Calculated>)
    ensures |Rows(encoding, document, project, workItem, items)| == |items|
    ensures forall i :: 0 <= i < |items| ==>
              Rows(encoding, document, project, workItem, items)[i] == (KeyFor(document, project, workItem, items[i]), RowFor(encoding, items[i]))
  {
    hide RowFor, KeyFor;
    if items != [] { RowsAt(encoding, document, project, workItem, items[..|items| - 1]); }
  }

  /** One computed value for each type. */
  ghost predicate OnePerType(items: seq<Calculated>) {
    forall i, j :: 0 <= i < j < |items| ==> items[i].factType != items[j].factType
  }

  lemma RowsFunctional(encoding: Encoding, document: Option<Id>, project: Option<Id>, workItem: Option<string>, items: seq<Calculated>)
    requires OnePerType(items)
    ensures Functional(Rows(encoding, document, project, workItem, items))
  {
    RowsAt(encoding, document, project, workItem, items);
    var rows := Rows(encoding, document, project, workItem, items);
    forall i, j | 0 <= i < |rows| && 0 <= j < |rows| && rows[i].0 == rows[j].0 ensures i == j {
      var p := Prefix(workItem);
      assert (p + items[i].factType)[|p|..] == items[i].factType && (p + items[j].factType)[|p|..] == items[j].factType;
    }
  }

  /** Each value is stored within half a unit of the column's tenth decimal, and its links are exactly this
      run's inputs, whatever an earlier run had linked. */
  lemma StoredAsComputed(encoding: Encoding, derived: map<Key, Row>, document: Option<Id>, project: Option<Id>,
                         workItem: Option<string>, items: seq<Calculated>, i: nat)
    requires OnePerType(items) && i < |items|
    ensures var after := PutAll(derived, Rows(encoding, document, project, workItem, items));
            var key := KeyFor(document, project, workItem, items[i]);
            && key in after
            && after[key].value.exponent == -10
            && -Unit(-10) / 2.0 <= items[i].value - after[key].value.Value() <= Unit(-10) / 2.0
            && after[key].inputs == FactLinks(Sorted(items[i].inputs)) + ProvisionLinks(Sorted(items[i].provisions))
  {
    RowsAt(encoding, document, project, workItem, items);
    RowsFunctional(encoding, document, project, workItem, items);
    PutAllHolds(derived, Rows(encoding, document, project, workItem, items), i);
    QuantiseIsNearest(items[i].value, SCALE);
  }

  lemma {:induction false} FactLinksExact(entries: seq<(string, Id)>, role: string, cited: Cited)
    ensures (role, cited) in FactLinks(entries) <==> cited.CitedFact? && (role, cited.fact) in entries
  {
    if entries != [] {
      FactLinksExact(entries[..|entries| - 1], role, cited);
      assert entries == entries[..|entries| - 1] + [entries[|entries| - 1]];
    }
  }

  lemma {:induction false} ProvisionLinksExact(entries: seq<(string, Id)>, role: string, cited: Cited)
    ensures (role, cited) in ProvisionLinks(entries)
            <==> cited.CitedProvision? && "provision:" <= role && (role[10..], cited.provision) in entries
  {
    if entries != [] {
      ProvisionLinksExact(entries[..|entries| - 1], role, cited);
      var last := entries[|entries| - 1];
      assert entries == entries[..|entries| - 1] + [last];
      assert ("provision:" + last.0)[10..] == last.0;
      if "provision:" <= role { assert role == "provision:" + role[10..]; }
    }
  }

  /** The links a value is stored with: each input by its role, each provision by its role behind a prefix, and nothing
      else. */
  lemma LinksAreInputs(encoding: Encoding, item: Calculated, role: string, cited: Cited)
    requires DistinctBy(Role, item.inputs) && DistinctBy(Role, item.provisions)
    ensures (role, cited) in RowFor(encoding, item).inputs
            <==> match cited
                 case CitedFact(fact) => (role, fact) in item.inputs
                 case CitedProvision(provision) => "provision:" <= role && (role[10..], provision) in item.provisions
  {
    LessIsStrictTotalOrder();
    SortBySorts(Less, Role, item.inputs);
    SortBySorts(Less, Role, item.provisions);
    FactLinksExact(Sorted(item.inputs), role, cited);
    ProvisionLinksExact(Sorted(item.provisions), role, cited);
  }

  /** Computing the same values again changes nothing. */
  lemma RecomputingChangesNothing(encoding: Encoding, derived: map<Key, Row>, document: Option<Id>, project: Option<Id>,
                                  workItem: Option<string>, items: seq<Calculated>)
    requires OnePerType(items)
    ensures var rows := Rows(encoding, document, project, workItem, items);
            PutAll(PutAll(derived, rows), rows) == PutAll(derived, rows)
  {
    var rows := Rows(encoding, document, project, workItem, items);
    RowsFunctional(encoding, document, project, workItem, items);
    forall i | 0 <= i < |rows| ensures Holds(PutAll(derived, rows), rows[i]) { PutAllHolds(derived, rows, i); }
    PutAllPresent(PutAll(derived, rows), rows);
  }

  /** Rows of types no longer computed are not removed: a row outlives a run untouched exactly when it was there
      before and none of the values computed now has its type and version. */
  lemma LeftFromEarlierIff(encoding: Encoding, derived: map<Key, Row>, document: Option<Id>, project: Option<Id>,
                           workItem: Option<string>, items: seq<Calculated>, key: Key)
    ensures var after := PutAll(derived, Rows(encoding, document, project, workItem, items));
            && (key in after <==> key in derived || Computed(document, project, workItem, items, key))
            && (key in after && !Computed(document, project, workItem, items, key) ==> after[key] == derived[key])
            && (Computed(document, project, workItem, items, key) ==>
                  exists i :: 0 <= i < |items| && KeyFor(document, project, workItem, items[i]) == key && after[key] == RowFor(encoding, items[i]))
  {
    hide KeyFor, RowFor;
    var rows := Rows(encoding, document, project, workItem, items);
    RowsAt(encoding, document, project, workItem, items);
    if Computed(document, project, workItem, items, key) {
      var i :| 0 <= i < |items| && KeyFor(document, project, workItem, items[i]) == key;
      assert rows[i].0 == key;
      PutAllNamed(derived, rows, key);
    } else {
      PutAllElsewhere(derived, rows, key);
    }
  }

  ghost predicate Computed(document: Option<Id>, project: Option<Id>, workItem: Option<string>, items: seq<Calculated>, key: Key) {
    exists i :: 0 <= i < |items| && KeyFor(document, project, workItem, items[i]) == key
  }

  // ---- Items do not collide ----

  /** A type name contains no colon, so the last colon of a scoped type is the one that was added. */
  lemma {:induction false} ScopedTypesDiffer(a: Option<string>, x: string, b: Option<string>, y: string)
    requires ':' !in x && ':' !in y && Prefix(a) + x == Prefix(b) + y
    ensures a == b && x == y
  {
    var s, t := Prefix(a) + x, Prefix(b) + y;
    assert s[|s| - |x|..] == x && t[|t| - |y|..] == y;
    if |x| < |y| {
      ColonInside(a, x, b, y);
    } else if |y| < |x| {
      ColonInside(b, y, a, x);
    } else {
      assert s[..|s| - |x|] == Prefix(a) && t[..|t| - |y|] == Prefix(b);
      if a.Some? && b.Some? {
        assert Prefix(a)[..|Prefix(a)| - 1] == a.value && Prefix(b)[..|Prefix(b)| - 1] == b.value;
      }
    }
  }

  lemma ColonInside(a: Option<string>, x: string, b: Option<string>, y: string)
    requires Prefix(a) + x == Prefix(b) + y && |x| < |y|
    ensures ':' in y
  {
    var s := Prefix(a) + x;
    var k := |s| - |x| - 1;
    assert a.Some? && s[k] == Prefix(a)[k] == ':';
    assert (Prefix(b) + y)[k] == y[k - |Prefix(b)|];
  }

  /** Values of two work items of one project, or of an item and the project itself, never share a row. */
  lemma ItemsNeverCollide(document: Option<Id>, project: Option<Id>, a: Option<string>, x: Calculated, b: Option<string>, y: Calculated)
    requires ':' !in x.factType && ':' !in y.factType
    ensures KeyFor(document, project, a, x) == KeyFor(document, project, b, y) <==>
              a == b && x.factType == y.factType && x.calculationVersion == y.calculationVersion
  {
    if KeyFor(document, project, a, x) == KeyFor(document, project, b, y) {
      ScopedTypesDiffer(a, x.factType, b, y.factType);
    }
  }

  lemma OtherItemsAreUntouched(encoding: Encoding, derived: map<Key, Row>, document: Option<Id>, project: Option<Id>,
                               workItem: Option<string>, items: seq<Calculated>, other: Option<string>, item: Calculated)
    requires ':' !in item.factType && forall i :: 0 <= i < |items| ==> ':' !in items[i].factType
    requires other != workItem
    ensures var after := PutAll(derived, Rows(encoding, document, project, workItem, items));
            var key := KeyFor(document, project, other, item);
            (key in after <==> key in derived) && (key in derived ==> after[key] == derived[key])
  {
    var rows := Rows(encoding, document, project, workItem, items);
    RowsAt(encoding, document, project, workItem, items);
    forall i | 0 <= i < |rows| ensures rows[i].0 != KeyFor(document, project, other, item) {
      ItemsNeverCollide(document, project, workItem, items[i], other, item);
    }
    PutAllElsewhere(derived, rows, KeyFor(document, project, other, item));
  }

  /** Two values share a row exactly when they are of one document or project, one work item, one type and one
      version. */
  lemma SameRowIff(document: Option<Id>, project: Option<Id>, a: Option<string>, x: Calculated,
                   document': Option<Id>, project': Option<Id>, b: Option<string>, y: Calculated)
    requires ':' !in x.factType && ':' !in y.factType
    ensures KeyFor(document, project, a, x) == KeyFor(document', project', b, y)
            <==> && document == document' && project == project' && a == b
                 && x.factType == y.factType && x.calculationVersion == y.calculationVersion
  {
    if KeyFor(document, project, a, x) == KeyFor(document', project', b, y) { ScopedTypesDiffer(a, x.factType, b, y.factType); }
  }

  /** Storing values of one subject leaves every row of any other document or project as it was. */
  lemma OtherSubjectsAreUntouched(encoding: Encoding, derived: map<Key, Row>, document: Option<Id>, project: Option<Id>,
                                  workItem: Option<string>, items: seq<Calculated>, key: Key)
    requires key.document != document || key.project != project
    ensures var after := PutAll(derived, Rows(encoding, document, project, workItem, items));
            (key in after <==> key in derived) && (key in derived ==> after[key] == derived[key])
  {
    var rows := Rows(encoding, document, project, workItem, items);
    RowsAt(encoding, document, project, workItem, items);
    forall i | 0 <= i < |rows| ensures rows[i].0 != key { assert rows[i].0 == KeyFor(document, project, workItem, items[i]); }
    PutAllElsewhere(derived, rows, key);
  }

  /** What the caller is told: for each type the row of the last value of it, which is of the very document or project
      the call was given, under the type behind the item's number if there is one. */
  lemma {:induction false} ToldByType(document: Option<Id>, project: Option<Id>, workItem: Option<string>, items: seq<Calculated>, factType: string)
    returns (i: nat)
    requires factType in KeysByType(document, project, workItem, items)
    ensures i < |items| && IsLastOf(items, i, factType)
    ensures KeysByType(document, project, workItem, items)[factType]
            == Key(document, project, if workItem.None? then factType else workItem.value + ":" + factType, items[i].calculationVersion)
  {
    hide KeyFor;
    var n := |items| - 1;
    i := n;
    KeyIs(document, project, workItem, items[n]);
    if items[n].factType != factType {
      i := ToldByType(document, project, workItem, items[..n], factType);
      LastStays(items, i, factType);
    } else {
      LastIsLast(items, factType);
    }
  }

  lemma {:induction false} ToldIff(document: Option<Id>, project: Option<Id>, workItem: Option<string>, items: seq<Calculated>, factType: string)
    ensures factType in KeysByType(document, project, workItem, items) <==> exists item :: item in items && item.factType == factType
  {
    hide KeyFor;
    if items != [] {
      ToldIff(document, project, workItem, items[..|items| - 1], factType);
      assert items == items[..|items| - 1] + [items[|items| - 1]];
    }
  }

  lemma KeyIs(document: Option<Id>, project: Option<Id>, workItem: Option<string>, item: Calculated)
    ensures KeyFor(document, project, workItem, item)
            == Key(document, project, if workItem.None? then item.factType else workItem.value + ":" + item.factType, item.calculationVersion)
  {
    assert "" + item.factType == item.factType;
  }

  lemma LastIsLast(items: seq<Calculated>, factType: string)
    requires items != [] && items[|items| - 1].factType == factType
    ensures IsLastOf(items, |items| - 1, factType)
  {
  }

  lemma LastStays(items: seq<Calculated>, i: nat, factType: string)
    requires items != [] && i < |items| - 1 && items[|items| - 1].factType != factType && IsLastOf(items[..|items| - 1], i, factType)
    ensures IsLastOf(items, i, factType) && items[i] == items[..|items| - 1][i]
  {
  }

  /** Each value is in the table under its subject, and the row says how it was computed and from what. */
  lemma StoredUnderItsSubject(encoding: Encoding, derived: map<Key, Row>, document: Option<Id>, project: Option<Id>,
                              workItem: Option<string>, items: seq<Calculated>, i: nat)
    requires OnePerType(items) && i < |items|
    ensures var after := PutAll(derived, Rows(encoding, document, project, workItem, items));
            var key := Key(document, project, if workItem.None? then items[i].factType else workItem.value + ":" + items[i].factType,
                           items[i].calculationVersion);
            && key in after && after[key].expression == items[i].expression
            && after[key].fingerprint == encoding.digest(FingerprintText(encoding.show, items[i]))
  {
    hide PutAll, Rows, FingerprintText, FactLinks, ProvisionLinks, Quantise;
    RowsAt(encoding, document, project, workItem, items);
    RowsFunctional(encoding, document, project, workItem, items);
    PutAllHolds(derived, Rows(encoding, document, project, workItem, items), i);
    assert KeyFor(document, project, workItem, items[i]).scopedType == if workItem.None? then items[i].factType else workItem.value + ":" + items[i].factType by {
      assert "" + items[i].factType == items[i].factType;
    }
  }

  ghost predicate IsLastOf(items: seq<Calculated>, i: nat, factType: string) {
    i < |items| && items[i].factType == factType && forall j :: i < j < |items| ==> items[j].factType != factType
  }

  // ---- What the fingerprint identifies ----

  predicate IsBar(c: char) {
    c == '|'
  }

  /** Role names are plain identifiers, possibly numbered; ids are written without punctuation. */
  ghost predicate PlainRole(role: string) {
    '|' !in role && '=' !in role && !("provision:" <= role)
  }

  ghost predicate PlainIds(show: Id -> string) {
    && (forall id :: '|' !in show(id) && '=' !in show(id))
    && (forall a, b :: show(a) == show(b) ==> a == b)
  }

  ghost predicate PlainEntries(entries: seq<(string, Id)>) {
    forall i :: 0 <= i < |entries| ==> PlainRole(entries[i].0)
  }

  lemma {:induction false} FactPartsAt(show: Id -> string, entries: seq<(string, Id)>)
    ensures |FactParts(show, entries)| == |entries|
    ensures forall i :: 0 <= i < |entries| ==> FactParts(show, entries)[i] == entries[i].0 + "=" + show(entries[i].1)
  {
    if entries != [] { FactPartsAt(show, entries[..|entries| - 1]); }
  }

  lemma {:induction false} ProvisionPartsAt(show: Id -> string, entries: seq<(string, Id)>)
    ensures |ProvisionParts(show, entries)| == |entries|
    ensures forall i :: 0 <= i < |entries| ==> ProvisionParts(show, entries)[i] == "provision:" + entries[i].0 + "=" + show(entries[i].1)
  {
    if entries != [] { ProvisionPartsAt(show, entries[..|entries| - 1]); }
  }

  lemma SignInside(a: string, x: string, b: string, y: string)
    requires a + "=" + x == b + "=" + y && |a| < |b|
    ensures '=' in b
  {
    assert (a + "=" + x)[|a|] == '=';
    assert (b + "=" + y)[|a|] == b[|a|];
  }

  /** Cut at its only equals sign, a part gives back its role and its id. */
  lemma PartInjective(a: string, x: string, b: string, y: string)
    requires '=' !in a && '=' !in b && a + "=" + x == b + "=" + y
    ensures a == b && x == y
  {
    var s, t := a + "=" + x, b + "=" + y;
    if |a| < |b| { SignInside(a, x, b, y); }
    if |b| < |a| { SignInside(b, y, a, x); }
    assert s[..|a|] == a && t[..|b|] == b && s[|a| + 1..] == x && t[|b| + 1..] == y;
  }

  lemma FactPartsInjective(show: Id -> string, a: seq<(string, Id)>, b: seq<(string, Id)>)
    requires PlainIds(show) && PlainEntries(a) && PlainEntries(b) && FactParts(show, a) == FactParts(show, b)
    ensures a == b
  {
    FactPartsAt(show, a);
    FactPartsAt(show, b);
    forall i | 0 <= i < |a| ensures a[i] == b[i] {
      assert FactParts(show, a)[i] == FactParts(show, b)[i];
      PartInjective(a[i].0, show(a[i].1), b[i].0, show(b[i].1));
    }
  }

  lemma ProvisionPartsInjective(show: Id -> string, a: seq<(string, Id)>, b: seq<(string, Id)>)
    requires PlainIds(show) && PlainEntries(a) && PlainEntries(b) && ProvisionParts(show, a) == ProvisionParts(show, b)
    ensures a == b
  {
    ProvisionPartsAt(show, a);
    ProvisionPartsAt(show, b);
    var p := "provision:";
    forall i | 0 <= i < |a| ensures a[i] == b[i] {
      assert ProvisionParts(show, a)[i] == ProvisionParts(show, b)[i];
      PartInjective(p + a[i].0, show(a[i].1), p + b[i].0, show(b[i].1));
      assert (p + a[i].0)[|p|..] == a[i].0 && (p + b[i].0)[|p|..] == b[i].0;
    }
  }

  const PROVISION := "provision:"

  /** A part about a fact never looks like a part about a provision. */
  lemma FactPartIsPlain(role: string, id: string)
    requires PlainRole(role)
    ensures !(PROVISION <= role + "=" + id)
  {
    var part, n := role + "=" + id, |PROVISION|;
    assert '=' !in PROVISION;
    if |role| < n {
      assert part[|role|] == '=' != PROVISION[|role|];
    } else {
      assert part[..n] == role[..n];
    }
  }

  ghost predicate Marked(part: string) {
    PROVISION <= part
  }

  lemma SplitAtMark(a: seq<string>, p: seq<string>, b: seq<string>, q: seq<string>)
    requires a + p == b + q
    requires forall part :: part in a || part in b ==> !Marked(part)
    requires forall part :: part in p || part in q ==> Marked(part)
    ensures a == b && p == q
  {
    if |a| < |b| { MarkedInside(a, p, b, q); }
    if |b| < |a| { MarkedInside(b, q, a, p); }
    assert (a + p)[..|a|] == a && (b + q)[..|b|] == b && (a + p)[|a|..] == p && (b + q)[|b|..] == q;
  }

  lemma MarkedInside(a: seq<string>, p: seq<string>, b: seq<string>, q: seq<string>)
    requires a + p == b + q && |a| < |b|
    requires forall part :: part in p ==> Marked(part)
    ensures exists part :: part in b && Marked(part)
  {
    assert p[0] in p && p[0] == (a + p)[|a|] == (b + q)[|a|] == b[|a|];
  }

  lemma PartsAreMarkedAndWords(show: Id -> string, item: Calculated)
    requires PlainIds(show) && PlainEntries(Sorted(item.inputs)) && PlainEntries(Sorted(item.provisions))
    ensures forall part :: part in FactParts(show, Sorted(item.inputs)) ==> !Marked(part)
    ensures forall part :: part in ProvisionParts(show, Sorted(item.provisions)) ==> Marked(part)
    ensures AreWords(IsBar, FactParts(show, Sorted(item.inputs)) + ProvisionParts(show, Sorted(item.provisions)))
  {
    var inputs, provisions := Sorted(item.inputs), Sorted(item.provisions);
    FactPartsAt(show, inputs);
    ProvisionPartsAt(show, provisions);
    forall i | 0 <= i < |inputs|
      ensures !Marked(FactParts(show, inputs)[i]) && IsWord(IsBar, FactParts(show, inputs)[i])
    {
      FactPartIsPlain(inputs[i].0, show(inputs[i].1));
    }
    forall i | 0 <= i < |provisions|
      ensures Marked(ProvisionParts(show, provisions)[i]) && IsWord(IsBar, ProvisionParts(show, provisions)[i])
    {
    }
  }

  ghost predicate PlainRoles(item: Calculated) {
    && DistinctBy(Role, item.inputs) && DistinctBy(Role, item.provisions)
    && (forall entry :: entry in item.inputs || entry in item.provisions ==> PlainRole(entry.0))
  }

  lemma SortedKeepsEntries(entries: seq<(string, Id)>)
    requires DistinctBy(Role, entries)
    ensures SortedBy(Less, Role, Sorted(entries))
    ensures forall entry :: entry in Sorted(entries) <==> entry in entries
  {
    LessIsStrictTotalOrder();
    SortBySorts(Less, Role, entries);
  }

  lemma SortedEqualIff(a: seq<(string, Id)>, b: seq<(string, Id)>)
    requires DistinctBy(Role, a) && DistinctBy(Role, b)
    ensures Sorted(a) == Sorted(b) <==> (forall entry :: entry in a <==> entry in b)
  {
    SortedKeepsEntries(a);
    SortedKeepsEntries(b);
    if forall entry :: entry in a <==> entry in b {
      LessIsStrictTotalOrder();
      SortedByUnique(Less, Role, Sorted(a), Sorted(b));
    }
  }

  /** Two calculations have one fingerprint exactly when the same facts and the same provisions filled the
      same roles: swapping two inputs, or re-reading the clause that was applied, shows. */
  lemma FingerprintIffSameInputs(encoding: Encoding, a: Calculated, b: Calculated)
    requires PlainIds(encoding.show) && (forall x, y :: encoding.digest(x) == encoding.digest(y) ==> x == y)
    requires PlainRoles(a) && PlainRoles(b)
    ensures RowFor(encoding, a).fingerprint == RowFor(encoding, b).fingerprint <==>
              (forall entry :: entry in a.inputs <==> entry in b.inputs)
              && (forall entry :: entry in a.provisions <==> entry in b.provisions)
  {
    SortedEqualIff(a.inputs, b.inputs);
    SortedEqualIff(a.provisions, b.provisions);
    if RowFor(encoding, a).fingerprint == RowFor(encoding, b).fingerprint { TextInjective(encoding.show, a, b); }
  }

  lemma TextInjective(show: Id -> string, a: Calculated, b: Calculated)
    requires PlainIds(show) && PlainRoles(a) && PlainRoles(b) && FingerprintText(show, a) == FingerprintText(show, b)
    ensures Sorted(a.inputs) == Sorted(b.inputs) && Sorted(a.provisions) == Sorted(b.provisions)
  {
    SortedKeepsEntries(a.inputs);
    SortedKeepsEntries(b.inputs);
    SortedKeepsEntries(a.provisions);
    SortedKeepsEntries(b.provisions);
    PartsAreMarkedAndWords(show, a);
    PartsAreMarkedAndWords(show, b);
    var x, p := FactParts(show, Sorted(a.inputs)), ProvisionParts(show, Sorted(a.provisions));
    var y, q := FactParts(show, Sorted(b.inputs)), ProvisionParts(show, Sorted(b.provisions));
    JoinInjective(IsBar, '|', x + p, y + q);
    SplitAtMark(x, p, y, q);
    FactPartsInjective(show, Sorted(a.inputs), Sorted(b.inputs));
    ProvisionPartsInjective(show, Sorted(a.provisions), Sorted(b.provisions));
  }
}
