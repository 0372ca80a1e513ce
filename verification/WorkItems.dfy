/** Attaching the facts of one project to items of work, by the item number their row states. */
module WorkItems {
  import opened Options
  import opened Keys
  import opened Ordering
  import opened Tables

  type Id = nat

  datatype FactType = ItemIdentifier | ItemDescription | Other

  datatype Fact = Fact(id: Id, document: Id, sheetRow: Option<nat>, factType: FactType, literal: string, unit: Option<string>)

  datatype Match = Exact | Normalised

  datatype WorkItem = WorkItem(identifier: string, description: Option<string>, unit: Option<string>, matchedBy: Match)

  /** A work item belongs to one project and has one normalised identifier there. */
  datatype ItemKey = ItemKey(project: Id, normalised: string)

  datatype LinkOutcome = LinkOutcome(created: int, linked: nat, withoutItem: nat)

  // ---- What each fact is anchored to ----

  /** The identifier that claims each (document, row): the last one when a row states several. */
  function Identifiers(facts: seq<Fact>): map<(Id, nat), Fact> {
    if facts == [] then map[]
    else
      var claimed, fact := Identifiers(facts[..|facts| - 1]), facts[|facts| - 1];
      if fact.factType == ItemIdentifier && fact.sheetRow.Some? then claimed[(fact.document, fact.sheetRow.value) := fact] else claimed
  }

  function AnchorOf(claimed: map<(Id, nat), Fact>, fact: Fact): Option<Fact> {
    if fact.sheetRow.Some? && (fact.document, fact.sheetRow.value) in claimed
    then Some(claimed[(fact.document, fact.sheetRow.value)])
    else None
  }

  predicate Anchored(claimed: map<(Id, nat), Fact>, fact: Fact) {
    AnchorOf(claimed, fact).Some?
  }

  /** How the item number is spelled on the fact's row. */
  function Spelling(claimed: map<(Id, nat), Fact>, fact: Fact): string
    requires Anchored(claimed, fact)
  {
    AnchorOf(claimed, fact).value.literal
  }

  function KeyOf(up: char -> string, claimed: map<(Id, nat), Fact>, fact: Fact): string
    requires Anchored(claimed, fact)
  {
    NormaliseItem(up, Spelling(claimed, fact))
  }

  // ---- Grouping, one fact after another ----

  function Members(up: char -> string, claimed: map<(Id, nat), Fact>, facts: seq<Fact>, key: string): seq<Fact> {
    if facts == [] then []
    else
      var fact := facts[|facts| - 1];
      Members(up, claimed, facts[..|facts| - 1], key)
      + if Anchored(claimed, fact) && KeyOf(up, claimed, fact) == key then [fact] else []
  }

  function KeysSeen(up: char -> string, claimed: map<(Id, nat), Fact>, facts: seq<Fact>): seq<string> {
    if facts == [] then []
    else
      var front, fact := facts[..|facts| - 1], facts[|facts| - 1];
      KeysSeen(up, claimed, front)
      + if Anchored(claimed, fact) && Members(up, claimed, front, KeyOf(up, claimed, fact)) == []
        then [KeyOf(up, claimed, fact)] else []
  }

  function Unattached(claimed: map<(Id, nat), Fact>, facts: seq<Fact>): nat {
    if facts == [] then 0
    else Unattached(claimed, facts[..|facts| - 1]) + if Anchored(claimed, facts[|facts| - 1]) then 0 else 1
  }

  /** The first description among the members. */
  function Description(members: seq<Fact>): Option<string> {
    if members == [] then None
    else
      var earlier, fact := Description(members[..|members| - 1]), members[|members| - 1];
      if earlier.None? && fact.factType == ItemDescription then Some(fact.literal) else earlier
  }

  predicate StatesUnit(fact: Fact) {
    fact.unit.Some? && fact.unit.value != ""
  }

  /** The first unit stated by a member. */
  function Unit(members: seq<Fact>): Option<string> {
    if members == [] then None
    else
      var earlier, fact := Unit(members[..|members| - 1]), members[|members| - 1];
      if earlier.None? && StatesUnit(fact) then fact.unit else earlier
  }

  function Spellings(claimed: map<(Id, nat), Fact>, members: seq<Fact>): set<string> {
    set fact | fact in members && Anchored(claimed, fact) :: Spelling(claimed, fact)
  }

  function MatchOf(claimed: map<(Id, nat), Fact>, members: seq<Fact>): Match {
    if |Spellings(claimed, members)| == 1 then Exact else Normalised
  }

  /** The item a group calls for. */
  function ItemFor(claimed: map<(Id, nat), Fact>, members: seq<Fact>): WorkItem
    requires members != [] && Anchored(claimed, members[0])
  {
    WorkItem(Spelling(claimed, members[0]), Description(members), Unit(members), MatchOf(claimed, members))
  }

  // ---- What a pass does to the store ----

  datatype Stored = Stored(items: map<ItemKey, WorkItem>, links: map<Id, ItemKey>)

  datatype Group = Group(normalised: string, item: WorkItem, members: seq<Fact>)

  /** A new item is created; an existing one only gains a description it lacked. */
  function Enter(items: map<ItemKey, WorkItem>, key: ItemKey, item: WorkItem): map<ItemKey, WorkItem> {
    if key !in items then items[key := item]
    else if items[key].description.None? && item.description.Some? then items[key := items[key].(description := item.description)]
    else items
  }

  function EnterAll(items: map<ItemKey, WorkItem>, project: Id, plan: seq<Group>): map<ItemKey, WorkItem> {
    if plan == [] then items
    else
      var group := plan[|plan| - 1];
      Enter(EnterAll(items, project, plan[..|plan| - 1]), ItemKey(project, group.normalised), group.item)
  }

  /** The first `k` members of a group point at its item. */
  function MemberLinks(key: ItemKey, members: seq<Fact>): seq<(Id, ItemKey)> {
    if members == [] then [] else MemberLinks(key, members[..|members| - 1]) + [(members[|members| - 1].id, key)]
  }

  function Links(project: Id, plan: seq<Group>): seq<(Id, ItemKey)> {
    if plan == [] then []
    else
      var group := plan[|plan| - 1];
      Links(project, plan[..|plan| - 1]) + MemberLinks(ItemKey(project, group.normalised), group.members)
  }

  function Linked(stored: Stored, project: Id, plan: seq<Group>): Stored {
    Stored(EnterAll(stored.items, project, plan), PutAll(stored.links, Links(project, plan)))
  }

  function GroupOf(up: char -> string, claimed: map<(Id, nat), Fact>, facts: seq<Fact>, key: string): Group
    requires Members(up, claimed, facts, key) != []
  {
    var members := Members(up, claimed, facts, key);
    MembersExact(up, claimed, facts, key, members[0]);
    Group(key, ItemFor(claimed, members), members)
  }

  lemma {:induction false} MembersExact(up: char -> string, claimed: map<(Id, nat), Fact>, facts: seq<Fact>, key: string, fact: Fact)
    ensures fact in Members(up, claimed, facts, key) <==>
              fact in facts && Anchored(claimed, fact) && KeyOf(up, claimed, fact) == key
  {
    if facts != [] {
      MembersExact(up, claimed, facts[..|facts| - 1], key, fact);
      assert facts == facts[..|facts| - 1] + [facts[|facts| - 1]];
    }
  }

  function GroupsOf(up: char -> string, claimed: map<(Id, nat), Fact>, facts: seq<Fact>, keys: seq<string>): seq<Group>
    requires forall key :: key in keys ==> Members(up, claimed, facts, key) != []
  {
    if keys == [] then []
    else GroupsOf(up, claimed, facts, keys[..|keys| - 1]) + [GroupOf(up, claimed, facts, keys[|keys| - 1])]
  }

  function Self<T>(x: T): T {
    x
  }

  function SortedKeys(up: char -> string, claimed: map<(Id, nat), Fact>, facts: seq<Fact>): (keys: seq<string>)
    ensures forall key :: key in keys ==> Members(up, claimed, facts, key) != []
  {
    assert forall key :: key in SortBy(Less, Self, KeysSeen(up, claimed, facts)) ==> Members(up, claimed, facts, key) != [] by {
      SortedKeysExact(up, claimed, facts);
    }
    SortBy(Less, Self, KeysSeen(up, claimed, facts))
  }

  lemma SortedKeysExact(up: char -> string, claimed: map<(Id, nat), Fact>, facts: seq<Fact>)
    ensures forall key :: key in SortBy(Less, Self, KeysSeen(up, claimed, facts)) <==> Members(up, claimed, facts, key) != []
    ensures NoRepeats(SortBy(Less, Self, KeysSeen(up, claimed, facts)))
  {
    KeysSeenOnce(up, claimed, facts);
    LessIsStrictTotalOrder();
    SortBySorts(Less, Self, KeysSeen(up, claimed, facts));
    forall key ensures key in KeysSeen(up, claimed, facts) <==> Members(up, claimed, facts, key) != [] {
      KeysSeenExact(up, claimed, facts, key);
    }
  }

  lemma {:induction false} KeysSeenExact(up: char -> string, claimed: map<(Id, nat), Fact>, facts: seq<Fact>, key: string)
    ensures key in KeysSeen(up, claimed, facts) <==> Members(up, claimed, facts, key) != []
  {
    if facts != [] { KeysSeenExact(up, claimed, facts[..|facts| - 1], key); }
  }

  lemma {:induction false} KeysSeenOnce(up: char -> string, claimed: map<(Id, nat), Fact>, facts: seq<Fact>)
    ensures NoRepeats(KeysSeen(up, claimed, facts))
  {
    if facts != [] {
      var front, fact := facts[..|facts| - 1], facts[|facts| - 1];
      KeysSeenOnce(up, claimed, front);
      if Anchored(claimed, fact) { KeysSeenExact(up, claimed, front, KeyOf(up, claimed, fact)); }
    }
  }

  function Plan(up: char -> string, facts: seq<Fact>): seq<Group> {
    GroupsOf(up, Identifiers(facts), facts, SortedKeys(up, Identifiers(facts), facts))
  }

  // ---- The pass ----

  method FindIdentifiers(facts: seq<Fact>) returns (claimed: map<(Id, nat), Fact>)
    ensures claimed == Identifiers(facts)
  {
    claimed := map[];
    for i := 0 to |facts|
      invariant claimed == Identifiers(facts[..i])
    {
      assert facts[..i + 1][..i] == facts[..i];
      var fact := facts[i];
      if fact.factType == ItemIdentifier && fact.sheetRow.Some? {
        claimed := claimed[(fact.document, fact.sheetRow.value) := fact];
      }
    }
    assert facts[..|facts|] == facts;
  }

  /** The dictionaries the grouping loop fills. */
  datatype Tally = Tally(
    keys: seq<string>,
    grouped: map<string, seq<Fact>>,
    originals: map<string, string>,
    descriptions: map<string, string>,
    units: map<string, string>,
    unattached: nat)

  ghost predicate TalliedKey(up: char -> string, claimed: map<(Id, nat), Fact>, facts: seq<Fact>, tally: Tally, key: string) {
    var members := Members(up, claimed, facts, key);
    if members == [] then
      key !in tally.grouped && key !in tally.originals && key !in tally.descriptions && key !in tally.units
    else
      && key in tally.grouped && tally.grouped[key] == members
      && key in tally.originals && Anchored(claimed, members[0]) && tally.originals[key] == Spelling(claimed, members[0])
      && Lookup(tally.descriptions, key) == Description(members)
      && Lookup(tally.units, key) == Unit(members)
  }

  function Lookup(table: map<string, string>, key: string): Option<string> {
    if key in table then Some(table[key]) else None
  }

  ghost predicate Tallied(up: char -> string, claimed: map<(Id, nat), Fact>, facts: seq<Fact>, tally: Tally) {
    && tally.keys == KeysSeen(up, claimed, facts)
    && tally.unattached == Unattached(claimed, facts)
    && forall key :: TalliedKey(up, claimed, facts, tally, key)
  }

  /** One fact joining the group of its item number. */
  function Claim(tally: Tally, key: string, spelling: string, fact: Fact): Tally {
    Tally(
      if key in tally.grouped then tally.keys else tally.keys + [key],
      tally.grouped[key := (if key in tally.grouped then tally.grouped[key] else []) + [fact]],
      SetDefault(tally.originals, key, spelling),
      if fact.factType == ItemDescription then SetDefault(tally.descriptions, key, fact.literal) else tally.descriptions,
      if StatesUnit(fact) then SetDefault(tally.units, key, fact.unit.value) else tally.units,
      tally.unattached)
  }

  function SetDefault(table: map<string, string>, key: string, value: string): map<string, string> {
    if key in table then table else table[key := value]
  }

  lemma MembersOneMore(up: char -> string, claimed: map<(Id, nat), Fact>, before: seq<Fact>, fact: Fact)
    requires Anchored(claimed, fact)
    ensures var key := KeyOf(up, claimed, fact);
            Members(up, claimed, before + [fact], key) == Members(up, claimed, before, key) + [fact]
  {
    assert (before + [fact])[..|before|] == before;
  }

  lemma OneMoreMember(members: seq<Fact>, fact: Fact)
    ensures var more := members + [fact];
            && Description(more) == (if Description(members).None? && fact.factType == ItemDescription then Some(fact.literal) else Description(members))
            && Unit(more) == (if Unit(members).None? && StatesUnit(fact) then fact.unit else Unit(members))
  {
    assert (members + [fact])[..|members|] == members;
  }

  lemma ClaimGrows(up: char -> string, claimed: map<(Id, nat), Fact>, before: seq<Fact>, fact: Fact, tally: Tally)
    requires Anchored(claimed, fact) && TalliedKey(up, claimed, before, tally, KeyOf(up, claimed, fact))
    ensures var key := KeyOf(up, claimed, fact);
            TalliedKey(up, claimed, before + [fact], Claim(tally, key, Spelling(claimed, fact), fact), key)
  {
    hide Members, Description, Unit;
    var members := Members(up, claimed, before, KeyOf(up, claimed, fact));
    MembersOneMore(up, claimed, before, fact);
    OneMoreMember(members, fact);
    NothingStated();
  }

  lemma NothingStated()
    ensures Description([]).None? && Unit([]).None?
  {
  }

  lemma ClaimKeepsOthers(up: char -> string, claimed: map<(Id, nat), Fact>, before: seq<Fact>, fact: Fact, tally: Tally, key: string)
    requires Anchored(claimed, fact) && TalliedKey(up, claimed, before, tally, key) && key != KeyOf(up, claimed, fact)
    ensures TalliedKey(up, claimed, before + [fact], Claim(tally, KeyOf(up, claimed, fact), Spelling(claimed, fact), fact), key)
  {
    assert (before + [fact])[..|before|] == before;
  }

  lemma ClaimKeepsTallied(up: char -> string, claimed: map<(Id, nat), Fact>, before: seq<Fact>, fact: Fact, tally: Tally)
    requires Anchored(claimed, fact) && Tallied(up, claimed, before, tally)
    ensures Tallied(up, claimed, before + [fact], Claim(tally, KeyOf(up, claimed, fact), Spelling(claimed, fact), fact))
  {
    var own := KeyOf(up, claimed, fact);
    assert (before + [fact])[..|before|] == before;
    assert TalliedKey(up, claimed, before, tally, own);
    var now, next := before + [fact], Claim(tally, own, Spelling(claimed, fact), fact);
    forall key ensures TalliedKey(up, claimed, now, next, key) {
      assert TalliedKey(up, claimed, before, tally, key);
      if key == own { ClaimGrows(up, claimed, before, fact, tally); } else { ClaimKeepsOthers(up, claimed, before, fact, tally, key); }
    }
  }

  lemma SkipKeepsTallied(up: char -> string, claimed: map<(Id, nat), Fact>, before: seq<Fact>, fact: Fact, tally: Tally)
    requires !Anchored(claimed, fact) && Tallied(up, claimed, before, tally)
    ensures Tallied(up, claimed, before + [fact], tally.(unattached := tally.unattached + 1))
  {
    var now, next := before + [fact], tally.(unattached := tally.unattached + 1);
    assert now[..|before|] == before;
    forall key ensures TalliedKey(up, claimed, now, next, key) { assert TalliedKey(up, claimed, before, tally, key); }
  }

  method TallyAll(up: char -> string, claimed: map<(Id, nat), Fact>, facts: seq<Fact>) returns (tally: Tally)
    ensures Tallied(up, claimed, facts, tally)
  {
    tally := Tally([], map[], map[], map[], map[], 0);
    for i := 0 to |facts|
      invariant Tallied(up, claimed, facts[..i], tally)
    {
      assert facts[..i + 1] == facts[..i] + [facts[i]];
      var fact := facts[i];
      if Anchored(claimed, fact) {
        ClaimKeepsTallied(up, claimed, facts[..i], fact, tally);
        tally := Claim(tally, KeyOf(up, claimed, fact), Spelling(claimed, fact), fact);
      } else {
        SkipKeepsTallied(up, claimed, facts[..i], fact, tally);
        tally := tally.(unattached := tally.unattached + 1);
      }
    }
    assert facts[..|facts|] == facts;
  }

  class Database {
    var items: map<ItemKey, WorkItem>
    var links: map<Id, ItemKey>

    ghost function View(): Stored
      reads this
    {
      Stored(items, links)
    }

    method PointAt(key: ItemKey, members: seq<Fact>) returns (linked: nat)
      modifies this`links
      ensures links == PutAll(old(links), MemberLinks(key, members))
      ensures linked == Changes(old(links), MemberLinks(key, members))
    {
      linked := 0;
      for i := 0 to |members|
        invariant links == PutAll(old(links), MemberLinks(key, members[..i]))
        invariant linked == Changes(old(links), MemberLinks(key, members[..i]))
      {
        assert members[..i + 1][..i] == members[..i];
        ghost var rows, row := MemberLinks(key, members[..i]), (members[i].id, key);
        assert (rows + [row])[..|rows|] == rows;
        if !(members[i].id in links && links[members[i].id] == key) {
          links := links[members[i].id := key];
          linked := linked + 1;
        }
      }
      assert members[..|members|] == members;
    }

    method EnterItem(key: ItemKey, item: WorkItem) returns (created: int)
      modifies this`items
      ensures items == Enter(old(items), key, item)
      ensures created == |items| - |old(items)|
    {
      created := 0;
      if key !in items {
        items := items[key := item];
        created := 1;
      } else if items[key].description.None? && item.description.Some? {
        items := items[key := items[key].(description := item.description)];
      }
    }

    method ApplyPlan(project: Id, plan: seq<Group>) returns (created: int, linked: nat)
      modifies this
      ensures View() == Linked(old(View()), project, plan)
      ensures created == |items| - |old(items)|
      ensures linked == Changes(old(links), Links(project, plan))
    {
      created, linked := 0, 0;
      for i := 0 to |plan|
        invariant View() == Linked(old(View()), project, plan[..i])
        invariant created == |items| - |old(items)|
        invariant linked == Changes(old(links), Links(project, plan[..i]))
      {
        assert plan[..i + 1][..i] == plan[..i];
        var key := ItemKey(project, plan[i].normalised);
        PutAllSum(old(links), Links(project, plan[..i]), MemberLinks(key, plan[i].members));
        var entered := EnterItem(key, plan[i].item);
        var pointed := PointAt(key, plan[i].members);
        created, linked := created + entered, linked + pointed;
      }
      assert plan[..|plan|] == plan;
    }

    /** `facts` are those of the project's documents, in the order the query returns them. */
    method LinkWorkItems(up: char -> string, project: Id, facts: seq<Fact>) returns (outcome: LinkOutcome)
      modifies this
      ensures View() == Linked(old(View()), project, Plan(up, facts))
      ensures outcome == Report(up, old(View()), project, facts)
    {
      var claimed := FindIdentifiers(facts);
      var tally := TallyAll(up, claimed, facts);
      assert SortBy(Less, Self, tally.keys) == SortedKeys(up, claimed, facts);
      var plan := PlanFrom(up, claimed, facts, tally, SortBy(Less, Self, tally.keys));
      var created, linked := ApplyPlan(project, plan);
      outcome := LinkOutcome(created, linked, tally.unattached);
    }
  }

  method PlanFrom(up: char -> string, claimed: map<(Id, nat), Fact>, ghost facts: seq<Fact>, tally: Tally, keys: seq<string>) returns (plan: seq<Group>)
    requires Tallied(up, claimed, facts, tally)
    requires forall key :: key in keys ==> Members(up, claimed, facts, key) != []
    ensures plan == GroupsOf(up, claimed, facts, keys)
  {
    plan := [];
    for i := 0 to |keys|
      invariant plan == GroupsOf(up, claimed, facts, keys[..i])
    {
      assert keys[..i + 1][..i] == keys[..i] && keys[i] in keys;
      var key := keys[i];
      assert TalliedKey(up, claimed, facts, tally, key);
      var members := tally.grouped[key];
      var item := WorkItem(tally.originals[key], Lookup(tally.descriptions, key), Lookup(tally.units, key), MatchOf(claimed, members));
      plan := plan + [Group(key, item, members)];
    }
    assert keys[..|keys|] == keys;
  }

  // ---- What a group takes from its members ----

  /** A row is claimed by its last item number. */
  lemma {:induction false} ClaimedByLast(facts: seq<Fact>, row: (Id, nat))
    ensures row in Identifiers(facts) <==> exists i: nat :: i < |facts| && ClaimsRow(facts[i], row)
    ensures row in Identifiers(facts) ==>
              exists i: nat :: i < |facts| && ClaimsRow(facts[i], row) && facts[i] == Identifiers(facts)[row]
                               && forall k :: i < k < |facts| ==> !ClaimsRow(facts[k], row)
  {
    if facts != [] {
      var front, last := facts[..|facts| - 1], facts[|facts| - 1];
      ClaimedByLast(front, row);
      assert forall i :: 0 <= i < |front| ==> front[i] == facts[i];
      if ClaimsRow(last, row) {
        assert facts[|front|] == last;
      } else if row in Identifiers(front) {
        var i: nat :| i < |front| && ClaimsRow(front[i], row) && front[i] == Identifiers(front)[row]
                      && forall k :: i < k < |front| ==> !ClaimsRow(front[k], row);
        assert ClaimsRow(facts[i], row) && facts[i] == Identifiers(facts)[row];
      }
    }
  }

  predicate ClaimsRow(fact: Fact, row: (Id, nat)) {
    fact.factType == ItemIdentifier && fact.sheetRow == Some(row.1) && fact.document == row.0
  }

  /** The description is the first one a member gives, and the unit the first one a member states. */
  lemma {:induction false} FirstGiven(members: seq<Fact>)
    ensures match Description(members)
            case None => forall fact :: fact in members ==> fact.factType != ItemDescription
            case Some(text) => exists i: nat :: i < |members| && members[i].factType == ItemDescription && members[i].literal == text
                                 && forall k :: 0 <= k < i ==> members[k].factType != ItemDescription
    ensures match Unit(members)
            case None => forall fact :: fact in members ==> !StatesUnit(fact)
            case Some(unit) => exists i: nat :: i < |members| && StatesUnit(members[i]) && members[i].unit == Some(unit)
                                 && forall k :: 0 <= k < i ==> !StatesUnit(members[k])
  {
    if members != [] {
      var front := members[..|members| - 1];
      FirstGiven(front);
      assert members == front + [members[|members| - 1]];
      assert forall i :: 0 <= i < |front| ==> front[i] == members[i];
      assert members[|front|] == members[|members| - 1];
    }
  }

  /** A match is exact exactly when every member's row spells the item number alike. */
  lemma ExactIffSpelledAlike(claimed: map<(Id, nat), Fact>, members: seq<Fact>)
    requires members != [] && forall fact :: fact in members ==> Anchored(claimed, fact)
    ensures MatchOf(claimed, members) == Exact <==>
              forall a, b :: a in members && b in members ==> Spelling(claimed, a) == Spelling(claimed, b)
  {
    var spellings, first := Spellings(claimed, members), Spelling(claimed, members[0]);
    assert members[0] in members && first in spellings;
    if |spellings| == 1 {
      assert |spellings - {first}| == 0;
      forall fact | fact in members ensures Spelling(claimed, fact) == first {
        assert Spelling(claimed, fact) in spellings && Spelling(claimed, fact) !in spellings - {first};
      }
    }
    if forall a, b :: a in members && b in members ==> Spelling(claimed, a) == Spelling(claimed, b) {
      assert spellings == {first};
    }
  }

  // ---- Which facts end up where ----

  /** Fact ids are a primary key. */
  ghost predicate DistinctIds(facts: seq<Fact>) {
    forall a, b :: a in facts && b in facts && a.id == b.id ==> a == b
  }

  ghost predicate Attaches(up: char -> string, project: Id, facts: seq<Fact>, fact: Fact, row: (Id, ItemKey)) {
    && fact in facts && Anchored(Identifiers(facts), fact)
    && row == (fact.id, ItemKey(project, KeyOf(up, Identifiers(facts), fact)))
  }

  lemma {:induction false} MemberLinksExact(key: ItemKey, members: seq<Fact>, row: (Id, ItemKey))
    ensures row in MemberLinks(key, members) <==> exists fact :: fact in members && row == (fact.id, key)
  {
    if members != [] {
      MemberLinksExact(key, members[..|members| - 1], row);
      assert members == members[..|members| - 1] + [members[|members| - 1]];
    }
  }

  lemma {:induction false} LinksExact(project: Id, plan: seq<Group>, row: (Id, ItemKey))
    ensures row in Links(project, plan) <==>
              exists group :: group in plan && row in MemberLinks(ItemKey(project, group.normalised), group.members)
  {
    if plan != [] {
      LinksExact(project, plan[..|plan| - 1], row);
      assert plan == plan[..|plan| - 1] + [plan[|plan| - 1]];
    }
  }

  lemma {:induction false} GroupsExact(up: char -> string, claimed: map<(Id, nat), Fact>, facts: seq<Fact>, keys: seq<string>, group: Group)
    requires forall key :: key in keys ==> Members(up, claimed, facts, key) != []
    ensures group in GroupsOf(up, claimed, facts, keys) <==>
              group.normalised in keys && Members(up, claimed, facts, group.normalised) != []
              && group == GroupOf(up, claimed, facts, group.normalised)
  {
    if keys != [] {
      GroupsExact(up, claimed, facts, keys[..|keys| - 1], group);
      assert keys == keys[..|keys| - 1] + [keys[|keys| - 1]];
    }
  }

  /** The plan has one group for every item number stated on some row, holding every fact on such a row. */
  lemma PlanExact(up: char -> string, facts: seq<Fact>, group: Group)
    ensures group in Plan(up, facts) <==>
              Members(up, Identifiers(facts), facts, group.normalised) != []
              && group == GroupOf(up, Identifiers(facts), facts, group.normalised)
  {
    SortedKeysExact(up, Identifiers(facts), facts);
    GroupsExact(up, Identifiers(facts), facts, SortedKeys(up, Identifiers(facts), facts), group);
  }

  lemma LinkRowsExact(up: char -> string, project: Id, facts: seq<Fact>, row: (Id, ItemKey))
    ensures row in Links(project, Plan(up, facts)) <==> exists fact :: Attaches(up, project, facts, fact, row)
  {
    var claimed := Identifiers(facts);
    LinksExact(project, Plan(up, facts), row);
    if group :| group in Plan(up, facts) && row in MemberLinks(ItemKey(project, group.normalised), group.members) {
      PlanExact(up, facts, group);
      MemberLinksExact(ItemKey(project, group.normalised), group.members, row);
      var fact :| fact in group.members && row == (fact.id, ItemKey(project, group.normalised));
      MembersExact(up, claimed, facts, group.normalised, fact);
      assert Attaches(up, project, facts, fact, row);
    }
    if fact :| Attaches(up, project, facts, fact, row) {
      var key := KeyOf(up, claimed, fact);
      MembersExact(up, claimed, facts, key, fact);
      var group := GroupOf(up, claimed, facts, key);
      PlanExact(up, facts, group);
      MemberLinksExact(ItemKey(project, key), group.members, row);
      assert group in Plan(up, facts) && row in MemberLinks(ItemKey(project, group.normalised), group.members);
    }
  }

  lemma LinkRowsFunctional(up: char -> string, project: Id, facts: seq<Fact>)
    requires DistinctIds(facts)
    ensures Functional(Links(project, Plan(up, facts)))
  {
    var rows := Links(project, Plan(up, facts));
    forall i, j | 0 <= i < |rows| && 0 <= j < |rows| && rows[i].0 == rows[j].0 ensures rows[i] == rows[j] {
      LinkRowsExact(up, project, facts, rows[i]);
      LinkRowsExact(up, project, facts, rows[j]);
      assert rows[i] in rows && rows[j] in rows;
      var a :| Attaches(up, project, facts, a, rows[i]);
      var b :| Attaches(up, project, facts, b, rows[j]);
      assert a.id == b.id;
    }
  }

  /** Every fact sharing a row with an item number points at that number's item in this project. */
  lemma AnchoredFactsAreAttached(up: char -> string, stored: Stored, project: Id, facts: seq<Fact>, fact: Fact)
    requires DistinctIds(facts) && fact in facts && Anchored(Identifiers(facts), fact)
    ensures Holds(Linked(stored, project, Plan(up, facts)).links, (fact.id, ItemKey(project, KeyOf(up, Identifiers(facts), fact))))
  {
    var rows := Links(project, Plan(up, facts));
    var row := (fact.id, ItemKey(project, KeyOf(up, Identifiers(facts), fact)));
    assert Attaches(up, project, facts, fact, row);
    LinkRowsExact(up, project, facts, row);
    LinkRowsFunctional(up, project, facts);
    var i :| 0 <= i < |rows| && rows[i] == row;
    PutAllHolds(stored.links, rows, i);
  }

  /** Every other fact keeps the link it had, even one a former item number gave it. */
  lemma OtherFactsKeepTheirLink(up: char -> string, stored: Stored, project: Id, facts: seq<Fact>, id: Id)
    requires forall fact :: fact in facts && fact.id == id ==> !Anchored(Identifiers(facts), fact)
    ensures var after := Linked(stored, project, Plan(up, facts)).links;
            (id in after <==> id in stored.links) && (id in after ==> after[id] == stored.links[id])
  {
    var rows := Links(project, Plan(up, facts));
    forall i | 0 <= i < |rows| ensures rows[i].0 != id {
      LinkRowsExact(up, project, facts, rows[i]);
      assert rows[i] in rows;
      var fact :| Attaches(up, project, facts, fact, rows[i]);
    }
    PutAllElsewhere(stored.links, rows, id);
  }

  /** Two rows share a work item exactly when their item numbers have the same segments. */
  lemma ShareAnItemIff(up: char -> string, stored: Stored, project: Id, facts: seq<Fact>, a: Fact, b: Fact)
    requires CaseMap(up) && DistinctIds(facts)
    requires a in facts && Anchored(Identifiers(facts), a) && b in facts && Anchored(Identifiers(facts), b)
    ensures var links := Linked(stored, project, Plan(up, facts)).links;
            && a.id in links && b.id in links
            && (links[a.id] == links[b.id] <==>
                Segments(up, Spelling(Identifiers(facts), a)) == Segments(up, Spelling(Identifiers(facts), b)))
  {
    AnchoredFactsAreAttached(up, stored, project, facts, a);
    AnchoredFactsAreAttached(up, stored, project, facts, b);
    SameItemIff(up, Spelling(Identifiers(facts), a), Spelling(Identifiers(facts), b));
  }

  // ---- Rows that state several item numbers ----

  /** The same facts, reordered only among those the query's ordering ties: the ones on one row. */
  ghost predicate Retied(facts: seq<Fact>, other: seq<Fact>) {
    && multiset(other) == multiset(facts)
    && |other| == |facts|
    && forall i :: 0 <= i < |facts| ==> other[i].document == facts[i].document && other[i].sheetRow == facts[i].sheetRow
  }

  ghost predicate ReadsAlike(facts: seq<Fact>, row: (Id, nat), read: string -> string) {
    forall a, b :: a in facts && b in facts && ClaimsRow(a, row) && ClaimsRow(b, row) ==> read(a.literal) == read(b.literal)
  }

  ghost predicate ReadsAs(facts: seq<Fact>, row: (Id, nat), read: string -> string, value: string) {
    row in Identifiers(facts) && read(Identifiers(facts)[row].literal) == value
  }

  lemma SameFacts(facts: seq<Fact>, other: seq<Fact>)
    requires multiset(other) == multiset(facts)
    ensures forall fact :: fact in other <==> fact in facts
  {
    forall fact ensures fact in other <==> fact in facts {
      assert fact in other <==> fact in multiset(other);
      assert fact in facts <==> fact in multiset(facts);
    }
  }

  /** The claimant with none after it is the one a row is read by. */
  lemma ClaimedAt(facts: seq<Fact>, row: (Id, nat), i: nat)
    requires i < |facts| && ClaimsRow(facts[i], row) && forall k :: i < k < |facts| ==> !ClaimsRow(facts[k], row)
    ensures row in Identifiers(facts) && Identifiers(facts)[row] == facts[i]
  {
    ClaimedByLast(facts, row);
  }

  lemma AClaimant(facts: seq<Fact>, row: (Id, nat))
    requires row in Identifiers(facts)
    ensures Identifiers(facts)[row] in facts && ClaimsRow(Identifiers(facts)[row], row)
  {
    ClaimedByLast(facts, row);
  }

  lemma HasClaimant(facts: seq<Fact>, row: (Id, nat), fact: Fact)
    requires fact in facts && ClaimsRow(fact, row)
    ensures row in Identifiers(facts)
  {
    ClaimedByLast(facts, row);
  }

  lemma StillAnchored(facts: seq<Fact>, other: seq<Fact>, row: (Id, nat))
    requires Retied(facts, other) && row in Identifiers(facts)
    ensures row in Identifiers(other) && forall fact :: fact in other <==> fact in facts
  {
    hide Identifiers;
    SameFacts(facts, other);
    AClaimant(facts, row);
    HasClaimant(other, row, Identifiers(facts)[row]);
  }

  /** Two item numbers that are not read alike include one not read as the row is. */
  lemma AnOddOne(facts: seq<Fact>, row: (Id, nat), read: string -> string) returns (odd: Fact)
    requires row in Identifiers(facts) && !ReadsAlike(facts, row, read)
    ensures odd in facts && ClaimsRow(odd, row) && read(odd.literal) != read(Identifiers(facts)[row].literal)
  {
    hide Identifiers;
    var a, b :| a in facts && b in facts && ClaimsRow(a, row) && ClaimsRow(b, row) && read(a.literal) != read(b.literal);
    odd := if read(a.literal) == read(Identifiers(facts)[row].literal) then b else a;
  }

  /** Trading places with the claimant, another item number on the row becomes the claimant. */
  lemma TradePlaces(facts: seq<Fact>, row: (Id, nat), odd: Fact) returns (other: seq<Fact>)
    requires row in Identifiers(facts) && odd in facts && ClaimsRow(odd, row)
    ensures Retied(facts, other) && row in Identifiers(other) && Identifiers(other)[row] == odd
  {
    hide Identifiers;
    ClaimedByLast(facts, row);
    var i: nat :| i < |facts| && ClaimsRow(facts[i], row) && facts[i] == Identifiers(facts)[row]
                  && forall k :: i < k < |facts| ==> !ClaimsRow(facts[k], row);
    var j: nat :| j < |facts| && facts[j] == odd;
    other := facts[i := facts[j]][j := facts[i]];
    SwapKeeps(facts, i, j);
    ClaimedAt(other, row, i);
  }

  lemma Swapped<T>(s: seq<T>, i: nat, j: nat)
    requires i < |s| && j < |s|
    ensures multiset(s[i := s[j]][j := s[i]]) == multiset(s)
  {
  }

  lemma SwapKeeps(facts: seq<Fact>, i: nat, j: nat)
    requires i < |facts| && j < |facts| && facts[i].document == facts[j].document && facts[i].sheetRow == facts[j].sheetRow
    ensures var other := facts[i := facts[j]][j := facts[i]];
            Retied(facts, other) && other[i] == facts[j] && forall k :: 0 <= k < |facts| && k != i && k != j ==> other[k] == facts[k]
  {
    var other := facts[i := facts[j]][j := facts[i]];
    Swapped(facts, i, j);
    assert |other| == |facts| && other[i] == facts[j] && other[j] == facts[i];
  }

  /** However a row's facts are ordered the row is read alike, exactly when all its item numbers are. */
  lemma TieOrderIsHarmlessIff(facts: seq<Fact>, row: (Id, nat), read: string -> string)
    requires row in Identifiers(facts)
    ensures (forall other :: Retied(facts, other) ==> ReadsAs(other, row, read, read(Identifiers(facts)[row].literal)))
            <==> ReadsAlike(facts, row, read)
  {
    hide Identifiers, Retied;
    if ReadsAlike(facts, row, read) {
      forall other | Retied(facts, other) ensures ReadsAs(other, row, read, read(Identifiers(facts)[row].literal)) {
        StillAnchored(facts, other, row);
        AClaimant(facts, row);
        AClaimant(other, row);
      }
    } else {
      var odd := AnOddOne(facts, row, read);
      var other := TradePlaces(facts, row, odd);
      assert !ReadsAs(other, row, read, read(Identifiers(facts)[row].literal));
    }
  }

  /** So which item a fact points at is independent of the order of ties exactly when all item numbers on its
      row are the same number. */
  lemma LinkIgnoresTiesIff(up: char -> string, stored: Stored, project: Id, facts: seq<Fact>, fact: Fact)
    requires DistinctIds(facts) && fact in facts && Anchored(Identifiers(facts), fact)
    ensures (forall other :: Retied(facts, other) ==>
               Holds(Linked(stored, project, Plan(up, other)).links, (fact.id, ItemKey(project, KeyOf(up, Identifiers(facts), fact)))))
            <==> ReadsAlike(facts, (fact.document, fact.sheetRow.value), (s: string) => NormaliseItem(up, s))
  {
    hide Plan, Linked, NormaliseItem;
    var row, read := (fact.document, fact.sheetRow.value), (s: string) => NormaliseItem(up, s);
    var value := KeyOf(up, Identifiers(facts), fact);
    TieOrderIsHarmlessIff(facts, row, read);
    forall other | Retied(facts, other)
      ensures ReadsAs(other, row, read, value)
              <==> Holds(Linked(stored, project, Plan(up, other)).links, (fact.id, ItemKey(project, value)))
    {
      SameFacts(facts, other);
      StillAnchored(facts, other, row);
      AnchoredFactsAreAttached(up, stored, project, other, fact);
    }
  }

  // ---- Facts of no row ----

  function Kept(facts: seq<Fact>, withdrawn: set<Id>): seq<Fact> {
    if facts == [] then []
    else Kept(facts[..|facts| - 1], withdrawn) + if facts[|facts| - 1].id in withdrawn then [] else [facts[|facts| - 1]]
  }

  lemma {:induction false} KeptExact(facts: seq<Fact>, withdrawn: set<Id>)
    ensures forall fact :: fact in Kept(facts, withdrawn) <==> fact in facts && fact.id !in withdrawn
  {
    if facts != [] {
      KeptExact(facts[..|facts| - 1], withdrawn);
      assert facts == facts[..|facts| - 1] + [facts[|facts| - 1]];
    }
  }

  lemma KeptStep(facts: seq<Fact>, withdrawn: set<Id>)
    requires facts != []
    ensures var kept, last := Kept(facts, withdrawn), facts[|facts| - 1];
            var front := Kept(facts[..|facts| - 1], withdrawn);
            if last.id in withdrawn then kept == front
            else |kept| == |front| + 1 && kept[..|kept| - 1] == front && kept[|kept| - 1] == last
  {
  }

  lemma NothingKept(withdrawn: set<Id>)
    ensures Kept([], withdrawn) == []
  {
  }

  /** Leaving out facts of no row leaves every row's claim as it was. */
  lemma {:induction false} ClaimsAreKept(facts: seq<Fact>, withdrawn: set<Id>)
    requires forall fact :: fact in facts && fact.id in withdrawn ==> fact.sheetRow.None?
    ensures Identifiers(Kept(facts, withdrawn)) == Identifiers(facts)
  {
    if facts != [] {
      var front, last := facts[..|facts| - 1], facts[|facts| - 1];
      assert last in facts && forall fact :: fact in front ==> fact in facts;
      ClaimsAreKept(front, withdrawn);
      KeptStep(facts, withdrawn);
    }
  }

  lemma {:induction false} MembersAreKept(up: char -> string, claimed: map<(Id, nat), Fact>, facts: seq<Fact>, withdrawn: set<Id>, key: string)
    requires forall fact :: fact in facts && fact.id in withdrawn ==> fact.sheetRow.None?
    ensures Members(up, claimed, Kept(facts, withdrawn), key) == Members(up, claimed, facts, key)
  {
    hide KeyOf;
    if facts != [] {
      var front, last := facts[..|facts| - 1], facts[|facts| - 1];
      assert last in facts && forall fact :: fact in front ==> fact in facts;
      MembersAreKept(up, claimed, front, withdrawn, key);
      KeptStep(facts, withdrawn);
    }
  }

  lemma {:induction false} KeysAreKept(up: char -> string, claimed: map<(Id, nat), Fact>, facts: seq<Fact>, withdrawn: set<Id>)
    requires forall fact :: fact in facts && fact.id in withdrawn ==> fact.sheetRow.None?
    ensures KeysSeen(up, claimed, Kept(facts, withdrawn)) == KeysSeen(up, claimed, facts)
  {
    hide KeyOf, Members, Kept;
    if facts == [] {
      assert Kept(facts, withdrawn) == [] by { NothingKept(withdrawn); }
    } else {
      var front, last := facts[..|facts| - 1], facts[|facts| - 1];
      assert last in facts && forall fact :: fact in front ==> fact in facts;
      KeysAreKept(up, claimed, front, withdrawn);
      KeptStep(facts, withdrawn);
      if Anchored(claimed, last) { MembersAreKept(up, claimed, front, withdrawn, KeyOf(up, claimed, last)); }
    }
  }

  lemma {:induction false} WithdrawnAreUnattached(claimed: map<(Id, nat), Fact>, facts: seq<Fact>, withdrawn: set<Id>)
    requires forall fact :: fact in facts && fact.id in withdrawn ==> fact.sheetRow.None?
    ensures Unattached(claimed, facts) == Unattached(claimed, Kept(facts, withdrawn)) + |facts| - |Kept(facts, withdrawn)|
  {
    if facts != [] {
      var front, last := facts[..|facts| - 1], facts[|facts| - 1];
      assert last in facts && forall fact :: fact in front ==> fact in facts;
      WithdrawnAreUnattached(claimed, front, withdrawn);
      KeptStep(facts, withdrawn);
    }
  }

  lemma {:induction false} GroupsAreKept(up: char -> string, claimed: map<(Id, nat), Fact>, facts: seq<Fact>, withdrawn: set<Id>, keys: seq<string>)
    requires forall fact :: fact in facts && fact.id in withdrawn ==> fact.sheetRow.None?
    requires forall key :: key in keys ==> Members(up, claimed, facts, key) != []
    ensures forall key :: key in keys ==> Members(up, claimed, Kept(facts, withdrawn), key) != []
    ensures GroupsOf(up, claimed, Kept(facts, withdrawn), keys) == GroupsOf(up, claimed, facts, keys)
  {
    hide KeyOf, Members, ItemFor;
    forall key { MembersAreKept(up, claimed, facts, withdrawn, key); }
    if keys != [] { GroupsAreKept(up, claimed, facts, withdrawn, keys[..|keys| - 1]); }
  }

  /** So if only facts of no row are withdrawn, the pass plans what it would without them, and counts each of
      them as a fact without an item. */
  lemma WithdrawnAreOnlyCounted(up: char -> string, facts: seq<Fact>, withdrawn: set<Id>)
    requires forall fact :: fact in facts && fact.id in withdrawn ==> fact.sheetRow.None?
    ensures Plan(up, Kept(facts, withdrawn)) == Plan(up, facts)
    ensures Unattached(Identifiers(facts), facts)
            == Unattached(Identifiers(Kept(facts, withdrawn)), Kept(facts, withdrawn)) + |facts| - |Kept(facts, withdrawn)|
  {
    hide Identifiers, Members, KeysSeen, GroupsOf, Unattached;
    ClaimsAreKept(facts, withdrawn);
    KeysAreKept(up, Identifiers(facts), facts, withdrawn);
    WithdrawnAreUnattached(Identifiers(facts), facts, withdrawn);
    GroupsAreKept(up, Identifiers(facts), facts, withdrawn, SortedKeys(up, Identifiers(facts), facts));
  }

  // ---- A second run ----

  /** There is an item for the group, and nothing left for the group to add to it. */
  ghost predicate Settled(items: map<ItemKey, WorkItem>, project: Id, group: Group) {
    var key := ItemKey(project, group.normalised);
    key in items && (items[key].description.Some? || group.item.description.None?)
  }

  lemma {:induction false} EnteringSettles(items: map<ItemKey, WorkItem>, project: Id, plan: seq<Group>, group: Group)
    requires group in plan || Settled(items, project, group)
    ensures Settled(EnterAll(items, project, plan), project, group)
  {
    if plan != [] {
      var front := plan[..|plan| - 1];
      assert plan == front + [plan[|plan| - 1]];
      if group in front || Settled(items, project, group) { EnteringSettles(items, project, front, group); }
    }
  }

  lemma {:induction false} NothingToEnter(items: map<ItemKey, WorkItem>, project: Id, plan: seq<Group>)
    requires forall i :: 0 <= i < |plan| ==> Settled(items, project, plan[i])
    ensures EnterAll(items, project, plan) == items
  {
    if plan != [] {
      assert Settled(items, project, plan[|plan| - 1]);
      assert forall i :: 0 <= i < |plan| - 1 ==> plan[..|plan| - 1][i] == plan[i];
      NothingToEnter(items, project, plan[..|plan| - 1]);
    }
  }

  /** A second run over the same facts creates no item and links no fact. */
  lemma SecondRunChangesNothing(up: char -> string, stored: Stored, project: Id, facts: seq<Fact>)
    requires DistinctIds(facts)
    ensures var once := Linked(stored, project, Plan(up, facts));
            && Linked(once, project, Plan(up, facts)) == once
            && Changes(once.links, Links(project, Plan(up, facts))) == 0
  {
    var plan := Plan(up, facts);
    var rows := Links(project, plan);
    LinkRowsFunctional(up, project, facts);
    forall i | 0 <= i < |rows| ensures Holds(PutAll(stored.links, rows), rows[i]) { PutAllHolds(stored.links, rows, i); }
    PutAllPresent(PutAll(stored.links, rows), rows);
    forall i | 0 <= i < |plan| ensures Settled(EnterAll(stored.items, project, plan), project, plan[i]) {
      assert plan[i] in plan;
      EnteringSettles(stored.items, project, plan, plan[i]);
    }
    NothingToEnter(EnterAll(stored.items, project, plan), project, plan);
  }

  /** What a run reports. */
  function Report(up: char -> string, stored: Stored, project: Id, facts: seq<Fact>): LinkOutcome {
    LinkOutcome(|Linked(stored, project, Plan(up, facts)).items| - |stored.items|, Changes(stored.links, Links(project, Plan(up, facts))),
                Unattached(Identifiers(facts), facts))
  }

  /** Some item number claims the fact's row. */
  ghost predicate OnAnItem(facts: seq<Fact>, fact: Fact) {
    fact.sheetRow.Some? && exists claim :: claim in facts && ClaimsRow(claim, (fact.document, fact.sheetRow.value))
  }

  lemma AnchoredIffOnAnItem(facts: seq<Fact>, fact: Fact)
    ensures Anchored(Identifiers(facts), fact) <==> OnAnItem(facts, fact)
  {
    hide Identifiers;
    if fact.sheetRow.Some? {
      var row := (fact.document, fact.sheetRow.value);
      if row in Identifiers(facts) { AClaimant(facts, row); }
      if claim :| claim in facts && ClaimsRow(claim, row) { HasClaimant(facts, row, claim); }
    }
  }

  lemma {:induction false} NoneUnattachedIff(claimed: map<(Id, nat), Fact>, facts: seq<Fact>)
    ensures Unattached(claimed, facts) == 0 <==> forall fact :: fact in facts ==> Anchored(claimed, fact)
  {
    if facts != [] {
      NoneUnattachedIff(claimed, facts[..|facts| - 1]);
      assert facts == facts[..|facts| - 1] + [facts[|facts| - 1]];
    }
  }

  /** A second run reports all zeroes exactly when every fact shares its row with an item number; the others
      are counted again on every run. */
  lemma SecondReportZeroIff(up: char -> string, stored: Stored, project: Id, facts: seq<Fact>)
    requires DistinctIds(facts)
    ensures var once := Linked(stored, project, Plan(up, facts));
            && Report(up, once, project, facts) == LinkOutcome(0, 0, Report(up, stored, project, facts).withoutItem)
            && (Report(up, once, project, facts) == LinkOutcome(0, 0, 0) <==> forall fact :: fact in facts ==> OnAnItem(facts, fact))
  {
    hide Plan, Linked, Links, Changes, Unattached, OnAnItem;
    SecondRunChangesNothing(up, stored, project, facts);
    NoneUnattachedIff(Identifiers(facts), facts);
    forall fact { AnchoredIffOnAnItem(facts, fact); }
  }

  /** For example one fact about its document as a whole: every run counts it. */
  lemma DocumentFactIsCountedAgain(up: char -> string, stored: Stored, project: Id)
    ensures var facts := [Fact(1, 1, None, Other, "NHAI-4", None)];
            Report(up, Linked(stored, project, Plan(up, facts)), project, facts) == LinkOutcome(0, 0, 1)
  {
    hide Plan, Linked, Links, Changes;
    var facts := [Fact(1, 1, None, Other, "NHAI-4", None)];
    SecondReportZeroIff(up, stored, project, facts);
    assert Unattached(Identifiers(facts), facts[..0]) == 0;
  }

  ghost predicate AnchoredIn(facts: seq<Fact>, id: Id) {
    exists fact :: fact in facts && fact.id == id && Anchored(Identifiers(facts), fact)
  }

  /** Items of one project take over the facts of another that shares its documents. Linking project `p`,
      then `q`, then `p` again leaves nothing to link exactly when no item-scoped fact belongs to both. */
  lemma SharedFactsAreRelinkedIff(up: char -> string, stored: Stored, p: Id, mine: seq<Fact>, q: Id, theirs: seq<Fact>)
    requires DistinctIds(mine) && DistinctIds(theirs) && p != q
    ensures var between := Linked(Linked(stored, p, Plan(up, mine)), q, Plan(up, theirs));
            Changes(between.links, Links(p, Plan(up, mine))) == 0 <==>
              forall id :: AnchoredIn(mine, id) ==> !AnchoredIn(theirs, id)
  {
    var first := Linked(stored, p, Plan(up, mine));
    var between := Linked(first, q, Plan(up, theirs));
    var rows := Links(p, Plan(up, mine));
    LinkRowsFunctional(up, p, mine);
    NothingChangesIff(between.links, rows);
    if forall i :: 0 <= i < |rows| ==> Holds(between.links, rows[i]) {
      forall id | AnchoredIn(mine, id) ensures !AnchoredIn(theirs, id) {
        var fact :| fact in mine && fact.id == id && Anchored(Identifiers(mine), fact);
        var row := (fact.id, ItemKey(p, KeyOf(up, Identifiers(mine), fact)));
        assert Attaches(up, p, mine, fact, row);
        LinkRowsExact(up, p, mine, row);
        AttachedThenTakenOver(up, stored, p, mine, q, theirs, row);
      }
    } else {
      var i :| 0 <= i < |rows| && !Holds(between.links, rows[i]);
      assert rows[i] in rows;
      LinkRowsExact(up, p, mine, rows[i]);
      AttachedThenTakenOver(up, stored, p, mine, q, theirs, rows[i]);
    }
  }

  lemma AttachedThenTakenOver(up: char -> string, stored: Stored, p: Id, mine: seq<Fact>, q: Id, theirs: seq<Fact>, row: (Id, ItemKey))
    requires DistinctIds(mine) && DistinctIds(theirs) && p != q
    requires exists fact :: Attaches(up, p, mine, fact, row)
    ensures AnchoredIn(mine, row.0)
    ensures Holds(Linked(Linked(stored, p, Plan(up, mine)), q, Plan(up, theirs)).links, row) <==> !AnchoredIn(theirs, row.0)
  {
    var fact :| Attaches(up, p, mine, fact, row);
    AnchoredFactsAreAttached(up, stored, p, mine, fact);
    TakenOverIff(up, Linked(stored, p, Plan(up, mine)), q, theirs, row);
  }

  lemma TakenOverIff(up: char -> string, stored: Stored, q: Id, theirs: seq<Fact>, row: (Id, ItemKey))
    requires DistinctIds(theirs) && Holds(stored.links, row) && row.1.project != q
    ensures Holds(Linked(stored, q, Plan(up, theirs)).links, row) <==> !AnchoredIn(theirs, row.0)
  {
    if fact :| fact in theirs && fact.id == row.0 && Anchored(Identifiers(theirs), fact) {
      AnchoredFactsAreAttached(up, stored, q, theirs, fact);
    } else {
      OtherFactsKeepTheirLink(up, stored, q, theirs, row.0);
    }
  }

  // ---- How a match is recorded ----

  lemma {:induction false} EnterElsewhere(items: map<ItemKey, WorkItem>, project: Id, plan: seq<Group>, key: ItemKey)
    requires key in items || (forall i :: 0 <= i < |plan| ==> ItemKey(project, plan[i].normalised) != key)
    ensures key in items <==> key in EnterAll(items, project, plan)
    ensures key in items ==> EnterAll(items, project, plan)[key].(description := None) == items[key].(description := None)
  {
    if plan != [] {
      assert forall i :: 0 <= i < |plan| - 1 ==> plan[..|plan| - 1][i] == plan[i];
      EnterElsewhere(items, project, plan[..|plan| - 1], key);
    }
  }

  lemma {:induction false} EnterNew(items: map<ItemKey, WorkItem>, project: Id, plan: seq<Group>, i: nat)
    requires i < |plan| && ItemKey(project, plan[i].normalised) !in items
    requires forall j, k :: 0 <= j < k < |plan| ==> plan[j].normalised != plan[k].normalised
    ensures Holds(EnterAll(items, project, plan), (ItemKey(project, plan[i].normalised), plan[i].item))
  {
    var front := plan[..|plan| - 1];
    if i < |front| {
      EnterNew(items, project, front, i);
    } else {
      forall k | 0 <= k < |front| ensures ItemKey(project, front[k].normalised) != ItemKey(project, plan[i].normalised) {
        assert plan[k].normalised != plan[i].normalised;
      }
      EnterElsewhere(items, project, front, ItemKey(project, plan[i].normalised));
    }
  }

  lemma {:induction false} GroupsAt(up: char -> string, claimed: map<(Id, nat), Fact>, facts: seq<Fact>, keys: seq<string>)
    requires forall key :: key in keys ==> Members(up, claimed, facts, key) != []
    ensures |GroupsOf(up, claimed, facts, keys)| == |keys|
    ensures forall i :: 0 <= i < |keys| ==> GroupsOf(up, claimed, facts, keys)[i].normalised == keys[i]
  {
    hide Members, ItemFor, KeyOf;
    if keys != [] { GroupsAt(up, claimed, facts, keys[..|keys| - 1]); }
  }

  lemma PlanKeysDistinct(up: char -> string, facts: seq<Fact>)
    ensures forall j, k :: 0 <= j < k < |Plan(up, facts)| ==> Plan(up, facts)[j].normalised != Plan(up, facts)[k].normalised
  {
    SortedKeysExact(up, Identifiers(facts), facts);
    GroupsAt(up, Identifiers(facts), facts, SortedKeys(up, Identifiers(facts), facts));
  }

  /** An item that lacks a description takes the one a run finds first; nothing else about an item ever changes. */
  lemma {:induction false} OnlyDescriptionsAreAdded(items: map<ItemKey, WorkItem>, project: Id, plan: seq<Group>, i: nat)
    requires i < |plan| && ItemKey(project, plan[i].normalised) in items
    requires forall j, k :: 0 <= j < k < |plan| ==> plan[j].normalised != plan[k].normalised
    ensures var key := ItemKey(project, plan[i].normalised);
            key in EnterAll(items, project, plan)
            && EnterAll(items, project, plan)[key]
               == items[key].(description := if items[key].description.Some? then items[key].description else plan[i].item.description)
  {
    var n := |plan| - 1;
    var front, key := plan[..n], ItemKey(project, plan[i].normalised);
    if i < n {
      OnlyDescriptionsAreAdded(items, project, front, i);
      assert plan[n].normalised != plan[i].normalised;
    } else {
      UnnamedIsUntouched(items, project, front, key);
    }
  }

  lemma {:induction false} UnnamedIsUntouched(items: map<ItemKey, WorkItem>, project: Id, plan: seq<Group>, key: ItemKey)
    requires forall i :: 0 <= i < |plan| ==> ItemKey(project, plan[i].normalised) != key
    ensures key in EnterAll(items, project, plan) <==> key in items
    ensures key in items ==> EnterAll(items, project, plan)[key] == items[key]
  {
    if plan != [] {
      assert forall i :: 0 <= i < |plan| - 1 ==> plan[..|plan| - 1][i] == plan[i];
      UnnamedIsUntouched(items, project, plan[..|plan| - 1], key);
    }
  }

  /** Fact `i` is the first of those on the item for which `wanted` holds. */
  ghost predicate IsFirstOn(up: char -> string, facts: seq<Fact>, i: nat, normalised: string, wanted: Fact -> bool) {
    && i < |facts| && On(up, facts, facts[i], normalised) && wanted(facts[i])
    && forall j :: 0 <= j < i && wanted(facts[j]) ==> !On(up, facts, facts[j], normalised)
  }

  lemma {:induction false} MembersInOrder(up: char -> string, claimed: map<(Id, nat), Fact>, facts: seq<Fact>, key: string, m: nat) returns (i: nat)
    requires m < |Members(up, claimed, facts, key)|
    ensures i < |facts| && facts[i] == Members(up, claimed, facts, key)[m] && Anchored(claimed, facts[i]) && KeyOf(up, claimed, facts[i]) == key
    ensures forall j :: 0 <= j < i && Anchored(claimed, facts[j]) && KeyOf(up, claimed, facts[j]) == key ==>
              exists l :: 0 <= l < m && Members(up, claimed, facts, key)[l] == facts[j]
  {
    hide KeyOf;
    var n := |facts| - 1;
    var front := Members(up, claimed, facts[..n], key);
    if m < |front| {
      i := MembersInOrder(up, claimed, facts[..n], key, m);
      forall j | 0 <= j < i && Anchored(claimed, facts[j]) && KeyOf(up, claimed, facts[j]) == key
        ensures exists l :: 0 <= l < m && Members(up, claimed, facts, key)[l] == facts[j]
      {
        assert facts[..n][j] == facts[j];
        var l :| 0 <= l < m && front[l] == facts[j];
        assert Members(up, claimed, facts, key)[l] == facts[j];
      }
    } else {
      i := n;
      forall j | 0 <= j < i && Anchored(claimed, facts[j]) && KeyOf(up, claimed, facts[j]) == key
        ensures exists l :: 0 <= l < m && Members(up, claimed, facts, key)[l] == facts[j]
      {
        MembersExact(up, claimed, facts[..n], key, facts[j]);
        assert facts[..n][j] == facts[j];
        var l :| 0 <= l < |front| && front[l] == facts[j];
        assert Members(up, claimed, facts, key)[l] == facts[j];
      }
    }
  }

  /** A new item is named as the first fact on it spells its number, described by the first description and measured in
      the first unit that any fact on it gives. */
  lemma NewItemMeans(up: char -> string, stored: Stored, project: Id, facts: seq<Fact>, normalised: string)
    requires ItemKey(project, normalised) !in stored.items && exists fact :: On(up, facts, fact, normalised)
    ensures var key := ItemKey(project, normalised);
            var items := Linked(stored, project, Plan(up, facts)).items;
            && key in items
            && (exists i: nat :: IsFirstOn(up, facts, i, normalised, (fact: Fact) => true)
                                 && items[key].identifier == Spelling(Identifiers(facts), facts[i]))
            && (match items[key].description
                case None => forall fact :: On(up, facts, fact, normalised) ==> fact.factType != ItemDescription
                case Some(text) => exists i: nat :: IsFirstOn(up, facts, i, normalised, (fact: Fact) => fact.factType == ItemDescription)
                                                    && facts[i].literal == text)
            && (match items[key].unit
                case None => forall fact :: On(up, facts, fact, normalised) ==> fact.unit in {None, Some("")}
                case Some(unit) => exists i: nat :: IsFirstOn(up, facts, i, normalised, (fact: Fact) => fact.unit !in {None, Some("")})
                                                    && facts[i].unit == Some(unit))
  {
    hide Identifiers, Members, Plan, Linked, Description, Unit, KeyOf, On, Anchored, Spelling, MatchOf, IsFirstOn;
    var members := Members(up, Identifiers(facts), facts, normalised);
    NewItemIs(up, stored, project, facts, normalised);
    FirstGiven(members);
    FirstOf(up, facts, normalised, 0, (fact: Fact) => true);
    if Description(members).Some? {
      var m: nat :| m < |members| && members[m].factType == ItemDescription && members[m].literal == Description(members).value
                    && forall k :: 0 <= k < m ==> members[k].factType != ItemDescription;
      FirstOf(up, facts, normalised, m, (fact: Fact) => fact.factType == ItemDescription);
    }
    forall fact: Fact ensures StatesUnit(fact) <==> fact.unit !in {None, Some("")} { UnitIsStated(fact); }
    if Unit(members).Some? {
      var m: nat :| m < |members| && StatesUnit(members[m]) && members[m].unit == Some(Unit(members).value)
                    && forall k :: 0 <= k < m ==> !StatesUnit(members[k]);
      FirstOf(up, facts, normalised, m, (fact: Fact) => fact.unit !in {None, Some("")});
    }
  }

  lemma UnitIsStated(fact: Fact)
    ensures StatesUnit(fact) <==> fact.unit !in {None, Some("")}
  {
  }

  lemma NewItemIs(up: char -> string, stored: Stored, project: Id, facts: seq<Fact>, normalised: string)
    requires ItemKey(project, normalised) !in stored.items && exists fact :: On(up, facts, fact, normalised)
    ensures var members := Members(up, Identifiers(facts), facts, normalised);
            var key := ItemKey(project, normalised);
            && members != [] && Anchored(Identifiers(facts), members[0])
            && (forall fact :: fact in members <==> On(up, facts, fact, normalised))
            && key in Linked(stored, project, Plan(up, facts)).items
            && Linked(stored, project, Plan(up, facts)).items[key] == ItemFor(Identifiers(facts), members)
  {
    hide Identifiers, ItemFor, Members, KeyOf;
    var claimed, plan := Identifiers(facts), Plan(up, facts);
    var members := Members(up, claimed, facts, normalised);
    forall fact ensures fact in members <==> On(up, facts, fact, normalised) { MembersExact(up, claimed, facts, normalised, fact); }
    assert members[0] in members;
    PlanKeysDistinct(up, facts);
    var group := GroupOf(up, claimed, facts, normalised);
    PlanExact(up, facts, group);
    var at :| 0 <= at < |plan| && plan[at] == group;
    EnterNew(stored.items, project, plan, at);
  }

  lemma FirstOf(up: char -> string, facts: seq<Fact>, normalised: string, m: nat, wanted: Fact -> bool)
    requires var members := Members(up, Identifiers(facts), facts, normalised);
             m < |members| && wanted(members[m]) && forall k :: 0 <= k < m ==> !wanted(members[k])
    ensures exists i: nat :: IsFirstOn(up, facts, i, normalised, wanted) && facts[i] == Members(up, Identifiers(facts), facts, normalised)[m]
  {
    hide Identifiers, Members, KeyOf;
    var i := MembersInOrder(up, Identifiers(facts), facts, normalised, m);
    assert IsFirstOn(up, facts, i, normalised, wanted);
  }

  /** The report's second figure is the number of facts that point elsewhere than before. */
  lemma LinkedCounts(up: char -> string, stored: Stored, project: Id, facts: seq<Fact>)
    requires DistinctIds(facts)
    ensures Report(up, stored, project, facts).linked == |Changed(stored.links, Linked(stored, project, Plan(up, facts)).links)|
  {
    LinkRowsFunctional(up, project, facts);
    ChangesCount(stored.links, Links(project, Plan(up, facts)));
  }

  /** One run of the pass over a project's facts. */
  datatype Pass = Pass(project: Id, facts: seq<Fact>)

  function AfterPasses(up: char -> string, passes: seq<Pass>): Stored {
    if passes == [] then Stored(map[], map[])
    else
      var pass := passes[|passes| - 1];
      Linked(AfterPasses(up, passes[..|passes| - 1]), pass.project, Plan(up, pass.facts))
  }

  /** The fact's row states this item number, however spelled. */
  predicate On(up: char -> string, facts: seq<Fact>, fact: Fact, normalised: string) {
    var claimed := Identifiers(facts);
    fact in facts && Anchored(claimed, fact) && KeyOf(up, claimed, fact) == normalised
  }

  ghost predicate States(up: char -> string, pass: Pass, key: ItemKey) {
    pass.project == key.project && exists fact :: On(up, pass.facts, fact, key.normalised)
  }

  ghost predicate SpelledAlike(up: char -> string, facts: seq<Fact>, normalised: string) {
    forall a, b :: On(up, facts, a, normalised) && On(up, facts, b, normalised)
                   ==> Spelling(Identifiers(facts), a) == Spelling(Identifiers(facts), b)
  }

  ghost function MatchIn(up: char -> string, pass: Pass, key: ItemKey): Match {
    if SpelledAlike(up, pass.facts, key.normalised) then Exact else Normalised
  }

  /** A run creates the item it states if there is none, with the match of that run, and leaves every other
      item's match alone. */
  lemma PassMatches(up: char -> string, stored: Stored, pass: Pass, key: ItemKey)
    ensures var items := Linked(stored, pass.project, Plan(up, pass.facts)).items;
            && (key in items <==> key in stored.items || States(up, pass, key))
            && (key in items ==> items[key].matchedBy == if key in stored.items then stored.items[key].matchedBy else MatchIn(up, pass, key))
  {
    var claimed, plan := Identifiers(pass.facts), Plan(up, pass.facts);
    var members := Members(up, claimed, pass.facts, key.normalised);
    PlanKeysDistinct(up, pass.facts);
    forall fact ensures fact in members <==> On(up, pass.facts, fact, key.normalised) {
      MembersExact(up, claimed, pass.facts, key.normalised, fact);
    }
    if members != [] { assert members[0] in members; }
    if key in stored.items || !States(up, pass, key) {
      forall i | 0 <= i < |plan| && ItemKey(pass.project, plan[i].normalised) == key ensures key in stored.items {
        assert plan[i] in plan;
        PlanExact(up, pass.facts, plan[i]);
      }
      EnterElsewhere(stored.items, pass.project, plan, key);
    } else {
      var group := GroupOf(up, claimed, pass.facts, key.normalised);
      PlanExact(up, pass.facts, group);
      var i :| 0 <= i < |plan| && plan[i] == group;
      EnterNew(stored.items, pass.project, plan, i);
      ExactIffSpelledAlike(claimed, members);
    }
  }

  /** No run before this one states the number. */
  ghost predicate StatesFirst(up: char -> string, passes: seq<Pass>, first: nat, key: ItemKey) {
    first < |passes| && States(up, passes[first], key) && forall j :: 0 <= j < first ==> !States(up, passes[j], key)
  }

  /** Over every history of runs there is an item exactly for the numbers some run stated, and it records the
      match of the first of these. */
  lemma {:induction false} MatchIsThatOfTheFirstRun(up: char -> string, passes: seq<Pass>, key: ItemKey)
    ensures key in AfterPasses(up, passes).items <==> exists first: nat :: StatesFirst(up, passes, first, key)
    ensures forall first: nat :: StatesFirst(up, passes, first, key) ==>
              key in AfterPasses(up, passes).items && AfterPasses(up, passes).items[key].matchedBy == MatchIn(up, passes[first], key)
  {
    hide States, MatchIn, Linked, Plan;
    if passes != [] {
      var front, last := passes[..|passes| - 1], |passes| - 1;
      MatchIsThatOfTheFirstRun(up, front, key);
      PassMatches(up, AfterPasses(up, front), passes[last], key);
      assert forall first: nat :: first < last ==> (StatesFirst(up, passes, first, key) <==> StatesFirst(up, front, first, key));
      if key in AfterPasses(up, front).items {
        var first: nat :| StatesFirst(up, front, first, key);
        assert StatesFirst(up, passes, first, key);
        assert !StatesFirst(up, passes, last, key);
      } else if States(up, passes[last], key) {
        NoneBefore(up, front, key);
        assert StatesFirst(up, passes, last, key);
      }
    }
  }

  lemma {:induction false} NoneBefore(up: char -> string, passes: seq<Pass>, key: ItemKey)
    requires forall first: nat :: !StatesFirst(up, passes, first, key)
    ensures forall j :: 0 <= j < |passes| ==> !States(up, passes[j], key)
  {
    hide States;
    if passes != [] {
      var front := passes[..|passes| - 1];
      forall first: nat ensures !StatesFirst(up, front, first, key) {
        assert StatesFirst(up, front, first, key) ==> StatesFirst(up, passes, first, key);
      }
      NoneBefore(up, front, key);
      assert !StatesFirst(up, passes, |passes| - 1, key);
    }
  }

  /** The match is never revised, so it holds of a later run exactly when both or neither of that run and the
      first spell the number in one way. */
  lemma MatchIsHonestIff(up: char -> string, passes: seq<Pass>, key: ItemKey, first: nat, later: nat)
    requires StatesFirst(up, passes, first, key) && later < |passes| && States(up, passes[later], key)
    ensures key in AfterPasses(up, passes).items
    ensures AfterPasses(up, passes).items[key].matchedBy == MatchIn(up, passes[later], key)
            <==> (SpelledAlike(up, passes[first].facts, key.normalised) <==> SpelledAlike(up, passes[later].facts, key.normalised))
  {
    MatchIsThatOfTheFirstRun(up, passes, key);
  }

  function Stating(row: nat, spelling: string): Fact {
    Fact(row, 1, Some(row), ItemIdentifier, spelling, None)
  }

  lemma OneRow(up: char -> string, a: string)
    ensures Identifiers([Stating(0, a)]) == map[(1, 0) := Stating(0, a)]
    ensures On(up, [Stating(0, a)], Stating(0, a), NormaliseItem(up, a))
    ensures SpelledAlike(up, [Stating(0, a)], NormaliseItem(up, a))
  {
    assert [Stating(0, a)][..0] == [];
    assert Identifiers([]) == map[];
  }

  lemma TwoRows(up: char -> string, a: string, b: string)
    requires a != b && NormaliseItem(up, a) == NormaliseItem(up, b)
    ensures On(up, [Stating(0, a), Stating(1, b)], Stating(0, a), NormaliseItem(up, a))
    ensures !SpelledAlike(up, [Stating(0, a), Stating(1, b)], NormaliseItem(up, a))
  {
    hide NormaliseItem;
    var facts := [Stating(0, a), Stating(1, b)];
    OneRow(up, a);
    assert facts[..1] == [Stating(0, a)] && facts[1] == Stating(1, b);
    assert Identifiers(facts) == map[(1, 0) := Stating(0, a)][(1, 1) := Stating(1, b)];
    assert facts[0] in facts && facts[1] in facts;
    assert On(up, facts, Stating(0, a), NormaliseItem(up, a)) && On(up, facts, Stating(1, b), NormaliseItem(up, a));
  }

  /** Any two spellings of one number make the record wrong: first met in one spelling and then in both it
      stays exact, first met in both and then in one it stays normalised. */
  lemma TwoSpellingsMislead(up: char -> string, project: Id, a: string, b: string)
    requires a != b && NormaliseItem(up, a) == NormaliseItem(up, b)
    ensures var key := ItemKey(project, NormaliseItem(up, a));
            var one, both := Pass(project, [Stating(0, a)]), Pass(project, [Stating(0, a), Stating(1, b)]);
            var grown, shrunk := AfterPasses(up, [one, both]).items, AfterPasses(up, [both, one]).items;
            && key in grown && grown[key].matchedBy == Exact && MatchIn(up, both, key) == Normalised
            && key in shrunk && shrunk[key].matchedBy == Normalised && MatchIn(up, one, key) == Exact
  {
    hide NormaliseItem, On, SpelledAlike, AfterPasses;
    var key := ItemKey(project, NormaliseItem(up, a));
    var one, both := Pass(project, [Stating(0, a)]), Pass(project, [Stating(0, a), Stating(1, b)]);
    OneRow(up, a);
    TwoRows(up, a, b);
    assert States(up, one, key) && States(up, both, key);
    MatchIsHonestIff(up, [one, both], key, 0, 1);
    MatchIsHonestIff(up, [both, one], key, 0, 1);
  }

  /** For example 7 and 07. */
  lemma SevenMisleads(project: Id)
    ensures "7" != "07" && NormaliseItem(Ascii, "7") == NormaliseItem(Ascii, "07")
    ensures var one, both := Pass(project, [Stating(0, "7")]), Pass(project, [Stating(0, "7"), Stating(1, "07")]);
            var key := ItemKey(project, NormaliseItem(Ascii, "7"));
            && key in AfterPasses(Ascii, [one, both]).items
            && AfterPasses(Ascii, [one, both]).items[key].matchedBy == Exact && MatchIn(Ascii, both, key) == Normalised
  {
    hide AfterPasses, MatchIn, NormaliseItem, Ascii;
    SevenTwice();
    TwoSpellingsMislead(Ascii, project, "7", "07");
  }

  lemma SevenTwice()
    ensures |"7"| != |"07"| && NormaliseItem(Ascii, "7") == NormaliseItem(Ascii, "07")
  {
    hide NormaliseItem, Ascii;
    AsciiIsACaseMap();
    assert "0" + "7" == "07";
    LeadingZeroIsIgnored(Ascii, "7");
  }
}
