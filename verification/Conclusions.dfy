/** The canonical text of a finding's conclusion, and what its digest therefore identifies. */
module Conclusions {
  import opened Options
  import opened Ordering
  import opened Json

  /** The conclusion a reviewer was looking at. `detail` is the rule's mapping in the order it happens
      to iterate; its values are whatever the rule stored. */
  datatype Conclusion<V> = Conclusion(
    ruleId: string, ruleVersion: string,
    outcome: string, expected: string, observed: string,
    detail: seq<(string, V)>,
    evidence: seq<seq<Option<string>>>)

  ghost predicate DistinctKeys<V>(items: seq<(string, V)>) {
    forall i, j :: 0 <= i < j < |items| ==> items[i].0 != items[j].0
  }

  /** The mapping itself, whatever order it iterates in. */
  ghost function AsMap<V>(items: seq<(string, V)>): map<string, V> {
    if items == [] then map[] else AsMap(items[..|items| - 1])[items[|items| - 1].0 := items[|items| - 1].1]
  }

  // ---- The canonical text ----

  function Shown<V>(items: seq<(string, V)>, show: V -> string): seq<Member> {
    seq(|items|, i requires 0 <= i < |items| => Member(items[i].0, Str(show(items[i].1))))
  }

  const KEY: Member -> string := (m: Member) => m.key

  function Citation(entries: seq<Option<string>>): Json {
    Arr(seq(|entries|, i requires 0 <= i < |entries| => if entries[i].None? then Null else Str(entries[i].value)))
  }

  function Citations(evidence: seq<seq<Option<string>>>): seq<Json> {
    seq(|evidence|, i requires 0 <= i < |evidence| => Citation(evidence[i]))
  }

  function Payload<V>(c: Conclusion<V>, show: V -> string): Json {
    Obj([
      Member("detail", Obj(SortBy(Less, KEY, Shown(c.detail, show)))),
      Member("evidence", Arr(Citations(c.evidence))),
      Member("rule", Arr([Str(c.ruleId), Str(c.ruleVersion)])),
      Member("verdict", Arr([Str(c.outcome), Str(c.expected), Str(c.observed)]))
    ])
  }

  function Canonical<V>(c: Conclusion<V>, show: V -> string): string {
    Print(Payload(c, show))
  }

  /** The object that is digested, member by member in the order of their names. */
  lemma PayloadMembers<V>(c: Conclusion<V>, show: V -> string)
    ensures var members := Payload(c, show).members;
            && |members| == 4
            && members[0].key == "detail" && members[1].key == "evidence" && members[2].key == "rule" && members[3].key == "verdict"
            && members[2].value == Arr([Str(c.ruleId), Str(c.ruleVersion)])
            && members[3].value == Arr([Str(c.outcome), Str(c.expected), Str(c.observed)])
  {
  }

  /** `digest` stands for SHA-256 over the UTF-8 text. */
  function Fingerprint<V>(c: Conclusion<V>, show: V -> string, digest: string -> string): string {
    digest(Canonical(c, show))
  }

  ghost predicate Injective(digest: string -> string) {
    forall x, y :: digest(x) == digest(y) ==> x == y
  }

  // ---- The detail mapping, and the lists, are read back exactly ----

  /** What the rule stored, each value as the string it is shown as. */
  ghost function ShownMap<V>(items: seq<(string, V)>, show: V -> string): map<string, string> {
    map key | key in AsMap(items) :: show(AsMap(items)[key])
  }

  lemma {:induction false} AsMapExact<V>(items: seq<(string, V)>)
    requires DistinctKeys(items)
    ensures forall i :: 0 <= i < |items| ==> items[i].0 in AsMap(items) && AsMap(items)[items[i].0] == items[i].1
    ensures forall key :: key in AsMap(items) ==> exists i :: 0 <= i < |items| && items[i].0 == key
  {
    if items != [] { AsMapExact(items[..|items| - 1]); }
  }

  lemma ShownExact<V>(items: seq<(string, V)>, show: V -> string, m: Member)
    requires DistinctKeys(items)
    ensures m in Shown(items, show)
            <==> m.key in ShownMap(items, show) && m.value == Str(ShownMap(items, show)[m.key])
  {
    AsMapExact(items);
    var shown := Shown(items, show);
    if m in shown {
      var i :| 0 <= i < |shown| && shown[i] == m;
      assert items[i].0 in AsMap(items);
    }
    if m.key in ShownMap(items, show) && m.value == Str(ShownMap(items, show)[m.key]) {
      var i :| 0 <= i < |items| && items[i].0 == m.key;
      assert shown[i] == m;
    }
  }

  lemma DetailIffSameMap<V>(a: seq<(string, V)>, b: seq<(string, V)>, show: V -> string)
    requires DistinctKeys(a) && DistinctKeys(b)
    ensures SortBy(Less, KEY, Shown(a, show)) == SortBy(Less, KEY, Shown(b, show)) <==> ShownMap(a, show) == ShownMap(b, show)
  {
    LessIsStrictTotalOrder();
    var x, y := Shown(a, show), Shown(b, show);
    SortBySorts(Less, KEY, x);
    SortBySorts(Less, KEY, y);
    forall m: Member
      ensures m in x <==> m.key in ShownMap(a, show) && m.value == Str(ShownMap(a, show)[m.key])
      ensures m in y <==> m.key in ShownMap(b, show) && m.value == Str(ShownMap(b, show)[m.key])
    {
      ShownExact(a, show, m);
      ShownExact(b, show, m);
    }
    if ShownMap(a, show) == ShownMap(b, show) {
      SortedByUnique(Less, KEY, SortBy(Less, KEY, x), SortBy(Less, KEY, y));
    }
    if SortBy(Less, KEY, x) == SortBy(Less, KEY, y) {
      assert forall m :: m in x <==> m in y;
      SameMembersSameMap(ShownMap(a, show), ShownMap(b, show), x, y);
    }
  }

  lemma SameMembersSameMap(a: map<string, string>, b: map<string, string>, x: seq<Member>, y: seq<Member>)
    requires forall m: Member :: m in x <==> m.key in a && m.value == Str(a[m.key])
    requires forall m: Member :: m in y <==> m.key in b && m.value == Str(b[m.key])
    requires forall m :: m in x <==> m in y
    ensures a == b
  {
    forall key | key in a ensures key in b && b[key] == a[key] {
      assert Member(key, Str(a[key])) in x;
    }
    forall key | key in b ensures key in a {
      assert Member(key, Str(b[key])) in y;
    }
  }

  lemma CitationInjective(a: seq<Option<string>>, b: seq<Option<string>>)
    requires Citation(a) == Citation(b)
    ensures a == b
  {
    var x, y := Citation(a).items, Citation(b).items;
    assert |a| == |x| == |y| == |b|;
    forall i | 0 <= i < |a| ensures a[i] == b[i] {
      assert x[i] == y[i];
    }
  }

  lemma EvidenceInjective(a: seq<seq<Option<string>>>, b: seq<seq<Option<string>>>)
    requires Citations(a) == Citations(b)
    ensures a == b
  {
    var x, y := Citations(a), Citations(b);
    assert |a| == |x| == |y| == |b|;
    forall i | 0 <= i < |a| ensures a[i] == b[i] {
      assert x[i] == y[i];
      CitationInjective(a[i], b[i]);
    }
  }

  // ---- What the digest identifies ----

  /** Equal in everything a reviewer decided on; `None` and the empty string are different citations. */
  ghost predicate SameConclusion<V>(a: Conclusion<V>, b: Conclusion<V>, show: V -> string) {
    && a.ruleId == b.ruleId && a.ruleVersion == b.ruleVersion
    && a.outcome == b.outcome && a.expected == b.expected && a.observed == b.observed
    && ShownMap(a.detail, show) == ShownMap(b.detail, show)
    && a.evidence == b.evidence
  }

  /** Two conclusions have the same canonical text exactly when they are the same conclusion. */
  lemma CanonicalIffSame<V>(a: Conclusion<V>, b: Conclusion<V>, show: V -> string)
    requires DistinctKeys(a.detail) && DistinctKeys(b.detail)
    ensures Canonical(a, show) == Canonical(b, show) <==> SameConclusion(a, b, show)
  {
    DetailIffSameMap(a.detail, b.detail, show);
    if Canonical(a, show) == Canonical(b, show) {
      PrintInjective(Payload(a, show), Payload(b, show));
      var x, y := Payload(a, show).members, Payload(b, show).members;
      assert x[0].value.members == y[0].value.members;
      assert x[1].value.items == y[1].value.items;
      assert x[2].value.items[0] == y[2].value.items[0] && x[2].value.items[1] == y[2].value.items[1];
      assert x[3].value.items[0] == y[3].value.items[0] && x[3].value.items[1] == y[3].value.items[1]
             && x[3].value.items[2] == y[3].value.items[2];
      EvidenceInjective(a.evidence, b.evidence);
    }
  }

  /** So the digest does: no change to a verdict, a value, a detail or a citation goes unnoticed, and
      iteration order alone is never noticed. */
  lemma FingerprintIffSame<V>(a: Conclusion<V>, b: Conclusion<V>, show: V -> string, digest: string -> string)
    requires DistinctKeys(a.detail) && DistinctKeys(b.detail) && Injective(digest)
    ensures Fingerprint(a, show, digest) == Fingerprint(b, show, digest) <==> SameConclusion(a, b, show)
  {
    CanonicalIffSame(a, b, show);
  }
}
