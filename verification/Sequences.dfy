/** Concatenation laws, named so that proofs can ask for them one at a time. */
module Sequences {

  lemma Associative<T>(a: seq<T>, b: seq<T>, c: seq<T>)
    ensures a + (b + c) == a + b + c
  {
  }

  lemma Unwrap<T>(open: seq<T>, body: seq<T>, close: seq<T>, rest: seq<T>)
    requires |open| == 1
    ensures (open + body + close + rest)[0] == open[0]
    ensures (open + body + close + rest)[1..] == body + (close + rest)
  {
  }

  lemma Sandwich<T>(a: seq<T>, separator: seq<T>, b: seq<T>, c: seq<T>)
    ensures a + separator + b + c == a + (separator + (b + c))
    ensures (separator + (b + c))[|separator|..] == b + c
  {
  }

  lemma SameElements<T>(a: seq<T>, b: seq<T>)
    requires multiset(a) == multiset(b)
    ensures forall x :: x in a <==> x in b
  {
    assert forall x :: x in a <==> x in multiset(a);
    assert forall x :: x in b <==> x in multiset(b);
  }

  lemma HeadAndTail<T>(s: seq<T>)
    requires s != []
    ensures [s[0]] + s[1..] == s
  {
  }

  /** The last `k` elements of `a + b` are those of `b`, and as many of `a`'s as `b` is short. */
  lemma SuffixOfSum<T>(a: seq<T>, b: seq<T>, k: nat)
    requires k <= |a| + |b|
    ensures var borrowed := if |b| >= k then 0 else k - |b|;
            (a + b)[|a| + |b| - k..] == a[|a| - borrowed..] + b[|b| + borrowed - k..]
  {
  }

  function Concat<T>(parts: seq<seq<T>>): seq<T> {
    if parts == [] then [] else parts[0] + Concat(parts[1..])
  }

  lemma {:induction false} ConcatSum<T>(a: seq<seq<T>>, b: seq<seq<T>>)
    ensures Concat(a + b) == Concat(a) + Concat(b)
  {
    if a == [] {
      assert a + b == b;
    } else {
      assert (a + b)[1..] == a[1..] + b;
      ConcatSum(a[1..], b);
    }
  }

  /** Positions inside `n` elements, strictly increasing. */
  ghost predicate Increasing(cuts: seq<nat>, n: nat) {
    && (forall i :: 0 <= i < |cuts| ==> cuts[i] < n)
    && (forall i, j :: 0 <= i < j < |cuts| ==> cuts[i] < cuts[j])
  }

  /** Where the piece that starts at the `i`th cut ends. */
  function PieceEnd(cuts: seq<nat>, i: nat, n: nat): nat
    requires i < |cuts|
  {
    if i + 1 < |cuts| then cuts[i + 1] else n
  }

  lemma PieceBounds(cuts: seq<nat>, i: nat, n: nat)
    requires Increasing(cuts, n) && i < |cuts|
    ensures cuts[i] < PieceEnd(cuts, i, n) <= n
  {
  }

  lemma BetweenCuts(cuts: seq<nat>, i: nat, k: nat, n: nat)
    requires Increasing(cuts, n) && i < |cuts|
    requires (i == 0 && k < cuts[0]) || cuts[i] < k < PieceEnd(cuts, i, n)
    ensures k !in cuts
  {
    forall j | 0 <= j < |cuts| ensures cuts[j] != k {
      if j < i { assert cuts[j] < cuts[i]; }
      if i + 1 < j { assert cuts[i + 1] < cuts[j]; }
    }
  }

  ghost function Piece<T>(s: seq<T>, cuts: seq<nat>, i: nat): seq<T>
    requires i < |cuts|
  {
    var end := PieceEnd(cuts, i, |s|);
    if cuts[i] <= end <= |s| then s[cuts[i]..end] else []
  }

  /** `s` from the first cut on, cut at every position in `cuts`. */
  ghost function Pieces<T>(s: seq<T>, cuts: seq<nat>): seq<seq<T>> {
    seq(|cuts|, i requires 0 <= i < |cuts| => Piece(s, cuts, i))
  }

  lemma Rejoin<T>(s: seq<T>, i: nat, j: nat)
    requires i <= j <= |s|
    ensures s[i..] == s[i..j] + s[j..]
  {
  }

  /** Cutting loses nothing, repeats nothing and reorders nothing. */
  lemma {:induction false} PiecesConserve<T>(s: seq<T>, cuts: seq<nat>, from: nat)
    requires Increasing(cuts, |s|) && from < |cuts|
    ensures Concat(Pieces(s, cuts)[from..]) == s[cuts[from]..]
    decreases |cuts| - from
  {
    var pieces := Pieces(s, cuts);
    PieceBounds(cuts, from, |s|);
    assert pieces[from..] == [pieces[from]] + pieces[from + 1..];
    if from + 1 < |cuts| {
      PiecesConserve(s, cuts, from + 1);
      Rejoin(s, cuts[from], cuts[from + 1]);
    } else {
      assert pieces[from + 1..] == [];
    }
  }
}
