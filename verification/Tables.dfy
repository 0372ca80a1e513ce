/** Tables keyed on a natural identity, and the read-before-write that keeps a second pass from adding
    anything. */
module Tables {

  /** Add a row unless its key is already taken. */
  function Keep<K, V>(table: map<K, V>, row: (K, V)): map<K, V> {
    if row.0 in table then table else table[row.0 := row.1]
  }

  function KeepAll<K, V>(table: map<K, V>, rows: seq<(K, V)>): map<K, V> {
    if rows == [] then table
    else Keep(KeepAll(table, rows[..|rows| - 1]), rows[|rows| - 1])
  }

  ghost predicate Names<K, V>(rows: seq<(K, V)>, k: K) {
    exists i :: 0 <= i < |rows| && rows[i].0 == k
  }

  /** No row is removed or overwritten. */
  lemma {:induction false} KeepAllKeeps<K, V>(table: map<K, V>, rows: seq<(K, V)>)
    ensures forall k :: k in table ==> k in KeepAll(table, rows) && KeepAll(table, rows)[k] == table[k]
  {
    if rows != [] { KeepAllKeeps(table, rows[..|rows| - 1]); }
  }

  /** Afterwards there is a row for every key that had one or was offered one, and for nothing else. */
  lemma {:induction false} KeepAllHolds<K, V>(table: map<K, V>, rows: seq<(K, V)>, k: K)
    ensures k in KeepAll(table, rows) <==> k in table || Names(rows, k)
    ensures k !in table && Names(rows, k) ==> exists i :: 0 <= i < |rows| && rows[i] == (k, KeepAll(table, rows)[k])
  {
    if rows != [] {
      var front, last := rows[..|rows| - 1], rows[|rows| - 1];
      KeepAllHolds(table, front, k);
      if Names(front, k) {
        var i :| 0 <= i < |front| && front[i].0 == k;
        assert rows[i].0 == k;
      }
      if last.0 == k { assert rows[|rows| - 1].0 == k; }
      if k !in table && k in KeepAll(table, front) {
        var i :| 0 <= i < |front| && front[i] == (k, KeepAll(table, front)[k]);
        assert rows[i] == (k, KeepAll(table, rows)[k]);
      }
    }
  }

  lemma {:induction false} KeepAllPresent<K, V>(table: map<K, V>, rows: seq<(K, V)>)
    requires forall i :: 0 <= i < |rows| ==> rows[i].0 in table
    ensures KeepAll(table, rows) == table
  {
    if rows != [] { KeepAllPresent(table, rows[..|rows| - 1]); }
  }

  /** A second pass over the same rows adds nothing. */
  lemma KeepAllTwice<K, V>(table: map<K, V>, rows: seq<(K, V)>)
    ensures KeepAll(KeepAll(table, rows), rows) == KeepAll(table, rows)
  {
    forall i | 0 <= i < |rows| ensures rows[i].0 in KeepAll(table, rows) {
      KeepAllHolds(table, rows, rows[i].0);
    }
    KeepAllPresent(KeepAll(table, rows), rows);
  }

  lemma {:induction false} KeepAllSum<K, V>(table: map<K, V>, a: seq<(K, V)>, b: seq<(K, V)>)
    ensures KeepAll(table, a + b) == KeepAll(KeepAll(table, a), b)
  {
    if b == [] {
      assert a + b == a;
    } else {
      assert (a + b)[..|a + b| - 1] == a + b[..|b| - 1];
      KeepAllSum(table, a, b[..|b| - 1]);
    }
  }

  lemma KeepAllOneMore<K, V>(table: map<K, V>, rows: seq<(K, V)>, row: (K, V))
    ensures KeepAll(table, rows + [row]) == Keep(KeepAll(table, rows), row)
  {
    assert (rows + [row])[..|rows|] == rows;
  }

  // ---- Overwriting ----

  function PutAll<K, V>(table: map<K, V>, rows: seq<(K, V)>): map<K, V> {
    if rows == [] then table
    else PutAll(table, rows[..|rows| - 1])[rows[|rows| - 1].0 := rows[|rows| - 1].1]
  }

  /** How many of the writes, one after another, change something. */
  function Changes<K, V(==)>(table: map<K, V>, rows: seq<(K, V)>): nat {
    if rows == [] then 0
    else
      var before, row := PutAll(table, rows[..|rows| - 1]), rows[|rows| - 1];
      Changes(table, rows[..|rows| - 1]) + if row.0 in before && before[row.0] == row.1 then 0 else 1
  }

  ghost predicate Holds<K, V>(table: map<K, V>, row: (K, V)) {
    row.0 in table && table[row.0] == row.1
  }

  /** No key is written twice with different values. */
  ghost predicate Functional<K, V>(rows: seq<(K, V)>) {
    forall i, j :: 0 <= i < |rows| && 0 <= j < |rows| && rows[i].0 == rows[j].0 ==> rows[i] == rows[j]
  }

  lemma {:induction false} PutAllHolds<K, V>(table: map<K, V>, rows: seq<(K, V)>, i: nat)
    requires i < |rows| && Functional(rows)
    ensures Holds(PutAll(table, rows), rows[i])
  {
    if i < |rows| - 1 {
      assert Functional(rows[..|rows| - 1]);
      PutAllHolds(table, rows[..|rows| - 1], i);
    }
  }

  lemma {:induction false} PutAllElsewhere<K, V>(table: map<K, V>, rows: seq<(K, V)>, k: K)
    requires !Names(rows, k)
    ensures k in PutAll(table, rows) <==> k in table
    ensures k in table ==> PutAll(table, rows)[k] == table[k]
  {
    if rows != [] {
      var front := rows[..|rows| - 1];
      assert rows[|rows| - 1].0 != k;
      forall i | 0 <= i < |front| ensures front[i].0 != k { assert rows[i].0 != k; }
      PutAllElsewhere(table, front, k);
    }
  }

  /** A key that was written holds one of the values written to it. */
  lemma {:induction false} PutAllNamed<K, V>(table: map<K, V>, rows: seq<(K, V)>, k: K)
    requires Names(rows, k)
    ensures k in PutAll(table, rows) && exists i :: 0 <= i < |rows| && rows[i] == (k, PutAll(table, rows)[k])
  {
    var last := |rows| - 1;
    if rows[last].0 == k {
      assert rows[last] == (k, PutAll(table, rows)[k]);
    } else {
      var j :| 0 <= j < |rows| && rows[j].0 == k;
      assert rows[..last][j].0 == k;
      PutAllNamed(table, rows[..last], k);
      var i :| 0 <= i < last && rows[..last][i] == (k, PutAll(table, rows[..last])[k]);
      assert rows[i] == (k, PutAll(table, rows)[k]);
    }
  }

  /** Writes that are already in place change nothing. */
  lemma {:induction false} PutAllPresent<K, V>(table: map<K, V>, rows: seq<(K, V)>)
    requires forall i :: 0 <= i < |rows| ==> Holds(table, rows[i])
    ensures PutAll(table, rows) == table && Changes(table, rows) == 0
  {
    if rows != [] {
      assert forall i :: 0 <= i < |rows| - 1 ==> rows[..|rows| - 1][i] == rows[i];
      PutAllPresent(table, rows[..|rows| - 1]);
    }
  }

  lemma {:induction false} PutAllSum<K, V>(table: map<K, V>, a: seq<(K, V)>, b: seq<(K, V)>)
    ensures PutAll(table, a + b) == PutAll(PutAll(table, a), b)
    ensures Changes(table, a + b) == Changes(table, a) + Changes(PutAll(table, a), b)
  {
    if b == [] {
      assert a + b == a;
    } else {
      assert (a + b)[..|a + b| - 1] == a + b[..|b| - 1];
      PutAllSum(table, a, b[..|b| - 1]);
    }
  }

  lemma PutAllOneMore<K, V>(table: map<K, V>, rows: seq<(K, V)>, row: (K, V))
    ensures PutAll(table, rows + [row]) == PutAll(table, rows)[row.0 := row.1]
  {
    assert (rows + [row])[..|rows|] == rows;
  }

  lemma {:induction false} NothingChangesIff<K, V>(table: map<K, V>, rows: seq<(K, V)>)
    requires Functional(rows)
    ensures Changes(table, rows) == 0 <==> forall i :: 0 <= i < |rows| ==> Holds(table, rows[i])
  {
    if forall i :: 0 <= i < |rows| ==> Holds(table, rows[i]) {
      PutAllPresent(table, rows);
    } else {
      var i :| 0 <= i < |rows| && !Holds(table, rows[i]);
      FirstWriteChanges(table, rows, i);
    }
  }

  lemma {:induction false} FirstWriteChanges<K, V>(table: map<K, V>, rows: seq<(K, V)>, i: nat)
    requires Functional(rows) && i < |rows| && !Holds(table, rows[i])
    ensures Changes(table, rows) > 0
  {
    var front, last := rows[..|rows| - 1], rows[|rows| - 1];
    assert Functional(front);
    if i < |front| {
      FirstWriteChanges(table, front, i);
    } else if Names(front, last.0) {
      var j :| 0 <= j < |front| && front[j].0 == last.0;
      assert rows[j] == rows[|front|];
      FirstWriteChanges(table, front, j);
    } else {
      PutAllElsewhere(table, front, last.0);
    }
  }

  // ---- Counting rows ----

  ghost predicate NoRepeats<T>(s: seq<T>) {
    forall i, j :: 0 <= i < j < |s| ==> s[i] != s[j]
  }

  ghost function Elements<T>(s: seq<T>): set<T> {
    set x | x in s
  }

  /** The keys that hold something else afterwards. */
  ghost function Changed<K, V>(before: map<K, V>, after: map<K, V>): set<K> {
    set k | k in after && (k !in before || before[k] != after[k])
  }

  lemma {:induction false} FunctionalHolds<K, V>(table: map<K, V>, rows: seq<(K, V)>, row: (K, V))
    requires rows != [] && Functional(rows) && row == rows[|rows| - 1]
    ensures var before := PutAll(table, rows[..|rows| - 1]);
            row.0 in before && before[row.0] != row.1 ==> row.0 in table && before[row.0] == table[row.0] && !Names(rows[..|rows| - 1], row.0)
    ensures var before := PutAll(table, rows[..|rows| - 1]);
            row.0 !in before ==> row.0 !in table
  {
    var front := rows[..|rows| - 1];
    if Names(front, row.0) {
      var i :| 0 <= i < |front| && front[i].0 == row.0;
      assert Functional(front);
      assert rows[i] == rows[|rows| - 1];
      PutAllHolds(table, front, i);
    } else {
      PutAllElsewhere(table, front, row.0);
    }
  }

  /** Writes that agree with each other change something exactly as often as a key ends up with another value. */
  lemma {:induction false} ChangesCount<K, V>(table: map<K, V>, rows: seq<(K, V)>)
    requires Functional(rows)
    ensures Changes(table, rows) == |Changed(table, PutAll(table, rows))|
  {
    if rows == [] {
      assert Changed(table, table) == {};
    } else {
      var front, row := rows[..|rows| - 1], rows[|rows| - 1];
      assert Functional(front);
      ChangesCount(table, front);
      FunctionalHolds(table, rows, row);
      var before, after := PutAll(table, front), PutAll(table, rows);
      if row.0 in before && before[row.0] == row.1 {
        assert after == before;
      } else {
        assert row.0 !in Changed(table, before);
        assert Changed(table, after) == Changed(table, before) + {row.0};
      }
    }
  }


  /** A list is as long as its set of elements exactly when nothing is listed twice. */
  lemma {:induction false} CountedOnceIff<T>(s: seq<T>)
    ensures |Elements(s)| <= |s|
    ensures |Elements(s)| == |s| <==> NoRepeats(s)
  {
    if s == [] {
      assert Elements(s) == {};
    } else {
      var front, last := s[..|s| - 1], s[|s| - 1];
      CountedOnceIff(front);
      assert s == front + [last];
      assert Elements(s) == Elements(front) + {last};
      if last in front {
        assert Elements(s) == Elements(front);
        var i :| 0 <= i < |front| && front[i] == last;
        assert s[i] == s[|s| - 1];
      } else {
        assert forall i :: 0 <= i < |front| ==> s[i] == front[i] && front[i] != last;
        if NoRepeats(s) { assert forall i, j :: 0 <= i < j < |front| ==> front[i] == s[i] && front[j] == s[j]; }
      }
    }
  }
}
