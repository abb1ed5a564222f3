/** Rows collected in an insertion-ordered `Map` under an identity, the first or the last one kept. */
module Identity {
  import opened Prelude

  function KeysOf<R, K(==)>(rows: seq<R>, key: R -> K): set<K> {
    set i | 0 <= i < |rows| :: key(rows[i])
  }

  lemma KeysOfAppend<R, K>(rows: seq<R>, row: R, key: R -> K)
    ensures KeysOf(rows + [row], key) == KeysOf(rows, key) + {key(row)}
  {
    var all := rows + [row];
    forall k | k in KeysOf(rows, key) + {key(row)}
      ensures k in KeysOf(all, key)
    {
      if k in KeysOf(rows, key) {
        var i :| 0 <= i < |rows| && key(rows[i]) == k;
        assert all[i] == rows[i];
      } else {
        assert all[|rows|] == row;
      }
    }
  }

  /** What `if (!map.has(key)) map.set(key, row)` leaves in the map, in insertion order. */
  function FirstOccurrences<R, K(==)>(rows: seq<R>, key: R -> K): seq<R> {
    if rows == [] then []
    else
      var init, last := rows[..|rows| - 1], rows[|rows| - 1];
      FirstOccurrences(init, key) + if key(last) in KeysOf(init, key) then [] else [last]
  }

  predicate IsFirst<R, K(==)>(rows: seq<R>, key: R -> K, i: int) {
    0 <= i < |rows| && forall j :: 0 <= j < i ==> key(rows[j]) != key(rows[i])
  }

  lemma FirstIsNew<R, K>(rows: seq<R>, key: R -> K, n: nat)
    requires n < |rows|
    ensures IsFirst(rows, key, n) <==> key(rows[n]) !in KeysOf(rows[..n], key)
  {
  }

  /** `at` lists exactly the positions of first occurrences, in order. */
  ghost predicate ListsFirsts<R, K>(rows: seq<R>, key: R -> K, at: seq<int>) {
    && (forall a :: 0 <= a < |at| ==> IsFirst(rows, key, at[a]))
    && (forall a, b :: 0 <= a < b < |at| ==> at[a] < at[b])
    && (forall i :: IsFirst(rows, key, i) ==> i in at)
  }

  /** The kept rows are exactly the first row of every identity, in their original order. */
  lemma {:induction false} FirstOccurrencesAreExact<R, K>(rows: seq<R>, key: R -> K) returns (at: seq<int>)
    ensures ListsFirsts(rows, key, at)
    ensures |at| == |FirstOccurrences(rows, key)|
    ensures forall a :: 0 <= a < |at| ==> FirstOccurrences(rows, key)[a] == rows[at[a]]
  {
    if rows == [] {
      at := [];
    } else {
      hide IsFirst;
      var n := |rows| - 1;
      var init := rows[..n];
      var before := FirstOccurrencesAreExact(init, key);
      at := before + if key(rows[n]) in KeysOf(init, key) then [] else [n];
      forall i | 0 <= i < n
        ensures IsFirst(rows, key, i) <==> IsFirst(init, key, i)
      {
        FirstInPrefix(rows, key, i);
      }
      FirstIsNew(rows, key, n);
      InRange(init, key, before);
      forall i | IsFirst(rows, key, i)
        ensures i in at
      {
        InRangeOne(rows, key, i);
        assert i == n ==> at[|before|] == n;
      }
    }
  }

  lemma FirstInPrefix<R, K>(rows: seq<R>, key: R -> K, i: nat)
    requires i < |rows| - 1
    ensures IsFirst(rows, key, i) <==> IsFirst(rows[..|rows| - 1], key, i)
  {
    var init := rows[..|rows| - 1];
    assert forall j :: 0 <= j <= i ==> init[j] == rows[j];
  }

  lemma InRangeOne<R, K>(rows: seq<R>, key: R -> K, i: int)
    requires IsFirst(rows, key, i)
    ensures 0 <= i < |rows|
  {
  }

  lemma InRange<R, K>(rows: seq<R>, key: R -> K, at: seq<int>)
    requires ListsFirsts(rows, key, at)
    ensures forall a :: 0 <= a < |at| ==> 0 <= at[a] < |rows|
  {
  }

  /** Nothing is lost and nothing is doubled. */
  lemma {:induction false} FirstOccurrencesKeepEveryKey<R, K>(rows: seq<R>, key: R -> K)
    ensures KeysOf(FirstOccurrences(rows, key), key) == KeysOf(rows, key)
    ensures var kept := FirstOccurrences(rows, key);
            forall a, b :: 0 <= a < b < |kept| ==> key(kept[a]) != key(kept[b])
    ensures forall row :: row in FirstOccurrences(rows, key) ==> row in rows
  {
    if rows != [] {
      var n := |rows| - 1;
      FirstOccurrencesKeepEveryKey(rows[..n], key);
      var kept := FirstOccurrences(rows[..n], key);
      assert rows == rows[..n] + [rows[n]];
      KeysOfAppend(rows[..n], rows[n], key);
      if key(rows[n]) in KeysOf(rows[..n], key) {
        assert FirstOccurrences(rows, key) == kept;
      } else {
        KeysOfAppend(kept, rows[n], key);
        forall a | 0 <= a < |kept|
          ensures key(kept[a]) != key(rows[n])
        {
          assert key(kept[a]) in KeysOf(kept, key);
        }
      }
    }
  }

  /** A key keeps the first row that has it. */
  lemma {:induction false} FirstOccurrenceOf<R, K>(rows: seq<R>, key: R -> K, i: nat)
    requires IsFirst(rows, key, i)
    ensures rows[i] in FirstOccurrences(rows, key)
  {
    var at := FirstOccurrencesAreExact(rows, key);
    var a :| 0 <= a < |at| && at[a] == i;
    assert FirstOccurrences(rows, key)[a] == rows[i];
  }

  lemma FirstOccurrencesAppend<R, K>(rows: seq<R>, row: R, key: R -> K)
    ensures FirstOccurrences(rows + [row], key)
         == FirstOccurrences(rows, key) + if key(row) in KeysOf(rows, key) then [] else [row]
  {
    assert (rows + [row])[..|rows + [row]| - 1] == rows;
  }

  /** What `map.set(key, row)` leaves in the map: the position of the first row, the value of the last. */
  function Values<R, K>(keys: seq<K>, values: map<K, R>): seq<R>
    requires forall i :: 0 <= i < |keys| ==> keys[i] in values
  {
    seq(|keys|, i requires 0 <= i < |keys| => values[keys[i]])
  }

  function LastValue<R, K(==)>(rows: seq<R>, key: R -> K, k: K): R
    requires k in KeysOf(rows, key)
  {
    var n := |rows| - 1;
    if key(rows[n]) == k then rows[n]
    else
      assert k in KeysOf(rows[..n], key) by {
        KeysOfAppend(rows[..n], rows[n], key);
        assert rows == rows[..n] + [rows[n]];
      }
      LastValue(rows[..n], key, k)
  }

  /** The value kept for a key is that of the last row that has it. */
  lemma {:induction false} LastValueIsOfTheLast<R, K>(rows: seq<R>, key: R -> K, k: K) returns (i: nat)
    requires k in KeysOf(rows, key)
    ensures i < |rows| && key(rows[i]) == k && LastValue(rows, key, k) == rows[i]
    ensures forall j :: i < j < |rows| ==> key(rows[j]) != k
  {
    var n := |rows| - 1;
    if key(rows[n]) == k {
      i := n;
    } else {
      KeysOfAppend(rows[..n], rows[n], key);
      assert rows == rows[..n] + [rows[n]];
      i := LastValueIsOfTheLast(rows[..n], key, k);
    }
  }

  lemma KeyOfRow<R, K>(rows: seq<R>, key: R -> K, i: nat)
    requires i < |rows|
    ensures key(rows[i]) in KeysOf(rows, key)
  {
  }

  function LastOccurrences<R, K(==)>(rows: seq<R>, key: R -> K): (kept: seq<R>)
    ensures |kept| == |FirstOccurrences(rows, key)|
  {
    var firsts := FirstOccurrences(rows, key);
    seq(|firsts|, i requires 0 <= i < |firsts| =>
      KeyOfFirst(rows, key, i);
      LastValue(rows, key, key(firsts[i])))
  }

  lemma KeyOfFirst<R, K>(rows: seq<R>, key: R -> K, i: nat)
    requires i < |FirstOccurrences(rows, key)|
    ensures key(FirstOccurrences(rows, key)[i]) in KeysOf(rows, key)
  {
    FirstOccurrencesKeepEveryKey(rows, key);
    KeyOfRow(FirstOccurrences(rows, key), key, i);
  }

  lemma {:induction false} KeysOfConcat<R, K>(a: seq<R>, b: seq<R>, key: R -> K)
    ensures KeysOf(a + b, key) == KeysOf(a, key) + KeysOf(b, key)
  {
    if b == [] {
      assert a + b == a;
    } else {
      hide KeysOf;
      var before, last := b[..|b| - 1], b[|b| - 1];
      KeysOfConcat(a, before, key);
      assert b == before + [last] && a + b == (a + before) + [last];
      KeysOfAppend(before, last, key);
      KeysOfAppend(a + before, last, key);
    }
  }

  /** Of two lists in a row, a later row is kept if it is kept of its own list and its identity is new. */
  lemma {:induction false} FirstOccurrencesConcat<R, K>(a: seq<R>, b: seq<R>, key: R -> K, row: R)
    ensures row in FirstOccurrences(a + b, key)
       <==> row in FirstOccurrences(a, key) || (row in FirstOccurrences(b, key) && key(row) !in KeysOf(a, key))
  {
    if b == [] {
      assert a + b == a;
    } else {
      hide KeysOf;
      var before, last := b[..|b| - 1], b[|b| - 1];
      FirstOccurrencesConcat(a, before, key, row);
      KeysOfConcat(a, before, key);
      assert b == before + [last] && a + b == (a + before) + [last];
      FirstOccurrencesAppend(a + before, last, key);
    }
  }

  /** Rows without a repeated identity are all kept. */
  lemma {:induction false} DistinctRowsAreKept<R, K>(rows: seq<R>, key: R -> K)
    requires forall i, j :: 0 <= i < j < |rows| ==> key(rows[i]) != key(rows[j])
    ensures FirstOccurrences(rows, key) == rows
  {
    if rows != [] {
      DistinctRowsAreKept(rows[..|rows| - 1], key);
      FirstIsNew(rows, key, |rows| - 1);
    }
  }
}
