/** Sorted sequences of rows: what two sorted arrangements of the same rows have in common. */
module SortedRows {
  import opened RowOrder

  /** How many rows come no later than the pivot. */
  function CountLe(keys: seq<OrderKey>, rows: seq<Row>, pivot: Row): nat {
    if rows == [] then 0
    else CountLe(keys, rows[..|rows| - 1], pivot) + if RowLe(keys, rows[|rows| - 1], pivot) then 1 else 0
  }

  lemma {:induction false} CountLeAppend(keys: seq<OrderKey>, a: seq<Row>, b: seq<Row>, pivot: Row)
    ensures CountLe(keys, a + b, pivot) == CountLe(keys, a, pivot) + CountLe(keys, b, pivot)
  {
    if b == [] {
      assert a + b == a;
    } else {
      var front := b[..|b| - 1];
      CountLeAppend(keys, a, front, pivot);
      assert (a + b)[..|a + b| - 1] == a + front;
    }
  }

  lemma {:induction false} RemoveAt(keys: seq<OrderKey>, b: seq<Row>, i: nat, pivot: Row)
    requires i < |b|
    ensures multiset(b) == multiset(b[..i] + b[i + 1..]) + multiset{b[i]}
    ensures CountLe(keys, b, pivot) == CountLe(keys, b[..i] + b[i + 1..], pivot)
            + if RowLe(keys, b[i], pivot) then 1 else 0
  {
    assert b == b[..i] + ([b[i]] + b[i + 1..]);
    CountLeAppend(keys, b[..i], b[i + 1..], pivot);
    CountLeAppend(keys, b[..i], [b[i]] + b[i + 1..], pivot);
    CountLeAppend(keys, [b[i]], b[i + 1..], pivot);
    CountLeOne(keys, b[i], pivot);
  }

  lemma {:induction false} Cancel(a: multiset<Row>, b: multiset<Row>, x: Row)
    requires a + multiset{x} == b + multiset{x}
    ensures a == b
  {
    assert a == (a + multiset{x}) - multiset{x} && b == (b + multiset{x}) - multiset{x};
  }

  lemma {:induction false} CountLePermuted(keys: seq<OrderKey>, a: seq<Row>, b: seq<Row>, pivot: Row)
    requires multiset(a) == multiset(b)
    ensures CountLe(keys, a, pivot) == CountLe(keys, b, pivot)
  {
    assert |multiset(a)| == |a| && |multiset(b)| == |b|;
    if a != [] {
      var last := a[|a| - 1];
      assert last in multiset(b);
      var i :| 0 <= i < |b| && b[i] == last;
      RemoveAt(keys, b, i, pivot);
      var front, rest := a[..|a| - 1], b[..i] + b[i + 1..];
      assert a == front + [last];
      assert multiset(a) == multiset(front) + multiset{last};
      Cancel(multiset(front), multiset(rest), last);
      CountLePermuted(keys, front, rest, pivot);
    }
  }

  lemma {:induction false} CountLeOne(keys: seq<OrderKey>, row: Row, pivot: Row)
    ensures CountLe(keys, [row], pivot) == if RowLe(keys, row, pivot) then 1 else 0
  {
    assert [row][..0] == [];
  }

  lemma {:induction false} CountLeAll(keys: seq<OrderKey>, rows: seq<Row>, pivot: Row)
    ensures CountLe(keys, rows, pivot) <= |rows|
    ensures (forall i :: 0 <= i < |rows| ==> RowLe(keys, rows[i], pivot)) ==> CountLe(keys, rows, pivot) == |rows|
    ensures (forall i :: 0 <= i < |rows| ==> !RowLe(keys, rows[i], pivot)) ==> CountLe(keys, rows, pivot) == 0
  {
    if rows != [] { CountLeAll(keys, rows[..|rows| - 1], pivot); }
  }

  /** In a sorted sequence the rows up to i, and none before the first larger one, come no later than the pivot. */
  lemma {:induction false} CountLeSplit(keys: seq<OrderKey>, low: seq<Row>, high: seq<Row>, pivot: Row)
    ensures (forall i :: 0 <= i < |low| ==> RowLe(keys, low[i], pivot)) ==> CountLe(keys, low + high, pivot) >= |low|
    ensures (forall i :: 0 <= i < |high| ==> !RowLe(keys, high[i], pivot)) ==> CountLe(keys, low + high, pivot) <= |low|
  {
    CountLeAppend(keys, low, high, pivot);
    CountLeAll(keys, low, pivot);
    CountLeAll(keys, high, pivot);
  }

  lemma {:induction false} CountLeLow(keys: seq<OrderKey>, low: seq<Row>, high: seq<Row>, pivot: Row)
    requires Sorted(keys, low) && low != [] && RowLe(keys, low[|low| - 1], pivot)
    ensures CountLe(keys, low + high, pivot) >= |low|
  {
    forall j | 0 <= j < |low| ensures RowLe(keys, low[j], pivot) {
      if j < |low| - 1 { CompareRowsChain(keys, low[j], low[|low| - 1], pivot); }
    }
    CountLeSplit(keys, low, high, pivot);
  }

  lemma {:induction false} CountLeHigh(keys: seq<OrderKey>, low: seq<Row>, high: seq<Row>, pivot: Row)
    requires Sorted(keys, high) && high != [] && !RowLe(keys, high[0], pivot)
    ensures CountLe(keys, low + high, pivot) <= |low|
  {
    forall j | 0 <= j < |high| ensures !RowLe(keys, high[j], pivot) {
      if j > 0 && RowLe(keys, high[j], pivot) { CompareRowsChain(keys, high[0], high[j], pivot); }
    }
    CountLeSplit(keys, low, high, pivot);
  }

  lemma {:induction false} CountLeSorted(keys: seq<OrderKey>, rows: seq<Row>, i: nat, pivot: Row)
    requires Sorted(keys, rows) && i < |rows|
    ensures RowLe(keys, rows[i], pivot) ==> CountLe(keys, rows, pivot) >= i + 1
    ensures !RowLe(keys, rows[i], pivot) ==> CountLe(keys, rows, pivot) <= i
  {
    if RowLe(keys, rows[i], pivot) {
      SortedSlice(keys, rows, 0, i + 1);
      CountLeLow(keys, rows[0..i + 1], rows[i + 1..], pivot);
      assert rows == rows[0..i + 1] + rows[i + 1..];
    } else {
      SortedSlice(keys, rows, i, |rows|);
      CountLeHigh(keys, rows[..i], rows[i..|rows|], pivot);
      assert rows == rows[..i] + rows[i..|rows|];
    }
  }

  /** Two sorted arrangements of the same rows have the same key values at every place. */
  lemma {:induction false} SortedKeysUnique(keys: seq<OrderKey>, a: seq<Row>, b: seq<Row>, i: nat)
    requires Sorted(keys, a) && Sorted(keys, b) && multiset(a) == multiset(b) && i < |a|
    ensures i < |b| && CompareRows(keys, a[i], b[i]) == 0
  {
    assert |multiset(a)| == |a| && |multiset(b)| == |b|;
    RowLeOrder(keys);
    CountLePermuted(keys, a, b, a[i]);
    CountLePermuted(keys, a, b, b[i]);
    CountLeSorted(keys, a, i, b[i]);
    CountLeSorted(keys, b, i, b[i]);
    CountLeSorted(keys, a, i, a[i]);
    CountLeSorted(keys, b, i, a[i]);
    CompareRowsSign(keys, a[i], b[i]);
  }

  /** Rows taken in order from the front of some sorted arrangement of the given rows. */
  ghost predicate SortedPrefixOf(keys: seq<OrderKey>, top: seq<Row>, all: multiset<Row>) {
    exists rest: seq<Row> :: Sorted(keys, top + rest) && multiset(top + rest) == all
  }

  /** A row put behind everything before it keeps the sequence sorted. */
  lemma {:induction false} SortedAppend(keys: seq<OrderKey>, a: seq<Row>, b: seq<Row>)
    requires Sorted(keys, a) && Sorted(keys, b)
    requires a != [] && b != [] ==> RowLe(keys, a[|a| - 1], b[0])
    ensures Sorted(keys, a + b)
  {
    RowLeOrder(keys);
  }

  lemma {:induction false} SortedSlice(keys: seq<OrderKey>, a: seq<Row>, lo: nat, hi: nat)
    requires Sorted(keys, a) && lo <= hi <= |a|
    ensures Sorted(keys, a[lo..hi])
  {}

  // ---------- sorting ----------

  function InsertRow(keys: seq<OrderKey>, rows: seq<Row>, row: Row): seq<Row> {
    if rows == [] || RowLe(keys, rows[|rows| - 1], row) then rows + [row]
    else InsertRow(keys, rows[..|rows| - 1], row) + [rows[|rows| - 1]]
  }

  /** The stable sort of the rows. */
  function SortRows(keys: seq<OrderKey>, rows: seq<Row>): seq<Row> {
    if rows == [] then [] else InsertRow(keys, SortRows(keys, rows[..|rows| - 1]), rows[|rows| - 1])
  }

  lemma {:induction false} InsertRowSorts(keys: seq<OrderKey>, rows: seq<Row>, row: Row)
    requires Sorted(keys, rows)
    ensures Sorted(keys, InsertRow(keys, rows, row))
            && multiset(InsertRow(keys, rows, row)) == multiset(rows) + multiset{row}
  {
    RowLeOrder(keys);
    if rows == [] || RowLe(keys, rows[|rows| - 1], row) {
      SortedAppend(keys, rows, [row]);
    } else {
      var front, last := rows[..|rows| - 1], rows[|rows| - 1];
      assert rows == front + [last];
      InsertRowSorts(keys, front, row);
      var inserted := InsertRow(keys, front, row);
      forall i | 0 <= i < |inserted| ensures RowLe(keys, inserted[i], last) {
        assert inserted[i] in multiset(inserted);
        if inserted[i] != row {
          assert inserted[i] in multiset(front);
          var j :| 0 <= j < |front| && front[j] == inserted[i];
          assert RowLe(keys, rows[j], rows[|rows| - 1]);
        }
      }
      SortedAppend(keys, inserted, [last]);
    }
  }

  lemma {:induction false} SortRowsSorts(keys: seq<OrderKey>, rows: seq<Row>)
    ensures Sorted(keys, SortRows(keys, rows)) && multiset(SortRows(keys, rows)) == multiset(rows)
    ensures |SortRows(keys, rows)| == |rows|
  {
    if rows != [] {
      SortRowsSorts(keys, rows[..|rows| - 1]);
      InsertRowSorts(keys, SortRows(keys, rows[..|rows| - 1]), rows[|rows| - 1]);
      assert rows == rows[..|rows| - 1] + [rows[|rows| - 1]];
    }
    assert |multiset(SortRows(keys, rows))| == |SortRows(keys, rows)| && |multiset(rows)| == |rows|;
  }

  /** Sorted rows followed by rows that come no earlier are the front of a sorted arrangement. */
  lemma {:induction false} LeastRowsAreAPrefix(keys: seq<OrderKey>, top: seq<Row>, others: seq<Row>)
    requires Sorted(keys, top)
    requires top != [] ==> forall i :: 0 <= i < |others| ==> RowLe(keys, top[|top| - 1], others[i])
    ensures SortedPrefixOf(keys, top, multiset(top + others))
  {
    var rest := SortRows(keys, others);
    SortRowsSorts(keys, others);
    if top != [] && rest != [] {
      assert rest[0] in multiset(others);
      var i :| 0 <= i < |others| && others[i] == rest[0];
    }
    SortedAppend(keys, top, rest);
  }

  /** Any two sorted prefixes of the same rows with the same length have the same key values. */
  lemma {:induction false} SortedPrefixUnique(keys: seq<OrderKey>, a: seq<Row>, b: seq<Row>, all: multiset<Row>, i: nat)
    requires SortedPrefixOf(keys, a, all) && SortedPrefixOf(keys, b, all) && i < |a| && i < |b|
    ensures CompareRows(keys, a[i], b[i]) == 0
  {
    var ra: seq<Row> :| Sorted(keys, a + ra) && multiset(a + ra) == all;
    var rb: seq<Row> :| Sorted(keys, b + rb) && multiset(b + rb) == all;
    SortedKeysUnique(keys, a + ra, b + rb, i);
  }
}
