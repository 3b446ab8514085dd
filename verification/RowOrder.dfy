/** Order of rows under ORDER BY keys: compareOrderedValues of src/execution/operators/sort.ts, key by key. */
module RowOrder {
  import opened SqlValues

  type Row = seq<Value>

  datatype NullOrder = Unspecified | First | Last
  datatype OrderKey = OrderKey(columnIndex: nat, descending: bool, nullOrder: NullOrder)

  function NullsFirstFor(descending: bool, nullOrder: NullOrder): bool {
    match nullOrder
    case Unspecified => descending
    case First => true
    case Last => false
  }

  function TypeRank(v: Value): nat {
    match v
    case Null => 0
    case Bool(_) => 1
    case Num(_) => 2
    case Str(_) => 3
  }

  /** A key column holds values of one type; the ranks only make the order total. */
  predicate Less(a: Value, b: Value)
    requires a != Null && b != Null
  {
    if SameType(a, b) then Before(a, b) else TypeRank(a) < TypeRank(b)
  }

  function CompareValues(a: Value, b: Value, descending: bool, nullsFirst: bool): int {
    if a == Null then if b == Null then 0 else if nullsFirst then -1 else 1
    else if b == Null then if nullsFirst then 1 else -1
    else if Less(a, b) then if descending then 1 else -1
    else if Less(b, a) then if descending then -1 else 1
    else 0
  }

  /** A column beyond the row reads as null. */
  function KeyColumn(row: Row, key: OrderKey): Value {
    if key.columnIndex < |row| then row[key.columnIndex] else Null
  }

  function CompareOn(key: OrderKey, a: Row, b: Row): int {
    CompareValues(KeyColumn(a, key), KeyColumn(b, key), key.descending, NullsFirstFor(key.descending, key.nullOrder))
  }

  /** The first key that tells the rows apart decides. */
  function CompareRows(keys: seq<OrderKey>, a: Row, b: Row): int {
    if keys == [] then 0
    else if CompareOn(keys[0], a, b) != 0 then CompareOn(keys[0], a, b)
    else CompareRows(keys[1..], a, b)
  }

  predicate RowLe(keys: seq<OrderKey>, a: Row, b: Row) {
    CompareRows(keys, a, b) <= 0
  }

  lemma {:induction false} LessTotal(a: Value, b: Value)
    requires a != Null && b != Null
    ensures !(Less(a, b) && Less(b, a))
    ensures !Less(a, b) && !Less(b, a) ==> a == b
  {
    if SameType(a, b) { BeforeTotal(a, b); }
  }

  lemma {:induction false} LessTransitive(a: Value, b: Value, c: Value)
    requires a != Null && b != Null && c != Null && Less(a, b) && Less(b, c)
    ensures Less(a, c)
  {
    if SameType(a, b) && SameType(b, c) { BeforeTransitive(a, b, c); }
  }

  /** Values compare equal only when they are the same, swapping them swaps the sign, and the order chains. */
  lemma {:induction false} CompareValuesOrder(a: Value, b: Value, c: Value, descending: bool, nullsFirst: bool)
    ensures CompareValues(b, a, descending, nullsFirst) == -CompareValues(a, b, descending, nullsFirst)
    ensures CompareValues(a, b, descending, nullsFirst) == 0 <==> a == b
    ensures CompareValues(a, b, descending, nullsFirst) <= 0 && CompareValues(b, c, descending, nullsFirst) <= 0
      ==> CompareValues(a, c, descending, nullsFirst) <= 0
  {
    if a != Null && b != Null { LessTotal(a, b); }
    if a != Null && b != Null && c != Null {
      LessTotal(b, c);
      LessTotal(a, c);
      if Less(a, b) && Less(b, c) { LessTransitive(a, b, c); }
      if Less(b, a) && Less(c, b) { LessTransitive(c, b, a); }
    }
  }

  lemma {:induction false} CompareRowsSign(keys: seq<OrderKey>, a: Row, b: Row)
    ensures CompareRows(keys, b, a) == -CompareRows(keys, a, b)
  {
    if keys != [] {
      CompareValuesOrder(KeyColumn(a, keys[0]), KeyColumn(b, keys[0]), Null, keys[0].descending,
        NullsFirstFor(keys[0].descending, keys[0].nullOrder));
      CompareRowsSign(keys[1..], a, b);
    }
  }

  lemma {:induction false} CompareRowsChain(keys: seq<OrderKey>, a: Row, b: Row, c: Row)
    requires RowLe(keys, a, b) && RowLe(keys, b, c)
    ensures RowLe(keys, a, c)
  {
    if keys != [] {
      var k := keys[0];
      var nf := NullsFirstFor(k.descending, k.nullOrder);
      CompareValuesOrder(KeyColumn(a, k), KeyColumn(b, k), KeyColumn(c, k), k.descending, nf);
      CompareValuesOrder(KeyColumn(b, k), KeyColumn(c, k), KeyColumn(a, k), k.descending, nf);
      CompareValuesOrder(KeyColumn(a, k), KeyColumn(c, k), KeyColumn(b, k), k.descending, nf);
      if CompareOn(k, a, b) == 0 && CompareOn(k, b, c) == 0 { CompareRowsChain(keys[1..], a, b, c); }
    }
  }

  /** RowLe is a total preorder. */
  lemma {:induction false} RowLeOrder(keys: seq<OrderKey>)
    ensures forall a, b :: RowLe(keys, a, b) || RowLe(keys, b, a)
    ensures forall a, b, c :: RowLe(keys, a, b) && RowLe(keys, b, c) ==> RowLe(keys, a, c)
  {
    forall a, b ensures RowLe(keys, a, b) || RowLe(keys, b, a) { CompareRowsSign(keys, a, b); }
    forall a, b, c | RowLe(keys, a, b) && RowLe(keys, b, c)
      ensures RowLe(keys, a, c) { CompareRowsChain(keys, a, b, c); }
  }

  /** Rows that compare equal have the same key values. */
  lemma {:induction false} EqualRowsAgree(keys: seq<OrderKey>, a: Row, b: Row)
    ensures CompareRows(keys, a, b) == 0 <==> forall i :: 0 <= i < |keys| ==>
            KeyColumn(a, keys[i]) == KeyColumn(b, keys[i])
  {
    if keys != [] {
      var k := keys[0];
      CompareValuesOrder(KeyColumn(a, k), KeyColumn(b, k), Null, k.descending,
        NullsFirstFor(k.descending, k.nullOrder));
      EqualRowsAgree(keys[1..], a, b);
      assert forall i :: 0 < i < |keys| ==> keys[i] == keys[1..][i - 1];
      assert forall i :: 0 <= i < |keys[1..]| ==> keys[1..][i] == keys[i + 1];
    }
  }

  ghost predicate Sorted(keys: seq<OrderKey>, rows: seq<Row>) {
    forall i, j :: 0 <= i < j < |rows| ==> RowLe(keys, rows[i], rows[j])
  }

  // ---------- what the order means ----------

  /** Nulls come first when FIRST is asked, and where no null order is given under a descending key. */
  predicate NullsComeFirst(key: OrderKey) {
    key.nullOrder == First || (key.nullOrder == Unspecified && key.descending)
  }

  /** One key value strictly comes before another of its type. */
  predicate Precedes(key: OrderKey, u: Value, v: Value)
    requires Comparable(u, v)
  {
    if u == Null || v == Null then u != v && (u == Null <==> NullsComeFirst(key))
    else if key.descending then Before(v, u)
    else Before(u, v)
  }

  predicate Comparable(u: Value, v: Value) {
    u == Null || v == Null || SameType(u, v)
  }

  /** Two rows whose key columns have one type each. */
  ghost predicate ComparableRows(keys: seq<OrderKey>, a: Row, b: Row) {
    forall i :: 0 <= i < |keys| ==> Comparable(KeyColumn(a, keys[i]), KeyColumn(b, keys[i]))
  }

  /** The first key in which the rows differ puts a first. */
  ghost predicate PrecedesRow(keys: seq<OrderKey>, a: Row, b: Row)
    requires ComparableRows(keys, a, b)
  {
    exists i :: 0 <= i < |keys|
      && (forall j :: 0 <= j < i ==> KeyColumn(a, keys[j]) == KeyColumn(b, keys[j]))
      && Precedes(keys[i], KeyColumn(a, keys[i]), KeyColumn(b, keys[i]))
  }

  /** One key: the smaller value comes first under an ascending key, the larger one under a descending key, and nulls
      where they belong. */
  lemma {:induction false} KeyDecides(key: OrderKey, a: Row, b: Row)
    requires Comparable(KeyColumn(a, key), KeyColumn(b, key))
    ensures CompareOn(key, a, b) < 0 <==> Precedes(key, KeyColumn(a, key), KeyColumn(b, key))
    ensures CompareOn(key, a, b) > 0 <==> Precedes(key, KeyColumn(b, key), KeyColumn(a, key))
    ensures CompareOn(key, a, b) == 0 <==> KeyColumn(a, key) == KeyColumn(b, key)
  {
    var u, v := KeyColumn(a, key), KeyColumn(b, key);
    if u != Null && v != Null { BeforeTotal(u, v); }
  }

  /** Several keys: the first in which two rows differ decides. */
  lemma {:induction false} FirstDifferenceDecides(keys: seq<OrderKey>, a: Row, b: Row)
    requires ComparableRows(keys, a, b)
    ensures CompareRows(keys, a, b) < 0 <==> PrecedesRow(keys, a, b)
  {
    if keys != [] {
      var rest := keys[1..];
      assert forall i :: 0 <= i < |rest| ==> rest[i] == keys[i + 1];
      KeyDecides(keys[0], a, b);
      FirstDifferenceDecides(rest, a, b);
      if CompareOn(keys[0], a, b) == 0 {
        PrecedesLater(keys, a, b);
      } else if PrecedesRow(keys, a, b) {
        var i :| 0 <= i < |keys| && Precedes(keys[i], KeyColumn(a, keys[i]), KeyColumn(b, keys[i]))
          && (forall j :: 0 <= j < i ==> KeyColumn(a, keys[j]) == KeyColumn(b, keys[j]));
        assert i == 0;
      }
    }
  }

  lemma {:induction false} PrecedesLater(keys: seq<OrderKey>, a: Row, b: Row)
    requires keys != [] && ComparableRows(keys, a, b) && KeyColumn(a, keys[0]) == KeyColumn(b, keys[0])
    ensures ComparableRows(keys[1..], a, b) && (PrecedesRow(keys, a, b) <==> PrecedesRow(keys[1..], a, b))
  {
    var rest := keys[1..];
    assert forall i :: 0 <= i < |rest| ==> rest[i] == keys[i + 1];
    KeyDecides(keys[0], a, b);
    if PrecedesRow(keys, a, b) {
      var i :| 0 <= i < |keys| && Precedes(keys[i], KeyColumn(a, keys[i]), KeyColumn(b, keys[i]))
        && (forall j :: 0 <= j < i ==> KeyColumn(a, keys[j]) == KeyColumn(b, keys[j]));
      assert i > 0 && rest[i - 1] == keys[i];
      assert forall j :: 0 <= j < i - 1 ==> rest[j] == keys[j + 1];
    }
    if PrecedesRow(rest, a, b) {
      var i :| 0 <= i < |rest| && Precedes(rest[i], KeyColumn(a, rest[i]), KeyColumn(b, rest[i]))
        && (forall j :: 0 <= j < i ==> KeyColumn(a, rest[j]) == KeyColumn(b, rest[j]));
      assert keys[i + 1] == rest[i];
      assert forall j :: 0 < j < i + 1 ==> keys[j] == rest[j - 1];
    }
  }

  /** Every key column has one type, nulls aside. */
  ghost predicate OneTypePerKey(keys: seq<OrderKey>, rows: seq<Row>) {
    forall i, j :: 0 <= i < j < |rows| ==> ComparableRows(keys, rows[j], rows[i])
  }

  /** Rows are sorted exactly when none of them strictly precedes an earlier one. */
  lemma {:induction false} SortedExact(keys: seq<OrderKey>, rows: seq<Row>)
    requires OneTypePerKey(keys, rows)
    ensures Sorted(keys, rows) <==> forall i, j :: 0 <= i < j < |rows| ==> !PrecedesRow(keys, rows[j], rows[i])
  {
    forall i, j | 0 <= i < j < |rows|
      ensures RowLe(keys, rows[i], rows[j]) <==> !PrecedesRow(keys, rows[j], rows[i])
    {
      FirstDifferenceDecides(keys, rows[j], rows[i]);
      CompareRowsSign(keys, rows[i], rows[j]);
    }
  }

  /** Under one key over numbers, ascending or descending, the numbers are in that order. */
  ghost predicate NumbersInOrder(keys: seq<OrderKey>, rows: seq<Row>) {
    |keys| == 1 && (forall i :: 0 <= i < |rows| ==> KeyColumn(rows[i], keys[0]).Num?) ==>
      forall i, j :: 0 <= i < j < |rows| ==>
        var x, y := KeyColumn(rows[i], keys[0]).n, KeyColumn(rows[j], keys[0]).n;
        if keys[0].descending then x >= y else x <= y
  }

  lemma {:induction false} SortedNumbers(keys: seq<OrderKey>, rows: seq<Row>)
    requires Sorted(keys, rows)
    ensures NumbersInOrder(keys, rows)
  {
    if |keys| == 1 && (forall i :: 0 <= i < |rows| ==> KeyColumn(rows[i], keys[0]).Num?) {
      forall i, j | 0 <= i < j < |rows|
        ensures !Precedes(keys[0], KeyColumn(rows[j], keys[0]), KeyColumn(rows[i], keys[0]))
      {
        assert RowLe(keys, rows[i], rows[j]);
        assert CompareRows(keys[1..], rows[i], rows[j]) == 0;
        KeyDecides(keys[0], rows[i], rows[j]);
      }
    }
  }
}
