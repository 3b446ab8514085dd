/** When a plan's rows are unique on some columns: src/optimizer/unique-keys.ts. */
module UniqueKeys {
  import opened Wrappers
  import opened Sequences
  import opened SqlValues
  import opened RowOrder
  import opened SortedRows
  import opened KeyDirectory
  import opened Plans

  type ColumnKeys = set<ColumnKey>

  // ---------- the analysis ----------

  function TranslateKey(items: seq<Item>, outputAlias: string, key: ColumnKey): Option<ColumnKey> {
    if outputAlias != "" && key.tableAlias != outputAlias then None
    else
      var i := IndexOf(OutputNames(items), key.columnName);
      if i.Some? && items[i.value].expr.ColumnOf? then Some(items[i.value].expr.key) else None
  }

  /** The child columns the keys stand for, if every key is a plain column of the child. */
  function TranslateKeys(items: seq<Item>, outputAlias: string, keys: ColumnKeys): Option<ColumnKeys> {
    if forall k :: k in keys ==> TranslateKey(items, outputAlias, k).Some?
    then Some(set k | k in keys && TranslateKey(items, outputAlias, k).Some? ::
      TranslateKey(items, outputAlias, k).value)
    else None
  }

  method TranslateThroughProject(items: seq<Item>, outputAlias: string, keys: ColumnKeys)
      returns (translated: Option<ColumnKeys>)
    ensures translated == TranslateKeys(items, outputAlias, keys)
  {
    var found: ColumnKeys := {};
    var rest := keys;
    while rest != {}
      invariant rest <= keys
      invariant forall k :: k in keys - rest ==> TranslateKey(items, outputAlias, k).Some?
      invariant found == set k | k in keys - rest
                && TranslateKey(items, outputAlias, k).Some? :: TranslateKey(items, outputAlias, k).value
    {
      var key :| key in rest;
      var source := TranslateKey(items, outputAlias, key);
      if source.None? { return None; }
      assert keys - (rest - {key}) == (keys - rest) + {key};
      rest := rest - {key};
      found := found + {source.value};
    }
    assert keys - rest == keys;
    return Some(found);
  }

  function OutputKey(item: Item, outputAlias: string): ColumnKey {
    ColumnKey(if outputAlias != "" then outputAlias else if item.expr.ColumnOf? then item.expr.key.tableAlias
      else "", OutputName(item))
  }

  /** The keys of all output columns of a projection; none when a column has no name. */
  function OutputKeys(plan: Plan): Option<ColumnKeys> {
    if !plan.Project? || exists i :: 0 <= i < |plan.items| && OutputName(plan.items[i]) == "" then None
    else Some(set i | 0 <= i < |plan.items| :: OutputKey(plan.items[i], plan.outputAlias))
  }

  method ProjectOutputKeys(plan: Plan) returns (keys: Option<ColumnKeys>)
    ensures keys == OutputKeys(plan)
  {
    if !plan.Project? { return None; }
    var found: ColumnKeys := {};
    for i := 0 to |plan.items|
      invariant forall j :: 0 <= j < i ==> OutputName(plan.items[j]) != ""
      invariant found == set j | 0 <= j < i :: OutputKey(plan.items[j], plan.outputAlias)
    {
      if OutputName(plan.items[i]) == "" { return None; }
      found := found + {OutputKey(plan.items[i], plan.outputAlias)};
    }
    return Some(found);
  }

  function PrimaryKeyOf(db: Database, table: string): seq<string> {
    if table in db then db[table].primaryKey else []
  }

  predicate IsUniqueOnKeys(db: Database, plan: Plan, keys: ColumnKeys) {
    if keys == {} then false
    else match plan
      case Scan(table, tableAlias, _) =>
        var primaryKey := PrimaryKeyOf(db, table);
        primaryKey != [] && forall i :: 0 <= i < |primaryKey| ==> ColumnKey(tableAlias, primaryKey[i]) in keys
      case Aggregate(groupBy, _, _) =>
        forall i :: 0 <= i < |groupBy| ==> groupBy[i].ColumnOf? && groupBy[i].key in keys
      case Distinct(c) =>
        var outputs := OutputKeys(c);
        outputs.Some? && outputs.value <= keys
      case Project(items, outputAlias, c) =>
        var translated := TranslateKeys(items, outputAlias, keys);
        translated.Some? && IsUniqueOnKeys(db, c, translated.value)
      case Filter(_, c) => IsUniqueOnKeys(db, c, keys)
      case Sort(_, c) => IsUniqueOnKeys(db, c, keys)
      case TopN(_, _, _, c) => IsUniqueOnKeys(db, c, keys)
      case Limit(_, _, c) => IsUniqueOnKeys(db, c, keys)
      case Materialize(c) => IsUniqueOnKeys(db, c, keys)
      case Other(_, _) => false
  }

  predicate ProducesDistinctRows(db: Database, plan: Plan) {
    match plan
    case Aggregate(_, _, _) => true
    case Distinct(_) => true
    case Project(_, _, _) =>
      var outputs := OutputKeys(plan);
      outputs.Some? && IsUniqueOnKeys(db, plan, outputs.value)
    case Filter(_, c) => ProducesDistinctRows(db, c)
    case Sort(_, c) => ProducesDistinctRows(db, c)
    case TopN(_, _, _, c) => ProducesDistinctRows(db, c)
    case Limit(_, _, c) => ProducesDistinctRows(db, c)
    case Materialize(c) => ProducesDistinctRows(db, c)
    case _ => false
  }

  // ---------- hypotheses ----------

  /** Declared primary keys hold: their columns exist and no two rows agree on all of them. */
  ghost predicate KeysHold(t: Table) {
    && (forall i :: 0 <= i < |t.primaryKey| ==> t.primaryKey[i] in t.columns)
    && forall p, q :: 0 <= p < q < |t.rows| && t.primaryKey != [] ==> DiffersOnKey(t, t.rows[p], t.rows[q])
  }

  ghost predicate DiffersOnKey(t: Table, a: Row, b: Row) {
    exists i :: 0 <= i < |t.primaryKey| && ColumnValue(t, t.primaryKey[i], a) != ColumnValue(t, t.primaryKey[i], b)
  }

  function ColumnValue(t: Table, name: string, row: Row): Value {
    var c := IndexOf(t.columns, name);
    if c.Some? then ValueAt(row, c.value) else Null
  }

  ghost predicate KeysHoldIn(db: Database) {
    forall name :: name in db ==> KeysHold(db[name])
  }

  ghost predicate DistinctNames(items: seq<Item>) {
    forall i, j :: 0 <= i < j < |items| ==> OutputName(items[i]) != OutputName(items[j])
  }

  /** Projections name their outputs differently and refer to columns their child has. */
  ghost predicate Wellformed(plan: Plan) {
    match plan
    case Project(items, _, c) =>
      Wellformed(c) && DistinctNames(items) &&
      forall i :: 0 <= i < |items| && items[i].expr.ColumnOf? ==> Resolve(c, items[i].expr.key).Some?
    case Filter(_, c) => Wellformed(c)
    case Sort(_, c) => Wellformed(c)
    case TopN(_, _, _, c) => Wellformed(c)
    case Limit(_, _, c) => Wellformed(c)
    case Materialize(c) => Wellformed(c)
    case Distinct(c) => Wellformed(c)
    case Aggregate(_, _, c) => Wellformed(c)
    case _ => true
  }

  /** The keys are columns of the plan. */
  ghost predicate Has(plan: Plan, keys: ColumnKeys) {
    forall k :: k in keys ==> Resolve(plan, k).Some?
  }

  // ---------- uniqueness ----------

  ghost predicate Agree(plan: Plan, keys: ColumnKeys, a: Row, b: Row) {
    forall k {:trigger Resolve(plan, k)} :: k in keys && Resolve(plan, k).Some? ==>
      ValueAt(a, Resolve(plan, k).value) == ValueAt(b, Resolve(plan, k).value)
  }

  /** No two rows, wherever they stand, agree on the keys. */
  ghost predicate UniqueOn(plan: Plan, keys: ColumnKeys, rows: seq<Row>) {
    forall p, q :: 0 <= p < q < |rows| ==> !Agree(plan, keys, rows[p], rows[q])
  }

  lemma {:induction false} TwoPlaces(s: seq<Row>, x: Row)
    requires multiset(s)[x] >= 2
    ensures exists i, j :: 0 <= i < j < |s| && s[i] == x && s[j] == x
  {
    var front, last := s[..|s| - 1], s[|s| - 1];
    assert s == front + [last];
    if last == x {
      assert x in front;
      var i :| 0 <= i < |front| && front[i] == x;
      assert s[i] == x && s[|s| - 1] == x;
    } else {
      TwoPlaces(front, x);
      var i, j :| 0 <= i < j < |front| && front[i] == x && front[j] == x;
      assert s[i] == x && s[j] == x;
    }
  }

  lemma {:induction false} OccursTwice(s: seq<Row>, p: nat, q: nat)
    requires p < q < |s| && s[p] == s[q]
    ensures multiset(s)[s[p]] >= 2
  {
    assert s == s[..q] + ([s[q]] + s[q + 1..]);
    assert s[p] in s[..q];
  }

  /** A sub-bag of unique rows, in any order, is unique. */
  lemma {:induction false} SubUnique(plan: Plan, keys: ColumnKeys, rows: seq<Row>, sub: seq<Row>)
    requires UniqueOn(plan, keys, rows) && multiset(sub) <= multiset(rows)
    ensures UniqueOn(plan, keys, sub)
  {
    forall p, q | 0 <= p < q < |sub| ensures !Agree(plan, keys, sub[p], sub[q]) {
      DifferentRows(plan, keys, rows, sub, p, q);
    }
  }

  /** Two places of a sub-bag of unique rows hold different rows, which stand at different places of the whole. */
  lemma {:induction false} DifferentRows(plan: Plan, keys: ColumnKeys, rows: seq<Row>, sub: seq<Row>, p: nat, q: nat)
    requires UniqueOn(plan, keys, rows) && multiset(sub) <= multiset(rows) && p < q < |sub|
    ensures !Agree(plan, keys, sub[p], sub[q])
  {
    if sub[p] == sub[q] {
      OccursTwice(sub, p, q);
      TwoPlaces(rows, sub[p]);
    }
    assert sub[p] in multiset(sub) && sub[q] in multiset(sub);
    assert sub[p] in rows && sub[q] in rows;
    var i :| 0 <= i < |rows| && rows[i] == sub[p];
    var j :| 0 <= j < |rows| && rows[j] == sub[q];
    if i < j {
      assert !Agree(plan, keys, rows[i], rows[j]);
    } else if j < i {
      assert !Agree(plan, keys, rows[j], rows[i]);
    }
  }

  lemma {:induction false} FilterIsSub(rows: seq<Row>, keep: Row -> bool)
    ensures multiset(Kept(rows, keep)) <= multiset(rows)
  {
    if rows != [] {
      FilterIsSub(rows[..|rows| - 1], keep);
      assert rows == rows[..|rows| - 1] + [rows[|rows| - 1]];
    }
  }

  lemma {:induction false} SliceIsSub(rows: seq<Row>, limit: nat, offset: nat)
    ensures multiset(Slice(rows, limit, offset)) <= multiset(rows)
  {
    var lo, hi := Min(offset, |rows|), Min(offset + limit, |rows|);
    assert rows == rows[..lo] + rows[lo..hi] + rows[hi..];
  }

  // ---------- the nodes ----------

  lemma {:induction false} IndexOfName(items: seq<Item>, i: nat)
    requires DistinctNames(items) && i < |items|
    ensures IndexOf(OutputNames(items), OutputName(items[i])) == Some(i)
  {
    var names := OutputNames(items);
    var j := IndexOf(names, names[i]);
    assert names[i] in names;
  }

  lemma {:induction false} ScanUnique(db: Database, plan: Plan, keys: ColumnKeys)
    requires plan.Scan? && KeysHoldIn(db) && IsUniqueOnKeys(db, plan, keys) && Has(plan, keys)
    ensures UniqueOn(plan, keys, Eval(db, plan))
  {
    var t, rows := db[plan.table], Eval(db, plan);
    forall p, q | 0 <= p < q < |rows| ensures !Agree(plan, keys, rows[p], rows[q]) {
      assert KeysHold(t) && DiffersOnKey(t, t.rows[p], t.rows[q]);
      var i :| 0 <= i < |t.primaryKey| && ColumnValue(t, t.primaryKey[i], t.rows[p]) != ColumnValue(t, t.primaryKey[i],
        t.rows[q]);
      var k := ColumnKey(plan.scanAlias, t.primaryKey[i]);
      assert k in keys && Resolve(plan, k).Some?;
      var c := Resolve(plan, k).value;
      assert plan.columns[c] == t.primaryKey[i];
      assert rows[p][c] == ColumnValue(t, t.primaryKey[i], t.rows[p]);
    }
  }

  lemma {:induction false} TranslatedKey(items: seq<Item>, outputAlias: string, keys: ColumnKeys, source: ColumnKey)
      returns (k: ColumnKey)
    requires TranslateKeys(items, outputAlias, keys).Some? && source in TranslateKeys(items, outputAlias, keys).value
    ensures k in keys && TranslateKey(items, outputAlias, k) == Some(source)
  {
    k :| k in keys && TranslateKey(items, outputAlias, k) == Some(source);
  }

  lemma {:induction false} TranslatedHas(plan: Plan, keys: ColumnKeys)
    requires plan.Project? && Wellformed(plan) && TranslateKeys(plan.items, plan.outputAlias, keys).Some?
    ensures Has(plan.child, TranslateKeys(plan.items, plan.outputAlias, keys).value)
  {
    forall source | source in TranslateKeys(plan.items, plan.outputAlias, keys).value
      ensures Resolve(plan.child, source).Some? {
      var k := TranslatedKey(plan.items, plan.outputAlias, keys, source);
      var i := IndexOf(OutputNames(plan.items), k.columnName).value;
      assert plan.items[i].expr.key == source;
    }
  }

  /** Projected rows that agree on the keys come from child rows that agree on the translated keys. */
  lemma {:induction false} ProjectAgrees(plan: Plan, keys: ColumnKeys, a: Row, b: Row)
    requires plan.Project? && TranslateKeys(plan.items, plan.outputAlias, keys).Some?
    requires Agree(plan, keys, ProjectRow(plan.child, plan.items, a), ProjectRow(plan.child, plan.items, b))
    ensures Agree(plan.child, TranslateKeys(plan.items, plan.outputAlias, keys).value, a, b)
  {
    var translated := TranslateKeys(plan.items, plan.outputAlias, keys).value;
    forall source | source in translated && Resolve(plan.child, source).Some?
      ensures ValueAt(a, Resolve(plan.child, source).value) == ValueAt(b, Resolve(plan.child, source).value)
    {
      var k := TranslatedKey(plan.items, plan.outputAlias, keys, source);
      var i := IndexOf(OutputNames(plan.items), k.columnName).value;
      assert Resolve(plan, k) == Some(i);
      assert ProjectRow(plan.child, plan.items, a)[i] == ExprValue(plan.child, plan.items[i].expr, a);
    }
  }

  lemma {:induction false} ProjectUnique(db: Database, plan: Plan, keys: ColumnKeys)
    requires plan.Project? && TranslateKeys(plan.items, plan.outputAlias, keys).Some?
    requires UniqueOn(plan.child, TranslateKeys(plan.items, plan.outputAlias, keys).value, Eval(db, plan.child))
    ensures UniqueOn(plan, keys, Eval(db, plan))
  {
    var below, rows := Eval(db, plan.child), Eval(db, plan);
    forall p, q | 0 <= p < q < |rows| ensures !Agree(plan, keys, rows[p], rows[q]) {
      if Agree(plan, keys, rows[p], rows[q]) { ProjectAgrees(plan, keys, below[p], below[q]); }
    }
  }

  /** Rows of a projection that agree on all output keys are the same row. */
  lemma {:induction false} OutputsTellAll(plan: Plan, keys: ColumnKeys, a: Row, b: Row)
    requires plan.Project? && DistinctNames(plan.items) && OutputKeys(plan).Some? && OutputKeys(plan).value <= keys
    requires |a| == |plan.items| == |b| && Agree(plan, keys, a, b)
    ensures a == b
  {
    forall i | 0 <= i < |a| ensures a[i] == b[i] {
      var k := OutputKey(plan.items[i], plan.outputAlias);
      assert k in OutputKeys(plan).value;
      IndexOfName(plan.items, i);
      assert Resolve(plan, k) == Some(i);
    }
  }

  lemma {:induction false} DistinctUnique(db: Database, plan: Plan, keys: ColumnKeys)
    requires plan.Distinct? && Wellformed(plan) && OutputKeys(plan.child).Some? && OutputKeys(plan.child).value <= keys
    ensures UniqueOn(plan, keys, Eval(db, plan))
  {
    var below, rows := Eval(db, plan.child), Eval(db, plan);
    EnterAllDistinct(below);
    OnlyEntered(below);
    forall p, q | 0 <= p < q < |rows| ensures !Agree(plan, keys, rows[p], rows[q]) {
      assert rows[p] in below && rows[q] in below;
      assert rows[p] != rows[q];
      assert forall k {:trigger Resolve(plan, k)} {:trigger Resolve(plan.child, k)} ::
             Resolve(plan, k) == Resolve(plan.child, k);
      if Agree(plan, keys, rows[p], rows[q]) { OutputsTellAll(plan.child, keys, rows[p], rows[q]); }
    }
  }

  lemma {:induction false} GroupColumnFound(groupBy: seq<PlanExpr>, i: nat)
    requires i < |groupBy| && groupBy[i].ColumnOf?
    ensures GroupColumn(groupBy, groupBy[i].key).Some?
  {
    if i > 0 { GroupColumnFound(groupBy[1..], i - 1); }
  }

  lemma {:induction false} AggregateUnique(db: Database, plan: Plan, keys: ColumnKeys)
    requires plan.Aggregate? && IsUniqueOnKeys(db, plan, keys)
    ensures UniqueOn(plan, keys, Eval(db, plan))
  {
    var below, rows := Eval(db, plan.child), Eval(db, plan);
    if plan.groupBy != [] {
      var tuples := MapRows(below, row => GroupRow(plan.child, plan.groupBy, row));
      var groups := EnterAll(tuples);
      EnterAllDistinct(tuples);
      OnlyEntered(tuples);
      forall p, q | 0 <= p < q < |rows| ensures !Agree(plan, keys, rows[p], rows[q]) {
        assert groups[p] in tuples && groups[q] in tuples && groups[p] != groups[q];
        if Agree(plan, keys, rows[p], rows[q]) {
          GroupsTellAll(db, plan, keys, tuples, groups[p], groups[q], rows[p], rows[q]);
        }
      }
    }
  }

  /** Aggregate rows that agree on the grouping columns are of one group. */
  lemma {:induction false} GroupsTellAll(db: Database, plan: Plan, keys: ColumnKeys, tuples: seq<Row>, g: Row, h: Row,
                                         a: Row, b: Row)
    requires plan.Aggregate? && IsUniqueOnKeys(db, plan, keys)
    requires tuples == MapRows(Eval(db, plan.child), row => GroupRow(plan.child, plan.groupBy, row)) && g in tuples
             && h in tuples
    requires g <= a && h <= b && Agree(plan, keys, a, b)
    ensures g == h
  {
    var below := Eval(db, plan.child);
    var m :| 0 <= m < |tuples| && tuples[m] == g;
    var n :| 0 <= n < |tuples| && tuples[n] == h;
    assert g == GroupRow(plan.child, plan.groupBy, below[m]) && h == GroupRow(plan.child, plan.groupBy, below[n]);
    forall i | 0 <= i < |g| ensures g[i] == h[i] {
      var k := plan.groupBy[i].key;
      GroupColumnFound(plan.groupBy, i);
      var j := GroupColumn(plan.groupBy, k).value;
      assert k in keys && Resolve(plan, k) == Some(j);
      assert g[j] == h[j];
      assert plan.groupBy[j] == plan.groupBy[i];
    }
  }

  // ---------- the whole plan ----------

  predicate PassesThrough(plan: Plan) {
    plan.Filter? || plan.Sort? || plan.TopN? || plan.Limit? || plan.Materialize?
  }

  /** Nodes the analyses look through yield rows of their child, each no more often than the child does. */
  lemma {:induction false} PassedRows(db: Database, plan: Plan)
    requires PassesThrough(plan)
    ensures multiset(Eval(db, plan)) <= multiset(Eval(db, plan.child))
  {
    var below := Eval(db, plan.child);
    match plan
    case Filter(keep, _) => FilterIsSub(below, keep);
    case Sort(keys, _) => SortRowsSorts(keys, below);
    case TopN(keys, limit, offset, _) =>
      SortRowsSorts(keys, below);
      SliceIsSub(SortRows(keys, below), limit, offset);
    case Limit(limit, offset, _) => SliceIsSub(below, limit, offset);
    case Materialize(_) =>
  }

  lemma {:induction false} PassedUnique(db: Database, plan: Plan, keys: ColumnKeys)
    requires PassesThrough(plan) && UniqueOn(plan.child, keys, Eval(db, plan.child))
    ensures UniqueOn(plan, keys, Eval(db, plan))
  {
    PassedRows(db, plan);
    SubUnique(plan.child, keys, Eval(db, plan.child), Eval(db, plan));
    var rows := Eval(db, plan);
    forall p, q | 0 <= p < q < |rows| ensures !Agree(plan, keys, rows[p], rows[q]) {
      assert forall k {:trigger Resolve(plan.child, k)} :: Resolve(plan, k) == Resolve(plan.child, k);
      assert Agree(plan, keys, rows[p], rows[q]) ==> Agree(plan.child, keys, rows[p], rows[q]);
    }
  }

  /** A yes of the analysis means that no two rows agree on the keys, in every database whose primary keys hold. */
  lemma {:induction false} UniqueKeysSound(db: Database, plan: Plan, keys: ColumnKeys)
    requires KeysHoldIn(db) && Wellformed(plan) && Has(plan, keys) && IsUniqueOnKeys(db, plan, keys)
    ensures UniqueOn(plan, keys, Eval(db, plan))
  {
    if PassesThrough(plan) {
      assert forall k :: Resolve(plan, k) == Resolve(plan.child, k);
      UniqueKeysSound(db, plan.child, keys);
      PassedUnique(db, plan, keys);
    } else {
      match plan
      case Scan(_, _, _) => ScanUnique(db, plan, keys);
      case Aggregate(_, _, _) => AggregateUnique(db, plan, keys);
      case Distinct(_) => DistinctUnique(db, plan, keys);
      case Project(items, outputAlias, c) =>
        TranslatedHas(plan, keys);
        UniqueKeysSound(db, c, TranslateKeys(items, outputAlias, keys).value);
        ProjectUnique(db, plan, keys);
    }
  }

  lemma {:induction false} SubDistinct(rows: seq<Row>, sub: seq<Row>)
    requires Sequences.Distinct(rows) && multiset(sub) <= multiset(rows)
    ensures Sequences.Distinct(sub)
  {
    forall p, q | 0 <= p < q < |sub| ensures sub[p] != sub[q] {
      if sub[p] == sub[q] {
        OccursTwice(sub, p, q);
        TwoPlaces(rows, sub[p]);
      }
    }
  }

  lemma {:induction false} OutputsPresent(plan: Plan)
    requires plan.Project? && Wellformed(plan) && OutputKeys(plan).Some?
    ensures Has(plan, OutputKeys(plan).value)
  {
    forall k | k in OutputKeys(plan).value ensures Resolve(plan, k).Some? {
      var i :| 0 <= i < |plan.items| && k == OutputKey(plan.items[i], plan.outputAlias);
      IndexOfName(plan.items, i);
    }
  }

  lemma {:induction false} AggregateDistinct(db: Database, plan: Plan)
    requires plan.Aggregate?
    ensures Sequences.Distinct(Eval(db, plan))
  {
    var rows := Eval(db, plan);
    if plan.groupBy != [] {
      var tuples := MapRows(Eval(db, plan.child), row => GroupRow(plan.child, plan.groupBy, row));
      var groups := EnterAll(tuples);
      EnterAllDistinct(tuples);
      OnlyEntered(tuples);
      forall p, q | 0 <= p < q < |rows| ensures rows[p] != rows[q] {
        assert groups[p] in tuples && groups[q] in tuples && groups[p] != groups[q];
        var w := |plan.groupBy|;
        assert |groups[p]| == w == |groups[q]|;
        assert rows[p][..w] == groups[p] && rows[q][..w] == groups[q];
      }
    }
  }

  /** A yes of producesDistinctRows means that no row occurs twice. */
  lemma {:induction false} DistinctRowsSound(db: Database, plan: Plan)
    requires KeysHoldIn(db) && Wellformed(plan) && ProducesDistinctRows(db, plan)
    ensures Sequences.Distinct(Eval(db, plan))
  {
    if PassesThrough(plan) {
      DistinctRowsSound(db, plan.child);
      PassedRows(db, plan);
      SubDistinct(Eval(db, plan.child), Eval(db, plan));
    } else {
      match plan
      case Aggregate(_, _, _) => AggregateDistinct(db, plan);
      case Distinct(c) => EnterAllDistinct(Eval(db, c));
      case Project(_, _, _) =>
        var outputs, rows := OutputKeys(plan).value, Eval(db, plan);
        OutputsPresent(plan);
        UniqueKeysSound(db, plan, outputs);
        forall p, q | 0 <= p < q < |rows| ensures rows[p] != rows[q] {
          assert !Agree(plan, outputs, rows[p], rows[q]);
        }
    }
  }

  lemma {:induction false} EnterAllOfDistinct(rows: seq<Row>)
    requires Sequences.Distinct(rows)
    ensures EnterAll(rows) == rows
  {
    if rows != [] {
      var front := rows[..|rows| - 1];
      EnterAllOfDistinct(front);
      assert rows == front + [rows[|rows| - 1]];
    }
  }

  /** So DISTINCT over such a plan may be dropped. */
  lemma {:induction false} DistinctMayGo(db: Database, plan: Plan)
    requires KeysHoldIn(db) && Wellformed(plan) && ProducesDistinctRows(db, plan)
    ensures Eval(db, Plan.Distinct(plan)) == Eval(db, plan)
  {
    DistinctRowsSound(db, plan);
    EnterAllOfDistinct(Eval(db, plan));
  }

  // ---------- what must get a yes ----------

  /** A table of two rows that differ in one column of the key only; without a key they do not differ at all. */
  ghost function Twins(primaryKey: seq<string>, column: string): Table {
    var blank := seq(|primaryKey|, _ => Num(0.0));
    var c := IndexOf(primaryKey, column);
    Table(primaryKey, primaryKey, [blank, if c.Some? then blank[c.value := Num(1.0)] else blank])
  }

  lemma {:induction false} TwinsAgree(plan: Plan, keys: ColumnKeys, primaryKey: seq<string>, column: string)
    requires plan.Scan? && Has(plan, keys) && ColumnKey(plan.scanAlias, column) !in keys
    ensures !UniqueOn(plan, keys, Eval(map[plan.table := Twins(primaryKey, column)], plan))
  {
    var t := Twins(primaryKey, column);
    var rows := Eval(map[plan.table := t], plan);
    forall k {:trigger Resolve(plan, k)} | k in keys
      ensures ValueAt(rows[0], Resolve(plan, k).value) == ValueAt(rows[1], Resolve(plan, k).value)
    {
      var c := Resolve(plan, k).value;
      assert plan.columns[c] == k.columnName != column;
    }
    assert Agree(plan, keys, rows[0], rows[1]);
  }

  lemma {:induction false} TwinsKeepKey(primaryKey: seq<string>, column: string)
    requires primaryKey == [] || column in primaryKey
    ensures KeysHold(Twins(primaryKey, column))
  {
    var t := Twins(primaryKey, column);
    if primaryKey != [] {
      var i :| 0 <= i < |primaryKey| && primaryKey[i] == column;
      assert ColumnValue(t, t.primaryKey[i], t.rows[0]) != ColumnValue(t, t.primaryKey[i], t.rows[1]);
    }
  }

  /** A scan gets a yes exactly when its rows are unique on the keys whatever the table holds that keeps its declared
      primary key. */
  lemma {:induction false} ScanExact(db: Database, plan: Plan, keys: ColumnKeys)
    requires plan.Scan? && Has(plan, keys)
    ensures IsUniqueOnKeys(db, plan, keys)
       <==> forall t: Table :: t.primaryKey == PrimaryKeyOf(db, plan.table) && KeysHold(t) ==>
              UniqueOn(plan, keys, Eval(map[plan.table := t], plan))
  {
    var primaryKey := PrimaryKeyOf(db, plan.table);
    if IsUniqueOnKeys(db, plan, keys) {
      forall t: Table | t.primaryKey == primaryKey && KeysHold(t)
        ensures UniqueOn(plan, keys, Eval(map[plan.table := t], plan))
      {
        ScanUnique(map[plan.table := t], plan, keys);
      }
    } else if primaryKey != [] {
      assert keys == {} ==> ColumnKey(plan.scanAlias, primaryKey[0]) !in keys;
      var i :| 0 <= i < |primaryKey| && ColumnKey(plan.scanAlias, primaryKey[i]) !in keys;
      TwinsKeepKey(primaryKey, primaryKey[i]);
      TwinsAgree(plan, keys, primaryKey, primaryKey[i]);
    } else {
      var t := Table([], [], [[], []]);
      var rows := Eval(map[plan.table := t], plan);
      assert rows[0] == rows[1] && Agree(plan, keys, rows[0], rows[1]);
      assert KeysHold(t);
    }
  }

  /** The columns of the child a projection of plain columns shows. */
  ghost function Shown(items: seq<Item>): ColumnKeys
    requires forall i :: 0 <= i < |items| ==> items[i].expr.ColumnOf?
  {
    set i | 0 <= i < |items| :: items[i].expr.key
  }

  ghost predicate PlainColumns(plan: Plan) {
    plan.Project? && DistinctNames(plan.items)
    && forall i :: 0 <= i < |plan.items| ==> plan.items[i].expr.ColumnOf? && OutputName(plan.items[i]) != ""
  }

  lemma {:induction false} OutputTranslates(plan: Plan, i: nat)
    requires PlainColumns(plan) && i < |plan.items|
    ensures var key := OutputKey(plan.items[i], plan.outputAlias);
      TranslateKey(plan.items, plan.outputAlias, key) == Some(plan.items[i].expr.key)
  {
    IndexOfName(plan.items, i);
  }

  lemma {:induction false} OutputAt(plan: Plan, k: ColumnKey) returns (i: nat)
    requires PlainColumns(plan) && OutputKeys(plan).Some? && k in OutputKeys(plan).value
    ensures i < |plan.items| && k == OutputKey(plan.items[i], plan.outputAlias)
    ensures TranslateKey(plan.items, plan.outputAlias, k) == Some(plan.items[i].expr.key)
  {
    i :| 0 <= i < |plan.items| && k == OutputKey(plan.items[i], plan.outputAlias);
    OutputTranslates(plan, i);
  }

  lemma {:induction false} OutputsTranslate(plan: Plan)
    requires PlainColumns(plan)
    ensures OutputKeys(plan).Some?
    ensures TranslateKeys(plan.items, plan.outputAlias, OutputKeys(plan).value) == Some(Shown(plan.items))
  {
    var outputs := OutputKeys(plan).value;
    forall k | k in outputs ensures TranslateKey(plan.items, plan.outputAlias, k).Some? {
      var i := OutputAt(plan, k);
    }
    var translated := TranslateKeys(plan.items, plan.outputAlias, outputs).value;
    forall source | source in translated ensures source in Shown(plan.items) {
      var k := TranslatedKey(plan.items, plan.outputAlias, outputs, source);
      var i := OutputAt(plan, k);
    }
    forall source | source in Shown(plan.items) ensures source in translated {
      var i :| 0 <= i < |plan.items| && plan.items[i].expr.key == source;
      OutputTranslates(plan, i);
      assert OutputKey(plan.items[i], plan.outputAlias) in outputs;
    }
    assert translated == Shown(plan.items);
  }

  /** DISTINCT over a projection of plain columns is dropped exactly when the analysis finds its input unique on the
      columns shown. */
  lemma {:induction false} ProjectedColumns(db: Database, plan: Plan)
    requires PlainColumns(plan)
    ensures ProducesDistinctRows(db, plan) <==> IsUniqueOnKeys(db, plan.child, Shown(plan.items))
  {
    OutputsTranslate(plan);
  }

  /** What lies under the nodes the analysis looks through. */
  ghost function Under(plan: Plan): Plan {
    if PassesThrough(plan) then Under(plan.child) else plan
  }

  lemma {:induction false} LooksThrough(db: Database, plan: Plan, keys: ColumnKeys)
    ensures IsUniqueOnKeys(db, plan, keys) == IsUniqueOnKeys(db, Under(plan), keys)
  {
    if PassesThrough(plan) { LooksThrough(db, plan.child, keys); }
  }

  /** DISTINCT is dropped over columns among which are all of the table's primary key, or all that the rows are grouped
      by, however the rows are filtered, ordered or limited in between. */
  lemma {:induction false} DistinctIsDropped(db: Database, plan: Plan)
    requires PlainColumns(plan) && plan.items != []
    ensures var source := Under(plan.child);
      (source.Scan? && PrimaryKeyOf(db, source.table) != [] &&
       forall name :: name in PrimaryKeyOf(db, source.table) ==> ColumnKey(source.scanAlias, name) in Shown(plan.items))
      || (source.Aggregate? && forall e :: e in source.groupBy ==> e.ColumnOf? && e.key in Shown(plan.items))
      ==> ProducesDistinctRows(db, plan)
  {
    ProjectedColumns(db, plan);
    LooksThrough(db, plan.child, Shown(plan.items));
    assert plan.items[0].expr.key in Shown(plan.items);
  }
}
