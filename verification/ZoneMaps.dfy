/** Chunk summaries of src/storage/zone-map.ts: least and greatest value per column, and whether a null occurs. */
module ZoneMaps {
  import opened Wrappers
  import opened SqlValues

  datatype ValueRange = ValueRange(min: Value, max: Value)
  datatype ColumnZone = ColumnZone(range: Option<ValueRange>, hasNulls: bool)
  datatype ChunkZone = ChunkZone(rowCount: nat, columns: seq<ColumnZone>)
  /** Columns of stored values; with a selection, `size` counts the selected rows. */
  datatype Chunk = Chunk(columns: seq<seq<Value>>, size: nat, selection: Option<seq<nat>>)

  ghost predicate ValidChunk(chunk: Chunk) {
    && (chunk.selection.Some? ==> chunk.size <= |chunk.selection.value|)
    && forall c, i :: 0 <= c < |chunk.columns| && 0 <= i < chunk.size ==> RowIndex(chunk, i) < |chunk.columns[c]|
  }

  function RowIndex(chunk: Chunk, i: nat): nat {
    if chunk.selection.Some? && i < |chunk.selection.value| then chunk.selection.value[i] else i
  }

  /** The active values of a column, in row order. */
  function Active(chunk: Chunk, c: nat): (vs: seq<Value>)
    requires ValidChunk(chunk) && c < |chunk.columns|
    ensures |vs| == chunk.size && forall i :: 0 <= i < chunk.size ==> vs[i] == chunk.columns[c][RowIndex(chunk, i)]
  {
    seq(chunk.size, i requires 0 <= i < chunk.size => chunk.columns[c][RowIndex(chunk, i)])
  }

  /** The active row i: one value per column. */
  function ActiveRow(chunk: Chunk, i: nat): (row: seq<Value>)
    requires ValidChunk(chunk) && i < chunk.size
    ensures |row| == |chunk.columns| && forall c :: 0 <= c < |row| ==> row[c] == Active(chunk, c)[i]
  {
    seq(|chunk.columns|, c requires 0 <= c < |chunk.columns| => chunk.columns[c][RowIndex(chunk, i)])
  }

  /** A column holds nulls and values of one type. */
  ghost predicate OneType(vs: seq<Value>) {
    forall i, j :: 0 <= i < |vs| && 0 <= j < |vs| && vs[i] != Null && vs[j] != Null ==> SameType(vs[i], vs[j])
  }

  ghost predicate OneTypePerColumn(chunk: Chunk)
    requires ValidChunk(chunk)
  {
    forall c :: 0 <= c < |chunk.columns| ==> OneType(Active(chunk, c))
  }

  predicate InRange(v: Value, r: ValueRange) {
    SameType(v, r.min) && SameType(v, r.max) && !Before(v, r.min) && !Before(r.max, v)
  }

  /** The zone says exactly which values occur at the ends and whether a null occurs. */
  ghost predicate Summarizes(zone: ColumnZone, vs: seq<Value>) {
    && (zone.hasNulls <==> Null in vs)
    && (zone.range.None? <==> forall i :: 0 <= i < |vs| ==> vs[i] == Null)
    && (zone.range.Some? ==>
        && zone.range.value.min in vs && zone.range.value.max in vs
          && SameType(zone.range.value.min, zone.range.value.max)
        && forall i :: 0 <= i < |vs| && vs[i] != Null ==> InRange(vs[i], zone.range.value))
  }

  /** The loop of summarizeColumn, over the active values. */
  method SummarizeColumn(vs: seq<Value>) returns (zone: ColumnZone)
    requires OneType(vs)
    ensures Summarizes(zone, vs)
  {
    var range: Option<ValueRange>, hasNulls := None, false;
    var i := 0;
    while i < |vs|
      invariant 0 <= i <= |vs|
      invariant Summarizes(ColumnZone(range, hasNulls), vs[..i])
    {
      var before := vs[..i];
      assert vs[..i + 1] == before + [vs[i]];
      if vs[i] == Null {
        hasNulls := true;
      } else if range.None? {
        range := Some(ValueRange(vs[i], vs[i]));
        BeforeTotal(vs[i], vs[i]);
      } else {
        WidenKeeps(before, vs[i], range.value);
        range := Some(Widen(range.value, vs[i]));
      }
      i := i + 1;
    }
    assert vs[..i] == vs;
    zone := ColumnZone(range, hasNulls);
  }

  function Widen(r: ValueRange, v: Value): ValueRange
    requires SameType(v, r.min) && SameType(v, r.max)
  {
    if Before(v, r.min) then r.(min := v) else if Before(r.max, v) then r.(max := v) else r
  }

  lemma {:induction false} WidenKeeps(vs: seq<Value>, v: Value, r: ValueRange)
    requires OneType(vs + [v]) && v != Null && SameType(r.min, r.max) && r.min in vs && r.max in vs
    requires forall i :: 0 <= i < |vs| && vs[i] != Null ==> InRange(vs[i], r)
    ensures SameType(v, r.min) && SameType(v, r.max)
    ensures var w := Widen(r, v);
      && w.min in vs + [v] && w.max in vs + [v] && SameType(w.min, w.max)
      && forall i :: 0 <= i < |vs + [v]| && (vs + [v])[i] != Null ==> InRange((vs + [v])[i], w)
  {
    var all := vs + [v];
    var a, b :| 0 <= a < |vs| && vs[a] == r.min && 0 <= b < |vs| && vs[b] == r.max;
    assert all[a] == r.min && all[b] == r.max && all[|vs|] == v;
    var w := Widen(r, v);
    forall i | 0 <= i < |all| && all[i] != Null ensures InRange(all[i], w) {
      BeforeTotal(r.min, r.max);
      BeforeTotal(v, v);
      BeforeTotal(v, r.min);
      BeforeTotal(v, r.max);
      if i < |vs| {
        assert InRange(vs[i], r);
        BeforeChain(v, r.min, vs[i]);
        BeforeChain(vs[i], r.max, v);
      } else {
        assert InRange(vs[a], r) && InRange(vs[b], r);
        BeforeChain(v, r.min, r.max);
        BeforeChain(r.min, r.max, v);
      }
    }
  }

  ghost predicate SummarizesChunk(zone: ChunkZone, chunk: Chunk)
    requires ValidChunk(chunk)
  {
    && zone.rowCount == chunk.size && |zone.columns| == |chunk.columns|
    && forall c :: 0 <= c < |chunk.columns| ==> Summarizes(zone.columns[c], Active(chunk, c))
  }

  method BuildChunkZoneMap(chunk: Chunk) returns (zone: ChunkZone)
    requires ValidChunk(chunk) && OneTypePerColumn(chunk)
    ensures SummarizesChunk(zone, chunk)
  {
    var columns := [];
    for c := 0 to |chunk.columns|
      invariant |columns| == c
      invariant forall j :: 0 <= j < c ==> Summarizes(columns[j], Active(chunk, j))
    {
      var column := SummarizeColumn(Active(chunk, c));
      columns := columns + [column];
    }
    zone := ChunkZone(chunk.size, columns);
  }
}
