/** ExchangeSender of src/distributed/execution/exchange-operator.ts. */
module Exchanges {
  // A transport channel keeps the order of each sender's messages; decoding gives back the chunk encoded.
  import opened Wrappers
  import opened Sequences
  import opened KeyIdentities
  import opened ExchangeRouting

  datatype Envelope = Envelope(target: nat, chunk: Chunk)

  const END_MARKER := Chunk([], 0, None)

  predicate IsEnd(chunk: Chunk) {
    chunk.size == 0 && chunk.columns == []
  }

  /** The chunks sent to a target, in order. */
  function To(sent: seq<Envelope>, target: nat): seq<Chunk> {
    if sent == [] then []
    else To(sent[..|sent| - 1], target) + if sent[|sent| - 1].target == target then [sent[|sent| - 1].chunk] else []
  }

  function RowsOf(chunks: seq<Chunk>): seq<Row>
    requires forall i :: 0 <= i < |chunks| ==> WellFormed(chunks[i])
  {
    if chunks == [] then []
    else RowsOf(chunks[..|chunks| - 1]) + ActiveRows(chunks[|chunks| - 1], chunks[|chunks| - 1].size)
  }

  /** Chunks with rows, then end markers. */
  predicate Stream(chunks: seq<Chunk>, endings: nat) {
    && endings <= |chunks|
    && (forall i :: 0 <= i < |chunks| ==> WellFormed(chunks[i]))
    && (forall i :: 0 <= i < |chunks| - endings ==> chunks[i].size > 0)
    && (forall i :: |chunks| - endings <= i < |chunks| ==> IsEnd(chunks[i]))
  }

  lemma {:induction false} ToOneMore(sent: seq<Envelope>, e: Envelope, target: nat)
    ensures To(sent + [e], target) == To(sent, target) + if e.target == target then [e.chunk] else []
  {
    assert (sent + [e])[..|sent|] == sent;
  }

  lemma {:induction false} RowsOneMore(chunks: seq<Chunk>, chunk: Chunk)
    requires (forall i :: 0 <= i < |chunks| ==> WellFormed(chunks[i])) && WellFormed(chunk)
    ensures RowsOf(chunks + [chunk]) == RowsOf(chunks) + ActiveRows(chunk, chunk.size)
  {
    assert (chunks + [chunk])[..|chunks|] == chunks;
  }

  /** What one more message with rows changes for target t. */
  lemma {:induction false} SentTo(sent: seq<Envelope>, target: nat, chunk: Chunk, t: nat)
    requires Stream(To(sent, t), 0) && WellFormed(chunk) && chunk.size > 0
    ensures Stream(To(sent + [Envelope(target, chunk)], t), 0)
    ensures RowsOf(To(sent + [Envelope(target, chunk)], t))
         == RowsOf(To(sent, t)) + if t == target then ActiveRows(chunk, chunk.size) else []
  {
    ToOneMore(sent, Envelope(target, chunk), t);
    if t == target {
      RowsOneMore(To(sent, t), chunk);
    } else {
      assert To(sent + [Envelope(target, chunk)], t) == To(sent, t);
    }
  }

  /** The rows at some positions of a chunk. */
  function RowsAt(chunk: Chunk, positions: seq<nat>): (rows: seq<Row>)
    requires forall j :: 0 <= j < |positions| ==> Inside(chunk, positions[j])
  {
    seq(|positions|, j requires 0 <= j < |positions| => RowAt(chunk, positions[j]))
  }

  method CopyColumn(column: seq<EvalValue>, positions: seq<nat>) returns (copy: seq<EvalValue>)
    requires forall j :: 0 <= j < |positions| ==> positions[j] < |column|
    ensures |copy| == |positions| && forall j :: 0 <= j < |positions| ==> copy[j] == column[positions[j]]
  {
    copy := [];
    for j := 0 to |positions|
      invariant |copy| == j && forall i :: 0 <= i < j ==> copy[i] == column[positions[i]]
    {
      copy := copy + [column[positions[j]]];
    }
  }

  /** A dense chunk of the rows at some positions. */
  method CopyRows(chunk: Chunk, positions: seq<nat>) returns (part: Chunk)
    requires forall j :: 0 <= j < |positions| ==> Inside(chunk, positions[j])
    ensures WellFormed(part) && part.size == |positions| && ActiveRows(part, part.size) == RowsAt(chunk, positions)
  {
    var columns: seq<seq<EvalValue>> := [];
    for c := 0 to |chunk.columns|
      invariant |columns| == c
      invariant forall d :: 0 <= d < c ==> |columns[d]| == |positions|
      invariant forall d, j :: 0 <= d < c && 0 <= j < |positions| ==> columns[d][j] == chunk.columns[d][positions[j]]
    {
      assert forall j :: 0 <= j < |positions| ==> Inside(chunk, positions[j]);
      var copy := CopyColumn(chunk.columns[c], positions);
      columns := columns + [copy];
    }
    part := Chunk(columns, |positions|, None);
    forall j | 0 <= j < |positions| ensures RowAt(part, j) == RowAt(chunk, positions[j]) {}
  }

  /** The partitions of a chunk's first rows: the positions of each, and the partitions as first seen. */
  ghost predicate Bucketed(routing: Routing, chunk: Chunk, rows: seq<Row>, order: seq<nat>, buckets: map<nat, seq<nat>>)
    requires routing.Valid()
  {
    && Distinct(order) && (forall p :: p in order <==> p in buckets)
    && (forall p :: p in buckets ==> BucketIs(routing, chunk, rows, p, buckets[p]))
    && (forall i :: 0 <= i < |rows| ==> routing.Partition(rows[i]) in buckets)
  }

  ghost predicate BucketIs(routing: Routing, chunk: Chunk, rows: seq<Row>, p: nat, positions: seq<nat>)
    requires routing.Valid()
  {
    && positions != [] && (forall j :: 0 <= j < |positions| ==> Inside(chunk, positions[j]))
    && RowsAt(chunk, positions) == routing.Among(rows, {p})
  }

  lemma {:induction false} NoneAmong(routing: Routing, rows: seq<Row>, p: nat)
    requires routing.Valid() && forall i :: 0 <= i < |rows| ==> routing.Partition(rows[i]) != p
    ensures routing.Among(rows, {p}) == []
  {
    if rows != [] { NoneAmong(routing, rows[..|rows| - 1], p); }
  }

  lemma {:induction false} BucketsGrow(routing: Routing, chunk: Chunk, rows: seq<Row>, order: seq<nat>,
                                       buckets: map<nat, seq<nat>>, position: nat, held: seq<nat>, p: nat, q: nat)
    requires routing.Valid() && Bucketed(routing, chunk, rows, order, buckets) && Inside(chunk, position)
    requires p == routing.Partition(RowAt(chunk, position)) && held == if p in buckets then buckets[p] else []
    requires q == p || q in buckets
    ensures BucketIs(routing, chunk, rows + [RowAt(chunk, position)], q, buckets[p := held + [position]][q])
  {
    if q != p {
      assert BucketIs(routing, chunk, rows, q, buckets[q]);
      BucketStays(routing, chunk, rows, q, buckets[q], RowAt(chunk, position));
    } else {
      if p !in buckets { NoneAmong(routing, rows, p); }
      BucketGrows(routing, chunk, rows, p, held, position);
    }
  }

  /** One more row joins the bucket of its partition. */
  lemma {:induction false} BucketOneMore(routing: Routing, chunk: Chunk, rows: seq<Row>, order: seq<nat>,
                                         buckets: map<nat, seq<nat>>, position: nat, held: seq<nat>, p: nat)
    requires routing.Valid() && Bucketed(routing, chunk, rows, order, buckets) && Inside(chunk, position)
    requires p == routing.Partition(RowAt(chunk, position)) && held == if p in buckets then buckets[p] else []
    ensures Bucketed(routing, chunk, rows + [RowAt(chunk, position)], if p in buckets then order else order + [p],
                     buckets[p := held + [position]])
  {
    forall q | q == p || q in buckets
      ensures BucketIs(routing, chunk, rows + [RowAt(chunk, position)], q, buckets[p := held + [position]][q]) {
      BucketsGrow(routing, chunk, rows, order, buckets, position, held, p, q);
    }
  }

  lemma {:induction false} BucketGrows(routing: Routing, chunk: Chunk, rows: seq<Row>, p: nat, held: seq<nat>,
                                       position: nat)
    requires routing.Valid() && Inside(chunk, position) && p == routing.Partition(RowAt(chunk, position))
    requires (forall j :: 0 <= j < |held| ==> Inside(chunk, held[j])) && RowsAt(chunk, held) == routing.Among(rows, {p})
    ensures BucketIs(routing, chunk, rows + [RowAt(chunk, position)], p, held + [position])
  {
    var row := RowAt(chunk, position);
    assert (rows + [row])[..|rows|] == rows;
    assert RowsAt(chunk, held + [position]) == RowsAt(chunk, held) + [row];
  }

  lemma {:induction false} BucketStays(routing: Routing, chunk: Chunk, rows: seq<Row>, q: nat, positions: seq<nat>,
                                       row: Row)
    requires routing.Valid() && routing.Partition(row) != q && BucketIs(routing, chunk, rows, q, positions)
    ensures BucketIs(routing, chunk, rows + [row], q, positions)
  {
    assert (rows + [row])[..|rows|] == rows;
  }

  /** The first k partitions that go to a target. */
  function PartitionsTo(order: seq<nat>, k: nat, targets: nat, target: nat): (ps: set<nat>)
    requires k <= |order| && targets > 0
    ensures forall p :: p in ps <==> p in order[..k] && p % targets == target
  {
    if k == 0 then {}
    else
      assert order[..k] == order[..k - 1] + [order[k - 1]];
      PartitionsTo(order, k - 1, targets, target) + if order[k - 1] % targets == target then {order[k - 1]} else {}
  }

  /** With the first k partitions sent, a target has received what lies in those meant for it. */
  ghost predicate SentPart(routing: Routing, rows: seq<Row>, order: seq<nat>, k: nat, before: seq<Chunk>,
                           now: seq<Chunk>, target: nat) {
    && routing.Valid() && k <= |order|
    && (forall i :: 0 <= i < |before| ==> WellFormed(before[i])) && (forall i :: 0 <= i < |now| ==> WellFormed(now[i]))
    && multiset(RowsOf(now))
    == multiset(RowsOf(before)) + multiset(routing.Among(rows, PartitionsTo(order, k, routing.targets, target)))
  }

  lemma {:induction false} SentOneMore(routing: Routing, rows: seq<Row>, order: seq<nat>, k: nat, before: seq<Chunk>,
                                       was: seq<Chunk>,
                                       now: seq<Chunk>, target: nat)
    requires k < |order| && Distinct(order) && SentPart(routing, rows, order, k, before, was, target)
    requires forall i :: 0 <= i < |now| ==> WellFormed(now[i])
    requires RowsOf(now) == RowsOf(was) + if order[k] % routing.targets == target then routing.Among(rows, {order[k]})
             else []
    ensures SentPart(routing, rows, order, k + 1, before, now, target)
  {
    var ps := PartitionsTo(order, k, routing.targets, target);
    assert order[k] !in order[..k];
    if order[k] % routing.targets == target {
      routing.AmongOneMore(rows, ps, order[k]);
      assert PartitionsTo(order, k + 1, routing.targets, target) == ps + {order[k]};
    } else {
      assert PartitionsTo(order, k + 1, routing.targets, target) == ps;
    }
  }

  /** With all partitions sent, a target has received its share. */
  lemma {:induction false} SentWhole(routing: Routing, chunk: Chunk, rows: seq<Row>, order: seq<nat>, buckets: map<nat,
                                     seq<nat>>,
                                     before: seq<Chunk>, now: seq<Chunk>, target: nat)
    requires routing.Valid() && routing.kind.HashShuffle? && Bucketed(routing, chunk, rows, order, buckets)
    requires SentPart(routing, rows, order, |order|, before, now, target)
    ensures multiset(RowsOf(now)) == multiset(RowsOf(before)) + multiset(routing.Share(rows, target))
  {
    assert order[..|order|] == order;
    routing.ShareIsAmong(rows, PartitionsTo(order, |order|, routing.targets, target), target);
  }

  class ExchangeSender {
    const routing: Routing
    var sent: seq<Envelope>
    var closed: bool
    ghost var endings: nat

    ghost predicate Valid()
      reads this
    {
      && routing.Valid() && (closed <==> endings > 0)
      && forall t {:trigger To(sent, t)} :: 0 <= t < routing.targets ==> Stream(To(sent, t), endings)
    }

    constructor (routing: Routing)
      requires routing.Valid()
      ensures Valid() && sent == [] && !closed && endings == 0 && this.routing == routing
    {
      this.routing := routing;
      sent, closed, endings := [], false, 0;
    }

    /** One message with rows. */
    method Send(target: nat, chunk: Chunk)
      requires Valid() && !closed && target < routing.targets && WellFormed(chunk) && chunk.size > 0
      modifies this`sent
      ensures Valid() && sent == old(sent) + [Envelope(target, chunk)]
      ensures forall t {:trigger To(sent, t)} :: 0 <= t < routing.targets ==>
                RowsOf(To(sent, t)) == RowsOf(To(old(sent), t))
                  + if t == target then ActiveRows(chunk, chunk.size) else []
    {
      ghost var before := sent;
      sent := sent + [Envelope(target, chunk)];
      forall t {:trigger To(sent, t)} | 0 <= t < routing.targets
        ensures Stream(To(sent, t), endings)
        ensures RowsOf(To(sent, t)) == RowsOf(To(before, t)) + if t == target then ActiveRows(chunk, chunk.size) else []
      {
        assert Stream(To(before, t), endings);
        SentTo(before, target, chunk, t);
      }
    }

    method SendGather(chunk: Chunk)
      requires Valid() && !closed && WellFormed(chunk) && chunk.size > 0
      modifies this`sent
      ensures Valid()
      ensures forall t {:trigger To(sent, t)} :: 0 <= t < routing.targets ==>
                RowsOf(To(sent, t)) == RowsOf(To(old(sent), t)) + if t == 0 then ActiveRows(chunk, chunk.size) else []
    {
      Send(0, chunk);
    }

    method SendBroadcast(chunk: Chunk)
      requires Valid() && !closed && WellFormed(chunk) && chunk.size > 0
      modifies this`sent
      ensures Valid()
      ensures forall t {:trigger To(sent, t)} :: 0 <= t < routing.targets ==>
                RowsOf(To(sent, t)) == RowsOf(To(old(sent), t)) + ActiveRows(chunk, chunk.size)
    {
      ghost var before := sent;
      for k := 0 to routing.targets
        invariant Valid()
        invariant forall t {:trigger To(sent, t)} :: 0 <= t < routing.targets ==>
                    RowsOf(To(sent, t)) == RowsOf(To(before, t)) + if t < k then ActiveRows(chunk, chunk.size) else []
      {
        Send(k, chunk);
      }
    }

    /** _partitionByKey. */
    method PartitionByKey(chunk: Chunk) returns (order: seq<nat>, buckets: map<nat, seq<nat>>)
      requires routing.Valid() && WellFormed(chunk)
      ensures Bucketed(routing, chunk, ActiveRows(chunk, chunk.size), order, buckets)
    {
      order, buckets := [], map[];
      for i := 0 to chunk.size
        invariant Bucketed(routing, chunk, ActiveRows(chunk, i), order, buckets)
      {
        var position := Position(chunk, i);
        var p := routing.Partition(RowAt(chunk, position));
        var held := if p in buckets then buckets[p] else [];
        BucketOneMore(routing, chunk, ActiveRows(chunk, i), order, buckets, position, held, p);
        if p !in buckets { order := order + [p]; }
        buckets := buckets[p := held + [position]];
      }
    }

    /** What every target has been sent when the buckets of the first k partitions are on their way. */
    ghost predicate PartsSent(rows: seq<Row>, order: seq<nat>, k: nat, before: seq<Envelope>)
      reads this
    {
      forall t {:trigger To(sent, t)} :: 0 <= t < routing.targets ==>
        SentPart(routing, rows, order, k, To(before, t), To(sent, t), t)
    }

    /** One bucket goes to its target. */
    method SendBucket(chunk: Chunk, ghost rows: seq<Row>, order: seq<nat>, buckets: map<nat, seq<nat>>, k: nat,
                      ghost before: seq<Envelope>)
      requires Valid() && !closed && WellFormed(chunk) && rows == ActiveRows(chunk, chunk.size) && k < |order|
      requires Bucketed(routing, chunk, rows, order, buckets) && PartsSent(rows, order, k, before)
      modifies this`sent
      ensures Valid() && PartsSent(rows, order, k + 1, before)
    {
      var p := order[k];
      assert BucketIs(routing, chunk, rows, p, buckets[p]);
      var part := CopyRows(chunk, buckets[p]);
      ghost var was := sent;
      Send(p % routing.targets, part);
      forall t {:trigger To(sent, t)} | 0 <= t < routing.targets
        ensures SentPart(routing, rows, order, k + 1, To(before, t), To(sent, t), t)
      {
        SentOneMore(routing, rows, order, k, To(before, t), To(was, t), To(sent, t), t);
      }
    }

    method SendShuffle(chunk: Chunk)
      requires Valid() && !closed && WellFormed(chunk) && routing.kind.HashShuffle?
      modifies this`sent
      ensures Valid()
      ensures forall t {:trigger To(sent, t)} :: 0 <= t < routing.targets ==>
                multiset(RowsOf(To(sent, t)))
                == multiset(RowsOf(To(old(sent), t))) + multiset(routing.Share(ActiveRows(chunk, chunk.size), t))
    {
      ghost var before, rows := sent, ActiveRows(chunk, chunk.size);
      var order, buckets := PartitionByKey(chunk);
      routing.AmongNone(rows);
      for k := 0 to |order|
        invariant Valid() && PartsSent(rows, order, k, before)
      {
        SendBucket(chunk, rows, order, buckets, k, before);
      }
      forall u {:trigger To(sent, u)} | 0 <= u < routing.targets
        ensures multiset(RowsOf(To(sent, u))) == multiset(RowsOf(To(before, u))) + multiset(routing.Share(rows, u))
      {
        SentWhole(routing, chunk, rows, order, buckets, To(before, u), To(sent, u), u);
      }
    }

    /** consume: after finalize nothing is sent, and neither is a chunk without rows. Every target receives its share.
        */
    method Consume(chunk: Chunk)
      requires Valid() && WellFormed(chunk)
      modifies this`sent
      ensures Valid()
      ensures closed || chunk.size == 0 ==> sent == old(sent)
      ensures !closed ==> forall t {:trigger To(sent, t)} :: 0 <= t < routing.targets ==>
                multiset(RowsOf(To(sent, t)))
                == multiset(RowsOf(To(old(sent), t))) + multiset(routing.Share(ActiveRows(chunk, chunk.size), t))
    {
      if closed || chunk.size == 0 { return; }
      ghost var before, rows := sent, ActiveRows(chunk, chunk.size);
      match routing.kind {
        case Broadcast => SendBroadcast(chunk);
        case HashShuffle => SendShuffle(chunk);
        case _ => SendGather(chunk);
      }
      if !routing.kind.HashShuffle? {
        forall t {:trigger To(sent, t)} | 0 <= t < routing.targets
          ensures multiset(RowsOf(To(sent, t))) == multiset(RowsOf(To(before, t))) + multiset(routing.Share(rows, t))
        {
          if routing.kind.Broadcast? || t == 0 { routing.ShareAll(rows, t); } else { routing.ShareNone(rows, t); }
        }
      }
    }

    /** finalize: one end marker to every target. */
    method Finalize()
      requires Valid()
      modifies this
      ensures Valid() && closed && endings == old(endings) + 1
      ensures forall t {:trigger To(sent, t)} :: 0 <= t < routing.targets ==>
              To(sent, t) == To(old(sent), t) + [END_MARKER]
    {
      closed := true;
      ghost var before := sent;
      for k := 0 to routing.targets
        invariant closed && endings == old(endings)
        invariant forall t {:trigger To(sent, t)} :: 0 <= t < routing.targets ==>
                    To(sent, t) == To(before, t) + if t < k then [END_MARKER] else []
      {
        ghost var was := sent;
        sent := sent + [Envelope(k, END_MARKER)];
        forall t {:trigger To(sent, t)} | 0 <= t < routing.targets
          ensures To(sent, t) == To(before, t) + if t < k + 1 then [END_MARKER] else []
        {
          ToOneMore(was, Envelope(k, END_MARKER), t);
        }
      }
      endings := endings + 1;
      assert forall t {:trigger To(before, t)} :: 0 <= t < routing.targets ==> Stream(To(before, t), old(endings));
    }
  }
}
