/** MergeExchangeOperator of src/distributed/execution/merge-exchange.ts. */
module MergeExchanges {
  // Deliveries happen at the await and yield points, in any order between the streams and in order within each.
  import opened Wrappers
  import opened RowOrder
  import opened SortedRows
  import opened MergeSpec
  import opened MergeHeap

  const DEFAULT_CHUNK_SIZE := 2048

  type Stream = seq<ReadableChunk>

  /** The rows of the chunks from d on. */
  function RowsFrom(chunks: Stream, d: nat): seq<Row>
    requires d <= |chunks|
    decreases |chunks| - d
  {
    if d == |chunks| then [] else chunks[d].rows + RowsFrom(chunks, d + 1)
  }

  function LeftOf(chunks: Stream, d: nat, a: nat): seq<Row> {
    if d < |chunks| && a <= |chunks[d].rows| then chunks[d].rows[a..] + RowsFrom(chunks, d + 1) else []
  }

  /** How far one stream has been read: chunks shifted out of its buffer, rows emitted from the chunk in
      front, and the rows still to come. */
  datatype Feed = Feed(done: nat, at: nat, left: seq<Row>)

  /** How many chunks are among the first `sent` messages; the last message is the end marker. */
  function ChunksIn(chunks: Stream, sent: nat): nat {
    if sent < |chunks| then sent else |chunks|
  }

  /** The buffer of stream i holds the delivered chunks after the first `done`, as they were sent. */
  ghost predicate StreamOk(chunks: Stream, buffer: Stream, sent: nat, f: Feed) {
    && sent <= |chunks| + 1 && f.done + |buffer| == ChunksIn(chunks, sent)
    && (forall k {:trigger buffer[k]} :: 0 <= k < |buffer| ==> buffer[k] == chunks[f.done + k])
    && (buffer == [] ==> f.at == 0) && (buffer != [] ==> f.at <= |buffer[0].rows|)
    && f.left == LeftOf(chunks, f.done, f.at)
  }

  lemma {:induction false} EmptyFeed(chunks: Stream, d: nat)
    requires d <= |chunks|
    ensures LeftOf(chunks, d, 0) == RowsFrom(chunks, d)
  {
    if d < |chunks| { assert chunks[d].rows[0..] == chunks[d].rows; }
  }

  /** Shifting a chunk that has been read through loses no row. */
  lemma {:induction false} ShiftOk(chunks: Stream, buffer: Stream, sent: nat, f: Feed)
    requires StreamOk(chunks, buffer, sent, f) && buffer != [] && f.at == |buffer[0].rows|
    ensures StreamOk(chunks, buffer[1..], sent, Feed(f.done + 1, 0, f.left))
  {
    EmptyFeed(chunks, f.done + 1);
    assert buffer[0] == chunks[f.done];
    assert chunks[f.done].rows[f.at..] == [];
    forall k | 0 <= k < |buffer[1..]| ensures buffer[1..][k] == chunks[f.done + 1 + k] {
      assert buffer[1..][k] == buffer[k + 1];
    }
  }

  /** A delivered chunk goes to the back of the buffer. */
  lemma {:induction false} DeliverOk(chunks: Stream, buffer: Stream, sent: nat, f: Feed)
    requires StreamOk(chunks, buffer, sent, f) && sent < |chunks|
    ensures StreamOk(chunks, buffer + [chunks[sent]], sent + 1, f)
  {}

  /** Emitting k rows of the front chunk takes them off the front of the rows to come. */
  lemma {:induction false} EmitOk(chunks: Stream, buffer: Stream, sent: nat, f: Feed, k: nat)
    requires StreamOk(chunks, buffer, sent, f) && buffer != [] && f.at + k <= |buffer[0].rows|
    ensures k <= |f.left| && f.left[..k] == buffer[0].rows[f.at..f.at + k]
    ensures StreamOk(chunks, buffer, sent, Feed(f.done, f.at + k, f.left[k..]))
  {
    var chunk := buffer[0].rows;
    assert buffer[0] == chunks[f.done];
    assert f.left == chunk[f.at..] + RowsFrom(chunks, f.done + 1);
    assert f.left[k..] == chunk[f.at + k..] + RowsFrom(chunks, f.done + 1);
  }

  /** A stream with a row in front has rows to come, and its first is that row. */
  lemma {:induction false} FrontRow(chunks: Stream, buffer: Stream, sent: nat, f: Feed)
    requires StreamOk(chunks, buffer, sent, f) && buffer != [] && f.at < |buffer[0].rows|
    ensures f.left != [] && f.left[0] == buffer[0].rows[f.at]
    ensures |buffer[0].rows| - f.at <= |f.left| && buffer[0].rows[f.at..] == f.left[..|buffer[0].rows| - f.at]
  {
    assert buffer[0] == chunks[f.done];
  }

  lemma {:induction false} NothingLeft(chunks: Stream, f: Feed)
    requires StreamOk(chunks, [], |chunks| + 1, f)
    ensures f.left == []
  {}

  class MergeExchangeOperator {
    const keys: seq<OrderKey>
    /** 0 stands for no limit. */
    const limit: nat
    /** The chunks each source sends before its end marker. */
    const streams: seq<Stream>
    /** How many messages of each source have arrived. */
    var delivered: seq<nat>

    var buffers: seq<Stream>
    var exhausted: set<nat>
    ghost var feeds: seq<Feed>
    /** Sources with a head in the heap or in hand. */
    ghost var busy: set<nat>
    ghost const chunks: set<ReadableChunk>

    ghost predicate Fed()
      reads this`buffers, this`exhausted, this`feeds, this`delivered
    {
      && |buffers| == |feeds| == |delivered| == |streams|
      && (forall i {:trigger feeds[i]} :: 0 <= i < |streams| ==>
        StreamOk(streams[i], buffers[i], delivered[i], feeds[i]))
      && (forall i {:trigger i in exhausted} :: 0 <= i < |streams| ==>
        (i in exhausted <==> delivered[i] == |streams[i]| + 1))
    }

    /** Chunks not shifted out have been read as far as rows were emitted; the position of a head is set when
        its source comes up again. */
    ghost predicate ReadState()
      reads this`feeds, this`busy, chunks`readIdx
    {
      && |feeds| == |streams| && Apart(streams, chunks)
      && (forall i {:trigger feeds[i]} :: 0 <= i < |streams| ==> Reads(streams[i], feeds[i], i !in busy))
    }

    /** A source with a head has the chunk of the head in front of its buffer. */
    ghost predicate Fronts()
      reads this`buffers, this`feeds, this`busy
    {
      && |buffers| == |feeds| == |streams|
      && (forall i {:trigger i in busy} :: 0 <= i < |streams| && i in busy ==>
        buffers[i] != [] && feeds[i].at < |buffers[i][0].rows|)
    }

    ghost predicate Valid()
      reads this, chunks`readIdx
    {
      Fed() && ReadState() && Fronts()
    }

    constructor (keys: seq<OrderKey>, limit: Option<nat>, streams: seq<Stream>, ghost chunks: set<ReadableChunk>)
      requires Apart(streams, chunks) && forall c :: c in chunks ==> c.readIdx == 0
      ensures Valid() && busy == {} && this.keys == keys && this.streams == streams && this.chunks == chunks
      ensures this.limit == (if limit.Some? then limit.value else 0)
      ensures feeds == Started(streams)
    {
      this.keys, this.streams, this.chunks := keys, streams, chunks;
      this.limit := if limit.Some? then limit.value else 0;
      buffers := seq(|streams|, _ => []);
      delivered := seq(|streams|, _ => 0);
      exhausted, busy := {}, {};
      feeds := Started(streams);
      new;
      forall i | 0 <= i < |streams| ensures StreamOk(streams[i], [], 0, Feed(0, 0, RowsFrom(streams[i], 0))) {
        EmptyFeed(streams[i], 0);
      }
    }

    /** The next message of one source arrives: a chunk, or the end marker after its last chunk. */
    method HandleChunk(i: nat)
      requires Valid() && i < |streams| && i !in exhausted
      modifies this`buffers, this`exhausted, this`delivered
      ensures Valid()
      ensures EventsLeft(streams, delivered) < old(EventsLeft(streams, delivered))
      ensures Grown(old(buffers), buffers) && old(exhausted) <= exhausted
    {
      assert StreamOk(streams[i], buffers[i], delivered[i], feeds[i]);
      OneEvent(streams, delivered, i, |streams|);
      if delivered[i] == |streams[i]| {
        EndMarker(i);
      } else {
        Enqueue(i, streams[i][delivered[i]]);
      }
    }

    method EndMarker(i: nat)
      requires Fed() && i < |streams| && delivered[i] == |streams[i]|
      modifies this`exhausted, this`delivered
      ensures Fed() && delivered == old(delivered)[i := old(delivered[i]) + 1] && old(exhausted) <= exhausted
    {
      assert StreamOk(streams[i], buffers[i], delivered[i], feeds[i]);
      exhausted := exhausted + {i};
      delivered := delivered[i := delivered[i] + 1];
    }

    method Enqueue(i: nat, chunk: ReadableChunk)
      requires Fed() && Fronts() && i < |streams| && delivered[i] < |streams[i]| && chunk == streams[i][delivered[i]]
      modifies this`buffers, this`delivered
      ensures Fed() && Fronts()
      ensures delivered == old(delivered)[i := old(delivered[i]) + 1]
      ensures Grown(old(buffers), buffers)
    {
      assert StreamOk(streams[i], buffers[i], delivered[i], feeds[i]);
      DeliverOk(streams[i], buffers[i], delivered[i], feeds[i]);
      buffers := buffers[i := buffers[i] + [chunk]];
      delivered := delivered[i := delivered[i] + 1];
    }

    lemma {:induction false} MoreToCome()
      requires Fed()
      ensures EventsLeft(streams, delivered) >= 0
    {
      forall i | 0 <= i < |streams| ensures delivered[i] <= |streams[i]| + 1 {
        assert StreamOk(streams[i], buffers[i], delivered[i], feeds[i]);
      }
      EventsAreLeft(streams, delivered, |streams|);
    }

    /** Any number of messages arrives while the consumer of the generator holds it at a yield. */
    method Pause()
      requires Valid()
      modifies this`buffers, this`exhausted, this`delivered
      ensures Valid()
      ensures Grown(old(buffers), buffers)
    {
      while *
        invariant Valid() && Grown(old(buffers), buffers)
        decreases EventsLeft(streams, delivered)
      {
        MoreToCome();
        if forall i: nat | i < |streams| :: i in exhausted { break; }
        var i: nat :| i < |streams| && i !in exhausted;
        HandleChunk(i);
        MoreToCome();
      }
    }

    /** Waits for a source; meanwhile messages arrive from any of them. */
    method WaitForData(node: nat)
      requires Valid() && node < |streams|
      modifies this`buffers, this`exhausted, this`delivered
      ensures Valid()
      ensures Grown(old(buffers), buffers) && old(exhausted) <= exhausted
      ensures buffers[node] != [] || node in exhausted
    {
      while buffers[node] == [] && node !in exhausted
        invariant Valid() && Grown(old(buffers), buffers) && old(exhausted) <= exhausted
        decreases EventsLeft(streams, delivered)
      {
        MoreToCome();
        var i: nat :| i < |streams| && i !in exhausted;
        HandleChunk(i);
        MoreToCome();
      }
    }

    /** Takes the next unread row of an idle stream in hand, dropping chunks read through. */
    method NextEntry(node: nat) returns (entry: Option<HeapEntry>)
      requires Valid() && node < |streams| && node !in busy
      modifies this`buffers, this`feeds, this`busy, chunks`readIdx
      ensures Valid() && Lefts(feeds) == Lefts(old(feeds))
      ensures forall i {:trigger buffers[i]} :: 0 <= i < |streams| && i != node ==>
              buffers[i] == old(buffers)[i] && feeds[i] == old(feeds)[i]
      ensures entry.None? ==> busy == old(busy) && buffers[node] == []
      ensures entry.Some? ==>
                busy == old(busy) + {node} && buffers[node] != [] && entry.value == HeadOf(buffers, feeds, node)
      ensures old(buffers[node] != [] && feeds[node].at < |buffers[node][0].rows|) ==> entry.Some?
      decreases |buffers[node]|
    {
      if buffers[node] == [] { return None; }
      var chunk := buffers[node][0];
      if chunk.readIdx >= |chunk.rows| {
        Shift(node);
        entry := NextEntry(node);
        return;
      }
      entry := Some(HeapEntry(node, chunk, chunk.readIdx));
      TakeHead(node);
    }

    method Shift(node: nat)
      requires Valid() && node < |streams| && node !in busy
      requires buffers[node] != [] && buffers[node][0].readIdx >= |buffers[node][0].rows|
      modifies this`buffers, this`feeds
      ensures Valid() && Lefts(feeds) == Lefts(old(feeds)) && |buffers| == |old(buffers)|
      ensures forall i {:trigger buffers[i]} :: 0 <= i < |streams| && i != node ==>
              buffers[i] == old(buffers)[i] && feeds[i] == old(feeds)[i]
      ensures buffers[node] == old(buffers)[node][1..]
    {
      assert StreamOk(streams[node], buffers[node], delivered[node], feeds[node]);
      ShiftOk(streams[node], buffers[node], delivered[node], feeds[node]);
      feeds := feeds[node := Feed(feeds[node].done + 1, 0, feeds[node].left)];
      buffers := buffers[node := buffers[node][1..]];
      assert Lefts(feeds) == Lefts(old(feeds));
    }

    method TakeHead(node: nat)
      requires Valid() && node < |streams| && node !in busy
      requires buffers[node] != [] && buffers[node][0].readIdx < |buffers[node][0].rows|
      modifies this`busy, chunks`readIdx
      ensures Valid() && busy == old(busy) + {node}
    {
      assert StreamOk(streams[node], buffers[node], delivered[node], feeds[node]);
      var chunk := buffers[node][0];
      FrontsApart(node);
      chunk.readIdx := chunk.readIdx + 1;
      busy := busy + {node};
    }

    /** The chunk in front of a stream is no other chunk of the streams. */
    lemma {:induction false} FrontsApart(node: nat)
      requires Fed() && Apart(streams, chunks) && node < |streams| && buffers[node] != []
      ensures feeds[node].done < |streams[node]| && buffers[node][0] == streams[node][feeds[node].done]
              && buffers[node][0] in chunks
      ensures forall i, d {:trigger streams[i][d]} ::
        0 <= i < |streams| && 0 <= d < |streams[i]| && streams[i][d] == buffers[node][0] ==>
          i == node && d == feeds[node].done
    {
      assert StreamOk(streams[node], buffers[node], delivered[node], feeds[node]);
      var front := streams[node][feeds[node].done];
      assert front.source == node && front.index == feeds[node].done;
    }

    /** Every source with rows to come has its head in the heap or in hand. */
    ghost predicate Ready()
      reads this`feeds, this`busy
    {
      forall i {:trigger feeds[i]} :: 0 <= i < |feeds| && feeds[i].left != [] ==> i in busy
    }

    /** A run that ends no later than every head in the heap may be emitted. */
    lemma {:induction false} RunMayGo(data: seq<HeapEntry>, i: nat, k: nat)
      requires Fed() && Ready() && i in busy && i < |streams| && buffers[i] != []
      requires HeadsOf(multiset(data), busy - {i}, buffers, feeds)
      requires 0 < k <= |buffers[i][0].rows| - feeds[i].at
      requires forall e :: e in data ==> InChunk(e) && RowLe(keys, buffers[i][0].rows[feeds[i].at + k - 1], RowOf(e))
      ensures k <= |feeds[i].left| && RunFits(keys, Lefts(feeds), i, k)
    {
      assert StreamOk(streams[i], buffers[i], delivered[i], feeds[i]);
      FrontRow(streams[i], buffers[i], delivered[i], feeds[i]);
      assert feeds[i].left[k - 1] == buffers[i][0].rows[feeds[i].at..][k - 1];
      var lefts := Lefts(feeds);
      forall j | 0 <= j < |lefts| && j != i && lefts[j] != [] ensures RowLe(keys, lefts[i][k - 1], lefts[j][0]) {
        assert feeds[j].left != [] && j in busy - {i};
        var e := HeadOf(buffers, feeds, j);
        assert e in multiset(data);
        assert e in data && InChunk(e);
        assert StreamOk(streams[j], buffers[j], delivered[j], feeds[j]);
        FrontRow(streams[j], buffers[j], delivered[j], feeds[j]);
      }
    }

    /** Rows of the chunk in hand that come no later than the best head in the heap: all of them up to the first that
        comes later. */
    method ComputeRunLength(top: HeapEntry, heap: MinHeap) returns (run: nat)
      requires heap.Valid() && heap.keys == keys && InChunk(top)
      requires forall e :: e in heap.data ==> InChunk(e) && EntryLe(keys, top, e)
      ensures 0 < run <= |top.chunk.rows| - top.rowIdx
      ensures forall e :: e in heap.data ==> RowLe(keys, top.chunk.rows[top.rowIdx + run - 1], RowOf(e))
      ensures top.rowIdx + run < |top.chunk.rows| ==>
                exists e :: e in heap.data && !RowLe(keys, top.chunk.rows[top.rowIdx + run], RowOf(e))
    {
      if |heap.data| == 0 { return |top.chunk.rows| - top.rowIdx; }
      var runnerUp := heap.Peek();
      run := 1;
      var i := top.rowIdx + 1;
      while i < |top.chunk.rows|
        invariant i == top.rowIdx + run <= |top.chunk.rows| && run > 0
        invariant RowLe(keys, top.chunk.rows[i - 1], RowOf(runnerUp))
      {
        if CompareRows(keys, top.chunk.rows[i], RowOf(runnerUp)) > 0 {
          assert runnerUp in heap.data && !RowLe(keys, top.chunk.rows[i], RowOf(runnerUp));
          break;
        }
        run := run + 1;
        i := i + 1;
      }
      forall e | e in heap.data ensures RowLe(keys, top.chunk.rows[top.rowIdx + run - 1], RowOf(e)) {
        CompareRowsChain(keys, top.chunk.rows[top.rowIdx + run - 1], RowOf(runnerUp), RowOf(e));
      }
    }

    /** Copies a stretch of a chunk to the output, yielding every full chunk. */
    method CopyRun(rows: seq<Row>, start: nat, count: nat, already: seq<seq<Row>>, held: seq<Row>)
        returns (yielded: seq<seq<Row>>, pending: seq<Row>)
      requires Valid() && start + count <= |rows| && FullChunks(already) && |held| < DEFAULT_CHUNK_SIZE
      modifies this`buffers, this`exhausted, this`delivered
      ensures Valid() && Grown(old(buffers), buffers)
      ensures FullChunks(yielded) && |pending| < DEFAULT_CHUNK_SIZE
      ensures Output(yielded, pending) == Output(already, held) + rows[start..start + count]
    {
      yielded, pending := already, held;
      var copied: nat := 0;
      assert rows[start..start] == [];
      while copied < count
        invariant copied <= count && Valid() && Grown(old(buffers), buffers)
        invariant FullChunks(yielded) && |pending| < DEFAULT_CHUNK_SIZE
        invariant Output(yielded, pending) == Output(already, held) + rows[start..start + copied]
      {
        var space := DEFAULT_CHUNK_SIZE - |pending|;
        var batch := if count - copied < space then count - copied else space;
        OutputMore(yielded, pending, rows, start + copied, batch);
        assert rows[start..start + copied] + rows[start + copied..start + copied + batch]
               == rows[start..start + copied + batch];
        pending := pending + rows[start + copied..start + copied + batch];
        copied := copied + batch;
        if |pending| >= DEFAULT_CHUNK_SIZE {
          OutputYield(yielded, pending);
          yielded, pending := yielded + [pending], [];
          Pause();
        }
      }
    }

    ghost predicate ReadyBut(node: nat)
      reads this`feeds, this`busy
    {
      forall i {:trigger feeds[i]} :: 0 <= i < |feeds| && i != node && feeds[i].left != [] ==> i in busy
    }

    /** No data chunk without rows: senders drop those. */
    ghost predicate ChunksHaveRows() {
      forall i, d :: 0 <= i < |streams| && 0 <= d < |streams[i]| ==> streams[i][d].rows != []
    }

    /** More rows of the front chunk remain: they become the new head. */
    method KeepHead(top: HeapEntry, count: nat)
      requires Valid() && top.nodeId in busy && top.nodeId < |streams| && buffers[top.nodeId] != []
      requires top == HeadOf(buffers, feeds, top.nodeId) && top.rowIdx + count < |top.chunk.rows|
      modifies this`feeds, chunks`readIdx
      ensures Valid() && count <= |old(feeds)[top.nodeId].left|
      ensures feeds == old(feeds)[top.nodeId := Feed(old(feeds)[top.nodeId].done, top.rowIdx + count,
              old(feeds)[top.nodeId].left[count..])]
    {
      var i := top.nodeId;
      assert StreamOk(streams[i], buffers[i], delivered[i], feeds[i]);
      EmitOk(streams[i], buffers[i], delivered[i], feeds[i], count);
      FrontsApart(i);
      top.chunk.readIdx := top.rowIdx + count + 1;
      feeds := feeds[i := Feed(feeds[i].done, feeds[i].at + count, feeds[i].left[count..])];
    }

    /** Marks how far the front chunk of a source is read; no other position moves. */
    method MarkFront(i: nat, ghost f: Feed, at: nat)
      requires Fed() && ReadState() && i in busy && i < |streams| && buffers[i] != [] && f.done == feeds[i].done
               && f.at == at
      modifies chunks`readIdx
      ensures forall j {:trigger feeds[j]} :: 0 <= j < |streams| && j != i ==> Reads(streams[j], feeds[j], j !in busy)
      ensures Reads(streams[i], f, true)
    {
      FrontsApart(i);
      buffers[i][0].readIdx := at;
    }

    /** The feed of one source changes; the others stay in step. */
    lemma {:induction false} FedAt(i: nat, f: Feed)
      requires Fed() && i < |streams| && StreamOk(streams[i], buffers[i], delivered[i], f)
      ensures var feeds' := feeds[i := f];
        forall j {:trigger feeds'[j]} :: 0 <= j < |streams| ==>
          StreamOk(streams[j], buffers[j], delivered[j], feeds'[j])
    {
      var feeds' := feeds[i := f];
      forall j {:trigger feeds'[j]} | 0 <= j < |streams|
        ensures StreamOk(streams[j], buffers[j], delivered[j], feeds'[j]) {
        assert StreamOk(streams[j], buffers[j], delivered[j], feeds[j]);
      }
    }

    /** The front chunk is read through: the source waits for its next head. */
    method DropHead(top: HeapEntry, count: nat)
      requires Valid() && top.nodeId in busy && top.nodeId < |streams| && buffers[top.nodeId] != []
      requires top == HeadOf(buffers, feeds, top.nodeId) && top.rowIdx + count == |top.chunk.rows|
      modifies this`feeds, this`busy, chunks`readIdx
      ensures Valid() && count <= |old(feeds)[top.nodeId].left| && busy == old(busy) - {top.nodeId}
      ensures feeds
           == old(feeds)[top.nodeId := Feed(old(feeds)[top.nodeId].done, top.rowIdx + count,
             old(feeds)[top.nodeId].left[count..])]
    {
      var i := top.nodeId;
      assert StreamOk(streams[i], buffers[i], delivered[i], feeds[i]);
      EmitOk(streams[i], buffers[i], delivered[i], feeds[i], count);
      ghost var f := Feed(feeds[i].done, feeds[i].at + count, feeds[i].left[count..]);
      FedAt(i, f);
      MarkFront(i, f, |top.chunk.rows|);
      Release(i, f);
    }

    /** A source whose position is marked is idle again. */
    ghost method Release(i: nat, f: Feed)
      requires i < |streams| && i in busy && Fed() && Fronts() && |feeds| == |streams| && Apart(streams, chunks)
      requires var feeds' := feeds[i := f];
        forall j {:trigger feeds'[j]} :: 0 <= j < |streams| ==>
          StreamOk(streams[j], buffers[j], delivered[j], feeds'[j])
      requires forall j {:trigger feeds[j]} :: 0 <= j < |streams| && j != i ==> Reads(streams[j], feeds[j], j !in busy)
      requires Reads(streams[i], f, true)
      modifies this`feeds, this`busy
      ensures Valid() && feeds == old(feeds)[i := f] && busy == old(busy) - {i}
    {
      ghost var was := feeds;
      feeds := feeds[i := f];
      busy := busy - {i};
      forall j {:trigger feeds[j]} | 0 <= j < |streams| ensures Reads(streams[j], feeds[j], j !in busy) {
        if j != i { assert Reads(streams[j], was[j], j !in busy); }
      }
    }

    /** An idle source whose buffer is empty and whose end marker is in has no rows left. */
    lemma {:induction false} EndedIsEmpty(node: nat)
      requires Fed() && node < |streams| && node in exhausted && buffers[node] == []
      ensures feeds[node].left == []
    {
      assert StreamOk(streams[node], buffers[node], delivered[node], feeds[node]);
      NothingLeft(streams[node], feeds[node]);
    }

    /** A source whose chunks were all read through starts its next chunk at the top. */
    lemma {:induction false} FreshFront(node: nat)
      requires Fed() && ChunksHaveRows() && node < |streams| && buffers[node] != [] && feeds[node].at == 0
      ensures feeds[node].at < |buffers[node][0].rows|
    {
      assert StreamOk(streams[node], buffers[node], delivered[node], feeds[node]);
      assert buffers[node][0] == streams[node][feeds[node].done];
    }

    /** Takes the next head of an idle source in hand; the heads in the heap stay heads. */
    method NextHead(node: nat, ghost data: multiset<HeapEntry>) returns (entry: Option<HeapEntry>)
      requires Valid() && node < |streams| && node !in busy && HeadsOf(data, busy, buffers, feeds)
      modifies this`buffers, this`feeds, this`busy, chunks`readIdx
      ensures Valid() && Lefts(feeds) == Lefts(old(feeds)) && HeadsOf(data, old(busy), buffers, feeds)
      ensures forall i {:trigger buffers[i]} {:trigger feeds[i]} :: 0 <= i < |streams| && i != node ==>
        buffers[i] == old(buffers)[i] && feeds[i] == old(feeds)[i]
      ensures entry.None? ==> busy == old(busy) && buffers[node] == []
      ensures entry.Some? ==>
        busy == old(busy) + {node} && buffers[node] != [] && entry.value == HeadOf(buffers, feeds, node)
      ensures entry.Some? ==> entry.value.nodeId == node && InChunk(entry.value)
      ensures old(buffers[node] != [] && feeds[node].at < |buffers[node][0].rows|) ==> entry.Some?
    {
      ghost var was, before, heads := buffers, feeds, busy;
      entry := NextEntry(node);
      HeadsElsewhere(data, heads, was, buffers, before, feeds, node);
    }

    /** Puts the next head of an idle source into the heap, if it has one. */
    method PushNext(node: nat, heap: MinHeap) returns (pushed: bool)
      requires Valid() && node < |streams| && node !in busy && heap.Valid() && heap.keys == keys
      requires HeadsOf(multiset(heap.data), busy, buffers, feeds)
      modifies this`buffers, this`feeds, this`busy, chunks`readIdx, heap`data
      ensures Valid() && heap.Valid() && HeadsOf(multiset(heap.data), busy, buffers, feeds)
      ensures forall i {:trigger buffers[i]} {:trigger feeds[i]} :: 0 <= i < |streams| && i != node ==>
        buffers[i] == old(buffers)[i] && feeds[i] == old(feeds)[i]
      ensures Lefts(feeds) == Lefts(old(feeds)) && (old(ReadyBut(node)) ==> ReadyBut(node))
      ensures if pushed then busy == old(busy) + {node} else busy == old(busy) && buffers[node] == []
      ensures old(buffers[node] != [] && feeds[node].at < |buffers[node][0].rows|) ==> pushed
    {
      ghost var heads := busy;
      var entry := NextHead(node, multiset(heap.data));
      pushed := entry.Some?;
      if pushed { PushTaken(entry.value, heap, heads); }
    }

    method PushTaken(head: HeapEntry, heap: MinHeap, ghost heads: set<nat>)
      requires heap.Valid() && HeadsOf(multiset(heap.data), heads, buffers, feeds) && busy == heads + {head.nodeId}
      requires head.nodeId !in heads && head.nodeId < |buffers| && buffers[head.nodeId] != []
      requires head == HeadOf(buffers, feeds, head.nodeId) && InChunk(head)
      modifies heap`data
      ensures heap.Valid() && HeadsOf(multiset(heap.data), busy, buffers, feeds)
    {
      HeadsPushed(multiset(heap.data), heads, buffers, feeds, head.nodeId);
      ghost var all := multiset(heap.data) + multiset{head};
      heap.Push(head);
      assert multiset(heap.data) == all;
    }

    /** Finds the next head of an idle source, waiting for its data when its buffer is empty. */
    method Refill(node: nat, heap: MinHeap)
      requires Valid() && ChunksHaveRows() && node < |streams| && node !in busy && heap.Valid() && heap.keys == keys
      requires HeadsOf(multiset(heap.data), busy, buffers, feeds) && ReadyBut(node)
      modifies this`buffers, this`exhausted, this`delivered, this`feeds, this`busy, chunks`readIdx, heap`data
      ensures Valid() && Ready()
      ensures heap.Valid() && HeadsOf(multiset(heap.data), busy, buffers, feeds)
      ensures Lefts(feeds) == Lefts(old(feeds))
    {
      var pushed := PushNext(node, heap);
      if !pushed && node !in exhausted {
        AwaitNext(node, heap);
      } else if !pushed {
        EndedIsEmpty(node);
      }
    }

    method AwaitNext(node: nat, heap: MinHeap)
      requires Valid() && ChunksHaveRows() && node < |streams| && node !in busy && heap.Valid() && heap.keys == keys
      requires HeadsOf(multiset(heap.data), busy, buffers, feeds) && ReadyBut(node) && buffers[node] == []
      modifies this`buffers, this`exhausted, this`delivered, this`feeds, this`busy, chunks`readIdx, heap`data
      ensures Valid() && Ready()
      ensures heap.Valid() && HeadsOf(multiset(heap.data), busy, buffers, feeds)
      ensures Lefts(feeds) == Lefts(old(feeds))
    {
      WaitForFront(node, multiset(heap.data));
      var pushed := PushNext(node, heap);
      if !pushed { EndedIsEmpty(node); }
    }

    method WaitForFront(node: nat, ghost data: multiset<HeapEntry>)
      requires Valid() && ChunksHaveRows() && node < |streams|
      requires HeadsOf(data, busy, buffers, feeds) && buffers[node] == []
      modifies this`buffers, this`exhausted, this`delivered
      ensures Valid() && HeadsOf(data, busy, buffers, feeds)
      ensures if buffers[node] == [] then node in exhausted else feeds[node].at < |buffers[node][0].rows|
    {
      ghost var was := buffers;
      assert StreamOk(streams[node], buffers[node], delivered[node], feeds[node]);
      WaitForData(node);
      HeadsGrown(data, busy, was, buffers, feeds);
      if buffers[node] != [] { FreshFront(node); }
    }

    /** The head of a source is out of the heap and in hand. */
    ghost predicate InHand(top: HeapEntry, heap: MinHeap)
      reads this`buffers, this`feeds, this`busy, heap
    {
      && heap.Valid() && heap.keys == keys && |buffers| == |feeds|
      && top.nodeId in busy && top.nodeId < |buffers| && buffers[top.nodeId] != []
      && top == HeadOf(buffers, feeds, top.nodeId)
      && HeadsOf(multiset(heap.data), busy - {top.nodeId}, buffers, feeds)
    }

    method PushBack(head: HeapEntry, heap: MinHeap, ghost was: seq<Feed>)
      requires heap.Valid() && |buffers| == |feeds| && head.nodeId in busy && head.nodeId < |buffers|
               && buffers[head.nodeId] != []
      requires head == HeadOf(buffers, feeds, head.nodeId) && InChunk(head)
      requires |was| == |feeds| && feeds == was[head.nodeId := feeds[head.nodeId]]
      requires HeadsOf(multiset(heap.data), busy - {head.nodeId}, buffers, was)
      modifies heap`data
      ensures heap.Valid() && HeadsOf(multiset(heap.data), busy, buffers, feeds)
    {
      HeadMoved(multiset(heap.data), busy, buffers, was, feeds, head.nodeId, feeds[head.nodeId]);
      ghost var all := multiset(heap.data) + multiset{head};
      heap.Push(head);
      assert multiset(heap.data) == all;
    }

    method AdvanceWithin(top: HeapEntry, count: nat, heap: MinHeap)
      requires Valid() && Ready() && InHand(top, heap) && top.rowIdx + count < |top.chunk.rows|
      modifies this`feeds, chunks`readIdx, heap`data
      ensures Valid() && Ready()
      ensures heap.Valid() && HeadsOf(multiset(heap.data), busy, buffers, feeds)
      ensures count <= |old(feeds)[top.nodeId].left|
      ensures Lefts(feeds) == Lefts(old(feeds))[top.nodeId := old(feeds)[top.nodeId].left[count..]]
    {
      ghost var i, was := top.nodeId, feeds;
      KeepHead(top, count);
      LeftsSet(was, i, feeds[i]);
      PushBack(HeapEntry(top.nodeId, top.chunk, top.rowIdx + count), heap, was);
    }

    method AdvancePast(top: HeapEntry, count: nat, heap: MinHeap)
      requires Valid() && ChunksHaveRows() && Ready() && InHand(top, heap) && top.rowIdx + count == |top.chunk.rows|
      modifies this`buffers, this`exhausted, this`delivered, this`feeds, this`busy, chunks`readIdx, heap`data
      ensures Valid() && Ready()
      ensures heap.Valid() && HeadsOf(multiset(heap.data), busy, buffers, feeds)
      ensures count <= |old(feeds)[top.nodeId].left|
      ensures Lefts(feeds) == Lefts(old(feeds))[top.nodeId := old(feeds)[top.nodeId].left[count..]]
    {
      ghost var i, was := top.nodeId, feeds;
      DropHead(top, count);
      LeftsSet(was, i, feeds[i]);
      HeadsElsewhere(multiset(heap.data), busy, buffers, buffers, was, feeds, i);
      Refill(top.nodeId, heap);
    }

    /** After `count` rows of the chunk in hand went out, its source gets its next head. */
    method Advance(top: HeapEntry, count: nat, heap: MinHeap)
      requires Valid() && ChunksHaveRows() && Ready() && InHand(top, heap) && top.rowIdx + count <= |top.chunk.rows|
      modifies this`buffers, this`exhausted, this`delivered, this`feeds, this`busy, chunks`readIdx, heap`data
      ensures Valid() && Ready()
      ensures heap.Valid() && HeadsOf(multiset(heap.data), busy, buffers, feeds)
      ensures count <= |old(feeds)[top.nodeId].left|
      ensures Lefts(feeds) == Lefts(old(feeds))[top.nodeId := old(feeds)[top.nodeId].left[count..]]
    {
      if top.rowIdx + count < |top.chunk.rows| {
        AdvanceWithin(top, count, heap);
      } else {
        AdvancePast(top, count, heap);
      }
    }

    /** Takes the best head in hand and finds how much of its chunk may follow it. */
    method TakeBest(heap: MinHeap) returns (top: HeapEntry, run: nat)
      requires Valid() && Ready() && heap.Valid() && heap.keys == keys && heap.data != []
      requires HeadsOf(multiset(heap.data), busy, buffers, feeds)
      modifies heap`data
      ensures InHand(top, heap) && 0 < run <= |top.chunk.rows| - top.rowIdx
      ensures run <= |feeds[top.nodeId].left| && RunFits(keys, Lefts(feeds), top.nodeId, run)
    {
      top := PopHead(heap);
      run := ComputeRunLength(top, heap);
      RunMayGo(heap.data, top.nodeId, run);
    }

    method PopHead(heap: MinHeap) returns (top: HeapEntry)
      requires heap.Valid() && heap.keys == keys && heap.data != []
      requires HeadsOf(multiset(heap.data), busy, buffers, feeds)
      modifies heap`data
      ensures InHand(top, heap) && InChunk(top)
      ensures forall e :: e in heap.data ==> InChunk(e) && EntryLe(keys, top, e)
    {
      ghost var all := multiset(heap.data);
      top := heap.Pop();
      assert all == multiset(heap.data) + multiset{top};
      HeadsPopped(multiset(heap.data), busy, buffers, feeds, top);
    }

    /** Copies the first `count` rows of the head in hand to the output. */
    method CopyHead(top: HeapEntry, count: nat, heap: MinHeap, already: seq<seq<Row>>, held: seq<Row>)
        returns (yielded: seq<seq<Row>>, pending: seq<Row>)
      requires Valid() && InHand(top, heap) && top.rowIdx + count <= |top.chunk.rows|
      requires FullChunks(already) && |held| < DEFAULT_CHUNK_SIZE
      modifies this`buffers, this`exhausted, this`delivered
      ensures Valid() && InHand(top, heap)
      ensures FullChunks(yielded) && |pending| < DEFAULT_CHUNK_SIZE
      ensures count <= |feeds[top.nodeId].left|
      ensures Output(yielded, pending) == Output(already, held) + feeds[top.nodeId].left[..count]
    {
      ghost var i, was := top.nodeId, buffers;
      assert StreamOk(streams[i], buffers[i], delivered[i], feeds[i]);
      EmitOk(streams[i], buffers[i], delivered[i], feeds[i], count);
      yielded, pending := CopyRun(top.chunk.rows, top.rowIdx, count, already, held);
      HeadsGrown(multiset(heap.data), busy - {i}, was, buffers, feeds);
      assert was[i] <= buffers[i];
    }

    /** One round of the main loop: the best head and its run go out and its source moves on. */
    method EmitRun(heap: MinHeap, emitted: nat, already: seq<seq<Row>>, held: seq<Row>, ghost all: multiset<Row>)
        returns (count: nat, yielded: seq<seq<Row>>, pending: seq<Row>)
      requires Valid() && ChunksHaveRows() && Ready() && heap.Valid() && heap.keys == keys && heap.data != []
      requires HeadsOf(multiset(heap.data), busy, buffers, feeds)
      requires FullChunks(already) && |held| < DEFAULT_CHUNK_SIZE && (limit > 0 ==> emitted < limit)
      requires Merging(keys, all, Lefts(feeds), Output(already, held))
      modifies this`buffers, this`exhausted, this`delivered, this`feeds, this`busy, chunks`readIdx, heap`data
      ensures Valid() && Ready()
      ensures heap.Valid() && HeadsOf(multiset(heap.data), busy, buffers, feeds)
      ensures FullChunks(yielded) && |pending| < DEFAULT_CHUNK_SIZE
      ensures Merging(keys, all, Lefts(feeds), Output(yielded, pending))
      ensures count > 0 && |Output(yielded, pending)| == |Output(already, held)| + count
      ensures limit > 0 ==> emitted + count <= limit
    {
      var top, run := TakeBest(heap);
      count := if limit > 0 && limit - emitted < run then limit - emitted else run;
      ghost var left := feeds[top.nodeId].left;
      ghost var lefts := Lefts(feeds)[top.nodeId := left[count..]];
      ghost var out := Output(already, held) + left[..count];
      TakePart(all, Lefts(feeds), Output(already, held), top.nodeId, run, count);
      yielded, pending := CopyHead(top, count, heap, already, held);
      Advance(top, count, heap);
      assert Lefts(feeds) == lefts && Output(yielded, pending) == out;
    }

    lemma {:induction false} TakePart(all: multiset<Row>, lefts: seq<seq<Row>>, out: seq<Row>, i: nat, run: nat,
                                      count: nat)
      requires Merging(keys, all, lefts, out) && i < |lefts| && 0 < count <= run <= |lefts[i]|
               && RunFits(keys, lefts, i, run)
      ensures Merging(keys, all, lefts[i := lefts[i][count..]], out + lefts[i][..count])
    {
      ShorterRunFits(keys, lefts, i, run, count);
      TakeRun(keys, all, lefts, out, i, count);
    }

    /** Waits until every source has data or has ended. */
    method EnsureAllStreamsHaveData()
      requires Valid()
      modifies this`buffers, this`exhausted, this`delivered
      ensures Valid()
      ensures forall i {:trigger buffers[i]} :: 0 <= i < |streams| ==> buffers[i] != [] || i in exhausted
    {
      for node := 0 to |streams|
        invariant Valid()
        invariant forall i {:trigger buffers[i]} :: 0 <= i < node ==> buffers[i] != [] || i in exhausted
      {
        if buffers[node] == [] && node !in exhausted {
          ghost var was, ended := buffers, exhausted;
          WaitForData(node);
          assert forall i {:trigger buffers[i]} :: 0 <= i < |streams| ==> was[i] <= buffers[i];
        }
      }
    }

    method PushFirst(node: nat, heap: MinHeap)
      requires Valid() && ChunksHaveRows() && node < |streams| && node !in busy && heap.Valid() && heap.keys == keys
      requires HeadsOf(multiset(heap.data), busy, buffers, feeds)
      requires feeds[node].at == 0 && (buffers[node] != [] || node in exhausted)
      modifies this`buffers, this`feeds, this`busy, chunks`readIdx, heap`data
      ensures Valid() && heap.Valid() && HeadsOf(multiset(heap.data), busy, buffers, feeds)
      ensures forall i {:trigger buffers[i]} {:trigger feeds[i]} :: 0 <= i < |streams| && i != node ==>
        buffers[i] == old(buffers)[i] && feeds[i] == old(feeds)[i]
      ensures Lefts(feeds) == Lefts(old(feeds))
      ensures old(busy) <= busy <= old(busy) + {node} && (feeds[node].left != [] ==> node in busy)
    {
      if buffers[node] != [] { FreshFront(node); }
      var pushed := PushNext(node, heap);
      if !pushed { EndedIsEmpty(node); }
    }

    /** Puts the first head of every source into the heap. */
    method PushHeads(heap: MinHeap)
      requires Valid() && ChunksHaveRows() && heap.Valid() && heap.keys == keys && heap.data == [] && busy == {}
      requires forall i {:trigger feeds[i]} :: 0 <= i < |streams| ==> feeds[i].at == 0
      requires forall i {:trigger buffers[i]} :: 0 <= i < |streams| ==> buffers[i] != [] || i in exhausted
      modifies this`buffers, this`feeds, this`busy, chunks`readIdx, heap`data
      ensures Valid() && Ready() && heap.Valid() && HeadsOf(multiset(heap.data), busy, buffers, feeds)
      ensures Lefts(feeds) == Lefts(old(feeds))
    {
      var node: nat := 0;
      while node < |streams|
        invariant node <= |streams| && Valid() && heap.Valid() && HeadsOf(multiset(heap.data), busy, buffers, feeds)
        invariant forall i {:trigger feeds[i]} :: 0 <= i < node && feeds[i].left != [] ==> i in busy
        invariant forall i {:trigger i in busy} :: i in busy ==> i < node
        invariant forall i {:trigger feeds[i]} :: node <= i < |streams| ==>
                  feeds[i] == old(feeds)[i] && buffers[i] == old(buffers)[i]
        invariant Lefts(feeds) == Lefts(old(feeds))
      {
        PushFirst(node, heap);
        node := node + 1;
      }
    }

    /** With an empty heap no source has rows left. */
    lemma {:induction false} NoHeadsNoRows()
      requires Ready() && HeadsOf(multiset{}, busy, buffers, feeds)
      ensures forall i {:trigger Lefts(feeds)[i]} :: 0 <= i < |feeds| ==> Lefts(feeds)[i] == []
    {
      assert forall i {:trigger feeds[i]} :: 0 <= i < |feeds| ==> i !in busy;
    }

    /** The merge stopped because the heap ran empty or the limit was reached. */
    lemma {:induction false} MergeEnds(heap: MinHeap, all: multiset<Row>, out: seq<Row>)
      requires Ready() && HeadsOf(multiset(heap.data), busy, buffers, feeds) && Merging(keys, all, Lefts(feeds), out)
      requires heap.data == [] || (limit > 0 && |out| >= limit)
      requires limit > 0 ==> |out| <= limit
      ensures Merged(keys, limit, all, out)
    {
      OutWithin(keys, all, Lefts(feeds), out);
      MergeStopped(keys, all, Lefts(feeds), out);
      if heap.data == [] {
        NoHeadsNoRows();
        MergeFinished(keys, all, Lefts(feeds), out);
      }
    }

    lemma {:induction false} StartMerging(all: multiset<Row>)
      requires AllSorted(keys, Lefts(feeds)) && all == Pool(Lefts(feeds))
      ensures Merging(keys, all, Lefts(feeds), [])
    {
      var out: seq<Row> := [];
      assert multiset(out) + Pool(Lefts(feeds)) == all;
    }

    /** The main loop. */
    method MergeRuns(heap: MinHeap, ghost all: multiset<Row>) returns (yielded: seq<seq<Row>>, pending: seq<Row>)
      requires Valid() && ChunksHaveRows() && Ready() && heap.Valid() && heap.keys == keys
      requires HeadsOf(multiset(heap.data), busy, buffers, feeds)
      requires Merging(keys, all, Lefts(feeds), [])
      modifies this`buffers, this`exhausted, this`delivered, this`feeds, this`busy, chunks`readIdx, heap`data
      ensures FullChunks(yielded) && |pending| < DEFAULT_CHUNK_SIZE
      ensures Merged(keys, limit, all, Output(yielded, pending))
    {
      yielded, pending := [], [];
      var emitted: nat := 0;
      while |heap.data| > 0 && !(limit > 0 && emitted >= limit)
        invariant Valid() && Ready() && heap.Valid() && HeadsOf(multiset(heap.data), busy, buffers, feeds)
        invariant FullChunks(yielded) && |pending| < DEFAULT_CHUNK_SIZE
        invariant Merging(keys, all, Lefts(feeds), Output(yielded, pending))
        invariant emitted == |Output(yielded, pending)| && (limit > 0 ==> emitted <= limit)
        decreases |all| - emitted
      {
        var count: nat;
        count, yielded, pending := EmitRun(heap, emitted, yielded, pending, all);
        emitted := emitted + count;
        OutWithin(keys, all, Lefts(feeds), Output(yielded, pending));
      }
      MergeEnds(heap, all, Output(yielded, pending));
    }

    /** The merged rows in chunks. Whatever order the messages arrive in, they are a sorted arrangement of all
        rows of all streams, or with a limit the front of one; every chunk but the last is full. */
    method Generate() returns (yielded: seq<seq<Row>>)
      requires Valid() && ChunksHaveRows() && busy == {} && feeds == Started(streams)
      requires AllSorted(keys, Lefts(feeds))
      modifies this`buffers, this`exhausted, this`delivered, this`feeds, this`busy, chunks`readIdx
      ensures forall k :: 0 <= k < |yielded| - 1 ==> |yielded[k]| == DEFAULT_CHUNK_SIZE
      ensures yielded != [] ==> 0 < |yielded[|yielded| - 1]| <= DEFAULT_CHUNK_SIZE
      ensures Merged(keys, limit, Pool(Lefts(Started(streams))), Concat(yielded, |yielded|))
      ensures InOrder(keys, Concat(yielded, |yielded|))
    {
      var heap := new MinHeap(keys);
      ghost var all := Pool(Lefts(feeds));
      EnsureAllStreamsHaveData();
      PushHeads(heap);
      StartMerging(all);
      var full, pending := MergeRuns(heap, all);
      yielded := if |pending| > 0 then full + [pending] else full;
      LastChunk(keys, limit, all, full, pending);
      MergedInOrder(keys, limit, all, Concat(yielded, |yielded|));
    }
  }

  /** No row strictly precedes an earlier one; under one key over numbers the numbers ascend or descend. */
  ghost predicate InOrder(keys: seq<OrderKey>, out: seq<Row>) {
    && (OneTypePerKey(keys, out) ==> forall i, j :: 0 <= i < j < |out| ==> !PrecedesRow(keys, out[j], out[i]))
    && NumbersInOrder(keys, out)
  }

  lemma {:induction false} MergedInOrder(keys: seq<OrderKey>, limit: nat, all: multiset<Row>, out: seq<Row>)
    requires Merged(keys, limit, all, out)
    ensures InOrder(keys, out)
  {
    var rest :| Sorted(keys, out + rest) && multiset(out + rest) == all;
    assert forall i :: 0 <= i < |out| ==> (out + rest)[i] == out[i];
    assert Sorted(keys, out);
    SortedNumbers(keys, out);
    if OneTypePerKey(keys, out) { SortedExact(keys, out); }
  }

  /** A sorted arrangement of all rows, or with a limit the first `limit` rows of one. */
  ghost predicate Merged(keys: seq<OrderKey>, limit: nat, all: multiset<Row>, out: seq<Row>) {
    && SortedPrefixOf(keys, out, all)
    && |out| == (if 0 < limit < |all| then limit else |all|)
    && (|out| == |all| ==> multiset(out) == all)
  }

  ghost predicate FullChunks(yielded: seq<seq<Row>>) {
    forall k :: 0 <= k < |yielded| ==> |yielded[k]| == DEFAULT_CHUNK_SIZE
  }

  /** The rows put out so far: the chunks yielded and the rows in the output columns. */
  ghost function Output(yielded: seq<seq<Row>>, pending: seq<Row>): seq<Row> {
    Concat(yielded, |yielded|) + pending
  }

  lemma {:induction false} ConcatPrefix(a: seq<seq<Row>>, b: seq<Row>, n: nat)
    requires n <= |a|
    ensures Concat(a + [b], n) == Concat(a, n)
  {
    if n > 0 { ConcatPrefix(a, b, n - 1); }
  }

  lemma {:induction false} OutputYield(yielded: seq<seq<Row>>, pending: seq<Row>)
    ensures Output(yielded + [pending], []) == Output(yielded, pending)
  {
    ConcatPrefix(yielded, pending, |yielded|);
  }

  /** The rows left in the output columns go out as the last chunk. */
  lemma {:induction false} LastChunk(keys: seq<OrderKey>, limit: nat, all: multiset<Row>, full: seq<seq<Row>>,
                                     pending: seq<Row>)
    requires Merged(keys, limit, all, Output(full, pending))
    ensures var yielded := if |pending| > 0 then full + [pending] else full;
      Merged(keys, limit, all, Concat(yielded, |yielded|))
  {
    if |pending| > 0 {
      OutputYield(full, pending);
      assert Output(full + [pending], []) == Concat(full + [pending], |full| + 1);
    } else {
      assert Output(full, pending) == Concat(full, |full|);
    }
  }

  lemma {:induction false} OutputMore(yielded: seq<seq<Row>>, pending: seq<Row>, rows: seq<Row>, from: nat, n: nat)
    requires from + n <= |rows|
    ensures Output(yielded, pending + rows[from..from + n]) == Output(yielded, pending) + rows[from..from + n]
  {}

  /** The head of a source comes back into the heap further on. */
  lemma {:induction false} HeadMoved(data: multiset<HeapEntry>, nodes: set<nat>, buffers: seq<Stream>, was: seq<Feed>,
                                     feeds: seq<Feed>, i: nat, f: Feed)
    requires i in nodes && i < |buffers| && buffers[i] != [] && HeadsOf(data, nodes - {i}, buffers, was)
             && feeds == was[i := f]
    ensures HeadsOf(data + multiset{HeadOf(buffers, feeds, i)}, nodes, buffers, feeds)
  {
    HeadsElsewhere(data, nodes - {i}, buffers, buffers, was, feeds, i);
    HeadsPushed(data, nodes - {i}, buffers, feeds, i);
    assert nodes - {i} + {i} == nodes;
  }

  lemma {:induction false} OutWithin(keys: seq<OrderKey>, all: multiset<Row>, lefts: seq<seq<Row>>, out: seq<Row>)
    requires Merging(keys, all, lefts, out)
    ensures |out| <= |all| && (|out| == |all| ==> multiset(out) == all)
  {
    assert |multiset(out)| == |out| && |all| == |multiset(out)| + |Pool(lefts)|;
  }

  /** Messages not delivered yet, end markers included. */
  ghost function EventsTo(streams: seq<Stream>, delivered: seq<nat>, n: nat): int
    requires n <= |streams| == |delivered|
  {
    if n == 0 then 0 else EventsTo(streams, delivered, n - 1) + |streams[n - 1]| + 1 - delivered[n - 1]
  }

  ghost function EventsLeft(streams: seq<Stream>, delivered: seq<nat>): int
    requires |streams| == |delivered|
  {
    EventsTo(streams, delivered, |streams|)
  }

  lemma {:induction false} EventsAreLeft(streams: seq<Stream>, delivered: seq<nat>, n: nat)
    requires n <= |streams| == |delivered| && forall i {:trigger delivered[i]} :: 0 <= i < |streams| ==>
             delivered[i] <= |streams[i]| + 1
    ensures EventsTo(streams, delivered, n) >= 0
  {
    if n > 0 { EventsAreLeft(streams, delivered, n - 1); }
  }

  lemma {:induction false} OneEvent(streams: seq<Stream>, delivered: seq<nat>, i: nat, n: nat)
    requires n <= |streams| == |delivered| && i < |streams|
    ensures EventsTo(streams, delivered[i := delivered[i] + 1], n) == EventsTo(streams, delivered, n) - if i < n then 1
            else 0
  {
    if n > 0 { OneEvent(streams, delivered, i, n - 1); }
  }

  function HeadOf(buffers: seq<Stream>, feeds: seq<Feed>, i: nat): HeapEntry
    requires i < |buffers| == |feeds| && buffers[i] != []
  {
    HeapEntry(i, buffers[i][0], feeds[i].at)
  }

  lemma {:induction false} LeftsSet(feeds: seq<Feed>, i: nat, f: Feed)
    requires i < |feeds|
    ensures Lefts(feeds[i := f]) == Lefts(feeds)[i := f.left]
  {}

  /** The heap holds the head of each of these sources once, and nothing else. */
  ghost predicate HeadsOf(data: multiset<HeapEntry>, nodes: set<nat>, buffers: seq<Stream>, feeds: seq<Feed>) {
    && |buffers| == |feeds|
    && (forall i {:trigger i in nodes} :: i in nodes ==>
      i < |buffers| && buffers[i] != [] && HeadOf(buffers, feeds, i) in data)
    && (forall e {:trigger data[e]} :: e in data ==> (
          && e.nodeId in nodes && e.nodeId < |buffers| && buffers[e.nodeId] != []
          && e == HeadOf(buffers, feeds, e.nodeId) && data[e] == 1))
  }

  lemma {:induction false} HeadsGrown(data: multiset<HeapEntry>, nodes: set<nat>, was: seq<Stream>, now: seq<Stream>,
                                      feeds: seq<Feed>)
    requires HeadsOf(data, nodes, was, feeds) && Grown(was, now)
    ensures HeadsOf(data, nodes, now, feeds)
  {
    forall i | 0 <= i < |was| && was[i] != [] ensures now[i] != [] && HeadOf(now, feeds, i) == HeadOf(was, feeds, i) {
      assert was[i] <= now[i];
    }
  }

  /** Sources outside the heap may change. */
  lemma {:induction false} HeadsElsewhere(data: multiset<HeapEntry>, nodes: set<nat>, was: seq<Stream>,
                                          now: seq<Stream>,
      before: seq<Feed>, after: seq<Feed>, node: nat)
    requires HeadsOf(data, nodes, was, before) && |was| == |now| == |after| && node !in nodes
    requires forall i {:trigger now[i]} :: 0 <= i < |now| && i != node ==> now[i] == was[i] && after[i] == before[i]
    ensures HeadsOf(data, nodes, now, after)
  {
    forall i | i in nodes ensures i < |now| && now[i] != [] && HeadOf(now, after, i) in data {
      assert i < |was| && now[i] == was[i];
    }
    forall e | e in data ensures e.nodeId in nodes && now[e.nodeId] != [] && e == HeadOf(now, after, e.nodeId) {
      assert e.nodeId in nodes && now[e.nodeId] == was[e.nodeId];
    }
  }

  lemma {:induction false} HeadsPopped(data: multiset<HeapEntry>, nodes: set<nat>, buffers: seq<Stream>,
                                       feeds: seq<Feed>, top: HeapEntry)
    requires HeadsOf(data + multiset{top}, nodes, buffers, feeds)
    ensures top.nodeId in nodes && HeadsOf(data, nodes - {top.nodeId}, buffers, feeds)
    ensures top.nodeId < |buffers| && buffers[top.nodeId] != [] && top == HeadOf(buffers, feeds, top.nodeId)
  {
    var all := data + multiset{top};
    assert top in all && all[top] == 1;
    forall i | i in nodes - {top.nodeId} ensures i < |buffers| && buffers[i] != []
      && HeadOf(buffers, feeds, i) in data {
      assert i in nodes && HeadOf(buffers, feeds, i) in all;
    }
    forall e | e in data ensures e in all && e.nodeId in nodes - {top.nodeId} && data[e] == 1 {
      assert e in all && all[e] == 1;
    }
  }

  lemma {:induction false} HeadsPushed(data: multiset<HeapEntry>, nodes: set<nat>, buffers: seq<Stream>,
                                       feeds: seq<Feed>, node: nat)
    requires HeadsOf(data, nodes, buffers, feeds) && node !in nodes && node < |buffers| && buffers[node] != []
    ensures HeadsOf(data + multiset{HeadOf(buffers, feeds, node)}, nodes + {node}, buffers, feeds)
  {
    var head := HeadOf(buffers, feeds, node);
    assert head !in data;
    forall e | e in data + multiset{head} ensures e.nodeId in nodes + {node} && (data + multiset{head})[e] == 1 {
      assert e in data || e == head;
    }
    forall i | i in nodes + {node} ensures i < |buffers| && buffers[i] != []
      && HeadOf(buffers, feeds, i) in data + multiset{head} {
      assert i in nodes || i == node;
    }
  }

  /** Every chunk of the streams is an object of its own. */
  ghost predicate Apart(streams: seq<Stream>, chunks: set<ReadableChunk>) {
    forall i, d {:trigger streams[i][d]} :: 0 <= i < |streams| && 0 <= d < |streams[i]| ==>
      streams[i][d] in chunks && streams[i][d].source == i && streams[i][d].index == d
  }

  ghost predicate Reads(chunks: Stream, f: Feed, idle: bool)
    reads chunks`readIdx
  {
    forall d {:trigger chunks[d].readIdx} :: f.done <= d < |chunks| && (idle || d > f.done) ==>
      chunks[d].readIdx == if d == f.done then f.at else 0
  }

  ghost predicate Grown(was: seq<Stream>, now: seq<Stream>) {
    |was| == |now| && forall i {:trigger now[i]} :: 0 <= i < |now| ==> was[i] <= now[i]
  }

  ghost function Started(streams: seq<Stream>): (feeds: seq<Feed>)
    ensures |feeds| == |streams| && forall i {:trigger feeds[i]} :: 0 <= i < |feeds| ==>
            feeds[i] == Feed(0, 0, RowsFrom(streams[i], 0))
  {
    seq(|streams|, i requires 0 <= i < |streams| => Feed(0, 0, RowsFrom(streams[i], 0)))
  }

  ghost function Lefts(feeds: seq<Feed>): (lefts: seq<seq<Row>>)
    ensures |lefts| == |feeds| && forall i {:trigger lefts[i]} :: 0 <= i < |lefts| ==> lefts[i] == feeds[i].left
  {
    seq(|feeds|, i requires 0 <= i < |feeds| => feeds[i].left)
  }
}
