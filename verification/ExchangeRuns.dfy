/** Whole runs of an exchange: several senders, several receivers, and the rows in between. */
module ExchangeRuns {
  import opened ExchangeRouting
  import opened Exchanges
  import opened ExchangeReceivers

  ghost predicate AllInputsWellFormed(inputs: seq<seq<Chunk>>) {
    forall i {:trigger inputs[i]} :: 0 <= i < |inputs| ==> AllWellFormed(inputs[i])
  }

  lemma {:induction false} ShareOneMore(routing: Routing, input: seq<Chunk>, n: nat, target: nat)
    requires routing.Valid() && AllWellFormed(input) && n < |input|
    ensures routing.Share(RowsOf(input[..n + 1]), target)
         == routing.Share(RowsOf(input[..n]), target) + routing.Share(ActiveRows(input[n], input[n].size), target)
  {
    assert input[..n + 1] == input[..n] + [input[n]];
    RowsOneMore(input[..n], input[n]);
    routing.ShareConcat(RowsOf(input[..n]), ActiveRows(input[n], input[n].size), target);
  }

  /** A target has been sent its share of the input so far. */
  ghost predicate SentShare(routing: Routing, rows: seq<Row>, stream: seq<Chunk>, target: nat, endings: nat) {
    routing.Valid() && Stream(stream, endings) && multiset(RowsOf(stream)) == multiset(routing.Share(rows, target))
  }

  lemma {:induction false} ShareConsumed(routing: Routing, input: seq<Chunk>, n: nat, was: seq<Chunk>, now: seq<Chunk>,
                                         target: nat)
    requires AllWellFormed(input) && n < |input| && SentShare(routing, RowsOf(input[..n]), was, target, 0)
             && Stream(now, 0)
    requires multiset(RowsOf(now)) == multiset(RowsOf(was))
             + multiset(routing.Share(ActiveRows(input[n], input[n].size), target))
    ensures SentShare(routing, RowsOf(input[..n + 1]), now, target, 0)
  {
    ShareOneMore(routing, input, n, target);
  }

  lemma {:induction false} EndHasNoRows(stream: seq<Chunk>)
    requires Stream(stream, 0)
    ensures Stream(stream + [END_MARKER], 1) && RowsOf(stream + [END_MARKER]) == RowsOf(stream)
  {
    RowsOneMore(stream, END_MARKER);
    assert ActiveRows(END_MARKER, 0) == [];
  }

  lemma {:induction false} ShareEnded(routing: Routing, rows: seq<Row>, was: seq<Chunk>, now: seq<Chunk>, target: nat)
    requires SentShare(routing, rows, was, target, 0) && now == was + [END_MARKER]
    ensures SentShare(routing, rows, now, target, 1)
  {
    EndHasNoRows(was);
  }

  ghost predicate AllSentShare(routing: Routing, rows: seq<Row>, sent: seq<Envelope>, endings: nat) {
    forall t {:trigger To(sent, t)} :: 0 <= t < routing.targets ==> SentShare(routing, rows, To(sent, t), t, endings)
  }

  method ConsumeNext(sender: ExchangeSender, input: seq<Chunk>, n: nat)
    requires sender.Valid() && !sender.closed && AllWellFormed(input) && n < |input|
    requires AllSentShare(sender.routing, RowsOf(input[..n]), sender.sent, 0)
    modifies sender`sent
    ensures sender.Valid() && AllSentShare(sender.routing, RowsOf(input[..n + 1]), sender.sent, 0)
  {
    ghost var was := sender.sent;
    sender.Consume(input[n]);
    forall t {:trigger To(sender.sent, t)} | 0 <= t < sender.routing.targets
      ensures SentShare(sender.routing, RowsOf(input[..n + 1]), To(sender.sent, t), t, 0)
    {
      assert SentShare(sender.routing, RowsOf(input[..n]), To(was, t), t, 0);
      ShareConsumed(sender.routing, input, n, To(was, t), To(sender.sent, t), t);
    }
  }

  /** One sender: consumes its input and finalizes. */
  method SendAll(routing: Routing, input: seq<Chunk>) returns (sent: seq<Envelope>)
    requires routing.Valid() && AllWellFormed(input)
    ensures AllSentShare(routing, RowsOf(input), sent, 1)
  {
    var sender := new ExchangeSender(routing);
    for i := 0 to |input|
      invariant fresh(sender) && sender.Valid() && !sender.closed && sender.routing == routing
      invariant AllSentShare(routing, RowsOf(input[..i]), sender.sent, 0)
    {
      ConsumeNext(sender, input, i);
    }
    assert input[..|input|] == input;
    ghost var before := sender.sent;
    sender.Finalize();
    sent := sender.sent;
    forall t {:trigger To(sent, t)} | 0 <= t < routing.targets
      ensures SentShare(routing, RowsOf(input), To(sent, t), t, 1) {
      assert SentShare(routing, RowsOf(input), To(before, t), t, 0);
      ShareEnded(routing, RowsOf(input), To(before, t), To(sent, t), t);
    }
  }

  // ---------- what a receiver yields of several streams ----------

  lemma {:induction false} ChunkIsFromItsSource(chunks: seq<Chunk>, sources: seq<nat>, k: nat)
    requires |sources| == |chunks| && k < |chunks|
    ensures chunks[k] in From(chunks, sources, sources[k])
  {
    var n := |chunks| - 1;
    if k < n {
      ChunkIsFromItsSource(chunks[..n], sources[..n], k);
      assert chunks[..n][k] == chunks[k] && sources[..n][k] == sources[k];
    }
  }

  /** The chunks yielded are the chunks sent, so they are well formed. */
  lemma {:induction false} ReceivedWellFormed(streams: seq<seq<Chunk>>, output: seq<Chunk>, sources: seq<nat>)
    requires Sources(streams) && |sources| == |output| && forall i :: 0 <= i < |sources| ==> sources[i] < |streams|
    requires forall s {:trigger streams[s]} :: 0 <= s < |streams| ==>
             From(output, sources, s) == streams[s][..|streams[s]| - 1]
    ensures AllWellFormed(output)
  {
    forall k | 0 <= k < |output| ensures WellFormed(output[k]) {
      var s := sources[k];
      assert Stream(streams[s], 1);
      ChunkIsFromItsSource(output, sources, k);
    }
  }

  lemma {:induction false} WithoutEnd(stream: seq<Chunk>)
    requires Stream(stream, 1)
    ensures AllWellFormed(stream[..|stream| - 1]) && RowsOf(stream[..|stream| - 1]) == RowsOf(stream)
  {
    var n := |stream| - 1;
    assert stream == stream[..n] + [stream[n]] && IsEnd(stream[n]);
    RowsOneMore(stream[..n], stream[n]);
  }

  type Bag = multiset<Row>

  /** How often a row is in the first n bags. */
  ghost function Times(bags: seq<Bag>, n: nat, row: Row): nat
    requires n <= |bags|
  {
    if n == 0 then 0 else Times(bags, n - 1, row) + bags[n - 1][row]
  }

  lemma {:induction false} SourceIsStream(stream: seq<Chunk>, output: seq<Chunk>, sources: seq<nat>, s: nat)
    requires Stream(stream, 1) && |sources| == |output| && AllWellFormed(output)
             && From(output, sources, s) == stream[..|stream| - 1]
    ensures SourceRows(output, sources, s) == multiset(RowsOf(stream))
  {
    WithoutEnd(stream);
    SourceRowsAre(output, sources, s);
  }

  lemma {:induction false} FromIsTimes(output: seq<Chunk>, sources: seq<nat>, bags: seq<Bag>, n: nat, row: Row)
    requires |sources| == |output| && AllWellFormed(output) && n <= |bags|
    requires forall s {:trigger bags[s]} :: 0 <= s < n ==> SourceRows(output, sources, s) == bags[s]
    ensures TimesFrom(output, sources, n, row) == Times(bags, n, row)
  {
    if n > 0 {
      FromIsTimes(output, sources, bags, n - 1, row);
      assert SourceRows(output, sources, n - 1) == bags[n - 1];
    }
  }

  // ---------- the whole exchange ----------

  /** What every sender is to send to a target. */
  ghost function SharesOf(routing: Routing, inputs: seq<seq<Chunk>>, target: nat): (bags: seq<Bag>)
    requires routing.Valid() && AllInputsWellFormed(inputs)
    ensures |bags| == |inputs| && forall i :: 0 <= i < |inputs| ==>
            bags[i] == multiset(routing.Share(RowsOf(inputs[i]), target))
  {
    seq(|inputs|, i requires 0 <= i < |inputs| => multiset(routing.Share(RowsOf(inputs[i]), target)))
  }

  /** The rows of every sender's input, or of every receiver's output. */
  ghost function RowBags(lists: seq<seq<Chunk>>): (bags: seq<Bag>)
    requires AllInputsWellFormed(lists)
    ensures |bags| == |lists| && forall i :: 0 <= i < |lists| ==> bags[i] == multiset(RowsOf(lists[i]))
  {
    seq(|lists|, i requires 0 <= i < |lists| => multiset(RowsOf(lists[i])))
  }

  /** The streams of one target. */
  ghost predicate StreamsOf(routing: Routing, inputs: seq<seq<Chunk>>, streams: seq<seq<Chunk>>, target: nat) {
    && |streams| == |inputs| && AllInputsWellFormed(inputs)
    && forall i {:trigger streams[i]} :: 0 <= i < |streams| ==>
      SentShare(routing, RowsOf(inputs[i]), streams[i], target, 1)
  }

  /** The streams a target gets from what the senders sent. */
  function Column(sent: seq<seq<Envelope>>, target: nat): (streams: seq<seq<Chunk>>)
    ensures |streams| == |sent| && forall i :: 0 <= i < |sent| ==> streams[i] == To(sent[i], target)
  {
    seq(|sent|, i requires 0 <= i < |sent| => To(sent[i], target))
  }

  /** A target has received, of every row, what the senders were to send it. */
  ghost predicate ReceivedShare(routing: Routing, inputs: seq<seq<Chunk>>, target: nat, output: seq<Chunk>) {
    && routing.Valid() && AllInputsWellFormed(inputs) && AllWellFormed(output)
    && forall row :: multiset(RowsOf(output))[row] == Times(SharesOf(routing, inputs, target), |inputs|, row)
  }

  lemma {:induction false} ReceivedIsShare(routing: Routing, inputs: seq<seq<Chunk>>, streams: seq<seq<Chunk>>,
                                           target: nat,
                                           output: seq<Chunk>, sources: seq<nat>)
    requires routing.Valid() && StreamsOf(routing, inputs, streams, target) && Sources(streams)
    requires |sources| == |output| && forall i :: 0 <= i < |sources| ==> sources[i] < |streams|
    requires forall s {:trigger streams[s]} :: 0 <= s < |streams| ==>
             From(output, sources, s) == streams[s][..|streams[s]| - 1]
    ensures ReceivedShare(routing, inputs, target, output)
  {
    ReceivedWellFormed(streams, output, sources);
    var bags := SharesOf(routing, inputs, target);
    forall s {:trigger bags[s]} | 0 <= s < |bags| ensures SourceRows(output, sources, s) == bags[s] {
      assert SentShare(routing, RowsOf(inputs[s]), streams[s], target, 1);
      SourceIsStream(streams[s], output, sources, s);
    }
    forall row ensures multiset(RowsOf(output))[row] == Times(bags, |inputs|, row) {
      ReceivedIsSum(output, sources, |streams|, row);
      FromIsTimes(output, sources, bags, |inputs|, row);
    }
  }

  /** What one receiver yields of what was sent to its target. */
  method ReceiveTarget(routing: Routing, ghost inputs: seq<seq<Chunk>>, sent: seq<seq<Envelope>>, target: nat)
      returns (output: seq<Chunk>)
    requires routing.Valid() && StreamsOf(routing, inputs, Column(sent, target), target)
    ensures ReceivedShare(routing, inputs, target, output)
  {
    var streams := Column(sent, target);
    assert forall i {:trigger streams[i]} :: 0 <= i < |streams| ==>
           SentShare(routing, RowsOf(inputs[i]), streams[i], target, 1);
    var r;
    ghost var sources;
    output, sources, r := Receive(streams);
    ReceivedIsShare(routing, inputs, streams, target, output, sources);
  }

  /** Every sender runs. */
  method SendInputs(routing: Routing, inputs: seq<seq<Chunk>>) returns (sent: seq<seq<Envelope>>)
    requires routing.Valid() && AllInputsWellFormed(inputs)
    ensures |sent| == |inputs| && forall j {:trigger sent[j]} :: 0 <= j < |sent| ==>
            AllSentShare(routing, RowsOf(inputs[j]), sent[j], 1)
  {
    sent := [];
    for i := 0 to |inputs|
      invariant |sent| == i && forall j {:trigger sent[j]} :: 0 <= j < i ==>
                AllSentShare(routing, RowsOf(inputs[j]), sent[j], 1)
    {
      assert AllWellFormed(inputs[i]);
      var one := SendAll(routing, inputs[i]);
      sent := sent + [one];
    }
  }

  method ReceiveTargets(routing: Routing, ghost inputs: seq<seq<Chunk>>, sent: seq<seq<Envelope>>, n: nat)
      returns (outputs: seq<seq<Chunk>>)
    requires routing.Valid() && AllInputsWellFormed(inputs) && n <= routing.targets && |sent| == |inputs|
    requires forall j {:trigger sent[j]} :: 0 <= j < |sent| ==> AllSentShare(routing, RowsOf(inputs[j]), sent[j], 1)
    ensures |outputs| == n && forall t {:trigger outputs[t]} :: 0 <= t < n ==>
            ReceivedShare(routing, inputs, t, outputs[t])
  {
    if n == 0 { return []; }
    var front := ReceiveTargets(routing, inputs, sent, n - 1);
    ColumnIsStreams(routing, inputs, sent, n - 1);
    var output := ReceiveTarget(routing, inputs, sent, n - 1);
    outputs := front + [output];
  }

  lemma {:induction false} ColumnIsStreams(routing: Routing, inputs: seq<seq<Chunk>>, sent: seq<seq<Envelope>>,
                                           target: nat)
    requires routing.Valid() && AllInputsWellFormed(inputs) && target < routing.targets && |sent| == |inputs|
    requires forall j {:trigger sent[j]} :: 0 <= j < |sent| ==> AllSentShare(routing, RowsOf(inputs[j]), sent[j], 1)
    ensures StreamsOf(routing, inputs, Column(sent, target), target)
  {
    var streams := Column(sent, target);
    forall i {:trigger streams[i]} | 0 <= i < |streams|
      ensures SentShare(routing, RowsOf(inputs[i]), streams[i], target, 1) {
      assert AllSentShare(routing, RowsOf(inputs[i]), sent[i], 1);
      assert SentShare(routing, RowsOf(inputs[i]), To(sent[i], target), target, 1);
    }
  }

  // ---------- nothing is lost or doubled ----------

  /** How often a row is in the first n bags of the first `targets` lists. */
  ghost function Over(lists: seq<seq<Bag>>, targets: nat, n: nat, row: Row): nat
    requires targets <= |lists| && forall t :: 0 <= t < |lists| ==> n <= |lists[t]|
  {
    if targets == 0 then 0 else Over(lists, targets - 1, n, row) + Times(lists[targets - 1], n, row)
  }

  /** How often it is in bag i of each. */
  ghost function Across(lists: seq<seq<Bag>>, targets: nat, i: nat, row: Row): nat
    requires targets <= |lists| && forall t :: 0 <= t < |lists| ==> i < |lists[t]|
  {
    if targets == 0 then 0 else Across(lists, targets - 1, i, row) + lists[targets - 1][i][row]
  }

  lemma {:induction false} OverLast(lists: seq<seq<Bag>>, targets: nat, n: nat, row: Row)
    requires targets <= |lists| && n > 0 && forall t :: 0 <= t < |lists| ==> n <= |lists[t]|
    ensures Over(lists, targets, n, row) == Over(lists, targets, n - 1, row) + Across(lists, targets, n - 1, row)
  {
    if targets > 0 { OverLast(lists, targets - 1, n, row); }
  }

  lemma {:induction false} OverNothing(lists: seq<seq<Bag>>, targets: nat, row: Row)
    requires targets <= |lists|
    ensures Over(lists, targets, 0, row) == 0
  {
    if targets > 0 { OverNothing(lists, targets - 1, row); }
  }

  /** Bag i of every list is the share of the same rows. */
  ghost predicate SharesAt(routing: Routing, lists: seq<seq<Bag>>, i: nat, rows: seq<Row>) {
    routing.Valid() && forall t {:trigger lists[t]} :: 0 <= t < |lists| ==>
      i < |lists[t]| && lists[t][i] == multiset(routing.Share(rows, t))
  }

  lemma {:induction false} AcrossIsShares(routing: Routing, lists: seq<seq<Bag>>, targets: nat, i: nat, rows: seq<Row>,
                                          row: Row)
    requires SharesAt(routing, lists, i, rows) && targets <= |lists|
    ensures Across(lists, targets, i, row) == routing.Shares(rows, targets)[row]
  {
    if targets > 0 {
      AcrossIsShares(routing, lists, targets - 1, i, rows, row);
      assert lists[targets - 1][i] == multiset(routing.Share(rows, targets - 1));
    }
  }

  lemma {:induction false} AcrossIsBag(routing: Routing, lists: seq<seq<Bag>>, i: nat, rows: seq<Row>, row: Row)
    requires SharesAt(routing, lists, i, rows) && |lists| == routing.targets && !routing.kind.Broadcast?
    ensures Across(lists, routing.targets, i, row) == multiset(rows)[row]
  {
    AcrossIsShares(routing, lists, routing.targets, i, rows, row);
    routing.SharesConserve(rows);
  }

  /** The lists hold, input by input, the shares of the rows consumed. */
  ghost predicate Shared(routing: Routing, lists: seq<seq<Bag>>, rowsOf: seq<seq<Row>>, consumed: seq<Bag>) {
    && routing.Valid() && |lists| == routing.targets && |rowsOf| == |consumed|
    && (forall t {:trigger lists[t]} :: 0 <= t < |lists| ==> |lists[t]| == |rowsOf|)
    && (forall i {:trigger consumed[i]} :: 0 <= i < |rowsOf| ==>
          SharesAt(routing, lists, i, rowsOf[i]) && consumed[i] == multiset(rowsOf[i]))
  }

  /** What all targets get of every input adds up, over the inputs, to what was consumed. */
  lemma {:induction false} OverIsTimes(lists: seq<seq<Bag>>, targets: nat, consumed: seq<Bag>, n: nat, row: Row)
    requires targets <= |lists| && n <= |consumed| && forall t :: 0 <= t < |lists| ==> n <= |lists[t]|
    requires forall i {:trigger consumed[i]} :: 0 <= i < n ==> Across(lists, targets, i, row) == consumed[i][row]
    ensures Over(lists, targets, n, row) == Times(consumed, n, row)
  {
    if n == 0 {
      OverNothing(lists, targets, row);
    } else {
      OverIsTimes(lists, targets, consumed, n - 1, row);
      OverLast(lists, targets, n, row);
      assert Across(lists, targets, n - 1, row) == consumed[n - 1][row];
    }
  }

  lemma {:induction false} AcrossIsConsumed(routing: Routing, lists: seq<seq<Bag>>, rowsOf: seq<seq<Row>>,
                                            consumed: seq<Bag>, i: nat, row: Row)
    requires Shared(routing, lists, rowsOf, consumed) && !routing.kind.Broadcast? && i < |rowsOf|
    ensures Across(lists, routing.targets, i, row) == consumed[i][row]
  {
    assert consumed[i] == multiset(rowsOf[i]);
    AcrossIsBag(routing, lists, i, rowsOf[i], row);
  }

  /** What every target is to receive of every input. */
  ghost function AllShares(routing: Routing, inputs: seq<seq<Chunk>>): (lists: seq<seq<Bag>>)
    requires routing.Valid() && AllInputsWellFormed(inputs)
    ensures |lists| == routing.targets && forall t :: 0 <= t < |lists| ==> lists[t] == SharesOf(routing, inputs, t)
  {
    seq(routing.targets, t requires 0 <= t < routing.targets => SharesOf(routing, inputs, t))
  }

  /** A gather or a shuffle loses and doubles nothing: over all targets every row is received exactly as often as the
      senders consumed it. */
  lemma {:induction false} EveryRowOnce(routing: Routing, inputs: seq<seq<Chunk>>, row: Row)
    requires routing.Valid() && !routing.kind.Broadcast? && AllInputsWellFormed(inputs)
    ensures Over(AllShares(routing, inputs), routing.targets, |inputs|, row) == Times(RowBags(inputs), |inputs|, row)
  {
    var lists, consumed := AllShares(routing, inputs), RowBags(inputs);
    var rowsOf := seq(|inputs|, i requires 0 <= i < |inputs| => RowsOf(inputs[i]));
    forall i {:trigger consumed[i]} | 0 <= i < |inputs|
      ensures SharesAt(routing, lists, i, rowsOf[i]) && consumed[i] == multiset(rowsOf[i])
    {
      forall t | 0 <= t < |lists| ensures i < |lists[t]| && lists[t][i] == multiset(routing.Share(rowsOf[i], t)) {}
    }
    forall i {:trigger consumed[i]} | 0 <= i < |inputs|
      ensures Across(lists, routing.targets, i, row) == consumed[i][row] {
      AcrossIsConsumed(routing, lists, rowsOf, consumed, i, row);
    }
    OverIsTimes(lists, routing.targets, consumed, |inputs|, row);
  }

  lemma {:induction false} TimesIsOver(bags: seq<Bag>, lists: seq<seq<Bag>>, targets: nat, n: nat, row: Row)
    requires targets <= |lists| && targets <= |bags| && forall t :: 0 <= t < |lists| ==> n <= |lists[t]|
    requires forall t {:trigger bags[t]} :: 0 <= t < targets ==> bags[t][row] == Times(lists[t], n, row)
    ensures Times(bags, targets, row) == Over(lists, targets, n, row)
  {
    if targets > 0 { TimesIsOver(bags, lists, targets - 1, n, row); }
  }

  /** What the targets receive is what the senders consumed. */
  lemma {:induction false} NothingLost(routing: Routing, inputs: seq<seq<Chunk>>, outputs: seq<seq<Chunk>>, row: Row)
    requires routing.Valid() && !routing.kind.Broadcast? && AllInputsWellFormed(inputs) && AllInputsWellFormed(outputs)
    requires |outputs| == routing.targets
    requires forall t {:trigger outputs[t]} :: 0 <= t < routing.targets ==>
               ReceivedShare(routing, inputs, t, outputs[t])
    ensures Times(RowBags(outputs), |outputs|, row) == Times(RowBags(inputs), |inputs|, row)
  {
    var bags, lists := RowBags(outputs), AllShares(routing, inputs);
    forall t {:trigger bags[t]} | 0 <= t < |bags| ensures bags[t][row] == Times(lists[t], |inputs|, row) {
      assert ReceivedShare(routing, inputs, t, outputs[t]);
    }
    TimesIsOver(bags, lists, routing.targets, |inputs|, row);
    EveryRowOnce(routing, inputs, row);
  }

  /** Several senders, one receiver for every target, messages in any order that keeps each sender's own: every target
      receives its share of every input. Unless it is a broadcast the targets together receive every row exactly as
      often as the senders consumed it. */
  method RunExchange(routing: Routing, inputs: seq<seq<Chunk>>) returns (outputs: seq<seq<Chunk>>)
    requires routing.Valid() && AllInputsWellFormed(inputs)
    ensures |outputs| == routing.targets && AllInputsWellFormed(outputs)
    ensures forall t {:trigger outputs[t]} :: 0 <= t < routing.targets ==> ReceivedShare(routing, inputs, t, outputs[t])
    ensures !routing.kind.Broadcast? ==> forall row ::
              Times(RowBags(outputs), |outputs|, row) == Times(RowBags(inputs), |inputs|, row)
  {
    var sent := SendInputs(routing, inputs);
    outputs := ReceiveTargets(routing, inputs, sent, routing.targets);
    forall t {:trigger outputs[t]} | 0 <= t < |outputs| ensures AllWellFormed(outputs[t]) {
      assert ReceivedShare(routing, inputs, t, outputs[t]);
    }
    if !routing.kind.Broadcast? {
      forall row ensures Times(RowBags(outputs), |outputs|, row) == Times(RowBags(inputs), |inputs|, row) {
        NothingLost(routing, inputs, outputs, row);
      }
    }
  }
}
