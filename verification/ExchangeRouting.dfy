/** Where the rows of an exchange go: what ExchangeSender of src/distributed/execution/exchange-operator.ts means. */
module ExchangeRouting {
  import opened Wrappers
  import opened KeyIdentities

  type Row = seq<EvalValue>

  /** A chunk holds columns; the selection vector, when there is one, lists the active positions. */
  datatype Chunk = Chunk(columns: seq<seq<EvalValue>>, size: nat, selection: Option<seq<nat>>)

  function Position(chunk: Chunk, i: nat): nat
    requires i < chunk.size && (chunk.selection.Some? ==> chunk.size <= |chunk.selection.value|)
  {
    if chunk.selection.Some? then chunk.selection.value[i] else i
  }

  /** Every active position lies inside every column. */
  predicate WellFormed(chunk: Chunk) {
    && (chunk.selection.Some? ==> chunk.size <= |chunk.selection.value|)
    && forall i, c :: 0 <= i < chunk.size && 0 <= c < |chunk.columns| ==> Position(chunk, i) < |chunk.columns[c]|
  }

  predicate Inside(chunk: Chunk, p: nat) {
    forall c :: 0 <= c < |chunk.columns| ==> p < |chunk.columns[c]|
  }

  function RowAt(chunk: Chunk, p: nat): (row: Row)
    requires Inside(chunk, p)
  {
    seq(|chunk.columns|, c requires 0 <= c < |chunk.columns| => chunk.columns[c][p])
  }

  /** The active rows, in order. */
  function ActiveRows(chunk: Chunk, n: nat): (rows: seq<Row>)
    requires WellFormed(chunk) && n <= chunk.size
    ensures |rows| == n && forall i :: 0 <= i < n ==> rows[i] == RowAt(chunk, Position(chunk, i))
  {
    if n == 0 then [] else ActiveRows(chunk, n - 1) + [RowAt(chunk, Position(chunk, n - 1))]
  }

  type KeyExtractor = Row -> EvalValue

  datatype Kind = Gather | Broadcast | HashShuffle | Other

  /** A sender's settings. The hash may be any function of the key identities. */
  datatype Routing = Routing(kind: Kind, extractors: seq<KeyExtractor>, hash: seq<KeyIdentity> -> nat, partitions: nat,
    targets: nat) {
    predicate Valid() {
      partitions > 0 && targets > 0
    }

    function KeyValues(row: Row): (values: seq<EvalValue>)
      ensures |values| == |extractors|
    {
      seq(|extractors|, k requires 0 <= k < |extractors| => extractors[k](row))
    }

    function Partition(row: Row): (p: nat)
      requires Valid()
      ensures p < partitions
    {
      hash(KeyOf(KeyValues(row), |extractors|)) % partitions
    }

    predicate RoutedTo(row: Row, target: nat)
      requires Valid()
    {
      match kind
      case Broadcast => true
      case HashShuffle => Partition(row) % targets == target
      case _ => target == 0
    }

    /** The rows meant for a target. */
    function Share(rows: seq<Row>, target: nat): seq<Row>
      requires Valid()
    {
      if rows == [] then []
      else Share(rows[..|rows| - 1], target) + if RoutedTo(rows[|rows| - 1], target) then [rows[|rows| - 1]] else []
    }

    /** The rows whose partition is one of a set. */
    function Among(rows: seq<Row>, ps: set<nat>): seq<Row>
      requires Valid()
    {
      if rows == [] then []
      else Among(rows[..|rows| - 1], ps) + if Partition(rows[|rows| - 1]) in ps then [rows[|rows| - 1]] else []
    }

    /** How often a row reaches the first n targets. */
    ghost function Shares(rows: seq<Row>, n: nat): multiset<Row>
      requires Valid()
    {
      if n == 0 then multiset{} else Shares(rows, n - 1) + multiset(Share(rows, n - 1))
    }

    lemma {:induction false} ShareConcat(a: seq<Row>, b: seq<Row>, target: nat)
      requires Valid()
      ensures Share(a + b, target) == Share(a, target) + Share(b, target)
    {
      if b == [] {
        assert a + b == a;
      } else {
        var n := |b| - 1;
        ShareConcat(a, b[..n], target);
        assert (a + b)[..|a + b| - 1] == a + b[..n];
      }
    }

    lemma {:induction false} ShareAll(rows: seq<Row>, target: nat)
      requires Valid() && forall i :: 0 <= i < |rows| ==> RoutedTo(rows[i], target)
      ensures Share(rows, target) == rows
    {
      if rows != [] { ShareAll(rows[..|rows| - 1], target); }
    }

    lemma {:induction false} ShareNone(rows: seq<Row>, target: nat)
      requires Valid() && forall i :: 0 <= i < |rows| ==> !RoutedTo(rows[i], target)
      ensures Share(rows, target) == []
    {
      if rows != [] { ShareNone(rows[..|rows| - 1], target); }
    }

    lemma {:induction false} AmongNone(rows: seq<Row>)
      requires Valid()
      ensures Among(rows, {}) == []
    {
      if rows != [] { AmongNone(rows[..|rows| - 1]); }
    }

    lemma {:induction false} AmongOneMore(rows: seq<Row>, ps: set<nat>, p: nat)
      requires Valid() && p !in ps
      ensures multiset(Among(rows, ps + {p})) == multiset(Among(rows, ps)) + multiset(Among(rows, {p}))
    {
      if rows != [] { AmongOneMore(rows[..|rows| - 1], ps, p); }
    }

    /** A target's share is what lies in the partitions sent to it. */
    lemma {:induction false} ShareIsAmong(rows: seq<Row>, ps: set<nat>, target: nat)
      requires Valid() && kind.HashShuffle?
      requires forall i :: 0 <= i < |rows| ==> (Partition(rows[i]) in ps <==> Partition(rows[i]) % targets == target)
      ensures Share(rows, target) == Among(rows, ps)
    {
      if rows != [] { ShareIsAmong(rows[..|rows| - 1], ps, target); }
    }

    ghost function Copy(row: Row, target: nat): multiset<Row>
      requires Valid()
    {
      if RoutedTo(row, target) then multiset{row} else multiset{}
    }

    lemma {:induction false} ShareLast(rows: seq<Row>, target: nat)
      requires Valid() && rows != []
      ensures multiset(Share(rows, target))
              == multiset(Share(rows[..|rows| - 1], target)) + Copy(rows[|rows| - 1], target)
    {}

    static lemma {:induction false} OneTargetMore(before: multiset<Row>, share: multiset<Row>, front: multiset<Row>,
                                                  frontShare: multiset<Row>, copies: multiset<Row>, copy: multiset<Row>)
      requires before == front + copies && share == frontShare + copy
      ensures before + share == (front + frontShare) + (copies + copy)
    {}

    lemma {:induction false} SharesLast(rows: seq<Row>, n: nat)
      requires Valid() && rows != []
      ensures Shares(rows, n) == Shares(rows[..|rows| - 1], n) + Copies(rows[|rows| - 1], n)
    {
      if n > 0 {
        var front, last := rows[..|rows| - 1], rows[|rows| - 1];
        SharesLast(rows, n - 1);
        ShareLast(rows, n - 1);
        var before, share := Shares(rows, n - 1), multiset(Share(rows, n - 1));
        var frontShare := multiset(Share(front, n - 1));
        OneTargetMore(before, share, Shares(front, n - 1), frontShare, Copies(last, n - 1), Copy(last, n - 1));
      }
    }

    ghost function Copies(row: Row, n: nat): multiset<Row>
      requires Valid()
    {
      if n == 0 then multiset{} else Copies(row, n - 1) + Copy(row, n - 1)
    }

    lemma {:induction false} CopiesOfShuffled(row: Row, n: nat)
      requires Valid() && !kind.Broadcast?
      ensures Copies(row, n) == if (if kind.HashShuffle? then Partition(row) % targets else 0) < n then multiset{row}
              else multiset{}
    {
      if n > 0 { CopiesOfShuffled(row, n - 1); }
    }

    lemma {:induction false} OneCopy(row: Row)
      requires Valid() && !kind.Broadcast?
      ensures Copies(row, targets) == multiset{row}
    {
      CopiesOfShuffled(row, targets);
    }

    /** Shuffling and gathering conserve rows: the targets together get every row exactly as often as it was given. */
    lemma {:induction false} SharesConserve(rows: seq<Row>)
      requires Valid() && !kind.Broadcast?
      ensures Shares(rows, targets) == multiset(rows)
    {
      if rows == [] {
        SharesOfNothing(targets);
      } else {
        var n := |rows| - 1;
        SharesConserve(rows[..n]);
        SharesLast(rows, targets);
        OneCopy(rows[n]);
        assert rows == rows[..n] + [rows[n]];
      }
    }

    lemma {:induction false} SharesOfNothing(n: nat)
      requires Valid()
      ensures Shares([], n) == multiset{}
    {
      if n > 0 { SharesOfNothing(n - 1); }
    }

    /** Rows with the same keys meet at the same target. */
    lemma {:induction false} SameKeysSameTarget(a: Row, b: Row, target: nat)
      requires Valid() && kind.HashShuffle?
      requires forall k :: 0 <= k < |extractors| ==> SameKey(extractors[k](a), extractors[k](b))
      ensures RoutedTo(a, target) == RoutedTo(b, target)
    {
      SameKeyTuple(KeyValues(a), KeyValues(b), |extractors|);
    }

    /** Rows meet at a target exactly when the hashes of their keys leave the same remainder, by partitions and then
        by targets. */
    lemma {:induction false} MeetingExact(a: Row, b: Row)
      requires Valid() && kind.HashShuffle?
      ensures var (ka, kb) := (KeyOf(KeyValues(a), |extractors|), KeyOf(KeyValues(b), |extractors|));
        (exists target :: 0 <= target < targets && RoutedTo(a, target) && RoutedTo(b, target))
        <==> hash(ka) % partitions % targets == hash(kb) % partitions % targets
    {
      assert RoutedTo(a, Partition(a) % targets);
    }

    /** Without keys one target gets everything. */
    lemma {:induction false} NoKeysOneTarget(rows: seq<Row>)
      requires Valid() && kind.HashShuffle? && extractors == []
      ensures exists target :: 0 <= target < targets && Share(rows, target) == rows
    {
      var target := hash([]) % partitions % targets;
      forall i | 0 <= i < |rows| ensures RoutedTo(rows[i], target) {
        assert KeyOf(KeyValues(rows[i]), 0) == [];
      }
      ShareAll(rows, target);
    }
  }
}
