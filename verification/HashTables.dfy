/** The two keyed hash tables of src/execution/hash-table.ts. */
module HashTables {
  import opened Sequences
  import opened KeyIdentities
  import opened KeyDirectory
  import opened HashProbing

  const INITIAL_SLOT_COUNT := 64
  const INITIAL_DOUBLINGS := 6
  const HASH_SEED := 0x811c9dc5
  const HASH_RANGE := 0x1_0000_0000

  function LoadLimit(slotCount: nat): nat {
    slotCount * 7 / 10
  }

  type Key = seq<KeyIdentity>

  /** A stored original: a missing value is kept as null. */
  function OrNull(v: EvalValue): EvalValue {
    if v.Undefined? then Null else v
  }

  function Originals(values: seq<EvalValue>, arity: nat): (row: seq<EvalValue>)
    ensures |row| == arity && forall col :: 0 <= col < arity ==> row[col] == OrNull(Column(values, col))
  {
    seq(arity, col requires 0 <= col < arity => OrNull(Column(values, col)))
  }

  /** Rows of one width laid end to end. */
  ghost function FlatTo<T>(rows: seq<seq<T>>, n: nat): seq<T>
    requires n <= |rows|
  {
    if n == 0 then [] else FlatTo(rows, n - 1) + rows[n - 1]
  }

  ghost function Flat<T>(rows: seq<seq<T>>): seq<T> {
    FlatTo(rows, |rows|)
  }

  ghost predicate Wide<T>(rows: seq<seq<T>>, arity: nat) {
    forall e :: 0 <= e < |rows| ==> |rows[e]| == arity
  }

  lemma {:induction false} FlatLength<T>(rows: seq<seq<T>>, arity: nat, n: nat)
    requires Wide(rows, arity) && n <= |rows|
    ensures |FlatTo(rows, n)| == n * arity
  {
    if n > 0 {
      FlatLength(rows, arity, n - 1);
      assert n * arity == (n - 1) * arity + arity;
    }
  }

  lemma {:induction false} FlatAt<T>(rows: seq<seq<T>>, arity: nat, n: nat, e: nat, col: nat)
    requires Wide(rows, arity) && e < n <= |rows| && col < arity
    ensures e * arity + col < |FlatTo(rows, n)| && FlatTo(rows, n)[e * arity + col] == rows[e][col]
  {
    FlatLength(rows, arity, n - 1);
    if e < n - 1 { FlatAt(rows, arity, n - 1, e, col); }
  }

  lemma {:induction false} FlatPrefix<T>(rows: seq<seq<T>>, row: seq<T>, n: nat)
    requires n <= |rows|
    ensures FlatTo(rows + [row], n) == FlatTo(rows, n)
  {
    if n > 0 { FlatPrefix(rows, row, n - 1); }
  }

  lemma {:induction false} FlatPush<T>(rows: seq<seq<T>>, row: seq<T>)
    ensures Flat(rows + [row]) == Flat(rows) + row
  {
    FlatPrefix(rows, row, |rows|);
  }

  class OpenAddressingHashTable {
    const arity: nat
    /** Mixes one key identity into a running hash. */
    const mix: (nat, KeyIdentity) -> nat
    var slots: array<int>
    var slotMask: nat
    var growAt: nat
    var hashes: array<int>
    var identities: seq<KeyIdentity>
    var originals: seq<EvalValue>
    var scratch: array<KeyIdentity>
    var scratchHash: nat
    var size: nat

    /** Distinct keys in the order they were first seen, and the values first seen for them. */
    ghost var keys: seq<Key>
    ghost var rows: seq<seq<EvalValue>>
    /** How many probes each entry sits from its home slot. */
    ghost var steps: seq<nat>
    ghost var doublings: nat
    /** The hash of each entry and the contents of the slot array, as values. */
    ghost var hs: seq<nat>
    ghost var cells: seq<int>

    /** The hash of the first n columns of a key. */
    ghost function Running(key: Key, n: nat): nat
      requires n <= |key|
    {
      if n == 0 then HASH_SEED else mix(Running(key, n - 1), key[n - 1])
    }

    ghost function HashOf(key: Key): nat {
      Running(key, |key|) % HASH_RANGE
    }

    ghost predicate Hashed(ks: seq<Key>, hs: seq<nat>) {
      |hs| == |ks| && forall e {:trigger hs[e]} :: 0 <= e < |ks| ==> hs[e] == HashOf(ks[e])
    }

    /** The slot array has a power of two of slots. */
    ghost predicate Shaped()
      reads this`slots, this`slotMask, this`growAt, this`doublings, this`cells, slots
    {
      && slots.Length == Pow2(doublings) && slots.Length >= INITIAL_SLOT_COUNT && slotMask == slots.Length - 1
      && growAt == LoadLimit(slots.Length) && slots[..] == cells
    }

    /** It houses the entries. */
    ghost predicate Slotted()
      reads this`slots, this`slotMask, this`growAt, this`steps, this`doublings, this`hs, this`cells, slots
    {
      Shaped() && Housed(cells, hs, steps)
    }

    /** The entry arrays hold the keys and originals in order. */
    ghost predicate Stored()
      reads this`hashes, this`identities, this`originals, this`size, this`keys, this`rows, this`hs, hashes
    {
      && size == |keys| == |rows| <= hashes.Length && hashes.Length > 0
      && Wide(keys, arity) && Wide(rows, arity)
      && hashes[..size] == hs && Hashed(keys, hs)
      && identities == Flat(keys) && originals == Flat(rows)
    }

    ghost predicate Valid()
      reads this, slots, hashes
    {
      && Stored() && Slotted() && size < growAt && Distinct(keys)
      && scratch.Length == arity && slots != hashes
    }

    constructor (arity: nat, mix: (nat, KeyIdentity) -> nat)
      ensures Valid() && keys == [] && rows == [] && this.arity == arity && this.mix == mix
      ensures fresh(slots) && fresh(hashes) && fresh(scratch)
    {
      this.arity, this.mix := arity, mix;
      slots := new int[INITIAL_SLOT_COUNT](_ => EMPTY_SLOT);
      slotMask := INITIAL_SLOT_COUNT - 1;
      growAt := LoadLimit(INITIAL_SLOT_COUNT);
      hashes := new int[INITIAL_SLOT_COUNT](_ => 0);
      identities, originals := [], [];
      scratch := new KeyIdentity[arity](_ => NoKey);
      scratchHash, size := 0, 0;
      keys, rows, steps, doublings, hs, cells := [], [], [], INITIAL_DOUBLINGS, [], [];
      new;
      cells := slots[..];
      NothingHoused(cells);
    }

    method Prepare(values: seq<EvalValue>)
      requires scratch.Length == arity
      modifies scratch, this`scratchHash
      ensures scratch[..] == KeyOf(values, arity) && scratchHash == HashOf(scratch[..])
    {
      var hash := HASH_SEED;
      var col: nat := 0;
      while col < arity
        invariant col <= arity && scratch[..col] == KeyOf(values, col) && hash == Running(KeyOf(values, arity), col)
      {
        var identity := KeyIdentityOf(Column(values, col));
        scratch[col] := identity;
        assert scratch[..col + 1] == KeyOf(values, col) + [identity] == KeyOf(values, col + 1);
        hash := mix(hash, identity);
        col := col + 1;
      }
      assert scratch[..arity] == scratch[..];
      scratchHash := hash % HASH_RANGE;
    }

    method Matches(entry: nat) returns (same: bool)
      requires Wide(keys, arity) && identities == Flat(keys) && scratch.Length == arity && entry < |keys|
      ensures same <==> keys[entry] == scratch[..]
    {
      var base := entry * arity;
      var col: nat := 0;
      while col < arity
        invariant col <= arity && forall c :: 0 <= c < col ==> keys[entry][c] == scratch[c]
      {
        FlatAt(keys, arity, |keys|, entry, col);
        if identities[base + col] != scratch[col] { return false; }
        col := col + 1;
      }
      return true;
    }

    /** The entries met so far on the probe for the scratch key are all other keys. */
    ghost predicate Passed(key: Key, j: nat)
      requires |cells| > 0 && j <= |cells|
      reads this`cells, this`keys
    {
      forall i :: 0 <= i < j ==>
        var e := cells[At(Home(HashOf(key), |cells|), i, |cells|)];
        0 <= e < |keys| && keys[e] != key
    }

    /** A probe for a key stands at its j-th slot. */
    ghost predicate Probing(key: Key, slot: nat, j: nat)
      reads this`cells, this`keys
    {
      j < |cells| && slot == At(Home(HashOf(key), |cells|), j, |cells|) && Passed(key, j)
    }

    lemma {:induction false} PassedIsOccupied(key: Key, j: nat)
      requires |cells| > 0 && j <= |cells| && Passed(key, j)
      ensures Occupied(cells, Home(HashOf(key), |cells|), j)
    {
      forall i | 0 <= i < j ensures cells[At(Home(HashOf(key), |cells|), i, |cells|)] != EMPTY_SLOT {
        assert cells[At(Home(HashOf(key), |cells|), i, |cells|)] >= 0;
      }
    }

    /** Meeting an empty slot after passing only other keys means the key is not in the table. */
    lemma {:induction false} PassedIsAbsent(key: Key, slot: nat, j: nat)
      requires Hashed(keys, hs) && Housed(cells, hs, steps) && Probing(key, slot, j) && cells[slot] == EMPTY_SLOT
      ensures IdOf(keys, key) == NO_ENTRY
    {
      var e := IdOf(keys, key);
      if e >= 0 { ProbeIsComplete(cells, hs, steps, HashOf(key), j, e); }
    }

    /** Another key's entry in the way sends the probe one slot further, and never all the way round. */
    lemma {:induction false} ProbeOn(key: Key, slot: nat, j: nat)
      requires Housed(cells, hs, steps) && |hs| == |keys| < |cells| == Pow2(doublings)
      requires Probing(key, slot, j)
      requires cells[slot] != EMPTY_SLOT && (0 <= cells[slot] < |keys| ==> keys[cells[slot]] != key)
      ensures Probing(key, BitAnd(slot + 1, |cells| - 1), j + 1)
    {
      SeatOf(cells, hs, steps, slot);
      NextSlot(Home(HashOf(key), |cells|), j, |cells|, doublings);
      assert Passed(key, j + 1);
      PassedIsOccupied(key, j + 1);
      ProbeNotDone(cells, hs, steps, Home(HashOf(key), |cells|), j + 1);
    }

    /** The probe loop of find and findOrInsert: stops at the entry of the key, or at the first empty slot. */
    method Probe() returns (slot: nat, entry: int, ghost j: nat)
      requires Wide(keys, arity) && identities == Flat(keys) && size == |keys| <= hashes.Length && hashes[..size] == hs
      requires Hashed(keys, hs) && Slotted() && Distinct(keys) && size < |cells| && scratch.Length == arity
      requires scratchHash == HashOf(scratch[..])
      ensures entry == IdOf(keys, scratch[..]) && Probing(scratch[..], slot, j) && cells[slot] == entry
    {
      ghost var key := scratch[..];
      var hash := scratchHash;
      slot, j := BitAnd(hash, slotMask), 0;
      while true
        invariant Probing(key, slot, j)
        decreases slots.Length - j
      {
        entry := slots[slot];
        assert entry == slots[..][slot];
        if entry == EMPTY_SLOT {
          PassedIsAbsent(key, slot, j);
          return;
        }
        SeatOf(cells, hs, steps, slot);
        assert hashes[..size][entry] == hs[entry];
        if hashes[entry] == hash {
          var same := Matches(entry);
          if same {
            IdIsUnique(keys, key, entry);
            return;
          }
        }
        ProbeOn(key, slot, j);
        slot, j := BitAnd(slot + 1, slotMask), j + 1;
      }
    }

    method Find(values: seq<EvalValue>) returns (entry: int)
      requires Valid()
      modifies scratch, this`scratchHash
      ensures Valid()
      ensures entry == IdOf(keys, KeyOf(values, arity))
    {
      Prepare(values);
      var slot, found, j := Probe();
      entry := found;
    }

    method GrowEntries()
      requires hashes.Length > 0
      modifies this`hashes
      ensures fresh(hashes) && hashes.Length == 2 * old(hashes.Length)
              && hashes[..old(hashes.Length)] == old(hashes[..])
    {
      var grown := new int[hashes.Length * 2](_ => 0);
      for i := 0 to hashes.Length
        invariant grown[..i] == hashes[..i]
        modifies grown
      {
        grown[i] := hashes[i];
      }
      hashes := grown;
    }

    /** Copies the scratch key and the originals behind the entries stored so far. */
    method AppendColumns(values: seq<EvalValue>)
      requires scratch.Length == arity
      modifies this`identities, this`originals
      ensures identities == old(identities) + scratch[..] && originals == old(originals) + Originals(values, arity)
    {
      var col: nat := 0;
      while col < arity
        invariant col <= arity
        invariant identities == old(identities) + scratch[..col] && originals == old(originals) + Originals(values, col)
      {
        identities := identities + [scratch[col]];
        originals := originals + [OrNull(Column(values, col))];
        assert Originals(values, col + 1) == Originals(values, col) + [OrNull(Column(values, col))];
        col := col + 1;
      }
      assert scratch[..arity] == scratch[..];
    }


    method AppendHash(hash: nat)
      requires size <= hashes.Length && hashes.Length > 0
      modifies this`hashes, this`size, hashes
      ensures size == old(size) + 1 && size <= hashes.Length && hashes[..size] == old(hashes[..size]) + [hash]
      ensures hashes == old(hashes) || fresh(hashes)
    {
      var entry := size;
      size := size + 1;
      ghost var was := hashes[..entry];
      if entry >= hashes.Length {
        GrowEntries();
        assert hashes[..entry] == was;
      }
      hashes[entry] := hash;
      assert hashes[..size] == was + [hash];
    }

    method Append(values: seq<EvalValue>, hash: nat) returns (entry: nat)
      requires Stored() && scratch.Length == arity && hash == HashOf(scratch[..])
      modifies this`hashes, this`size, this`identities, this`originals, this`keys, this`rows, this`hs, hashes
      ensures Stored() && entry == old(size) && size == old(size) + 1
      ensures keys == old(keys) + [scratch[..]] && rows == old(rows) + [Originals(values, arity)]
              && hs == old(hs) + [hash]
      ensures hashes == old(hashes) || fresh(hashes)
    {
      entry := size;
      FlatPush(keys, scratch[..]);
      FlatPush(rows, Originals(values, arity));
      AppendHash(hash);
      AppendColumns(values);
      keys, rows, hs := keys + [scratch[..]], rows + [Originals(values, arity)], hs + [hash];
    }

    /** The probe of the growth loop. */
    method FirstEmpty(hash: nat, ghost some: seq<nat>) returns (slot: nat, ghost j: nat)
      requires Shaped() && |some| < |cells| && Housed(cells, some, steps)
      ensures j < |cells| && slot == At(Home(hash, |cells|), j, |cells|) && cells[slot] == EMPTY_SLOT
      ensures Occupied(cells, Home(hash, |cells|), j)
    {
      ghost var home, n := Home(hash, |cells|), |cells|;
      slot, j := BitAnd(hash, slotMask), 0;
      while slots[slot] != EMPTY_SLOT
        invariant j < n && slot == At(home, j, n) && Occupied(cells, home, j)
        decreases n - j
      {
        assert slots[..][slot] != EMPTY_SLOT;
        NextSlot(home, j, n, doublings);
        assert Occupied(cells, home, j + 1);
        ProbeNotDone(cells, some, steps, home, j + 1);
        slot, j := BitAnd(slot + 1, slotMask), j + 1;
      }
      assert slots[..][slot] == EMPTY_SLOT;
    }

    /** Puts an entry into the slot its probe found. */
    method House(slot: nat, entry: nat, hash: nat, ghost some: seq<nat>, ghost j: nat)
      requires Shaped() && Housed(cells, some, steps) && entry == |some| && j < |cells|
      requires slot == At(Home(hash, |cells|), j, |cells|) && cells[slot] == EMPTY_SLOT
      requires Occupied(cells, Home(hash, |cells|), j)
      modifies this`steps, this`cells, slots
      ensures Shaped() && Housed(cells, some + [hash], steps) && |cells| == old(|cells|)
    {
      slots[slot] := entry;
      HousedPut(cells, some, steps, hash, j, slots[..]);
      steps, cells := steps + [j], slots[..];
    }

    method ClearSlots(slotCount: nat)
      requires slotCount == Pow2(doublings) * 2 && slotCount >= INITIAL_SLOT_COUNT
      modifies this`slots, this`slotMask, this`growAt, this`steps, this`doublings, this`cells
      ensures Shaped() && |cells| == slotCount && Housed(cells, [], steps) && fresh(slots)
    {
      slots := new int[slotCount](_ => EMPTY_SLOT);
      slotMask := slotCount - 1;
      growAt := LoadLimit(slotCount);
      steps, doublings, cells := [], doublings + 1, slots[..];
      NothingHoused(cells);
    }

    method GrowSlots()
      requires Shaped() && size <= hashes.Length && hashes[..size] == hs && size < |cells|
      modifies this`slots, this`slotMask, this`growAt, this`steps, this`doublings, this`cells
      ensures Slotted() && |cells| == 2 * old(|cells|) && fresh(slots)
    {
      ghost var slotCount := slots.Length * 2;
      ClearSlots(slots.Length * 2);
      var entry: nat := 0;
      while entry < size
        invariant entry <= size && Shaped() && |cells| == slotCount && Housed(cells, hs[..entry], steps)
        modifies this`steps, this`cells, slots
      {
        assert hashes[..size][entry] == hs[entry];
        var slot, j := FirstEmpty(hashes[entry], hs[..entry]);
        House(slot, entry, hashes[entry], hs[..entry], j);
        assert hs[..entry + 1] == hs[..entry] + [hs[entry]];
        entry := entry + 1;
      }
      assert hs[..size] == hs;
    }

    /** Stores the scratch key in the empty slot its probe found. */
    method InsertAt(values: seq<EvalValue>, slot: nat, ghost j: nat) returns (entry: nat)
      requires Stored() && Slotted() && scratch.Length == arity && slots != hashes
      requires Probing(scratch[..], slot, j) && cells[slot] == EMPTY_SLOT && scratchHash == HashOf(scratch[..])
      modifies this`hashes, this`size, this`identities, this`originals
      modifies this`keys, this`rows, this`steps, this`hs, this`cells
      modifies hashes, slots
      ensures Stored() && Slotted() && slots != hashes && entry == old(size) && size == old(size) + 1
      ensures keys == old(keys) + [scratch[..]] && rows == old(rows) + [Originals(values, arity)]
      ensures hashes == old(hashes) || fresh(hashes)
    {
      PassedIsOccupied(scratch[..], j);
      ghost var some := hs;
      entry := Append(values, scratchHash);
      House(slot, entry, scratchHash, some, j);
    }

    method GrowWhenFull()
      requires Stored() && Slotted() && size <= growAt && slots != hashes
      modifies this`slots, this`slotMask, this`growAt, this`steps, this`doublings, this`cells
      ensures Slotted() && size < growAt && slots != hashes && (slots == old(slots) || fresh(slots))
    {
      if size >= growAt { GrowSlots(); }
    }

    /** Inserts a key the table does not hold and grows the slots when the load limit is reached. */
    method InsertNew(values: seq<EvalValue>, slot: nat, ghost j: nat) returns (entry: nat)
      requires Stored() && Slotted() && size < growAt && scratch.Length == arity && slots != hashes
      requires Probing(scratch[..], slot, j) && cells[slot] == EMPTY_SLOT && scratchHash == HashOf(scratch[..])
      modifies this`slots, this`slotMask, this`growAt, this`doublings
      modifies this`hashes, this`size, this`identities, this`originals
      modifies this`keys, this`rows, this`steps, this`hs, this`cells
      modifies hashes, slots
      ensures Stored() && Slotted() && size < growAt && slots != hashes
      ensures (slots == old(slots) || fresh(slots)) && (hashes == old(hashes) || fresh(hashes))
      ensures entry == |old(keys)|
      ensures keys == old(keys) + [scratch[..]] && rows == old(rows) + [Originals(values, arity)]
    {
      entry := InsertAt(values, slot, j);
      GrowWhenFull();
    }

    method FindOrInsert(values: seq<EvalValue>) returns (entry: nat)
      requires Valid()
      modifies this, slots, hashes, scratch
      ensures Valid() && (slots == old(slots) || fresh(slots)) && (hashes == old(hashes) || fresh(hashes))
              && scratch == old(scratch)
      ensures keys == Enter(old(keys), KeyOf(values, arity)) && entry == IdOf(keys, KeyOf(values, arity))
      ensures rows == old(rows) + if IdOf(old(keys), KeyOf(values, arity)) == NO_ENTRY then [Originals(values, arity)]
              else []
    {
      Prepare(values);
      var slot, found, j := Probe();
      if found == EMPTY_SLOT {
        EnterKeeps(keys, scratch[..]);
        entry := InsertNew(values, slot, j);
        IdIsUnique(keys, scratch[..], entry);
      } else {
        entry := found;
      }
    }

    method EmptyAllSlots()
      requires Shaped()
      modifies this`steps, this`cells, slots
      ensures Shaped() && Housed(cells, [], steps) && |cells| == old(|cells|)
    {
      for i := 0 to slots.Length
        invariant forall s :: 0 <= s < i ==> slots[s] == EMPTY_SLOT
        modifies slots
      {
        slots[i] := EMPTY_SLOT;
      }
      steps, cells := [], slots[..];
      NothingHoused(cells);
    }

    method Clear()
      requires Valid()
      modifies this`identities, this`originals, this`size, this`keys, this`rows, this`steps, this`hs, this`cells, slots
      ensures Valid() && keys == [] && rows == []
    {
      EmptyAllSlots();
      identities, originals, size := [], [], 0;
      keys, rows, hs := [], [], [];
    }

    method HashAt(entry: nat) returns (hash: int)
      requires Valid() && entry < size
      ensures hash == HashOf(keys[entry])
    {
      assert hashes[..size][entry] == hs[entry];
      hash := hashes[entry];
    }

    /** The value first seen in a column of a key. */
    method KeyAt(entry: nat, col: nat) returns (value: EvalValue)
      requires Valid() && entry < size && col < arity
      ensures value == rows[entry][col]
    {
      FlatAt(rows, arity, |rows|, entry, col);
      value := originals[entry * arity + col];
    }
  }

  /** The table for keys of one column, over a map from identities to entries. */
  class SingleKeyHashTable {
    const identityHash: KeyIdentity -> nat
    var entries: map<KeyIdentity, nat>
    var hashes: seq<nat>
    var originals: seq<EvalValue>

    /** Distinct keys in first-seen order, as one-column tuples. */
    ghost var keys: seq<Key>

    ghost predicate Valid()
      reads this
    {
      && |keys| == |hashes| == |originals| == |entries| && Distinct(keys)
      && (forall e :: 0 <= e < |keys| ==> |keys[e]| == 1 && keys[e][0] in entries && entries[keys[e][0]] == e)
      && (forall e :: 0 <= e < |keys| ==> hashes[e] == identityHash(keys[e][0]))
      && (forall id :: id in entries ==> entries[id] < |keys| && keys[entries[id]] == [id])
    }

    constructor (identityHash: KeyIdentity -> nat)
      ensures Valid() && keys == [] && originals == [] && this.identityHash == identityHash
    {
      this.identityHash := identityHash;
      entries, hashes, originals, keys := map[], [], [], [];
    }

    lemma {:induction false} LookupIsId(values: seq<EvalValue>)
      requires Valid()
      ensures var id := KeyIdentityOf(Column(values, 0));
        KeyOf(values, 1) == [id] && IdOf(keys, [id]) == if id in entries then entries[id] else NO_ENTRY
    {
      var id := KeyIdentityOf(Column(values, 0));
      assert KeyOf(values, 1) == [id];
      if id in entries { IdIsUnique(keys, [id], entries[id]); }
      assert forall e :: 0 <= e < |keys| && keys[e] == [id] ==> keys[e][0] == id;
    }

    method FindOrInsert(values: seq<EvalValue>) returns (entry: nat)
      requires Valid()
      modifies this
      ensures Valid()
      ensures keys == Enter(old(keys), KeyOf(values, 1)) && entry == IdOf(keys, KeyOf(values, 1))
      ensures originals == old(originals)
              + if IdOf(old(keys), KeyOf(values, 1)) == NO_ENTRY then [OrNull(Column(values, 0))] else []
    {
      var identity := KeyIdentityOf(Column(values, 0));
      LookupIsId(values);
      if identity in entries { return entries[identity]; }
      EnterKeeps(keys, [identity]);
      entry := |entries|;
      entries := entries[identity := entry];
      hashes := hashes + [identityHash(identity)];
      originals := originals + [OrNull(Column(values, 0))];
      keys := keys + [[identity]];
      IdIsUnique(keys, [identity], entry);
    }

    method Find(values: seq<EvalValue>) returns (entry: int)
      requires Valid()
      ensures entry == IdOf(keys, KeyOf(values, 1))
    {
      LookupIsId(values);
      var identity := KeyIdentityOf(Column(values, 0));
      entry := if identity in entries then entries[identity] else NO_ENTRY;
    }

    method Clear()
      requires Valid()
      modifies this
      ensures Valid() && keys == [] && originals == []
    {
      entries, hashes, originals, keys := map[], [], [], [];
    }
  }

  ghost function KeysOf(rows: seq<seq<EvalValue>>, arity: nat): (ks: seq<Key>)
    ensures |ks| == |rows| && forall i :: 0 <= i < |rows| ==> ks[i] == KeyOf(rows[i], arity)
  {
    seq(|rows|, i requires 0 <= i < |rows| => KeyOf(rows[i], arity))
  }

  /** One more row enters one more key. */
  lemma {:induction false} EnterNext(rows: seq<seq<EvalValue>>, arity: nat, i: nat)
    requires i < |rows|
    ensures EnterAll(KeysOf(rows[..i + 1], arity)) == Enter(EnterAll(KeysOf(rows[..i], arity)), KeyOf(rows[i], arity))
  {
    var ks := KeysOf(rows[..i + 1], arity);
    assert ks[..|ks| - 1] == KeysOf(rows[..i], arity);
  }

  /** The first n rows have got the numbers of their keys. */
  ghost predicate Numbered(rows: seq<seq<EvalValue>>, arity: nat, n: nat, numbers: seq<nat>) {
    && |numbers| == n <= |rows|
    && forall j {:trigger numbers[j]} :: 0 <= j < n ==>
      numbers[j] == IdOf(EnterAll(KeysOf(rows[..n], arity)), KeyOf(rows[j], arity))
  }

  lemma {:induction false} NumberedNext(rows: seq<seq<EvalValue>>, arity: nat, i: nat, numbers: seq<nat>, number: nat)
    requires i < |rows| && Numbered(rows, arity, i, numbers)
    requires number == IdOf(EnterAll(KeysOf(rows[..i + 1], arity)), KeyOf(rows[i], arity))
    ensures Numbered(rows, arity, i + 1, numbers + [number])
  {
    NumbersStay(rows, arity, i);
  }

  /** The table after any sequence of rows: keys are numbered as first seen, every row gets its key's number. */
  method NumberAll(arity: nat, mix: (nat, KeyIdentity) -> nat, rows: seq<seq<EvalValue>>)
    returns (table: OpenAddressingHashTable, numbers: seq<nat>)
    ensures table.Valid() && table.keys == EnterAll(KeysOf(rows, arity)) && Numbered(rows, arity, |rows|, numbers)
  {
    table := new OpenAddressingHashTable(arity, mix);
    numbers := [];
    for i := 0 to |rows|
      invariant fresh(table) && fresh(table.slots) && fresh(table.hashes) && fresh(table.scratch)
                && table.arity == arity
      invariant table.Valid() && table.keys == EnterAll(KeysOf(rows[..i], arity)) && Numbered(rows, arity, i, numbers)
    {
      EnterNext(rows, arity, i);
      var number := table.FindOrInsert(rows[i]);
      NumberedNext(rows, arity, i, numbers, number);
      numbers := numbers + [number];
    }
    assert rows[..|rows|] == rows;
  }

  /** The same for a table of one-column keys. */
  method NumberAllSingle(identityHash: KeyIdentity -> nat, rows: seq<seq<EvalValue>>)
    returns (table: SingleKeyHashTable, numbers: seq<nat>)
    ensures table.Valid() && table.keys == EnterAll(KeysOf(rows, 1)) && Numbered(rows, 1, |rows|, numbers)
  {
    table := new SingleKeyHashTable(identityHash);
    numbers := [];
    for i := 0 to |rows|
      invariant fresh(table) && table.Valid() && table.keys == EnterAll(KeysOf(rows[..i], 1))
      invariant Numbered(rows, 1, i, numbers)
    {
      EnterNext(rows, 1, i);
      var number := table.FindOrInsert(rows[i]);
      NumberedNext(rows, 1, i, numbers, number);
      numbers := numbers + [number];
    }
    assert rows[..|rows|] == rows;
  }

  /** Numbers given out before row i are the same after it. */
  lemma {:induction false} NumbersStay(rows: seq<seq<EvalValue>>, arity: nat, i: nat)
    requires i < |rows|
    ensures forall j :: 0 <= j < i ==>
              IdOf(EnterAll(KeysOf(rows[..i + 1], arity)), KeyOf(rows[j], arity))
                == IdOf(EnterAll(KeysOf(rows[..i], arity)), KeyOf(rows[j], arity))
  {
    var ks := KeysOf(rows[..i + 1], arity);
    assert ks[..i] == KeysOf(rows[..i], arity);
    forall j | 0 <= j < i ensures IdOf(EnterAll(ks), ks[j]) == IdOf(EnterAll(ks[..i]), ks[j]) {
      EntersAll(ks[..i], j);
      IdsNeverChange(ks, i, ks[j]);
    }
    assert forall j :: 0 <= j < i ==> ks[j] == KeyOf(rows[j], arity);
  }
}
