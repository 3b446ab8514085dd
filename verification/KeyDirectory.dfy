/** What a keyed hash table stands for: the distinct keys entered so far, numbered in first-seen order. */
module KeyDirectory {
  import opened Sequences

  const NO_ENTRY := -1

  /** The number of a key, or NO_ENTRY. */
  ghost function IdOf<K>(keys: seq<K>, k: K): (id: int)
    ensures NO_ENTRY <= id < |keys|
    ensures id != NO_ENTRY ==> keys[id] == k
    ensures id == NO_ENTRY ==> forall i :: 0 <= i < |keys| ==> keys[i] != k
  {
    if k in keys then var i :| 0 <= i < |keys| && keys[i] == k; i else NO_ENTRY
  }

  lemma {:induction false} IdIsUnique<K>(keys: seq<K>, k: K, i: nat)
    requires Distinct(keys) && i < |keys| && keys[i] == k
    ensures IdOf(keys, k) == i
  {}

  ghost function Enter<K>(keys: seq<K>, k: K): seq<K> {
    if IdOf(keys, k) == NO_ENTRY then keys + [k] else keys
  }

  lemma {:induction false} EnterKeeps<K>(keys: seq<K>, k: K)
    requires Distinct(keys)
    ensures Distinct(Enter(keys, k)) && keys <= Enter(keys, k) && IdOf(Enter(keys, k), k) != NO_ENTRY
  {
    if IdOf(keys, k) == NO_ENTRY { assert Enter(keys, k)[|keys|] == k; }
  }

  ghost function EnterAll<K>(ks: seq<K>): seq<K> {
    if ks == [] then [] else Enter(EnterAll(ks[..|ks| - 1]), ks[|ks| - 1])
  }

  lemma {:induction false} EnterAllDistinct<K>(ks: seq<K>)
    ensures Distinct(EnterAll(ks))
  {
    if ks != [] {
      EnterAllDistinct(ks[..|ks| - 1]);
      EnterKeeps(EnterAll(ks[..|ks| - 1]), ks[|ks| - 1]);
    }
  }

  /** A number given out is never withdrawn, however many keys follow. */
  lemma {:induction false} EnterAllGrows<K>(ks: seq<K>, n: nat)
    requires n <= |ks|
    ensures EnterAll(ks[..n]) <= EnterAll(ks)
  {
    if n == |ks| {
      assert ks[..n] == ks;
    } else {
      var front := ks[..|ks| - 1];
      EnterAllGrows(front, n);
      assert front[..n] == ks[..n];
      EnterAllDistinct(front);
      EnterKeeps(EnterAll(front), ks[|ks| - 1]);
    }
  }

  lemma {:induction false} EntersAll<K>(ks: seq<K>, i: nat)
    requires i < |ks|
    ensures IdOf(EnterAll(ks), ks[i]) != NO_ENTRY
  {
    EnterAllDistinct(ks[..i]);
    EnterKeeps(EnterAll(ks[..i]), ks[i]);
    assert ks[..i + 1][..i] == ks[..i];
    EnterAllGrows(ks, i + 1);
    var id := IdOf(EnterAll(ks[..i + 1]), ks[i]);
    assert EnterAll(ks)[id] == ks[i];
  }

  /** In any history of keys two occurrences get one number exactly when the keys are equal; the number an
      occurrence gets is the number of keys first seen before the key itself was, so numbers are dense and in
      first-seen order. */
  lemma {:induction false} FirstSeenOrder<K>(ks: seq<K>, i: nat, j: nat)
    requires i < |ks| && j < |ks|
    ensures IdOf(EnterAll(ks), ks[i]) == IdOf(EnterAll(ks), ks[j]) <==> ks[i] == ks[j]
    ensures ks[i] !in ks[..i] ==> IdOf(EnterAll(ks), ks[i]) == |EnterAll(ks[..i])|
  {
    EntersAll(ks, i);
    EntersAll(ks, j);
    EnterAllDistinct(ks);
    if ks[i] !in ks[..i] {
      OnlyEntered(ks[..i]);
      assert ks[..i + 1][..i] == ks[..i];
      EnterAllGrows(ks, i + 1);
      IdIsUnique(EnterAll(ks), ks[i], |EnterAll(ks[..i])|);
    }
  }

  lemma {:induction false} OnlyEntered<K>(ks: seq<K>)
    ensures forall k :: k in EnterAll(ks) ==> k in ks
  {
    if ks != [] { OnlyEntered(ks[..|ks| - 1]); }
  }

  /** The number handed out for a key is the number it has ever after. */
  lemma {:induction false} IdsNeverChange<K>(ks: seq<K>, n: nat, k: K)
    requires n <= |ks| && IdOf(EnterAll(ks[..n]), k) != NO_ENTRY
    ensures IdOf(EnterAll(ks), k) == IdOf(EnterAll(ks[..n]), k)
  {
    EnterAllGrows(ks, n);
    EnterAllDistinct(ks);
    IdIsUnique(EnterAll(ks), k, IdOf(EnterAll(ks[..n]), k));
  }
}
