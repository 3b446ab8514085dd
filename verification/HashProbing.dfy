/** Linear probing over a power-of-two slot array, on sequences; numbers are masked bit by bit. */
module HashProbing {

  const EMPTY_SLOT := -1

  // ---------- masking ----------

  function BitAnd(a: nat, b: nat): (r: nat)
    ensures r <= a && r <= b
  {
    if a == 0 || b == 0 then 0 else 2 * BitAnd(a / 2, b / 2) + if a % 2 == 1 && b % 2 == 1 then 1 else 0
  }

  function Pow2(k: nat): (p: nat)
    ensures p > 0
  {
    if k == 0 then 1 else 2 * Pow2(k - 1)
  }


  /** Masking with one less than a power of two keeps a smaller number and turns the power itself to 0. */
  lemma {:induction false} MaskLowBits(s: nat, k: nat)
    requires s <= Pow2(k)
    ensures BitAnd(s, Pow2(k) - 1) == if s == Pow2(k) then 0 else s
  {
    if k > 0 {
      var p := Pow2(k - 1);
      assert (2 * p - 1) / 2 == p - 1 && (2 * p - 1) % 2 == 1;
      if s > 0 { MaskLowBits(s / 2, k - 1); }
    }
  }

  function Home(hash: nat, n: nat): (s: nat)
    requires n > 0
    ensures s < n
  {
    BitAnd(hash, n - 1)
  }

  // ---------- the probe sequence ----------

  function At(home: nat, j: nat, n: nat): (s: nat)
    requires home < n && j <= n
    ensures s < n
  {
    if home + j < n then home + j else home + j - n
  }

  lemma {:induction false} NextSlot(home: nat, j: nat, n: nat, k: nat)
    requires home < n && j < n && n == Pow2(k)
    ensures BitAnd(At(home, j, n) + 1, n - 1) == At(home, j + 1, n)
  {
    MaskLowBits(At(home, j, n) + 1, k);
  }

  ghost predicate Occupied(slots: seq<int>, home: nat, j: nat)
    requires home < |slots| && j <= |slots|
  {
    forall i :: 0 <= i < j ==> slots[At(home, i, |slots|)] != EMPTY_SLOT
  }

  /** Entry e, whose hash is hs[e], sits steps[e] probes from its home, and no probe before it is empty;
      an occupied slot holds an entry that sits there. */
  ghost predicate Housed(slots: seq<int>, hs: seq<nat>, steps: seq<nat>) {
    && |slots| > 0 && |steps| == |hs|
    && (forall e :: 0 <= e < |hs| ==> steps[e] < |slots|)
    && (forall e :: 0 <= e < |hs| ==> slots[At(Home(hs[e], |slots|), steps[e], |slots|)] == e)
    && (forall e :: 0 <= e < |hs| ==> Occupied(slots, Home(hs[e], |slots|), steps[e]))
    && (forall s :: 0 <= s < |slots| ==> (
          slots[s] == EMPTY_SLOT || (0 <= slots[s] < |hs|
            && At(Home(hs[slots[s]], |slots|), steps[slots[s]], |slots|) == s)))
  }

  /** Distinct numbers below m are at most m many. */
  lemma {:induction false} DistinctBelow(s: seq<int>, m: nat)
    requires forall i :: 0 <= i < |s| ==> 0 <= s[i] < m
    requires forall i, j :: 0 <= i < j < |s| ==> s[i] != s[j]
    ensures |s| <= m
  {
    if s != [] {
      var first := s[0];
      if m - 1 in s {
        var i :| 0 <= i < |s| && s[i] == m - 1;
        DistinctBelow(s[..i] + s[i + 1..], m - 1);
      } else {
        DistinctBelow(s, m - 1);
      }
    }
  }

  lemma {:induction false} SeatOf(slots: seq<int>, hs: seq<nat>, steps: seq<nat>, s: nat)
    requires Housed(slots, hs, steps) && s < |slots| && slots[s] != EMPTY_SLOT
    ensures 0 <= slots[s] < |hs| && At(Home(hs[slots[s]], |slots|), steps[slots[s]], |slots|) == s
  {}

  /** With fewer entries than slots some slot is empty. */
  lemma {:induction false} SomeEmpty(slots: seq<int>, hs: seq<nat>, steps: seq<nat>)
    requires Housed(slots, hs, steps) && |hs| < |slots|
    ensures exists s :: 0 <= s < |slots| && slots[s] == EMPTY_SLOT
  {
    if forall s :: 0 <= s < |slots| ==> slots[s] != EMPTY_SLOT {
      forall i, j | 0 <= i < j < |slots| ensures slots[i] != slots[j] {
        SeatOf(slots, hs, steps, i);
        SeatOf(slots, hs, steps, j);
      }
      DistinctBelow(slots, |hs|);
    }
  }

  /** So a probe that found only occupied slots has not been all the way round. */
  lemma {:induction false} ProbeNotDone(slots: seq<int>, hs: seq<nat>, steps: seq<nat>, home: nat, j: nat)
    requires Housed(slots, hs, steps) && |hs| < |slots| && home < |slots| && j <= |slots| && Occupied(slots, home, j)
    ensures j < |slots|
  {
    SomeEmpty(slots, hs, steps);
    var s :| 0 <= s < |slots| && slots[s] == EMPTY_SLOT;
    var i := if s >= home then s - home else s - home + |slots|;
    assert At(home, i, |slots|) == s;
  }

  /** Placing a new entry in the first empty slot of its probe keeps every entry reachable. */
  lemma {:induction false} HousedPut(slots: seq<int>, hs: seq<nat>, steps: seq<nat>, h: nat, j: nat, after: seq<int>)
    requires Housed(slots, hs, steps) && j < |slots| && Occupied(slots, Home(h, |slots|), j)
    requires slots[At(Home(h, |slots|), j, |slots|)] == EMPTY_SLOT
             && after == slots[At(Home(h, |slots|), j, |slots|) := |hs|]
    ensures Housed(after, hs + [h], steps + [j])
  {
    var n := |slots|;
    var hs', steps' := hs + [h], steps + [j];
    forall e | 0 <= e < |hs'|
      ensures after[At(Home(hs'[e], n), steps'[e], n)] == e && Occupied(after, Home(hs'[e], n), steps'[e])
    {
      if e < |hs| { assert slots[At(Home(hs[e], n), steps[e], n)] == e && Occupied(slots, Home(hs[e], n), steps[e]); }
    }
    forall s | 0 <= s < n && after[s] != EMPTY_SLOT
      ensures 0 <= after[s] < |hs'| && At(Home(hs'[after[s]], n), steps'[after[s]], n) == s
    {}
  }

  /** A probe that meets an empty slot has passed every entry with this hash. */
  lemma {:induction false} ProbeIsComplete(slots: seq<int>, hs: seq<nat>, steps: seq<nat>, h: nat, j: nat, e: nat)
    requires Housed(slots, hs, steps) && e < |hs| && hs[e] == h && j < |slots|
    requires slots[At(Home(h, |slots|), j, |slots|)] == EMPTY_SLOT
    ensures steps[e] < j && slots[At(Home(h, |slots|), steps[e], |slots|)] == e
  {
    assert Occupied(slots, Home(hs[e], |slots|), steps[e]);
  }

  lemma {:induction false} NothingHoused(slots: seq<int>)
    requires |slots| > 0 && forall s :: 0 <= s < |slots| ==> slots[s] == EMPTY_SLOT
    ensures Housed(slots, [], [])
  {}
}
