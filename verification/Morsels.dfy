/** MorselScheduler of src/parallel/morsel-scheduler.ts, and any number of workers draining it. */
module Morsels {
  import opened Wrappers

  const TWO_TO_THE_32 := 0x1_0000_0000
  const TWO_TO_THE_31 := 0x8000_0000

  /** Where an Int32 counter lands. */
  function Int32(n: int): (r: int)
    ensures -TWO_TO_THE_31 <= r < TWO_TO_THE_31 && (-TWO_TO_THE_31 <= n < TWO_TO_THE_31 ==> r == n)
  {
    (n + TWO_TO_THE_31) % TWO_TO_THE_32 - TWO_TO_THE_31
  }

  lemma {:induction false} Int32Step(n: int, more: int)
    ensures Int32(Int32(n) + more) == Int32(n + more)
  {
    var a := n + TWO_TO_THE_31;
    assert a == TWO_TO_THE_32 * (a / TWO_TO_THE_32) + a % TWO_TO_THE_32;
    assert (a % TWO_TO_THE_32 + more) % TWO_TO_THE_32 == (a + more) % TWO_TO_THE_32;
  }

  datatype Morsel = Morsel(start: int, end: int)

  /** The morsel scheduler: one counter, shared by all workers. */
  class MorselScheduler {
    const totalUnits: nat
    const unitsPerMorsel: nat
    var counter: int
    ghost var claims: nat

    /** The counter is the number of calls times the morsel size, as far as 32 bits show it. */
    ghost predicate Valid()
      reads this
    {
      0 < unitsPerMorsel < TWO_TO_THE_31 && counter == Int32(claims * unitsPerMorsel)
    }

    constructor (totalUnits: nat, unitsPerMorsel: int)
      ensures Valid() && claims == 0 && this.totalUnits == totalUnits
      ensures this.unitsPerMorsel == if Int32(unitsPerMorsel) > 1 then Int32(unitsPerMorsel) else 1
    {
      this.totalUnits := totalUnits;
      this.unitsPerMorsel := if Int32(unitsPerMorsel) > 1 then Int32(unitsPerMorsel) else 1;
      counter, claims := 0, 0;
    }

    /** next: the atomic add is the only access to what is shared. */
    method Next() returns (morsel: Option<Morsel>)
      requires Valid()
      modifies this
      ensures Valid() && claims == old(claims) + 1
      ensures morsel == Claimed(old(claims), unitsPerMorsel, totalUnits)
    {
      var start := counter;
      Int32Step(claims * unitsPerMorsel, unitsPerMorsel);
      assert (claims + 1) * unitsPerMorsel == claims * unitsPerMorsel + unitsPerMorsel;
      counter := Int32(counter + unitsPerMorsel);
      claims := claims + 1;
      if start >= totalUnits { return None; }
      morsel := Some(Morsel(start, if start + unitsPerMorsel < totalUnits then start + unitsPerMorsel else totalUnits));
    }
  }

  function MorselAt(start: int, size: nat, total: nat): Option<Morsel> {
    if start >= total then None else Some(Morsel(start, if start + size < total then start + size else total))
  }

  /** The k-th morsel of the units. */
  function MorselOf(k: nat, size: nat, total: nat): Option<Morsel> {
    MorselAt(k * size, size, total)
  }

  /** What the k-th call hands out. */
  function Claimed(k: nat, size: nat, total: nat): Option<Morsel> {
    MorselAt(Int32(k * size), size, total)
  }

  /** How many morsels the units make. */
  function MorselCount(size: nat, total: nat): (n: nat)
    requires size > 0
    ensures n * size >= total && (n > 0 ==> (n - 1) * size < total)
  {
    var n := (total + size - 1) / size;
    assert total + size - 1 == n * size + (total + size - 1) % size;
    assert n > 0 ==> (n - 1) * size == n * size - size;
    n
  }

  ghost predicate Covers(m: Option<Morsel>, unit: int) {
    m.Some? && m.value.start <= unit < m.value.end
  }

  lemma {:induction false} ProductStep(a: nat, b: nat, size: nat)
    requires a < b
    ensures a * size + size <= b * size
  {
    assert b * size == a * size + size + (b - a - 1) * size;
  }

  /** Every unit belongs to exactly one of the morsels handed out. */
  lemma {:induction false} ExactlyOneMorsel(unit: nat, size: nat, total: nat, k: nat)
    requires size > 0 && unit < total
    ensures Covers(MorselOf(k, size, total), unit) <==> k == unit / size
  {
    var q := unit / size;
    assert unit == q * size + unit % size;
    if k < q {
      ProductStep(k, q, size);
    } else if k > q {
      ProductStep(q, k, size);
    }
  }

  /** A claim: which worker got which of the morsels handed out. */
  datatype Claim = Claim(worker: nat, morsel: Morsel)

  /** The claims so far are the first morsels, one after the other. */
  ghost predicate InTurn(log: seq<Claim>, size: nat, total: nat) {
    forall k {:trigger log[k]} :: 0 <= k < |log| ==> MorselOf(k, size, total) == Some(log[k].morsel)
  }

  function Working(active: seq<bool>, n: nat): (w: nat)
    requires n <= |active|
    ensures w <= n
  {
    if n == 0 then 0 else Working(active, n - 1) + if active[n - 1] then 1 else 0
  }

  lemma {:induction false} OneStops(active: seq<bool>, n: nat, w: nat)
    requires n <= |active| && w < |active| && active[w]
    ensures Working(active[w := false], n) == Working(active, n) - if w < n then 1 else 0
  {
    if n > 0 { OneStops(active, n - 1, w); }
  }

  predicate AnyActive(active: seq<bool>) {
    exists w :: 0 <= w < |active| && active[w]
  }

  lemma {:induction false} NobodyWorks(active: seq<bool>, n: nat)
    requires n <= |active| && !AnyActive(active)
    ensures Working(active, n) == 0
  {
    if n > 0 { NobodyWorks(active, n - 1); }
  }

  /** Every claim is a call that handed out a morsel; every other call stopped one worker. */
  ghost predicate Draining(s: MorselScheduler, log: seq<Claim>, active: seq<bool>)
    reads s
  {
    && s.Valid() && InTurn(log, s.unitsPerMorsel, s.totalUnits)
    && s.claims == |log| + (|active| - Working(active, |active|))
    && (Working(active, |active|) < |active| ==> |log| * s.unitsPerMorsel >= s.totalUnits)
  }

  lemma {:induction false} ProductGrows(a: nat, b: nat, size: nat)
    requires a <= b
    ensures a * size <= b * size
  {
    if a < b { ProductStep(a, b, size); }
  }

  lemma {:induction false} FewEnough(log: nat, size: nat, total: nat, workers: nat, stopped: nat)
    requires size > 0 && stopped < workers && Fits(size, total, workers)
    requires log == 0 || (log - 1) * size < total
    ensures Claimed(log + stopped, size, total) == MorselOf(log + stopped, size, total)
  {
    var n := MorselCount(size, total);
    if log > n { ProductGrows(n, log - 1, size); }
    ProductGrows(log + stopped, n + workers - 1, size);
  }

  lemma {:induction false} LogIsShort(log: seq<Claim>, size: nat, total: nat)
    requires size > 0 && InTurn(log, size, total)
    ensures log != [] ==> (|log| - 1) * size < total
    ensures |log| <= total
  {
    if log != [] {
      assert MorselOf(|log| - 1, size, total) == Some(log[|log| - 1].morsel);
      AtLeast(|log| - 1, size);
    }
  }

  lemma {:induction false} AtLeast(k: nat, size: nat)
    requires size > 0
    ensures k * size >= k
  {
    assert k * size == k + k * (size - 1);
  }

  lemma {:induction false} UnitClaimed(log: seq<Claim>, size: nat, total: nat, unit: nat)
    requires size > 0 && InTurn(log, size, total) && |log| * size >= total && unit < total
    ensures ClaimedOnce(log, size, unit)
  {
    var q := unit / size;
    assert unit == q * size + unit % size;
    if q >= |log| && q > |log| { ProductStep(|log|, q, size); }
    forall k {:trigger log[k]} | 0 <= k < |log| ensures Covers(Some(log[k].morsel), unit) <==> k == unit / size {
      ExactlyOneMorsel(unit, size, total, k);
    }
  }

  lemma {:induction false} AllClaimedOnce(log: seq<Claim>, size: nat, total: nat)
    requires size > 0 && InTurn(log, size, total) && |log| * size >= total
    ensures forall unit :: 0 <= unit < total ==> ClaimedOnce(log, size, unit)
  {
    forall unit | 0 <= unit < total ensures ClaimedOnce(log, size, unit) {
      UnitClaimed(log, size, total, unit);
    }
  }

  /** What the atomic counter has room for: every call starts below its limit. The calls are one for every morsel and
      one for every worker to learn that there are no more. */
  predicate Fits(size: nat, total: nat, workers: nat)
    requires size > 0 && workers > 0
  {
    (MorselCount(size, total) + workers - 1) * size < TWO_TO_THE_31
  }

  /** All the calls hand out what they should exactly when the counter has room for them. */
  lemma {:induction false} FitsExact(size: nat, total: nat, workers: nat)
    requires 0 < size < TWO_TO_THE_31 && workers > 0
    ensures (forall k :: 0 <= k < MorselCount(size, total) + workers ==>
               Claimed(k, size, total) == MorselOf(k, size, total))
       <==> Fits(size, total, workers)
  {
    var calls := MorselCount(size, total) + workers;
    if Fits(size, total, workers) {
      forall k | 0 <= k < calls ensures Claimed(k, size, total) == MorselOf(k, size, total) {
        ProductGrows(k, calls - 1, size);
      }
    } else {
      var k := MorselCount(size, TWO_TO_THE_31);
      if k >= calls { ProductGrows(calls - 1, k - 1, size); }
      WrapsAround(k, size, total);
    }
  }

  /** The call that wraps the counter around hands out a morsel that starts before the first unit. */
  lemma {:induction false} WrapsAround(k: nat, size: nat, total: nat)
    requires 0 < size < TWO_TO_THE_31 && TWO_TO_THE_31 <= k * size < TWO_TO_THE_31 + size
    ensures Claimed(k, size, total).Some? && Claimed(k, size, total).value.start < 0
    ensures Claimed(k, size, total) != MorselOf(k, size, total)
  {
    assert Int32(k * size) == k * size - TWO_TO_THE_32;
  }

  /** One worker asks once: it gets the next morsel, or stops. */
  method ClaimOne(s: MorselScheduler, log: seq<Claim>, active: seq<bool>, w: nat)
      returns (log': seq<Claim>, active': seq<bool>)
    requires Draining(s, log, active) && w < |active| && active[w] && Fits(s.unitsPerMorsel, s.totalUnits, |active|)
    modifies s
    ensures Draining(s, log', active') && |active'| == |active| && |log'| <= s.totalUnits
    ensures (log' == log && Working(active', |active|) < Working(active, |active|))
         || (active' == active && |log'| == |log| + 1 && log'[..|log|] == log && log'[|log|].worker == w)
  {
    var n := |active|;
    ghost var stopped := n - Working(active, n);
    OneStops(active, n, w);
    LogIsShort(log, s.unitsPerMorsel, s.totalUnits);
    FewEnough(|log|, s.unitsPerMorsel, s.totalUnits, n, stopped);
    if stopped > 0 { MorselsOver(|log|, stopped, s.unitsPerMorsel, s.totalUnits); }
    var morsel := s.Next();
    if morsel.None? {
      log', active' := log, active[w := false];
    } else {
      log', active' := log + [Claim(w, morsel.value)], active;
      LogIsShort(log', s.unitsPerMorsel, s.totalUnits);
    }
  }

  /** The workers drain the scheduler together, whichever comes next each time. Every unit is in exactly one of the
      morsels claimed, and no morsel is empty or reaches beyond the units. */
  method DrainAll(s: MorselScheduler, workers: nat) returns (log: seq<Claim>)
    requires s.Valid() && s.claims == 0 && workers > 0 && Fits(s.unitsPerMorsel, s.totalUnits, workers)
    modifies s
    ensures forall k {:trigger log[k]} :: 0 <= k < |log| ==>
              log[k].worker < workers && 0 <= log[k].morsel.start < log[k].morsel.end <= s.totalUnits
    ensures forall unit :: 0 <= unit < s.totalUnits ==> ClaimedOnce(log, s.unitsPerMorsel, unit)
  {
    var active := seq(workers, _ => true);
    AllWork(active, workers);
    log := [];
    while AnyActive(active)
      invariant |active| == workers && Draining(s, log, active) && |log| <= s.totalUnits
      invariant forall k {:trigger log[k]} :: 0 <= k < |log| ==> log[k].worker < workers
      decreases s.totalUnits - |log|, Working(active, workers)
    {
      var w :| 0 <= w < |active| && active[w];
      ghost var before := log;
      log, active := ClaimOne(s, log, active, w);
      assert forall k {:trigger log[k]} :: 0 <= k < |before| ==> log[k] == before[k];
    }
    NobodyWorks(active, |active|);
    AllClaimedOnce(log, s.unitsPerMorsel, s.totalUnits);
    MorselsInside(log, s.unitsPerMorsel, s.totalUnits);
  }

  lemma {:induction false} MorselsInside(log: seq<Claim>, size: nat, total: nat)
    requires size > 0 && InTurn(log, size, total)
    ensures forall k {:trigger log[k]} :: 0 <= k < |log| ==> 0 <= log[k].morsel.start < log[k].morsel.end <= total
  {
    forall k {:trigger log[k]} | 0 <= k < |log| ensures 0 <= log[k].morsel.start < log[k].morsel.end <= total {
      assert MorselOf(k, size, total) == Some(log[k].morsel);
      AtLeast(k, size);
    }
  }

  /** Exactly one claim covers the unit. */
  ghost predicate ClaimedOnce(log: seq<Claim>, size: nat, unit: nat)
    requires size > 0
  {
    && unit / size < |log|
    && forall k {:trigger log[k]} :: 0 <= k < |log| ==> (Covers(Some(log[k].morsel), unit) <==> k == unit / size)
  }

  lemma {:induction false} AllWork(active: seq<bool>, n: nat)
    requires n <= |active| && forall i :: 0 <= i < |active| ==> active[i]
    ensures Working(active, n) == n
  {
    if n > 0 { AllWork(active, n - 1); }
  }

  /** Once a call has found nothing, so do all later ones. */
  lemma {:induction false} MorselsOver(log: nat, more: nat, size: nat, total: nat)
    requires log * size >= total
    ensures MorselOf(log + more, size, total) == None
  {
    assert (log + more) * size == log * size + more * size;
  }
}
