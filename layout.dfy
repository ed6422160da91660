/**
 * The sample buffer of ftq: one flat run of 64-bit words holding, for every
 * thread and every sample, a timestamp word followed by a work-count word.
 * Thread j owns the contiguous region that starts at j * numsamples * 2.
 */
module Layout {
  import opened Base

  /** Upper bound on the per-thread sample count (MAX_SAMPLES). */
  const MAX_SAMPLES: nat := 2000000

  /** The sanity check applied to the sample count before allocation. */
  function Clamp(numsamples: nat): (r: nat)
    ensures r <= MAX_SAMPLES
    ensures numsamples <= MAX_SAMPLES ==> r == numsamples
    ensures r == numsamples || r == MAX_SAMPLES
  {
    if numsamples > MAX_SAMPLES then MAX_SAMPLES else numsamples
  }

  /** First word of thread j's region. */
  function RegionStart(numsamples: nat, j: nat): (r: nat)
    ensures r % 2 == 0
    ensures j == 0 ==> r == 0
  {
    j * numsamples * 2
  }

  /** Word k lies in thread j's region. */
  predicate InRegion(numsamples: nat, j: nat, k: nat)
  {
    RegionStart(numsamples, j) <= k < RegionStart(numsamples, j) + 2 * numsamples
  }

  /** Number of words in the buffer; every thread's region fits inside it. */
  function BufferWords(numsamples: nat, numthreads: nat): (w: nat)
    ensures forall j :: 0 <= j < numthreads ==> RegionStart(numsamples, j) + 2 * numsamples <= w
  {
    AllRegionsFit(numsamples, numthreads);
    numsamples * 2 * numthreads
  }

  /** Which of the two words of a sample. */
  datatype Field = Time | Count

  function Offset(f: Field): nat
  {
    match f
    case Time => 0
    case Count => 1
  }

  /** Word index of field f of sample i of thread j. */
  function Slot(numsamples: nat, j: nat, i: nat, f: Field): (k: nat)
    ensures k % 2 == Offset(f)
    ensures i < numsamples ==> InRegion(numsamples, j, k)
  {
    RegionStart(numsamples, j) + i * 2 + Offset(f)
  }

  /** Regions follow one another without gap: region j + 1 starts where region j ends. */
  lemma RegionNext(numsamples: nat, j: nat)
    ensures RegionStart(numsamples, j + 1) == RegionStart(numsamples, j) + 2 * numsamples
  {
    assert (j + 1) * numsamples == j * numsamples + numsamples;
  }

  /** A later region starts no earlier than the end of an earlier one. */
  lemma {:induction false} RegionOrder(numsamples: nat, j1: nat, j2: nat)
    requires j1 < j2
    ensures RegionStart(numsamples, j1) + 2 * numsamples <= RegionStart(numsamples, j2)
    decreases j2 - j1
  {
    RegionNext(numsamples, j1);
    if j1 + 1 < j2 {
      RegionOrder(numsamples, j1 + 1, j2);
    }
  }

  lemma AllRegionsFit(numsamples: nat, numthreads: nat)
    ensures forall j :: 0 <= j < numthreads ==> RegionStart(numsamples, j) + 2 * numsamples <= numsamples * 2 * numthreads
  {
    forall j | 0 <= j < numthreads
      ensures RegionStart(numsamples, j) + 2 * numsamples <= numsamples * 2 * numthreads
    {
      RegionNext(numsamples, j);
      if j + 1 < numthreads {
        RegionOrder(numsamples, j + 1, numthreads);
      }
      assert RegionStart(numsamples, numthreads) == numsamples * 2 * numthreads;
    }
  }

  /** The buffer is exactly the regions of its threads laid end to end. */
  lemma Tiling(numsamples: nat, numthreads: nat)
    ensures RegionStart(numsamples, 0) == 0
    ensures RegionStart(numsamples, numthreads) == BufferWords(numsamples, numthreads)
    ensures forall j :: 0 <= j < numthreads ==>
              RegionStart(numsamples, j + 1) == RegionStart(numsamples, j) + 2 * numsamples
  {
    forall j | 0 <= j < numthreads
      ensures RegionStart(numsamples, j + 1) == RegionStart(numsamples, j) + 2 * numsamples
    {
      RegionNext(numsamples, j);
    }
  }

  /** Both words of a sample lie inside the owning thread's region. */
  lemma SlotInRegion(numsamples: nat, j: nat, i: nat, f: Field)
    requires i < numsamples
    ensures InRegion(numsamples, j, Slot(numsamples, j, i, f))
  {
  }

  /** Every slot the threads and the reporter use is inside the buffer. */
  lemma SlotInBounds(numsamples: nat, numthreads: nat, j: nat, i: nat, f: Field)
    requires j < numthreads && i < numsamples
    ensures Slot(numsamples, j, i, f) < BufferWords(numsamples, numthreads)
  {
    SlotInRegion(numsamples, j, i, f);
  }

  /** A slot of thread j1 never lies in the region of a different thread j2. */
  lemma {:induction false} SlotOutsideOtherRegion(numsamples: nat, j1: nat, i: nat, f: Field, j2: nat)
    requires i < numsamples && j1 != j2
    ensures !InRegion(numsamples, j2, Slot(numsamples, j1, i, f))
  {
    SlotInRegion(numsamples, j1, i, f);
    if j1 < j2 {
      RegionOrder(numsamples, j1, j2);
    } else {
      RegionOrder(numsamples, j2, j1);
    }
  }

  /** Distinct (thread, sample, field) triples occupy distinct words. */
  lemma SlotInjective(numsamples: nat, j1: nat, i1: nat, f1: Field, j2: nat, i2: nat, f2: Field)
    requires i1 < numsamples && i2 < numsamples
    requires Slot(numsamples, j1, i1, f1) == Slot(numsamples, j2, i2, f2)
    ensures j1 == j2 && i1 == i2 && f1 == f2
  {
    if j1 != j2 {
      SlotInRegion(numsamples, j2, i2, f2);
      SlotOutsideOtherRegion(numsamples, j1, i1, f1, j2);
    }
  }

  /** The (thread, sample, field) triple that owns word k. */
  function Locate(numsamples: nat, k: nat): (nat, nat, Field)
    requires numsamples > 0
  {
    var pair := k / 2;
    DivMod(pair, numsamples);
    (pair / numsamples, pair % numsamples, if k % 2 == 0 then Time else Count)
  }

  /** Every word of the buffer belongs to exactly the triple Locate names: the layout leaves no gap. */
  lemma LocateIsSlot(numsamples: nat, numthreads: nat, k: nat)
    requires k < BufferWords(numsamples, numthreads)
    ensures numsamples > 0
    ensures Locate(numsamples, k).0 < numthreads && Locate(numsamples, k).1 < numsamples
    ensures Slot(numsamples, Locate(numsamples, k).0, Locate(numsamples, k).1, Locate(numsamples, k).2) == k
  {
    assert numsamples > 0 by {
      if numsamples == 0 { ZeroTimes(numthreads); }
    }
    var pair := k / 2;
    DivMod(k, 2);
    DivMod(pair, numsamples);
    var j, i := pair / numsamples, pair % numsamples;
    var f := if k % 2 == 0 then Time else Count;
    assert Locate(numsamples, k) == (j, i, f);
    assert pair == j * numsamples + i;
    assert RegionStart(numsamples, j) == 2 * (j * numsamples);
    assert k == 2 * pair + Offset(f);
    assert BufferWords(numsamples, numthreads) == 2 * (numthreads * numsamples);
    if j >= numthreads {
      MulMono(numthreads, j, numsamples);
    }
  }

  lemma DivMod(k: nat, d: nat)
    requires d > 0
    ensures k == (k / d) * d + k % d && 0 <= k % d < d && 0 <= k / d
  {
  }

  lemma ZeroTimes(n: nat)
    ensures BufferWords(0, n) == 0
  {
  }

  lemma MulMono(a: nat, b: nat, c: nat)
    requires a <= b
    ensures a * c <= b * c
  {
  }

  /** The buffer's size in bytes (8 per word) fits a 64-bit size_t once the count is clamped. */
  lemma ByteSizeFits(numsamples: nat, numthreads: nat)
    requires numsamples <= MAX_SAMPLES && numthreads <= 0x7fff_ffff
    ensures 8 * BufferWords(numsamples, numthreads) < TWO_TO_64
  {
    assert numsamples * 2 <= MAX_SAMPLES * 2;
    assert numsamples * 2 * numthreads <= MAX_SAMPLES * 2 * numthreads;
    assert MAX_SAMPLES * 2 * numthreads <= MAX_SAMPLES * 2 * 0x7fff_ffff;
  }
}
