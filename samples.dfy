/**
 * The sample storage itself: allocation with zeroing, and the stores each
 * measuring thread makes into its own region.
 */
module Samples {
  import opened Base
  import opened Layout

  /** An unsigned long long. */
  newtype Word = x: int | 0 <= x < TWO_TO_64

  /** One recorded sample: the cycle counter at the quantum's end and the work done in it. */
  datatype Sample = Sample(timestamp: Word, count: Word)

  /** memset of the whole buffer to zero. */
  method Zero(a: array<Word>)
    modifies a
    ensures forall k :: 0 <= k < a.Length ==> a[k] == 0
  {
    var k := 0;
    while k < a.Length
      invariant 0 <= k <= a.Length
      invariant forall m :: 0 <= m < k ==> a[m] == 0
    {
      a[k] := 0;
      k := k + 1;
    }
  }

  /** Allocation of 2 * numsamples * numthreads words, zeroed before any sampling starts. */
  method Allocate(numsamples: nat, numthreads: nat) returns (samples: array<Word>)
    ensures fresh(samples)
    ensures samples.Length == BufferWords(numsamples, numthreads)
    ensures forall k :: 0 <= k < samples.Length ==> samples[k] == 0
  {
    samples := new Word[BufferWords(numsamples, numthreads)];
    Zero(samples);
  }

  /** The values thread j has stored for its first n samples. */
  ghost predicate Recorded(buf: seq<Word>, numsamples: nat, j: nat, n: nat, core: (nat, nat) -> Sample)
    requires n <= numsamples && RegionStart(numsamples, j) + 2 * numsamples <= |buf|
  {
    forall i :: 0 <= i < n ==>
      buf[Slot(numsamples, j, i, Time)] == core(j, i).timestamp &&
      buf[Slot(numsamples, j, i, Count)] == core(j, i).count
  }

  /**
   * Thread j storing its samples, in order, at its own slots: sample i of
   * thread j is core(j, i). Nothing outside thread j's region changes.
   */
  method RecordThread(samples: array<Word>, numsamples: nat, j: nat, core: (nat, nat) -> Sample)
    requires RegionStart(numsamples, j) + 2 * numsamples <= samples.Length
    modifies samples
    ensures Recorded(samples[..], numsamples, j, numsamples, core)
    ensures forall k :: 0 <= k < samples.Length && !InRegion(numsamples, j, k) ==> samples[k] == old(samples[k])
  {
    var base := j * numsamples * 2;
    var i := 0;
    while i < numsamples
      invariant 0 <= i <= numsamples
      invariant Recorded(samples[..], numsamples, j, i, core)
      invariant forall k :: 0 <= k < samples.Length && !(base <= k < base + 2 * i) ==> samples[k] == old(samples[k])
    {
      var sample := core(j, i);
      samples[base + i * 2] := sample.timestamp;
      samples[base + i * 2 + 1] := sample.count;
      i := i + 1;
    }
  }
}
