/**
 * The reporter's integer skeleton: for each thread, the lines
 * (timestamp - base, count) where base is the thread's first timestamp, and
 * the file each thread's lines go to. The scaling of the time column by the
 * measured nanoseconds-per-cycle is floating point and not modelled: a Line
 * holds the unscaled tick difference.
 */
module Report {
  import opened Base
  import opened Layout
  import opened Samples
  import opened Names

  /** One output line before scaling: ticks since the thread's first sample, and the work count. */
  datatype Line = Line(ticks: Word, count: Word)

  /** One per-thread output file. */
  datatype File = File(name: string, lines: seq<Line>)

  /** samples[...] - base: unsigned 64-bit subtraction, which wraps. */
  function RelTicks(t: Word, base: Word): (r: Word)
    ensures (base as int + r as int) % TWO_TO_64 == t as int
    ensures base <= t ==> r as int == t as int - base as int
    ensures t == base ==> r == 0
  {
    ((t as int - base as int) % TWO_TO_64) as Word
  }

  /** The index the reporter reads the base from: numsamples * j * 2. */
  function BaseIndex(numsamples: nat, j: nat): (b: nat)
    ensures b == Slot(numsamples, j, 0, Time)
  {
    numsamples * j * 2
  }

  /** The lines reported for thread j of a buffer. */
  function ThreadLines(buf: seq<Word>, numsamples: nat, j: nat): (lines: seq<Line>)
    requires RegionStart(numsamples, j) + 2 * numsamples <= |buf|
    ensures |lines| == numsamples
    ensures numsamples > 0 ==> lines[0].ticks == 0
    ensures forall i :: 0 <= i < numsamples ==> lines[i].count == buf[Slot(numsamples, j, i, Count)]
    ensures forall i :: 0 <= i < numsamples ==>
              (buf[Slot(numsamples, j, 0, Time)] as int + lines[i].ticks as int) % TWO_TO_64
              == buf[Slot(numsamples, j, i, Time)] as int
  {
    seq(numsamples, i requires 0 <= i < numsamples =>
      Line(RelTicks(buf[Slot(numsamples, j, i, Time)], buf[Slot(numsamples, j, 0, Time)]),
           buf[Slot(numsamples, j, i, Count)]))
  }

  /** Thread j's report depends on thread j's region only: what other threads store cannot change it. */
  lemma ThreadLinesFramed(buf1: seq<Word>, buf2: seq<Word>, numsamples: nat, j: nat)
    requires RegionStart(numsamples, j) + 2 * numsamples <= |buf1|
    requires RegionStart(numsamples, j) + 2 * numsamples <= |buf2|
    requires forall k :: 0 <= k < |buf1| && InRegion(numsamples, j, k) ==> buf1[k] == buf2[k]
    ensures ThreadLines(buf1, numsamples, j) == ThreadLines(buf2, numsamples, j)
  {
    forall i | 0 <= i < numsamples
      ensures ThreadLines(buf1, numsamples, j)[i] == ThreadLines(buf2, numsamples, j)[i]
    {
      SlotInRegion(numsamples, j, i, Time);
      SlotInRegion(numsamples, j, i, Count);
      SlotInRegion(numsamples, j, 0, Time);
    }
  }

  /** The report of thread j, walking its region of the buffer. */
  method ThreadReport(samples: array<Word>, numsamples: nat, j: nat) returns (lines: seq<Line>)
    requires RegionStart(numsamples, j) + 2 * numsamples <= samples.Length
    ensures lines == ThreadLines(samples[..], numsamples, j)
  {
    lines := [];
    if numsamples == 0 {
      return;
    }
    var base := samples[BaseIndex(numsamples, j)];
    var i := 0;
    while i < numsamples
      invariant 0 <= i <= numsamples
      invariant lines == ThreadLines(samples[..], numsamples, j)[..i]
    {
      lines := lines + [Line(RelTicks(samples[j * numsamples * 2 + i * 2], base),
                             samples[j * numsamples * 2 + i * 2 + 1])];
      i := i + 1;
    }
  }

  /** The single-stream report: base samples[0], pair i at i * 2. It reads exactly thread 0's lines. */
  method StdoutReport(samples: array<Word>, numsamples: nat) returns (lines: seq<Line>)
    requires 2 * numsamples <= samples.Length
    ensures lines == ThreadLines(samples[..], numsamples, 0)
  {
    lines := [];
    if numsamples == 0 {
      return;
    }
    var base := samples[0];
    var i := 0;
    while i < numsamples
      invariant 0 <= i <= numsamples
      invariant lines == ThreadLines(samples[..], numsamples, 0)[..i]
    {
      lines := lines + [Line(RelTicks(samples[i * 2], base), samples[i * 2 + 1])];
      i := i + 1;
    }
  }

  /** One file per thread, thread j's lines in FileName(outname, j). */
  method FileReports(samples: array<Word>, numsamples: nat, numthreads: nat, outname: string)
    returns (files: seq<File>)
    requires samples.Length == BufferWords(numsamples, numthreads)
    ensures |files| == numthreads
    ensures forall j :: 0 <= j < numthreads ==>
              files[j] == File(FileName(outname, j), ThreadLines(samples[..], numsamples, j))
  {
    files := [];
    var j := 0;
    while j < numthreads
      invariant 0 <= j <= numthreads
      invariant |files| == j
      invariant forall m :: 0 <= m < j ==>
                  files[m] == File(FileName(outname, m), ThreadLines(samples[..], numsamples, m))
    {
      var lines := ThreadReport(samples, numsamples, j);
      files := files + [File(FileName(outname, j), lines)];
      j := j + 1;
    }
  }

  /**
   * The reporter as written reads its base word before the sample loop,
   * even when there are no samples to print.
   */
  predicate BaseReadInBoundsAsWritten(numsamples: nat, numthreads: nat)
  {
    forall j :: 0 <= j < numthreads ==> BaseIndex(numsamples, j) < BufferWords(numsamples, numthreads)
  }

  /** That read is in bounds exactly when the sample count is positive: -n 0 reads past an empty buffer. */
  lemma BaseReadAsWrittenIff(numsamples: nat, numthreads: nat)
    requires numthreads >= 1
    ensures BaseReadInBoundsAsWritten(numsamples, numthreads) <==> numsamples > 0
  {
    if numsamples > 0 {
      forall j | 0 <= j < numthreads
        ensures BaseIndex(numsamples, j) < BufferWords(numsamples, numthreads)
      {
        SlotInBounds(numsamples, numthreads, j, 0, Time);
      }
    } else {
      ZeroTimes(numthreads);
      assert BaseIndex(numsamples, 0) == 0;
      assert !(BaseIndex(numsamples, 0) < BufferWords(numsamples, numthreads));
    }
  }

  /** The concrete input: one thread, -n 0. */
  lemma ZeroSamplesBaseOutOfBounds()
    ensures !BaseReadInBoundsAsWritten(0, 1)
  {
    BaseReadAsWrittenIff(0, 1);
  }
}
