/**
 * The sequential skeleton of ftq's main: parse the options, clamp the
 * sample count, allocate and zero the buffer, reject single-stream output
 * for several threads, run the measurement inline or on threads, then
 * report. The measurement itself (ftq_core) is the parameter core:
 * core(j, i) is the i-th sample thread j records.
 */
module Ftq {
  import opened Base
  import opened Layout
  import opened Samples
  import opened Names
  import opened Options
  import opened Report

  /** How the measurement runs: ftq_core(0) called directly, or one thread per worker. */
  datatype Path = Inline | Threaded

  /** The observable order of the run's steps. */
  datatype Step =
    | Allocated(words: nat)  // buffer allocated and zeroed
    | Reject                 // single-stream output refused for several threads
    | Spawn(thread: nat)     // thread created
    | Release                // start flag (hounds) set
    | Join(thread: nat)      // thread joined
    | RunInline              // ftq_core(0) called without threads

  datatype Output = Stdout(lines: seq<Line>) | PerThreadFiles(files: seq<File>)

  datatype Outcome =
    | UsageExit                                  // usage() printed, exit failure
    | StdoutRejected                             // exit failure, nothing reported
    | Completed(path: Path, output: Output)

  /** The thread counts the model covers: every parse that succeeds yields at least one thread. */
  predicate ThreadsPositive(opts: seq<Opt>)
  {
    ParseSpec(opts).Some? ==> ParseSpec(opts).value.numthreads >= 1
  }

  /** The lines the report of thread j should hold given what thread j recorded. */
  function Expected(core: (nat, nat) -> Sample, numsamples: nat, j: nat): seq<Line>
  {
    seq(numsamples, i requires 0 <= i < numsamples =>
      Line(RelTicks(core(j, i).timestamp, core(j, 0).timestamp), core(j, i).count))
  }

  /** What the report stage emits once every thread has recorded its samples. */
  function OutputSpec(core: (nat, nat) -> Sample, numsamples: nat, numthreads: nat, useStdout: bool, outname: string): Output
  {
    if useStdout then Stdout(Expected(core, numsamples, 0))
    else PerThreadFiles(seq(numthreads, j requires 0 <= j < numthreads =>
           File(FileName(outname, j), Expected(core, numsamples, j))))
  }

  function RunSpec(opts: seq<Opt>, core: (nat, nat) -> Sample): Outcome
    requires ThreadsPositive(opts)
  {
    match ParseSpec(opts)
    case None => UsageExit
    case Some(s) =>
      var numsamples, numthreads := Clamp(s.numsamples), s.numthreads as nat;
      if s.useStdout && numthreads > 1 then StdoutRejected
      else Completed(if s.useThreads then Threaded else Inline,
                     OutputSpec(core, numsamples, numthreads, s.useStdout, s.outname))
  }

  /** The steps of the measurement stage on either path. */
  function MeasureSteps(threaded: bool, numthreads: nat): seq<Step>
  {
    if threaded then Spawns(numthreads) + [Release] + Joins(numthreads) else [Release, RunInline]
  }

  function Spawns(n: nat): seq<Step>
  {
    seq(n, j requires 0 <= j < n => Spawn(j))
  }

  function Joins(n: nat): seq<Step>
  {
    seq(n, j requires 0 <= j < n => Join(j))
  }

  function TraceSpec(opts: seq<Opt>): seq<Step>
    requires ThreadsPositive(opts)
  {
    match ParseSpec(opts)
    case None => []
    case Some(s) =>
      var numsamples, numthreads := Clamp(s.numsamples), s.numthreads as nat;
      [Allocated(BufferWords(numsamples, numthreads))] +
      if s.useStdout && numthreads > 1 then [Reject] else MeasureSteps(s.useThreads, numthreads)
  }

  /** Thread j's report reproduces what thread j recorded, base subtracted. */
  lemma ReportOfRecorded(buf: seq<Word>, numsamples: nat, j: nat, core: (nat, nat) -> Sample)
    requires RegionStart(numsamples, j) + 2 * numsamples <= |buf|
    requires Recorded(buf, numsamples, j, numsamples, core)
    ensures ThreadLines(buf, numsamples, j) == Expected(core, numsamples, j)
  {
  }

  /** What thread m recorded survives thread j's stores into its own region. */
  lemma RecordedKept(before: seq<Word>, after: seq<Word>, numsamples: nat, m: nat, j: nat, core: (nat, nat) -> Sample)
    requires |before| == |after| && m != j
    requires RegionStart(numsamples, m) + 2 * numsamples <= |before|
    requires Recorded(before, numsamples, m, numsamples, core)
    requires forall k :: 0 <= k < |after| && !InRegion(numsamples, j, k) ==> after[k] == before[k]
    ensures Recorded(after, numsamples, m, numsamples, core)
  {
    forall i, f | 0 <= i < numsamples
      ensures after[Slot(numsamples, m, i, f)] == before[Slot(numsamples, m, i, f)]
    {
      SlotInRegion(numsamples, m, i, f);
      SlotOutsideOtherRegion(numsamples, m, i, f, j);
    }
  }

  /**
   * The measurement stage: on the threaded path create every thread, set the
   * start flag, then join every thread; otherwise set the flag and run thread
   * 0 inline. Each thread stores its samples in its own region.
   */
  method Measure(samples: array<Word>, numsamples: nat, numthreads: nat, threaded: bool, core: (nat, nat) -> Sample)
    returns (steps: seq<Step>)
    requires samples.Length == BufferWords(numsamples, numthreads)
    requires !threaded ==> numthreads == 1
    modifies samples
    ensures forall j :: 0 <= j < numthreads ==> Recorded(samples[..], numsamples, j, numsamples, core)
    ensures steps == MeasureSteps(threaded, numthreads)
  {
    if !threaded {
      steps := [Release, RunInline];
      RecordThread(samples, numsamples, 0, core);
      return;
    }
    steps := [];
    var j := 0;
    while j < numthreads
      invariant 0 <= j <= numthreads
      invariant steps == Spawns(j)
    {
      steps := steps + [Spawn(j)];
      j := j + 1;
    }
    steps := steps + [Release];
    // joining thread j means it has stored all its samples
    j := 0;
    while j < numthreads
      invariant 0 <= j <= numthreads
      invariant steps == Spawns(numthreads) + [Release] + Joins(j)
      invariant forall m :: 0 <= m < j ==> Recorded(samples[..], numsamples, m, numsamples, core)
    {
      ghost var before := samples[..];
      RecordThread(samples, numsamples, j, core);
      forall m | 0 <= m < j
        ensures Recorded(samples[..], numsamples, m, numsamples, core)
      {
        RecordedKept(before, samples[..], numsamples, m, j, core);
      }
      steps := steps + [Join(j)];
      j := j + 1;
    }
  }

  /** The report stage: one stream for thread 0, or one file per thread. */
  method Emit(samples: array<Word>, numsamples: nat, numthreads: nat, useStdout: bool, outname: string,
              ghost core: (nat, nat) -> Sample)
    returns (output: Output)
    requires samples.Length == BufferWords(numsamples, numthreads)
    requires useStdout ==> numthreads == 1
    requires forall j :: 0 <= j < numthreads ==> Recorded(samples[..], numsamples, j, numsamples, core)
    ensures output == OutputSpec(core, numsamples, numthreads, useStdout, outname)
  {
    if useStdout {
      var lines := StdoutReport(samples, numsamples);
      ReportOfRecorded(samples[..], numsamples, 0, core);
      output := Stdout(lines);
    } else {
      var files := FileReports(samples, numsamples, numthreads, outname);
      forall j | 0 <= j < numthreads
        ensures files[j] == File(FileName(outname, j), Expected(core, numsamples, j))
      {
        ReportOfRecorded(samples[..], numsamples, j, core);
      }
      output := PerThreadFiles(files);
    }
  }

  /** main, from the tokenised options to the report. */
  method Run(opts: seq<Opt>, core: (nat, nat) -> Sample) returns (outcome: Outcome, trace: seq<Step>)
    requires ThreadsPositive(opts)
    ensures outcome == RunSpec(opts, core)
    ensures trace == TraceSpec(opts)
  {
    var parsed := ParseOptions(opts);
    if parsed.None? {
      return UsageExit, [];
    }
    var s := parsed.value;
    var numsamples := s.numsamples;
    if numsamples > MAX_SAMPLES {
      numsamples := MAX_SAMPLES;
    }
    var numthreads: nat := s.numthreads;
    var samples := Allocate(numsamples, numthreads);
    trace := [Allocated(samples.Length)];
    if s.useStdout && numthreads > 1 {
      return StdoutRejected, trace + [Reject];
    }
    if !s.useThreads {
      InlineIsSingleThread(opts);
    }
    var steps := Measure(samples, numsamples, numthreads, s.useThreads, core);
    trace := trace + steps;
    var output := Emit(samples, numsamples, numthreads, s.useStdout, s.outname, core);
    outcome := Completed(if s.useThreads then Threaded else Inline, output);
  }

  /**
   * Single-stream output is refused exactly when -s was given and the last
   * -t asked for more than one thread.
   */
  lemma RejectedIff(opts: seq<Opt>, core: (nat, nat) -> Sample)
    requires ThreadsPositive(opts)
    ensures RunSpec(opts, core) == StdoutRejected <==>
              && ParseSpec(opts).Some?
              && LastOf(opts, 's').Some?
              && LastOf(opts, 't').Some? && LastOf(opts, 't').value.intarg > 1
  {
    if ParseSpec(opts).Some? {
      ParsedSettings(opts);
    }
  }

  /**
   * A refused run has allocated and zeroed its buffer first, and then stops:
   * no thread is created, the start flag is never set, nothing is reported.
   */
  lemma RejectedTrace(opts: seq<Opt>, core: (nat, nat) -> Sample)
    requires ThreadsPositive(opts) && RunSpec(opts, core) == StdoutRejected
    ensures |TraceSpec(opts)| == 2
    ensures TraceSpec(opts)[0].Allocated? && TraceSpec(opts)[1] == Reject
    ensures forall k :: 0 <= k < |TraceSpec(opts)| ==>
              !TraceSpec(opts)[k].Spawn? && TraceSpec(opts)[k] != Release
  {
  }

  /** The inline path is taken exactly when no -t appeared; even -t 1 runs on a thread. */
  lemma InlineIff(opts: seq<Opt>, core: (nat, nat) -> Sample)
    requires ThreadsPositive(opts) && RunSpec(opts, core).Completed?
    ensures RunSpec(opts, core).path == Inline <==> forall k :: 0 <= k < |opts| ==> opts[k].letter != 't'
    ensures RunSpec(opts, core).path == Inline ==> ParseSpec(opts).value.numthreads == 1
  {
    ParsedSettings(opts);
  }

  /**
   * On the threaded path all threads are created, then the start flag is set
   * once, then all threads are joined, each in index order.
   */
  lemma ThreadedTrace(opts: seq<Opt>, core: (nat, nat) -> Sample)
    requires ThreadsPositive(opts) && RunSpec(opts, core).Completed? && RunSpec(opts, core).path == Threaded
    ensures ParseSpec(opts).Some? && ParseSpec(opts).value.numthreads >= 1
    ensures var s := ParseSpec(opts).value;
      var t, n := TraceSpec(opts), s.numthreads as nat;
      && |t| == 2 * n + 2
      && t[0] == Allocated(BufferWords(Clamp(s.numsamples), n))
      && t[n + 1] == Release
      && (forall k :: 0 <= k < |t| && t[k] == Release ==> k == n + 1)
      && forall j :: 0 <= j < n ==> t[1 + j] == Spawn(j) && t[n + 2 + j] == Join(j)
  {
    ThreadedRunSettings(opts, core);
    ThreadedTraceOf(opts);
  }

  /** The same trace, for a parsed, accepted configuration with -t. */
  lemma ThreadedTraceOf(opts: seq<Opt>)
    requires ThreadsPositive(opts) && ParseSpec(opts).Some? && ParseSpec(opts).value.useThreads
    requires !(ParseSpec(opts).value.useStdout && ParseSpec(opts).value.numthreads > 1)
    ensures var s := ParseSpec(opts).value;
      ThreadedShape(TraceSpec(opts), BufferWords(Clamp(s.numsamples), s.numthreads), s.numthreads)
  {
    var s := ParseSpec(opts).value;
    var n: nat := s.numthreads;
    var w := BufferWords(Clamp(s.numsamples), n);
    ThreadedTraceSettings(opts, s);
    ThreadedSteps(TraceSpec(opts), w, n);
  }

  lemma ThreadedTraceSettings(opts: seq<Opt>, s: Settings)
    requires ThreadsPositive(opts) && ParseSpec(opts) == Some(s) && s.useThreads
    requires !(s.useStdout && s.numthreads > 1)
    ensures TraceSpec(opts) == [Allocated(BufferWords(Clamp(s.numsamples), s.numthreads))] +
                         Spawns(s.numthreads) + [Release] + Joins(s.numthreads)
  {
  }

  /** Allocation, n spawns, one release, n joins, in that order. */
  predicate ThreadedShape(t: seq<Step>, w: nat, n: nat)
  {
    && |t| == 2 * n + 2
    && t[0] == Allocated(w)
    && t[n + 1] == Release
    && (forall k :: 0 <= k < |t| && t[k] == Release ==> k == n + 1)
    && forall j :: 0 <= j < n ==> t[1 + j] == Spawn(j) && t[n + 2 + j] == Join(j)
  }

  /** A completed threaded run parsed with -t and was not refused. */
  lemma ThreadedRunSettings(opts: seq<Opt>, core: (nat, nat) -> Sample)
    requires ThreadsPositive(opts) && RunSpec(opts, core).Completed? && RunSpec(opts, core).path == Threaded
    ensures ParseSpec(opts).Some? && ParseSpec(opts).value.useThreads
    ensures !(ParseSpec(opts).value.useStdout && ParseSpec(opts).value.numthreads > 1)
  {
  }

  /** The step list of a threaded run, position by position. */
  lemma ThreadedSteps(t: seq<Step>, w: nat, n: nat)
    requires t == [Allocated(w)] + Spawns(n) + [Release] + Joins(n)
    ensures ThreadedShape(t, w, n)
  {
    forall k | 0 <= k < |t|
      ensures 1 <= k <= n ==> t[k] == Spawn(k - 1)
      ensures n + 2 <= k ==> t[k] == Join(k - n - 2)
    {
      if 1 <= k <= n {
        assert t[k] == Spawns(n)[k - 1];
      } else if n + 2 <= k {
        assert t[k] == Joins(n)[k - n - 2];
      }
    }
    forall j | 0 <= j < n
      ensures t[1 + j] == Spawn(j) && t[n + 2 + j] == Join(j)
    {
      assert t[1 + j] == Spawn(1 + j - 1);
    }
  }

  /**
   * Each per-thread file is named for its thread and holds that thread's
   * recorded counts, with the thread's first timestamp as the zero of time.
   */
  lemma ReportContents(core: (nat, nat) -> Sample, numsamples: nat, numthreads: nat, outname: string)
    ensures forall j :: 0 <= j < numthreads ==>
              var f := OutputSpec(core, numsamples, numthreads, false, outname).files[j];
              && f.name == FileName(outname, j)
              && |f.lines| == numsamples
              && (numsamples > 0 ==> f.lines[0].ticks == 0)
              && forall i :: 0 <= i < numsamples ==> f.lines[i].count == core(j, i).count
  {
    var files := OutputSpec(core, numsamples, numthreads, false, outname).files;
    forall j | 0 <= j < numthreads
      ensures files[j].name == FileName(outname, j) && |files[j].lines| == numsamples
      ensures numsamples > 0 ==> files[j].lines[0].ticks == 0
      ensures forall i :: 0 <= i < numsamples ==> files[j].lines[i].count == core(j, i).count
    {
      var e := Expected(core, numsamples, j);
      assert files[j] == File(FileName(outname, j), e);
      if numsamples > 0 {
        assert e[0] == Line(RelTicks(core(j, 0).timestamp, core(j, 0).timestamp), core(j, 0).count);
      }
    }
  }
}
