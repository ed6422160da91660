# FTQ (Fixed Time Quantum) — sequential core of `main`

FTQ measures operating-system noise. Each measuring thread counts how much fixed work fits into
successive fixed-length quanta and stores one (cycle timestamp, work count) pair per quantum.
This project models the sequential part of `main` in `ftq.c` around that measuring loop, and proves
properties of the model:

* **Run settings.** A record starts from the defaults. A loop applies the option switch to each
  tokenised option, updating the record field by field. Any unhandled letter (including `-h`) ends
  the run in `usage()`.
* **Sample-count clamp.** A count above `MAX_SAMPLES` (2000000) is lowered to `MAX_SAMPLES`.
  Any other count is kept.
* **Sample buffer.** A flat array of `2 * numsamples * numthreads` 64-bit words, zeroed before use.
  Sample `i` of thread `j` keeps its timestamp at `j*numsamples*2 + i*2` and its count in the next word.
  The proofs show every slot is in bounds, distinct slots never collide, and the per-thread regions
  tile the buffer with neither gap nor overlap.
* **Stdout check and path choice.** Single-stream output (`-s`) with more than one thread ends the run
  with failure. This check happens after the buffer is allocated and before any thread exists.
  The run is inline (`ftq_core(0)` with no thread) exactly when no `-t` was given, so even `-t 1`
  runs on a thread.
* **Reporter.** For each thread the reporter gives the lines (timestamp − base, count). Base is that
  thread's first timestamp, and the subtraction wraps as unsigned 64-bit arithmetic does. Each
  thread's lines go to `<outname>_<j>.dat`. The single-stream report reads exactly thread 0's lines.

The measuring loop `ftq_core` is abstract. The run takes a parameter `core`, where `core(j, i)` is
the `i`-th sample thread `j` records, and thread `j` stores it at the slots the reporter reads.
The run's observable order of steps also comes out as a trace: allocate, then either reject, or
create all threads, set the start flag, and join all threads (or, inline, set the flag and run
thread 0).

Files:
- `base.dfy` holds `Option`.
- `options.dfy` holds the settings and the option loop.
- `layout.dfy` holds the buffer's index arithmetic.
- `samples.dfy` holds allocation, zeroing and per-thread stores.
- `names.dfy` holds `%d` output and file names.
- `report.dfy` holds the reporters.
- `ftq.dfy` holds the whole run.

Three points of ftq.c's order and arithmetic are easy to misread:
- The stdout/thread check comes after the buffer is allocated and zeroed (ftq.c:143-159).
- The inline path depends on whether `-t` appeared, not on `numthreads == 1` (ftq.c:99-102, ftq.c:168).
- `-f` does not reject a bad frequency (ftq.c:111-112). For f < −10^9 the quotient `1e9 / f` lies in (−1, 0) and truncates to a quantum of 0 ns. For −10^9 ≤ f ≤ 0 the conversion to `unsigned long long` has no defined value, and the model marks the quantum `Quantum.Undefined`.

## Model

| member | source | states |
|---|---|---|
| Layout.Clamp | ftq.c:137-141 | the count never exceeds MAX_SAMPLES; a count at or below it is unchanged; otherwise it becomes MAX_SAMPLES |
| Layout.RegionStart | ftq.c:240 | the first word of thread j's region, j·numsamples·2: even, and 0 for thread 0 |
| Layout.Slot | ftq.c:243-244 | the index j·numsamples·2 + i·2 (+1 for the count): even for the timestamp, odd for the count, and inside thread j's region when i < numsamples |
| Layout.BufferWords | ftq.c:143 | the buffer has 2·numsamples·numthreads words and every thread's region fits inside it |
| Layout.ByteSizeFits | ftq.c:143 | after the clamp, with an int thread count, the byte size 8·words fits a 64-bit size_t |
| Layout.SlotInBounds | ftq.c:240-244 | both words of every (thread, sample) pair are below the buffer length |
| Layout.SlotInRegion | ftq.c:243-244 | both words of thread j's samples lie in thread j's region |
| Layout.SlotOutsideOtherRegion | ftq.c:243-244 | a slot of one thread never lies in another thread's region (regions are disjoint) |
| Layout.SlotInjective | ftq.c:243-244 | distinct (thread, sample, field) triples map to distinct words |
| Layout.RegionOrder | ftq.c:243 | a later thread's region starts at or after the end of an earlier one |
| Layout.Tiling | ftq.c:143 | regions start at 0, follow one another with no gap, and the last one ends at the buffer's end |
| Layout.LocateIsSlot | ftq.c:240-244 | every buffer word is the slot of some (thread, sample, field) triple, so the layout leaves no gap |
| Options.Defaults | ftq.c:59 | the settings before any option: one thread, inline, per-file output with prefix "ftq", DEFAULT_COUNT samples, DEFAULT_INTERVAL ns; the same settings SettingsFrom reads off an empty option list |
| Options.Interval | ftq.c:109-113 | for f > 0 the quantum is ⌊10^9 / f⌋ ns; for f < −10^9 it is 0 ns (the fraction in (−1, 0) is discarded); for −10^9 ≤ f ≤ 0 it is undefined |
| Options.Apply | ftq.c:98-133 | one pass of the switch continues exactly for the handled letters and ends in usage() for every other letter |
| Options.ParseOptions | ftq.c:76-134 | the option loop, run from the defaults, yields the fold of the switch over the options, or usage() |
| Options.LastOf | ftq.c:98-128 | the last option with a given letter: it is absent iff no option has that letter, and no later option has it |
| Options.CountOf | ftq.c:117-119 | the number of options with a given letter, positive iff some option has it |
| Options.PrefixFailure | ftq.c:129-132 | once usage() is reached, later options cannot revive the run |
| Options.ParseFailsIff | ftq.c:129-132 | the run ends in usage() iff some option letter is unhandled |
| Options.ParsedSettings | ftq.c:98-128 | after parsing, each setting is its last option's value or its default (threads 1, prefix "ftq", DEFAULT_COUNT, DEFAULT_INTERVAL); -w is counted; -t sets the threaded flag |
| Options.InlineIsSingleThread | ftq.c:59 | without the threaded flag the thread count is still its default 1 |
| Options.IgnoreWireIff | ftq.c:117-119 | the wire-failure counter is nonzero iff -w was given at least once |
| Samples.Zero | ftq.c:153 | every word of the buffer is 0 afterwards |
| Samples.Allocate | ftq.c:143-153 | a fresh buffer of exactly BufferWords words, all zero, before any sampling |
| Samples.RecordThread | ftq.c:243-244 | thread j's samples end up at its slots, in order, and nothing outside its region changes |
| Names.Decimal | ftq.c:233 | %d of j: one or more digits with no leading zero; a string starting with '0' is exactly "0", and j = 0 gives "0" |
| Names.FileName | ftq.c:233 | "%s_%d.dat": the prefix, then '_', then Decimal(j), then ".dat" |
| Names.DecimalRoundTrip | ftq.c:233 | reading the digits back gives j |
| Names.DecimalInjective | ftq.c:233 | distinct indices give distinct digit strings |
| Names.FileNameRoundTrip | ftq.c:233 | the name "<outname>_<j>.dat" determines j: it can be parsed back |
| Names.FileNameInjective | ftq.c:233 | distinct threads get distinct file names |
| Report.RelTicks | ftq.c:243 | the time column is the 64-bit wrapping difference: base + r ≡ t (mod 2^64), equal to t − base when t ≥ base, 0 when t = base |
| Report.BaseIndex | ftq.c:240 | numsamples·j·2 is the slot of thread j's first timestamp |
| Report.ThreadLines | ftq.c:240-245 | numsamples lines; the first has relative time 0; each count is copied unchanged from its odd slot; each time, added to the base, gives back its timestamp |
| Report.ThreadLinesFramed | ftq.c:240-245 | thread j's report depends only on thread j's region |
| Report.ThreadReport | ftq.c:240-245 | the reporting loop for thread j yields exactly ThreadLines of the buffer |
| Report.StdoutReport | ftq.c:225-229 | the single-stream loop over samples[i*2], samples[i*2+1] yields exactly thread 0's ThreadLines |
| Report.FileReports | ftq.c:232-247 | one file per thread, thread j's lines under FileName(outname, j) |
| Report.BaseReadAsWrittenIff | ftq.c:240 | the as-written base read is in bounds iff numsamples > 0 |
| Report.ZeroSamplesBaseOutOfBounds | ftq.c:225 | with -n 0 and one thread the as-written base read is out of bounds |
| Ftq.ReportOfRecorded | ftq.c:240-245 | a thread's report reproduces what it recorded, with its first timestamp as zero |
| Ftq.RecordedKept | ftq.c:243-244 | what thread m stored survives thread j's stores |
| Ftq.Measure | ftq.c:168-207 | after the measurement stage every thread's region holds its samples; the steps are spawn all, release, join all (or release, run inline) |
| Ftq.Emit | ftq.c:223-248 | the report stage emits thread 0's lines on stdout, or one file per thread |
| Ftq.Run | ftq.c:54-254 | the whole run's outcome and step trace equal RunSpec and TraceSpec |
| Ftq.RejectedIff | ftq.c:155-159 | the run is refused iff -s was given and the last -t asked for more than one thread |
| Ftq.RejectedTrace | ftq.c:143-159 | a refused run has allocated first, then stops: no thread, no start flag, no report |
| Ftq.InlineIff | ftq.c:168 | the inline path is taken iff no -t appeared, and then there is one thread |
| Ftq.ThreadedTrace | ftq.c:143-197 | threaded: allocate, create threads 0..n-1, set the start flag at exactly one point, join threads 0..n-1 |
| Ftq.ReportContents | ftq.c:232-245 | each file is named for its thread, has numsamples lines starting at time 0, and carries the recorded counts (that the stdout report reads thread 0's pairs is Report.StdoutReport's ensures) |

## Findings

| source | as written | input that shows it | evidently intended | confidence | as-written member | corrected member |
|---|---|---|---|---|---|---|
| ftq.c:225, ftq.c:240 | the base `samples[0]` / `samples[numsamples*j*2]` is read before the sample loop, even when the loop prints nothing | `-n 0` (or any `-n` text atoi reads as 0): the buffer has 0 words, and the reporter still reads word 0 | read the base only when there is at least one sample | not executed; low — glibc's malloc(0) returns a small block, so the read is undefined behaviour rather than a visible crash | Report.ZeroSamplesBaseOutOfBounds | Report.ThreadReport |

The corrected reporters (`Report.ThreadReport`, `Report.StdoutReport`) read the base only when
`numsamples > 0`, and every read they make is proved in bounds.

## Left out

- `ftq_core`, the per-quantum sampling loop and its `ITERCOUNT` grain: ftqcore.c is not part of this model. It is replaced by the parameter `core`, and `Samples.RecordThread` assumes each thread stores sample `i` at the slots the reporter reads.
- Ftq.Measure: the threads run concurrently in the source; the model runs their stores one thread after another and keeps only the order "create all, set the start flag, join all". The `volatile hounds` flag, `pthread_create`/`pthread_join` failures, `threadinit` failure and `pthread_exit` versus `exit` are not modelled.
- Samples.Allocate: the `mmap` call, its `MAP_LOCKED`/`MAP_POPULATE` flags, the `malloc` fallback and allocation failure are OS memory plumbing; allocation is assumed to succeed.
- Floating point: the `nspercycle` scaling of the time column is not modelled; a `Report.Line` holds the unscaled tick difference. Also left out: the `1e9 / interval` header values, the `-T` value (kept only as its text), `compute_ticksperns` and the elapsed-time prints.
- Options.Interval: for −10^9 ≤ f ≤ 0 the C conversion of `1e9 / f` (+∞ at f = 0, ≤ −1 otherwise) to `unsigned long long` is undefined. The model marks that quantum `Undefined` instead of guessing a value.
- `getopt_long` and `atoi`: options arrive tokenised. Each carries its letter, its argument text and atoi's value. The long-option table, which declares every long option as taking no argument, is not modelled.
- The `-n` value is stored into `unsigned long` modulo 2^64; a 64-bit `unsigned long` is assumed.
- Defaults: `numsamples` and `interval` are defined in ftqcore.c, which is not part of this model. They are taken to start at `DEFAULT_COUNT` and `DEFAULT_INTERVAL` from ftq.h. `ticksperns` and `test_argument` are taken to start unset.
- `usage` text, `header`, `osinfo`, every `fprintf`, and `fopen` and its failure exit are output formatting and I/O.
- The OS hooks `nsec`, `getticks`, `wireme`, `threadinit`, `set_sched_realtime` and `get_num_cores` are platform code outside the model.
- The fixed-size `outname` and `fname` arrays and a possible `sprintf` overflow: strings are unbounded.
- Ftq.Run: requires the parsed thread count to be at least 1. A non-positive `-t` value is not modelled.
- `-r` and `-a` are recorded in the settings only; what ftq_core does with them is not modelled. The `-w` counter is an unbounded count, so int overflow is not modelled.
