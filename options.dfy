/**
 * The run settings of ftq and the effect of each command-line option on them.
 * Options arrive already tokenised: a letter, its argument text, and the
 * number atoi makes of that text.
 */
module Options {
  import opened Base

  /** Default per-thread sample count (DEFAULT_COUNT). */
  const DEFAULT_COUNT: nat := 524288
  /** Default quantum length in nanoseconds (DEFAULT_INTERVAL). */
  const DEFAULT_INTERVAL: nat := 100000
  /** Default prefix of the per-thread output files. */
  const DEFAULT_OUTNAME: string := "ftq"

  /** One tokenised option: its letter, its argument, and atoi of that argument. */
  datatype Opt = Opt(letter: char, optarg: string, intarg: int)

  /** The quantum in nanoseconds, or Undefined where 1e9 / f has no unsigned value (-10^9 <= f <= 0). */
  datatype Quantum = Ns(ns: nat) | Undefined

  /** numsamples is a 64-bit unsigned long: an int stored into it wraps modulo TWO_TO_64. */
  datatype Settings = Settings(
    numthreads: int,
    useThreads: bool,
    useStdout: bool,
    outname: string,
    interval: Quantum,
    numsamples: nat,
    ignoreWireFailures: nat,
    ticksperns: Option<string>,   // the text given to -T, if any
    setRealtime: bool,
    testArgument: Option<string>)

  /** The settings before the option loop: every setting at its default. */
  function Defaults(): (d: Settings)
    ensures d == SettingsFrom([])
  {
    Settings(1, false, false, DEFAULT_OUTNAME, Ns(DEFAULT_INTERVAL), DEFAULT_COUNT, 0, None, false, None)
  }

  /** The letters the option switch handles; any other letter (and 'h') ends in usage(). */
  predicate Recognised(c: char)
  {
    c in "tsofnwTra"
  }

  /**
   * The quantum for a requested sampling frequency: (unsigned long long)(1e9 / f).
   * The conversion discards the fraction, so a quotient in (-1, 0) gives 0;
   * a quotient of -1 or below, or the infinity of f = 0, has no unsigned value.
   */
  function Interval(frequency: int): (q: Quantum)
    ensures frequency > 0 ==> q.Ns? && q.ns * frequency <= 1000000000 < (q.ns + 1) * frequency
    ensures frequency < -1000000000 ==> q == Ns(0)
    ensures -1000000000 <= frequency <= 0 ==> q == Undefined
  {
    if frequency > 0 then Ns(1000000000 / frequency)
    else if frequency < -1000000000 then Ns(0)
    else Undefined
  }

  /** One pass of the option switch: the new settings, or None when usage() ends the run. */
  function Apply(s: Settings, o: Opt): (r: Option<Settings>)
    ensures r.Some? <==> Recognised(o.letter)
  {
    match o.letter
    case 't' => Some(s.(numthreads := o.intarg, useThreads := true))
    case 's' => Some(s.(useStdout := true))
    case 'o' => Some(s.(outname := o.optarg))
    case 'f' => Some(s.(interval := Interval(o.intarg)))
    case 'n' => Some(s.(numsamples := o.intarg % TWO_TO_64))
    case 'w' => Some(s.(ignoreWireFailures := s.ignoreWireFailures + 1))
    case 'T' => Some(s.(ticksperns := Some(o.optarg)))
    case 'r' => Some(s.(setRealtime := true))
    case 'a' => Some(s.(testArgument := Some(o.optarg)))
    case _ => None
  }

  /** The settings after the whole option loop, starting from the defaults. */
  function ParseSpec(opts: seq<Opt>): Option<Settings>
    decreases |opts|
  {
    if opts == [] then Some(Defaults())
    else
      match ParseSpec(opts[..|opts| - 1])
      case None => None
      case Some(s) => Apply(s, opts[|opts| - 1])
  }

  /** The last option with letter c, if any. */
  function LastOf(opts: seq<Opt>, c: char): (r: Option<Opt>)
    ensures r.None? <==> forall k :: 0 <= k < |opts| ==> opts[k].letter != c
    ensures r.Some? ==>
              && r.value.letter == c
              && exists k :: 0 <= k < |opts| && opts[k] == r.value &&
                   forall m :: k < m < |opts| ==> opts[m].letter != c
    decreases |opts|
  {
    if opts == [] then None
    else if opts[|opts| - 1].letter == c then Some(opts[|opts| - 1])
    else
      var p := opts[..|opts| - 1];
      var r := LastOf(p, c);
      assert forall k :: 0 <= k < |p| ==> p[k] == opts[k];
      assert r.Some? ==> exists k :: 0 <= k < |opts| && opts[k] == r.value &&
                           forall m :: k < m < |opts| ==> opts[m].letter != c by {
        if r.Some? {
          var k :| 0 <= k < |p| && p[k] == r.value && forall m :: k < m < |p| ==> p[m].letter != c;
          assert opts[k] == r.value;
        }
      }
      r
  }

  /** How many options carry letter c. */
  function CountOf(opts: seq<Opt>, c: char): (n: nat)
    ensures n <= |opts|
    ensures n > 0 <==> exists k :: 0 <= k < |opts| && opts[k].letter == c
    decreases |opts|
  {
    if opts == [] then 0
    else
      var n := CountOf(opts[..|opts| - 1], c);
      assert forall k :: 0 <= k < |opts| - 1 ==> opts[..|opts| - 1][k] == opts[k];
      n + if opts[|opts| - 1].letter == c then 1 else 0
  }

  /** Once usage() has been reached, later options change nothing. */
  lemma {:induction false} PrefixFailure(opts: seq<Opt>, n: nat)
    requires n <= |opts| && ParseSpec(opts[..n]).None?
    ensures ParseSpec(opts).None?
    decreases |opts| - n
  {
    if n < |opts| {
      assert opts[..n + 1][..n] == opts[..n];
      PrefixFailure(opts, n + 1);
    } else {
      assert opts[..n] == opts;
    }
  }

  /** The option loop: a switch on each letter, updating the settings in place. */
  method ParseOptions(opts: seq<Opt>) returns (r: Option<Settings>)
    ensures r == ParseSpec(opts)
  {
    var s := Defaults();
    var k := 0;
    while k < |opts|
      invariant 0 <= k <= |opts|
      invariant ParseSpec(opts[..k]) == Some(s)
    {
      var o := opts[k];
      assert opts[..k + 1][..k] == opts[..k] && opts[..k + 1][k] == o;
      match o.letter {
        case 't' =>
          s := s.(numthreads := o.intarg);
          s := s.(useThreads := true);
        case 's' => s := s.(useStdout := true);
        case 'o' => s := s.(outname := o.optarg);
        case 'f' => s := s.(interval := Interval(o.intarg));
        case 'n' => s := s.(numsamples := o.intarg % TWO_TO_64);
        case 'w' => s := s.(ignoreWireFailures := s.ignoreWireFailures + 1);
        case 'T' => s := s.(ticksperns := Some(o.optarg));
        case 'r' => s := s.(setRealtime := true);
        case 'a' => s := s.(testArgument := Some(o.optarg));
        case _ =>
          PrefixFailure(opts, k + 1);
          return None;
      }
      k := k + 1;
    }
    assert opts[..k] == opts;
    r := Some(s);
  }

  /** The run ends in usage() exactly when some option letter is not handled by the switch. */
  lemma {:induction false} ParseFailsIff(opts: seq<Opt>)
    ensures ParseSpec(opts).None? <==> exists k :: 0 <= k < |opts| && !Recognised(opts[k].letter)
    decreases |opts|
  {
    if opts != [] {
      var p := opts[..|opts| - 1];
      ParseFailsIff(p);
      assert forall k :: 0 <= k < |p| ==> p[k] == opts[k];
      if ParseSpec(p).None? {
        var k :| 0 <= k < |p| && !Recognised(p[k].letter);
        assert !Recognised(opts[k].letter);
      }
    }
  }

  /**
   * The settings read off the option list directly: every setting holds what
   * its last option gave, or its default; the wire-failure counter is the
   * number of -w options.
   */
  function SettingsFrom(opts: seq<Opt>): Settings
  {
    Settings(
      numthreads := match LastOf(opts, 't') case None => 1 case Some(o) => o.intarg,
      useThreads := LastOf(opts, 't').Some?,
      useStdout := LastOf(opts, 's').Some?,
      outname := match LastOf(opts, 'o') case None => DEFAULT_OUTNAME case Some(o) => o.optarg,
      interval := match LastOf(opts, 'f') case None => Ns(DEFAULT_INTERVAL) case Some(o) => Interval(o.intarg),
      numsamples := match LastOf(opts, 'n') case None => DEFAULT_COUNT case Some(o) => o.intarg % TWO_TO_64,
      ignoreWireFailures := CountOf(opts, 'w'),
      ticksperns := match LastOf(opts, 'T') case None => None case Some(o) => Some(o.optarg),
      setRealtime := LastOf(opts, 'r').Some?,
      testArgument := match LastOf(opts, 'a') case None => None case Some(o) => Some(o.optarg))
  }

  /** A successful run of the option loop yields exactly the settings read off the list. */
  lemma {:induction false} ParsedSettings(opts: seq<Opt>)
    requires ParseSpec(opts).Some?
    ensures ParseSpec(opts) == Some(SettingsFrom(opts))
    decreases |opts|
  {
    if opts != [] {
      var p, o := opts[..|opts| - 1], opts[|opts| - 1];
      ParsedSettings(p);
      var before := SettingsFrom(p);
      assert ParseSpec(opts) == Apply(before, o);
      var after := SettingsFrom(opts);
      match o.letter {
        case 't' => assert after == before.(numthreads := o.intarg, useThreads := true);
        case 's' => assert after == before.(useStdout := true);
        case 'o' => assert after == before.(outname := o.optarg);
        case 'f' => assert after == before.(interval := Interval(o.intarg));
        case 'n' => assert after == before.(numsamples := o.intarg % TWO_TO_64);
        case 'w' => assert after == before.(ignoreWireFailures := before.ignoreWireFailures + 1);
        case 'T' => assert after == before.(ticksperns := Some(o.optarg));
        case 'r' => assert after == before.(setRealtime := true);
        case 'a' => assert after == before.(testArgument := Some(o.optarg));
      }
    }
  }

  /** Without -t the thread count keeps its default of one. */
  lemma InlineIsSingleThread(opts: seq<Opt>)
    requires ParseSpec(opts).Some? && !ParseSpec(opts).value.useThreads
    ensures ParseSpec(opts).value.numthreads == 1
  {
    ParsedSettings(opts);
  }

  /** The wire-failure counter is nonzero exactly when -w was given at least once. */
  lemma IgnoreWireIff(opts: seq<Opt>)
    requires ParseSpec(opts).Some?
    ensures ParseSpec(opts).value.ignoreWireFailures > 0 <==> exists k :: 0 <= k < |opts| && opts[k].letter == 'w'
  {
    ParsedSettings(opts);
  }
}
