/**
 * main: fold the command-line options into the filter configuration, then
 * sample every remaining directory argument in order.
 */
module Cli {
  import opened Wrappers
  import opened Filters
  import opened Sampler

  /** One option as getopt(argc, argv, "hip:") reports it. */
  datatype Opt = Insensitive | Pattern(arg: string) | Help | Unrecognised

  /** The state of option parsing: configured so far, or stopped by -h. */
  datatype Parsed = Usage | Configured(cfg: Config)

  /** The effect of one option, as the switch in main's getopt loop. */
  function Apply(p: Parsed, o: Opt): (r: Parsed)
    ensures r.Usage? <==> p.Usage? || o == Help
    ensures r.Configured? ==> (r.cfg.caseSensitive <==> p.cfg.caseSensitive && o != Insensitive)
    ensures r.Configured? ==> r.cfg.pattern == if o.Pattern? then Some(o.arg) else p.cfg.pattern
  {
    match p
    case Usage => Usage
    case Configured(cfg) =>
      match o
      case Insensitive => Configured(cfg.(caseSensitive := false))
      case Pattern(s) => Configured(cfg.(pattern := Some(s)))
      case Help => Usage
      case Unrecognised => p
  }

  /** The options applied one after another to `p`, first to last. */
  function ApplyAll(p: Parsed, opts: seq<Opt>): (r: Parsed)
    ensures r.Usage? <==> p.Usage? || Help in opts
    decreases |opts|
  {
    if opts == [] then p
    else
      var init := opts[..|opts| - 1];
      assert opts == init + [opts[|opts| - 1]];
      Apply(ApplyAll(p, init), opts[|opts| - 1])
  }

  /** The configuration main builds from its options, starting from the defaults. */
  function Configure(opts: seq<Opt>): (r: Parsed)
    ensures r.Usage? <==> Help in opts
  {
    ApplyAll(Configured(DefaultConfig), opts)
  }

  /** The argument of the last -p, if any. */
  function LastPattern(opts: seq<Opt>): (r: Option<string>)
    ensures r.None? <==> forall i :: 0 <= i < |opts| ==> !opts[i].Pattern?
    ensures r.Some? ==> exists i :: 0 <= i < |opts| && opts[i] == Pattern(r.value) &&
                                    forall j :: i < j < |opts| ==> !opts[j].Pattern?
    decreases |opts|
  {
    if opts == [] then None
    else if opts[|opts| - 1].Pattern? then Some(opts[|opts| - 1].arg)
    else
      var r := LastPattern(opts[..|opts| - 1]);
      LastPatternStep(opts, r);
      r
  }

  /** An option other than -p at the end keeps the last -p of what comes before it. */
  lemma LastPatternStep(opts: seq<Opt>, r: Option<string>)
    requires opts != [] && !opts[|opts| - 1].Pattern?
    requires var init := opts[..|opts| - 1];
             (r.None? <==> forall i :: 0 <= i < |init| ==> !init[i].Pattern?) &&
             (r.Some? ==> exists i :: 0 <= i < |init| && init[i] == Pattern(r.value) &&
                                      forall j :: i < j < |init| ==> !init[j].Pattern?)
    ensures r.None? <==> forall i :: 0 <= i < |opts| ==> !opts[i].Pattern?
    ensures r.Some? ==> exists i :: 0 <= i < |opts| && opts[i] == Pattern(r.value) &&
                                    forall j :: i < j < |opts| ==> !opts[j].Pattern?
  {
    var init := opts[..|opts| - 1];
    assert forall i :: 0 <= i < |init| ==> init[i] == opts[i];
    if r.Some? {
      var i :| 0 <= i < |init| && init[i] == Pattern(r.value) &&
               forall j :: i < j < |init| ==> !init[j].Pattern?;
      assert opts[i] == Pattern(r.value);
      forall j | i < j < |opts| ensures !opts[j].Pattern? {
        if j < |init| {
          assert !init[j].Pattern?;
        }
      }
    } else {
      forall i | 0 <= i < |opts| ensures !opts[i].Pattern? {
        if i < |init| {
          assert !init[i].Pattern?;
        }
      }
    }
  }

  /**
   * What the options mean: -h anywhere stops with usage; otherwise matching
   * is case-sensitive unless some -i was given, and the pattern is the
   * argument of the last -p (none when no -p was given).
   */
  lemma {:induction false} ConfigureMeaning(opts: seq<Opt>)
    ensures Configure(opts).Usage? <==> Help in opts
    ensures Configure(opts).Configured? ==>
              Configure(opts).cfg == Config(LastPattern(opts), Insensitive !in opts)
    decreases |opts|
  {
    if opts != [] {
      var init := opts[..|opts| - 1];
      ConfigureMeaning(init);
      assert opts == init + [opts[|opts| - 1]];
    }
  }

  /** Applying `a` and then `b` is applying `a + b`. */
  lemma {:induction false} ApplyAllAppend(p: Parsed, a: seq<Opt>, b: seq<Opt>)
    ensures ApplyAll(p, a + b) == ApplyAll(ApplyAll(p, a), b)
    decreases |b|
  {
    if b == [] {
      assert a + b == a;
    } else {
      var b' := b[..|b| - 1];
      assert (a + b)[..|a + b| - 1] == a + b';
      ApplyAllAppend(p, a, b');
    }
  }

  /** An unrecognised option, wherever it stands, leaves the configuration unchanged. */
  lemma UnrecognisedIgnored(a: seq<Opt>, b: seq<Opt>)
    ensures Configure(a + [Unrecognised] + b) == Configure(a + b)
  {
    var p := Configured(DefaultConfig);
    ApplyAllAppend(p, a + [Unrecognised], b);
    ApplyAllAppend(p, a, [Unrecognised]);
    ApplyAllAppend(p, a, b);
    assert ApplyAll(ApplyAll(p, a), [Unrecognised]) == Apply(ApplyAll(p, a), Unrecognised);
  }

  /**
   * The getopt loop of main over already tokenised options: -i clears
   * case_sensitive, -p sets filter_string, -h leaves the loop for the usage
   * exit, and anything else is skipped.
   */
  method ParseOptions(opts: seq<Opt>) returns (p: Parsed)
    ensures p == Configure(opts)
    ensures p.Usage? <==> Help in opts
    ensures p.Configured? ==> (p.cfg.caseSensitive <==> Insensitive !in opts)
    ensures p.Configured? ==> p.cfg.pattern == LastPattern(opts)
  {
    var caseSensitive := true;
    var pattern: Option<string> := None;
    var i := 0;
    ConfigureMeaning(opts);
    while i < |opts|
      invariant 0 <= i <= |opts|
      invariant Configure(opts[..i]) == Configured(Config(pattern, caseSensitive))
    {
      assert opts[..i + 1][..i] == opts[..i];
      match opts[i] {
        case Insensitive =>
          caseSensitive := false;
        case Pattern(s) =>
          pattern := Some(s);
        case Help =>
          assert opts[i] in opts;
          return Usage;
        case Unrecognised =>
      }
      i := i + 1;
    }
    assert opts[..i] == opts;
    p := Configured(Config(pattern, caseSensitive));
  }

  /** The raw listing of a directory, or None when it cannot be read. */
  function ListingOf(fs: map<string, seq<Entry>>, dirName: string): (listing: Option<seq<Entry>>)
  {
    if dirName in fs then Some(fs[dirName]) else None
  }

  /** What one directory argument adds to standard output. */
  function OutputOf(dirName: string, fs: map<string, seq<Entry>>, filter: Filter): (out: string)
    ensures out == "" <==> dirName !in fs || forall e :: e in fs[dirName] ==> !Accepts(filter, e)
  {
    SampleLineEmpty(dirName, ListingOf(fs, dirName), filter);
    SampleLineChosen(dirName, ListingOf(fs, dirName), filter);
    match SampleLine(dirName, ListingOf(fs, dirName), filter)
    case None => ""
    case Some(line) => line
  }

  /** The outputs of the directories of `dirs`, written one after another. */
  function ConcatMap(out: string -> string, dirs: seq<string>): (text: string)
    decreases |dirs|
  {
    if dirs == [] then "" else ConcatMap(out, dirs[..|dirs| - 1]) + out(dirs[|dirs| - 1])
  }

  lemma {:induction false} ConcatMapAppend(out: string -> string, a: seq<string>, b: seq<string>)
    ensures ConcatMap(out, a + b) == ConcatMap(out, a) + ConcatMap(out, b)
    decreases |b|
  {
    if b == [] {
      assert a + b == a;
    } else {
      var b' := b[..|b| - 1];
      assert (a + b)[..|a + b| - 1] == a + b';
      assert (a + b)[|a + b| - 1] == b[|b| - 1];
      ConcatMapAppend(out, a, b');
    }
  }

  /** Standard output after sampling every directory of `dirs`, in order. */
  function Samples(dirs: seq<string>, fs: map<string, seq<Entry>>, filter: Filter): (out: string)
  {
    ConcatMap(d => OutputOf(d, fs, filter), dirs)
  }

  /** Output is the concatenation of the per-directory outputs in argument order. */
  lemma SamplesAppend(a: seq<string>, b: seq<string>, fs: map<string, seq<Entry>>, filter: Filter)
    ensures Samples(a + b, fs, filter) == Samples(a, fs, filter) + Samples(b, fs, filter)
  {
    ConcatMapAppend(d => OutputOf(d, fs, filter), a, b);
  }

  /** Sampling one more directory appends its output. */
  lemma SamplesSnoc(dirs: seq<string>, i: int, fs: map<string, seq<Entry>>, filter: Filter)
    requires 0 <= i < |dirs|
    ensures Samples(dirs[..i + 1], fs, filter) == Samples(dirs[..i], fs, filter) + OutputOf(dirs[i], fs, filter)
  {
    assert dirs[..i + 1][..i] == dirs[..i];
  }

  /**
   * A directory that is unreadable or has no accepted entry adds nothing,
   * and the directories after it are still processed.
   */
  lemma SkippedDirectory(a: seq<string>, d: string, b: seq<string>, fs: map<string, seq<Entry>>, filter: Filter)
    requires d !in fs || forall e :: e in fs[d] ==> !Accepts(filter, e)
    ensures Samples(a + [d] + b, fs, filter) == Samples(a + b, fs, filter)
  {
    SampleLineEmpty(d, ListingOf(fs, d), filter);
    SamplesAppend(a + [d], b, fs, filter);
    SamplesAppend(a, [d], fs, filter);
    SamplesAppend(a, b, fs, filter);
    SamplesSnoc([d], 0, fs, filter);
    assert [d][..1] == [d] && [d][..0] == [];
  }

  /** How the program ends: the usage exit of -h, or normal exit after writing `stdout`. */
  datatype Outcome = UsageExit | Printed(stdout: string)

  /**
   * main over pre-tokenised options, the directory arguments left after
   * option parsing, and the file system as a map from directory name to raw
   * listing (a missing name is a directory that cannot be read).
   */
  method Run(opts: seq<Opt>, dirs: seq<string>, fs: map<string, seq<Entry>>) returns (out: Outcome)
    ensures out.UsageExit? <==> Help in opts
    ensures out.Printed? ==>
              Configure(opts).Configured? &&
              out.stdout == Samples(dirs, fs, ByString(Configure(opts).cfg))
  {
    var parsed := ParseOptions(opts);
    if parsed.Usage? {
      return UsageExit;
    }
    var filter := ByString(parsed.cfg);
    var stdout := "";
    for i := 0 to |dirs|
      invariant stdout == Samples(dirs[..i], fs, filter)
    {
      var line := PrintSampleEntry(dirs[i], ListingOf(fs, dirs[i]), filter);
      SamplesSnoc(dirs, i, fs, filter);
      match line {
        case None =>
        case Some(l) =>
          stdout := stdout + l;
      }
    }
    assert dirs[..|dirs|] == dirs;
    out := Printed(stdout);
  }

  /** -h, anywhere among the options, produces no directory output. */
  lemma HelpStops(a: seq<Opt>, b: seq<Opt>)
    ensures Configure(a + [Help] + b) == Usage
  {
  }
}
