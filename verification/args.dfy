/**
  The `parseArgs` functions of the two tools. Both walk the argument list
  left to right with one `switch`: a value flag takes the next argument
  (`args[++i]`, which is `undefined` past the end) and the walk resumes
  after it; `--help` stops the process with status 0; anything else is
  skipped. The tools differ only in the flags they recognise and in which
  options they require afterwards.
 */
module Args {
  import opened Results

  datatype Tool = Validator | Renderer

  datatype Flag = TemplateFlag | DataFlag | OutputFlag | AllFlag | HelpFlag

  /** The `case` labels of each tool's `switch`. */
  function Recognise(tool: Tool, arg: string): (f: Option<Flag>)
    ensures f == Some(TemplateFlag) <==> arg == "--template" || arg == "-t"
    ensures f == Some(HelpFlag) <==> arg == "--help" || arg == "-h"
    ensures f == Some(AllFlag) <==> tool == Validator && (arg == "--all" || arg == "-a")
    ensures f == Some(DataFlag) <==> tool == Renderer && (arg == "--data" || arg == "-d")
    ensures f == Some(OutputFlag) <==> tool == Renderer && (arg == "--output" || arg == "-o")
  {
    if arg == "--template" || arg == "-t" then Some(TemplateFlag)
    else if arg == "--help" || arg == "-h" then Some(HelpFlag)
    else if tool == Validator && (arg == "--all" || arg == "-a") then Some(AllFlag)
    else if tool == Renderer && (arg == "--data" || arg == "-d") then Some(DataFlag)
    else if tool == Renderer && (arg == "--output" || arg == "-o") then Some(OutputFlag)
    else None
  }

  /** The flags whose `case` reads `args[++i]`. */
  predicate TakesValue(f: Flag) {
    f == TemplateFlag || f == DataFlag || f == OutputFlag
  }

  /** The options object; `None` is a property never set or set to `undefined`. */
  datatype Options = Options(template: Option<string>, data: Option<string>, output: Option<string>, all: bool)

  /** `const options = {}`. */
  const NoOptions := Options(None, None, None, false)

  /** JavaScript truthiness of an optional string: set, and not the empty string. */
  predicate Given(v: Option<string>) {
    v.Some? && v.value != ""
  }

  /** The assignment a value flag performs. */
  function Assign(o: Options, f: Flag, v: Option<string>): (o': Options)
    requires TakesValue(f)
  {
    match f
    case TemplateFlag => o.(template := v)
    case DataFlag => o.(data := v)
    case OutputFlag => o.(output := v)
  }

  /** Where the walk ends: with the options built, or at a help flag. */
  datatype Scanned = Scanned(options: Options) | HelpRequested

  /**
    The `for` loop over `args`, starting from the options `o`. The walk stops
    only at a help flag; `all` is switched on only by a validator `--all`;
    each tool leaves alone the options it has no flag for.
   */
  function ScanArgs(tool: Tool, args: seq<string>, o: Options): (s: Scanned)
    ensures s == HelpRequested ==> exists i :: 0 <= i < |args| && (args[i] == "--help" || args[i] == "-h")
    ensures s.Scanned? && s.options.all && !o.all
            ==> tool == Validator && exists i :: 0 <= i < |args| && (args[i] == "--all" || args[i] == "-a")
    ensures s.Scanned? && tool == Validator ==> s.options.data == o.data && s.options.output == o.output
    ensures s.Scanned? && tool == Renderer ==> s.options.all == o.all
    decreases |args|
  {
    if |args| == 0 then Scanned(o)
    else
      match Recognise(tool, args[0])
      case None => ScanArgs(tool, args[1..], o)
      case Some(HelpFlag) => HelpRequested
      case Some(AllFlag) => ScanArgs(tool, args[1..], o.(all := true))
      case Some(f) =>
        if |args| == 1 then Scanned(Assign(o, f, None))
        else ScanArgs(tool, args[2..], Assign(o, f, Some(args[1])))
  }

  /** What `parseArgs` yields: the options to go on with, or the status `process.exit` is called with. */
  datatype Parsed = Proceed(options: Options) | Exit(code: int)

  /** The validator's `parseArgs`: `--template` or `--all` is required. */
  function ParseValidatorArgs(args: seq<string>): (p: Parsed)
    ensures p == Exit(0) <==> ScanArgs(Validator, args, NoOptions) == HelpRequested
    ensures p == Exit(1) <==> ScanArgs(Validator, args, NoOptions).Scanned?
                              && !Given(ScanArgs(Validator, args, NoOptions).options.template)
                              && !ScanArgs(Validator, args, NoOptions).options.all
    ensures p.Proceed? ==> Given(p.options.template) || p.options.all
    ensures ScanArgs(Validator, args, NoOptions).Scanned?
            && (Given(ScanArgs(Validator, args, NoOptions).options.template) || ScanArgs(Validator, args, NoOptions).options.all)
            ==> p == Proceed(ScanArgs(Validator, args, NoOptions).options)
  {
    match ScanArgs(Validator, args, NoOptions)
    case HelpRequested => Exit(0)
    case Scanned(o) => if !Given(o.template) && !o.all then Exit(1) else Proceed(o)
  }

  /** The renderer's `parseArgs`: `--template` and `--data` are both required. */
  function ParseRendererArgs(args: seq<string>): (p: Parsed)
    ensures p == Exit(0) <==> ScanArgs(Renderer, args, NoOptions) == HelpRequested
    ensures p == Exit(1) <==> ScanArgs(Renderer, args, NoOptions).Scanned?
                              && (!Given(ScanArgs(Renderer, args, NoOptions).options.template)
                                  || !Given(ScanArgs(Renderer, args, NoOptions).options.data))
    ensures p.Proceed? ==> Given(p.options.template) && Given(p.options.data)
    ensures ScanArgs(Renderer, args, NoOptions).Scanned?
            && Given(ScanArgs(Renderer, args, NoOptions).options.template)
            && Given(ScanArgs(Renderer, args, NoOptions).options.data)
            ==> p == Proceed(ScanArgs(Renderer, args, NoOptions).options)
  {
    match ScanArgs(Renderer, args, NoOptions)
    case HelpRequested => Exit(0)
    case Scanned(o) => if !Given(o.template) || !Given(o.data) then Exit(1) else Proceed(o)
  }

  /**
    The walk over `args` ends exactly at its last element: no value flag in
    it reaches for an argument past the end.
   */
  predicate EndsOnBoundary(tool: Tool, args: seq<string>)
    decreases |args|
  {
    if |args| == 0 then true
    else match Recognise(tool, args[0])
      case Some(f) =>
        if TakesValue(f) then |args| >= 2 && EndsOnBoundary(tool, args[2..])
        else EndsOnBoundary(tool, args[1..])
      case None => EndsOnBoundary(tool, args[1..])
  }

  /** Continues a walk that has not stopped at a help flag. */
  function Resume(tool: Tool, s: Scanned, rest: seq<string>): Scanned {
    match s
    case HelpRequested => HelpRequested
    case Scanned(o) => ScanArgs(tool, rest, o)
  }

  /** Walking `a + b` is walking `a`, then `b` from where it left off. */
  lemma {:induction false} ScanAppend(tool: Tool, a: seq<string>, b: seq<string>, o: Options)
    requires EndsOnBoundary(tool, a)
    ensures ScanArgs(tool, a + b, o) == Resume(tool, ScanArgs(tool, a, o), b)
    decreases |a|
  {
    if |a| == 0 {
      assert a + b == b;
    } else {
      assert (a + b)[0] == a[0];
      match Recognise(tool, a[0])
      case None =>
        assert (a + b)[1..] == a[1..] + b;
        ScanAppend(tool, a[1..], b, o);
      case Some(HelpFlag) =>
      case Some(AllFlag) =>
        assert (a + b)[1..] == a[1..] + b;
        ScanAppend(tool, a[1..], b, o.(all := true));
      case Some(f) =>
        assert (a + b)[1] == a[1];
        assert (a + b)[2..] == a[2..] + b;
        ScanAppend(tool, a[2..], b, Assign(o, f, Some(a[1])));
    }
  }

  /**
    A later occurrence of a value flag overrides whatever earlier arguments
    set, and leaves the other options as they were.
   */
  lemma LaterFlagWins(tool: Tool, a: seq<string>, flag: string, v: string, o: Options)
    requires EndsOnBoundary(tool, a) && ScanArgs(tool, a, o).Scanned?
    requires Recognise(tool, flag).Some? && TakesValue(Recognise(tool, flag).value)
    ensures ScanArgs(tool, a + [flag, v], o)
         == Scanned(Assign(ScanArgs(tool, a, o).options, Recognise(tool, flag).value, Some(v)))
  {
    ScanAppend(tool, a, [flag, v], o);
    var f := Recognise(tool, flag).value;
    var o' := ScanArgs(tool, a, o).options;
    assert [flag, v][0] == flag && [flag, v][1] == v && [flag, v][2..] == [];
    assert ScanArgs(tool, [flag, v], o') == ScanArgs(tool, [], Assign(o', f, Some(v)));
  }

  /** A value flag given as the last argument leaves its option `undefined`. */
  lemma DanglingFlagUnsets(tool: Tool, a: seq<string>, flag: string, o: Options)
    requires EndsOnBoundary(tool, a) && ScanArgs(tool, a, o).Scanned?
    requires Recognise(tool, flag).Some? && TakesValue(Recognise(tool, flag).value)
    ensures ScanArgs(tool, a + [flag], o)
         == Scanned(Assign(ScanArgs(tool, a, o).options, Recognise(tool, flag).value, None))
  {
    ScanAppend(tool, a, [flag], o);
  }

  /** An argument no `case` names is skipped. */
  lemma UnknownArgumentSkipped(tool: Tool, x: string, b: seq<string>, o: Options)
    requires Recognise(tool, x).None?
    ensures ScanArgs(tool, [x] + b, o) == ScanArgs(tool, b, o)
  {
    assert ([x] + b)[1..] == b;
  }

  /**
    The renderer treats a trailing `--template` or `--data`, and one given
    the empty string, as missing: the walk's last word on that option leaves
    it falsy, and the parser exits with status 1.
   */
  lemma RendererMissingValueExits(a: seq<string>, flag: string, v: Option<string>)
    requires EndsOnBoundary(Renderer, a) && ScanArgs(Renderer, a, NoOptions).Scanned?
    requires Recognise(Renderer, flag) in {Some(TemplateFlag), Some(DataFlag)}
    requires v == None || v == Some("")
    ensures ParseRendererArgs(a + [flag] + (if v.Some? then [v.value] else [])) == Exit(1)
  {
    if v.Some? {
      LaterFlagWins(Renderer, a, flag, v.value, NoOptions);
      assert a + [flag] + [v.value] == a + [flag, v.value];
    } else {
      DanglingFlagUnsets(Renderer, a, flag, NoOptions);
      assert a + [flag] + [] == a + [flag];
    }
  }

  /**
    A help flag reached by the walk ends it: whatever follows is never
    looked at, and the tool exits with status 0.
   */
  lemma HelpEndsWalk(tool: Tool, a: seq<string>, h: string, b: seq<string>, o: Options)
    requires EndsOnBoundary(tool, a) && ScanArgs(tool, a, o).Scanned?
    requires h == "--help" || h == "-h"
    ensures ScanArgs(tool, a + [h] + b, o) == HelpRequested
  {
    assert a + [h] + b == a + ([h] + b);
    ScanAppend(tool, a, [h] + b, o);
    assert ([h] + b)[0] == h;
  }

  /**
    The validator's `--all` sets `all` and the walk carries on from the next
    argument with every other option as it was.
   */
  lemma AllFlagSetsAll(a: seq<string>, f: string, b: seq<string>, o: Options)
    requires EndsOnBoundary(Validator, a) && ScanArgs(Validator, a, o).Scanned?
    requires f == "--all" || f == "-a"
    ensures ScanArgs(Validator, a + [f] + b, o)
         == ScanArgs(Validator, b, ScanArgs(Validator, a, o).options.(all := true))
  {
    assert a + [f] + b == a + ([f] + b);
    ScanAppend(Validator, a, [f] + b, o);
    assert ([f] + b)[0] == f && ([f] + b)[1..] == b;
  }

  /** `--all` as the last argument: the walk ends with `all` set and nothing else changed. */
  lemma TrailingAllSetsAll(a: seq<string>, f: string, o: Options)
    requires EndsOnBoundary(Validator, a) && ScanArgs(Validator, a, o).Scanned?
    requires f == "--all" || f == "-a"
    ensures ScanArgs(Validator, a + [f], o) == Scanned(ScanArgs(Validator, a, o).options.(all := true))
  {
    AllFlagSetsAll(a, f, [], o);
    assert a + [f] + [] == a + [f];
  }

  /** Command lines that stop or proceed on their own: help alone, `--all` alone. */
  lemma ParseExamples()
    ensures ParseValidatorArgs(["--all"]) == Proceed(NoOptions.(all := true))
    ensures ParseValidatorArgs(["-a", "--help"]) == Exit(0)
    ensures ParseValidatorArgs([]) == Exit(1)
    ensures ParseRendererArgs(["-h"]) == Exit(0)
    ensures ParseRendererArgs(["-t", "a.hbs", "--help", "-d", "b.yaml"]) == Exit(0)
  {
    TrailingAllSetsAll([], "--all", NoOptions);
    assert [] + ["--all"] == ["--all"];
    HelpEndsWalk(Validator, ["-a"], "--help", [], NoOptions);
    assert ["-a"] + ["--help"] + [] == ["-a", "--help"];
    HelpEndsWalk(Renderer, [], "-h", [], NoOptions);
    assert [] + ["-h"] + [] == ["-h"];
    HelpEndsWalk(Renderer, ["-t", "a.hbs"], "--help", ["-d", "b.yaml"], NoOptions);
    assert ["-t", "a.hbs"] + ["--help"] + ["-d", "b.yaml"] == ["-t", "a.hbs", "--help", "-d", "b.yaml"];
  }
}
