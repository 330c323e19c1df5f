/**
  The renderer (`RenderTemplate.ts`): loading the template and the data,
  and the `main` that turns arguments into rendered text, a destination and
  an exit status. Everything `main` does sits inside one `try`, so every
  thrown error ends the run with status 1.
 */
module Render {
  import opened Results
  import opened Text
  import opened Paths
  import opened Library
  import opened Args

  /** The errors that reach `main`'s `catch`; the message texts are left out. */
  datatype Failure =
    | TemplateMissing(id: string)
    | ReadFailed(path: string, message: string)
    | CompileFailed(message: string)
    | DataNotFound(path: string)
    | DataParseFailed(message: string)
    | EvaluationFailed(message: string)

  /**
    `loadTemplate(id)`: resolve the identifier, read the file and compile it.
    The compiled template is identified by the text it was compiled from.
   */
  function LoadTemplate(h: Host, e: Engine, id: string): (r: Result<string, Failure>)
    ensures ResolveTemplatePath(h, id).Err? ==> r == Err(TemplateMissing(id))
    ensures r.Ok? <==> ResolveTemplatePath(h, id).Ok?
                       && h.readFile(ResolveTemplatePath(h, id).value).Ok?
                       && e.compile(h.readFile(ResolveTemplatePath(h, id).value).value).Compiles?
    ensures r.Ok? ==> r.value == h.readFile(ResolveTemplatePath(h, id).value).value
  {
    match ResolveTemplatePath(h, id)
    case Err(nf) => Err(TemplateMissing(nf.id))
    case Ok(path) =>
      match h.readFile(path)
      case Err(message) => Err(ReadFailed(path, message))
      case Ok(text) =>
        match e.compile(text)
        case CompileError(message) => Err(CompileFailed(message))
        case Compiles => Ok(text)
  }

  /**
    `loadData(path)`: the data path is used exactly as given. A path that
    does not exist is a "data file not found" error; otherwise the file is
    read and parsed. The document is identified by the text it was parsed
    from.
   */
  function LoadData(h: Host, e: Engine, path: string): (r: Result<string, Failure>)
    ensures r == Err(DataNotFound(path)) <==> !h.fileExists(path)
    ensures r.Ok? <==> h.fileExists(path) && h.readFile(path).Ok? && e.parseError(h.readFile(path).value).None?
    ensures r.Ok? ==> r.value == h.readFile(path).value
  {
    if !h.fileExists(path) then Err(DataNotFound(path))
    else
      match h.readFile(path)
      case Err(message) => Err(ReadFailed(path, message))
      case Ok(text) =>
        match e.parseError(text)
        case Some(message) => Err(DataParseFailed(message))
        case None => Ok(text)
  }

  /** Where the rendered text goes: the `--output` file when one is given, otherwise standard output. */
  datatype Destination = ToFile(path: string) | ToStdout

  function DestinationOf(o: Options): (d: Destination)
    ensures d.ToFile? <==> Given(o.output)
    ensures d.ToFile? ==> d.path == o.output.value
  {
    if Given(o.output) then ToFile(o.output.value) else ToStdout
  }

  /** A renderer run: stopped by the argument parser, failed in the `try`, or rendered. */
  datatype Outcome = Halted(code: int) | Failed(why: Failure) | Rendered(text: string, destination: Destination)

  /** The status the process ends with. */
  function ExitCode(run: Outcome): (code: int)
    ensures code == 0 <==> run.Rendered? || run == Halted(0)
  {
    match run
    case Halted(code) => code
    case Failed(_) => 1
    case Rendered(_, _) => 0
  }

  /** The renderer's `main`: parse, load the template, load the data, evaluate, choose the destination. */
  function RenderMain(args: seq<string>, h: Host, e: Engine): (run: Outcome)
    ensures run.Halted? <==> ParseRendererArgs(args).Exit?
    ensures run.Halted? ==> run.code == ParseRendererArgs(args).code
  {
    match ParseRendererArgs(args)
    case Exit(code) => Halted(code)
    case Proceed(o) =>
      match LoadTemplate(h, e, o.template.value)
      case Err(why) => Failed(why)
      case Ok(template) =>
        match LoadData(h, e, o.data.value)
        case Err(why) => Failed(why)
        case Ok(data) =>
          match e.evaluate(template, data)
          case Err(message) => Failed(EvaluationFailed(message))
          case Ok(text) => Rendered(text, DestinationOf(o))
  }

  /**
    A run the argument parser stops (help, or a missing `--template` or
    `--data`) ends the same way on every machine and with every library:
    no file is looked at before the options are complete.
   */
  lemma ParserStopsBeforeFilesystem(args: seq<string>, h1: Host, h2: Host, e1: Engine, e2: Engine)
    requires ParseRendererArgs(args).Exit?
    ensures RenderMain(args, h1, e1) == RenderMain(args, h2, e2) == Halted(ParseRendererArgs(args).code)
    ensures ExitCode(RenderMain(args, h1, e1)) == ParseRendererArgs(args).code
  {
  }

  /**
    Once the template loads, the data path is checked exactly as given: the
    run fails with "data file not found" if and only if nothing exists at
    that path, whatever exists under the templates directory.
   */
  lemma DataPathHasNoFallback(args: seq<string>, h: Host, e: Engine)
    requires ParseRendererArgs(args).Proceed?
    requires LoadTemplate(h, e, ParseRendererArgs(args).options.template.value).Ok?
    ensures var d := ParseRendererArgs(args).options.data.value;
      RenderMain(args, h, e) == Failed(DataNotFound(d)) <==> !h.fileExists(d)
  {
  }

  /**
    A template that cannot be found is reported before anything about the
    data: the run fails naming the template identifier even when the data
    file is missing too.
   */
  lemma TemplateCheckedFirst(args: seq<string>, h: Host, e: Engine)
    requires ParseRendererArgs(args).Proceed?
    requires ResolveTemplatePath(h, ParseRendererArgs(args).options.template.value).Err?
    ensures RenderMain(args, h, e) == Failed(TemplateMissing(ParseRendererArgs(args).options.template.value))
    ensures ExitCode(RenderMain(args, h, e)) == 1
  {
  }

  /**
    A rendered run had complete options, a template that resolved, read and
    compiled, an existing data file that read and parsed, and an evaluation
    that produced exactly the text; the text goes to the `--output` file if
    and only if one was given.
   */
  lemma RenderedMeansEverythingLoaded(args: seq<string>, h: Host, e: Engine)
    requires RenderMain(args, h, e).Rendered?
    ensures var run := RenderMain(args, h, e);
      && ParseRendererArgs(args).Proceed?
      && var o := ParseRendererArgs(args).options;
      && Given(o.template) && Given(o.data)
      && ResolveTemplatePath(h, o.template.value).Ok?
      && var path := ResolveTemplatePath(h, o.template.value).value;
      && h.readFile(path).Ok? && e.compile(h.readFile(path).value).Compiles?
      && h.fileExists(o.data.value) && h.readFile(o.data.value).Ok?
      && e.parseError(h.readFile(o.data.value).value).None?
      && e.evaluate(h.readFile(path).value, h.readFile(o.data.value).value) == Ok(run.text)
      && (run.destination.ToFile? <==> Given(o.output))
      && ExitCode(run) == 0
  {
  }

  /**
    The converse: a run whose options are complete, whose template loads,
    whose data loads and whose evaluation succeeds renders exactly the
    evaluated text to the destination the options name, with status 0.
   */
  lemma EverythingLoadedRenders(args: seq<string>, h: Host, e: Engine, text: string)
    requires ParseRendererArgs(args).Proceed?
    requires var o := ParseRendererArgs(args).options;
      && LoadTemplate(h, e, o.template.value).Ok?
      && LoadData(h, e, o.data.value).Ok?
      && e.evaluate(LoadTemplate(h, e, o.template.value).value, LoadData(h, e, o.data.value).value) == Ok(text)
    ensures RenderMain(args, h, e) == Rendered(text, DestinationOf(ParseRendererArgs(args).options))
    ensures ExitCode(RenderMain(args, h, e)) == 0
  {
  }

  /**
    A run that gets past the parser fails at the first stage that fails, in
    the order template, data, evaluation, and with that stage's error.
   */
  lemma FirstFailureIsReported(args: seq<string>, h: Host, e: Engine)
    requires ParseRendererArgs(args).Proceed?
    ensures var o := ParseRendererArgs(args).options;
      var run := RenderMain(args, h, e);
      var tl := LoadTemplate(h, e, o.template.value);
      var dl := LoadData(h, e, o.data.value);
      && (tl.Err? ==> run == Failed(tl.error))
      && (tl.Ok? && dl.Err? ==> run == Failed(dl.error))
      && (tl.Ok? && dl.Ok? && e.evaluate(tl.value, dl.value).Err?
          ==> run == Failed(EvaluationFailed(e.evaluate(tl.value, dl.value).error)))
      && (run.Failed? ==> ExitCode(run) == 1)
  {
  }
}
