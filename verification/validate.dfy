/**
  The validator (`ValidateTemplate.ts`): the verdict for one template, the
  batch summary and exit status, and the `main` that ties argument parsing,
  path resolution and the batch together.
 */
module Validate {
  import opened Results
  import opened Text
  import opened Scanner
  import opened Blocks
  import opened Paths
  import opened Library
  import opened Args

  /** The errors `validateTemplate` records; the message texts are left out. */
  datatype Problem =
    | ReadError(message: string)
    | SyntaxError(message: string)
    | MismatchedBlockTags(openers: nat, closers: nat)

  /** The warnings `validateTemplate` records. */
  datatype Warning = NoVariables | NoDataStructureComment

  datatype ValidationResult = ValidationResult(
    path: string,
    valid: bool,
    errors: seq<Problem>,
    warnings: seq<Warning>,
    variables: seq<string>)

  /** The documentation marker the validator looks for in the raw text. */
  const DataStructureMarker := "Data Structure:"

  /**
    The warnings of a template that compiled, in the order they are pushed:
    no variables were extracted, then no `Data Structure:` comment.
   */
  function WarningsFor(variables: seq<string>, content: string): (ws: seq<Warning>)
    ensures NoVariables in ws <==> variables == []
    ensures NoDataStructureComment in ws <==> forall p: nat :: !OccursAt(content, p, DataStructureMarker)
    ensures |ws| == (if variables == [] then 1 else 0)
                    + (if forall p: nat :: !OccursAt(content, p, DataStructureMarker) then 1 else 0)
    ensures |ws| == 2 ==> ws == [NoVariables, NoDataStructureComment]
  {
    (if |variables| == 0 then [NoVariables] else [])
      + (if !Includes(content, DataStructureMarker) then [NoDataStructureComment] else [])
  }

  /**
    `validateTemplate(path)`, given what reading the file produced and the
    compiler. A read error or a compile error ends the checks; otherwise the
    variables are extracted, a template without variables is warned about,
    unequal opener and closer totals make it invalid, and a template without
    the documentation marker is warned about.
   */
  function ValidateTemplate(path: string, read: Result<string, string>, compile: string -> Compiled): (r: ValidationResult)
    ensures r.path == path
    ensures r.valid <==> r.errors == []
    ensures read.Err? ==> r == ValidationResult(path, false, [ReadError(read.error)], [], [])
  {
    match read
    case Err(message) => ValidationResult(path, false, [ReadError(message)], [], [])
    case Ok(content) =>
      match compile(content)
      case CompileError(message) => ValidationResult(path, false, [SyntaxError(message)], [], [])
      case Compiles =>
        var variables := ExtractVariables(content);
        var openers := OpenerCount(content);
        var closers := CloserCount(content);
        var errors := if openers != closers then [MismatchedBlockTags(openers, closers)] else [];
        ValidationResult(path, errors == [], errors, WarningsFor(variables, content), variables)
  }

  /**
    A template that does not compile is invalid with exactly the syntax
    error, and no other check runs: no variables and no warnings.
   */
  lemma CompileErrorStopsChecks(path: string, content: string, compile: string -> Compiled)
    requires compile(content).CompileError?
    ensures var r := ValidateTemplate(path, Ok(content), compile);
      && !r.valid
      && r.errors == [SyntaxError(compile(content).message)]
      && r.warnings == [] && r.variables == []
  {
  }

  /**
    For a template that was read and compiles, validity depends only on the
    block totals: it is invalid exactly when the openers of all four kinds
    together differ in number from the closers of all four kinds together.
   */
  lemma ValidIffTotalsBalance(path: string, content: string, compile: string -> Compiled)
    requires compile(content).Compiles?
    ensures ValidateTemplate(path, Ok(content), compile).valid <==> OpenerCount(content) == CloserCount(content)
    ensures !ValidateTemplate(path, Ok(content), compile).valid
            ==> ValidateTemplate(path, Ok(content), compile).errors
                == [MismatchedBlockTags(OpenerCount(content), CloserCount(content))]
  {
  }

  /**
    The aggregate check passes templates that are unbalanced kind by kind:
    with two `if` and one `each` openers against one `if` and two `each`
    closers, the totals agree and the template is valid.
   */
  lemma PerKindMismatchPasses(path: string, content: string, compile: string -> Compiled)
    requires compile(content).Compiles?
    requires KindCount(content, '#', 0) == 1 && KindCount(content, '#', 1) == 2
    requires KindCount(content, '#', 2) == 0 && KindCount(content, '#', 3) == 0
    requires KindCount(content, '/', 0) == 2 && KindCount(content, '/', 1) == 1
    requires KindCount(content, '/', 2) == 0 && KindCount(content, '/', 3) == 0
    ensures ValidateTemplate(path, Ok(content), compile).valid
  {
    OpenersSumOverKinds(content);
    ClosersSumOverKinds(content);
  }

  /**
    Three `each` openers against two closers, and no other blocks: the
    totals differ and the template is invalid.
   */
  lemma UnclosedEachFails(path: string, content: string, compile: string -> Compiled)
    requires compile(content).Compiles?
    requires KindCount(content, '#', 0) == 3 && KindCount(content, '/', 0) == 2
    requires KindCount(content, '#', 1) == 0 && KindCount(content, '#', 2) == 0 && KindCount(content, '#', 3) == 0
    requires KindCount(content, '/', 1) == 0 && KindCount(content, '/', 2) == 0 && KindCount(content, '/', 3) == 0
    ensures !ValidateTemplate(path, Ok(content), compile).valid
    ensures ValidateTemplate(path, Ok(content), compile).errors == [MismatchedBlockTags(3, 2)]
  {
    OpenersSumOverKinds(content);
    ClosersSumOverKinds(content);
  }

  /**
    Warnings never affect validity, and each is recorded exactly when its
    condition holds, once: "no variables" when none were extracted, the
    documentation warning when the marker is absent from the text, in that
    order when both are.
   */
  lemma WarningConditions(path: string, content: string, compile: string -> Compiled)
    requires compile(content).Compiles?
    ensures var r := ValidateTemplate(path, Ok(content), compile);
      && r.variables == ExtractVariables(content)
      && (NoVariables in r.warnings <==> r.variables == [])
      && (NoDataStructureComment in r.warnings <==> forall p: nat :: !OccursAt(content, p, DataStructureMarker))
      && |r.warnings| == (if r.variables == [] then 1 else 0)
                         + (if forall p: nat :: !OccursAt(content, p, DataStructureMarker) then 1 else 0)
      && (|r.warnings| == 2 ==> r.warnings == [NoVariables, NoDataStructureComment])
      && |r.errors| <= 1
  {
    var r := ValidateTemplate(path, Ok(content), compile);
    assert r.warnings == WarningsFor(r.variables, content);
  }

  datatype Summary = Summary(valid: nat, invalid: nat, warnings: nat)

  /** `results.filter(r => r.valid)`. */
  function ValidOnes(rs: seq<ValidationResult>): seq<ValidationResult>
    decreases |rs|
  {
    if |rs| == 0 then [] else (if rs[0].valid then [rs[0]] else []) + ValidOnes(rs[1..])
  }

  /** `results.filter(r => !r.valid)`. */
  function InvalidOnes(rs: seq<ValidationResult>): seq<ValidationResult>
    decreases |rs|
  {
    if |rs| == 0 then [] else (if rs[0].valid then [] else [rs[0]]) + InvalidOnes(rs[1..])
  }

  /** `results.reduce((sum, r) => sum + r.warnings.length, 0)`. */
  function WarningTotal(rs: seq<ValidationResult>): nat
    decreases |rs|
  {
    if |rs| == 0 then 0 else |rs[0].warnings| + WarningTotal(rs[1..])
  }

  /** Every result is counted once, as valid or as invalid. */
  lemma {:induction false} ValidAndInvalidPartition(rs: seq<ValidationResult>)
    ensures |ValidOnes(rs)| + |InvalidOnes(rs)| == |rs|
    ensures |InvalidOnes(rs)| == 0 <==> forall i :: 0 <= i < |rs| ==> rs[i].valid
    decreases |rs|
  {
    if |rs| > 0 {
      ValidAndInvalidPartition(rs[1..]);
      assert forall i :: 1 <= i < |rs| ==> rs[i] == rs[1..][i - 1];
    }
  }

  /** The summary line's three counts. */
  function Summarize(rs: seq<ValidationResult>): (s: Summary)
    ensures s.valid + s.invalid == |rs|
    ensures s.invalid == 0 <==> forall i :: 0 <= i < |rs| ==> rs[i].valid
  {
    ValidAndInvalidPartition(rs);
    Summary(|ValidOnes(rs)|, |InvalidOnes(rs)|, WarningTotal(rs))
  }

  function Plus(a: Summary, b: Summary): Summary {
    Summary(a.valid + b.valid, a.invalid + b.invalid, a.warnings + b.warnings)
  }

  /** Summarising a batch is summing the summaries of its parts. */
  lemma {:induction false} SummarizeAppend(a: seq<ValidationResult>, b: seq<ValidationResult>)
    ensures Summarize(a + b) == Plus(Summarize(a), Summarize(b))
    decreases |a|
  {
    if |a| == 0 {
      assert a + b == b;
    } else {
      assert (a + b)[0] == a[0];
      assert (a + b)[1..] == a[1..] + b;
      SummarizeAppend(a[1..], b);
    }
  }

  /**
    The summary does not depend on the order of the results, so the
    unspecified order of the directory listing cannot change it.
   */
  lemma {:induction false} SummaryIgnoresOrder(a: seq<ValidationResult>, b: seq<ValidationResult>)
    requires multiset(a) == multiset(b)
    ensures Summarize(a) == Summarize(b)
    decreases |a|
  {
    if |a| == 0 {
      assert |b| == |multiset(b)| == 0;
    } else {
      assert a[0] in multiset(b);
      var k :| 0 <= k < |b| && b[k] == a[0];
      RemoveMatching(a, b, k);
      SummaryIgnoresOrder(a[1..], b[..k] + b[k + 1..]);
      SummarizeAppend([a[0]], a[1..]);
      assert a == [a[0]] + a[1..];
      SummarizeRemove(b, k);
    }
  }

  /** Taking an element from each of two permutations of each other leaves permutations. */
  lemma RemoveMatching(a: seq<ValidationResult>, b: seq<ValidationResult>, k: nat)
    requires multiset(a) == multiset(b) && |a| > 0 && k < |b| && b[k] == a[0]
    ensures multiset(a[1..]) == multiset(b[..k] + b[k + 1..])
  {
    var x := a[0];
    assert b == b[..k] + [x] + b[k + 1..];
    assert a == [x] + a[1..];
    assert multiset(b) == multiset(b[..k]) + multiset([x]) + multiset(b[k + 1..]);
    assert multiset(a[1..]) == multiset(a) - multiset{x};
  }

  /** The summary of a batch is that of one of its results plus that of the others. */
  lemma SummarizeRemove(b: seq<ValidationResult>, k: nat)
    requires k < |b|
    ensures Summarize(b) == Plus(Summarize([b[k]]), Summarize(b[..k] + b[k + 1..]))
  {
    assert b == b[..k] + [b[k]] + b[k + 1..];
    SummarizeAppend(b[..k] + [b[k]], b[k + 1..]);
    SummarizeAppend(b[..k], [b[k]]);
    SummarizeAppend(b[..k], b[k + 1..]);
  }

  /** What one result adds to the summary line. */
  function Contribution(r: ValidationResult): Summary {
    Summary(if r.valid then 1 else 0, if r.valid then 0 else 1, |r.warnings|)
  }

  /**
    The summary is the fold of the results' contributions, as
    `results.reduce((sum, r) => sum + r.warnings.length, 0)` folds the
    warning counts: an empty batch sums to zero, and each further result
    adds one to the valid or the invalid count and its number of warnings
    to the warning total.
   */
  lemma WarningTotalIsSum(rs: seq<ValidationResult>, r: ValidationResult)
    ensures Summarize([]) == Summary(0, 0, 0)
    ensures Summarize(rs + [r]) == Plus(Summarize(rs), Contribution(r))
    ensures Summarize(rs + [r]).warnings == Summarize(rs).warnings + |r.warnings|
  {
    SummarizeAppend(rs, [r]);
    assert [r][1..] == [];
  }

  /** The process status after the summary: 1 when some template is invalid, else 0. */
  function BatchStatus(rs: seq<ValidationResult>): (code: int)
    ensures code == 0 || code == 1
    ensures code != 0 <==> exists i :: 0 <= i < |rs| && !rs[i].valid
  {
    if Summarize(rs).invalid > 0 then 1 else 0
  }

  /** Why a run stopped before the summary. */
  datatype Stop =
    | HelpShown
    | UsageShown
    | PrimitivesMissing(dir: string)
    | ListingFailed(dir: string, message: string)
    | NotFound(id: string)

  /** A validator run: stopped early with a status, or reported on every result. */
  datatype Run = Stopped(code: int, why: Stop) | Reported(results: seq<ValidationResult>, summary: Summary, code: int)

  /** `<templates>/primitives`, the directory `--all` validates. */
  function PrimitivesDir(h: Host): string {
    JoinPath(h.templatesDir, "primitives")
  }

  /** `files.filter(f => f.endsWith('.hbs'))`. */
  function TemplateFiles(names: seq<string>): (files: seq<string>)
    ensures forall f :: f in files <==> f in names && EndsWith(f, ".hbs")
    decreases |names|
  {
    if |names| == 0 then []
    else (if EndsWith(names[0], ".hbs") then [names[0]] else []) + TemplateFiles(names[1..])
  }

  /** Filtering a listing piece by piece filters the whole, keeping the order of the pieces. */
  lemma {:induction false} TemplateFilesAppend(a: seq<string>, b: seq<string>)
    ensures TemplateFiles(a + b) == TemplateFiles(a) + TemplateFiles(b)
    decreases |a|
  {
    if |a| == 0 {
      assert a + b == b;
    } else {
      assert (a + b)[0] == a[0];
      assert (a + b)[1..] == a[1..] + b;
      TemplateFilesAppend(a[1..], b);
    }
  }

  /** A single entry is kept, once, iff it ends in `.hbs`. */
  lemma TemplateFilesOne(x: string)
    ensures TemplateFiles([x]) == if EndsWith(x, ".hbs") then [x] else []
  {
    assert [x][1..] == [];
  }

  /** `validateTemplate` applied to each file of the directory `dir`, in order. */
  function ValidateEach(h: Host, compile: string -> Compiled, dir: string, files: seq<string>): (rs: seq<ValidationResult>)
    ensures |rs| == |files|
    ensures forall i :: 0 <= i < |files| ==>
      rs[i] == ValidateTemplate(JoinPath(dir, files[i]), h.readFile(JoinPath(dir, files[i])), compile)
    decreases |files|
  {
    if |files| == 0 then []
    else
      var path := JoinPath(dir, files[0]);
      [ValidateTemplate(path, h.readFile(path), compile)] + ValidateEach(h, compile, dir, files[1..])
  }

  /**
    The results `main` collects for the parsed options, or why it stopped
    first. `--all` wins over `--template`. A primitives directory that
    `readdirSync` cannot list throws outside any `try`, which ends the
    process with status 1 before the summary.
   */
  function Collect(o: Options, h: Host, compile: string -> Compiled): (c: Result<seq<ValidationResult>, Stop>)
    ensures o.all && !h.fileExists(PrimitivesDir(h)) ==> c == Err(PrimitivesMissing(PrimitivesDir(h)))
    ensures o.all && h.fileExists(PrimitivesDir(h)) && h.listDir(PrimitivesDir(h)).Err?
            ==> c == Err(ListingFailed(PrimitivesDir(h), h.listDir(PrimitivesDir(h)).error))
    ensures o.all && c.Ok? ==> |c.value| == |TemplateFiles(h.listDir(PrimitivesDir(h)).value)|
    ensures o.all && c.Ok? ==>
      var files := TemplateFiles(h.listDir(PrimitivesDir(h)).value);
      forall i :: 0 <= i < |files| ==>
        c.value[i] == ValidateTemplate(JoinPath(PrimitivesDir(h), files[i]), h.readFile(JoinPath(PrimitivesDir(h), files[i])), compile)
    ensures !o.all && Given(o.template) ==>
      match ResolveTemplatePath(h, o.template.value)
      case Err(e) => c == Err(NotFound(o.template.value))
      case Ok(path) => c == Ok([ValidateTemplate(path, h.readFile(path), compile)])
    ensures !o.all && !Given(o.template) ==> c == Ok([])
  {
    if o.all then
      var dir := PrimitivesDir(h);
      if !h.fileExists(dir) then Err(PrimitivesMissing(dir))
      else
        match h.listDir(dir)
        case Err(message) => Err(ListingFailed(dir, message))
        case Ok(names) => Ok(ValidateEach(h, compile, dir, TemplateFiles(names)))
    else if Given(o.template) then
      match ResolveTemplatePath(h, o.template.value)
      case Err(e) => Err(NotFound(e.id))
      case Ok(path) => Ok([ValidateTemplate(path, h.readFile(path), compile)])
    else Ok([])
  }

  /** The validator's `main`. */
  function ValidatorMain(args: seq<string>, h: Host, compile: string -> Compiled): (run: Run)
    ensures run.Stopped? ==> run.code != 0 || run.why == HelpShown
    ensures ParseValidatorArgs(args).Exit?
            ==> run.Stopped? && run.code == ParseValidatorArgs(args).code && (run.why == HelpShown <==> run.code == 0)
    ensures run.Reported? ==> run.summary == Summarize(run.results)
    ensures run.Reported? ==> (run.code != 0 <==> exists i :: 0 <= i < |run.results| && !run.results[i].valid)
  {
    match ParseValidatorArgs(args)
    case Exit(code) => Stopped(code, if code == 0 then HelpShown else UsageShown)
    case Proceed(o) =>
      match Collect(o, h, compile)
      case Err(why) => Stopped(1, why)
      case Ok(results) => Reported(results, Summarize(results), BatchStatus(results))
  }

  /** With neither `--template` nor `--all` (and no `--help`), the validator prints usage and exits with 1. */
  lemma NeitherFlagExitsOne(args: seq<string>, h: Host, compile: string -> Compiled)
    requires ScanArgs(Validator, args, NoOptions).Scanned?
    requires !Given(ScanArgs(Validator, args, NoOptions).options.template)
    requires !ScanArgs(Validator, args, NoOptions).options.all
    ensures ValidatorMain(args, h, compile) == Stopped(1, UsageShown)
  {
  }

  /**
    With `--all`, every `.hbs` entry of the primitives directory is
    validated, once, in listing order, and nothing else is; each result is
    that file's verdict, and the status is 1 exactly when one of them is
    invalid.
   */
  lemma AllValidatesEveryTemplate(args: seq<string>, h: Host, compile: string -> Compiled)
    requires ParseValidatorArgs(args).Proceed? && ParseValidatorArgs(args).options.all
    requires h.fileExists(PrimitivesDir(h)) && h.listDir(PrimitivesDir(h)).Ok?
    ensures var run := ValidatorMain(args, h, compile);
      var dir := PrimitivesDir(h);
      var files := TemplateFiles(h.listDir(dir).value);
      && run.Reported?
      && |run.results| == |files|
      && (forall i :: 0 <= i < |files| ==>
            && EndsWith(files[i], ".hbs")
            && run.results[i] == ValidateTemplate(JoinPath(dir, files[i]), h.readFile(JoinPath(dir, files[i])), compile))
      && (run.code == 1 <==> exists i :: 0 <= i < |files| && !run.results[i].valid)
  {
    var files := TemplateFiles(h.listDir(PrimitivesDir(h)).value);
    assert forall i :: 0 <= i < |files| ==> files[i] in files;
  }

  /**
    With `--all`, a primitives directory that is missing or cannot be
    listed stops the run with status 1 and no results.
   */
  lemma AllWithoutDirectoryExitsOne(args: seq<string>, h: Host, compile: string -> Compiled)
    requires ParseValidatorArgs(args).Proceed? && ParseValidatorArgs(args).options.all
    requires !h.fileExists(PrimitivesDir(h)) || h.listDir(PrimitivesDir(h)).Err?
    ensures ValidatorMain(args, h, compile).Stopped?
    ensures ValidatorMain(args, h, compile).code == 1
  {
  }

  /**
    With `--template` and without `--all`, an identifier that does not
    resolve stops the run with status 1, naming it; one that resolves is
    validated on its own, and the status is 1 exactly when it is invalid.
   */
  lemma TemplateModeValidatesOne(args: seq<string>, h: Host, compile: string -> Compiled)
    requires ParseValidatorArgs(args).Proceed? && !ParseValidatorArgs(args).options.all
    ensures var id := ParseValidatorArgs(args).options.template.value;
      var run := ValidatorMain(args, h, compile);
      match ResolveTemplatePath(h, id)
      case Err(_) => run == Stopped(1, NotFound(id))
      case Ok(path) =>
        var r := ValidateTemplate(path, h.readFile(path), compile);
        && run.Reported? && run.results == [r]
        && run.summary == Contribution(r)
        && (run.code == 1 <==> !r.valid)
  {
    var id := ParseValidatorArgs(args).options.template.value;
    match ResolveTemplatePath(h, id)
    case Err(_) =>
    case Ok(path) =>
      var r := ValidateTemplate(path, h.readFile(path), compile);
      WarningTotalIsSum([], r);
      assert [] + [r] == [r];
  }
}
