# Prompt template tools, modelled in Dafny

This project models the two command-line tools of the prompting skill:

- `ValidateTemplate.ts` checks Handlebars templates.
  - It extracts the variables a template references.
  - It compares the number of block openers (`{{#each`, `{{#if`, `{{#unless`, `{{#with`) with the number of closers.
  - It warns about templates without variables or without a `Data Structure:` comment.
  - It prints a summary, and its exit status says whether any template was invalid.
- `RenderTemplate.ts` renders one template with one YAML data file.
  - It resolves the template, loads the data and evaluates the template.
  - It sends the text to a file or to standard output.
  - It registers the helpers `join`, `inc`, `eq`, `uppercase` and `lowercase`.

Everything is a pure function. The machine the tools run on is a `Paths.Host` value:

- the working directory;
- the templates directory;
- `existsSync`, `readFileSync` and `readdirSync` as functions. Reading and listing either return or throw with a message.

The Handlebars and YAML libraries are a `Library.Engine` value of oracles. A validator run (`Validate.Run`) carries the status that `process.exit` would receive. A renderer run (`Render.Outcome`) carries a status only when it halts early; `Render.ExitCode` gives the status of a rendered or failed run.

Modules:

| module | file | what it holds |
|---|---|---|
| `Results`, `Text` | `text.dfy` | `Option`/`Result`; substring search (`includes`, `startsWith`, `endsWith`) |
| `StringOrder` | `order.dfy` | the default `Array.prototype.sort` order on strings; a sorted set |
| `Scanner` | `scanner.dfy` | `extractVariables`: the five global regular expressions, the root names, the builtin filter |
| `Blocks` | `blocks.dfy` | the opener and closer counts of the block check |
| `Args` | `args.dfy` | both `parseArgs` functions, as one argument walk with a flag table per tool |
| `Paths`, `Library` | `paths.dfy` | the host, `resolveTemplatePath`, the library oracles |
| `Validate` | `validate.dfy` | `validateTemplate`, the batch summary and status, the validator's `main` |
| `Render` | `render.dfy` | `loadTemplate`, `loadData`, the renderer's `main` |
| `Helpers` | `helpers.dfy` | the template helpers |

Points worth knowing about the behaviour the model pins down:

- Each `exec` loop is modelled as it runs: the leftmost match, then a jump to its end.
  - `Scanner.ScanFindsEveryMatch` shows that the jump loses nothing.
  - `Blocks.MatchCountIsOccurrences` shows the same for `String.prototype.match`.
- The block check compares totals over the four kinds, not kind by kind.
  - So two `#if` and one `#each` against one `/if` and two `/each` is valid (`Validate.PerKindMismatchPasses`).
- A `{{else}}` in a template is reported as a variable named `else` (`Scanner.ElseIsReported`).
  - The builtin filter only removes `this` and the `@` names.
  - The `@` names can never be captured, because `@` is not a path character.
- The data path of the renderer is used exactly as given. Unlike the template, it has no templates-directory fallback.
- A flag given as the last argument sets its option to `undefined`. A flag given the empty string counts as not given.

## Model

| member | source | states |
|---|---|---|
| `Scanner.ExtractVariables` | skills/prompting/tools/ValidateTemplate.ts:104-128 | the result is strictly sorted in the default string order and holds no name twice |
| `Scanner.ExtractVariablesFindsReferences` | skills/prompting/tools/ValidateTemplate.ts:108-125 | a name is reported iff it is not builtin and some match of one of the five patterns, at any position, has a path whose first dot-separated segment is that name |
| `Scanner.ScanFindsEveryMatch` | skills/prompting/tools/ValidateTemplate.ts:116-124 | the `exec` loop, which resumes at the end of each match, collects a path iff the pattern matches that path at some start position in the scanned range |
| `Scanner.MatchesDoNotOverlap` | skills/prompting/tools/ValidateTemplate.ts:109-113 | once a pattern has matched at one position, no match of any pattern starts before that match's end |
| `Scanner.MatchAt` | skills/prompting/tools/ValidateTemplate.ts:109-113 | a match lies within the text, starts with `{{`, captures a path `[a-zA-Z_][a-zA-Z0-9_.]*`, and has no `{` after its first two characters |
| `Scanner.MatchAtSound` | skills/prompting/tools/ValidateTemplate.ts:109-113 | a match of a shape is that shape's opening (`{{`, `{{#each`, `{{#if`, `{{#unless`, `{{#with`), then white space (a non-empty run for the four block shapes, none for a substitution), then the captured path, then `}}` ending the match |
| `Scanner.DirectiveMatches` | skills/prompting/tools/ValidateTemplate.ts:109-113 | conversely, a shape's opening followed by white space as that shape demands, a path and `}}` is a match at that position that captures exactly the path and ends just after the `}}` |
| `Scanner.AllPathsAreMatches` | skills/prompting/tools/ValidateTemplate.ts:116-118 | running the five patterns in turn captures exactly the paths that some shape matches at some position |
| `Scanner.ExtractedNamesAreRoots` | skills/prompting/tools/ValidateTemplate.ts:119-122 | every reported name is a letter or `_` followed by letters, digits and `_`, contains no dot, and is none of `this`, `@index`, `@key`, `@first`, `@last` |
| `Scanner.Root` | skills/prompting/tools/ValidateTemplate.ts:120 | the root is a prefix of the path with no dot in it, ending at the path's end or just before its first dot |
| `Scanner.RootBeforeFirstDot` | skills/prompting/tools/ValidateTemplate.ts:120 | for a dot-free `a`, the root of `a.b` is `a` whatever `b` holds, and `a` is its own root |
| `Scanner.RootOfPath` | skills/prompting/tools/ValidateTemplate.ts:120 | the first dot-separated segment of a captured path is a non-empty dot-free name |
| `Scanner.SubstitutionIsReported` | skills/prompting/tools/ValidateTemplate.ts:109 | a `{{name}}` anywhere in the text, with a non-builtin root name, puts `name` in the result |
| `Scanner.BlockIsReported` | skills/prompting/tools/ValidateTemplate.ts:110-122 | a `{{#each`, `{{#if`, `{{#unless` or `{{#with` opener, followed by non-empty white space, a path and `}}`, puts the path's first segment in the result unless that segment is `this` |
| `Scanner.NestedBlocksReported` | skills/prompting/tools/ValidateTemplate.ts:104-128 | wherever `{{#each a}}`, `{{b}}` and `{{#if c}}` occur, for non-builtin root names, all three names are reported |
| `Scanner.NestedBlocksExample` | skills/prompting/tools/ValidateTemplate.ts:104-128 | the template `{{#each items}}{{name}}{{/each}}{{#if active}}x{{/if}}` reports `items`, `name` and `active` |
| `Scanner.NestedBlocksExact` | skills/prompting/tools/ValidateTemplate.ts:104-128 | that template reports exactly `["active", "items", "name"]`: the closers, the keywords and the text produce nothing |
| `Scanner.ExampleMatches` | skills/prompting/tools/ValidateTemplate.ts:106-125 | in that template, every match of every expression at a `{{` captures `items`, `name` or `active`; the closers `{{/each}}` and `{{/if}}` match nothing |
| `Scanner.ExampleBracePairs` | skills/prompting/tools/ValidateTemplate.ts:106-112 | that template has `{{` only at positions 0, 15, 23, 32 and 47, so no match can start anywhere else |
| `Scanner.OpeningMismatch` | skills/prompting/tools/ValidateTemplate.ts:106-112 | an expression cannot match where a character of its literal opening is missing |
| `Scanner.NoSubstitutionAt` | skills/prompting/tools/ValidateTemplate.ts:107 | `{{` followed by anything but a letter or `_` is no substitution |
| `Scanner.ElseIsReported` | skills/prompting/tools/ValidateTemplate.ts:109-122 | a template that contains `{{else}}` reports a variable `else` |
| `StringOrder.SortedSet` | skills/prompting/tools/ValidateTemplate.ts:127 | the result is strictly sorted and has exactly the elements of its input |
| `StringOrder.SortedDeterminedByElems` | skills/prompting/tools/ValidateTemplate.ts:127 | two strictly sorted sequences with the same elements are equal, so the sorted set is the unique sorted listing |
| `StringOrder.LessTotal` | skills/prompting/tools/ValidateTemplate.ts:127 | any two distinct strings are ordered one way or the other |
| `StringOrder.LessTransitive` | skills/prompting/tools/ValidateTemplate.ts:127 | the comparison is transitive |
| `StringOrder.LessAsymmetric` | skills/prompting/tools/ValidateTemplate.ts:127 | no two strings are each below the other |
| `StringOrder.Insert` | skills/prompting/tools/ValidateTemplate.ts:122 | adding a name to a sorted set keeps it strictly sorted and adds exactly that name |
| `Blocks.MatchCountIsOccurrences` | skills/prompting/tools/ValidateTemplate.ts:162-163 | the number of global matches, counted with a jump past each match, equals the number of positions where a marker occurs |
| `Blocks.AggregateIsSumOfKinds` | skills/prompting/tools/ValidateTemplate.ts:162-163 | the count of the four-way alternation is the sum of the counts of the four kinds taken separately |
| `Blocks.OpenersSumOverKinds` | skills/prompting/tools/ValidateTemplate.ts:162 | the opener total is the number of `{{#each`, `{{#if`, `{{#unless` and `{{#with` occurrences added together |
| `Blocks.ClosersSumOverKinds` | skills/prompting/tools/ValidateTemplate.ts:163 | the closer total is the number of `{{/each`, `{{/if`, `{{/unless` and `{{/with` occurrences added together |
| `Blocks.OpenerCount` | skills/prompting/tools/ValidateTemplate.ts:162 | the opener total is the number of positions where `{{#each`, `{{#if`, `{{#unless` or `{{#with` starts |
| `Blocks.CloserCount` | skills/prompting/tools/ValidateTemplate.ts:163 | the closer total is the number of positions where `{{/each`, `{{/if`, `{{/unless` or `{{/with` starts |
| `Blocks.MarkerAt` | skills/prompting/tools/ValidateTemplate.ts:162 | an alternative is reported only if it occurs at that position, and none is reported only if none occurs there |
| `Text.Includes` | skills/prompting/tools/ValidateTemplate.ts:170 | the search succeeds iff the word occurs at some position of the text |
| `Validate.ValidateTemplate` | skills/prompting/tools/ValidateTemplate.ts:130-180 | the result names the path it was given; it is valid iff it has no errors; a read failure gives exactly one read error and nothing else |
| `Validate.CompileErrorStopsChecks` | skills/prompting/tools/ValidateTemplate.ts:142-149 | a template that does not compile is invalid with exactly the syntax error, and has no variables and no warnings |
| `Validate.ValidIffTotalsBalance` | skills/prompting/tools/ValidateTemplate.ts:160-167 | a read, compiling template is valid iff the opener total equals the closer total, and otherwise its only error carries the two totals |
| `Validate.PerKindMismatchPasses` | skills/prompting/tools/ValidateTemplate.ts:161-167 | blocks that are unbalanced kind by kind but balanced in total pass the check |
| `Validate.UnclosedEachFails` | skills/prompting/tools/ValidateTemplate.ts:161-167 | three `each` openers against two closers fail with a 3-to-2 mismatch |
| `Validate.WarningsFor` | skills/prompting/tools/ValidateTemplate.ts:156-172 | the list holds the no-variables warning iff there are no variables and the documentation warning iff `Data Structure:` occurs nowhere, one entry per condition that holds, the no-variables warning first |
| `Validate.WarningConditions` | skills/prompting/tools/ValidateTemplate.ts:151-172 | the no-variables warning appears iff no variable was extracted; the documentation warning appears iff `Data Structure:` occurs nowhere; the list holds exactly one entry per condition that holds, so no warning is repeated, and when both hold the no-variables warning comes first; at most one error is recorded |
| `Validate.ValidAndInvalidPartition` | skills/prompting/tools/ValidateTemplate.ts:232-233 | every result is counted once, as valid or as invalid, and none is invalid iff all are valid |
| `Validate.Summarize` | skills/prompting/tools/ValidateTemplate.ts:231-237 | the valid and invalid counts add up to the number of results, and the invalid count is zero iff every result is valid |
| `Validate.SummarizeAppend` | skills/prompting/tools/ValidateTemplate.ts:232-234 | the summary of a concatenation is the sum of the summaries of its parts |
| `Validate.SummaryIgnoresOrder` | skills/prompting/tools/ValidateTemplate.ts:212-234 | any two orderings of the same results give the same summary, whatever order the directory listing returns |
| `Validate.WarningTotalIsSum` | skills/prompting/tools/ValidateTemplate.ts:232-234 | an empty batch sums to zero; appending a result adds one to the valid count or to the invalid count, as that result is valid or not, and adds the length of its warning list to the warning total |
| `Validate.BatchStatus` | skills/prompting/tools/ValidateTemplate.ts:239-242 | the status is 0 or 1, and is nonzero iff some result is invalid |
| `Validate.TemplateFiles` | skills/prompting/tools/ValidateTemplate.ts:212 | an entry is kept iff it is in the listing and ends in `.hbs` |
| `Validate.TemplateFilesAppend` | skills/prompting/tools/ValidateTemplate.ts:212 | filtering two listings in a row is filtering each, in order: nothing is dropped, doubled or moved |
| `Validate.TemplateFilesOne` | skills/prompting/tools/ValidateTemplate.ts:212 | one entry is kept exactly once iff it ends in `.hbs`, and dropped otherwise |
| `Validate.ValidateEach` | skills/prompting/tools/ValidateTemplate.ts:215-217 | one result per file, in order: the i-th is the validation of the i-th file joined to the primitives directory, with the contents read at that path |
| `Validate.Collect` | skills/prompting/tools/ValidateTemplate.ts:205-226 | with `--all`: a missing primitives directory or a listing that throws stops the run, otherwise one result per `.hbs` entry, the i-th being the validation of the i-th kept entry joined to the directory; with a template: an unresolvable identifier stops the run naming it, otherwise exactly the validation of the resolved path; with neither: no results |
| `Validate.ValidatorMain` | skills/prompting/tools/ValidateTemplate.ts:201-243 | a run that stops early exits nonzero unless help was asked for; when argument parsing exits, the run stops with that same status, and it shows help iff the status is 0; a reported run's summary counts its results, and its status is nonzero iff some result is invalid |
| `Validate.NeitherFlagExitsOne` | skills/prompting/tools/ValidateTemplate.ts:59-63 | without a truthy `--template`, without `--all` and without `--help`, the validator stops with status 1 before touching any file |
| `Validate.AllValidatesEveryTemplate` | skills/prompting/tools/ValidateTemplate.ts:205-242 | with `--all` and a listable primitives directory, the run reports one result per entry `TemplateFiles` keeps (each `.hbs` entry once, in listing order, by `TemplateFilesAppend` and `TemplateFilesOne`), each being the validation of that entry's path and contents, and exits 1 iff one of them is invalid |
| `Validate.AllWithoutDirectoryExitsOne` | skills/prompting/tools/ValidateTemplate.ts:205-212 | with `--all`, a missing primitives directory or a listing that throws stops the run with status 1 |
| `Validate.TemplateModeValidatesOne` | skills/prompting/tools/ValidateTemplate.ts:218-242 | with a template and no `--all`: an unresolvable identifier stops the run with status 1 naming it; otherwise the run reports exactly the validation of the resolved path, its summary is that one result's contribution, and it exits 1 iff that result is invalid |
| `Args.Recognise` | skills/prompting/tools/ValidateTemplate.ts:42-56 | the flag table: `--template`/`-t` is the template flag and `--help`/`-h` the help flag for both tools; `--all`/`-a` is the all flag iff the tool is the validator; `--data`/`-d` and `--output`/`-o` are the data and output flags iff the tool is the renderer |
| `Args.ScanArgs` | skills/prompting/tools/RenderTemplate.ts:34-53 | the walk stops for help only if `--help` or `-h` is among the arguments; it turns `all` on only for the validator and only if `--all` or `-a` is among them; the validator never touches the data or output options, and the renderer never touches `all` |
| `Args.ParseValidatorArgs` | skills/prompting/tools/ValidateTemplate.ts:38-66 | status 0 iff the walk meets a help flag; status 1 iff it ends with neither a truthy template nor `all`; a walk that ends with one of the two proceeds with exactly the options it collected |
| `Args.ParseRendererArgs` | skills/prompting/tools/RenderTemplate.ts:30-62 | status 0 iff the walk meets a help flag; status 1 iff it ends with the template or the data falsy; a walk that ends with both proceeds with exactly the options it collected |
| `Args.ScanAppend` | skills/prompting/tools/RenderTemplate.ts:34-53 | walking two argument lists in a row is walking the first, then the second from the options the first left |
| `Args.LaterFlagWins` | skills/prompting/tools/RenderTemplate.ts:36-47 | a value flag at the end overrides that option, whatever came before, and leaves the other options as they were |
| `Args.DanglingFlagUnsets` | skills/prompting/tools/RenderTemplate.ts:36-47 | a value flag as the very last argument sets its option to `undefined` |
| `Args.UnknownArgumentSkipped` | skills/prompting/tools/RenderTemplate.ts:35-52 | an argument that no case names changes nothing |
| `Args.HelpEndsWalk` | skills/prompting/tools/ValidateTemplate.ts:52-55 | a `--help` or `-h` the walk reaches stops it, whatever arguments follow |
| `Args.AllFlagSetsAll` | skills/prompting/tools/ValidateTemplate.ts:48-51 | the validator's `--all` or `-a` turns `all` on and the walk carries on from the next argument, every other option unchanged |
| `Args.TrailingAllSetsAll` | skills/prompting/tools/ValidateTemplate.ts:48-51 | an `--all` at the end leaves the options the earlier arguments set, with `all` on |
| `Args.ParseExamples` | skills/prompting/tools/RenderTemplate.ts:48-51 | `--all` alone proceeds with only `all` set; `-a --help` and an empty validator command line exit with 0 and 1; `-h` alone, and `--help` between other flags, make the renderer exit with 0 |
| `Args.RendererMissingValueExits` | skills/prompting/tools/RenderTemplate.ts:55-59 | a trailing `--template` or `--data`, or one given the empty string, makes the renderer exit with status 1 |
| `Paths.ResolveTemplatePath` | skills/prompting/tools/RenderTemplate.ts:83-101 | an absolute identifier comes back unchanged; otherwise the working-directory candidate, then the templates-directory candidate; it fails iff neither exists, naming the identifier |
| `Paths.AbsoluteNeedsNoLookup` | skills/prompting/tools/RenderTemplate.ts:85-87 | an identifier starting with `/` resolves to itself on every host |
| `Paths.WorkingDirectoryWins` | skills/prompting/tools/RenderTemplate.ts:89-98 | an existing working-directory path wins, and the templates directory cannot change the result |
| `Paths.ResolutionLooksOnlyAtCandidates` | skills/prompting/tools/RenderTemplate.ts:83-101 | two hosts that agree on the two candidates resolve alike |
| `Paths.NotFoundNamesIdentifier` | skills/prompting/tools/RenderTemplate.ts:100 | resolution fails iff it is relative and neither candidate exists, and the error carries the identifier as given |
| `Render.LoadTemplate` | skills/prompting/tools/RenderTemplate.ts:103-107 | an unresolvable identifier is reported by name; loading succeeds iff the path resolves, reads and compiles, and yields the text read |
| `Render.LoadData` | skills/prompting/tools/RenderTemplate.ts:109-116 | "data file not found" iff nothing exists at the path as given; success iff it exists, reads and parses |
| `Render.DestinationOf` | skills/prompting/tools/RenderTemplate.ts:171-176 | output goes to a file iff `--output` is truthy, and then to exactly that path |
| `Render.ExitCode` | skills/prompting/tools/RenderTemplate.ts:178-181 | the status is 0 iff the run rendered or stopped at help |
| `Render.RenderMain` | skills/prompting/tools/RenderTemplate.ts:156-182 | the run halts iff argument parsing exits, and then with the parser's status |
| `Render.EverythingLoadedRenders` | skills/prompting/tools/RenderTemplate.ts:156-176 | when the options are complete, the template loads, the data loads and evaluation yields a text, the run renders exactly that text to the destination the options name, with status 0 |
| `Render.FirstFailureIsReported` | skills/prompting/tools/RenderTemplate.ts:156-182 | with complete options, a template failure is reported first, then a data failure, then an evaluation failure, each as the run's failure; every failed run exits with status 1 |
| `Render.ParserStopsBeforeFilesystem` | skills/prompting/tools/RenderTemplate.ts:55-59 | a run the parser stops ends the same on every host and with every library |
| `Render.DataPathHasNoFallback` | skills/prompting/tools/RenderTemplate.ts:109-112 | once the template loads, the run fails with "data file not found" iff nothing exists at the data path as given |
| `Render.TemplateCheckedFirst` | skills/prompting/tools/RenderTemplate.ts:163-165 | an unresolvable template is reported, with status 1, even when the data file is missing too |
| `Render.RenderedMeansEverythingLoaded` | skills/prompting/tools/RenderTemplate.ts:156-176 | a rendered run had complete options, a resolved, read and compiled template, an existing, read and parsed data file, and an evaluation that produced exactly the text; the destination is a file iff `--output` was given |
| `Helpers.Join` | skills/prompting/tools/RenderTemplate.ts:140-143 | a non-array gives `""`; a string separator is used verbatim; any other separator is replaced by `", "` |
| `Helpers.JoinAppend` | skills/prompting/tools/RenderTemplate.ts:142 | joining two non-empty lists is joining each with one separator between |
| `Helpers.JoinLength` | skills/prompting/tools/RenderTemplate.ts:142 | a non-empty join is as long as its items plus one separator per gap |
| `Helpers.SplitJoinRoundTrip` | skills/prompting/tools/RenderTemplate.ts:142 | splitting the join of at least one separator-free item on a one-character separator recovers the items |
| `Helpers.JoinExamples` | skills/prompting/tools/RenderTemplate.ts:140-143 | `join([], "-")` is `""`, `join(["a","b"], "-")` is `"a-b"`, the default separator gives `"a, b"`, and a non-array gives `""` |
| `Helpers.Inc` | skills/prompting/tools/RenderTemplate.ts:151-153 | the result is larger than the argument |
| `Helpers.IncExamples` | skills/prompting/tools/RenderTemplate.ts:150-153 | `inc(0)` is 1, `inc(5)` is 6 and `inc(-1)` is 0 |
| `Helpers.IncShifts` | skills/prompting/tools/RenderTemplate.ts:151-153 | `inc` keeps differences between numbers; with `inc(0) == 1` this makes it add one everywhere |
| `Helpers.IncNumbersFromOne` | skills/prompting/tools/RenderTemplate.ts:150-153 | zero-based positions below `n` map one to one and in order onto `1..n` |
| `Helpers.Uppercase` | skills/prompting/tools/RenderTemplate.ts:130-132 | `null`/`undefined` give `""`; otherwise the length is kept, each lower-case ASCII letter becomes the upper-case letter 32 code points below it, and every other character is unchanged |
| `Helpers.Lowercase` | skills/prompting/tools/RenderTemplate.ts:135-137 | `null`/`undefined` give `""`; otherwise the length is kept, each upper-case ASCII letter becomes the lower-case letter 32 code points above it, and every other character is unchanged |
| `Helpers.CaseConversions` | skills/prompting/tools/RenderTemplate.ts:130-137 | each conversion is idempotent, and converting one way then the other equals converting the other way directly |
| `Helpers.CaseExamples` | skills/prompting/tools/RenderTemplate.ts:130-137 | `uppercase("abc")` is `"ABC"`, `uppercase("a-Z 9")` is `"A-Z 9"`, `lowercase("ABC")` is `"abc"`, `lowercase("Hello, World")` is `"hello, world"`, and both give `""` for `null` |
| `Helpers.Eq` | skills/prompting/tools/RenderTemplate.ts:146-148 | nothing is strictly equal to NaN or has NaN equal to it |
| `Helpers.EqIsIdentityExceptNaN` | skills/prompting/tools/RenderTemplate.ts:146-148 | strict equality is identity of values except at NaN; it is symmetric, reflexive except at NaN, and `null` differs from `undefined` |

## Left out

- Handlebars compilation and evaluation are oracles (`Library.Engine`).
  - The real `Handlebars.compile` defers parsing to the first call of the compiled template. The validator's syntax check may therefore never report anything. The model keeps the compile outcome as the oracle's answer and does not decide this.
  - The rendered text is whatever the oracle returns.
- Render.LoadTemplate: reports a template that does not compile (`CompileFailed`) while loading, before the data file is looked at. The real `Handlebars.compile` parses lazily, so the parse error would surface only at `template(data)` (RenderTemplate.ts:168), after `loadData`. A template with a syntax error and a missing data file is therefore reported as a compile failure here, where the real tool reports the missing data file.
- YAML parsing is an oracle that only says whether, and with what message, `yaml.parse` throws.
- The filesystem is the `Paths.Host` value.
  - Existence, reading and listing are functions of the path.
  - A directory listing is an arbitrary sequence, since its order is unspecified.
  - A listing that throws is modelled: it ends the validator with status 1 (`Validate.ListingFailed`), as an uncaught exception does. The stack trace the runtime prints is left out.
  - `writeFileSync` and its errors are left out. A rendered run only names its destination.
- `path.join` and `path.resolve` are concatenation with `/`. Normalisation of `..`, `.` and repeated separators is not modelled.
- Console output (`printResult`, `printHelp`, emoji, separator lines, `Validating N templates`) is left out. Error and warning texts are datatypes, not formatted strings.
- `process.exit` is a returned status. Nothing after it runs, and no other side effect is modelled.
- `formatDate` is left out: it relies on JavaScript `Date` parsing and locale formatting.
- Helpers.Uppercase: maps ASCII letters only. Full Unicode case mapping (which can change the length of a string) is not modelled.
- Helpers.Uppercase: takes `null`, `undefined` or a string. Any other argument, such as a number, or the options object Handlebars passes when `{{uppercase}}` is given no argument, has no `toUpperCase` method, and the call throws a `TypeError` that fails the render. This error is not modelled.
- Helpers.Lowercase: maps ASCII letters only, for the same reason as `Helpers.Uppercase`.
- Helpers.Lowercase: takes `null`, `undefined` or a string. Like `uppercase`, it throws a `TypeError` on any other argument. This error is not modelled.
- Helpers.Inc: takes integers. JavaScript number rounding, and the string concatenation `+ 1` performs on a string argument, are not modelled.
- Helpers.Join: takes arrays of strings only. The conversion `Array.prototype.join` applies to non-string elements is not modelled.
- Helpers.Eq: compares numbers as mathematical reals, so `0` and `-0` are one value. Objects are compared by an identity number.
- Strings are sequences of Unicode scalar values, not UTF-16 code units.
  - The names the scanner can report are ASCII, so their order is the same under either reading.
  - The block check and the `Data Structure:` search only look for ASCII text.
- `registerHelpers` is left out: it only makes the helpers available to the engine.
