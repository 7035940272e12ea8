# AutoIssueSync, modelled in Dafny

AutoIssueSync turns source-code markers into GitHub issues. A developer tags
a method (or, for the reflection-based tool, a class) with
`[GitHubIssue(IssueType.X, Status.Y, "title", "description")]`. A tool then
finds every marker and asks the GitHub client to create one issue per marker.

This project models the marker-to-issue pipeline of the three programs in
the repository, with the Roslyn, reflection, file and Octokit plumbing
replaced by plain data:

- **Marker schema** (`marker_schema.dfy`, module `MarkerSchema`). The three
  enumerations `IssueType`, `IssueStatus` and `GitHubColumn`. Each has its
  member names, its implicit underlying values and `Enum.Parse` as an exact
  name match.
- **.NET string operations** (`strings.dfy`, module `Strings`). `Trim()`,
  `Trim('"')`, `Replace(pat, "")`, `Contains`, `Split`, `String.Join`,
  `IsNullOrEmpty` and `IsNullOrWhiteSpace`.
- **Results** (`results.dfy`, module `Results`). `null` becomes `Option`; a
  value or the exception replacing it becomes `Result`. `Collect` models a
  `foreach` loop that an uncaught exception ends.
- **GitHub requests** (`tracker.dfy`, module `Tracker`). The close and create
  calls are data. `Execute` models how a refused call interacts with the
  calling loop.
- **Marker selection** (`selection.dfy`, module `Selection`). Both analyzers
  scan the same way: every method with an attribute whose name contains
  `GitHubIssue` is kept, and its markers are parsed in file, method,
  attribute order. The three nested loops are the imperative methods
  `ScanProject`, `ScanFile` and `ScanMethod`. Each is proved equal to
  collecting the parse over `Occurrences(files)`.
- **Newer analyzer** (`analyzer.dfy`, module `Analyzer`), from
  `AutoIssueSync.Analyzer/AutoIssueSyncAnalyzer.cs`:
  - a four-argument parser;
  - the issue body template;
  - the plan `Main` attempts: close every listed issue, then create one issue
    per marker, or attempt nothing when no marker was found.
- **First analyzer** (`legacy_analyzer.dfy`, module `LegacyAnalyzer`), from
  `AutoIssueSync.Analyzer/Program.cs`. Its positional three-argument parser
  does no validation and lets a missing list through as nulls.
- **Reflection synchronizer** (`reflection_sync.dfy`, module `ReflectionSync`),
  from `AutoIssueSync.Sync/Program.cs`:
  - class-level markers go before method-level ones;
  - sources are named `Type` or `Type.Method`;
  - the Spanish title and body templates;
  - one create per marker.

The plans of both GitHub-facing programs are the requests a run attempts,
in order. `Tracker.Execute(plan, rejected, createsCaught)` gives those that
reach GitHub. That is shorter than the plan once a call is refused and the
program does not catch the refusal: a refused close in the newer analyzer,
or any refused create in the reflection synchronizer.

Facts about the source proved on the way:

- Writing the column as `IssueStatus.Y` is always rejected.
  `Replace("Status.", "")` turns it into `IssueY`, which names no member.
- Writing the column as `GitHubColumn.Y` is rejected too, and that is the form
  the demo programs use (`AutoIssueSync.Demo/Program.cs:53-67`).
- The column and the status of the same name have different underlying
  values, so any conversion between them must go by name.
- The two analyzers disagree on argument order:
  - a four-argument marker read by the first analyzer gets its type text as
    the title;
  - a three-argument marker makes the newer analyzer throw.
- The reflection synchronizer checks its token with `IsNullOrEmpty`, so a
  blank token passes there. The newer analyzer uses `IsNullOrWhiteSpace`,
  which refuses it.

The parser for the column (`AutoIssueSyncAnalyzer.cs:78`) uses an
enumeration `Status` whose declaration is not part of this model. The model
takes it to have the six member names of `IssueStatus`.

## Model

| member | source | states |
|---|---|---|
| Results.CollectSpec | AutoIssueSync.Analyzer/AutoIssueSyncAnalyzer.cs:59-63 | a loop of fallible steps succeeds iff every step does, then holding every step's value in order; otherwise it fails with the first failing step's error |
| Results.CollectAppend | AutoIssueSync.Analyzer/AutoIssueSyncAnalyzer.cs:39-65 | running the steps over a concatenation runs them over the two halves in order, a failure in the first half deciding the outcome |
| Results.FailureIsFinal | AutoIssueSync.Analyzer/AutoIssueSyncAnalyzer.cs:59-63 | once a step has thrown, nothing after it changes the outcome |
| Strings.TrimStart | AutoIssueSync.Analyzer/AutoIssueSyncAnalyzer.cs:77-80 | the result is a suffix of the input, every dropped character is one to drop, and the result does not start with one |
| Strings.TrimEnd | AutoIssueSync.Analyzer/AutoIssueSyncAnalyzer.cs:77-80 | the result is a prefix of the input, every dropped character is one to drop, and the result does not end with one |
| Strings.TrimSpec | AutoIssueSync.Analyzer/AutoIssueSyncAnalyzer.cs:77-80 | `Trim` returns the slice left between a run of dropped characters on each side, and neither starts nor ends with one |
| Strings.TrimIsSlice | AutoIssueSync.Analyzer/AutoIssueSyncAnalyzer.cs:77-80 | conversely, any slice framed by dropped characters and with kept characters at both ends is the trim |
| Strings.TrimIdempotent | AutoIssueSync.Analyzer/AutoIssueSyncAnalyzer.cs:79-80 | trimming twice is trimming once |
| Strings.TrimLeavesUntouched | AutoIssueSync.Analyzer/AutoIssueSyncAnalyzer.cs:79-80 | a string whose two ends are kept characters is its own trim |
| Strings.TrimQuotesShape | AutoIssueSync.Analyzer/AutoIssueSyncAnalyzer.cs:79-80 | `Trim('"')` leaves no `"` at either end, and a second `Trim('"')` changes nothing |
| Strings.ContainsAt | AutoIssueSync.Analyzer/AutoIssueSyncAnalyzer.cs:50 | ordinal `Contains` holds iff the substring occurs at some position |
| Strings.ShorterDoesNotContain | AutoIssueSync.Analyzer/AutoIssueSyncAnalyzer.cs:50 | a string shorter than the substring does not contain it |
| Strings.RemoveAll | AutoIssueSync.Analyzer/AutoIssueSyncAnalyzer.cs:77-78 | `Replace(pat, "")` never lengthens the string, shortens it iff it contains `pat`, and returns it unchanged otherwise |
| Strings.RemoveAllKeepsPrefix | AutoIssueSync.Analyzer/AutoIssueSyncAnalyzer.cs:77-78 | a prefix none of whose positions starts an occurrence of `pat` passes through unchanged |
| Strings.RemoveAllDropsLeading | AutoIssueSync.Analyzer/AutoIssueSyncAnalyzer.cs:77-78 | an occurrence of `pat` at the front is deleted |
| Strings.Split | AutoIssueSync.Analyzer/AutoIssueSyncAnalyzer.cs:107 | `Split(sep)` returns at least one piece and no piece holds the separator |
| Strings.JoinSplit | AutoIssueSync.Analyzer/AutoIssueSyncAnalyzer.cs:107 | joining the pieces with the separator gives the string back |
| Strings.SplitCount | AutoIssueSync.Analyzer/AutoIssueSyncAnalyzer.cs:107-108 | there is one piece more than there are separators |
| Strings.SplitWithoutSeparator | AutoIssueSync.Analyzer/AutoIssueSyncAnalyzer.cs:107 | a string without the separator is one piece |
| Strings.SplitJoin | AutoIssueSync.Analyzer/AutoIssueSyncAnalyzer.cs:162 | splitting undoes joining when no piece holds the separator |
| Strings.NullOrEmptyIsNullOrWhiteSpace | AutoIssueSync.Sync/Program.cs:19 | every token `IsNullOrEmpty` refuses, `IsNullOrWhiteSpace` refuses too, and the blank token " " is refused only by the latter |
| MarkerSchema.IssueTypeOrdinal | AutoIssueSync.Core/Enum/IssueType.cs:3-10 | a type's underlying value is its position in the declaration, and the name at that position is its name |
| MarkerSchema.ParseIssueType | AutoIssueSync.Core/Enum/IssueType.cs:5-9 | `Enum.Parse<IssueType>` succeeds iff the text is one of the five names, and then returns the member with that name |
| MarkerSchema.IssueTypeNameRoundTrip | AutoIssueSync.Core/Enum/IssueType.cs:5-9 | parsing a member's name returns the member, and no two members share a name |
| MarkerSchema.IssueTypeDeclaration | AutoIssueSync.Core/Enum/IssueType.cs:3-10 | exactly five members, TASK to FEATURE, each listed once, names in declaration order |
| MarkerSchema.IssueStatusOrdinal | AutoIssueSync.Core/Enum/IssueStatus.cs:4-12 | a status's underlying value is its position, LOW_PRIORITY = 0 to DONE = 5 |
| MarkerSchema.IssueStatusOfOrdinal | AutoIssueSync.Core/Enum/IssueStatus.cs:4-12 | an integer names a status iff it is in 0..5, and then that status's value is the integer |
| MarkerSchema.ParseIssueStatus | AutoIssueSync.Core/Enum/IssueStatus.cs:6-11 | parsing succeeds iff the text is one of the six names, and returns the member with that name |
| MarkerSchema.IssueStatusNameRoundTrip | AutoIssueSync.Core/Enum/IssueStatus.cs:6-11 | name and member round-trip; names are pairwise distinct |
| MarkerSchema.IssueStatusDeclaration | AutoIssueSync.Core/Enum/IssueStatus.cs:4-12 | exactly six members, each listed once, names in declaration order |
| MarkerSchema.GitHubColumnOrdinal | AutoIssueSync.Core/Enum/GutHubColumn.cs:9-15 | a column's underlying value is its position, TODO = 0 to DONE = 3 |
| MarkerSchema.ParseGitHubColumn | AutoIssueSync.Core/Enum/GutHubColumn.cs:11-14 | parsing succeeds iff the text is one of the four names, and returns the member with that name |
| MarkerSchema.GitHubColumnNameRoundTrip | AutoIssueSync.Core/Enum/GutHubColumn.cs:11-14 | name and member round-trip; names are pairwise distinct |
| MarkerSchema.GitHubColumnDeclaration | AutoIssueSync.Core/Enum/GutHubColumn.cs:9-15 | exactly four members, each listed once, names in declaration order |
| MarkerSchema.ColumnAsStatus | AutoIssueSync.Core/Enum/IssueStatus.cs:8-11 | every column has a status of the same name |
| MarkerSchema.ColumnNamesAreStatusNames | AutoIssueSync.Core/Enum/GutHubColumn.cs:11-14 | the column names are status names, but LOW_PRIORITY and CRITICAL name no column |
| MarkerSchema.OrdinalsDisagree | AutoIssueSync.Core/Enum/IssueStatus.cs:8-11 | a column's same-named status has a value two greater, so converting by value maps TODO to LOW_PRIORITY |
| Tracker.FirstFatal | AutoIssueSync.Analyzer/AutoIssueSyncAnalyzer.cs:166-174 | the first position whose refusal is not caught, or the plan's length when there is none |
| Tracker.Execute | AutoIssueSync.Analyzer/AutoIssueSyncAnalyzer.cs:119-129 | requests are sent in order up to and including the first uncaught refusal, which aborts the run; without one all are sent |
| Tracker.CaughtCreatesDoNotStop | AutoIssueSync.Analyzer/AutoIssueSyncAnalyzer.cs:166-174 | when only creates are refused and creates are caught, every request is sent |
| Tracker.UncaughtStopsAtFirstRejection | AutoIssueSync.Sync/Program.cs:72 | when nothing is caught, the first refused request is the last one sent |
| Selection.FilterSpec | AutoIssueSync.Analyzer/AutoIssueSyncAnalyzer.cs:46-51 | `Where` keeps exactly the elements meeting the test, and is empty iff none does |
| Selection.FilterAppend | AutoIssueSync.Analyzer/AutoIssueSyncAnalyzer.cs:55-57 | filtering keeps the original order: filtering a concatenation concatenates the filtered parts |
| Selection.Sites | AutoIssueSync.Analyzer/AutoIssueSyncAnalyzer.cs:59-63 | one occurrence per marker of a method, in attribute order, tagged with the method's identifier and the file's path |
| Selection.UnmarkedMethodContributesNothing | AutoIssueSync.Analyzer/AutoIssueSyncAnalyzer.cs:46-51 | a method without a marker yields no occurrence |
| Selection.MarkedMethodsKeepOccurrences | AutoIssueSync.Analyzer/AutoIssueSyncAnalyzer.cs:46-57 | filtering the methods down to those with a marker first changes no occurrence |
| Selection.FileOccurrencesAppend | AutoIssueSync.Analyzer/AutoIssueSyncAnalyzer.cs:53-64 | a file's methods contribute in method order |
| Selection.OccurrencesAppend | AutoIssueSync.Analyzer/AutoIssueSyncAnalyzer.cs:39-65 | files contribute in file order |
| Selection.FileOccurrencesMembership | AutoIssueSync.Analyzer/AutoIssueSyncAnalyzer.cs:53-64 | an occurrence comes from a file iff it is a marker on one of its methods, under that method's identifier and the file's path |
| Selection.OccurrencesMembership | AutoIssueSync.Analyzer/AutoIssueSyncAnalyzer.cs:39-65 | an occurrence comes from the project iff it is a marker on a method of one of its files, under that method's identifier and that file's path |
| Selection.ScanProject | AutoIssueSync.Analyzer/AutoIssueSyncAnalyzer.cs:39-65 | the loop over files returns the parse of every occurrence in order, or the first parse error |
| Selection.ScanFile | AutoIssueSync.Analyzer/AutoIssueSyncAnalyzer.cs:46-64 | the loop over a file's methods with markers returns the parse of that file's occurrences, or the first error |
| Selection.ScanMethod | AutoIssueSync.Analyzer/AutoIssueSyncAnalyzer.cs:55-63 | the loop over one method's markers returns their parses in order, or the first error |
| Analyzer.ParseGitHubIssueAttribute | AutoIssueSync.Analyzer/AutoIssueSyncAnalyzer.cs:70-91 | arity error iff no list or fewer than four arguments; success iff the type text and the column text are member names; then the record holds those names, the quote-trimmed title and description, the method and the file; each error carries the rejected text |
| Analyzer.ExtraArgumentsIgnored | AutoIssueSync.Analyzer/AutoIssueSyncAnalyzer.cs:72-75 | arguments after the fourth do not change the parse |
| Analyzer.TextsUnquoted | AutoIssueSync.Analyzer/AutoIssueSyncAnalyzer.cs:79-80 | a parsed title and description have no `"` at either end, and trimming quotes again changes nothing |
| Analyzer.QualifiedNamesAccepted | AutoIssueSync.Analyzer/AutoIssueSyncAnalyzer.cs:77-78 | `IssueType.X` or `X` with `Status.Y` or `Y` parses to type X and column Y |
| Analyzer.AcceptsNames | AutoIssueSync.Analyzer/AutoIssueSyncAnalyzer.cs:77-88 | arguments whose normalised texts are member names parse, storing those names |
| Analyzer.RejectsColumn | AutoIssueSync.Analyzer/AutoIssueSyncAnalyzer.cs:78 | a valid type with a column text naming no member fails on the column, reporting that text |
| Analyzer.IssueStatusColumnText | AutoIssueSync.Analyzer/AutoIssueSyncAnalyzer.cs:78 | the column text of `IssueStatus.Y` is `IssueY`, which names no status |
| Analyzer.IssueStatusQualifiedRejected | AutoIssueSync.Analyzer/AutoIssueSyncAnalyzer.cs:78 | a marker whose column is written `IssueStatus.Y` is rejected with the text `IssueY` |
| Analyzer.GitHubColumnColumnText | AutoIssueSync.Analyzer/AutoIssueSyncAnalyzer.cs:78 | the column text of `GitHubColumn.Y` is that text unchanged, which names no status |
| Analyzer.GitHubColumnQualifiedRejected | AutoIssueSync.Analyzer/AutoIssueSyncAnalyzer.cs:78 | a marker whose column is written `GitHubColumn.Y`, as the demos write it, is rejected with that text |
| Analyzer.AnalysisResultShape | AutoIssueSync.Analyzer/AutoIssueSyncAnalyzer.cs:53-63 | a successful analysis has one issue per marker occurrence, in order, under its method and file, with a valid type name and column name |
| Analyzer.AnalysisFailsOnAnyBadMarker | AutoIssueSync.Analyzer/AutoIssueSyncAnalyzer.cs:59-63 | the analysis fails iff some marker fails to parse |
| Analyzer.Target | AutoIssueSync.Analyzer/AutoIssueSyncAnalyzer.cs:95-115 | a repository is found iff the token is not blank and GITHUB_REPOSITORY holds exactly one '/', and then it is the owner and name around that '/' |
| Analyzer.BodyIsJoinedLines | AutoIssueSync.Analyzer/AutoIssueSyncAnalyzer.cs:160-163 | the body is the five labelled lines, description to file in fixed order, joined with line breaks |
| Analyzer.BodyLayout | AutoIssueSync.Analyzer/AutoIssueSyncAnalyzer.cs:160-163 | when no field spans lines, the body splits back into exactly its five labelled lines |
| Analyzer.ClosePlan | AutoIssueSync.Analyzer/AutoIssueSyncAnalyzer.cs:93-130 | nothing without a repository; otherwise one close per listed issue number, in list order |
| Analyzer.CreatePlan | AutoIssueSync.Analyzer/AutoIssueSyncAnalyzer.cs:132-176 | nothing without a repository; otherwise one create per issue, in order, with the issue's title, its body and its type as the only label |
| Analyzer.RemoveAllExistingIssuesFromGitHub | AutoIssueSync.Analyzer/AutoIssueSyncAnalyzer.cs:93-130 | the loop attempts exactly the close plan |
| Analyzer.SyncIssuesWithGitHub | AutoIssueSync.Analyzer/AutoIssueSyncAnalyzer.cs:132-176 | the loop attempts exactly the create plan |
| Analyzer.Run | AutoIssueSync.Analyzer/AutoIssueSyncAnalyzer.cs:11-32 | `Main` ends as the run specification: analysis failure, no issues, or the closes followed by the creates |
| Analyzer.NothingSentWithoutIssues | AutoIssueSync.Analyzer/AutoIssueSyncAnalyzer.cs:21-27 | a failed analysis or one with no issue sends nothing; the run reaches the GitHub steps iff the analysis found at least one issue |
| Analyzer.PlanLayout | AutoIssueSync.Analyzer/AutoIssueSyncAnalyzer.cs:30-31 | with a repository, the plan is one close per listed number in order, followed by one create per issue in order |
| Analyzer.PlanOrder | AutoIssueSync.Analyzer/AutoIssueSyncAnalyzer.cs:30-31 | a request of the plan is a create iff it comes after all the closes |
| Analyzer.RunShape | AutoIssueSync.Analyzer/AutoIssueSyncAnalyzer.cs:21-31 | a synchronizing run found one issue per marker and at least one; it attempts every listed close in order and then one create per issue; without a repository it attempts nothing |
| Analyzer.ClosesPrecedeCreates | AutoIssueSync.Analyzer/AutoIssueSyncAnalyzer.cs:30-31 | no close comes after a create |
| Analyzer.PlanLabels | AutoIssueSync.Analyzer/AutoIssueSyncAnalyzer.cs:164 | every create carries exactly one label, an issue type name, when the issues' types are type names |
| Analyzer.LabelsAreIssueTypes | AutoIssueSync.Analyzer/AutoIssueSyncAnalyzer.cs:164 | every label on a created issue is one of the five issue type names |
| Analyzer.RefusedCreatesDoNotStopLaterCreates | AutoIssueSync.Analyzer/AutoIssueSyncAnalyzer.cs:166-174 | as long as no close is refused, every create of the plan is sent, however many creates GitHub refuses |
| LegacyAnalyzer.ParseLegacyAttribute | AutoIssueSync.Analyzer/Program.cs:63-79 | no list gives three nulls; a list of fewer than three fails at the first missing index; otherwise quote-trimmed arguments 0 and 1 and the type text of argument 2, with the method and file |
| LegacyAnalyzer.LegacyMain | AutoIssueSync.Analyzer/Program.cs:25-51 | the nested loops collect the parse of every marker in order, or stop at the first index error |
| LegacyAnalyzer.LegacyAnalysisShape | AutoIssueSync.Analyzer/Program.cs:25-51 | the run fails iff some marker has an argument list of fewer than three arguments, an empty `()` list included; otherwise there is one issue per marker, under its method and file |
| LegacyAnalyzer.LegacyTitleUnquoted | AutoIssueSync.Analyzer/Program.cs:67 | a title that is present has no `"` at either end |
| LegacyAnalyzer.LegacyDescriptionUnquoted | AutoIssueSync.Analyzer/Program.cs:68 | a description that is present has no `"` at either end |
| LegacyAnalyzer.LegacyStoresTypeName | AutoIssueSync.Analyzer/Program.cs:69 | `IssueType.X` or `X` as the third argument is stored as X |
| LegacyAnalyzer.LegacyKeepsUnknownType | AutoIssueSync.Analyzer/Program.cs:69 | a type text naming no member is stored anyway, where the newer parser rejects the same text |
| LegacyAnalyzer.NewOrderMisread | AutoIssueSync.Analyzer/Program.cs:67-68 | a marker in the four-argument order is read with its `IssueType.X` text as the title and its `Status.Y` text as the description |
| LegacyAnalyzer.OldOrderRejectedByNewParser | AutoIssueSync.Analyzer/Program.cs:63-79 | a three-argument marker parses here but makes the newer parser fail on arity |
| ReflectionSync.MarkerRequests | AutoIssueSync.Sync/Program.cs:60-74 | one create per marker of a source, in order |
| ReflectionSync.CreateAll | AutoIssueSync.Sync/Program.cs:37-40 | the loop over one source's markers attempts exactly that source's creates |
| ReflectionSync.SyncType | AutoIssueSync.Sync/Program.cs:33-53 | the loop body for one type attempts its class-level creates, then its methods' creates, method by method |
| ReflectionSync.SyncMain | AutoIssueSync.Sync/Program.cs:9-57 | `Main` attempts nothing without a token, otherwise every type's creates in type order |
| ReflectionSync.OnlyCreates | AutoIssueSync.Sync/Program.cs:60-74 | every request creates an issue in mi-org/AutoIssueSync with one label, an issue type name; nothing is closed or updated |
| ReflectionSync.OneCreatePerMarker | AutoIssueSync.Sync/Program.cs:31-54 | the number of creates equals the number of markers, class-level and method-level |
| ReflectionSync.ClassMarkersFirst | AutoIssueSync.Sync/Program.cs:33-40 | a type's class-level markers are attempted first, in order, under the bare type name |
| ReflectionSync.RefusedCreateEndsRun | AutoIssueSync.Sync/Program.cs:72 | creates are not guarded, so the first refused create is the last request sent |
| ReflectionSync.NoTokenNoRequests | AutoIssueSync.Sync/Program.cs:18-23 | a null or empty token sends nothing |
| ReflectionSync.WhiteSpaceTokenPasses | AutoIssueSync.Sync/Program.cs:19 | a blank token passes the check, so the whole plan is attempted; `Tracker.Execute(requests, rejected, false)` gives the requests that reach GitHub |
| ReflectionSync.SourcesDistinct | AutoIssueSync.Sync/Program.cs:51 | when names hold no '.', a method source determines its type and method and never equals a type source |
| ReflectionSync.TitleEndsWithSource | AutoIssueSync.Sync/Program.cs:66 | the title is the marker's title, then the source in parentheses |
| ReflectionSync.SyncBodyIsJoinedLines | AutoIssueSync.Sync/Program.cs:68 | the body is the description, type and column lines joined with line breaks |
| ReflectionSync.SyncBodyLayout | AutoIssueSync.Sync/Program.cs:68 | when the description is one line, the body splits back into exactly its three labelled lines |

## Left out

- Roslyn parsing, `Directory.GetFiles` and `File.ReadAllText`: files, methods, attributes and argument texts are inputs.
- The first analyzer's `issues.json` output and all console output: these are I/O with no logic.
- Reflection (`Assembly.Load`, `GetTypes`, `GetCustomAttributes`, `GetMethods`): the types and their markers are inputs, in enumeration order.
- The Octokit client, credentials and HTTP: requests are data.
- Which issues `GetAllForRepository` returns: its list of issue numbers is an input, since the library's defaults are not visible here.
- Environment variables: they are parameters (`Analyzer.Env`, the token of `ReflectionSync.SyncRun`).
- The `args.Length < 1` usage check of the two analyzer `Main`s (`AutoIssueSync.Analyzer/AutoIssueSyncAnalyzer.cs:13-17` and `AutoIssueSync.Analyzer/Program.cs:13-17`): each is modelled after the check has passed. The synchronizer's `Main` has no such check.
- `async`/`await`: execution is strictly sequential.
- `Enum.Parse` accepts numeric strings and comma-separated lists: parsing is modelled as an exact, case-sensitive name match.
- ReflectionSync.SyncMarker holds only named enum members: a marker built with a cast such as `(IssueType)7` is not modelled, although `ToString()` would then label the issue "7" (`AutoIssueSync.Sync/Program.cs:71`).
- The `Status` enumeration is not part of this model; its member names are taken to be those of `IssueStatus`.
- `AutoIssueSync.Core/Attributes/GitHubIssueAttribute .cs` declares a second `IssueStatus` with STAGE in place of TODO. The model follows `AutoIssueSync.Core/Enum/IssueStatus.cs`.
- `AutoIssueSync/Program.cs` and `AutoIssueSync.Demo/Program.cs` are demos that print; only their marker forms are used, in `Analyzer.GitHubColumnQualifiedRejected`.
- Analyzer.Target: the token and repository guards are read once for both GitHub steps. The source reads the same variables twice. Nothing changes them in between, so both reads agree.
- A failing `GetAllForRepository` call (for example on a repository that does not exist) is not modelled: it throws uncaught and ends `Main` before any close or create, but the model takes the listed numbers as given.
- The refused calls of the Octokit client are given as a set of positions in the plan. Why a call is refused is not modelled.
- `Char.IsWhiteSpace` is the Unicode White_Space set as listed in `Strings.IsWhiteSpace`. Escapes inside argument texts are not decoded, as in the source.
