/**
 * AutoIssueSync.Analyzer/AutoIssueSyncAnalyzer.cs: scan the project's method
 * declarations for markers, parse each marker's four positional arguments
 * `(issueType, gitHubColumn, title, description)` into an `Issue`, and, if
 * any issue was found, close every issue the repository lists and then
 * create one issue per marker.
 *
 * The column argument is parsed against an enumeration `Status` whose
 * declaration is not part of this model; it is taken to have the six member
 * names of `IssueStatus`.
 */
module Analyzer {
  import opened Results
  import opened Strings
  import opened MarkerSchema
  import opened Selection
  import opened Tracker

  /** The analyzer's `Issue` record: every field is a string. */
  datatype Issue = Issue(
    methodName: string,
    title: string,
    description: string,
    issueType: string,
    gitHubColumn: string,
    filePath: string)

  /** Why `ParseGitHubIssueAttribute` throws an `ArgumentException`. */
  datatype ParseError =
    | WrongArity                      // no argument list, or fewer than four arguments
    | UnknownIssueType(text: string)  // `Enum.Parse<IssueType>` refused this text
    | UnknownColumn(text: string)     // `Enum.Parse<Status>` refused this text

  const IssueTypePrefix: string := "IssueType."
  const StatusPrefix: string := "Status."

  /** The text handed to `Enum.Parse<IssueType>`: every "IssueType." deleted, then white space trimmed. */
  function IssueTypeText(argument: string): string {
    TrimWhiteSpace(RemoveAll(argument, IssueTypePrefix))
  }

  /** The text handed to `Enum.Parse<Status>`: every "Status." deleted, then white space trimmed. */
  function ColumnText(argument: string): string {
    TrimWhiteSpace(RemoveAll(argument, StatusPrefix))
  }

  /**
   * Parses one marker. Fewer than four arguments (or none at all) is an
   * arity error; otherwise the issue type and then the column must name a
   * member, and the title and description are the raw argument texts with
   * their surrounding quotes stripped. Arguments after the fourth are ignored.
   */
  function ParseGitHubIssueAttribute(attribute: Attribute, methodName: string, filePath: string)
    : (r: Result<Issue, ParseError>)
    ensures r == Failure(WrongArity) <==>
              attribute.arguments.None? || |attribute.arguments.value| < 4
    ensures r.Success? <==>
              && attribute.arguments.Some? && |attribute.arguments.value| >= 4
              && IssueTypeText(attribute.arguments.value[0]) in IssueTypeNames
              && ColumnText(attribute.arguments.value[1]) in IssueStatusNames
    ensures r.Success? ==>
              var args := attribute.arguments.value;
              && r.value.methodName == methodName
              && r.value.filePath == filePath
              && r.value.issueType == IssueTypeText(args[0])
              && r.value.gitHubColumn == ColumnText(args[1])
              && r.value.title == TrimQuotes(args[2])
              && r.value.description == TrimQuotes(args[3])
    ensures r.Failure? && r.error.UnknownIssueType? ==>
              r.error.text == IssueTypeText(attribute.arguments.value[0]) && r.error.text !in IssueTypeNames
    ensures r.Failure? && r.error.UnknownColumn? ==>
              && IssueTypeText(attribute.arguments.value[0]) in IssueTypeNames
              && r.error.text == ColumnText(attribute.arguments.value[1])
              && r.error.text !in IssueStatusNames
  {
    match attribute.arguments
    case None => Failure(WrongArity)
    case Some(args) =>
      if |args| < 4 then Failure(WrongArity)
      else
        match ParseIssueType(IssueTypeText(args[0]))
        case None => Failure(UnknownIssueType(IssueTypeText(args[0])))
        case Some(issueType) =>
          match ParseIssueStatus(ColumnText(args[1]))
          case None => Failure(UnknownColumn(ColumnText(args[1])))
          case Some(column) =>
            Success(Issue(
              methodName,
              TrimQuotes(args[2]),
              TrimQuotes(args[3]),
              IssueTypeName(issueType),
              IssueStatusName(column),
              filePath))
  }

  function ParseOccurrence(o: Occurrence): Result<Issue, ParseError> {
    ParseGitHubIssueAttribute(o.attribute, o.methodName, o.filePath)
  }

  /** What `AnalyzeProject` returns, or the exception that escapes it. */
  function Analyze(files: seq<SourceFile>): Result<seq<Issue>, ParseError> {
    Collect(Occurrences(files), ParseOccurrence)
  }

  // ------------------------------------------------------------ what is parsed

  /** Every issue the analysis returns names a real issue type and column, one issue per marker. */
  lemma AnalysisResultShape(files: seq<SourceFile>)
    ensures var occurrences := Occurrences(files);
            Analyze(files).Success? ==>
              var issues := Analyze(files).value;
              && |issues| == |occurrences|
              && forall k :: 0 <= k < |issues| ==>
                   && issues[k].issueType in IssueTypeNames
                   && issues[k].gitHubColumn in IssueStatusNames
                   && issues[k].methodName == occurrences[k].methodName
                   && issues[k].filePath == occurrences[k].filePath
  {
    var occurrences := Occurrences(files);
    CollectSpec(occurrences, ParseOccurrence);
    if Analyze(files).Success? {
      var issues := Analyze(files).value;
      forall k | 0 <= k < |issues|
        ensures issues[k].issueType in IssueTypeNames && issues[k].gitHubColumn in IssueStatusNames
      {
        assert ParseOccurrence(occurrences[k]) == Success(issues[k]);
      }
    }
  }

  /** The analysis fails exactly when some marker fails to parse. */
  lemma AnalysisFailsOnAnyBadMarker(files: seq<SourceFile>)
    ensures Analyze(files).Failure? <==>
              exists o :: o in Occurrences(files) && ParseOccurrence(o).Failure?
  {
    var occurrences := Occurrences(files);
    CollectSpec(occurrences, ParseOccurrence);
    if exists o :: o in occurrences && ParseOccurrence(o).Failure? {
      var o :| o in occurrences && ParseOccurrence(o).Failure?;
      var k :| 0 <= k < |occurrences| && occurrences[k] == o;
    }
  }

  /** Only the first four arguments and not the attribute's name matter to the parse. */
  lemma ExtraArgumentsIgnored(name: string, args: seq<string>, methodName: string, filePath: string)
    requires |args| >= 4
    ensures ParseGitHubIssueAttribute(Attribute(name, Some(args)), methodName, filePath) ==
            ParseGitHubIssueAttribute(Attribute(MarkerName, Some(args[..4])), methodName, filePath)
  {
    var first := args[..4];
    assert first[0] == args[0] && first[1] == args[1] && first[2] == args[2] && first[3] == args[3];
  }

  /** A parsed title and description carry no quote at either end, so trimming them again changes nothing. */
  lemma TextsUnquoted(attribute: Attribute, methodName: string, filePath: string)
    requires ParseGitHubIssueAttribute(attribute, methodName, filePath).Success?
    ensures var issue := ParseGitHubIssueAttribute(attribute, methodName, filePath).value;
            Unquoted(issue.title) && Unquoted(issue.description)
  {
    var args := attribute.arguments.value;
    var issue := ParseGitHubIssueAttribute(attribute, methodName, filePath).value;
    assert issue.title == TrimQuotes(args[2]) && issue.description == TrimQuotes(args[3]);
    TrimQuotesShape(args[2]);
    TrimQuotesShape(args[3]);
  }

  /** Deleting `pat` leaves a string alone when the first character of `pat` is not in it. */
  lemma RemoveAllWithoutStart(s: string, pat: string)
    requires pat != [] && pat[0] !in s
    ensures RemoveAll(s, pat) == s
  {
    RemoveAllSkipsPrefix(s, [], pat);
    assert s + [] == s;
  }

  lemma RemoveAllSkipsPrefix(a: string, s: string, pat: string)
    requires pat != [] && pat[0] !in a
    ensures RemoveAll(a + s, pat) == a + RemoveAll(s, pat)
  {
    forall k | 0 <= k < |a|
      ensures !(pat <= (a + s)[k..])
    {
      assert (a + s)[k..][0] == a[k];
    }
    RemoveAllKeepsPrefix(a, s, pat);
  }

  /** No member name of IssueStatus contains "Status.". */
  lemma StatusNameSurvives(s: IssueStatus)
    ensures RemoveAll(IssueStatusName(s), StatusPrefix) == IssueStatusName(s)
  {
    if s == IssueStatus.IN_PROGRESS {
      RemoveAllSkipsPrefix("IN_PROGRE", "SS", StatusPrefix);
      ShorterDoesNotContain("SS", StatusPrefix);
      assert "IN_PROGRE" + "SS" == "IN_PROGRESS";
    } else {
      RemoveAllWithoutStart(IssueStatusName(s), StatusPrefix);
    }
  }

  /** No member name of IssueType contains "IssueType.". */
  lemma IssueTypeNameSurvives(t: IssueType)
    ensures RemoveAll(IssueTypeName(t), IssueTypePrefix) == IssueTypeName(t)
  {
    ShorterDoesNotContain(IssueTypeName(t), IssueTypePrefix);
  }

  /** No member name begins or ends with white space. */
  lemma IssueTypeNameTrimmed(t: IssueType)
    ensures TrimWhiteSpace(IssueTypeName(t)) == IssueTypeName(t)
  {
    TrimLeavesUntouched(IssueTypeName(t), IsWhiteSpace);
  }

  lemma IssueStatusNameTrimmed(s: IssueStatus)
    ensures TrimWhiteSpace(IssueStatusName(s)) == IssueStatusName(s)
  {
    TrimLeavesUntouched(IssueStatusName(s), IsWhiteSpace);
  }

  /** A name that contains no `pat` and has no white space at its ends is what normalising `pat + name` gives. */
  lemma NormalizesToName(name: string, pat: string)
    requires pat != []
    requires RemoveAll(name, pat) == name && TrimWhiteSpace(name) == name
    ensures TrimWhiteSpace(RemoveAll(pat + name, pat)) == name
  {
    RemoveAllDropsLeading(name, pat);
  }

  /** The type text of `IssueType.X` is X's name. */
  lemma IssueTypeTextOfQualifiedName(t: IssueType)
    ensures IssueTypeText(IssueTypePrefix + IssueTypeName(t)) == IssueTypeName(t)
  {
    IssueTypeNameSurvives(t);
    IssueTypeNameTrimmed(t);
    NormalizesToName(IssueTypeName(t), IssueTypePrefix);
  }

  /** The type text of plain `X` is X's name. */
  lemma IssueTypeTextOfName(t: IssueType)
    ensures IssueTypeText(IssueTypeName(t)) == IssueTypeName(t)
  {
    IssueTypeNameSurvives(t);
    IssueTypeNameTrimmed(t);
  }

  /** The column text of `Status.Y` is Y's name. */
  lemma ColumnTextOfQualifiedName(s: IssueStatus)
    ensures ColumnText(StatusPrefix + IssueStatusName(s)) == IssueStatusName(s)
  {
    StatusNameSurvives(s);
    IssueStatusNameTrimmed(s);
    NormalizesToName(IssueStatusName(s), StatusPrefix);
  }

  /** The column text of plain `Y` is Y's name. */
  lemma ColumnTextOfName(s: IssueStatus)
    ensures ColumnText(IssueStatusName(s)) == IssueStatusName(s)
  {
    StatusNameSurvives(s);
    IssueStatusNameTrimmed(s);
  }

  lemma RemoveStatusFromIssueStatus(s: IssueStatus)
    ensures RemoveAll("IssueStatus." + IssueStatusName(s), StatusPrefix) == "Issue" + IssueStatusName(s)
  {
    assert "IssueStatus." + IssueStatusName(s) == "Issue" + (StatusPrefix + IssueStatusName(s));
    RemoveAllSkipsPrefix("Issue", StatusPrefix + IssueStatusName(s), StatusPrefix);
    RemoveAllDropsLeading(IssueStatusName(s), StatusPrefix);
    StatusNameSurvives(s);
  }

  lemma IssuePrefixedNameTrimmed(s: IssueStatus)
    ensures TrimWhiteSpace("Issue" + IssueStatusName(s)) == "Issue" + IssueStatusName(s)
  {
    TrimLeavesUntouched("Issue" + IssueStatusName(s), IsWhiteSpace);
  }

  lemma RemoveStatusFromGitHubColumn(c: GitHubColumn)
    ensures RemoveAll("GitHubColumn." + GitHubColumnName(c), StatusPrefix) == "GitHubColumn." + GitHubColumnName(c)
  {
    RemoveAllSkipsPrefix("GitHubColumn.", GitHubColumnName(c), StatusPrefix);
    StatusNameSurvives(ColumnAsStatus(c));
  }

  lemma GitHubColumnPrefixedNameTrimmed(c: GitHubColumn)
    ensures TrimWhiteSpace("GitHubColumn." + GitHubColumnName(c)) == "GitHubColumn." + GitHubColumnName(c)
  {
    TrimLeavesUntouched("GitHubColumn." + GitHubColumnName(c), IsWhiteSpace);
  }

  /** The column text of `GitHubColumn.Y` is that text unchanged. */
  lemma ColumnTextOfGitHubColumn(c: GitHubColumn)
    ensures ColumnText("GitHubColumn." + GitHubColumnName(c)) == "GitHubColumn." + GitHubColumnName(c)
  {
    RemoveStatusFromGitHubColumn(c);
    GitHubColumnPrefixedNameTrimmed(c);
  }

  /** A marker whose first two texts are member names X and Y parses, with type X and column Y. */
  lemma AcceptsNames(args: seq<string>, t: IssueType, s: IssueStatus, methodName: string, filePath: string)
    requires |args| >= 4
    requires IssueTypeText(args[0]) == IssueTypeName(t) && ColumnText(args[1]) == IssueStatusName(s)
    ensures var r := ParseGitHubIssueAttribute(Attribute(MarkerName, Some(args)), methodName, filePath);
            && r.Success?
            && r.value.issueType == IssueTypeName(t)
            && r.value.gitHubColumn == IssueStatusName(s)
  {
    IssueTypeNameRoundTrip(t, t);
    IssueStatusNameRoundTrip(s, s);
  }

  /** A marker whose first text is a type name and whose column text names no member fails on the column. */
  lemma RejectsColumn(args: seq<string>, t: IssueType, column: string, methodName: string, filePath: string)
    requires |args| >= 4
    requires IssueTypeText(args[0]) == IssueTypeName(t) && ColumnText(args[1]) == column
    requires column !in IssueStatusNames
    ensures ParseGitHubIssueAttribute(Attribute(MarkerName, Some(args)), methodName, filePath) ==
              Failure(UnknownColumn(column))
  {
    IssueTypeNameRoundTrip(t, t);
  }

  /** No member name of IssueStatus has 's' or 'i' (or anything but O, R, N, E) as its second character. */
  lemma NotAStatusName(x: string)
    requires |x| >= 2 && x[1] != 'O' && x[1] != 'R' && x[1] != 'N' && x[1] != 'E'
    ensures x !in IssueStatusNames
  {
    assert "LOW_PRIORITY"[1] == 'O' && "CRITICAL"[1] == 'R' && "TODO"[1] == 'O';
    assert "IN_PROGRESS"[1] == 'N' && "REVIEW"[1] == 'E' && "DONE"[1] == 'O';
  }

  /** `IssueType.X` and `Status.Y`, each qualified or not, parse to X and Y. */
  lemma QualifiedNamesAccepted(args: seq<string>, t: IssueType, s: IssueStatus, methodName: string, filePath: string)
    requires |args| >= 4
    requires args[0] == IssueTypePrefix + IssueTypeName(t) || args[0] == IssueTypeName(t)
    requires args[1] == StatusPrefix + IssueStatusName(s) || args[1] == IssueStatusName(s)
    ensures var r := ParseGitHubIssueAttribute(Attribute(MarkerName, Some(args)), methodName, filePath);
            && r.Success?
            && r.value.issueType == IssueTypeName(t)
            && r.value.gitHubColumn == IssueStatusName(s)
  {
    TypeArgumentText(args[0], t);
    ColumnArgumentText(args[1], s);
    AcceptsNames(args, t, s, methodName, filePath);
  }

  /** The type argument `IssueType.X` or `X` has type text X. */
  lemma TypeArgumentText(a: string, t: IssueType)
    requires a == IssueTypePrefix + IssueTypeName(t) || a == IssueTypeName(t)
    ensures IssueTypeText(a) == IssueTypeName(t)
  {
    IssueTypeTextOfQualifiedName(t);
    IssueTypeTextOfName(t);
  }

  /** The column argument `Status.Y` or `Y` has column text Y. */
  lemma ColumnArgumentText(a: string, s: IssueStatus)
    requires a == StatusPrefix + IssueStatusName(s) || a == IssueStatusName(s)
    ensures ColumnText(a) == IssueStatusName(s)
  {
    ColumnTextOfQualifiedName(s);
    ColumnTextOfName(s);
  }

  /** The column text of `IssueStatus.Y` is "IssueY", which names no status. */
  lemma IssueStatusColumnText(s: IssueStatus)
    ensures var x := "IssueStatus." + IssueStatusName(s);
            ColumnText(x) == "Issue" + IssueStatusName(s) && ColumnText(x) !in IssueStatusNames
  {
    ColumnTextOfIssueStatus(s);
    IssuePrefixedNameIsNoStatus(s);
  }

  lemma ColumnTextOfIssueStatus(s: IssueStatus)
    ensures ColumnText("IssueStatus." + IssueStatusName(s)) == "Issue" + IssueStatusName(s)
  {
    RemoveStatusFromIssueStatus(s);
    IssuePrefixedNameTrimmed(s);
  }

  lemma IssuePrefixedNameIsNoStatus(s: IssueStatus)
    ensures "Issue" + IssueStatusName(s) !in IssueStatusNames
  {
    var x := "Issue" + IssueStatusName(s);
    assert x[1] == 's';
    NotAStatusName(x);
  }

  /** The column text of `GitHubColumn.Y` is that text unchanged, which names no status. */
  lemma GitHubColumnColumnText(c: GitHubColumn)
    ensures var x := "GitHubColumn." + GitHubColumnName(c); ColumnText(x) == x && x !in IssueStatusNames
  {
    ColumnTextOfGitHubColumn(c);
    NotAStatusName("GitHubColumn." + GitHubColumnName(c));
  }

  /**
   * Writing the column as `IssueStatus.Y` fails: deleting "Status." leaves
   * "IssueY", which names no member (so `IssueStatus.TODO` becomes "IssueTODO").
   */
  lemma IssueStatusQualifiedRejected(args: seq<string>, t: IssueType, s: IssueStatus, methodName: string, filePath: string)
    requires |args| >= 4
    requires args[0] == IssueTypePrefix + IssueTypeName(t) || args[0] == IssueTypeName(t)
    requires args[1] == "IssueStatus." + IssueStatusName(s)
    ensures ParseGitHubIssueAttribute(Attribute(MarkerName, Some(args)), methodName, filePath) ==
              Failure(UnknownColumn("Issue" + IssueStatusName(s)))
  {
    TypeArgumentText(args[0], t);
    IssueStatusColumnText(s);
    RejectsColumn(args, t, "Issue" + IssueStatusName(s), methodName, filePath);
  }

  /**
   * Writing the column as `GitHubColumn.Y`, as the demo programs do, fails:
   * the text has no "Status." to delete and is not a member name.
   */
  lemma GitHubColumnQualifiedRejected(args: seq<string>, t: IssueType, c: GitHubColumn, methodName: string, filePath: string)
    requires |args| >= 4
    requires args[0] == IssueTypePrefix + IssueTypeName(t) || args[0] == IssueTypeName(t)
    requires args[1] == "GitHubColumn." + GitHubColumnName(c)
    ensures ParseGitHubIssueAttribute(Attribute(MarkerName, Some(args)), methodName, filePath) ==
              Failure(UnknownColumn(args[1]))
  {
    TypeArgumentText(args[0], t);
    GitHubColumnColumnText(c);
    RejectsColumn(args, t, args[1], methodName, filePath);
  }

  // ------------------------------------------------------------ the GitHub side

  /** The environment variables GITHUB_TOKEN and GITHUB_REPOSITORY (None when unset). */
  datatype Env = Env(githubToken: Option<string>, githubRepository: Option<string>)

  /**
   * The repository both GitHub steps talk to, or None when either of their
   * guards makes them return without a request: a blank token, or a
   * GITHUB_REPOSITORY that is unset or does not split on '/' into exactly
   * two parts.
   */
  function Target(env: Env): (r: Option<Repo>)
    ensures r.Some? <==>
              && !IsNullOrWhiteSpace(env.githubToken)
              && env.githubRepository.Some?
              && multiset(env.githubRepository.value)['/'] == 1
    ensures r.Some? ==>
              && env.githubRepository.value == r.value.owner + "/" + r.value.name
              && '/' !in r.value.owner && '/' !in r.value.name
  {
    if IsNullOrWhiteSpace(env.githubToken) then None
    else
      match env.githubRepository
      case None => None
      case Some(repository) =>
        var repoInfo := Split(repository, '/');
        JoinSplit(repository, '/');
        SplitCount(repository, '/');
        if |repoInfo| != 2 then None
        else
          assert Join(repoInfo, '/') == repoInfo[0] + "/" + repoInfo[1];
          Some(Repo(repoInfo[0], repoInfo[1]))
  }

  /** The body of a created issue: five labelled lines, in this fixed order. */
  function IssueBody(issue: Issue): string {
    "**Description**: " + issue.description + "\n" +
    "**Issue Type**: " + issue.issueType + "\n" +
    "**GitHub Column**: " + issue.gitHubColumn + "\n" +
    "**Affected Method**: " + issue.methodName + "\n" +
    "**File**: " + issue.filePath
  }

  function BodyLines(issue: Issue): seq<string> {
    [ "**Description**: " + issue.description,
      "**Issue Type**: " + issue.issueType,
      "**GitHub Column**: " + issue.gitHubColumn,
      "**Affected Method**: " + issue.methodName,
      "**File**: " + issue.filePath ]
  }

  predicate SingleLine(s: string) {
    '\n' !in s
  }

  /** The line-break-separated form of five lines, nested the way `Join` builds it. */
  lemma JoinFive(a: string, b: string, c: string, d: string, e: string)
    ensures Join([a, b, c, d, e], '\n') == a + "\n" + (b + "\n" + (c + "\n" + (d + "\n" + e)))
  {
    assert [d, e][1..] == [e];
    assert Join([d, e], '\n') == d + "\n" + e;
    assert [c, d, e][1..] == [d, e];
    assert Join([c, d, e], '\n') == c + "\n" + (d + "\n" + e);
    assert [b, c, d, e][1..] == [c, d, e];
    assert Join([b, c, d, e], '\n') == b + "\n" + (c + "\n" + (d + "\n" + e));
    assert [a, b, c, d, e][1..] == [b, c, d, e];
  }

  /** Regrouping a left-nested concatenation of five lines and their breaks. */
  lemma Regroup(a: string, b: string, c: string, d: string, e: string, nl: string)
    ensures a + nl + b + nl + c + nl + d + nl + e == a + nl + (b + nl + (c + nl + (d + nl + e)))
  {
  }

  /** Each line break of the body starts the next label. */
  lemma BodyNesting(issue: Issue)
    ensures var lines := BodyLines(issue);
            IssueBody(issue) == lines[0] + "\n" + (lines[1] + "\n" + (lines[2] + "\n" + (lines[3] + "\n" + lines[4])))
  {
    var lines := BodyLines(issue);
    Regroup(lines[0], lines[1], lines[2], lines[3], lines[4], "\n");
  }

  /** Joining the five lines with line breaks gives the body. */
  lemma BodyIsJoinedLines(issue: Issue)
    ensures Join(BodyLines(issue), '\n') == IssueBody(issue)
  {
    var lines := BodyLines(issue);
    JoinFive(lines[0], lines[1], lines[2], lines[3], lines[4]);
    BodyNesting(issue);
  }

  /** When no field spans lines, the body splits back into exactly its five labelled lines. */
  lemma BodyLayout(issue: Issue)
    requires SingleLine(issue.description) && SingleLine(issue.issueType) && SingleLine(issue.gitHubColumn)
    requires SingleLine(issue.methodName) && SingleLine(issue.filePath)
    ensures Split(IssueBody(issue), '\n') == BodyLines(issue)
  {
    BodyIsJoinedLines(issue);
    SplitJoin(BodyLines(issue), '\n');
  }

  /** `new NewIssue(issue.Title) { Body = … }` with the one label `issue.IssueType`. */
  function NewIssueFor(issue: Issue): NewIssue {
    NewIssue(issue.title, IssueBody(issue), [issue.issueType])
  }

  /** The closes `RemoveAllExistingIssuesFromGitHub` attempts for the listed issue numbers. */
  function ClosePlan(env: Env, existing: seq<int>): (r: seq<Request>)
    ensures Target(env).None? ==> r == []
    ensures Target(env).Some? ==>
              |r| == |existing| && forall k :: 0 <= k < |r| ==> r[k] == Close(Target(env).value, existing[k])
  {
    match Target(env)
    case None => []
    case Some(repo) => seq(|existing|, k requires 0 <= k < |existing| => Close(repo, existing[k]))
  }

  /** The creates `SyncIssuesWithGitHub` attempts, one per issue, in order. */
  function CreatePlan(env: Env, issues: seq<Issue>): (r: seq<Request>)
    ensures Target(env).None? ==> r == []
    ensures Target(env).Some? ==>
              |r| == |issues| && forall k :: 0 <= k < |r| ==> r[k] == Create(Target(env).value, NewIssueFor(issues[k]))
  {
    match Target(env)
    case None => []
    case Some(repo) => seq(|issues|, k requires 0 <= k < |issues| => Create(repo, NewIssueFor(issues[k])))
  }

  /** `RemoveAllExistingIssuesFromGitHub`, given what `GetAllForRepository` lists. */
  method RemoveAllExistingIssuesFromGitHub(env: Env, existing: seq<int>) returns (requests: seq<Request>)
    ensures requests == ClosePlan(env, existing)
  {
    requests := [];
    var target := Target(env);
    if target.None? {
      return;
    }
    var repo := target.value;
    for i := 0 to |existing|
      invariant |requests| == i
      invariant forall k :: 0 <= k < i ==> requests[k] == Close(repo, existing[k])
    {
      requests := requests + [Close(repo, existing[i])];
    }
  }

  /** `SyncIssuesWithGitHub`: one create per issue, in list order. */
  method SyncIssuesWithGitHub(env: Env, issues: seq<Issue>) returns (requests: seq<Request>)
    ensures requests == CreatePlan(env, issues)
  {
    requests := [];
    var target := Target(env);
    if target.None? {
      return;
    }
    var repo := target.value;
    for i := 0 to |issues|
      invariant |requests| == i
      invariant forall k :: 0 <= k < i ==> requests[k] == Create(repo, NewIssueFor(issues[k]))
    {
      var newIssue := NewIssue(issues[i].title, IssueBody(issues[i]), [issues[i].issueType]);
      requests := requests + [Create(repo, newIssue)];
    }
  }

  /** How a run of `Main` ends. */
  datatype Outcome =
    | AnalysisFailed(error: ParseError)      // the exception escapes `Main`; nothing is sent
    | NoIssuesFound                          // "No issues found to process."
    | Synchronized(requests: seq<Request>)   // the requests attempted, in order; `Tracker.Execute(requests, rejected, true)` gives those that reach GitHub

  function RunSpec(files: seq<SourceFile>, env: Env, existing: seq<int>): Outcome {
    match Analyze(files)
    case Failure(e) => AnalysisFailed(e)
    case Success(issues) =>
      if issues == [] then NoIssuesFound
      else Synchronized(ClosePlan(env, existing) + CreatePlan(env, issues))
  }

  /** `Main` after the command-line check: analyse, then close everything, then create. */
  method Run(files: seq<SourceFile>, env: Env, existing: seq<int>) returns (outcome: Outcome)
    ensures outcome == RunSpec(files, env, existing)
  {
    var issues := ScanProject(files, ParseOccurrence);
    if issues.Failure? {
      return AnalysisFailed(issues.error);
    }
    if issues.value == [] {
      return NoIssuesFound;
    }
    var closes := RemoveAllExistingIssuesFromGitHub(env, existing);
    var creates := SyncIssuesWithGitHub(env, issues.value);
    return Synchronized(closes + creates);
  }

  // --------------------------------------------------------- the plan's shape

  /** A run whose analysis fails, or finds no marker, sends nothing. */
  lemma NothingSentWithoutIssues(files: seq<SourceFile>, env: Env, existing: seq<int>)
    ensures Analyze(files).Failure? ==> RunSpec(files, env, existing) == AnalysisFailed(Analyze(files).error)
    ensures Analyze(files) == Success([]) ==> RunSpec(files, env, existing) == NoIssuesFound
    ensures RunSpec(files, env, existing).Synchronized? <==> Analyze(files).Success? && Analyze(files).value != []
  {
  }

  /**
   * The closes and the creates side by side: first one close per listed
   * number, in list order, then one create per issue, in issue order.
   */
  lemma PlanLayout(env: Env, existing: seq<int>, issues: seq<Issue>)
    requires Target(env).Some?
    ensures var requests := ClosePlan(env, existing) + CreatePlan(env, issues);
            var repo := Target(env).value;
            && |requests| == |existing| + |issues|
            && (forall k :: 0 <= k < |existing| ==> requests[k] == Close(repo, existing[k]))
            && (forall k :: 0 <= k < |issues| ==> requests[|existing| + k] == Create(repo, NewIssueFor(issues[k])))
  {
    var closes, creates := ClosePlan(env, existing), CreatePlan(env, issues);
    var requests := closes + creates;
    assert |closes| == |existing|;
    forall k | 0 <= k < |existing|
      ensures requests[k] == closes[k]
    {
    }
    forall k | 0 <= k < |issues|
      ensures requests[|existing| + k] == creates[k]
    {
    }
  }

  /** In the layout above, a request is a create exactly when it comes after all the closes. */
  lemma PlanOrder(env: Env, existing: seq<int>, issues: seq<Issue>)
    ensures var requests := ClosePlan(env, existing) + CreatePlan(env, issues);
            forall k :: 0 <= k < |requests| ==> (requests[k].Create? <==> k >= |ClosePlan(env, existing)|)
  {
  }

  /**
   * A run that synchronizes attempts, when the repository is known, every
   * listed issue's close, in list order, and then exactly one create per
   * marker, in marker order, carrying the issue's title, its body and its
   * type as the only label; when the token or repository is missing it
   * attempts nothing. `Tracker.Execute` gives the requests that reach GitHub.
   */
  lemma RunShape(files: seq<SourceFile>, env: Env, existing: seq<int>)
    requires RunSpec(files, env, existing).Synchronized?
    ensures var requests := RunSpec(files, env, existing).requests;
            var issues := Analyze(files).value;
            && |issues| == |Occurrences(files)| > 0
            && (Target(env).None? ==> requests == [])
            && (Target(env).Some? ==>
                  var repo := Target(env).value;
                  && |requests| == |existing| + |issues|
                  && (forall k :: 0 <= k < |existing| ==> requests[k] == Close(repo, existing[k]))
                  && (forall k :: 0 <= k < |issues| ==> requests[|existing| + k] == Create(repo, NewIssueFor(issues[k]))))
  {
    var issues := Analyze(files).value;
    assert RunSpec(files, env, existing).requests == ClosePlan(env, existing) + CreatePlan(env, issues);
    if Target(env).Some? {
      PlanLayout(env, existing, issues);
    }
  }

  /** No close comes after a create. */
  lemma ClosesPrecedeCreates(files: seq<SourceFile>, env: Env, existing: seq<int>)
    requires RunSpec(files, env, existing).Synchronized?
    ensures var requests := RunSpec(files, env, existing).requests;
            forall i, j :: 0 <= i < j < |requests| && requests[i].Create? ==> requests[j].Create?
  {
    var issues := Analyze(files).value;
    assert RunSpec(files, env, existing).requests == ClosePlan(env, existing) + CreatePlan(env, issues);
    PlanOrder(env, existing, issues);
  }

  /** Every create of a plan carries its issue's type as its one label. */
  lemma PlanLabels(env: Env, existing: seq<int>, issues: seq<Issue>)
    requires forall j :: 0 <= j < |issues| ==> issues[j].issueType in IssueTypeNames
    ensures var requests := ClosePlan(env, existing) + CreatePlan(env, issues);
            forall k :: 0 <= k < |requests| && requests[k].Create? ==>
              |requests[k].issue.labels| == 1 && requests[k].issue.labels[0] in IssueTypeNames
  {
    var requests := ClosePlan(env, existing) + CreatePlan(env, issues);
    forall k | 0 <= k < |requests| && requests[k].Create?
      ensures |requests[k].issue.labels| == 1 && requests[k].issue.labels[0] in IssueTypeNames
    {
      var j := k - |ClosePlan(env, existing)|;
      assert requests[k] == CreatePlan(env, issues)[j];
    }
  }

  /** Every label put on a created issue is the name of an issue type. */
  lemma LabelsAreIssueTypes(files: seq<SourceFile>, env: Env, existing: seq<int>)
    requires RunSpec(files, env, existing).Synchronized?
    ensures var requests := RunSpec(files, env, existing).requests;
            forall k :: 0 <= k < |requests| && requests[k].Create? ==>
              |requests[k].issue.labels| == 1 && requests[k].issue.labels[0] in IssueTypeNames
  {
    var issues := Analyze(files).value;
    AnalysisResultShape(files);
    assert RunSpec(files, env, existing).requests == ClosePlan(env, existing) + CreatePlan(env, issues);
    PlanLabels(env, existing, issues);
  }

  /**
   * A create the tracker refuses is caught and reported, so as long as no
   * close is refused, every create of the plan is still attempted.
   */
  lemma RefusedCreatesDoNotStopLaterCreates(files: seq<SourceFile>, env: Env, existing: seq<int>, rejected: set<nat>)
    requires RunSpec(files, env, existing).Synchronized?
    requires forall k :: k in rejected ==> k >= |existing|
    ensures var requests := RunSpec(files, env, existing).requests;
            FirstFatal(requests, rejected, true, 0) == |requests|
  {
    var issues := Analyze(files).value;
    var requests := ClosePlan(env, existing) + CreatePlan(env, issues);
    assert RunSpec(files, env, existing).requests == requests;
    PlanOrder(env, existing, issues);
    assert |ClosePlan(env, existing)| <= |existing|;
    CaughtCreatesDoNotStop(requests, rejected);
  }
}
