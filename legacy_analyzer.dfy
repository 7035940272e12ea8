/**
 * The first analyzer, `AutoIssueSync.Analyzer/Program.cs`: the same marker
 * scan as the newer one, but its parser reads three positional arguments,
 * title, description and issue type, validates none of them, and lets a
 * missing argument list through as three nulls. Indexing past the end of a
 * shorter list throws, and nothing catches it, so the run ends there and no
 * issue file is written.
 */
module LegacyAnalyzer {
  import opened Results
  import opened Strings
  import opened MarkerSchema
  import opened Selection
  import Analyzer

  /** The analyzer's `Issue` record; every text field may be null, and there is no column. */
  datatype LegacyIssue = LegacyIssue(
    methodName: string,
    title: Option<string>,
    description: Option<string>,
    issueType: Option<string>,
    filePath: string)

  /** `ArgumentOutOfRangeException` from `argumentList?[index]`. */
  datatype IndexError = IndexOutOfRange(index: nat)

  /**
   * `ParseGitHubIssueAttribute` of the first analyzer. The three arguments
   * are read in order 0, 1, 2, so a list of length n < 3 fails on index n.
   */
  function ParseLegacyAttribute(attribute: Attribute, methodName: string, filePath: string): (r: Result<LegacyIssue, IndexError>)
    ensures attribute.arguments.None? ==> r == Success(LegacyIssue(methodName, None, None, None, filePath))
    ensures attribute.arguments.Some? ==>
              var args := attribute.arguments.value;
              && (r.Failure? <==> |args| < 3)
              && (r.Failure? ==> r.error.index == |args|)
              && (r.Success? ==>
                    r.value == LegacyIssue(methodName, Some(TrimQuotes(args[0])), Some(TrimQuotes(args[1])),
                                           Some(Analyzer.IssueTypeText(args[2])), filePath))
  {
    match attribute.arguments
    case None => Success(LegacyIssue(methodName, None, None, None, filePath))
    case Some(args) =>
      if |args| <= 0 then Failure(IndexOutOfRange(0))
      else
        var title := TrimQuotes(args[0]);
        if |args| <= 1 then Failure(IndexOutOfRange(1))
        else
          var description := TrimQuotes(args[1]);
          if |args| <= 2 then Failure(IndexOutOfRange(2))
          else
            var issueType := Analyzer.IssueTypeText(args[2]);
            Success(LegacyIssue(methodName, Some(title), Some(description), Some(issueType), filePath))
  }

  function ParseLegacyOccurrence(o: Occurrence): Result<LegacyIssue, IndexError> {
    ParseLegacyAttribute(o.attribute, o.methodName, o.filePath)
  }

  /** What `Main` collects before writing `issues.json`, or the exception that ends it. */
  function LegacyAnalyze(files: seq<SourceFile>): Result<seq<LegacyIssue>, IndexError> {
    Collect(Occurrences(files), ParseLegacyOccurrence)
  }

  /** `Main` after the command-line check: the nested loops over files, marked methods and markers. */
  method LegacyMain(files: seq<SourceFile>) returns (r: Result<seq<LegacyIssue>, IndexError>)
    ensures r == LegacyAnalyze(files)
  {
    r := ScanProject(files, ParseLegacyOccurrence);
  }

  /** Only a marker with an argument list of fewer than three entries, an empty `()` list included, throws. */
  predicate ShortList(o: Occurrence) {
    o.attribute.arguments.Some? && |o.attribute.arguments.value| < 3
  }

  /**
   * The run fails exactly when some marker has a short argument list, and
   * then with the first such marker's missing index; otherwise there is one
   * issue per marker, under that marker's method and file.
   */
  lemma LegacyAnalysisShape(files: seq<SourceFile>)
    ensures var occurrences := Occurrences(files);
            var r := LegacyAnalyze(files);
            && (r.Failure? <==> exists k :: 0 <= k < |occurrences| && ShortList(occurrences[k]))
            && (r.Success? ==>
                  && |r.value| == |occurrences|
                  && forall k :: 0 <= k < |occurrences| ==>
                       && r.value[k].methodName == occurrences[k].methodName
                       && r.value[k].filePath == occurrences[k].filePath)
  {
    var occurrences := Occurrences(files);
    CollectSpec(occurrences, ParseLegacyOccurrence);
    var r := LegacyAnalyze(files);
    if r.Failure? {
      var i :| 0 <= i < |occurrences| && ParseLegacyOccurrence(occurrences[i]) == Failure(r.error);
      assert ShortList(occurrences[i]);
    }
    if exists k :: 0 <= k < |occurrences| && ShortList(occurrences[k]) {
      var k :| 0 <= k < |occurrences| && ShortList(occurrences[k]);
      assert ParseLegacyOccurrence(occurrences[k]).Failure?;
    }
    if r.Success? {
      forall k | 0 <= k < |occurrences|
        ensures r.value[k].methodName == occurrences[k].methodName && r.value[k].filePath == occurrences[k].filePath
      {
        assert ParseLegacyOccurrence(occurrences[k]) == Success(r.value[k]);
      }
    }
  }

  /** A field that is null or a text without a quote at either end. */
  predicate UnquotedField(t: Option<string>) {
    t.Some? ==> Unquoted(t.value)
  }

  /** The title read from a long enough list: argument 0 with its quotes trimmed. */
  lemma LegacyTitleIs(attribute: Attribute, methodName: string, filePath: string)
    requires attribute.arguments.Some? && |attribute.arguments.value| >= 3
    ensures ParseLegacyAttribute(attribute, methodName, filePath).value.title ==
              Some(TrimQuotes(attribute.arguments.value[0]))
  {
  }

  /** The description read from a long enough list: argument 1 with its quotes trimmed. */
  lemma LegacyDescriptionIs(attribute: Attribute, methodName: string, filePath: string)
    requires attribute.arguments.Some? && |attribute.arguments.value| >= 3
    ensures ParseLegacyAttribute(attribute, methodName, filePath).value.description ==
              Some(TrimQuotes(attribute.arguments.value[1]))
  {
  }

  /** A title that is present carries no quote at either end. */
  lemma LegacyTitleUnquoted(attribute: Attribute, methodName: string, filePath: string)
    requires ParseLegacyAttribute(attribute, methodName, filePath).Success?
    ensures UnquotedField(ParseLegacyAttribute(attribute, methodName, filePath).value.title)
  {
    if attribute.arguments.Some? {
      LegacyTitleIs(attribute, methodName, filePath);
      TrimQuotesShape(attribute.arguments.value[0]);
    }
  }

  /** A description that is present carries no quote at either end. */
  lemma LegacyDescriptionUnquoted(attribute: Attribute, methodName: string, filePath: string)
    requires ParseLegacyAttribute(attribute, methodName, filePath).Success?
    ensures UnquotedField(ParseLegacyAttribute(attribute, methodName, filePath).value.description)
  {
    if attribute.arguments.Some? {
      LegacyDescriptionIs(attribute, methodName, filePath);
      TrimQuotesShape(attribute.arguments.value[1]);
    }
  }

  /** `IssueType.X` or `X` as the third argument is stored as X. */
  lemma LegacyStoresTypeName(args: seq<string>, t: IssueType, methodName: string, filePath: string)
    requires |args| >= 3
    requires args[2] == Analyzer.IssueTypePrefix + IssueTypeName(t) || args[2] == IssueTypeName(t)
    ensures var r := ParseLegacyAttribute(Attribute(MarkerName, Some(args)), methodName, filePath);
            r.Success? && r.value.issueType == Some(IssueTypeName(t))
  {
    Analyzer.TypeArgumentText(args[2], t);
  }

  /**
   * No validation: a third argument whose text names no issue type is still
   * stored, where the newer parser, given the same text as its type
   * argument, throws.
   */
  lemma LegacyKeepsUnknownType(args: seq<string>, newArgs: seq<string>, methodName: string, filePath: string)
    requires |args| >= 3 && |newArgs| >= 4 && newArgs[0] == args[2]
    requires Analyzer.IssueTypeText(args[2]) !in IssueTypeNames
    ensures var r := ParseLegacyAttribute(Attribute(MarkerName, Some(args)), methodName, filePath);
            r.Success? && r.value.issueType == Some(Analyzer.IssueTypeText(args[2]))
    ensures Analyzer.ParseGitHubIssueAttribute(Attribute(MarkerName, Some(newArgs)), methodName, filePath) ==
              Failure(Analyzer.UnknownIssueType(Analyzer.IssueTypeText(args[2])))
  {
  }

  /** A qualified member name has a letter at each end, so `Trim('"')` leaves it alone. */
  lemma QualifiedNameUnquoted(prefix: string, name: string)
    requires prefix != [] && prefix[0] != '"' && name != [] && name[|name| - 1] != '"'
    ensures TrimQuotes(prefix + name) == prefix + name
  {
    var x := prefix + name;
    assert x[0] == prefix[0] && x[|x| - 1] == name[|name| - 1];
    TrimLeavesUntouched(x, IsQuote);
  }

  lemma QualifiedTypeUnquoted(t: IssueType)
    ensures TrimQuotes(Analyzer.IssueTypePrefix + IssueTypeName(t)) == Analyzer.IssueTypePrefix + IssueTypeName(t)
  {
    var name := IssueTypeName(t);
    assert name[|name| - 1] != '"';
    QualifiedNameUnquoted(Analyzer.IssueTypePrefix, name);
  }

  lemma QualifiedStatusUnquoted(s: IssueStatus)
    ensures TrimQuotes(Analyzer.StatusPrefix + IssueStatusName(s)) == Analyzer.StatusPrefix + IssueStatusName(s)
  {
    var name := IssueStatusName(s);
    assert name[|name| - 1] != '"';
    QualifiedNameUnquoted(Analyzer.StatusPrefix, name);
  }

  /**
   * A marker written in the newer four-argument order, `(IssueType.X,
   * Status.Y, title, description)`, is misread positionally: its type becomes
   * the title and its column the description.
   */
  lemma NewOrderMisread(args: seq<string>, t: IssueType, s: IssueStatus, methodName: string, filePath: string)
    requires |args| >= 4
    requires args[0] == Analyzer.IssueTypePrefix + IssueTypeName(t)
    requires args[1] == Analyzer.StatusPrefix + IssueStatusName(s)
    ensures var r := ParseLegacyAttribute(Attribute(MarkerName, Some(args)), methodName, filePath);
            r.Success? && r.value.title == Some(args[0]) && r.value.description == Some(args[1])
  {
    var attribute := Attribute(MarkerName, Some(args));
    LegacyTitleIs(attribute, methodName, filePath);
    LegacyDescriptionIs(attribute, methodName, filePath);
    QualifiedTypeUnquoted(t);
    QualifiedStatusUnquoted(s);
  }

  /** Conversely, a marker in the three-argument order makes the newer parser throw on its arity. */
  lemma OldOrderRejectedByNewParser(args: seq<string>, methodName: string, filePath: string)
    requires |args| == 3
    ensures ParseLegacyAttribute(Attribute(MarkerName, Some(args)), methodName, filePath).Success?
    ensures Analyzer.ParseGitHubIssueAttribute(Attribute(MarkerName, Some(args)), methodName, filePath) ==
              Failure(Analyzer.WrongArity)
  {
  }
}
