/**
 * The marker schema: the three closed enumerations of AutoIssueSync.Core.
 * Each member has a name (what `ToString()` prints and what `Enum.Parse`
 * accepts) and an implicit underlying value, its position in the declaration.
 *
 * `Enum.Parse` is modelled as an exact, case-sensitive match on a member's
 * name; the numeric and comma-separated forms the runtime also accepts are
 * not part of this model.
 */
module MarkerSchema {
  import opened Results

  // ---------------------------------------------------------------- IssueType

  datatype IssueType = TASK | BUG | SMELL | ISSUE | FEATURE

  /** The members in declaration order. */
  const IssueTypes: seq<IssueType> := [TASK, BUG, SMELL, ISSUE, FEATURE]

  /** The members' names in declaration order. */
  const IssueTypeNames: seq<string> := ["TASK", "BUG", "SMELL", "ISSUE", "FEATURE"]

  function IssueTypeName(t: IssueType): string {
    match t
    case TASK => "TASK"
    case BUG => "BUG"
    case SMELL => "SMELL"
    case ISSUE => "ISSUE"
    case FEATURE => "FEATURE"
  }

  /** The implicit underlying value: the member's position in the declaration. */
  function IssueTypeOrdinal(t: IssueType): (n: nat)
    ensures n < |IssueTypes| && IssueTypes[n] == t
    ensures IssueTypeNames[n] == IssueTypeName(t)
  {
    match t
    case TASK => 0
    case BUG => 1
    case SMELL => 2
    case ISSUE => 3
    case FEATURE => 4
  }

  /** `Enum.Parse<IssueType>`: the member with exactly this name, if any. */
  function ParseIssueType(text: string): (r: Option<IssueType>)
    ensures r.Some? <==> text in IssueTypeNames
    ensures r.Some? ==> IssueTypeName(r.value) == text
  {
    if text == "TASK" then Some(TASK)
    else if text == "BUG" then Some(BUG)
    else if text == "SMELL" then Some(SMELL)
    else if text == "ISSUE" then Some(ISSUE)
    else if text == "FEATURE" then Some(FEATURE)
    else None
  }

  /** Parsing a member's name gives the member back, and no two members share a name. */
  lemma IssueTypeNameRoundTrip(t: IssueType, u: IssueType)
    ensures ParseIssueType(IssueTypeName(t)) == Some(t)
    ensures IssueTypeName(t) == IssueTypeName(u) ==> t == u
  {
  }

  /** Exactly five members, every one of them listed once, with names in declaration order. */
  lemma IssueTypeDeclaration(t: IssueType)
    ensures |IssueTypes| == 5 && t in IssueTypes
    ensures forall i, j :: 0 <= i < j < |IssueTypes| ==> IssueTypes[i] != IssueTypes[j]
    ensures forall i :: 0 <= i < |IssueTypes| ==> IssueTypeNames[i] == IssueTypeName(IssueTypes[i])
  {
  }

  // -------------------------------------------------------------- IssueStatus

  datatype IssueStatus = LOW_PRIORITY | CRITICAL | TODO | IN_PROGRESS | REVIEW | DONE

  const IssueStatuses: seq<IssueStatus> :=
    [LOW_PRIORITY, CRITICAL, IssueStatus.TODO, IssueStatus.IN_PROGRESS, IssueStatus.REVIEW, IssueStatus.DONE]

  const IssueStatusNames: seq<string> := ["LOW_PRIORITY", "CRITICAL", "TODO", "IN_PROGRESS", "REVIEW", "DONE"]

  function IssueStatusName(s: IssueStatus): string {
    match s
    case LOW_PRIORITY => "LOW_PRIORITY"
    case CRITICAL => "CRITICAL"
    case TODO => "TODO"
    case IN_PROGRESS => "IN_PROGRESS"
    case REVIEW => "REVIEW"
    case DONE => "DONE"
  }

  function IssueStatusOrdinal(s: IssueStatus): (n: nat)
    ensures n < |IssueStatuses| && IssueStatuses[n] == s
    ensures IssueStatusNames[n] == IssueStatusName(s)
  {
    match s
    case LOW_PRIORITY => 0
    case CRITICAL => 1
    case TODO => 2
    case IN_PROGRESS => 3
    case REVIEW => 4
    case DONE => 5
  }

  /** The member whose underlying value is `n`, if any. */
  function IssueStatusOfOrdinal(n: int): (r: Option<IssueStatus>)
    ensures r.Some? <==> 0 <= n < |IssueStatuses|
    ensures r.Some? ==> IssueStatusOrdinal(r.value) == n
  {
    if 0 <= n < |IssueStatuses| then Some(IssueStatuses[n]) else None
  }

  function ParseIssueStatus(text: string): (r: Option<IssueStatus>)
    ensures r.Some? <==> text in IssueStatusNames
    ensures r.Some? ==> IssueStatusName(r.value) == text
  {
    if text == "LOW_PRIORITY" then Some(LOW_PRIORITY)
    else if text == "CRITICAL" then Some(CRITICAL)
    else if text == "TODO" then Some(IssueStatus.TODO)
    else if text == "IN_PROGRESS" then Some(IssueStatus.IN_PROGRESS)
    else if text == "REVIEW" then Some(IssueStatus.REVIEW)
    else if text == "DONE" then Some(IssueStatus.DONE)
    else None
  }

  lemma IssueStatusNameRoundTrip(s: IssueStatus, u: IssueStatus)
    ensures ParseIssueStatus(IssueStatusName(s)) == Some(s)
    ensures IssueStatusName(s) == IssueStatusName(u) ==> s == u
  {
  }

  lemma IssueStatusDeclaration(s: IssueStatus)
    ensures |IssueStatuses| == 6 && s in IssueStatuses
    ensures forall i, j :: 0 <= i < j < |IssueStatuses| ==> IssueStatuses[i] != IssueStatuses[j]
    ensures forall i :: 0 <= i < |IssueStatuses| ==> IssueStatusNames[i] == IssueStatusName(IssueStatuses[i])
  {
  }

  // ------------------------------------------------------------- GitHubColumn

  datatype GitHubColumn = TODO | IN_PROGRESS | REVIEW | DONE

  const GitHubColumns: seq<GitHubColumn> :=
    [GitHubColumn.TODO, GitHubColumn.IN_PROGRESS, GitHubColumn.REVIEW, GitHubColumn.DONE]

  const GitHubColumnNames: seq<string> := ["TODO", "IN_PROGRESS", "REVIEW", "DONE"]

  function GitHubColumnName(c: GitHubColumn): string {
    match c
    case TODO => "TODO"
    case IN_PROGRESS => "IN_PROGRESS"
    case REVIEW => "REVIEW"
    case DONE => "DONE"
  }

  function GitHubColumnOrdinal(c: GitHubColumn): (n: nat)
    ensures n < |GitHubColumns| && GitHubColumns[n] == c
    ensures GitHubColumnNames[n] == GitHubColumnName(c)
  {
    match c
    case TODO => 0
    case IN_PROGRESS => 1
    case REVIEW => 2
    case DONE => 3
  }

  function ParseGitHubColumn(text: string): (r: Option<GitHubColumn>)
    ensures r.Some? <==> text in GitHubColumnNames
    ensures r.Some? ==> GitHubColumnName(r.value) == text
  {
    if text == "TODO" then Some(GitHubColumn.TODO)
    else if text == "IN_PROGRESS" then Some(GitHubColumn.IN_PROGRESS)
    else if text == "REVIEW" then Some(GitHubColumn.REVIEW)
    else if text == "DONE" then Some(GitHubColumn.DONE)
    else None
  }

  lemma GitHubColumnNameRoundTrip(c: GitHubColumn, u: GitHubColumn)
    ensures ParseGitHubColumn(GitHubColumnName(c)) == Some(c)
    ensures GitHubColumnName(c) == GitHubColumnName(u) ==> c == u
  {
  }

  lemma GitHubColumnDeclaration(c: GitHubColumn)
    ensures |GitHubColumns| == 4 && c in GitHubColumns
    ensures forall i, j :: 0 <= i < j < |GitHubColumns| ==> GitHubColumns[i] != GitHubColumns[j]
    ensures forall i :: 0 <= i < |GitHubColumns| ==> GitHubColumnNames[i] == GitHubColumnName(GitHubColumns[i])
  {
  }

  // ------------------------------------------------- columns against statuses

  /** The status with the same name as a column. */
  function ColumnAsStatus(c: GitHubColumn): (s: IssueStatus)
    ensures IssueStatusName(s) == GitHubColumnName(c)
  {
    match c
    case TODO => IssueStatus.TODO
    case IN_PROGRESS => IssueStatus.IN_PROGRESS
    case REVIEW => IssueStatus.REVIEW
    case DONE => IssueStatus.DONE
  }

  /**
   * Every column name is a status name, but not the other way round:
   * LOW_PRIORITY and CRITICAL have no column.
   */
  lemma ColumnNamesAreStatusNames(c: GitHubColumn)
    ensures GitHubColumnName(c) in IssueStatusNames
    ensures forall n :: n in GitHubColumnNames ==> n in IssueStatusNames
    ensures ParseGitHubColumn(IssueStatusName(LOW_PRIORITY)) == None
    ensures ParseGitHubColumn(IssueStatusName(CRITICAL)) == None
  {
  }

  /**
   * The underlying values do not line up: a column's same-named status sits
   * two places further on, so converting by value would turn TODO into
   * LOW_PRIORITY. Conversion has to go by name.
   */
  lemma OrdinalsDisagree(c: GitHubColumn)
    ensures IssueStatusOrdinal(ColumnAsStatus(c)) == GitHubColumnOrdinal(c) + 2
    ensures IssueStatusOfOrdinal(GitHubColumnOrdinal(c)) != Some(ColumnAsStatus(c))
    ensures IssueStatusOfOrdinal(GitHubColumnOrdinal(GitHubColumn.TODO)) == Some(LOW_PRIORITY)
  {
  }
}
