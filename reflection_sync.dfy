/**
 * The reflection-driven synchronizer, `AutoIssueSync.Sync/Program.cs`. The
 * loaded assembly is given as data: its types in `GetTypes()` order, each
 * with its class-level markers and its methods in `GetMethods()` order, each
 * method with its markers. A marker is the attribute object itself, so its
 * type and column are already enum members. Every marker becomes one create
 * request in the fixed repository `mi-org/AutoIssueSync`; nothing is looked
 * up, updated or closed. Creates are not guarded: the first refused one ends
 * the run (see `Tracker.Execute` with `createsCaught` false).
 */
module ReflectionSync {
  import opened Results
  import opened Strings
  import opened MarkerSchema
  import opened Tracker

  /** A `GitHubIssueAttribute` instance. */
  datatype SyncMarker = SyncMarker(issueType: IssueType, gitHubColumn: IssueStatus, title: string, description: string)

  datatype MethodInfo = MethodInfo(name: string, markers: seq<SyncMarker>)

  datatype TypeInfo = TypeInfo(name: string, markers: seq<SyncMarker>, methods: seq<MethodInfo>)

  /** The owner and repository hard-coded in `CreateOrUpdateIssue`. */
  const SyncRepo: Repo := Repo("mi-org", "AutoIssueSync")

  /** The source named for a method-level marker: `Type.Method`. */
  function MethodSource(typeName: string, methodName: string): string {
    typeName + "." + methodName
  }

  function SyncTitle(source: string, marker: SyncMarker): string {
    marker.title + " (" + source + ")"
  }

  function SyncBodyLines(marker: SyncMarker): seq<string> {
    [ "Descripción: " + marker.description,
      "Tipo de Issue: " + IssueTypeName(marker.issueType),
      "Columna Sugerida: " + IssueStatusName(marker.gitHubColumn) ]
  }

  function SyncBody(marker: SyncMarker): string {
    "Descripción: " + marker.description + "\n" +
    "Tipo de Issue: " + IssueTypeName(marker.issueType) + "\n" +
    "Columna Sugerida: " + IssueStatusName(marker.gitHubColumn)
  }

  /** What `CreateOrUpdateIssue` asks the tracker for: one create, labelled with the type's name. */
  function CreateOrUpdateIssue(source: string, marker: SyncMarker): Request {
    Create(SyncRepo, NewIssue(SyncTitle(source, marker), SyncBody(marker), [IssueTypeName(marker.issueType)]))
  }

  /** One request per marker of one source, in order. */
  function MarkerRequests(source: string, markers: seq<SyncMarker>): (r: seq<Request>)
    ensures |r| == |markers|
    ensures forall k :: 0 <= k < |r| ==> r[k] == CreateOrUpdateIssue(source, markers[k])
  {
    seq(|markers|, k requires 0 <= k < |markers| => CreateOrUpdateIssue(source, markers[k]))
  }

  function MethodsPlan(typeName: string, methods: seq<MethodInfo>): seq<Request>
    decreases |methods|
  {
    if methods == [] then []
    else MarkerRequests(MethodSource(typeName, methods[0].name), methods[0].markers) + MethodsPlan(typeName, methods[1..])
  }

  /** One type: its class-level markers first, then its methods' markers, method by method. */
  function TypePlan(t: TypeInfo): seq<Request> {
    MarkerRequests(t.name, t.markers) + MethodsPlan(t.name, t.methods)
  }

  function SyncPlan(types: seq<TypeInfo>): seq<Request>
    decreases |types|
  {
    if types == [] then [] else TypePlan(types[0]) + SyncPlan(types[1..])
  }

  /**
   * The requests `Main` attempts, in order, given `TOKEN_GITHUB` and the
   * assembly's types; `Tracker.Execute(requests, rejected, false)` gives
   * those that reach GitHub.
   */
  function SyncRun(token: Option<string>, types: seq<TypeInfo>): seq<Request> {
    if IsNullOrEmpty(token) then [] else SyncPlan(types)
  }

  // ------------------------------------------------------------ the loops

  /** The innermost loop: one `CreateOrUpdateIssue` per marker of one source. */
  method CreateAll(source: string, markers: seq<SyncMarker>) returns (requests: seq<Request>)
    ensures requests == MarkerRequests(source, markers)
  {
    requests := [];
    for i := 0 to |markers|
      invariant |requests| == i
      invariant forall k :: 0 <= k < i ==> requests[k] == CreateOrUpdateIssue(source, markers[k])
    {
      requests := requests + [CreateOrUpdateIssue(source, markers[i])];
    }
  }

  /** The body of the loop over types: class-level markers, then every method's markers. */
  method SyncType(t: TypeInfo) returns (requests: seq<Request>)
    ensures requests == TypePlan(t)
  {
    var classRequests := CreateAll(t.name, t.markers);
    var methodRequests := [];
    for j := 0 to |t.methods|
      invariant methodRequests == MethodsPlan(t.name, t.methods[..j])
    {
      MethodsPlanStep(t.name, t.methods, j);
      var found := CreateAll(MethodSource(t.name, t.methods[j].name), t.methods[j].markers);
      methodRequests := methodRequests + found;
    }
    assert t.methods[..|t.methods|] == t.methods;
    requests := classRequests + methodRequests;
  }

  /** `Main`: no token, no requests; otherwise every type in order. */
  method SyncMain(token: Option<string>, types: seq<TypeInfo>) returns (requests: seq<Request>)
    ensures requests == SyncRun(token, types)
  {
    requests := [];
    if IsNullOrEmpty(token) {
      return;
    }
    for i := 0 to |types|
      invariant requests == SyncPlan(types[..i])
    {
      SyncPlanStep(types, i);
      var found := SyncType(types[i]);
      requests := requests + found;
    }
    assert types[..|types|] == types;
  }

  // ------------------------------------------------------- the plan's pieces

  lemma {:induction false} MethodsPlanAppend(typeName: string, ms: seq<MethodInfo>, ns: seq<MethodInfo>)
    ensures MethodsPlan(typeName, ms + ns) == MethodsPlan(typeName, ms) + MethodsPlan(typeName, ns)
    decreases |ms|
  {
    if ms == [] {
      assert ms + ns == ns;
    } else {
      assert (ms + ns)[0] == ms[0];
      assert (ms + ns)[1..] == ms[1..] + ns;
      MethodsPlanAppend(typeName, ms[1..], ns);
    }
  }

  /** Taking one more method adds its markers' requests at the end. */
  lemma MethodsPlanStep(typeName: string, ms: seq<MethodInfo>, j: nat)
    requires j < |ms|
    ensures MethodsPlan(typeName, ms[..j + 1]) ==
              MethodsPlan(typeName, ms[..j]) + MarkerRequests(MethodSource(typeName, ms[j].name), ms[j].markers)
  {
    assert ms[..j + 1] == ms[..j] + [ms[j]];
    MethodsPlanAppend(typeName, ms[..j], [ms[j]]);
    assert [ms[j]][1..] == [];
  }

  lemma {:induction false} SyncPlanAppend(ts: seq<TypeInfo>, us: seq<TypeInfo>)
    ensures SyncPlan(ts + us) == SyncPlan(ts) + SyncPlan(us)
    decreases |ts|
  {
    if ts == [] {
      assert ts + us == us;
    } else {
      assert (ts + us)[0] == ts[0];
      assert (ts + us)[1..] == ts[1..] + us;
      SyncPlanAppend(ts[1..], us);
    }
  }

  /** Taking one more type adds its requests at the end. */
  lemma SyncPlanStep(ts: seq<TypeInfo>, i: nat)
    requires i < |ts|
    ensures SyncPlan(ts[..i + 1]) == SyncPlan(ts[..i]) + TypePlan(ts[i])
  {
    assert ts[..i + 1] == ts[..i] + [ts[i]];
    SyncPlanAppend(ts[..i], [ts[i]]);
    assert [ts[i]][1..] == [];
  }

  // ------------------------------------------------------------ properties

  /** Such a request creates an issue in the fixed repository, with the marker's type name as its one label. */
  predicate IsLabelledCreate(r: Request) {
    && r.Create?
    && r.repo == SyncRepo
    && |r.issue.labels| == 1
    && r.issue.labels[0] in IssueTypeNames
  }

  predicate AllLabelledCreates(rs: seq<Request>) {
    forall k :: 0 <= k < |rs| ==> IsLabelledCreate(rs[k])
  }

  lemma ConcatLabelledCreates(rs: seq<Request>, qs: seq<Request>)
    requires AllLabelledCreates(rs) && AllLabelledCreates(qs)
    ensures AllLabelledCreates(rs + qs)
  {
    forall k | 0 <= k < |rs + qs|
      ensures IsLabelledCreate((rs + qs)[k])
    {
      if k >= |rs| {
        assert (rs + qs)[k] == qs[k - |rs|];
      }
    }
  }

  lemma MarkerRequestsLabelled(source: string, markers: seq<SyncMarker>)
    ensures AllLabelledCreates(MarkerRequests(source, markers))
  {
    forall k | 0 <= k < |markers|
      ensures IsLabelledCreate(MarkerRequests(source, markers)[k])
    {
      var n := IssueTypeOrdinal(markers[k].issueType);
      assert IssueTypeNames[n] in IssueTypeNames;
    }
  }

  lemma {:induction false} MethodsPlanLabelled(typeName: string, methods: seq<MethodInfo>)
    ensures AllLabelledCreates(MethodsPlan(typeName, methods))
    decreases |methods|
  {
    if methods != [] {
      MarkerRequestsLabelled(MethodSource(typeName, methods[0].name), methods[0].markers);
      MethodsPlanLabelled(typeName, methods[1..]);
      ConcatLabelledCreates(MarkerRequests(MethodSource(typeName, methods[0].name), methods[0].markers),
                            MethodsPlan(typeName, methods[1..]));
    }
  }

  /**
   * Every request of a run creates an issue in `mi-org/AutoIssueSync` with
   * one label, an issue type's name: no issue is closed or updated.
   */
  lemma {:induction false} OnlyCreates(types: seq<TypeInfo>)
    ensures AllLabelledCreates(SyncPlan(types))
    decreases |types|
  {
    if types != [] {
      var t := types[0];
      MarkerRequestsLabelled(t.name, t.markers);
      MethodsPlanLabelled(t.name, t.methods);
      ConcatLabelledCreates(MarkerRequests(t.name, t.markers), MethodsPlan(t.name, t.methods));
      OnlyCreates(types[1..]);
      ConcatLabelledCreates(TypePlan(t), SyncPlan(types[1..]));
    }
  }

  /** The markers on a type's methods. */
  function MethodMarkerCount(methods: seq<MethodInfo>): nat
    decreases |methods|
  {
    if methods == [] then 0 else |methods[0].markers| + MethodMarkerCount(methods[1..])
  }

  /** All markers of all types, class-level and method-level. */
  function MarkerCount(types: seq<TypeInfo>): nat
    decreases |types|
  {
    if types == [] then 0
    else |types[0].markers| + MethodMarkerCount(types[0].methods) + MarkerCount(types[1..])
  }

  lemma {:induction false} MethodsPlanLength(typeName: string, methods: seq<MethodInfo>)
    ensures |MethodsPlan(typeName, methods)| == MethodMarkerCount(methods)
    decreases |methods|
  {
    if methods != [] {
      MethodsPlanLength(typeName, methods[1..]);
    }
  }

  /** Exactly one create per marker found. */
  lemma {:induction false} OneCreatePerMarker(types: seq<TypeInfo>)
    ensures |SyncPlan(types)| == MarkerCount(types)
    decreases |types|
  {
    if types != [] {
      MethodsPlanLength(types[0].name, types[0].methods);
      OneCreatePerMarker(types[1..]);
    }
  }

  /** Within a type, its class-level markers are attempted first, in order, under the bare type name. */
  lemma ClassMarkersFirst(t: TypeInfo)
    ensures |TypePlan(t)| >= |t.markers|
    ensures forall k :: 0 <= k < |t.markers| ==> TypePlan(t)[k] == CreateOrUpdateIssue(t.name, t.markers[k])
  {
  }

  /**
   * Nothing guards `Issue.Create` here: the first create the tracker refuses
   * is the last request sent.
   */
  lemma RefusedCreateEndsRun(token: Option<string>, types: seq<TypeInfo>, rejected: set<nat>, k: nat)
    requires k < |SyncRun(token, types)| && k in rejected
    requires forall j :: 0 <= j < k ==> j !in rejected
    ensures FirstFatal(SyncRun(token, types), rejected, false, 0) == k
  {
    UncaughtStopsAtFirstRejection(SyncRun(token, types), rejected, k);
  }

  /** Without a token nothing is sent. */
  lemma NoTokenNoRequests(token: Option<string>, types: seq<TypeInfo>)
    requires IsNullOrEmpty(token)
    ensures SyncRun(token, types) == []
  {
  }

  /**
   * The token check is weaker than the newer analyzer's: a token of white
   * space only passes here, so the whole plan is attempted
   * (`Tracker.Execute` with `createsCaught` false gives what reaches GitHub).
   */
  lemma WhiteSpaceTokenPasses(types: seq<TypeInfo>)
    ensures IsNullOrWhiteSpace(Some(" "))
    ensures SyncRun(Some(" "), types) == SyncPlan(types)
  {
    assert IsWhiteSpace(" "[0]);
  }

  /**
   * When type and method names contain no '.', sources are unambiguous: a
   * method source determines its type and method, and never equals a type's
   * own source.
   */
  lemma SourcesDistinct(t1: string, m1: string, t2: string, m2: string, t3: string)
    requires '.' !in t1 && '.' !in t2 && '.' !in t3
    ensures MethodSource(t1, m1) == MethodSource(t2, m2) ==> t1 == t2 && m1 == m2
    ensures MethodSource(t1, m1) != t3
  {
    var s1, s2 := MethodSource(t1, m1), MethodSource(t2, m2);
    assert s1[|t1|] == '.' && s2[|t2|] == '.';
    if s1 == s2 {
      assert |t1| == |t2|;
      assert t1 == s1[..|t1|];
      assert t2 == s2[..|t2|];
      assert m1 == s1[|t1| + 1..];
      assert m2 == s2[|t2| + 1..];
    }
    assert '.' in s1;
  }

  /** The created title is the marker's title followed by its source in parentheses. */
  lemma TitleEndsWithSource(source: string, marker: SyncMarker)
    ensures var title := CreateOrUpdateIssue(source, marker).issue.title;
            var suffix := " (" + source + ")";
            |title| == |marker.title| + |suffix| && title[..|marker.title|] == marker.title &&
            title[|marker.title|..] == suffix
  {
  }

  lemma JoinThree(a: string, b: string, c: string)
    ensures Join([a, b, c], '\n') == a + "\n" + (b + "\n" + c)
  {
    assert [b, c][1..] == [c];
    assert Join([b, c], '\n') == b + "\n" + c;
    assert [a, b, c][1..] == [b, c];
  }

  lemma RegroupThree(a: string, b: string, c: string, nl: string)
    ensures a + nl + b + nl + c == a + nl + (b + nl + c)
  {
  }

  lemma SyncBodyNesting(marker: SyncMarker)
    ensures var lines := SyncBodyLines(marker);
            SyncBody(marker) == lines[0] + "\n" + (lines[1] + "\n" + lines[2])
  {
    var lines := SyncBodyLines(marker);
    RegroupThree(lines[0], lines[1], lines[2], "\n");
  }

  lemma SyncBodyIsJoinedLines(marker: SyncMarker)
    ensures Join(SyncBodyLines(marker), '\n') == SyncBody(marker)
  {
    var lines := SyncBodyLines(marker);
    JoinThree(lines[0], lines[1], lines[2]);
    SyncBodyNesting(marker);
  }

  lemma IssueTypeNamesSingleLine(t: IssueType)
    ensures '\n' !in "Tipo de Issue: " + IssueTypeName(t)
  {
  }

  lemma IssueStatusNamesSingleLine(s: IssueStatus)
    ensures '\n' !in "Columna Sugerida: " + IssueStatusName(s)
  {
  }

  /** When the description is one line, the body splits into its three labelled lines. */
  lemma SyncBodyLayout(marker: SyncMarker)
    requires '\n' !in marker.description
    ensures Split(SyncBody(marker), '\n') == SyncBodyLines(marker)
  {
    SyncBodyIsJoinedLines(marker);
    IssueTypeNamesSingleLine(marker.issueType);
    IssueStatusNamesSingleLine(marker.gitHubColumn);
    SplitJoin(SyncBodyLines(marker), '\n');
  }
}
