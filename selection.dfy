/**
 * Marker selection as both analyzers perform it on parsed source files.
 * The syntax tree is given as data: a file is its path and its method
 * declarations in document order; a method is its identifier and its
 * attributes (all attribute lists flattened, in order); an attribute is its
 * name as written and the source text of each argument, or no argument list
 * at all. Only method declarations are scanned, so attributes on classes do
 * not appear here.
 *
 * An attribute is a marker when its name contains "GitHubIssue" (so
 * `GitHubIssue`, `GitHubIssueAttribute` and `Core.GitHubIssue` all are); a
 * method is kept when at least one of its attributes is a marker; every
 * marker of a kept method is one occurrence, in file, method, attribute order.
 */
module Selection {
  import opened Results
  import opened Strings

  datatype Attribute = Attribute(name: string, arguments: Option<seq<string>>)

  datatype MethodDecl = MethodDecl(identifier: string, attributes: seq<Attribute>)

  datatype SourceFile = SourceFile(path: string, methods: seq<MethodDecl>)

  /** One marker attribute, with the method identifier and file path it was found under. */
  datatype Occurrence = Occurrence(attribute: Attribute, methodName: string, filePath: string)

  const MarkerName: string := "GitHubIssue"

  predicate IsMarker(a: Attribute) {
    Contains(a.name, MarkerName)
  }

  predicate HasMarker(m: MethodDecl) {
    exists i :: 0 <= i < |m.attributes| && IsMarker(m.attributes[i])
  }

  /** LINQ `Where`: the elements satisfying `p`, in their original order. */
  function Filter<T>(xs: seq<T>, p: T -> bool): (r: seq<T>)
    ensures |r| <= |xs|
    decreases |xs|
  {
    if xs == [] then [] else (if p(xs[0]) then [xs[0]] else []) + Filter(xs[1..], p)
  }

  /** The filter keeps exactly the elements satisfying `p`, and is empty exactly when none does. */
  lemma {:induction false} FilterSpec<T(!new)>(xs: seq<T>, p: T -> bool)
    ensures forall x :: x in Filter(xs, p) <==> x in xs && p(x)
    ensures Filter(xs, p) == [] <==> forall i :: 0 <= i < |xs| ==> !p(xs[i])
    decreases |xs|
  {
    if xs != [] {
      FilterSpec(xs[1..], p);
      assert forall x :: x in xs <==> x == xs[0] || x in xs[1..];
      if Filter(xs, p) == [] {
        forall i | 0 <= i < |xs|
          ensures !p(xs[i])
        {
          if i > 0 {
            assert xs[i] == xs[1..][i - 1];
          }
        }
      }
    }
  }

  /** Filtering a concatenation filters each part, keeping the parts in order. */
  lemma {:induction false} FilterAppend<T(!new)>(xs: seq<T>, ys: seq<T>, p: T -> bool)
    ensures Filter(xs + ys, p) == Filter(xs, p) + Filter(ys, p)
    decreases |xs|
  {
    if xs == [] {
      assert xs + ys == ys;
    } else {
      var head := if p(xs[0]) then [xs[0]] else [];
      assert (xs + ys)[0] == xs[0];
      assert (xs + ys)[1..] == xs[1..] + ys;
      FilterAppend(xs[1..], ys, p);
      assert Filter(xs + ys, p) == head + (Filter(xs[1..], p) + Filter(ys, p));
      assert Filter(xs, p) == head + Filter(xs[1..], p);
    }
  }

  function MarkerAttributes(attributes: seq<Attribute>): seq<Attribute> {
    Filter(attributes, IsMarker)
  }

  /** `methodsWithAttributes`: the methods carrying at least one marker. */
  function MarkedMethods(methods: seq<MethodDecl>): seq<MethodDecl> {
    Filter(methods, HasMarker)
  }

  /** One occurrence per given attribute, all under the same method and file. */
  function Sites(path: string, identifier: string, attributes: seq<Attribute>): (r: seq<Occurrence>)
    ensures |r| == |attributes|
    ensures forall k :: 0 <= k < |r| ==> r[k] == Occurrence(attributes[k], identifier, path)
  {
    seq(|attributes|, k requires 0 <= k < |attributes| => Occurrence(attributes[k], identifier, path))
  }

  /** Taking one more attribute adds its occurrence at the end. */
  lemma SitesStep(path: string, identifier: string, attributes: seq<Attribute>, i: nat)
    requires i < |attributes|
    ensures var o := Occurrence(attributes[i], identifier, path);
            && Sites(path, identifier, attributes[..i + 1]) == Sites(path, identifier, attributes[..i]) + [o]
            && Sites(path, identifier, attributes) ==
                 Sites(path, identifier, attributes[..i]) + [o] + Sites(path, identifier, attributes[i + 1..])
  {
  }

  function MethodOccurrences(path: string, m: MethodDecl): seq<Occurrence> {
    Sites(path, m.identifier, MarkerAttributes(m.attributes))
  }

  function FileOccurrences(path: string, methods: seq<MethodDecl>): seq<Occurrence>
    decreases |methods|
  {
    if methods == [] then []
    else MethodOccurrences(path, methods[0]) + FileOccurrences(path, methods[1..])
  }

  /** Every marker occurrence of the project, in file, method, attribute order. */
  function Occurrences(files: seq<SourceFile>): seq<Occurrence>
    decreases |files|
  {
    if files == [] then []
    else FileOccurrences(files[0].path, files[0].methods) + Occurrences(files[1..])
  }

  /** A method without a marker contributes no occurrence. */
  lemma UnmarkedMethodContributesNothing(path: string, m: MethodDecl)
    requires !HasMarker(m)
    ensures MethodOccurrences(path, m) == []
  {
    FilterSpec(m.attributes, IsMarker);
  }

  /** Dropping the methods without a marker first changes nothing. */
  lemma {:induction false} MarkedMethodsKeepOccurrences(path: string, methods: seq<MethodDecl>)
    ensures FileOccurrences(path, MarkedMethods(methods)) == FileOccurrences(path, methods)
    decreases |methods|
  {
    if methods != [] {
      var m := methods[0];
      var rest := MarkedMethods(methods[1..]);
      MarkedMethodsKeepOccurrences(path, methods[1..]);
      assert MarkedMethods(methods) == (if HasMarker(m) then [m] else []) + rest;
      if HasMarker(m) {
        var kept := [m] + rest;
        assert kept[0] == m && kept[1..] == rest;
      } else {
        UnmarkedMethodContributesNothing(path, m);
        assert [] + rest == rest;
      }
    }
  }

  /** The methods of a file contribute in their order. */
  lemma {:induction false} FileOccurrencesAppend(path: string, ms: seq<MethodDecl>, ns: seq<MethodDecl>)
    ensures FileOccurrences(path, ms + ns) == FileOccurrences(path, ms) + FileOccurrences(path, ns)
    decreases |ms|
  {
    if ms == [] {
      assert ms + ns == ns;
    } else {
      assert (ms + ns)[0] == ms[0];
      assert (ms + ns)[1..] == ms[1..] + ns;
      FileOccurrencesAppend(path, ms[1..], ns);
    }
  }

  /** Appending one method adds that method's occurrences at the end. */
  lemma FileOccurrencesSnoc(path: string, ms: seq<MethodDecl>, m: MethodDecl)
    ensures FileOccurrences(path, ms + [m]) == FileOccurrences(path, ms) + MethodOccurrences(path, m)
  {
    FileOccurrencesAppend(path, ms, [m]);
    assert [m][0] == m && [m][1..] == [];
    assert MethodOccurrences(path, m) + [] == MethodOccurrences(path, m);
  }

  /** Taking one more method adds its occurrences at the end. */
  lemma FileOccurrencesStep(path: string, ms: seq<MethodDecl>, i: nat)
    requires i < |ms|
    ensures FileOccurrences(path, ms[..i + 1]) == FileOccurrences(path, ms[..i]) + MethodOccurrences(path, ms[i])
  {
    assert ms[..i + 1] == ms[..i] + [ms[i]];
    FileOccurrencesSnoc(path, ms[..i], ms[i]);
  }

  /** Cutting the methods at position `j`. */
  lemma FileOccurrencesSplit(path: string, ms: seq<MethodDecl>, j: nat)
    requires j <= |ms|
    ensures FileOccurrences(path, ms) == FileOccurrences(path, ms[..j]) + FileOccurrences(path, ms[j..])
  {
    assert ms == ms[..j] + ms[j..];
    FileOccurrencesAppend(path, ms[..j], ms[j..]);
  }


  /** The files contribute in their order. */
  lemma {:induction false} OccurrencesAppend(fs: seq<SourceFile>, gs: seq<SourceFile>)
    ensures Occurrences(fs + gs) == Occurrences(fs) + Occurrences(gs)
    decreases |fs|
  {
    if fs == [] {
      assert fs + gs == gs;
    } else {
      assert (fs + gs)[0] == fs[0];
      assert (fs + gs)[1..] == fs[1..] + gs;
      OccurrencesAppend(fs[1..], gs);
    }
  }

  /** Appending one file adds that file's occurrences at the end. */
  lemma OccurrencesSnoc(fs: seq<SourceFile>, f: SourceFile)
    ensures Occurrences(fs + [f]) == Occurrences(fs) + FileOccurrences(f.path, f.methods)
  {
    OccurrencesAppend(fs, [f]);
    assert [f][0] == f && [f][1..] == [];
    assert FileOccurrences(f.path, f.methods) + [] == FileOccurrences(f.path, f.methods);
  }

  /** Taking one more file adds its occurrences at the end. */
  lemma OccurrencesStep(fs: seq<SourceFile>, i: nat)
    requires i < |fs|
    ensures Occurrences(fs[..i + 1]) == Occurrences(fs[..i]) + FileOccurrences(fs[i].path, fs[i].methods)
  {
    assert fs[..i + 1] == fs[..i] + [fs[i]];
    OccurrencesSnoc(fs[..i], fs[i]);
  }

  /** Cutting the files at position `j`. */
  lemma OccurrencesSplit(fs: seq<SourceFile>, j: nat)
    requires j <= |fs|
    ensures Occurrences(fs) == Occurrences(fs[..j]) + Occurrences(fs[j..])
  {
    assert fs == fs[..j] + fs[j..];
    OccurrencesAppend(fs[..j], fs[j..]);
  }


  /**
   * The scan both analyzers run: for every file, for every method carrying
   * a marker, for every marker on it, `parse` it and append the result. The
   * first marker whose parse throws ends the whole scan. Each of the three
   * nested loops is a method of its own here.
   */
  method ScanProject<I, E>(files: seq<SourceFile>, parse: Occurrence -> Result<I, E>) returns (r: Result<seq<I>, E>)
    ensures r == Collect(Occurrences(files), parse)
  {
    var issues: seq<I> := [];
    for fi := 0 to |files|
      invariant Collect(Occurrences(files[..fi]), parse) == Success(issues)
    {
      OccurrencesStep(files, fi);
      OccurrencesSplit(files, fi + 1);
      var found := ScanFile(files[fi], parse);
      if found.Failure? {
        ChunkStops(Occurrences(files[..fi]), FileOccurrences(files[fi].path, files[fi].methods),
                   Occurrences(files[fi + 1..]), parse, issues);
        return Failure(found.error);
      }
      ChunkExtends(Occurrences(files[..fi]), FileOccurrences(files[fi].path, files[fi].methods),
                   parse, issues);
      issues := issues + found.value;
    }
    assert files[..|files|] == files;
    return Success(issues);
  }

  /** The loop over one file's methods that carry a marker. */
  method ScanFile<I, E>(file: SourceFile, parse: Occurrence -> Result<I, E>) returns (r: Result<seq<I>, E>)
    ensures r == Collect(FileOccurrences(file.path, file.methods), parse)
  {
    MarkedMethodsKeepOccurrences(file.path, file.methods);
    var methodsWithAttributes := MarkedMethods(file.methods);
    var issues: seq<I> := [];
    for mi := 0 to |methodsWithAttributes|
      invariant Collect(FileOccurrences(file.path, methodsWithAttributes[..mi]), parse) == Success(issues)
    {
      var decl := methodsWithAttributes[mi];
      FileOccurrencesStep(file.path, methodsWithAttributes, mi);
      FileOccurrencesSplit(file.path, methodsWithAttributes, mi + 1);
      var found := ScanMethod(file.path, decl.identifier, MarkerAttributes(decl.attributes), parse);
      if found.Failure? {
        ChunkStops(FileOccurrences(file.path, methodsWithAttributes[..mi]), MethodOccurrences(file.path, decl),
                   FileOccurrences(file.path, methodsWithAttributes[mi + 1..]), parse, issues);
        return Failure(found.error);
      }
      ChunkExtends(FileOccurrences(file.path, methodsWithAttributes[..mi]), MethodOccurrences(file.path, decl),
                   parse, issues);
      issues := issues + found.value;
    }
    assert methodsWithAttributes[..|methodsWithAttributes|] == methodsWithAttributes;
    return Success(issues);
  }

  /** The loop over the markers of one method. */
  method ScanMethod<I, E>(path: string, identifier: string, attributes: seq<Attribute>, parse: Occurrence -> Result<I, E>)
    returns (r: Result<seq<I>, E>)
    ensures r == Collect(Sites(path, identifier, attributes), parse)
  {
    var issues: seq<I> := [];
    for ai := 0 to |attributes|
      invariant Collect(Sites(path, identifier, attributes[..ai]), parse) == Success(issues)
    {
      var o := Occurrence(attributes[ai], identifier, path);
      SitesStep(path, identifier, attributes, ai);
      var issue := parse(o);
      if issue.Failure? {
        StopsAtFailure(Sites(path, identifier, attributes[..ai]), o, Sites(path, identifier, attributes[ai + 1..]),
                       parse, issues);
        return Failure(issue.error);
      }
      ExtendsOnSuccess(Sites(path, identifier, attributes[..ai]), o, parse, issues);
      issues := issues + [issue.value];
    }
    assert attributes[..|attributes|] == attributes;
    return Success(issues);
  }

  /** `o` is a marker attribute of some method declared in `methods`, under its own identifier and `path`. */
  ghost predicate DeclaredInMethods(path: string, methods: seq<MethodDecl>, o: Occurrence) {
    && o.filePath == path
    && IsMarker(o.attribute)
    && exists mi :: 0 <= mi < |methods| && o.methodName == methods[mi].identifier &&
                    o.attribute in methods[mi].attributes
  }

  lemma {:induction false} FileOccurrencesMembership(path: string, methods: seq<MethodDecl>, o: Occurrence)
    ensures o in FileOccurrences(path, methods) <==> DeclaredInMethods(path, methods, o)
    decreases |methods|
  {
    if methods != [] {
      var m := methods[0];
      FileOccurrencesMembership(path, methods[1..], o);
      var here := MethodOccurrences(path, m);
      assert o in here <==> o.filePath == path && o.methodName == m.identifier &&
                            o.attribute in m.attributes && IsMarker(o.attribute) by {
        var attrs := MarkerAttributes(m.attributes);
        FilterSpec(m.attributes, IsMarker);
        if o in here {
          var k :| 0 <= k < |here| && here[k] == o;
          assert attrs[k] in attrs;
        }
        if o.filePath == path && o.methodName == m.identifier && o.attribute in attrs {
          var k :| 0 <= k < |attrs| && attrs[k] == o.attribute;
          assert here[k] == o;
        }
      }
      if DeclaredInMethods(path, methods[1..], o) {
        var mi :| 0 <= mi < |methods[1..]| && o.methodName == methods[1..][mi].identifier &&
                  o.attribute in methods[1..][mi].attributes;
        assert methods[mi + 1] == methods[1..][mi];
      }
      if DeclaredInMethods(path, methods, o) {
        var mi :| 0 <= mi < |methods| && o.methodName == methods[mi].identifier &&
                  o.attribute in methods[mi].attributes;
        if mi > 0 {
          assert methods[1..][mi - 1] == methods[mi];
        }
      }
    }
  }

  /**
   * Exactly the marker attributes of every method of every file become
   * occurrences, each tagged with that method's identifier and that file's path.
   */
  lemma {:induction false} OccurrencesMembership(files: seq<SourceFile>, o: Occurrence)
    ensures o in Occurrences(files) <==>
              exists fi :: 0 <= fi < |files| && DeclaredInMethods(files[fi].path, files[fi].methods, o)
    decreases |files|
  {
    if files != [] {
      OccurrencesMembership(files[1..], o);
      FileOccurrencesMembership(files[0].path, files[0].methods, o);
      if exists fi :: 0 <= fi < |files[1..]| && DeclaredInMethods(files[1..][fi].path, files[1..][fi].methods, o) {
        var fi :| 0 <= fi < |files[1..]| && DeclaredInMethods(files[1..][fi].path, files[1..][fi].methods, o);
        assert files[fi + 1] == files[1..][fi];
      }
      if exists fi :: 0 <= fi < |files| && DeclaredInMethods(files[fi].path, files[fi].methods, o) {
        var fi :| 0 <= fi < |files| && DeclaredInMethods(files[fi].path, files[fi].methods, o);
        if fi > 0 {
          assert files[1..][fi - 1] == files[fi];
        }
      }
    }
  }
}
