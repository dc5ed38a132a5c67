// ParsePackage and its PKGBUILD fallback, the classification of dependencies
// against the AUR, and the promise all of them keep: declared dependency names
// are non-empty and pairwise distinct.
module PackageSource {
  import opened DependencyNames
  import opened Options
  import opened Packages
  import opened Sorting
  import opened Srcinfo
  import opened SrcinfoText
  import opened Strings

  datatype AssignKey = AssignName | AssignVer | AssignRel | AssignDepends

  // One match of assignRE with the tokens quotedRE finds in its value.
  datatype Assignment = Assignment(key: AssignKey, tokens: seq<string>)

  // First tokens of the non-empty assignments to a key, in order.
  function Heads(assignments: seq<Assignment>, key: AssignKey): seq<string> {
    if assignments == [] then []
    else
      var n := |assignments| - 1;
      var a := assignments[n];
      if a.key == key && a.tokens != [] then Heads(assignments[..n], key) + [a.tokens[0]]
      else Heads(assignments[..n], key)
  }

  // All tokens given to a key, in order.
  function Tokens(assignments: seq<Assignment>, key: AssignKey): seq<string> {
    if assignments == [] then []
    else
      var n := |assignments| - 1;
      if assignments[n].key == key then Tokens(assignments[..n], key) + assignments[n].tokens
      else Tokens(assignments[..n], key)
  }

  function AssignedNames(assignments: seq<Assignment>): seq<string> {
    FirstOccurrences(DepNames(Tokens(assignments, AssignDepends)))
  }

  // Last name, version and release given, every package name, and the
  // dependency names by first occurrence.
  function ParsedPkgbuild(assignments: seq<Assignment>, info: PackageInfo): PackageInfo {
    info.(name := LastOr(Heads(assignments, AssignName), info.name),
          version := LastOr(Heads(assignments, AssignVer), info.version),
          release := LastOr(Heads(assignments, AssignRel), info.release),
          splits := info.splits + Tokens(assignments, AssignName),
          dependencies := info.dependencies + Named(AssignedNames(assignments)))
  }

  lemma SeenOneMore(names: seq<string>, name: string, seen: set<string>)
    requires seen == Elements(FirstOccurrences(names))
    ensures name in seen <==> name in FirstOccurrences(names)
    ensures Elements(FirstOccurrences(names + [name])) == if name != "" && name !in seen then seen + {name} else seen
  {
    AddName(names, name);
  }

  lemma NamedOneMore(names: seq<string>, name: string, base: seq<Dependency>)
    ensures base + Named(FirstOccurrences(names + [name])) ==
            if name == "" || name in FirstOccurrences(names) then base + Named(FirstOccurrences(names))
            else base + Named(FirstOccurrences(names)) + [Dependency(name, false)]
  {
    AddName(names, name);
    AddNamed(FirstOccurrences(names), name);
  }

  // The dependencies and the set of names that a list of names gives.
  ghost predicate Collected(names: seq<string>, base: seq<Dependency>, dependencies: seq<Dependency>,
                            seen: set<string>) {
    && dependencies == base + Named(FirstOccurrences(names))
    && seen == Elements(FirstOccurrences(names))
  }

  lemma CollectOneMore(names: seq<string>, name: string, base: seq<Dependency>,
                       dependencies: seq<Dependency>, seen: set<string>)
    requires Collected(names, base, dependencies, seen)
    ensures if name != "" && name !in seen
            then Collected(names + [name], base, dependencies + [Dependency(name, false)], seen + {name})
            else Collected(names + [name], base, dependencies, seen)
  {
    SeenOneMore(names, name, seen);
    NamedOneMore(names, name, base);
  }

  method CollectName(ghost names: seq<string>, name: string, ghost base: seq<Dependency>,
                     dependencies: seq<Dependency>, seen: set<string>)
    returns (found: seq<Dependency>, known: set<string>)
    requires Collected(names, base, dependencies, seen)
    ensures Collected(names + [name], base, found, known)
  {
    CollectOneMore(names, name, base, dependencies, seen);
    found, known := dependencies, seen;
    if name != "" && name !in seen {
      found := dependencies + [Dependency(name, false)];
      known := seen + {name};
    }
  }

  // The inner loop over the tokens of one dependency assignment.
  method ReadDependencies(tokens: seq<string>, ghost before: seq<string>, ghost base: seq<Dependency>,
                          dependencies: seq<Dependency>, seen: set<string>)
    returns (found: seq<Dependency>, known: set<string>)
    requires Collected(DepNames(before), base, dependencies, seen)
    ensures Collected(DepNames(before + tokens), base, found, known)
  {
    hide Collected, DepName, DepNames;
    found, known := dependencies, seen;
    ghost var all, names := before, DepNames(before);
    for i := 0 to |tokens|
      invariant all == before + tokens[..i] && names == DepNames(all)
      invariant Collected(names, base, found, known)
    {
      var name := ComputeDepName(tokens[i]);
      found, known := CollectName(names, name, base, found, known);
      AddDepName(all, tokens[i]);
      all, names := all + [tokens[i]], names + [name];
    }
    assert tokens[..|tokens|] == tokens;
  }

  method ParsePkgbuild(assignments: seq<Assignment>, info: PackageInfo) returns (out: PackageInfo)
    ensures out == ParsedPkgbuild(assignments, info)
  {
    out := info;
    var seen: set<string> := {};
    assert info.splits + [] == info.splits && info.dependencies + [] == info.dependencies;
    for i := 0 to |assignments|
      invariant out == ParsedPkgbuild(assignments[..i], info)
      invariant seen == Elements(AssignedNames(assignments[..i]))
    {
      var a := assignments[i];
      assert assignments[..i + 1][..i] == assignments[..i];
      if a.tokens == [] {
        assert forall key :: Tokens(assignments[..i + 1], key) == Tokens(assignments[..i], key) by {
          forall key ensures Tokens(assignments[..i + 1], key) == Tokens(assignments[..i], key) {
            assert Tokens(assignments[..i], key) + [] == Tokens(assignments[..i], key);
          }
        }
        continue;
      }
      match a.key {
        case AssignName =>
          out := out.(name := a.tokens[0], splits := out.splits + a.tokens);
          assert out.splits == info.splits + Tokens(assignments[..i + 1], AssignName);
        case AssignVer => out := out.(version := a.tokens[0]);
        case AssignRel => out := out.(release := a.tokens[0]);
        case AssignDepends =>
          var dependencies;
          dependencies, seen := ReadDependencies(a.tokens, Tokens(assignments[..i], AssignDepends),
                                                 info.dependencies, out.dependencies, seen);
          out := out.(dependencies := dependencies);
      }
    }
    assert assignments[..|assignments|] == assignments;
  }

  // ---- Which assignment counts ----

  lemma {:induction false} LastHead(assignments: seq<Assignment>, key: AssignKey, k: nat)
    requires k < |assignments| && assignments[k].key == key && assignments[k].tokens != []
    requires forall j :: k < j < |assignments| ==> assignments[j].key != key || assignments[j].tokens == []
    ensures Heads(assignments, key) != []
    ensures Heads(assignments, key)[|Heads(assignments, key)| - 1] == assignments[k].tokens[0]
  {
    var n := |assignments| - 1;
    if k < n {
      LastHead(assignments[..n], key, k);
    }
  }

  // Name, version and release are the first tokens of the last assignments to
  // them that have any.
  lemma {:induction false} AssignmentsCount(assignments: seq<Assignment>, info: PackageInfo, k: nat)
    requires k < |assignments| && assignments[k].tokens != []
    requires forall j :: k < j < |assignments| ==>
               assignments[j].key != assignments[k].key || assignments[j].tokens == []
    ensures var r, first := ParsedPkgbuild(assignments, info), assignments[k].tokens[0];
            match assignments[k].key
            case AssignName => r.name == first
            case AssignVer => r.version == first
            case AssignRel => r.release == first
            case AssignDepends => true
  {
    hide AssignedNames, Tokens;
    LastHead(assignments, assignments[k].key, k);
  }

  function Given(a: Assignment, key: AssignKey): seq<string> {
    if a.key == key then a.tokens else []
  }

  function Head(a: Assignment, key: AssignKey): seq<string> {
    if a.key == key && a.tokens != [] then [a.tokens[0]] else []
  }

  lemma TokensAppend(assignments: seq<Assignment>, a: Assignment, key: AssignKey)
    ensures Tokens(assignments + [a], key) == Tokens(assignments, key) + Given(a, key)
    ensures Heads(assignments + [a], key) == Heads(assignments, key) + Head(a, key)
  {
    assert (assignments + [a])[..|assignments|] == assignments;
  }

  lemma NothingAssigned()
    ensures forall key :: Tokens([], key) == [] && Heads([], key) == []
  {
  }

  lemma FiveAssignments(n: Assignment, v: Assignment, r: Assignment, b: Assignment, u: Assignment, key: AssignKey)
    ensures Tokens([n, v, r, b, u], key)
            == Given(n, key) + Given(v, key) + Given(r, key) + Given(b, key) + Given(u, key)
    ensures Heads([n, v, r, b, u], key)
            == Head(n, key) + Head(v, key) + Head(r, key) + Head(b, key) + Head(u, key)
  {
    hide Tokens, Heads, Given, Head;
    NothingAssigned();
    TokensAppend([], n, key);
    TokensAppend([n], v, key);
    TokensAppend([n, v], r, key);
    TokensAppend([n, v, r], b, key);
    TokensAppend([n, v, r, b], u, key);
    assert [] + [n] == [n] && [n] + [v] == [n, v] && [n, v] + [r] == [n, v, r] && [n, v, r] + [b] == [n, v, r, b];
    assert [n, v, r, b] + [u] == [n, v, r, b, u];
    assert [] + Given(n, key) == Given(n, key) && [] + Head(n, key) == Head(n, key);
  }

  // What a PKGBUILD with the package's own declarations assigns.
  function Declared(info: PackageInfo, built: seq<string>, used: seq<string>): seq<Assignment> {
    [Assignment(AssignName, info.splits), Assignment(AssignVer, [info.version]), Assignment(AssignRel, [info.release]),
     Assignment(AssignDepends, built), Assignment(AssignDepends, used)]
  }

  lemma DeclaredValues(info: PackageInfo, built: seq<string>, used: seq<string>)
    requires info.splits != [] && info.splits[0] == info.name
    ensures var given := Declared(info, built, used);
            && Heads(given, AssignName) == [info.name] && Heads(given, AssignVer) == [info.version]
            && Heads(given, AssignRel) == [info.release] && Tokens(given, AssignName) == info.splits
            && Tokens(given, AssignDepends) == built + used
  {
    hide Tokens, Heads;
    var n, v := Assignment(AssignName, info.splits), Assignment(AssignVer, [info.version]);
    var r := Assignment(AssignRel, [info.release]);
    var b, u := Assignment(AssignDepends, built), Assignment(AssignDepends, used);
    FiveAssignments(n, v, r, b, u, AssignName);
    FiveAssignments(n, v, r, b, u, AssignVer);
    FiveAssignments(n, v, r, b, u, AssignRel);
    FiveAssignments(n, v, r, b, u, AssignDepends);
  }

  lemma NoWarnings(info: PackageInfo)
    requires Printable(info)
    ensures info.warnings == []
  {
  }

  // Both parsers read the same metadata from the same declarations.
  lemma {:induction false} ParsersAgree(info: PackageInfo, doc: seq<Line>, built: seq<string>, used: seq<string>)
    requires Printable(info) && info.splits != [] && info.splits[0] == info.name
    requires NamesOf(info.dependencies) == built + used
    requires (forall l :: l in doc ==> WellFormed(l)) && Lists(FieldsOf(doc), info)
    ensures var given := [Assignment(AssignName, info.splits), Assignment(AssignVer, [info.version]),
                          Assignment(AssignRel, [info.release]), Assignment(AssignDepends, built),
                          Assignment(AssignDepends, used)];
            var empty := EmptyInfo(info.kind, info.ref);
            ParsedPkgbuild(given, empty) == info && ParsedSrcinfo(Render(doc), empty) == info
  {
    hide Tokens, Heads, Printable, Lists, FieldsOf, Render, ParsedSrcinfo, DepNames, FirstOccurrences, Named, DepName;
    hide WellFormed, NamesOf;
    RoundTrip(info, doc);
    PrintableNames(info);
    DeclaredValues(info, built, used);
    NoWarnings(info);
    assert AssignedNames(Declared(info, built, used)) == NamesOf(info.dependencies);
    assert [] + info.splits == info.splits && [] + info.dependencies == info.dependencies;
  }

  // ---- ParsePackage ----

  // Names the dependency table takes: none empty, none twice.
  ghost predicate UniqueDependencies(info: PackageInfo) {
    && (forall d :: d in info.dependencies ==> d.name != "")
    && DistinctNames(info.dependencies)
  }

  lemma NamedIsUnique(names: seq<string>, info: PackageInfo)
    requires info.dependencies == Named(FirstOccurrences(names))
    ensures UniqueDependencies(info)
  {
    FirstOccurrencesMeans(names);
    var r := FirstOccurrences(names);
    forall d | d in info.dependencies ensures d.name != "" {
      var i :| 0 <= i < |info.dependencies| && info.dependencies[i] == d;
      assert r[i] in Elements(r);
    }
  }

  // No text makes either parser repeat a name or leave one empty.
  lemma {:induction false} ParsersAreUnique(source: string, assignments: seq<Assignment>, kind: SourceKind, ref: string)
    ensures UniqueDependencies(ParsedSrcinfo(source, EmptyInfo(kind, ref)))
    ensures UniqueDependencies(ParsedPkgbuild(assignments, EmptyInfo(kind, ref)))
  {
    var records := RecordsOf(Split(source, '\n'));
    NamedIsUnique(DepNames(Values(records, DEPEND_KEYS)), ParsedSrcinfo(source, EmptyInfo(kind, ref)));
    NamedIsUnique(DepNames(Tokens(assignments, AssignDepends)), ParsedPkgbuild(assignments, EmptyInfo(kind, ref)));
  }

  const FALLBACK_WARNING := ".SRCINFO not found; preview used conservative static PKGBUILD parsing"

  // The files of a package directory: whether PKGBUILD can be found, the text
  // of .SRCINFO when it can be read, the assignments of PKGBUILD when it can.
  datatype Directory = Directory(found: bool, srcinfo: Option<string>, pkgbuild: Option<seq<Assignment>>)

  // What the parser in charge reads, before defaults; none when the directory
  // cannot be read or names no package.
  function ReadInfo(directory: Directory, kind: SourceKind, ref: string): Option<PackageInfo> {
    var parsed :=
      if directory.srcinfo.Some? then Some(ParsedSrcinfo(directory.srcinfo.value, EmptyInfo(kind, ref)))
      else if directory.pkgbuild.Some? then Some(ParsedPkgbuild(directory.pkgbuild.value, EmptyInfo(kind, ref)))
      else None;
    if directory.found && parsed.Some? && parsed.value.name != "" then parsed else None
  }

  function WithDefaults(directory: Directory, parsed: PackageInfo): PackageInfo {
    parsed.(version := if parsed.version == "" then "unknown" else parsed.version,
            release := if parsed.release == "" then "0" else parsed.release,
            splits := if parsed.splits == [] then [parsed.name] else parsed.splits,
            warnings := if directory.srcinfo.Some? then [] else [FALLBACK_WARNING])
  }

  method ParsePackage(directory: Directory, kind: SourceKind, ref: string) returns (r: Result<PackageInfo>)
    ensures r.Success? <==> ReadInfo(directory, kind, ref).Some?
    ensures r.Success? ==>
              && UniqueDependencies(r.value)
              && r.value == WithDefaults(directory, ReadInfo(directory, kind, ref).value)
    ensures r.Success? ==>
              && directory.found && (directory.srcinfo == None ==> directory.pkgbuild.Some?)
              && var empty := EmptyInfo(kind, ref);
                 var parsed := if directory.srcinfo.Some? then ParsedSrcinfo(directory.srcinfo.value, empty)
                               else ParsedPkgbuild(directory.pkgbuild.value, empty);
                 && r.value.name == parsed.name && parsed.name != ""
                 && r.value.version == (if parsed.version == "" then "unknown" else parsed.version)
                 && r.value.release == (if parsed.release == "" then "0" else parsed.release)
                 && r.value.splits == (if parsed.splits == [] then [parsed.name] else parsed.splits)
                 && r.value.dependencies == parsed.dependencies
                 && r.value.kind == kind && r.value.ref == ref
                 && (r.value.warnings == [] <==> directory.srcinfo.Some?)
  {
    if !directory.found {
      return Failure("PKGBUILD");
    }
    var info := EmptyInfo(kind, ref);
    if directory.srcinfo.Some? {
      ParsersAreUnique(directory.srcinfo.value, [], kind, ref);
      info := ParseSrcinfo(directory.srcinfo.value, info);
    } else {
      if directory.pkgbuild == None {
        return Failure("read PKGBUILD");
      }
      ParsersAreUnique("", directory.pkgbuild.value, kind, ref);
      assert info.warnings + [FALLBACK_WARNING] == [FALLBACK_WARNING];
      info := ParsePkgbuild(directory.pkgbuild.value, info);
      info := info.(warnings := info.warnings + [FALLBACK_WARNING]);
    }
    if info.name == "" {
      return Failure("could not determine package name");
    }
    if info.version == "" {
      info := info.(version := "unknown");
    }
    if info.release == "" {
      info := info.(release := "0");
    }
    if info.splits == [] {
      info := info.(splits := [info.name]);
    }
    r := Success(info);
  }

  // ---- Classification against the AUR ----

  // The same metadata with each dependency marked by the AUR's answer.
  ghost predicate Classified(info: PackageInfo, aur: string -> Option<bool>, r: PackageInfo) {
    && r == info.(dependencies := r.dependencies)
    && |r.dependencies| == |info.dependencies|
    && forall i :: 0 <= i < |info.dependencies| ==>
         && r.dependencies[i].name == info.dependencies[i].name
         && aur(info.dependencies[i].name) == Some(r.dependencies[i].aur)
  }

  // Marks each dependency by the AUR's answer; a failed lookup fails the whole.
  method ClassifyDependencies(info: PackageInfo, aur: string -> Option<bool>) returns (r: Result<PackageInfo>)
    ensures r.Success? <==> forall d :: d in info.dependencies ==> aur(d.name).Some?
    ensures r.Success? ==> Classified(info, aur, r.value)
    ensures r.Success? ==>
              && r.value == info.(dependencies := r.value.dependencies)
              && |r.value.dependencies| == |info.dependencies|
              && forall i :: 0 <= i < |info.dependencies| ==>
                   && r.value.dependencies[i].name == info.dependencies[i].name
                   && aur(info.dependencies[i].name) == Some(r.value.dependencies[i].aur)
    ensures r.Success? && UniqueDependencies(info) ==> UniqueDependencies(r.value)
  {
    var dependencies := info.dependencies;
    for i := 0 to |dependencies|
      invariant |dependencies| == |info.dependencies|
      invariant forall j :: i <= j < |dependencies| ==> dependencies[j] == info.dependencies[j]
      invariant forall j :: 0 <= j < i ==> dependencies[j].name == info.dependencies[j].name
      invariant forall j :: 0 <= j < i ==> aur(info.dependencies[j].name) == Some(dependencies[j].aur)
    {
      var found := aur(dependencies[i].name);
      if found == None {
        assert info.dependencies[i] in info.dependencies;
        return Failure("AUR info");
      }
      dependencies := dependencies[i := dependencies[i].(aur := found.value)];
    }
    r := Success(info.(dependencies := dependencies));
    if UniqueDependencies(info) {
      forall d | d in dependencies ensures d.name != "" {
        var i :| 0 <= i < |dependencies| && dependencies[i] == d;
        assert info.dependencies[i] in info.dependencies;
      }
    }
  }
}
