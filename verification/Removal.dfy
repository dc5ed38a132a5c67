// RemovePackage: the rows of one package and nothing else, and the names that
// leave the pacman repository with it.
module Removal {
  import opened ArtifactNames
  import opened Creation
  import opened Database
  import opened Invariants
  import opened Options
  import opened Packages
  import opened Publishing
  import opened Sets
  import opened Sorting
  import opened Tables

  // ---- splitPackagesFromMetadata ----

  function TextItems(items: seq<Option<string>>): seq<string> {
    if items == [] then []
    else
      var n := |items| - 1;
      if items[n].Some? && items[n].value != "" then TextItems(items[..n]) + [items[n].value] else TextItems(items[..n])
  }

  function SplitPackages(field: SplitField): seq<string> {
    match field
    case Absent => []
    case Names(names) => names
    case Items(items) => TextItems(items)
    case Malformed => []
  }

  lemma {:induction false} TextItemsMean(items: seq<Option<string>>)
    ensures forall n :: n in TextItems(items) <==> Some(n) in items && n != ""
  {
    if items != [] {
      var k := |items| - 1;
      TextItemsMean(items[..k]);
      assert items == items[..k] + [items[k]];
    }
  }

  method ReadSplitPackages(field: SplitField) returns (names: seq<string>)
    ensures names == SplitPackages(field)
    ensures field.Names? ==> names == field.names
    ensures field.Absent? || field.Malformed? ==> names == []
    ensures field.Items? ==> forall n :: n in names <==> Some(n) in field.items && n != ""
  {
    match field {
      case Names(texts) => return texts;
      case Items(items) =>
        names := [];
        for i := 0 to |items|
          invariant names == TextItems(items[..i])
        {
          assert items[..i + 1][..i] == items[..i];
          if items[i].Some? && items[i].value != "" {
            names := names + [items[i].value];
          }
        }
        assert items[..|items|] == items;
        TextItemsMean(items);
      case _ => return [];
    }
  }

  // The split names CreatePackage stores are read back, but for empty ones.
  lemma {:induction false} SplitNamesReadBack(names: seq<string>)
    ensures forall n :: n in SplitPackages(JsonNames(names)) <==> n in names && n != ""
  {
    var items := JsonNames(names).items;
    TextItemsMean(items);
    forall n ensures n in SplitPackages(JsonNames(names)) <==> n in names && n != "" {
      if n in names {
        var i :| 0 <= i < |names| && names[i] == n;
        assert items[i] == Some(n);
      }
    }
  }

  // ---- sortedKeys ----

  method SortedKeys(values: set<string>) returns (keys: seq<string>)
    ensures Ascending(keys) && Elements(keys) == values
  {
    var unsorted: seq<string> := [];
    var todo := values;
    while todo != {}
      invariant todo <= values
      invariant Distinct(unsorted) && Elements(unsorted) == values - todo
    {
      ghost var some := Member(todo);
      var key :| key in todo;
      assert key !in Elements(unsorted);
      assert Elements(unsorted + [key]) == Elements(unsorted) + {key};
      unsorted := unsorted + [key];
      todo := todo - {key};
    }
    keys := SortStrings(unsorted);
  }

  // ---- What belongs to a package ----

  function ArtifactsOf(t: Tables, p: Id): set<ArtifactKey> {
    set key | key in t.artifacts && key.jobId in JobsOf(t, p)
  }

  function SplitNamesOf(t: Tables, versions: set<Id>): set<string> {
    set v, n | v in versions && v in t.versions && n in SplitPackages(t.versions[v].splits) :: n
  }

  ghost predicate NamesInOrder(names: seq<string>, order: seq<ArtifactKey>) {
    |names| == |order| && forall i :: 0 <= i < |order| ==> names[i] == order[i].filename
  }

  // One file name for each of the rows, in some order.
  ghost predicate OnePerRow(names: seq<string>, keys: set<ArtifactKey>) {
    exists order: seq<ArtifactKey> :: Distinct(order) && Elements(order) == keys && NamesInOrder(names, order)
  }

  function ParsedNames(keys: set<ArtifactKey>): set<string> {
    set key | key in keys && PackageNameOf(key.filename) != "" :: PackageNameOf(key.filename)
  }

  // Every name the package may have in the repository.
  function RepoNames(t: Tables, p: Id): set<string>
    requires p in t.packages
  {
    {t.packages[p].name} + SplitNamesOf(t, VersionsOf(t, p)) + ParsedNames(ArtifactsOf(t, p))
  }

  ghost predicate JobOfPackage(t: Tables, j: Id, p: Id) {
    j in t.jobs && OfPackage(t, t.jobs[j].versionId, p)
  }

  // The names are the package's own, the split names of its versions and the
  // names in its artifacts, and no others.
  lemma NamesCovered(t: Tables, p: Id, n: string)
    requires p in t.packages
    ensures n in RepoNames(t, p) <==>
            || n == t.packages[p].name
            || (exists v :: OfPackage(t, v, p) && n in SplitPackages(t.versions[v].splits))
            || (exists key :: && key in t.artifacts && JobOfPackage(t, key.jobId, p)
                              && PackageNameOf(key.filename) == n && n != "")
  {
    hide SplitPackages, PackageNameOf;
    assert forall v :: OfPackage(t, v, p) <==> v in VersionsOf(t, p);
    assert forall j :: JobOfPackage(t, j, p) <==> j in JobsOf(t, p);
    if key :| key in t.artifacts && JobOfPackage(t, key.jobId, p) && PackageNameOf(key.filename) == n && n != "" {
      assert key in ArtifactsOf(t, p);
    }
  }

  // Every split name of an accepted revision is among the names to remove,
  // from the accept on as long as the version row is there.
  lemma AcceptedSplitIsCovered(t: Tables, info: PackageInfo, path: string, revision: string, digest: string,
                               eligibleAt: Time, now: Time, s: Tables, n: string)
    requires Consistent(t) && !HasVersion(t, PackageId(t, info.name), revision)
    requires Created(t, info, path, revision, digest, eligibleAt, now).Some?
    requires var after := Created(t, info, path, revision, digest, eligibleAt, now).value;
             && t.nextVersion in s.versions && t.nextVersion in after.versions
             && s.versions[t.nextVersion] == after.versions[t.nextVersion]
             && PackageId(t, info.name) in s.packages
    requires n in info.splits && n != ""
    ensures n in RepoNames(s, PackageId(t, info.name))
  {
    NewColumns(t, info, path, revision, digest, eligibleAt, now);
    hide Created, PackageNameOf;
    var p, v := PackageId(t, info.name), t.nextVersion;
    var items := s.versions[v].splits.items;
    TextItemsMean(items);
    var i :| 0 <= i < |info.splits| && info.splits[i] == n;
    assert items[i] == Some(n);
    assert OfPackage(s, v, p);
    NamesCovered(s, p, n);
  }

  // An artifact with a regular file name has its package removed from the repository.
  lemma {:induction false} ArtifactIsCovered(t: Tables, p: Id, key: ArtifactKey, name: string, pkgver: string,
                                             pkgrel: string, arch: string, suffix: string)
    requires p in t.packages && key in t.artifacts && JobOfPackage(t, key.jobId, p)
    requires name != "" && '/' !in name && forall s :: s in {pkgver, pkgrel, arch} ==> '/' !in s && '-' !in s
    requires suffix in {".pkg.tar.zst", ".pkg.tar.xz", ".pkg.tar.gz", ".pkg.tar.bz2", ".pkg.tar"}
    requires key.filename == Stem(name, pkgver, pkgrel, arch) + suffix
    ensures name in RepoNames(t, p)
  {
    FilenameRoundTrip(name, pkgver, pkgrel, arch, suffix);
    hide PackageNameOf, Stem;
    NamesCovered(t, p, name);
  }

  // ---- The files of the repository ----

  // The names with their signatures.
  function WithSignatures(names: set<string>): set<string> {
    names + set n | n in names :: n + ".sig"
  }

  // What a removal deletes from the repository directory.
  function FilesOf(t: Tables, p: Id): set<string> {
    WithSignatures(set key | key in ArtifactsOf(t, p) :: key.filename)
  }

  // The files and rows after a removal that is not refused; deleting the
  // stuck files fails.
  function AfterRemoval(s: Store, p: Id, stuck: set<string>, commits: bool): Store {
    Store(s.repo - (FilesOf(s.tables, p) - stuck), if commits then Without(s.tables, p) else s.tables)
  }

  // The file is recorded for a job of another package.
  ghost predicate RecordedElsewhere(t: Tables, p: Id, f: string) {
    exists key :: key in t.artifacts && key.filename == f && !JobOfPackage(t, key.jobId, p)
  }

  predicate Covers(key: ArtifactKey, f: string) {
    key.filename == f || key.filename + ".sig" == f
  }

  // The package has recorded a file, or a file whose signature it is.
  ghost predicate Claims(t: Tables, p: Id, f: string) {
    exists key :: key in t.artifacts && JobOfPackage(t, key.jobId, p) && Covers(key, f)
  }

  lemma ClaimedFiles(t: Tables, p: Id, f: string)
    ensures f in FilesOf(t, p) <==> Claims(t, p, f)
  {
    assert forall key :: key in ArtifactsOf(t, p) <==> key in t.artifacts && JobOfPackage(t, key.jobId, p);
    var names := set key | key in ArtifactsOf(t, p) :: key.filename;
    if key :| key in t.artifacts && JobOfPackage(t, key.jobId, p) && Covers(key, f) {
      assert key in ArtifactsOf(t, p) && key.filename in names;
    }
    if f in FilesOf(t, p) {
      if f in names {
        var key :| key in ArtifactsOf(t, p) && key.filename == f;
        assert key in t.artifacts && JobOfPackage(t, key.jobId, p) && Covers(key, f);
      } else {
        var n :| n in names && n + ".sig" == f;
        var key :| key in ArtifactsOf(t, p) && key.filename == n;
        assert key in t.artifacts && JobOfPackage(t, key.jobId, p) && Covers(key, f);
      }
    }
  }

  // The files recorded for other packages all stay, whether or not the commit
  // goes through, exactly when none of those in the directory is also a file
  // or signature of this package that can be deleted.
  lemma OthersKeepFiles(s: Store, p: Id, stuck: set<string>, commits: bool)
    ensures var r := AfterRemoval(s, p, stuck, commits);
            (forall f :: f in s.repo && RecordedElsewhere(s.tables, p, f) ==> f in r.repo && r.repo[f] == s.repo[f])
            <==> forall f :: f in s.repo && RecordedElsewhere(s.tables, p, f) ==> f in stuck || !Claims(s.tables, p, f)
  {
    hide RecordedElsewhere, Claims, FilesOf;
    forall f ensures f in FilesOf(s.tables, p) <==> Claims(s.tables, p, f) {
      ClaimedFiles(s.tables, p, f);
    }
  }

  // A removal that failed to commit and is tried again ends as if it had gone
  // through at once.
  lemma RetryIsHarmless(s: Store, p: Id, first: set<string>, second: set<string>)
    ensures AfterRemoval(AfterRemoval(s, p, first, false), p, second, true) == AfterRemoval(s, p, first * second, true)
  {
    hide FilesOf, Without;
    var files := FilesOf(s.tables, p);
    assert s.repo - (files - first) - (files - second) == s.repo - (files - first * second);
  }

  lemma OneFileMore(files: seq<string>, f: string)
    ensures WithSignatures(Elements(files + [f])) == WithSignatures(Elements(files)) + {f, f + ".sig"}
  {
    var more := files + [f];
    assert Elements(more) == Elements(files) + {f};
    forall x ensures x in WithSignatures(Elements(more)) <==> x in WithSignatures(Elements(files)) + {f, f + ".sig"} {
    }
  }

  lemma FilesOfRows(files: seq<string>, keys: set<ArtifactKey>)
    requires OnePerRow(files, keys)
    ensures Elements(files) == set key | key in keys :: key.filename
  {
    var order: seq<ArtifactKey> :| Distinct(order) && Elements(order) == keys && NamesInOrder(files, order);
    forall f | f in files ensures exists key :: key in keys && key.filename == f {
      var i :| 0 <= i < |files| && files[i] == f;
      assert order[i] in Elements(order);
    }
    forall key | key in keys ensures key.filename in files {
      assert key in Elements(order);
      var i :| 0 <= i < |order| && order[i] == key;
      assert files[i] == key.filename;
    }
  }

  // ---- The loops of RemovePackage ----

  lemma SplitNamesGrow(t: Tables, seen: set<Id>, v: Id)
    requires v in t.versions
    ensures SplitNamesOf(t, seen + {v}) == SplitNamesOf(t, seen) + set n | n in SplitPackages(t.versions[v].splits)
  {
  }

  method CollectVersions(t: Tables, p: Id, name: string) returns (ids: seq<Id>, names: set<string>)
    ensures forall v :: v in ids <==> v in VersionsOf(t, p)
    ensures names == {name} + SplitNamesOf(t, VersionsOf(t, p))
  {
    ids, names := [], {name};
    var todo := t.versions.Keys;
    ghost var seen: set<Id> := {};
    while todo != {}
      invariant todo <= t.versions.Keys
      invariant seen == VersionsOf(t, p) - todo
      invariant forall v :: v in ids <==> v in seen
      invariant names == {name} + SplitNamesOf(t, seen)
    {
      ghost var some := Member(todo);
      var v :| v in todo;
      if t.versions[v].packageId == p {
        ids := ids + [v];
        var splits := ReadSplitPackages(t.versions[v].splits);
        names := names + set n | n in splits;
        SplitNamesGrow(t, seen, v);
        seen := seen + {v};
      }
      todo := todo - {v};
    }
    assert seen == VersionsOf(t, p);
  }

  method CollectJobs(t: Tables, p: Id, versionIds: seq<Id>) returns (ids: seq<Id>, running: bool)
    requires forall v :: v in versionIds <==> v in VersionsOf(t, p)
    ensures forall j :: j in ids <==> j in JobsOf(t, p)
    ensures running <==> HasRunningJob(t, p)
  {
    ids, running := [], false;
    var todo := t.jobs.Keys;
    while todo != {}
      invariant todo <= t.jobs.Keys
      invariant forall j :: j in ids <==> j in JobsOf(t, p) && j !in todo
      invariant running <==> exists j :: j in JobsOf(t, p) && j !in todo && t.jobs[j].status == Running
    {
      ghost var some := Member(todo);
      var j :| j in todo;
      if t.jobs[j].versionId in versionIds {
        ids := ids + [j];
        if t.jobs[j].status == Running {
          running := true;
        }
      }
      todo := todo - {j};
    }
    assert forall j :: j in JobsOf(t, p) <==>
             j in t.jobs && t.jobs[j].versionId in t.versions && t.versions[t.jobs[j].versionId].packageId == p;
  }

  lemma OneKeyMore(keys: set<ArtifactKey>, key: ArtifactKey)
    ensures ParsedNames(keys + {key}) ==
            ParsedNames(keys) + if PackageNameOf(key.filename) != "" then {PackageNameOf(key.filename)} else {}
  {
    hide PackageNameOf;
  }

  method CollectArtifacts(keys: set<ArtifactKey>) returns (names: seq<string>, parsed: set<string>)
    ensures OnePerRow(names, keys)
    ensures parsed == ParsedNames(keys)
    decreases |keys|
  {
    names, parsed := [], {};
    ghost var order: seq<ArtifactKey> := [];
    var todo := keys;
    while todo != {}
      invariant todo <= keys
      invariant Distinct(order) && Elements(order) == keys - todo && NamesInOrder(names, order)
      invariant parsed == ParsedNames(keys - todo)
    {
      ghost var some := Member(todo);
      var key :| key in todo;
      names := names + [key.filename];
      assert key !in Elements(order);
      order := order + [key];
      var name := PackageNameFromArtifact(key.filename);
      OneKeyMore(keys - todo, key);
      assert keys - (todo - {key}) == (keys - todo) + {key};
      if name != "" {
        parsed := parsed + {name};
      }
      todo := todo - {key};
    }
    assert keys - todo == keys;
  }

  datatype Removed = Removed(name: string, kind: SourceKind, repoPackages: seq<string>, artifacts: seq<string>)

  lemma DeletesPackage(t: Tables, p: Id, versionIds: seq<Id>, jobIds: seq<Id>, s: Tables)
    requires forall v :: v in versionIds <==> v in VersionsOf(t, p)
    requires forall j :: j in jobIds <==> j in JobsOf(t, p)
    requires s == t.(
      artifacts := map key | key in t.artifacts && key.jobId !in jobIds :: t.artifacts[key],
      jobs := map j | j in t.jobs && j !in jobIds :: t.jobs[j],
      dependencies := map key | key in t.dependencies && key.versionId !in versionIds :: t.dependencies[key],
      versions := map v | v in t.versions && v !in versionIds :: t.versions[v],
      packages := t.packages - {p})
    ensures s == Without(t, p)
  {
    var w := Without(t, p);
    assert s.versions == w.versions by {
      assert forall v :: v in s.versions <==> v in w.versions;
    }
    assert s.jobs == w.jobs by {
      assert forall j :: j in s.jobs <==> j in w.jobs;
    }
  }

  // The loop over the artifact names; an error of os.Remove is dropped.
  method RemoveFiles(publisher: Publisher, files: seq<string>, stuck: set<string>)
    modifies publisher
    ensures publisher.repo == old(publisher.repo) - (WithSignatures(Elements(files)) - stuck)
    ensures forall f :: f in publisher.repo <==>
              && f in old(publisher.repo)
              && (f in stuck || (f !in files && forall g :: g in files ==> f != g + ".sig"))
    ensures forall f :: f in publisher.repo ==> publisher.repo[f] == old(publisher.repo)[f]
  {
    ghost var was := publisher.repo;
    for i := 0 to |files|
      invariant publisher.repo == was - (WithSignatures(Elements(files[..i])) - stuck)
    {
      var targets := {files[i], files[i] + ".sig"} - stuck;
      publisher.repo := publisher.repo - targets;
      assert files[..i + 1] == files[..i] + [files[i]];
      OneFileMore(files[..i], files[i]);
      assert was - (WithSignatures(Elements(files[..i])) - stuck) - targets
          == was - (WithSignatures(Elements(files[..i + 1])) - stuck);
    }
    assert files[..|files|] == files;
  }

  // Removes the package unless one of its builds is running. The files go
  // before the rows, so a failed commit leaves the rows without their files.
  method RemovePackage(publisher: Publisher, name: string, stuck: set<string>, commits: bool)
    returns (r: Result<Removed>)
    requires UniqueNames(publisher.database.tables)
    modifies publisher, publisher.database
    ensures var t, p := old(publisher.database.tables), PackageId(old(publisher.database.tables), name);
            && (r.Success? <==> HasPackage(t, name) && !HasRunningJob(t, p) && commits)
            && publisher.Contents() == (if HasPackage(t, name) && !HasRunningJob(t, p)
                                        then AfterRemoval(old(publisher.Contents()), p, stuck, commits)
                                        else old(publisher.Contents()))
            && (r.Success? ==>
                  && r.value.name == name && r.value.kind == t.packages[p].kind
                  && Ascending(r.value.repoPackages) && Elements(r.value.repoPackages) == RepoNames(t, p)
                  && OnePerRow(r.value.artifacts, ArtifactsOf(t, p)))
  {
    var db := publisher.database;
    var t := db.tables;
    var found := FindPackage(t, name);
    if found == None {
      return Failure("package is not managed");
    }
    var p := found.value;
    var versionIds, repoNames := CollectVersions(t, p, t.packages[p].name);
    var jobIds, running := CollectJobs(t, p, versionIds);
    if running {
      return Failure("package has a running build");
    }
    var keys := set key | key in t.artifacts && key.jobId in jobIds;
    assert keys == ArtifactsOf(t, p);
    var files, parsed := CollectArtifacts(keys);
    var names := SortedKeys(repoNames + parsed);
    FilesOfRows(files, keys);
    RemoveFiles(publisher, files, stuck);
    if !commits {
      return Failure("commit");
    }
    db.tables := t.(
      artifacts := map key | key in t.artifacts && key.jobId !in jobIds :: t.artifacts[key],
      jobs := map j | j in t.jobs && j !in jobIds :: t.jobs[j],
      dependencies := map key | key in t.dependencies && key.versionId !in versionIds :: t.dependencies[key],
      versions := map v | v in t.versions && v !in versionIds :: t.versions[v],
      packages := t.packages - {p});
    DeletesPackage(t, p, versionIds, jobIds, db.tables);
    r := Success(Removed(t.packages[p].name, t.packages[p].kind, names, files));
  }

  // ---- Exactness ----

  // Exactly the package's rows go; every other row and every reference stays.
  lemma {:induction false} RemovalIsExact(t: Tables, p: Id)
    requires Consistent(t)
    ensures var s := Without(t, p);
            && Consistent(s)
            && s.packages.Keys == t.packages.Keys - {p}
            && (forall q :: q in s.packages ==> s.packages[q] == t.packages[q])
            && (forall v :: v in s.versions <==> v in t.versions && !OfPackage(t, v, p))
            && (forall v :: v in s.versions ==> s.versions[v] == t.versions[v])
            && (forall j :: j in s.jobs <==> j in t.jobs && !JobOfPackage(t, j, p))
            && (forall j :: j in s.jobs ==> s.jobs[j] == t.jobs[j])
            && (forall key :: key in s.dependencies <==> key in t.dependencies && !OfPackage(t, key.versionId, p))
            && (forall key :: key in s.dependencies ==> s.dependencies[key] == t.dependencies[key])
            && (forall key :: key in s.artifacts <==> key in t.artifacts && !JobOfPackage(t, key.jobId, p))
            && (forall key :: key in s.artifacts ==> s.artifacts[key] == t.artifacts[key])
  {
    RemoveKeeps(t, p);
  }
}
