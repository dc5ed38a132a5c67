// publishJob (internal/roles.go): the package files of a job's staging
// directory are copied into the repository and recorded one by one. A run may
// stop at any point, because of an error or because the publisher dies, and
// the next one starts from the beginning.
module Publishing {
  import opened ArtifactNames
  import opened Database
  import opened Options
  import opened Strings
  import opened Tables

  // The contents of files; a package file is binary.
  type Bytes = seq<bv8>

  // An entry of the staging directory.
  datatype Entry = File(name: string, content: Bytes) | Folder(name: string)

  // Where a run stops early: in the work on an entry, before its output is
  // created or with the given number of bytes in it and no row yet; in
  // repo-add; or in the final mark.
  datatype Stop = Never | InFile(at: nat, written: Option<nat>) | InRepoAdd | InMark

  // The files of the repository directory by name, and the database.
  datatype Store = Store(repo: map<string, Bytes>, tables: Tables)

  predicate IsPackageFile(e: Entry): (r: bool)
    ensures r ==> e.File?
  {
    e.File? && Contains(e.name, ".pkg.tar")
  }

  lemma PackageFileMeans(e: Entry)
    ensures IsPackageFile(e) <==> e.File? && exists i :: OccursAt(e.name, ".pkg.tar", i)
  {
    IndexIsFirst(e.name, ".pkg.tar");
  }

  // os.ReadDir lists every name once.
  ghost predicate Listing(entries: seq<Entry>) {
    forall i, j :: 0 <= i < j < |entries| ==> entries[i].name != entries[j].name
  }

  predicate Hits(entries: seq<Entry>, stop: Stop) {
    stop.InFile? && stop.at < |entries| && IsPackageFile(entries[stop.at])
  }

  // The package files and their contents.
  function PackageFiles(entries: seq<Entry>): map<string, Bytes> {
    if entries == [] then map[]
    else
      var n := |entries| - 1;
      if IsPackageFile(entries[n]) then PackageFiles(entries[..n])[entries[n].name := entries[n].content]
      else PackageFiles(entries[..n])
  }

  ghost predicate IsListed(entries: seq<Entry>, f: string) {
    exists i :: 0 <= i < |entries| && IsPackageFile(entries[i]) && entries[i].name == f
  }

  lemma IsListedOneMore(entries: seq<Entry>, e: Entry, f: string)
    ensures IsListed(entries + [e], f) <==> IsListed(entries, f) || (IsPackageFile(e) && e.name == f)
  {
    hide IsPackageFile;
    var all := entries + [e];
    if i :| 0 <= i < |entries| && IsPackageFile(entries[i]) && entries[i].name == f {
      assert all[i] == entries[i];
    }
    assert all[|entries|] == e;
  }

  lemma NotListedTwice(entries: seq<Entry>, e: Entry)
    requires Listing(entries + [e])
    ensures !IsListed(entries, e.name)
  {
    hide IsPackageFile;
    forall i | 0 <= i < |entries| ensures entries[i].name != e.name {
      assert (entries + [e])[i] == entries[i] && (entries + [e])[|entries|] == e;
    }
  }

  // The files of a listing with one entry more.
  lemma OneMoreFile(entries: seq<Entry>, e: Entry)
    requires Listing(entries + [e])
    requires forall f :: f in PackageFiles(entries) <==> IsListed(entries, f)
    ensures forall f :: f in PackageFiles(entries + [e]) <==> IsListed(entries + [e], f)
    ensures IsPackageFile(e) ==> e.name !in PackageFiles(entries)
  {
    hide IsPackageFile, IsListed;
    assert (entries + [e])[..|entries|] == entries;
    forall f ensures f in PackageFiles(entries + [e]) <==> IsListed(entries + [e], f) {
      IsListedOneMore(entries, e, f);
    }
    assert !IsListed(entries, e.name) by {
      NotListedTwice(entries, e);
    }
  }

  lemma {:induction false} PackageFilesListed(entries: seq<Entry>)
    requires Listing(entries)
    ensures forall f :: f in PackageFiles(entries) <==> IsListed(entries, f)
    ensures forall i :: 0 <= i < |entries| && IsPackageFile(entries[i]) ==>
                        entries[i].name in PackageFiles(entries)
                        && PackageFiles(entries)[entries[i].name] == entries[i].content
  {
    hide IsPackageFile;
    if entries != [] {
      var n := |entries| - 1;
      PackageFilesListed(entries[..n]);
      assert entries == entries[..n] + [entries[n]];
      OneMoreFile(entries[..n], entries[n]);
    }
  }

  // What is published: the entries that are no directories and have .pkg.tar
  // somewhere in their name, each with its content.
  lemma PackageFilesAre(entries: seq<Entry>, f: string)
    requires Listing(entries)
    ensures f in PackageFiles(entries) <==>
              && (exists i :: OccursAt(f, ".pkg.tar", i))
              && exists e :: e in entries && e.File? && e.name == f
    ensures forall e :: e in entries && e.File? && e.name == f && f in PackageFiles(entries) ==>
              PackageFiles(entries)[f] == e.content
  {
    hide IsPackageFile, PackageFiles;
    PackageFilesListed(entries);
    forall e | e in entries && e.name == f
      ensures IsPackageFile(e) <==> e.File? && exists i :: OccursAt(f, ".pkg.tar", i)
      ensures e.File? && f in PackageFiles(entries) ==> PackageFiles(entries)[f] == e.content
      ensures IsPackageFile(e) ==> f in PackageFiles(entries)
    {
      PackageFileMeans(e);
      var k :| 0 <= k < |entries| && entries[k] == e;
    }
  }

  // Every file whose name removal can parse is published.
  lemma ParsedIsPublished(entries: seq<Entry>, e: Entry, name: string, pkgver: string, pkgrel: string, arch: string,
                          suffix: string)
    requires Listing(entries) && e in entries && e.File? && e.name == Stem(name, pkgver, pkgrel, arch) + suffix
    requires suffix in {".pkg.tar.zst", ".pkg.tar.xz", ".pkg.tar.gz", ".pkg.tar.bz2", ".pkg.tar"}
    ensures e.name in PackageFiles(entries) && PackageFiles(entries)[e.name] == e.content
  {
    hide PackageFiles, Stem;
    PackageFilesAre(entries, e.name);
    var stem := Stem(name, pkgver, pkgrel, arch);
    assert e.name[|stem|..] == suffix && ".pkg.tar" <= suffix;
    assert OccursAt(e.name, ".pkg.tar", |stem|);
  }

  function Row(content: Bytes, sha: Bytes -> string): Artifact {
    Artifact(sha(content), |content|)
  }

  function Rows(files: map<string, Bytes>, sha: Bytes -> string): map<string, Artifact> {
    map f | f in files :: Row(files[f], sha)
  }

  // The files whose copy and row a run gets done.
  function Completed(entries: seq<Entry>, stop: Stop): map<string, Bytes> {
    if Hits(entries, stop) then PackageFiles(entries[..stop.at]) else PackageFiles(entries)
  }

  function First(s: Bytes, n: nat): Bytes {
    if n <= |s| then s[..n] else s
  }

  // What a run cut in the work on a file leaves of it.
  function Part(e: Entry, written: Option<nat>): map<string, Bytes>
    requires e.File?
  {
    if written.Some? then map[e.name := First(e.content, written.value)] else map[]
  }

  // What a run leaves of the file it is working on when it stops.
  function Unfinished(entries: seq<Entry>, stop: Stop): map<string, Bytes> {
    if Hits(entries, stop) then Part(entries[stop.at], stop.written) else map[]
  }

  predicate Succeeds(t: Tables, job: Id, entries: seq<Entry>, stop: Stop) {
    !Hits(entries, stop) && PackageFiles(entries) != map[] && !stop.InRepoAdd? && !stop.InMark? && job in t.jobs
  }

  lemma SomethingToPublish(entries: seq<Entry>)
    requires Listing(entries)
    ensures PackageFiles(entries) != map[] <==>
              exists e :: e in entries && e.File? && exists i :: OccursAt(e.name, ".pkg.tar", i)
  {
    hide IsPackageFile, PackageFiles, OccursAt, Listing;
    if PackageFiles(entries) != map[] {
      var f :| f in PackageFiles(entries);
      PackageFilesAre(entries, f);
      var e :| e in entries && e.File? && e.name == f;
      assert exists i :: OccursAt(e.name, ".pkg.tar", i);
    }
    if e :| e in entries && e.File? && exists i :: OccursAt(e.name, ".pkg.tar", i) {
      PackageFilesAre(entries, e.name);
      assert e.name in PackageFiles(entries);
    }
  }

  // A run succeeds exactly when nothing stops it and there is a package file to publish.
  lemma SucceedsMeans(t: Tables, job: Id, entries: seq<Entry>, stop: Stop)
    requires Listing(entries)
    ensures Succeeds(t, job, entries, stop) <==>
              && job in t.jobs
              && (exists e :: e in entries && e.File? && exists i :: OccursAt(e.name, ".pkg.tar", i))
              && (|| stop == Never
                  || (&& stop.InFile?
                      && (stop.at < |entries| && entries[stop.at].File? ==>
                            forall i :: !OccursAt(entries[stop.at].name, ".pkg.tar", i))))
  {
    hide IsPackageFile, PackageFiles, OccursAt, Listing;
    if stop.InFile? && stop.at < |entries| {
      PackageFileMeans(entries[stop.at]);
    }
    SomethingToPublish(entries);
  }

  function AfterRun(s: Store, job: Id, entries: seq<Entry>, sha: Bytes -> string, stop: Stop, now: Time): Store {
    var t := WithArtifacts(s.tables, job, Rows(Completed(entries, stop), sha));
    Store(s.repo + Completed(entries, stop) + Unfinished(entries, stop),
          if Succeeds(s.tables, job, entries, stop) then WithMark(t, job, Published, "", "", now) else t)
  }

  // The rows after recording files: the old ones, and new ones for new names.
  lemma RecordedRows(t: Tables, job: Id, files: map<string, Artifact>)
    ensures var after := WithArtifacts(t, job, files);
            && after == t.(artifacts := after.artifacts)
            && (forall key :: key in after.artifacts <==>
                              key in t.artifacts || (key.jobId == job && key.filename in files))
            && (forall key :: key in t.artifacts ==> after.artifacts[key] == t.artifacts[key])
            && (forall key :: key in after.artifacts && key !in t.artifacts ==>
                              after.artifacts[key] == files[key.filename])
  {
  }

  // A run that is cut in the work on an entry: the files before it are in
  // place, of that one at most the first bytes are, and the rest is as before.
  lemma {:induction false} CutRun(s: Store, job: Id, entries: seq<Entry>, sha: Bytes -> string, stop: Stop, now: Time,
                                  k: nat)
    requires Listing(entries) && stop.InFile? && stop.at < |entries| && IsPackageFile(entries[stop.at])
    requires k < |entries| && IsPackageFile(entries[k])
    ensures var r, f := AfterRun(s, job, entries, sha, stop, now), entries[k].name;
            var key := ArtifactKey(job, f);
            && (k < stop.at ==>
                  && f in r.repo && r.repo[f] == entries[k].content && key in r.tables.artifacts
                  && (key !in s.tables.artifacts ==>
                        r.tables.artifacts[key] == Artifact(sha(entries[k].content), |entries[k].content|)))
            && (k >= stop.at ==> (key in r.tables.artifacts <==> key in s.tables.artifacts))
            && (k > stop.at || (k == stop.at && stop.written == None) ==>
                  (f in r.repo <==> f in s.repo) && (f in s.repo ==> r.repo[f] == s.repo[f]))
            && (k == stop.at && stop.written.Some? ==>
                  var n := stop.written.value;
                  && f in r.repo
                  && r.repo[f] == if n <= |entries[k].content| then entries[k].content[..n] else entries[k].content)
            && r.tables.jobs == s.tables.jobs
  {
    hide IsPackageFile, PackageFiles, WithArtifacts;
    var front := entries[..stop.at];
    PackageFilesListed(front);
    RecordedRows(s.tables, job, Rows(PackageFiles(front), sha));
    var f := entries[k].name;
    if k < stop.at {
      assert front[k] == entries[k];
    } else {
      assert !IsListed(front, f);
    }
  }

  function WithRowFor(t: Tables, job: Id, e: Entry, sha: Bytes -> string): Tables
    requires e.File?
  {
    if ArtifactKey(job, e.name) in t.artifacts then t
    else t.(artifacts := t.artifacts[ArtifactKey(job, e.name) := Row(e.content, sha)])
  }

  // The store after all files of the entries.
  function Through(s: Store, job: Id, entries: seq<Entry>, sha: Bytes -> string): Store {
    Store(s.repo + PackageFiles(entries), WithArtifacts(s.tables, job, Rows(PackageFiles(entries), sha)))
  }

  lemma StoppedIn(s: Store, job: Id, entries: seq<Entry>, sha: Bytes -> string, stop: Stop, now: Time)
    requires Hits(entries, stop)
    ensures var t := Through(s, job, entries[..stop.at], sha);
            AfterRun(s, job, entries, sha, stop, now) == t.(repo := t.repo + Part(entries[stop.at], stop.written))
    ensures !Succeeds(s.tables, job, entries, stop)
  {
  }

  lemma RanThrough(s: Store, job: Id, entries: seq<Entry>, sha: Bytes -> string, stop: Stop, now: Time)
    requires !Hits(entries, stop)
    ensures var t := Through(s, job, entries, sha);
            AfterRun(s, job, entries, sha, stop, now)
            == if Succeeds(s.tables, job, entries, stop)
               then t.(tables := WithMark(t.tables, job, Published, "", "", now)) else t
    ensures job in s.tables.jobs <==> job in Through(s, job, entries, sha).tables.jobs
  {
    hide PackageFiles, IsPackageFile, WithArtifacts;
    RecordedRows(s.tables, job, Rows(PackageFiles(entries), sha));
    assert s.repo + PackageFiles(entries) + map[] == s.repo + PackageFiles(entries);
  }

  lemma NothingYet(s: Store, job: Id, entries: seq<Entry>, sha: Bytes -> string)
    ensures PackageFiles(entries[..0]) == map[] && Through(s, job, entries[..0], sha) == s
  {
    assert entries[..0] == [];
    RecordedRows(s.tables, job, map[]);
    assert Rows(map[], sha) == map[];
    assert WithArtifacts(s.tables, job, map[]).artifacts == s.tables.artifacts;
    assert s.repo + map[] == s.repo;
  }

  lemma SameOrOneMore(a: map<ArtifactKey, Artifact>, b: map<ArtifactKey, Artifact>, key: ArtifactKey, row: Artifact)
    requires forall k :: k in b <==> k in a || k == key
    requires forall k :: k in a ==> b[k] == a[k]
    requires key !in a ==> b[key] == row
    ensures b == if key in a then a else a[key := row]
  {
  }

  lemma {:induction false} OneMoreRow(t: Tables, job: Id, files: map<string, Bytes>, e: Entry, sha: Bytes -> string)
    requires e.File? && e.name !in files
    ensures WithArtifacts(t, job, Rows(files[e.name := e.content], sha))
            == WithRowFor(WithArtifacts(t, job, Rows(files, sha)), job, e, sha)
  {
    hide WithArtifacts;
    RecordedRows(t, job, Rows(files, sha));
    RecordedRows(t, job, Rows(files[e.name := e.content], sha));
    var before := WithArtifacts(t, job, Rows(files, sha));
    var after := WithArtifacts(t, job, Rows(files[e.name := e.content], sha));
    SameOrOneMore(before.artifacts, after.artifacts, ArtifactKey(job, e.name), Row(e.content, sha));
  }

  lemma {:induction false} OneMoreEntry(s: Store, job: Id, entries: seq<Entry>, i: nat, sha: Bytes -> string)
    requires Listing(entries) && i < |entries|
    ensures var t := Through(s, job, entries[..i], sha);
            Through(s, job, entries[..i + 1], sha)
            == if IsPackageFile(entries[i])
               then Store(t.repo[entries[i].name := entries[i].content], WithRowFor(t.tables, job, entries[i], sha))
               else t
    ensures PackageFiles(entries[..i + 1]) != map[]
            <==> PackageFiles(entries[..i]) != map[] || IsPackageFile(entries[i])
  {
    hide IsPackageFile, WithArtifacts, WithRowFor, Rows;
    PackageFilesListed(entries[..i]);
    assert entries[..i + 1][..i] == entries[..i];
    if IsPackageFile(entries[i]) {
      var before := PackageFiles(entries[..i]);
      var e := entries[i];
      OneMoreRow(s.tables, job, before, e, sha);
      assert s.repo + before[e.name := e.content] == (s.repo + before)[e.name := e.content];
      assert e.name in before[e.name := e.content];
    }
  }

  class Publisher {
    const database: Database
    var repo: map<string, Bytes>

    constructor (database: Database)
      ensures this.database == database && repo == map[]
    {
      this.database := database;
      repo := map[];
    }

    function Contents(): Store
      reads this, database
    {
      Store(repo, database.tables)
    }

    // An insert fails when the unique index already holds the job and name.
    method InsertArtifact(key: ArtifactKey, row: Artifact) returns (ok: bool)
      modifies database
      ensures ok <==> key !in old(database.tables.artifacts)
      ensures database.tables
              == if ok then old(database.tables).(artifacts := old(database.tables).artifacts[key := row])
                 else old(database.tables)
    {
      ok := key !in database.tables.artifacts;
      if ok {
        database.tables := database.tables.(artifacts := database.tables.artifacts[key := row]);
      }
    }

    // One package file: the output is created and filled, and a row is
    // inserted unless there is one. A cut run leaves at most the first bytes.
    method PublishFile(job: Id, entry: Entry, sha: Bytes -> string, cut: Option<Option<nat>>) returns (ok: bool)
      requires entry.File?
      modifies this, database
      ensures ok <==> cut.None?
      ensures cut.None? ==>
                && repo == old(repo)[entry.name := entry.content]
                && database.tables == WithRowFor(old(database.tables), job, entry, sha)
                && var was, key := old(database.tables), ArtifactKey(job, entry.name);
                   database.tables == if key in was.artifacts then was
                                      else was.(artifacts := was.artifacts[key :=
                                        Artifact(sha(entry.content), |entry.content|)])
      ensures cut.Some? ==> repo == old(repo) + Part(entry, cut.value) && database.tables == old(database.tables)
    {
      if cut == Some(None) {
        return false;
      }
      repo := repo[entry.name := []];
      if cut.Some? {
        repo := repo[entry.name := First(entry.content, cut.value.value)];
        return false;
      }
      repo := repo[entry.name := entry.content];
      var key := ArtifactKey(job, entry.name);
      if key !in database.tables.artifacts {
        ok := InsertArtifact(key, Row(entry.content, sha));
        if !ok {
          return;
        }
      }
      ok := true;
    }

    // The staging directory is absent when it cannot be read.
    method PublishJob(job: Id, staging: Option<seq<Entry>>, sha: Bytes -> string, stop: Stop, now: Time)
      returns (r: Result<()>)
      requires staging.Some? ==> Listing(staging.value)
      modifies this, database
      ensures Contents() == if staging.Some? then AfterRun(old(Contents()), job, staging.value, sha, stop, now)
                            else old(Contents())
      ensures r.Success? <==> staging.Some? && Succeeds(old(database.tables), job, staging.value, stop)
    {
      hide PackageFiles, IsPackageFile, WithArtifacts, Rows, AfterRun, WithRowFor, Part;
      if staging.None? {
        return Failure("cannot read the staging directory");
      }
      var entries := staging.value;
      var any := false;
      ghost var was := Contents();
      NothingYet(was, job, entries, sha);
      for i := 0 to |entries|
        invariant any <==> PackageFiles(entries[..i]) != map[]
        invariant Hits(entries, stop) ==> i <= stop.at
        invariant Contents() == Through(was, job, entries[..i], sha)
      {
        OneMoreEntry(was, job, entries, i, sha);
        var entry := entries[i];
        if !IsPackageFile(entry) {
          continue;
        }
        var ok := PublishFile(job, entry, sha, if stop.InFile? && stop.at == i then Some(stop.written) else None);
        if !ok {
          StoppedIn(was, job, entries, sha, stop, now);
          return Failure("the copy failed");
        }
        any := true;
      }
      assert entries[..|entries|] == entries;
      RanThrough(was, job, entries, sha, stop, now);
      if !any {
        return Failure("job produced no package artifacts");
      }
      if stop.InRepoAdd? {
        return Failure("repo-add failed");
      }
      if stop.InMark? {
        return Failure("the mark failed");
      }
      var found := database.JobArtifacts(job, now);
      r := if found then Success(()) else Failure("job not found");
    }
  }
}
