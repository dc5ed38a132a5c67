// What CreatePackage does to the tables: nothing but a package row for a known
// revision, exactly one version, its dependencies and one job for a new one;
// and when it can fail.
module Creation {
  import opened Database
  import opened Evolution
  import opened Invariants
  import opened Options
  import opened Packages
  import opened PackageSource
  import opened Protocol
  import opened Tables

  // ---- The unique index of the dependency table ----

  ghost predicate NoRowsOf(rows: map<DependencyKey, DependencyKind>, v: Id) {
    forall key :: key in rows ==> key.versionId != v
  }

  // The rows a list of dependencies stands for.
  ghost predicate RowsAdded(rows: map<DependencyKey, DependencyKind>, v: Id, dependencies: seq<Dependency>,
                            r: map<DependencyKey, DependencyKind>)
  {
    && (forall key :: key in rows ==> key in r && r[key] == rows[key])
    && (forall i :: 0 <= i < |dependencies| ==>
          DependencyKey(v, dependencies[i].name) in r
          && r[DependencyKey(v, dependencies[i].name)] == if dependencies[i].aur then FromAur else FromRepo)
    && (forall key :: key in r && key !in rows ==>
          key.versionId == v && exists i :: 0 <= i < |dependencies| && dependencies[i].name == key.name)
  }

  lemma OneRowMore(rows: map<DependencyKey, DependencyKind>, v: Id, front: seq<Dependency>, d: Dependency,
                   before: map<DependencyKey, DependencyKind>)
    requires NoRowsOf(rows, v) && RowsAdded(rows, v, front, before)
    ensures DependencyKey(v, d.name) in before <==> exists i :: 0 <= i < |front| && front[i].name == d.name
    ensures DependencyKey(v, d.name) !in before ==>
              RowsAdded(rows, v, front + [d], before[DependencyKey(v, d.name) := if d.aur then FromAur else FromRepo])
  {
    var key := DependencyKey(v, d.name);
    if key !in before {
      var r := before[key := if d.aur then FromAur else FromRepo];
      forall k | k in r && k !in rows ensures exists i :: 0 <= i < |front + [d]| && (front + [d])[i].name == k.name {
        if k == key {
          assert (front + [d])[|front|].name == k.name;
        } else {
          var i :| 0 <= i < |front| && front[i].name == k.name;
          assert (front + [d])[i].name == k.name;
        }
      }
    }
  }

  // The inserts of a fresh version succeed exactly when no name is repeated.
  lemma {:induction false} InsertsSucceed(rows: map<DependencyKey, DependencyKind>, v: Id,
                                          dependencies: seq<Dependency>)
    requires NoRowsOf(rows, v)
    ensures WithDependencies(rows, v, dependencies).Some? <==> DistinctNames(dependencies)
    ensures WithDependencies(rows, v, dependencies).Some? ==>
              RowsAdded(rows, v, dependencies, WithDependencies(rows, v, dependencies).value)
  {
    if dependencies != [] {
      var n := |dependencies| - 1;
      var front := dependencies[..n];
      InsertsSucceed(rows, v, front);
      assert dependencies == front + [dependencies[n]];
      hide RowsAdded, NoRowsOf;
      var before := WithDependencies(rows, v, front);
      if before.Some? {
        OneRowMore(rows, v, front, dependencies[n], before.value);
      }
    }
  }

  // ---- Known and new revisions ----

  // A known revision: same id, no version, dependency or job more.
  lemma KnownRevision(t: Tables, info: PackageInfo, path: string, revision: string, digest: string,
                      eligibleAt: Time, now: Time)
    requires Indexed(t) && HasPackage(t, info.name) && HasVersion(t, PackageId(t, info.name), revision)
    ensures var p := PackageId(t, info.name);
            var s := Created(t, info, path, revision, digest, eligibleAt, now);
            && s == Some(t.(packages := t.packages[p := Package(info.name, info.kind, info.ref, path)]))
            && IsVersion(t, CreatedId(t, info, revision), p, revision)
  {
    SameVersions(t, WithPackage(t, PackageId(t, info.name), info, path), PackageId(t, info.name), revision);
  }

  // A new revision: the transaction fails exactly when a dependency name is
  // repeated, and otherwise adds one version, its dependencies and one
  // pending job, and skips the package's pending jobs.
  lemma {:induction false} NewRevision(t: Tables, info: PackageInfo, path: string, revision: string, digest: string,
                                       eligibleAt: Time, now: Time)
    requires Consistent(t) && !HasVersion(t, PackageId(t, info.name), revision)
    ensures var p := PackageId(t, info.name);
            var s := Created(t, info, path, revision, digest, eligibleAt, now);
            && CreatedId(t, info, revision) == t.nextVersion
            && (s.Some? <==> DistinctNames(info.dependencies))
            && (s.Some? ==>
                  && VersionAdded(WithPackage(t, p, info, path), p, revision, now, s.value)
                  && RowsAdded(t.dependencies, t.nextVersion, info.dependencies, s.value.dependencies)
                  && s.value.versions[t.nextVersion].kind == info.kind
                  && s.value.jobs[t.nextJob].eligibleAt == eligibleAt)
  {
    var p := PackageId(t, info.name);
    var t1 := WithPackage(t, p, info, path);
    SameVersions(t, t1, p, revision);
    InsertsSucceed(t.dependencies, t.nextVersion, info.dependencies);
    if DistinctNames(info.dependencies) {
      NewVersionAdds(t1, p, info, revision, digest, eligibleAt, now);
    }
  }

  // The rows of a new revision, column by column.
  lemma NewColumns(t: Tables, info: PackageInfo, path: string, revision: string, digest: string,
                   eligibleAt: Time, now: Time)
    requires Consistent(t) && !HasVersion(t, PackageId(t, info.name), revision)
    requires Created(t, info, path, revision, digest, eligibleAt, now).Some?
    ensures var s := Created(t, info, path, revision, digest, eligibleAt, now).value;
            && t.nextVersion in s.versions && t.nextJob in s.jobs
            && s.packages == t.packages[PackageId(t, info.name) := Package(info.name, info.kind, info.ref, path)]
            && (var v := s.versions[t.nextVersion];
                && v.packageId == PackageId(t, info.name) && v.revision == revision && v.digest == digest
                && v.pkgver == info.version && v.pkgrel == info.release && v.kind == info.kind && v.firstSeenAt == now
                && v.splits.Items? && |v.splits.items| == |info.splits|
                && forall i :: 0 <= i < |info.splits| ==> v.splits.items[i] == Some(info.splits[i]))
            && s.jobs[t.nextJob] == Job(t.nextVersion, Pending, eligibleAt, None, None, 0, "", "", now)
  {
    SameVersions(t, WithPackage(t, PackageId(t, info.name), info, path), PackageId(t, info.name), revision);
  }

  // The insert loop of CreatePackage never repeats a (version, name) pair for
  // anything the parsers and the classification can hand to it.
  lemma InsertsNeverCollide(t: Tables, info: PackageInfo, path: string, revision: string, digest: string,
                            eligibleAt: Time, now: Time)
    requires Consistent(t) && UniqueDependencies(info)
    ensures Created(t, info, path, revision, digest, eligibleAt, now).Some?
  {
    if HasVersion(t, PackageId(t, info.name), revision) {
      SameVersions(t, WithPackage(t, PackageId(t, info.name), info, path), PackageId(t, info.name), revision);
    } else {
      NewRevision(t, info, path, revision, digest, eligibleAt, now);
    }
  }

  // ---- Accepts as steps of the protocol ----

  lemma StoredRevision(s: System, info: PackageInfo, revision: string, digest: string, due: Time, now: Time)
    requires Consistent(s.db) && DistinctNames(info.dependencies)
    requires !HasVersion(s.db, PackageId(s.db, info.name), revision)
    ensures var p, t := PackageId(s.db, info.name), Accepted(s, info, revision, digest, due, now);
            && s.db.nextVersion in t.versions && s.db.nextJob in t.jobs && p in t.packages
            && t.versions[s.db.nextVersion].revision == revision && t.versions[s.db.nextVersion].digest == digest
            && t.packages[p] == Package(info.name, info.kind, info.ref, SnapshotPath(info.kind, info.name, revision))
            && t.jobs[s.db.nextJob].versionId == s.db.nextVersion && t.jobs[s.db.nextJob].status == Pending
            && t.jobs[s.db.nextJob].eligibleAt == due
  {
    hide Created, VersionAdded, RowsAdded, Consistent, SnapshotPath;
    var path := SnapshotPath(info.kind, info.name, revision);
    NewRevision(s.db, info, path, revision, digest, due, now);
    NewColumns(s.db, info, path, revision, digest, due, now);
  }

  // What the outside world answers: the clone, the AUR's lookups, the digest
  // of the clone, whether the audit gets through, whether the snapshot gets in
  // place and readable, the commit time, and whether the transaction commits.
  datatype World = World(directory: Option<Directory>, aur: string -> Option<bool>, digest: Option<string>,
                         audited: bool, stored: bool, commitTime: Option<Time>, commits: bool)

  // The metadata read from the clone, none when it cannot be previewed.
  function Read(world: World, ref: string): Option<PackageInfo> {
    if world.directory.Some? && ReadInfo(world.directory.value, Aur, ref).Some?
    then Some(WithDefaults(world.directory.value, ReadInfo(world.directory.value, Aur, ref).value)) else None
  }

  method AcceptAur(db: Database, ref: string, commit: string, world: World, delay: Time, now: Time)
    returns (r: Result<Id>, ghost info: PackageInfo)
    requires Consistent(db.tables)
    modifies db
    ensures r.Success? <==>
              && Read(world, ref).Some?
              && (forall d :: d in Read(world, ref).value.dependencies ==> world.aur(d.name).Some?)
              && world.digest.Some? && world.audited && world.stored && world.commitTime.Some? && world.commits
    ensures r.Failure? ==> db.tables == old(db.tables)
    ensures r.Success? ==> Classified(Read(world, ref).value, world.aur, info)
    ensures r.Success? ==> UniqueDependencies(info) && info.kind == Aur
    ensures r.Success? ==>
              Some(db.tables) == Created(old(db.tables), info, SnapshotPath(Aur, info.name, commit), commit,
                                         world.digest.value,
                                         EligibleAtFromCommit(world.commitTime.value, delay, now), now)
              && r.value == CreatedId(old(db.tables), info, commit)
    ensures r.Success? ==>
              forall s: System :: s.db == old(db.tables) ==>
                var e := Event.AcceptAur(info, commit, world.digest.value, world.commitTime.value, delay);
                db.tables == Step(s, Stamp(now, e)).db
  {
    info := EmptyInfo(Aur, ref);
    if world.directory == None {
      return Failure("clone"), info;
    }
    var parsed := ParsePackage(world.directory.value, Aur, ref);
    if parsed.Failure? {
      return Failure(parsed.error), info;
    }
    var classified := ClassifyDependencies(parsed.value, world.aur);
    if classified.Failure? {
      return Failure(classified.error), info;
    }
    info := classified.value;
    if world.digest == None || !world.audited {
      return Failure("preview"), info;
    }
    if !world.stored {
      return Failure("store the snapshot"), info;
    }
    if world.commitTime == None {
      return Failure("read commit time"), info;
    }
    var eligibleAt := EligibleAtFromCommit(world.commitTime.value, delay, now);
    var path := SnapshotPath(Aur, classified.value.name, commit);
    InsertsNeverCollide(db.tables, classified.value, path, commit, world.digest.value, eligibleAt, now);
    r := db.CreatePackage(classified.value, path, commit, world.digest.value, eligibleAt, now, world.commits);
  }

  // What an accept of an unknown AUR commit stores: the commit and digest,
  // the AUR path, and a job that waits for the delay.
  lemma {:induction false} AurStep(s: System, info: PackageInfo, commit: string, contents: string, commitTime: Time,
                                   delay: Time, now: Time)
    requires Inv(s) && info.kind == Aur && DistinctNames(info.dependencies)
    requires !HasVersion(s.db, PackageId(s.db, info.name), commit)
    ensures var e := Event.AcceptAur(info, commit, contents, commitTime, delay);
            var p, r := PackageId(s.db, info.name), Step(s, Stamp(now, e));
            && s.db.nextVersion in r.db.versions && s.db.nextJob in r.db.jobs && p in r.db.packages
            && r.db.versions[s.db.nextVersion].revision == commit && r.db.versions[s.db.nextVersion].digest == contents
            && r.db.packages[p] == Package(info.name, Aur, info.ref, "sources/aur/" + info.name + "/" + commit)
            && r.db.jobs[s.db.nextJob].versionId == s.db.nextVersion && r.db.jobs[s.db.nextJob].status == Pending
            && r.db.jobs[s.db.nextJob].eligibleAt == (if commitTime + delay > now then commitTime + delay else now)
            && r.worker == s.worker && r.batch == s.batch && r.clock == now
  {
    hide Accepted, HasVersion, Consistent;
    StoredRevision(s, info, commit, contents, EligibleAtFromCommit(commitTime, delay, now), now);
  }

  // AcceptLocal on a preview: the snapshot is in place or gets there, and the
  // digest is the revision.
  method AcceptLocal(db: Database, info: PackageInfo, digest: string, stored: bool, commits: bool, now: Time)
    returns (r: Result<Id>)
    requires Consistent(db.tables) && info.kind == Local && UniqueDependencies(info)
    modifies db
    ensures r.Success? <==> stored && commits
    ensures r.Failure? ==> db.tables == old(db.tables)
    ensures r.Success? ==>
              && r.value == CreatedId(old(db.tables), info, digest)
              && forall s: System :: s.db == old(db.tables) ==>
                   db.tables == Step(s, Stamp(now, Event.AcceptLocal(info, digest))).db
  {
    if !stored {
      return Failure("store the snapshot");
    }
    var path := SnapshotPath(Local, info.name, digest);
    InsertsNeverCollide(db.tables, info, path, digest, digest, now, now);
    r := db.CreatePackage(info, path, digest, digest, now, now, commits);
  }

  // What an accept of unknown local contents stores: the digest as revision,
  // the local path, and a job that is due at once.
  lemma {:induction false} LocalStep(s: System, info: PackageInfo, contents: string, now: Time)
    requires Inv(s) && info.kind == Local && DistinctNames(info.dependencies)
    requires !HasVersion(s.db, PackageId(s.db, info.name), contents)
    ensures var p, r := PackageId(s.db, info.name), Step(s, Stamp(now, Event.AcceptLocal(info, contents)));
            && s.db.nextVersion in r.db.versions && s.db.nextJob in r.db.jobs && p in r.db.packages
            && r.db.versions[s.db.nextVersion].revision == contents
            && r.db.versions[s.db.nextVersion].digest == contents
            && r.db.packages[p] == Package(info.name, Local, info.ref, "sources/local/" + info.name + "/" + contents)
            && r.db.jobs[s.db.nextJob].versionId == s.db.nextVersion && r.db.jobs[s.db.nextJob].status == Pending
            && r.db.jobs[s.db.nextJob].eligibleAt == now
            && r.worker == s.worker && r.batch == s.batch && r.clock == now
  {
    hide Accepted, HasVersion, Consistent;
    StoredRevision(s, info, contents, contents, now, now);
  }

  // ---- One job per version ----

  lemma {:induction false} OneJobPerVersion(s: System, run: seq<Stamp>, m: nat, v: Id)
    requires Initial(s) && Legal(s, run) && m <= |run| && v in At(s, run, m).db.versions
    ensures var t := At(s, run, m).db;
            && References(t) && UniqueNames(t) && UniqueRevisions(t)
            && (exists j :: IsJobOf(t, j, v))
            && (forall j, k :: IsJobOf(t, j, v) && IsJobOf(t, k, v) ==> j == k)
  {
    InitialIsInv(s);
    Between(s, run, 0, m);
    var t := At(s, run, m).db;
    assert HasJob(t, v);
    forall j, k | IsJobOf(t, j, v) && IsJobOf(t, k, v) ensures j == k {
      assert !(j < k) && !(k < j);
    }
  }

  // ---- PreviewAUR and AcceptAUR, end to end ----
}
