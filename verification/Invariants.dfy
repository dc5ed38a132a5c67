// What every step keeps: the tables stay consistent, each version has exactly
// one job, each job row reads like a point on the life cycle, a job that has
// been overtaken is not pending, and the two roles hold what they believe.
module Invariants {
  import opened Options
  import opened Packages
  import opened Protocol
  import opened Tables

  // ---- The tables ----

  ghost predicate References(t: Tables) {
    && (forall v :: v in t.versions ==> t.versions[v].packageId in t.packages)
    && (forall j :: j in t.jobs ==> t.jobs[j].versionId in t.versions)
    && (forall key :: key in t.dependencies ==> key.versionId in t.versions)
    && (forall key :: key in t.artifacts ==> key.jobId in t.jobs)
  }

  ghost predicate IsJobOf(t: Tables, j: Id, v: Id) {
    j in t.jobs && t.jobs[j].versionId == v
  }

  ghost predicate HasJob(t: Tables, v: Id) {
    exists j :: IsJobOf(t, j, v)
  }

  // Jobs and versions correspond one to one, in the same order.
  ghost predicate Paired(t: Tables) {
    && (forall v {:trigger HasJob(t, v)} :: v in t.versions ==> HasJob(t, v))
    && (forall j, k :: j in t.jobs && k in t.jobs && j < k ==> t.jobs[j].versionId < t.jobs[k].versionId)
  }

  predicate Untouched(status: Status) {
    status == Pending || status == Skipped
  }

  // The columns of a job row agree with its status.
  predicate RowOk(job: Job) {
    && job.attempts == (if Untouched(job.status) then 0 else 1)
    && (job.claimedAt.Some? <==> job.attempts == 1)
    && (job.finishedAt.Some? <==> job.status != Pending && job.status != Running)
    && (job.claimedAt.Some? ==> job.claimedAt.value >= job.eligibleAt)
  }

  ghost predicate RowsOk(t: Tables) {
    forall j :: j in t.jobs ==> RowOk(t.jobs[j])
  }

  // A published job has an artifact to show.
  ghost predicate PublishedHasArtifact(t: Tables) {
    forall j :: j in t.jobs && t.jobs[j].status == Published ==> exists f :: ArtifactKey(j, f) in t.artifacts
  }

  ghost predicate Consistent(t: Tables) {
    Indexed(t) && References(t) && Paired(t) && RowsOk(t)
  }

  // Two jobs of versions of one package, the first created earlier.
  ghost predicate Older(t: Tables, j: Id, k: Id) {
    && j in t.jobs && k in t.jobs && j < k
    && t.jobs[j].versionId in t.versions && t.jobs[k].versionId in t.versions
    && t.versions[t.jobs[j].versionId].packageId == t.versions[t.jobs[k].versionId].packageId
  }

  // Only the newest job of a package can be pending.
  ghost predicate OnlyNewestPending(t: Tables) {
    forall j, k :: Older(t, j, k) ==> t.jobs[j].status != Pending
  }

  // ---- The roles ----

  ghost predicate WorkerOk(s: System) {
    s.worker.Some? ==> s.worker.value in s.db.jobs && s.db.jobs[s.worker.value].status == Running
  }

  ghost predicate BatchOk(s: System) {
    && AscendingIds(s.batch)
    && (forall b :: b in s.batch ==> b < s.db.nextJob)
    && (forall b :: b in s.batch && b in s.db.jobs ==> s.db.jobs[b].status == Built)
  }

  ghost predicate Inv(s: System) {
    && Consistent(s.db)
    && OnlyNewestPending(s.db)
    && PublishedHasArtifact(s.db)
    && WorkerOk(s)
    && BatchOk(s)
  }

  // ---- Steps on the tables ----

  lemma {:induction false} PackageKeeps(t: Tables, info: PackageInfo, path: string)
    requires Consistent(t)
    ensures Consistent(WithPackage(t, PackageId(t, info.name), info, path))
  {
    var p := PackageId(t, info.name);
    var s := WithPackage(t, p, info, path);
    forall v | v in s.versions ensures HasJob(s, v) {
      assert HasJob(t, v);
      var k :| IsJobOf(t, k, v);
      assert IsJobOf(s, k, v);
    }
    forall q, r | q in s.packages && r in s.packages && s.packages[q].name == s.packages[r].name
      ensures q == r
    {
      if q != p && r == p {
        assert IsPackage(t, q, info.name);
      }
      if q == p && r != p {
        assert IsPackage(t, r, info.name);
      }
    }
  }

  // The tables after a new version: one version and one job more, older
  // pending jobs of the package skipped, dependency rows only for the version.
  ghost predicate VersionAdded(t: Tables, p: Id, revision: string, now: Time, s: Tables) {
    && s.packages == t.packages && s.nextPackage == t.nextPackage && s.artifacts == t.artifacts
    && s.nextVersion == t.nextVersion + 1 && s.nextJob == t.nextJob + 1
    && s.versions.Keys == t.versions.Keys + {t.nextVersion}
    && (forall v :: v in t.versions && v != t.nextVersion ==> s.versions[v] == t.versions[v])
    && IsVersion(s, t.nextVersion, p, revision)
    && s.jobs.Keys == t.jobs.Keys + {t.nextJob}
    && (forall j :: j in t.jobs && j != t.nextJob ==>
          s.jobs[j] == if t.jobs[j].status == Pending && OtherVersion(t, t.jobs[j].versionId, p, t.nextVersion)
                       then SkippedJob(t.jobs[j], now) else t.jobs[j])
    && s.jobs[t.nextJob].versionId == t.nextVersion && s.jobs[t.nextJob].status == Pending && RowOk(s.jobs[t.nextJob])
    && (forall key :: key in s.dependencies ==> key in t.dependencies || key.versionId == t.nextVersion)
  }

  lemma {:induction false} NewRows(rows: map<DependencyKey, DependencyKind>, v: Id, dependencies: seq<Dependency>)
    ensures var r := WithDependencies(rows, v, dependencies);
            r.Some? ==> forall key :: key in r.value ==> key in rows || key.versionId == v
  {
    if dependencies != [] {
      NewRows(rows, v, dependencies[..|dependencies| - 1]);
    }
  }

  lemma {:induction false} NewVersionAdds(t: Tables, p: Id, info: PackageInfo, revision: string, digest: string,
                                          eligibleAt: Time, now: Time)
    requires WithNewVersion(t, p, info, revision, digest, eligibleAt, now).Some?
    ensures VersionAdded(t, p, revision, now, WithNewVersion(t, p, info, revision, digest, eligibleAt, now).value)
  {
    NewRows(t.dependencies, t.nextVersion, info.dependencies);
  }

  lemma {:induction false} AddedKeepsIndexes(t: Tables, p: Id, revision: string, now: Time, s: Tables)
    requires Consistent(t) && p in t.packages && !HasVersion(t, p, revision) && VersionAdded(t, p, revision, now, s)
    ensures Indexed(s)
  {
    var v := t.nextVersion;
    forall u, w | u in s.versions && w in s.versions && s.versions[u].packageId == s.versions[w].packageId
                  && s.versions[u].revision == s.versions[w].revision
      ensures u == w
    {
      assert !IsVersion(t, u, p, revision) && !IsVersion(t, w, p, revision);
    }
  }

  lemma {:induction false} AddedKeepsRows(t: Tables, p: Id, revision: string, now: Time, s: Tables)
    requires Consistent(t) && p in t.packages && VersionAdded(t, p, revision, now, s)
    ensures References(s) && RowsOk(s)
  {
    forall j | j in s.jobs ensures RowOk(s.jobs[j]) && s.jobs[j].versionId in s.versions {
      if j != t.nextJob { assert RowOk(t.jobs[j]); }
    }
  }

  lemma AddedHasJobs(t: Tables, p: Id, revision: string, now: Time, s: Tables)
    requires Paired(t) && Counted(t) && VersionAdded(t, p, revision, now, s)
    ensures forall u {:trigger HasJob(s, u)} :: u in s.versions ==> HasJob(s, u)
  {
    var v := t.nextVersion;
    forall u | u in s.versions ensures HasJob(s, u) {
      if u == v {
        assert IsJobOf(s, t.nextJob, v);
      } else {
        assert HasJob(t, u);
        var j :| IsJobOf(t, j, u);
        assert IsJobOf(s, j, u);
      }
    }
  }

  lemma AddedIsLast(t: Tables, p: Id, revision: string, now: Time, s: Tables)
    requires Counted(t) && References(t) && Paired(t) && VersionAdded(t, p, revision, now, s)
    ensures forall j, k :: j in s.jobs && k in s.jobs && j < k ==> s.jobs[j].versionId < s.jobs[k].versionId
  {
    hide HasJob, IsVersion, RowOk;
    assert forall j :: j in s.jobs && j != t.nextJob ==> j in t.jobs && s.jobs[j].versionId == t.jobs[j].versionId;
  }

  lemma AddedKeepsPairs(t: Tables, p: Id, revision: string, now: Time, s: Tables)
    requires Consistent(t) && VersionAdded(t, p, revision, now, s)
    ensures Paired(s)
  {
    hide VersionAdded, HasJob;
    AddedHasJobs(t, p, revision, now, s);
    AddedIsLast(t, p, revision, now, s);
  }

  lemma {:induction false} VersionKeeps(t: Tables, p: Id, revision: string, now: Time, s: Tables)
    requires Consistent(t) && p in t.packages && !HasVersion(t, p, revision) && VersionAdded(t, p, revision, now, s)
    ensures Consistent(s)
  {
    AddedKeepsIndexes(t, p, revision, now, s);
    AddedKeepsRows(t, p, revision, now, s);
    AddedKeepsPairs(t, p, revision, now, s);
  }

  // A row that keeps its version and its due time.
  predicate SameJob(a: Job, b: Job) {
    a.versionId == b.versionId && a.eligibleAt == b.eligibleAt
  }

  lemma RowKeeps(t: Tables, j: Id, job: Job)
    requires Consistent(t) && j in t.jobs && SameJob(job, t.jobs[j]) && RowOk(job)
    ensures Consistent(WithRow(t, j, job))
  {
    var s := WithRow(t, j, job);
    forall v | v in s.versions ensures HasJob(s, v) {
      assert HasJob(t, v);
      var k :| IsJobOf(t, k, v);
      assert IsJobOf(s, k, v);
    }
  }

  lemma {:induction false} ArtifactsKeep(t: Tables, j: Id, files: map<string, Artifact>)
    requires Consistent(t) && j in t.jobs
    ensures Consistent(WithArtifacts(t, j, files))
    ensures forall key :: key in t.artifacts ==> key in WithArtifacts(t, j, files).artifacts
    ensures forall f :: f in files ==> ArtifactKey(j, f) in WithArtifacts(t, j, files).artifacts
  {
    var s := WithArtifacts(t, j, files);
    forall v | v in s.versions ensures HasJob(s, v) {
      assert HasJob(t, v);
      var k :| IsJobOf(t, k, v);
      assert IsJobOf(s, k, v);
    }
  }

  lemma RemoveKeeps(t: Tables, p: Id)
    requires Consistent(t)
    ensures Consistent(Without(t, p))
  {
    var s := Without(t, p);
    forall v | v in s.versions ensures HasJob(s, v) {
      assert HasJob(t, v);
      var k :| IsJobOf(t, k, v);
      assert IsJobOf(s, k, v);
    }
  }

  // ---- Steps of the system ----

  lemma {:induction false} AddedKeepsNewest(t: Tables, p: Id, revision: string, now: Time, s: Tables)
    requires Consistent(t) && OnlyNewestPending(t) && VersionAdded(t, p, revision, now, s)
    ensures OnlyNewestPending(s)
  {
    forall j, k | Older(s, j, k) ensures s.jobs[j].status != Pending {
      if k != t.nextJob {
        assert Older(t, j, k);
      }
    }
  }

  lemma AddedKeepsArtifacts(t: Tables, p: Id, revision: string, now: Time, s: Tables)
    requires Consistent(t) && PublishedHasArtifact(t) && VersionAdded(t, p, revision, now, s)
    ensures PublishedHasArtifact(s)
  {
    forall j | j in s.jobs && s.jobs[j].status == Published ensures exists f :: ArtifactKey(j, f) in s.artifacts {
      assert j in t.jobs && t.jobs[j].status == Published;
    }
  }

  // The tables an accept leaves: unchanged, the package row only, or a version more.
  lemma {:induction false} AcceptCases(s: System, info: PackageInfo, revision: string, digest: string,
                                       eligibleAt: Time, now: Time)
    requires Consistent(s.db)
    ensures var t, p := s.db, PackageId(s.db, info.name);
            var t1 := WithPackage(t, p, info, SnapshotPath(info.kind, info.name, revision));
            var after := Accepted(s, info, revision, digest, eligibleAt, now);
            && Consistent(t1) && p in t1.packages
            && (HasVersion(t1, p, revision) ==> after == t1)
            && (!HasVersion(t1, p, revision) ==> after == t || VersionAdded(t1, p, revision, now, after))
  {
    var t, p := s.db, PackageId(s.db, info.name);
    PackageKeeps(t, info, SnapshotPath(info.kind, info.name, revision));
    var t1 := WithPackage(t, p, info, SnapshotPath(info.kind, info.name, revision));
    if !HasVersion(t1, p, revision) && WithNewVersion(t1, p, info, revision, digest, eligibleAt, now).Some? {
      NewVersionAdds(t1, p, info, revision, digest, eligibleAt, now);
    }
  }

  lemma {:induction false} PackageKeepsInv(s: System, info: PackageInfo, path: string)
    requires Inv(s)
    ensures Inv(s.(db := WithPackage(s.db, PackageId(s.db, info.name), info, path)))
  {
    PackageKeeps(s.db, info, path);
    var r := WithPackage(s.db, PackageId(s.db, info.name), info, path);
    forall j, k | Older(r, j, k) ensures r.jobs[j].status != Pending {
      assert Older(s.db, j, k);
    }
  }

  lemma {:induction false} VersionKeepsInv(s: System, p: Id, revision: string, now: Time, after: Tables)
    requires Inv(s) && p in s.db.packages && !HasVersion(s.db, p, revision)
    requires VersionAdded(s.db, p, revision, now, after)
    ensures Inv(s.(db := after))
  {
    VersionKeeps(s.db, p, revision, now, after);
    AddedKeepsNewest(s.db, p, revision, now, after);
    AddedKeepsArtifacts(s.db, p, revision, now, after);
    forall j | j in s.db.jobs && s.db.jobs[j].status != Pending ensures after.jobs[j] == s.db.jobs[j] {
    }
  }

  lemma {:induction false} AcceptKeeps(s: System, info: PackageInfo, revision: string, digest: string,
                                       eligibleAt: Time, now: Time)
    requires Inv(s)
    ensures Inv(s.(db := Accepted(s, info, revision, digest, eligibleAt, now)))
  {
    var t, p, path := s.db, PackageId(s.db, info.name), SnapshotPath(info.kind, info.name, revision);
    var t1 := WithPackage(t, p, info, path);
    var after := Accepted(s, info, revision, digest, eligibleAt, now);
    AcceptCases(s, info, revision, digest, eligibleAt, now);
    PackageKeepsInv(s, info, path);
    if after != t && !HasVersion(t1, p, revision) {
      VersionKeepsInv(s.(db := t1), p, revision, now, after);
    }
  }

  // One row moves on to a status that is not pending.
  lemma {:induction false} MoveKeeps(s: System, j: Id, job: Job, worker: Option<Id>, batch: seq<Id>)
    requires Inv(s) && j in s.db.jobs && SameJob(job, s.db.jobs[j]) && RowOk(job) && job.status != Pending
    requires job.status == Published ==> exists f :: ArtifactKey(j, f) in s.db.artifacts
    requires worker.Some? ==> (if worker == Some(j) then job.status == Running else worker == s.worker)
    requires AscendingIds(batch) && (forall b :: b in batch ==> b in s.batch)
    requires j in batch ==> job.status == Built
    ensures Inv(System(WithRow(s.db, j, job), s.clock, worker, batch))
  {
    var r := System(WithRow(s.db, j, job), s.clock, worker, batch);
    RowKeeps(s.db, j, job);
    forall i, k | Older(r.db, i, k) ensures r.db.jobs[i].status != Pending {
      assert Older(s.db, i, k);
    }
    forall i | i in r.db.jobs && r.db.jobs[i].status == Published
      ensures exists f :: ArtifactKey(i, f) in r.db.artifacts
    {
      if i != j { assert s.db.jobs[i].status == Published; }
    }
  }

  lemma {:induction false} ClaimKeeps(s: System, now: Time)
    requires Inv(s) && s.worker == None
    ensures Inv(Claimed(s, now))
  {
    match FirstJob(s.db, now)
    case None =>
    case Some(j) =>
      var job := s.db.jobs[j];
      if Superseded(s.db, j) {
        MoveKeeps(s, j, SkippedJob(job, now), None, s.batch);
      } else if Resolves(s.db, j) {
        MoveKeeps(s, j, ClaimedJob(job, now), Some(j), s.batch);
      }
  }

  lemma {:induction false} BuildKeeps(s: System, status: Status, log: string, failure: string, now: Time)
    requires Inv(s) && s.worker.Some? && (status == Built || status == Failed)
    ensures Inv(s.(db := WithMark(s.db, s.worker.value, status, log, failure, now), worker := None))
  {
    var j := s.worker.value;
    MoveKeeps(s, j, MarkedJob(s.db.jobs[j], status, log, failure, now), None, s.batch);
  }

  lemma {:induction false} StoredKeeps(s: System, files: map<string, Artifact>)
    requires Inv(s) && (files.Keys == {} || AtJob(s))
    ensures Inv(s.(db := Stored(s, files)))
    ensures s.batch != [] ==> forall f :: f in files ==> ArtifactKey(s.batch[0], f) in Stored(s, files).artifacts
  {
    if s.batch != [] {
      if files.Keys == {} {
        assert Stored(s, files).artifacts == s.db.artifacts;
      } else {
        ArtifactsKeep(s.db, s.batch[0], files);
      }
      var r := Stored(s, files);
      forall i, k | Older(r, i, k) ensures r.jobs[i].status != Pending {
        assert Older(s.db, i, k);
      }
      forall i | i in r.jobs && r.jobs[i].status == Published ensures exists f :: ArtifactKey(i, f) in r.artifacts {
        var f :| ArtifactKey(i, f) in s.db.artifacts;
      }
    }
  }

  lemma TailIsAscending(ids: seq<Id>)
    requires ids != [] && AscendingIds(ids)
    ensures AscendingIds(ids[1..]) && ids[0] !in ids[1..]
    ensures forall i :: i in ids[1..] ==> i in ids && ids[0] < i
  {
  }

  lemma {:induction false} PublishKeeps(s: System, files: map<string, Artifact>, status: Status, failure: string,
                                        now: Time)
    requires Inv(s) && AtJob(s)
    requires status == Failed || (status == Published && files.Keys != {})
    ensures Inv(s.(db := WithMark(Stored(s, files), s.batch[0], status, "", failure, now), batch := s.batch[1..]))
  {
    var j := s.batch[0];
    StoredKeeps(s, files);
    TailIsAscending(s.batch);
    var r := s.(db := Stored(s, files));
    if status == Published {
      var f :| f in files;
      assert ArtifactKey(j, f) in r.db.artifacts;
    }
    assert j in s.batch && s.worker != Some(j);
    MoveKeeps(r, j, MarkedJob(r.db.jobs[j], status, "", failure, now), s.worker, s.batch[1..]);
  }

  lemma DropKeeps(s: System, worker: Option<Id>, batch: seq<Id>)
    requires Inv(s) && (worker == None || worker == s.worker)
    requires AscendingIds(batch)
    requires forall b :: b in batch ==> b in s.batch || (b in s.db.jobs && s.db.jobs[b].status == Built)
    ensures Inv(s.(worker := worker, batch := batch))
  {
  }

  lemma {:induction false} RemovedKeeps(s: System, name: string)
    requires Inv(s)
    ensures Inv(s.(db := Removed(s.db, name)))
  {
    var r := Removed(s.db, name);
    if r != s.db {
      var p := PackageId(s.db, name);
      RemoveKeeps(s.db, p);
      if s.worker.Some? {
        var w := s.worker.value;
        assert s.db.jobs[w].status == Running && s.db.jobs[w].versionId in s.db.versions;
        assert s.db.versions[s.db.jobs[w].versionId].packageId != p;
      }
      forall j, k | Older(r, j, k) ensures r.jobs[j].status != Pending {
        assert Older(s.db, j, k);
      }
      forall j | j in r.jobs && r.jobs[j].status == Published ensures exists f :: ArtifactKey(j, f) in r.artifacts {
        var f :| ArtifactKey(j, f) in s.db.artifacts;
        assert ArtifactKey(j, f) in r.artifacts;
      }
    }
  }

  lemma {:induction false} StepKeeps(s: System, stamp: Stamp)
    requires Inv(s) && Enabled(s, stamp.event)
    ensures Inv(Step(s, stamp))
  {
    hide Consistent, OnlyNewestPending, PublishedHasArtifact, Accepted, Claimed, Removed, WithMark, WithArtifacts;
    var now := stamp.now;
    match stamp.event
    case AcceptLocal(info, contents) => AcceptKeeps(s, info, contents, contents, now, now);
    case AcceptAur(info, commit, contents, commitTime, delay) =>
      AcceptKeeps(s, info, commit, contents, EligibleAtFromCommit(commitTime, delay, now), now);
    case Claim => ClaimKeeps(s, now);
    case BuildOk(log) => BuildKeeps(s, Built, log, "", now);
    case BuildFail(log, failure) => BuildKeeps(s, Failed, log, failure, now);
    case WorkerRestart => DropKeeps(s, None, s.batch);
    case ReadBatch(jobs) => DropKeeps(s, s.worker, jobs);
    case PublishOk(files) => PublishKeeps(s, files, Published, "", now);
    case PublishFail(files, failure) => PublishKeeps(s, files, Failed, failure, now);
    case PublishLost(files) =>
      StoredKeeps(s, files);
      TailIsAscending(s.batch);
      DropKeeps(s.(db := Stored(s, files)), s.worker, s.batch[1..]);
    case PublishGone =>
      TailIsAscending(s.batch);
      DropKeeps(s, s.worker, s.batch[1..]);
    case PublisherRestart(files) =>
      StoredKeeps(s, files);
      DropKeeps(s.(db := Stored(s, files)), s.worker, []);
    case Remove(name) => RemovedKeeps(s, name);
    case Tick =>
  }

  // Every reachable state satisfies the invariant.
  lemma {:induction false} Always(s: System, run: seq<Stamp>)
    requires Initial(s) && Legal(s, run)
    ensures Inv(Final(s, run))
  {
    if run != [] {
      var n := |run| - 1;
      Always(s, run[..n]);
      StepKeeps(Final(s, run[..n]), run[n]);
    }
  }
}
