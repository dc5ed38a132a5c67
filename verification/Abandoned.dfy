// A running job that no worker holds, because its worker died or its mark was
// lost. Nothing ever touches it again, and removing its package is refused
// from then on.
module Abandoned {
  import opened Evolution
  import opened Invariants
  import opened Options
  import opened Order
  import opened Packages
  import opened Protocol
  import opened Tables

  ghost predicate IsAbandoned(s: System, j: Id) {
    HasStatus(s.db, j, Running) && s.worker != Some(j)
  }

  // The job row is there and the same.
  ghost predicate SameRow(t: Tables, r: Tables, j: Id) {
    j in t.jobs && j in r.jobs && r.jobs[j] == t.jobs[j]
  }

  // ---- Steps ----

  lemma AcceptLeaves(s: System, info: PackageInfo, revision: string, digest: string, eligibleAt: Time, now: Time, j: Id)
    requires Inv(s) && IsAbandoned(s, j)
    ensures SameRow(s.db, Accepted(s, info, revision, digest, eligibleAt, now), j)
  {
    AcceptedRows(s, info, revision, digest, eligibleAt, now);
  }

  lemma ClaimLeaves(s: System, now: Time, j: Id)
    requires s.worker == None && IsAbandoned(s, j)
    ensures SameRow(s.db, Claimed(s, now).db, j) && Claimed(s, now).worker != Some(j)
  {
  }

  lemma MarkLeaves(t: Tables, i: Id, status: Status, log: string, failure: string, now: Time, j: Id)
    requires j in t.jobs && i != j
    ensures SameRow(t, WithMark(t, i, status, log, failure, now), j)
  {
  }

  lemma StoredLeaves(s: System, files: map<string, Artifact>, j: Id)
    requires j in s.db.jobs
    ensures SameRow(s.db, Stored(s, files), j)
  {
  }

  // The publisher is never at a running job.
  lemma NotInBatch(s: System, j: Id)
    requires Inv(s) && HasStatus(s.db, j, Running) && s.batch != []
    ensures s.batch[0] != j
  {
    assert s.batch[0] in s.batch;
  }

  // Removing its package is refused.
  lemma RemoveLeaves(s: System, name: string, j: Id)
    requires Inv(s) && HasStatus(s.db, j, Running)
    ensures SameRow(s.db, Removed(s.db, name), j)
  {
    var p := PackageId(s.db, name);
    assert j in JobsOf(s.db, p) ==> HasRunningJob(s.db, p);
  }

  lemma {:induction false} StepLeaves(s: System, stamp: Stamp, j: Id)
    requires Inv(s) && IsAbandoned(s, j) && Enabled(s, stamp.event)
    ensures SameRow(s.db, Step(s, stamp).db, j) && IsAbandoned(Step(s, stamp), j)
  {
    hide Inv, Accepted, Claimed, Removed, WithMark, WithArtifacts, Stored;
    var now := stamp.now;
    if s.batch != [] {
      NotInBatch(s, j);
    }
    match stamp.event
    case AcceptLocal(info, contents) => AcceptLeaves(s, info, contents, contents, now, now, j);
    case AcceptAur(info, commit, contents, commitTime, delay) =>
      AcceptLeaves(s, info, commit, contents, EligibleAtFromCommit(commitTime, delay, now), now, j);
    case Claim => ClaimLeaves(s, now, j);
    case BuildOk(log) => MarkLeaves(s.db, s.worker.value, Built, log, "", now, j);
    case BuildFail(log, failure) => MarkLeaves(s.db, s.worker.value, Failed, log, failure, now, j);
    case PublishOk(files) =>
      StoredLeaves(s, files, j);
      MarkLeaves(Stored(s, files), s.batch[0], Published, "", "", now, j);
    case PublishFail(files, failure) =>
      StoredLeaves(s, files, j);
      MarkLeaves(Stored(s, files), s.batch[0], Failed, "", failure, now, j);
    case PublishLost(files) => StoredLeaves(s, files, j);
    case PublisherRestart(files) => StoredLeaves(s, files, j);
    case Remove(name) => RemoveLeaves(s, name, j);
    case _ =>
  }

  // ---- Whole runs ----

  lemma HasRow(s: System, j: Id)
    requires IsAbandoned(s, j)
    ensures SameRow(s.db, s.db, j)
  {
  }

  // Once abandoned, a job stays running, with the same row, in every later state.
  lemma {:induction false} AbandonedForever(s: System, run: seq<Stamp>, i: nat, m: nat, j: Id)
    requires Initial(s) && Legal(s, run) && i <= m <= |run| && IsAbandoned(At(s, run, i), j)
    ensures IsAbandoned(At(s, run, m), j) && SameRow(At(s, run, i).db, At(s, run, m).db, j)
  {
    hide Initial, Inv, Legal, Final, Step, Enabled, IsAbandoned, At, Evolved;
    if i == m {
      HasRow(At(s, run, i), j);
    } else {
      AbandonedForever(s, run, i, m - 1, j);
      InitialIsInv(s);
      Between(s, run, 0, m - 1);
      AtStep(s, run, m - 1);
      StepLeaves(At(s, run, m - 1), run[m - 1], j);
    }
  }

  lemma PackageOfRunning(a: System, b: System, j: Id)
    requires Inv(a) && Inv(b) && Evolved(a.db, b.db) && SameRow(a.db, b.db, j) && HasStatus(b.db, j, Running)
    ensures var p := a.db.versions[a.db.jobs[j].versionId].packageId;
            && p in a.db.packages && p in b.db.packages && b.db.packages[p].name == a.db.packages[p].name
            && Removed(b.db, b.db.packages[p].name) == b.db
  {
    var v := a.db.jobs[j].versionId;
    var p := a.db.versions[v].packageId;
    assert b.db.versions[v] == a.db.versions[v];
    assert IsPackage(b.db, p, b.db.packages[p].name);
    assert HasRunningJob(b.db, p);
  }

  // Its version and package stay too, and no removal of the package ever goes through.
  lemma {:induction false} NeverRemoved(s: System, run: seq<Stamp>, i: nat, m: nat, j: Id)
    requires Initial(s) && Legal(s, run) && i <= m <= |run| && IsAbandoned(At(s, run, i), j)
    ensures var a, t := At(s, run, i).db, At(s, run, m).db;
            && j in a.jobs && a.jobs[j].versionId in a.versions
            && var p := a.versions[a.jobs[j].versionId].packageId;
               && p in a.packages && p in t.packages && t.packages[p].name == a.packages[p].name
               && Removed(t, t.packages[p].name) == t
  {
    AbandonedForever(s, run, i, m, j);
    InitialIsInv(s);
    Between(s, run, 0, i);
    Between(s, run, i, m);
    PackageOfRunning(At(s, run, i), At(s, run, m), j);
  }
}
