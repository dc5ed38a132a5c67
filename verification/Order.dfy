// Publication order. The publisher never replaces a package by an earlier
// version of it, as long as no failed publication loses its failure mark while
// a newer job of the same package waits behind it in the batch; and exactly
// then it can.
module Order {
  import opened Evolution
  import opened Invariants
  import opened Options
  import opened Packages
  import opened Protocol
  import opened Tables

  // An older job of the same package can no longer be published once a newer
  // one is, and stands before it in the publisher's batch until then.
  ghost predicate InOrder(s: System) {
    forall j, k :: Older(s.db, j, k) ==>
      && (s.db.jobs[k].status == Published ==> s.db.jobs[j].status != Built && s.worker != Some(j))
      && (s.db.jobs[k].status == Built ==> s.worker != Some(j))
      && (k in s.batch && s.db.jobs[j].status == Built ==> j in s.batch)
  }

  // Dropping the head of the batch without a mark leaves no newer job behind it.
  ghost predicate LossIsHarmless(s: System) {
    s.batch != [] ==> forall k :: k in s.batch[1..] ==> !Older(s.db, s.batch[0], k)
  }

  // Every lost failure mark of the run is harmless where it happens.
  ghost predicate Safe(s: System, run: seq<Stamp>)
    requires Legal(s, run)
  {
    forall i :: 0 <= i < |run| && run[i].event.PublishLost? ==> LossIsHarmless(At(s, run, i))
  }

  // ---- Steps ----

  predicate AsBefore(a: Job, b: Job, now: Time) {
    a == b || (a.status == Pending && b == SkippedJob(a, now))
  }

  // An accept adds at most one job, and it is pending.
  lemma {:induction false} AcceptedRows(s: System, info: PackageInfo, revision: string, digest: string,
                                        eligibleAt: Time, now: Time)
    requires Inv(s)
    ensures var after := Accepted(s, info, revision, digest, eligibleAt, now);
            && (forall j :: j in after.jobs && j < s.db.nextJob ==>
                  j in s.db.jobs && AsBefore(s.db.jobs[j], after.jobs[j], now))
            && (forall j :: j in after.jobs && j >= s.db.nextJob ==> after.jobs[j].status == Pending)
            && (forall v :: v in s.db.versions ==> v in after.versions && after.versions[v] == s.db.versions[v])
  {
    AcceptCases(s, info, revision, digest, eligibleAt, now);
  }

  lemma {:induction false} AcceptKeepsOrder(s: System, info: PackageInfo, revision: string, digest: string,
                                            eligibleAt: Time, now: Time)
    requires Inv(s) && InOrder(s)
    ensures InOrder(s.(db := Accepted(s, info, revision, digest, eligibleAt, now)))
  {
    hide Accepted;
    var r := s.(db := Accepted(s, info, revision, digest, eligibleAt, now));
    AcceptedRows(s, info, revision, digest, eligibleAt, now);
    forall j, k | Older(r.db, j, k)
      ensures r.db.jobs[k].status == Published ==> r.db.jobs[j].status != Built && r.worker != Some(j)
      ensures r.db.jobs[k].status == Built ==> r.worker != Some(j)
      ensures k in r.batch && r.db.jobs[j].status == Built ==> j in r.batch
    {
      if k < s.db.nextJob {
        assert Older(s.db, j, k);
      }
    }
  }

  // A pending job is taken by the worker or skipped.
  lemma TakeKeepsOrder(s: System, i: Id, job: Job, worker: Option<Id>)
    requires Inv(s) && InOrder(s) && s.worker == None
    requires i in s.db.jobs && s.db.jobs[i].status == Pending && job.versionId == s.db.jobs[i].versionId
    requires (job.status == Running && worker == Some(i)) || (job.status == Skipped && worker == None)
    ensures InOrder(s.(db := WithRow(s.db, i, job), worker := worker))
  {
    var r := s.(db := WithRow(s.db, i, job), worker := worker);
    forall j, k | Older(r.db, j, k)
      ensures r.db.jobs[k].status == Published ==> r.db.jobs[j].status != Built && r.worker != Some(j)
      ensures r.db.jobs[k].status == Built ==> r.worker != Some(j)
      ensures k in r.batch && r.db.jobs[j].status == Built ==> j in r.batch
    {
      assert Older(s.db, j, k);
    }
  }

  lemma {:induction false} ClaimKeepsOrder(s: System, now: Time)
    requires Inv(s) && InOrder(s) && s.worker == None
    ensures InOrder(Claimed(s, now))
  {
    match FirstJob(s.db, now)
    case None =>
    case Some(j) =>
      if Superseded(s.db, j) {
        TakeKeepsOrder(s, j, SkippedJob(s.db.jobs[j], now), None);
      } else if Resolves(s.db, j) {
        TakeKeepsOrder(s, j, ClaimedJob(s.db.jobs[j], now), Some(j));
      }
  }

  lemma {:induction false} BuildKeepsOrder(s: System, status: Status, log: string, failure: string, now: Time)
    requires Inv(s) && InOrder(s) && s.worker.Some? && (status == Built || status == Failed)
    ensures InOrder(s.(db := WithMark(s.db, s.worker.value, status, log, failure, now), worker := None))
  {
    var r := s.(db := WithMark(s.db, s.worker.value, status, log, failure, now), worker := None);
    forall j, k | Older(r.db, j, k)
      ensures r.db.jobs[k].status == Published ==> r.db.jobs[j].status != Built
      ensures k in r.batch && r.db.jobs[j].status == Built ==> j in r.batch
    {
      assert Older(s.db, j, k);
    }
  }

  lemma ReadKeepsOrder(s: System, jobs: seq<Id>)
    requires Inv(s) && InOrder(s) && IsBatch(s.db, jobs)
    ensures InOrder(s.(batch := jobs))
  {
  }

  // The head of the batch leaves it, with a mark or with nothing newer behind.
  lemma {:induction false} HeadKeepsOrder(s: System, db: Tables)
    requires Inv(s) && InOrder(s) && s.batch != []
    requires db.versions == s.db.versions && db.jobs.Keys == s.db.jobs.Keys
    requires forall j :: j in db.jobs && j != s.batch[0] ==> db.jobs[j] == s.db.jobs[j]
    requires s.batch[0] in db.jobs ==>
               && db.jobs[s.batch[0]].versionId == s.db.jobs[s.batch[0]].versionId
               && (db.jobs[s.batch[0]].status in {Published, Failed} || (db.jobs == s.db.jobs && LossIsHarmless(s)))
    ensures InOrder(s.(db := db, batch := s.batch[1..]))
  {
    var h := s.batch[0];
    var r := s.(db := db, batch := s.batch[1..]);
    TailIsAscending(s.batch);
    assert h in s.batch;
    forall j, k | Older(r.db, j, k)
      ensures r.db.jobs[k].status == Published ==> r.db.jobs[j].status != Built && r.worker != Some(j)
      ensures r.db.jobs[k].status == Built ==> r.worker != Some(j)
      ensures k in r.batch && r.db.jobs[j].status == Built ==> j in r.batch
    {
      assert Older(s.db, j, k);
      if k in r.batch && r.db.jobs[j].status == Built {
        assert j in s.batch;
        var i :| 0 <= i < |s.batch| && s.batch[i] == j;
        assert i > 0 ==> s.batch[1..][i - 1] == j;
      }
    }
  }

  lemma RestKeepsOrder(s: System, db: Tables, worker: Option<Id>, batch: seq<Id>)
    requires InOrder(s) && (worker == None || worker == s.worker) && (batch == [] || batch == s.batch)
    requires db.versions == s.db.versions && db.jobs == s.db.jobs
    ensures InOrder(System(db, s.clock, worker, batch))
  {
    forall j, k | Older(db, j, k) ensures Older(s.db, j, k) {
    }
  }

  lemma RemoveKeepsOrder(s: System, name: string)
    requires InOrder(s)
    ensures InOrder(s.(db := Removed(s.db, name)))
  {
    forall j, k | Older(Removed(s.db, name), j, k) ensures Older(s.db, j, k) {
    }
  }

  lemma {:induction false} PublishKeepsOrder(s: System, files: map<string, Artifact>, status: Status, failure: string,
                                             now: Time)
    requires Inv(s) && InOrder(s) && AtJob(s) && (status == Published || status == Failed)
    ensures InOrder(s.(db := WithMark(Stored(s, files), s.batch[0], status, "", failure, now), batch := s.batch[1..]))
  {
    hide Inv, InOrder;
    HeadKeepsOrder(s, WithMark(Stored(s, files), s.batch[0], status, "", failure, now));
  }

  lemma {:induction false} LossKeepsOrder(s: System, files: map<string, Artifact>)
    requires Inv(s) && InOrder(s) && AtJob(s) && LossIsHarmless(s)
    ensures InOrder(s.(db := Stored(s, files), batch := s.batch[1..]))
  {
    hide Inv, InOrder, LossIsHarmless;
    HeadKeepsOrder(s, Stored(s, files));
  }

  lemma RestartKeepsOrder(s: System, files: map<string, Artifact>)
    requires InOrder(s)
    ensures InOrder(s.(db := Stored(s, files), batch := []))
  {
    hide InOrder;
    RestKeepsOrder(s, Stored(s, files), s.worker, []);
  }

  lemma {:induction false} AfterKeepsOrder(s: System, e: Event, now: Time)
    requires Inv(s) && InOrder(s) && Enabled(s, e)
    requires e.PublishLost? ==> LossIsHarmless(s)
    ensures InOrder(After(s, e, now))
  {
    hide Inv, InOrder, LossIsHarmless, Accepted, Claimed, Removed, Stored, WithMark;
    match e
    case AcceptLocal(info, contents) => AcceptKeepsOrder(s, info, contents, contents, now, now);
    case AcceptAur(info, commit, contents, commitTime, delay) =>
      AcceptKeepsOrder(s, info, commit, contents, EligibleAtFromCommit(commitTime, delay, now), now);
    case Claim => ClaimKeepsOrder(s, now);
    case BuildOk(log) => BuildKeepsOrder(s, Built, log, "", now);
    case BuildFail(log, failure) => BuildKeepsOrder(s, Failed, log, failure, now);
    case WorkerRestart => RestKeepsOrder(s, s.db, None, s.batch);
    case ReadBatch(jobs) => ReadKeepsOrder(s, jobs);
    case PublishOk(files) => PublishKeepsOrder(s, files, Published, "", now);
    case PublishFail(files, failure) => PublishKeepsOrder(s, files, Failed, failure, now);
    case PublishLost(files) => LossKeepsOrder(s, files);
    case PublishGone => HeadKeepsOrder(s, s.db);
    case PublisherRestart(files) => RestartKeepsOrder(s, files);
    case Remove(name) => RemoveKeepsOrder(s, name);
    case Tick =>
  }

  lemma ClockKeepsOrder(s: System, clock: Time)
    requires InOrder(s)
    ensures InOrder(s.(clock := clock))
  {
  }

  lemma {:induction false} StepKeepsOrder(s: System, stamp: Stamp)
    requires Inv(s) && InOrder(s) && Enabled(s, stamp.event)
    requires stamp.event.PublishLost? ==> LossIsHarmless(s)
    ensures InOrder(Step(s, stamp))
  {
    hide InOrder, After;
    AfterKeepsOrder(s, stamp.event, stamp.now);
    ClockKeepsOrder(After(s, stamp.event, stamp.now), stamp.now);
  }

  // ---- Whole runs ----

  lemma {:induction false} AlwaysInOrder(s: System, run: seq<Stamp>, m: nat)
    requires Inv(s) && InOrder(s) && Legal(s, run) && Safe(s, run) && m <= |run|
    ensures Inv(At(s, run, m)) && InOrder(At(s, run, m))
  {
    if m == 0 {
      assert At(s, run, 0) == s;
    } else {
      AlwaysInOrder(s, run, m - 1);
      AtStep(s, run, m - 1);
      StepKeeps(At(s, run, m - 1), run[m - 1]);
      StepKeepsOrder(At(s, run, m - 1), run[m - 1]);
    }
  }

  ghost predicate HasStatus(t: Tables, j: Id, status: Status) {
    j in t.jobs && t.jobs[j].status == status
  }

  // Step m publishes job j.
  ghost predicate Publishes(s: System, run: seq<Stamp>, m: nat, j: Id)
    requires Legal(s, run) && m < |run|
  {
    HasStatus(At(s, run, m + 1).db, j, Published) && !HasStatus(At(s, run, m).db, j, Published)
  }

  // Job j of table a is of an earlier version of the package of job k of table b.
  ghost predicate EarlierVersion(a: Tables, j: Id, b: Tables, k: Id) {
    && j in a.jobs && a.jobs[j].versionId in a.versions
    && k in b.jobs && b.jobs[k].versionId in b.versions
    && a.jobs[j].versionId < b.jobs[k].versionId
    && a.versions[a.jobs[j].versionId].packageId == b.versions[b.jobs[k].versionId].packageId
  }

  // A published job at point i, and at a later step m the publication of a
  // job of an earlier version of the same package.
  ghost predicate OutOfOrder(s: System, run: seq<Stamp>, i: nat, m: nat, j: Id, k: Id)
    requires Legal(s, run)
  {
    && i <= m < |run|
    && HasStatus(At(s, run, i).db, k, Published)
    && Publishes(s, run, m, j)
    && EarlierVersion(At(s, run, m).db, j, At(s, run, i).db, k)
  }

  // What was published and still has an older sibling is still there.
  lemma StillPublished(a: Tables, b: Tables, j: Id, k: Id)
    requires Consistent(a) && Consistent(b) && Evolved(a, b)
    requires HasStatus(a, k, Published) && EarlierVersion(b, j, a, k)
    ensures Older(b, j, k) && HasStatus(b, k, Published)
  {
    var p := b.versions[b.jobs[j].versionId].packageId;
    assert p in b.packages;
    var v := a.jobs[k].versionId;
    assert v in b.versions && b.versions[v] == a.versions[v];
    assert k in b.jobs && Onward(a.jobs[k], b.jobs[k]);
  }

  // Job rows that were not there before a step are pending after it.
  lemma {:induction false} StepNewJobs(s: System, stamp: Stamp)
    requires Inv(s) && Enabled(s, stamp.event)
    ensures forall j :: j in Step(s, stamp).db.jobs && j !in s.db.jobs ==> Step(s, stamp).db.jobs[j].status == Pending
  {
    hide Accepted, Claimed, Removed, WithMark, WithArtifacts;
    match stamp.event
    case AcceptLocal(info, contents) => AcceptedRows(s, info, contents, contents, stamp.now, stamp.now);
    case AcceptAur(info, commit, contents, commitTime, delay) =>
      AcceptedRows(s, info, commit, contents, EligibleAtFromCommit(commitTime, delay, stamp.now), stamp.now);
    case _ => OnlyAcceptsAddJobs(s, stamp);
  }

  // Only the publisher publishes, and only a built job.
  lemma {:induction false} PublishedFromBuilt(s: System, run: seq<Stamp>, m: nat, j: Id)
    requires Inv(s) && Legal(s, run) && m < |run| && Publishes(s, run, m, j)
    ensures HasStatus(At(s, run, m).db, j, Built)
  {
    hide Inv, Evolved, Step, At, Legal;
    Between(s, run, 0, m);
    AtStep(s, run, m);
    StepEvolves(At(s, run, m), run[m]);
    StepNewJobs(At(s, run, m), run[m]);
  }

  // Over every run without a harmful loss, once a version's job is published
  // no job of an earlier version of the same package is published later.
  lemma {:induction false} PublicationOrder(s: System, run: seq<Stamp>, i: nat, m: nat, j: Id, k: Id)
    requires Inv(s) && InOrder(s) && Legal(s, run) && Safe(s, run)
    ensures !OutOfOrder(s, run, i, m, j, k)
  {
    if OutOfOrder(s, run, i, m, j, k) {
      Between(s, run, i, m);
      AlwaysInOrder(s, run, m);
      StillPublished(At(s, run, i).db, At(s, run, m).db, j, k);
      PublishedFromBuilt(s, run, m, j);
      assert false;
    }
  }

  lemma InitialInOrder(s: System)
    requires Initial(s)
    ensures Inv(s) && InOrder(s)
  {
  }

  // From an empty database, whatever the roles do: no earlier version of a
  // package is published after a later one unless a harmful loss has happened.
  lemma {:induction false} NeverBackwards(s: System, run: seq<Stamp>, i: nat, m: nat, j: Id, k: Id)
    requires Initial(s) && Legal(s, run) && OutOfOrder(s, run, i, m, j, k)
    ensures exists n :: 0 <= n < |run| && run[n].event.PublishLost? && !LossIsHarmless(At(s, run, n))
  {
    InitialInOrder(s);
    if Safe(s, run) {
      PublicationOrder(s, run, i, m, j, k);
    }
  }
}
