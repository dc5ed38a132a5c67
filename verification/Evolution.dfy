// How the tables change over a run: rows keep their identity, job rows move
// forward on the life cycle, ids are never given out twice, and the rows of a
// package live and die together.
module Evolution {
  import opened Invariants
  import opened Options
  import opened Packages
  import opened Protocol
  import opened Tables

  // The life cycle of a job.
  predicate Edge(a: Status, b: Status) {
    match a
    case Pending => b == Running || b == Skipped
    case Running => b == Built || b == Failed
    case Built => b == Published || b == Failed
    case _ => false
  }

  // Any number of edges.
  predicate Leads(a: Status, b: Status) {
    match a
    case Pending => true
    case Running => b != Pending && b != Skipped
    case Built => b == Built || b == Published || b == Failed
    case _ => b == a
  }

  // What a later row of the same job has kept.
  predicate Onward(a: Job, b: Job) {
    && SameJob(a, b)
    && a.createdAt == b.createdAt
    && Leads(a.status, b.status)
    && (a.claimedAt.Some? ==> b.claimedAt == a.claimedAt)
  }

  predicate Moved(a: Job, b: Job) {
    a == b || (Edge(a.status, b.status) && Onward(a, b))
  }

  ghost predicate CountersGrew(t: Tables, s: Tables) {
    t.nextPackage <= s.nextPackage && t.nextVersion <= s.nextVersion && t.nextJob <= s.nextJob
  }

  // Rows with old ids are the old rows.
  ghost predicate RowsKept(t: Tables, s: Tables) {
    && (forall p :: p in s.packages && p < t.nextPackage ==>
          p in t.packages && s.packages[p].name == t.packages[p].name)
    && (forall v :: v in s.versions && v < t.nextVersion ==> v in t.versions && s.versions[v] == t.versions[v])
    && (forall j :: j in s.jobs && j < t.nextJob ==> j in t.jobs && Onward(t.jobs[j], s.jobs[j]))
  }

  // A package keeps its versions, and a version its job, as long as it exists.
  ghost predicate Surviving(t: Tables, s: Tables) {
    && (forall v :: v in t.versions && t.versions[v].packageId in s.packages ==> v in s.versions)
    && (forall j :: j in t.jobs && t.jobs[j].versionId in s.versions ==> j in s.jobs)
  }

  ghost predicate Evolved(t: Tables, s: Tables) {
    CountersGrew(t, s) && RowsKept(t, s) && Surviving(t, s)
  }

  // The change one step makes to the job rows that it leaves in place.
  ghost predicate RowsMoved(t: Tables, s: Tables) {
    forall j :: j in t.jobs && j in s.jobs ==> Moved(t.jobs[j], s.jobs[j])
  }

  lemma KeptTrans(a: Tables, b: Tables, c: Tables)
    requires CountersGrew(a, b) && CountersGrew(b, c) && RowsKept(a, b) && RowsKept(b, c)
    ensures CountersGrew(a, c) && RowsKept(a, c)
  {
    forall j | j in c.jobs && j < a.nextJob ensures j in a.jobs && Onward(a.jobs[j], c.jobs[j]) {
      assert j in b.jobs;
    }
  }

  lemma SurvivingTrans(a: Tables, b: Tables, c: Tables)
    requires Counted(a) && References(a) && CountersGrew(a, b) && RowsKept(a, b) && Surviving(a, b)
    requires CountersGrew(b, c) && RowsKept(b, c) && Surviving(b, c)
    ensures Surviving(a, c)
  {
    forall v | v in a.versions && a.versions[v].packageId in c.packages ensures v in c.versions {
      assert a.versions[v].packageId in a.packages;
      assert v in b.versions;
    }
    forall j | j in a.jobs && a.jobs[j].versionId in c.versions ensures j in c.jobs {
      assert a.jobs[j].versionId in a.versions;
      assert j in b.jobs && SameJob(a.jobs[j], b.jobs[j]);
    }
  }

  lemma {:induction false} EvolvedTrans(a: Tables, b: Tables, c: Tables)
    requires Consistent(a) && Evolved(a, b) && Evolved(b, c)
    ensures Evolved(a, c)
  {
    hide CountersGrew, RowsKept, Surviving;
    KeptTrans(a, b, c);
    SurvivingTrans(a, b, c);
  }

  // ---- Single steps ----

  lemma {:induction false} PackageEvolves(t: Tables, info: PackageInfo, path: string)
    requires Consistent(t)
    ensures Evolved(t, WithPackage(t, PackageId(t, info.name), info, path))
  {
  }

  lemma AddedKeepsRest(t: Tables, p: Id, revision: string, now: Time, s: Tables)
    requires Counted(t) && VersionAdded(t, p, revision, now, s)
    ensures CountersGrew(t, s) && Surviving(t, s)
    ensures forall v :: v in s.versions && v < t.nextVersion ==> v in t.versions && s.versions[v] == t.versions[v]
  {
  }

  lemma AddedMoves(t: Tables, p: Id, revision: string, now: Time, s: Tables)
    requires Counted(t) && RowsOk(t) && VersionAdded(t, p, revision, now, s)
    ensures RowsMoved(t, s)
    ensures forall j :: j in s.jobs && j < t.nextJob ==> j in t.jobs && Onward(t.jobs[j], s.jobs[j])
  {
    hide OtherVersion, IsVersion;
    forall j | j in t.jobs ensures j != t.nextJob && Moved(t.jobs[j], s.jobs[j]) && Onward(t.jobs[j], s.jobs[j]) {
      assert RowOk(t.jobs[j]);
      assert s.jobs[j] == t.jobs[j] || s.jobs[j] == SkippedJob(t.jobs[j], now);
    }
  }

  lemma {:induction false} AddedEvolves(t: Tables, p: Id, revision: string, now: Time, s: Tables)
    requires Consistent(t) && VersionAdded(t, p, revision, now, s)
    ensures Evolved(t, s) && RowsMoved(t, s)
  {
    hide CountersGrew, Surviving, RowsMoved, Onward, RowOk, OtherVersion, Paired;
    AddedKeepsRest(t, p, revision, now, s);
    AddedMoves(t, p, revision, now, s);
  }

  lemma SameRowsEvolve(t: Tables, s: Tables)
    requires s == t.(artifacts := s.artifacts)
    ensures Evolved(t, s) && RowsMoved(t, s)
  {
  }

  lemma {:induction false} AcceptEvolves(s: System, info: PackageInfo, revision: string, digest: string,
                                         eligibleAt: Time, now: Time)
    requires Inv(s)
    ensures var after := Accepted(s, info, revision, digest, eligibleAt, now);
            Evolved(s.db, after) && RowsMoved(s.db, after)
  {
    var t, p, path := s.db, PackageId(s.db, info.name), SnapshotPath(info.kind, info.name, revision);
    var t1 := WithPackage(t, p, info, path);
    var after := Accepted(s, info, revision, digest, eligibleAt, now);
    AcceptCases(s, info, revision, digest, eligibleAt, now);
    PackageEvolves(t, info, path);
    hide Evolved, VersionAdded, Accepted;
    if after == t {
      SameRowsEvolve(t, t);
    } else if !HasVersion(t1, p, revision) {
      AddedEvolves(t1, p, revision, now, after);
      EvolvedTrans(t, t1, after);
    }
  }

  lemma MarkEvolves(t: Tables, j: Id, job: Job)
    requires j in t.jobs && Counted(t) && Moved(t.jobs[j], job)
    ensures Evolved(t, WithRow(t, j, job)) && RowsMoved(t, WithRow(t, j, job))
  {
  }

  lemma RemoveEvolves(t: Tables, p: Id)
    requires Counted(t)
    ensures Evolved(t, Without(t, p)) && RowsMoved(t, Without(t, p))
  {
  }

  lemma {:induction false} ClaimEvolves(s: System, now: Time)
    requires Inv(s) && s.worker == None
    ensures Evolved(s.db, Claimed(s, now).db) && RowsMoved(s.db, Claimed(s, now).db)
  {
    match FirstJob(s.db, now)
    case None => SameRowsEvolve(s.db, s.db);
    case Some(j) =>
      if Superseded(s.db, j) {
        MarkEvolves(s.db, j, SkippedJob(s.db.jobs[j], now));
      } else {
        MarkEvolves(s.db, j, ClaimedJob(s.db.jobs[j], now));
        SameRowsEvolve(s.db, s.db);
      }
  }

  lemma {:induction false} BuildEvolves(s: System, status: Status, log: string, failure: string, now: Time)
    requires Inv(s) && s.worker.Some? && (status == Built || status == Failed)
    ensures var after := WithMark(s.db, s.worker.value, status, log, failure, now);
            Evolved(s.db, after) && RowsMoved(s.db, after)
  {
    MarkEvolves(s.db, s.worker.value, MarkedJob(s.db.jobs[s.worker.value], status, log, failure, now));
  }

  lemma RemovedEvolves(s: System, name: string)
    requires Inv(s)
    ensures Evolved(s.db, Removed(s.db, name)) && RowsMoved(s.db, Removed(s.db, name))
  {
    RemoveEvolves(s.db, PackageId(s.db, name));
    SameRowsEvolve(s.db, s.db);
  }

  lemma {:induction false} StoredEvolves(s: System, files: map<string, Artifact>)
    ensures Evolved(s.db, Stored(s, files)) && RowsMoved(s.db, Stored(s, files))
  {
    SameRowsEvolve(s.db, Stored(s, files));
  }

  lemma {:induction false} PublishEvolves(s: System, files: map<string, Artifact>, status: Status, failure: string,
                                          now: Time)
    requires Inv(s) && AtJob(s) && (status == Published || status == Failed)
    ensures var after := WithMark(Stored(s, files), s.batch[0], status, "", failure, now);
            Evolved(s.db, after) && RowsMoved(s.db, after)
  {
    var j := s.batch[0];
    assert j in s.batch && s.db.jobs[j].status == Built;
    MarkEvolves(Stored(s, files), j, MarkedJob(s.db.jobs[j], status, "", failure, now));
  }

  lemma {:induction false} StepEvolves(s: System, stamp: Stamp)
    requires Inv(s) && Enabled(s, stamp.event)
    ensures Evolved(s.db, Step(s, stamp).db) && RowsMoved(s.db, Step(s, stamp).db)
  {
    hide Inv, Evolved, RowsMoved, Accepted, Claimed, Removed, WithMark, WithArtifacts;
    var t, now := s.db, stamp.now;
    match stamp.event
    case AcceptLocal(info, contents) => AcceptEvolves(s, info, contents, contents, now, now);
    case AcceptAur(info, commit, contents, commitTime, delay) =>
      AcceptEvolves(s, info, commit, contents, EligibleAtFromCommit(commitTime, delay, now), now);
    case Claim => ClaimEvolves(s, now);
    case BuildOk(log) => BuildEvolves(s, Built, log, "", now);
    case BuildFail(log, failure) => BuildEvolves(s, Failed, log, failure, now);
    case PublishOk(files) => PublishEvolves(s, files, Published, "", now);
    case PublishFail(files, failure) => PublishEvolves(s, files, Failed, failure, now);
    case PublishLost(files) => StoredEvolves(s, files);
    case PublisherRestart(files) => StoredEvolves(s, files);
    case Remove(name) => RemovedEvolves(s, name);
    case _ => SameRowsEvolve(t, t);
  }

  predicate Accepts(e: Event) {
    e.AcceptLocal? || e.AcceptAur?
  }

  // The steps that change nothing but marks on job rows, and artifacts.
  predicate MarksOnly(e: Event) {
    !Accepts(e) && !e.Claim? && !e.Remove?
  }

  ghost predicate Marked(a: Job, b: Job) {
    a == b || (b.versionId == a.versionId && b.status in {Built, Failed, Published})
  }

  ghost predicate OnlyMarks(t: Tables, r: Tables) {
    && r.versions == t.versions && r.packages == t.packages && r.jobs.Keys == t.jobs.Keys
    && forall j :: j in t.jobs ==> Marked(t.jobs[j], r.jobs[j])
  }

  lemma MarkIsMark(t: Tables, r: Tables, j: Id, status: Status, log: string, failure: string, now: Time)
    requires r == t.(artifacts := r.artifacts) && status in {Built, Failed, Published}
    ensures OnlyMarks(t, WithMark(r, j, status, log, failure, now))
  {
  }

  lemma StoredIsArtifacts(s: System, files: map<string, Artifact>)
    ensures Stored(s, files) == s.db.(artifacts := Stored(s, files).artifacts)
    ensures OnlyMarks(s.db, Stored(s, files))
  {
  }

  lemma NoChange(t: Tables)
    ensures OnlyMarks(t, t)
  {
  }

  lemma MarksChange(s: System, stamp: Stamp)
    requires Enabled(s, stamp.event) && MarksOnly(stamp.event)
    ensures OnlyMarks(s.db, Step(s, stamp).db)
  {
    hide WithMark, Stored, OnlyMarks;
    var t, now := s.db, stamp.now;
    match stamp.event
    case BuildOk(log) => MarkIsMark(t, t, s.worker.value, Built, log, "", now);
    case BuildFail(log, failure) => MarkIsMark(t, t, s.worker.value, Failed, log, failure, now);
    case PublishOk(files) =>
      StoredIsArtifacts(s, files);
      MarkIsMark(t, Stored(s, files), s.batch[0], Published, "", "", now);
    case PublishFail(files, failure) =>
      StoredIsArtifacts(s, files);
      MarkIsMark(t, Stored(s, files), s.batch[0], Failed, "", failure, now);
    case PublishLost(files) => StoredIsArtifacts(s, files);
    case PublisherRestart(files) => StoredIsArtifacts(s, files);
    case _ => NoChange(t);
  }

  // Job rows appear by accepts only.
  lemma {:induction false} OnlyAcceptsAddJobs(s: System, stamp: Stamp)
    requires Enabled(s, stamp.event) && !Accepts(stamp.event)
    ensures Step(s, stamp).db.jobs.Keys <= s.db.jobs.Keys
  {
    if MarksOnly(stamp.event) {
      hide Step;
      MarksChange(s, stamp);
    } else {
      hide Superseded, Resolves, Accepted;
    }
  }

  // ---- Whole runs ----

  lemma InvIsConsistent(s: System)
    requires Inv(s)
    ensures Consistent(s.db)
  {
  }

  lemma {:induction false} RunKeeps(s: System, run: seq<Stamp>)
    requires Inv(s) && Legal(s, run)
    ensures Inv(Final(s, run)) && Evolved(s.db, Final(s, run).db)
  {
    hide Inv, Evolved, RowsMoved, Step, Enabled;
    if run == [] {
      SameRowsEvolve(s.db, s.db);
    } else {
      var n := |run| - 1;
      RunKeeps(s, run[..n]);
      var mid := Final(s, run[..n]);
      StepKeeps(mid, run[n]);
      StepEvolves(mid, run[n]);
      InvIsConsistent(s);
      InvIsConsistent(mid);
      EvolvedTrans(s.db, mid.db, Final(s, run).db);
    }
  }

  // The state after the first i steps.
  ghost function At(s: System, run: seq<Stamp>, i: nat): System
    requires Legal(s, run) && i <= |run|
  {
    LegalPrefix(s, run, i);
    Final(s, run[..i])
  }

  lemma {:induction false} AtStep(s: System, run: seq<Stamp>, i: nat)
    requires Legal(s, run) && i < |run|
    ensures Enabled(At(s, run, i), run[i].event)
    ensures At(s, run, i + 1) == Step(At(s, run, i), run[i])
    ensures Forward(s, run) ==> run[i].now >= At(s, run, i).clock
  {
    LegalPrefix(s, run, i);
  }

  // From any point of a run to any later one.
  lemma {:induction false} Between(s: System, run: seq<Stamp>, i: nat, m: nat)
    requires Inv(s) && Legal(s, run) && i <= m <= |run|
    ensures Inv(At(s, run, i)) && Inv(At(s, run, m))
    ensures Evolved(At(s, run, i).db, At(s, run, m).db)
  {
    hide Inv, Evolved, RowsMoved, Legal, Final, Step;
    LegalPrefix(s, run, i);
    RunKeeps(s, run[..i]);
    if i == m {
      SameRowsEvolve(At(s, run, i).db, At(s, run, i).db);
    } else {
      Between(s, run, i, m - 1);
      AtStep(s, run, m - 1);
      StepKeeps(At(s, run, m - 1), run[m - 1]);
      StepEvolves(At(s, run, m - 1), run[m - 1]);
      InvIsConsistent(At(s, run, i));
      InvIsConsistent(At(s, run, m - 1));
      EvolvedTrans(At(s, run, i).db, At(s, run, m - 1).db, At(s, run, m).db);
    }
  }

  lemma InitialIsInv(s: System)
    requires Initial(s)
    ensures Inv(s)
  {
  }

  // A step moves a surviving job along one edge of the life cycle or not at
  // all, and over any stretch of a run a job only goes forward.
  lemma {:induction false} LifeCycle(s: System, run: seq<Stamp>, i: nat, m: nat, j: Id)
    requires Initial(s) && Legal(s, run) && i <= m <= |run|
    requires j in At(s, run, i).db.jobs && j in At(s, run, m).db.jobs
    ensures var a, b := At(s, run, i).db.jobs[j], At(s, run, m).db.jobs[j];
            Onward(a, b) && RowOk(a) && RowOk(b) && (m == i + 1 ==> Moved(a, b))
  {
    InitialIsInv(s);
    Between(s, run, i, m);
    if m == i + 1 {
      AtStep(s, run, i);
      StepEvolves(At(s, run, i), run[i]);
    }
  }
}
