// The build queue as a state machine. Every transaction of every role is one
// step; steps of different roles interleave freely. There is one worker, one
// publisher and any number of accepts and removals.
module Protocol {
  import opened Options
  import opened Packages
  import opened Tables

  // The database, the time of the last step, the job the worker is building
  // and the rest of the batch the publisher has read.
  datatype System = System(db: Tables, clock: Time, worker: Option<Id>, batch: seq<Id>)

  datatype Event =
    | AcceptLocal(info: PackageInfo, contents: string)
    | AcceptAur(info: PackageInfo, commit: string, contents: string, commitTime: Time, delay: Time)
    | Claim
    | BuildOk(log: string)
    | BuildFail(log: string, failure: string)
    | WorkerRestart
    | ReadBatch(jobs: seq<Id>)
    | PublishOk(files: map<string, Artifact>)
    | PublishFail(files: map<string, Artifact>, failure: string)
    | PublishLost(files: map<string, Artifact>)
    | PublishGone
    | PublisherRestart(files: map<string, Artifact>)
    | Remove(name: string)
    | Tick

  datatype Stamp = Stamp(now: Time, event: Event)

  function KindText(kind: SourceKind): string {
    match kind
    case Aur => "aur"
    case Local => "local"
  }

  // Where the snapshot of a revision is stored, below the data root.
  function SnapshotPath(kind: SourceKind, name: string, revision: string): string {
    "sources/" + KindText(kind) + "/" + name + "/" + revision
  }

  ghost predicate Initial(s: System) {
    s.db == EMPTY_TABLES && s.worker == None && s.batch == []
  }

  ghost predicate AscendingIds(ids: seq<Id>) {
    forall i, j :: 0 <= i < j < |ids| ==> ids[i] < ids[j]
  }

  // What the publisher reads: the built jobs in id order.
  ghost predicate IsBatch(t: Tables, ids: seq<Id>) {
    && AscendingIds(ids)
    && forall j :: j in ids <==> j in t.jobs && t.jobs[j].status == Built
  }

  // The publisher is at a job whose row exists.
  ghost predicate AtJob(s: System) {
    s.batch != [] && s.batch[0] in s.db.jobs
  }

  ghost predicate Enabled(s: System, e: Event) {
    match e
    case AcceptLocal(info, _) => info.kind == Local
    case AcceptAur(info, _, _, _, _) => info.kind == Aur
    case Claim => s.worker == None
    case BuildOk(_) => s.worker.Some?
    case BuildFail(_, _) => s.worker.Some?
    case ReadBatch(jobs) => s.batch == [] && IsBatch(s.db, jobs)
    case PublishOk(files) => AtJob(s) && files.Keys != {}
    case PublishFail(_, _) => AtJob(s)
    case PublishLost(_) => AtJob(s)
    case PublishGone => s.batch != [] && !AtJob(s)
    case PublisherRestart(files) => files.Keys == {} || AtJob(s)
    case _ => true
  }

  ghost function Accepted(s: System, info: PackageInfo, revision: string, digest: string, eligibleAt: Time,
                          now: Time): Tables {
    var after := Created(s.db, info, SnapshotPath(info.kind, info.name, revision), revision, digest, eligibleAt, now);
    if after.Some? then after.value else s.db
  }

  // The first eligible job, which one transaction of ClaimJob works on.
  ghost function FirstJob(t: Tables, now: Time): (r: Option<Id>)
    ensures r.Some? ==> IsFirst(t, r.value, now)
    ensures r.None? ==> forall j :: !IsFirst(t, j, now)
  {
    if exists j :: IsFirst(t, j, now) then var j: Id :| IsFirst(t, j, now); Some(j) else None
  }

  ghost function Claimed(s: System, now: Time): System {
    match FirstJob(s.db, now)
    case None => s
    case Some(j) =>
      s.(db := AfterTurn(s.db, j, now),
         worker := if !Superseded(s.db, j) && Resolves(s.db, j) then Some(j) else None)
  }

  // The files a publication leaves before it succeeds, fails or is cut short.
  ghost function Stored(s: System, files: map<string, Artifact>): Tables {
    if s.batch == [] then s.db else WithArtifacts(s.db, s.batch[0], files)
  }

  ghost function Removed(t: Tables, name: string): Tables {
    if HasPackage(t, name) && !HasRunningJob(t, PackageId(t, name)) then Without(t, PackageId(t, name)) else t
  }

  ghost function After(s: System, e: Event, now: Time): System
    requires Enabled(s, e)
  {
    match e
    case AcceptLocal(info, contents) => s.(db := Accepted(s, info, contents, contents, now, now))
    case AcceptAur(info, commit, contents, commitTime, delay) =>
      s.(db := Accepted(s, info, commit, contents, EligibleAtFromCommit(commitTime, delay, now), now))
    case Claim => Claimed(s, now)
    case BuildOk(log) => s.(db := WithMark(s.db, s.worker.value, Built, log, "", now), worker := None)
    case BuildFail(log, failure) => s.(db := WithMark(s.db, s.worker.value, Failed, log, failure, now), worker := None)
    case WorkerRestart => s.(worker := None)
    case ReadBatch(jobs) => s.(batch := jobs)
    case PublishOk(files) =>
      s.(db := WithMark(Stored(s, files), s.batch[0], Published, "", "", now), batch := s.batch[1..])
    case PublishFail(files, failure) =>
      s.(db := WithMark(Stored(s, files), s.batch[0], Failed, "", failure, now), batch := s.batch[1..])
    case PublishLost(files) => s.(db := Stored(s, files), batch := s.batch[1..])
    case PublishGone => s.(batch := s.batch[1..])
    case PublisherRestart(files) => s.(db := Stored(s, files), batch := [])
    case Remove(name) => s.(db := Removed(s.db, name))
    case Tick => s
  }

  ghost function Step(s: System, stamp: Stamp): System
    requires Enabled(s, stamp.event)
  {
    After(s, stamp.event, stamp.now).(clock := stamp.now)
  }

  // ---- Runs ----

  // Every step of the run is enabled where it happens.
  ghost predicate Legal(s: System, run: seq<Stamp>)
    decreases |run|, 0
  {
    run == [] || (Legal(s, run[..|run| - 1]) && Enabled(Final(s, run[..|run| - 1]), run[|run| - 1].event))
  }

  ghost function Final(s: System, run: seq<Stamp>): System
    requires Legal(s, run)
    decreases |run|, 1
  {
    if run == [] then s else Step(Final(s, run[..|run| - 1]), run[|run| - 1])
  }

  // The clock never goes back.
  ghost predicate Forward(s: System, run: seq<Stamp>)
    requires Legal(s, run)
  {
    run == [] || (Forward(s, run[..|run| - 1]) && run[|run| - 1].now >= Final(s, run[..|run| - 1]).clock)
  }

  lemma OneStep(s: System, stamp: Stamp)
    requires Enabled(s, stamp.event)
    ensures Legal(s, [stamp]) && Final(s, [stamp]) == Step(s, stamp)
  {
    assert [stamp][..0] == [];
  }

  lemma {:induction false} LegalPrefix(s: System, run: seq<Stamp>, i: nat)
    requires Legal(s, run) && i <= |run|
    ensures Legal(s, run[..i])
    ensures i < |run| ==> Enabled(Final(s, run[..i]), run[i].event)
    ensures i < |run| ==> Legal(s, run[..i + 1]) && Final(s, run[..i + 1]) == Step(Final(s, run[..i]), run[i])
    ensures Forward(s, run) ==> Forward(s, run[..i])
    ensures Forward(s, run) && i < |run| ==> run[i].now >= Final(s, run[..i]).clock
  {
    if i == |run| {
      assert run[..i] == run;
    } else {
      var front := run[..|run| - 1];
      assert front[..i] == run[..i];
      if i + 1 < |run| {
        assert front[..i + 1] == run[..i + 1] && front[i] == run[i];
      } else {
        assert run[..i + 1] == run && run[..i] == front;
      }
      LegalPrefix(s, front, i);
    }
  }

  lemma {:induction false} LegalConcat(s: System, a: seq<Stamp>, b: seq<Stamp>)
    requires Legal(s, a) && Legal(Final(s, a), b)
    ensures Legal(s, a + b) && Final(s, a + b) == Final(Final(s, a), b)
  {
    hide Step, Enabled;
    if b == [] {
      assert a + b == a;
    } else {
      var n := |b| - 1;
      LegalConcat(s, a, b[..n]);
      assert (a + b)[..|a + b| - 1] == a + b[..n];
    }
  }
}
