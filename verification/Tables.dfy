// The rows of the database and the meaning of every transaction on them. Each
// function gives the tables after one transaction, the predicates say what the
// queries of that transaction ask for.
module Tables {
  import opened Options
  import opened Packages

  type Time = int
  type Id = int

  datatype Status = Pending | Running | Built | Published | Failed | Skipped

  datatype Package = Package(name: string, kind: SourceKind, ref: string, sourcePath: string)

  // The value stored under split_packages in a version's JSON metadata.
  datatype SplitField = Absent | Names(names: seq<string>) | Items(items: seq<Option<string>>) | Malformed

  datatype Version = Version(
    packageId: Id,
    revision: string,
    digest: string,
    pkgver: string,
    pkgrel: string,
    kind: SourceKind,
    splits: SplitField,
    firstSeenAt: Time)

  datatype Job = Job(
    versionId: Id,
    status: Status,
    eligibleAt: Time,
    claimedAt: Option<Time>,
    finishedAt: Option<Time>,
    attempts: nat,
    logPath: string,
    error: string,
    createdAt: Time)

  // Dependency and artifact rows are keyed by their unique index.
  datatype DependencyKey = DependencyKey(versionId: Id, name: string)
  datatype ArtifactKey = ArtifactKey(jobId: Id, filename: string)
  datatype Artifact = Artifact(sha256: string, size: nat)

  datatype Tables = Tables(
    packages: map<Id, Package>,
    versions: map<Id, Version>,
    dependencies: map<DependencyKey, DependencyKind>,
    jobs: map<Id, Job>,
    artifacts: map<ArtifactKey, Artifact>,
    nextPackage: Id,
    nextVersion: Id,
    nextJob: Id)

  const EMPTY_TABLES := Tables(map[], map[], map[], map[], map[], 1, 1, 1)

  // ---- Unique indexes, enforced by the database itself ----

  ghost predicate UniqueNames(t: Tables) {
    forall p, q :: p in t.packages && q in t.packages && t.packages[p].name == t.packages[q].name ==> p == q
  }

  ghost predicate UniqueRevisions(t: Tables) {
    forall v, w :: v in t.versions && w in t.versions
      && t.versions[v].packageId == t.versions[w].packageId && t.versions[v].revision == t.versions[w].revision
      ==> v == w
  }

  // Rows never get an id that the counters have still to give out.
  ghost predicate Counted(t: Tables) {
    && (forall p :: p in t.packages ==> p < t.nextPackage)
    && (forall v :: v in t.versions ==> v < t.nextVersion)
    && (forall j :: j in t.jobs ==> j < t.nextJob)
  }

  ghost predicate Indexed(t: Tables) {
    UniqueNames(t) && UniqueRevisions(t) && Counted(t)
  }

  // ---- Lookups ----

  ghost predicate IsPackage(t: Tables, p: Id, name: string) {
    p in t.packages && t.packages[p].name == name
  }

  ghost predicate HasPackage(t: Tables, name: string) {
    exists p :: IsPackage(t, p, name)
  }

  // The id a package has or is about to get.
  ghost function PackageId(t: Tables, name: string): (p: Id)
    ensures HasPackage(t, name) ==> IsPackage(t, p, name)
    ensures !HasPackage(t, name) ==> p == t.nextPackage
  {
    if HasPackage(t, name) then var p :| IsPackage(t, p, name); p else t.nextPackage
  }

  ghost predicate IsVersion(t: Tables, v: Id, p: Id, revision: string) {
    v in t.versions && t.versions[v].packageId == p && t.versions[v].revision == revision
  }

  ghost predicate HasVersion(t: Tables, p: Id, revision: string) {
    exists v :: IsVersion(t, v, p, revision)
  }

  // The id a version has or is about to get.
  ghost function VersionId(t: Tables, p: Id, revision: string): (v: Id)
    ensures HasVersion(t, p, revision) ==> IsVersion(t, v, p, revision)
    ensures !HasVersion(t, p, revision) ==> v == t.nextVersion
  {
    if HasVersion(t, p, revision) then var v :| IsVersion(t, v, p, revision); v else t.nextVersion
  }

  ghost predicate OfPackage(t: Tables, v: Id, p: Id) {
    v in t.versions && t.versions[v].packageId == p
  }

  // (first_seen_at, id) order of versions; the greatest is the latest.
  predicate SeenBefore(t: Tables, v: Id, w: Id)
    requires v in t.versions && w in t.versions
  {
    t.versions[v].firstSeenAt < t.versions[w].firstSeenAt
    || (t.versions[v].firstSeenAt == t.versions[w].firstSeenAt && v < w)
  }

  ghost predicate IsLatest(t: Tables, v: Id, p: Id) {
    OfPackage(t, v, p) && forall w :: OfPackage(t, w, p) && w != v ==> SeenBefore(t, w, v)
  }

  // ---- CreatePackage ----

  function WithPackage(t: Tables, p: Id, info: PackageInfo, sourcePath: string): Tables {
    t.(packages := t.packages[p := Package(info.name, info.kind, info.ref, sourcePath)],
       nextPackage := if p in t.packages then t.nextPackage else p + 1)
  }

  function JsonNames(names: seq<string>): SplitField {
    Items(seq(|names|, i requires 0 <= i < |names| => Some(names[i])))
  }

  function NewVersion(p: Id, info: PackageInfo, revision: string, digest: string, now: Time): Version {
    Version(p, revision, digest, info.version, info.release, info.kind, JsonNames(info.splits), now)
  }

  function WithVersion(t: Tables, version: Version): Tables {
    t.(versions := t.versions[t.nextVersion := version], nextVersion := t.nextVersion + 1)
  }

  // Dependency rows inserted one by one; none when the unique index is hit.
  function WithDependencies(rows: map<DependencyKey, DependencyKind>, v: Id, dependencies: seq<Dependency>)
    : Option<map<DependencyKey, DependencyKind>>
  {
    if dependencies == [] then Some(rows)
    else
      var n := |dependencies| - 1;
      var before := WithDependencies(rows, v, dependencies[..n]);
      var key := DependencyKey(v, dependencies[n].name);
      if before == None || key in before.value then None
      else Some(before.value[key := if dependencies[n].aur then FromAur else FromRepo])
  }

  function SkippedJob(job: Job, now: Time): Job {
    job.(status := Skipped, finishedAt := Some(now), error := "superseded by newer revision")
  }

  predicate OtherVersion(t: Tables, v: Id, p: Id, keep: Id) {
    v in t.versions && t.versions[v].packageId == p && v != keep
  }

  function WithSkipped(t: Tables, p: Id, keep: Id, now: Time): Tables {
    t.(jobs := map j | j in t.jobs ::
         if t.jobs[j].status == Pending && OtherVersion(t, t.jobs[j].versionId, p, keep)
         then SkippedJob(t.jobs[j], now) else t.jobs[j])
  }

  function NewJob(v: Id, eligibleAt: Time, now: Time): Job {
    Job(v, Pending, eligibleAt, None, None, 0, "", "", now)
  }

  function WithJob(t: Tables, v: Id, eligibleAt: Time, now: Time): Tables {
    t.(jobs := t.jobs[t.nextJob := NewJob(v, eligibleAt, now)], nextJob := t.nextJob + 1)
  }

  // The tables of a package whose new version has passed the dependency inserts.
  ghost function WithNewVersion(t: Tables, p: Id, info: PackageInfo, revision: string, digest: string,
                                eligibleAt: Time, now: Time): Option<Tables>
  {
    var v := t.nextVersion;
    var t1 := WithVersion(t, NewVersion(p, info, revision, digest, now));
    var rows := WithDependencies(t1.dependencies, v, info.dependencies);
    if rows == None then None
    else Some(WithJob(WithSkipped(t1.(dependencies := rows.value), p, v, now), v, eligibleAt, now))
  }

  // CreatePackage: none when the transaction is rolled back.
  ghost function Created(t: Tables, info: PackageInfo, sourcePath: string, revision: string, digest: string,
                         eligibleAt: Time, now: Time): Option<Tables>
  {
    var p := PackageId(t, info.name);
    var t1 := WithPackage(t, p, info, sourcePath);
    if HasVersion(t1, p, revision) then Some(t1)
    else WithNewVersion(t1, p, info, revision, digest, eligibleAt, now)
  }

  // The version id CreatePackage returns when it commits.
  ghost function CreatedId(t: Tables, info: PackageInfo, revision: string): Id {
    VersionId(t, PackageId(t, info.name), revision)
  }

  // ---- EligibleAtFromCommit ----

  function EligibleAtFromCommit(commitTime: Time, delay: Time, now: Time): (eligibleAt: Time)
    ensures eligibleAt >= now && eligibleAt >= commitTime + delay
    ensures eligibleAt == now || eligibleAt == commitTime + delay
  {
    var eligible := commitTime + delay;
    if eligible > now then eligible else now
  }

  // ---- ClaimJob ----

  ghost predicate Eligible(t: Tables, j: Id, now: Time) {
    j in t.jobs && t.jobs[j].status == Pending && t.jobs[j].eligibleAt <= now
  }

  // (eligible_at, id) order of jobs.
  predicate DueBefore(t: Tables, j: Id, k: Id)
    requires j in t.jobs && k in t.jobs
  {
    t.jobs[j].eligibleAt < t.jobs[k].eligibleAt || (t.jobs[j].eligibleAt == t.jobs[k].eligibleAt && j < k)
  }

  ghost predicate IsFirst(t: Tables, j: Id, now: Time) {
    Eligible(t, j, now) && forall k :: Eligible(t, k, now) && k != j ==> DueBefore(t, j, k)
  }

  // The job's version exists and is not its package's latest.
  ghost predicate Superseded(t: Tables, j: Id) {
    && j in t.jobs
    && t.jobs[j].versionId in t.versions
    && !IsLatest(t, t.jobs[j].versionId, t.versions[t.jobs[j].versionId].packageId)
  }

  // The job's version and package rows exist, so a claim of it can return.
  predicate Resolves(t: Tables, j: Id) {
    && j in t.jobs
    && t.jobs[j].versionId in t.versions
    && t.versions[t.jobs[j].versionId].packageId in t.packages
  }

  function ClaimedJob(job: Job, now: Time): Job {
    job.(status := Running, claimedAt := Some(now), attempts := job.attempts + 1)
  }

  function WithRow(t: Tables, j: Id, job: Job): Tables {
    t.(jobs := t.jobs[j := job])
  }

  // The one transaction of ClaimJob on the first eligible job j.
  ghost function AfterTurn(t: Tables, j: Id, now: Time): Tables
    requires j in t.jobs
  {
    if Superseded(t, j) then WithRow(t, j, SkippedJob(t.jobs[j], now))
    else if Resolves(t, j) then WithRow(t, j, ClaimedJob(t.jobs[j], now))
    else t
  }

  // ---- MarkJob and JobArtifacts ----

  function MarkedJob(job: Job, status: Status, logPath: string, failure: string, now: Time): Job {
    job.(status := status,
         finishedAt := Some(now),
         logPath := if logPath != "" then logPath else job.logPath,
         error := if failure != "" then failure else job.error)
  }

  function WithMark(t: Tables, j: Id, status: Status, logPath: string, failure: string, now: Time): Tables {
    if j in t.jobs then WithRow(t, j, MarkedJob(t.jobs[j], status, logPath, failure, now)) else t
  }

  // Artifact rows of one job, inserted where no row has the file name yet.
  function WithArtifacts(t: Tables, j: Id, files: map<string, Artifact>): Tables {
    t.(artifacts := map key | key in t.artifacts.Keys + set f | f in files :: ArtifactKey(j, f) ::
         if key in t.artifacts then t.artifacts[key] else files[key.filename])
  }

  // ---- RemovePackage ----

  function VersionsOf(t: Tables, p: Id): set<Id> {
    set v | v in t.versions && t.versions[v].packageId == p
  }

  function JobsOf(t: Tables, p: Id): set<Id> {
    set j | j in t.jobs && t.jobs[j].versionId in VersionsOf(t, p)
  }

  function Without(t: Tables, p: Id): Tables {
    t.(packages := t.packages - {p},
       versions := map v | v in t.versions && v !in VersionsOf(t, p) :: t.versions[v],
       dependencies := map key | key in t.dependencies && key.versionId !in VersionsOf(t, p) :: t.dependencies[key],
       jobs := map j | j in t.jobs && j !in JobsOf(t, p) :: t.jobs[j],
       artifacts := map key | key in t.artifacts && key.jobId !in JobsOf(t, p) :: t.artifacts[key])
  }

  predicate HasRunningJob(t: Tables, p: Id) {
    exists j | j in t.jobs ::
      t.jobs[j].status == Running && t.jobs[j].versionId in t.versions && t.versions[t.jobs[j].versionId].packageId == p
  }
}
