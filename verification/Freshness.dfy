// With a clock that never goes back, the latest revision of a package is never
// skipped and a superseded one is never pending, so ClaimJob never finds
// anything to skip. Without that assumption the skip branch is reached exactly
// when an older version carries a later first_seen_at.
module Freshness {
  import opened Evolution
  import opened Invariants
  import opened Options
  import opened Order
  import opened Packages
  import opened Protocol
  import opened Tables

  // Versions of a package are first seen in the order of their ids.
  ghost predicate SeenInOrder(t: Tables) {
    forall v, w :: v in t.versions && w in t.versions && v < w && t.versions[v].packageId == t.versions[w].packageId
      ==> t.versions[v].firstSeenAt <= t.versions[w].firstSeenAt
  }

  ghost predicate SeenBy(t: Tables, clock: Time) {
    forall v :: v in t.versions ==> t.versions[v].firstSeenAt <= clock
  }

  ghost predicate HasNewer(t: Tables, j: Id) {
    exists k :: Older(t, j, k)
  }

  // A skipped job has been overtaken.
  ghost predicate SkippedIsOld(t: Tables) {
    forall j :: j in t.jobs && t.jobs[j].status == Skipped ==> HasNewer(t, j)
  }

  ghost predicate Fresh(s: System) {
    SeenInOrder(s.db) && SeenBy(s.db, s.clock) && SkippedIsOld(s.db)
  }

  // ---- Latest and newest ----

  // A version is superseded by (first_seen_at, id) exactly when a newer job exists.
  lemma SupersededIsOlder(t: Tables, j: Id)
    requires Consistent(t) && SeenInOrder(t) && j in t.jobs
    ensures Superseded(t, j) <==> HasNewer(t, j)
  {
    var v := t.jobs[j].versionId;
    var p := t.versions[v].packageId;
    if Superseded(t, j) {
      var w :| OfPackage(t, w, p) && w != v && !SeenBefore(t, w, v);
      assert HasJob(t, w);
      var k :| IsJobOf(t, k, w);
      assert w > v;
      assert k > j;
      assert Older(t, j, k);
    }
    if HasNewer(t, j) {
      var k :| Older(t, j, k);
      assert OfPackage(t, t.jobs[k].versionId, p) && !SeenBefore(t, t.jobs[k].versionId, v);
    }
  }

  // With any clock: among jobs that may be pending, the skip branch is taken
  // exactly when an older version of the package was seen strictly later.
  lemma SkipBranch(t: Tables, j: Id)
    requires Consistent(t) && OnlyNewestPending(t) && HasStatus(t, j, Pending)
    ensures Superseded(t, j) <==>
            exists i :: Older(t, i, j)
              && t.versions[t.jobs[i].versionId].firstSeenAt > t.versions[t.jobs[j].versionId].firstSeenAt
  {
    var v := t.jobs[j].versionId;
    var p := t.versions[v].packageId;
    if Superseded(t, j) {
      var w :| OfPackage(t, w, p) && w != v && !SeenBefore(t, w, v);
      assert HasJob(t, w);
      var i :| IsJobOf(t, i, w);
      assert i != j;
      assert i > j ==> Older(t, j, i);
      assert Older(t, i, j);
    }
    if exists i :: Older(t, i, j) && t.versions[t.jobs[i].versionId].firstSeenAt > t.versions[v].firstSeenAt {
      var i :| Older(t, i, j) && t.versions[t.jobs[i].versionId].firstSeenAt > t.versions[v].firstSeenAt;
      assert OfPackage(t, t.jobs[i].versionId, p) && !SeenBefore(t, t.jobs[i].versionId, v);
    }
  }

  // ---- Steps ----

  lemma {:induction false} AddedKeepsFresh(t: Tables, p: Id, revision: string, now: Time, s: Tables, clock: Time)
    requires Consistent(t) && SeenInOrder(t) && SeenBy(t, clock) && SkippedIsOld(t) && now >= clock
    requires VersionAdded(t, p, revision, now, s) && s.versions[t.nextVersion].firstSeenAt == now
    ensures SeenInOrder(s) && SeenBy(s, now) && SkippedIsOld(s)
  {
    forall j | j in s.jobs && s.jobs[j].status == Skipped ensures HasNewer(s, j) {
      if t.jobs[j].status == Skipped {
        var k :| Older(t, j, k);
        assert Older(s, j, k);
      } else {
        assert Older(s, j, t.nextJob);
      }
    }
  }

  lemma {:induction false} AcceptKeepsFresh(s: System, info: PackageInfo, revision: string, digest: string,
                                            eligibleAt: Time, now: Time)
    requires Inv(s) && Fresh(s) && now >= s.clock
    ensures Fresh(s.(db := Accepted(s, info, revision, digest, eligibleAt, now), clock := now))
  {
    var t, p, path := s.db, PackageId(s.db, info.name), SnapshotPath(info.kind, info.name, revision);
    var t1 := WithPackage(t, p, info, path);
    var after := Accepted(s, info, revision, digest, eligibleAt, now);
    AcceptCases(s, info, revision, digest, eligibleAt, now);
    assert SkippedIsOld(t1) by {
      forall j | j in t1.jobs && t1.jobs[j].status == Skipped ensures HasNewer(t1, j) {
        var k :| Older(t, j, k);
        assert Older(t1, j, k);
      }
    }
    if after != t && !HasVersion(t1, p, revision) {
      assert after.versions[t1.nextVersion].firstSeenAt == now;
      AddedKeepsFresh(t1, p, revision, now, after, s.clock);
    }
  }

  // Rows move without becoming skipped, or the job that is skipped is old.
  lemma RowsKeepFresh(s: System, db: Tables, clock: Time)
    requires Fresh(s) && clock >= s.clock
    requires db.versions == s.db.versions && db.jobs.Keys == s.db.jobs.Keys
    requires forall j :: j in db.jobs ==> db.jobs[j].versionId == s.db.jobs[j].versionId
    requires forall j :: j in db.jobs && db.jobs[j].status == Skipped ==>
               s.db.jobs[j].status == Skipped || HasNewer(s.db, j)
    ensures SeenInOrder(db) && SeenBy(db, clock) && SkippedIsOld(db)
  {
    forall j | j in db.jobs && db.jobs[j].status == Skipped ensures HasNewer(db, j) {
      var k :| Older(s.db, j, k);
      assert Older(db, j, k);
    }
  }

  lemma {:induction false} ClaimKeepsFresh(s: System, now: Time)
    requires Inv(s) && Fresh(s) && s.worker == None && now >= s.clock
    ensures Fresh(Claimed(s, now).(clock := now))
    ensures FirstJob(s.db, now).Some? ==> !Superseded(s.db, FirstJob(s.db, now).value)
  {
    match FirstJob(s.db, now)
    case None =>
    case Some(j) =>
      SupersededIsOlder(s.db, j);
      RowsKeepFresh(s, Claimed(s, now).db, now);
  }

  lemma {:induction false} RemoveKeepsFresh(s: System, name: string, now: Time)
    requires Inv(s) && Fresh(s) && now >= s.clock
    ensures Fresh(s.(db := Removed(s.db, name), clock := now))
  {
    var r := Removed(s.db, name);
    forall j | j in r.jobs && r.jobs[j].status == Skipped ensures HasNewer(r, j) {
      var k :| Older(s.db, j, k);
      assert Older(r, j, k);
    }
  }

  lemma {:induction false} StepKeepsFresh(s: System, stamp: Stamp)
    requires Inv(s) && Fresh(s) && Enabled(s, stamp.event) && stamp.now >= s.clock
    ensures Fresh(Step(s, stamp))
  {
    hide Inv, Accepted, Claimed, Removed, WithMark, WithArtifacts;
    var now := stamp.now;
    if MarksOnly(stamp.event) {
      MarksChange(s, stamp);
    }
    match stamp.event
    case AcceptLocal(info, contents) => AcceptKeepsFresh(s, info, contents, contents, now, now);
    case AcceptAur(info, commit, contents, commitTime, delay) =>
      AcceptKeepsFresh(s, info, commit, contents, EligibleAtFromCommit(commitTime, delay, now), now);
    case Claim => ClaimKeepsFresh(s, now);
    case Remove(name) => RemoveKeepsFresh(s, name, now);
    case _ => RowsKeepFresh(s, Step(s, stamp).db, now);
  }

  lemma {:induction false} AlwaysFresh(s: System, run: seq<Stamp>, m: nat)
    requires Initial(s) && Legal(s, run) && Forward(s, run) && m <= |run|
    ensures Inv(At(s, run, m)) && Fresh(At(s, run, m))
  {
    InitialIsInv(s);
    if m == 0 {
      assert At(s, run, 0) == s;
    } else {
      hide Inv, Fresh, Step;
      AlwaysFresh(s, run, m - 1);
      AtStep(s, run, m - 1);
      StepKeeps(At(s, run, m - 1), run[m - 1]);
      StepKeepsFresh(At(s, run, m - 1), run[m - 1]);
    }
  }

  // In every reachable state a superseded job is not pending, the latest is not
  // skipped, and a package has at most one pending job.
  lemma {:induction false} LatestIsNeverLost(s: System, run: seq<Stamp>, m: nat, j: Id)
    requires Initial(s) && Legal(s, run) && Forward(s, run) && m <= |run|
    requires j in At(s, run, m).db.jobs
    ensures var t := At(s, run, m).db;
            && (Superseded(t, j) ==> t.jobs[j].status != Pending)
            && (!Superseded(t, j) ==> t.jobs[j].status != Skipped)
            && (t.jobs[j].status == Pending ==>
                  forall k :: Older(t, j, k) || Older(t, k, j) ==> t.jobs[k].status != Pending)
  {
    AlwaysFresh(s, run, m);
    SupersededIsOlder(At(s, run, m).db, j);
    if HasNewer(At(s, run, m).db, j) {
      var k :| Older(At(s, run, m).db, j, k);
    }
  }

  // A claim of a forward run always starts a build of its package's latest version.
  lemma {:induction false} ClaimNeverSkips(s: System, run: seq<Stamp>, m: nat)
    requires Initial(s) && Legal(s, run) && Forward(s, run) && m < |run| && run[m].event.Claim?
    ensures var t := At(s, run, m).db;
            match FirstJob(t, run[m].now)
            case None => At(s, run, m + 1).worker == None
            case Some(j) => !Superseded(t, j) && Resolves(t, j) && At(s, run, m + 1).worker == Some(j)
  {
    AlwaysFresh(s, run, m);
    AtStep(s, run, m);
    ClaimKeepsFresh(At(s, run, m), run[m].now);
  }
}
