// Runs from an empty database that show what the code does not promise: a
// withdrawn revision is built, a claim hands out the source of another
// version, an earlier version is published over a later one, and a package
// cannot be removed any more.
module Counterexamples {
  import opened Abandoned
  import opened Creation
  import opened Database
  import opened Evolution
  import opened Invariants
  import opened Options
  import opened Order
  import opened OrderLimits
  import opened Packages
  import opened Polling
  import opened Protocol
  import opened SourcePaths
  import opened Tables

  function DueAt(preview: Preview, delay: Time, now: Time): Time
    requires preview.commitTime.Some?
  {
    EligibleAtFromCommit(preview.commitTime.value, delay, now)
  }

  ghost function AfterAccept(s: System, preview: Preview, delay: Time, now: Time): System
    requires preview.info.kind == Aur && preview.commitTime.Some?
  {
    Step(s, AcceptOf(preview, delay, now))
  }

  // Two AUR previews of one package with different commits.
  ghost predicate Revisions(first: Preview, second: Preview) {
    && first.info.name == second.info.name && first.info.kind == Aur && second.info.kind == Aur
    && DistinctNames(first.info.dependencies) && DistinctNames(second.info.dependencies)
    && first.commit != second.commit && first.commitTime.Some? && second.commitTime.Some?
  }

  // ---- The first two accepts ----

  // Accepting an unknown revision.
  lemma {:induction false} AcceptOnce(s: System, preview: Preview, delay: Time, now: Time)
    requires Inv(s) && preview.info.kind == Aur && preview.commitTime.Some?
    requires DistinctNames(preview.info.dependencies)
    requires !HasVersion(s.db, PackageId(s.db, preview.info.name), preview.commit)
    ensures var p := PackageId(s.db, preview.info.name);
            var t := WithPackage(s.db, p, preview.info, SnapshotPath(Aur, preview.info.name, preview.commit));
            var r := AfterAccept(s, preview, delay, now);
            && VersionAdded(t, p, preview.commit, now, r.db)
            && r.db.versions[t.nextVersion].firstSeenAt == now
            && r.db.jobs[t.nextJob].eligibleAt == DueAt(preview, delay, now)
            && r.worker == s.worker && r.batch == s.batch
            && t.nextVersion == s.db.nextVersion && t.nextJob == s.db.nextJob
  {
    NewRevision(s.db, preview.info, SnapshotPath(Aur, preview.info.name, preview.commit), preview.commit,
                preview.digest, DueAt(preview, delay, now), now);
  }

  // One version of one package and its job.
  ghost predicate One(t: Tables, name: string, a: string, status: Status, due: Time, now: Time) {
    && t.packages.Keys == {1} && IsPackage(t, 1, name) && t.nextVersion == 2 && t.nextJob == 2
    && t.versions.Keys == {1} && t.jobs.Keys == {1}
    && IsVersion(t, 1, 1, a) && t.versions[1].firstSeenAt == now
    && t.jobs[1].status == status && t.jobs[1].versionId == 1 && t.jobs[1].eligibleAt == due
  }

  // Two versions of one package and their jobs.
  ghost predicate Two(t: Tables, name: string, a: string, b: string, x: Status, y: Status, due: Time, now: Time) {
    && t.packages.Keys == {1} && IsPackage(t, 1, name)
    && t.versions.Keys == {1, 2} && t.jobs.Keys == {1, 2}
    && IsVersion(t, 1, 1, a) && IsVersion(t, 2, 1, b)
    && t.versions[1].firstSeenAt == now && t.versions[2].firstSeenAt == now
    && t.jobs[1].status == x && t.jobs[2].status == y
    && t.jobs[1].versionId == 1 && t.jobs[2].versionId == 2 && t.jobs[2].eligibleAt == due
  }

  lemma NothingStored(t: Tables, name: string, revision: string)
    requires t == EMPTY_TABLES
    ensures PackageId(t, name) == 1 && !HasVersion(t, 1, revision)
  {
  }

  lemma OneMeans(t: Tables, name: string, a: string, status: Status, due: Time, now: Time)
    requires One(t, name, a, status, due, now)
    ensures PackageId(t, name) == 1
    ensures forall r :: HasVersion(t, 1, r) <==> r == a
  {
    assert IsPackage(t, 1, name) && IsVersion(t, 1, 1, a);
  }

  lemma FirstRows(s: System, t: Tables, first: Preview, due: Time, now: Time)
    requires Initial(s)
    requires var u := WithPackage(s.db, 1, first.info, SnapshotPath(Aur, first.info.name, first.commit));
             && VersionAdded(u, 1, first.commit, now, t) && t.versions[u.nextVersion].firstSeenAt == now
             && t.jobs[u.nextJob].eligibleAt == due
    ensures One(t, first.info.name, first.commit, Pending, due, now)
  {
  }

  lemma SecondRows(t: Tables, r: Tables, first: Preview, second: Preview, x: Status, before: Time, due: Time, now: Time)
    requires One(t, first.info.name, first.commit, x, before, now) && first.info.name == second.info.name
    requires var u := WithPackage(t, 1, second.info, SnapshotPath(Aur, second.info.name, second.commit));
             && VersionAdded(u, 1, second.commit, now, r) && r.versions[u.nextVersion].firstSeenAt == now
             && r.jobs[u.nextJob].eligibleAt == due
    ensures Two(r, first.info.name, first.commit, second.commit, if x == Pending then Skipped else x, Pending, due, now)
  {
  }

  lemma {:induction false} FirstAccept(s: System, first: Preview, delay: Time, now: Time)
    requires Initial(s) && first.info.kind == Aur && DistinctNames(first.info.dependencies) && first.commitTime.Some?
    ensures var r := AfterAccept(s, first, delay, now);
            && Inv(r) && r.worker == None && r.batch == []
            && One(r.db, first.info.name, first.commit, Pending, DueAt(first, delay, now), now)
  {
    hide Step, Inv, VersionAdded, One, HasVersion, PackageId, WithPackage;
    InitialIsInv(s);
    StepKeeps(s, AcceptOf(first, delay, now));
    NothingStored(s.db, first.info.name, first.commit);
    AcceptOnce(s, first, delay, now);
    FirstRows(s, Step(s, AcceptOf(first, delay, now)).db, first, DueAt(first, delay, now), now);
  }

  lemma {:induction false} SecondAccept(s: System, first: Preview, second: Preview, x: Status, due: Time, delay: Time,
                                        now: Time)
    requires Inv(s) && Revisions(first, second) && One(s.db, first.info.name, first.commit, x, due, now)
    ensures var r := AfterAccept(s, second, delay, now);
            && Inv(r) && r.worker == s.worker && r.batch == s.batch
            && Two(r.db, first.info.name, first.commit, second.commit, if x == Pending then Skipped else x, Pending,
                   DueAt(second, delay, now), now)
  {
    hide Step, Inv, VersionAdded, One, Two, HasVersion, PackageId, WithPackage;
    StepKeeps(s, AcceptOf(second, delay, now));
    OneMeans(s.db, first.info.name, first.commit, x, due, now);
    AcceptOnce(s, second, delay, now);
    SecondRows(s.db, Step(s, AcceptOf(second, delay, now)).db, first, second, x, due, DueAt(second, delay, now), now);
  }

  lemma {:induction false} TwoAccepted(s: System, first: Preview, second: Preview, delay: Time, now: Time)
    requires Initial(s) && Revisions(first, second)
    ensures var run := [AcceptOf(first, delay, now), AcceptOf(second, delay, now)];
            && Legal(s, run) && Inv(Final(s, run)) && Final(s, run).worker == None
            && Two(Final(s, run).db, first.info.name, first.commit, second.commit, Skipped, Pending,
                   DueAt(second, delay, now), now)
  {
    hide Step, Inv, One, Two;
    var a1, a2 := AcceptOf(first, delay, now), AcceptOf(second, delay, now);
    FirstAccept(s, first, delay, now);
    SecondAccept(Step(s, a1), first, second, Pending, DueAt(first, delay, now), delay, now);
    OneStep(s, a1);
    OneMore(s, [a1], a2);
    assert [a1, a2] == [a1] + [a2];
  }

  lemma SecondIsFirst(t: Tables, name: string, a: string, b: string, x: Status, due: Time, now: Time, later: Time)
    requires Two(t, name, a, b, x, Pending, due, now) && x != Pending && later >= due
    ensures FirstJob(t, later) == Some(2) && !Superseded(t, 2) && Resolves(t, 2)
    ensures HasPackage(t, name) && PackageId(t, name) == 1 && HasVersion(t, 1, a)
    ensures t.jobs[2].versionId in t.versions && t.versions[t.jobs[2].versionId].revision == b
  {
    assert Eligible(t, 2, later);
    assert forall k :: Eligible(t, k, later) ==> k == 2;
    assert IsFirst(t, 2, later);
    assert OfPackage(t, 2, 1) && IsLatest(t, 2, 1);
    assert IsVersion(t, 1, 1, a) && IsPackage(t, 1, name);
  }

  // ---- A withdrawn revision is still built ----

  // Two revisions of a package have been accepted from scratch, the second
  // one withdrawn by going back to the first. The poll changes nothing, and
  // the next claim builds the withdrawn revision.
  lemma {:induction false} WithdrawnIsBuilt(s: System, first: Preview, second: Preview, delay: Time, now: Time,
                                            later: Time)
    requires Initial(s) && Revisions(first, second) && later >= DueAt(second, delay, now)
    ensures var run := [AcceptOf(first, delay, now), AcceptOf(second, delay, now)];
            && Legal(s, run)
            && var a := Final(s, run);
               && Polled(a.db, 1, Some(first.commit), Some(first), delay, later) == a.db
               && FirstJob(a.db, later) == Some(2)
               && Claimed(a, later).worker == Some(2)
               && a.db.versions[a.db.jobs[2].versionId].revision == second.commit
  {
    hide Inv, Two, FirstJob;
    TwoAccepted(s, first, second, delay, now);
    var a := Final(s, [AcceptOf(first, delay, now), AcceptOf(second, delay, now)]);
    SecondIsFirst(a.db, first.info.name, first.commit, second.commit, Skipped, DueAt(second, delay, now), now, later);
  }

  // ---- A claim hands out the source of another version ----

  lemma AcceptAgain(s: System, preview: Preview, delay: Time, now: Time)
    requires Inv(s) && preview.info.kind == Aur && preview.commitTime.Some?
    requires HasPackage(s.db, preview.info.name) && HasVersion(s.db, PackageId(s.db, preview.info.name), preview.commit)
    ensures var p, path := PackageId(s.db, preview.info.name), SnapshotPath(Aur, preview.info.name, preview.commit);
            Step(s, AcceptOf(preview, delay, now)).db
            == s.db.(packages := s.db.packages[p := Package(preview.info.name, Aur, preview.info.ref, path)])
  {
    KnownRevision(s.db, preview.info, SnapshotPath(Aur, preview.info.name, preview.commit), preview.commit,
                  preview.digest, DueAt(preview, delay, now), now);
  }

  lemma AnswersSecond(t: Tables, r: Tables, first: Preview, second: Preview, due: Time, now: Time, later: Time,
                      claim: Claim)
    requires Two(t, first.info.name, first.commit, second.commit, Skipped, Pending, due, now) && later >= due
    requires var path := SnapshotPath(Aur, first.info.name, first.commit);
             r == t.(packages := t.packages[1 := Package(first.info.name, Aur, first.info.ref, path)])
    ensures IsVersion(r, 2, 1, second.commit)
    ensures Answers(r, later, claim) <==>
            claim == Claim.Claim(2, first.info.name, SnapshotPath(Aur, first.info.name, first.commit), 2)
  {
    hide SnapshotPath;
    assert Two(r, first.info.name, first.commit, second.commit, Skipped, Pending, due, now);
    SecondIsFirst(r, first.info.name, first.commit, second.commit, Skipped, due, now, later);
    assert forall k :: Eligible(r, k, later) <==> k == 2;
    assert IsWinner(r, 2, later) && forall k :: IsWinner(r, k, later) ==> k == 2;
  }

  // Accepting the first revision once more points the package at its source,
  // but the job that the next claim answers with is of the second version.
  lemma {:induction false} WrongSource(s: System, first: Preview, second: Preview, delay: Time, now: Time,
                                       later: Time, claim: Claim)
    requires Initial(s) && Revisions(first, second) && later >= DueAt(second, delay, now)
    ensures var run := [AcceptOf(first, delay, now), AcceptOf(second, delay, now), AcceptOf(first, delay, later)];
            && Legal(s, run)
            && var t := Final(s, run).db;
               && IsVersion(t, 2, 1, second.commit)
               && (Answers(t, later, claim) <==>
                   claim == Claim.Claim(2, first.info.name, SnapshotPath(Aur, first.info.name, first.commit), 2))
    ensures SnapshotPath(Aur, first.info.name, first.commit) != SnapshotPath(Aur, first.info.name, second.commit)
  {
    hide Step, Inv, Two, FirstJob, Answers;
    var a1, a2, a3 := AcceptOf(first, delay, now), AcceptOf(second, delay, now), AcceptOf(first, delay, later);
    TwoAccepted(s, first, second, delay, now);
    var a := Final(s, [a1, a2]);
    SecondIsFirst(a.db, first.info.name, first.commit, second.commit, Skipped, DueAt(second, delay, now), now, later);
    OneMore(s, [a1, a2], a3);
    assert [a1, a2, a3] == [a1, a2] + [a3];
    AcceptAgain(a, first, delay, later);
    AnswersSecond(a.db, Step(a, a3).db, first, second, DueAt(second, delay, now), now, later, claim);
    SnapshotPathsDiffer(Aur, Aur, first.info.name, first.commit, second.commit);
  }

  // ---- An earlier version is published over a later one ----

  lemma {:induction false} ClaimFirst(s: System, name: string, a: string, due: Time, now: Time)
    requires One(s.db, name, a, Pending, due, now) && s.worker == None && due <= now
    ensures var r := Step(s, Stamp(now, Event.Claim));
            One(r.db, name, a, Running, due, now) && r.worker == Some(1) && r.batch == s.batch
  {
    var t := s.db;
    assert Eligible(t, 1, now) && forall k :: Eligible(t, k, now) ==> k == 1;
    assert IsFirst(t, 1, now);
    assert OfPackage(t, 1, 1) && IsLatest(t, 1, 1);
    assert FirstJob(t, now) == Some(1) && !Superseded(t, 1) && Resolves(t, 1);
  }

  lemma BuildFirst(s: System, name: string, a: string, due: Time, now: Time)
    requires One(s.db, name, a, Running, due, now) && s.worker == Some(1)
    ensures var r := Step(s, Stamp(now, BuildOk("")));
            One(r.db, name, a, Built, due, now) && r.worker == None && r.batch == s.batch
  {
  }

  lemma {:induction false} ClaimSecond(s: System, name: string, a: string, b: string, due: Time, now: Time)
    requires Two(s.db, name, a, b, Built, Pending, due, now) && s.worker == None && due <= now
    ensures var r := Step(s, Stamp(now, Event.Claim));
            Two(r.db, name, a, b, Built, Running, due, now) && r.worker == Some(2) && r.batch == s.batch
  {
    hide FirstJob;
    SecondIsFirst(s.db, name, a, b, Built, due, now, now);
  }

  lemma BuildSecond(s: System, name: string, a: string, b: string, due: Time, now: Time)
    requires Two(s.db, name, a, b, Built, Running, due, now) && s.worker == Some(2)
    ensures var r := Step(s, Stamp(now, BuildOk("")));
            Two(r.db, name, a, b, Built, Built, due, now) && r.worker == None && r.batch == s.batch
  {
  }

  lemma ReadBoth(s: System, name: string, a: string, b: string, due: Time, now: Time)
    requires Two(s.db, name, a, b, Built, Built, due, now) && s.batch == []
    ensures var stamp := Stamp(now, ReadBatch([1, 2]));
            && Enabled(s, stamp.event)
            && var r := Step(s, stamp);
               r.db == s.db && AtJob(r) && !LossIsHarmless(r)
  {
    var r := Step(s, Stamp(now, ReadBatch([1, 2])));
    assert Older(s.db, 1, 2);
    assert [1, 2][1..] == [2];
  }

  // Two revisions built one after the other, and both read in one batch.
  function BothBuilt(first: Preview, second: Preview, delay: Time, now: Time): seq<Stamp>
    requires first.commitTime.Some? && second.commitTime.Some?
  {
    var claim, built := Stamp(now, Event.Claim), Stamp(now, BuildOk(""));
    [AcceptOf(first, delay, now)] + [claim] + [built] + [AcceptOf(second, delay, now)] + [claim] + [built]
    + [Stamp(now, ReadBatch([1, 2]))]
  }

  lemma {:induction false} NothingLostInOrder(s: System, run: seq<Stamp>)
    requires Inv(s) && InOrder(s) && Legal(s, run) && NoLoss(run)
    ensures Inv(Final(s, run)) && InOrder(Final(s, run))
  {
    hide Inv, InOrder, Legal, Final, Step;
    AlwaysInOrder(s, run, |run|);
    RunKeeps(s, run);
    assert run[..|run|] == run;
  }

  // The run is legal and ends where a lost failure mark does harm.
  lemma {:induction false} HarmIsReachable(s: System, first: Preview, second: Preview, delay: Time, now: Time)
    requires Initial(s) && Revisions(first, second)
    requires DueAt(first, delay, now) == now && DueAt(second, delay, now) == now
    ensures var run := BothBuilt(first, second, delay, now);
            && Legal(s, run)
            && var a := Final(s, run); Inv(a) && InOrder(a) && AtJob(a) && !LossIsHarmless(a)
  {
    hide Step, Inv, InOrder, Initial, One, Two, AtJob, LossIsHarmless;
    var name, a, b := first.info.name, first.commit, second.commit;
    var claim, built := Stamp(now, Event.Claim), Stamp(now, BuildOk(""));
    var accept1, accept2 := AcceptOf(first, delay, now), AcceptOf(second, delay, now);
    FirstAccept(s, first, delay, now);
    OneStep(s, accept1);
    var s1, run1 := Step(s, accept1), [accept1];
    ClaimFirst(s1, name, a, now, now);
    OneMore(s, run1, claim);
    StepKeeps(s1, claim);
    var s2, run2 := Step(s1, claim), run1 + [claim];
    BuildFirst(s2, name, a, now, now);
    OneMore(s, run2, built);
    StepKeeps(s2, built);
    var s3, run3 := Step(s2, built), run2 + [built];
    SecondAccept(s3, first, second, Built, now, delay, now);
    OneMore(s, run3, accept2);
    var s4, run4 := Step(s3, accept2), run3 + [accept2];
    ClaimSecond(s4, name, a, b, now, now);
    OneMore(s, run4, claim);
    var s5, run5 := Step(s4, claim), run4 + [claim];
    BuildSecond(s5, name, a, b, now, now);
    OneMore(s, run5, built);
    var s6, run6 := Step(s5, built), run5 + [built];
    ReadBoth(s6, name, a, b, now, now);
    OneMore(s, run6, Stamp(now, ReadBatch([1, 2])));
    InitialInOrder(s);
    var run := BothBuilt(first, second, delay, now);
    assert run == run6 + [Stamp(now, ReadBatch([1, 2]))];
    NothingLostInOrder(s, run);
  }

  ghost predicate Reverses(s: System, run: seq<Stamp>, i: nat, m: nat, j: Id, k: Id) {
    Legal(s, run) && OutOfOrder(s, run, i, m, j, k)
  }

  lemma {:induction false} AtJoined(s: System, front: seq<Stamp>, run: seq<Stamp>, i: nat)
    requires Legal(s, front) && Legal(Final(s, front), run) && i <= |run|
    ensures Legal(s, front + run) && At(s, front + run, |front| + i) == At(Final(s, front), run, i)
  {
    hide Step, Enabled;
    LegalConcat(s, front, run);
    LegalPrefix(Final(s, front), run, i);
    LegalConcat(s, front, run[..i]);
    assert (front + run)[..|front| + i] == front + run[..i];
  }

  lemma LossIsEnabled(s: System, lost: Stamp)
    requires AtJob(s) && lost.event.PublishLost?
    ensures Enabled(s, lost.event)
  {
  }

  // From an empty database the publisher can put an earlier version of a
  // package over a later one.
  lemma OrderCanBreak(s: System, first: Preview, second: Preview, delay: Time, now: Time)
    requires Initial(s) && Revisions(first, second)
    requires DueAt(first, delay, now) == now && DueAt(second, delay, now) == now
    ensures exists run: seq<Stamp>, i: nat, m: nat, j: Id, k: Id :: Reverses(s, run, i, m, j, k)
  {
    hide Step, Inv, InOrder, Initial, Legal, Final, Enabled, AtJob, LossIsHarmless, BothBuilt;
    var front, lost := BothBuilt(first, second, delay, now), Stamp(now, PublishLost(map[]));
    HarmIsReachable(s, first, second, delay, now);
    LossExactly(Final(s, front), map[], now);
    LossIsEnabled(Final(s, front), lost);
    OneMore(s, front, lost);
    var run: seq<Stamp>, i: nat, m: nat, j: Id, k: Id :| Breaks(Final(s, front + [lost]), run, i, m, j, k);
    var n := |front + [lost]|;
    AtJoined(s, front + [lost], run, i);
    AtJoined(s, front + [lost], run, m);
    AtJoined(s, front + [lost], run, m + 1);
    assert (front + [lost] + run)[n + m] == run[m];
    assert Reverses(s, front + [lost] + run, n + i, n + m, j, k);
  }

  // ---- A package that cannot be removed any more ----

  // The worker dies while it builds the first revision.
  function DiesBuilding(first: Preview, delay: Time, now: Time): seq<Stamp>
    requires first.commitTime.Some?
  {
    [AcceptOf(first, delay, now)] + [Stamp(now, Event.Claim)] + [Stamp(now, WorkerRestart)]
  }

  lemma Restarted(s: System, name: string, a: string, now: Time)
    requires One(s.db, name, a, Running, now, now)
    ensures var r := Step(s, Stamp(now, WorkerRestart)); r.db == s.db && IsAbandoned(r, 1)
  {
  }

  lemma {:induction false} RestartAbandons(s: System, first: Preview, delay: Time, now: Time)
    requires Initial(s) && first.info.kind == Aur && DistinctNames(first.info.dependencies) && first.commitTime.Some?
    requires DueAt(first, delay, now) == now
    ensures var run := DiesBuilding(first, delay, now);
            Legal(s, run) && One(Final(s, run).db, first.info.name, first.commit, Running, now, now)
            && IsAbandoned(Final(s, run), 1)
  {
    hide Step, Inv, One, Initial;
    var accept, claim, restart := AcceptOf(first, delay, now), Stamp(now, Event.Claim), Stamp(now, WorkerRestart);
    FirstAccept(s, first, delay, now);
    OneStep(s, accept);
    var s1 := Step(s, accept);
    ClaimFirst(s1, first.info.name, first.commit, now, now);
    OneMore(s, [accept], claim);
    OneMore(s, [accept] + [claim], restart);
    Restarted(Step(s1, claim), first.info.name, first.commit, now);
  }

  // Whatever happens after that, the package is still there and its removal
  // is refused.
  lemma {:induction false} RemovalBlocked(s: System, first: Preview, delay: Time, now: Time, more: seq<Stamp>)
    requires Initial(s) && first.info.kind == Aur && DistinctNames(first.info.dependencies) && first.commitTime.Some?
    requires DueAt(first, delay, now) == now
    requires Legal(s, DiesBuilding(first, delay, now) + more)
    ensures var t := Final(s, DiesBuilding(first, delay, now) + more).db;
            IsPackage(t, 1, first.info.name) && Removed(t, first.info.name) == t
  {
    hide Step, Inv, Initial, Legal, Final, IsAbandoned, DiesBuilding;
    var front := DiesBuilding(first, delay, now);
    var run := front + more;
    RestartAbandons(s, first, delay, now);
    assert run[..|front|] == front && run[..|run|] == run;
    NeverRemoved(s, run, |front|, |run|, 1);
  }
}
