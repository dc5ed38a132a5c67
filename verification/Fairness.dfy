// With a clock that never goes back the queue is fair: nothing created after a
// job became eligible is claimed before it, and it waits for at most as many
// claims as there were pending jobs ahead of it. The update delay holds
// whatever happens in between.
module Fairness {
  import opened Evolution
  import opened Invariants
  import opened Options
  import opened Order
  import opened Packages
  import opened Protocol
  import opened Sets
  import opened Tables

  // Jobs with an id the counter had yet to give out are due no earlier than the clock.
  ghost predicate NewcomersDue(t: Tables, newcomers: Id, clock: Time) {
    forall k :: k in t.jobs && k >= newcomers ==> t.jobs[k].eligibleAt >= clock
  }

  // An accept gives its job a due time no earlier than the instant of the accept.
  lemma AcceptDue(s: System, info: PackageInfo, revision: string, digest: string, eligibleAt: Time, now: Time)
    requires Inv(s)
    ensures var after := Accepted(s, info, revision, digest, eligibleAt, now);
            forall j :: j in after.jobs && j >= s.db.nextJob ==> after.jobs[j].eligibleAt == eligibleAt
  {
  }

  lemma {:induction false} StepDue(s: System, stamp: Stamp, newcomers: Id, clock: Time)
    requires Inv(s) && Enabled(s, stamp.event) && stamp.now >= clock
    requires NewcomersDue(s.db, newcomers, clock)
    ensures NewcomersDue(Step(s, stamp).db, newcomers, clock)
  {
    hide Inv, Accepted, Claimed, Removed, WithMark, WithArtifacts, RowsMoved;
    StepEvolves(s, stamp);
    InvIsConsistent(s);
    if !Accepts(stamp.event) {
      OnlyAcceptsAddJobs(s, stamp);
    }
    match stamp.event
    case AcceptLocal(info, contents) => AcceptDue(s, info, contents, contents, stamp.now, stamp.now);
    case AcceptAur(info, commit, contents, commitTime, delay) =>
      AcceptDue(s, info, commit, contents, EligibleAtFromCommit(commitTime, delay, stamp.now), stamp.now);
    case _ =>
  }

  lemma {:induction false} ClockBetween(s: System, run: seq<Stamp>, i: nat, m: nat)
    requires Legal(s, run) && Forward(s, run) && i <= m <= |run|
    ensures At(s, run, i).clock <= At(s, run, m).clock
    ensures m < |run| ==> run[m].now >= At(s, run, i).clock
  {
    if i < m {
      ClockBetween(s, run, i, m - 1);
      AtStep(s, run, m - 1);
    }
    if m < |run| {
      AtStep(s, run, m);
    }
  }

  lemma NoNewcomers(s: System)
    requires Inv(s)
    ensures NewcomersDue(s.db, s.db.nextJob, s.clock)
  {
  }

  lemma {:induction false} DueBetween(s: System, run: seq<Stamp>, i: nat, m: nat)
    requires Inv(s) && Legal(s, run) && Forward(s, run) && i <= m <= |run|
    ensures NewcomersDue(At(s, run, m).db, At(s, run, i).db.nextJob, At(s, run, i).clock)
  {
    hide Inv, Evolved, Step, Enabled, Legal, Final, Forward;
    Between(s, run, i, m);
    if i == m {
      NoNewcomers(At(s, run, i));
    } else {
      DueBetween(s, run, i, m - 1);
      Between(s, run, i, m - 1);
      ClockBetween(s, run, i, m - 1);
      AtStep(s, run, m - 1);
      StepDue(At(s, run, m - 1), run[m - 1], At(s, run, i).db.nextJob, At(s, run, i).clock);
    }
  }

  // The job is pending and due.
  ghost predicate Waits(s: System, j: Id) {
    HasStatus(s.db, j, Pending) && s.db.jobs[j].eligibleAt <= s.clock
  }

  // Step m takes job k out of the pending jobs by a claim transaction.
  ghost predicate Takes(s: System, run: seq<Stamp>, m: nat, k: Id)
    requires Legal(s, run) && m < |run|
  {
    run[m].event.Claim? && FirstJob(At(s, run, m).db, run[m].now) == Some(k)
  }

  // A job that waits is not overtaken by a job created later.
  lemma {:induction false} NoOvertaking(s: System, run: seq<Stamp>, i: nat, m: nat, j: Id, k: Id)
    requires Initial(s) && Legal(s, run) && Forward(s, run) && i <= m < |run|
    requires Waits(At(s, run, i), j) && HasStatus(At(s, run, m).db, j, Pending)
    requires k >= At(s, run, i).db.nextJob
    ensures !Takes(s, run, m, k)
  {
    InitialIsInv(s);
    Between(s, run, i, m);
    DueBetween(s, run, i, m);
    ClockBetween(s, run, i, m);
    var t := At(s, run, m).db;
    assert Onward(At(s, run, i).db.jobs[j], t.jobs[j]);
    assert Eligible(t, j, run[m].now);
  }

  // ---- Bounded wait ----

  // Pending jobs that are served before j.
  ghost function Ahead(t: Tables, j: Id): set<Id>
    requires j in t.jobs
  {
    set k | k in t.jobs && t.jobs[k].status == Pending && DueBefore(t, k, j)
  }

  predicate TakesOne(e: Event, first: Option<Id>) {
    e.Claim? && first.Some?
  }

  // Claim transactions of the steps from i to m that found a job.
  ghost function Claims(s: System, run: seq<Stamp>, i: nat, m: nat): nat
    requires Legal(s, run) && i <= m <= |run|
  {
    if i == m then 0
    else Claims(s, run, i, m - 1)
         + if TakesOne(run[m - 1].event, FirstJob(At(s, run, m - 1).db, run[m - 1].now)) then 1 else 0
  }

  // A step lets nobody slip in ahead of j.
  lemma {:induction false} AheadShrinks(s: System, stamp: Stamp, j: Id)
    requires Inv(s) && Enabled(s, stamp.event)
    requires HasStatus(s.db, j, Pending) && HasStatus(Step(s, stamp).db, j, Pending)
    requires NewcomersDue(Step(s, stamp).db, s.db.nextJob, s.db.jobs[j].eligibleAt)
    ensures Ahead(Step(s, stamp).db, j) <= Ahead(s.db, j)
  {
    StepEvolves(s, stamp);
    var r := Step(s, stamp);
    forall k | k in Ahead(r.db, j) ensures k in Ahead(s.db, j) {
      assert Onward(s.db.jobs[j], r.db.jobs[j]);
      assert k < s.db.nextJob ==> Moved(s.db.jobs[k], r.db.jobs[k]);
    }
  }

  // A claim takes one of those ahead of j, or j itself.
  lemma ClaimTakesAhead(s: System, now: Time, j: Id, x: Id)
    requires Inv(s) && s.worker == None && Eligible(s.db, j, now)
    requires FirstJob(s.db, now) == Some(x)
    ensures Claimed(s, now).db.jobs[x].status != Pending
    ensures x == j || x in Ahead(s.db, j)
  {
    assert Resolves(s.db, x);
  }

  lemma {:induction false} WaitOneStep(a: System, stamp: Stamp, j: Id)
    requires Inv(a) && Enabled(a, stamp.event)
    requires HasStatus(a.db, j, Pending) && HasStatus(Step(a, stamp).db, j, Pending)
    requires NewcomersDue(Step(a, stamp).db, a.db.nextJob, a.db.jobs[j].eligibleAt)
    requires a.db.jobs[j].eligibleAt <= stamp.now
    ensures |Ahead(Step(a, stamp).db, j)| + (if TakesOne(stamp.event, FirstJob(a.db, stamp.now)) then 1 else 0)
         <= |Ahead(a.db, j)|
  {
    var b := Step(a, stamp);
    AheadShrinks(a, stamp, j);
    SubsetSize(Ahead(b.db, j), Ahead(a.db, j));
    if TakesOne(stamp.event, FirstJob(a.db, stamp.now)) {
      var x := FirstJob(a.db, stamp.now).value;
      ClaimTakesAhead(a, stamp.now, j, x);
      assert x in Ahead(a.db, j) && x !in Ahead(b.db, j);
      SubsetSize(Ahead(b.db, j), Ahead(a.db, j) - {x});
      SmallerWithout(Ahead(a.db, j), x);
    }
  }

  // A job pending at both ends of a stretch was pending in between.
  lemma PendingBefore(i: System, a: System, b: System, j: Id)
    requires Inv(i) && Inv(a) && Inv(b) && Evolved(i.db, a.db) && Evolved(a.db, b.db)
    requires HasStatus(i.db, j, Pending) && HasStatus(b.db, j, Pending)
    ensures HasStatus(a.db, j, Pending) && SameJob(i.db.jobs[j], a.db.jobs[j]) && SameJob(a.db.jobs[j], b.db.jobs[j])
  {
    assert j < i.db.nextJob && j < a.db.nextJob;
    assert Onward(a.db.jobs[j], b.db.jobs[j]);
  }

  // What holds just before a step of the wait.
  lemma {:induction false} StillWaiting(s: System, run: seq<Stamp>, i: nat, m: nat, j: Id)
    requires Inv(s) && Legal(s, run) && Forward(s, run) && i < m <= |run|
    requires Waits(At(s, run, i), j) && HasStatus(At(s, run, m).db, j, Pending)
    ensures var a := At(s, run, m - 1);
            && Inv(a) && HasStatus(a.db, j, Pending) && a.db.jobs[j].eligibleAt <= run[m - 1].now
            && NewcomersDue(At(s, run, m).db, a.db.nextJob, a.db.jobs[j].eligibleAt)
  {
    hide Inv, Legal, Final, Step, Forward, Evolved;
    Between(s, run, i, m - 1);
    Between(s, run, m - 1, m);
    PendingBefore(At(s, run, i), At(s, run, m - 1), At(s, run, m), j);
    DueBetween(s, run, m - 1, m);
    ClockBetween(s, run, i, m - 1);
  }

  // While j stays pending, the claims spend the jobs that were ahead of it.
  lemma {:induction false} WaitIsBounded(s: System, run: seq<Stamp>, i: nat, m: nat, j: Id)
    requires Inv(s) && Legal(s, run) && Forward(s, run) && i <= m <= |run|
    requires Waits(At(s, run, i), j) && HasStatus(At(s, run, m).db, j, Pending)
    ensures Claims(s, run, i, m) + |Ahead(At(s, run, m).db, j)| <= |Ahead(At(s, run, i).db, j)|
  {
    hide Inv, Legal, Final, Step, Forward, Ahead;
    if i < m {
      StillWaiting(s, run, i, m, j);
      AtStep(s, run, m - 1);
      WaitOneStep(At(s, run, m - 1), run[m - 1], j);
      WaitIsBounded(s, run, i, m - 1, j);
    }
  }

  // After as many claims as there were jobs ahead of it, the next claim takes
  // the job: it is pending no more, or its package has been removed.
  lemma {:induction false} ServedInTurn(s: System, run: seq<Stamp>, i: nat, m: nat, j: Id)
    requires Initial(s) && Legal(s, run) && Forward(s, run) && i <= m <= |run|
    requires Waits(At(s, run, i), j) && Claims(s, run, i, m) > |Ahead(At(s, run, i).db, j)|
    ensures !HasStatus(At(s, run, m).db, j, Pending)
  {
    InitialIsInv(s);
    if HasStatus(At(s, run, m).db, j, Pending) {
      WaitIsBounded(s, run, i, m, j);
    }
  }

  // ---- The update delay ----

  // A job accepted from the AUR is never claimed before its commit is as old
  // as the delay in force at that accept.
  lemma {:induction false} DelayHolds(s: System, run: seq<Stamp>, i: nat, m: nat)
    requires Initial(s) && Legal(s, run) && i < m <= |run| && run[i].event.AcceptAur?
    ensures var j, e, jobs := At(s, run, i).db.nextJob, run[i].event, At(s, run, m).db.jobs;
            At(s, run, i + 1).db.nextJob > j && j in jobs && jobs[j].claimedAt.Some?
            ==> jobs[j].claimedAt.value >= e.commitTime + e.delay
  {
    InitialIsInv(s);
    Between(s, run, 0, i);
    Between(s, run, i + 1, m);
    AtStep(s, run, i);
    var e := run[i].event;
    var a, b, c := At(s, run, i), At(s, run, i + 1), At(s, run, m);
    AcceptDue(a, e.info, e.commit, e.contents, EligibleAtFromCommit(e.commitTime, e.delay, run[i].now), run[i].now);
    var j := a.db.nextJob;
    if b.db.nextJob > j && j in c.db.jobs {
      assert Onward(b.db.jobs[j], c.db.jobs[j]);
      assert RowOk(c.db.jobs[j]);
    }
  }
}
