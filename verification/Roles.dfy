// The worker and the publisher as they run (internal/roles.go), call by call.
// Every call is a run of the protocol from the state it finds, so what holds
// of all runs of the protocol holds however the calls interleave with accepts
// and removals.
module Roles {
  import opened Database
  import opened Options
  import opened Protocol
  import opened Publishing
  import opened PublishRestarts
  import opened Sets
  import opened Tables

  // ---- A call of ClaimJob is a run of claim steps ----

  // The job a call of ClaimJob hands to the worker.
  ghost function Won(t: Tables, now: Time): (r: Option<Id>)
    ensures r.Some? ==> IsWinner(t, r.value, now) && Resolves(t, r.value)
    ensures r.None? ==> forall j :: !(IsWinner(t, j, now) && Resolves(t, j))
  {
    if exists j :: IsWinner(t, j, now) && Resolves(t, j) then
      var j: Id :| IsWinner(t, j, now) && Resolves(t, j);
      Some(j)
    else None
  }

  lemma FirstExists(t: Tables, j: Id, now: Time)
    requires Eligible(t, j, now)
    ensures FirstJob(t, now).Some?
  {
    var todo := set k | k in t.jobs && Eligible(t, k, now);
    assert j in todo;
    var x := LeastOf(t, todo);
    assert IsFirst(t, x, now);
  }

  lemma WonIs(t: Tables, now: Time, j: Id)
    requires IsWinner(t, j, now)
    ensures Won(t, now) == if Resolves(t, j) then Some(j) else None
  {
    assert forall k :: IsWinner(t, k, now) ==> k == j;
  }

  lemma StepWhenIdle(s: System, now: Time)
    requires s.worker == None && forall j :: !Eligible(s.db, j, now)
    ensures Claimed(s, now) == s
  {
  }

  lemma StepWhenFirst(s: System, now: Time, j: Id)
    requires s.worker == None && FirstJob(s.db, now) == Some(j)
    ensures Claimed(s, now)
            == s.(db := AfterTurn(s.db, j, now),
                  worker := if !Superseded(s.db, j) && Resolves(s.db, j) then Some(j) else None)
  {
  }

  lemma NoFirst(t: Tables, now: Time)
    requires FirstJob(t, now) == None
    ensures forall j :: !Eligible(t, j, now)
  {
    hide FirstJob;
    forall j ensures !Eligible(t, j, now) {
      if Eligible(t, j, now) {
        FirstExists(t, j, now);
      }
    }
  }

  lemma SkipsResolve(t: Tables, done: set<Id>, now: Time, j: Id)
    ensures Resolves(WithSkips(t, done, now), j) <==> Resolves(t, j)
  {
  }

  lemma NoneWon(t: Tables, now: Time)
    requires forall j :: !IsWinner(t, j, now)
    ensures Won(t, now) == None
  {
  }

  // The remaining transactions of a call that has skipped the jobs in done.
  lemma {:induction false} ClaimRun(t: Tables, done: set<Id>, now: Time, s: System) returns (run: seq<Stamp>)
    requires s.worker == None && Passing(t, done, now) && s.db == WithSkips(t, done, now)
    ensures Legal(s, run) && forall stamp :: stamp in run ==> stamp == Stamp(now, Event.Claim)
    ensures Final(s, run) == System(AfterClaim(t, now), now, Won(t, now), s.batch)
    decreases |t.jobs.Keys - done|
  {
    hide WithSkips, AfterClaim, AfterTurn, Claimed, IsWinner, Passing, Superseded, Resolves;
    hide Won, FirstJob, IsFirst, Eligible;
    var stamp := Stamp(now, Event.Claim);
    OneStep(s, stamp);
    run := [stamp];
    var first := FirstJob(s.db, now);
    SkipsKeepOrder(t, done, now);
    if first.None? {
      NoFirst(s.db, now);
      NothingLeft(t, done, now);
      StepWhenIdle(s, now);
      NoneWon(t, now);
    } else {
      var j := first.value;
      StepWhenFirst(s, now, j);
      SkipsResolve(t, done, now, j);
      if Superseded(s.db, j) {
        TurnPasses(t, done, now, j);
        var rest := ClaimRun(t, done + {j}, now, Step(s, stamp));
        LegalConcat(s, run, rest);
        run := run + rest;
      } else {
        WinnerFound(t, done, now, j);
        WonIs(t, now, j);
      }
    }
  }

  // ---- The calls ----

  datatype Built = BuiltOk | BuildFailed(error: string)

  // The event of the worker's report; a lost mark leaves the worker as a restart does.
  function Report(built: Built, log: string, marks: bool): Event {
    if !marks then WorkerRestart
    else match built case BuiltOk => BuildOk(log) case BuildFailed(e) => BuildFail(log, e)
  }

  // What becomes of one job of the batch: what its staging directory holds,
  // where the run stops, whether the publisher dies there, and whether the
  // failure mark that follows an error gets through.
  datatype Fate = Fate(staging: Option<seq<Entry>>, stop: Stop, dies: bool, marks: bool, now: Time)

  // The protocol event that the publisher's work on one job amounts to.
  ghost function Outcome(t: Tables, j: Id, sha: Bytes -> string, fate: Fate): Event {
    var files := if fate.staging.Some? then Rows(Completed(fate.staging.value, fate.stop), sha) else map[];
    if fate.staging.Some? && Succeeds(t, j, fate.staging.value, fate.stop) then PublishOk(files)
    else if fate.dies then PublisherRestart(files)
    else if j !in t.jobs then PublishGone
    else if fate.marks then PublishFail(files, "publish failed")
    else PublishLost(files)
  }

  lemma NothingSkipped(t: Tables, now: Time)
    ensures Passing(t, {}, now) && WithSkips(t, {}, now) == t
  {
  }

  lemma AnswerIsWon(t: Tables, now: Time, claim: Claim)
    requires Answers(t, now, claim)
    ensures Won(t, now) == if claim.Claim? then Some(claim.id) else None
  {
    match claim {
      case NoJob => NoneWon(t, now);
      case Claim(j, _, _, _) => WonIs(t, now, j);
      case Broken(_) =>
        var j :| IsWinner(t, j, now) && !Resolves(t, j);
        WonIs(t, now, j);
    }
  }

  // A run that cannot read its staging directory stores nothing.
  lemma {:induction false} EmptyRun(s: System, failure: string, now: Time)
    requires s.batch != []
    ensures Enabled(s, PublisherRestart(map[])) && After(s, PublisherRestart(map[]), now).db == s.db
    ensures !AtJob(s) ==> Enabled(s, PublishGone) && After(s, PublishGone, now).db == s.db
    ensures AtJob(s) ==> Enabled(s, PublishLost(map[])) && After(s, PublishLost(map[]), now).db == s.db
    ensures AtJob(s) ==> Enabled(s, PublishFail(map[], failure))
    ensures AtJob(s) ==>
              After(s, PublishFail(map[], failure), now).db == WithMark(s.db, s.batch[0], Failed, "", failure, now)
  {
    hide WithArtifacts;
    RecordedRows(s.db, s.batch[0], map[]);
    assert WithArtifacts(s.db, s.batch[0], map[]).artifacts == s.db.artifacts;
  }

  // What the publisher's steps do besides the tables.
  lemma BatchMoves(s: System, files: map<string, Artifact>, failure: string, now: Time)
    ensures forall e :: && e in {PublishOk(files), PublishFail(files, failure), PublishLost(files), PublishGone}
                        && Enabled(s, e) ==>
              s.batch != [] && After(s, e, now) == s.(db := After(s, e, now).db, batch := s.batch[1..])
    ensures var e := PublisherRestart(files);
            Enabled(s, e) ==> After(s, e, now) == s.(db := After(s, e, now).db, batch := [])
  {
    hide WithArtifacts, WithMark;
  }

  method InsertId(ids: seq<Id>, j: Id) returns (r: seq<Id>)
    requires AscendingIds(ids) && j !in ids
    ensures AscendingIds(r) && forall x :: x in r <==> x in ids || x == j
  {
    var at := 0;
    while at < |ids| && ids[at] < j
      invariant at <= |ids| && forall i :: 0 <= i < at ==> ids[i] < j
    {
      at := at + 1;
    }
    assert forall i :: at <= i < |ids| ==> ids[i] > j;
    r := ids[..at] + [j] + ids[at..];
    assert ids == ids[..at] + ids[at..];
  }

  // The built jobs in id order.
  method BuiltJobs(t: Tables) returns (ids: seq<Id>)
    ensures IsBatch(t, ids)
  {
    ids := [];
    var todo := t.jobs.Keys;
    while todo != {}
      invariant todo <= t.jobs.Keys
      invariant AscendingIds(ids)
      invariant forall j :: j in ids <==> j in t.jobs && t.jobs[j].status == Status.Built && j !in todo
    {
      ghost var some := Member(todo);
      var j :| j in todo;
      if t.jobs[j].status == Status.Built {
        ids := InsertId(ids, j);
      }
      todo := todo - {j};
    }
  }

  class Daemons {
    const publisher: Publisher
    var worker: Option<Id>
    var batch: seq<Id>

    constructor (publisher: Publisher)
      ensures this.publisher == publisher && worker == None && batch == []
    {
      this.publisher := publisher;
      worker := None;
      batch := [];
    }

    ghost function State(clock: Time): System
      reads this, publisher.database
    {
      System(publisher.database.tables, clock, worker, batch)
    }

    // RunWorker asks for a job.
    method ClaimNext(ghost clock: Time, now: Time) returns (claim: Claim, ghost run: seq<Stamp>)
      requires worker == None
      modifies this, publisher.database
      ensures Legal(old(State(clock)), run) && Final(old(State(clock)), run) == State(now)
      ensures forall stamp :: stamp in run ==> stamp == Stamp(now, Event.Claim)
      ensures Answers(old(publisher.database.tables), now, claim)
      ensures worker == if claim.Claim? then Some(claim.id) else None
    {
      hide AfterClaim, WithSkips, Passing;
      ghost var s := State(clock);
      NothingSkipped(s.db, now);
      run := ClaimRun(s.db, {}, now, s);
      claim := publisher.database.ClaimJob(now);
      AnswerIsWon(s.db, now, claim);
      worker := if claim.Claim? then Some(claim.id) else None;
    }

    // RunWorker reports the build. When the mark does not get through the job
    // is left running: after a failed build the error is dropped, after a
    // good one the worker ends.
    method FinishBuild(ghost clock: Time, built: Built, log: string, marks: bool, now: Time)
      returns (ghost stamp: Stamp)
      requires worker.Some?
      modifies this, publisher.database
      ensures stamp == Stamp(now, Report(built, log, marks))
      ensures Enabled(old(State(clock)), stamp.event) && State(now) == Step(old(State(clock)), stamp)
      ensures worker == None
      ensures var was, j := old(publisher.database.tables), old(worker).value;
              if !marks || j !in was.jobs then publisher.database.tables == was
              else
                var row := was.jobs[j];
                publisher.database.tables == was.(jobs := was.jobs[j := row.(
                  status := if built.BuiltOk? then Status.Built else Failed,
                  finishedAt := Some(now),
                  logPath := if log != "" then log else row.logPath,
                  error := if built.BuildFailed? && built.error != "" then built.error else row.error)])
    {
      var j := worker.value;
      if marks {
        match built {
          case BuiltOk => var _ := publisher.database.MarkJob(j, Status.Built, log, "", now);
          case BuildFailed(e) => var _ := publisher.database.MarkJob(j, Failed, log, e, now);
        }
      }
      worker := None;
      stamp := Stamp(now, Report(built, log, marks));
    }

    // RunPublisher reads the built jobs in id order.
    method ReadBuilt(ghost clock: Time, now: Time) returns (ghost stamp: Stamp)
      requires batch == []
      modifies this
      ensures stamp == Stamp(now, ReadBatch(batch))
      ensures forall i, j :: 0 <= i < j < |batch| ==> batch[i] < batch[j]
      ensures var jobs := publisher.database.tables.jobs;
              forall j :: j in batch <==> j in jobs && jobs[j].status == Status.Built
      ensures Enabled(old(State(clock)), stamp.event) && State(now) == Step(old(State(clock)), stamp)
    {
      batch := BuiltJobs(publisher.database.tables);
      stamp := Stamp(now, ReadBatch(batch));
    }

    // RunPublisher takes the next job of its batch. A removed job has no
    // staging directory.
    method PublishNext(ghost clock: Time, sha: Bytes -> string, fate: Fate) returns (ghost stamp: Stamp)
      requires batch != []
      requires fate.staging.Some? ==> batch[0] in publisher.database.tables.jobs && Listing(fate.staging.value)
      modifies this, publisher, publisher.database
      ensures stamp == Stamp(fate.now, Outcome(old(publisher.database.tables), old(batch)[0], sha, fate))
      ensures Enabled(old(State(clock)), stamp.event) && State(fate.now) == Step(old(State(clock)), stamp)
      ensures publisher.repo == if fate.staging.None? then old(publisher.repo)
                                else AfterRun(old(publisher.Contents()), old(batch)[0], fate.staging.value, sha,
                                              fate.stop, fate.now).repo
      ensures var was, jobs, j := old(publisher.database.tables.jobs), publisher.database.tables.jobs, old(batch)[0];
              && jobs.Keys == was.Keys
              && (forall k :: k in jobs && k != j ==> jobs[k] == was[k])
              && (j in jobs && stamp.event.PublishOk? ==>
                    jobs[j] == was[j].(status := Published, finishedAt := Some(fate.now)))
              && (j in jobs && !stamp.event.PublishOk? && !fate.dies && fate.marks ==>
                    jobs[j] == was[j].(status := Failed, finishedAt := Some(fate.now), error := "publish failed"))
              && (j in jobs && !stamp.event.PublishOk? && (fate.dies || !fate.marks) ==> jobs[j] == was[j])
      ensures stamp.event.PublishOk? <==>
              && fate.staging.Some?
              && Succeeds(old(publisher.database.tables), old(batch)[0], fate.staging.value, fate.stop)
      ensures batch == if fate.dies && !stamp.event.PublishOk? then [] else old(batch)[1..]
    {
      hide AfterRun, Succeeds, WithArtifacts, Rows, Completed, After, Enabled, Listing;
      var j, now := batch[0], fate.now;
      ghost var s := State(clock);
      ghost var files := map[];
      if fate.staging.Some? {
        RunIsStep(s, publisher.repo, fate.staging.value, sha, fate.stop, "publish failed", now);
        files := Rows(Completed(fate.staging.value, fate.stop), sha);
        RunFrame(publisher.Contents(), j, fate.staging.value, sha, fate.stop, now);
      } else {
        EmptyRun(s, "publish failed", now);
      }
      BatchMoves(s, files, "publish failed", now);
      stamp := Stamp(now, Outcome(s.db, j, sha, fate));
      var r := publisher.PublishJob(j, fate.staging, sha, fate.stop, now);
      if r.Success? {
        batch := batch[1..];
        return;
      }
      if fate.dies {
        batch := [];
        return;
      }
      if fate.marks {
        var _ := publisher.database.MarkJob(j, Failed, "", "publish failed", now);
      }
      batch := batch[1..];
    }
  }
}
