// The transactions of internal/db.go as they run: each copies the tables into
// a transaction, changes the copy statement by statement, and commits it.
module Database {
  import opened Options
  import opened Packages
  import opened Sets
  import opened Tables

  // ---- What one call of ClaimJob means at one instant ----

  // The first eligible job in (eligible_at, id) order that is not superseded.
  ghost predicate IsWinner(t: Tables, j: Id, now: Time) {
    && Eligible(t, j, now) && !Superseded(t, j)
    && forall k :: Eligible(t, k, now) && !Superseded(t, k) && k != j ==> DueBefore(t, j, k)
  }

  // A superseded eligible job that comes before every job that is not.
  ghost predicate IsPassed(t: Tables, j: Id, now: Time) {
    && Eligible(t, j, now) && Superseded(t, j)
    && forall k :: Eligible(t, k, now) && !Superseded(t, k) ==> DueBefore(t, j, k)
  }

  ghost function AfterClaim(t: Tables, now: Time): Tables {
    t.(jobs := map j | j in t.jobs ::
         if IsPassed(t, j, now) then SkippedJob(t.jobs[j], now)
         else if IsWinner(t, j, now) && Resolves(t, j) then ClaimedJob(t.jobs[j], now)
         else t.jobs[j])
  }

  datatype Claim =
    | NoJob
    | Claim(id: Id, packageName: string, sourcePath: string, packageVersion: Id)
    | Broken(error: string)

  ghost predicate Answers(t: Tables, now: Time, r: Claim) {
    match r
    case NoJob => forall j :: !IsWinner(t, j, now)
    case Claim(j, name, path, v) =>
      && IsWinner(t, j, now) && Resolves(t, j)
      && v == t.jobs[j].versionId
      && var p := t.packages[t.versions[v].packageId]; name == p.name && path == p.sourcePath
    case Broken(_) => exists j :: IsWinner(t, j, now) && !Resolves(t, j)
  }

  // ---- The loop of ClaimJob ----

  datatype Turn = Idle | Passed(j: Id) | Taken(claim: Claim)

  // What one transaction of the loop does to the tables and what it reports.
  ghost predicate TurnTaken(t: Tables, now: Time, turn: Turn, after: Tables) {
    match turn
    case Idle => after == t && forall j :: !Eligible(t, j, now)
    case Passed(j) => IsFirst(t, j, now) && Superseded(t, j) && after == AfterTurn(t, j, now)
    case Taken(NoJob) => false
    case Taken(Claim(j, name, path, v)) =>
      && IsFirst(t, j, now) && !Superseded(t, j) && Resolves(t, j) && after == AfterTurn(t, j, now)
      && v == t.jobs[j].versionId
      && name == t.packages[t.versions[v].packageId].name
      && path == t.packages[t.versions[v].packageId].sourcePath
    case Taken(Broken(_)) => after == t && exists j :: IsFirst(t, j, now) && !Superseded(t, j) && !Resolves(t, j)
  }

  function WithSkips(t: Tables, done: set<Id>, now: Time): Tables {
    t.(jobs := map j | j in t.jobs :: if j in done then SkippedJob(t.jobs[j], now) else t.jobs[j])
  }

  // The jobs skipped so far: superseded ones, ahead of everything still eligible.
  ghost predicate Passing(t: Tables, done: set<Id>, now: Time) {
    && (forall d :: d in done ==> Eligible(t, d, now) && Superseded(t, d))
    && (forall d, k :: d in done && Eligible(t, k, now) && k !in done ==> DueBefore(t, d, k))
  }

  lemma SkipsKeepOrder(t: Tables, done: set<Id>, now: Time)
    requires Passing(t, done, now)
    ensures forall j :: Eligible(WithSkips(t, done, now), j, now) <==> Eligible(t, j, now) && j !in done
    ensures forall j :: Superseded(WithSkips(t, done, now), j) <==> Superseded(t, j)
  {
    var s := WithSkips(t, done, now);
    forall v, p ensures IsLatest(s, v, p) <==> IsLatest(t, v, p) {
      assert forall w :: OfPackage(s, w, p) <==> OfPackage(t, w, p);
    }
  }

  lemma PassOneMore(t: Tables, done: set<Id>, now: Time, j: Id)
    requires Passing(t, done, now) && IsFirst(WithSkips(t, done, now), j, now) && Superseded(t, j)
    ensures Passing(t, done + {j}, now)
    ensures WithSkips(t, done + {j}, now) == WithRow(WithSkips(t, done, now), j, SkippedJob(t.jobs[j], now))
  {
    SkipsKeepOrder(t, done, now);
  }

  lemma {:induction false} WinnerFound(t: Tables, done: set<Id>, now: Time, j: Id)
    requires Passing(t, done, now) && IsFirst(WithSkips(t, done, now), j, now) && !Superseded(t, j)
    ensures IsWinner(t, j, now)
    ensures AfterTurn(WithSkips(t, done, now), j, now) == AfterClaim(t, now)
  {
    SkipsKeepOrder(t, done, now);
    forall k ensures IsPassed(t, k, now) <==> k in done {
      if IsPassed(t, k, now) {
        assert DueBefore(t, k, j);
        assert Eligible(t, j, now) && j !in done;
      }
    }
    forall k ensures IsWinner(t, k, now) <==> k == j {
      assert IsWinner(t, k, now) ==> Eligible(t, k, now) && Eligible(t, j, now);
    }
  }

  lemma {:induction false} NothingLeft(t: Tables, done: set<Id>, now: Time)
    requires Passing(t, done, now) && forall j :: !Eligible(WithSkips(t, done, now), j, now)
    ensures WithSkips(t, done, now) == AfterClaim(t, now)
    ensures forall j :: !IsWinner(t, j, now)
    ensures forall j :: IsPassed(t, j, now) <==> Eligible(t, j, now)
  {
    SkipsKeepOrder(t, done, now);
  }

  lemma {:induction false} TurnPasses(t: Tables, done: set<Id>, now: Time, j: Id)
    requires Passing(t, done, now)
    requires IsFirst(WithSkips(t, done, now), j, now) && Superseded(WithSkips(t, done, now), j)
    ensures Passing(t, done + {j}, now) && j in t.jobs.Keys - done
    ensures |t.jobs.Keys - (done + {j})| < |t.jobs.Keys - done|
    ensures WithSkips(t, done + {j}, now) == AfterTurn(WithSkips(t, done, now), j, now)
  {
    SkipsKeepOrder(t, done, now);
    PassOneMore(t, done, now, j);
    SmallerWithout(t.jobs.Keys - done, j);
    assert t.jobs.Keys - (done + {j}) == t.jobs.Keys - done - {j};
  }

  lemma {:induction false} TurnAnswers(t: Tables, done: set<Id>, now: Time, claim: Claim, after: Tables)
    requires Passing(t, done, now) && TurnTaken(WithSkips(t, done, now), now, Taken(claim), after)
    ensures after == AfterClaim(t, now) && Answers(t, now, claim)
  {
    var s := WithSkips(t, done, now);
    SkipsKeepOrder(t, done, now);
    if claim.Claim? {
      WinnerFound(t, done, now, claim.id);
    } else {
      var j :| IsFirst(s, j, now) && !Superseded(s, j) && !Resolves(s, j);
      WinnerFound(t, done, now, j);
      assert IsWinner(t, j, now) && !Resolves(t, j);
    }
  }

  // ---- What the specification of a claim says, column by column ----

  // A version of the same package that was seen later, or at the same time
  // with a greater id, is what makes a job superseded.
  lemma SupersededMeans(t: Tables, j: Id)
    requires j in t.jobs && t.jobs[j].versionId in t.versions
    ensures var v := t.jobs[j].versionId;
            Superseded(t, j) <==>
            exists w :: && w in t.versions && t.versions[w].packageId == t.versions[v].packageId
                        && (|| t.versions[w].firstSeenAt > t.versions[v].firstSeenAt
                            || (t.versions[w].firstSeenAt == t.versions[v].firstSeenAt && w > v))
  {
    var v := t.jobs[j].versionId;
    var p := t.versions[v].packageId;
    if Superseded(t, j) {
      var w :| OfPackage(t, w, p) && w != v && !SeenBefore(t, w, v);
      assert w in t.versions && t.versions[w].packageId == p;
    }
    if w :| && w in t.versions && t.versions[w].packageId == t.versions[v].packageId
            && (|| t.versions[w].firstSeenAt > t.versions[v].firstSeenAt
                || (t.versions[w].firstSeenAt == t.versions[v].firstSeenAt && w > v)) {
      assert OfPackage(t, w, p) && !SeenBefore(t, w, v);
    }
  }

  lemma {:induction false} LeastOf(t: Tables, todo: set<Id>) returns (x: Id)
    requires todo != {} && todo <= t.jobs.Keys
    ensures x in todo && forall k :: k in todo && k != x ==> DueBefore(t, x, k)
  {
    var one := Member(todo);
    var rest := todo - {one};
    assert forall k :: k in todo ==> k == one || k in rest;
    x := one;
    if rest != {} {
      var y := LeastOf(t, rest);
      x := if DueBefore(t, one, y) then one else y;
    }
  }

  lemma WinnerExists(t: Tables, now: Time, k: Id)
    requires Eligible(t, k, now) && !Superseded(t, k)
    ensures exists x :: IsWinner(t, x, now)
  {
    hide Superseded;
    var todo := set i | i in t.jobs && Eligible(t, i, now) && !Superseded(t, i);
    assert k in todo;
    var x := LeastOf(t, todo);
    assert IsWinner(t, x, now);
  }

  lemma NoWinnerAllSuperseded(t: Tables, now: Time)
    requires forall j :: !IsWinner(t, j, now)
    ensures forall k :: Eligible(t, k, now) ==> Superseded(t, k)
  {
    forall k | Eligible(t, k, now) ensures Superseded(t, k) {
      if !Superseded(t, k) {
        WinnerExists(t, now, k);
      }
    }
  }

  // What a claim writes: the claimed row, and a skip on the superseded due
  // jobs that come before it, or on all of them when nothing can be claimed.
  lemma {:induction false} ClaimWrites(t: Tables, now: Time, claim: Claim)
    requires Answers(t, now, claim)
    ensures var s := AfterClaim(t, now);
            && s == t.(jobs := s.jobs) && s.jobs.Keys == t.jobs.Keys
            && (claim.Claim? ==>
                  var row := t.jobs[claim.id];
                  && row.status == Pending && row.eligibleAt <= now && !Superseded(t, claim.id)
                  && s.jobs[claim.id] == row.(status := Running, claimedAt := Some(now), attempts := row.attempts + 1))
            && forall k :: k in t.jobs && (claim.Claim? ==> k != claim.id) ==>
                 var row := t.jobs[k];
                 && (Superseded(t, k) && row.status == Pending && row.eligibleAt <= now && !claim.Broken?
                     && (claim.Claim? ==> || row.eligibleAt < t.jobs[claim.id].eligibleAt
                                          || (row.eligibleAt == t.jobs[claim.id].eligibleAt && k < claim.id))
                     ==> s.jobs[k] == row.(status := Skipped, finishedAt := Some(now),
                                           error := "superseded by newer revision"))
                 && (!(Superseded(t, k) && row.status == Pending && row.eligibleAt <= now)
                     || (claim.Claim? && (|| row.eligibleAt > t.jobs[claim.id].eligibleAt
                                          || (row.eligibleAt == t.jobs[claim.id].eligibleAt && k > claim.id)))
                     ==> s.jobs[k] == row)
    ensures claim.Claim? ==>
              forall k :: && k in t.jobs && t.jobs[k].status == Pending && t.jobs[k].eligibleAt <= now
                          && k != claim.id && !Superseded(t, k) ==>
                  || t.jobs[claim.id].eligibleAt < t.jobs[k].eligibleAt
                  || (t.jobs[claim.id].eligibleAt == t.jobs[k].eligibleAt && claim.id < k)
    ensures claim.NoJob? ==>
              forall k :: k in t.jobs && t.jobs[k].status == Pending && t.jobs[k].eligibleAt <= now ==> Superseded(t, k)
  {
    hide Superseded;
    if claim.NoJob? {
      NoWinnerAllSuperseded(t, now);
    }
  }

  // ---- Queries ----

  // The job with the least (eligible_at, id) of the pending ones.
  lemma FirstMeans(t: Tables, j: Id, now: Time)
    requires IsFirst(t, j, now)
    ensures j in t.jobs && t.jobs[j].status == Pending && t.jobs[j].eligibleAt <= now
    ensures forall k :: && k in t.jobs && t.jobs[k].status == Pending && k != j
                        && t.jobs[k].eligibleAt <= t.jobs[j].eligibleAt ==>
              t.jobs[k].eligibleAt == t.jobs[j].eligibleAt && j < k
  {
    forall k | k in t.jobs && t.jobs[k].status == Pending && k != j && t.jobs[k].eligibleAt <= t.jobs[j].eligibleAt
      ensures t.jobs[k].eligibleAt == t.jobs[j].eligibleAt && j < k
    {
      assert Eligible(t, k, now);
    }
  }

  // The version with the greatest (first_seen_at, id) of the package.
  lemma LatestMeans(t: Tables, v: Id, p: Id)
    requires IsLatest(t, v, p)
    ensures v in t.versions && t.versions[v].packageId == p
    ensures forall w :: && w in t.versions && t.versions[w].packageId == p && w != v
                        && t.versions[w].firstSeenAt >= t.versions[v].firstSeenAt ==>
              t.versions[w].firstSeenAt == t.versions[v].firstSeenAt && w < v
  {
    forall w | && w in t.versions && t.versions[w].packageId == p && w != v
               && t.versions[w].firstSeenAt >= t.versions[v].firstSeenAt
      ensures t.versions[w].firstSeenAt == t.versions[v].firstSeenAt && w < v
    {
      assert OfPackage(t, w, p);
    }
  }

  // First pending job with eligible_at <= now, by (eligible_at, id).
  method FirstEligible(t: Tables, now: Time) returns (first: Option<Id>)
    ensures first.None? ==> forall j :: !Eligible(t, j, now)
    ensures first.Some? ==> IsFirst(t, first.value, now)
  {
    first := None;
    var todo := t.jobs.Keys;
    while todo != {}
      invariant todo <= t.jobs.Keys
      invariant first.Some? ==> Eligible(t, first.value, now)
      invariant forall j :: Eligible(t, j, now) && j !in todo ==>
                  first.Some? && (j == first.value || DueBefore(t, first.value, j))
    {
      ghost var some := Member(todo);
      var j :| j in todo;
      if t.jobs[j].status == Pending && t.jobs[j].eligibleAt <= now && (first.None? || DueBefore(t, j, first.value)) {
        first := Some(j);
      }
      todo := todo - {j};
    }
  }

  // First version of a package by (first_seen_at, id), descending.
  method LatestVersion(t: Tables, p: Id) returns (latest: Option<Id>)
    ensures latest.None? ==> forall v :: !OfPackage(t, v, p)
    ensures latest.Some? ==> IsLatest(t, latest.value, p)
  {
    latest := None;
    var todo := t.versions.Keys;
    while todo != {}
      invariant todo <= t.versions.Keys
      invariant latest.Some? ==> OfPackage(t, latest.value, p)
      invariant forall v :: OfPackage(t, v, p) && v !in todo ==>
                  latest.Some? && (v == latest.value || SeenBefore(t, v, latest.value))
    {
      ghost var some := Member(todo);
      var v :| v in todo;
      if t.versions[v].packageId == p && (latest.None? || SeenBefore(t, latest.value, v)) {
        latest := Some(v);
      }
      todo := todo - {v};
    }
  }

  lemma OneLatest(t: Tables, v: Id, w: Id, p: Id)
    requires IsLatest(t, v, p) && IsLatest(t, w, p)
    ensures v == w
  {
    assert v != w ==> SeenBefore(t, v, w) && SeenBefore(t, w, v);
  }

  method FindPackage(t: Tables, name: string) returns (p: Option<Id>)
    requires UniqueNames(t)
    ensures p.Some? <==> HasPackage(t, name)
    ensures p.Some? ==> p.value == PackageId(t, name)
  {
    p := None;
    var todo := t.packages.Keys;
    while todo != {}
      invariant todo <= t.packages.Keys
      invariant forall q :: IsPackage(t, q, name) && q !in todo ==> p == Some(q)
      invariant p.Some? ==> IsPackage(t, p.value, name)
    {
      ghost var some := Member(todo);
      var q :| q in todo;
      if t.packages[q].name == name {
        p := Some(q);
      }
      todo := todo - {q};
    }
  }

  method FindVersion(t: Tables, p: Id, revision: string) returns (v: Option<Id>)
    requires UniqueRevisions(t)
    ensures v.Some? <==> HasVersion(t, p, revision)
    ensures v.Some? ==> v.value == VersionId(t, p, revision)
  {
    v := None;
    var todo := t.versions.Keys;
    while todo != {}
      invariant todo <= t.versions.Keys
      invariant forall w :: IsVersion(t, w, p, revision) && w !in todo ==> v == Some(w)
      invariant v.Some? ==> IsVersion(t, v.value, p, revision)
    {
      ghost var some := Member(todo);
      var w :| w in todo;
      if t.versions[w].packageId == p && t.versions[w].revision == revision {
        v := Some(w);
      }
      todo := todo - {w};
    }
  }

  // ---- Statements of CreatePackage ----

  lemma {:induction false} StaysNone(rows: map<DependencyKey, DependencyKind>, v: Id, dependencies: seq<Dependency>,
                                     i: nat)
    requires i <= |dependencies| && WithDependencies(rows, v, dependencies[..i]) == None
    ensures WithDependencies(rows, v, dependencies) == None
  {
    if i < |dependencies| {
      var n := |dependencies| - 1;
      assert dependencies[..n][..i] == dependencies[..i];
      StaysNone(rows, v, dependencies[..n], i);
    } else {
      assert dependencies[..i] == dependencies;
    }
  }

  method InsertDependencies(rows: map<DependencyKey, DependencyKind>, v: Id, dependencies: seq<Dependency>)
    returns (r: Option<map<DependencyKey, DependencyKind>>)
    ensures r == WithDependencies(rows, v, dependencies)
  {
    var inserted := rows;
    for i := 0 to |dependencies|
      invariant WithDependencies(rows, v, dependencies[..i]) == Some(inserted)
    {
      var kind := FromRepo;
      if dependencies[i].aur {
        kind := FromAur;
      }
      var key := DependencyKey(v, dependencies[i].name);
      assert dependencies[..i + 1][..i] == dependencies[..i];
      if key in inserted {
        StaysNone(rows, v, dependencies, i + 1);
        return None;
      }
      inserted := inserted[key := kind];
    }
    assert dependencies[..|dependencies|] == dependencies;
    r := Some(inserted);
  }

  // Exactly the pending jobs of the package's other versions are skipped.
  lemma SkipWrites(t: Tables, p: Id, keep: Id, now: Time, j: Id)
    requires j in t.jobs
    ensures var s, row := WithSkipped(t, p, keep, now), t.jobs[j];
            && s == t.(jobs := s.jobs) && s.jobs.Keys == t.jobs.Keys
            && s.jobs[j] == if && row.status == Pending && row.versionId in t.versions
                               && t.versions[row.versionId].packageId == p && row.versionId != keep
                            then row.(status := Skipped, finishedAt := Some(now),
                                      error := "superseded by newer revision")
                            else row
  {
  }

  // skipPendingJobsForPackage: collect the other version ids, update in bulk.
  method SkipPendingJobs(t: Tables, p: Id, keep: Id, now: Time) returns (r: Tables)
    ensures r == WithSkipped(t, p, keep, now)
  {
    var ids: seq<Id> := [];
    var todo := t.versions.Keys;
    while todo != {}
      invariant todo <= t.versions.Keys
      invariant forall v :: v in ids <==> OtherVersion(t, v, p, keep) && v !in todo
    {
      ghost var some := Member(todo);
      var v :| v in todo;
      if t.versions[v].packageId == p && v != keep {
        ids := ids + [v];
      }
      todo := todo - {v};
    }
    if ids == [] {
      assert forall v :: v in ids <==> OtherVersion(t, v, p, keep);
      return t;
    }
    r := t.(jobs := map j | j in t.jobs ::
              if t.jobs[j].status == Pending && t.jobs[j].versionId in ids then SkippedJob(t.jobs[j], now)
              else t.jobs[j]);
  }

  lemma SupersededByOther(t: Tables, j: Id, latest: Id)
    requires j in t.jobs && t.jobs[j].versionId in t.versions
    requires IsLatest(t, latest, t.versions[t.jobs[j].versionId].packageId)
    ensures Superseded(t, j) <==> latest != t.jobs[j].versionId
  {
    var v, p := t.jobs[j].versionId, t.versions[t.jobs[j].versionId].packageId;
    if IsLatest(t, v, p) {
      OneLatest(t, v, latest, p);
    }
  }

  // The package upsert leaves the versions, so a lookup finds the same one.
  lemma SameVersions(t: Tables, s: Tables, p: Id, revision: string)
    requires t.versions == s.versions && t.nextVersion == s.nextVersion && UniqueRevisions(t)
    ensures HasVersion(t, p, revision) <==> HasVersion(s, p, revision)
    ensures VersionId(t, p, revision) == VersionId(s, p, revision)
  {
    if HasVersion(t, p, revision) {
      assert IsVersion(s, VersionId(t, p, revision), p, revision);
    }
    if HasVersion(s, p, revision) {
      assert IsVersion(t, VersionId(s, p, revision), p, revision);
    }
  }

  class Database {
    var tables: Tables

    constructor ()
      ensures tables == EMPTY_TABLES
    {
      tables := EMPTY_TABLES;
    }

    // One transaction of ClaimJob's loop.
    method ClaimTurn(now: Time) returns (turn: Turn)
      modifies this
      ensures TurnTaken(old(tables), now, turn, tables)
    {
      var tx := tables;
      var claimed := FirstEligible(tx, now);
      if claimed == None {
        return Idle;
      }
      var j := claimed.value;
      if tx.jobs[j].versionId !in tx.versions {
        return Taken(Broken("package version not found"));
      }
      var version := tx.versions[tx.jobs[j].versionId];
      var latest := LatestVersion(tx, version.packageId);
      assert OfPackage(tx, tx.jobs[j].versionId, version.packageId);
      SupersededByOther(tx, j, latest.value);
      if latest.value != tx.jobs[j].versionId {
        var job := tx.jobs[j];
        tx := WithRow(tx, j, job.(status := Skipped, finishedAt := Some(now), error := "superseded by newer revision"));
        tables := tx;
        return Passed(j);
      }
      tx := WithRow(tx, j, tx.jobs[j].(status := Running, claimedAt := Some(now), attempts := tx.jobs[j].attempts + 1));
      if version.packageId !in tx.packages {
        return Taken(Broken("package not found"));
      }
      var package := tx.packages[version.packageId];
      tables := tx;
      return Taken(Claim(j, package.name, package.sourcePath, tx.jobs[j].versionId));
    }

    // Claims the next job, skipping superseded ones on the way.
    method ClaimJob(now: Time) returns (r: Claim)
      modifies this
      ensures tables == AfterClaim(old(tables), now)
      ensures Answers(old(tables), now, r)
    {
      ghost var start := tables;
      ghost var done: set<Id> := {};
      var turn := Idle;
      while true
        invariant tables == WithSkips(start, done, now)
        invariant Passing(start, done, now)
        decreases |start.jobs.Keys - done|
      {
        turn := ClaimTurn(now);
        match turn {
          case Idle =>
            NothingLeft(start, done, now);
            return NoJob;
          case Taken(claim) =>
            TurnAnswers(start, done, now, claim, tables);
            return claim;
          case Passed(j) =>
            TurnPasses(start, done, now, j);
            assert start.jobs.Keys - (done + {j}) == start.jobs.Keys - done - {j};
            done := done + {j};
        }
      }
    }

    method MarkJob(j: Id, status: Status, logPath: string, failure: string, now: Time) returns (found: bool)
      modifies this
      ensures found <==> j in old(tables).jobs
      ensures tables == WithMark(old(tables), j, status, logPath, failure, now)
      ensures !found ==> tables == old(tables)
      ensures found ==>
                var row := old(tables).jobs[j];
                tables == old(tables).(jobs := old(tables).jobs[j := row.(
                  status := status,
                  finishedAt := Some(now),
                  logPath := if logPath != "" then logPath else row.logPath,
                  error := if failure != "" then failure else row.error)])
    {
      if j !in tables.jobs {
        return false;
      }
      var job := tables.jobs[j].(status := status, finishedAt := Some(now));
      if logPath != "" {
        job := job.(logPath := logPath);
      }
      if failure != "" {
        job := job.(error := failure);
      }
      tables := WithRow(tables, j, job);
      found := true;
    }

    // JobArtifacts: the job is published.
    method JobArtifacts(j: Id, now: Time) returns (found: bool)
      modifies this
      ensures found <==> j in old(tables).jobs
      ensures tables == WithMark(old(tables), j, Published, "", "", now)
      ensures !found ==> tables == old(tables)
      ensures found ==>
                tables == old(tables).(jobs := old(tables).jobs[j :=
                  old(tables).jobs[j].(status := Published, finishedAt := Some(now))])
    {
      if j !in tables.jobs {
        return false;
      }
      tables := WithRow(tables, j, tables.jobs[j].(status := Published, finishedAt := Some(now)));
      found := true;
    }

    // One transaction; any failed statement or commit leaves the tables alone.
    method CreatePackage(info: PackageInfo, sourcePath: string, revision: string, digest: string,
                         eligibleAt: Time, now: Time, commits: bool)
      returns (r: Result<Id>)
      requires Indexed(tables)
      modifies this
      ensures var after := Created(old(tables), info, sourcePath, revision, digest, eligibleAt, now);
              && (r.Success? <==> commits && after.Some?)
              && tables == (if r.Success? then after.value else old(tables))
              && (r.Success? ==> r.value == CreatedId(old(tables), info, revision))
    {
      var tx := tables;
      var managed := FindPackage(tx, info.name);
      var p := tx.nextPackage;
      if managed == None {
        tx := tx.(packages := tx.packages[p := Package(info.name, info.kind, info.ref, sourcePath)],
                  nextPackage := p + 1);
      } else {
        p := managed.value;
        var row := tx.packages[p].(kind := info.kind, ref := info.ref, sourcePath := sourcePath);
        tx := tx.(packages := tx.packages[p := row]);
      }
      assert tx == WithPackage(tables, PackageId(tables, info.name), info, sourcePath);
      SameVersions(tables, tx, p, revision);
      var known := FindVersion(tx, p, revision);
      var v := tx.nextVersion;
      if known.Some? {
        v := known.value;
      } else {
        tx := WithVersion(tx, NewVersion(p, info, revision, digest, now));
        var rows := InsertDependencies(tx.dependencies, v, info.dependencies);
        if rows == None {
          return Failure("duplicate dependency");
        }
        tx := tx.(dependencies := rows.value);
        tx := SkipPendingJobs(tx, p, v, now);
        tx := WithJob(tx, v, eligibleAt, now);
      }
      if !commits {
        return Failure("commit");
      }
      tables := tx;
      r := Success(v);
    }
  }
}
