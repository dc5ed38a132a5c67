// The condition of Order.PublicationOrder is exact: a failure mark lost while a
// newer job of the same package waits in the batch lets the publisher put the
// older version over the newer one, and no other lost mark does.
module OrderLimits {
  import opened Evolution
  import opened Invariants
  import opened Order
  import opened Protocol
  import opened Sets
  import opened Tables

  ghost predicate Breaks(s: System, run: seq<Stamp>, i: nat, m: nat, j: Id, k: Id) {
    Legal(s, run) && Safe(s, run) && OutOfOrder(s, run, i, m, j, k)
  }

  ghost predicate CanBreak(s: System) {
    exists run, i, m, j, k :: Breaks(s, run, i, m, j, k)
  }

  lemma Greatest(ids: set<Id>) returns (g: Id)
    requires ids != {}
    ensures g in ids && forall i :: i in ids ==> i <= g
    decreases |ids|
  {
    var i := Member(ids);
    var rest := ids - {i};
    assert forall x :: x in ids ==> x == i || x in rest;
    g := i;
    if rest != {} {
      SmallerWithout(ids, i);
      var r := Greatest(rest);
      g := if r < i then i else r;
    }
  }

  lemma SortIds(ids: set<Id>) returns (sorted: seq<Id>)
    ensures AscendingIds(sorted) && forall i :: i in sorted <==> i in ids
    decreases |ids|
  {
    if ids == {} {
      sorted := [];
    } else {
      var g := Greatest(ids);
      SmallerWithout(ids, g);
      var front := SortIds(ids - {g});
      sorted := front + [g];
      forall i, j | 0 <= i < j < |sorted| ensures sorted[i] < sorted[j] {
        assert front[i] in front;
      }
    }
  }

  const SOME_FILES: map<string, Artifact> := map["package" := Artifact("", 0)]

  ghost predicate NoLoss(run: seq<Stamp>) {
    forall i :: 0 <= i < |run| ==> !run[i].event.PublishLost?
  }

  lemma NoLossIsSafe(s: System, run: seq<Stamp>)
    requires Legal(s, run) && NoLoss(run)
    ensures Safe(s, run)
  {
  }

  lemma OneMore(s: System, run: seq<Stamp>, stamp: Stamp)
    requires Legal(s, run) && Enabled(Final(s, run), stamp.event)
    ensures Legal(s, run + [stamp]) && Final(s, run + [stamp]) == Step(Final(s, run), stamp)
  {
    assert (run + [stamp])[..|run|] == run;
  }

  // The rows after the publisher has worked through the first n of its batch.
  ghost predicate Advanced(s: System, n: nat, r: System)
    requires n <= |s.batch|
  {
    && r.batch == s.batch[n..] && r.worker == s.worker
    && r.db.versions == s.db.versions && r.db.jobs.Keys == s.db.jobs.Keys
    && forall j :: j in s.db.jobs ==>
         && r.db.jobs[j].versionId == s.db.jobs[j].versionId
         && r.db.jobs[j].status == if j in s.batch[..n] then Published else s.db.jobs[j].status
  }

  function PublicationOf(there: bool, now: Time): Stamp {
    Stamp(now, if there then PublishOk(SOME_FILES) else PublishGone)
  }

  lemma AdvanceOne(s: System, n: nat, r: System, now: Time)
    requires n < |s.batch| && AscendingIds(s.batch) && Advanced(s, n, r)
    ensures var stamp := PublicationOf(s.batch[n] in s.db.jobs, now);
            Enabled(r, stamp.event) && Advanced(s, n + 1, Step(r, stamp))
  {
    var h := s.batch[n];
    assert r.batch[0] == h;
    assert "package" in SOME_FILES.Keys;
    assert s.batch[..n + 1] == s.batch[..n] + [h];
    assert h in s.batch[..n + 1];
  }

  lemma NothingAdvanced(s: System)
    ensures Advanced(s, 0, s)
  {
  }

  lemma {:induction false} WorkThrough(s: System, n: nat, now: Time) returns (run: seq<Stamp>)
    requires AscendingIds(s.batch) && n <= |s.batch|
    ensures Legal(s, run) && NoLoss(run) && Advanced(s, n, Final(s, run))
  {
    hide Step, Enabled, Advanced, AscendingIds;
    if n == 0 {
      NothingAdvanced(s);
      run := [];
    } else {
      run := WorkThrough(s, n - 1, now);
      AdvanceOne(s, n - 1, Final(s, run), now);
      var stamp := PublicationOf(s.batch[n - 1] in s.db.jobs, now);
      OneMore(s, run, stamp);
      run := run + [stamp];
    }
  }

  lemma RestartStep(s: System, now: Time)
    ensures var stamp := Stamp(now, PublisherRestart(map[]));
            Enabled(s, stamp.event) && Step(s, stamp) == s.(batch := [], clock := now)
  {
    if s.batch != [] {
      assert WithArtifacts(s.db, s.batch[0], map[]).artifacts == s.db.artifacts;
    }
  }

  lemma ReadStep(s: System, ids: seq<Id>, now: Time)
    requires s.batch == [] && IsBatch(s.db, ids)
    ensures var stamp := Stamp(now, ReadBatch(ids));
            Enabled(s, stamp.event) && Step(s, stamp) == s.(batch := ids, clock := now)
  {
  }

  // The publisher restarts and reads a new batch.
  lemma {:induction false} ReadAgain(s: System, now: Time) returns (run: seq<Stamp>)
    ensures Legal(s, run) && NoLoss(run)
    ensures var r := Final(s, run); r.db == s.db && r.worker == s.worker && IsBatch(s.db, r.batch)
  {
    var ids := SortIds(set j | j in s.db.jobs && s.db.jobs[j].status == Built);
    var restart, read := Stamp(now, PublisherRestart(map[])), Stamp(now, ReadBatch(ids));
    hide Step, Enabled;
    RestartStep(s, now);
    ReadStep(s.(batch := [], clock := now), ids, now);
    OneMore(s, [], restart);
    assert [] + [restart] == [restart];
    OneMore(s, [restart], read);
    run := [restart] + [read];
  }

  // A run that publishes the waiting job k and then reads a batch with j in it.
  lemma {:induction false} NewerFirst(s: System, j: Id, k: Id, now: Time) returns (first: seq<Stamp>, again: seq<Stamp>)
    requires Inv(s) && Older(s.db, j, k) && s.db.jobs[j].status == Built
    requires k in s.batch && j !in s.batch
    ensures Legal(s, first) && NoLoss(first) && HasStatus(Final(s, first).db, k, Published)
    ensures Legal(Final(s, first), again) && NoLoss(again)
    ensures Older(Final(s, first).db, j, k)
    ensures var r := Final(Final(s, first), again);
            Inv(r) && r.db == Final(s, first).db && HasStatus(r.db, j, Built) && j in r.batch
  {
    var a :| 0 <= a < |s.batch| && s.batch[a] == k;
    first := WorkThrough(s, a + 1, now);
    hide Inv, Legal, Step;
    var s1 := Final(s, first);
    RunKeeps(s, first);
    assert k == s.batch[..a + 1][a];
    assert j !in s.batch[..a + 1];
    assert HasStatus(s1.db, k, Published) && HasStatus(s1.db, j, Built);
    again := ReadAgain(s1, now);
    RunKeeps(s1, again);
  }

  lemma NoLossJoined(a: seq<Stamp>, b: seq<Stamp>)
    requires NoLoss(a) && NoLoss(b)
    ensures NoLoss(a + b)
  {
  }

  lemma NotEarlier(s: System, b: nat)
    requires Inv(s) && b < |s.batch|
    ensures s.batch[b] !in s.batch[..b] && AscendingIds(s.batch)
  {
  }

  // A run whose last step publishes the waiting job j.
  lemma {:induction false} OlderLast(s: System, j: Id, now: Time) returns (rest: seq<Stamp>, last: Stamp)
    requires Inv(s) && j in s.batch && HasStatus(s.db, j, Built)
    ensures Legal(s, rest + [last]) && NoLoss(rest + [last]) && Legal(s, rest)
    ensures HasStatus(Final(s, rest).db, j, Built) && HasStatus(Final(s, rest + [last]).db, j, Published)
    ensures Final(s, rest).db.versions == s.db.versions
    ensures Final(s, rest).db.jobs[j].versionId == s.db.jobs[j].versionId
  {
    hide Inv, Legal, Step, Final, Enabled, AscendingIds;
    var b :| 0 <= b < |s.batch| && s.batch[b] == j;
    NotEarlier(s, b);
    rest := WorkThrough(s, b, now);
    last := PublicationOf(true, now);
    AdvanceOne(s, b, Final(s, rest), now);
    OneMore(s, rest, last);
    assert s.batch[..b + 1][b] == j;
    NoLossJoined(rest, [last]);
  }

  // Jobs and versions are created in the same order.
  lemma OlderVersions(s: System, j: Id, k: Id)
    requires Inv(s) && Older(s.db, j, k)
    ensures EarlierVersion(s.db, j, s.db, k)
  {
  }

  lemma {:induction false} Conclude(s: System, first: seq<Stamp>, run: seq<Stamp>, last: Stamp, j: Id, k: Id)
    requires Legal(s, run + [last]) && NoLoss(run + [last]) && first <= run && Legal(s, first) && Legal(s, run)
    requires HasStatus(Final(s, first).db, k, Published)
    requires !HasStatus(Final(s, run).db, j, Published) && HasStatus(Final(s, run + [last]).db, j, Published)
    requires EarlierVersion(Final(s, run).db, j, Final(s, first).db, k)
    ensures CanBreak(s)
  {
    hide Legal, Step, Final, Enabled;
    var full := run + [last];
    NoLossIsSafe(s, full);
    assert full[..|first|] == first && full[..|run|] == run && full[..|full|] == full;
    assert Breaks(s, full, |first|, |run|, j, k);
  }

  // From a state where k waits in the batch and j is built, older, and not
  // ahead of it, the publisher can publish k first and j last.
  lemma NewerThenOlder(s: System, j: Id, k: Id, now: Time)
    requires Inv(s) && Older(s.db, j, k) && s.db.jobs[j].status == Built
    requires k in s.batch && j !in s.batch
    ensures CanBreak(s)
  {
    hide Inv, Legal, Step, Final, NoLoss;
    var first, again := NewerFirst(s, j, k, now);
    RunKeeps(s, first);
    OlderVersions(Final(s, first), j, k);
    var s2 := Final(Final(s, first), again);
    var rest, last := OlderLast(s2, j, now);
    LegalConcat(s, first, again);
    LegalConcat(s, first + again, rest);
    LegalConcat(s, first + again, rest + [last]);
    var run := first + again + rest;
    assert run + [last] == first + again + (rest + [last]);
    NoLossJoined(first, again);
    NoLossJoined(first + again, rest + [last]);
    Conclude(s, first, run, last, j, k);
  }

  // A lost failure mark makes an out-of-order publication possible exactly
  // when a newer job of the same package is still in the batch behind it.
  lemma {:induction false} LossExactly(s: System, files: map<string, Artifact>, now: Time)
    requires Inv(s) && InOrder(s) && AtJob(s)
    ensures CanBreak(Step(s, Stamp(now, PublishLost(files)))) <==> !LossIsHarmless(s)
  {
    var stamp := Stamp(now, PublishLost(files));
    var r := Step(s, stamp);
    StepKeeps(s, stamp);
    if LossIsHarmless(s) {
      StepKeepsOrder(s, stamp);
      forall run, i, m, j, k ensures !Breaks(r, run, i, m, j, k) {
        if Legal(r, run) && Safe(r, run) {
          PublicationOrder(r, run, i, m, j, k);
        }
      }
    } else {
      var k :| k in s.batch[1..] && Older(s.db, s.batch[0], k);
      TailIsAscending(s.batch);
      assert s.batch[0] in s.batch;
      assert Older(r.db, s.batch[0], k);
      NewerThenOlder(r, s.batch[0], k, now);
    }
  }
}
