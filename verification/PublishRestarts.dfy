// What publishJob keeps when its runs are cut short and repeated: the rows and
// the files of the job come out as from a single run.
module PublishRestarts {
  import opened Protocol
  import opened Publishing
  import opened Tables

  // b has the rows of the job and the repository files of these names that a has.
  ghost predicate SameOwn(a: Store, b: Store, job: Id, names: set<string>) {
    && (forall f :: ArtifactKey(job, f) in a.tables.artifacts <==> ArtifactKey(job, f) in b.tables.artifacts)
    && (forall f :: ArtifactKey(job, f) in a.tables.artifacts ==>
                    a.tables.artifacts[ArtifactKey(job, f)] == b.tables.artifacts[ArtifactKey(job, f)])
    && (forall f :: f in names ==> (f in a.repo <==> f in b.repo))
    && (forall f :: f in names && f in a.repo ==> a.repo[f] == b.repo[f])
  }

  // The completed files and the unfinished one belong to the package files,
  // and the unfinished one is not completed.
  lemma {:induction false} CompletedIsPart(entries: seq<Entry>, stop: Stop)
    requires Listing(entries)
    ensures forall f :: f in Completed(entries, stop) ==>
              f in PackageFiles(entries) && Completed(entries, stop)[f] == PackageFiles(entries)[f]
    ensures forall f :: f in Unfinished(entries, stop) ==>
              f in PackageFiles(entries) && f !in Completed(entries, stop)
              && Unfinished(entries, stop)[f] <= PackageFiles(entries)[f]
  {
    hide PackageFiles, IsPackageFile;
    PackageFilesListed(entries);
    if Hits(entries, stop) {
      PackageFilesListed(entries[..stop.at]);
      forall f | f in PackageFiles(entries[..stop.at])
        ensures f in PackageFiles(entries) && PackageFiles(entries[..stop.at])[f] == PackageFiles(entries)[f]
      {
        var i :| 0 <= i < stop.at && IsPackageFile(entries[..stop.at][i]) && entries[..stop.at][i].name == f;
        assert entries[i] == entries[..stop.at][i];
      }
    }
  }

  // A run changes no other rows, no other files, and no table but the job's status.
  lemma {:induction false} RunFrame(s: Store, job: Id, entries: seq<Entry>, sha: Bytes -> string, stop: Stop, now: Time)
    requires Listing(entries)
    ensures var r := AfterRun(s, job, entries, sha, stop, now);
            && (forall f :: f !in PackageFiles(entries) ==> (f in r.repo <==> f in s.repo))
            && (forall f :: f !in PackageFiles(entries) && f in s.repo ==> r.repo[f] == s.repo[f])
            && (forall key: ArtifactKey :: key.jobId != job || key.filename !in PackageFiles(entries) ==>
                  (key in r.tables.artifacts <==> key in s.tables.artifacts))
            && (forall key :: key in s.tables.artifacts ==>
                  key in r.tables.artifacts && r.tables.artifacts[key] == s.tables.artifacts[key])
            && r.tables == s.tables.(artifacts := r.tables.artifacts, jobs := r.tables.jobs)
            && r.tables.jobs == if Succeeds(s.tables, job, entries, stop)
                                then s.tables.jobs[job := MarkedJob(s.tables.jobs[job], Published, "", "", now)]
                                else s.tables.jobs
  {
    hide WithArtifacts, PackageFiles, IsPackageFile;
    RecordedRows(s.tables, job, Rows(Completed(entries, stop), sha));
    CompletedIsPart(entries, stop);
  }

  // A row that a run inserts describes a file that is completely in place
  // when the run ends, wherever it ends.
  lemma {:induction false} NewRowsAreTrue(s: Store, job: Id, entries: seq<Entry>, sha: Bytes -> string, stop: Stop,
                                          now: Time, f: string)
    requires Listing(entries)
    requires ArtifactKey(job, f) !in s.tables.artifacts
    requires ArtifactKey(job, f) in AfterRun(s, job, entries, sha, stop, now).tables.artifacts
    ensures f in PackageFiles(entries)
    ensures var r := AfterRun(s, job, entries, sha, stop, now);
            && f in r.repo && r.repo[f] == PackageFiles(entries)[f]
            && r.tables.artifacts[ArtifactKey(job, f)] == Artifact(sha(r.repo[f]), |r.repo[f]|)
  {
    hide WithArtifacts, PackageFiles, IsPackageFile;
    RecordedRows(s.tables, job, Rows(Completed(entries, stop), sha));
    CompletedIsPart(entries, stop);
  }

  // The full run from s: every package file is in place with its content, old
  // rows stay and missing rows are made from the contents.
  lemma FullRun(s: Store, job: Id, entries: seq<Entry>, sha: Bytes -> string, now: Time)
    requires Listing(entries)
    ensures var r := AfterRun(s, job, entries, sha, Never, now);
            && (forall f :: f in PackageFiles(entries) ==> f in r.repo && r.repo[f] == PackageFiles(entries)[f])
            && (forall f :: ArtifactKey(job, f) in r.tables.artifacts <==>
                            ArtifactKey(job, f) in s.tables.artifacts || f in PackageFiles(entries))
            && (forall f :: ArtifactKey(job, f) in r.tables.artifacts ==>
                  r.tables.artifacts[ArtifactKey(job, f)]
                  == if ArtifactKey(job, f) in s.tables.artifacts then s.tables.artifacts[ArtifactKey(job, f)]
                     else Row(PackageFiles(entries)[f], sha))
  {
    hide WithArtifacts, PackageFiles, IsPackageFile;
    RecordedRows(s.tables, job, Rows(PackageFiles(entries), sha));
  }

  ghost predicate NoOtherRow(s: Store, job: Id, entries: seq<Entry>, sha: Bytes -> string) {
    forall f :: f in PackageFiles(entries) && ArtifactKey(job, f) in s.tables.artifacts ==>
      s.tables.artifacts[ArtifactKey(job, f)] == Row(PackageFiles(entries)[f], sha)
  }

  // After a full run the recorded hashes and sizes are those of the files in
  // the repository exactly when no row with another hash or size was there before.
  lemma RowsMatchExactly(s: Store, job: Id, entries: seq<Entry>, sha: Bytes -> string, now: Time)
    requires Listing(entries)
    ensures var r := AfterRun(s, job, entries, sha, Never, now);
            (forall f :: f in PackageFiles(entries) ==>
               ArtifactKey(job, f) in r.tables.artifacts && f in r.repo
               && r.tables.artifacts[ArtifactKey(job, f)] == Row(r.repo[f], sha))
            <==> NoOtherRow(s, job, entries, sha)
  {
    hide AfterRun, PackageFiles;
    FullRun(s, job, entries, sha, now);
  }

  // ---- Restarts ----

  // Runs one after another, each from what the run before it and the other
  // roles have left; the others keep off the job's rows and file names.
  ghost predicate Chain(before: seq<Store>, stops: seq<Stop>, clocks: seq<Time>, job: Id, entries: seq<Entry>,
                        sha: Bytes -> string)
  {
    && |before| == |stops| + 1 && |clocks| == |stops|
    && forall i :: 0 <= i < |stops| ==>
         SameOwn(AfterRun(before[i], job, entries, sha, stops[i], clocks[i]), before[i + 1], job,
                 PackageFiles(entries).Keys)
  }

  // The job's rows in b are those in a and true ones for some of its files.
  ghost predicate Between(a: Store, b: Store, job: Id, entries: seq<Entry>, sha: Bytes -> string) {
    && (forall f :: ArtifactKey(job, f) in a.tables.artifacts ==>
          ArtifactKey(job, f) in b.tables.artifacts
          && b.tables.artifacts[ArtifactKey(job, f)] == a.tables.artifacts[ArtifactKey(job, f)])
    && (forall f :: ArtifactKey(job, f) in b.tables.artifacts && ArtifactKey(job, f) !in a.tables.artifacts ==>
          f in PackageFiles(entries)
          && b.tables.artifacts[ArtifactKey(job, f)] == Row(PackageFiles(entries)[f], sha))
  }

  lemma {:induction false} RunIsBetween(a: Store, s: Store, job: Id, entries: seq<Entry>, sha: Bytes -> string,
                                        stop: Stop, now: Time)
    requires Listing(entries) && Between(a, s, job, entries, sha)
    ensures Between(a, AfterRun(s, job, entries, sha, stop, now), job, entries, sha)
  {
    hide AfterRun, PackageFiles, IsPackageFile;
    RunFrame(s, job, entries, sha, stop, now);
    var r := AfterRun(s, job, entries, sha, stop, now);
    forall f | ArtifactKey(job, f) in r.tables.artifacts && ArtifactKey(job, f) !in s.tables.artifacts
      ensures f in PackageFiles(entries)
              && r.tables.artifacts[ArtifactKey(job, f)] == Row(PackageFiles(entries)[f], sha)
    {
      NewRowsAreTrue(s, job, entries, sha, stop, now, f);
    }
  }

  lemma {:induction false} ChainIsBetween(before: seq<Store>, stops: seq<Stop>, clocks: seq<Time>, job: Id,
                                          entries: seq<Entry>, sha: Bytes -> string, i: nat)
    requires Listing(entries) && Chain(before, stops, clocks, job, entries, sha) && i <= |stops|
    ensures Between(before[0], before[i], job, entries, sha)
  {
    hide AfterRun, PackageFiles, Row;
    if i > 0 {
      ChainIsBetween(before, stops, clocks, job, entries, sha, i - 1);
      RunIsBetween(before[0], before[i - 1], job, entries, sha, stops[i - 1], clocks[i - 1]);
    }
  }

  // Any number of runs cut short anywhere and then a full one leave the job's
  // rows and files as one full run does.
  lemma {:induction false} RestartsAreHarmless(before: seq<Store>, stops: seq<Stop>, clocks: seq<Time>, job: Id,
                                               entries: seq<Entry>, sha: Bytes -> string, once: Time, last: Time)
    requires Listing(entries) && Chain(before, stops, clocks, job, entries, sha)
    ensures SameOwn(AfterRun(before[0], job, entries, sha, Never, once),
                    AfterRun(before[|stops|], job, entries, sha, Never, last), job, PackageFiles(entries).Keys)
  {
    hide AfterRun, PackageFiles, Row;
    ChainIsBetween(before, stops, clocks, job, entries, sha, |stops|);
    FullRun(before[0], job, entries, sha, once);
    FullRun(before[|stops|], job, entries, sha, last);
  }

  // ---- Runs are steps of the protocol ----

  // The tables after a run of the batch's head are those the protocol gives:
  // of a publication when it succeeds, of a restart or a failure otherwise.
  lemma RunIsStep(s: System, repo: map<string, Bytes>, entries: seq<Entry>, sha: Bytes -> string, stop: Stop,
                  failure: string, now: Time)
    requires AtJob(s)
    ensures var files := Rows(Completed(entries, stop), sha);
            var after := AfterRun(Store(repo, s.db), s.batch[0], entries, sha, stop, now).tables;
            s.batch[0] in after.jobs &&
            if Succeeds(s.db, s.batch[0], entries, stop)
            then Enabled(s, PublishOk(files)) && After(s, PublishOk(files), now).db == after
            else && Enabled(s, PublisherRestart(files)) && After(s, PublisherRestart(files), now).db == after
                 && Enabled(s, PublishLost(files)) && After(s, PublishLost(files), now).db == after
                 && Enabled(s, PublishFail(files, failure))
                 && After(s, PublishFail(files, failure), now).db
                    == WithMark(after, s.batch[0], Failed, "", failure, now)
  {
    hide WithArtifacts, PackageFiles, IsPackageFile;
    var files := Completed(entries, stop);
    RecordedRows(s.db, s.batch[0], Rows(files, sha));
    if Succeeds(s.db, s.batch[0], entries, stop) {
      assert files == PackageFiles(entries);
      assert Rows(files, sha).Keys == files.Keys;
      assert files.Keys == {} ==> files == map[];
    }
  }
}
