// The scheduler's poll of one AUR package (refreshAUR): a head that is already
// recorded is ignored, even when a later revision has been recorded since. So
// the latest version follows the head exactly when the head is new or was the
// latest anyway.
module Polling {
  import opened Creation
  import opened Database
  import opened Invariants
  import opened Options
  import opened Packages
  import opened Protocol
  import opened Tables

  // What the poll of a package previews: its commit is the head unless the
  // remote moves on between the two lookups.
  datatype Preview = Preview(info: PackageInfo, commit: string, digest: string, commitTime: Option<Time>)

  function AcceptOf(preview: Preview, delay: Time, now: Time): Stamp
    requires preview.commitTime.Some?
  {
    Stamp(now, AcceptAur(preview.info, preview.commit, preview.digest, preview.commitTime.value, delay))
  }

  // AcceptAUR on the preview; none when it fails.
  ghost function Taken(t: Tables, preview: Preview, delay: Time, now: Time): Option<Tables> {
    if preview.commitTime == None then None
    else Created(t, preview.info, SnapshotPath(Aur, preview.info.name, preview.commit), preview.commit, preview.digest,
                 EligibleAtFromCommit(preview.commitTime.value, delay, now), now)
  }

  ghost predicate Passes(t: Tables, p: Id, head: Option<string>, preview: Option<Preview>) {
    head == None || HasVersion(t, p, head.value) || preview == None
  }

  ghost function Polled(t: Tables, p: Id, head: Option<string>, preview: Option<Preview>, delay: Time,
                        now: Time): Tables {
    if Passes(t, p, head, preview) || Taken(t, preview.value, delay, now) == None then t
    else Taken(t, preview.value, delay, now).value
  }

  method PollPackage(db: Database, p: Id, head: Option<string>, preview: Option<Preview>, delay: Time, now: Time,
                     commits: bool)
    returns (r: Result<bool>)
    requires Indexed(db.tables)
    modifies db
    ensures db.tables == if r.Failure? then old(db.tables) else Polled(old(db.tables), p, head, preview, delay, now)
    ensures (r.Success? && !r.value) <==> Passes(old(db.tables), p, head, preview)
    ensures r.Failure? <==> !Passes(old(db.tables), p, head, preview)
                            && (Taken(old(db.tables), preview.value, delay, now) == None || !commits)
    ensures r.Success? && r.value && preview.value.info.kind == Aur ==>
              && preview.value.commitTime.Some?
              && forall s: System :: s.db == old(db.tables) ==>
                   db.tables == Step(s, AcceptOf(preview.value, delay, now)).db
  {
    if head == None {
      return Success(false);
    }
    var known := FindVersion(db.tables, p, head.value);
    if known.Some? || preview == None {
      return Success(false);
    }
    var at := preview.value;
    if at.commitTime == None {
      return Failure("read commit time");
    }
    var eligibleAt := EligibleAtFromCommit(at.commitTime.value, delay, now);
    var path := SnapshotPath(Aur, at.info.name, at.commit);
    var id := db.CreatePackage(at.info, path, at.commit, at.digest, eligibleAt, now, commits);
    r := if id.Success? then Success(true) else Failure(id.error);
  }

  // A poll that accepts is an accept step of the protocol, so a polled commit
  // waits for the delay like any other.
  lemma TakenIsStep(s: System, preview: Preview, delay: Time, now: Time)
    requires preview.info.kind == Aur && Taken(s.db, preview, delay, now).Some?
    ensures preview.commitTime.Some?
    ensures var e := AcceptAur(preview.info, preview.commit, preview.digest, preview.commitTime.value, delay);
            Taken(s.db, preview, delay, now).value == Step(s, Stamp(now, e)).db
  {
  }

  // The condition under which the latest version of package p, which was
  // latest, has the polled head after the poll.
  ghost predicate Follows(t: Tables, p: Id, head: string, preview: Preview, now: Time, latest: Id)
    requires p in t.packages && latest in t.versions
  {
    || t.versions[latest].revision == head
    || (&& !HasVersion(t, p, head)
        && preview.info.name == t.packages[p].name
        && preview.commit == head
        && preview.commitTime.Some? && DistinctNames(preview.info.dependencies)
        && t.versions[latest].firstSeenAt <= now)
  }

  ghost predicate NumbersVersions(t: Tables) {
    forall v :: v in t.versions ==> v < t.nextVersion
  }

  // One version more: it becomes the latest of its package unless the clock
  // stands before the time at which the latest was seen.
  lemma LatestAfter(t: Tables, q: Id, revision: string, now: Time, s: Tables, p: Id, latest: Id)
    requires NumbersVersions(t) && VersionAdded(t, q, revision, now, s)
    requires s.versions[t.nextVersion].firstSeenAt == now
    requires IsLatest(t, latest, p)
    ensures IsLatest(s, if p == q && t.versions[latest].firstSeenAt <= now then t.nextVersion else latest, p)
  {
    forall w ensures OfPackage(s, w, p) <==> OfPackage(t, w, p) || (w == t.nextVersion && p == q) {
    }
  }

  // The package row does not matter to the latest version.
  lemma LatestStays(t: Tables, s: Tables, p: Id, latest: Id)
    requires IsLatest(t, latest, p) && s.versions == t.versions
    ensures IsLatest(s, latest, p)
  {
    assert forall w :: OfPackage(s, w, p) <==> OfPackage(t, w, p);
  }

  // Versions refer to packages, so a version of the package with a name means there is one.
  lemma KnownHasPackage(t: Tables, name: string, revision: string)
    requires Consistent(t) && HasVersion(t, PackageId(t, name), revision)
    ensures HasPackage(t, name)
  {
  }

  lemma LatestExists(t: Tables, latest: Id, p: Id)
    requires IsLatest(t, latest, p)
    ensures latest in t.versions
  {
  }

  lemma VersionsStay(t: Tables, q: Id, info: PackageInfo, path: string)
    requires Counted(t)
    ensures WithPackage(t, q, info, path).versions == t.versions
    ensures WithPackage(t, q, info, path).nextVersion == t.nextVersion && NumbersVersions(t)
    ensures NumbersVersions(WithPackage(t, q, info, path))
  {
  }

  lemma SamePackageByName(t: Tables, p: Id, name: string)
    requires UniqueNames(t) && Counted(t) && p in t.packages
    ensures PackageId(t, name) == p <==> t.packages[p].name == name
  {
    assert IsPackage(t, p, t.packages[p].name);
  }

  lemma SeenNow(t: Tables, preview: Preview, delay: Time, now: Time)
    requires Consistent(t) && !HasVersion(t, PackageId(t, preview.info.name), preview.commit)
    requires Taken(t, preview, delay, now).Some?
    ensures var s := Taken(t, preview, delay, now).value;
            t.nextVersion in s.versions && s.versions[t.nextVersion].firstSeenAt == now
  {
    SameVersions(t, WithPackage(t, PackageId(t, preview.info.name), preview.info,
                                SnapshotPath(Aur, preview.info.name, preview.commit)),
                 PackageId(t, preview.info.name), preview.commit);
  }

  lemma AddedRevisions(t: Tables, q: Id, revision: string, now: Time, s: Tables)
    requires NumbersVersions(t) && VersionAdded(t, q, revision, now, s)
    ensures t.nextVersion in s.versions && s.versions[t.nextVersion].revision == revision
    ensures forall v :: v in t.versions ==> v in s.versions && s.versions[v] == t.versions[v]
  {
  }

  lemma {:induction false} TakenLatest(t: Tables, p: Id, preview: Preview, delay: Time, now: Time,
                                       latest: Id) returns (v: Id)
    requires Consistent(t) && p in t.packages && IsLatest(t, latest, p)
    requires Taken(t, preview, delay, now).Some?
    ensures var s, known := Taken(t, preview, delay, now).value,
                            HasVersion(t, PackageId(t, preview.info.name), preview.commit);
            && IsLatest(s, v, p)
            && if !known && preview.info.name == t.packages[p].name && t.versions[latest].firstSeenAt <= now
               then s.versions[v].revision == preview.commit
               else s.versions[v].revision == t.versions[latest].revision
  {
    hide IsLatest, HasVersion, VersionAdded, Created, WithPackage;
    var q, path := PackageId(t, preview.info.name), SnapshotPath(Aur, preview.info.name, preview.commit);
    var due := EligibleAtFromCommit(preview.commitTime.value, delay, now);
    var s := Taken(t, preview, delay, now).value;
    var t1 := WithPackage(t, q, preview.info, path);
    SamePackageByName(t, p, preview.info.name);
    VersionsStay(t, q, preview.info, path);
    LatestStays(t, t1, p, latest);
    v := latest;
    LatestExists(t, latest, p);
    if HasVersion(t, q, preview.commit) {
      KnownHasPackage(t, preview.info.name, preview.commit);
      KnownRevision(t, preview.info, path, preview.commit, preview.digest, due, now);
      LatestStays(t, s, p, latest);
    } else {
      NewRevision(t, preview.info, path, preview.commit, preview.digest, due, now);
      SeenNow(t, preview, delay, now);
      LatestAfter(t1, q, preview.commit, now, s, p, latest);
      AddedRevisions(t1, q, preview.commit, now, s);
      if p == q && t.versions[latest].firstSeenAt <= now {
        v := t.nextVersion;
      }
    }
  }

  lemma LatestIsKnown(t: Tables, p: Id, latest: Id)
    requires IsLatest(t, latest, p)
    ensures HasVersion(t, p, t.versions[latest].revision)
  {
    assert IsVersion(t, latest, p, t.versions[latest].revision);
  }

  // An accept goes through exactly when it has a commit time and a known
  // revision or distinct dependency names.
  lemma TakenWhen(t: Tables, preview: Preview, delay: Time, now: Time)
    requires Consistent(t)
    ensures Taken(t, preview, delay, now).Some? <==>
            && preview.commitTime.Some?
            && (|| HasVersion(t, PackageId(t, preview.info.name), preview.commit)
                || DistinctNames(preview.info.dependencies))
  {
    hide Created, HasVersion;
    var q, path := PackageId(t, preview.info.name), SnapshotPath(Aur, preview.info.name, preview.commit);
    if preview.commitTime.Some? {
      var due := EligibleAtFromCommit(preview.commitTime.value, delay, now);
      if HasVersion(t, q, preview.commit) {
        KnownHasPackage(t, preview.info.name, preview.commit);
        KnownRevision(t, preview.info, path, preview.commit, preview.digest, due, now);
      } else {
        NewRevision(t, preview.info, path, preview.commit, preview.digest, due, now);
      }
    }
  }

  // After a poll the package's latest version has the head as its revision
  // exactly when it had so before, or the head was unknown, the preview is
  // of the same package and commit and can be stored, and the clock has not
  // gone back behind the latest version.
  lemma {:induction false} PollFollowsHead(t: Tables, p: Id, head: string, preview: Preview, delay: Time, now: Time,
                                           latest: Id)
    requires Consistent(t) && p in t.packages && IsLatest(t, latest, p)
    ensures var s := Polled(t, p, Some(head), Some(preview), delay, now);
            && (exists v :: IsLatest(s, v, p))
            && forall v :: IsLatest(s, v, p) ==>
                 (s.versions[v].revision == head <==> Follows(t, p, head, preview, now, latest))
  {
    hide IsLatest, Created;
    var s := Polled(t, p, Some(head), Some(preview), delay, now);
    var v := latest;
    LatestExists(t, latest, p);
    LatestIsKnown(t, p, latest);
    TakenWhen(t, preview, delay, now);
    SamePackageByName(t, p, preview.info.name);
    if !Passes(t, p, Some(head), Some(preview)) && Taken(t, preview, delay, now).Some? {
      v := TakenLatest(t, p, preview, delay, now, latest);
    }
    forall w | IsLatest(s, w, p) ensures w == v {
      OneLatest(s, w, v, p);
    }
  }
}
