// The source path a claim returns is the snapshot of the version it returns,
// in every run where an accept never brings back a revision other than the
// latest; and one accept of a known revision keeps that exactly when the
// revision is the latest one.
module SourcePaths {
  import opened Database
  import opened Evolution
  import opened Freshness
  import opened Invariants
  import opened Options
  import opened Packages
  import opened Paths
  import opened Protocol
  import opened Strings
  import opened Tables

  ghost predicate PathOf(t: Tables, v: Id, p: Id)
    requires v in t.versions && p in t.packages
  {
    t.packages[p].sourcePath == SnapshotPath(t.versions[v].kind, t.packages[p].name, t.versions[v].revision)
  }

  // Each package points at the snapshot of its latest version.
  ghost predicate PathsAgree(t: Tables) {
    forall v, p :: p in t.packages && IsLatest(t, v, p) ==> PathOf(t, v, p)
  }

  // A revision that is already known is the latest of its package, from the same source.
  ghost predicate BringsLatest(t: Tables, info: PackageInfo, revision: string) {
    forall v :: IsVersion(t, v, PackageId(t, info.name), revision) && HasPackage(t, info.name)
      ==> IsLatest(t, v, PackageId(t, info.name)) && t.versions[v].kind == info.kind
  }

  ghost predicate AcceptsLatest(t: Tables, e: Event) {
    match e
    case AcceptLocal(info, contents) => BringsLatest(t, info, contents)
    case AcceptAur(info, commit, _, _, _) => BringsLatest(t, info, commit)
    case _ => true
  }

  ghost predicate NeverReverts(s: System, run: seq<Stamp>)
    requires Legal(s, run)
  {
    forall i :: 0 <= i < |run| ==> AcceptsLatest(At(s, run, i).db, run[i].event)
  }

  // ---- Steps ----

  // Latest versions depend on the version rows only.
  lemma SameLatest(t: Tables, s: Tables)
    requires t.versions == s.versions
    ensures forall v, p :: IsLatest(t, v, p) <==> IsLatest(s, v, p)
  {
    forall v, p ensures IsLatest(t, v, p) <==> IsLatest(s, v, p) {
      assert forall w :: OfPackage(t, w, p) <==> OfPackage(s, w, p);
    }
  }

  lemma ReacceptKeepsPaths(t: Tables, info: PackageInfo, revision: string)
    requires Consistent(t) && PathsAgree(t) && BringsLatest(t, info, revision)
    requires HasVersion(t, PackageId(t, info.name), revision)
    ensures PathsAgree(WithPackage(t, PackageId(t, info.name), info, SnapshotPath(info.kind, info.name, revision)))
  {
    var p := PackageId(t, info.name);
    var s := WithPackage(t, p, info, SnapshotPath(info.kind, info.name, revision));
    SameLatest(t, s);
    var v :| IsVersion(t, v, p, revision);
    forall w | IsLatest(s, w, p) ensures PathOf(s, w, p) {
      assert p in t.packages;
      OneLatest(t, v, w, p);
    }
    forall w, q | q in s.packages && q != p && IsLatest(s, w, q) ensures PathOf(s, w, q) {
      assert PathOf(t, w, q);
    }
  }

  lemma NewVersionKeepsPaths(t: Tables, info: PackageInfo, revision: string, now: Time, s: Tables)
    requires Consistent(t) && PathsAgree(t) && SeenBy(t, now)
    requires var p := PackageId(t, info.name);
             var t1 := WithPackage(t, p, info, SnapshotPath(info.kind, info.name, revision));
             VersionAdded(t1, p, revision, now, s)
    requires s.versions[t.nextVersion].firstSeenAt == now && s.versions[t.nextVersion].kind == info.kind
    ensures PathsAgree(s)
  {
    var p := PackageId(t, info.name);
    var v := t.nextVersion;
    assert IsLatest(s, v, p);
    forall w, q | q in s.packages && IsLatest(s, w, q) ensures PathOf(s, w, q) {
      if q == p {
        OneLatest(s, v, w, p);
      } else {
        assert forall u :: OfPackage(t, u, q) ==> OfPackage(s, u, q) && s.versions[u] == t.versions[u];
        assert IsLatest(t, w, q);
      }
    }
  }

  lemma AcceptKeepsPaths(s: System, info: PackageInfo, revision: string, digest: string, eligibleAt: Time, now: Time)
    requires Inv(s) && Fresh(s) && PathsAgree(s.db) && now >= s.clock && BringsLatest(s.db, info, revision)
    ensures PathsAgree(Accepted(s, info, revision, digest, eligibleAt, now))
  {
    var t, p, path := s.db, PackageId(s.db, info.name), SnapshotPath(info.kind, info.name, revision);
    var t1 := WithPackage(t, p, info, path);
    var after := Accepted(s, info, revision, digest, eligibleAt, now);
    AcceptCases(s, info, revision, digest, eligibleAt, now);
    SameVersions(t, t1, p, revision);
    if HasVersion(t1, p, revision) {
      ReacceptKeepsPaths(t, info, revision);
    } else if after != t {
      NewVersionKeepsPaths(t, info, revision, now, after);
    }
  }

  lemma RestKeepsPaths(t: Tables, s: Tables)
    requires PathsAgree(t) && s.versions == t.versions && s.packages == t.packages
    ensures PathsAgree(s)
  {
    SameLatest(t, s);
    forall v, p | p in s.packages && IsLatest(s, v, p) ensures PathOf(s, v, p) {
      assert PathOf(t, v, p);
    }
  }

  lemma RemoveKeepsPaths(t: Tables, p: Id)
    requires PathsAgree(t)
    ensures PathsAgree(Without(t, p))
  {
    var s := Without(t, p);
    forall v, q | q in s.packages && IsLatest(s, v, q) ensures PathOf(s, v, q) {
      assert forall w :: OfPackage(t, w, q) ==> OfPackage(s, w, q);
      assert IsLatest(t, v, q);
    }
  }

  lemma RemovedKeepsPaths(t: Tables, name: string)
    requires PathsAgree(t)
    ensures PathsAgree(Removed(t, name))
  {
    RemoveKeepsPaths(t, PackageId(t, name));
  }

  lemma ClaimKeepsVersions(s: System, now: Time)
    ensures Claimed(s, now).db.versions == s.db.versions && Claimed(s, now).db.packages == s.db.packages
  {
  }

  lemma {:induction false} StepKeepsPaths(s: System, stamp: Stamp)
    requires Inv(s) && Fresh(s) && PathsAgree(s.db) && Enabled(s, stamp.event) && stamp.now >= s.clock
    requires AcceptsLatest(s.db, stamp.event)
    ensures PathsAgree(Step(s, stamp).db)
  {
    hide Inv, Fresh, PathsAgree, Accepted, Claimed, Removed, WithMark, WithArtifacts;
    var now := stamp.now;
    if MarksOnly(stamp.event) {
      MarksChange(s, stamp);
    }
    match stamp.event
    case AcceptLocal(info, contents) => AcceptKeepsPaths(s, info, contents, contents, now, now);
    case AcceptAur(info, commit, contents, commitTime, delay) =>
      AcceptKeepsPaths(s, info, commit, contents, EligibleAtFromCommit(commitTime, delay, now), now);
    case Claim =>
      ClaimKeepsVersions(s, now);
      RestKeepsPaths(s.db, Claimed(s, now).db);
    case Remove(name) => RemovedKeepsPaths(s.db, name);
    case _ => RestKeepsPaths(s.db, Step(s, stamp).db);
  }

  lemma {:induction false} PathsAlwaysAgree(s: System, run: seq<Stamp>, m: nat)
    requires Initial(s) && Legal(s, run) && Forward(s, run) && NeverReverts(s, run) && m <= |run|
    ensures Inv(At(s, run, m)) && Fresh(At(s, run, m)) && PathsAgree(At(s, run, m).db)
  {
    AlwaysFresh(s, run, m);
    if m == 0 {
      assert At(s, run, 0) == s;
    } else {
      hide Inv, Fresh, PathsAgree, Step, AcceptsLatest;
      PathsAlwaysAgree(s, run, m - 1);
      AtStep(s, run, m - 1);
      StepKeepsPaths(At(s, run, m - 1), run[m - 1]);
    }
  }

  // What ClaimJob returns in such a run: the snapshot stored for the version.
  lemma {:induction false} ClaimedPath(s: System, run: seq<Stamp>, m: nat, now: Time, claim: Claim)
    requires Initial(s) && Legal(s, run) && Forward(s, run) && NeverReverts(s, run) && m <= |run|
    requires Answers(At(s, run, m).db, now, claim) && claim.Claim?
    ensures var t := At(s, run, m).db;
            claim.packageVersion in t.versions
            && claim.sourcePath == SnapshotPath(t.versions[claim.packageVersion].kind, claim.packageName,
                                                t.versions[claim.packageVersion].revision)
  {
    PathsAlwaysAgree(s, run, m);
    var t := At(s, run, m).db;
    assert IsLatest(t, claim.packageVersion, t.versions[claim.packageVersion].packageId);
  }

  // ---- The condition is exact ----

  lemma SnapshotPathsDiffer(a: SourceKind, b: SourceKind, name: string, r: string, q: string)
    ensures SnapshotPath(a, name, r) == SnapshotPath(b, name, q) <==> a == b && r == q
  {
    var x, y := SnapshotPath(a, name, r), SnapshotPath(b, name, q);
    assert x[8] == KindText(a)[0] && y[8] == KindText(b)[0];
    var n := |"sources/" + KindText(a) + "/" + name + "/"|;
    if a == b {
      assert x[n..] == r && y[n..] == q;
    }
  }

  // Accepting a revision that is already known keeps the path of its package
  // right exactly when the revision and source are those of the latest version.
  lemma ReacceptExactly(t: Tables, info: PackageInfo, revision: string, v: Id, latest: Id)
    requires Consistent(t) && HasPackage(t, info.name) && IsVersion(t, v, PackageId(t, info.name), revision)
    requires IsLatest(t, latest, PackageId(t, info.name))
    ensures var p := PackageId(t, info.name);
            var s := WithPackage(t, p, info, SnapshotPath(info.kind, info.name, revision));
            IsLatest(s, latest, p) && (PathOf(s, latest, p) <==> v == latest && t.versions[v].kind == info.kind)
  {
    var p := PackageId(t, info.name);
    var s := WithPackage(t, p, info, SnapshotPath(info.kind, info.name, revision));
    SameLatest(t, s);
    SnapshotPathsDiffer(info.kind, t.versions[latest].kind, info.name, revision, t.versions[latest].revision);
  }

  // A name that is one element of a path.
  predicate IsElement(s: string) {
    s != "" && s != "." && s != ".." && '/' !in s
  }

  lemma JoinOfFourElements(a: string, b: string, c: string, d: string)
    ensures Join([a, b, c, d], '/') == a + "/" + b + "/" + c + "/" + d
  {
    assert [a, b, c, d][1..] == [b, c, d] && [b, c, d][1..] == [c, d] && [c, d][1..] == [d];
    assert Join([c, d], '/') == c + "/" + d;
    assert Join([b, c, d], '/') == b + "/" + (c + "/" + d);
    assert Join([a, b, c, d], '/') == a + "/" + (b + "/" + (c + "/" + d));
  }

  lemma PathIsClean(kind: SourceKind, name: string, revision: string)
    requires IsElement(name) && IsElement(revision)
    ensures Clean(SnapshotPath(kind, name, revision)) == SnapshotPath(kind, name, revision)
    ensures Components(SnapshotPath(kind, name, revision))
            == ["sources", if kind == Aur then "aur" else "local", name, revision]
  {
    var parts := ["sources", KindText(kind), name, revision];
    var path := SnapshotPath(kind, name, revision);
    assert path == Join(parts, '/') by {
      hide KindText;
      JoinOfFourElements("sources", KindText(kind), name, revision);
    }
    assert Proper(false, parts);
    SplitOfJoin(parts, '/');
    ProperIsClean(false, parts);
    assert path[0] == 's';
  }

  // filepath.Join cleans what it joins. For names and revisions that are path
  // elements it changes nothing, so different revisions have different paths.
  lemma JoinedPathsDiffer(a: SourceKind, b: SourceKind, name: string, r: string, q: string)
    requires IsElement(name) && IsElement(r) && IsElement(q)
    ensures Clean(SnapshotPath(a, name, r)) == SnapshotPath(a, name, r)
    ensures Components(SnapshotPath(a, name, r)) == ["sources", if a == Aur then "aur" else "local", name, r]
    ensures Clean(SnapshotPath(a, name, r)) == Clean(SnapshotPath(b, name, q)) <==> a == b && r == q
  {
    PathIsClean(a, name, r);
    PathIsClean(b, name, q);
    SnapshotPathsDiffer(a, b, name, r, q);
  }

  // ---- Over whole runs, with any clock ----

  // The tables a step leaves as a committed accept.
  ghost function Accepting(s: System, stamp: Stamp): Option<Tables> {
    match stamp.event
    case AcceptLocal(info, contents) =>
      Created(s.db, info, SnapshotPath(info.kind, info.name, contents), contents, contents, stamp.now, stamp.now)
    case AcceptAur(info, commit, contents, commitTime, delay) =>
      Created(s.db, info, SnapshotPath(info.kind, info.name, commit), commit, contents,
              EligibleAtFromCommit(commitTime, delay, stamp.now), stamp.now)
    case _ => None
  }

  function Info(e: Event): PackageInfo
    requires Accepts(e)
  {
    e.info
  }

  function Revision(e: Event): string
    requires Accepts(e)
  {
    if e.AcceptLocal? then e.contents else e.commit
  }

  // The step is a committed accept of package p.
  ghost predicate AcceptsFor(s: System, stamp: Stamp, p: Id) {
    Accepts(stamp.event) && Accepting(s, stamp).Some? && PackageId(s.db, Info(stamp.event).name) == p
  }

  // The package row and the versions of p are the same.
  ghost predicate SamePackage(t: Tables, s: Tables, p: Id) {
    && p in t.packages && p in s.packages && s.packages[p] == t.packages[p]
    && (forall v :: OfPackage(s, v, p) <==> OfPackage(t, v, p))
    && (forall v :: OfPackage(t, v, p) ==> s.versions[v] == t.versions[v])
  }

  lemma AcceptSetsPath(s: System, stamp: Stamp, p: Id)
    requires Inv(s) && Enabled(s, stamp.event) && AcceptsFor(s, stamp, p)
    ensures Accepts(stamp.event)
    ensures var t, e := Step(s, stamp).db, stamp.event;
            && p in t.packages && t.packages[p].name == Info(e).name
            && t.packages[p].sourcePath == SnapshotPath(Info(e).kind, Info(e).name, Revision(e))
  {
  }

  lemma AddedElsewhere(t: Tables, q: Id, revision: string, now: Time, s: Tables, p: Id)
    requires Counted(t) && VersionAdded(t, q, revision, now, s) && p in t.packages && p != q
    ensures SamePackage(t, s, p)
  {
  }

  lemma {:induction false} AcceptKeepsOthers(s: System, info: PackageInfo, revision: string, digest: string,
                                             eligibleAt: Time, now: Time, p: Id)
    requires Inv(s) && p in s.db.packages
    requires var path := SnapshotPath(info.kind, info.name, revision);
             var after := Created(s.db, info, path, revision, digest, eligibleAt, now);
             after.Some? ==> PackageId(s.db, info.name) != p
    ensures SamePackage(s.db, Accepted(s, info, revision, digest, eligibleAt, now), p)
  {
    AcceptCases(s, info, revision, digest, eligibleAt, now);
    hide VersionAdded;
    var q := PackageId(s.db, info.name);
    var t1 := WithPackage(s.db, q, info, SnapshotPath(info.kind, info.name, revision));
    var after := Accepted(s, info, revision, digest, eligibleAt, now);
    if after != s.db && !HasVersion(t1, q, revision) {
      AddedElsewhere(t1, q, revision, now, after, p);
    }
  }

  lemma RemovedKeepsOthers(t: Tables, name: string, p: Id)
    requires p in t.packages && p in Removed(t, name).packages
    ensures SamePackage(t, Removed(t, name), p)
  {
  }

  lemma SameRowsSame(t: Tables, s: Tables, p: Id)
    requires p in t.packages && s.packages == t.packages && s.versions == t.versions
    ensures SamePackage(t, s, p)
  {
  }

  lemma {:induction false} OthersKeep(s: System, stamp: Stamp, p: Id)
    requires Inv(s) && Enabled(s, stamp.event) && !AcceptsFor(s, stamp, p)
    requires p in s.db.packages && p in Step(s, stamp).db.packages
    ensures SamePackage(s.db, Step(s, stamp).db, p)
  {
    hide Inv, Accepted, Claimed, Removed, WithMark, WithArtifacts, SamePackage;
    var now := stamp.now;
    if MarksOnly(stamp.event) {
      MarksChange(s, stamp);
      SameRowsSame(s.db, Step(s, stamp).db, p);
    }
    match stamp.event
    case AcceptLocal(info, contents) => AcceptKeepsOthers(s, info, contents, contents, now, now, p);
    case AcceptAur(info, commit, contents, commitTime, delay) =>
      AcceptKeepsOthers(s, info, commit, contents, EligibleAtFromCommit(commitTime, delay, now), now, p);
    case Claim =>
      ClaimKeepsVersions(s, now);
      SameRowsSame(s.db, Claimed(s, now).db, p);
    case Remove(name) => RemovedKeepsOthers(s.db, name, p);
    case _ =>
  }

  // No committed accept of p from step i on, up to m.
  ghost predicate Quiet(s: System, run: seq<Stamp>, i: nat, m: nat, p: Id)
    requires Legal(s, run) && m <= |run|
  {
    forall k :: i <= k < m ==> !AcceptsFor(At(s, run, k), run[k], p)
  }

  lemma StillThere(a: System, b: System, c: System, p: Id)
    requires Inv(a) && Evolved(a.db, b.db) && Evolved(b.db, c.db) && p in a.db.packages && p in c.db.packages
    ensures p in b.db.packages
  {
  }

  lemma {:induction false} QuietKeeps(s: System, run: seq<Stamp>, i: nat, m: nat, p: Id)
    requires Inv(s) && Legal(s, run) && i <= m <= |run| && Quiet(s, run, i, m, p)
    requires p in At(s, run, i).db.packages && p in At(s, run, m).db.packages
    ensures SamePackage(At(s, run, i).db, At(s, run, m).db, p)
  {
    hide Inv, Step, AcceptsFor, Enabled, Final, Legal;
    Between(s, run, i, i);
    if i < m {
      Between(s, run, i, m - 1);
      Between(s, run, m - 1, m);
      StillThere(At(s, run, i), At(s, run, m - 1), At(s, run, m), p);
      QuietKeeps(s, run, i, m - 1, p);
      AtStep(s, run, m - 1);
      OthersKeep(At(s, run, m - 1), run[m - 1], p);
    }
  }

  // The path of a package is that of its latest version exactly when its last
  // committed accept brought the revision and kind of that version.
  lemma {:induction false} PathExactly(s: System, run: seq<Stamp>, i: nat, m: nat, p: Id, v: Id)
    requires Initial(s) && Legal(s, run) && i < m <= |run|
    requires AcceptsFor(At(s, run, i), run[i], p) && Quiet(s, run, i + 1, m, p)
    requires p in At(s, run, m).db.packages && IsLatest(At(s, run, m).db, v, p)
    ensures IsLatest(At(s, run, i + 1).db, v, p)
    ensures var t, e := At(s, run, m).db, run[i].event;
            PathOf(t, v, p) <==> t.versions[v].revision == Revision(e) && t.versions[v].kind == Info(e).kind
  {
    hide Inv, Step, AcceptsFor, Enabled, Final, Legal;
    InitialIsInv(s);
    Between(s, run, i, m);
    AtStep(s, run, i);
    AcceptSetsPath(At(s, run, i), run[i], p);
    QuietKeeps(s, run, i + 1, m, p);
    var t, e := At(s, run, m).db, run[i].event;
    SnapshotPathsDiffer(Info(e).kind, t.versions[v].kind, Info(e).name, Revision(e), t.versions[v].revision);
  }

  lemma NoPackageYet(s: System, run: seq<Stamp>, p: Id)
    requires Initial(s) && Legal(s, run)
    ensures p !in At(s, run, 0).db.packages
  {
    assert At(s, run, 0) == s;
  }

  lemma AcceptAddsOne(s: System, info: PackageInfo, revision: string, digest: string, eligibleAt: Time, now: Time,
                      p: Id)
    requires Inv(s) && p in Accepted(s, info, revision, digest, eligibleAt, now).packages
    requires var path := SnapshotPath(info.kind, info.name, revision);
             var after := Created(s.db, info, path, revision, digest, eligibleAt, now);
             after.Some? ==> PackageId(s.db, info.name) != p
    ensures p in s.db.packages
  {
    AcceptCases(s, info, revision, digest, eligibleAt, now);
  }

  lemma {:induction false} OnlyAcceptsAddPackages(s: System, stamp: Stamp, p: Id)
    requires Inv(s) && Enabled(s, stamp.event) && !AcceptsFor(s, stamp, p) && p in Step(s, stamp).db.packages
    ensures p in s.db.packages
  {
    hide Inv, Accepted, Claimed, WithMark, WithArtifacts;
    if MarksOnly(stamp.event) {
      MarksChange(s, stamp);
    }
    match stamp.event
    case AcceptLocal(info, contents) => AcceptAddsOne(s, info, contents, contents, stamp.now, stamp.now, p);
    case AcceptAur(info, commit, contents, commitTime, delay) =>
      AcceptAddsOne(s, info, commit, contents, EligibleAtFromCommit(commitTime, delay, stamp.now), stamp.now, p);
    case Claim => ClaimKeepsVersions(s, stamp.now);
    case _ =>
  }

  lemma AnsweredLatest(t: Tables, now: Time, claim: Claim)
    requires Answers(t, now, claim) && claim.Claim?
    ensures claim.packageVersion in t.versions
    ensures var p := t.versions[claim.packageVersion].packageId;
            && p in t.packages && IsLatest(t, claim.packageVersion, p)
            && claim.packageName == t.packages[p].name && claim.sourcePath == t.packages[p].sourcePath
  {
  }

  // What ClaimJob returns, in any run: the snapshot of the version it returns
  // exactly when the package's last committed accept brought that version.
  lemma {:induction false} ClaimedPathExactly(s: System, run: seq<Stamp>, i: nat, m: nat, now: Time, claim: Claim)
    requires Initial(s) && Legal(s, run) && i < m <= |run|
    requires Answers(At(s, run, m).db, now, claim) && claim.Claim?
    requires var p := At(s, run, m).db.versions[claim.packageVersion].packageId;
             AcceptsFor(At(s, run, i), run[i], p) && Quiet(s, run, i + 1, m, p)
    ensures var version, e := At(s, run, m).db.versions[claim.packageVersion], run[i].event;
            claim.sourcePath == SnapshotPath(version.kind, claim.packageName, version.revision)
            <==> version.revision == Revision(e) && version.kind == Info(e).kind
  {
    hide Initial, Legal, Final, Enabled, Step, AcceptsFor, Quiet, At;
    var t := At(s, run, m).db;
    AnsweredLatest(t, now, claim);
    PathExactly(s, run, i, m, t.versions[claim.packageVersion].packageId, claim.packageVersion);
  }

  // Every package has such a last accept.
  lemma {:induction false} LastAccept(s: System, run: seq<Stamp>, m: nat, p: Id) returns (i: nat)
    requires Initial(s) && Legal(s, run) && m <= |run| && p in At(s, run, m).db.packages
    ensures i < m && AcceptsFor(At(s, run, i), run[i], p) && Quiet(s, run, i + 1, m, p)
  {
    hide Initial, Inv, Step, AcceptsFor, Enabled, Legal, At, Final, Evolved;
    NoPackageYet(s, run, p);
    InitialIsInv(s);
    Between(s, run, 0, m - 1);
    AtStep(s, run, m - 1);
    if AcceptsFor(At(s, run, m - 1), run[m - 1], p) {
      i := m - 1;
    } else {
      OnlyAcceptsAddPackages(At(s, run, m - 1), run[m - 1], p);
      i := LastAccept(s, run, m - 1, p);
    }
  }
}
