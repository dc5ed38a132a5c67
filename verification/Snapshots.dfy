// CopyTree, and the agreement of the digest of a tree with the digest of its
// snapshot.
module Snapshots {
  import opened Options
  import opened Sorting
  import opened Strings
  import opened Trees

  // ---- CopyTree ----

  // filepath.Rel(source, path), as text.
  function RelText(p: Path): string {
    if p == [] then "." else Rel(p)
  }

  predicate NamedGit(rel: string) {
    rel == ".git" || HasPrefix(rel, ".git/")
  }

  lemma FirstSlash(name: string, rest: string)
    requires IsComponent(name)
    ensures !HasPrefix(name, ".git/")
    ensures name + ['/'] + rest != ".git"
    ensures HasPrefix(name + ['/'] + rest, ".git/") <==> name == ".git"
  {
    var s := name + ['/'] + rest;
    assert s[|name|] == '/' && forall i :: 0 <= i < |name| ==> s[i] == name[i] && s[i] != '/';
    if HasPrefix(s, ".git/") {
      assert s[..5] == ".git/" && s[4] == '/';
      assert |name| == 4;
      assert name == s[..4];
    }
    if name == ".git" {
      assert s[..5] == ".git/";
    }
    if |name| > 4 {
      assert name[4] in name;
    }
  }

  // The text comparison picks out exactly .git at the root and what is below it.
  lemma GitByName(p: Path)
    requires forall i :: 0 <= i < |p| ==> IsComponent(p[i])
    ensures NamedGit(RelText(p)) <==> InRootGit(p)
  {
    if |p| == 1 {
      FirstSlash(p[0], "");
    } else if |p| > 1 {
      FirstSlash(p[0], Join(p[1..], '/'));
    }
  }

  ghost predicate IsRootGitDir(files: Files, p: Path) {
    InRootGit(p) && p in files && files[p].Directory?
  }

  ghost predicate OutsideRootGit(files: Files, walk: seq<Path>, i: nat) {
    forall j, k :: 0 <= k < i && i <= j < |walk| && IsRootGitDir(files, walk[k]) ==> !Under(walk[k], walk[j])
  }

  lemma SkipKeepsOutsideRoot(files: Files, walk: seq<Path>, i: nat, next: nat)
    requires i < next <= |walk| && OutsideRootGit(files, walk, i)
    requires forall j :: i <= j < |walk| ==> (j < next <==> Under(walk[i], walk[j]))
    ensures OutsideRootGit(files, walk, next)
  {
    forall j, k | 0 <= k < next && next <= j < |walk| && IsRootGitDir(files, walk[k])
      ensures !Under(walk[k], walk[j])
    {
      UnderIsTransitive(walk[i], walk[k], walk[j]);
    }
  }

  // The entries to copy among the first i of the walk.
  ghost function KeptUpTo(files: Files, walk: seq<Path>, i: nat): set<Path>
    requires i <= |walk|
  {
    set p | p in walk[..i] && p in files && Kept(p, files[p])
  }

  lemma BelowGitIsNotKept(files: Files, d: Path, p: Path)
    requires InRootGit(d) && Under(d, p) && p in files
    ensures !Kept(p, files[p])
  {
  }

  lemma KeptAcrossSkip(files: Files, walk: seq<Path>, i: nat, next: nat)
    requires i < next <= |walk| && InRootGit(walk[i]) && Lists(files, walk)
    requires forall j :: i <= j < next ==> Under(walk[i], walk[j])
    ensures KeptUpTo(files, walk, next) == KeptUpTo(files, walk, i)
  {
    forall j | i <= j < next ensures !Kept(walk[j], files[walk[j]]) {
      assert walk[j] in walk;
      BelowGitIsNotKept(files, walk[i], walk[j]);
    }
    assert walk[..next] == walk[..i] + walk[i..next];
    forall p | p in walk[i..next] ensures p in files && !Kept(p, files[p]) {
      var j :| 0 <= j < next - i && walk[i..next][j] == p;
      assert walk[i + j] == p && walk[i + j] in walk;
    }
  }

  lemma KeptOneMore(files: Files, walk: seq<Path>, i: nat)
    requires i < |walk| && walk[i] in files
    ensures KeptUpTo(files, walk, i + 1) ==
            if Kept(walk[i], files[walk[i]]) then KeptUpTo(files, walk, i) + {walk[i]} else KeptUpTo(files, walk, i)
  {
    assert walk[..i + 1] == walk[..i] + [walk[i]];
  }

  lemma KeptAll(files: Files, walk: seq<Path>)
    requires Lists(files, walk)
    ensures KeptUpTo(files, walk, |walk|) == Copied(files).Keys
  {
    assert walk[..|walk|] == walk;
  }

  // The destination holds the entries copied so far and what it started with.
  ghost predicate CopiedSoFar(files: Files, done: set<Path>, start: Files, nodes: Files) {
    && nodes.Keys == start.Keys + done
    && (forall p :: p in done ==> p in files && nodes[p] == files[p] && !nodes[p].Symlink?)
    && (forall p :: p in nodes && p !in done ==> nodes[p] == start[p])
  }

  lemma CopyStarts(files: Files, start: Files)
    ensures CopiedSoFar(files, {}, start, start)
  {
  }

  lemma CopyOneMore(files: Files, done: set<Path>, start: Files, nodes: Files, p: Path)
    requires CopiedSoFar(files, done, start, nodes) && p in files && !files[p].Symlink?
    ensures CopiedSoFar(files, done + {p}, start, nodes[p := files[p]])
  {
  }

  lemma NothingKeptYet(files: Files, walk: seq<Path>)
    ensures KeptUpTo(files, walk, 0) == {}
  {
  }

  lemma CopyIsDone(files: Files, start: Files, nodes: Files)
    requires IsTree(files) && (start == map[] || start == map[[] := Directory])
    requires CopiedSoFar(files, Copied(files).Keys, start, nodes)
    ensures nodes == Copied(files) && Copyable(files)
  {
    assert [] in Copied(files);
    forall p | p in files && Kept(p, files[p]) ensures !files[p].Symlink? {
      assert p in Copied(files).Keys;
    }
  }

  class FileTree {
    var nodes: Files

    constructor (nodes: Files)
      ensures this.nodes == nodes
    {
      this.nodes := nodes;
    }

    // Copies a tree into a directory that is absent or empty.
    method CopyTree(files: Files, walk: seq<Path>) returns (ok: bool)
      requires IsTree(files) && IsWalk(files, walk)
      requires nodes == map[] || nodes == map[[] := Directory]
      modifies this
      ensures ok <==> Copyable(files)
      ensures ok ==> nodes == Copied(files)
    {
      hide ParentsFirst, Contiguous, KeptUpTo, RelText, NamedGit, IsBuildArtifact, Distinct, Copied, CopiedSoFar;
      CopyStarts(files, nodes);
      ghost var start := nodes;
      var i := 0;
      NothingKeptYet(files, walk);
      while i < |walk|
        invariant i <= |walk|
        invariant OutsideRootGit(files, walk, i)
        invariant CopiedSoFar(files, KeptUpTo(files, walk, i), start, nodes)
      {
        var p := walk[i];
        assert p in walk;
        GitByName(p);
        KeptOneMore(files, walk, i);
        if NamedGit(RelText(p)) {
          if files[p].Directory? {
            var next := SkipDir(walk, i, files);
            KeptAcrossSkip(files, walk, i, next);
            SkipKeepsOutsideRoot(files, walk, i, next);
            i := next;
          } else {
            i := i + 1;
          }
          continue;
        }
        if !files[p].Directory? && p != [] && IsBuildArtifact(p[|p| - 1]) {
          i := i + 1;
          continue;
        }
        if files[p].Symlink? {
          assert !Copyable(files);
          return false;
        }
        CopyOneMore(files, KeptUpTo(files, walk, i), start, nodes, p);
        nodes := nodes[p := if files[p].Directory? then Directory else Regular(files[p].content)];
        i := i + 1;
      }
      KeptAll(files, walk);
      CopyIsDone(files, start, nodes);
      ok := true;
    }
  }

  // What is copied: every directory and regular file outside a .git at the
  // root, but for build artifacts, as it is.
  lemma CopiedMeans(files: Files, p: Path)
    ensures p in Copied(files) <==>
              && p in files && (p == [] || p[0] != ".git")
              && (files[p].Directory? || p == [] || !Contains(p[|p| - 1], ".pkg.tar."))
    ensures p in Copied(files) ==> Copied(files)[p] == files[p]
  {
  }

  // ---- Agreement ----

  // The root holds something named .git that is not a directory.
  predicate HasGitFile(files: Files) {
    [".git"] in files && !files[[".git"]].Directory?
  }

  lemma CopyIsTree(files: Files)
    requires IsTree(files)
    ensures IsTree(Copied(files))
  {
    forall p | p in Copied(files) && p != [] ensures HasParent(Copied(files), p) {
      assert HasParent(files, p);
      var q := p[..|p| - 1];
      assert q != [] ==> q[0] == p[0];
    }
  }

  lemma NotAnArtifact()
    ensures !IsBuildArtifact(".git")
  {
    IndexIsFirst(".git", ".pkg.tar.");
    assert forall i :: !OccursAt(".git", ".pkg.tar.", i);
  }

  // What both sides hash, whatever their names, unless they are named .git:
  // every regular file outside directories named .git but for a .git at the root.
  ghost predicate Shared(files: Files, p: Path) {
    Hashed(files, "", p) && p != [".git"]
  }

  ghost function SharedRels(files: Files): set<string> {
    set p | p in files && Shared(files, p) :: Rel(p)
  }

  lemma SameFiles(files: Files, name: string, p: Path)
    requires IsTree(files) && name != ".git"
    ensures Hashed(files, name, p) <==> Shared(files, p) || (p == [".git"] && HasGitFile(files))
    ensures Hashed(Copied(files), name, p) <==> Shared(files, p)
  {
    hide IsBuildArtifact;
    NotAnArtifact();
    if |p| > 1 {
      assert p[..|p| - 1][0] == p[0];
    } else if |p| == 1 {
      assert p == [p[0]];
    }
  }

  lemma CopyReadsTheSame(files: Files, copyName: string, r: string)
    requires IsTree(files) && r in HashedRels(Copied(files), copyName)
    ensures ReadFile(files, r) == ReadFile(Copied(files), r)
  {
    var p :| p in Copied(files) && Hashed(Copied(files), copyName, p) && r == Rel(p);
    SplitOfRel(p);
  }

  lemma OnlyGitIsNamedGit(p: Path)
    requires p != [] && (forall i :: 0 <= i < |p| ==> IsComponent(p[i])) && Rel(p) == ".git"
    ensures p == [".git"]
  {
    SplitOfRel(p);
    SplitOfPlain(".git", '/');
  }

  lemma SharedIsThere(files: Files)
    ensures forall p :: Shared(files, p) ==> p in files
  {
  }

  // HashTree skips a root named .git whole. Under any other name it hashes
  // the shared files, and on the source side a .git at the root that is not a
  // directory besides.
  lemma SameRels(files: Files, name: string)
    requires IsTree(files)
    ensures ".git" !in SharedRels(files)
    ensures HashedRels(files, name)
            == if name == ".git" then {} else SharedRels(files) + if HasGitFile(files) then {".git"} else {}
    ensures HashedRels(Copied(files), name) == if name == ".git" then {} else SharedRels(files)
  {
    assert Rel([".git"]) == ".git";
    if p :| p in files && Shared(files, p) && ".git" == Rel(p) {
      OnlyGitIsNamedGit(p);
      assert false;
    }
    if name != ".git" {
      hide Rel, IsBuildArtifact, Shared, Hashed, IsTree;
      forall p ensures Hashed(files, name, p) <==> Shared(files, p) || (p == [".git"] && HasGitFile(files))
               ensures Hashed(Copied(files), name, p) <==> Shared(files, p) {
        SameFiles(files, name, p);
      }
      SharedIsThere(files);
      assert forall r :: r in HashedRels(files, name) <==> r in SharedRels(files) || (r == ".git" && HasGitFile(files));
    }
  }

  lemma CopiedStreams(files: Files, copyName: string, rels: seq<string>)
    requires IsTree(files) && forall r :: r in rels ==> r in HashedRels(Copied(files), copyName)
    ensures Stream(files, rels) == Stream(Copied(files), rels)
  {
    forall r | r in rels ensures ReadFile(files, r) == ReadFile(Copied(files), r) {
      CopyReadsTheSame(files, copyName, r);
    }
    SameStream(files, Copied(files), rels);
  }

  // A stream can be read exactly when each of its files can.
  lemma {:induction false} ReadableStream(files: Files, rels: seq<string>)
    ensures Stream(files, rels).Some? <==> forall r :: r in rels ==> ReadFile(files, r).Some?
  {
    if rels != [] {
      var n := |rels| - 1;
      assert rels[n] in rels;
      ReadableStream(files, rels[..n]);
    }
  }

  // A snapshot holds no links, so all of it can be read.
  lemma CopyIsReadable(files: Files, copyName: string, r: string)
    requires IsTree(files) && Copyable(files) && r in HashedRels(Copied(files), copyName)
    ensures ReadFile(Copied(files), r).Some?
  {
    var p :| p in Copied(files) && Hashed(Copied(files), copyName, p) && r == Rel(p);
    SplitOfRel(p);
  }

  // A name more in the list makes the stream longer.
  lemma LongerStream(files: Files, a: seq<string>, r: string, b: seq<string>)
    requires Stream(files, a + [r] + b).Some?
    ensures Stream(files, a + b).Some? && |Stream(files, a + b).value| < |Stream(files, a + [r] + b).value|
  {
    StreamOfConcat(files, a + [r], b);
    StreamOfConcat(files, a, [r]);
    StreamOfConcat(files, a, b);
    assert [r][..0] == [];
  }

  lemma WithoutOne(x: seq<string>, i: nat)
    requires Ascending(x) && i < |x|
    ensures Ascending(x[..i] + x[i + 1..])
    ensures Elements(x[..i] + x[i + 1..]) == Elements(x) - {x[i]}
  {
    hide Less;
    AscendingIsDistinct(x);
    var a, b := x[..i], x[i + 1..];
    assert x == a + [x[i]] + b;
    assert x[i] !in a && x[i] !in b;
    assert forall r :: r in a + b <==> r in a || r in b;
  }

  lemma OneNameMore(files: Files, x: seq<string>, y: seq<string>, r: string)
    requires Ascending(x) && Ascending(y) && r !in Elements(y) && Elements(x) == Elements(y) + {r}
    requires Stream(files, y).Some?
    ensures Stream(files, x) != Stream(files, y)
  {
    hide Stream;
    assert r in Elements(x);
    var i :| 0 <= i < |x| && x[i] == r;
    WithoutOne(x, i);
    assert Elements(x) - {r} == Elements(y);
    AscendingIsUnique(x[..i] + x[i + 1..], y);
    assert x == x[..i] + [r] + x[i + 1..];
    if Stream(files, x).Some? {
      LongerStream(files, x[..i], r, x[i + 1..]);
    }
  }

  lemma CopyStream(files: Files, copyName: string, rels: seq<string>)
    requires IsTree(files) && Copyable(files) && Elements(rels) == HashedRels(Copied(files), copyName)
    ensures Stream(Copied(files), rels).Some? && Stream(files, rels) == Stream(Copied(files), rels)
  {
    hide IsTree, Copyable, HashedRels, Copied, ReadFile, Stream;
    forall r | r in rels ensures r in HashedRels(Copied(files), copyName) && ReadFile(Copied(files), r).Some? {
      assert r in Elements(rels);
      CopyIsReadable(files, copyName, r);
    }
    ReadableStream(Copied(files), rels);
    CopiedStreams(files, copyName, rels);
  }

  // Every hashed file adds at least its NUL to the stream.
  lemma EmptyStream(files: Files, rels: seq<string>)
    ensures Stream(files, rels) == Some("") <==> rels == []
  {
  }

  // When the hashed streams of source and snapshot agree: under names other
  // than .git, unless the source root has a .git that is not a directory; a
  // root named .git hashes like an empty one, so the other has to be empty.
  ghost predicate Agree(files: Files, name: string, copyName: string) {
    if name == ".git" then copyName == ".git" || SharedRels(files) == {}
    else !HasGitFile(files) && (copyName == ".git" ==> SharedRels(files) == {})
  }

  lemma NoElements(x: seq<string>)
    ensures Elements(x) == {} <==> x == []
  {
    assert x != [] ==> x[0] in Elements(x);
  }

  lemma SnapshotAgrees(files: Files, name: string, copyName: string, a: Option<string>, b: Option<string>)
    requires IsTree(files) && Copyable(files)
    requires StreamOfTree(files, name, a) && StreamOfTree(Copied(files), copyName, b)
    ensures b.Some? && (a == b <==> Agree(files, name, copyName))
  {
    hide IsTree, Copyable, HashedRels, Copied, Stream, HasGitFile, SharedRels, Ascending;
    SameRels(files, name);
    SameRels(files, copyName);
    var x :| Ascending(x) && Elements(x) == HashedRels(files, name) && a == Stream(files, x);
    var y :| Ascending(y) && Elements(y) == HashedRels(Copied(files), copyName) && b == Stream(Copied(files), y);
    CopyStream(files, copyName, y);
    EmptyStream(files, x);
    EmptyStream(files, y);
    NoElements(x);
    NoElements(y);
    if Elements(x) == Elements(y) {
      AscendingIsUnique(x, y);
    } else if name != ".git" && copyName != ".git" {
      OneNameMore(files, x, y, ".git");
    }
  }

  // AcceptLocal's order of work: the digest of the preview, the copy into an
  // empty target, and the digest anybody can check on the target later.
  method Snapshot(files: Files, walk: seq<Path>, copyWalk: seq<Path>, source: string, name: string,
                  target: string, copyName: string, sha: string -> string)
    returns (ok: bool, digest: Option<string>, check: Option<string>)
    requires IsTree(files) && IsWalk(files, walk) && IsWalk(Copied(files), copyWalk)
    ensures ok <==> Copyable(files)
    ensures ok ==> check.Some?
    ensures ok && Agree(files, name, copyName) ==> digest == check
    ensures ok && Injective(sha) && digest == check ==> Agree(files, name, copyName)
  {
    hide Agree, Copied, Copyable, IsTree, IsWalk, StreamOfTree;
    digest := HashTree(files, source, name, walk, sha);
    ghost var stream :| && StreamOfTree(files, name, stream)
                        && digest == (if stream.Some? then Some(sha(stream.value)) else None);
    var tree := new FileTree(map[[] := Directory]);
    ok := tree.CopyTree(files, walk);
    check := None;
    if ok {
      CopyIsTree(files);
      check := HashTree(tree.nodes, target, copyName, copyWalk, sha);
      ghost var copyStream :| && StreamOfTree(Copied(files), copyName, copyStream)
                              && check == (if copyStream.Some? then Some(sha(copyStream.value)) else None);
      SnapshotAgrees(files, name, copyName, stream, copyStream);
    }
  }

  // ---- Trees on which the digests differ ----

  // A source with a regular .git at its root, and the same source without one.
  const WITH_GIT_FILE: Files :=
    map[[] := Directory, [".git"] := Regular("gitdir: elsewhere"), ["PKGBUILD"] := Regular("")]

  const PLAIN: Files := map[[] := Directory, ["PKGBUILD"] := Regular("")]

  lemma OneDeep(files: Files)
    requires [] in files && files[[]].Directory?
    requires forall p :: p in files && p != [] ==> |p| == 1 && IsComponent(p[0]) && files[p].Regular?
    ensures IsTree(files) && Copyable(files)
  {
    hide IsComponent;
  }

  lemma GitFileTree()
    ensures IsTree(WITH_GIT_FILE) && Copyable(WITH_GIT_FILE) && HasGitFile(WITH_GIT_FILE)
  {
    OneDeep(WITH_GIT_FILE);
  }

  lemma PkgbuildIsKept()
    ensures !IsBuildArtifact("PKGBUILD")
  {
    IndexIsFirst("PKGBUILD", ".pkg.tar.");
    assert forall i :: OccursAt("PKGBUILD", ".pkg.tar.", i) ==> i == 0 && "PKGBUILD"[0] == '.';
  }

  lemma RootFileIsShared(files: Files, file: string)
    requires [file] in files && files[[file]].Regular? && file != ".git" && !IsBuildArtifact(file)
    ensures Rel([file]) in SharedRels(files)
  {
    hide IsBuildArtifact, Rel;
    assert Shared(files, [file]);
  }

  lemma PlainTree()
    ensures IsTree(PLAIN) && Copyable(PLAIN) && SharedRels(PLAIN) != {}
  {
    hide Copyable, IsTree, Rel, SharedRels, IsBuildArtifact;
    OneDeep(PLAIN);
    PkgbuildIsKept();
    RootFileIsShared(PLAIN, "PKGBUILD");
  }

  lemma {:induction false} GitFileDisagrees(name: string, copyName: string, a: Option<string>, b: Option<string>)
    requires name != ".git"
    requires StreamOfTree(WITH_GIT_FILE, name, a) && StreamOfTree(Copied(WITH_GIT_FILE), copyName, b)
    ensures IsTree(WITH_GIT_FILE) && Copyable(WITH_GIT_FILE) && a != b
  {
    hide StreamOfTree, Copied, IsTree, Copyable, HasGitFile, SharedRels;
    GitFileTree();
    SnapshotAgrees(WITH_GIT_FILE, name, copyName, a, b);
  }

  lemma {:induction false} GitRootDisagrees(copyName: string, a: Option<string>, b: Option<string>)
    requires copyName != ".git"
    requires StreamOfTree(PLAIN, ".git", a) && StreamOfTree(Copied(PLAIN), copyName, b)
    ensures IsTree(PLAIN) && Copyable(PLAIN) && a != b
  {
    hide StreamOfTree, Copied, IsTree, Copyable, HasGitFile, SharedRels;
    PlainTree();
    SnapshotAgrees(PLAIN, ".git", copyName, a, b);
  }
}
