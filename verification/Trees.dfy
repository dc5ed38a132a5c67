// HashTree and CopyTree: the digest of a source tree and of its snapshot.
module Trees {
  import opened Options
  import opened Sorting
  import opened Strings

  // A path below the root of a tree, component by component.
  type Path = seq<string>

  // What reading a link gives is what its target holds, if it can be read.
  datatype Kind = Directory | Regular(content: string) | Symlink(target: Option<string>)

  type Files = map<Path, Kind>

  predicate IsComponent(name: string) {
    name != "" && '/' !in name
  }

  ghost predicate HasParent(files: Files, p: Path)
    requires p != []
  {
    p[..|p| - 1] in files && files[p[..|p| - 1]].Directory?
  }

  ghost predicate IsTree(files: Files) {
    && [] in files && files[[]].Directory?
    && (forall p {:trigger HasParent(files, p)} :: p in files && p != [] ==> HasParent(files, p))
    && (forall p, i :: p in files && 0 <= i < |p| ==> IsComponent(p[i]))
  }

  // p is the directory d or below it.
  predicate Under(d: Path, p: Path) {
    d <= p
  }

  lemma UnderIsTransitive(a: Path, b: Path, c: Path)
    ensures Under(a, b) && Under(b, c) ==> Under(a, c)
  {
  }

  ghost predicate Lists(files: Files, walk: seq<Path>) {
    (forall p :: p in walk <==> p in files) && Distinct(walk)
  }

  ghost predicate ParentsFirst(walk: seq<Path>) {
    forall i, j :: 0 <= i < |walk| && 0 <= j < |walk| && Under(walk[i], walk[j]) ==> i <= j
  }

  ghost predicate Contiguous(walk: seq<Path>) {
    forall i, j, k :: 0 <= i < j < k < |walk| && Under(walk[i], walk[k]) ==> Under(walk[i], walk[j])
  }

  // A walk lists every entry once, directories before what is below them, and
  // everything below a directory in one stretch.
  ghost predicate IsWalk(files: Files, walk: seq<Path>) {
    Lists(files, walk) && ParentsFirst(walk) && Contiguous(walk)
  }

  function Rel(p: Path): string {
    Join(p, '/')
  }

  predicate IsBuildArtifact(name: string) {
    Contains(name, ".pkg.tar.")
  }

  function BaseName(p: Path, rootName: string): string {
    if p == [] then rootName else p[|p| - 1]
  }

  // ---- What the two functions look at ----

  // HashTree leaves out every directory named .git and the build artifacts.
  ghost predicate Hashed(files: Files, rootName: string, p: Path) {
    && p in files && !files[p].Directory? && p != []
    && !IsBuildArtifact(p[|p| - 1])
    && rootName != ".git" && ".git" !in p[..|p| - 1]
  }

  ghost function HashedRels(files: Files, rootName: string): set<string> {
    set p | p in files && Hashed(files, rootName, p) :: Rel(p)
  }

  // CopyTree leaves out .git at the root only, whatever it is, and the build artifacts.
  predicate InRootGit(p: Path) {
    p != [] && p[0] == ".git"
  }

  predicate Kept(p: Path, kind: Kind) {
    !InRootGit(p) && (kind.Directory? || p == [] || !IsBuildArtifact(p[|p| - 1]))
  }

  function Copied(files: Files): Files {
    map p | p in files && Kept(p, files[p]) :: files[p]
  }

  ghost predicate Copyable(files: Files) {
    forall p :: p in files && Kept(p, files[p]) ==> !files[p].Symlink?
  }

  // ---- The hashed stream ----

  function Content(kind: Kind): Option<string> {
    match kind
    case Directory => None
    case Regular(content) => Some(content)
    case Symlink(target) => target
  }

  // os.Open and io.Copy on the file with a relative name.
  function ReadFile(files: Files, rel: string): Option<string> {
    var p := Split(rel, '/');
    if p in files then Content(files[p]) else None
  }

  // Name, NUL and content of each file in turn; none when one cannot be read.
  function Stream(files: Files, rels: seq<string>): Option<string> {
    if rels == [] then Some("")
    else
      var n := |rels| - 1;
      var before, content := Stream(files, rels[..n]), ReadFile(files, rels[n]);
      if before == None || content == None then None
      else Some(before.value + rels[n] + "\0" + content.value)
  }

  lemma Regroup(a: string, b: string, rel: string, content: string)
    ensures a + b + rel + "\0" + content == a + (b + rel + "\0" + content)
  {
  }

  // The stream of two lists is the stream of the first and then of the second.
  lemma {:induction false} StreamOfConcat(files: Files, a: seq<string>, b: seq<string>)
    ensures Stream(files, a + b).Some? <==> Stream(files, a).Some? && Stream(files, b).Some?
    ensures Stream(files, a + b).Some? ==>
              Stream(files, a + b).value == Stream(files, a).value + Stream(files, b).value
  {
    if b == [] {
      assert a + b == a;
    } else {
      var n := |b| - 1;
      hide ReadFile;
      StreamOfConcat(files, a, b[..n]);
      assert (a + b)[..|a + b| - 1] == a + b[..n];
      if Stream(files, a + b).Some? {
        Regroup(Stream(files, a).value, Stream(files, b[..n]).value, b[n], ReadFile(files, b[n]).value);
      }
    }
  }

  // One file is hashed as its name, a NUL and its content.
  lemma StreamOfOne(files: Files, rel: string)
    ensures Stream(files, [rel]) == if ReadFile(files, rel) == None then None
                                    else Some(rel + "\0" + ReadFile(files, rel).value)
  {
    assert [rel][..0] == [];
    assert "" + rel + "\0" == rel + "\0";
  }

  lemma SameTail(x: string, y: string, tail: string)
    ensures x + tail == y + tail ==> x == y
  {
    if x + tail == y + tail {
      assert |x| == |y|;
      assert x == (x + tail)[..|x|] == (y + tail)[..|y|] == y;
    }
  }

  lemma {:induction false} SameStream(a: Files, b: Files, rels: seq<string>)
    requires forall i :: 0 <= i < |rels| ==> ReadFile(a, rels[i]) == ReadFile(b, rels[i])
    ensures Stream(a, rels) == Stream(b, rels)
  {
    if rels != [] {
      SameStream(a, b, rels[..|rels| - 1]);
    }
  }

  // When a single file has another content, the stream is another one.
  lemma {:induction false} ContentMatters(a: Files, b: Files, rels: seq<string>, k: nat)
    requires k < |rels| && ReadFile(a, rels[k]) != ReadFile(b, rels[k])
    requires forall i :: 0 <= i < |rels| && i != k ==> ReadFile(a, rels[i]) == ReadFile(b, rels[i])
    requires Stream(a, rels).Some? && Stream(b, rels).Some?
    ensures Stream(a, rels) != Stream(b, rels)
  {
    var n := |rels| - 1;
    if k == n {
      SameStream(a, b, rels[..n]);
      assert Stream(a, rels).value[|Stream(a, rels[..n]).value + rels[n] + "\0"|..] == ReadFile(a, rels[n]).value;
      assert Stream(b, rels).value[|Stream(b, rels[..n]).value + rels[n] + "\0"|..] == ReadFile(b, rels[n]).value;
    } else {
      ContentMatters(a, b, rels[..n], k);
      var tail := rels[n] + "\0" + ReadFile(a, rels[n]).value;
      SameTail(Stream(a, rels[..n]).value, Stream(b, rels[..n]).value, tail);
      assert Stream(a, rels).value == Stream(a, rels[..n]).value + tail;
      assert Stream(b, rels).value == Stream(b, rels[..n]).value + tail;
    }
  }

  lemma SplitOfRel(p: Path)
    requires p != [] && forall i :: 0 <= i < |p| ==> IsComponent(p[i])
    ensures Split(Rel(p), '/') == p
  {
    SplitOfJoin(p, '/');
  }

  // ---- HashTree ----

  ghost predicate StreamOfTree(files: Files, rootName: string, stream: Option<string>) {
    exists rels :: Ascending(rels) && Elements(rels) == HashedRels(files, rootName) && stream == Stream(files, rels)
  }

  function DigestOf(sha: string -> string, stream: Option<string>): Option<string> {
    if stream.Some? then Some(sha(stream.value)) else None
  }

  // After the directory at i, the next entry that is not below it.
  method SkipDir(walk: seq<Path>, i: nat, ghost files: Files) returns (next: nat)
    requires IsWalk(files, walk) && i < |walk|
    ensures i < next <= |walk|
    ensures forall j :: i <= j < |walk| ==> (j < next <==> Under(walk[i], walk[j]))
  {
    next := i + 1;
    while next < |walk| && Under(walk[i], walk[next])
      invariant i < next <= |walk|
      invariant forall j :: i <= j < next ==> Under(walk[i], walk[j])
    {
      next := next + 1;
    }
  }

  // The path has a directory named .git at or above it.
  ghost predicate BelowGit(files: Files, rootName: string, p: Path) {
    exists n :: 0 <= n <= |p| && p[..n] in files && files[p[..n]].Directory? && BaseName(p[..n], rootName) == ".git"
  }

  lemma {:induction false} AncestorIsDirectory(files: Files, p: Path, n: nat)
    requires IsTree(files) && p in files && n < |p|
    ensures p[..n] in files && files[p[..n]].Directory?
    decreases |p|
  {
    assert HasParent(files, p);
    if n < |p| - 1 {
      AncestorIsDirectory(files, p[..|p| - 1], n);
      assert p[..|p| - 1][..n] == p[..n];
    }
  }

  lemma HashedIsNotBelowGit(files: Files, rootName: string, p: Path)
    requires IsTree(files) && p in files && !files[p].Directory?
    ensures BelowGit(files, rootName, p) <==> rootName == ".git" || ".git" in p[..|p| - 1]
  {
    if BelowGit(files, rootName, p) {
      var n :| 0 <= n <= |p| && p[..n] in files && files[p[..n]].Directory? && BaseName(p[..n], rootName) == ".git";
      assert n < |p| by {
        assert p[..|p|] == p;
      }
      if n > 0 {
        assert p[..|p| - 1][n - 1] == ".git";
      }
    }
    if rootName == ".git" {
      assert p[..0] == [];
    }
    if ".git" in p[..|p| - 1] {
      var k :| 0 <= k < |p| - 1 && p[k] == ".git";
      AncestorIsDirectory(files, p, k + 1);
      assert p[..k + 1][k] == ".git";
    }
  }

  ghost predicate IsGitDir(files: Files, rootName: string, p: Path) {
    p in files && files[p].Directory? && BaseName(p, rootName) == ".git"
  }

  // Nothing from i on lies below a directory that was passed over.
  ghost predicate OutsideGit(files: Files, rootName: string, walk: seq<Path>, i: nat) {
    forall j, k :: 0 <= k < i && i <= j < |walk| && IsGitDir(files, rootName, walk[k]) ==> !Under(walk[k], walk[j])
  }

  lemma IndexOf(files: Files, walk: seq<Path>, p: Path) returns (k: nat)
    requires Lists(files, walk) && p in files
    ensures k < |walk| && walk[k] == p
  {
    assert p in walk;
    k :| 0 <= k < |walk| && walk[k] == p;
  }

  // An entry the walk comes to is below .git only if it is such a directory itself.
  lemma ReachedEntry(files: Files, rootName: string, walk: seq<Path>, i: nat)
    requires IsWalk(files, walk) && i < |walk| && OutsideGit(files, rootName, walk, i)
    ensures walk[i] in files
    ensures BelowGit(files, rootName, walk[i]) <==> IsGitDir(files, rootName, walk[i])
  {
    hide Contiguous;
    var p := walk[i];
    assert p in walk;
    if BelowGit(files, rootName, p) {
      var n :| 0 <= n <= |p| && p[..n] in files && files[p[..n]].Directory? && BaseName(p[..n], rootName) == ".git";
      hide Lists;
      var k := IndexOf(files, walk, p[..n]);
      assert Under(walk[k], walk[i]) && IsGitDir(files, rootName, walk[k]);
      assert k == i;
    }
    assert p[..|p|] == p;
  }

  lemma SkipKeepsOutside(files: Files, rootName: string, walk: seq<Path>, i: nat, next: nat)
    requires i < next <= |walk| && OutsideGit(files, rootName, walk, i)
    requires forall j :: i <= j < |walk| ==> (j < next <==> Under(walk[i], walk[j]))
    ensures OutsideGit(files, rootName, walk, next)
  {
    forall j, k | 0 <= k < next && next <= j < |walk| && IsGitDir(files, rootName, walk[k])
      ensures !Under(walk[k], walk[j])
    {
      UnderIsTransitive(walk[i], walk[k], walk[j]);
    }
  }

  lemma BelowGitDir(files: Files, rootName: string, d: Path, p: Path)
    requires IsGitDir(files, rootName, d) && Under(d, p)
    ensures BelowGit(files, rootName, p)
  {
    assert p[..|d|] == d;
  }

  ghost function HashedUpTo(files: Files, rootName: string, walk: seq<Path>, i: nat): set<Path>
    requires i <= |walk|
  {
    set p | p in walk[..i] && Hashed(files, rootName, p)
  }

  ghost function FullNames(prefix: string, paths: set<Path>): set<string> {
    set p | p in paths :: prefix + Rel(p)
  }

  lemma RelIsInjective(files: Files, p: Path, q: Path, prefix: string)
    requires IsTree(files) && p in files && q in files && p != [] && q != []
    requires prefix + Rel(p) == prefix + Rel(q)
    ensures p == q
  {
    assert (prefix + Rel(p))[|prefix|..] == Rel(p) && (prefix + Rel(q))[|prefix|..] == Rel(q);
    SplitOfRel(p);
    SplitOfRel(q);
  }

  lemma SkippedAreNotHashed(files: Files, rootName: string, walk: seq<Path>, i: nat, next: nat)
    requires IsTree(files) && IsWalk(files, walk) && i < next <= |walk| && IsGitDir(files, rootName, walk[i])
    requires forall j :: i <= j < next ==> Under(walk[i], walk[j])
    ensures HashedUpTo(files, rootName, walk, next) == HashedUpTo(files, rootName, walk, i)
  {
    forall p | p in walk[..next] && Hashed(files, rootName, p) ensures p in walk[..i] {
      var j :| 0 <= j < next && walk[j] == p;
      if j >= i {
        BelowGitDir(files, rootName, walk[i], p);
        HashedIsNotBelowGit(files, rootName, p);
      }
      assert walk[..i][j] == p;
    }
    forall p | p in walk[..i] ensures p in walk[..next] {
      var j :| 0 <= j < i && walk[j] == p;
      assert walk[..next][j] == p;
    }
  }

  lemma OneMoreEntry(files: Files, rootName: string, walk: seq<Path>, i: nat)
    requires i < |walk|
    ensures HashedUpTo(files, rootName, walk, i + 1) ==
            if Hashed(files, rootName, walk[i]) then HashedUpTo(files, rootName, walk, i) + {walk[i]}
            else HashedUpTo(files, rootName, walk, i)
  {
    assert walk[..i + 1] == walk[..i] + [walk[i]];
  }

  lemma NothingHashedYet(files: Files, rootName: string, prefix: string, walk: seq<Path>)
    ensures FullNames(prefix, HashedUpTo(files, rootName, walk, 0)) == {}
  {
  }

  lemma AllHashed(files: Files, rootName: string, walk: seq<Path>)
    requires Lists(files, walk)
    ensures HashedUpTo(files, rootName, walk, |walk|) == set p | p in files && Hashed(files, rootName, p)
  {
    assert walk[..|walk|] == walk;
  }

  lemma AddName(prefix: string, paths: set<Path>, p: Path)
    ensures FullNames(prefix, paths + {p}) == FullNames(prefix, paths) + {prefix + Rel(p)}
  {
    hide Rel;
  }

  lemma AddElement(paths: seq<string>, name: string)
    requires Distinct(paths) && name !in Elements(paths)
    ensures Distinct(paths + [name]) && Elements(paths + [name]) == Elements(paths) + {name}
  {
  }

  lemma {:induction false} AddPath(files: Files, rootName: string, prefix: string, walk: seq<Path>, i: nat,
                                   paths: seq<string>)
    requires IsTree(files) && IsWalk(files, walk) && i < |walk| && Hashed(files, rootName, walk[i]) && Distinct(paths)
    requires Elements(paths) == FullNames(prefix, HashedUpTo(files, rootName, walk, i))
    ensures Distinct(paths + [prefix + Rel(walk[i])])
    ensures Elements(paths + [prefix + Rel(walk[i])]) ==
            FullNames(prefix, HashedUpTo(files, rootName, walk, i) + {walk[i]})
  {
    hide Rel, Contiguous, ParentsFirst, IsTree;
    var name := prefix + Rel(walk[i]);
    var before := HashedUpTo(files, rootName, walk, i);
    assert walk[i] !in before;
    assert name !in Elements(paths) by {
      if name in FullNames(prefix, before) {
        var q :| q in before && name == prefix + Rel(q);
        RelIsInjective(files, walk[i], q, prefix);
      }
    }
    hide HashedUpTo;
    AddName(prefix, before, walk[i]);
    AddElement(paths, name);
  }

  // The walk of HashTree: full names of the files to hash, in walk order.
  method CollectPaths(files: Files, rootName: string, prefix: string, walk: seq<Path>) returns (paths: seq<string>)
    requires IsTree(files) && IsWalk(files, walk)
    ensures Distinct(paths)
    ensures Elements(paths) == FullNames(prefix, set p | p in files && Hashed(files, rootName, p))
  {
    hide Contiguous, ParentsFirst, BelowGit, Rel, FullNames, HashedUpTo;
    paths := [];
    var i := 0;
    NothingHashedYet(files, rootName, prefix, walk);
    while i < |walk|
      invariant i <= |walk|
      invariant OutsideGit(files, rootName, walk, i)
      invariant Distinct(paths)
      invariant Elements(paths) == FullNames(prefix, HashedUpTo(files, rootName, walk, i))
    {
      var p := walk[i];
      ReachedEntry(files, rootName, walk, i);
      if files[p].Directory? && BaseName(p, rootName) == ".git" {
        var next := SkipDir(walk, i, files);
        SkippedAreNotHashed(files, rootName, walk, i, next);
        SkipKeepsOutside(files, rootName, walk, i, next);
        i := next;
        continue;
      }
      OneMoreEntry(files, rootName, walk, i);
      if !files[p].Directory? && !IsBuildArtifact(BaseName(p, rootName)) {
        HashedIsNotBelowGit(files, rootName, p);
        AddPath(files, rootName, prefix, walk, i, paths);
        paths := paths + [prefix + Rel(p)];
      }
      i := i + 1;
    }
    AllHashed(files, rootName, walk);
  }

  // filepath.Rel for a list of names below one root.
  function RelsOf(paths: seq<string>, n: nat): (r: seq<string>)
    requires forall i :: 0 <= i < |paths| ==> n <= |paths[i]|
    ensures |r| == |paths| && forall i :: 0 <= i < |r| ==> r[i] == paths[i][n..]
  {
    seq(|paths|, i requires 0 <= i < |paths| => paths[i][n..])
  }

  // The sort on root-prefixed names orders the relative names.
  lemma SortedRels(files: Files, rootName: string, prefix: string, paths: seq<string>)
    requires Ascending(paths)
    requires Elements(paths) == FullNames(prefix, set p | p in files && Hashed(files, rootName, p))
    ensures forall i :: 0 <= i < |paths| ==> prefix <= paths[i]
    ensures forall i :: 0 <= i < |paths| ==> |prefix| <= |paths[i]|
    ensures Ascending(RelsOf(paths, |prefix|)) && Elements(RelsOf(paths, |prefix|)) == HashedRels(files, rootName)
  {
    forall i | 0 <= i < |paths| ensures prefix <= paths[i] && paths[i] == prefix + paths[i][|prefix|..] {
      assert paths[i] in Elements(paths);
    }
    var rels := RelsOf(paths, |prefix|);
    forall i, j | 0 <= i < j < |rels| ensures Less(rels[i], rels[j]) {
      LessUnderPrefix(prefix, rels[i], rels[j]);
    }
    forall r ensures r in Elements(rels) <==> r in HashedRels(files, rootName) {
      if r in rels {
        var i :| 0 <= i < |rels| && rels[i] == r;
        assert paths[i] in Elements(paths);
        var p :| p in files && Hashed(files, rootName, p) && paths[i] == prefix + Rel(p);
        assert (prefix + Rel(p))[|prefix|..] == Rel(p);
      }
      if r in HashedRels(files, rootName) {
        var p :| p in files && Hashed(files, rootName, p) && r == Rel(p);
        assert prefix + r in Elements(paths);
        var i :| 0 <= i < |paths| && paths[i] == prefix + r;
        assert rels[i] == r;
      }
    }
  }

  lemma {:induction false} StaysUnreadable(files: Files, rels: seq<string>, i: nat)
    requires i <= |rels| && Stream(files, rels[..i]) == None
    ensures Stream(files, rels) == None
  {
    if i < |rels| {
      var n := |rels| - 1;
      assert rels[..n][..i] == rels[..i];
      StaysUnreadable(files, rels[..n], i);
    } else {
      assert rels[..i] == rels;
    }
  }

  // The loop over the sorted paths; the first n characters of each are the root's.
  method HashPaths(files: Files, paths: seq<string>, n: nat) returns (hashed: Option<string>)
    requires forall path :: path in paths ==> n <= |path|
    ensures hashed == Stream(files, RelsOf(paths, n))
  {
    hide ReadFile;
    ghost var rels := RelsOf(paths, n);
    var text := "";
    for i := 0 to |paths|
      invariant Stream(files, rels[..i]) == Some(text)
    {
      assert paths[i] in paths;
      var rel := paths[i][n..];
      var content := ReadFile(files, rel);
      assert rels[..i + 1][..i] == rels[..i];
      if content == None {
        StaysUnreadable(files, rels, i + 1);
        return None;
      }
      text := text + rel + "\0" + content.value;
    }
    assert rels[..|paths|] == rels;
    return Some(text);
  }

  // The digest of a tree below root, a clean path other than "/".
  method HashTree(files: Files, root: string, rootName: string, walk: seq<Path>, sha: string -> string)
    returns (digest: Option<string>)
    requires IsTree(files) && IsWalk(files, walk)
    ensures exists stream ::
              StreamOfTree(files, rootName, stream)
              && digest == (if stream.Some? then Some(sha(stream.value)) else None)
  {
    hide IsTree, IsWalk, HashedRels, ReadFile, Stream;
    var prefix := root + "/";
    var paths := CollectPaths(files, rootName, prefix, walk);
    paths := SortStrings(paths);
    SortedRels(files, rootName, prefix, paths);
    var hashed := HashPaths(files, paths, |prefix|);
    assert StreamOfTree(files, rootName, hashed);
    digest := if hashed.Some? then Some(sha(hashed.value)) else None;
  }

  // ---- What the digest tells apart ----

  ghost predicate Injective(sha: string -> string) {
    forall x, y :: sha(x) == sha(y) ==> x == y
  }

  // The names that are hashed: regular files and links outside directories
  // named .git, and no build artifacts.
  lemma HashedMeans(files: Files, rootName: string, r: string)
    ensures r in HashedRels(files, rootName) <==>
            exists p :: && p in files && !files[p].Directory? && p != [] && r == Join(p, '/')
                        && rootName != ".git" && ".git" !in p[..|p| - 1]
                        && !Contains(p[|p| - 1], ".pkg.tar.")
  {
    hide Contains, Join;
    if r in HashedRels(files, rootName) {
      var p :| p in files && Hashed(files, rootName, p) && r == Rel(p);
      assert p in files && r == Join(p, '/');
    }
  }

  // Two readable trees with the same names and the same contents but for one
  // file have different digests, if the hash is injective.
  lemma {:induction false} DigestsDiffer(a: Files, b: Files, rootName: string, x: Option<string>, y: Option<string>,
                                         r: string, sha: string -> string)
    requires StreamOfTree(a, rootName, x) && StreamOfTree(b, rootName, y) && x.Some? && y.Some?
    requires HashedRels(a, rootName) == HashedRels(b, rootName) && r in HashedRels(a, rootName)
    requires ReadFile(a, r) != ReadFile(b, r)
    requires forall q :: q in HashedRels(a, rootName) && q != r ==> ReadFile(a, q) == ReadFile(b, q)
    ensures x != y
    ensures Injective(sha) ==> DigestOf(sha, x) != DigestOf(sha, y)
  {
    hide Ascending, HashedRels, ReadFile, Stream, Less;
    var rels :| Ascending(rels) && Elements(rels) == HashedRels(a, rootName) && x == Stream(a, rels);
    var others :| Ascending(others) && Elements(others) == HashedRels(b, rootName) && y == Stream(b, others);
    AscendingIsUnique(rels, others);
    AscendingIsDistinct(rels);
    assert r in Elements(rels);
    var k :| 0 <= k < |rels| && rels[k] == r;
    forall i | 0 <= i < |rels| && i != k ensures ReadFile(a, rels[i]) == ReadFile(b, rels[i]) {
      assert rels[i] in Elements(rels) && rels[i] != rels[k];
    }
    ContentMatters(a, b, rels, k);
  }

  // A tree with a single file hashes to the name, a NUL and the content.
  lemma OneFileTree(f: string, content: string, rootName: string, x: Option<string>)
    requires IsComponent(f) && (forall i :: !OccursAt(f, ".pkg.tar.", i)) && rootName != ".git"
    requires StreamOfTree(map[[] := Directory, [f] := Regular(content)], rootName, x)
    ensures x == Some(f + "\0" + content)
  {
    hide OccursAt, Stream;
    var files: Files := map[[] := Directory, [f] := Regular(content)];
    var rels :| Ascending(rels) && Elements(rels) == HashedRels(files, rootName) && x == Stream(files, rels);
    IndexIsFirst(f, ".pkg.tar.");
    assert Hashed(files, rootName, [f]) && Rel([f]) == f;
    assert HashedRels(files, rootName) == {f};
    AscendingIsUnique(rels, [f]);
    SplitOfRel([f]);
    StreamOfOne(files, f);
  }
}
