// Translation of a container path to the host path behind Docker's bind
// mounts (internal/hostpath.go).
module HostPath {
  import opened Options
  import opened Sorting
  import opened Strings
  import opened Paths

  datatype Mount = Mount(destination: string, source: string)

  function Width(c: char): (w: nat)
    ensures 1 <= w <= 4
  {
    var n := c as int;
    if n < 0x80 then 1 else if n < 0x800 then 2 else if n < 0x1_0000 then 3 else 4
  }

  // len() counts the bytes of the UTF-8 text.
  function ByteLength(s: string): nat {
    if s == "" then 0 else ByteLength(s[..|s| - 1]) + Width(s[|s| - 1])
  }

  lemma {:induction false} LongerText(s: string, t: string)
    requires s < t
    ensures ByteLength(s) < ByteLength(t)
  {
    if s < t[..|t| - 1] {
      LongerText(s, t[..|t| - 1]);
    } else {
      assert s == t[..|t| - 1];
    }
  }

  // absPath; the working directory may be unknown.
  function AbsPath(path: string, cwd: Result<string>): Result<string> {
    if IsAbs(path) then Success(Clean(path))
    else if cwd.Failure? then cwd
    else Success(Clean(if path == "" then cwd.value else cwd.value + "/" + path))
  }

  lemma AbsPathIsClean(path: string, cwd: Result<string>)
    requires cwd.Success? ==> IsAbs(cwd.value)
    ensures AbsPath(path, cwd).Success? ==> IsCleanAbs(AbsPath(path, cwd).value)
  {
    CleanIsIdempotent(path);
    if cwd.Success? {
      CleanIsIdempotent(cwd.value);
      CleanIsIdempotent(cwd.value + "/" + path);
    }
  }

  predicate Covers(m: Mount, path: string) {
    m.source != "" && PathHasPrefix(path, m.destination)
  }

  // filepath.Rel of a cleaned path below a directory that covers it.
  function Relative(directory: string, path: string): string
    requires PathHasPrefix(path, directory) && Clean(path) == path
  {
    if path == Clean(directory) then "." else path[|Clean(directory)| + 1..]
  }

  function Translate(m: Mount, path: string): string
    requires Covers(m, path) && Clean(path) == path
  {
    var relative := Relative(m.destination, path);
    if relative == "." then m.source else Clean(m.source + "/" + relative)
  }

  // The first of the covering mounts with the longest destination text.
  predicate IsBest(mounts: seq<Mount>, path: string, k: nat) {
    && k < |mounts| && Covers(mounts[k], path)
    && forall j :: 0 <= j < |mounts| && Covers(mounts[j], path) && j != k ==>
         || ByteLength(mounts[j].destination) < ByteLength(mounts[k].destination)
         || (ByteLength(mounts[j].destination) == ByteLength(mounts[k].destination) && k < j)
  }

  ghost function HostPathOf(mounts: seq<Mount>, path: string): Option<string>
    requires Clean(path) == path
  {
    if exists k: nat :: IsBest(mounts, path, k) then
      var k: nat :| IsBest(mounts, path, k);
      Some(Translate(mounts[k], path))
    else None
  }

  method HostPathFromBindMounts(containerPath: string, cwd: Result<string>, mounts: seq<Mount>)
    returns (r: Result<string>)
    requires cwd.Success? ==> IsAbs(cwd.value)
    ensures AbsPath(containerPath, cwd).Failure? ==> r == cwd
    ensures AbsPath(containerPath, cwd).Success? ==>
              var path := AbsPath(containerPath, cwd).value;
              && IsCleanAbs(path)
              && (r.Failure? <==> forall m :: m in mounts ==> m.source == "" || !PathHasPrefix(path, m.destination))
              && (r.Success? ==> HostPathOf(mounts, path) == Some(r.value)
                                 && exists k: nat :: IsBest(mounts, path, k) && r.value == Translate(mounts[k], path))
  {
    var absolute := AbsPath(containerPath, cwd);
    AbsPathIsClean(containerPath, cwd);
    if absolute.Failure? {
      return cwd;
    }
    var path := absolute.value;
    var best: Option<nat> := None;
    for i := 0 to |mounts|
      invariant best.None? ==> forall m :: m in mounts[..i] ==> !Covers(m, path)
      invariant best.Some? ==> IsBest(mounts[..i], path, best.value)
    {
      assert mounts[..i + 1] == mounts[..i] + [mounts[i]];
      if Covers(mounts[i], path) {
        if best.None? || ByteLength(mounts[i].destination) > ByteLength(mounts[best.value].destination) {
          best := Some(i);
        }
      }
    }
    assert mounts[..|mounts|] == mounts;
    if best.None? {
      return Failure("no docker bind mount covers the path");
    }
    assert mounts[best.value] in mounts;
    r := Success(Translate(mounts[best.value], path));
  }

  // An absolute path is taken as it is, a relative one below the working directory.
  lemma AbsPathMeans(path: string, cwd: string)
    requires IsAbs(cwd)
    ensures var r := AbsPath(path, Success(cwd));
            && r.Success?
            && Components(r.value) == Components(if path != "" && path[0] == '/' then path else cwd + "/" + path)
    ensures path != "" && path[0] == '/' ==> AbsPath(path, Failure("")) == AbsPath(path, Success(cwd))
    ensures (path == "" || path[0] != '/') ==> AbsPath(path, Failure("")) == Failure("")
  {
    if path == "" {
      OneElementMore(cwd, "");
      ComponentsOfClean(cwd);
    } else if path[0] == '/' {
      ComponentsOfClean(path);
    } else {
      ComponentsOfClean(cwd + "/" + path);
    }
  }

  // The mount a line of docker inspect describes.
  function MountOf(line: string): Option<Mount> {
    var parts := Cut(line, "\t");
    if parts.found && parts.before != "" && parts.after != ""
    then Some(Mount(Clean(parts.before), parts.after)) else None
  }

  // A line is a destination, a tab and a source; anything else is no mount.
  lemma MountLine(destination: string, source: string)
    requires '\t' !in destination
    ensures MountOf(destination + "\t" + source)
            == if destination != "" && source != "" then Some(Mount(Clean(destination), source)) else None
    ensures MountOf(destination) == None
  {
    var line := destination + "\t" + source;
    var i := |destination|;
    assert line[i..] == "\t" + source;
    forall j | 0 <= j < i ensures !OccursAt(line, "\t", j) {
      assert line[j] == destination[j] && destination[j] in destination;
      assert line[j..][0] == line[j];
    }
    CutAt(line, "\t", i);
    assert line[..i] == destination;
    CutMeans(line, "\t");
    assert line[i + 1..] == source;
    assert line[i + 1..] == Cut(line, "\t").after;
    CutMeans(destination, "\t");
    forall j ensures !OccursAt(destination, "\t", j) {
      if 0 <= j < i {
        assert destination[j..][0] == destination[j] && destination[j] in destination;
      }
    }
  }

  function MountsOf(lines: seq<string>): seq<Mount> {
    if lines == [] then []
    else
      var n := |lines| - 1;
      var last := MountOf(lines[n]);
      if last.Some? then MountsOf(lines[..n]) + [last.value] else MountsOf(lines[..n])
  }

  // dockerContainerMounts on the lines docker inspect prints.
  method ParseMounts(lines: seq<string>) returns (r: Result<seq<Mount>>)
    ensures r.Failure? <==> MountsOf(lines) == []
    ensures r.Success? ==> r.value == MountsOf(lines)
    ensures r.Success? ==> forall m :: m in r.value ==> m.source != "" && Clean(m.destination) == m.destination
  {
    var mounts: seq<Mount> := [];
    for i := 0 to |lines|
      invariant mounts == MountsOf(lines[..i])
      invariant forall m :: m in mounts ==> m.source != "" && Clean(m.destination) == m.destination
    {
      assert lines[..i + 1][..i] == lines[..i];
      if lines[i] == "" {
        CutMeans("", "\t");
        continue;
      }
      var parts := Cut(lines[i], "\t");
      if !parts.found || parts.before == "" || parts.after == "" {
        continue;
      }
      CleanIsIdempotent(parts.before);
      mounts := mounts + [Mount(Clean(parts.before), parts.after)];
    }
    assert lines[..|lines|] == lines;
    if mounts == [] {
      return Failure("the container has no bind mounts");
    }
    r := Success(mounts);
  }

  // ---- What the choice means for cleaned and distinct destinations ----

  ghost predicate Tidy(mounts: seq<Mount>) {
    && (forall m :: m in mounts ==> IsCleanAbs(m.destination))
    && forall i, j :: 0 <= i < j < |mounts| ==> mounts[i].destination != mounts[j].destination
  }

  // A cleaned directory path that extends another one by elements extends its text.
  lemma DeeperIsLonger(a: string, b: string)
    requires IsCleanAbs(a) && IsCleanAbs(b) && Components(a) < Components(b)
    ensures ByteLength(a) < ByteLength(b)
  {
    CleanAbsIsAbs(a);
    CleanAbsIsAbs(b);
    if Components(a) != [] {
      PrefixByComponents(Components(b), Components(a));
      assert |a + "/"| <= |b| && b[..|a + "/"|] == a + "/";
      assert b[..|a|] == a;
    } else {
      assert a == "/";
      assert b[..1] == a && |b| > 1;
    }
    LongerText(a, b);
  }

  // Of two different directories that cover a path one lies in the other one.
  lemma CoversNest(path: string, a: string, b: string)
    requires IsCleanAbs(path) && IsCleanAbs(a) && IsCleanAbs(b) && a != b
    requires PathHasPrefix(path, a) && PathHasPrefix(path, b)
    ensures Components(a) < Components(b) || Components(b) < Components(a)
  {
    hide Components, Clean, PathHasPrefix;
    PrefixMeans(path, a);
    PrefixMeans(path, b);
    CleanAbsIsAbs(a);
    CleanAbsIsAbs(b);
    assert Components(a) <= Components(path) && Components(b) <= Components(path);
    assert Components(a) != Components(b);
    if |Components(a)| <= |Components(b)| {
      assert Components(a) == Components(path)[..|Components(a)|] == Components(b)[..|Components(a)|];
    } else {
      assert Components(b) == Components(path)[..|Components(b)|] == Components(a)[..|Components(b)|];
    }
  }

  // The best mount is the unique longest prefix, element by element.
  lemma BestIsLongestPrefix(mounts: seq<Mount>, path: string, k: nat)
    requires Tidy(mounts) && IsCleanAbs(path) && k < |mounts|
    ensures IsBest(mounts, path, k) <==>
            Covers(mounts[k], path)
            && forall j :: 0 <= j < |mounts| && j != k && Covers(mounts[j], path) ==>
                 Components(mounts[j].destination) < Components(mounts[k].destination)
  {
    assert forall m :: m in mounts ==> IsCleanAbs(m.destination);
    forall j | 0 <= j < |mounts| && j != k && Covers(mounts[j], path) && Covers(mounts[k], path)
      ensures Components(mounts[j].destination) < Components(mounts[k].destination)
              <==> ByteLength(mounts[j].destination) < ByteLength(mounts[k].destination)
      ensures ByteLength(mounts[j].destination) != ByteLength(mounts[k].destination)
    {
      var a, b := mounts[j].destination, mounts[k].destination;
      assert mounts[j] in mounts && mounts[k] in mounts && a != b;
      CoversNest(path, a, b);
      if Components(a) < Components(b) {
        DeeperIsLonger(a, b);
      } else {
        DeeperIsLonger(b, a);
      }
    }
  }

  lemma BestIsOne(mounts: seq<Mount>, path: string)
    ensures forall i: nat, j: nat :: IsBest(mounts, path, i) && IsBest(mounts, path, j) ==> i == j
  {
  }

  lemma BestElsewhere(a: seq<Mount>, b: seq<Mount>, path: string)
    requires Tidy(a) && Tidy(b) && Elements(a) == Elements(b) && IsCleanAbs(path)
    ensures forall k: nat :: IsBest(a, path, k) ==> exists l: nat :: IsBest(b, path, l) && b[l] == a[k]
  {
    forall k: nat | IsBest(a, path, k) ensures exists l: nat :: IsBest(b, path, l) && b[l] == a[k] {
      assert a[k] in Elements(b);
      var l: nat :| l < |b| && b[l] == a[k];
      BestIsLongestPrefix(a, path, k);
      BestIsLongestPrefix(b, path, l);
      forall j | 0 <= j < |b| && j != l && Covers(b[j], path)
        ensures Components(b[j].destination) < Components(b[l].destination)
      {
        assert b[j] in Elements(a);
        var i: nat :| i < |a| && a[i] == b[j];
      }
    }
  }

  // Of covering mounts with the same destination the first is taken.
  lemma FirstOfTies(mounts: seq<Mount>, path: string, k: nat, j: nat)
    requires IsBest(mounts, path, k) && j < |mounts| && j != k
    requires mounts[j].destination == mounts[k].destination && mounts[j].source != ""
    ensures k < j
  {
    assert Covers(mounts[j], path);
  }

  // The host path does not depend on the order in which Docker lists the mounts.
  lemma OrderDoesNotMatter(a: seq<Mount>, b: seq<Mount>, path: string)
    requires Tidy(a) && Tidy(b) && Elements(a) == Elements(b) && IsCleanAbs(path)
    ensures HostPathOf(a, path) == HostPathOf(b, path)
  {
    hide IsBest, Tidy, Translate;
    BestElsewhere(a, b, path);
    BestElsewhere(b, a, path);
    BestIsOne(b, path);
  }

  // ---- What the translated path means ----

  lemma {:induction false} PlainPartsStay(rooted: bool, a: seq<string>, b: seq<string>)
    requires Proper(true, b)
    ensures CleanParts(rooted, a + b) == CleanParts(rooted, a) + b
  {
    if b == [] {
      assert a + b == a;
    } else {
      var n := |b| - 1;
      assert Proper(true, b[..n]) by {
        assert forall p :: p in b[..n] ==> p in b;
      }
      PlainPartsStay(rooted, a, b[..n]);
      assert (a + b)[..|a + b| - 1] == a + b[..n];
      assert b == b[..n] + [b[n]];
    }
  }

  // Below the mount point the two paths have the same elements.
  lemma TranslateMeans(m: Mount, path: string)
    requires Covers(m, path) && IsCleanAbs(path) && IsCleanAbs(m.destination)
    ensures IsAbs(Translate(m, path)) == IsAbs(m.source)
    ensures Components(m.destination) <= Components(path)
    ensures Components(Translate(m, path))
            == Components(m.source) + Components(path)[|Components(m.destination)|..]
    ensures IsCleanAbs(m.source) ==> IsCleanAbs(Translate(m, path))
    ensures path == m.destination ==> Translate(m, path) == m.source
  {
    var d, p := Components(m.destination), Components(path);
    CleanAbsIsAbs(path);
    CleanAbsIsAbs(m.destination);
    PrefixMeans(path, m.destination);
    if path != m.destination {
      var rest := p[|d|..];
      var relative := path[|m.destination| + 1..];
      assert p == d + rest && d != [] && rest != [] by {
        assert d == [] ==> m.destination == "/";
      }
      JoinExtends(d, rest);
      assert relative == Join(rest, '/');
      assert Proper(true, rest) by {
        assert forall x :: x in rest ==> x in p;
      }
      SplitOfJoin(rest, '/');
      assert relative != "." by {
        SplitOfPlain(".", '/');
        assert rest[0] != ".";
      }
      var whole := m.source + "/" + relative;
      SplitOfConcat(m.source, '/', relative);
      assert Split(whole, '/') == Split(m.source, '/') + rest;
      PlainPartsStay(IsAbs(m.source), Split(m.source, '/'), rest);
      assert Components(whole) == Components(m.source) + rest;
      ComponentsOfClean(whole);
      CleanIsIdempotent(whole);
    } else {
      assert p[|d|..] == [];
    }
  }

  // Going back through the mount gives the container path again, except below
  // a source that is the root directory itself, which covers nothing else.
  lemma {:induction false} BackToTheContainer(m: Mount, path: string)
    requires Covers(m, path) && IsCleanAbs(path) && IsCleanAbs(m.destination) && IsCleanAbs(m.source)
    ensures var back := Mount(m.source, m.destination);
            && Clean(Translate(m, path)) == Translate(m, path)
            && (Covers(back, Translate(m, path)) <==> m.source != "/" || path == m.destination)
            && (Covers(back, Translate(m, path)) ==> Translate(back, Translate(m, path)) == path)
  {
    var back := Mount(m.source, m.destination);
    var host := Translate(m, path);
    TranslateMeans(m, path);
    CleanAbsIsAbs(path);
    CleanAbsIsAbs(host);
    CleanAbsIsAbs(m.source);
    CleanAbsIsAbs(m.destination);
    var d, p, s := Components(m.destination), Components(path), Components(m.source);
    PrefixMeans(host, m.source);
    PrefixMeans(path, m.destination);
    assert p == d + p[|d|..];
    if Covers(back, host) {
      TranslateMeans(back, host);
      assert Components(host)[|s|..] == p[|d|..];
      CleanAbsIsAbs(Translate(back, host));
    }
  }
}
