// filepath.Clean and the prefix test on cleaned paths.
module Paths {
  import opened Strings

  // One more path element on a cleaned stack.
  function Push(rooted: bool, stack: seq<string>, part: string): seq<string> {
    if part == "" || part == "." then stack
    else if part != ".." then stack + [part]
    else if stack != [] && stack[|stack| - 1] != ".." then stack[..|stack| - 1]
    else if rooted then stack
    else stack + [".."]
  }

  function CleanParts(rooted: bool, parts: seq<string>): seq<string> {
    if parts == [] then []
    else Push(rooted, CleanParts(rooted, parts[..|parts| - 1]), parts[|parts| - 1])
  }

  predicate IsAbs(path: string) {
    path != "" && path[0] == '/'
  }

  function Components(path: string): seq<string> {
    CleanParts(IsAbs(path), Split(path, '/'))
  }

  function Clean(path: string): string {
    if path == "" then "."
    else if IsAbs(path) then "/" + Join(Components(path), '/')
    else if Components(path) == [] then "."
    else Join(Components(path), '/')
  }

  // What is left on the stack: no empty element, no dot, dot-dots only in
  // front and none in a rooted path.
  ghost predicate Proper(rooted: bool, parts: seq<string>) {
    && FreeOf(parts, '/')
    && (forall i :: 0 <= i < |parts| ==> parts[i] != "" && parts[i] != ".")
    && (forall i :: 0 <= i < |parts| && parts[i] == ".." ==> !rooted && forall j :: 0 <= j < i ==> parts[j] == "..")
  }

  lemma {:induction false} CleanPartsAreProper(rooted: bool, parts: seq<string>)
    requires FreeOf(parts, '/')
    ensures Proper(rooted, CleanParts(rooted, parts))
  {
    if parts != [] {
      var n := |parts| - 1;
      assert forall p :: p in parts[..n] ==> p in parts;
      CleanPartsAreProper(rooted, parts[..n]);
      assert parts[n] in parts;
    }
  }

  lemma {:induction false} ProperIsClean(rooted: bool, parts: seq<string>)
    requires Proper(rooted, parts)
    ensures CleanParts(rooted, parts) == parts
  {
    if parts != [] {
      var n := |parts| - 1;
      assert Proper(rooted, parts[..n]) by {
        assert forall p :: p in parts[..n] ==> p in parts;
      }
      ProperIsClean(rooted, parts[..n]);
      assert parts == parts[..n] + [parts[n]];
      if n > 0 && parts[n] == ".." {
        assert parts[n - 1] == "..";
      }
    }
  }

  // The absolute path with the given elements.
  function Abs(parts: seq<string>): string {
    "/" + Join(parts, '/')
  }

  lemma ComponentsAreProper(path: string)
    ensures Proper(IsAbs(path), Components(path))
  {
    SplitIsFree(path, '/');
    CleanPartsAreProper(IsAbs(path), Split(path, '/'));
  }

  lemma SplitOfAbs(parts: seq<string>)
    requires Proper(true, parts)
    ensures Split(Abs(parts), '/') == [""] + if parts == [] then [""] else parts
  {
    var rest := Join(parts, '/');
    assert Abs(parts) == "" + ['/'] + rest;
    SplitOfConcat("", '/', rest);
    if parts != [] {
      SplitOfJoin(parts, '/');
    }
  }

  lemma {:induction false} LeadingEmpty(rooted: bool, parts: seq<string>)
    ensures CleanParts(rooted, [""] + parts) == CleanParts(rooted, parts)
  {
    if parts != [] {
      var n := |parts| - 1;
      LeadingEmpty(rooted, parts[..n]);
      assert ([""] + parts)[..|parts|] == [""] + parts[..n];
    } else {
      assert [""] + parts == [""] && [""][..0] == [];
    }
  }

  lemma ComponentsOfAbs(parts: seq<string>)
    requires Proper(true, parts)
    ensures IsAbs(Abs(parts)) && Components(Abs(parts)) == parts && Clean(Abs(parts)) == Abs(parts)
  {
    SplitOfAbs(parts);
    LeadingEmpty(true, if parts == [] then [""] else parts);
    ProperIsClean(true, parts);
    assert [""][..0] == [];
  }

  lemma DotHasNoComponents()
    ensures Components(".") == [] && !IsAbs(".")
  {
    SplitOfPlain(".", '/');
    assert ["."][..0] == [];
  }

  lemma ComponentsOfClean(path: string)
    requires path != ""
    ensures IsAbs(Clean(path)) == IsAbs(path) && Components(Clean(path)) == Components(path)
  {
    ComponentsAreProper(path);
    var parts := Components(path);
    if IsAbs(path) {
      ComponentsOfAbs(parts);
    } else if parts == [] {
      DotHasNoComponents();
    } else {
      SplitOfJoin(parts, '/');
      ProperIsClean(false, parts);
      assert parts[0] in parts;
      assert Join(parts, '/')[0] == parts[0][0];
      assert parts[0][0] in parts[0];
    }
  }

  // Cleaning twice is cleaning once.
  lemma CleanIsIdempotent(path: string)
    ensures Clean(Clean(path)) == Clean(path)
  {
    if path == "" {
      DotHasNoComponents();
    } else {
      ComponentsOfClean(path);
    }
  }

  ghost predicate IsCleanAbs(path: string) {
    IsAbs(path) && Clean(path) == path
  }

  lemma CleanAbsIsAbs(path: string)
    requires IsCleanAbs(path)
    ensures path == Abs(Components(path)) && Proper(true, Components(path))
  {
    ComponentsAreProper(path);
  }

  // pathHasPrefix.
  predicate PathHasPrefix(path: string, prefix: string) {
    Clean(path) == Clean(prefix) || HasPrefix(Clean(path), Clean(prefix) + "/")
  }

  lemma JoinExtends(q: seq<string>, r: seq<string>)
    requires q != [] && r != []
    ensures Abs(q + r) == Abs(q) + "/" + Join(r, '/')
  {
    JoinOfConcat(q, r, '/');
  }

  lemma NoDoubleSlash(p: seq<string>)
    requires Proper(true, p)
    ensures !HasPrefix(Abs(p), "//")
  {
    if p != [] {
      assert p[0] in p && Join(p, '/')[0] == p[0][0];
      assert p[0][0] in p[0];
      assert Abs(p)[1] != '/';
      assert "//"[1] == '/';
    }
  }

  lemma AbsOfSome(p: seq<string>)
    ensures |Abs(p)| >= 1 && (p == [] ==> Abs(p) == "/")
  {
  }

  lemma SameTail(head: string, p: seq<string>, q: seq<string>, r: seq<string>)
    requires [head] + p == [head] + q + r && r != []
    ensures q < p
  {
    assert p == ([head] + p)[1..] == ([head] + q + r)[1..] == q + r;
  }

  lemma TextExtends(p: seq<string>, q: seq<string>)
    requires Proper(true, p) && Proper(true, q) && q != [] && HasPrefix(Abs(p), Abs(q) + "/")
    ensures q < p
  {
    hide Proper, Abs, Split;
    var n := |Abs(q)| + 1;
    var rest := Abs(p)[n..];
    assert Abs(p) == Abs(q) + ['/'] + rest;
    SplitOfConcat(Abs(q), '/', rest);
    SplitOfAbs(p);
    SplitOfAbs(q);
    AbsOfSome(p);
    AbsOfSome(q);
    SameTail("", p, q, Split(rest, '/'));
  }

  // A path text continues another one with a slash exactly when its elements
  // properly extend those of the other, which is not the root.
  lemma PrefixByComponents(p: seq<string>, q: seq<string>)
    requires Proper(true, p) && Proper(true, q)
    ensures HasPrefix(Abs(p), Abs(q) + "/") <==> q != [] && q < p
  {
    if q == [] {
      NoDoubleSlash(p);
    } else {
      if q < p {
        assert p == q + p[|q|..];
        JoinExtends(q, p[|q|..]);
      }
      if HasPrefix(Abs(p), Abs(q) + "/") {
        TextExtends(p, q);
      }
    }
  }

  // pathHasPrefix compares element by element, and the root covers only itself.
  lemma PrefixMeans(path: string, prefix: string)
    requires IsCleanAbs(path) && IsCleanAbs(prefix)
    ensures PathHasPrefix(path, prefix) <==>
            path == prefix || (prefix != "/" && Components(prefix) < Components(path))
  {
    CleanAbsIsAbs(path);
    CleanAbsIsAbs(prefix);
    PrefixByComponents(Components(path), Components(prefix));
    assert Abs([]) == "/";
    if prefix == "/" {
      ComponentsOfAbs([]);
    }
  }

  // ---- What cleaning does, element by element ----

  lemma CleanPartsOfOne(rooted: bool, parts: seq<string>, part: string)
    ensures CleanParts(rooted, parts + [part]) == Push(rooted, CleanParts(rooted, parts), part)
  {
    assert (parts + [part])[..|parts|] == parts;
  }

  // One more element: empty ones and dots change nothing, a dot-dot takes the
  // last element back where there is one to take and is kept only in front of
  // a relative path, anything else is added.
  lemma OneElementMore(path: string, element: string)
    requires path != "" && '/' !in element
    ensures var before := Components(path);
            Components(path + "/" + element)
            == if element == "" || element == "." then before
               else if element != ".." then before + [element]
               else if before != [] && before[|before| - 1] != ".." then before[..|before| - 1]
               else if path[0] == '/' then before
               else before + [".."]
    ensures IsAbs(path + "/" + element) <==> path[0] == '/'
  {
    hide CleanParts;
    var longer := path + "/" + element;
    assert longer == path + ['/'] + element && longer[0] == path[0];
    SplitOfConcat(path, '/', element);
    SplitOfPlain(element, '/');
    CleanPartsOfOne(IsAbs(path), Split(path, '/'), element);
  }

  // A path of one element, and the root.
  lemma SingleElement(element: string)
    requires '/' !in element
    ensures Components(element) == if element == "" || element == "." then [] else [element]
    ensures Components("/") == [] && IsAbs("/") && !IsAbs(element)
  {
    assert element != "" ==> element[0] in element;
    SplitOfPlain(element, '/');
    CleanPartsOfOne(false, [], element);
    assert [] + [element] == [element];
    ComponentsOfAbs([]);
  }
}
