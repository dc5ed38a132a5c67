// From the file name of a built package back to the package name.
module ArtifactNames {
  import opened Strings

  // ---- filepath.Base ----

  function StripSlashes(s: string): string {
    if s != "" && s[|s| - 1] == '/' then StripSlashes(s[..|s| - 1]) else s
  }

  function LastElement(s: string): string {
    if s == "" || s[|s| - 1] == '/' then "" else LastElement(s[..|s| - 1]) + [s[|s| - 1]]
  }

  function Base(path: string): string {
    if path == "" then "."
    else
      var last := LastElement(StripSlashes(path));
      if last == "" then "/" else last
  }

  lemma {:induction false} LastElementOfPlain(s: string)
    requires '/' !in s
    ensures LastElement(s) == s
  {
    if s != "" {
      assert s[|s| - 1] in s;
      LastElementOfPlain(s[..|s| - 1]);
      assert s == s[..|s| - 1] + [s[|s| - 1]];
    }
  }

  lemma BaseOfPlain(s: string)
    requires s != "" && '/' !in s
    ensures Base(s) == s
  {
    assert s[|s| - 1] in s;
    LastElementOfPlain(s);
  }

  lemma {:induction false} LastElementOfPath(dir: string, s: string)
    requires '/' !in s
    ensures LastElement(dir + ['/'] + s) == s
  {
    if s == "" {
      assert dir + ['/'] + s == dir + ['/'];
    } else {
      var n := |s| - 1;
      var path := dir + ['/'] + s;
      assert path[..|path| - 1] == dir + ['/'] + s[..n] && path[|path| - 1] == s[n];
      assert s[n] in s;
      LastElementOfPath(dir, s[..n]);
      assert s == s[..n] + [s[n]];
    }
  }

  // Of a path the last element is taken.
  lemma BaseOfPath(dir: string, s: string)
    requires s != "" && '/' !in s
    ensures Base(dir + "/" + s) == s
  {
    var path := dir + "/" + s;
    assert path == dir + ['/'] + s;
    assert path[|path| - 1] == s[|s| - 1] && s[|s| - 1] in s;
    LastElementOfPath(dir, s);
  }

  // ---- Suffixes ----

  const SUFFIXES: seq<string> := [".pkg.tar.zst", ".pkg.tar.xz", ".pkg.tar.gz", ".pkg.tar.bz2", ".pkg.tar"]

  function WithoutSuffix(base: string, suffixes: seq<string>): string {
    if suffixes == [] then base
    else if HasSuffix(base, suffixes[0]) then TrimSuffix(base, suffixes[0])
    else WithoutSuffix(base, suffixes[1..])
  }

  // Two listed suffixes never end the same file name.
  lemma OneSuffix(s: string, i: nat, j: nat)
    requires i < |SUFFIXES| && j < |SUFFIXES|
    requires HasSuffix(s, SUFFIXES[i]) && HasSuffix(s, SUFFIXES[j])
    ensures i == j
  {
    var a, b := SUFFIXES[i], SUFFIXES[j];
    assert s[|s| - 1] == a[|a| - 1] && s[|s| - 1] == b[|b| - 1];
    assert s[|s| - 2] == a[|a| - 2] && s[|s| - 2] == b[|b| - 2];
  }

  lemma {:induction false} SuffixIsDropped(s: string, k: nat, i: nat)
    requires k <= i < |SUFFIXES|
    ensures WithoutSuffix(s + SUFFIXES[i], SUFFIXES[k..]) == s
    decreases i - k
  {
    var full := s + SUFFIXES[i];
    assert full[|full| - |SUFFIXES[i]|..] == SUFFIXES[i];
    assert SUFFIXES[k..][0] == SUFFIXES[k] && SUFFIXES[k..][1..] == SUFFIXES[k + 1..];
    if k == i {
      assert full[..|full| - |SUFFIXES[i]|] == s;
    } else {
      if HasSuffix(full, SUFFIXES[k]) {
        OneSuffix(full, k, i);
      }
      SuffixIsDropped(s, k + 1, i);
    }
  }

  // ---- name-pkgver-pkgrel-arch ----

  function NameOf(base: string): string {
    var parts := Split(base, '-');
    if |parts| < 4 then "" else Join(parts[..|parts| - 3], '-')
  }

  function PackageNameOf(filename: string): string {
    NameOf(WithoutSuffix(Base(filename), SUFFIXES))
  }

  method PackageNameFromArtifact(filename: string) returns (name: string)
    ensures name == PackageNameOf(filename)
  {
    var base := Base(filename);
    var i := 0;
    while i < |SUFFIXES|
      invariant i <= |SUFFIXES|
      invariant base == Base(filename)
      invariant WithoutSuffix(base, SUFFIXES) == WithoutSuffix(base, SUFFIXES[i..])
    {
      assert SUFFIXES[i..][0] == SUFFIXES[i] && SUFFIXES[i..][1..] == SUFFIXES[i + 1..];
      if HasSuffix(base, SUFFIXES[i]) {
        base := TrimSuffix(base, SUFFIXES[i]);
        break;
      }
      i := i + 1;
    }
    var parts := Split(base, '-');
    if |parts| < 4 {
      return "";
    }
    name := Join(parts[..|parts| - 3], '-');
  }

  function Stem(name: string, pkgver: string, pkgrel: string, arch: string): string {
    name + ['-'] + pkgver + ['-'] + pkgrel + ['-'] + arch
  }

  lemma SplitOfStem(name: string, pkgver: string, pkgrel: string, arch: string)
    requires '-' !in pkgver && '-' !in pkgrel && '-' !in arch
    ensures Split(Stem(name, pkgver, pkgrel, arch), '-') == Split(name, '-') + [pkgver, pkgrel, arch]
  {
    var a := name + ['-'] + pkgver;
    var b := a + ['-'] + pkgrel;
    SplitOfConcat(name, '-', pkgver);
    SplitOfConcat(a, '-', pkgrel);
    SplitOfConcat(b, '-', arch);
    SplitOfPlain(pkgver, '-');
    SplitOfPlain(pkgrel, '-');
    SplitOfPlain(arch, '-');
  }

  lemma NameOfStem(name: string, pkgver: string, pkgrel: string, arch: string)
    requires '-' !in pkgver && '-' !in pkgrel && '-' !in arch
    ensures |Split(Stem(name, pkgver, pkgrel, arch), '-')| >= 4
    ensures NameOf(Stem(name, pkgver, pkgrel, arch)) == name
  {
    SplitOfStem(name, pkgver, pkgrel, arch);
    var parts := Split(Stem(name, pkgver, pkgrel, arch), '-');
    assert parts[..|parts| - 3] == Split(name, '-');
    JoinOfSplit(name, '-');
  }

  // The artifact of a package, whatever hyphens are in its name and whichever
  // listed suffix it has, gives the name back.
  lemma FilenameRoundTrip(name: string, pkgver: string, pkgrel: string, arch: string, suffix: string)
    requires '/' !in name && '/' !in pkgver && '/' !in pkgrel && '/' !in arch
    requires '-' !in pkgver && '-' !in pkgrel && '-' !in arch
    requires suffix in {".pkg.tar.zst", ".pkg.tar.xz", ".pkg.tar.gz", ".pkg.tar.bz2", ".pkg.tar"}
    ensures suffix in SUFFIXES
    ensures PackageNameOf(Stem(name, pkgver, pkgrel, arch) + suffix) == name
  {
    var stem := Stem(name, pkgver, pkgrel, arch);
    assert && SUFFIXES[0] == ".pkg.tar.zst" && SUFFIXES[1] == ".pkg.tar.xz" && SUFFIXES[2] == ".pkg.tar.gz"
           && SUFFIXES[3] == ".pkg.tar.bz2" && SUFFIXES[4] == ".pkg.tar";
    var i :| 0 <= i < |SUFFIXES| && SUFFIXES[i] == suffix;
    assert '/' !in suffix;
    BaseOfPlain(stem + suffix);
    assert SUFFIXES[0..] == SUFFIXES;
    SuffixIsDropped(stem, 0, i);
    NameOfStem(name, pkgver, pkgrel, arch);
  }

  ghost predicate IsStem(stem: string, name: string, pkgver: string, pkgrel: string, arch: string) {
    '-' !in pkgver && '-' !in pkgrel && '-' !in arch && stem == Stem(name, pkgver, pkgrel, arch)
  }

  lemma Reassociate(name: string, a: string, b: string, c: string)
    ensures name + ['-'] + (a + ['-'] + b + ['-'] + c) == Stem(name, a, b, c)
  {
  }

  lemma JoinOfThree(a: string, b: string, c: string)
    ensures Join([a, b, c], '-') == a + ['-'] + b + ['-'] + c
  {
    assert [a, b, c][1..] == [b, c] && [b, c][1..] == [c];
    assert Join([b, c], '-') == b + ['-'] + c;
  }

  lemma JoinOfFour(front: seq<string>, a: string, b: string, c: string)
    requires front != []
    ensures Join(front + [a, b, c], '-') == Stem(Join(front, '-'), a, b, c)
  {
    hide Join;
    JoinOfConcat(front, [a, b, c], '-');
    JoinOfThree(a, b, c);
    Reassociate(Join(front, '-'), a, b, c);
  }

  lemma StemOfParts(parts: seq<string>)
    requires |parts| >= 4
    ensures var n := |parts| - 3;
            Join(parts, '-') == Stem(Join(parts[..n], '-'), parts[n], parts[n + 1], parts[n + 2])
  {
    hide Join, Stem;
    var n := |parts| - 3;
    assert parts == parts[..n] + [parts[n], parts[n + 1], parts[n + 2]];
    JoinOfFour(parts[..n], parts[n], parts[n + 1], parts[n + 2]);
  }

  // A stem gives a name exactly when it is that name and three hyphen-free parts.
  lemma NameExactly(stem: string, name: string)
    ensures (exists pkgver, pkgrel, arch :: IsStem(stem, name, pkgver, pkgrel, arch))
            <==> |Split(stem, '-')| >= 4 && NameOf(stem) == name
  {
    hide Split, Join, Stem;
    forall pkgver, pkgrel, arch | IsStem(stem, name, pkgver, pkgrel, arch)
      ensures |Split(stem, '-')| >= 4 && NameOf(stem) == name
    {
      NameOfStem(name, pkgver, pkgrel, arch);
    }
    var parts := Split(stem, '-');
    if |parts| >= 4 && NameOf(stem) == name {
      JoinOfSplit(stem, '-');
      SplitIsFree(stem, '-');
      StemOfParts(parts);
      var n := |parts| - 3;
      assert parts[n] in parts && parts[n + 1] in parts && parts[n + 2] in parts;
      assert IsStem(stem, name, parts[n], parts[n + 1], parts[n + 2]);
    }
  }
}
