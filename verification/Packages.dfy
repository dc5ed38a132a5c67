// Package metadata, as it travels from the parsers to the database.
module Packages {
  datatype SourceKind = Aur | Local

  // What a dependency row records: the name is in the official repositories or the AUR.
  datatype DependencyKind = FromRepo | FromAur

  datatype Dependency = Dependency(name: string, aur: bool)

  datatype PackageInfo = PackageInfo(
    name: string,
    version: string,
    release: string,
    kind: SourceKind,
    ref: string,
    splits: seq<string>,
    dependencies: seq<Dependency>,
    warnings: seq<string>)

  function EmptyInfo(kind: SourceKind, ref: string): PackageInfo {
    PackageInfo("", "", "", kind, ref, [], [], [])
  }

  // No name twice, as the unique index of the dependency table asks.
  ghost predicate DistinctNames(dependencies: seq<Dependency>) {
    forall i, j :: 0 <= i < j < |dependencies| ==> dependencies[i].name != dependencies[j].name
  }
}
