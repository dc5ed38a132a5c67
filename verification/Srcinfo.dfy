// The .SRCINFO parser, the loop of the PKGBUILD fallback, and ParsePackage.
module Srcinfo {
  import opened DependencyNames
  import opened Options
  import opened Packages
  import opened Sorting
  import opened Strings

  // ---- Records of a .SRCINFO text ----

  datatype Key = PkgBase | PkgName | PkgVer | PkgRel | Depends | MakeDepends

  datatype Record = Record(key: Key, value: string)

  function KeyOf(text: string): Option<Key> {
    match text
    case "pkgbase" => Some(PkgBase)
    case "pkgname" => Some(PkgName)
    case "pkgver" => Some(PkgVer)
    case "pkgrel" => Some(PkgRel)
    case "depends" => Some(Depends)
    case "makedepends" => Some(MakeDepends)
    case _ => None
  }

  // A trimmed line cannot end in the separator, so a value is never empty.
  lemma TrimmedValue(raw: string)
    requires Cut(TrimSpace(raw), " = ").found
    ensures Cut(TrimSpace(raw), " = ").after != ""
  {
    var line := TrimSpace(raw);
    TrimSpaceIsTrimmed(raw);
    CutMeans(line, " = ");
    var parts := Cut(line, " = ");
    assert line[|parts.before| + 2] == ' ';
  }

  // The record on one raw line: none when the trimmed line has no " = " or
  // its key is not one the parser reads.
  function RecordOf(raw: string): (r: Option<Record>)
    ensures r.Some? ==> r.value.value != ""
  {
    var line := TrimSpace(raw);
    var parts := Cut(line, " = ");
    if parts.found && KeyOf(parts.before).Some? then
      TrimmedValue(raw);
      Some(Record(KeyOf(parts.before).value, parts.after))
    else None
  }

  function RecordsOf(lines: seq<string>): seq<Record> {
    if lines == [] then []
    else
      var n := |lines| - 1;
      var last := RecordOf(lines[n]);
      if last.Some? then RecordsOf(lines[..n]) + [last.value] else RecordsOf(lines[..n])
  }

  // Values recorded under any of the keys, in order.
  function Values(records: seq<Record>, keys: set<Key>): seq<string> {
    if records == [] then []
    else
      var n := |records| - 1;
      if records[n].key in keys then Values(records[..n], keys) + [records[n].value] else Values(records[..n], keys)
  }

  function LastOr(values: seq<string>, otherwise: string): string {
    if values == [] then otherwise else values[|values| - 1]
  }

  function FirstOr(values: seq<string>, otherwise: string): string {
    if values == [] then otherwise else values[0]
  }

  const DEPEND_KEYS: set<Key> := {Depends, MakeDepends}

  function DeclaredNames(records: seq<Record>): seq<string> {
    FirstOccurrences(DepNames(Values(records, DEPEND_KEYS)))
  }

  // What the records say about a package: first pkgbase, last pkgver and
  // pkgrel, every pkgname, and the given dependency names.
  function Described(records: seq<Record>, names: seq<string>, info: PackageInfo): PackageInfo {
    info.(name := if info.name != "" then info.name else FirstOr(Values(records, {PkgBase}), ""),
          version := LastOr(Values(records, {PkgVer}), info.version),
          release := LastOr(Values(records, {PkgRel}), info.release),
          splits := info.splits + Values(records, {PkgName}),
          dependencies := info.dependencies + Named(names))
  }

  function ParsedSrcinfo(source: string, info: PackageInfo): PackageInfo {
    var records := RecordsOf(Split(source, '\n'));
    Described(records, DeclaredNames(records), info)
  }

  lemma {:induction false} RecordsHaveValues(lines: seq<string>)
    ensures forall r :: r in RecordsOf(lines) ==> r.value != ""
  {
    if lines != [] {
      RecordsHaveValues(lines[..|lines| - 1]);
    }
  }

  lemma {:induction false} ValuesComeFromRecords(records: seq<Record>, keys: set<Key>)
    requires forall r :: r in records ==> r.value != ""
    ensures forall v :: v in Values(records, keys) ==> v != ""
  {
    if records != [] {
      var n := |records| - 1;
      assert forall r :: r in records[..n] ==> r in records;
      ValuesComeFromRecords(records[..n], keys);
      assert records[n] in records;
    }
  }

  lemma AddRecord(records: seq<Record>, r: Record, keys: set<Key>)
    ensures var values := Values(records, keys);
            Values(records + [r], keys) == if r.key in keys then values + [r.value] else values
  {
    assert (records + [r])[..|records|] == records;
  }

  function WithName(names: seq<string>, name: string): seq<string> {
    if name == "" || name in names then names else names + [name]
  }

  lemma AddDeclared(records: seq<Record>, r: Record)
    ensures DeclaredNames(records + [r]) ==
            if r.key in DEPEND_KEYS then WithName(DeclaredNames(records), DepName(r.value)) else DeclaredNames(records)
  {
    AddRecord(records, r, DEPEND_KEYS);
    if r.key in DEPEND_KEYS {
      AddDepName(Values(records, DEPEND_KEYS), r.value);
      AddName(DepNames(Values(records, DEPEND_KEYS)), DepName(r.value));
    }
  }

  // What one more record changes in the description.
  lemma AddField(records: seq<Record>, r: Record, names: seq<string>, info: PackageInfo)
    requires forall x :: x in records ==> x.value != ""
    ensures var was := Described(records, names, info);
            Described(records + [r], names, info) ==
              match r.key
              case PkgBase => if was.name == "" then was.(name := r.value) else was
              case PkgName => was.(splits := was.splits + [r.value])
              case PkgVer => was.(version := r.value)
              case PkgRel => was.(release := r.value)
              case _ => was
  {
    AddRecord(records, r, {PkgBase});
    ValuesComeFromRecords(records, {PkgBase});
    var bases := Values(records, {PkgBase});
    assert bases != [] ==> bases[0] in bases;
    AddRecord(records, r, {PkgVer});
    AddRecord(records, r, {PkgRel});
    AddRecord(records, r, {PkgName});
    assert Described(records + [r], names, info).splits ==
           if r.key == PkgName then info.splits + Values(records, {PkgName}) + [r.value]
           else info.splits + Values(records, {PkgName});
  }

  // One record read into the package when the names in seen are already there.
  ghost function WithRecord(info: PackageInfo, r: Record, name: string, seen: set<string>): PackageInfo {
    match r.key
    case PkgBase => if info.name == "" then info.(name := r.value) else info
    case PkgName => info.(splits := info.splits + [r.value])
    case PkgVer => info.(version := r.value)
    case PkgRel => info.(release := r.value)
    case _ =>
      if name == "" || name in seen then info
      else info.(dependencies := info.dependencies + [Dependency(name, false)])
  }

  ghost function NamesWith(names: seq<string>, r: Record, name: string): seq<string> {
    if r.key in DEPEND_KEYS then WithName(names, name) else names
  }

  lemma {:induction false} AddToDescribed(records: seq<Record>, r: Record, names: seq<string>, name: string,
                                          info: PackageInfo)
    requires forall x :: x in records ==> x.value != ""
    ensures Described(records + [r], NamesWith(names, r, name), info)
         == WithRecord(Described(records, names, info), r, name, Elements(names))
  {
    AddField(records, r, names, info);
    AddNamed(names, name);
    assert name in names <==> name in Elements(names);
    var after := Described(records + [r], NamesWith(names, r, name), info);
    if NamesWith(names, r, name) == names + [name] && r.key in DEPEND_KEYS {
      assert after.dependencies == info.dependencies + Named(names) + [Dependency(name, false)];
    }
  }

  // The body of the parser's switch.
  method ReadRecord(r: Record, info: PackageInfo, seen: set<string>)
    returns (out: PackageInfo, known: set<string>)
    ensures out == WithRecord(info, r, DepName(r.value), seen)
    ensures known == if r.key in DEPEND_KEYS && DepName(r.value) != "" then seen + {DepName(r.value)} else seen
  {
    hide DepName;
    out, known := info, seen;
    match r.key {
      case PkgBase =>
        if out.name == "" {
          out := out.(name := r.value);
        }
      case PkgName => out := out.(splits := out.splits + [r.value]);
      case PkgVer => out := out.(version := r.value);
      case PkgRel => out := out.(release := r.value);
      case _ =>
        var name := ComputeDepName(r.value);
        if name != "" && name !in seen {
          out := out.(dependencies := out.dependencies + [Dependency(name, false)]);
          known := seen + {name};
        }
    }
  }

  ghost predicate ReadSoFar(records: seq<Record>, names: seq<string>, info: PackageInfo,
                            out: PackageInfo, seen: set<string>)
  {
    && (forall x :: x in records ==> x.value != "")
    && out == Described(records, names, info)
    && seen == Elements(names)
  }

  lemma {:induction false} ReadOneMore(records: seq<Record>, names: seq<string>, r: Record, name: string,
                                       info: PackageInfo, out: PackageInfo, seen: set<string>)
    requires ReadSoFar(records, names, info, out, seen) && r.value != ""
    ensures ReadSoFar(records + [r], NamesWith(names, r, name), info, WithRecord(out, r, name, seen),
                      if r.key in DEPEND_KEYS && name != "" then seen + {name} else seen)
  {
    AddToDescribed(records, r, names, name, info);
  }

  lemma NothingRead(info: PackageInfo)
    ensures DeclaredNames(RecordsOf([])) == [] && ReadSoFar(RecordsOf([]), [], info, info, {})
  {
    assert info.splits + [] == info.splits && info.dependencies + [] == info.dependencies;
  }

  lemma AllRead(records: seq<Record>, info: PackageInfo, out: PackageInfo, seen: set<string>)
    requires ReadSoFar(records, DeclaredNames(records), info, out, seen)
    ensures out == Described(records, DeclaredNames(records), info)
  {
  }

  method ParseSrcinfo(source: string, info: PackageInfo) returns (out: PackageInfo)
    ensures out == ParsedSrcinfo(source, info)
  {
    hide DepName, RecordOf, Split, ReadSoFar, DeclaredNames, Described;
    out := info;
    var seen: set<string> := {};
    var lines := Split(source, '\n');
    ghost var names: seq<string> := [];
    NothingRead(info);
    assert lines[..0] == [];
    for i := 0 to |lines|
      invariant names == DeclaredNames(RecordsOf(lines[..i]))
      invariant ReadSoFar(RecordsOf(lines[..i]), names, info, out, seen)
    {
      assert lines[..i + 1][..i] == lines[..i];
      var record := RecordOf(lines[i]);
      if record == None {
        continue;
      }
      AddDeclared(RecordsOf(lines[..i]), record.value);
      ReadOneMore(RecordsOf(lines[..i]), names, record.value, DepName(record.value.value), info, out, seen);
      names := NamesWith(names, record.value, DepName(record.value.value));
      out, seen := ReadRecord(record.value, out, seen);
    }
    assert lines[..|lines|] == lines;
    AllRead(RecordsOf(lines), info, out, seen);
  }

  // ---- Which record counts ----

  lemma {:induction false} NoValue(records: seq<Record>, key: Key)
    requires forall j :: 0 <= j < |records| ==> records[j].key != key
    ensures Values(records, {key}) == []
  {
    if records != [] {
      NoValue(records[..|records| - 1], key);
    }
  }

  lemma {:induction false} FirstValue(records: seq<Record>, key: Key, k: nat)
    requires k < |records| && records[k].key == key && forall j :: 0 <= j < k ==> records[j].key != key
    ensures Values(records, {key}) != [] && Values(records, {key})[0] == records[k].value
  {
    var n := |records| - 1;
    if k < n {
      FirstValue(records[..n], key, k);
    } else {
      NoValue(records[..n], key);
    }
  }

  lemma {:induction false} LastValue(records: seq<Record>, key: Key, k: nat)
    requires k < |records| && records[k].key == key && forall j :: k < j < |records| ==> records[j].key != key
    ensures Values(records, {key}) != [] && Values(records, {key})[|Values(records, {key})| - 1] == records[k].value
  {
    var n := |records| - 1;
    if k < n {
      LastValue(records[..n], key, k);
    }
  }

  // The name is the first pkgbase, version and release are the last pkgver and
  // pkgrel; what no record gives stays as it was.
  lemma {:induction false} FieldsCount(source: string, info: PackageInfo, k: nat)
    requires k < |RecordsOf(Split(source, '\n'))|
    ensures var records, r := RecordsOf(Split(source, '\n')), ParsedSrcinfo(source, info);
            && (&& info.name == "" && records[k].key == PkgBase
                && (forall j :: 0 <= j < k ==> records[j].key != PkgBase) ==>
                  r.name == records[k].value)
            && (info.name != "" ==> r.name == info.name)
            && (records[k].key == PkgVer && (forall j :: k < j < |records| ==> records[j].key != PkgVer) ==>
                  r.version == records[k].value)
            && (records[k].key == PkgRel && (forall j :: k < j < |records| ==> records[j].key != PkgRel) ==>
                  r.release == records[k].value)
            && ((forall r :: r in records ==> r.key != PkgVer) ==> r.version == info.version)
            && ((forall r :: r in records ==> r.key != PkgRel) ==> r.release == info.release)
  {
    hide RecordsOf, Split, DeclaredNames, Values;
    var records := RecordsOf(Split(source, '\n'));
    if records[k].key == PkgBase && (forall j :: 0 <= j < k ==> records[j].key != PkgBase) {
      FirstValue(records, PkgBase, k);
    }
    forall key ensures records[k].key == key && (forall j :: k < j < |records| ==> records[j].key != key) ==>
                         LastOr(Values(records, {key}), "") == records[k].value && Values(records, {key}) != []
               ensures (forall r :: r in records ==> r.key != key) ==> Values(records, {key}) == [] {
      if records[k].key == key && (forall j :: k < j < |records| ==> records[j].key != key) {
        LastValue(records, key, k);
      }
      if forall r :: r in records ==> r.key != key {
        NoValue(records, key);
      }
    }
  }
}
