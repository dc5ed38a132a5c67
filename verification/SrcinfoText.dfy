// Writing a .SRCINFO text: `key = value` lines with any white space around
// them, and any lines in between that the parser does not read.
module SrcinfoText {
  import opened DependencyNames
  import opened Options
  import opened Packages
  import opened Sorting
  import opened Srcinfo
  import opened Strings

  datatype Line =
    | Field(lead: string, record: Record, trail: string)
    | Noise(text: string)

  function KeyText(key: Key): (text: string)
    ensures KeyOf(text) == Some(key)
  {
    match key
    case PkgBase => "pkgbase"
    case PkgName => "pkgname"
    case PkgVer => "pkgver"
    case PkgRel => "pkgrel"
    case Depends => "depends"
    case MakeDepends => "makedepends"
  }

  function Core(r: Record): string {
    KeyText(r.key) + " = " + r.value
  }

  function Text(line: Line): string {
    match line
    case Field(lead, r, trail) => lead + Core(r) + trail
    case Noise(text) => text
  }

  // A value that a line can carry: one line long and not ending in a space.
  predicate Writable(value: string) {
    value != "" && !IsSpace(value[|value| - 1]) && '\n' !in value
  }

  predicate WellFormed(line: Line) {
    match line
    case Field(lead, r, trail) =>
      && Writable(r.value)
      && AllSpace(lead) && '\n' !in lead
      && AllSpace(trail) && '\n' !in trail
    case Noise(text) => '\n' !in text && RecordOf(text) == None
  }

  function Texts(doc: seq<Line>): (r: seq<string>)
    ensures |r| == |doc|
  {
    if doc == [] then [] else Texts(doc[..|doc| - 1]) + [Text(doc[|doc| - 1])]
  }

  function Render(doc: seq<Line>): string {
    Join(Texts(doc), '\n')
  }

  function FieldsOf(doc: seq<Line>): seq<Record> {
    if doc == [] then []
    else
      var n := |doc| - 1;
      if doc[n].Field? then FieldsOf(doc[..n]) + [doc[n].record] else FieldsOf(doc[..n])
  }

  lemma KeyTextIsPlain(key: Key)
    ensures KeyText(key) != "" && forall i :: 0 <= i < |KeyText(key)| ==> 'a' <= KeyText(key)[i] <= 'z'
  {
  }

  lemma CoreIsCut(r: Record)
    ensures Cut(Core(r), " = ") == Parts(KeyText(r.key), r.value, true)
  {
    var k := KeyText(r.key);
    var s := Core(r);
    KeyTextIsPlain(r.key);
    assert s[|k|..] == " = " + r.value;
    forall i | i < |k| ensures !OccursAt(s, " = ", i) {
      if 0 <= i {
        assert s[i..][0] == k[i];
      }
    }
    IndexAt(s, " = ", |k|);
    assert s[..|k|] == k && s[|k| + 3..] == r.value;
  }

  lemma FieldIsRead(lead: string, r: Record, trail: string)
    requires AllSpace(lead) && AllSpace(trail) && Writable(r.value)
    ensures RecordOf(lead + Core(r) + trail) == Some(r)
  {
    var s := Core(r);
    KeyTextIsPlain(r.key);
    assert s[0] == KeyText(r.key)[0] && s[|s| - 1] == r.value[|r.value| - 1];
    TrimSpaceOf(lead, s, trail);
    CoreIsCut(r);
  }

  lemma TextHasNoNewline(line: Line)
    requires WellFormed(line)
    ensures '\n' !in Text(line)
  {
    if line.Field? {
      KeyTextIsPlain(line.record.key);
      assert '\n' !in KeyText(line.record.key);
    }
  }

  lemma {:induction false} TextsAreLines(doc: seq<Line>)
    requires forall l :: l in doc ==> WellFormed(l)
    ensures FreeOf(Texts(doc), '\n')
    ensures RecordsOf(Texts(doc)) == FieldsOf(doc)
  {
    if doc != [] {
      var n := |doc| - 1;
      var front := doc[..n];
      assert forall l :: l in front ==> l in doc;
      TextsAreLines(front);
      assert doc[n] in doc;
      TextHasNoNewline(doc[n]);
      assert Texts(doc)[..n] == Texts(front);
      if doc[n].Field? {
        FieldIsRead(doc[n].lead, doc[n].record, doc[n].trail);
      }
    }
  }

  // The parser sees the fields of a document and nothing else.
  lemma RenderedRecords(doc: seq<Line>)
    requires forall l :: l in doc ==> WellFormed(l)
    ensures RecordsOf(Split(Render(doc), '\n')) == FieldsOf(doc)
  {
    TextsAreLines(doc);
    if doc == [] {
      assert RecordOf("") == None;
      assert RecordsOf([""]) == [];
    } else {
      SplitOfJoin(Texts(doc), '\n');
    }
  }

  // ---- The round trip ----

  function NamesOf(dependencies: seq<Dependency>): (r: seq<string>)
    ensures |r| == |dependencies|
    ensures forall i :: 0 <= i < |r| ==> r[i] == dependencies[i].name
  {
    if dependencies == [] then []
    else NamesOf(dependencies[..|dependencies| - 1]) + [dependencies[|dependencies| - 1].name]
  }

  ghost predicate Printable(info: PackageInfo) {
    && Writable(info.name) && Writable(info.version) && Writable(info.release)
    && (forall s :: s in info.splits ==> Writable(s))
    && (forall d :: d in info.dependencies ==> Writable(d.name) && !d.aur && Plain(d.name) && Trimmed(d.name))
    && DistinctNames(info.dependencies)
    && info.warnings == []
  }

  // The records list the fields of a package: one name, version and release,
  // the split names in order, and the dependencies in order under either key.
  // The fields themselves come in any order.
  ghost predicate Lists(records: seq<Record>, info: PackageInfo) {
    && Values(records, {PkgBase}) == [info.name]
    && Values(records, {PkgVer}) == [info.version]
    && Values(records, {PkgRel}) == [info.release]
    && Values(records, {PkgName}) == info.splits
    && Values(records, DEPEND_KEYS) == NamesOf(info.dependencies)
  }

  lemma {:induction false} FixedNames(names: seq<string>)
    requires forall n :: n in names ==> DepName(n) == n
    ensures DepNames(names) == names
  {
    hide DepName;
    if names != [] {
      var k := |names| - 1;
      assert forall n :: n in names[..k] ==> n in names;
      FixedNames(names[..k]);
      assert names[k] in names;
      assert names == names[..k] + [names[k]];
    }
  }

  lemma {:induction false} NoRepeats(names: seq<string>)
    requires Distinct(names) && "" !in names
    ensures FirstOccurrences(names) == names
  {
    if names != [] {
      var k := |names| - 1;
      NoRepeats(names[..k]);
      assert names[k] in names && names[k] !in names[..k];
      assert names == names[..k] + [names[k]];
    }
  }

  lemma {:induction false} PrintableNames(info: PackageInfo)
    requires Printable(info)
    ensures FirstOccurrences(DepNames(NamesOf(info.dependencies))) == NamesOf(info.dependencies)
    ensures Named(NamesOf(info.dependencies)) == info.dependencies
  {
    hide DepName, FirstOccurrences, DepNames, Plain, Trimmed, IsSpace;
    var names := NamesOf(info.dependencies);
    forall i | 0 <= i < |names| ensures names[i] != "" && DepName(names[i]) == names[i] {
      assert info.dependencies[i] in info.dependencies;
      DepNameFixed(names[i]);
    }
    FixedNames(names);
    NoRepeats(names);
    forall i | 0 <= i < |names| ensures Named(names)[i] == info.dependencies[i] {
      assert info.dependencies[i] in info.dependencies;
    }
  }

  // Printing the fields of a package in any order, adding white space and
  // unread lines, and parsing the text gives the package back.
  lemma RoundTrip(info: PackageInfo, doc: seq<Line>)
    requires Printable(info)
    requires (forall l :: l in doc ==> WellFormed(l)) && Lists(FieldsOf(doc), info)
    ensures ParsedSrcinfo(Render(doc), EmptyInfo(info.kind, info.ref)) == info
  {
    hide DepName, FirstOccurrences, DepNames, RecordsOf, Values;
    RenderedRecords(doc);
    PrintableNames(info);
  }

  // ---- The order makepkg prints ----

  function Under(key: Key, values: seq<string>): (r: seq<Line>)
    ensures |r| == |values|
    ensures forall i :: 0 <= i < |r| ==> r[i] == Field("\t", Record(key, values[i]), "")
  {
    if values == [] then []
    else
      var n := |values| - 1;
      Under(key, values[..n]) + [Field("\t", Record(key, values[n]), "")]
  }

  // The base section with makedepends before depends, then the split packages.
  function Printed(info: PackageInfo, made: nat): seq<Line>
    requires made <= |info.dependencies|
  {
    var names := NamesOf(info.dependencies);
    [Field("", Record(PkgBase, info.name), "")] + ([Field("\t", Record(PkgVer, info.version), "")]
    + ([Field("\t", Record(PkgRel, info.release), "")]
    + (Under(MakeDepends, names[..made]) + (Under(Depends, names[made..]) + Under(PkgName, info.splits)))))
  }

  lemma {:induction false} ValuesOfConcat(a: seq<Record>, b: seq<Record>, keys: set<Key>)
    ensures Values(a + b, keys) == Values(a, keys) + Values(b, keys)
  {
    if b == [] {
      assert a + b == a;
    } else {
      var n := |b| - 1;
      ValuesOfConcat(a, b[..n], keys);
      assert (a + b)[..|a + b| - 1] == a + b[..n];
    }
  }

  lemma {:induction false} RecordsOfConcat(a: seq<Line>, b: seq<Line>)
    ensures FieldsOf(a + b) == FieldsOf(a) + FieldsOf(b)
  {
    if b == [] {
      assert a + b == a;
    } else {
      var n := |b| - 1;
      RecordsOfConcat(a, b[..n]);
      assert (a + b)[..|a + b| - 1] == a + b[..n];
    }
  }

  lemma FieldsOfConcat(a: seq<Line>, b: seq<Line>, keys: set<Key>)
    ensures Values(FieldsOf(a + b), keys) == Values(FieldsOf(a), keys) + Values(FieldsOf(b), keys)
  {
    hide Values, FieldsOf;
    RecordsOfConcat(a, b);
    ValuesOfConcat(FieldsOf(a), FieldsOf(b), keys);
  }

  // A value list in the printed order, kept or dropped key by key.
  function Kept(keys: set<Key>, key: Key, values: seq<string>): seq<string> {
    if key in keys then values else []
  }

  lemma {:induction false} FieldsUnder(key: Key, values: seq<string>, keys: set<Key>)
    ensures Values(FieldsOf(Under(key, values)), keys) == Kept(keys, key, values)
  {
    if values != [] {
      var n := |values| - 1;
      FieldsUnder(key, values[..n], keys);
      var lines := Under(key, values);
      assert lines[..n] == Under(key, values[..n]);
      AddRecord(FieldsOf(lines[..n]), lines[n].record, keys);
    }
  }

  lemma FieldsOfOne(l: Line, keys: set<Key>)
    requires l.Field?
    ensures Values(FieldsOf([l]), keys) == Kept(keys, l.record.key, [l.record.value])
  {
    assert [l][..0] == [];
    AddRecord([], l.record, keys);
    assert FieldsOf([l]) == [l.record];
  }

  lemma PrintedValues(info: PackageInfo, made: nat, keys: set<Key>)
    requires made <= |info.dependencies|
    ensures Values(FieldsOf(Printed(info, made)), keys) ==
            Kept(keys, PkgBase, [info.name]) + (Kept(keys, PkgVer, [info.version]) + (Kept(keys, PkgRel, [info.release])
            + (Kept(keys, MakeDepends, NamesOf(info.dependencies)[..made])
               + (Kept(keys, Depends, NamesOf(info.dependencies)[made..]) + Kept(keys, PkgName, info.splits)))))
  {
    hide Values, FieldsOf, Kept;
    var names := NamesOf(info.dependencies);
    var b, v := Field("", Record(PkgBase, info.name), ""), Field("\t", Record(PkgVer, info.version), "");
    var r := Field("\t", Record(PkgRel, info.release), "");
    var m, d, s := Under(MakeDepends, names[..made]), Under(Depends, names[made..]), Under(PkgName, info.splits);
    FieldsUnder(MakeDepends, names[..made], keys);
    FieldsUnder(Depends, names[made..], keys);
    FieldsUnder(PkgName, info.splits, keys);
    FieldsOfOne(b, keys);
    FieldsOfOne(v, keys);
    FieldsOfOne(r, keys);
    FieldsOfConcat(d, s, keys);
    FieldsOfConcat(m, d + s, keys);
    FieldsOfConcat([r], m + (d + s), keys);
    FieldsOfConcat([v], [r] + (m + (d + s)), keys);
    FieldsOfConcat([b], [v] + ([r] + (m + (d + s))), keys);
  }

  lemma PrintedLists(info: PackageInfo, made: nat)
    requires made <= |info.dependencies|
    ensures Lists(FieldsOf(Printed(info, made)), info)
  {
    hide Values, FieldsOf, Printed;
    PrintedValues(info, made, {PkgBase});
    PrintedValues(info, made, {PkgVer});
    PrintedValues(info, made, {PkgRel});
    PrintedValues(info, made, {PkgName});
    PrintedValues(info, made, DEPEND_KEYS);
    var names := NamesOf(info.dependencies);
    assert names == names[..made] + names[made..];
  }

  lemma UnderIsWellFormed(key: Key, values: seq<string>)
    requires forall v :: v in values ==> Writable(v)
    ensures forall l :: l in Under(key, values) ==> WellFormed(l)
  {
    hide Writable;
    var lines := Under(key, values);
    forall l | l in lines ensures WellFormed(l) {
      var i :| 0 <= i < |lines| && lines[i] == l;
      assert values[i] in values;
    }
  }

  lemma {:induction false} PrintedIsWellFormed(info: PackageInfo, made: nat)
    requires Printable(info) && made <= |info.dependencies|
    ensures forall l :: l in Printed(info, made) ==> WellFormed(l)
  {
    var names := NamesOf(info.dependencies);
    hide Writable, Under, Trimmed, Plain;
    forall d | d in names ensures Writable(d) {
      var i :| 0 <= i < |names| && names[i] == d;
      assert info.dependencies[i] in info.dependencies;
    }
    UnderIsWellFormed(MakeDepends, names[..made]);
    UnderIsWellFormed(Depends, names[made..]);
    UnderIsWellFormed(PkgName, info.splits);
  }

  // What makepkg prints, whichever of the dependencies are build-time ones,
  // parses to the package.
  lemma PrintedRoundTrip(info: PackageInfo, made: nat)
    requires Printable(info) && made <= |info.dependencies|
    ensures ParsedSrcinfo(Render(Printed(info, made)), EmptyInfo(info.kind, info.ref)) == info
  {
    hide Lists, FieldsOf, ParsedSrcinfo, Render, Printed, Printable;
    PrintedLists(info, made);
    PrintedIsWellFormed(info, made);
    RoundTrip(info, Printed(info, made));
  }

  // ---- The text itself ----

  lemma RenderOneMore(doc: seq<Line>, l: Line)
    requires doc != []
    ensures Render(doc + [l]) == Render(doc) + "\n" + Text(l)
  {
    hide Text;
    assert (doc + [l])[..|doc|] == doc;
    JoinOfConcat(Texts(doc), [Text(l)], '\n');
  }

  // A line of a key, letter by letter.
  lemma PlainLine(lead: string, key: Key, value: string)
    ensures Text(Field(lead, Record(key, value), ""))
            == lead + match key
                      case PkgBase => "pkgbase = " + value
                      case PkgName => "pkgname = " + value
                      case PkgVer => "pkgver = " + value
                      case PkgRel => "pkgrel = " + value
                      case Depends => "depends = " + value
                      case MakeDepends => "makedepends = " + value
  {
    var text := lead + Core(Record(key, value));
    assert text + "" == text;
    match key
    case PkgBase => assert "pkgbase" + " = " == "pkgbase = ";
    case PkgName => assert "pkgname" + " = " == "pkgname = ";
    case PkgVer => assert "pkgver" + " = " == "pkgver = ";
    case PkgRel => assert "pkgrel" + " = " == "pkgrel = ";
    case Depends => assert "depends" + " = " == "depends = ";
    case MakeDepends => assert "makedepends" + " = " == "makedepends = ";
  }

  lemma RenderOne(l: Line)
    ensures Render([l]) == Text(l)
  {
    assert [l][..0] == [];
  }

  lemma PrintedLines(info: PackageInfo, split: string, made: string, used: string)
    requires info.splits == [split]
    requires info.dependencies == [Dependency(made, false), Dependency(used, false)]
    ensures Printed(info, 1)
            == [Field("", Record(PkgBase, info.name), ""), Field("\t", Record(PkgVer, info.version), ""),
                Field("\t", Record(PkgRel, info.release), ""), Field("\t", Record(MakeDepends, made), ""),
                Field("\t", Record(Depends, used), ""), Field("\t", Record(PkgName, split), "")]
  {
    hide NamesOf, Under;
    var names := NamesOf(info.dependencies);
    assert names[..1] == [made] && names[1..] == [used];
    assert Under(MakeDepends, [made]) == [Field("\t", Record(MakeDepends, made), "")];
    assert Under(Depends, [used]) == [Field("\t", Record(Depends, used), "")];
    assert Under(PkgName, [split]) == [Field("\t", Record(PkgName, split), "")];
  }

  lemma PlainLines(info: PackageInfo, split: string, made: string, used: string)
    requires info.splits == [split]
    requires info.dependencies == [Dependency(made, false), Dependency(used, false)]
    ensures Render(Printed(info, 1))
            == "" + ("pkgbase = " + info.name) + "\n" + ("\t" + ("pkgver = " + info.version))
               + "\n" + ("\t" + ("pkgrel = " + info.release)) + "\n" + ("\t" + ("makedepends = " + made))
               + "\n" + ("\t" + ("depends = " + used)) + "\n" + ("\t" + ("pkgname = " + split))
  {
    hide Render, Text, Printed, NamesOf;
    var b, v := Field("", Record(PkgBase, info.name), ""), Field("\t", Record(PkgVer, info.version), "");
    var r := Field("\t", Record(PkgRel, info.release), "");
    var m, d := Field("\t", Record(MakeDepends, made), ""), Field("\t", Record(Depends, used), "");
    var s := Field("\t", Record(PkgName, split), "");
    PrintedLines(info, split, made, used);
    assert [b, v, r, m, d, s] == [b] + [v] + [r] + [m] + [d] + [s];
    RenderOneMore([b], v);
    RenderOneMore([b] + [v], r);
    RenderOneMore([b] + [v] + [r], m);
    RenderOneMore([b] + [v] + [r] + [m], d);
    RenderOneMore([b] + [v] + [r] + [m] + [d], s);
    RenderOne(b);
    PlainLine("", PkgBase, info.name);
    PlainLine("\t", PkgVer, info.version);
    PlainLine("\t", PkgRel, info.release);
    PlainLine("\t", MakeDepends, made);
    PlainLine("\t", Depends, used);
    PlainLine("\t", PkgName, split);
  }

  // What the parser makes of a plain .SRCINFO, letter by letter.
  lemma PlainText(info: PackageInfo, split: string, made: string, used: string)
    requires Printable(info) && info.splits == [split]
    requires info.dependencies == [Dependency(made, false), Dependency(used, false)]
    ensures ParsedSrcinfo("" + ("pkgbase = " + info.name) + "\n" + ("\t" + ("pkgver = " + info.version))
                          + "\n" + ("\t" + ("pkgrel = " + info.release)) + "\n" + ("\t" + ("makedepends = " + made))
                          + "\n" + ("\t" + ("depends = " + used)) + "\n" + ("\t" + ("pkgname = " + split)),
                          EmptyInfo(info.kind, info.ref)) == info
  {
    hide ParsedSrcinfo, Printable, Render, Text;
    PrintedRoundTrip(info, 1);
    PlainLines(info, split, made, used);
  }
}
