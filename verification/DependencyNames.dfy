// Dependency names: what is left of a version constraint, and the list of
// names a package declares, each once, in order of first occurrence.
module DependencyNames {
  import opened Packages
  import opened Sorting
  import opened Strings

  const MARKERS: seq<string> := [">=", "<=", "=", ">", "<", ":"]

  // The text before the first marker of the list that occurs, and its neighbours' spaces removed.
  function BeforeMarker(value: string, markers: seq<string>): string {
    if markers == [] then value
    else if Cut(value, markers[0]).found then Cut(value, markers[0]).before
    else BeforeMarker(value, markers[1..])
  }

  function DepName(value: string): string {
    TrimSpace(BeforeMarker(value, MARKERS))
  }

  method ComputeDepName(value: string) returns (name: string)
    ensures name == DepName(value)
  {
    name := value;
    var i := 0;
    while i < |MARKERS|
      invariant i <= |MARKERS|
      invariant name == value
      invariant BeforeMarker(value, MARKERS) == BeforeMarker(value, MARKERS[i..])
    {
      var parts := Cut(name, MARKERS[i]);
      assert MARKERS[i..][0] == MARKERS[i] && MARKERS[i..][1..] == MARKERS[i + 1..];
      if parts.found {
        name := parts.before;
        break;
      }
      i := i + 1;
    }
    name := TrimSpace(name);
  }

  predicate IsMarkerChar(c: char) {
    c == '<' || c == '>' || c == '=' || c == ':'
  }

  predicate Plain(s: string) {
    forall i :: 0 <= i < |s| ==> !IsMarkerChar(s[i])
  }

  lemma PlainHasNoMarker(s: string, m: string)
    requires Plain(s) && m in MARKERS
    ensures !Cut(s, m).found
  {
    CutMeans(s, m);
    assert m != "" && IsMarkerChar(m[0]);
    forall i ensures !OccursAt(s, m, i) {
      if 0 <= i < |s| {
        assert s[i..][0] == s[i];
      }
    }
    IndexIsFirst(s, m);
  }

  lemma {:induction false} PlainIsUncut(s: string, markers: seq<string>)
    requires Plain(s) && forall m :: m in markers ==> m in MARKERS
    ensures BeforeMarker(s, markers) == s
  {
    if markers != [] {
      assert markers[0] in MARKERS;
      PlainHasNoMarker(s, markers[0]);
      PlainIsUncut(s, markers[1..]);
    }
  }

  lemma {:induction false} MarkedIsCut(s: string, i: nat, markers: seq<string>)
    requires i < |s| && IsMarkerChar(s[i]) && [s[i]] in markers
    requires forall m :: m in markers ==> m in MARKERS
    ensures |BeforeMarker(s, markers)| < |s|
  {
    CutMeans(s, markers[0]);
    if Cut(s, markers[0]).found {
      assert markers[0] in MARKERS;
    } else {
      assert markers[0] != [s[i]] by {
        assert [s[i]] <= s[i..];
        assert !OccursAt(s, markers[0], i);
      }
      MarkedIsCut(s, i, markers[1..]);
    }
  }

  lemma {:induction false} TrimLeftShrinks(s: string)
    ensures |TrimLeft(s)| <= |s|
  {
    if s != [] && IsSpace(s[0]) {
      TrimLeftShrinks(s[1..]);
    }
  }

  lemma TrimSpaceShrinks(s: string)
    ensures |TrimSpace(s)| <= |s|
  {
    TrimLeftShrinks(s);
    assert TrimRight(TrimLeft(s)) <= TrimLeft(s);
  }

  // A name survives DepName exactly when it has no marker and no outer space.
  lemma DepNameFixed(s: string)
    ensures DepName(s) == s <==> Plain(s) && Trimmed(s)
  {
    if Plain(s) {
      PlainIsUncut(s, MARKERS);
      TrimSpaceFixed(s);
    } else {
      var i :| 0 <= i < |s| && IsMarkerChar(s[i]);
      assert MARKERS[2] == "=" && MARKERS[3] == ">" && MARKERS[4] == "<" && MARKERS[5] == ":";
      assert [s[i]] in MARKERS;
      MarkedIsCut(s, i, MARKERS);
      TrimSpaceShrinks(BeforeMarker(s, MARKERS));
    }
  }

  lemma {:induction false} SkipsMissing(s: string, markers: seq<string>, k: nat)
    requires k < |markers| && Cut(s, markers[k]).found
    requires forall j :: 0 <= j < k ==> !Cut(s, markers[j]).found
    ensures BeforeMarker(s, markers) == Cut(s, markers[k]).before
  {
    if k > 0 {
      assert markers[1..][k - 1] == markers[k];
      SkipsMissing(s, markers[1..], k - 1);
    }
  }

  // No marker of the list starts anywhere in a constraint written with a later one.
  lemma NotAt(name: string, op: string, version: string, k: nat, j: nat, at: nat)
    requires Plain(name) && j < k < |MARKERS| && op == MARKERS[k]
    requires forall i :: 0 <= i < |version| ==> version[i] !in {'<', '>', '='}
    ensures !OccursAt(name + op + version, MARKERS[j], at)
  {
    var s := name + op + version;
    var n, e := |name|, |name| + |op|;
    if at < |s| {
      assert s[at] == if at < n then name[at] else if at < e then op[at - n] else version[at - e];
      if at + 1 < |s| {
        assert s[at + 1] == if at + 1 < n then name[at + 1]
                            else if at + 1 < e then op[at + 1 - n]
                            else version[at + 1 - e];
      }
    }
  }

  lemma NotBefore(name: string, op: string, version: string, k: nat, j: nat)
    requires Plain(name) && j < k < |MARKERS| && op == MARKERS[k]
    requires forall i :: 0 <= i < |version| ==> version[i] !in {'<', '>', '='}
    ensures !Cut(name + op + version, MARKERS[j]).found
  {
    var s := name + op + version;
    CutMeans(s, MARKERS[j]);
    var r := Cut(s, MARKERS[j]);
    assert r.found ==> s[|r.before|..] == MARKERS[j] + r.after;
    NotAt(name, op, version, k, j, |r.before|);
  }

  lemma OwnMarker(name: string, op: string, version: string)
    requires Plain(name) && op in MARKERS
    ensures Cut(name + op + version, op) == Parts(name, version, true)
  {
    var s := name + op + version;
    assert s[|name|..] == op + version;
    forall i | i < |name| ensures !OccursAt(s, op, i) {
      if 0 <= i {
        assert s[i..][0] == name[i];
      }
    }
    IndexAt(s, op, |name|);
    assert s[..|name|] == name && s[|name| + |op|..] == version;
  }

  // The way a constraint is written: a marker-free name, one operator, and a
  // version that may hold an epoch colon but no comparison sign.
  lemma DepNameOfConstraint(name: string, op: string, version: string)
    requires Plain(name) && op in {">=", "<=", "=", ">", "<", ":"}
    requires forall i :: 0 <= i < |version| ==> version[i] !in {'<', '>', '='}
    ensures DepName(name + op + version) == TrimSpace(name)
  {
    assert && MARKERS[0] == ">=" && MARKERS[1] == "<=" && MARKERS[2] == "="
           && MARKERS[3] == ">" && MARKERS[4] == "<" && MARKERS[5] == ":";
    var s := name + op + version;
    var k :| 0 <= k < |MARKERS| && MARKERS[k] == op;
    forall j | 0 <= j < k ensures !Cut(s, MARKERS[j]).found {
      NotBefore(name, op, version, k, j);
    }
    OwnMarker(name, op, version);
    SkipsMissing(s, MARKERS, k);
  }

  lemma {:induction false} NoMarkerLeaves(s: string, markers: seq<string>)
    requires forall j :: 0 <= j < |markers| ==> !Contains(s, markers[j])
    ensures BeforeMarker(s, markers) == s
  {
    if markers != [] {
      assert !Contains(s, markers[0]);
      forall j | 0 <= j < |markers[1..]| ensures !Contains(s, markers[1..][j]) {
        assert markers[1..][j] == markers[j + 1];
      }
      NoMarkerLeaves(s, markers[1..]);
    }
  }

  // The text is cut at the first occurrence of the marker that comes first in
  // the order of precedence among those that occur, wherever they stand; a
  // text without any marker is taken whole.
  lemma DepNameByPrecedence(value: string, order: seq<string>, k: nat, i: nat)
    requires order == [">=", "<=", "=", ">", "<", ":"] && k <= |order|
    requires forall j :: 0 <= j < k ==> !Contains(value, order[j])
    requires k < |order| ==> OccursFirst(value, order[k], i)
    ensures DepName(value) == TrimSpace(if k < |order| then value[..i] else value)
  {
    hide TrimSpace, Index, OccursFirst;
    if k < |order| {
      CutAt(value, order[k], i);
      SkipsMissing(value, order, k);
    } else {
      NoMarkerLeaves(value, order);
    }
  }

  // ---- First occurrences ----

  // Non-empty names in order of first occurrence.
  function FirstOccurrences(names: seq<string>): seq<string> {
    if names == [] then []
    else
      var n := |names| - 1;
      var before := FirstOccurrences(names[..n]);
      if names[n] == "" || names[n] in before then before else before + [names[n]]
  }

  lemma {:induction false} FirstOccurrencesMeans(names: seq<string>)
    ensures Distinct(FirstOccurrences(names))
    ensures Elements(FirstOccurrences(names)) == Elements(names) - {""}
  {
    if names != [] {
      var n := |names| - 1;
      FirstOccurrencesMeans(names[..n]);
      var before := FirstOccurrences(names[..n]);
      assert names == names[..n] + [names[n]];
      assert Elements(names) == Elements(names[..n]) + {names[n]};
      assert Elements(before + [names[n]]) == Elements(before) + {names[n]};
      assert names[n] in before <==> names[n] in Elements(before);
    }
  }

  ghost function FirstAt(names: seq<string>, x: string): nat
    requires x in names
  {
    if names[0] == x then 0 else FirstAt(names[1..], x) + 1
  }

  lemma {:induction false} FirstAtMeans(names: seq<string>, x: string)
    requires x in names
    ensures FirstAt(names, x) < |names| && names[FirstAt(names, x)] == x
    ensures forall i :: 0 <= i < FirstAt(names, x) ==> names[i] != x
  {
    if names[0] != x {
      FirstAtMeans(names[1..], x);
    }
  }

  lemma {:induction false} FirstAtInFront(names: seq<string>, x: string)
    requires names != [] && x in names[..|names| - 1]
    ensures FirstAt(names, x) == FirstAt(names[..|names| - 1], x)
  {
    var n := |names| - 1;
    assert names[0] == names[..n][0];
    if names[0] != x {
      assert names[..n][1..] == names[1..][..n - 1];
      FirstAtInFront(names[1..], x);
    }
  }

  // Together with FirstOccurrencesMeans this determines the list.
  lemma {:induction false} FirstOccurrencesInOrder(names: seq<string>, i: nat, j: nat)
    requires i < j < |FirstOccurrences(names)|
    ensures FirstOccurrences(names)[i] in names && FirstOccurrences(names)[j] in names
    ensures FirstAt(names, FirstOccurrences(names)[i]) < FirstAt(names, FirstOccurrences(names)[j])
  {
    var n := |names| - 1;
    var r, before := FirstOccurrences(names), FirstOccurrences(names[..n]);
    FirstOccurrencesMeans(names);
    FirstOccurrencesMeans(names[..n]);
    assert r[i] in Elements(r) && r[j] in Elements(r) && r[i] in Elements(before);
    FirstAtInFront(names, r[i]);
    if j < |before| {
      FirstOccurrencesInOrder(names[..n], i, j);
      assert r[j] in Elements(before);
      FirstAtInFront(names, r[j]);
    } else {
      FirstAtMeans(names[..n], r[i]);
      FirstAtMeans(names, r[j]);
      assert r[j] !in Elements(before);
      assert r[j] !in names[..n];
      assert names[..n] == names[..|names| - 1];
    }
  }

  function DepNames(values: seq<string>): seq<string> {
    if values == [] then []
    else DepNames(values[..|values| - 1]) + [DepName(values[|values| - 1])]
  }

  function Named(names: seq<string>): (r: seq<Dependency>)
    ensures |r| == |names|
    ensures forall i :: 0 <= i < |r| ==> r[i] == Dependency(names[i], false)
  {
    if names == [] then []
    else Named(names[..|names| - 1]) + [Dependency(names[|names| - 1], false)]
  }

  lemma AddName(names: seq<string>, x: string)
    ensures var r := FirstOccurrences(names);
            FirstOccurrences(names + [x]) == if x == "" || x in r then r else r + [x]
  {
    assert (names + [x])[..|names|] == names;
  }

  lemma AddNamed(names: seq<string>, x: string)
    ensures Named(names + [x]) == Named(names) + [Dependency(x, false)]
  {
    assert (names + [x])[..|names|] == names;
  }

  lemma AddDepName(values: seq<string>, v: string)
    ensures DepNames(values + [v]) == DepNames(values) + [DepName(v)]
  {
    assert (values + [v])[..|values|] == values;
  }
}
