// sort.Strings: the result is the ascending arrangement of its input, and for
// pairwise distinct strings that arrangement is determined by the set alone.
module Sorting {
  import opened Strings

  ghost predicate Ascending(s: seq<string>) {
    forall i, j :: 0 <= i < j < |s| ==> Less(s[i], s[j])
  }

  ghost predicate Distinct<T>(s: seq<T>) {
    forall i, j :: 0 <= i < j < |s| ==> s[i] != s[j]
  }

  ghost function Elements<T>(s: seq<T>): set<T> {
    set x | x in s
  }

  // Where x goes in an ascending sequence.
  method Position(s: seq<string>, x: string) returns (at: nat)
    requires Ascending(s)
    ensures at <= |s|
    ensures forall i :: 0 <= i < at ==> Less(s[i], x)
    ensures forall i :: at <= i < |s| ==> !Less(s[i], x)
  {
    at := 0;
    while at < |s| && Less(s[at], x)
      invariant at <= |s|
      invariant forall i :: 0 <= i < at ==> Less(s[i], x)
    {
      at := at + 1;
    }
    forall i | at <= i < |s| ensures !Less(s[i], x) {
      if i > at && Less(s[i], x) {
        LessTransitive(s[at], s[i], x);
      }
    }
  }

  lemma Fresh(xs: seq<string>, i: nat)
    requires Distinct(xs) && i < |xs|
    ensures xs[i] !in Elements(xs[..i])
  {
  }

  lemma InsertKeepsOrder(s: seq<string>, x: string, at: nat)
    requires Ascending(s) && at <= |s| && x !in Elements(s)
    requires forall i :: 0 <= i < at ==> Less(s[i], x)
    requires forall i :: at <= i < |s| ==> !Less(s[i], x)
    ensures Ascending(s[..at] + [x] + s[at..])
    ensures Elements(s[..at] + [x] + s[at..]) == Elements(s) + {x}
  {
    var r := s[..at] + [x] + s[at..];
    forall i | at <= i < |s| ensures Less(x, s[i]) {
      assert s[i] in s;
      LessTotal(x, s[i]);
    }
    forall y ensures y in Elements(r) <==> y in Elements(s) + {x} {
      if y in s {
        var i :| 0 <= i < |s| && s[i] == y;
        assert i < at ==> r[i] == y;
        assert i >= at ==> r[i + 1] == y;
      }
      assert r[at] == x;
    }
    forall i, j | 0 <= i < j < |r| ensures Less(r[i], r[j]) {
      if i < at && j > at {
        LessTransitive(s[i], x, s[j - 1]);
      }
    }
  }

  method SortStrings(xs: seq<string>) returns (sorted: seq<string>)
    requires Distinct(xs)
    ensures Ascending(sorted) && Elements(sorted) == Elements(xs) && |sorted| == |xs|
  {
    sorted := [];
    for i := 0 to |xs|
      invariant Ascending(sorted) && Elements(sorted) == Elements(xs[..i]) && |sorted| == i
    {
      var at := Position(sorted, xs[i]);
      Fresh(xs, i);
      InsertKeepsOrder(sorted, xs[i], at);
      assert xs[..i + 1] == xs[..i] + [xs[i]];
      sorted := sorted[..at] + [xs[i]] + sorted[at..];
    }
    assert xs[..|xs|] == xs;
  }

  lemma AscendingIsDistinct(s: seq<string>)
    requires Ascending(s)
    ensures Distinct(s)
  {
    forall i, j | 0 <= i < j < |s| ensures s[i] != s[j] {
      LessIrreflexive(s[i]);
    }
  }

  lemma TailElements(a: seq<string>)
    requires a != [] && Ascending(a)
    ensures Elements(a[1..]) == Elements(a) - {a[0]}
  {
    AscendingIsDistinct(a);
    assert a == [a[0]] + a[1..];
  }

  // Two ascending sequences with the same elements are equal.
  lemma {:induction false} AscendingIsUnique(a: seq<string>, b: seq<string>)
    requires Ascending(a) && Ascending(b) && Elements(a) == Elements(b)
    ensures a == b
  {
    assert a != [] ==> a[0] in Elements(a);
    assert b != [] ==> b[0] in Elements(b);
    if a != [] && b != [] {
      assert a[0] in Elements(b) && b[0] in Elements(a);
      var i :| 0 <= i < |b| && b[i] == a[0];
      var j :| 0 <= j < |a| && a[j] == b[0];
      if i > 0 && j > 0 {
        LessTransitive(a[0], b[0], a[0]);
        LessIrreflexive(a[0]);
      }
      assert a[0] == b[0];
      TailElements(a);
      TailElements(b);
      AscendingIsUnique(a[1..], b[1..]);
      assert a == [a[0]] + a[1..] && b == [b[0]] + b[1..];
    }
  }
}
