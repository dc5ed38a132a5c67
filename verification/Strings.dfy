// The parts of Go's strings package that the parsers, the artifact names, the
// digests and the mount translation rest on. A Go string is modelled as the
// sequence of its code points; comparing code points gives the same order as
// comparing the UTF-8 bytes, which is what sort.Strings does.
module Strings {
  import opened Options

  // ---- Order ----

  predicate Less(a: string, b: string) {
    b != [] && (a == [] || a[0] < b[0] || (a[0] == b[0] && Less(a[1..], b[1..])))
  }

  lemma {:induction false} LessIrreflexive(a: string)
    ensures !Less(a, a)
  {
    if a != [] {
      LessIrreflexive(a[1..]);
    }
  }

  lemma {:induction false} LessTotal(a: string, b: string)
    ensures Less(a, b) || Less(b, a) || a == b
  {
    if a != [] && b != [] && a[0] == b[0] {
      LessTotal(a[1..], b[1..]);
      assert a == [a[0]] + a[1..] && b == [b[0]] + b[1..];
    }
  }

  lemma {:induction false} LessTransitive(a: string, b: string, c: string)
    requires Less(a, b) && Less(b, c)
    ensures Less(a, c)
  {
    if a != [] && a[0] == b[0] && b[0] == c[0] {
      LessTransitive(a[1..], b[1..], c[1..]);
    }
  }

  // Putting one prefix in front of both strings does not change their order.
  lemma {:induction false} LessUnderPrefix(p: string, a: string, b: string)
    ensures Less(p + a, p + b) <==> Less(a, b)
  {
    if p == [] {
      assert p + a == a && p + b == b;
    } else {
      assert (p + a)[1..] == p[1..] + a && (p + b)[1..] == p[1..] + b;
      LessUnderPrefix(p[1..], a, b);
    }
  }

  lemma SameStart(a: string, b: string, i: nat)
    requires 0 < i <= |a| && i <= |b| && a[..i] == b[..i]
    ensures a[0] == b[0]
  {
    assert a[..i][0] == b[..i][0];
  }

  // A proper prefix comes first; otherwise the first difference decides.
  lemma {:induction false} LessMeans(a: string, b: string)
    ensures Less(a, b) <==>
              || a < b
              || exists i :: 0 <= i < |a| && i < |b| && a[..i] == b[..i] && a[i] < b[i]
  {
    if a != [] && b != [] && a[0] == b[0] {
      LessMeans(a[1..], b[1..]);
      assert a < b <==> a[1..] < b[1..] by {
        assert a == [a[0]] + a[1..] && b == [b[0]] + b[1..];
      }
      if i :| 0 <= i < |a| && i < |b| && a[..i] == b[..i] && a[i] < b[i] {
        assert a[1..][..i - 1] == a[..i][1..] && b[1..][..i - 1] == b[..i][1..];
        assert a[1..][i - 1] < b[1..][i - 1];
      }
      if i :| 0 <= i < |a[1..]| && i < |b[1..]| && a[1..][..i] == b[1..][..i] && a[1..][i] < b[1..][i] {
        assert a[..i + 1] == [a[0]] + a[1..][..i] && b[..i + 1] == [b[0]] + b[1..][..i];
        assert a[i + 1] < b[i + 1];
      }
    } else if a != [] && b != [] {
      assert a[..0] == b[..0];
      forall i | 0 <= i < |a| && i < |b| && a[..i] == b[..i] ensures i == 0 {
        if i > 0 {
          SameStart(a, b, i);
        }
      }
    }
  }

  // ---- Searching ----

  predicate HasPrefix(s: string, prefix: string) {
    prefix <= s
  }

  predicate HasSuffix(s: string, suffix: string) {
    |suffix| <= |s| && s[|s| - |suffix|..] == suffix
  }

  function TrimSuffix(s: string, suffix: string): (r: string)
    ensures HasSuffix(s, suffix) ==> s == r + suffix
    ensures !HasSuffix(s, suffix) ==> r == s
  {
    if HasSuffix(s, suffix) then s[..|s| - |suffix|] else s
  }

  // Position of the first occurrence of sep in s.
  function Index(s: string, sep: string): Option<nat> {
    if sep <= s then Some(0)
    else if s == [] then None
    else
      var rest := Index(s[1..], sep);
      if rest.Some? then Some(rest.value + 1) else None
  }

  predicate Contains(s: string, sep: string) {
    Index(s, sep).Some?
  }

  ghost predicate OccursAt(s: string, sep: string, i: int) {
    0 <= i <= |s| && sep <= s[i..]
  }

  lemma {:induction false} IndexIsFirst(s: string, sep: string)
    ensures match Index(s, sep)
            case Some(at) => OccursAt(s, sep, at) && forall i :: i < at ==> !OccursAt(s, sep, i)
            case None => forall i :: !OccursAt(s, sep, i)
  {
    if s != [] {
      IndexIsFirst(s[1..], sep);
      forall i ensures OccursAt(s, sep, i) ==> i == 0 || OccursAt(s[1..], sep, i - 1) {
        if i > 0 && OccursAt(s, sep, i) {
          assert s[i..] == s[1..][i - 1..];
        }
      }
      var rest := Index(s[1..], sep);
      if rest.Some? {
        assert s[1..][rest.value..] == s[rest.value + 1..];
      }
      assert OccursAt(s, sep, 0) <==> sep <= s by {
        assert s[0..] == s;
      }
    }
  }

  lemma IndexAt(s: string, sep: string, at: nat)
    requires OccursAt(s, sep, at) && forall i :: i < at ==> !OccursAt(s, sep, i)
    ensures Index(s, sep) == Some(at)
  {
    IndexIsFirst(s, sep);
  }

  datatype Parts = Parts(before: string, after: string, found: bool)

  // strings.Cut: split around the first separator, the whole string when there is none.
  function Cut(s: string, sep: string): Parts {
    match Index(s, sep)
    case Some(i) =>
      IndexIsFirst(s, sep);
      Parts(s[..i], s[i + |sep|..], true)
    case None => Parts(s, "", false)
  }

  lemma CutMeans(s: string, sep: string)
    ensures var r := Cut(s, sep);
            if r.found
            then s == r.before + sep + r.after && forall i :: i < |r.before| ==> !OccursAt(s, sep, i)
            else r == Parts(s, "", false) && forall i :: !OccursAt(s, sep, i)
  {
    IndexIsFirst(s, sep);
    var r := Cut(s, sep);
    if r.found {
      var i := |r.before|;
      assert s == s[..i] + s[i..] && s[i..] == sep + s[i + |sep|..];
    }
  }

  ghost predicate OccursFirst(s: string, sep: string, i: nat) {
    OccursAt(s, sep, i) && forall j :: j < i ==> !OccursAt(s, sep, j)
  }

  lemma CutAt(s: string, sep: string, i: nat)
    requires OccursFirst(s, sep, i)
    ensures Cut(s, sep).found && Cut(s, sep).before == s[..i]
  {
    IndexAt(s, sep, i);
  }

  // ---- Split and Join on a single character ----

  // The parts of a string whose tail has the given parts.
  function Prepend(x: char, c: char, parts: seq<string>): (r: seq<string>)
    requires parts != []
    ensures r != []
  {
    if x == c then [""] + parts else [[x] + parts[0]] + parts[1..]
  }

  function Split(s: string, c: char): (r: seq<string>)
    ensures r != []
  {
    if s == [] then [""] else Prepend(s[0], c, Split(s[1..], c))
  }

  function Join(parts: seq<string>, c: char): string {
    if parts == [] then ""
    else if |parts| == 1 then parts[0]
    else parts[0] + [c] + Join(parts[1..], c)
  }

  ghost predicate FreeOf(parts: seq<string>, c: char) {
    forall p :: p in parts ==> c !in p
  }

  lemma {:induction false} SplitOfPlain(s: string, c: char)
    requires c !in s
    ensures Split(s, c) == [s]
  {
    if s != [] {
      SplitOfPlain(s[1..], c);
      assert s == [s[0]] + s[1..];
    }
  }

  lemma PrependToConcat(x: char, c: char, a: seq<string>, b: seq<string>)
    requires a != []
    ensures Prepend(x, c, a + b) == Prepend(x, c, a) + b
  {
    assert (a + b)[1..] == a[1..] + b;
  }

  lemma {:induction false} SplitOfConcat(a: string, c: char, b: string)
    ensures Split(a + [c] + b, c) == Split(a, c) + Split(b, c)
  {
    var s := a + [c] + b;
    if a == "" {
      assert s[1..] == b;
    } else {
      assert s[1..] == a[1..] + [c] + b;
      hide Prepend;
      SplitOfConcat(a[1..], c, b);
      PrependToConcat(a[0], c, Split(a[1..], c), Split(b, c));
    }
  }

  lemma {:induction false} SplitOfJoin(parts: seq<string>, c: char)
    requires parts != [] && FreeOf(parts, c)
    ensures Split(Join(parts, c), c) == parts
  {
    if |parts| == 1 {
      SplitOfPlain(parts[0], c);
    } else {
      assert forall p :: p in parts[1..] ==> p in parts;
      SplitOfJoin(parts[1..], c);
      SplitOfConcat(parts[0], c, Join(parts[1..], c));
      SplitOfPlain(parts[0], c);
      assert parts == [parts[0]] + parts[1..];
    }
  }

  lemma JoinOfPrepend(x: char, c: char, parts: seq<string>)
    requires parts != []
    ensures Join(Prepend(x, c, parts), c) == [x] + Join(parts, c)
  {
    var r := Prepend(x, c, parts);
    if x == c {
      assert r[1..] == parts;
    } else if |parts| > 1 {
      assert r[1..] == parts[1..];
      assert [x] + parts[0] + [c] + Join(parts[1..], c) == [x] + (parts[0] + [c] + Join(parts[1..], c));
    }
  }

  lemma FreePrepend(x: char, c: char, parts: seq<string>)
    requires parts != [] && FreeOf(parts, c)
    ensures FreeOf(Prepend(x, c, parts), c)
  {
    assert parts[0] in parts;
    assert forall p :: p in parts[1..] ==> p in parts;
  }

  lemma {:induction false} JoinOfSplit(s: string, c: char)
    ensures Join(Split(s, c), c) == s
  {
    if s != [] {
      hide Prepend, Join;
      JoinOfSplit(s[1..], c);
      JoinOfPrepend(s[0], c, Split(s[1..], c));
      assert s == [s[0]] + s[1..];
    } else {
      assert Split(s, c) == [""];
    }
  }

  lemma {:induction false} SplitIsFree(s: string, c: char)
    ensures FreeOf(Split(s, c), c)
  {
    if s != [] {
      hide Prepend, FreeOf;
      SplitIsFree(s[1..], c);
      FreePrepend(s[0], c, Split(s[1..], c));
    }
  }

  lemma {:induction false} JoinOfConcat(a: seq<string>, b: seq<string>, c: char)
    requires a != [] && b != []
    ensures Join(a + b, c) == Join(a, c) + [c] + Join(b, c)
  {
    assert (a + b)[1..] == a[1..] + b;
    if |a| > 1 {
      JoinOfConcat(a[1..], b, c);
      assert Join(a + b, c) == a[0] + [c] + (Join(a[1..], c) + [c] + Join(b, c));
      assert Join(a, c) == a[0] + [c] + Join(a[1..], c);
    } else {
      assert a[1..] + b == b;
    }
  }

  // ---- White space ----

  // unicode.IsSpace.
  predicate IsSpace(c: char) {
    var n := c as int;
    || 9 <= n <= 13 || n == 32 || n == 0x85 || n == 0xA0 || n == 0x1680
    || 0x2000 <= n <= 0x200A || n == 0x2028 || n == 0x2029 || n == 0x202F || n == 0x205F || n == 0x3000
  }

  predicate AllSpace(s: string) {
    forall i :: 0 <= i < |s| ==> IsSpace(s[i])
  }

  function TrimLeft(s: string): (r: string)
    ensures r == [] || !IsSpace(r[0])
  {
    if s != [] && IsSpace(s[0]) then TrimLeft(s[1..]) else s
  }

  function TrimRight(s: string): (r: string)
    ensures r == [] || !IsSpace(r[|r| - 1])
    ensures r <= s
  {
    if s != [] && IsSpace(s[|s| - 1]) then TrimRight(s[..|s| - 1]) else s
  }

  function TrimSpace(s: string): string {
    TrimRight(TrimLeft(s))
  }

  predicate Trimmed(s: string) {
    s == [] || (!IsSpace(s[0]) && !IsSpace(s[|s| - 1]))
  }

  lemma {:induction false} TrimLeftOf(lead: string, s: string)
    requires AllSpace(lead) && (s == [] || !IsSpace(s[0]))
    ensures TrimLeft(lead + s) == s
  {
    if lead == [] {
      assert lead + s == s;
    } else {
      assert (lead + s)[1..] == lead[1..] + s;
      TrimLeftOf(lead[1..], s);
    }
  }

  lemma {:induction false} TrimRightOf(s: string, trail: string)
    requires AllSpace(trail) && (s == [] || !IsSpace(s[|s| - 1]))
    ensures TrimRight(s + trail) == s
  {
    if trail == [] {
      assert s + trail == s;
    } else {
      assert (s + trail)[..|s + trail| - 1] == s + trail[..|trail| - 1];
      TrimRightOf(s, trail[..|trail| - 1]);
    }
  }

  // Trimming removes exactly the white space around a trimmed core.
  lemma TrimSpaceOf(lead: string, core: string, trail: string)
    requires AllSpace(lead) && AllSpace(trail) && Trimmed(core) && core != []
    ensures TrimSpace(lead + core + trail) == core
  {
    assert lead + core + trail == lead + (core + trail);
    TrimLeftOf(lead, core + trail);
    TrimRightOf(core, trail);
  }

  lemma TrimSpaceIsTrimmed(s: string)
    ensures Trimmed(TrimSpace(s))
  {
  }

  lemma TrimSpaceFixed(s: string)
    ensures TrimSpace(s) == s <==> Trimmed(s)
  {
    TrimSpaceIsTrimmed(s);
    if Trimmed(s) && s != [] {
      TrimSpaceOf("", s, "");
      assert "" + s + "" == s;
    }
  }
}
