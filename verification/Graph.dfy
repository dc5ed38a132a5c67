// ResolveAURGraph: a depth-first walk with a visited map over a dependency
// graph that may have cycles.
module Graph {
  import opened Options
  import opened Packages
  import opened Sorting

  // What PreviewAUR gives for each name it succeeds on: the declared
  // dependencies with their AUR flags. It fails on every other name.
  type Aur = map<string, seq<Dependency>>

  ghost predicate Edge(aur: Aur, a: string, b: string) {
    a in aur && Dependency(b, true) in aur[a]
  }

  ghost predicate IsPath(aur: Aur, path: seq<string>) {
    path != [] && forall i :: 0 <= i < |path| - 1 ==> Edge(aur, path[i], path[i + 1])
  }

  ghost predicate PathBetween(aur: Aur, path: seq<string>, a: string, b: string) {
    IsPath(aur, path) && path[0] == a && path[|path| - 1] == b
  }

  // b can be reached from a through AUR dependencies.
  ghost predicate Reaches(aur: Aur, a: string, b: string) {
    exists path :: PathBetween(aur, path, a, b)
  }

  lemma ReachesSelf(aur: Aur, a: string)
    ensures Reaches(aur, a, a)
  {
    assert PathBetween(aur, [a], a, a);
  }

  lemma ReachesThrough(aur: Aur, a: string, b: string, c: string)
    requires Edge(aur, a, b) && Reaches(aur, b, c)
    ensures Reaches(aur, a, c)
  {
    var path :| PathBetween(aur, path, b, c);
    assert PathBetween(aur, [a] + path, a, c);
  }

  ghost predicate Closed(aur: Aur, names: set<string>, within: set<string>) {
    forall a, b :: a in names && Edge(aur, a, b) ==> b in within
  }

  // A closed set has everything that can be reached from its members.
  lemma {:induction false} ClosedHasPath(aur: Aur, names: set<string>, path: seq<string>)
    requires Closed(aur, names, names) && IsPath(aur, path) && path[0] in names
    ensures path[|path| - 1] in names
  {
    if |path| > 1 {
      assert Edge(aur, path[0], path[1]);
      assert IsPath(aur, path[1..]) by {
        forall i | 0 <= i < |path| - 2 ensures Edge(aur, path[1..][i], path[1..][i + 1]) {
          assert Edge(aur, path[i + 1], path[i + 2]);
        }
      }
      ClosedHasPath(aur, names, path[1..]);
    }
  }

  // The names a walk has added are reachable, resolved and closed but for the open ones.
  ghost predicate Explored(aur: Aur, root: string, added: set<string>, visited: set<string>, open: set<string>) {
    && (forall x :: x in added ==> Reaches(aur, root, x))
    && (forall x :: x in added ==> x in aur)
    && Closed(aur, added - open, visited)
  }

  ghost predicate HasBroken(aur: Aur, root: string) {
    exists x :: Reaches(aur, root, x) && x !in aur
  }

  lemma BrokenThrough(aur: Aur, a: string, b: string)
    requires Edge(aur, a, b) && HasBroken(aur, b)
    ensures HasBroken(aur, a)
  {
    var x :| Reaches(aur, b, x) && x !in aur;
    ReachesThrough(aur, a, b, x);
  }

  lemma ExploredThrough(aur: Aur, a: string, b: string, added: set<string>, before: set<string>, more: set<string>,
                        after: set<string>)
    requires Explored(aur, a, added, before, {a}) && Explored(aur, b, more, after, {}) && before <= after
    requires Edge(aur, a, b)
    ensures Explored(aur, a, added + more, after, {a})
  {
    forall x | x in added + more ensures Reaches(aur, a, x) {
      if x in more {
        ReachesThrough(aur, a, b, x);
      }
    }
  }

  lemma CloseRoot(aur: Aur, a: string, added: set<string>, visited: set<string>)
    requires Explored(aur, a, added, visited, {a}) && Closed(aur, {a}, visited)
    ensures Explored(aur, a, added, visited, {})
  {
  }

  // An earlier name on the list has the name as an AUR dependency.
  ghost predicate Found(aur: Aur, nodes: seq<string>, i: nat)
    requires i < |nodes|
  {
    exists k :: 0 <= k < i && nodes[k] in aur && Dependency(nodes[i], true) in aur[nodes[k]]
  }

  lemma FoundStays(aur: Aur, a: seq<string>, b: seq<string>, i: nat)
    requires a <= b && i < |a| && Found(aur, a, i)
    ensures Found(aur, b, i)
  {
    var k :| 0 <= k < i && a[k] in aur && Dependency(a[i], true) in aur[a[k]];
    assert b[k] == a[k] && b[i] == a[i];
  }

  // After the visit of a dependency of the name at the start, all later names are found.
  lemma StillFound(aur: Aur, front: seq<string>, nodes: seq<string>, start: nat, name: string, dep: string)
    requires front <= nodes && start < |front| && front[start] == name && name in aur
    requires Dependency(dep, true) in aur[name]
    requires forall j :: start < j < |front| ==> Found(aur, front, j)
    requires |nodes| > |front| ==> nodes[|front|] == dep
    requires forall j :: |front| < j < |nodes| ==> Found(aur, nodes, j)
    ensures forall j :: start < j < |nodes| ==> Found(aur, nodes, j)
  {
    forall j | start < j < |nodes| ensures Found(aur, nodes, j) {
      if j < |front| {
        FoundStays(aur, front, nodes, j);
      } else if j == |front| {
        assert nodes[start] == name && Dependency(nodes[j], true) in aur[nodes[start]];
      }
    }
  }

  class Walk {
    var visited: set<string>
    var nodes: seq<string>

    constructor ()
      ensures visited == {} && nodes == []
    {
      visited, nodes := {}, [];
    }

    // Every visited name has been listed once.
    ghost predicate Listed()
      reads this
    {
      Distinct(nodes) && Elements(nodes) == visited
    }

    method Visit(aur: Aur, name: string) returns (ok: bool)
      requires Listed()
      modifies this
      ensures old(visited) <= visited && old(nodes) <= nodes
      ensures ok ==> Listed() && name in visited
      ensures ok ==> Explored(aur, name, visited - old(visited), visited, {})
      ensures ok && name in old(visited) ==> nodes == old(nodes)
      ensures ok && name !in old(visited) ==> |nodes| > |old(nodes)| && nodes[|old(nodes)|] == name
      ensures ok ==> forall i :: |old(nodes)| < i < |nodes| ==> Found(aur, nodes, i)
      ensures !ok ==> HasBroken(aur, name)
      decreases aur.Keys - visited
    {
      if name in visited {
        return true;
      }
      visited := visited + {name};
      ReachesSelf(aur, name);
      if name !in aur {
        return false;
      }
      assert name !in nodes by {
        assert name !in Elements(nodes);
      }
      nodes := nodes + [name];
      var dependencies := aur[name];
      for i := 0 to |dependencies|
        invariant Listed()
        invariant old(visited) + {name} <= visited && old(nodes) + [name] <= nodes
        invariant Explored(aur, name, visited - old(visited), visited, {name})
        invariant forall j :: |old(nodes)| < j < |nodes| ==> Found(aur, nodes, j)
        invariant forall j :: 0 <= j < i && dependencies[j].aur ==> dependencies[j].name in visited
      {
        var dep := dependencies[i];
        if dep.aur {
          assert dep == Dependency(dep.name, true) && Edge(aur, name, dep.name);
          ghost var before, front := visited, nodes;
          assert aur.Keys - visited < aur.Keys - old(visited) by {
            assert name in aur.Keys - old(visited);
          }
          ok := Visit(aur, dep.name);
          if !ok {
            BrokenThrough(aur, name, dep.name);
            return false;
          }
          StillFound(aur, front, nodes, |old(nodes)|, name, dep.name);
          ExploredThrough(aur, name, dep.name, before - old(visited), before, visited - before, visited);
          assert (before - old(visited)) + (visited - before) == visited - old(visited);
        }
      }
      assert Closed(aur, {name}, visited);
      CloseRoot(aur, name, visited - old(visited), visited);
      ok := true;
    }
  }

  // A successful resolution lists every name reachable from the root, nothing
  // else, each once and the root first; it fails exactly when some reachable
  // name has no preview.
  method ResolveGraph(aur: Aur, root: string) returns (r: Result<seq<string>>)
    ensures r.Success? <==> forall x :: Reaches(aur, root, x) ==> x in aur
    ensures r.Success? ==> r.value != [] && r.value[0] == root && Distinct(r.value)
    ensures r.Success? ==> forall x :: x in r.value <==> Reaches(aur, root, x)
    ensures r.Success? ==>
              && (forall x :: x in r.value ==> x in aur)
              && (forall x, d :: x in r.value && d in aur[x] && d.aur ==> d.name in r.value)
              && (forall i :: 0 < i < |r.value| ==>
                    exists k, d :: 0 <= k < i && d in aur[r.value[k]] && d.aur && d.name == r.value[i])
  {
    var walk := new Walk();
    var ok := walk.Visit(aur, root);
    if !ok {
      return Failure("preview failed");
    }
    var names := walk.visited;
    assert names - {} == names;
    assert Closed(aur, names, names);
    forall x | Reaches(aur, root, x) ensures x in names {
      var path :| PathBetween(aur, path, root, x);
      ClosedHasPath(aur, names, path);
    }
    forall x ensures x in walk.nodes <==> Reaches(aur, root, x) {
      assert x in walk.nodes <==> x in Elements(walk.nodes);
    }
    forall i | 0 < i < |walk.nodes|
      ensures exists k, d :: 0 <= k < i && d in aur[walk.nodes[k]] && d.aur && d.name == walk.nodes[i]
    {
      assert Found(aur, walk.nodes, i);
      var k :| 0 <= k < i && walk.nodes[k] in aur && Dependency(walk.nodes[i], true) in aur[walk.nodes[k]];
      var d := Dependency(walk.nodes[i], true);
      assert d in aur[walk.nodes[k]] && d.aur && d.name == walk.nodes[i];
    }
    forall x, d | x in walk.nodes && d in aur[x] && d.aur ensures d.name in walk.nodes {
      assert x in names && d == Dependency(d.name, true) && Edge(aur, x, d.name);
      assert d.name in names;
    }
    r := Success(walk.nodes);
  }
}
