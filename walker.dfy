/** The dependency walk of benchinit's `setup`: `packages.Visit` from the
    package being benchmarked, with a pre-visit callback that records the
    package paths whose init work is to be measured. */
module Walker {

  import opened Sequences

  /** The import graph as the loader produces it: each package path mapped to
      the paths it imports, in the loader's order. */
  type Graph = map<string, seq<string>>

  /** Every import of a package of the graph is itself a package of the graph. */
  predicate Closed(g: Graph) {
    forall p, k :: p in g && 0 <= k < |g[p]| ==> g[p][k] in g
  }

  predicate AllIn(g: Graph, s: seq<string>) {
    forall k :: 0 <= k < |s| ==> s[k] in g
  }

  /** The packages whose initdone benchinit never touches, and whose imports
      it does not descend into. */
  predicate Excluded(path: string) {
    path == "runtime" || path == "testing" || path == "os/signal" || path == "time"
  }

  /** The callback's answer: false for an excluded path, and for every path
      when not in recursive mode; true otherwise. */
  function Descend(path: string, recursive: bool): (d: bool)
    ensures d <==> !Excluded(path) && recursive
  {
    if Excluded(path) then false
    else if !recursive then false
    else true
  }

  /** The paths recorded by a pre-order depth-first visit that still has the
      packages of `stack` to visit (the first one next) and has already
      visited those in `seen`. A package is marked visited before the
      callback runs; its imports are visited, in order, only when the
      callback answers true. */
  function Walk(g: Graph, recursive: bool, stack: seq<string>, seen: set<string>): (r: seq<string>)
    requires Closed(g) && AllIn(g, stack)
    ensures AllIn(g, r)
    decreases |g.Keys - seen|, |stack|
  {
    if stack == [] then []
    else
      var p := stack[0];
      if p in seen then Walk(g, recursive, stack[1..], seen)
      else
        VisitShrinks(g.Keys, seen, p);
        var next := if Descend(p, recursive) then g[p] + stack[1..] else stack[1..];
        var rest := Walk(g, recursive, next, seen + {p});
        if Excluded(p) then rest else [p] + rest
  }

  /** Visiting a package not yet visited leaves fewer to visit. */
  lemma VisitShrinks(keys: set<string>, seen: set<string>, p: string)
    requires p in keys && p !in seen
    ensures |keys - (seen + {p})| < |keys - seen|
  {
    assert keys - (seen + {p}) == (keys - seen) - {p};
  }

  /** The `Inits` that `setup` collects for the package `root`. */
  function Inits(g: Graph, root: string, recursive: bool): seq<string>
    requires Closed(g) && root in g
  {
    Walk(g, recursive, [root], {})
  }

  /** The visit with the callback of `setup` appending to `Inits`, written
      with an explicit stack of packages still to visit. */
  method CollectInits(g: Graph, root: string, recursive: bool) returns (inits: seq<string>)
    requires Closed(g) && root in g
    ensures inits == Inits(g, root, recursive)
  {
    inits := [];
    var stack := [root];
    var seen: set<string> := {};
    while stack != []
      invariant AllIn(g, stack)
      invariant Inits(g, root, recursive) == inits + Walk(g, recursive, stack, seen)
      decreases |g.Keys - seen|, |stack|
    {
      var p := stack[0];
      if p in seen {
        stack := stack[1..];
        continue;
      }
      VisitShrinks(g.Keys, seen, p);
      ghost var before, stack0, seen0 := inits, stack, seen;
      seen := seen + {p};
      if !Excluded(p) {
        // runtime, testing, os/signal, time are neither recorded nor entered
        inits := inits + [p];
      }
      if Descend(p, recursive) {
        stack := g[p] + stack[1..];
      } else {
        stack := stack[1..];
      }
      VisitStep(g, recursive, stack0, seen0, before, inits, stack);
    }
  }

  /** One visit of the loop of CollectInits keeps its invariant. */
  lemma VisitStep(g: Graph, recursive: bool, stack0: seq<string>, seen0: set<string>,
                  before: seq<string>, after: seq<string>, stack: seq<string>)
    requires Closed(g) && AllIn(g, stack0) && stack0 != [] && stack0[0] !in seen0
    requires after == before + (if Excluded(stack0[0]) then [] else [stack0[0]])
    requires stack == if Descend(stack0[0], recursive) then g[stack0[0]] + stack0[1..] else stack0[1..]
    ensures AllIn(g, stack)
    ensures before + Walk(g, recursive, stack0, seen0) == after + Walk(g, recursive, stack, seen0 + {stack0[0]})
  {
    var p := stack0[0];
    WalkUnfold(g, recursive, stack0, seen0);
    Assoc(before, if Excluded(p) then [] else [p], Walk(g, recursive, stack, seen0 + {p}));
  }

  /** The walk records the package at the top of the stack, unless it is
      excluded, then goes on from the stack the callback leaves. */
  lemma WalkUnfold(g: Graph, recursive: bool, stack: seq<string>, seen: set<string>)
    requires Closed(g) && AllIn(g, stack) && stack != [] && stack[0] !in seen
    ensures var p := stack[0];
      var next := if Descend(p, recursive) then g[p] + stack[1..] else stack[1..];
      AllIn(g, next) &&
      Walk(g, recursive, stack, seen) == (if Excluded(p) then [] else [p]) + Walk(g, recursive, next, seen + {p})
  {
  }

  // ----- what the walk records -----

  /** No excluded path is ever recorded. */
  lemma {:induction false} WalkSkipsExcluded(g: Graph, recursive: bool, stack: seq<string>, seen: set<string>)
    requires Closed(g) && AllIn(g, stack)
    ensures forall k :: 0 <= k < |Walk(g, recursive, stack, seen)| ==> !Excluded(Walk(g, recursive, stack, seen)[k])
    decreases |g.Keys - seen|, |stack|
  {
    if stack != [] {
      var p := stack[0];
      if p in seen {
        WalkSkipsExcluded(g, recursive, stack[1..], seen);
      } else {
        VisitShrinks(g.Keys, seen, p);
        var next := if Descend(p, recursive) then g[p] + stack[1..] else stack[1..];
        WalkSkipsExcluded(g, recursive, next, seen + {p});
      }
    }
  }

  /** Each path is recorded at most once, and never one visited before. */
  lemma {:induction false} WalkFresh(g: Graph, recursive: bool, stack: seq<string>, seen: set<string>)
    requires Closed(g) && AllIn(g, stack)
    ensures forall k :: 0 <= k < |Walk(g, recursive, stack, seen)| ==> Walk(g, recursive, stack, seen)[k] !in seen
    ensures forall j, k :: 0 <= j < k < |Walk(g, recursive, stack, seen)| ==>
      Walk(g, recursive, stack, seen)[j] != Walk(g, recursive, stack, seen)[k]
    decreases |g.Keys - seen|, |stack|
  {
    if stack != [] {
      var p := stack[0];
      if p in seen {
        WalkFresh(g, recursive, stack[1..], seen);
      } else {
        VisitShrinks(g.Keys, seen, p);
        var next := if Descend(p, recursive) then g[p] + stack[1..] else stack[1..];
        WalkFresh(g, recursive, next, seen + {p});
      }
    }
  }

  /** Outside recursive mode only packages of the stack are recorded. */
  lemma {:induction false} FlatWalkFromStack(g: Graph, stack: seq<string>, seen: set<string>)
    requires Closed(g) && AllIn(g, stack)
    ensures forall k :: 0 <= k < |Walk(g, false, stack, seen)| ==> Walk(g, false, stack, seen)[k] in stack
    decreases |g.Keys - seen|, |stack|
  {
    if stack != [] {
      var p := stack[0];
      if p in seen {
        FlatWalkFromStack(g, stack[1..], seen);
      } else {
        VisitShrinks(g.Keys, seen, p);
        FlatWalkFromStack(g, stack[1..], seen + {p});
      }
    }
  }

  /** Every entry of `r` is one of `stack` or is imported by an earlier entry. */
  predicate FollowsImports(g: Graph, stack: seq<string>, r: seq<string>)
    requires AllIn(g, r)
  {
    forall k :: 0 <= k < |r| ==> r[k] in stack || exists j :: 0 <= j < k && r[k] in g[r[j]]
  }

  /** Every recorded path is one of the stack or is imported by a path
      recorded before it. */
  lemma {:induction false} WalkFollowsImports(g: Graph, recursive: bool, stack: seq<string>, seen: set<string>)
    requires Closed(g) && AllIn(g, stack)
    ensures FollowsImports(g, stack, Walk(g, recursive, stack, seen))
    decreases |g.Keys - seen|, |stack|
  {
    if stack != [] {
      var p := stack[0];
      TailIn(stack);
      if p in seen {
        WalkFollowsImports(g, recursive, stack[1..], seen);
        assert Walk(g, recursive, stack, seen) == Walk(g, recursive, stack[1..], seen);
      } else {
        VisitShrinks(g.Keys, seen, p);
        var next := if Descend(p, recursive) then g[p] + stack[1..] else stack[1..];
        WalkFollowsImports(g, recursive, next, seen + {p});
        var rest := Walk(g, recursive, next, seen + {p});
        if Excluded(p) {
          assert next == stack[1..];
          assert Walk(g, recursive, stack, seen) == rest;
        } else {
          assert Walk(g, recursive, stack, seen) == [p] + rest;
          FollowsStep(g, stack, next, rest);
        }
      }
    }
  }

  /** Recording the package at the top of the stack, then following the
      imports pushed in its place. */
  lemma FollowsStep(g: Graph, stack: seq<string>, next: seq<string>, rest: seq<string>)
    requires stack != [] && stack[0] in g && AllIn(g, rest)
    requires forall x :: x in next ==> x in g[stack[0]] || x in stack[1..]
    requires FollowsImports(g, next, rest)
    ensures AllIn(g, [stack[0]] + rest) && FollowsImports(g, stack, [stack[0]] + rest)
  {
    var p := stack[0];
    var r := [p] + rest;
    TailIn(stack);
    forall k | 0 <= k < |r| && r[k] !in stack
      ensures exists j :: 0 <= j < k && r[k] in g[r[j]]
    {
      var x := rest[k - 1];
      assert r[k] == x && r[0] == p;
      if x in next {
        assert x in g[p];
      } else {
        var j :| 0 <= j < k - 1 && x in g[rest[j]];
        assert r[j + 1] == rest[j];
      }
    }
  }

  lemma TailIn(s: seq<string>)
    requires s != []
    ensures forall x :: x in s[1..] ==> x in s
    ensures forall x :: x in s ==> x == s[0] || x in s[1..]
  {
    assert s == [s[0]] + s[1..];
  }

  /** In recursive mode the visited and recorded packages are closed under
      imports, excluded packages apart: a non-excluded import of a recorded
      (or earlier visited) non-excluded package is recorded (or was visited
      earlier), and so is every non-excluded package of the stack. */
  lemma {:induction false} WalkCloses(g: Graph, stack: seq<string>, seen: set<string>)
    requires Closed(g) && AllIn(g, stack) && seen <= g.Keys
    requires forall x, k :: x in seen && !Excluded(x) && 0 <= k < |g[x]| ==> g[x][k] in seen || g[x][k] in stack
    ensures var r := Walk(g, true, stack, seen);
      forall x, k :: (x in seen || x in r) && !Excluded(x) && 0 <= k < |g[x]| && !Excluded(g[x][k]) ==>
        g[x][k] in seen || g[x][k] in r
    ensures var r := Walk(g, true, stack, seen);
      forall k :: 0 <= k < |stack| && !Excluded(stack[k]) ==> stack[k] in seen || stack[k] in r
    decreases |g.Keys - seen|, |stack|
  {
    if stack != [] {
      var p := stack[0];
      TailIn(stack);
      if p in seen {
        WalkCloses(g, stack[1..], seen);
        forall k | 0 < k < |stack| ensures stack[k] == stack[1..][k - 1] { }
      } else {
        VisitShrinks(g.Keys, seen, p);
        if Excluded(p) {
          WalkCloses(g, stack[1..], seen + {p});
          forall k | 0 < k < |stack| ensures stack[k] == stack[1..][k - 1] { }
        } else {
          var next := g[p] + stack[1..];
          assert forall x :: x in next <==> x in g[p] || x in stack[1..];
          WalkCloses(g, next, seen + {p});
          var rest := Walk(g, true, next, seen + {p});
          assert forall x :: x in [p] + rest <==> x == p || x in rest;
          forall k | 0 < k < |stack| ensures stack[k] == next[|g[p]| + k - 1] { }
        }
      }
    }
  }

  // ----- the Inits of setup -----

  /** `Inits` holds no excluded path and no path twice. */
  lemma InitsClean(g: Graph, root: string, recursive: bool)
    requires Closed(g) && root in g
    ensures forall k :: 0 <= k < |Inits(g, root, recursive)| ==> !Excluded(Inits(g, root, recursive)[k])
    ensures forall j, k :: 0 <= j < k < |Inits(g, root, recursive)| ==> Inits(g, root, recursive)[j] != Inits(g, root, recursive)[k]
  {
    WalkSkipsExcluded(g, recursive, [root], {});
    WalkFresh(g, recursive, [root], {});
  }

  /** Every entry of `Inits` is the root or is imported by an earlier entry,
      which is not excluded: `Inits` only holds packages reachable from the
      root without passing through an excluded one. */
  lemma InitsReachable(g: Graph, root: string, recursive: bool)
    requires Closed(g) && root in g
    ensures var r := Inits(g, root, recursive);
      forall k :: 0 <= k < |r| ==> r[k] == root || exists j :: 0 <= j < k && r[k] in g[r[j]] && !Excluded(r[j])
  {
    var r := Inits(g, root, recursive);
    WalkFollowsImports(g, recursive, [root], {});
    WalkSkipsExcluded(g, recursive, [root], {});
    forall k | 0 <= k < |r| && r[k] != root
      ensures exists j :: 0 <= j < k && r[k] in g[r[j]] && !Excluded(r[j])
    {
      assert r[k] !in [root];
      var j :| 0 <= j < k && r[k] in g[r[j]];
      assert !Excluded(r[j]);
    }
  }

  /** In recursive mode `Inits` holds the root (unless excluded) and every
      non-excluded import of each of its entries: with InitsReachable, it is
      exactly the packages reachable from the root through non-excluded ones. */
  lemma InitsComplete(g: Graph, root: string)
    requires Closed(g) && root in g
    ensures var r := Inits(g, root, true);
      (!Excluded(root) ==> root in r) &&
      forall x, k :: x in r && 0 <= k < |g[x]| && !Excluded(g[x][k]) ==> g[x][k] in r
  {
    WalkCloses(g, [root], {});
    WalkSkipsExcluded(g, true, [root], {});
  }

  /** Without -r, `Inits` is just the root (nothing if the root is excluded). */
  lemma FlatInits(g: Graph, root: string)
    requires Closed(g) && root in g
    ensures Inits(g, root, false) == if Excluded(root) then [] else [root]
  {
    assert [root][1..] == [];
    assert Walk(g, false, [], {root}) == [];
    assert Walk(g, false, [root], {}) == (if Excluded(root) then [] else [root]) + Walk(g, false, [], {root});
  }

  /** With -r, a root whose only import is "time" gives just the root: the
      walk does not enter "time" nor anything "time" imports. */
  lemma OnlyTimeImported(g: Graph, root: string)
    requires Closed(g) && root in g && !Excluded(root) && g[root] == ["time"]
    ensures Inits(g, root, true) == [root]
  {
    assert g[root][0] == "time";
    assert "time" in g && "time" !in {root};
    assert g[root] + [root][1..] == ["time"] && ["time"][1..] == [];
    assert Walk(g, true, [], {root} + {"time"}) == [];
    assert Walk(g, true, ["time"], {root}) == [];
    assert {} + {root} == {root};
    assert Walk(g, true, [root], {}) == [root] + Walk(g, true, ["time"], {root});
  }
}
