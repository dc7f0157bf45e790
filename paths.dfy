/**
 * Path enumeration: `find_paths`, a depth-first search that lists every
 * simple path from `s` to `e`, never stepping onto a node already on the
 * path built so far, and trying successors in `get_neighbors` order.
 */
module Paths {
  import opened Topology

  ghost predicate Distinct<T>(s: seq<T>)
  {
    forall i, j :: 0 <= i < j < |s| ==> s[i] != s[j]
  }

  ghost function Elems<T>(s: seq<T>): set<T>
  {
    set x | x in s
  }

  /** Consecutive nodes of `t` are joined by an edge of `g`. */
  ghost predicate IsWalk(g: Graph, t: seq<Node>)
  {
    forall i :: 0 <= i < |t| - 1 ==> (t[i], t[i + 1]) in Keys(g)
  }

  /** `t` is a loop-free path of `g` from `s` to `e`. */
  ghost predicate SimplePath(g: Graph, t: seq<Node>, s: Node, e: Node)
  {
    |t| >= 1 && t[0] == s && t[|t| - 1] == e && Distinct(t) && IsWalk(g, t)
  }

  /** Some walk of `g` leads from `s` to `e`. */
  ghost predicate Reachable(g: Graph, s: Node, e: Node)
  {
    exists t :: |t| >= 1 && t[0] == s && t[|t| - 1] == e && IsWalk(g, t)
  }

  /** No node of `t` is on `path`. */
  ghost predicate Avoids(t: seq<Node>, path: seq<Node>)
  {
    forall i :: 0 <= i < |t| ==> t[i] !in path
  }

  /** `q` is `path` followed by a simple path from `s` to `e` that avoids `path`. */
  ghost predicate Extends(g: Graph, q: seq<Node>, path: seq<Node>, s: Node, e: Node)
  {
    |q| > |path| && q[..|path|] == path && SimplePath(g, q[|path|..], s, e) && Avoids(q[|path|..], path)
  }

  /** `find_paths(g, s, e)` with its default empty path. */
  function FindPaths(g: Graph, s: Node, e: Node): seq<seq<Node>>
  {
    FindPathsFrom(g, s, e, [])
  }

  /** `find_paths(g, s, e, path)`: `path` holds the nodes already visited. */
  function FindPathsFrom(g: Graph, s: Node, e: Node, path: seq<Node>): seq<seq<Node>>
    requires s !in path
    decreases |(Targets(g) + {s}) - Elems(path)|, 0, 0
  {
    var p := path + [s];
    if s == e then [p]
    else
      VisitShrinks(g, s, path);
      Explore(g, Neighbors(g, s), e, p)
  }

  /** The loop over the successors `ws`, concatenating the paths found through each. */
  function Explore(g: Graph, ws: seq<Node>, e: Node, p: seq<Node>): seq<seq<Node>>
    requires forall i :: 0 <= i < |ws| ==> ws[i] in Targets(g)
    decreases |Targets(g) - Elems(p)|, 1, |ws|
  {
    if ws == [] then []
    else
      assert ws[0] in Targets(g);
      assert Targets(g) + {ws[0]} == Targets(g);
      assert (Targets(g) + {ws[0]}) - Elems(p) == Targets(g) - Elems(p);
      (if ws[0] !in p then FindPathsFrom(g, ws[0], e, p) else []) + Explore(g, ws[1..], e, p)
  }

  /** Putting `s` on the path leaves fewer unvisited targets. */
  lemma VisitShrinks(g: Graph, s: Node, path: seq<Node>)
    requires s !in path
    ensures |Targets(g) - Elems(path + [s])| < |(Targets(g) + {s}) - Elems(path)|
  {
    var big := (Targets(g) + {s}) - Elems(path);
    var small := Targets(g) - Elems(path + [s]);
    assert small == big - {s};
  }

  /**
   * What `find_paths(g, s, e, path)` returns, exactly: every extension of
   * `path` by a simple path from `s` to `e` that does not revisit `path`.
   */
  lemma {:induction false} FindPathsFromExact(g: Graph, s: Node, e: Node, path: seq<Node>, q: seq<Node>)
    requires s !in path
    ensures q in FindPathsFrom(g, s, e, path) <==> Extends(g, q, path, s, e)
    decreases |(Targets(g) + {s}) - Elems(path)|, 0, 0
  {
    if s == e {
      if Extends(g, q, path, s, e) {
        var t := q[|path|..];
        assert t == [s];
        assert q == q[..|path|] + t;
      }
    } else {
      VisitShrinks(g, s, path);
      ExploreExact(g, Neighbors(g, s), e, path + [s], q);
      if Extends(g, q, path, s, e) {
        ExtendsFirstStep(g, s, e, path, q);
      }
      if q in FindPathsFrom(g, s, e, path) {
        NeighborsAreKeys(g, s, q[|path| + 1]);
        ExtendsPrepend(g, s, e, path, q);
      }
    }
  }

  /** A simple path from `s` to another node leaves `s` along an edge to an unvisited node. */
  lemma ExtendsFirstStep(g: Graph, s: Node, e: Node, path: seq<Node>, q: seq<Node>)
    requires s != e && s !in path && Extends(g, q, path, s, e)
    ensures |q| > |path| + 1 && q[|path| + 1] in Neighbors(g, s) && q[|path| + 1] !in path + [s]
    ensures Extends(g, q, path + [s], q[|path| + 1], e)
  {
    var p := path + [s];
    var t := q[|path|..];
    assert |t| >= 2;
    var w := q[|p|];
    assert t[1] == w && (s, w) in Keys(g);
    NeighborsAreKeys(g, s, w);
    assert q[..|p|] == p;
    assert q[|p|..] == t[1..];
    assert w !in p by {
      assert t[0] != t[1];
    }
    assert Avoids(q[|p|..], p) by {
      forall i | 0 <= i < |q[|p|..]| ensures q[|p|..][i] !in p {
        assert q[|p|..][i] == t[i + 1];
        assert t[0] != t[i + 1];
      }
    }
    assert SimplePath(g, q[|p|..], w, e);
  }

  /** Stepping from `s` to an unvisited successor and on along a simple path gives a simple path from `s`. */
  lemma ExtendsPrepend(g: Graph, s: Node, e: Node, path: seq<Node>, q: seq<Node>)
    requires s !in path && |q| > |path| + 1
    requires (s, q[|path| + 1]) in Keys(g) && Extends(g, q, path + [s], q[|path| + 1], e)
    ensures Extends(g, q, path, s, e)
  {
    var p := path + [s];
    var t := q[|path|..];
    assert q[|path|] == s by {
      assert q[..|p|][|path|] == s;
    }
    assert t == [s] + q[|p|..];
    assert Distinct(t) by {
      forall i, j | 0 <= i < j < |t| ensures t[i] != t[j] {
        if i > 0 {
          assert t[i] == q[|p|..][i - 1] && t[j] == q[|p|..][j - 1];
        } else {
          assert t[j] == q[|p|..][j - 1];
        }
      }
    }
    assert IsWalk(g, t) by {
      forall i | 0 <= i < |t| - 1 ensures (t[i], t[i + 1]) in Keys(g) {
        if i > 0 {
          assert t[i] == q[|p|..][i - 1] && t[i + 1] == q[|p|..][i];
        }
      }
    }
    assert Avoids(t, path) by {
      forall i | 0 <= i < |t| ensures t[i] !in path {
        if i > 0 {
          assert t[i] == q[|p|..][i - 1];
        }
      }
    }
    assert q[..|path|] == path by {
      assert q[..|path|] == q[..|p|][..|path|];
    }
  }

  /** What the loop over the successors `ws` returns, exactly. */
  lemma {:induction false} ExploreExact(g: Graph, ws: seq<Node>, e: Node, p: seq<Node>, q: seq<Node>)
    requires forall i :: 0 <= i < |ws| ==> ws[i] in Targets(g)
    ensures q in Explore(g, ws, e, p) <==>
              |q| > |p| && q[|p|] in ws && q[|p|] !in p && Extends(g, q, p, q[|p|], e)
    decreases |Targets(g) - Elems(p)|, 1, |ws|
  {
    if ws != [] {
      assert ws[0] in Targets(g);
      assert Targets(g) + {ws[0]} == Targets(g);
      assert (Targets(g) + {ws[0]}) - Elems(p) == Targets(g) - Elems(p);
      ExploreExact(g, ws[1..], e, p, q);
      if ws[0] !in p {
        FindPathsFromExact(g, ws[0], e, p, q);
      }
      if |q| > |p| && q[|p|] in ws && q[|p|] !in p && Extends(g, q, p, q[|p|], e) {
        if q[|p|] != ws[0] {
          assert q[|p|] in ws[1..];
        }
      }
      if |q| > |p| && Extends(g, q, p, ws[0], e) {
        assert q[|p|..][0] == ws[0];
      }
    }
  }

  /** Soundness and completeness: the paths found are exactly the simple paths from `s` to `e`. */
  lemma FindPathsExact(g: Graph, s: Node, e: Node, q: seq<Node>)
    ensures q in FindPaths(g, s, e) <==> SimplePath(g, q, s, e)
  {
    FindPathsFromExact(g, s, e, [], q);
    if |q| > 0 {
      assert q[0..] == q;
    }
  }

  /** From a node to itself there is just the one-node path. */
  lemma {:induction false} FindPathsToSelf(g: Graph, s: Node)
    ensures FindPaths(g, s, s) == [[s]]
  {
    assert [] + [s] == [s];
  }

  /** Any walk can be shortened to a simple path with the same ends. */
  lemma {:induction false} WalkHasSimplePath(g: Graph, t: seq<Node>) returns (u: seq<Node>)
    requires |t| >= 1 && IsWalk(g, t)
    ensures SimplePath(g, u, t[0], t[|t| - 1])
    decreases |t|
  {
    if Distinct(t) {
      u := t;
    } else {
      var i, j :| 0 <= i < j < |t| && t[i] == t[j];
      var short := t[..i] + t[j..];
      assert |short| < |t|;
      assert IsWalk(g, short) by {
        forall k | 0 <= k < |short| - 1 ensures (short[k], short[k + 1]) in Keys(g) {
          if k < i - 1 {
            assert short[k] == t[k] && short[k + 1] == t[k + 1];
          } else if k == i - 1 {
            assert short[k] == t[i - 1] && short[k + 1] == t[j];
          } else {
            assert short[k] == t[k - i + j] && short[k + 1] == t[k - i + j + 1];
          }
        }
      }
      assert short[0] == t[0];
      assert short[|short| - 1] == t[|t| - 1];
      u := WalkHasSimplePath(g, short);
    }
  }

  /** The enumeration comes back empty exactly when `e` cannot be reached from `s`. */
  lemma FindPathsEmptyIffUnreachable(g: Graph, s: Node, e: Node)
    ensures FindPaths(g, s, e) == [] <==> !Reachable(g, s, e)
  {
    if FindPaths(g, s, e) != [] {
      var q := FindPaths(g, s, e)[0];
      FindPathsExact(g, s, e, q);
      assert |q| >= 1 && q[0] == s && q[|q| - 1] == e && IsWalk(g, q);
    }
    if Reachable(g, s, e) {
      var t :| |t| >= 1 && t[0] == s && t[|t| - 1] == e && IsWalk(g, t);
      var u := WalkHasSimplePath(g, t);
      FindPathsExact(g, s, e, u);
    }
  }

  lemma DistinctConcat<T>(a: seq<T>, b: seq<T>)
    requires Distinct(a) && Distinct(b)
    requires forall x :: x in a ==> x !in b
    ensures Distinct(a + b)
  {
    forall i, j | 0 <= i < j < |a + b| ensures (a + b)[i] != (a + b)[j] {
      if i < |a| && j >= |a| {
        assert (a + b)[i] in a && (a + b)[j] == b[j - |a|];
      } else if i >= |a| {
        assert (a + b)[i] == b[i - |a|] && (a + b)[j] == b[j - |a|];
      }
    }
  }

  /** With unique keys no path is listed twice (general form). */
  lemma {:induction false} FindPathsFromDistinct(g: Graph, s: Node, e: Node, path: seq<Node>)
    requires UniqueKeys(g) && s !in path
    ensures Distinct(FindPathsFrom(g, s, e, path))
    decreases |(Targets(g) + {s}) - Elems(path)|, 0, 0
  {
    if s != e {
      VisitShrinks(g, s, path);
      NeighborsDistinct(g, s);
      ExploreDistinct(g, Neighbors(g, s), e, path + [s]);
    }
  }

  lemma {:induction false} ExploreDistinct(g: Graph, ws: seq<Node>, e: Node, p: seq<Node>)
    requires UniqueKeys(g) && Distinct(ws)
    requires forall i :: 0 <= i < |ws| ==> ws[i] in Targets(g)
    ensures Distinct(Explore(g, ws, e, p))
    decreases |Targets(g) - Elems(p)|, 1, |ws|
  {
    if ws != [] {
      assert ws[0] in Targets(g);
      assert Targets(g) + {ws[0]} == Targets(g);
      assert (Targets(g) + {ws[0]}) - Elems(p) == Targets(g) - Elems(p);
      assert Distinct(ws[1..]) by {
        forall i, j | 0 <= i < j < |ws[1..]| ensures ws[1..][i] != ws[1..][j] {
          assert ws[1..][i] == ws[i + 1] && ws[1..][j] == ws[j + 1];
        }
      }
      ExploreDistinct(g, ws[1..], e, p);
      var a := if ws[0] !in p then FindPathsFrom(g, ws[0], e, p) else [];
      var b := Explore(g, ws[1..], e, p);
      if ws[0] !in p {
        FindPathsFromDistinct(g, ws[0], e, p);
      }
      forall x | x in a ensures x !in b {
        FindPathsFromExact(g, ws[0], e, p, x);
        assert x[|p|..][0] == ws[0];
        ExploreExact(g, ws[1..], e, p, x);
      }
      DistinctConcat(a, b);
    }
  }

  /** With unique keys no path is listed twice. */
  lemma FindPathsDistinct(g: Graph, s: Node, e: Node)
    requires UniqueKeys(g)
    ensures Distinct(FindPaths(g, s, e))
  {
    FindPathsFromDistinct(g, s, e, []);
  }
}
