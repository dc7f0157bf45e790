/**
 * Path scoring and selection: each candidate path costs the sum of the
 * rates on both ends of its hops; the first path of strictly lowest cost
 * wins, and the mean cost of the other candidates is reported.
 */
module Selection {
  import opened Wrappers
  import opened Topology
  import opened Utilization

  function Sum(xs: seq<real>): real
  {
    if xs == [] then 0.0 else Sum(xs[..|xs| - 1]) + xs[|xs| - 1]
  }

  /**
   * The index the selection loop settles on: a later cost replaces the best
   * so far only when it is strictly lower. It is the first index of least cost.
   */
  function FirstMin(xs: seq<real>): (i: nat)
    requires |xs| >= 1
    ensures i < |xs|
    ensures forall j :: 0 <= j < |xs| ==> xs[i] <= xs[j]
    ensures forall j :: 0 <= j < i ==> xs[i] < xs[j]
  {
    if |xs| == 1 then 0
    else
      var k := FirstMin(xs[..|xs| - 1]);
      if xs[|xs| - 1] < xs[k] then |xs| - 1 else k
  }

  /** `(total_util - min_util) / (len(possible_paths) - 1)`. */
  function AverageOfOthers(total: real, chosen: real, count: nat): real
    requires count >= 2
  {
    (total - chosen) / (count - 1) as real
  }

  /** The mean cost of every candidate but `i`; not defined for a single candidate. */
  function MeanOfOthers(xs: seq<real>, i: nat): Option<real>
    requires i < |xs|
  {
    if |xs| >= 2 then Some(AverageOfOthers(Sum(xs), xs[i], |xs|)) else None
  }

  /** The cost of one path; None where `links_from_path` raises KeyError. */
  function PathCost(g: Graph, stats: map<PortKey, real>, path: seq<Node>): Option<real>
  {
    var links := LinksFromPath(g, path);
    if links.None? then None else Some(PathUtilization(stats, links.value))
  }

  /** The cost of every candidate, in order; None if any of them raises KeyError. */
  function PathCosts(g: Graph, stats: map<PortKey, real>, paths: seq<seq<Node>>): (r: Option<seq<real>>)
    ensures r.Some? ==> |r.value| == |paths|
  {
    if paths == [] then Some([])
    else
      var rest := PathCosts(g, stats, paths[..|paths| - 1]);
      var last := PathCost(g, stats, paths[|paths| - 1]);
      if rest.None? || last.None? then None else Some(rest.value + [last.value])
  }

  /** Entry `k` of the costs is the cost of candidate `k`. */
  lemma {:induction false} PathCostsAt(g: Graph, stats: map<PortKey, real>, paths: seq<seq<Node>>)
    requires PathCosts(g, stats, paths).Some?
    ensures forall k :: 0 <= k < |paths| ==> PathCost(g, stats, paths[k]) == Some(PathCosts(g, stats, paths).value[k])
  {
    if paths != [] {
      var prefix := paths[..|paths| - 1];
      PathCostsAt(g, stats, prefix);
      assert forall k :: 0 <= k < |prefix| ==> prefix[k] == paths[k];
    }
  }

  /** The state of the selection loop when it ends, or the KeyError it raised. */
  datatype Scan = KeyErrorRaised | Scanned(index: nat, minCost: Option<real>, total: real)

  /**
   * The selection loop of `_handle_PacketIn`: `min_util` starts at infinity
   * (None here), so the first path is always taken, and a later path replaces
   * the best only when strictly cheaper.
   */
  method ScanPaths(g: Graph, stats: map<PortKey, real>, paths: seq<seq<Node>>) returns (r: Scan)
    ensures PathCosts(g, stats, paths).None? <==> r == KeyErrorRaised
    ensures r.Scanned? ==>
              var costs := PathCosts(g, stats, paths).value;
              r.total == Sum(costs) &&
              (|paths| == 0 ==> r.index == 0 && r.minCost == None) &&
              (|paths| >= 1 ==> r.index == FirstMin(costs) && r.minCost == Some(costs[r.index]))
  {
    var i: nat := 0;
    var minUtil: Option<real> := None;
    var totalUtil: real := 0.0;
    ghost var seen: seq<real> := [];
    var j := 0;
    while j < |paths|
      invariant 0 <= j <= |paths| && |seen| == j
      invariant forall k :: 0 <= k < j ==> CostedAs(g, stats, paths, seen, k)
      invariant totalUtil == Sum(seen)
      invariant j == 0 ==> i == 0 && minUtil == None
      invariant j >= 1 ==> i == FirstMin(seen) && minUtil == Some(seen[i])
    {
      var links := LinksFromPath(g, paths[j]);
      if links.None? {
        PathCostsNone(g, stats, paths, j);
        return KeyErrorRaised;
      }
      var pathUtil := PathUtilization(stats, links.value);
      ScanStep(seen, pathUtil);
      CostedSnoc(g, stats, paths, seen, pathUtil);
      totalUtil := totalUtil + pathUtil;
      if minUtil.None? || pathUtil < minUtil.value {
        i := j;
        minUtil := Some(pathUtil);
      }
      seen := seen + [pathUtil];
      j := j + 1;
    }
    CostsAgree(g, stats, paths, seen);
    r := Scanned(i, minUtil, totalUtil);
  }

  /** Candidate `k` has been costed, and its cost is entry `k` of `seen`. */
  ghost predicate CostedAs(g: Graph, stats: map<PortKey, real>, paths: seq<seq<Node>>, seen: seq<real>, k: int)
  {
    0 <= k < |paths| && k < |seen| && PathCost(g, stats, paths[k]) == Some(seen[k])
  }

  lemma CostedSnoc(g: Graph, stats: map<PortKey, real>, paths: seq<seq<Node>>, seen: seq<real>, c: real)
    requires |seen| < |paths| && forall k :: 0 <= k < |seen| ==> CostedAs(g, stats, paths, seen, k)
    requires PathCost(g, stats, paths[|seen|]) == Some(c)
    ensures forall k :: 0 <= k < |seen| + 1 ==> CostedAs(g, stats, paths, seen + [c], k)
  {
    forall k | 0 <= k < |seen| + 1 ensures CostedAs(g, stats, paths, seen + [c], k) {
      if k < |seen| {
        assert CostedAs(g, stats, paths, seen, k);
      }
    }
  }

  /** Costs gathered one candidate at a time are the costs of all the candidates. */
  lemma {:induction false} CostsAgree(g: Graph, stats: map<PortKey, real>, paths: seq<seq<Node>>, seen: seq<real>)
    requires |seen| == |paths| && forall k :: 0 <= k < |paths| ==> CostedAs(g, stats, paths, seen, k)
    ensures PathCosts(g, stats, paths) == Some(seen)
  {
    if paths != [] {
      var n := |paths| - 1;
      forall k | 0 <= k < n ensures CostedAs(g, stats, paths[..n], seen[..n], k) {
        assert CostedAs(g, stats, paths, seen, k);
      }
      CostsAgree(g, stats, paths[..n], seen[..n]);
      assert CostedAs(g, stats, paths, seen, n);
      assert seen == seen[..n] + [seen[n]];
    }
  }

  /** The loop gets through the candidates exactly when every one of them has both directions of every hop. */
  lemma {:induction false} PathCostsDefined(g: Graph, stats: map<PortKey, real>, paths: seq<seq<Node>>)
    ensures PathCosts(g, stats, paths).Some? <==> forall k :: 0 <= k < |paths| ==> BothWays(g, paths[k])
  {
    if paths != [] {
      var n := |paths| - 1;
      var prefix := paths[..n];
      PathCostsDefined(g, stats, prefix);
      assert PathCosts(g, stats, paths).Some? <==>
             PathCosts(g, stats, prefix).Some? && PathCost(g, stats, paths[n]).Some?;
      if forall k :: 0 <= k < |paths| ==> BothWays(g, paths[k]) {
        forall k | 0 <= k < |prefix| ensures BothWays(g, prefix[k]) {
          assert prefix[k] == paths[k];
        }
      }
      if PathCosts(g, stats, paths).Some? {
        forall k | 0 <= k < |paths| ensures BothWays(g, paths[k]) {
          if k < n {
            assert prefix[k] == paths[k];
          }
        }
      }
    }
  }

  /** One candidate that raises KeyError makes the whole loop raise it. */
  lemma PathCostsNone(g: Graph, stats: map<PortKey, real>, paths: seq<seq<Node>>, j: nat)
    requires j < |paths| && PathCost(g, stats, paths[j]).None?
    ensures PathCosts(g, stats, paths).None?
  {
    PathCostsDefined(g, stats, paths);
  }

  /** What one more cost does to the running total and to the best index. */
  lemma ScanStep(seen: seq<real>, c: real)
    ensures Sum(seen + [c]) == Sum(seen) + c
    ensures |seen| == 0 ==> FirstMin(seen + [c]) == 0
    ensures |seen| >= 1 ==> FirstMin(seen + [c]) == if c < seen[FirstMin(seen)] then |seen| else FirstMin(seen)
  {
    assert (seen + [c])[..|seen|] == seen;
  }

  lemma {:induction false} SumAppend(xs: seq<real>, ys: seq<real>)
    ensures Sum(xs + ys) == Sum(xs) + Sum(ys)
    decreases |ys|
  {
    if ys == [] {
      assert xs + ys == xs;
    } else {
      assert (xs + ys)[..|xs + ys| - 1] == xs + ys[..|ys| - 1];
      SumAppend(xs, ys[..|ys| - 1]);
    }
  }

  lemma {:induction false} SumAtLeast(xs: seq<real>, m: real)
    requires forall j :: 0 <= j < |xs| ==> m <= xs[j]
    ensures |xs| as real * m <= Sum(xs)
  {
    if xs != [] {
      SumAtLeast(xs[..|xs| - 1], m);
    }
  }

  /** The costs of every candidate but `i`, in order. */
  function Without(xs: seq<real>, i: nat): (ys: seq<real>)
    requires i < |xs|
    ensures |ys| == |xs| - 1
  {
    xs[..i] + xs[i + 1..]
  }

  function Mean(ys: seq<real>): real
    requires |ys| >= 1
  {
    Sum(ys) / |ys| as real
  }

  /**
   * With two or more candidates the reported figure for a cheapest candidate
   * `i` is the mean cost of the other candidates, and it is never below the
   * cost of `i`.
   */
  lemma MeanOfOthersIsMeanOfRejected(xs: seq<real>, i: nat)
    requires |xs| >= 2 && i < |xs| && forall j :: 0 <= j < |xs| ==> xs[i] <= xs[j]
    ensures MeanOfOthers(xs, i) == Some(Mean(Without(xs, i)))
    ensures xs[i] <= Mean(Without(xs, i))
  {
    var rejected := Without(xs, i);
    SumWithout(xs, i);
    assert Sum(rejected) == Sum(xs) - xs[i] && |rejected| == |xs| - 1;
    RejectedAtLeast(xs, i);
    MeanAtLeast(rejected, xs[i]);
  }

  /** A lower bound of every entry bounds the mean. */
  lemma MeanAtLeast(ys: seq<real>, m: real)
    requires |ys| >= 1 && forall j :: 0 <= j < |ys| ==> m <= ys[j]
    ensures m <= Mean(ys)
  {
    SumAtLeast(ys, m);
    DivideBound(m, Sum(ys), |ys| as real);
  }

  /** A lower bound of every entry bounds every entry left after removing one. */
  lemma RejectedAtLeast(xs: seq<real>, i: nat)
    requires i < |xs| && forall j :: 0 <= j < |xs| ==> xs[i] <= xs[j]
    ensures forall j :: 0 <= j < |Without(xs, i)| ==> xs[i] <= Without(xs, i)[j]
  {
    var rejected := Without(xs, i);
    forall j | 0 <= j < |rejected| ensures xs[i] <= rejected[j] {
      if j < i {
        assert rejected[j] == xs[j];
      } else {
        assert rejected[j] == xs[j + 1];
      }
    }
  }

  /** Leaving out entry `i` takes its cost off the sum. */
  lemma {:induction false} SumWithout(xs: seq<real>, i: nat)
    requires i < |xs|
    ensures Sum(Without(xs, i)) == Sum(xs) - xs[i]
    decreases |xs|
  {
    var n := |xs| - 1;
    var w := Without(xs, i);
    if i < n {
      assert w[..|w| - 1] == Without(xs[..n], i) && w[|w| - 1] == xs[n];
      SumWithout(xs[..n], i);
    } else {
      assert w == xs[..n];
    }
  }

  lemma DivideBound(m: real, s: real, n: real)
    requires n > 0.0 && n * m <= s
    ensures m <= s / n
  {
  }

  /** Concrete check: candidates costing 10, 4 and 7 pick the cost-4 one; the others average 8.5. */
  lemma ExampleTenFourSeven()
    ensures FirstMin([10.0, 4.0, 7.0]) == 1
    ensures MeanOfOthers([10.0, 4.0, 7.0], 1) == Some(8.5)
  {
    assert [10.0, 4.0, 7.0][..2] == [10.0, 4.0];
    assert [10.0, 4.0][..1] == [10.0];
    assert [10.0][..0] == [];
  }
}
