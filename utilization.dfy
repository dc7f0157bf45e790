/**
 * Link tuples, path cost and the utilization tracker.
 *
 * A port is named by (switch, port number). `utilization` holds the last
 * cumulative tx-byte counter seen on a port; `port_stats` holds the rate
 * derived from the last two counters, in bytes per time unit.
 */
module Utilization {
  import opened Wrappers
  import opened Topology

  type PortKey = (Node, int)

  /** The stats interval DT. */
  const Interval: int := 5

  /** The reserved local port, never sampled. */
  const LocalPort: int := 65534

  /** A hop `(dpid1, port1, dpid2, port2)`: both ends of a link with their egress ports. */
  datatype Link = Link(a: Node, portA: int, b: Node, portB: int)

  /** Both directions of every consecutive pair of `path` are keys of `g`. */
  ghost predicate BothWays(g: Graph, path: seq<Node>)
  {
    forall i :: 0 <= i < |path| - 1 ==> LinkKnown(g, path, i)
  }

  /** Both directions of hop `i` of `path` are keys of `g`. */
  ghost predicate LinkKnown(g: Graph, path: seq<Node>, i: int)
  {
    0 <= i < |path| - 1 && (path[i], path[i + 1]) in Keys(g) && (path[i + 1], path[i]) in Keys(g)
  }

  /** The hop tuple for hop `i` of `path`, with the egress port of each end. */
  function LinkAt(g: Graph, path: seq<Node>, i: int): (l: Link)
    requires LinkKnown(g, path, i)
    ensures l.a == path[i] && l.b == path[i + 1]
    ensures Lookup(g, path[i], path[i + 1]) == Some(l.portA)
    ensures Lookup(g, path[i + 1], path[i]) == Some(l.portB)
  {
    Link(path[i], Lookup(g, path[i], path[i + 1]).value, path[i + 1], Lookup(g, path[i + 1], path[i]).value)
  }

  /**
   * `links_from_path(g, path)`; None where a missing key raises KeyError.
   * Hop `i` joins `path[i]` and `path[i + 1]`.
   */
  function LinksFromPath(g: Graph, path: seq<Node>): (r: Option<seq<Link>>)
    ensures r.Some? <==> BothWays(g, path)
    ensures r.Some? ==> |r.value| == if |path| == 0 then 0 else |path| - 1
  {
    if |path| < 2 then Some([])
    else
      var rest := LinksFromPath(g, path[..|path| - 1]);
      var a, b := path[|path| - 2], path[|path| - 1];
      BothWaysSnoc(g, path);
      var there, back := Lookup(g, a, b), Lookup(g, b, a);
      if rest.None? || there.None? || back.None? then None
      else Some(rest.value + [Link(a, there.value, b, back.value)])
  }

  /** Hop `i` of the result joins `path[i]` and `path[i + 1]`, with the egress port of each end. */
  lemma {:induction false} LinksFromPathAt(g: Graph, path: seq<Node>)
    requires BothWays(g, path)
    ensures forall i :: 0 <= i < |path| - 1 ==> LinksFromPath(g, path).value[i] == LinkAt(g, path, i)
  {
    if |path| >= 2 {
      var prefix := path[..|path| - 1];
      BothWaysSnoc(g, path);
      LinksFromPathAt(g, prefix);
      var rest := LinksFromPath(g, prefix).value;
      var last := LinkAt(g, path, |path| - 2);
      assert LinksFromPath(g, path).value == rest + [last];
    }
  }

  lemma BothWaysSnoc(g: Graph, path: seq<Node>)
    requires |path| >= 2
    ensures BothWays(g, path) <==>
              BothWays(g, path[..|path| - 1]) && LinkKnown(g, path, |path| - 2)
    ensures BothWays(g, path) ==>
              forall i :: 0 <= i < |path| - 2 ==> LinkAt(g, path, i) == LinkAt(g, path[..|path| - 1], i)
  {
    var prefix := path[..|path| - 1];
    if BothWays(g, prefix) && LinkKnown(g, path, |path| - 2) {
      forall i | 0 <= i < |path| - 1 ensures LinkKnown(g, path, i) {
        if i < |path| - 2 {
          assert LinkKnown(g, prefix, i);
          assert prefix[i] == path[i] && prefix[i + 1] == path[i + 1];
        }
      }
    }
    if BothWays(g, path) {
      forall i | 0 <= i < |prefix| - 1 ensures LinkKnown(g, prefix, i) {
        assert LinkKnown(g, path, i);
        assert prefix[i] == path[i] && prefix[i + 1] == path[i + 1];
      }
    }
  }

  /** `port_stats.get(key, 0)`. */
  function Rate(stats: map<PortKey, real>, key: PortKey): real
  {
    if key in stats then stats[key] else 0.0
  }

  /** The cost of one hop: the rates at both of its ends, an unmeasured end counting as 0. */
  function LinkCost(stats: map<PortKey, real>, l: Link): real
  {
    Rate(stats, (l.a, l.portA)) + Rate(stats, (l.b, l.portB))
  }

  /** `path_utilization(port_stats, links)`: the rates of both ends of every hop, added up in order. */
  function PathUtilization(stats: map<PortKey, real>, links: seq<Link>): real
  {
    if links == [] then 0.0
    else
      var l := links[|links| - 1];
      PathUtilization(stats, links[..|links| - 1]) + LinkCost(stats, l)
  }

  /** Path cost is additive over joining lists of hops. */
  lemma {:induction false} PathUtilizationAppend(stats: map<PortKey, real>, xs: seq<Link>, ys: seq<Link>)
    ensures PathUtilization(stats, xs + ys) == PathUtilization(stats, xs) + PathUtilization(stats, ys)
    decreases |ys|
  {
    if ys != [] {
      assert (xs + ys)[..|xs + ys| - 1] == xs + ys[..|ys| - 1];
      PathUtilizationAppend(stats, xs, ys[..|ys| - 1]);
    } else {
      assert xs + ys == xs;
    }
  }

  /** A single hop costs the rates of its two ends, an unmeasured end counting as 0. */
  lemma PathUtilizationSingle(stats: map<PortKey, real>, l: Link)
    ensures PathUtilization(stats, [l]) == Rate(stats, (l.a, l.portA)) + Rate(stats, (l.b, l.portB))
    ensures (l.a, l.portA) !in stats && (l.b, l.portB) !in stats ==> PathUtilization(stats, [l]) == 0.0
  {
    assert [l][..0] == [];
  }

  /** A path whose ports carry no recorded rate costs nothing. */
  lemma {:induction false} PathUtilizationUnmeasured(stats: map<PortKey, real>, links: seq<Link>)
    requires forall i :: 0 <= i < |links| ==> (links[i].a, links[i].portA) !in stats && (links[i].b, links[i].portB) !in stats
    ensures PathUtilization(stats, links) == 0.0
  {
    if links != [] {
      PathUtilizationUnmeasured(stats, links[..|links| - 1]);
    }
  }

  /** Counter and rate tables, as one value. */
  datatype Tables = Tables(utilization: map<PortKey, int>, portStats: map<PortKey, real>)

  /** One entry of a port-stats reply: a port and its cumulative tx-byte counter. */
  datatype PortStat = PortStat(portNo: int, txBytes: int)

  /** The rate between two successive counters. */
  function RateBetween(oldCount: int, newCount: int): real
  {
    (newCount - oldCount) as real / Interval as real
  }

  /** One turn of the loop in `_handle_PortStatsReceived`. */
  function Sample(t: Tables, dpid: Node, stat: PortStat): Tables
  {
    var key := (dpid, stat.portNo);
    if stat.portNo == LocalPort || key !in t.utilization then t
    else Tables(t.utilization[key := stat.txBytes],
                t.portStats[key := RateBetween(t.utilization[key], stat.txBytes)])
  }

  /** The whole loop: the entries of one reply, in order. */
  function SampleAll(t: Tables, dpid: Node, stats: seq<PortStat>): Tables
  {
    if stats == [] then t
    else Sample(SampleAll(t, dpid, stats[..|stats| - 1]), dpid, stats[|stats| - 1])
  }

  /**
   * What one reply does to a port: the local port and ports without a counter
   * are left alone, neither table gains a key it had no counter for, and
   * ports of other switches are untouched.
   */
  lemma {:induction false} SampleAllFrame(t: Tables, dpid: Node, stats: seq<PortStat>, key: PortKey)
    ensures SampleAll(t, dpid, stats).utilization.Keys == t.utilization.Keys
    ensures key.0 != dpid || key.1 == LocalPort || key !in t.utilization ==>
              (key in SampleAll(t, dpid, stats).portStats <==> key in t.portStats) &&
              (key in t.portStats ==> SampleAll(t, dpid, stats).portStats[key] == t.portStats[key]) &&
              (key in t.utilization ==> SampleAll(t, dpid, stats).utilization[key] == t.utilization[key])
  {
    if stats != [] {
      SampleAllFrame(t, dpid, stats[..|stats| - 1], key);
    }
  }

  /** Rates are only ever recorded for ports that have a counter. */
  lemma {:induction false} SampleAllKeepsRatesTracked(t: Tables, dpid: Node, stats: seq<PortStat>)
    requires t.portStats.Keys <= t.utilization.Keys
    ensures SampleAll(t, dpid, stats).portStats.Keys <= SampleAll(t, dpid, stats).utilization.Keys
  {
    if stats != [] {
      SampleAllKeepsRatesTracked(t, dpid, stats[..|stats| - 1]);
    }
  }

  /** A port a reply does not mention keeps its counter and its rate. */
  lemma {:induction false} SampleAllUnreported(t: Tables, dpid: Node, stats: seq<PortStat>, port: int)
    requires forall i :: 0 <= i < |stats| ==> stats[i].portNo != port
    ensures var r := SampleAll(t, dpid, stats);
            ((dpid, port) in r.utilization <==> (dpid, port) in t.utilization) &&
            ((dpid, port) in r.portStats <==> (dpid, port) in t.portStats) &&
            ((dpid, port) in t.utilization ==> r.utilization[(dpid, port)] == t.utilization[(dpid, port)]) &&
            ((dpid, port) in t.portStats ==> r.portStats[(dpid, port)] == t.portStats[(dpid, port)])
  {
    if stats != [] {
      SampleAllUnreported(t, dpid, stats[..|stats| - 1], port);
    }
  }

  /**
   * A tracked, non-local port that a reply mentions once: its counter becomes
   * the reported value and its rate is the change since the previous counter over DT.
   */
  lemma {:induction false} SampleAllReportedOnce(t: Tables, dpid: Node, stats: seq<PortStat>, k: nat)
    requires k < |stats| && stats[k].portNo != LocalPort && (dpid, stats[k].portNo) in t.utilization
    requires forall i :: 0 <= i < |stats| && i != k ==> stats[i].portNo != stats[k].portNo
    ensures var key := (dpid, stats[k].portNo);
            var r := SampleAll(t, dpid, stats);
            key in r.utilization && r.utilization[key] == stats[k].txBytes &&
            key in r.portStats && r.portStats[key] * 5.0 == (stats[k].txBytes - t.utilization[key]) as real
  {
    var prefix := stats[..|stats| - 1];
    if k == |stats| - 1 {
      SampleAllUnreported(t, dpid, prefix, stats[k].portNo);
    } else {
      SampleAllReportedOnce(t, dpid, prefix, k);
    }
  }

  /** Two successive replies for a port give the difference of their counters over DT. */
  lemma SuccessiveSamples(t: Tables, dpid: Node, port: int, first: int, second: int)
    requires port != LocalPort && (dpid, port) in t.utilization
    ensures var t1 := Sample(t, dpid, PortStat(port, first));
            var t2 := Sample(t1, dpid, PortStat(port, second));
            t2.utilization[(dpid, port)] == second &&
            t2.portStats[(dpid, port)] == (second - first) as real / 5.0
  {
  }
}
