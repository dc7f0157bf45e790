/**
 * The controller component: its state (the topology dictionary `e`, the
 * hard-coded ARP table `ip_to_mac`, the byte counters `utilization` and the
 * rates `port_stats`) and its three handlers: link discovery, port
 * statistics and packet-in.
 *
 * A handler's sends are modelled as the sequence of commands it issues; an
 * exception that escapes a handler is modelled as the `Raised` outcome.
 */
module Controller {
  import opened Wrappers
  import opened Topology
  import opened Paths
  import opened Mac
  import opened Utilization
  import opened Selection
  import opened Commands
  import opened FlowInstall

  /** The payload of a packet, as far as the packet-in handler looks at it. */
  datatype Payload =
    | Arp(isRequest: bool, protoSrc: string, protoDst: string)
    | Other

  /** A parsed Ethernet frame: source MAC, destination MAC (in text form) and payload. */
  datatype Packet = Packet(src: string, dst: string, payload: Payload)

  /** A packet-in event: the switch that sent it up, its ingress port, and the packet. */
  datatype PacketInEvent = PacketInEvent(dpid: Node, port: int, packet: Packet)

  /** The Python exceptions that can escape the packet-in handler. */
  datatype Error = KeyError | IndexError | ZeroDivisionError | ValueError

  /**
   * The outcome of the selection: index `i` among the candidates, the
   * optimum path, its cost `min_util`, and the mean cost of the other
   * candidates `avg_path_util` (None when there is no other candidate).
   */
  datatype Selected = Selected(index: nat, path: seq<Node>, cost: real, meanOthers: Option<real>)

  /** What handling one event sends, in order, and which path it chose; or the exception it raised. */
  datatype Outcome =
    | Handled(commands: seq<Command>, selected: Option<Selected>)
    | Raised(error: Error)

  /** The first five bytes of both hard-coded host MACs, `00:00:00:00:00`. */
  const HostMacPrefix: string := "00:00:00:00:00"

  /** The ARP table the component starts with: hosts `00:00:00:00:00:01` and `00:00:00:00:00:02`. */
  function SeedHosts(): map<string, string>
  {
    map["10.0.0.1" := HostMacPrefix + ":01", "10.0.0.2" := HostMacPrefix + ":02"]
  }

  /** The two hard-coded MACs name the two host nodes of the seed graph. */
  lemma SeedHostNodes()
    ensures SeedHosts().Keys == {"10.0.0.1", "10.0.0.2"}
    ensures Etoi(SeedHosts()["10.0.0.1"]) == Some(1) && Etoi(SeedHosts()["10.0.0.2"]) == Some(2)
  {
    assert "10.0.0.1"[7] != "10.0.0.2"[7];
    assert SeedHosts()["10.0.0.1"] == HostMacPrefix + [':', '0', '1'];
    assert SeedHosts()["10.0.0.2"] == HostMacPrefix + [':', '0', '2'];
    HostNode(HostMacPrefix, '1');
    HostNode(HostMacPrefix, '2');
  }

  /** A MAC whose last byte is written `0d` names node `d`, whatever its other bytes. */
  lemma HostNode(prefix: string, d: char)
    requires '0' <= d <= '9'
    ensures Etoi(prefix + [':', '0', d]) == Some(d as int - '0' as int)
  {
    assert prefix + [':', '0', d] == prefix + [':'] + ['0', d];
    LastSegmentAfterColon(prefix, ['0', d]);
    assert ['0', d][..1] == ['0'];
    assert ParseHex(['0']) == Some(0);
  }

  /** `_handle_LinkEvent`'s two writes to `e`: the forward direction, then the reverse. */
  function WithLink(g: Graph, d1: Node, p1: int, d2: Node, p2: int): Graph
  {
    Put(Put(g, d1, d2, p1), d2, d1, p2)
  }

  /**
   * After a link is recorded, `e[(d2, d1)]` is `p2`, `e[(d1, d2)]` is `p1`
   * (unless the link is a loop, where the later write wins), and every other
   * entry is what it was.
   */
  lemma WithLinkLookup(g: Graph, d1: Node, p1: int, d2: Node, p2: int, a: Node, b: Node)
    requires UniqueKeys(g)
    ensures UniqueKeys(WithLink(g, d1, p1, d2, p2))
    ensures Lookup(WithLink(g, d1, p1, d2, p2), a, b) ==
              if (a, b) == (d2, d1) then Some(p2)
              else if (a, b) == (d1, d2) then Some(p1)
              else Lookup(g, a, b)
  {
    PutKeepsUniqueKeys(g, d1, d2, p1);
    PutKeepsUniqueKeys(Put(g, d1, d2, p1), d2, d1, p2);
    LookupPut(Put(g, d1, d2, p1), d2, d1, p2, a, b);
    LookupPut(g, d1, d2, p1, a, b);
  }

  /** Recording both directions of a link keeps every edge paired with its reverse. */
  lemma WithLinkSymmetric(g: Graph, d1: Node, p1: int, d2: Node, p2: int)
    requires Symmetric(g)
    ensures Symmetric(WithLink(g, d1, p1, d2, p2))
  {
    var g1 := Put(g, d1, d2, p1);
    var r := Put(g1, d2, d1, p2);
    forall a, b | (a, b) in Keys(r) ensures (b, a) in Keys(r) {
      if (a, b) != (d1, d2) && (a, b) != (d2, d1) {
        assert (a, b) in Keys(g1);
        assert (a, b) in Keys(g);
      }
    }
  }

  /** A walk over a graph whose edges all have their reverse can be walked both ways. */
  lemma WalkBothWays(g: Graph, t: seq<Node>)
    requires Symmetric(g) && IsWalk(g, t)
    ensures BothWays(g, t)
  {
    forall i | 0 <= i < |t| - 1 ensures LinkKnown(g, t, i) {
      assert (t[i], t[i + 1]) in Keys(g);
    }
  }

  /** A candidate that got through `links_from_path` has every interior hop in `e`. */
  lemma CandidateIsLinked(g: Graph, stats: map<PortKey, real>, paths: seq<seq<Node>>, i: nat)
    requires PathCosts(g, stats, paths).Some? && i < |paths|
    ensures InteriorEdges(g, paths[i])
  {
    PathCostsDefined(g, stats, paths);
    var p := paths[i];
    assert BothWays(g, p);
    forall k | 1 <= k < |p| - 1 ensures HopKnown(g, p, k) {
      assert LinkKnown(g, p, k);
    }
  }

  /**
   * Selection and flow installation over the candidate paths, as written:
   * IndexError when there is no candidate and ZeroDivisionError when there
   * is exactly one, both before anything is installed.
   */
  function ChooseAsWritten(g: Graph, stats: map<PortKey, real>, paths: seq<seq<Node>>, src: string, dst: string, inSwitch: Node): Outcome
  {
    var costs := PathCosts(g, stats, paths);
    if costs.None? then Raised(KeyError)
    else if |paths| == 0 then Raised(IndexError)
    else if |paths| == 1 then Raised(ZeroDivisionError)
    else
      var i := FirstMin(costs.value);
      var mean := AverageOfOthers(Sum(costs.value), costs.value[i], |paths|);
      var plan := FlowPlan(g, paths[i], src, dst, inSwitch);
      if plan.None? then Raised(KeyError)
      else Handled(plan.value, Some(Selected(i, paths[i], costs.value[i], Some(mean))))
  }

  /**
   * Selection and flow installation over the candidate paths, with the two
   * crashes removed: with no candidate the packet is dropped and nothing is
   * installed; with a single candidate it is installed and there is no mean
   * of the others.
   */
  function Choose(g: Graph, stats: map<PortKey, real>, paths: seq<seq<Node>>, src: string, dst: string, inSwitch: Node): Outcome
  {
    var costs := PathCosts(g, stats, paths);
    if costs.None? then Raised(KeyError)
    else if |paths| == 0 then Handled([], None)
    else
      var i := FirstMin(costs.value);
      var plan := FlowPlan(g, paths[i], src, dst, inSwitch);
      if plan.None? then Raised(KeyError)
      else Handled(plan.value, Some(Selected(i, paths[i], costs.value[i], MeanOfOthers(costs.value, i))))
  }

  /** The non-ARP branch of `_handle_PacketIn` as written: node ids from the MACs, the candidates, then selection. */
  function NewFlowAsWritten(g: Graph, stats: map<PortKey, real>, src: string, dst: string, inSwitch: Node): Outcome
  {
    var s, d := Etoi(src), Etoi(dst);
    if s.None? || d.None? then Raised(ValueError)
    else ChooseAsWritten(g, stats, FindPaths(g, s.value, d.value), src, dst, inSwitch)
  }

  /** The non-ARP branch of `_handle_PacketIn`, with the corrected selection. */
  function NewFlow(g: Graph, stats: map<PortKey, real>, src: string, dst: string, inSwitch: Node): Outcome
  {
    var s, d := Etoi(src), Etoi(dst);
    if s.None? || d.None? then Raised(ValueError)
    else Choose(g, stats, FindPaths(g, s.value, d.value), src, dst, inSwitch)
  }

  /**
   * The correction changes nothing but the two crashes: wherever the
   * selection as written does not raise IndexError or ZeroDivisionError,
   * the corrected one does the same. It raises IndexError exactly when every
   * candidate was costed and there is none, and ZeroDivisionError exactly
   * when every candidate was costed and there is one.
   */
  lemma ChooseCorrectionOnlyAtCrashes(g: Graph, stats: map<PortKey, real>, paths: seq<seq<Node>>, src: string, dst: string, inSwitch: Node)
    ensures var w := ChooseAsWritten(g, stats, paths, src, dst, inSwitch);
            w != Raised(IndexError) && w != Raised(ZeroDivisionError) ==> w == Choose(g, stats, paths, src, dst, inSwitch)
    ensures ChooseAsWritten(g, stats, paths, src, dst, inSwitch) == Raised(IndexError) <==>
              PathCosts(g, stats, paths).Some? && |paths| == 0
    ensures ChooseAsWritten(g, stats, paths, src, dst, inSwitch) == Raised(ZeroDivisionError) <==>
              PathCosts(g, stats, paths).Some? && |paths| == 1
  {
  }

  /** The non-ARP branch as written and as corrected agree on every packet where the former does not crash. */
  lemma NewFlowCorrectionOnlyAtCrashes(g: Graph, stats: map<PortKey, real>, src: string, dst: string, inSwitch: Node)
    ensures var w := NewFlowAsWritten(g, stats, src, dst, inSwitch);
            w != Raised(IndexError) && w != Raised(ZeroDivisionError) ==> w == NewFlow(g, stats, src, dst, inSwitch)
  {
    if Etoi(src).Some? && Etoi(dst).Some? {
      ChooseCorrectionOnlyAtCrashes(g, stats, FindPaths(g, Etoi(src).value, Etoi(dst).value), src, dst, inSwitch);
    }
  }

  /**
   * `_handle_PacketIn` with the corrected non-ARP branch `NewFlow`: an ARP
   * request is answered from the ARP table (KeyError for an address it does
   * not hold) out of the port it came in on; any other ARP packet is
   * ignored; every other packet goes through `NewFlow`.
   */
  function HandlePacketIn(g: Graph, ipToMac: map<string, string>, stats: map<PortKey, real>, ev: PacketInEvent): Outcome
  {
    match ev.packet.payload
    case Arp(isRequest, protoSrc, protoDst) =>
      if !isRequest then Handled([], None)
      else if protoDst !in ipToMac then Raised(KeyError)
      else Handled([ArpReply(ev.dpid, ev.port, ipToMac[protoDst], ev.packet.src, protoDst, protoSrc)], None)
    case Other =>
      NewFlow(g, stats, ev.packet.src, ev.packet.dst, ev.dpid)
  }

  /** Corrected selection: when every candidate has both directions of every hop, selection and installation raise nothing. */
  lemma ChooseNoKeyError(g: Graph, stats: map<PortKey, real>, paths: seq<seq<Node>>, src: string, dst: string, inSwitch: Node)
    requires forall k :: 0 <= k < |paths| ==> BothWays(g, paths[k])
    ensures Choose(g, stats, paths, src, dst, inSwitch).Handled?
  {
    PathCostsDefined(g, stats, paths);
    if |paths| > 0 {
      var i := FirstMin(PathCosts(g, stats, paths).value);
      CandidateIsLinked(g, stats, paths, i);
      FlowPlanDefined(g, paths[i], src, dst, inSwitch);
    }
  }

  /**
   * The chosen candidate: no candidate is cheaper, every candidate before it
   * is dearer, and what is sent is the flow plan of that path.
   */
  lemma ChooseFirstCheapest(g: Graph, stats: map<PortKey, real>, paths: seq<seq<Node>>, src: string, dst: string, inSwitch: Node)
    requires Choose(g, stats, paths, src, dst, inSwitch).Handled?
    requires Choose(g, stats, paths, src, dst, inSwitch).selected.Some?
    ensures var o := Choose(g, stats, paths, src, dst, inSwitch);
            var sel := o.selected.value;
            sel.index < |paths| && sel.path == paths[sel.index] &&
            PathCost(g, stats, sel.path) == Some(sel.cost) &&
            (forall k :: 0 <= k < |paths| ==>
               PathCost(g, stats, paths[k]).Some? && sel.cost <= PathCost(g, stats, paths[k]).value) &&
            (forall k :: 0 <= k < sel.index ==> sel.cost < PathCost(g, stats, paths[k]).value) &&
            FlowPlan(g, sel.path, src, dst, inSwitch) == Some(o.commands)
  {
    PathCostsAt(g, stats, paths);
  }

  /**
   * The reported mean is the mean cost of the candidates not chosen, never
   * below the chosen cost; it is absent exactly when there is one candidate.
   */
  lemma ChooseReportsMeanOfOthers(g: Graph, stats: map<PortKey, real>, paths: seq<seq<Node>>, src: string, dst: string, inSwitch: Node)
    requires Choose(g, stats, paths, src, dst, inSwitch).Handled?
    requires Choose(g, stats, paths, src, dst, inSwitch).selected.Some?
    ensures var costs := PathCosts(g, stats, paths).value;
            var sel := Choose(g, stats, paths, src, dst, inSwitch).selected.value;
            sel.index < |costs| &&
            (sel.meanOthers.None? <==> |paths| == 1) &&
            (sel.meanOthers.Some? ==>
               sel.meanOthers.value == Mean(Without(costs, sel.index)) &&
               sel.cost <= sel.meanOthers.value)
  {
    var costs := PathCosts(g, stats, paths).value;
    var i := FirstMin(costs);
    assert Choose(g, stats, paths, src, dst, inSwitch).selected.value.meanOthers == MeanOfOthers(costs, i);
    if |paths| >= 2 {
      MeanOfOthersIsMeanOfRejected(costs, i);
    }
  }

  /** Every candidate is a simple path, so over a graph with paired edges every one has both directions of every hop. */
  lemma CandidatesLinked(g: Graph, s: Node, d: Node)
    requires Symmetric(g)
    ensures forall k :: 0 <= k < |FindPaths(g, s, d)| ==> BothWays(g, FindPaths(g, s, d)[k])
  {
    var paths := FindPaths(g, s, d);
    forall k | 0 <= k < |paths| ensures BothWays(g, paths[k]) {
      FindPathsExact(g, s, d, paths[k]);
      WalkBothWays(g, paths[k]);
    }
  }

  /**
   * When every candidate has both directions of every hop, a packet is
   * dropped with nothing sent exactly when there is no candidate.
   */
  lemma ChooseDropsIffNoCandidate(g: Graph, stats: map<PortKey, real>, paths: seq<seq<Node>>, src: string, dst: string, inSwitch: Node)
    requires forall k :: 0 <= k < |paths| ==> BothWays(g, paths[k])
    ensures var o := Choose(g, stats, paths, src, dst, inSwitch);
            o.Handled? && (o.selected.None? <==> paths == []) && (o.selected.None? ==> o.commands == [])
  {
    ChooseNoKeyError(g, stats, paths, src, dst, inSwitch);
  }

  /** While `e` pairs every edge with its reverse, a non-ARP packet raises KeyError nowhere. */
  lemma NewFlowNoKeyError(g: Graph, stats: map<PortKey, real>, src: string, dst: string, inSwitch: Node)
    requires Symmetric(g)
    ensures NewFlow(g, stats, src, dst, inSwitch) != Raised(KeyError)
  {
    if Etoi(src).Some? && Etoi(dst).Some? {
      var paths := FindPaths(g, Etoi(src).value, Etoi(dst).value);
      assert NewFlow(g, stats, src, dst, inSwitch) == Choose(g, stats, paths, src, dst, inSwitch);
      CandidatesLinked(g, Etoi(src).value, Etoi(dst).value);
      ChooseNoKeyError(g, stats, paths, src, dst, inSwitch);
    }
  }

  /**
   * Over a graph with paired edges, a packet between two nodes gets no path
   * exactly when the destination cannot be reached from the source, and then
   * nothing is sent.
   */
  lemma NewFlowDrops(g: Graph, stats: map<PortKey, real>, src: string, dst: string, inSwitch: Node)
    requires Etoi(src).Some? && Etoi(dst).Some? && Symmetric(g)
    ensures var o := NewFlow(g, stats, src, dst, inSwitch);
            o.Handled? &&
            (o.selected.None? <==> !Reachable(g, Etoi(src).value, Etoi(dst).value)) &&
            (o.selected.None? ==> o.commands == [])
  {
    var s, d := Etoi(src).value, Etoi(dst).value;
    var paths := FindPaths(g, s, d);
    assert NewFlow(g, stats, src, dst, inSwitch) == Choose(g, stats, paths, src, dst, inSwitch);
    CandidatesLinked(g, s, d);
    ChooseDropsIffNoCandidate(g, stats, paths, src, dst, inSwitch);
    FindPathsEmptyIffUnreachable(g, s, d);
  }

  /** The path a packet is sent along is a simple path from its source node to its destination node. */
  lemma NewFlowPathIsSimple(g: Graph, stats: map<PortKey, real>, src: string, dst: string, inSwitch: Node)
    requires Etoi(src).Some? && Etoi(dst).Some?
    requires NewFlow(g, stats, src, dst, inSwitch).Handled?
    requires NewFlow(g, stats, src, dst, inSwitch).selected.Some?
    ensures SimplePath(g, NewFlow(g, stats, src, dst, inSwitch).selected.value.path, Etoi(src).value, Etoi(dst).value)
  {
    var s, d := Etoi(src).value, Etoi(dst).value;
    var paths := FindPaths(g, s, d);
    ChooseFirstCheapest(g, stats, paths, src, dst, inSwitch);
    FindPathsExact(g, s, d, NewFlow(g, stats, src, dst, inSwitch).selected.value.path);
  }

  /**
   * Finding: with exactly one candidate path, the code as written divides
   * by zero before installing anything; the corrected handler installs it.
   */
  lemma SinglePathInstalled(g: Graph, stats: map<PortKey, real>, paths: seq<seq<Node>>, src: string, dst: string, inSwitch: Node)
    requires |paths| == 1 && BothWays(g, paths[0])
    ensures ChooseAsWritten(g, stats, paths, src, dst, inSwitch) == Raised(ZeroDivisionError)
    ensures FlowPlan(g, paths[0], src, dst, inSwitch).Some?
    ensures Choose(g, stats, paths, src, dst, inSwitch) ==
              Handled(FlowPlan(g, paths[0], src, dst, inSwitch).value,
                      Some(Selected(0, paths[0], PathCost(g, stats, paths[0]).value, None)))
  {
    ChooseNoKeyError(g, stats, paths, src, dst, inSwitch);
    PathCostsAt(g, stats, paths);
  }

  /**
   * Finding, concretely: a packet between two MACs that name the same node
   * always has the one-node path, and so divides by zero.
   */
  lemma PacketToOwnNodeAsWritten(g: Graph, stats: map<PortKey, real>, src: string, dst: string, inSwitch: Node)
    requires Etoi(src).Some? && Etoi(dst) == Etoi(src)
    ensures NewFlowAsWritten(g, stats, src, dst, inSwitch) == Raised(ZeroDivisionError)
    ensures NewFlow(g, stats, src, dst, inSwitch) ==
              Handled([], Some(Selected(0, [Etoi(src).value], 0.0, None)))
  {
    var s := Etoi(src).value;
    FindPathsToSelf(g, s);
    assert LinksFromPath(g, [s]) == Some([]);
    assert PathCosts(g, stats, [[s]]) == Some([0.0]) by {
      assert [[s]][..0] == [];
      assert [] + [0.0] == [0.0];
    }
  }

  /**
   * Finding, concretely: host 1's MAC and the multicast MAC
   * `33:33:00:00:00:01` name the same node, so a packet between them
   * divides by zero as written.
   */
  lemma MulticastToHostOneAsWritten(g: Graph, stats: map<PortKey, real>, inSwitch: Node)
    ensures NewFlowAsWritten(g, stats, SeedHosts()["10.0.0.1"], "33:33:00:00:00:01", inSwitch) == Raised(ZeroDivisionError)
  {
    SeedHostNodes();
    assert "33:33:00:00:00:01" == "33:33:00:00:00" + [':', '0', '1'];
    HostNode("33:33:00:00:00", '1');
    PacketToOwnNodeAsWritten(g, stats, SeedHosts()["10.0.0.1"], "33:33:00:00:00:01", inSwitch);
  }

  /**
   * Finding: with no candidate path, the code as written indexes an empty
   * list; the corrected handler drops the packet and installs nothing.
   */
  lemma NoPathAsWritten(g: Graph, stats: map<PortKey, real>, src: string, dst: string, inSwitch: Node)
    requires Etoi(src).Some? && Etoi(dst).Some?
    requires !Reachable(g, Etoi(src).value, Etoi(dst).value)
    ensures NewFlowAsWritten(g, stats, src, dst, inSwitch) == Raised(IndexError)
    ensures NewFlow(g, stats, src, dst, inSwitch) == Handled([], None)
  {
    FindPathsEmptyIffUnreachable(g, Etoi(src).value, Etoi(dst).value);
  }

  /**
   * Finding, concretely: before any switch link has been discovered, the
   * first packet from host 1 to host 2 finds no path and, as written,
   * raises IndexError.
   */
  lemma FirstPacketBeforeDiscovery(stats: map<PortKey, real>, inSwitch: Node)
    ensures NewFlowAsWritten(SeedGraph(), stats, SeedHosts()["10.0.0.1"], SeedHosts()["10.0.0.2"], inSwitch) == Raised(IndexError)
  {
    SeedHostNodes();
    SeedHostsApart();
    NoPathAsWritten(SeedGraph(), stats, SeedHosts()["10.0.0.1"], SeedHosts()["10.0.0.2"], inSwitch);
  }

  /** Before discovery, the side of host 1 (nodes 1 and 3) has no edge out of it, so host 2 is out of reach. */
  lemma SeedHostsApart()
    ensures !Reachable(SeedGraph(), 1, 2)
  {
    var side: set<Node> := {1, 3};
    SeedSideClosed(side);
    if Reachable(SeedGraph(), 1, 2) {
      var t :| |t| >= 1 && t[0] == 1 && t[|t| - 1] == 2 && IsWalk(SeedGraph(), t);
      WalkStaysIn(SeedGraph(), t, side, |t| - 1);
    }
  }

  /** No edge of `g` leads out of `side`. */
  ghost predicate NoEdgeLeaves(g: Graph, side: set<Node>)
  {
    forall a, b :: (a, b) in Keys(g) && a in side ==> b in side
  }

  lemma SeedSideClosed(side: set<Node>)
    requires side == {1, 3}
    ensures NoEdgeLeaves(SeedGraph(), side)
  {
    var ks := Keys(SeedGraph());
    forall a, b | (a, b) in ks && a in side ensures b in side {
      var i :| 0 <= i < |ks| && ks[i] == (a, b);
      assert i == 0 || i == 1;
    }
  }

  /** A walk that starts inside a set of nodes no edge leaves never leaves it. */
  lemma {:induction false} WalkStaysIn(g: Graph, t: seq<Node>, side: set<Node>, k: nat)
    requires IsWalk(g, t) && k < |t| && t[0] in side && NoEdgeLeaves(g, side)
    ensures t[k] in side
  {
    if k > 0 {
      WalkStaysIn(g, t, side, k - 1);
      assert (t[k - 1], t[k]) in Keys(g);
    }
  }

  /** The controller component and its handlers. */
  class Component {
    var e: Graph
    var ipToMac: map<string, string>
    var utilization: map<PortKey, int>
    var portStats: map<PortKey, real>

    /**
     * `e` is a dictionary (no key twice) whose every edge has its reverse,
     * and a rate is only ever recorded for a port that has a counter.
     */
    ghost predicate Valid()
      reads this
    {
      UniqueKeys(e) && Symmetric(e) && portStats.Keys <= utilization.Keys
    }

    /** `__init__`: the host-facing links and the ARP table are hard-coded; no counters yet. */
    constructor ()
      ensures Valid()
      ensures e == SeedGraph() && ipToMac == SeedHosts()
      ensures utilization == map[] && portStats == map[]
    {
      var g := SeedGraph();
      SeedGraphValid();
      assert UniqueKeys(g) && Symmetric(g);
      e := g;
      ipToMac := SeedHosts();
      utilization := map[];
      portStats := map[];
    }

    /**
     * `_handle_LinkEvent`: both directions of the link go into `e` (an
     * existing key keeps its place) and both ends get a zero counter.
     */
    method LinkEvent(d1: Node, p1: int, d2: Node, p2: int)
      requires Valid()
      modifies this
      ensures Valid()
      ensures e == WithLink(old(e), d1, p1, d2, p2)
      ensures Lookup(e, d2, d1) == Some(p2)
      ensures Lookup(e, d1, d2) == Some(if d1 == d2 then p2 else p1)
      ensures forall a, b :: (a, b) != (d1, d2) && (a, b) != (d2, d1) ==> Lookup(e, a, b) == Lookup(old(e), a, b)
      ensures utilization == old(utilization)[(d1, p1) := 0][(d2, p2) := 0]
      ensures portStats == old(portStats) && ipToMac == old(ipToMac)
    {
      WithLinkSymmetric(e, d1, p1, d2, p2);
      forall a, b ensures Lookup(WithLink(e, d1, p1, d2, p2), a, b) ==
                            if (a, b) == (d2, d1) then Some(p2)
                            else if (a, b) == (d1, d2) then Some(p1)
                            else Lookup(e, a, b) {
        WithLinkLookup(e, d1, p1, d2, p2, a, b);
      }
      WithLinkLookup(e, d1, p1, d2, p2, d1, d2);
      e := Put(e, d1, d2, p1);
      e := Put(e, d2, d1, p2);
      utilization := utilization[(d1, p1) := 0];
      utilization := utilization[(d2, p2) := 0];
    }

    /**
     * `_handle_PortStatsReceived`: every entry of the reply, in order, is
     * sampled as `Sample` says; the graph and the ARP table are untouched.
     */
    method PortStatsReceived(dpid: Node, stats: seq<PortStat>)
      requires Valid()
      modifies this
      ensures Valid()
      ensures Tables(utilization, portStats) == SampleAll(Tables(old(utilization), old(portStats)), dpid, stats)
      ensures e == old(e) && ipToMac == old(ipToMac)
    {
      ghost var t0 := Tables(utilization, portStats);
      for k := 0 to |stats|
        invariant Tables(utilization, portStats) == SampleAll(t0, dpid, stats[..k])
        invariant e == old(e) && ipToMac == old(ipToMac)
      {
        var stat := stats[k];
        assert stats[..k + 1][..k] == stats[..k];
        if stat.portNo == LocalPort {
          continue;
        }
        if (dpid, stat.portNo) !in utilization {
          continue;
        }
        var newUtilization := (stat.txBytes - utilization[(dpid, stat.portNo)]) as real / Interval as real;
        utilization := utilization[(dpid, stat.portNo) := stat.txBytes];
        portStats := portStats[(dpid, stat.portNo) := newUtilization];
      }
      assert stats[..|stats|] == stats;
      SampleAllKeepsRatesTracked(t0, dpid, stats);
    }

    /**
     * `_handle_PacketIn`, with the corrected selection. In a valid state only an ARP request for an
     * address missing from the ARP table raises KeyError.
     */
    method PacketIn(ev: PacketInEvent) returns (o: Outcome)
      ensures o == HandlePacketIn(e, ipToMac, portStats, ev)
      ensures Valid() && o == Raised(KeyError) ==> ev.packet.payload.Arp? && ev.packet.payload.protoDst !in ipToMac
    {
      var packet := ev.packet;
      match packet.payload {
        case Arp(isRequest, protoSrc, protoDst) =>
          if !isRequest {
            return Handled([], None);
          }
          if protoDst !in ipToMac {
            return Raised(KeyError);
          }
          var ethSrc := ipToMac[protoDst];
          o := Handled([ArpReply(ev.dpid, ev.port, ethSrc, packet.src, protoDst, protoSrc)], None);
        case Other =>
          o := NewFlowFor(packet.src, packet.dst, ev.dpid);
          if Valid() {
            NewFlowNoKeyError(e, portStats, packet.src, packet.dst, ev.dpid);
          }
      }
    }

    /** The non-ARP branch of `_handle_PacketIn`, with the corrected selection. */
    method NewFlowFor(src: string, dst: string, inSwitch: Node) returns (o: Outcome)
      ensures o == NewFlow(e, portStats, src, dst, inSwitch)
    {
      var s := Etoi(src);
      var d := Etoi(dst);
      if s.None? || d.None? {
        return Raised(ValueError);
      }
      var possiblePaths := FindPaths(e, s.value, d.value);
      o := SelectPath(possiblePaths, src, dst, inSwitch);
    }

    /**
     * The selection loop run step by step over the candidates, then the
     * flow installation along the optimum path, with the corrected
     * selection: no candidate drops the packet, one is installed with no mean.
     */
    method SelectPath(possiblePaths: seq<seq<Node>>, src: string, dst: string, inSwitch: Node) returns (o: Outcome)
      ensures o == Choose(e, portStats, possiblePaths, src, dst, inSwitch)
    {
      var scan := ScanPaths(e, portStats, possiblePaths);
      if scan.KeyErrorRaised? {
        return Raised(KeyError);
      }
      if |possiblePaths| == 0 {
        return Handled([], None);
      }
      ghost var costs := PathCosts(e, portStats, possiblePaths).value;
      assert |costs| == |possiblePaths|;
      var optimumPath := possiblePaths[scan.index];
      var minUtil := scan.minCost.value;
      var avgPathUtil := None;
      if |possiblePaths| >= 2 {
        avgPathUtil := Some(AverageOfOthers(scan.total, minUtil, |possiblePaths|));
      }
      assert avgPathUtil == MeanOfOthers(costs, scan.index);
      var plan := FlowPlan(e, optimumPath, src, dst, inSwitch);
      if plan.None? {
        return Raised(KeyError);
      }
      o := Handled(plan.value, Some(Selected(scan.index, optimumPath, minUtil, avgPathUtil)));
    }
  }
}
