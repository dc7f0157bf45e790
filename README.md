# Load-aware path selection for an OpenFlow controller

This project models the decision core of a POX controller component
(`dynamic_controller.py`). The component keeps a topology dictionary `e`
that maps a directed pair of nodes to an egress port. It keeps a cumulative
tx-byte counter per (switch, port) in `utilization` and the rate derived
from two successive counters in `port_stats`. It handles three kinds of
event:

- **Link discovery** adds both directions of a link to `e` and gives both
  ends a zero counter.
- **Port statistics** replies turn counters into rates over the interval
  DT = 5. The local port 65534 is skipped, and so are ports without a
  counter.
- **Packet-in** has two branches. An ARP request is answered from a
  hard-coded IP-to-MAC table; any other ARP packet is ignored. Every
  non-ARP packet is routed:
  - the source and destination nodes are read off the last byte of the
    MACs;
  - every simple path between them is enumerated by depth-first search;
  - each path costs the sum of the rates at both ends of each hop;
  - the first cheapest path wins, and the mean cost of the other paths is
    reported;
  - a flow rule (idle timeout 3, hard timeout 6) is installed at every
    interior switch of the path;
  - the triggering packet is sent on after the first rule.

The modules follow the program's structure:

| file | module | models |
|---|---|---|
| `topology.dfy` | `Topology` | the dictionary `e` as an insertion-ordered sequence of entries with unique keys; `get_neighbors`; the seed graph |
| `paths.dfy` | `Paths` | `find_paths`; it is proved to list exactly the simple paths, each once |
| `mac.dfy` | `Mac` | `etoi` and the hex parsing inside it |
| `utilization.dfy` | `Utilization` | `links_from_path`, `path_utilization`, and one port-statistics reply |
| `selection.dfy` | `Selection` | the cost of each candidate and the selection loop (as a method with invariants); the mean of the others |
| `commands.dfy` | `Commands` | the OpenFlow messages sent: flow rule, packet-out, ARP reply |
| `flows.dfy` | `FlowInstall` | the flow-installation loop as the sequence of commands it sends |
| `controller.dfy` | `Controller` | the handlers; the `Component` class with its four tables; the as-written and corrected packet-in branch |

A handler's sends are modelled as a sequence of `Command` values. A Python
exception that escapes a handler is modelled as the `Raised` outcome. The
dictionary `e` is kept as a sequence because its key order decides which of
two equally loaded paths is chosen.

## Model

| member | source | states |
|---|---|---|
| Topology.Neighbors | dynamic_controller.py:20-25 | `get_neighbors(g, v)`: the far ends of the keys starting at `v`, in key order; every one is a target of some edge (exact characterisation in NeighborsAreKeys) |
| Paths.FindPaths | dynamic_controller.py:31-42 | definition: `find_paths(g, s, e)` with the empty starting path; its meaning is proved in FindPathsExact, FindPathsEmptyIffUnreachable and FindPathsDistinct |
| Paths.FindPathsFrom | dynamic_controller.py:31-42 | definition: one call of `find_paths` with `path` already visited; returns `[path + [s]]` at the goal, else explores the neighbours |
| Paths.Explore | dynamic_controller.py:36-42 | definition: the loop over the neighbours, skipping visited ones and concatenating the paths found through each, in neighbour order |
| Mac.Etoi | dynamic_controller.py:71-76 | definition: the last ':'-segment parsed as hex, None where `int` raises ValueError; proved to give a MAC's last byte in EtoiOfMacText |
| Utilization.PathUtilization | dynamic_controller.py:58-64 | definition: the rates at both ends of every link added in order, a missing rate counting 0; properties in PathUtilizationAppend/Single/Unmeasured |
| Utilization.Sample | dynamic_controller.py:117-125 | definition: one turn of the statistics loop; properties in SuccessiveSamples and the SampleAll lemmas |
| Utilization.SampleAll | dynamic_controller.py:116-125 | definition: the statistics loop over a whole reply, in order; properties in SampleAllFrame, SampleAllUnreported, SampleAllReportedOnce, SampleAllKeepsRatesTracked |
| Selection.PathCost | dynamic_controller.py:166-167 | definition: a candidate's cost, None where `links_from_path` raises KeyError |
| Selection.PathCosts | dynamic_controller.py:165-168 | one cost per candidate when every candidate is costed; when and what exactly in PathCostsDefined and PathCostsAt |
| FlowInstall.PlanFrom | dynamic_controller.py:181-201 | definition: the sends of the install loop from turn `i` on, None at the first missing key; properties in PlanFromDefined and PlanFromLater |
| FlowInstall.FlowPlan | dynamic_controller.py:181-201 | definition: the whole install loop; properties in FlowPlanDefined and FlowPlanShape |
| Controller.WithLink | dynamic_controller.py:213-214 | definition: the two writes of a link event; properties in WithLinkLookup and WithLinkSymmetric |
| Controller.ChooseAsWritten | dynamic_controller.py:162-201 | definition, as written: KeyError from costing or installing, IndexError with no candidate, ZeroDivisionError with one; related to the corrected selection by ChooseCorrectionOnlyAtCrashes |
| Controller.NewFlowAsWritten | dynamic_controller.py:156-201 | definition, as written: ValueError from `etoi`, then the as-written selection |
| Controller.Choose | dynamic_controller.py:162-201 | definition, corrected: no candidate drops the packet, one candidate is installed with no mean; properties in ChooseFirstCheapest, ChooseReportsMeanOfOthers, ChooseDropsIffNoCandidate |
| Controller.NewFlow | dynamic_controller.py:156-201 | definition, corrected: ValueError from `etoi`, then the corrected selection; properties in NewFlowNoKeyError, NewFlowDrops, NewFlowPathIsSimple |
| Controller.HandlePacketIn | dynamic_controller.py:130-201 | definition: the ARP branch as written (reply from the table, KeyError for an unknown address, other ARP ignored), the non-ARP branch corrected |
| Topology.Lookup | dynamic_controller.py:51 | `e[(a, b)]` yields a port exactly when `(a, b)` is a key of `e`; otherwise it raises KeyError (None) |
| Topology.Put | dynamic_controller.py:213-214 | assigning a key keeps the key order, overwrites an existing key where it stands, appends a new one at the end, and leaves every other entry as it was |
| Topology.NeighborsAreKeys | dynamic_controller.py:20-25 | `w` is among the neighbours of `v` exactly when `(v, w)` is a key of `e` |
| Topology.NeighborsDistinct | dynamic_controller.py:20-25 | with unique keys, no neighbour is listed twice |
| Topology.PutKeepsUniqueKeys | dynamic_controller.py:213-214 | assigning a key never creates a duplicate key |
| Topology.LookupPut | dynamic_controller.py:213-214 | after `e[(a, b)] = port`, looking up `(a, b)` gives `port` and every other key gives what it gave before |
| Topology.SeedGraph | dynamic_controller.py:81-86 | the starting dictionary has the keys (1,3), (3,1), (2,6), (6,2) in that order |
| Topology.SeedGraphValid | dynamic_controller.py:81-86 | the starting dictionary has no duplicate key, and every edge in it has its reverse |
| Topology.SeedGraphPorts | dynamic_controller.py:81-86 | the starting ports are 1→3 on port 0, 3→1 on port 1, 2→6 on port 0 and 6→2 on port 3 |
| Paths.FindPathsExact | dynamic_controller.py:31-42 | a sequence is in `find_paths(g, s, e)` exactly when it is a loop-free path of `g` from `s` to `e` (sound and complete) |
| Paths.FindPathsToSelf | dynamic_controller.py:32-34 | from a node to itself the only path is the one-node path |
| Paths.FindPathsEmptyIffUnreachable | dynamic_controller.py:31-42 | the result is empty exactly when no walk leads from `s` to `e` |
| Paths.FindPathsDistinct | dynamic_controller.py:31-42 | with unique keys, no path is listed twice |
| Mac.LastSegment | dynamic_controller.py:72-74 | the last segment is a suffix with no ':' in it, and it is preceded by ':' unless it is the whole string |
| Mac.ParseHex | dynamic_controller.py:75 | a run of `n` hex digits parses to a value below 16^n |
| Mac.ParseHexDefined | dynamic_controller.py:75 | the model's hex parser (plain digits only, see Left out) succeeds exactly on a non-empty run of hex digits |
| Mac.ParseToHex | dynamic_controller.py:75 | parsing a number written in lower-case hex, at any width, gives the number back |
| Mac.LastSegmentAfterColon | dynamic_controller.py:73-74 | whatever comes before the last ':' does not affect the segment taken |
| Mac.EtoiOfMacText | dynamic_controller.py:71-76 | `etoi` of a MAC address in its text form is the address's last byte |
| Mac.EtoiTwoDigitBound | dynamic_controller.py:71-76 | a two-digit last segment names a node in 0..255 |
| Utilization.LinksFromPath | dynamic_controller.py:48-53 | `links_from_path` gets through exactly when both directions of every hop are keys of `e`; it then yields one link per hop |
| Utilization.LinksFromPathAt | dynamic_controller.py:48-53 | link `i` joins `path[i]` and `path[i+1]`, and carries the egress port of each end towards the other |
| Utilization.PathUtilizationAppend | dynamic_controller.py:58-64 | the cost of a path is additive over concatenated lists of links |
| Utilization.PathUtilizationSingle | dynamic_controller.py:60-63 | one link costs the rates of its two ends; an end with no recorded rate counts as 0 |
| Utilization.PathUtilizationUnmeasured | dynamic_controller.py:58-64 | a path none of whose ports has a recorded rate costs 0 |
| Utilization.SampleAllFrame | dynamic_controller.py:116-125 | a reply never adds or removes a counter. The local port, ports of other switches and ports without a counter keep their counter and rate |
| Utilization.SampleAllKeepsRatesTracked | dynamic_controller.py:116-125 | rates are only ever recorded for ports that have a counter |
| Utilization.SampleAllUnreported | dynamic_controller.py:116-125 | a port the reply does not mention keeps its counter and its rate |
| Utilization.SampleAllReportedOnce | dynamic_controller.py:118-125 | a tracked, non-local port mentioned once gets the reported counter, and a rate equal to the counter difference over 5 |
| Utilization.SuccessiveSamples | dynamic_controller.py:122-125 | two successive samples of a port give the difference of the two counters over DT |
| Selection.FirstMin | dynamic_controller.py:162-171 | the index the loop settles on has the least cost, and every earlier candidate is strictly dearer (first-seen wins ties) |
| Selection.PathCostsAt | dynamic_controller.py:165-168 | cost `k` is the cost of candidate `k` |
| Selection.ScanPaths | dynamic_controller.py:162-171 | the loop raises KeyError exactly when some candidate does. Otherwise `total_util` is the sum of all costs, and `i`/`min_util` are the first cheapest candidate and its cost (`i = 0`, `min_util` = infinity when there is no candidate) |
| Selection.PathCostsDefined | dynamic_controller.py:165-167 | costing all candidates gets through exactly when every candidate has both directions of every hop |
| Selection.PathCostsNone | dynamic_controller.py:166 | one candidate with a missing key makes the whole loop raise KeyError |
| Selection.MeanOfOthersIsMeanOfRejected | dynamic_controller.py:174-176 | with two or more candidates, `(total - min) / (n - 1)` is the mean cost of the candidates not chosen, and it is never below the chosen cost |
| Selection.SumWithout | dynamic_controller.py:176 | leaving one candidate out takes its cost off the total |
| Selection.ExampleTenFourSeven | dynamic_controller.py:162-176 | with costs 10, 4, 7 the second candidate is chosen and the others average 8.5 |
| FlowInstall.PlanFromDefined | dynamic_controller.py:181-184 | the install loop from turn `i` on gets through exactly when every remaining hop is a key of `e` |
| FlowInstall.FlowPlanDefined | dynamic_controller.py:181-184 | installing a path raises KeyError exactly when one of its interior hops is missing from `e` |
| FlowInstall.PlanFromLater | dynamic_controller.py:181-195 | from turn 2 on, each turn sends just the flow rule for its hop, with the port from `e` |
| FlowInstall.FlowPlanShape | dynamic_controller.py:181-201 | a path of fewer than 3 nodes installs nothing. Otherwise there are `n - 1` sends: the rule at `path[1]`, the packet-out from the ingress switch on that rule's port, then the rules at `path[2] .. path[n-2]`. Each rule matches (src, dst), has timeouts 3/6, and outputs on the port towards the next node |
| Controller.SeedHostNodes | dynamic_controller.py:88-91 | the ARP table holds exactly 10.0.0.1 and 10.0.0.2, whose MACs name nodes 1 and 2 |
| Controller.HostNode | dynamic_controller.py:71-76 | a MAC whose last byte is written `0d` names node `d`, whatever its other bytes |
| Controller.WithLinkLookup | dynamic_controller.py:213-214 | after a link event, `e[(d2,d1)] = p2`, `e[(d1,d2)] = p1` (for a self-loop the later write wins), every other key keeps its port, and keys stay unique |
| Controller.WithLinkSymmetric | dynamic_controller.py:206-214 | recording both directions keeps every edge paired with its reverse |
| Controller.CandidateIsLinked | dynamic_controller.py:165-184 | a candidate that got through costing has every interior hop in `e`, so installing it cannot raise KeyError |
| Controller.CandidatesLinked | dynamic_controller.py:159-166 | over a graph whose edges all have their reverse, every enumerated path has both directions of every hop |
| Controller.ChooseNoKeyError | dynamic_controller.py:162-195 | corrected selection: when every candidate has both directions of every hop, selection and installation raise nothing (as written, one or no candidate still crashes; see Findings) |
| Controller.ChooseFirstCheapest | dynamic_controller.py:162-195 | corrected selection, which agrees with the code wherever the code does not crash: the chosen path is a candidate with the least cost; every earlier candidate is dearer; what is sent is exactly its flow plan |
| Controller.ChooseReportsMeanOfOthers | dynamic_controller.py:174-176 | corrected selection: the reported figure is the mean cost of the rejected candidates and is at least the chosen cost; it is absent exactly when there is one candidate |
| Controller.ChooseDropsIffNoCandidate | dynamic_controller.py:162-201 | corrected selection: with well-linked candidates, nothing is chosen exactly when there is no candidate, and then nothing is sent |
| Controller.NewFlowNoKeyError | dynamic_controller.py:156-195 | corrected branch: while `e` pairs every edge with its reverse, a non-ARP packet never raises KeyError |
| Controller.NewFlowDrops | dynamic_controller.py:156-201 | corrected branch: over a paired graph, a packet gets no path exactly when its destination node cannot be reached from its source node, and then nothing is sent |
| Controller.NewFlowPathIsSimple | dynamic_controller.py:156-173 | corrected branch, which agrees with the code wherever the code does not crash: the path a packet is routed along is a loop-free path from its source node to its destination node |
| Controller.ChooseCorrectionOnlyAtCrashes | dynamic_controller.py:162-201 | the corrected selection gives the same outcome as the code wherever the code raises neither IndexError nor ZeroDivisionError; the code raises IndexError exactly when all candidates were costed and there are none, and ZeroDivisionError exactly when there is one |
| Controller.NewFlowCorrectionOnlyAtCrashes | dynamic_controller.py:156-201 | the corrected non-ARP branch gives the same outcome as the code on every packet where the code raises neither IndexError nor ZeroDivisionError |
| Controller.SinglePathInstalled | dynamic_controller.py:176 | as written, a single candidate raises ZeroDivisionError before anything is installed; corrected, it is installed with no mean of others |
| Controller.PacketToOwnNodeAsWritten | dynamic_controller.py:157-176 | as written, a packet whose source and destination MACs (equal or not) name the same node always raises ZeroDivisionError; corrected, the one-node path is chosen and nothing is sent |
| Controller.MulticastToHostOneAsWritten | dynamic_controller.py:157-176 | as written, a packet from host 1's MAC `00:00:00:00:00:01` to `33:33:00:00:00:01` raises ZeroDivisionError, since both name node 1 |
| Controller.NoPathAsWritten | dynamic_controller.py:173 | as written, an unreachable destination raises IndexError; corrected, the packet is dropped with nothing sent |
| Controller.FirstPacketBeforeDiscovery | dynamic_controller.py:157-173 | as written, the first packet from host 1 to host 2 before any switch link is discovered raises IndexError |
| Controller.SeedHostsApart | dynamic_controller.py:81-86 | in the starting graph, node 2 cannot be reached from node 1 |
| Controller.Component.constructor | dynamic_controller.py:79-95 | the component starts with the seed graph and ARP table, with no counters and no rates, and in a valid state |
| Controller.Component.LinkEvent | dynamic_controller.py:204-217 | both directions are written to `e` and every other key keeps its port; both ends get a zero counter; rates and the ARP table are untouched; validity is kept |
| Controller.Component.PortStatsReceived | dynamic_controller.py:116-125 | the loop applies the reply's entries in order as `SampleAll` says; `e` and the ARP table are untouched; validity is kept |
| Controller.Component.PacketIn | dynamic_controller.py:130-201 | the handler's outcome is `HandlePacketIn` (ARP branch as written, non-ARP branch corrected) on the current state; in a valid state, only an ARP request for an unknown address raises KeyError |
| Controller.Component.NewFlowFor | dynamic_controller.py:156-159 | the non-ARP branch computes the corrected `NewFlow` on the current state |
| Controller.Component.SelectPath | dynamic_controller.py:161-201 | the step-by-step selection and installation computes the corrected `Choose` on the current state |

## Left out

- The statistics timer and `send_stats_requests` (lines 93, 106-111), `_handle_ConnectionUp` and the connection list (92, 127-128), `startup`/listener registration (96-100) and `launch` (221-226) are left out. They are I/O and scheduling only; a port-statistics reply is modelled as an input to `PortStatsReceived`.
- `core.openflow.getConnection` and `connection.send` are not modelled as calls. Each send is a `Command` in the outcome, and its destination switch is a field of the command.
- The ARP reply frame is modelled by its fields. The packed bytes are left out.
- The `log.debug` call (line 178) is left out; the values it logs are in `Selected`.
- Rates and costs are exact reals, not Python floats. `math.inf` as the starting `min_util` is modelled as None.
- Python `is` on node ids (lines 23, 33) is modelled as `==`. For the small integers CPython caches (up to 256) the two agree, and a node named by a two-digit MAC byte is at most 255. Switch dpids from link events are not bounded in the model; they are assumed to compare by value, as `is` does not guarantee above 256.
- Mac.Etoi, Mac.ParseHex, Mac.ParseHexDefined: only plain hex digits are accepted. Python's `int(s, 16)` also accepts a sign, surrounding whitespace, a `0x` prefix and underscores; those inputs give None (ValueError) here.
- FlowInstall.FlowPlan: when a later hop raises KeyError, the model returns only `Raised`. The rules already sent for earlier hops are not kept in the outcome.
- Controller.Component.PacketIn: the class runs the corrected non-ARP branch (`NewFlow`), not the one as written; the two agree except where the code crashes on one or no candidate path (ChooseCorrectionOnlyAtCrashes, NewFlowCorrectionOnlyAtCrashes).
- An ARP request for an address outside the table raises KeyError, as in the code. No guarded variant is modelled.
- A port without a counter gets neither a counter nor a rate from a statistics reply (lines 120-121); only link discovery creates counters (lines 216-217).
- The component's mutable tables are class fields. The path pipeline (`find_paths`, costing, flow plan) is modelled as pure functions over them, matching the source's pure helper functions. The selection loop is a method proved against those functions.

## Findings

| source | as written | input that shows it | evidently intended | confidence | as-written member | corrected member |
|---|---|---|---|---|---|---|
| dynamic_controller.py:176 | `avg_path_util=(total_util-min_util)/(len(possible_paths)-1)` divides by zero when there is exactly one candidate path, before any flow is installed | a packet from `00:00:00:00:00:01` to `33:33:00:00:00:01` (or to itself): both MACs name node 1, so the only path is `[1]` | install the single path and report no mean of other paths | high; not executed | Controller.PacketToOwnNodeAsWritten | Controller.SinglePathInstalled |
| dynamic_controller.py:173 | `possible_paths[i]` with `i = 0` raises IndexError when no path exists | in the starting state, a packet from `00:00:00:00:00:01` to `00:00:00:00:00:02`: host 2 is unreachable from host 1 until switch links are discovered | drop the packet and install nothing | high; not executed | Controller.NoPathAsWritten | Controller.ChooseDropsIffNoCandidate |
