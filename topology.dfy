/**
 * The topology graph store: the controller's dictionary `e` that maps a
 * directed pair of nodes (from, to) to the egress port of `from` towards `to`.
 *
 * A Python dict remembers insertion order, and that order decides which of
 * several equally loaded paths is chosen, so the graph is kept as a sequence
 * of entries with pairwise distinct keys rather than as a `map`.
 */
module Topology {
  import opened Wrappers

  /** A node identifier: a switch datapath id or the last byte of a host MAC. */
  type Node = int

  datatype Edge = Edge(src: Node, dst: Node, port: int)
  {
    function Key(): (Node, Node) { (src, dst) }
  }

  type Graph = seq<Edge>

  /** The keys of the dictionary, in insertion order. */
  function Keys(g: Graph): (ks: seq<(Node, Node)>)
    ensures |ks| == |g|
    ensures forall i :: 0 <= i < |g| ==> ks[i] == g[i].Key()
  {
    if g == [] then [] else [g[0].Key()] + Keys(g[1..])
  }

  /** A dictionary never holds the same key twice. */
  ghost predicate UniqueKeys(g: Graph)
  {
    forall i, j :: 0 <= i < j < |g| ==> g[i].Key() != g[j].Key()
  }

  /** Every directed edge has its reverse edge. */
  ghost predicate Symmetric(g: Graph)
  {
    forall a, b :: (a, b) in Keys(g) ==> (b, a) in Keys(g)
  }

  /** Every node an edge leads to. */
  ghost function Targets(g: Graph): set<Node>
  {
    set i | 0 <= i < |g| :: g[i].dst
  }

  /** `g[(a, b)]`, or None where Python raises KeyError. */
  function Lookup(g: Graph, a: Node, b: Node): (r: Option<int>)
    ensures r.Some? <==> (a, b) in Keys(g)
  {
    if g == [] then None
    else if g[0].Key() == (a, b) then Some(g[0].port)
    else
      assert Keys(g) == [g[0].Key()] + Keys(g[1..]);
      Lookup(g[1..], a, b)
  }

  /** `g[(a, b)] = port`: overwrites an existing key where it stands, else appends. */
  function Put(g: Graph, a: Node, b: Node, port: int): (r: Graph)
    ensures Keys(r) == if (a, b) in Keys(g) then Keys(g) else Keys(g) + [(a, b)]
    ensures forall i :: 0 <= i < |g| && g[i].Key() != (a, b) ==> r[i] == g[i]
  {
    if g == [] then [Edge(a, b, port)]
    else if g[0].Key() == (a, b) then [Edge(a, b, port)] + g[1..]
    else
      assert Keys(g) == [g[0].Key()] + Keys(g[1..]);
      [g[0]] + Put(g[1..], a, b, port)
  }

  /** `get_neighbors(g, v)`: the successors of `v`, in key order. */
  function Neighbors(g: Graph, v: Node): (ws: seq<Node>)
    ensures forall w :: w in ws ==> w in Targets(g)
  {
    if g == [] then []
    else
      assert forall w :: w in Targets(g[1..]) ==> w in Targets(g) by {
        forall w | w in Targets(g[1..]) ensures w in Targets(g) {
          var i :| 0 <= i < |g[1..]| && g[1..][i].dst == w;
          assert g[i + 1].dst == w;
        }
      }
      (if g[0].src == v then [g[0].dst] else []) + Neighbors(g[1..], v)
  }

  /** The dictionary the controller starts with: the two host-facing links. */
  function SeedGraph(): (g: Graph)
    ensures Keys(g) == [(1, 3), (3, 1), (2, 6), (6, 2)]
  {
    var g := [Edge(1, 3, 0), Edge(3, 1, 1), Edge(2, 6, 0), Edge(6, 2, 3)];
    assert Keys(g) == [(1, 3), (3, 1), (2, 6), (6, 2)];
    g
  }

  /** The starting dictionary holds no key twice and pairs every edge with its reverse. */
  lemma SeedGraphValid()
    ensures UniqueKeys(SeedGraph()) && Symmetric(SeedGraph())
  {
    var g := SeedGraph();
    forall i, j | 0 <= i < j < |g| ensures g[i].Key() != g[j].Key() {
      assert Keys(g)[i] == g[i].Key() && Keys(g)[j] == g[j].Key();
    }
  }

  /**
   * The starting dictionary maps host 1 to switch 3 through port 0 and back
   * through port 1, and host 2 to switch 6 through port 0 and back through port 3.
   */
  lemma SeedGraphPorts()
    ensures Lookup(SeedGraph(), 1, 3) == Some(0) && Lookup(SeedGraph(), 3, 1) == Some(1)
    ensures Lookup(SeedGraph(), 2, 6) == Some(0) && Lookup(SeedGraph(), 6, 2) == Some(3)
  {
  }

  /** A successor of `v` is exactly the far end of a key starting at `v`. */
  lemma {:induction false} NeighborsAreKeys(g: Graph, v: Node, w: Node)
    ensures w in Neighbors(g, v) <==> (v, w) in Keys(g)
  {
    if g != [] {
      assert Keys(g) == [g[0].Key()] + Keys(g[1..]);
      NeighborsAreKeys(g[1..], v, w);
    }
  }

  /** With unique keys, no successor is listed twice. */
  lemma {:induction false} NeighborsDistinct(g: Graph, v: Node)
    requires UniqueKeys(g)
    ensures forall i, j :: 0 <= i < j < |Neighbors(g, v)| ==> Neighbors(g, v)[i] != Neighbors(g, v)[j]
  {
    if g != [] {
      NeighborsDistinct(g[1..], v);
      if g[0].src == v {
        NeighborsAreKeys(g[1..], v, g[0].dst);
      }
    }
  }

  /** Writing a key keeps the keys unique. */
  lemma PutKeepsUniqueKeys(g: Graph, a: Node, b: Node, port: int)
    requires UniqueKeys(g)
    ensures UniqueKeys(Put(g, a, b, port))
  {
    var r := Put(g, a, b, port);
    forall i, j | 0 <= i < j < |r| ensures r[i].Key() != r[j].Key() {
      assert Keys(r)[i] == r[i].Key() && Keys(r)[j] == r[j].Key();
      if j < |g| {
        assert Keys(g)[i] == g[i].Key() && Keys(g)[j] == g[j].Key();
      } else {
        assert (a, b) !in Keys(g);
        assert Keys(g)[i] == g[i].Key();
      }
    }
  }

  /** After writing (a, b) the lookup finds the new port; every other key keeps its port. */
  lemma {:induction false} LookupPut(g: Graph, a: Node, b: Node, port: int, c: Node, d: Node)
    requires UniqueKeys(g)
    ensures Lookup(Put(g, a, b, port), c, d) == if (c, d) == (a, b) then Some(port) else Lookup(g, c, d)
  {
    if g != [] && g[0].Key() != (a, b) {
      assert UniqueKeys(g[1..]);
      LookupPut(g[1..], a, b, port, c, d);
    }
    else if g != [] && (c, d) != (a, b) {
      assert UniqueKeys(g[1..]);
      assert Lookup([Edge(a, b, port)] + g[1..], c, d) == Lookup(g[1..], c, d);
    }
  }
}
