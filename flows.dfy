/**
 * The flow-installation plan of `_handle_PacketIn`: for every interior hop
 * `i` of the chosen path (1 <= i <= |path| - 2) one flow rule at switch
 * `path[i]` matching (source MAC, destination MAC), idle timeout 3, hard
 * timeout 6, output to the port towards `path[i + 1]`; and right after the
 * first rule, the triggering packet is sent out of that same port by the
 * switch it came from. The sends themselves are not modelled; the plan is
 * the sequence of commands, in send order.
 */
module FlowInstall {
  import opened Wrappers
  import opened Topology
  import opened Commands

  const IdleTimeout: int := 3
  const HardTimeout: int := 6

  /** Every interior hop has its forward edge. */
  ghost predicate InteriorEdges(g: Graph, path: seq<Node>)
  {
    forall i :: 1 <= i < |path| - 1 ==> HopKnown(g, path, i)
  }

  /** Hop `i` of `path` is an edge of `g`. */
  ghost predicate HopKnown(g: Graph, path: seq<Node>, i: int)
  {
    0 <= i < |path| - 1 && (path[i], path[i + 1]) in Keys(g)
  }

  /**
   * The sends of turns `i`, `i + 1`, ..., `|path| - 2` of the install loop;
   * None where `e[(path[k], path[k + 1])]` raises KeyError.
   */
  function PlanFrom(g: Graph, path: seq<Node>, i: nat, src: string, dst: string, inSwitch: Node): Option<seq<Command>>
    requires 1 <= i
    decreases |path| - i
  {
    if i >= |path| - 1 then Some([])
    else
      match Lookup(g, path[i], path[i + 1])
      case None => None
      case Some(outPort) =>
        var rule := FlowMod(path[i], src, dst, IdleTimeout, HardTimeout, outPort);
        var hop := if i == 1 then [rule, PacketOut(inSwitch, outPort)] else [rule];
        var rest := PlanFrom(g, path, i + 1, src, dst, inSwitch);
        if rest.None? then None else Some(hop + rest.value)
  }

  /** All the sends for a chosen path, for a packet from `src` to `dst` that arrived at `inSwitch`. */
  function FlowPlan(g: Graph, path: seq<Node>, src: string, dst: string, inSwitch: Node): Option<seq<Command>>
  {
    PlanFrom(g, path, 1, src, dst, inSwitch)
  }

  /**
   * `c` is the rule of turn `i`: at switch `path[i]`, matching (src, dst),
   * idle timeout 3, hard timeout 6, output on `e[(path[i], path[i + 1])]`.
   */
  ghost predicate RuleAt(g: Graph, path: seq<Node>, i: int, src: string, dst: string, c: Command)
  {
    0 <= i < |path| - 1 && c.FlowMod? &&
    c == FlowMod(path[i], src, dst, IdleTimeout, HardTimeout, c.outPort) &&
    Lookup(g, path[i], path[i + 1]) == Some(c.outPort)
  }

  /** The install loop from turn `i` on gets through exactly when every remaining hop is in `e`. */
  lemma {:induction false} PlanFromDefined(g: Graph, path: seq<Node>, i: nat, src: string, dst: string, inSwitch: Node)
    requires 1 <= i
    ensures PlanFrom(g, path, i, src, dst, inSwitch).Some? <==> forall k :: i <= k < |path| - 1 ==> HopKnown(g, path, k)
    decreases |path| - i
  {
    if i < |path| - 1 {
      PlanFromDefined(g, path, i + 1, src, dst, inSwitch);
      if !HopKnown(g, path, i) {
        assert Lookup(g, path[i], path[i + 1]).None?;
      }
    }
  }

  /** Installing a path raises KeyError exactly when one of its interior hops is missing from `e`. */
  lemma FlowPlanDefined(g: Graph, path: seq<Node>, src: string, dst: string, inSwitch: Node)
    ensures FlowPlan(g, path, src, dst, inSwitch).Some? <==> InteriorEdges(g, path)
  {
    PlanFromDefined(g, path, 1, src, dst, inSwitch);
  }

  /** From turn 2 on, each turn sends exactly its rule. */
  lemma {:induction false} PlanFromLater(g: Graph, path: seq<Node>, i: nat, src: string, dst: string, inSwitch: Node)
    requires 2 <= i && InteriorEdges(g, path)
    ensures PlanFrom(g, path, i, src, dst, inSwitch).Some?
    ensures var rs := PlanFrom(g, path, i, src, dst, inSwitch).value;
            |rs| == (if i < |path| - 1 then |path| - 1 - i else 0) &&
            forall k :: 0 <= k < |rs| ==> RuleAt(g, path, i + k, src, dst, rs[k])
    decreases |path| - i
  {
    if i < |path| - 1 {
      PlanFromLater(g, path, i + 1, src, dst, inSwitch);
      assert HopKnown(g, path, i);
      PlanFromTurn(g, path, i, src, dst, inSwitch);
      var rs := PlanFrom(g, path, i, src, dst, inSwitch).value;
      var rest := PlanFrom(g, path, i + 1, src, dst, inSwitch).value;
      forall k | 0 <= k < |rs| ensures RuleAt(g, path, i + k, src, dst, rs[k]) {
        if k > 0 {
          assert rs[k] == rest[k - 1];
          assert RuleAt(g, path, i + 1 + (k - 1), src, dst, rest[k - 1]);
        }
      }
    }
  }

  /** Turn `i >= 2` sends its rule, then the later turns follow. */
  lemma PlanFromTurn(g: Graph, path: seq<Node>, i: nat, src: string, dst: string, inSwitch: Node)
    requires 2 <= i < |path| - 1 && HopKnown(g, path, i) && PlanFrom(g, path, i + 1, src, dst, inSwitch).Some?
    ensures PlanFrom(g, path, i, src, dst, inSwitch).Some?
    ensures var rs := PlanFrom(g, path, i, src, dst, inSwitch).value;
            var rest := PlanFrom(g, path, i + 1, src, dst, inSwitch).value;
            |rs| == 1 + |rest| && RuleAt(g, path, i, src, dst, rs[0]) && rs[1..] == rest
  {
  }

  /**
   * The plan for a path of `n` nodes whose interior hops are all in `e`:
   * nothing when `n < 3`; otherwise `n - 1` sends: the rule of turn 1 (at
   * `path[1]`), then the triggering packet sent by the switch it came from
   * out of that rule's port (towards `path[2]`), then the rules of turns 2,
   * ..., `n - 2`.
   */
  lemma FlowPlanShape(g: Graph, path: seq<Node>, src: string, dst: string, inSwitch: Node)
    requires InteriorEdges(g, path)
    ensures FlowPlan(g, path, src, dst, inSwitch).Some?
    ensures var plan := FlowPlan(g, path, src, dst, inSwitch).value;
            (|path| < 3 ==> plan == []) &&
            (|path| >= 3 ==>
               |plan| == |path| - 1 &&
               RuleAt(g, path, 1, src, dst, plan[0]) &&
               plan[1] == PacketOut(inSwitch, plan[0].outPort) &&
               forall k :: 2 <= k < |path| - 1 ==> RuleAt(g, path, k, src, dst, plan[k]))
  {
    if |path| >= 3 {
      PlanFromLater(g, path, 2, src, dst, inSwitch);
      var rest := PlanFrom(g, path, 2, src, dst, inSwitch).value;
      var plan := FlowPlanFirstTurn(g, path, src, dst, inSwitch);
      assert plan[0].outPort == plan[1].outPort;
      forall k | 2 <= k < |path| - 1 ensures RuleAt(g, path, k, src, dst, plan[k]) {
        assert plan[k] == rest[k - 2];
        assert RuleAt(g, path, 2 + (k - 2), src, dst, rest[k - 2]);
      }
    }
  }

  /** Turn 1 sends its rule and the triggering packet, then turns 2 on follow. */
  lemma FlowPlanFirstTurn(g: Graph, path: seq<Node>, src: string, dst: string, inSwitch: Node) returns (plan: seq<Command>)
    requires |path| >= 3 && HopKnown(g, path, 1) && PlanFrom(g, path, 2, src, dst, inSwitch).Some?
    ensures FlowPlan(g, path, src, dst, inSwitch) == Some(plan)
    ensures |plan| == 2 + |PlanFrom(g, path, 2, src, dst, inSwitch).value|
    ensures RuleAt(g, path, 1, src, dst, plan[0]) && plan[1] == PacketOut(inSwitch, plan[0].outPort)
    ensures plan[2..] == PlanFrom(g, path, 2, src, dst, inSwitch).value
  {
    var port := Lookup(g, path[1], path[2]).value;
    plan := [FlowMod(path[1], src, dst, IdleTimeout, HardTimeout, port), PacketOut(inSwitch, port)] + PlanFrom(g, path, 2, src, dst, inSwitch).value;
  }
}
