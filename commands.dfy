/**
 * The OpenFlow messages the controller sends: a flow rule, a packet-out of
 * the triggering packet, and a packet-out carrying an ARP reply.
 */
module Commands {
  import opened Topology

  datatype Command =
    | FlowMod(switch: Node, matchSrc: string, matchDst: string, idleTimeout: int, hardTimeout: int, outPort: int)
    | PacketOut(switch: Node, outPort: int)
    | ArpReply(switch: Node, inPort: int, ethSrc: string, ethDst: string, protoSrc: string, protoDst: string)
}
