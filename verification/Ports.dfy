/** Point-to-point ports: interface state, and what sending through a port does to a header. */
module Ports {
  import opened Wrappers
  import opened Headers

  const CENTRAL_NODE_ID: u8 := 1
  const EDGE_NODE_ID: u8 := 2
  const BROADCAST_PORT: u8 := 255

  datatype InterfaceState = Down | Inactive | ActiveLocal(localNode: u8) | Online(netId: u16, nodeId: u8)

  datatype SendError =
    | AnyPortMissingKey | DestinationLocal | RoutingLoop | NoRouteToDest
    | InterfaceFull | PacketTooBig(limit: nat) | TtlExpired

  datatype Port = Port(state: InterfaceState, own: u8, other: u8, mtu: nat) {
    function NetId(): Option<u16> {
      if state.Online? then Some(state.netId) else None
    }

    /** `None` when the state names a reserved node id. */
    function SetState(next: InterfaceState): Option<Port> {
      match next
      case Down => Some(this.(state := next))
      case Inactive => Some(this.(state := next))
      case ActiveLocal(node) =>
        if node == 0 || node == 255 then None else Some(this.(state := next, own := node))
      case Online(_, node) =>
        if node == 0 || node == 255 then None else Some(this.(state := next, own := node))
    }

    /** State check, then source and broadcast-destination rewriting. */
    function CommonSend(hdr: Header): Result<Header, SendError> {
      if !state.Online? then Err(NoRouteToDest)
      else if hdr.dst.net == state.netId && hdr.dst.node == own then Err(DestinationLocal)
      else
        var src := if hdr.src.net != 0 then hdr.src
                   else Address(state.netId, if hdr.src.node == 0 then own else hdr.src.node, hdr.src.port);
        var dst := if hdr.dst.port == BROADCAST_PORT then Address(state.netId, other, BROADCAST_PORT)
                   else hdr.dst;
        if (dst.port == 0 || dst.port == BROADCAST_PORT) && hdr.anyAll.None? then Err(AnyPortMissingKey)
        else Ok(hdr.(src := src, dst := dst))
    }

    /** `room` says whether the sink can take the frame. */
    function SendRaw(hdr: Header, bodyLen: nat, room: bool): Result<Header, SendError> {
      if MAX_HDR_ENCODED_SIZE + bodyLen > mtu then Err(PacketTooBig(mtu))
      else
        match CommonSend(hdr)
        case Err(e) => Err(e)
        case Ok(h) => if h.kind == PROTOCOL_ERROR || !room then Err(InterfaceFull) else Ok(h)
    }
  }

  function NewTarget(mtu: nat): Port {
    Port(Down, EDGE_NODE_ID, CENTRAL_NODE_ID, mtu)
  }

  function NewController(state: InterfaceState, mtu: nat): Port {
    Port(state, CENTRAL_NODE_ID, EDGE_NODE_ID, mtu)
  }
}
