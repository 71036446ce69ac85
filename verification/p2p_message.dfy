/**
 * The parts of a p2p message (`pb.XuperMessage`) that subscription and
 * dispatch look at. A missing header or data body is a nil pointer.
 */
module P2PMessage {
  import opened Wrappers

  /** `pb.XuperMessage_MessageType`; the enumeration's zero is MSG_TYPE_NONE. */
  type MessageType = nat

  const MsgTypeNone: MessageType := 0

  /** `DataCheckSum`, a uint32. */
  type CheckSum = x: nat | x < 0x1_0000_0000

  /** The header fields the p2p layer reads and writes. */
  datatype Header = Header(logid: string, from: string, typ: MessageType, dataCheckSum: CheckSum, bcname: string)

  /** The message body; its contents are opaque to dispatch. */
  datatype MessageData = MessageData(msgInfo: seq<bv8>)

  datatype XuperMessage = XuperMessage(header: Option<Header>, data: Option<MessageData>)

  /** `msg.GetHeader().GetFrom()`: the generated getters read a nil header as empty. */
  function GetFrom(msg: XuperMessage): string
  {
    if msg.header.Some? then msg.header.value.from else ""
  }
}
