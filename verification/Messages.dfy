/** The engine's messages (include/hft/itch_message.hpp, include/hft/order_msg.hpp).
    Type and side stay raw bytes, as on the wire: the code compares them with a
    few known values and treats every other value alike. */
module Messages {
  const MAX_U32 := 0xFFFF_FFFF

  type Byte = b: int | 0 <= b < 256
  type U16 = x: int | 0 <= x <= 0xFFFF
  type U32 = x: int | 0 <= x <= MAX_U32
  type U64 = x: int | 0 <= x <= 0xFFFF_FFFF_FFFF_FFFF
  type I64 = x: int | -0x8000_0000_0000_0000 <= x <= 0x7FFF_FFFF_FFFF_FFFF

  const ADD: Byte := 65      // 'A'
  const EXECUTE: Byte := 69  // 'E'
  const CANCEL: Byte := 88   // 'X'
  const DELETE: Byte := 68   // 'D'
  const UNKNOWN: Byte := 0

  const BUY: Byte := 66      // 'B'
  const SELL: Byte := 83     // 'S'

  const ACTION_NEW: Byte := 78     // 'N'
  const STATUS_FILLED: Byte := 70    // 'F'
  const STATUS_REJECTED: Byte := 82  // 'R'

  datatype Option<+T> = None | Some(value: T)

  datatype ItchMessage = ItchMessage(
    timestamp: U64, price: I64, symbol: U32, size: U32, seqNo: U32,
    kind: Byte, side: Byte, flags: U16)

  /** One market-data message with the feed handler's arrival stamp. */
  datatype MdEvent = MdEvent(msg: ItchMessage, arrival: U64)

  datatype OrderRequest = OrderRequest(
    orderId: nat, mdTimestamp: U64, price: int, symbol: U32, size: U32, side: Byte, action: Byte)

  datatype ExecReport = ExecReport(
    orderId: nat, mdTimestamp: U64, fillPrice: int, symbol: U32, fillSize: U32, side: Byte, status: Byte)

  /** A buy moves the net position up by its size; every other side byte moves it down. */
  function Signed(side: Byte, size: U32): int {
    if side == BUY then size as int else -(size as int)
  }
}
