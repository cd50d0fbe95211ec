/** Addresses and headers, as every part of the stack passes them on. */
module Headers {
  import opened Wrappers
  import opened Cobs

  type u8 = byte
  type u16 = x: int | 0 <= x < 0x1_0000
  type u32 = x: int | 0 <= x < 0x1_0000_0000

  const MAX_TTL: u8 := 15
  const PROTOCOL_ERROR: u8 := 0
  const KEY_LEN: nat := 8
  const MAX_HDR_ENCODED_SIZE: nat := 24

  datatype Address = Address(net: u16, node: u8, port: u8)

  datatype TrafficClass = Control | Normal | Bulk | Background

  type Key = k: seq<byte> | |k| == KEY_LEN witness [0, 0, 0, 0, 0, 0, 0, 0]

  /** A name hash is never zero; zero on the wire stands for no name. */
  type NameHash = x: u32 | x != 0 witness 1

  type FrameKind = x: u8 | x < 4

  datatype AnyAll = AnyAll(key: Key, nash: Option<NameHash>)

  datatype Header = Header(
    src: Address, dst: Address, anyAll: Option<AnyAll>, kind: FrameKind, class_: TrafficClass, ttl: u8)
}
