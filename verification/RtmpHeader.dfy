/**
 The chunk message header, the message being reassembled, and the protocol
 constants of `RtmpHeader.h`.
 */
module RtmpHeader {
  import opened Bytes

  const DEFAULT_CHUNK_SIZE := 128
  const MAX_CHUNK_SIZE := 65535
  const MAX_TIMESTAMP_IN_HEADER := 0xFFFFFF

  const MSG_TYPE_SET_CHUNK_SIZE: Byte := 1
  const MSG_TYPE_USER_CONTROL: Byte := 4
  const MSG_TYPE_WINDOW_ACK_SIZE: Byte := 5
  const MSG_TYPE_PEER_BANDWIDTH: Byte := 6

  const CSID_CONTROL := 2

  type Fmt = x: int | 0 <= x < 4

  /** Length of the message header, by chunk format. */
  function MsgHeaderSize(fmt: Fmt): nat {
    if fmt == 0 then 11 else if fmt == 1 then 7 else if fmt == 2 then 3 else 0
  }

  datatype Header = Header(csid: int, timestamp: U32, msgLen: U32, msgType: Byte, streamId: U32,
                           fmt: Fmt, hasExtTs: bool)

  /** A value-initialised header: what `operator[]` of the history map inserts. */
  const BLANK_HEADER := Header(0, 0, 0, 0, 0, 0, false)

  datatype Message = Message(header: Header, payload: Octets) {
    predicate IsComplete() {
      |payload| >= header.msgLen
    }
  }

  /** A newly made message: length 0 and empty, hence complete. */
  const FRESH_MESSAGE := Message(BLANK_HEADER, [])
}
