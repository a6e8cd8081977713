/** Values shared by the packet reader model: the batch constants, the
    descriptor and slot records the reader keeps in its arrays, what the
    kernel leaves in a slot, and the record handed to the processor. */
module NetTypes {

  /** Descriptors handed to one recvmmsg call (kNumPacketsPerReadMmsgCall). */
  const NumPacketsPerReadMmsgCall: nat := 16

  /** sizeof(sockaddr_storage) on Linux. */
  const SockaddrStorageSize: nat := 128

  /** CMSG_SPACE on 64-bit Linux: an aligned 16-byte cmsghdr plus the data
      rounded up to 8 bytes. */
  function CmsgSpace(dataLen: nat): nat {
    16 + (dataLen + 7) / 8 * 8
  }

  /** Room for every control message the reader asks for: receive
      timestamps (three timespecs), the destination address (in6_pktinfo
      is the larger of the two pktinfo records), the TTL and the overflow
      count (kCmsgSpaceForReadPacket). */
  const CmsgSpaceForReadPacket: nat :=
    CmsgSpace(48) + CmsgSpace(20) + CmsgSpace(4) + CmsgSpace(4)

  /** sizeof(packets_[i].buf): the payload capacity of one slot. */
  const PacketBufferSize: nat := 1472

  /** msg_flags bits on Linux. */
  const MSG_CTRUNC: bv32 := 0x8
  const MSG_TRUNC: bv32 := 0x20

  datatype Option<T> = None | Some(value: T)

  /** An IP address; its byte layout plays no part in the reader. */
  datatype IpAddress = IpAddress(octets: seq<bv8>)

  /** A socket address; a zero-filled sockaddr_storage is Unspecified. */
  datatype SocketAddress = Unspecified | SocketAddress(ip: IpAddress, port: int)

  /** The control messages of one slot, as the QuicSocketUtils parsers
      decode them: the destination (self) IP if present, the kernel wall
      receive time in microseconds (0 when absent), the TTL if present and
      the socket's overflow count if present. */
  datatype ControlData = ControlData(
    selfIp: Option<IpAddress>,
    wallTimestamp: nat,
    ttl: Option<int>,
    overflow: Option<nat>)

  /** A zero-filled control buffer carries no control message. */
  const NoControl := ControlData(None, 0, None, None)

  /** What a pointer in a descriptor refers to: nothing, or one member of
      packets_[slot]. */
  datatype Ref = Null | RawAddressOf(slot: nat) | IovOf(slot: nat) | CbufOf(slot: nat) | BufOf(slot: nat)

  /** struct msghdr. */
  datatype MsgHdr = MsgHdr(
    name: Ref, nameLen: nat,
    iov: Ref, iovLen: nat,
    control: Ref, controlLen: nat,
    flags: bv32)

  /** struct mmsghdr: a msghdr and the byte count the kernel reports. */
  datatype MMsgHdr = MMsgHdr(hdr: MsgHdr, msgLen: nat)

  const ZeroMMsgHdr := MMsgHdr(MsgHdr(Null, 0, Null, 0, Null, 0, 0), 0)

  /** One receive slot (PacketData): its iovec, the peer address buffer and
      the control buffer. The payload bytes themselves are not modelled; a
      dispatched packet refers to them through iovBase. */
  datatype PacketData = PacketData(
    iovBase: Ref, iovLen: nat,
    rawAddress: SocketAddress,
    cbuf: ControlData)

  const ZeroPacketData := PacketData(Null, 0, Unspecified, NoControl)

  /** What recvmmsg leaves in one filled slot: msg_len, msg_flags, the peer
      address and its length, and the control messages and their length. */
  datatype Delivery = Delivery(
    msgLen: nat,
    flags: bv32,
    peer: SocketAddress,
    nameLen: nat,
    control: ControlData,
    controlLen: nat)

  /** QuicReceivedPacket as the reader builds it: a view of the slot's
      buffer, the length, the receipt time, whether the packet owns its
      buffer, and the TTL with its validity flag. The header arguments are
      always null and zero and are left out. */
  datatype ReceivedPacket = ReceivedPacket(
    buffer: Ref,
    length: nat,
    receiptTime: int,
    ownsBuffer: bool,
    ttl: int,
    ttlValid: bool)

  /** The arguments of one ProcessPacket call. */
  datatype Dispatch = Dispatch(
    selfAddress: SocketAddress,
    peerAddress: SocketAddress,
    packet: ReceivedPacket)

  /** The readings a QuicClock gives: now(k) is what the k-th call of
      Now() returns and wallNow(k) the k-th call of WallNow(), both in
      microseconds; toQuicTime is ConvertWallTimeToQuicTime. */
  datatype ClockReadings = ClockReadings(
    now: nat -> int,
    wallNow: nat -> nat,
    toQuicTime: nat -> int)
}
