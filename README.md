# QuicNgxPacketReader, modelled in Dafny

This project models the batched UDP reader of nginx-quic,
`QuicNgxPacketReader` (`quic_module/chromium/quic_ngx_packet_reader.cc`).
The reader owns a fixed pool of `kNumPacketsPerReadMmsgCall` receive slots.
It also owns one `mmsghdr` descriptor per slot, pointing into that slot.
One call of `ReadAndDispatchPackets` does the following:

1. It re-arms the descriptors.
2. It receives a batch with `recvmmsg`.
3. It walks the filled slots in index order. A slot is skipped when it is
   empty, control-truncated, payload-truncated or has no self IP. Every
   other slot gets a receipt time and is passed to the processor.
4. It stores the socket's overflow count through `packets_dropped`.
5. It returns whether the batch was full.

Files:

- `net_types.dfy` (module `NetTypes`): the batch constants, the descriptor
  and slot records (`MsgHdr`, `MMsgHdr`, `PacketData`), and the pointers
  inside them as `Ref` values such as "the address buffer of slot i". It
  also holds what the kernel leaves in a slot (`Delivery`), the decoded
  control messages (`ControlData`) and the `ProcessPacket` arguments
  (`Dispatch`, `ReceivedPacket`).
- `collaborators.dfy` (module `Collaborators`): the clock, the processor and
  the caller's drop counter, at their boundary. The k-th `Now()` or
  `WallNow()` call returns the k-th reading and is counted. The processor
  records every call it receives.
- `dispatch_spec.dfy` (module `DispatchSpec`): the loop as functions.
  `Classify` gives the skip reasons. `ResolveTimestamp` covers both
  timestamp modes and their per-call fallback cache. `Run` follows the
  loop slot by slot. `ExpectedLog` is an independent filter-and-map
  description of the same calls. The lemmas connect `Run` and
  `ExpectedLog`.
- `packet_reader.dfy` (module `PacketReader`): the class
  `QuicNgxPacketReader`. It holds the two arrays and has the constructor,
  the re-arm loop, the kernel's writes and the entry point. The entry
  point's body is split into parts: the dispatch loop (`DispatchSlots`),
  one iteration of it (`DispatchSlot`), the receipt time (`ReceiptTime`)
  and the drop count (`StoreOverflow`, `DispatchBatch`). Each part is
  proved against the functions above.

Which slots are dispatched, in which order and with which addresses,
buffer, length and TTL does not depend on the clock. `RunCallsAnyClock`
proves this for any clock readings, and the entry point states it without
conditions.

The timestamp caches use zero to mean "unset" (`QuicTime::IsInitialized`,
`QuicWallTime::IsZero`). So the fallback receipt times and "the clock is
read at most once per call" hold only when the first reading is non-zero.
`RunMatchesExpected` proves both under that condition.
`ZeroReadingIsReadAgain` shows the clock is read again when the first
reading is zero.

Two details of the code:

- The fourth argument of `QuicReceivedPacket` (lines 157-159) is `owns_buffer`.
  The reader passes `false`, so the packet borrows the slot's buffer
  (`ownsBuffer == false`).
- A failed receive (`packets_read <= 0`, lines 81-83) returns `false`.

## Model

| member | source | states |
|---|---|---|
| `PacketReader.QuicNgxPacketReader.constructor` | quic_module/chromium/quic_ngx_packet_reader.cc:32-54 | descriptor i refers to slot i: name to its address buffer, a single iovec to its iovec, control to its control buffer. The iovec spans the full payload buffer. Name length is sizeof(sockaddr_storage), control length is kCmsgSpaceForReadPacket, flags and msg_len are zero, and the address and control buffers are cleared |
| `PacketReader.QuicNgxPacketReader.ReArm` | quic_module/chromium/quic_ngx_packet_reader.cc:68-76 | afterwards every descriptor has name length sizeof(sockaddr_storage), control length kCmsgSpaceForReadPacket and flags 0. Its wiring (name, iov, iovlen 1, control pointers) and msg_len are unchanged |
| `PacketReader.QuicNgxPacketReader.ReceiveBatch` | quic_module/chromium/quic_ngx_packet_reader.cc:78-79 | recvmmsg's effect: the first packets_read slots hold what the kernel delivered (length, flags, address, control data and their lengths). The other slots and all wiring are untouched |
| `PacketReader.QuicNgxPacketReader.DispatchSlots` | quic_module/chromium/quic_ngx_packet_reader.cc:88-162 | starting with both fallback caches unset, the loop over the first packets_read slots makes exactly the ProcessPacket calls of `Run`, in order, and reads each clock exactly as often as `Run` says |
| `PacketReader.QuicNgxPacketReader.DispatchSlot` | quic_module/chromium/quic_ngx_packet_reader.cc:91-161 | one iteration is one `Step`: an empty, truncated or self-IP-less slot changes nothing (no call, no clock read, caches kept). Any other slot gets the receipt time `ResolveTimestamp` gives and exactly one ProcessPacket call with that slot's self address, peer address, buffer, length and TTL |
| `PacketReader.QuicNgxPacketReader.ReceiptTime` | quic_module/chromium/quic_ngx_packet_reader.cc:124-144 | the receipt time, the updated caches and the clock reads are those of `ResolveTimestamp` for the current caches and read counters |
| `PacketReader.QuicNgxPacketReader.StoreOverflow` | quic_module/chromium/quic_ngx_packet_reader.cc:165-166 | GetOverflowFromMsghdr on descriptor 0: if its control data carries an overflow count, that count is stored through the pointer exactly once; otherwise the pointee is neither written nor changed |
| `PacketReader.QuicNgxPacketReader.DispatchBatch` | quic_module/chromium/quic_ngx_packet_reader.cc:88-167 | after a successful receive: the calls and clock reads of `Run`. For any clock readings, the k-th new call is for the k-th eligible slot in index order, with that slot's self address, peer address, buffer, length and TTL. A slot's kernel timestamp, when present, gives its receipt time. With a non-zero first clock reading, the calls are exactly those of `ExpectedLog` and there is at most one clock read. The drop count is stored only when the pointer is non-null, from descriptor 0's overflow value |
| `PacketReader.QuicNgxPacketReader.ReadAndDispatchPackets` | quic_module/chromium/quic_ngx_packet_reader.cc:58-172 | a failed receive (packets_read <= 0) returns false, makes no calls, reads no clock and leaves the drop count alone. Otherwise it returns packets_read == N. For any clock readings, the k-th new call is for the k-th eligible slot in index order (see `EligibleIndicesSpec`), with its self address, peer address, buffer, length and TTL, and the kernel timestamp as receipt time when present. If the first clock reading is non-zero, every receipt time is that of `ExpectedLog` and there is at most one clock read. Descriptors the kernel did not fill are re-armed and otherwise unchanged. The drop count is stored at most once, from descriptor 0's overflow value, and only if that value is present |
| `DispatchSpec.Classify` | quic_module/chromium/quic_ngx_packet_reader.cc:91-120 | a slot is accepted iff msg_len != 0, MSG_CTRUNC is clear, MSG_TRUNC is clear and a self IP was found. It is "empty" iff msg_len == 0. An accepted slot carries the parsed self IP |
| `DispatchSpec.ResolveTimestamp` | quic_module/chromium/quic_ngx_packet_reader.cc:122-144 | a kernel wall time wins in both modes and reads no clock. A fallback already cached in this call is reused without a read. Otherwise the selected clock is read once, and its reading is cached and used (converted, in wall-time mode). Each mode touches only its own cache and its own clock |
| `DispatchSpec.EligibleIndicesSpec` | quic_module/chromium/quic_ngx_packet_reader.cc:90-120 | the dispatched slot indices are strictly ascending, so no slot is dispatched twice. Each one is an eligible slot of the batch, and every eligible slot is among them |
| `DispatchSpec.NeedsFallbackSpec` | quic_module/chromium/quic_ngx_packet_reader.cc:126-140 | a fallback reading is needed iff some dispatched slot has no kernel timestamp |
| `DispatchSpec.ExpectedLogAt` | quic_module/chromium/quic_ngx_packet_reader.cc:145-161 | the k-th call is for the k-th eligible slot i. It carries self address (self IP, port), the peer address from slot i's address buffer, a view of slot i's buffer of length msg_len, owns_buffer false, the parsed TTL (0 if absent) with its flag, and the resolved receipt time |
| `DispatchSpec.RunCallsAnyClock` | quic_module/chromium/quic_ngx_packet_reader.cc:90-161 | for any cache state and any clock readings, the loop's k-th call is for the k-th eligible slot, with that slot's self address, peer address, buffer, length and TTL. Only the receipt time is left open, and a kernel timestamp fixes it |
| `DispatchSpec.RunMatchesExpected` | quic_module/chromium/quic_ngx_packet_reader.cc:85-144 | the loop with its cache makes exactly the calls of `ExpectedLog` when the first fallback reading is non-zero. In use_quic_time mode, slots without a kernel time all get the one `Now()` reading. In wall mode they get ConvertWallTimeToQuicTime of the one `WallNow()` reading. The selected clock is read once if needed and never otherwise, and the other clock is never read |
| `DispatchSpec.SkippedSlotIsolation` | quic_module/chromium/quic_ngx_packet_reader.cc:90-120 | making one slot ineligible removes that slot from the dispatched set and changes nothing for any other slot |
| `DispatchSpec.ZeroReadingIsReadAgain` | quic_module/chromium/quic_ngx_packet_reader.cc:136-140 | in use_quic_time mode, a `Now()` reading of 0 looks like an unset cache. Two slots without a kernel time then read the clock twice |

## Left out

- The `recvmmsg` system call is not modelled. Its outcome is an input to
  `ReadAndDispatchPackets`: the return value and what the kernel wrote into
  each filled slot. `ReceiveBatch` copies these into the arrays.
- `QuicSocketUtils::GetAddressAndTimestampFromMsghdr`, `GetTtlFromMsghdr`
  and `GetOverflowFromMsghdr` are not modelled. A slot's control buffer
  holds the values these parsers would return (`ControlData`). The cmsg
  byte encoding is not modelled.
- `QuicClock` is a readings function plus read counters.
  `ConvertWallTimeToQuicTime` is a fixed mapping, and any clock reads it
  makes internally are not counted.
- `ProcessPacket` only records its arguments. What the processor does with
  a packet is outside this reader.
- `QUIC_BUG`, `QUIC_LOG_FIRST_N` and the dropped-packet-size histogram are
  diagnostics only and are not modelled.
- The `MMSG_MORE_NO_ANDROID` branch is not modelled. It delegates to
  `QuicPacketReader`, which is not part of this model. The model takes the
  build in which the constructor wires the descriptors and the reader runs
  its own `recvmmsg` path.
- Payload bytes are not modelled. Nor are the `memset` of the payload
  buffer, the `sockaddr` byte layout or the empty destructor. A dispatched
  packet refers to its slot's buffer by reference (`BufOf(i)`).
- The headers are not part of this model (`quic_ngx_packet_reader.h`,
  `quic_packet_reader.h`, `quic_socket_utils.h`). The constants use
  upstream QUIC and 64-bit Linux values: 16 descriptors,
  sizeof(sockaddr_storage) 128, a 1472-byte payload buffer, control space
  for timestamps, pktinfo, TTL and overflow, and MSG_CTRUNC 0x8 and
  MSG_TRUNC 0x20. No proof depends on these values.
- Integer widths (C `int`, `size_t`, 64-bit `QuicTime` and
  `QuicPacketCount`) are unbounded integers. No step of the reader does
  arithmetic that could wrap.
- `PacketReader.QuicNgxPacketReader.ReadAndDispatchPackets`: does not state
  that the drop count is stored after the last dispatch. The store follows
  the loop in the method body, but its contract describes only the final
  state.
