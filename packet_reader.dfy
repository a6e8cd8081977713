/** QuicNgxPacketReader: a fixed pool of receive slots and the mmsghdr
    descriptors that point into them, re-armed before every recvmmsg call,
    and the loop that turns the filled slots into ProcessPacket calls. */
module PacketReader {
  import opened NetTypes
  import opened DispatchSpec
  import opened Collaborators

  /** use_quic_time: fixed to true in the reader. */
  const UseQuicTime: bool := true

  /** Descriptor i points at slot i: its name at the slot's address buffer,
      its single iovec at the slot's iovec (which covers the whole payload
      buffer), and its control pointer at the slot's control buffer. */
  predicate Wired(m: MMsgHdr, p: PacketData, i: nat) {
    m.hdr.name == RawAddressOf(i) &&
    m.hdr.iov == IovOf(i) && m.hdr.iovLen == 1 &&
    m.hdr.control == CbufOf(i) &&
    p.iovBase == BufOf(i) && p.iovLen == PacketBufferSize
  }

  /** The three fields recvmmsg may overwrite hold their pre-call values. */
  predicate Armed(h: MsgHdr) {
    h.nameLen == SockaddrStorageSize && h.controlLen == CmsgSpaceForReadPacket && h.flags == 0
  }

  /** Every field of a descriptor other than the three re-armed ones. */
  predicate SameOtherFields(m: MMsgHdr, m0: MMsgHdr) {
    m.hdr.name == m0.hdr.name && m.hdr.iov == m0.hdr.iov && m.hdr.iovLen == m0.hdr.iovLen &&
    m.hdr.control == m0.hdr.control && m.msgLen == m0.msgLen
  }

  /** What a descriptor and its slot say the kernel delivered. */
  function SlotView(m: MMsgHdr, p: PacketData): Delivery {
    Delivery(m.msgLen, m.hdr.flags, p.rawAddress, m.hdr.nameLen, p.cbuf, m.hdr.controlLen)
  }

  /** What recvmmsg can return: a count no larger than the number of
      descriptors, and the contents of that many slots when it is positive. */
  predicate RecvmmsgResult(packetsRead: int, delivered: seq<Delivery>) {
    packetsRead <= NumPacketsPerReadMmsgCall &&
    |delivered| == (if packetsRead > 0 then packetsRead else 0)
  }

  class QuicNgxPacketReader {
    const mmsgHdr: array<MMsgHdr>
    const packets: array<PacketData>

    ghost predicate Valid()
      reads mmsgHdr, packets
    {
      mmsgHdr.Length == NumPacketsPerReadMmsgCall &&
      packets.Length == NumPacketsPerReadMmsgCall &&
      forall i :: 0 <= i < NumPacketsPerReadMmsgCall ==> Wired(mmsgHdr[i], packets[i], i)
    }

    /** The control messages a descriptor's control pointer refers to, as
        the QuicSocketUtils parsers read them. */
    function ControlOf(h: MsgHdr): ControlData
      requires h.control.CbufOf? && h.control.slot < packets.Length
      reads packets
    {
      packets[h.control.slot].cbuf
    }

    constructor ()
      ensures Valid() && fresh(mmsgHdr) && fresh(packets)
      ensures forall i :: 0 <= i < NumPacketsPerReadMmsgCall ==>
                Armed(mmsgHdr[i].hdr) && mmsgHdr[i].msgLen == 0 &&
                packets[i].rawAddress == Unspecified && packets[i].cbuf == NoControl
    {
      // Zero-initialised descriptors.
      var hdrs := new MMsgHdr[NumPacketsPerReadMmsgCall](_ => ZeroMMsgHdr);
      var pkts := new PacketData[NumPacketsPerReadMmsgCall](_ => ZeroPacketData);
      for i := 0 to NumPacketsPerReadMmsgCall
        invariant forall k :: 0 <= k < i ==>
                    Wired(hdrs[k], pkts[k], k) && Armed(hdrs[k].hdr) && hdrs[k].msgLen == 0 &&
                    pkts[k].rawAddress == Unspecified && pkts[k].cbuf == NoControl
        invariant forall k :: i <= k < NumPacketsPerReadMmsgCall ==> hdrs[k] == ZeroMMsgHdr
      {
        pkts[i] := pkts[i].(iovBase := BufOf(i), iovLen := PacketBufferSize);
        // The address and control buffers are cleared.
        pkts[i] := pkts[i].(rawAddress := Unspecified, cbuf := NoControl);

        var hdr := hdrs[i].hdr;
        hdr := hdr.(name := RawAddressOf(i), nameLen := SockaddrStorageSize);
        hdr := hdr.(iov := IovOf(i), iovLen := 1);
        hdr := hdr.(control := CbufOf(i), controlLen := CmsgSpaceForReadPacket);
        hdrs[i] := hdrs[i].(hdr := hdr);
      }
      mmsgHdr := hdrs;
      packets := pkts;
    }

    /** Resets the length and flag fields recvmmsg may have changed. */
    method ReArm()
      requires Valid()
      modifies mmsgHdr
      ensures Valid()
      ensures forall i :: 0 <= i < NumPacketsPerReadMmsgCall ==>
                Armed(mmsgHdr[i].hdr) && SameOtherFields(mmsgHdr[i], old(mmsgHdr[i]))
    {
      for i := 0 to NumPacketsPerReadMmsgCall
        invariant Valid()
        invariant forall k :: 0 <= k < i ==>
                    Armed(mmsgHdr[k].hdr) && SameOtherFields(mmsgHdr[k], old(mmsgHdr[k]))
        invariant forall k :: i <= k < NumPacketsPerReadMmsgCall ==> mmsgHdr[k] == old(mmsgHdr[k])
      {
        var hdr := mmsgHdr[i].hdr;
        hdr := hdr.(nameLen := SockaddrStorageSize);
        assert hdr.iovLen == 1;
        hdr := hdr.(controlLen := CmsgSpaceForReadPacket);
        hdr := hdr.(flags := 0);
        mmsgHdr[i] := mmsgHdr[i].(hdr := hdr);
      }
    }

    /** The effect of recvmmsg on the descriptors: the kernel fills the
        first |delivered| slots and leaves the others alone. */
    method ReceiveBatch(packetsRead: int, delivered: seq<Delivery>)
      requires Valid() && RecvmmsgResult(packetsRead, delivered)
      modifies mmsgHdr, packets
      ensures Valid()
      ensures forall i :: 0 <= i < |delivered| ==> SlotView(mmsgHdr[i], packets[i]) == delivered[i]
      ensures forall i :: |delivered| <= i < NumPacketsPerReadMmsgCall ==>
                mmsgHdr[i] == old(mmsgHdr[i]) && packets[i] == old(packets[i])
    {
      for i := 0 to |delivered|
        invariant Valid()
        invariant forall k :: 0 <= k < i ==> SlotView(mmsgHdr[k], packets[k]) == delivered[k]
        invariant forall k :: i <= k < NumPacketsPerReadMmsgCall ==>
                    mmsgHdr[k] == old(mmsgHdr[k]) && packets[k] == old(packets[k])
      {
        var d := delivered[i];
        var hdr := mmsgHdr[i].hdr.(nameLen := d.nameLen, controlLen := d.controlLen, flags := d.flags);
        mmsgHdr[i] := MMsgHdr(hdr, d.msgLen);
        packets[i] := packets[i].(rawAddress := d.peer, cbuf := d.control);
      }
    }

    /** The loop over the first `count` slots, whose contents are ds: skip the empty, the truncated
        and those without a self IP; give every other one its receipt time
        and hand it to the processor. */
    method DispatchSlots(count: nat, port: int, useQuicTime: bool, clock: Clock, processor: Processor, ghost ds: seq<Delivery>)
      requires Valid() && count <= NumPacketsPerReadMmsgCall
      requires |ds| == count && forall i :: 0 <= i < count ==> SlotView(mmsgHdr[i], packets[i]) == ds[i]
      modifies clock, processor
      ensures var b := Run(StartBatch(old(clock.nowReads), old(clock.wallNowReads)), ds, port, useQuicTime, clock.readings);
              processor.received == old(processor.received) + b.log &&
              clock.nowReads == b.time.nowReads && clock.wallNowReads == b.time.wallNowReads
    {
      ghost var t0 := StartOfCall(clock.nowReads, clock.wallNowReads);
      ghost var log0 := processor.received;
      var fallbackTimestamp: int := 0;
      var fallbackWalltimestamp: nat := 0;
      for i := 0 to count
        invariant Run(Batch(t0, log0), ds[..i], port, useQuicTime, clock.readings)
                  == Batch(TimeState(fallbackTimestamp, fallbackWalltimestamp, clock.nowReads, clock.wallNowReads), processor.received)
      {
        RunExtend(Batch(t0, log0), ds, i, port, useQuicTime, clock.readings);
        fallbackTimestamp, fallbackWalltimestamp :=
          DispatchSlot(i, port, useQuicTime, clock, processor, fallbackTimestamp, fallbackWalltimestamp, ds[i]);
      }
      assert ds[..count] == ds;
      RunAfterLog(t0, log0, ds, port, useQuicTime, clock.readings);
    }

    /** One iteration of the loop, over slot i whose contents are d: skip it
        if it is empty, truncated or has no self IP; otherwise give it its
        receipt time and hand it to the processor. */
    method DispatchSlot(
      i: nat, port: int, useQuicTime: bool, clock: Clock, processor: Processor,
      fallbackTimestamp: int, fallbackWalltimestamp: nat, ghost d: Delivery)
      returns (fallbackTimestamp': int, fallbackWalltimestamp': nat)
      requires Valid() && i < NumPacketsPerReadMmsgCall && SlotView(mmsgHdr[i], packets[i]) == d
      modifies clock, processor
      ensures Step(Batch(TimeState(fallbackTimestamp, fallbackWalltimestamp, old(clock.nowReads), old(clock.wallNowReads)),
                         old(processor.received)),
                   i, d, port, useQuicTime, clock.readings)
              == Batch(TimeState(fallbackTimestamp', fallbackWalltimestamp', clock.nowReads, clock.wallNowReads), processor.received)
    {
      fallbackTimestamp', fallbackWalltimestamp' := fallbackTimestamp, fallbackWalltimestamp;
      StepCases(Batch(TimeState(fallbackTimestamp, fallbackWalltimestamp, clock.nowReads, clock.wallNowReads), processor.received),
                i, d, port, useQuicTime, clock.readings);
      assert Wired(mmsgHdr[i], packets[i], i);

      if mmsgHdr[i].msgLen == 0 {
        return;
      }
      var hdr := mmsgHdr[i].hdr;
      if hdr.flags & MSG_CTRUNC != 0 {
        return;
      }
      if hdr.flags & MSG_TRUNC != 0 {
        return;
      }

      var peerAddress := packets[i].rawAddress;
      var control := ControlOf(hdr);
      var selfIp := control.selfIp;
      var packetWalltimestamp := control.wallTimestamp;
      if selfIp.None? {
        return;
      }

      var timestamp;
      timestamp, fallbackTimestamp', fallbackWalltimestamp' :=
        ReceiptTime(useQuicTime, packetWalltimestamp, fallbackTimestamp, fallbackWalltimestamp, clock);

      var ttl := 0;
      var hasTtl := false;
      if control.ttl.Some? {
        ttl, hasTtl := control.ttl.value, true;
      }
      var packet := ReceivedPacket(packets[i].iovBase, mmsgHdr[i].msgLen, timestamp, false, ttl, hasTtl);
      var selfAddress := SocketAddress(selfIp.value, port);
      assert Dispatch(selfAddress, peerAddress, packet) == Record(i, d, port, timestamp);
      processor.ProcessPacket(selfAddress, peerAddress, packet);
    }

    /** The receipt time of an accepted slot whose kernel wall time is
        packetWalltimestamp (0 when absent), with the call's fallback caches
        before and after. */
    static method ReceiptTime(
      useQuicTime: bool, packetWalltimestamp: nat, fallbackTimestamp: int, fallbackWalltimestamp: nat, clock: Clock)
      returns (timestamp: int, fallbackTimestamp': int, fallbackWalltimestamp': nat)
      modifies clock
      ensures ResolveTimestamp(useQuicTime, packetWalltimestamp,
                               TimeState(fallbackTimestamp, fallbackWalltimestamp, old(clock.nowReads), old(clock.wallNowReads)),
                               clock.readings)
              == Resolved(timestamp, TimeState(fallbackTimestamp', fallbackWalltimestamp', clock.nowReads, clock.wallNowReads))
    {
      fallbackTimestamp', fallbackWalltimestamp' := fallbackTimestamp, fallbackWalltimestamp;
      var walltime := packetWalltimestamp;
      timestamp := 0;
      if !useQuicTime {
        if walltime == 0 {
          if fallbackWalltimestamp' == 0 {
            fallbackWalltimestamp' := clock.WallNow();
          }
          walltime := fallbackWalltimestamp';
        }
        timestamp := clock.ConvertWallTimeToQuicTime(walltime);
      } else {
        if walltime == 0 {
          if fallbackTimestamp' == 0 {
            fallbackTimestamp' := clock.Now();
          }
          timestamp := fallbackTimestamp';
        } else {
          timestamp := clock.ConvertWallTimeToQuicTime(walltime);
        }
      }
    }

    /** GetOverflowFromMsghdr on descriptor 0: stores the overflow count
        of its control data, if there is one, through packetsDropped. */
    method StoreOverflow(packetsDropped: PacketCount)
      requires Valid()
      modifies packetsDropped
      ensures match packets[0].cbuf.overflow
              case Some(v) => packetsDropped.value == v && packetsDropped.writes == old(packetsDropped.writes) + 1
              case None => packetsDropped.value == old(packetsDropped.value) && packetsDropped.writes == old(packetsDropped.writes)
    {
      var control := ControlOf(mmsgHdr[0].hdr);
      if control.overflow.Some? {
        packetsDropped.Store(control.overflow.value);
      }
    }

    /** The part of a call after a successful receive: dispatch the filled
        slots, then report the drop count through packetsDropped. */
    method DispatchBatch(
      packetsRead: nat, port: int, clock: Clock, processor: Processor, packetsDropped: PacketCount?, ghost delivered: seq<Delivery>)
      requires Valid() && 0 < packetsRead <= NumPacketsPerReadMmsgCall && |delivered| == packetsRead
      requires forall i :: 0 <= i < |delivered| ==> SlotView(mmsgHdr[i], packets[i]) == delivered[i]
      modifies clock, processor, packetsDropped
      ensures var b := Run(StartBatch(old(clock.nowReads), old(clock.wallNowReads)), delivered, port, UseQuicTime, clock.readings);
              processor.received == old(processor.received) + b.log &&
              clock.nowReads == b.time.nowReads && clock.wallNowReads == b.time.wallNowReads
      // Whatever the clock returns: one call per eligible slot, in index order.
      ensures var idx := EligibleIndices(delivered);
              |processor.received| == |old(processor.received)| + |idx| &&
              forall k :: 0 <= k < |idx| ==>
                idx[k] < |delivered| && Eligible(delivered[idx[k]]) &&
                var call := processor.received[|old(processor.received)| + k];
                call == Record(idx[k], delivered[idx[k]], port, call.packet.receiptTime) &&
                (delivered[idx[k]].control.wallTimestamp != 0 ==>
                   call.packet.receiptTime == clock.ConvertWallTimeToQuicTime(delivered[idx[k]].control.wallTimestamp))
      ensures FirstFallbackReadNonZero(UseQuicTime, clock.readings, old(clock.nowReads), old(clock.wallNowReads)) ==>
                processor.received == old(processor.received) +
                  ExpectedLog(delivered, port, UseQuicTime, clock.readings, old(clock.nowReads), old(clock.wallNowReads)) &&
                clock.nowReads + clock.wallNowReads <= old(clock.nowReads) + old(clock.wallNowReads) + 1
      ensures packetsDropped != null ==>
                match delivered[0].control.overflow
                case Some(v) => packetsDropped.value == v && packetsDropped.writes == old(packetsDropped.writes) + 1
                case None => packetsDropped.value == old(packetsDropped.value) && packetsDropped.writes == old(packetsDropped.writes)
    {
      ghost var log0, nowReads0, wallNowReads0 := processor.received, clock.nowReads, clock.wallNowReads;
      DispatchSlots(packetsRead, port, UseQuicTime, clock, processor, delivered);
      ghost var b := Run(StartBatch(nowReads0, wallNowReads0), delivered, port, UseQuicTime, clock.readings);
      assert processor.received == log0 + b.log;
      RunCallsAnyClock(StartOfCall(nowReads0, wallNowReads0), delivered, port, UseQuicTime, clock.readings);
      if FirstFallbackReadNonZero(UseQuicTime, clock.readings, nowReads0, wallNowReads0) {
        RunMatchesExpected(delivered, port, UseQuicTime, clock.readings, nowReads0, wallNowReads0);
      }

      assert packets[0].cbuf == delivered[0].control;
      if packetsDropped != null {
        StoreOverflow(packetsDropped);
      }
    }

    /** One batch: re-arm, receive, dispatch, report the drop count.
        Returns whether the batch was full, so that more packets may wait;
        false when recvmmsg failed. */
    method ReadAndDispatchPackets(
      port: int, clock: Clock, processor: Processor, packetsDropped: PacketCount?,
      packetsRead: int, delivered: seq<Delivery>)
      returns (mayHaveMore: bool)
      requires Valid() && RecvmmsgResult(packetsRead, delivered)
      modifies mmsgHdr, packets, clock, processor, packetsDropped
      ensures Valid()
      // Descriptors the kernel did not fill stay re-armed.
      ensures forall i :: |delivered| <= i < NumPacketsPerReadMmsgCall ==>
                Armed(mmsgHdr[i].hdr) && SameOtherFields(mmsgHdr[i], old(mmsgHdr[i])) && packets[i] == old(packets[i])
      ensures forall i :: 0 <= i < |delivered| ==> SlotView(mmsgHdr[i], packets[i]) == delivered[i]
      // A failed receive dispatches nothing, reads no clock and leaves the drop count alone.
      ensures packetsRead <= 0 ==>
                !mayHaveMore &&
                processor.received == old(processor.received) &&
                clock.nowReads == old(clock.nowReads) && clock.wallNowReads == old(clock.wallNowReads) &&
                (packetsDropped != null ==>
                   packetsDropped.value == old(packetsDropped.value) && packetsDropped.writes == old(packetsDropped.writes))
      ensures packetsRead > 0 ==>
                mayHaveMore == (packetsRead == NumPacketsPerReadMmsgCall) &&
                var b := Run(StartBatch(old(clock.nowReads), old(clock.wallNowReads)), delivered, port, UseQuicTime, clock.readings);
                processor.received == old(processor.received) + b.log &&
                clock.nowReads == b.time.nowReads && clock.wallNowReads == b.time.wallNowReads
      // Whatever the clock returns: one call per eligible slot, in index order.
      ensures packetsRead > 0 ==>
                var idx := EligibleIndices(delivered);
                |processor.received| == |old(processor.received)| + |idx| &&
                forall k :: 0 <= k < |idx| ==>
                  idx[k] < |delivered| && Eligible(delivered[idx[k]]) &&
                  var call := processor.received[|old(processor.received)| + k];
                  call == Record(idx[k], delivered[idx[k]], port, call.packet.receiptTime) &&
                  (delivered[idx[k]].control.wallTimestamp != 0 ==>
                     call.packet.receiptTime == clock.ConvertWallTimeToQuicTime(delivered[idx[k]].control.wallTimestamp))
      // With a non-zero first clock reading: each receipt time is known,
      // and there is at most one clock read.
      ensures packetsRead > 0 && FirstFallbackReadNonZero(UseQuicTime, clock.readings, old(clock.nowReads), old(clock.wallNowReads)) ==>
                processor.received == old(processor.received) +
                  ExpectedLog(delivered, port, UseQuicTime, clock.readings, old(clock.nowReads), old(clock.wallNowReads)) &&
                clock.nowReads + clock.wallNowReads <= old(clock.nowReads) + old(clock.wallNowReads) + 1
      // The drop count is stored at most once, from descriptor 0's control data.
      ensures packetsRead > 0 && packetsDropped != null ==>
                match delivered[0].control.overflow
                case Some(v) => packetsDropped.value == v && packetsDropped.writes == old(packetsDropped.writes) + 1
                case None => packetsDropped.value == old(packetsDropped.value) && packetsDropped.writes == old(packetsDropped.writes)
    {
      ghost var log0, nowReads0, wallNowReads0 := processor.received, clock.nowReads, clock.wallNowReads;
      ReArm();
      assert forall i :: 0 <= i < NumPacketsPerReadMmsgCall ==> Armed(mmsgHdr[i].hdr);
      ReceiveBatch(packetsRead, delivered);
      assert forall i :: |delivered| <= i < NumPacketsPerReadMmsgCall ==> Armed(mmsgHdr[i].hdr);
      if packetsRead <= 0 {
        return false;
      }
      DispatchBatch(packetsRead, port, clock, processor, packetsDropped, delivered);
      return packetsRead == NumPacketsPerReadMmsgCall;
    }
  }
}
