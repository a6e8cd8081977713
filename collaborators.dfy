/** The reader's collaborators, at their boundary: the clock, the packet
    processor and the caller's dropped-packet counter. */
module Collaborators {
  import opened NetTypes

  /** A QuicClock. Each call of Now() or WallNow() is counted, and the k-th
      call returns the k-th reading, so a caller that reads twice may see
      two different times. */
  class Clock {
    const readings: ClockReadings
    var nowReads: nat
    var wallNowReads: nat

    constructor (readings: ClockReadings)
      ensures this.readings == readings
      ensures nowReads == 0 && wallNowReads == 0
    {
      this.readings := readings;
      nowReads, wallNowReads := 0, 0;
    }

    method Now() returns (t: int)
      modifies this`nowReads
      ensures nowReads == old(nowReads) + 1
      ensures t == readings.now(old(nowReads))
    {
      t := readings.now(nowReads);
      nowReads := nowReads + 1;
    }

    method WallNow() returns (t: nat)
      modifies this`wallNowReads
      ensures wallNowReads == old(wallNowReads) + 1
      ensures t == readings.wallNow(old(wallNowReads))
    {
      t := readings.wallNow(wallNowReads);
      wallNowReads := wallNowReads + 1;
    }

    function ConvertWallTimeToQuicTime(walltime: nat): int {
      readings.toQuicTime(walltime)
    }
  }

  /** A ProcessPacketInterface that records every call it receives. */
  class Processor {
    var received: seq<Dispatch>

    constructor ()
      ensures received == []
    {
      received := [];
    }

    method ProcessPacket(selfAddress: SocketAddress, peerAddress: SocketAddress, packet: ReceivedPacket)
      modifies this
      ensures received == old(received) + [Dispatch(selfAddress, peerAddress, packet)]
    {
      received := received + [Dispatch(selfAddress, peerAddress, packet)];
    }
  }

  /** The QuicPacketCount the caller's packets_dropped points to; writes
      counts the stores made through that pointer. */
  class PacketCount {
    var value: nat
    ghost var writes: nat

    constructor (value: nat)
      ensures this.value == value && writes == 0
    {
      this.value := value;
      writes := 0;
    }

    method Store(v: nat)
      modifies this
      ensures value == v && writes == old(writes) + 1
    {
      value := v;
      writes := writes + 1;
    }
  }
}
