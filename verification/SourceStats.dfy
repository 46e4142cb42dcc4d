// The statistics object a receiver keeps per source and per subflow.

module SourceStatistics {
  import opened Numeric
  import opened Reports
  import opened Statistics
  import opened RtpPackets

  class SourceStats {
    var receivedData: bool
    var packetsReceived: u32
    var cycles: u32
    var base: u32
    var highest: u32
    var jitter: u32
    var smoothed: real
    var prevTimestamp: u32
    var prevTime: real
    var intervalReceived: u32
    var saved: u32

    function State(): Stats
      reads this
    {
      Stats(receivedData, packetsReceived, cycles, base, highest, jitter, smoothed, prevTimestamp, prevTime,
            intervalReceived, saved)
    }

    constructor ()
      ensures State() == FRESH
    {
      receivedData := false;
      packetsReceived, cycles, base, highest := 0, 0, 0, 0;
      jitter, smoothed, prevTimestamp, prevTime := 0, 0.0, 0, 0.0;
      intervalReceived, saved := 0, 0;
    }

    // The number a packet still carries from parsing, main or subflow.
    function Carried(pack: RtpPacket, subflow: bool): u32
      reads pack
    {
      if subflow then pack.subflowExtSeq else pack.extSeq
    }

    method ExtendNumber(number: u16) returns (extended: u32)
      modifies this`cycles, this`highest
      ensures (cycles, extended, highest) == Extend(old(cycles), old(highest), number)
    {
      var low := highest % CYCLE;
      if number >= low {
        extended := Wrap32(cycles + number);
        highest := extended;
      } else {
        var ahead, behind := Wrap16(number - low), Wrap16(low - number);
        if ahead < behind {
          cycles := Wrap32(cycles + CYCLE);
          extended := Wrap32(cycles + number);
          highest := extended;
        } else {
          extended := Wrap32(cycles + number);
        }
      }
    }

    method UpdateJitter(pack: RtpPacket, unit: real)
      requires pack.raw.Some?
      modifies this`smoothed, this`jitter
      ensures smoothed == if unit > 0.0
                          then Smooth(old(smoothed), TransitChange(prevTimestamp, prevTime, pack.timestamp,
                                                                   pack.raw.value.recvTime, unit))
                          else 0.0
      ensures jitter == ToU32(smoothed)
    {
      if unit > 0.0 {
        var diff := (pack.raw.value.recvTime - prevTime) / unit
                    - TimestampDifference(prevTimestamp, pack.timestamp) as real;
        if diff < 0.0 {
          diff := -diff;
        }
        diff := diff - smoothed;
        diff := diff / 16.0;
        smoothed := smoothed + diff;
        jitter := ToU32(smoothed);
      } else {
        smoothed, jitter := 0.0, 0;
      }
    }

    // The first packet writes its number to the main sequence field, even on a subflow.
    method ProcessPacket(pack: RtpPacket, subflow: bool, unit: real)
      requires pack.raw.Some? && Carried(pack, subflow) < CYCLE
      modifies this, pack`extSeq, pack`subflowExtSeq
      ensures State() == Arrive(old(State()), old(Carried(pack, subflow)), pack.timestamp, pack.raw.value.recvTime,
                                unit)
      ensures var number := ExtendedNumber(old(State()), old(Carried(pack, subflow)));
              if subflow && old(receivedData)
              then pack.subflowExtSeq == number && pack.extSeq == old(pack.extSeq)
              else pack.extSeq == number && pack.subflowExtSeq == old(pack.subflowExtSeq)
    {
      hide TransitChange, Smooth, Extend, ToU32;
      var number := if subflow then pack.subflowExtSeq else pack.extSeq;
      packetsReceived := Wrap32(packetsReceived + 1);
      intervalReceived := Wrap32(intervalReceived + 1);
      if !receivedData {
        receivedData := true;
        if number == 0 {
          base := 0xFFFF;
          cycles := CYCLE;
        } else {
          base := number - 1;
        }
        highest := base + 1;
        saved := base;
        pack.extSeq := highest;
      } else {
        var extended := ExtendNumber(number);
        if subflow {
          pack.subflowExtSeq := extended;
        } else {
          pack.extSeq := extended;
        }
        UpdateJitter(pack, unit);
      }
      prevTime := pack.raw.value.recvTime;
      prevTimestamp := pack.timestamp;
    }

    method FillReceiverReport(ssrc: u32, sr: Option<LastSr>, now: real, idle: u8) returns (rr: ReceiverReport)
      modifies this
      ensures rr == MakeReport(old(State()), ssrc, sr, now, idle)
      ensures State() == NewInterval(old(State()))
    {
      var fraction := FractionLost(Wrap32(highest - saved), intervalReceived, idle);
      var lost := Wrap32(Wrap32(highest - base) - packetsReceived);
      rr := ReceiverReport(ssrc, fraction, lost % 0x100_0000, highest, jitter, Lsr(sr), Dlsr(sr, now));
      intervalReceived := 0;
      saved := highest;
    }
  }
}
