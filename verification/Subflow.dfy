// A subflow object: the sending side's counters and congestion machine, and the receiving side's
// statistics.

module Subflows {
  import opened Numeric
  import opened Reports
  import opened Congestion
  import opened SourceStatistics
  import S = Statistics

  class Subflow {
    const id: u16
    const recvStat: SourceStats
    var sequence: u16
    var packetCount: u32
    var octetCount: u32
    var recentPackets: u32
    var recentOctets: u32
    var lastReport: Option<ReceivedReport>
    var instant: real
    var tested: real
    var testedKnown: bool
    var congested: real
    var congestedKnown: bool
    var indicator: int
    var congestionTime: real
    var share: real
    var ready: bool

    function State(): (s: SubflowState)
      reads this
    {
      SubflowState(id, sequence, packetCount, octetCount, recentPackets, recentOctets, lastReport, instant, tested,
                   testedKnown, congested, congestedKnown, indicator, congestionTime, share, ready)
    }

    constructor (id: u16, sequence: u16)
      ensures State() == Initial(id, sequence)
      ensures fresh(recvStat) && recvStat.State() == S.FRESH
    {
      this.id, this.sequence := id, sequence;
      packetCount, octetCount, recentPackets, recentOctets := 0, 0, 0, 0;
      lastReport, instant, tested, testedKnown := None, 0.0, 0.0, false;
      congested, congestedKnown, indicator, congestionTime := 0.0, false, 0, 0.0;
      share, ready := 0.5, false;
      recvStat := new SourceStats();
    }

    // Whether the network took the whole packet is an input.
    method SendTo(payload: u32, delivered: bool, rtcp: bool)
      modifies this
      ensures State() == Sent(old(State()), payload, delivered, rtcp)
    {
      if !rtcp {
        if delivered {
          packetCount := Wrap32(packetCount + 1);
          octetCount := Wrap32(octetCount + payload);
          recentPackets := Wrap32(recentPackets + 1);
          recentOctets := Wrap32(recentOctets + payload);
        }
        sequence := Wrap16(sequence + 1);
      }
    }

    method SetPercentage(p: real)
      modifies this`share
      ensures share == p
    {
      share := p;
    }

    method Measure(r: ReceivedReport) returns (b: real)
      requires Measures(State()) && Measurable(State(), r)
      ensures b == InstantBitrate(State(), r)
    {
      var fraction := r.block.fractionLost as real / 256.0;
      var size := recentOctets as real / recentPackets as real;
      var elapsed := r.recvTime - lastReport.value.recvTime;
      var advance := Wrap32(r.block.extHighSeq - lastReport.value.block.extHighSeq) as real;
      var delivered := advance * (1.0 - fraction);
      assert delivered == Delivered(State(), r) by { hide Wrap32; }
      hide Delivered;
      b := delivered * size / elapsed;
    }

    method RaiseTested()
      modifies this`tested, this`testedKnown
      ensures testedKnown
      ensures tested == if old(testedKnown) then Blend(old(tested), instant) else Damped(instant)
    {
      if !testedKnown {
        testedKnown := true;
        tested := instant * ALPHA;
      } else if tested < instant {
        tested := tested * ALPHA + (1.0 - ALPHA) * instant;
      }
    }

    method CoolDown(t0: real, t1: real)
      requires indicator > 0
      modifies this`indicator, this`congestionTime, this`congested, this`congestedKnown
      ensures var cool := old(congestionTime) + old(indicator) as real * TO < t0;
              && indicator == (if cool then old(indicator) - 1 else old(indicator))
              && congestionTime == if cool then t1 else old(congestionTime)
      ensures congestedKnown
      ensures congested == if old(congestedKnown) then Blend(old(congested), instant) else Damped(instant)
    {
      if congestionTime + indicator as real * TO < t0 {
        indicator := indicator - 1;
        congestionTime := t1;
      }
      if !congestedKnown {
        congestedKnown := true;
        congested := instant * ALPHA;
      } else if congested < instant {
        congested := congested * ALPHA + (1.0 - ALPHA) * instant;
      }
    }

    method ProcessRrPacket(r: ReceivedReport, t0: real, t1: real)
      requires Measurable(State(), r)
      modifies this
      ensures State() == OnReport(old(State()), r, t0, t1)
    {
      hide InstantBitrate, Blend;
      ghost var s := State();
      if lastReport.Some? && recentPackets > 0 {
        instant := Measure(r);
        if r.block.fractionLost == 0 {
          RaiseTested();
          if indicator > 0 {
            CoolDown(t0, t1);
          }
          assert State() == Clean(s, InstantBitrate(s, r), t0, t1).(ready := s.ready);
        } else {
          tested, testedKnown := instant * ALPHA, true;
          congested, congestedKnown := instant * ALPHA, true;
          congestionTime := t0;
          if indicator < CIMAX {
            indicator := indicator + 1;
          }
          assert State() == Damaged(s, InstantBitrate(s, r), t0).(ready := s.ready);
        }
        ready := true;
      }
      recentPackets, recentOctets := 0, 0;
      lastReport := Some(r);
    }
  }

  ghost function States(fs: seq<Subflow>): (v: seq<SubflowState>)
    reads fs
    ensures |v| == |fs| && forall i :: 0 <= i < |fs| ==> v[i] == fs[i].State()
  {
    seq(|fs|, i requires 0 <= i < |fs| reads fs => fs[i].State())
  }

  ghost predicate Separate(fs: seq<Subflow>) {
    forall i, j :: 0 <= i < j < |fs| ==> fs[i] != fs[j]
  }
}
