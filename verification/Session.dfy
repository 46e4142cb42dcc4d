// The walkers a session runs over a received RTCP packet.

module Sessions {
  import opened Numeric
  import opened Bytes
  import opened Reports
  import opened Rtcp

  lemma DropTwice(b: seq<u8>, i: nat, j: nat)
    requires i + j <= |b|
    ensures b[i..][j..] == b[i + j..]
  {
  }

  lemma FromFrom(b: seq<u8>, i: nat, j: nat)
    ensures From(From(b, i), j) == From(b, i + j)
  {
  }

  class Session {
    // The calls made to on_rtcp_sr_packet and on_rtcp_rr_packet, in order.
    var delivered: seq<Delivery>

    constructor ()
      ensures delivered == []
    {
      delivered := [];
    }

    method ReadBlocks(b: seq<u8>, count: nat) returns (rs: seq<ReceiverReport>)
      requires |b| >= 24 * count
      ensures rs == DecodeRrs(b, count)
    {
      rs := [];
      var at := 0;
      for i := 0 to count
        invariant at == 24 * i
        invariant rs + DecodeRrs(b[at..], count - i) == DecodeRrs(b, count)
      {
        rs := rs + [DecodeRr(b[at..])];
        DropTwice(b, at, 24);
        at := at + 24;
      }
    }

    // False where the packet is too short for what its header announces.
    method ProcessSr(b: seq<u8>, id: u16) returns (ok: bool)
      requires |b| > 0
      modifies this
      ensures ok == SrAt(b, id).Some?
      ensures delivered == old(delivered) + if ok then SrAt(b, id).value else []
    {
      if |b| < 28 + 24 * Count(b) {
        return false;
      }
      var blocks := ReadBlocks(b[28..], Count(b));
      var sr := SenderReport(Read32(b, 4), Read32(b, 8), Read32(b, 12), Read32(b, 16), Read32(b, 20), Read32(b, 24),
                             blocks);
      delivered := delivered + [SrDelivery(id, sr)];
      return true;
    }

    method ProcessRr(b: seq<u8>, id: u16) returns (ok: bool)
      requires |b| > 0
      modifies this
      ensures ok == RrAt(b, id).Some?
      ensures delivered == old(delivered) + if ok then RrAt(b, id).value else []
    {
      var count := Count(b);
      if count > 0 && |b| < 32 {
        return false;
      }
      for i := 0 to count
        invariant |delivered| == |old(delivered)| + i && delivered[..|old(delivered)|] == old(delivered)
        invariant forall k :: |old(delivered)| <= k < |delivered| ==>
                    delivered[k] == RrDelivery(id, Read32(b, 4), DecodeRr(b[8..]))
      {
        delivered := delivered + [RrDelivery(id, Read32(b, 4), DecodeRr(b[8..]))];
      }
      return true;
    }

    method ProcessBlock(b: seq<u8>) returns (ok: bool)
      requires |b| >= 2
      modifies this
      ensures ok == BlockDeliveries(b).Some?
      ensures delivered == old(delivered) + if ok then BlockDeliveries(b).value else []
    {
      if b[0] != BLOCK_SUBFLOW {
        return true;
      }
      if |b| < 6 {
        return false;
      }
      var id := Read16(b, 2);
      if b[5] == TYPE_SR {
        ok := ProcessSr(b[4..], id);
      } else if b[5] == TYPE_RR {
        ok := ProcessRr(b[4..], id);
      } else {
        ok := true;
      }
    }

    method ProcessMprtcp(b: seq<u8>) returns (outcome: Outcome)
      requires |b| >= 4
      modifies this
      ensures var w := WalkBlocks(From(b, 12), PacketLength(b) - 12);
              delivered == old(delivered) + w.deliveries && outcome == w.outcome
    {
      hide BlockDeliveries, WalkBlocks, From;
      var length: int := PacketLength(b);
      var at := 12;
      ghost var total := WalkBlocks(From(b, 12), length - 12);
      while at < length
        invariant at >= 12
        invariant var w := WalkBlocks(From(b, at), length - at);
                  old(delivered) + total.deliveries == delivered + w.deliveries && w.outcome == total.outcome
        decreases length - at
      {
        var rest := From(b, at);
        WalkStep(rest, length - at);
        if |rest| < 2 {
          return Overrun;
        }
        var ok := ProcessBlock(rest);
        if !ok {
          return Overrun;
        }
        var step := 4 * Value(rest, 1);
        if step == 0 {
          return Stuck;
        }
        FromFrom(b, at, step);
        at := at + step;
      }
      WalkStep(From(b, at), length - at);
      return Done;
    }

    method ProcessPacket(b: seq<u8>) returns (outcome: Outcome)
      requires |b| >= 4
      modifies this
      ensures outcome == WalkPacket(b).outcome
      ensures delivered == old(delivered) + WalkPacket(b).deliveries
    {
      var ok := true;
      if b[1] == TYPE_SR {
        ok := ProcessSr(b, 0);
      } else if b[1] == TYPE_RR {
        ok := ProcessRr(b, 0);
      } else if b[1] == TYPE_MPRTP {
        outcome := ProcessMprtcp(b);
        return;
      }
      return if ok then Done else Overrun;
    }

    method ProcessRtcp(data: seq<u8>) returns (outcome: Outcome)
      modifies this
      ensures outcome == WalkCompound(data).outcome
      ensures delivered == old(delivered) + WalkCompound(data).deliveries
    {
      hide WalkPacket;
      var at := 0;
      while at < |data|
        invariant var w := WalkCompound(From(data, at));
                  && old(delivered) + WalkCompound(data).deliveries == delivered + w.deliveries
                  && w.outcome == WalkCompound(data).outcome
        decreases |data| - at
      {
        var rest := From(data, at);
        if |rest| < 4 {
          return Overrun;
        }
        outcome := ProcessPacket(rest);
        if outcome != Done {
          return;
        }
        FromFrom(data, at, PacketLength(rest));
        at := at + PacketLength(rest);
      }
      return Done;
    }
  }
}
