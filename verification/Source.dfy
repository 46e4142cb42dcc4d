// The source object of a receiver, and the buffer it assembles its reports in.

module Sources {
  import opened Numeric
  import opened Bytes
  import opened Reports
  import opened Rtcp
  import opened Statistics
  import opened SourceStatistics
  import opened RtpPackets
  import opened Subflows
  import opened SourceModel

  class CompoundPacket {
    var data: array<u8>

    constructor ()
      ensures fresh(data) && data.Length == 0
    {
      data := new u8[0];
    }

    // The buffer is reallocated and holds the packets added so far, one behind the other.
    method AddPacket(pack: seq<u8>)
      modifies this
      ensures fresh(data)
      ensures data[..] == old(data[..]) + pack
    {
      var kept := data;
      var grown := new u8[kept.Length + |pack|];
      for i := 0 to kept.Length
        invariant grown[..i] == kept[..i]
      {
        grown[i] := kept[i];
      }
      assert kept[..kept.Length] == kept[..];
      for i := 0 to |pack|
        invariant grown[..kept.Length + i] == kept[..] + pack[..i]
      {
        grown[kept.Length + i] := pack[i];
      }
      assert grown[..] == grown[..kept.Length + |pack|] && pack[..|pack|] == pack;
      data := grown;
    }
  }

  ghost function StatsOf(fs: seq<Subflow>): set<object> {
    set i | 0 <= i < |fs| :: fs[i].recvStat
  }

  ghost function Legs(fs: seq<Subflow>): (legs: seq<Leg>)
    reads StatsOf(fs)
    ensures |legs| == |fs| && forall i :: 0 <= i < |fs| ==> legs[i] == Leg(fs[i].id, fs[i].recvStat.State())
  {
    seq(|fs|, i requires 0 <= i < |fs| reads StatsOf(fs) => Leg(fs[i].id, fs[i].recvStat.State()))
  }

  lemma SingleRrBytes(sender: u32, rr: ReceiverReport)
    ensures EncodeRrPacket(sender, [rr]) == Header(1, TYPE_RR, 7) + Be32(sender) + EncodeRr(rr)
  {
    hide EncodeRr, Be32;
    assert [rr][1..] == [] && EncodeRrs([]) == [];
    assert EncodeRrs([rr]) == EncodeRr(rr);
  }

  function LegReport(s: SourceState, leg: Leg, input: FillInput): (d: Delivery)
    ensures d.RrDelivery?
  {
    RrDelivery(leg.id, s.senderSsrc, MakeReport(leg.stat, s.ssrc, s.lastSr, input.now, input.idle))
  }

  lemma PatchedBlock(s: SourceState, leg: Leg, input: FillInput)
    ensures var report := MakeReport(leg.stat, s.ssrc, s.lastSr, input.now, input.idle);
            var x := [BLOCK_SUBFLOW, 0] + Be16(leg.id) + EncodeRrPacket(s.senderSsrc, [report]);
            x[..1] + [9] + x[2..] == EncodeBlock(LegReport(s, leg, input))
  {
    hide Be16, EncodeRrPacket, MakeReport;
  }

  // What the buffer holds once the first n blocks are written.
  function BlocksUpTo(s: SourceState, inputs: seq<FillInput>, head: seq<u8>, n: nat): (b: seq<u8>)
    requires n <= |s.legs| == |inputs|
    ensures |b| == |head| + 36 * n
  {
    head + EncodeBlocks(LegReports(s, s.legs[..n], inputs[..n]))
  }

  lemma BlocksEnds(s: SourceState, inputs: seq<FillInput>, head: seq<u8>)
    requires |s.legs| == |inputs|
    ensures BlocksUpTo(s, inputs, head, 0) == head
    ensures BlocksUpTo(s, inputs, head, |s.legs|) == head + EncodeBlocks(LegReports(s, s.legs, inputs))
  {
    assert s.legs[..|s.legs|] == s.legs && inputs[..|inputs|] == inputs;
  }

  lemma {:induction false} LegReportsAppend(s: SourceState, legs: seq<Leg>, leg: Leg, inputs: seq<FillInput>,
                                            input: FillInput)
    requires |inputs| == |legs|
    ensures LegReports(s, legs + [leg], inputs + [input]) == LegReports(s, legs, inputs) + [LegReport(s, leg, input)]
    decreases |legs|
  {
    hide MakeReport;
    var all, both := legs + [leg], inputs + [input];
    if legs != [] {
      assert all[0] == legs[0] && all[1..] == legs[1..] + [leg];
      assert both[0] == inputs[0] && both[1..] == inputs[1..] + [input];
      LegReportsAppend(s, legs[1..], leg, inputs[1..], input);
    } else {
      assert all[1..] == [] && both[1..] == [];
    }
  }

  lemma OneMoreBlock(s: SourceState, inputs: seq<FillInput>, head: seq<u8>, i: nat)
    requires i < |s.legs| == |inputs|
    ensures BlocksUpTo(s, inputs, head, i + 1)
              == BlocksUpTo(s, inputs, head, i) + EncodeBlock(LegReport(s, s.legs[i], inputs[i]))
  {
    var legs := s.legs;
    assert legs[..i + 1] == legs[..i] + [legs[i]] && inputs[..i + 1] == inputs[..i] + [inputs[i]];
    LegReportsAppend(s, legs[..i], legs[i], inputs[..i], inputs[i]);
    BlocksAppend(LegReports(s, legs[..i], inputs[..i]), LegReport(s, legs[i], inputs[i]));
    hide EncodeBlocks, EncodeBlock, LegReports;
    Regroup(head, EncodeBlocks(LegReports(s, legs[..i], inputs[..i])), EncodeBlock(LegReport(s, legs[i], inputs[i])));
  }

  class Source {
    const ssrc: u32
    const senderSsrc: u32
    const stat: SourceStats
    var subflows: seq<Subflow>
    var lastSr: Option<LastSr>
    var sendRr: bool

    ghost predicate Valid()
      reads this
    {
      && (forall i, j :: 0 <= i < j < |subflows| ==> subflows[i].recvStat != subflows[j].recvStat)
      && (forall i :: 0 <= i < |subflows| ==> subflows[i].recvStat != stat)
    }

    ghost function State(): SourceState
      reads this, stat, StatsOf(subflows)
    {
      SourceState(ssrc, senderSsrc, stat.State(), Legs(subflows), lastSr, sendRr)
    }

    constructor (ssrc: u32, senderSsrc: u32)
      ensures Valid() && fresh(stat)
      ensures State() == SourceState(ssrc, senderSsrc, FRESH, [], None, false)
    {
      this.ssrc, this.senderSsrc := ssrc, senderSsrc;
      stat := new SourceStats();
      subflows, lastSr, sendRr := [], None, false;
    }

    // The subflow with the id, created if there is none.
    method FindSubflow(id: u16) returns (k: nat)
      requires Valid()
      modifies this`subflows
      ensures Valid() && old(subflows) <= subflows && |subflows| <= |old(subflows)| + 1
      ensures |subflows| > |old(subflows)| ==> fresh(subflows[|old(subflows)|].recvStat)
      ensures k == FindLeg(old(Legs(subflows)), id) && k < |subflows| && subflows[k].id == id
      ensures Legs(subflows) == WithLeg(old(Legs(subflows)), id)
    {
      ghost var legs := Legs(subflows);
      k := 0;
      while k < |subflows|
        invariant k <= |subflows| && subflows == old(subflows)
        invariant forall j :: 0 <= j < k ==> legs[j].id != id
      {
        if subflows[k].id == id {
          assert FindLeg(legs, id) == k;
          return;
        }
        k := k + 1;
      }
      var seed: u16 := *;
      var sf := new Subflow(id, seed);
      subflows := subflows + [sf];
      assert Legs(subflows) == legs + [Leg(id, FRESH)];
    }

    method UpdateLeg(k: nat, pack: RtpPacket, unit: real)
      requires Valid() && k < |subflows| && pack.raw.Some? && pack.subflowExtSeq < CYCLE
      modifies subflows[k].recvStat, pack`extSeq, pack`subflowExtSeq
      ensures Legs(subflows) == old(Legs(subflows))[k := Leg(subflows[k].id, Arrive(old(subflows[k].recvStat.State()),
                                  old(pack.subflowExtSeq), pack.timestamp, pack.raw.value.recvTime, unit))]
      ensures var number := ExtendedNumber(old(subflows[k].recvStat.State()), old(pack.subflowExtSeq));
              if old(subflows[k].recvStat.State()).receivedData
              then pack.extSeq == old(pack.extSeq) && pack.subflowExtSeq == number
              else pack.extSeq == number && pack.subflowExtSeq == old(pack.subflowExtSeq)
    {
      hide Arrive, ExtendedNumber;
      ghost var legs := Legs(subflows);
      subflows[k].recvStat.ProcessPacket(pack, true, unit);
      assert forall j :: 0 <= j < |subflows| && j != k ==> Leg(subflows[j].id, subflows[j].recvStat.State()) == legs[j];
    }

    // The packet's numbers are written back: on the first packet of a subflow the main number ends
    // up being the subflow's.
    method ProcessPacket(pack: RtpPacket, unit: real)
      requires Valid() && pack.raw.Some? && pack.extSeq < CYCLE && pack.subflowExtSeq < CYCLE
      modifies this`subflows, stat, StatsOf(subflows), pack`extSeq, pack`subflowExtSeq
      ensures Valid()
      ensures State() == AfterPacket(old(State()), Arrived(old(pack.extSeq), pack.timestamp, pack.raw.value.recvTime,
                                                           pack.subflowId, old(pack.subflowExtSeq)), unit)
      ensures var leg := StatOf(old(Legs(subflows)), pack.subflowId);
              var number := ExtendedNumber(leg, old(pack.subflowExtSeq));
              if leg.receivedData
              then pack.extSeq == ExtendedNumber(old(stat.State()), old(pack.extSeq)) && pack.subflowExtSeq == number
              else pack.extSeq == number && pack.subflowExtSeq == old(pack.subflowExtSeq)
    {
      hide Arrive, ExtendedNumber, WithLeg;
      ghost var legs := Legs(subflows);
      stat.ProcessPacket(pack, false, unit);
      assert Legs(subflows) == legs;
      var k := FindSubflow(pack.subflowId);
      ghost var more := Legs(subflows);
      assert more[k].stat == StatOf(legs, pack.subflowId) by {
        StatOfWithLeg(legs, pack.subflowId, pack.subflowId);
      }
      UpdateLeg(k, pack, unit);
    }

    method ProcessSr(sr: LastSr, subflowId: u16)
      requires Valid()
      modifies this
      ensures Valid() && State() == AfterSr(old(State()), sr, subflowId)
    {
      if subflowId == 0 {
        lastSr := Some(sr);
        sendRr := true;
      } else {
        var k := FindSubflow(subflowId);
      }
    }

    // ----- receiver reports -----

    method MakeRrPacket(buf: array<u8>, at: nat, st: SourceStats, input: FillInput) returns (next: nat)
      requires at + 32 <= buf.Length && buf[at] == 0
      modifies buf, st
      ensures Written(old(buf[..]), buf[..], at,
                      EncodeRrPacket(senderSsrc, [MakeReport(old(st.State()), ssrc, lastSr, input.now, input.idle)]))
      ensures next == at + 32
      ensures st.State() == NewInterval(old(st.State()))
    {
      hide MakeReport, Be16, Be32, EncodeRr;
      ghost var start := buf[..];
      next := Put(buf, at, [0x80 + buf[at] % 64 + 1, TYPE_RR] + Be16(32 / 4 - 1));
      ghost var header := Header(1, TYPE_RR, 7);
      next := Append(buf, next, Be32(senderSsrc), start, at, header);
      var rr := st.FillReceiverReport(ssrc, lastSr, input.now, input.idle);
      next := Append(buf, next, EncodeRr(rr), start, at, header + Be32(senderSsrc));
      SingleRrBytes(senderSsrc, rr);
    }

    method CreateRrPacket(comp: CompoundPacket, input: FillInput)
      modifies comp, stat
      ensures fresh(comp.data)
      ensures comp.data[..] == old(comp.data[..]) + EncodeReport(MainReport(old(State()), input))
      ensures stat.State() == NewInterval(old(stat.State()))
    {
      hide MakeReport, EncodeRrPacket;
      var buf := Zeroed(32);
      ghost var report := MakeReport(stat.State(), ssrc, lastSr, input.now, input.idle);
      var next := MakeRrPacket(buf, 0, stat, input);
      assert buf[..] == EncodeRrPacket(senderSsrc, [report]);
      comp.AddPacket(buf[..]);
    }

    method MakeBlock(buf: array<u8>, at: nat, k: nat, input: FillInput, ghost leg: Leg, ghost s: SourceState)
      returns (next: nat)
      requires k < |subflows| && leg == Leg(subflows[k].id, subflows[k].recvStat.State())
      requires s.ssrc == ssrc && s.senderSsrc == senderSsrc && s.lastSr == lastSr
      requires at + 36 <= buf.Length && buf[at + 4] == 0
      modifies buf, subflows[k].recvStat
      ensures Written(old(buf[..]), buf[..], at, EncodeBlock(LegReport(s, leg, input)))
      ensures next == at + 36
      ensures subflows[k].recvStat.State() == NewInterval(leg.stat)
    {
      var sf := subflows[k];
      hide Be16, EncodeRrPacket, EncodeBlock, LegReport, MakeReport, Written;
      ghost var start, report := buf[..], MakeReport(sf.recvStat.State(), ssrc, lastSr, input.now, input.idle);
      ghost var head, packet := [BLOCK_SUBFLOW, 0] + Be16(sf.id), EncodeRrPacket(senderSsrc, [report]);
      next := Put(buf, at, [BLOCK_SUBFLOW, 0] + Be16(sf.id));
      ghost var b1 := buf[..];
      assert b1[at + 4] == 0 by {
        AfterWritten(start, b1, at, head, at + 4);
      }
      next := MakeRrPacket(buf, next, sf.recvStat, input);
      ghost var b2 := buf[..];
      WrittenThen(start, b1, b2, at, head, packet);
      var end := Put(buf, at + 1, [(next - at) / 4]);
      WrittenOver(start, b2, buf[..], at, head + packet, 1, [9]);
      PatchedBlock(s, leg, input);
    }

    // s is what a report of this source is made from.
    ghost predicate Reporting(s: SourceState)
      reads this, StatsOf(subflows)
    {
      s.ssrc == ssrc && s.senderSsrc == senderSsrc && s.lastSr == lastSr && s.legs == Legs(subflows)
    }

    // The block of subflow i, behind those before it.
    method MakeNextBlock(buf: array<u8>, at: nat, i: nat, inputs: seq<FillInput>, ghost start: seq<u8>,
                         ghost base: nat, ghost head: seq<u8>, ghost s: SourceState) returns (next: nat)
      requires i < |subflows| == |s.legs| == |inputs|
      requires s.legs[i] == Leg(subflows[i].id, subflows[i].recvStat.State())
      requires s.ssrc == ssrc && s.senderSsrc == senderSsrc && s.lastSr == lastSr
      requires at == base + |head| + 36 * i && at + 36 <= buf.Length == |start|
      requires Written(start, buf[..], base, BlocksUpTo(s, inputs, head, i))
      requires forall k :: base + |head| <= k < |start| ==> start[k] == 0
      modifies buf, subflows[i].recvStat
      ensures Written(start, buf[..], base, BlocksUpTo(s, inputs, head, i + 1))
      ensures next == at + 36 && subflows[i].recvStat.State() == NewInterval(s.legs[i].stat)
    {
      hide BlocksUpTo, LegReport, LegReports, EncodeBlock, EncodeBlocks, MakeReport, Written, NewInterval;
      OneMoreBlock(s, inputs, head, i);
      ghost var before := buf[..];
      AfterWritten(start, before, base, BlocksUpTo(s, inputs, head, i), at + 4);
      next := MakeBlock(buf, at, i, inputs[i], s.legs[i], s);
      WrittenThen(start, before, buf[..], base, BlocksUpTo(s, inputs, head, i),
                  EncodeBlock(LegReport(s, s.legs[i], inputs[i])));
    }

    // The blocks of all subflows, behind a head already written at `base`.
    method MakeBlocks(buf: array<u8>, at: nat, inputs: seq<FillInput>, ghost start: seq<u8>, ghost base: nat,
                      ghost head: seq<u8>, ghost s: SourceState) returns (next: nat)
      requires Reporting(s)
      requires Valid() && |inputs| == |subflows| && at == base + |head| && at + 36 * |subflows| <= buf.Length
      requires |start| == buf.Length && Written(start, buf[..], base, head)
      requires forall k :: at <= k < |start| ==> start[k] == 0
      modifies buf, StatsOf(subflows)
      ensures Written(start, buf[..], base,
                      head + EncodeBlocks(LegReports(s, s.legs, inputs)))
      ensures next == at + 36 * |subflows|
      ensures Legs(subflows) == IntervalsClosed(s.legs) && stat.State() == old(stat.State())
    {
      hide BlocksUpTo, LegReport, LegReports, EncodeBlock, EncodeBlocks, MakeReport, Written, NewInterval;
      next := at;
      BlocksEnds(s, inputs, head);
      for i := 0 to |subflows|
        invariant next == at + 36 * i
        invariant forall j :: 0 <= j < |subflows| ==>
                    subflows[j].recvStat.State() == if j < i then NewInterval(s.legs[j].stat) else s.legs[j].stat
        invariant Written(start, buf[..], base, BlocksUpTo(s, inputs, head, i))
        invariant stat.State() == old(stat.State())
      {
        next := MakeNextBlock(buf, next, i, inputs, start, base, head, s);
      }
    }

    method FillLength(buf: array<u8>, end: nat, ghost start: seq<u8>, ghost ds: seq<Delivery>) returns (pkt: seq<u8>)
      requires Fits(ds) && end == 4 * (3 + BlocksWords(ds)) <= buf.Length
      requires Written(start, buf[..], 0, [0x80, TYPE_MPRTP, 0, 0] + (Be32(senderSsrc) + Be32(ssrc)) + EncodeBlocks(ds))
      modifies buf
      ensures pkt == EncodeMprtcp(senderSsrc, ssrc, ds)
    {
      hide Be16, Be32, EncodeBlocks, EncodeMprtcp, Written;
      ghost var whole, head := buf[..], [0x80, TYPE_MPRTP, 0, 0] + (Be32(senderSsrc) + Be32(ssrc));
      var next := Put(buf, 2, Be16(end / 4 - 1));
      WrittenOver(start, whole, buf[..], 0, head + EncodeBlocks(ds), 2, Be16(end / 4 - 1));
      PatchedHead(senderSsrc, ssrc, ds);
      WrittenPrefix(start, buf[..], EncodeMprtcp(senderSsrc, ssrc, ds));
      pkt := buf[..end];
    }

    method BuildSubflowsRr(inputs: seq<FillInput>, ghost s: SourceState) returns (pkt: seq<u8>)
      requires Valid() && Reporting(s) && |inputs| == |subflows| && ReportFits(s)
      modifies StatsOf(subflows)
      ensures pkt == EncodeMprtcp(senderSsrc, ssrc, LegReports(s, s.legs, inputs))
      ensures Legs(subflows) == IntervalsClosed(s.legs) && stat.State() == old(stat.State())
    {
      hide Be16, Be32, EncodeBlocks, EncodeMprtcp, LegReports, Written, IntervalsClosed;
      var buf := Zeroed(MAX_PACKET);
      ghost var start := buf[..];
      ghost var head := [0x80, TYPE_MPRTP, 0, 0] + (Be32(senderSsrc) + Be32(ssrc));
      var next := Put(buf, 0, [0x80 + buf[0] % 64, TYPE_MPRTP, 0, 0] + (Be32(senderSsrc) + Be32(ssrc)));
      assert Reporting(s);
      next := MakeBlocks(buf, next, inputs, start, 0, head, s);
      pkt := FillLength(buf, next, start, LegReports(s, s.legs, inputs));
    }

    method CreateSubflowsRrPacket(comp: CompoundPacket, inputs: seq<FillInput>, ghost s: SourceState)
      requires Valid() && Reporting(s) && |inputs| == |subflows| && ReportFits(s)
      modifies comp, StatsOf(subflows)
      ensures fresh(comp.data)
      ensures comp.data[..] == old(comp.data[..]) + EncodeMprtcp(senderSsrc, ssrc, LegReports(s, s.legs, inputs))
      ensures Legs(subflows) == IntervalsClosed(s.legs) && stat.State() == old(stat.State())
    {
      hide EncodeMprtcp, LegReports, IntervalsClosed;
      var pkt := BuildSubflowsRr(inputs, s);
      comp.AddPacket(pkt);
    }

    method BuildReport(inputs: seq<FillInput>) returns (pkt: seq<u8>)
      requires Valid() && ReportFits(State()) && |inputs| == |subflows| + 1
      modifies stat, StatsOf(subflows)
      ensures pkt == EncodeCompound(ReportParts(old(State()), inputs))
      ensures Legs(subflows) == IntervalsClosed(old(Legs(subflows))) && stat.State() == NewInterval(old(stat.State()))
    {
      hide EncodeReport, EncodeMprtcp, EncodeCompound, ReportParts;
      hide LegReports, MainReport, IntervalsClosed, NewInterval;
      ghost var s := State();
      SourceModel.ReportBytes(s, inputs);
      var comp := new CompoundPacket();
      CreateRrPacket(comp, inputs[0]);
      assert Reporting(s) && comp.data[..] == EncodeReport(MainReport(s, inputs[0]));
      CreateSubflowsRrPacket(comp, inputs[1..], s);
      pkt := comp.data[..];
    }

    // A sender report is answered with one compound packet, through the front subflow.
    method Poll(inputs: seq<FillInput>, delivered: bool) returns (pkt: Option<seq<u8>>)
      requires Valid() && (sendRr ==> subflows != [] && ReportFits(State()) && |inputs| == |subflows| + 1)
      modifies this`sendRr, stat, StatsOf(subflows), subflows
      ensures Valid() && State() == if old(sendRr) then AfterReport(old(State())) else old(State())
      ensures pkt == if old(sendRr) then Some(EncodeCompound(ReportParts(old(State()), inputs))) else None
    {
      hide EncodeCompound, ReportParts, IntervalsClosed, NewInterval;
      pkt := None;
      if sendRr {
        var bytes := BuildReport(inputs);
        sendRr := false;
        ghost var legs := Legs(subflows);
        subflows[0].SendTo(0, delivered, true);
        assert Legs(subflows) == legs;
        pkt := Some(bytes);
      }
    }
  }
}
