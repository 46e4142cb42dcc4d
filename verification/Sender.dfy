// The sender object. Sockets are inputs: whether a packet was taken, what the clock read, what
// rand() drew.

module Senders {
  import opened Numeric
  import opened Bytes
  import opened Reports
  import opened Clock
  import opened Congestion
  import opened Allocation
  import opened Selection
  import opened Rtp
  import opened Rtcp
  import opened SenderModel
  import opened Subflows

  function RowCount(i: nat, addresses: nat, valid: (nat, nat) -> bool): nat {
    if addresses == 0 then 0
    else RowCount(i, addresses - 1, valid) + if valid(i, addresses - 1) then 1 else 0
  }

  lemma OneMoreConnected(s: SenderState, ssrc: u32, seeds: seq<u16>, seed: u16)
    ensures var n := AfterConnect(s, 1, ssrc, seeds);
            AfterConnect(s, 1, ssrc, seeds + [seed])
              == n.(nextId := Wrap16(n.nextId + 1), subflows := n.subflows + [Initial(n.nextId, seed)])
  {
    WrapAdd16(s.nextId + |seeds|, 1);
    assert FreshSubflows(s.nextId, seeds + [seed])
        == FreshSubflows(s.nextId, seeds) + [Initial(Wrap16(s.nextId + |seeds|), seed)];
  }

  function PathCount(interfaces: nat, addresses: nat, valid: (nat, nat) -> bool): nat {
    if interfaces == 0 then 0
    else PathCount(interfaces - 1, addresses, valid) + RowCount(interfaces - 1, addresses, valid)
  }

  // The valid paths of one interface, and of all.
  function ValidRow(i: nat, addresses: nat, valid: (nat, nat) -> bool): set<(nat, nat)> {
    set j: nat | 0 <= j < addresses && valid(i, j) :: (i, j)
  }

  function ValidPaths(interfaces: nat, addresses: nat, valid: (nat, nat) -> bool): set<(nat, nat)> {
    set i, j | 0 <= i < interfaces && 0 <= j < addresses && valid(i, j) :: (i, j)
  }

  lemma RowGrows(i: nat, addresses: nat, valid: (nat, nat) -> bool)
    ensures ValidRow(i, addresses + 1, valid)
              == ValidRow(i, addresses, valid) + if valid(i, addresses) then {(i, addresses)} else {}
    ensures (i, addresses) !in ValidRow(i, addresses, valid)
  {
  }

  lemma {:induction false} RowCounts(i: nat, addresses: nat, valid: (nat, nat) -> bool)
    ensures |ValidRow(i, addresses, valid)| == RowCount(i, addresses, valid)
    decreases addresses
  {
    if addresses > 0 {
      RowCounts(i, addresses - 1, valid);
      RowGrows(i, addresses - 1, valid);
      hide ValidRow;
    } else {
      assert ValidRow(i, 0, valid) == {};
    }
  }

  lemma PathsGrow(interfaces: nat, addresses: nat, valid: (nat, nat) -> bool)
    ensures ValidPaths(interfaces + 1, addresses, valid)
              == ValidPaths(interfaces, addresses, valid) + ValidRow(interfaces, addresses, valid)
    ensures ValidPaths(interfaces, addresses, valid) !! ValidRow(interfaces, addresses, valid)
  {
  }

  // One subflow for every valid pair of an interface and an address, each pair once.
  lemma {:induction false} PathsCounted(interfaces: nat, addresses: nat, valid: (nat, nat) -> bool)
    ensures PathCount(interfaces, addresses, valid) == |ValidPaths(interfaces, addresses, valid)|
    decreases interfaces
  {
    if interfaces > 0 {
      PathsCounted(interfaces - 1, addresses, valid);
      RowCounts(interfaces - 1, addresses, valid);
      PathsGrow(interfaces - 1, addresses, valid);
      hide ValidRow, ValidPaths;
    } else {
      assert ValidPaths(0, addresses, valid) == {};
    }
  }

  lemma NoneConnected(s: SenderState, ssrc: u32)
    ensures AfterConnect(s, 1, ssrc, []) == s.(ssrc := ssrc)
  {
  }

  lemma MoreInterfaces(s: SenderState, interfaces: nat, ssrc: u32, seeds: seq<u16>)
    requires interfaces > 0
    ensures AfterConnect(s, interfaces, ssrc, seeds) == AfterConnect(s, 1, ssrc, seeds)
  {
  }

  function DataHeader(sequence: u16, timestamp: u32, ssrc: u32, id: u16, subflowSequence: u16): (b: seq<u8>)
    ensures |b| == 22
  {
    [0x90, 0] + Be16(sequence) + (Be32(timestamp) + Be32(ssrc)) + (Be16(MPRTP_EXTENSION) + Be16(2))
    + ([4, 4] + Be16(id) + Be16(subflowSequence))
  }

  lemma TwoWords(x: u32, y: u32)
    ensures EncodeWords([x, y]) == Be32(x) + Be32(y)
  {
    assert [x, y][1..] == [y] && [y][1..] == [];
  }

  lemma DataPacketBytes(sequence: u16, timestamp: u32, ssrc: u32, id: u16, subflowSequence: u16, data: seq<u8>)
    ensures Encode(DataPacket(sequence, timestamp, ssrc, id, subflowSequence, data))
              == DataHeader(sequence, timestamp, ssrc, id, subflowSequence) + ([0, 0] + data)
  {
    hide Be16, Be32, EncodeWords;
    var p := DataPacket(sequence, timestamp, ssrc, id, subflowSequence, data);
    TwoWords(timestamp, ssrc);
    assert [timestamp, ssrc] + [] == [timestamp, ssrc];
    assert EncodeFixed(p) == [0x90, 0] + Be16(sequence) + (Be32(timestamp) + Be32(ssrc));
    assert EncodeExtension(p.extension)
        == (Be16(MPRTP_EXTENSION) + Be16(2)) + (([4, 4] + Be16(id) + Be16(subflowSequence)) + [0, 0]);
    assert EncodePadding(0) == [];
  }

  lemma StampFrame(s: SenderState, unit: real, now: real, random: u16, n: u16)
    requires unit != 0.0
    ensures var t := NextTimestamp(s, unit, now, random);
            && NextTimestamp(s.(sequence := n), unit, now, random) == t.(sequence := n)
            && t.packetCount == s.packetCount && t.octetCount == s.octetCount
            && t.lastReportTime == s.lastReportTime && t.subflows == s.subflows
  {
  }

  lemma DataLength(sequence: u16, timestamp: u32, ssrc: u32, id: u16, subflowSequence: u16, data: seq<u8>)
    ensures |Encode(DataPacket(sequence, timestamp, ssrc, id, subflowSequence, data))| == |data| + 24
  {
    DataPacketBytes(sequence, timestamp, ssrc, id, subflowSequence, data);
  }

  lemma PlainSrBytes(sr: SenderReport)
    requires sr.blocks == []
    ensures EncodeSrPacket(sr) == Header(0, TYPE_SR, 6) + Be32(sr.ssrc)
                                  + EncodeWords([sr.ntpMsw, sr.ntpLsw, sr.rtpTimestamp, sr.packetCount, sr.octetCount])
  {
    hide Be32;
    var rest := [sr.ntpMsw, sr.ntpLsw, sr.rtpTimestamp, sr.packetCount, sr.octetCount];
    assert SenderInfo(sr)[0] == sr.ssrc && SenderInfo(sr)[1..] == rest;
    assert EncodeWords(SenderInfo(sr)) == Be32(sr.ssrc) + EncodeWords(rest);
    hide EncodeWords;
    assert EncodeRrs([]) == [];
  }

  lemma NoReports(s: SenderState, head: seq<u8>)
    ensures head + EncodeBlocks(SubflowReports(s, [])) == head
    ensures forall v: seq<SubflowState> :: v[..0] == []
  {
  }

  lemma {:induction false} ReportsAppend(s: SenderState, v: seq<SubflowState>, x: SubflowState)
    ensures SubflowReports(s, v + [x])
              == SubflowReports(s, v) + [SrDelivery(x.id, ReportFor(s, x.packetCount, x.octetCount))]
    decreases |v|
  {
    var all := v + [x];
    if v != [] {
      assert all[0] == v[0] && all[1..] == v[1..] + [x];
      ReportsAppend(s, v[1..], x);
    } else {
      assert all[1..] == [];
    }
  }

  lemma OneMoreReport(s: SenderState, v: seq<SubflowState>, i: nat, head: seq<u8>)
    requires i < |v|
    ensures var d := SrDelivery(v[i].id, ReportFor(s, v[i].packetCount, v[i].octetCount));
            head + EncodeBlocks(SubflowReports(s, v[..i + 1]))
              == head + EncodeBlocks(SubflowReports(s, v[..i])) + EncodeBlock(d)
  {
    var d := SrDelivery(v[i].id, ReportFor(s, v[i].packetCount, v[i].octetCount));
    assert v[..i + 1] == v[..i] + [v[i]];
    ReportsAppend(s, v[..i], v[i]);
    BlocksAppend(SubflowReports(s, v[..i]), d);
    hide EncodeBlocks, EncodeBlock, SubflowReports;
    Regroup(head, EncodeBlocks(SubflowReports(s, v[..i])), EncodeBlock(d));
  }

  lemma BlockReport(s: SenderState, x: SubflowState, ntp: NtpTime)
    requires ntp == ToNtp(s.lastPacketTime)
    ensures ReportFor(s, x.packetCount, x.octetCount)
              == SenderReport(s.ssrc, ntp.msw, ntp.lsw, s.timestamp, x.packetCount, x.octetCount, [])
  {
  }

  lemma RestIsZero(start: seq<u8>, now: seq<u8>, written: seq<u8>)
    requires Written(start, now, 0, written) && forall k :: 0 <= k < |start| ==> start[k] == 0
    ensures forall k :: |written| <= k < |now| ==> now[k] == 0
  {
    forall k | |written| <= k < |now| ensures now[k] == 0 {
      AfterWritten(start, now, 0, written, k);
    }
  }

  lemma ReportBytes(s: SenderState)
    requires ReportFits(s)
    ensures EncodeCompound(ReportParts(s))
              == EncodeSrPacket(ReportFor(s, s.packetCount, s.octetCount))
                 + EncodeMprtcp(s.ssrc, s.ssrc, SubflowReports(s, s.subflows))
  {
    hide EncodeSrPacket, EncodeMprtcp, SubflowReports;
    var ps := ReportParts(s);
    assert ps[1..] == [ps[1]] && ps[1..][1..] == [];
    assert EncodeCompound(ps[1..]) == EncodePart(ps[1]) + EncodeCompound([]);
  }

  lemma ReportBytesLength(s: SenderState)
    requires ReportFits(s)
    ensures |EncodeCompound(ReportParts(s))| == ReportLength(s)
  {
    SenderReportRoundTrip(s);
  }

  ghost predicate Ascending(indices: seq<nat>, n: nat) {
    && (forall k :: 0 <= k < |indices| ==> indices[k] < n)
    && (forall k, l :: 0 <= k < l < |indices| ==> indices[k] < indices[l])
  }

  // The indices are exactly those of the rest members among the first n.
  ghost predicate Collected(v: seq<SubflowState>, indices: seq<nat>, n: nat)
    requires n <= |v|
  {
    && Ascending(indices, |v|)
    && (forall k :: 0 <= k < |indices| ==> indices[k] < n && IsRest(v[indices[k]]))
    && (forall j :: 0 <= j < n && IsRest(v[j]) ==> j in indices)
  }

  // The states at the given indices.
  ghost function Along(v: seq<SubflowState>, indices: seq<nat>): seq<SubflowState>
    requires Ascending(indices, |v|)
  {
    seq(|indices|, k requires 0 <= k < |indices| => v[indices[k]])
  }

  lemma SumsOfNothing(v: seq<SubflowState>, total: real, sb: real)
    requires total != 0.0
    ensures AssignedShare(v[..0], total, sb) == 0.0 && RestTested(v[..0]) == 0.0 && TotalTested([]) == 0.0
  {
  }

  lemma NothingCollected(v: seq<SubflowState>)
    ensures Collected(v, [], 0) && Along(v, []) == []
  {
  }

  lemma SumsOneMore(v: seq<SubflowState>, i: nat, total: real, sb: real)
    requires i < |v| && total != 0.0
    ensures AssignedShare(v[..i + 1], total, sb)
              == AssignedShare(v[..i], total, sb) + if IsRest(v[i]) then 0.0 else LimitedShare(v[i], total, sb)
    ensures RestTested(v[..i + 1]) == RestTested(v[..i]) + if IsRest(v[i]) then v[i].tested else 0.0
  {
    hide LimitedShare;
    PrefixStep(v, i);
  }

  lemma CollectOneMore(v: seq<SubflowState>, i: nat, indices: seq<nat>)
    requires i < |v| && Collected(v, indices, i)
    ensures IsRest(v[i]) ==> Collected(v, indices + [i], i + 1)
    ensures !IsRest(v[i]) ==> Collected(v, indices, i + 1)
  {
    var more := indices + [i];
    forall j | 0 <= j < i + 1 && IsRest(v[j]) ensures j in more {
      if j == i {
        assert more[|indices|] == i;
      }
    }
  }

  lemma TotalAppend(v: seq<SubflowState>, x: SubflowState)
    ensures TotalTested(v + [x]) == TotalTested(v) + x.tested
  {
    assert (v + [x])[..|v|] == v;
  }

  lemma AlongOneMore(v: seq<SubflowState>, i: nat, indices: seq<nat>)
    requires i < |v| && Ascending(indices, |v|) && Ascending(indices + [i], |v|)
    ensures TotalTested(Along(v, indices + [i])) == TotalTested(Along(v, indices)) + v[i].tested
  {
    assert Along(v, indices + [i]) == Along(v, indices) + [v[i]];
    TotalAppend(Along(v, indices), v[i]);
  }

  lemma NothingCongestedMeansNone(v: seq<SubflowState>)
    ensures CongestedCount(v) == 0 == |v| ==> v == []
  {
  }

  // The stepwise branch reads the share held before only to keep it.
  lemma StepwiseSame(v: seq<SubflowState>, xs: seq<real>, sb: real, i: nat)
    requires |xs| == |v| && i < |v| && TotalTested(v) != 0.0
    ensures TotalTested(WithShares(v, xs)) == TotalTested(v)
    ensures StepwiseShare(WithShares(v, xs), sb, i) ==
            if IsRest(v[i]) && RestTested(v) == 0.0 then xs[i] else StepwiseShare(v, sb, i)
  {
    SharesKeepSums(v, xs, TotalTested(v), sb);
    hide AssignedShare, RestTested, TotalTested, RestPart;
  }

  lemma FallThroughShare(v: seq<SubflowState>, xs: seq<real>, sb: real, i: nat)
    requires AllReady(v) && CongestedCount(v) < |v| && Divisible(v, sb) && |xs| == |v| && i < |v|
    requires xs[i] == if CongestedCount(v) == 0 then v[i].tested / TotalTested(v) else v[i].share
    ensures TotalTested(WithShares(v, xs)) == TotalTested(v) != 0.0
    ensures StepwiseShare(WithShares(v, xs), sb, i) == NewShare(v, sb, i)
  {
    StepwiseSame(v, xs, sb, i);
    hide AssignedShare, RestTested, TotalTested, CongestedCount, RestPart, LimitedShare;
  }

  // The states the stepwise branch starts from give it the shares of the whole function.
  lemma FallThroughShares(v: seq<SubflowState>, w: seq<SubflowState>, sb: real)
    requires AllReady(v) && CongestedCount(v) < |v| && Divisible(v, sb) && |w| == |v|
    requires forall i :: 0 <= i < |v| ==>
               w[i] == if CongestedCount(v) == 0 then v[i].(share := v[i].tested / TotalTested(v)) else v[i]
    ensures TotalTested(w) == TotalTested(v) != 0.0
    ensures forall i :: 0 <= i < |v| ==> StepwiseShare(w, sb, i) == NewShare(v, sb, i)
  {
    var xs := seq(|v|, i requires 0 <= i < |v| => w[i].share);
    assert w == WithShares(v, xs);
    StepwiseSame(v, xs, sb, 0);
    hide StepwiseShare, NewShare, TotalTested, CongestedCount;
    forall i | 0 <= i < |v| ensures StepwiseShare(w, sb, i) == NewShare(v, sb, i) {
      FallThroughShare(v, xs, sb, i);
    }
  }

  class Sender {
    const unit: real
    var ssrc: u32
    var sequence: u16
    var timestamp: u32
    var nextId: u16
    var subflows: seq<Subflow>
    var recalc: bool
    var packetCount: u32
    var octetCount: u32
    var lastPacketTime: real
    var lastReportTime: real
    var streamBitrate: real
    var rateBytes: u32
    var rateTime: real

    ghost predicate Valid()
      reads this
    {
      unit != 0.0 && Separate(subflows)
    }

    ghost function State(): SenderState
      reads this, subflows
    {
      SenderState(ssrc, sequence, timestamp, nextId, packetCount, octetCount, lastPacketTime, lastReportTime,
                  streamBitrate, rateBytes, rateTime, recalc, States(subflows))
    }

    constructor (unit: real, sequence: u16)
      requires unit != 0.0
      ensures Valid() && New(State()) && State().sequence == sequence
    {
      this.unit, this.sequence := unit, sequence;
      ssrc, timestamp, nextId, subflows, recalc := 0, 0, 1, [], false;
      packetCount, octetCount, lastPacketTime, lastReportTime := 0, 0, 0.0, 0.0;
      streamBitrate, rateBytes, rateTime := 1.0, 0, 0.0;
    }

    method AddSubflow() returns (ghost seed: u16)
      requires Valid()
      modifies this`subflows, this`nextId
      ensures Valid() && |subflows| == |old(subflows)| + 1 && old(subflows) <= subflows
      ensures fresh(subflows[|old(subflows)|])
      ensures State() == old(State()).(nextId := Wrap16(old(nextId) + 1),
                                       subflows := old(States(subflows)) + [Initial(old(nextId), seed)])
    {
      var first: u16 := *;
      seed := first;
      ghost var v := States(subflows);
      var sf := new Subflow(nextId, first);
      nextId := Wrap16(nextId + 1);
      subflows := subflows + [sf];
      assert States(subflows) == v + [sf.State()];
    }

    method ConnectInterface(i: nat, addresses: nat, valid: (nat, nat) -> bool,
                            ghost before: SenderState, ghost source: u32, ghost drawn: seq<u16>)
      returns (ghost seeds: seq<u16>)
      requires Valid() && State() == AfterConnect(before, 1, source, drawn)
      modifies this`subflows, this`nextId
      ensures Valid() && State() == AfterConnect(before, 1, source, seeds)
      ensures |seeds| == |drawn| + RowCount(i, addresses, valid)
      ensures old(subflows) <= subflows && forall k :: |old(subflows)| <= k < |subflows| ==> fresh(subflows[k])
    {
      hide AfterConnect;
      seeds := drawn;
      for j := 0 to addresses
        invariant Valid() && State() == AfterConnect(before, 1, source, seeds)
        invariant |seeds| == |drawn| + RowCount(i, j, valid)
        invariant old(subflows) <= subflows && forall k :: |old(subflows)| <= k < |subflows| ==> fresh(subflows[k])
      {
        if valid(i, j) {
          ghost var seed := AddSubflow();
          OneMoreConnected(before, source, seeds, seed);
          seeds := seeds + [seed];
        }
      }
    }

    // One subflow for every valid path between an interface and an address. The seeds are the random
    // first sequence numbers drawn for them.
    method Connect(ssrc: u32, interfaces: nat, addresses: nat, valid: (nat, nat) -> bool)
      returns (ok: bool, ghost seeds: seq<u16>)
      requires Valid()
      modifies this`ssrc, this`subflows, this`nextId
      ensures Valid() && State() == AfterConnect(old(State()), interfaces, ssrc, seeds)
      ensures |seeds| == PathCount(interfaces, addresses, valid)
      ensures old(subflows) <= subflows && forall k :: |old(subflows)| <= k < |subflows| ==> fresh(subflows[k])
      ensures ok == (interfaces > 0 && subflows != [])
    {
      seeds := [];
      if interfaces == 0 {
        return false, seeds;
      }
      ghost var before := State();
      this.ssrc := ssrc;
      NoneConnected(before, ssrc);
      hide AfterConnect;
      for i := 0 to interfaces
        invariant Valid() && State() == AfterConnect(before, 1, ssrc, seeds)
        invariant |seeds| == PathCount(i, addresses, valid)
        invariant old(subflows) <= subflows && forall k :: |old(subflows)| <= k < |subflows| ==> fresh(subflows[k])
      {
        seeds := ConnectInterface(i, addresses, valid, before, ssrc, seeds);
      }
      ok := subflows != [];
      MoreInterfaces(before, interfaces, ssrc, seeds);
    }

    method SelectSubflow(draw: nat) returns (sf: Subflow, ghost i: nat)
      requires Valid() && subflows != []
      ensures sf == subflows[Chosen(State(), draw)]
      ensures i == Chosen(State(), draw)
    {
      var rnd := draw as real / 100.0;
      var p := 0.0;
      ghost var xs := ShareList(States(subflows));
      for k := 0 to |subflows|
        invariant p == Sum(xs[..k])
        invariant PickFrom(xs, draw, 0) == PickFrom(xs, draw, k)
      {
        SumStep(xs, k);
        p := p + subflows[k].share;
        if p > rnd {
          return subflows[k], k;
        }
      }
      return subflows[0], 0;
    }

    method GetNextTimestamp(now: real, random: u16)
      requires Valid()
      modifies this`timestamp, this`lastPacketTime
      ensures State() == NextTimestamp(old(State()), unit, now, random)
    {
      if packetCount == 0 {
        lastPacketTime := now;
        timestamp := random;
      } else {
        timestamp := Wrap32(timestamp + ToU32((now - lastPacketTime) / unit + 0.5));
        lastPacketTime := now;
      }
    }

    method UpdateStreamBitrate(size: u32, now: real)
      modifies this`rateBytes, this`rateTime
      ensures State() == CountRate(old(State()), size, now)
    {
      rateBytes := Wrap32(rateBytes + size);
      if rateTime == 0.0 {
        rateTime := now;
      }
    }

    // The packet as written into its buffer: payload first, then the headers before it.
    method BuildPacket(data: seq<u8>, sequence: u16, sf: Subflow) returns (pkt: seq<u8>)
      ensures pkt == Encode(DataPacket(sequence, timestamp, ssrc, sf.id, sf.sequence, data))
    {
      hide Be16, Be32, Encode, DataPacket;
      var buf := Zeroed(24 + |data|);
      var next := Put(buf, 24, data);
      ghost var start := buf[..];
      assert start[22..] == [0, 0] + data;
      ghost var h := [0x90, 0] + Be16(sequence);
      next := Put(buf, 0, [0x90, 0] + Be16(sequence));
      next := Append(buf, next, Be32(timestamp) + Be32(ssrc), start, 0, h);
      h := h + (Be32(timestamp) + Be32(ssrc));
      next := Append(buf, next, Be16(MPRTP_EXTENSION) + Be16(2), start, 0, h);
      h := h + (Be16(MPRTP_EXTENSION) + Be16(2));
      next := Append(buf, next, [4, 4] + Be16(sf.id) + Be16(sf.sequence), start, 0, h);
      h := h + ([4, 4] + Be16(sf.id) + Be16(sf.sequence));
      assert h == DataHeader(sequence, timestamp, ssrc, sf.id, sf.sequence);
      pkt := buf[..];
      assert pkt == h + start[22..];
      DataPacketBytes(sequence, timestamp, ssrc, sf.id, sf.sequence, data);
    }

    method StampPacket(data: seq<u8>, sf: Subflow, input: SendInput) returns (pkt: seq<u8>)
      requires Valid()
      modifies this`sequence, this`timestamp, this`lastPacketTime
      ensures State() == NextTimestamp(old(State()).(sequence := Wrap16(old(sequence) + 1)), unit, input.stampTime,
                                       input.random)
      ensures pkt == Encode(DataPacket(old(sequence), timestamp, ssrc, sf.id, sf.sequence, data))
    {
      hide Encode, DataPacket, NextTimestamp;
      var number := sequence;
      sequence := Wrap16(sequence + 1);
      GetNextTimestamp(input.stampTime, input.random);
      pkt := BuildPacket(data, number, sf);
    }

    method Dispatch(sf: Subflow, ghost i: nat, size: u32, delivered: bool)
      requires Valid() && i < |subflows| && sf == subflows[i]
      modifies sf
      ensures var sent := Sent(old(sf.State()), size, delivered, false);
              State() == old(State()).(subflows := old(States(subflows))[i := sent])
    {
      ghost var v := States(subflows);
      hide Sent;
      sf.SendTo(size, delivered, false);
      assert forall j :: 0 <= j < |subflows| && j != i ==> subflows[j].State() == v[j];
      assert States(subflows) == v[i := sf.State()];
    }

    method CountDelivered(pkt: seq<u8>, data: seq<u8>, input: SendInput)
      requires |pkt| == |data| + 24 && |data| <= MAX_PAYLOAD
      modifies this`lastReportTime, this`packetCount, this`octetCount, this`rateBytes, this`rateTime
      ensures State() ==
              var s := old(State());
              CountRate(s.(lastReportTime := if s.packetCount == 0 then input.firstTime else s.lastReportTime,
                           packetCount := Wrap32(s.packetCount + 1), octetCount := Wrap32(s.octetCount + |data|)),
                        Wrap32(|data| + 24), input.rateTime)
    {
      if packetCount == 0 {
        lastReportTime := input.firstTime;
      }
      packetCount := Wrap32(packetCount + 1);
      octetCount := Wrap32(octetCount + |data|);
      UpdateStreamBitrate(Wrap32(|pkt|), input.rateTime);
    }

    method SendData(data: seq<u8>, input: SendInput) returns (ok: bool, pkt: seq<u8>)
      requires Valid() && subflows != [] && |data| <= MAX_PAYLOAD
      modifies this, subflows
      ensures Valid() && subflows == old(subflows)
      ensures State() == AfterSend(old(State()), unit, |data|, input)
      ensures ok == input.delivered
      ensures var i := Chosen(old(State()), input.draw); var sf := old(States(subflows))[i];
              pkt == Encode(DataPacket(old(sequence), timestamp, ssrc, sf.id, sf.sequence, data))
    {
      ghost var s := State();
      hide Chosen, Sent, Encode, DataPacket, NextTimestamp, CountRate, Wrap16, Wrap32;
      StampFrame(s, unit, input.stampTime, input.random, Wrap16(sequence + 1));
      var sf, i := SelectSubflow(input.draw);
      ghost var number := sequence;
      pkt := StampPacket(data, sf, input);
      Dispatch(sf, i, |data|, input.delivered);
      if input.delivered {
        DataLength(number, timestamp, ssrc, s.subflows[i].id, s.subflows[i].sequence, data);
        CountDelivered(pkt, data, input);
      }
      ok := input.delivered;
    }

    method FindSubflow(id: u16) returns (k: nat)
      ensures k == FindId(States(subflows), id)
    {
      ghost var v := States(subflows);
      k := 0;
      while k < |subflows|
        invariant k <= |subflows|
        invariant forall j :: 0 <= j < k ==> v[j].id != id
      {
        if subflows[k].id == id {
          return;
        }
        k := k + 1;
      }
    }

    method DeliverRr(k: nat, r: ReceivedReport, t0: real, t1: real)
      requires Valid() && k < |subflows| && Measurable(States(subflows)[k], r)
      modifies subflows
      ensures States(subflows) == old(States(subflows))[k := OnReport(old(States(subflows))[k], r, t0, t1)]
    {
      ghost var v := States(subflows);
      hide OnReport;
      subflows[k].ProcessRrPacket(r, t0, t1);
      assert forall j :: 0 <= j < |subflows| && j != k ==> subflows[j].State() == v[j];
    }

    method OnRtcpRr(r: ReceivedReport, id: u16, t0: real, t1: real)
      requires Valid() && ReportMeasurable(State(), id, r)
      modifies this`recalc, subflows
      ensures Valid()
      ensures State() == AfterReport(old(State()), id, r, t0, t1)
    {
      hide OnReport, FindId;
      if id == 0 {
        return;
      }
      var k := FindSubflow(id);
      if k < |subflows| {
        DeliverRr(k, r, t0, t1);
        recalc := true;
      }
    }

    // ----- sender reports -----

    // The header byte keeps its low bits, which the cleared buffer makes zero.
    method MakeSenderReport(buf: array<u8>, at: nat, packets: u32, octets: u32, ntp: NtpTime) returns (next: nat)
      requires at + 28 <= buf.Length && buf[at] == 0
      modifies buf
      ensures Written(old(buf[..]), buf[..], at,
                      EncodeSrPacket(SenderReport(ssrc, ntp.msw, ntp.lsw, timestamp, packets, octets, [])))
      ensures next == at + 28
    {
      hide Be16, Be32, EncodeWords;
      ghost var start := buf[..];
      next := Put(buf, at, [0x80 + buf[at] % 64, TYPE_SR] + Be16(6));
      ghost var header := Header(0, TYPE_SR, 6);
      next := Append(buf, next, Be32(ssrc), start, at, header);
      next := Append(buf, next, EncodeWords([ntp.msw, ntp.lsw, timestamp, packets, octets]), start, at,
                     header + Be32(ssrc));
      PlainSrBytes(SenderReport(ssrc, ntp.msw, ntp.lsw, timestamp, packets, octets, []));
    }

    // One block: type, id and report, and then its length in words into the second byte.
    method MakeBlock(buf: array<u8>, at: nat, sf: Subflow, ntp: NtpTime) returns (next: nat)
      requires at + 32 <= buf.Length && buf[at + 4] == 0
      modifies buf
      ensures Written(old(buf[..]), buf[..], at,
                      EncodeBlock(SrDelivery(sf.id, SenderReport(ssrc, ntp.msw, ntp.lsw, timestamp, sf.packetCount,
                                                                 sf.octetCount, []))))
      ensures next == at + 32
    {
      hide Be16, EncodeSrPacket;
      ghost var start := buf[..];
      next := Put(buf, at, [BLOCK_SUBFLOW, 0] + Be16(sf.id));
      ghost var b1 := buf[..];
      next := MakeSenderReport(buf, next, sf.packetCount, sf.octetCount, ntp);
      ghost var report := EncodeSrPacket(SenderReport(ssrc, ntp.msw, ntp.lsw, timestamp, sf.packetCount,
                                                      sf.octetCount, []));
      ghost var b2 := buf[..];
      WrittenThen(start, b1, b2, at, [BLOCK_SUBFLOW, 0] + Be16(sf.id), report);
      var end := Put(buf, at + 1, [(next - at) / 4]);
      WrittenOver(start, b2, buf[..], at, [BLOCK_SUBFLOW, 0] + Be16(sf.id) + report, 1, [8]);
      ghost var x := [BLOCK_SUBFLOW, 0] + Be16(sf.id) + report;
      assert x[..1] + [8] + x[2..] == [BLOCK_SUBFLOW, 8] + Be16(sf.id) + report;
    }

    // All blocks, behind a head already written at `at`.
    method MakeBlocks(buf: array<u8>, at: nat, ntp: NtpTime, ghost start: seq<u8>, ghost base: nat, ghost head: seq<u8>)
      returns (next: nat)
      requires ntp == ToNtp(lastPacketTime) && at == base + |head| && at + 32 * |subflows| <= buf.Length
      requires |start| == buf.Length && Written(start, buf[..], base, head)
      requires forall k :: at <= k < |start| ==> start[k] == 0
      modifies buf
      ensures Written(start, buf[..], base, head + EncodeBlocks(SubflowReports(State(), States(subflows))))
      ensures next == at + 32 * |subflows|
    {
      hide EncodeBlocks, SubflowReports, EncodeBlock, ReportFor, ToNtp, Written;
      ghost var s, v := State(), States(subflows);
      next := at;
      NoReports(s, head);
      for i := 0 to |subflows|
        invariant next == at + 32 * i
        invariant Written(start, buf[..], base, head + EncodeBlocks(SubflowReports(s, v[..i])))
      {
        OneMoreReport(s, v, i, head);
        ghost var before := buf[..];
        AfterWritten(start, before, base, head + EncodeBlocks(SubflowReports(s, v[..i])), next + 4);
        next := MakeBlock(buf, next, subflows[i], ntp);
        BlockReport(s, v[i], ntp);
        WrittenThen(start, before, buf[..], base, head + EncodeBlocks(SubflowReports(s, v[..i])),
                    EncodeBlock(SrDelivery(v[i].id, ReportFor(s, v[i].packetCount, v[i].octetCount))));
      }
      assert v[..|v|] == v;
    }

    method MakeSubflowSenderReport(buf: array<u8>, at: nat, ntp: NtpTime) returns (next: nat)
      requires ReportFits(State()) && at + 12 + 32 * |subflows| <= buf.Length && ntp == ToNtp(lastPacketTime)
      requires forall k :: at <= k < buf.Length ==> buf[k] == 0
      modifies buf
      ensures Written(old(buf[..]), buf[..], at, EncodeMprtcp(ssrc, ssrc, SubflowReports(State(), States(subflows))))
      ensures next == at + 12 + 32 * |subflows|
    {
      hide Be16, Be32, EncodeBlocks, SubflowReports, ToNtp, Written;
      ghost var start, ds := buf[..], SubflowReports(State(), States(subflows));
      ghost var head := [0x80, TYPE_MPRTP, 0, 0] + (Be32(ssrc) + Be32(ssrc));
      next := Put(buf, at, [0x80 + buf[at] % 64, TYPE_MPRTP, 0, 0] + (Be32(ssrc) + Be32(ssrc)));
      next := MakeBlocks(buf, next, ntp, start, at, head);
      ghost var whole := buf[..];
      var end := Put(buf, at + 2, Be16((next - at - 1) / 4));
      WrittenOver(start, whole, buf[..], at, head + EncodeBlocks(ds), 2, Be16((next - at - 1) / 4));
      PatchedHead(ssrc, ssrc, ds);
    }

    method BuildReport() returns (pkt: seq<u8>)
      requires ReportFits(State())
      ensures pkt == EncodeCompound(ReportParts(State()))
    {
      hide EncodeSrPacket, EncodeMprtcp, SubflowReports, ToNtp, ReportParts, EncodeCompound;
      var buf := Zeroed(MAX_PACKET);
      ghost var s, start := State(), buf[..];
      var ntp := ToNtp(lastPacketTime);
      var next := MakeSenderReport(buf, 0, packetCount, octetCount, ntp);
      ghost var first := buf[..];
      RestIsZero(start, first, EncodeSrPacket(ReportFor(s, s.packetCount, s.octetCount)));
      next := MakeSubflowSenderReport(buf, next, ntp);
      WrittenThen(start, first, buf[..], 0, EncodeSrPacket(ReportFor(s, s.packetCount, s.octetCount)),
                  EncodeMprtcp(ssrc, ssrc, SubflowReports(s, s.subflows)));
      ReportBytes(s);
      pkt := buf[..next];
    }

    method SendRtcp(draw: nat, delivered: bool)
      requires Valid() && subflows != []
      modifies subflows
      ensures State() == old(State())
    {
      ghost var v := States(subflows);
      var sf, i := SelectSubflow(draw);
      sf.SendTo(0, delivered, true);
      assert States(subflows) == v;
    }

    method FinishReport(size: u32, now: real)
      modifies this`rateBytes, this`rateTime, this`lastReportTime
      ensures State() == CountRate(old(State()), size, now).(lastReportTime := old(lastPacketTime))
    {
      UpdateStreamBitrate(size, now);
      lastReportTime := lastPacketTime;
    }

    method SendSenderReport(input: PollInput, draw: nat, delivered: bool) returns (pkt: seq<u8>)
      requires Valid() && subflows != [] && ReportFits(State())
      modifies this`timestamp, this`lastPacketTime, this`rateBytes, this`rateTime, this`lastReportTime, subflows
      ensures Valid() && State() == AfterSenderReport(old(State()), unit, input)
      ensures pkt == EncodeCompound(ReportParts(NextTimestamp(old(State()), unit, input.stampTime, input.random)))
    {
      hide EncodeCompound, ReportParts, NextTimestamp, CountRate, Wrap32;
      StampFrame(State(), unit, input.stampTime, input.random, sequence);
      GetNextTimestamp(input.stampTime, input.random);
      pkt := BuildReport();
      ReportBytesLength(State());
      SendRtcp(draw, delivered);
      FinishReport(Wrap32(|pkt|), input.rateTime);
    }

    // ----- traffic shares -----

    // The count of congested subflows, unless one is not ready.
    method CountCongested() returns (ready: bool, count: nat)
      ensures ready == AllReady(States(subflows))
      ensures ready ==> count == CongestedCount(States(subflows))
    {
      ghost var v := States(subflows);
      count := 0;
      for i := 0 to |subflows|
        invariant count == CongestedCount(v[..i]) && forall j :: 0 <= j < i ==> v[j].ready
      {
        PrefixStep(v, i);
        if !subflows[i].ready {
          assert !v[i].ready;
          return false, count;
        }
        if subflows[i].indicator == CIMAX {
          count := count + 1;
        }
      }
      assert v[..|v|] == v;
      ready := true;
    }

    method SumTested(fs: seq<Subflow>) returns (sum: real)
      ensures sum == TotalTested(States(fs))
    {
      sum := 0.0;
      ghost var v := States(fs);
      for i := 0 to |fs|
        invariant sum == TotalTested(v[..i])
      {
        PrefixStep(v, i);
        sum := sum + fs[i].tested;
      }
      assert v[..|fs|] == v;
    }

    method SpreadTested()
      requires Valid() && (subflows == [] || TotalTested(States(subflows)) != 0.0)
      modifies subflows
      ensures forall i :: 0 <= i < |subflows| ==>
                var v := old(States(subflows));
                subflows[i].State() == v[i].(share := v[i].tested / TotalTested(v))
    {
      ghost var v := States(subflows);
      var sum := SumTested(subflows);
      hide TotalTested;
      for i := 0 to |subflows|
        invariant forall j :: 0 <= j < |subflows| ==>
                    subflows[j].State() == if j < i then v[j].(share := v[j].tested / sum) else v[j]
      {
        subflows[i].SetPercentage(subflows[i].tested / sum);
      }
    }

    method SumCongested() returns (sum: real)
      ensures sum == TotalCongested(States(subflows))
    {
      sum := 0.0;
      ghost var v := States(subflows);
      for i := 0 to |subflows|
        invariant sum == TotalCongested(v[..i])
      {
        PrefixStep(v, i);
        sum := sum + subflows[i].congested;
      }
      assert v[..|subflows|] == v;
    }

    method SpreadCongested()
      requires Valid() && (subflows == [] || TotalCongested(States(subflows)) != 0.0)
      modifies subflows
      ensures forall i :: 0 <= i < |subflows| ==>
                var v := old(States(subflows));
                subflows[i].State() == v[i].(share := v[i].congested / TotalCongested(v))
    {
      ghost var v := States(subflows);
      var sum := SumCongested();
      hide TotalCongested;
      for i := 0 to |subflows|
        invariant forall j :: 0 <= j < |subflows| ==>
                    subflows[j].State() == if j < i then v[j].(share := v[j].congested / sum) else v[j]
      {
        subflows[i].SetPercentage(subflows[i].congested / sum);
      }
    }

    // min(TB / total, weight * CB / SB); a zero SB leaves the first operand.
    method Limit(sf: Subflow, total: real) returns (p: real)
      requires total != 0.0
      ensures p == LimitedShare(sf.State(), total, streamBitrate)
    {
      p := sf.tested / total;
      if streamBitrate != 0.0 {
        var cap := (if sf.indicator == CIMAX then BETA else GAMMA) * sf.congested / streamBitrate;
        if cap < p {
          p := cap;
        }
      }
    }

    // Gives congested and lossy subflows their limited share, and collects the others in order.
    method LimitTroubled(total: real) returns (assignedShare: real, rest: seq<Subflow>, ghost indices: seq<nat>)
      requires Valid() && total != 0.0
      modifies subflows
      ensures var v := old(States(subflows));
              && assignedShare == AssignedShare(v, total, streamBitrate)
              && (forall j :: 0 <= j < |subflows| ==>
                    subflows[j].State() ==
                    if IsRest(v[j]) then v[j] else v[j].(share := LimitedShare(v[j], total, streamBitrate)))
              && Collected(v, indices, |v|)
              && TotalTested(Along(v, indices)) == RestTested(v)
              && |rest| == |indices|
              && forall k :: 0 <= k < |rest| ==> rest[k] == subflows[indices[k]]
    {
      ghost var v := States(subflows);
      hide LimitedShare, AssignedShare, RestTested, TotalTested;
      SumsOfNothing(v, total, streamBitrate);
      assignedShare, rest, indices := 0.0, [], [];
      NothingCollected(v);
      for i := 0 to |subflows|
        invariant assignedShare == AssignedShare(v[..i], total, streamBitrate)
        invariant forall j :: 0 <= j < |subflows| ==>
                    subflows[j].State() ==
                    if j >= i || IsRest(v[j]) then v[j] else v[j].(share := LimitedShare(v[j], total, streamBitrate))
        invariant Collected(v, indices, i) && TotalTested(Along(v, indices)) == RestTested(v[..i])
        invariant |rest| == |indices| && forall k :: 0 <= k < |rest| ==> rest[k] == subflows[indices[k]]
      {
        SumsOneMore(v, i, total, streamBitrate);
        CollectOneMore(v, i, indices);
        if subflows[i].indicator == CIMAX || subflows[i].indicator > 0 {
          var p := Limit(subflows[i], total);
          subflows[i].SetPercentage(p);
          assignedShare := assignedShare + p;
        } else {
          AlongOneMore(v, i, indices);
          rest := rest + [subflows[i]];
          indices := indices + [i];
        }
      }
      assert v[..|v|] == v;
    }

    method SetRestPart(sf: Subflow, sum: real, left: real)
      requires sum != 0.0
      modifies sf`share
      ensures sf.share == RestPart(sf.tested, sum, left)
    {
      var p := (sf.tested / sum) * left;
      sf.SetPercentage(p);
    }

    method SpreadRest(rest: seq<Subflow>, ghost indices: seq<nat>, sum: real, left: real)
      requires Valid() && |rest| == |indices| && Ascending(indices, |subflows|) && sum != 0.0
      requires forall k :: 0 <= k < |rest| ==> rest[k] == subflows[indices[k]]
      modifies subflows
      ensures forall j :: 0 <= j < |subflows| ==>
                var v := old(States(subflows));
                subflows[j].State() == if j in indices then v[j].(share := RestPart(v[j].tested, sum, left)) else v[j]
    {
      ghost var v := States(subflows);
      hide RestPart;
      for k := 0 to |rest|
        invariant forall j :: 0 <= j < |subflows| ==>
                    subflows[j].State() ==
                    if j in indices[..k] then v[j].(share := RestPart(v[j].tested, sum, left)) else v[j]
      {
        assert indices[k] !in indices[..k];
        SetRestPart(rest[k], sum, left);
        assert indices[..k + 1] == indices[..k] + [indices[k]];
      }
      assert indices[..|rest|] == indices;
    }

    method Stepwise()
      requires Valid() && TotalTested(States(subflows)) != 0.0
      modifies subflows
      ensures forall i :: 0 <= i < |subflows| ==>
                var v := old(States(subflows));
                subflows[i].State() == v[i].(share := StepwiseShare(v, streamBitrate, i))
    {
      ghost var v := States(subflows);
      var total := SumTested(subflows);
      hide LimitedShare, AssignedShare, RestTested, TotalTested, RestPart;
      var given, rest, indices := LimitTroubled(total);
      ghost var w := States(subflows);
      assert Along(w, indices) == Along(v, indices);
      var sum := SumTested(rest);
      assert States(rest) == Along(v, indices);
      if sum != 0.0 {
        SpreadRest(rest, indices, sum, 1.0 - given);
      }
    }

    method RecalcSubflowPercentage()
      requires Valid() && Divisible(States(subflows), streamBitrate)
      modifies subflows
      ensures Valid() && subflows == old(subflows)
      ensures States(subflows) == WithShares(old(States(subflows)), NewShares(old(States(subflows)), streamBitrate))
    {
      ghost var v := States(subflows);
      hide TotalTested, TotalCongested, CongestedCount, StepwiseShare;
      var ready, congestedCount := CountCongested();
      if !ready {
        assert WithShares(v, NewShares(v, streamBitrate)) == v;
        return;
      }
      if congestedCount == 0 {
        SpreadTested();
      }
      ghost var w := States(subflows);
      if congestedCount == |subflows| {
        SpreadCongested();
        NothingCongestedMeansNone(v);
      } else {
        FallThroughShares(v, w, streamBitrate);
        Stepwise();
      }
      assert forall i :: 0 <= i < |v| ==> subflows[i].State() == v[i].(share := NewShare(v, streamBitrate, i));
    }

    // ----- polling -----

    method UpdateRate(now: real)
      modifies this`streamBitrate, this`rateBytes, this`rateTime
      ensures State() == MeasureRate(old(State()), now)
    {
      if rateTime != 0.0 {
        if rateTime + 1.0 <= now {
          streamBitrate := rateBytes as real / (now - rateTime);
          rateBytes := 0;
          rateTime := now;
        }
      } else {
        rateTime := now;
      }
    }

    method RecalcWhenAsked()
      requires Valid() && (recalc ==> Divisible(States(subflows), streamBitrate))
      modifies this`recalc, subflows
      ensures Valid() && subflows == old(subflows) && State() == Recalculated(old(State()))
    {
      hide Divisible, NewShares;
      if recalc {
        RecalcSubflowPercentage();
        recalc := false;
      }
    }

    method Poll(input: PollInput, draw: nat, delivered: bool) returns (pkt: Option<seq<u8>>)
      requires Valid() && PollDefined(State(), unit, input)
      modifies this, subflows
      ensures Valid() && subflows == old(subflows)
      ensures State() == AfterPoll(old(State()), unit, input)
      ensures pkt.Some? == ReportDue(old(State()), input.now)
      ensures var stamped := NextTimestamp(old(State()), unit, input.stampTime, input.random);
              pkt.Some? ==> pkt.value == EncodeCompound(ReportParts(stamped))
    {
      hide AfterSenderReport, EncodeCompound, ReportParts, Divisible, Recalculated, MeasureRate;
      pkt := None;
      if lastReportTime != 0.0 {
        if Truncate(input.now) - Truncate(lastReportTime) >= 5 {
          var bytes := SendSenderReport(input, draw, delivered);
          pkt := Some(bytes);
        }
      }
      UpdateRate(input.now);
      RecalcWhenAsked();
    }
  }
}
