// The sender as a state machine: one step for each public call, and what holds over whole runs.

module SenderModel {
  import opened Numeric
  import opened Reports
  import opened Clock
  import opened Congestion
  import opened Allocation
  import opened Selection
  import opened Rtcp

  datatype SenderState = SenderState(
    ssrc: u32,
    sequence: u16,
    timestamp: u32,
    nextId: u16,
    packetCount: u32,
    octetCount: u32,
    lastPacketTime: real,
    lastReportTime: real,
    streamBitrate: real,
    rateBytes: u32,
    rateTime: real,
    recalc: bool,
    subflows: seq<SubflowState>)

  const MAX_PAYLOAD := 0x7FFF_FFFF - 24

  function ShareList(v: seq<SubflowState>): (xs: seq<real>)
    ensures |xs| == |v| && forall i :: 0 <= i < |v| ==> xs[i] == v[i].share
  {
    seq(|v|, i requires 0 <= i < |v| => v[i].share)
  }

  // ----- connecting -----

  // Ids are handed out in order from 1 on, modulo 2^16.
  function IssuedId(i: nat): u16 {
    Wrap16(1 + i)
  }

  // One new subflow for each first sequence number, with ids counted on from the given one.
  function FreshSubflows(id: u16, seeds: seq<u16>): (v: seq<SubflowState>)
    ensures |v| == |seeds|
  {
    seq(|seeds|, i requires 0 <= i < |seeds| => Initial(Wrap16(id + i), seeds[i]))
  }

  // Connecting, the first time or again, appends one subflow per valid path; without an interface it
  // does nothing.
  function AfterConnect(s: SenderState, interfaces: nat, ssrc: u32, seeds: seq<u16>): SenderState {
    if interfaces == 0 then s
    else s.(ssrc := ssrc, nextId := Wrap16(s.nextId + |seeds|), subflows := s.subflows + FreshSubflows(s.nextId, seeds))
  }

  ghost predicate IdsInOrder(s: SenderState) {
    && s.nextId == IssuedId(|s.subflows|)
    && forall i :: 0 <= i < |s.subflows| ==> s.subflows[i].id == IssuedId(i)
  }

  ghost predicate DistinctIds(v: seq<SubflowState>) {
    forall i, j :: 0 <= i < j < |v| ==> v[i].id != v[j].id
  }

  // Id 0 stands for the whole stream.
  ghost predicate ProperIds(v: seq<SubflowState>) {
    DistinctIds(v) && forall i :: 0 <= i < |v| ==> v[i].id != 0
  }

  // ----- sending -----

  // The timestamp starts at a random value with the first packet and follows the clock after it.
  function NextTimestamp(s: SenderState, unit: real, now: real, random: u16): SenderState
    requires unit != 0.0
  {
    if s.packetCount == 0 then s.(lastPacketTime := now, timestamp := random)
    else s.(timestamp := Advance(s.timestamp, s.lastPacketTime, now, unit), lastPacketTime := now)
  }

  function CountRate(s: SenderState, size: u32, now: real): SenderState {
    s.(rateBytes := Wrap32(s.rateBytes + size), rateTime := if s.rateTime == 0.0 then now else s.rateTime)
  }

  // The inputs of one send: the random draw, whether the network took the packet, the clock each
  // time it is read, and the random first timestamp.
  datatype SendInput = SendInput(
    draw: nat,
    delivered: bool,
    stampTime: real,
    firstTime: real,
    rateTime: real,
    random: u16)

  function Chosen(s: SenderState, draw: nat): (i: nat)
    requires s.subflows != []
    ensures i < |s.subflows|
  {
    PickInRange(ShareList(s.subflows), draw, 0);
    Pick(ShareList(s.subflows), draw)
  }

  function AfterSend(s: SenderState, unit: real, payload: u32, input: SendInput): SenderState
    requires unit != 0.0 && s.subflows != []
  {
    var i := Chosen(s, input.draw);
    var sent := NextTimestamp(s, unit, input.stampTime, input.random)
                .(sequence := Wrap16(s.sequence + 1),
                  subflows := s.subflows[i := Sent(s.subflows[i], payload, input.delivered, false)]);
    if !input.delivered then sent
    else
      CountRate(sent.(lastReportTime := if s.packetCount == 0 then input.firstTime else s.lastReportTime,
                      packetCount := Wrap32(s.packetCount + 1), octetCount := Wrap32(s.octetCount + payload)),
                Wrap32(payload + 24), input.rateTime)
  }

  // The first subflow with the id, or the number of subflows.
  function FindId(v: seq<SubflowState>, id: u16): (i: nat)
    ensures i <= |v| && (i < |v| ==> v[i].id == id) && forall j :: 0 <= j < i ==> v[j].id != id
  {
    FindFirst(v, (x: SubflowState) => x.id == id)
  }

  predicate ReportMeasurable(s: SenderState, id: u16, r: ReceivedReport) {
    var i := FindId(s.subflows, id);
    id != 0 && i < |s.subflows| ==> Measurable(s.subflows[i], r)
  }

  function AfterReport(s: SenderState, id: u16, r: ReceivedReport, t0: real, t1: real): SenderState
    requires ReportMeasurable(s, id, r)
  {
    var i := FindId(s.subflows, id);
    if id == 0 || i == |s.subflows| then s
    else s.(recalc := true, subflows := s.subflows[i := OnReport(s.subflows[i], r, t0, t1)])
  }

  // ----- sender reports -----

  function ReportFor(s: SenderState, packets: u32, octets: u32): SenderReport {
    var ntp := ToNtp(s.lastPacketTime);
    SenderReport(s.ssrc, ntp.msw, ntp.lsw, s.timestamp, packets, octets, [])
  }

  function SubflowReports(s: SenderState, v: seq<SubflowState>): (ds: seq<Delivery>)
    ensures |ds| == |v| && AllEncodable(ds) && BlocksWords(ds) == 8 * |v|
    ensures forall i :: 0 <= i < |v| ==>
              ds[i] == SrDelivery(v[i].id, ReportFor(s, v[i].packetCount, v[i].octetCount))
  {
    if v == [] then []
    else [SrDelivery(v[0].id, ReportFor(s, v[0].packetCount, v[0].octetCount))] + SubflowReports(s, v[1..])
  }

  predicate ReportFits(s: SenderState) {
    28 + 12 + 32 * |s.subflows| <= MAX_PACKET
  }

  function ReportParts(s: SenderState): (ps: seq<Part>)
    requires ReportFits(s)
    ensures forall i :: 0 <= i < |ps| ==> PartFits(ps[i])
  {
    [Plain(SrDelivery(0, ReportFor(s, s.packetCount, s.octetCount))),
     Multi(s.ssrc, s.ssrc, SubflowReports(s, s.subflows))]
  }

  function ReportLength(s: SenderState): nat {
    28 + 12 + 32 * |s.subflows|
  }

  lemma {:induction false} ReportsArriveUnchanged(s: SenderState, v: seq<SubflowState>)
    ensures AllArrived(SubflowReports(s, v)) == SubflowReports(s, v)
    decreases |v|
  {
    if v != [] {
      ReportsArriveUnchanged(s, v[1..]);
      assert SubflowReports(s, v)[1..] == SubflowReports(s, v[1..]);
    }
  }

  // Walking the bytes of a sender report delivers the report on the stream, with id 0, and then one
  // per subflow in list order, each with its id and counts and the common timestamp and NTP words.
  lemma SenderReportRoundTrip(s: SenderState)
    requires ReportFits(s)
    ensures |EncodeCompound(ReportParts(s))| == ReportLength(s)
    ensures WalkCompound(EncodeCompound(ReportParts(s))) ==
            Walk([SrDelivery(0, ReportFor(s, s.packetCount, s.octetCount))] + SubflowReports(s, s.subflows), Done)
    ensures var ds := WalkCompound(EncodeCompound(ReportParts(s))).deliveries; var ntp := ToNtp(s.lastPacketTime);
            && |ds| == 1 + |s.subflows|
            && ds[0] == SrDelivery(0, SenderReport(s.ssrc, ntp.msw, ntp.lsw, s.timestamp, s.packetCount,
                                                   s.octetCount, []))
            && forall i :: 0 <= i < |s.subflows| ==>
                 var x := s.subflows[i];
                 ds[i + 1] == SrDelivery(x.id, SenderReport(s.ssrc, ntp.msw, ntp.lsw, s.timestamp, x.packetCount,
                                                            x.octetCount, []))
  {
    var ps := ReportParts(s);
    CompoundRoundTrip(ps);
    ReportsArriveUnchanged(s, s.subflows);
    assert ps[1..] == [ps[1]] && ps[1..][1..] == [];
    assert EncodeCompound(ps[1..]) == EncodePart(ps[1]) + EncodeCompound([]);
    assert CompoundArrived(ps[1..]) == PartArrived(ps[1]) + CompoundArrived([]);
    assert CompoundArrived(ps) == PartArrived(ps[0]) + PartArrived(ps[1]);
  }

  // ----- polling -----

  datatype PollInput = PollInput(now: real, stampTime: real, rateTime: real, random: u16)

  predicate ReportDue(s: SenderState, now: real) {
    s.lastReportTime != 0.0 && Truncate(now) - Truncate(s.lastReportTime) >= 5
  }

  function AfterSenderReport(s: SenderState, unit: real, input: PollInput): SenderState
    requires unit != 0.0
  {
    var stamped := NextTimestamp(s, unit, input.stampTime, input.random);
    CountRate(stamped, Wrap32(ReportLength(s)), input.rateTime).(lastReportTime := stamped.lastPacketTime)
  }

  function MeasureRate(s: SenderState, now: real): SenderState {
    if s.rateTime == 0.0 then s.(rateTime := now)
    else if s.rateTime + 1.0 <= now then
      s.(streamBitrate := s.rateBytes as real / (now - s.rateTime), rateBytes := 0, rateTime := now)
    else s
  }

  function BeforeRecalc(s: SenderState, unit: real, input: PollInput): SenderState
    requires unit != 0.0
  {
    MeasureRate(if ReportDue(s, input.now) then AfterSenderReport(s, unit, input) else s, input.now)
  }

  function Recalculated(s: SenderState): SenderState
    requires s.recalc ==> Divisible(s.subflows, s.streamBitrate)
  {
    if !s.recalc then s
    else s.(recalc := false, subflows := WithShares(s.subflows, NewShares(s.subflows, s.streamBitrate)))
  }

  predicate PollDefined(s: SenderState, unit: real, input: PollInput)
    requires unit != 0.0
  {
    var n := BeforeRecalc(s, unit, input);
    && (ReportDue(s, input.now) ==> ReportFits(s) && s.subflows != [])
    && (n.recalc ==> Divisible(n.subflows, n.streamBitrate))
  }

  function AfterPoll(s: SenderState, unit: real, input: PollInput): SenderState
    requires unit != 0.0 && PollDefined(s, unit, input)
  {
    Recalculated(BeforeRecalc(s, unit, input))
  }

  // ----- runs -----

  datatype Call =
    | Connect(interfaces: nat, ssrc: u32, seeds: seq<u16>)
    | SendData(payload: u32, input: SendInput)
    | ReceiveRr(id: u16, report: ReceivedReport, t0: real, t1: real)
    | Poll(poll: PollInput)

  // Draws are in range, a measured report comes later than its predecessor on the subflow, and
  // recalculation does not divide by zero.
  predicate CallEnabled(s: SenderState, unit: real, e: Call)
    requires unit != 0.0
  {
    match e
    case Connect(_, _, _) => true
    case SendData(payload, input) => s.subflows != [] && payload <= MAX_PAYLOAD && input.draw < DRAWS
    case ReceiveRr(id, r, t0, t1) =>
      var i := FindId(s.subflows, id);
      id != 0 && i < |s.subflows| ==> Congestion.Enabled(s.subflows[i], Reported(r, t0, t1))
    case Poll(input) => PollDefined(s, unit, input)
  }

  function CallStep(s: SenderState, unit: real, e: Call): SenderState
    requires unit != 0.0 && CallEnabled(s, unit, e)
  {
    match e
    case Connect(interfaces, ssrc, seeds) => AfterConnect(s, interfaces, ssrc, seeds)
    case SendData(payload, input) => AfterSend(s, unit, payload, input)
    case ReceiveRr(id, r, t0, t1) => AfterReport(s, id, r, t0, t1)
    case Poll(input) => AfterPoll(s, unit, input)
  }

  predicate CallsAdmissible(s: SenderState, unit: real, es: seq<Call>)
    requires unit != 0.0
    decreases |es|
  {
    es == [] || (CallEnabled(s, unit, es[0]) && CallsAdmissible(CallStep(s, unit, es[0]), unit, es[1..]))
  }

  function RunCalls(s: SenderState, unit: real, es: seq<Call>): SenderState
    requires unit != 0.0 && CallsAdmissible(s, unit, es)
    decreases |es|
  {
    if es == [] then s else RunCalls(CallStep(s, unit, es[0]), unit, es[1..])
  }

  // A sender that has sent nothing yet.
  predicate Connected(s: SenderState) {
    && s.packetCount == 0 && s.octetCount == 0 && s.streamBitrate == 1.0 && !s.recalc
    && s.lastReportTime == 0.0 && s.rateTime == 0.0 && s.rateBytes == 0
    && forall i :: 0 <= i < |s.subflows| ==> s.subflows[i] == Initial(s.subflows[i].id, s.subflows[i].sequence)
  }

  predicate New(s: SenderState) {
    Connected(s) && s.subflows == [] && s.nextId == 1
  }

  // What every reachable sender state satisfies.
  ghost predicate SenderInv(s: SenderState) {
    && AllInv(s.subflows)
    && s.streamBitrate >= 0.0
  }

  // What one send changes besides clocks and rates.
  lemma SendChanges(s: SenderState, unit: real, payload: u32, input: SendInput)
    requires unit != 0.0 && s.subflows != []
    ensures var n := AfterSend(s, unit, payload, input); var i := Chosen(s, input.draw);
            && n.subflows == s.subflows[i := Sent(s.subflows[i], payload, input.delivered, false)]
            && n.sequence == Wrap16(s.sequence + 1) && n.nextId == s.nextId
            && n.packetCount == (if input.delivered then Wrap32(s.packetCount + 1) else s.packetCount)
            && n.octetCount == (if input.delivered then Wrap32(s.octetCount + payload) else s.octetCount)
            && n.streamBitrate == s.streamBitrate && n.recalc == s.recalc
            && n.rateTime == (if input.delivered && s.rateTime == 0.0 then input.rateTime else s.rateTime)
            && n.lastReportTime == if input.delivered && s.packetCount == 0 then input.firstTime else s.lastReportTime
  {
    hide Chosen, Sent, Advance;
  }

  lemma RateNonNegative(bytes: u32, elapsed: real)
    requires elapsed >= 1.0
    ensures bytes as real / elapsed >= 0.0
  {
  }

  lemma BeforeRecalcChanges(s: SenderState, unit: real, input: PollInput)
    requires unit != 0.0
    ensures var n := BeforeRecalc(s, unit, input);
            && n.subflows == s.subflows && n.nextId == s.nextId
            && n.sequence == s.sequence && n.recalc == s.recalc
            && n.packetCount == s.packetCount && n.octetCount == s.octetCount
            && (s.streamBitrate >= 0.0 ==> n.streamBitrate >= 0.0)
  {
    hide Advance;
    var r := if ReportDue(s, input.now) then AfterSenderReport(s, unit, input) else s;
    if r.rateTime + 1.0 <= input.now {
      RateNonNegative(r.rateBytes, input.now - r.rateTime);
    }
  }

  // Polling leaves every subflow as it was but for its share.
  lemma PollChanges(s: SenderState, unit: real, input: PollInput)
    requires unit != 0.0 && PollDefined(s, unit, input)
    ensures var n := AfterPoll(s, unit, input);
            && |n.subflows| == |s.subflows|
            && (forall i :: 0 <= i < |s.subflows| ==> n.subflows[i] == s.subflows[i].(share := n.subflows[i].share))
            && (!AllReady(s.subflows) ==> n.subflows == s.subflows)
            && n.sequence == s.sequence && n.nextId == s.nextId
            && n.packetCount == s.packetCount && n.octetCount == s.octetCount
            && (s.streamBitrate >= 0.0 ==> n.streamBitrate >= 0.0)
  {
    BeforeRecalcChanges(s, unit, input);
    hide BeforeRecalc, ReportDue;
    var m := BeforeRecalc(s, unit, input);
    if m.recalc && !AllReady(s.subflows) {
      var xs := NewShares(m.subflows, m.streamBitrate);
      assert forall i :: 0 <= i < |m.subflows| ==> xs[i] == m.subflows[i].share;
    }
  }

  lemma StepKeepsSenderInv(s: SenderState, unit: real, e: Call)
    requires unit != 0.0 && SenderInv(s) && CallEnabled(s, unit, e)
    ensures SenderInv(CallStep(s, unit, e))
    ensures |CallStep(s, unit, e).subflows| >= |s.subflows|
  {
    hide AfterSend, AfterPoll, Chosen, PollDefined, Advance, OnReport;
    match e
    case Connect(_, _, _) =>
    case SendData(payload, input) =>
      SendChanges(s, unit, payload, input);
    case ReceiveRr(id, r, t0, t1) =>
      var i := FindId(s.subflows, id);
      if id != 0 && i < |s.subflows| {
        StepKeepsInv(s.subflows[i], Reported(r, t0, t1));
      }
    case Poll(input) =>
      PollChanges(s, unit, input);
  }

  lemma {:induction false} ReachableSenderInv(s: SenderState, unit: real, es: seq<Call>)
    requires unit != 0.0 && SenderInv(s) && CallsAdmissible(s, unit, es)
    ensures SenderInv(RunCalls(s, unit, es)) && |RunCalls(s, unit, es).subflows| >= |s.subflows|
    decreases |es|
  {
    if es != [] {
      StepKeepsSenderInv(s, unit, es[0]);
      ReachableSenderInv(CallStep(s, unit, es[0]), unit, es[1..]);
    }
  }

  // ----- ids -----

  lemma ConnectKeepsIds(s: SenderState, interfaces: nat, ssrc: u32, seeds: seq<u16>)
    requires IdsInOrder(s)
    ensures IdsInOrder(AfterConnect(s, interfaces, ssrc, seeds))
  {
    hide Wrap16;
    if interfaces > 0 {
      var n := AfterConnect(s, interfaces, ssrc, seeds);
      WrapAdd16(1 + |s.subflows|, |seeds|);
      forall i | 0 <= i < |n.subflows| ensures n.subflows[i].id == IssuedId(i) {
        if i >= |s.subflows| {
          WrapAdd16(1 + |s.subflows|, i - |s.subflows|);
        }
      }
    }
  }

  lemma StepKeepsIds(s: SenderState, unit: real, e: Call)
    requires unit != 0.0 && IdsInOrder(s) && CallEnabled(s, unit, e)
    ensures IdsInOrder(CallStep(s, unit, e))
  {
    hide AfterSend, AfterPoll, Chosen, PollDefined, Advance, InstantBitrate, Blend, Damped, IssuedId;
    match e
    case Connect(interfaces, ssrc, seeds) => ConnectKeepsIds(s, interfaces, ssrc, seeds);
    case SendData(payload, input) => SendChanges(s, unit, payload, input);
    case ReceiveRr(id, r, t0, t1) =>
    case Poll(input) => PollChanges(s, unit, input);
  }

  lemma {:induction false} RunKeepsIds(s: SenderState, unit: real, es: seq<Call>)
    requires unit != 0.0 && IdsInOrder(s) && CallsAdmissible(s, unit, es)
    ensures IdsInOrder(RunCalls(s, unit, es))
    decreases |es|
  {
    if es != [] {
      StepKeepsIds(s, unit, es[0]);
      RunKeepsIds(CallStep(s, unit, es[0]), unit, es[1..]);
    }
  }

  // Ids handed out in order are pairwise distinct exactly while at most 2^16 were issued.
  lemma IdsDistinctExactly(v: seq<SubflowState>)
    requires forall i :: 0 <= i < |v| ==> v[i].id == IssuedId(i)
    ensures DistinctIds(v) <==> |v| <= 0x1_0000
  {
    assert IssuedId(0) == IssuedId(0x1_0000);
    if |v| > 0x1_0000 {
      assert v[0].id == v[0x1_0000].id;
    }
  }

  // None of the first 65535 ids is the one of the whole stream.
  lemma OrderedIdsProper(s: SenderState)
    requires IdsInOrder(s) && |s.subflows| < 0x1_0000
    ensures ProperIds(s.subflows)
  {
    IdsDistinctExactly(s.subflows);
  }
}
