// One remote source at the receiver: its own statistics, those of its subflows, and the compound
// receiver report it answers a sender report with.

module SourceModel {
  import opened Numeric
  import opened Reports
  import opened Bytes
  import opened Rtcp
  import opened Statistics

  // A subflow as the receiver sees it.
  datatype Leg = Leg(id: u16, stat: Stats)

  datatype SourceState = SourceState(
    ssrc: u32,
    senderSsrc: u32,
    stat: Stats,
    legs: seq<Leg>,
    lastSr: Option<LastSr>,
    sendRr: bool)

  function NewSource(ssrc: u32, senderSsrc: u32): SourceState {
    SourceState(ssrc, senderSsrc, FRESH, [], None, false)
  }

  // What the statistics need of a parsed packet.
  datatype Arrived = Arrived(sequence: u16, timestamp: u32, time: real, subflowId: u16, subflowSequence: u16)

  function FindLeg(legs: seq<Leg>, id: u16): (i: nat)
    ensures i <= |legs| && (i < |legs| ==> legs[i].id == id) && forall j :: 0 <= j < i ==> legs[j].id != id
  {
    FindFirst(legs, (leg: Leg) => leg.id == id)
  }

  // The list with a leg for the id, appended fresh if there was none.
  function WithLeg(legs: seq<Leg>, id: u16): (r: seq<Leg>)
    ensures FindLeg(legs, id) < |r| && r[FindLeg(legs, id)].id == id && legs <= r
  {
    if FindLeg(legs, id) < |legs| then legs else legs + [Leg(id, FRESH)]
  }

  function AfterPacket(s: SourceState, p: Arrived, unit: real): SourceState {
    var legs := WithLeg(s.legs, p.subflowId);
    var i := FindLeg(s.legs, p.subflowId);
    s.(stat := Arrive(s.stat, p.sequence, p.timestamp, p.time, unit),
       legs := legs[i := Leg(p.subflowId, Arrive(legs[i].stat, p.subflowSequence, p.timestamp, p.time, unit))])
  }

  function AfterSr(s: SourceState, sr: LastSr, subflowId: u16): SourceState {
    if subflowId == 0 then s.(lastSr := Some(sr), sendRr := true)
    else s.(legs := WithLeg(s.legs, subflowId))
  }

  // The clock reading and the undefined byte of an idle interval, for one report block.
  datatype FillInput = FillInput(now: real, idle: u8)

  function LegReports(s: SourceState, legs: seq<Leg>, inputs: seq<FillInput>): (ds: seq<Delivery>)
    requires |inputs| == |legs|
    ensures |ds| == |legs| && AllEncodable(ds) && BlocksWords(ds) == 9 * |legs|
    ensures forall i :: 0 <= i < |legs| ==>
              ds[i] == RrDelivery(legs[i].id, s.senderSsrc,
                                  MakeReport(legs[i].stat, s.ssrc, s.lastSr, inputs[i].now, inputs[i].idle))
  {
    if legs == [] then []
    else [RrDelivery(legs[0].id, s.senderSsrc,
                     MakeReport(legs[0].stat, s.ssrc, s.lastSr, inputs[0].now, inputs[0].idle))]
         + LegReports(s, legs[1..], inputs[1..])
  }

  function MainReport(s: SourceState, input: FillInput): (d: Delivery)
    ensures d.RrDelivery? && d.id == 0
  {
    RrDelivery(0, s.senderSsrc, MakeReport(s.stat, s.ssrc, s.lastSr, input.now, input.idle))
  }

  predicate ReportFits(s: SourceState) {
    12 + 36 * |s.legs| <= MAX_PACKET
  }

  function ReportParts(s: SourceState, inputs: seq<FillInput>): (ps: seq<Part>)
    requires |inputs| == |s.legs| + 1 && ReportFits(s)
    ensures forall i :: 0 <= i < |ps| ==> PartFits(ps[i])
  {
    [Plain(MainReport(s, inputs[0])), Multi(s.senderSsrc, s.ssrc, LegReports(s, s.legs, inputs[1..]))]
  }

  function IntervalsClosed(legs: seq<Leg>): (r: seq<Leg>)
    ensures |r| == |legs|
    ensures forall i :: 0 <= i < |legs| ==> r[i] == Leg(legs[i].id, NewInterval(legs[i].stat))
  {
    seq(|legs|, i requires 0 <= i < |legs| => Leg(legs[i].id, NewInterval(legs[i].stat)))
  }

  function AfterReport(s: SourceState): SourceState {
    s.(sendRr := false, stat := NewInterval(s.stat), legs := IntervalsClosed(s.legs))
  }

  // A report block already holds its cumulative loss modulo 2^24.
  lemma ReportOnWire(st: Stats, ssrc: u32, sr: Option<LastSr>, now: real, idle: u8)
    ensures OnWire(MakeReport(st, ssrc, sr, now, idle)) == MakeReport(st, ssrc, sr, now, idle)
  {
  }

  lemma {:induction false} LegReportsArrive(s: SourceState, legs: seq<Leg>, inputs: seq<FillInput>)
    requires |inputs| == |legs|
    ensures AllArrived(LegReports(s, legs, inputs)) == LegReports(s, legs, inputs)
    decreases |legs|
  {
    if legs != [] {
      hide MakeReport;
      ReportOnWire(legs[0].stat, s.ssrc, s.lastSr, inputs[0].now, inputs[0].idle);
      LegReportsArrive(s, legs[1..], inputs[1..]);
      assert LegReports(s, legs, inputs)[1..] == LegReports(s, legs[1..], inputs[1..]);
    }
  }

  lemma ReportBytes(s: SourceState, inputs: seq<FillInput>)
    requires |inputs| == |s.legs| + 1 && ReportFits(s)
    ensures EncodeCompound(ReportParts(s, inputs))
              == EncodeReport(MainReport(s, inputs[0]))
                 + EncodeMprtcp(s.senderSsrc, s.ssrc, LegReports(s, s.legs, inputs[1..]))
    ensures CompoundArrived(ReportParts(s, inputs))
              == PartArrived(ReportParts(s, inputs)[0]) + PartArrived(ReportParts(s, inputs)[1])
  {
    hide EncodeReport, EncodeMprtcp, LegReports, MainReport, AllArrived, Rtcp.Arrived;
    var ps := ReportParts(s, inputs);
    assert ps[1..] == [ps[1]] && ps[1..][1..] == [];
    assert EncodeCompound(ps[1..]) == EncodePart(ps[1]) + EncodeCompound([]);
    assert CompoundArrived(ps[1..]) == PartArrived(ps[1]) + CompoundArrived([]);
  }

  // Walking the compound packet a source answers with delivers the report on the stream and then
  // one per subflow in order, every field as computed by the statistics.
  lemma ReceiverReportRoundTrip(s: SourceState, inputs: seq<FillInput>)
    requires |inputs| == |s.legs| + 1 && ReportFits(s)
    ensures |EncodeCompound(ReportParts(s, inputs))| == 32 + 12 + 36 * |s.legs|
    ensures WalkCompound(EncodeCompound(ReportParts(s, inputs)))
              == Walk([MainReport(s, inputs[0])] + LegReports(s, s.legs, inputs[1..]), Done)
    ensures var ds := WalkCompound(EncodeCompound(ReportParts(s, inputs))).deliveries;
            && |ds| == 1 + |s.legs|
            && ds[0] == RrDelivery(0, s.senderSsrc, MakeReport(s.stat, s.ssrc, s.lastSr, inputs[0].now, inputs[0].idle))
            && forall i :: 0 <= i < |s.legs| ==>
                 var leg, input := s.legs[i], inputs[i + 1];
                 ds[i + 1] == RrDelivery(leg.id, s.senderSsrc,
                                         MakeReport(leg.stat, s.ssrc, s.lastSr, input.now, input.idle))
  {
    var ps := ReportParts(s, inputs);
    CompoundRoundTrip(ps);
    ReportBytes(s, inputs);
    LegReportsArrive(s, s.legs, inputs[1..]);
    ReportOnWire(s.stat, s.ssrc, s.lastSr, inputs[0].now, inputs[0].idle);
  }

  // The packet of blocks in an answer names the receiver first and then the source it is about.
  lemma AnswerHead(s: SourceState, inputs: seq<FillInput>)
    requires |inputs| == |s.legs| + 1 && ReportFits(s)
    ensures var b := EncodeCompound(ReportParts(s, inputs));
            && |b| == 44 + 36 * |s.legs|
            && Number(b, 36, 4) == s.senderSsrc && Number(b, 40, 4) == s.ssrc
  {
    var d, ds := MainReport(s, inputs[0]), LegReports(s, s.legs, inputs[1..]);
    ReportBytes(s, inputs);
    WrittenHeads(d, s.senderSsrc, s.ssrc, ds);
    var x, y := EncodeReport(d), EncodeMprtcp(s.senderSsrc, s.ssrc, ds);
    hide EncodeReport, EncodeMprtcp, ReportParts, EncodeCompound, Number, MainReport, LegReports;
    NumberBehind(x, y, 4, 4);
    NumberBehind(x, y, 8, 4);
  }

  // ----- runs -----

  datatype Call =
    | PacketIn(packet: Arrived)
    | SrIn(sr: LastSr, subflowId: u16)
    | PollOut

  function CallStep(s: SourceState, unit: real, c: Call): SourceState {
    match c
    case PacketIn(p) => AfterPacket(s, p, unit)
    case SrIn(sr, id) => AfterSr(s, sr, id)
    case PollOut => if s.sendRr then AfterReport(s) else s
  }

  function RunCalls(s: SourceState, unit: real, cs: seq<Call>): SourceState
    decreases |cs|
  {
    if cs == [] then s else RunCalls(CallStep(s, unit, cs[0]), unit, cs[1..])
  }

  function ReceivedSum(legs: seq<Leg>): int {
    if legs == [] then 0 else ReceivedSum(legs[..|legs| - 1]) + legs[|legs| - 1].stat.received
  }

  ghost predicate DistinctIds(legs: seq<Leg>) {
    forall i, j :: 0 <= i < j < |legs| ==> legs[i].id != legs[j].id
  }

  // The stream's packet count is that of its subflows, whose ids are pairwise distinct.
  ghost predicate SourceInv(s: SourceState) {
    s.stat.received == Wrap32(ReceivedSum(s.legs)) && DistinctIds(s.legs)
  }

  lemma {:induction false} ReceivedUpdate(legs: seq<Leg>, i: nat, x: Leg)
    requires i < |legs|
    ensures ReceivedSum(legs[i := x]) == ReceivedSum(legs) - legs[i].stat.received + x.stat.received
  {
    var last := |legs| - 1;
    if i < last {
      ReceivedUpdate(legs[..last], i, x);
      assert legs[i := x][..last] == legs[..last][i := x];
    } else {
      assert legs[i := x][..last] == legs[..last];
    }
  }

  lemma {:induction false} ReceivedSame(v: seq<Leg>, w: seq<Leg>)
    requires |v| == |w| && forall i :: 0 <= i < |v| ==> v[i].stat.received == w[i].stat.received
    ensures ReceivedSum(v) == ReceivedSum(w)
  {
    if v != [] {
      ReceivedSame(v[..|v| - 1], w[..|w| - 1]);
    }
  }

  lemma WithLegKeeps(legs: seq<Leg>, id: u16)
    requires DistinctIds(legs)
    ensures DistinctIds(WithLeg(legs, id)) && ReceivedSum(WithLeg(legs, id)) == ReceivedSum(legs)
  {
    var more := legs + [Leg(id, FRESH)];
    assert more[..|legs|] == legs;
  }

  lemma UpdateKeepsIds(legs: seq<Leg>, i: nat, x: Leg)
    requires DistinctIds(legs) && i < |legs| && x.id == legs[i].id
    ensures DistinctIds(legs[i := x])
  {
  }

  lemma PacketKeeps(s: SourceState, p: Arrived, unit: real)
    requires SourceInv(s)
    ensures SourceInv(AfterPacket(s, p, unit))
  {
    hide WithLeg, FindLeg, Extend, TransitChange, Smooth, ReceivedSum, Wrap32, DistinctIds;
    var legs, i := WithLeg(s.legs, p.subflowId), FindLeg(s.legs, p.subflowId);
    var x := Leg(p.subflowId, Arrive(legs[i].stat, p.subflowSequence, p.timestamp, p.time, unit));
    WithLegKeeps(s.legs, p.subflowId);
    ReceivedUpdate(legs, i, x);
    WrapAdd32(ReceivedSum(legs), 1);
    WrapAdd32(legs[i].stat.received + 1, ReceivedSum(legs) - legs[i].stat.received);
    UpdateKeepsIds(legs, i, x);
  }

  lemma StepKeeps(s: SourceState, unit: real, c: Call)
    requires SourceInv(s)
    ensures SourceInv(CallStep(s, unit, c))
  {
    hide AfterPacket, WithLeg, ReceivedSum;
    match c
    case PacketIn(p) => PacketKeeps(s, p, unit);
    case SrIn(sr, id) => WithLegKeeps(s.legs, id);
    case PollOut => ReceivedSame(s.legs, IntervalsClosed(s.legs));
  }

  lemma {:induction false} RunKeeps(s: SourceState, unit: real, cs: seq<Call>)
    requires SourceInv(s)
    ensures SourceInv(RunCalls(s, unit, cs))
    decreases |cs|
  {
    if cs != [] {
      StepKeeps(s, unit, cs[0]);
      RunKeeps(CallStep(s, unit, cs[0]), unit, cs[1..]);
    }
  }

  // After any run from a new source the packet count equals the sum over the subflows, modulo 2^32,
  // and no two subflows share an id.
  lemma SourceConservation(ssrc: u32, senderSsrc: u32, unit: real, cs: seq<Call>)
    ensures var f := RunCalls(NewSource(ssrc, senderSsrc), unit, cs);
            && f.stat.received == Wrap32(ReceivedSum(f.legs))
            && DistinctIds(f.legs)
  {
    RunKeeps(NewSource(ssrc, senderSsrc), unit, cs);
  }

  // ----- each subflow sees its own stream -----

  // What one call, and a run, feed to the statistics of the subflow with the id.
  function ItemOf(s: SourceState, c: Call, id: u16): seq<Item> {
    match c
    case PacketIn(p) => if p.subflowId == id then [Arrival(p.subflowSequence, p.timestamp, p.time)] else []
    case SrIn(_, _) => []
    case PollOut => if s.sendRr then [Report] else []
  }

  function ItemsOf(s: SourceState, unit: real, cs: seq<Call>, id: u16): seq<Item>
    decreases |cs|
  {
    if cs == [] then [] else ItemOf(s, cs[0], id) + ItemsOf(CallStep(s, unit, cs[0]), unit, cs[1..], id)
  }

  function StatOf(legs: seq<Leg>, id: u16): Stats {
    var i := FindLeg(legs, id);
    if i < |legs| then legs[i].stat else FRESH
  }

  lemma SameIdsSameFind(v: seq<Leg>, w: seq<Leg>, id: u16)
    requires |v| == |w| && forall j :: 0 <= j < |v| ==> v[j].id == w[j].id
    ensures FindLeg(v, id) == FindLeg(w, id)
  {
  }

  // Reading the list by id and updating it at an id.
  lemma StatOfUpdate(legs: seq<Leg>, i: nat, st: Stats, id: u16)
    requires i < |legs| && FindLeg(legs, legs[i].id) == i
    ensures StatOf(legs[i := Leg(legs[i].id, st)], id) == if id == legs[i].id then st else StatOf(legs, id)
  {
    var n, k := legs[i := Leg(legs[i].id, st)], FindLeg(legs, id);
    assert forall j :: 0 <= j < |legs| ==> n[j].id == legs[j].id;
    SameIdsSameFind(legs, n, id);
  }

  lemma FindAppended(legs: seq<Leg>, x: Leg, id: u16)
    ensures FindLeg(legs + [x], id) ==
            if FindLeg(legs, id) < |legs| then FindLeg(legs, id) else if x.id == id then |legs| else |legs| + 1
  {
    hide FindFirst;
    var all, i, k := legs + [x], FindLeg(legs, id), FindLeg(legs + [x], id);
    assert forall j :: 0 <= j < |legs| ==> all[j] == legs[j];
    assert i < |legs| ==> all[i].id == id;
    assert k < |legs| ==> legs[k].id == id;
    assert all[|legs|] == x;
  }

  lemma StatOfWithLeg(legs: seq<Leg>, other: u16, id: u16)
    ensures StatOf(WithLeg(legs, other), id) == StatOf(legs, id)
    ensures FindLeg(WithLeg(legs, other), other) == FindLeg(legs, other)
  {
    FindAppended(legs, Leg(other, FRESH), id);
    FindAppended(legs, Leg(other, FRESH), other);
  }

  lemma StatAt(legs: seq<Leg>, i: nat)
    requires i < |legs| && FindLeg(legs, legs[i].id) == i
    ensures StatOf(legs, legs[i].id) == legs[i].stat
  {
  }

  lemma RunOne(st: Stats, items: seq<Item>, unit: real)
    requires |items| <= 1
    ensures Run(st, items, unit) == if items == [] then st else Next(st, items[0], unit)
  {
    hide Next;
    if |items| == 1 {
      assert items[1..] == [];
    }
  }

  lemma StatOfClosed(legs: seq<Leg>, id: u16)
    ensures StatOf(IntervalsClosed(legs), id) == NewInterval(StatOf(legs, id))
  {
    SameIdsSameFind(legs, IntervalsClosed(legs), id);
  }

  lemma StatOfStep(s: SourceState, unit: real, c: Call, id: u16)
    ensures StatOf(CallStep(s, unit, c).legs, id) == Run(StatOf(s.legs, id), ItemOf(s, c, id), unit)
  {
    hide Arrive, FindLeg, WithLeg, StatOf;
    match c
    case PacketIn(p) =>
      var legs, i := WithLeg(s.legs, p.subflowId), FindLeg(s.legs, p.subflowId);
      StatOfWithLeg(s.legs, p.subflowId, id);
      StatOfUpdate(legs, i, Arrive(legs[i].stat, p.subflowSequence, p.timestamp, p.time, unit), id);
      StatAt(legs, i);
      RunOne(StatOf(s.legs, id), ItemOf(s, c, id), unit);
    case SrIn(sr, other) =>
      StatOfWithLeg(s.legs, other, id);
    case PollOut =>
      if s.sendRr {
        StatOfClosed(s.legs, id);
        RunOne(StatOf(s.legs, id), ItemOf(s, c, id), unit);
      }
  }

  lemma {:induction false} RunConcat(st: Stats, a: seq<Item>, b: seq<Item>, unit: real)
    ensures Run(st, a + b, unit) == Run(Run(st, a, unit), b, unit)
    decreases |a|
  {
    hide Next;
    if a == [] {
      assert a + b == b;
    } else {
      assert (a + b)[0] == a[0] && (a + b)[1..] == a[1..] + b;
      RunConcat(Next(st, a[0], unit), a[1..], b, unit);
    }
  }

  // The statistics of a subflow after any run are those of its own packets and the reports alone,
  // whatever the other subflows received in between.
  lemma {:induction false} SubflowsIndependent(s: SourceState, unit: real, cs: seq<Call>, id: u16)
    ensures StatOf(RunCalls(s, unit, cs).legs, id) == Run(StatOf(s.legs, id), ItemsOf(s, unit, cs, id), unit)
    decreases |cs|
  {
    if cs != [] {
      hide StatOf, CallStep, ItemOf;
      var n := CallStep(s, unit, cs[0]);
      StatOfStep(s, unit, cs[0], id);
      SubflowsIndependent(n, unit, cs[1..], id);
      RunConcat(StatOf(s.legs, id), ItemOf(s, cs[0], id), ItemsOf(n, unit, cs[1..], id), unit);
    }
  }

  predicate OnWireAs(item: Item, full: Item) {
    || (item.Report? && full.Report?)
    || (item.Arrival? && full.Arrival? && item.index == full.index % CYCLE
        && item.timestamp == full.timestamp && item.time == full.time)
  }

  // ----- the stream as a whole -----

  function StreamItem(s: SourceState, c: Call): seq<Item> {
    match c
    case PacketIn(p) => [Arrival(p.sequence, p.timestamp, p.time)]
    case SrIn(_, _) => []
    case PollOut => if s.sendRr then [Report] else []
  }

  function StreamItems(s: SourceState, unit: real, cs: seq<Call>): seq<Item>
    decreases |cs|
  {
    if cs == [] then [] else StreamItem(s, cs[0]) + StreamItems(CallStep(s, unit, cs[0]), unit, cs[1..])
  }

  // The statistics of the stream are those of all its packets by their main sequence numbers, so all
  // results about runs of the statistics hold of them.
  lemma {:induction false} StreamStatistics(s: SourceState, unit: real, cs: seq<Call>)
    ensures RunCalls(s, unit, cs).stat == Run(s.stat, StreamItems(s, unit, cs), unit)
    decreases |cs|
  {
    if cs != [] {
      var n := CallStep(s, unit, cs[0]);
      RunOne(s.stat, StreamItem(s, cs[0]), unit);
      assert n.stat == Run(s.stat, StreamItem(s, cs[0]), unit) by {
        hide WithLeg, FindLeg, Run;
        if cs[0].PacketIn? {
          assert cs[0].packet.sequence % CYCLE == cs[0].packet.sequence;
        }
        hide Arrive;
      }
      hide CallStep, StreamItem;
      StreamStatistics(n, unit, cs[1..]);
      RunConcat(s.stat, StreamItem(s, cs[0]), StreamItems(n, unit, cs[1..]), unit);
    }
  }

  // ----- answers -----

  predicate Asks(c: Call) {
    c.SrIn? && c.subflowId == 0
  }

  // A report on the stream came with no answer given since.
  ghost predicate AskedSince(cs: seq<Call>) {
    exists k :: 0 <= k < |cs| && Asks(cs[k]) && forall j :: k <= j < |cs| ==> !cs[j].PollOut?
  }

  // The last report on the stream is that of call k.
  ghost predicate AsksLast(cs: seq<Call>, k: nat) {
    k < |cs| && Asks(cs[k]) && forall j :: k < j < |cs| ==> !Asks(cs[j])
  }

  lemma {:induction false} RunSnoc(s: SourceState, unit: real, cs: seq<Call>, c: Call)
    ensures RunCalls(s, unit, cs + [c]) == CallStep(RunCalls(s, unit, cs), unit, c)
    decreases |cs|
  {
    var all := cs + [c];
    if cs != [] {
      hide CallStep;
      assert all[1..] == cs[1..] + [c];
      RunSnoc(CallStep(s, unit, cs[0]), unit, cs[1..], c);
    } else {
      assert all[1..] == [];
    }
  }

  lemma AskedStep(front: seq<Call>, c: Call)
    ensures AskedSince(front + [c]) <==> !c.PollOut? && (AskedSince(front) || Asks(c))
  {
    var cs, last := front + [c], |front|;
    assert cs[last] == c && forall k :: 0 <= k < last ==> cs[k] == front[k];
    if !c.PollOut? && AskedSince(front) {
      var k :| 0 <= k < |front| && Asks(front[k]) && forall j :: k <= j < |front| ==> !front[j].PollOut?;
      assert Asks(cs[k]);
    }
    if AskedSince(cs) {
      var k :| 0 <= k < |cs| && Asks(cs[k]) && forall j :: k <= j < |cs| ==> !cs[j].PollOut?;
      assert !cs[last].PollOut? && (k < last ==> Asks(front[k]));
    }
  }

  lemma LastStep(front: seq<Call>, c: Call, k: nat)
    ensures AsksLast(front + [c], k) <==> if k == |front| then Asks(c) else AsksLast(front, k) && !Asks(c)
  {
    var cs, last := front + [c], |front|;
    assert cs[last] == c && forall j :: 0 <= j < last ==> cs[j] == front[j];
  }

  lemma CallAsks(s: SourceState, unit: real, c: Call)
    ensures var n := CallStep(s, unit, c);
            && (n.sendRr <==> !c.PollOut? && (s.sendRr || Asks(c)))
            && n.lastSr == if Asks(c) then Some(c.sr) else s.lastSr
  {
    hide WithLeg, FindLeg, Arrive;
  }

  lemma AsksWithin(cs: seq<Call>, k: nat)
    requires AsksLast(cs, k)
    ensures k < |cs| && cs[k].SrIn?
  {
  }

  // An answer is due exactly while a report on the stream has come since the last one was given, and
  // it will refer to the last report on the stream.
  lemma {:induction false} AnswerDueExactly(ssrc: u32, senderSsrc: u32, unit: real, cs: seq<Call>)
    ensures var f := RunCalls(NewSource(ssrc, senderSsrc), unit, cs);
            && (f.sendRr <==> AskedSince(cs))
            && forall k: nat :: AsksLast(cs, k) ==> f.lastSr == Some(cs[k].sr)
    decreases |cs|
  {
    if cs != [] {
      var last := |cs| - 1;
      var front, c := cs[..last], cs[last];
      var m := RunCalls(NewSource(ssrc, senderSsrc), unit, front);
      AnswerDueExactly(ssrc, senderSsrc, unit, front);
      RunSnoc(NewSource(ssrc, senderSsrc), unit, front, c);
      assert cs == front + [c];
      AskedStep(front, c);
      CallAsks(m, unit, c);
      hide RunCalls, CallStep, Asks, AskedSince, AsksLast;
      forall k: nat | AsksLast(cs, k) ensures RunCalls(NewSource(ssrc, senderSsrc), unit, cs).lastSr == Some(cs[k].sr) {
        LastStep(front, c, k);
        AsksWithin(cs, k);
      }
    }
  }

  // ----- blocks made too early -----

  predicate Lists(c: Call, id: u16) {
    c.SrIn? && c.subflowId == id && id != 0
  }

  predicate Carries(c: Call, id: u16) {
    c.PacketIn? && c.packet.subflowId == id
  }

  lemma StepFinds(s: SourceState, unit: real, c: Call, id: u16)
    ensures var n := CallStep(s, unit, c);
            FindLeg(n.legs, id) < |n.legs| <==> FindLeg(s.legs, id) < |s.legs| || Lists(c, id) || Carries(c, id)
  {
    hide Arrive;
    match c
    case PacketIn(p) =>
      FindAppended(s.legs, Leg(p.subflowId, FRESH), id);
      SameIdsSameFind(WithLeg(s.legs, p.subflowId), CallStep(s, unit, c).legs, id);
      hide FindFirst;
    case SrIn(sr, other) =>
      FindAppended(s.legs, Leg(other, FRESH), id);
      hide FindFirst;
    case PollOut =>
      SameIdsSameFind(s.legs, CallStep(s, unit, c).legs, id);
  }

  lemma StepStats(s: SourceState, unit: real, c: Call, id: u16)
    ensures var n := CallStep(s, unit, c);
            && (StatOf(n.legs, id).receivedData <==> StatOf(s.legs, id).receivedData || Carries(c, id))
            && (StatOf(s.legs, id) == FRESH && !Carries(c, id) ==> StatOf(n.legs, id) == FRESH)
  {
    StatOfStep(s, unit, c, id);
    RunOne(StatOf(s.legs, id), ItemOf(s, c, id), unit);
    hide StatOf, CallStep, Extend, TransitChange, Smooth, Run;
  }

  lemma StepKnows(s: SourceState, unit: real, c: Call, id: u16)
    ensures var n := CallStep(s, unit, c);
            && (FindLeg(n.legs, id) < |n.legs| <==> FindLeg(s.legs, id) < |s.legs| || Lists(c, id) || Carries(c, id))
            && (StatOf(n.legs, id).receivedData <==> StatOf(s.legs, id).receivedData || Carries(c, id))
            && (StatOf(s.legs, id) == FRESH && !Carries(c, id) ==> StatOf(n.legs, id) == FRESH)
  {
    hide CallStep, StatOf, FindLeg, Lists, Carries;
    StepFinds(s, unit, c, id);
    StepStats(s, unit, c, id);
  }

  lemma {:induction false} RunKnows(s: SourceState, unit: real, cs: seq<Call>, id: u16)
    ensures var f := RunCalls(s, unit, cs);
            && (FindLeg(f.legs, id) < |f.legs| <==>
                  || FindLeg(s.legs, id) < |s.legs|
                  || exists k :: 0 <= k < |cs| && (Lists(cs[k], id) || Carries(cs[k], id)))
            && (StatOf(f.legs, id).receivedData <==>
                  StatOf(s.legs, id).receivedData || exists k :: 0 <= k < |cs| && Carries(cs[k], id))
            && (StatOf(s.legs, id) == FRESH && !StatOf(f.legs, id).receivedData ==> StatOf(f.legs, id) == FRESH)
    decreases |cs|
  {
    if cs != [] {
      var n := CallStep(s, unit, cs[0]);
      StepKnows(s, unit, cs[0], id);
      hide StatOf, CallStep, FindLeg, Lists, Carries;
      RunKnows(n, unit, cs[1..], id);
      assert forall k :: 0 <= k < |cs| - 1 ==> cs[1..][k] == cs[k + 1];
      assert forall k :: 0 < k < |cs| ==> cs[k] == cs[1..][k - 1];
    }
  }

  // When an answer holds a block made before the first packet of a subflow: exactly when a sender
  // report listing the subflow has arrived and no packet on it has.
  lemma PrematureBlockExactly(ssrc: u32, senderSsrc: u32, unit: real, cs: seq<Call>, id: u16)
    ensures var f := RunCalls(NewSource(ssrc, senderSsrc), unit, cs);
            (exists i :: 0 <= i < |f.legs| && f.legs[i] == Leg(id, FRESH)) <==>
              (exists k :: 0 <= k < |cs| && Lists(cs[k], id)) && (forall k :: 0 <= k < |cs| ==> !Carries(cs[k], id))
  {
    var s := NewSource(ssrc, senderSsrc);
    var f := RunCalls(s, unit, cs);
    RunKnows(s, unit, cs, id);
    SourceConservation(ssrc, senderSsrc, unit, cs);
    hide RunCalls, Lists, Carries;
    if i :| 0 <= i < |f.legs| && f.legs[i] == Leg(id, FRESH) {
      assert FindLeg(f.legs, id) == i;
    }
  }

  // ----- loss on one subflow -----

  // The same packets by their true indices: the statistics only see the low 16 bits.
  ghost predicate SameWire(items: seq<Item>, full: seq<Item>) {
    && |items| == |full|
    && forall k :: 0 <= k < |items| ==> OnWireAs(items[k], full[k])
  }

  lemma NextSeesLowBits(st: Stats, item: Item, full: Item, unit: real)
    requires OnWireAs(item, full)
    ensures Next(st, item, unit) == Next(st, full, unit)
  {
    hide Arrive;
  }

  lemma {:induction false} LowBitsSuffice(st: Stats, items: seq<Item>, full: seq<Item>, unit: real)
    requires SameWire(items, full)
    ensures Run(st, items, unit) == Run(st, full, unit)
    decreases |items|
  {
    if items != [] {
      hide Next;
      NextSeesLowBits(st, items[0], full[0], unit);
      LowBitsSuffice(Next(st, items[0], unit), items[1..], full[1..], unit);
    }
  }

  // Reports before the first packet change nothing.
  lemma {:induction false} LeadingReports(lead: seq<Item>, unit: real)
    requires forall k :: 0 <= k < |lead| ==> lead[k].Report?
    ensures Run(FRESH, lead, unit) == FRESH
    decreases |lead|
  {
    if lead != [] {
      LeadingReports(lead[1..], unit);
    }
  }

  // Loss accounting on one subflow of a busy source: if what it delivered, by true index, arrived in
  // order with gaps below 2^15, its cumulative loss is the number of packets missing between its
  // first and its last, whatever happened on the other subflows and whenever reports were sent.
  lemma SubflowLossExact(ssrc: u32, senderSsrc: u32, unit: real, cs: seq<Call>, id: u16,
                         lead: seq<Item>, first: Item, rest: seq<Item>)
    requires first.Arrival? && InOrder(first.index, Indices(rest))
    requires forall k :: 0 <= k < |lead| ==> lead[k].Report?
    requires SameWire(ItemsOf(NewSource(ssrc, senderSsrc), unit, cs, id), lead + ([first] + rest))
    ensures var f := RunCalls(NewSource(ssrc, senderSsrc), unit, cs);
            CumulativeLost(StatOf(f.legs, id)) == Wrap32(|Missing(first.index, Indices(rest))|)
  {
    var s := NewSource(ssrc, senderSsrc);
    SubflowsIndependent(s, unit, cs, id);
    LowBitsSuffice(FRESH, ItemsOf(s, unit, cs, id), lead + ([first] + rest), unit);
    LeadingReports(lead, unit);
    RunConcat(FRESH, lead, [first] + rest, unit);
    InOrderLoss(first, rest, unit);
    hide RunCalls, ItemsOf, Run, Missing, SameWire, InOrder, CumulativeLost;
  }
}
