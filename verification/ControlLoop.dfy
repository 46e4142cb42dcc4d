// The two ends together: what the receiver measures, reports and sends is what the sender's
// congestion machine acts on.

module ControlLoop {
  import opened Numeric
  import opened Reports
  import opened Congestion
  import opened SenderModel
  import opened Rtcp
  import S = Statistics
  import R = SourceModel

  // ----- numbering -----

  function RtpCount(es: seq<Event>): nat {
    if es == [] then 0 else (if es[0].Transmit? && !es[0].rtcp then 1 else 0) + RtpCount(es[1..])
  }

  lemma WrapIdentity16(x: u16)
    ensures Wrap16(x) == x
  {
  }

  lemma ReportKeepsSequence(s: SubflowState, r: ReceivedReport, t0: real, t1: real)
    requires Measurable(s, r)
    ensures OnReport(s, r, t0, t1).sequence == s.sequence
  {
    hide InstantBitrate, Blend, Damped;
  }

  // The k-th RTP packet a subflow sends carries its first sequence number plus k, modulo 2^16,
  // whether sends succeed or not: the low bits of a true index.
  lemma {:induction false} SubflowNumbering(s: SubflowState, es: seq<Event>)
    requires Congestion.Admissible(s, es)
    ensures Congestion.Run(s, es).sequence == Wrap16(s.sequence + RtpCount(es))
    decreases |es|
  {
    hide Wrap16, OnReport;
    WrapIdentity16(s.sequence);
    if es != [] {
      var n := Congestion.Step(s, es[0]);
      SubflowNumbering(n, es[1..]);
      WrapAdd16(s.sequence + 1, RtpCount(es[1..]));
      if es[0].Reported? {
        ReportKeepsSequence(s, es[0].report, es[0].t0, es[0].t1);
      }
    }
  }

  // ----- loss from end to end -----

  // An RTP packet as a subflow numbers it, and whether the network took it.
  datatype Packet = Packet(number: u16, taken: bool)

  function Packets(s: SubflowState, es: seq<Event>): (ps: seq<Packet>)
    requires Congestion.Admissible(s, es)
    ensures |ps| == RtpCount(es)
    decreases |es|
  {
    if es == [] then []
    else
      (if es[0].Transmit? && !es[0].rtcp then [Packet(s.sequence, es[0].delivered)] else [])
      + Packets(Congestion.Step(s, es[0]), es[1..])
  }

  lemma {:induction false} PacketNumbers(s: SubflowState, es: seq<Event>, k: nat)
    requires Congestion.Admissible(s, es) && k < RtpCount(es)
    ensures Packets(s, es)[k].number == Wrap16(s.sequence + k)
    decreases |es|
  {
    hide Wrap16, OnReport;
    WrapIdentity16(s.sequence);
    var n := Congestion.Step(s, es[0]);
    if es[0].Reported? {
      ReportKeepsSequence(s, es[0].report, es[0].t0, es[0].t1);
      PacketNumbers(n, es[1..], k);
    } else if es[0].rtcp {
      PacketNumbers(n, es[1..], k);
    } else if k > 0 {
      PacketNumbers(n, es[1..], k - 1);
      WrapAdd16(s.sequence + 1, k - 1);
    }
  }

  ghost predicate Rising(places: seq<nat>) {
    forall k :: 0 < k < |places| ==> places[k - 1] < places[k] < places[k - 1] + 0x8000
  }

  // What a channel that keeps order lets through: packets the network took, at ascending places less
  // than 2^15 apart.
  ghost predicate Passed(ps: seq<Packet>, places: seq<nat>) {
    && (forall k :: 0 <= k < |places| ==> places[k] < |ps| && ps[places[k]].taken)
    && Rising(places)
  }

  // The places between the first and the last packet let through that were not.
  function Undelivered(places: seq<nat>): set<nat>
    requires places != []
  {
    S.Range(places[0], places[|places| - 1]) - S.Elements(places)
  }

  function Lifted(items: seq<S.Item>, indices: seq<nat>): (full: seq<S.Item>)
    requires |indices| == |S.Indices(items)|
    ensures |full| == |items|
    decreases |items|
  {
    if items == [] then []
    else if items[0].Arrival? then [items[0].(index := indices[0])] + Lifted(items[1..], indices[1..])
    else [items[0]] + Lifted(items[1..], indices)
  }

  lemma {:induction false} LiftedOnWire(items: seq<S.Item>, indices: seq<nat>)
    requires |indices| == |S.Indices(items)|
    requires forall k :: 0 <= k < |indices| ==> S.Indices(items)[k] == indices[k] % S.CYCLE
    ensures S.Indices(Lifted(items, indices)) == indices
    ensures R.SameWire(items, Lifted(items, indices))
    decreases |items|
  {
    if items != [] {
      var full := Lifted(items, indices);
      if items[0].Arrival? {
        assert S.Indices(items)[0] == items[0].index && S.Indices(items)[1..] == S.Indices(items[1..]);
        LiftedOnWire(items[1..], indices[1..]);
        assert full[1..] == Lifted(items[1..], indices[1..]);
      } else {
        LiftedOnWire(items[1..], indices);
        assert full[1..] == Lifted(items[1..], indices);
      }
      assert R.OnWireAs(items[0], full[0]);
      forall k | 0 <= k < |items| ensures R.OnWireAs(items[k], full[k]) {
        if k > 0 {
          assert items[k] == items[1..][k - 1] && full[k] == full[1..][k - 1];
        }
      }
    }
  }

  lemma {:induction false} SplitAtFirst(items: seq<S.Item>)
    returns (lead: seq<S.Item>, first: S.Item, rest: seq<S.Item>)
    requires S.Indices(items) != []
    ensures items == lead + ([first] + rest) && first.Arrival?
    ensures forall k :: 0 <= k < |lead| ==> lead[k].Report?
    ensures S.Indices(items) == [first.index] + S.Indices(rest)
    decreases |items|
  {
    if items[0].Arrival? {
      lead, first, rest := [], items[0], items[1..];
    } else {
      lead, first, rest := SplitAtFirst(items[1..]);
      lead := [items[0]] + lead;
    }
  }

  lemma {:induction false} RisingInOrder(places: seq<nat>)
    requires places != [] && Rising(places)
    ensures S.InOrder(places[0], places[1..])
    ensures S.HighestIndex(places[0], places[1..]) == places[|places| - 1]
    decreases |places|
  {
    if |places| > 1 {
      RisingInOrder(places[1..]);
      assert places[1..][1..] == places[2..];
    }
  }

  lemma RisingMissing(places: seq<nat>)
    requires places != [] && Rising(places)
    ensures S.Missing(places[0], places[1..]) == Undelivered(places)
    ensures |Undelivered(places)| == places[|places| - 1] - places[0] - (|places| - 1)
  {
    RisingInOrder(places);
    S.InOrderIsStream(places[0], places[1..]);
    assert [places[0]] + places[1..] == places;
    S.MissingSize(places[0], places[1..]);
  }

  lemma ShiftedMissing(places: seq<nat>, q: nat, indices: seq<nat>)
    requires places != [] && Rising(places) && |indices| == |places|
    requires forall k :: 0 <= k < |places| ==> indices[k] == q + places[k]
    ensures S.InOrder(indices[0], indices[1..])
    ensures |S.Missing(indices[0], indices[1..])| == |Undelivered(places)|
  {
    assert Rising(indices);
    RisingInOrder(indices);
    RisingMissing(indices);
    RisingMissing(places);
    hide Rising, S.InOrder, S.Missing, Undelivered;
  }

  // What arrives, by true index: q plus the place of each packet let through.
  lemma ArrivalsInOrder(items: seq<S.Item>, places: seq<nat>, q: nat)
    returns (lead: seq<S.Item>, first: S.Item, rest: seq<S.Item>)
    requires places != [] && Rising(places) && |S.Indices(items)| == |places|
    requires forall k :: 0 <= k < |places| ==> S.Indices(items)[k] == (q + places[k]) % S.CYCLE
    ensures R.SameWire(items, lead + ([first] + rest)) && first.Arrival?
    ensures forall k :: 0 <= k < |lead| ==> lead[k].Report?
    ensures S.InOrder(first.index, S.Indices(rest))
    ensures |S.Missing(first.index, S.Indices(rest))| == |Undelivered(places)|
  {
    var indices: seq<nat> := seq(|places|, k requires 0 <= k < |places| => q + places[k]);
    LiftedOnWire(items, indices);
    lead, first, rest := SplitAtFirst(Lifted(items, indices));
    hide R.SameWire, S.InOrder, S.Missing, Lifted, Undelivered, Rising, S.Indices;
    ShiftedMissing(places, q, indices);
    assert first.index == indices[0] && S.Indices(rest) == indices[1..];
  }

  lemma UntakenUndelivered(ps: seq<Packet>, places: seq<nat>)
    requires places != [] && Passed(ps, places)
    ensures places[|places| - 1] < |ps|
    ensures forall j :: places[0] <= j < places[|places| - 1] && !ps[j].taken ==> j in Undelivered(places)
  {
  }

  // Sender, channel and receiver together: whatever a subflow's run sends, through any channel that
  // keeps order and any traffic on the other subflows, the cumulative loss is the number of packets
  // numbered between the first and the last received that were not delivered, those the network
  // never took included.
  lemma LossIsUndelivered(x: SubflowState, es: seq<Event>, ssrc: u32, senderSsrc: u32, unit: real,
                          cs: seq<R.Call>, places: seq<nat>)
    requires Congestion.Admissible(x, es) && places != [] && Passed(Packets(x, es), places)
    requires var items := R.ItemsOf(R.NewSource(ssrc, senderSsrc), unit, cs, x.id);
             && |S.Indices(items)| == |places|
             && forall k :: 0 <= k < |places| ==> S.Indices(items)[k] == Packets(x, es)[places[k]].number
    ensures var f := R.RunCalls(R.NewSource(ssrc, senderSsrc), unit, cs);
            S.CumulativeLost(R.StatOf(f.legs, x.id)) == Wrap32(|Undelivered(places)|)
    ensures forall j :: places[0] <= j < places[|places| - 1] && !Packets(x, es)[j].taken ==> j in Undelivered(places)
  {
    hide R.ItemsOf, R.RunCalls, R.StatOf, R.SameWire, S.CumulativeLost, S.Missing, S.InOrder;
    hide Packets, Undelivered, Rising;
    var items := R.ItemsOf(R.NewSource(ssrc, senderSsrc), unit, cs, x.id);
    forall k | 0 <= k < |places| ensures S.Indices(items)[k] == (x.sequence + places[k]) % S.CYCLE {
      PacketNumbers(x, es, places[k]);
    }
    var lead, first, rest := ArrivalsInOrder(items, places, x.sequence);
    R.SubflowLossExact(ssrc, senderSsrc, unit, cs, x.id, lead, first, rest);
    UntakenUndelivered(Packets(x, es), places);
  }

  // ----- from the receiver's bytes to the sender's subflows -----

  // The packet arrives at another time than the reports its measurements refer to.
  predicate Timely(s: SenderState, time: real) {
    forall i :: 0 <= i < |s.subflows| && Measures(s.subflows[i]) ==> s.subflows[i].lastReport.value.recvTime != time
  }

  lemma StaysTimely(s: SenderState, id: u16, r: ReceivedReport, t0: real, t1: real)
    requires Timely(s, r.recvTime)
    ensures ReportMeasurable(s, id, r) && Timely(AfterReport(s, id, r, t0, t1), r.recvTime)
  {
    hide InstantBitrate, Blend, Damped;
  }

  // Handing the deliveries of one packet, received at `time`, to the sender.
  function HandleAll(s: SenderState, ds: seq<Delivery>, time: real, t0: real, t1: real): SenderState
    requires Timely(s, time)
    decreases |ds|
  {
    if ds == [] then s
    else if ds[0].SrDelivery? then HandleAll(s, ds[1..], time, t0, t1)
    else
      StaysTimely(s, ds[0].id, ReceivedReport(ds[0].rr, time), t0, t1);
      HandleAll(AfterReport(s, ds[0].id, ReceivedReport(ds[0].rr, time), t0, t1), ds[1..], time, t0, t1)
  }

  // What a subflow becomes when the report about it, if any, is handled.
  function Informed(x: SubflowState, s: R.SourceState, legs: seq<R.Leg>, inputs: seq<R.FillInput>, time: real,
                    t0: real, t1: real): SubflowState
    requires |inputs| == |legs| && (Measures(x) ==> x.lastReport.value.recvTime != time)
  {
    var k := R.FindLeg(legs, x.id);
    if k == |legs| then x
    else
      var block := S.MakeReport(legs[k].stat, s.ssrc, s.lastSr, inputs[k].now, inputs[k].idle);
      OnReport(x, ReceivedReport(block, time), t0, t1)
  }

  lemma ReportKeepsIds(s: SenderState, id: u16, r: ReceivedReport, t0: real, t1: real)
    requires ReportMeasurable(s, id, r) && ProperIds(s.subflows)
    ensures var n := AfterReport(s, id, r, t0, t1);
            && |n.subflows| == |s.subflows| && ProperIds(n.subflows)
            && forall i :: 0 <= i < |s.subflows| ==> n.subflows[i].id == s.subflows[i].id
  {
    hide InstantBitrate, Blend, Damped;
  }

  lemma NotFound(legs: seq<R.Leg>, id: u16)
    requires legs != [] && R.DistinctIds(legs) && legs[0].id == id
    ensures R.FindLeg(legs[1..], id) == |legs| - 1
  {
    assert forall j :: 0 <= j < |legs| - 1 ==> legs[1..][j] == legs[j + 1];
  }

  // The report on the first leg informs its subflow; the reports behind it inform the others.
  lemma OneLegInforms(a: SenderState, s: R.SourceState, legs: seq<R.Leg>, inputs: seq<R.FillInput>,
                      time: real, t0: real, t1: real, i: nat)
    requires Timely(a, time) && |inputs| == |legs| && ProperIds(a.subflows) && R.DistinctIds(legs)
    requires legs != [] && i < |a.subflows|
    ensures var r := ReceivedReport(S.MakeReport(legs[0].stat, s.ssrc, s.lastSr, inputs[0].now, inputs[0].idle), time);
            && ReportMeasurable(a, legs[0].id, r)
            && var b := AfterReport(a, legs[0].id, r, t0, t1);
               && Timely(b, time) && |b.subflows| == |a.subflows|
               && Informed(b.subflows[i], s, legs[1..], inputs[1..], time, t0, t1)
               == Informed(a.subflows[i], s, legs, inputs, time, t0, t1)
  {
    var r := ReceivedReport(S.MakeReport(legs[0].stat, s.ssrc, s.lastSr, inputs[0].now, inputs[0].idle), time);
    StaysTimely(a, legs[0].id, r, t0, t1);
    ReportKeepsIds(a, legs[0].id, r, t0, t1);
    hide OnReport, S.MakeReport;
    if a.subflows[i].id == legs[0].id {
      assert FindId(a.subflows, legs[0].id) == i;
      NotFound(legs, legs[0].id);
    }
  }

  lemma {:induction false} LegsInform(a: SenderState, s: R.SourceState, legs: seq<R.Leg>, inputs: seq<R.FillInput>,
                                      time: real, t0: real, t1: real)
    requires Timely(a, time) && |inputs| == |legs| && ProperIds(a.subflows) && R.DistinctIds(legs)
    ensures var b := HandleAll(a, R.LegReports(s, legs, inputs), time, t0, t1);
            && |b.subflows| == |a.subflows|
            && forall i :: 0 <= i < |a.subflows| ==>
                 b.subflows[i] == Informed(a.subflows[i], s, legs, inputs, time, t0, t1)
    decreases |legs|
  {
    hide OnReport, S.MakeReport;
    if legs != [] {
      var ds := R.LegReports(s, legs, inputs);
      assert ds[1..] == R.LegReports(s, legs[1..], inputs[1..]);
      var r := ReceivedReport(ds[0].rr, time);
      StaysTimely(a, ds[0].id, r, t0, t1);
      var b := AfterReport(a, ds[0].id, r, t0, t1);
      ReportKeepsIds(a, ds[0].id, r, t0, t1);
      LegsInform(b, s, legs[1..], inputs[1..], time, t0, t1);
      forall i | 0 <= i < |a.subflows|
        ensures Informed(b.subflows[i], s, legs[1..], inputs[1..], time, t0, t1)
             == Informed(a.subflows[i], s, legs, inputs, time, t0, t1)
      {
        OneLegInforms(a, s, legs, inputs, time, t0, t1, i);
      }
      hide Informed, AfterReport, Timely, ProperIds, R.DistinctIds, R.LegReports;
    }
  }

  // The whole way back: walking the bytes of a receiver report ends, and handing what it delivers to
  // the sender runs the congestion machine of each subflow on exactly the report the receiver made
  // of that subflow's statistics; subflows the receiver has not seen stay as they were.
  lemma ReportsReachTheirSubflows(a: SenderState, s: R.SourceState, inputs: seq<R.FillInput>,
                                  time: real, t0: real, t1: real)
    requires |inputs| == |s.legs| + 1 && R.ReportFits(s) && R.DistinctIds(s.legs)
    requires Timely(a, time) && ProperIds(a.subflows)
    ensures var w := WalkCompound(EncodeCompound(R.ReportParts(s, inputs)));
            && w.outcome == Done
            && var b := HandleAll(a, w.deliveries, time, t0, t1);
               && |b.subflows| == |a.subflows|
               && forall i :: 0 <= i < |a.subflows| ==>
                    b.subflows[i] == Informed(a.subflows[i], s, s.legs, inputs[1..], time, t0, t1)
  {
    R.ReceiverReportRoundTrip(s, inputs);
    LegsInform(a, s, s.legs, inputs[1..], time, t0, t1);
    var ds := [R.MainReport(s, inputs[0])] + R.LegReports(s, s.legs, inputs[1..]);
    assert ds[1..] == R.LegReports(s, s.legs, inputs[1..]);
    hide Informed, R.LegReports, WalkCompound, EncodeCompound, R.ReportParts;
  }

  // ----- the delivered estimate -----

  // A report on its way: the statistics it was made of, and what else went into it.
  datatype Flying = Flying(made: S.Stats, ssrc: u32, sr: Option<S.LastSr>, input: R.FillInput)

  // One subflow of the sender, its statistics at the receiver, and the reports in flight between
  // them, oldest first.
  datatype Loop = Loop(x: SubflowState, st: S.Stats, flight: seq<Flying>)

  datatype LoopEvent =
    | Outgoing(payload: u32, delivered: bool)
    | Incoming(item: S.Item)
    | ReportOut(ssrc: u32, sr: Option<S.LastSr>, input: R.FillInput)
    | ReportIn(time: real, t0: real, t1: real)

  // The oldest report in flight as it arrives.
  function Landing(f: Flying, time: real): ReceivedReport {
    ReceivedReport(S.MakeReport(f.made, f.ssrc, f.sr, f.input.now, f.input.idle), time)
  }

  predicate LoopEnabled(l: Loop, e: LoopEvent) {
    match e
    case Outgoing(_, _) => true
    case Incoming(item) => item.Arrival?
    case ReportOut(_, _, _) => true
    case ReportIn(time, t0, t1) =>
      l.flight != [] && Congestion.Enabled(l.x, Reported(Landing(l.flight[0], time), t0, t1))
  }

  function LoopStep(l: Loop, unit: real, e: LoopEvent): Loop
    requires LoopEnabled(l, e)
  {
    match e
    case Outgoing(payload, delivered) => l.(x := Sent(l.x, payload, delivered, false))
    case Incoming(item) => l.(st := S.Next(l.st, item, unit))
    case ReportOut(ssrc, sr, input) =>
      l.(st := S.NewInterval(l.st), flight := l.flight + [Flying(l.st, ssrc, sr, input)])
    case ReportIn(time, t0, t1) =>
      l.(x := OnReport(l.x, Landing(l.flight[0], time), t0, t1), flight := l.flight[1..])
  }

  predicate LoopAdmissible(l: Loop, unit: real, es: seq<LoopEvent>)
    decreases |es|
  {
    es == [] || (LoopEnabled(l, es[0]) && LoopAdmissible(LoopStep(l, unit, es[0]), unit, es[1..]))
  }

  function LoopRun(l: Loop, unit: real, es: seq<LoopEvent>): Loop
    requires LoopAdmissible(l, unit, es)
    decreases |es|
  {
    if es == [] then l else LoopRun(LoopStep(l, unit, es[0]), unit, es[1..])
  }

  // Each report in flight opens the interval of the next, the last one the current interval; `opening`
  // opened the first.
  ghost predicate Chained(opening: u32, flight: seq<Flying>, st: S.Stats)
    decreases |flight|
  {
    if flight == [] then st.receivedData && st.saved == opening
    else
      && flight[0].made.receivedData && flight[0].made.saved == opening
      && Chained(flight[0].made.highest, flight[1..], st)
  }

  // The report the sender last processed opened the interval of the next one to arrive.
  ghost predicate Linked(l: Loop) {
    l.x.lastReport.Some? && Chained(l.x.lastReport.value.block.extHighSeq, l.flight, l.st)
  }

  lemma {:induction false} ChainGrows(opening: u32, flight: seq<Flying>, st: S.Stats, item: S.Item, unit: real)
    requires Chained(opening, flight, st) && item.Arrival?
    ensures Chained(opening, flight, S.Next(st, item, unit))
    decreases |flight|
  {
    if flight != [] {
      hide S.Next;
      ChainGrows(flight[0].made.highest, flight[1..], st, item, unit);
    } else {
      hide S.Extend, S.TransitChange, S.Smooth;
    }
  }

  lemma {:induction false} ChainCloses(opening: u32, flight: seq<Flying>, st: S.Stats, last: Flying)
    requires Chained(opening, flight, st) && last.made == st
    ensures Chained(opening, flight + [last], S.NewInterval(st))
    decreases |flight|
  {
    var all := flight + [last];
    if flight != [] {
      ChainCloses(flight[0].made.highest, flight[1..], st, last);
      assert all[1..] == flight[1..] + [last];
    } else {
      assert all[1..] == [];
    }
  }

  lemma ReportIsKept(x: SubflowState, r: ReceivedReport, t0: real, t1: real)
    requires Measurable(x, r)
    ensures OnReport(x, r, t0, t1).lastReport == Some(r)
  {
    hide InstantBitrate, Blend, Damped;
  }

  lemma LinkPersists(l: Loop, unit: real, e: LoopEvent)
    requires Linked(l) && LoopEnabled(l, e)
    ensures Linked(LoopStep(l, unit, e))
  {
    hide OnReport, S.Next, S.NewInterval, S.FractionLost, S.CumulativeLost, S.Lsr, S.Dlsr;
    match e
    case Outgoing(_, _) =>
    case Incoming(item) => ChainGrows(l.x.lastReport.value.block.extHighSeq, l.flight, l.st, item, unit);
    case ReportOut(ssrc, sr, input) =>
      ChainCloses(l.x.lastReport.value.block.extHighSeq, l.flight, l.st, Flying(l.st, ssrc, sr, input));
    case ReportIn(time, t0, t1) => ReportIsKept(l.x, Landing(l.flight[0], time), t0, t1);
  }

  lemma {:induction false} LinkLasts(l: Loop, unit: real, es: seq<LoopEvent>)
    requires Linked(l) && LoopAdmissible(l, unit, es)
    ensures Linked(LoopRun(l, unit, es))
    decreases |es|
  {
    if es != [] {
      LinkPersists(l, unit, es[0]);
      hide LoopStep, LoopEnabled, Linked;
      LinkLasts(LoopStep(l, unit, es[0]), unit, es[1..]);
    }
  }

  lemma EstimateFromExpected(x: SubflowState, f: Flying, time: real)
    requires Measures(x) && x.lastReport.value.block.extHighSeq == f.made.saved
    ensures var lost := S.FractionLost(S.Expected(f.made), f.made.intervalReceived, f.input.idle) as real;
            Delivered(x, Landing(f, time)) == S.Expected(f.made) as real * (1.0 - lost / 256.0)
  {
    hide S.FractionLost, S.CumulativeLost, S.Lsr, S.Dlsr, Wrap32;
  }

  // What the sender infers from a report on an interval its last report opened: if the interval
  // received something but no more than expected, the estimate of delivered packets is at least the
  // true count and exceeds it by less than expected/256.
  lemma EstimateSound(x: SubflowState, f: Flying, time: real)
    requires Measures(x) && x.lastReport.value.block.extHighSeq == f.made.saved
    requires 0 < f.made.intervalReceived <= S.Expected(f.made)
    ensures var n, e := f.made.intervalReceived as real, S.Expected(f.made) as real;
            n <= Delivered(x, Landing(f, time)) < n + e / 256.0
  {
    hide S.FractionLost, S.Expected, Landing, Delivered;
    S.FractionSound(S.Expected(f.made), f.made.intervalReceived, f.input.idle);
    EstimateFromExpected(x, f, time);
  }

  // So it is whenever a report arrives in a run, however many are in flight and whatever was sent,
  // received and reported since it was made.
  lemma EstimateSoundOverRuns(l: Loop, unit: real, es: seq<LoopEvent>, time: real)
    requires Linked(l) && LoopAdmissible(l, unit, es)
    requires var m := LoopRun(l, unit, es);
             && m.flight != [] && Measures(m.x)
             && 0 < m.flight[0].made.intervalReceived <= S.Expected(m.flight[0].made)
    ensures var m := LoopRun(l, unit, es); var made := m.flight[0].made; var n := made.intervalReceived as real;
            n <= Delivered(m.x, Landing(m.flight[0], time)) < n + S.Expected(made) as real / 256.0
  {
    LinkLasts(l, unit, es);
    var m := LoopRun(l, unit, es);
    EstimateSound(m.x, m.flight[0], time);
    hide Delivered, LoopRun, LoopAdmissible, S.Expected, Landing;
  }

  lemma {:induction false} ChainLasts(l: Loop, unit: real, es: seq<LoopEvent>, opening: u32)
    requires Chained(opening, l.flight, l.st) && LoopAdmissible(l, unit, es)
    requires forall k :: 0 <= k < |es| ==> !es[k].ReportIn?
    ensures var m := LoopRun(l, unit, es); Chained(opening, m.flight, m.st)
    decreases |es|
  {
    if es != [] {
      match es[0] {
        case Outgoing(_, _) =>
        case Incoming(item) => ChainGrows(opening, l.flight, l.st, item, unit);
        case ReportOut(ssrc, sr, input) => ChainCloses(opening, l.flight, l.st, Flying(l.st, ssrc, sr, input));
      }
      hide S.Next, S.NewInterval, Chained;
      ChainLasts(LoopStep(l, unit, es[0]), unit, es[1..], opening);
    }
  }

  // The first report to arrive of those made after the first packet makes the link, whatever else is
  // in flight by then.
  lemma FirstReportLinks(l: Loop, unit: real, es: seq<LoopEvent>, e: LoopEvent)
    requires l.st.receivedData && l.flight == [] && LoopAdmissible(l, unit, es)
    requires forall k :: 0 <= k < |es| ==> !es[k].ReportIn?
    requires e.ReportIn? && LoopEnabled(LoopRun(l, unit, es), e)
    ensures Linked(LoopStep(LoopRun(l, unit, es), unit, e))
  {
    ChainLasts(l, unit, es, l.st.saved);
    var m := LoopRun(l, unit, es);
    hide OnReport, S.FractionLost, S.CumulativeLost, S.Lsr, S.Dlsr, LoopRun, LoopAdmissible;
    ReportIsKept(m.x, Landing(m.flight[0], e.time), e.t0, e.t1);
  }

  // A report on an interval that received at least what it expected, as with late packets and
  // duplicates, does the subflow no harm: CI does not rise and TB does not fall.
  lemma NoLossNoHarm(x: SubflowState, f: Flying, time: real, t0: real, t1: real)
    requires Inv(x) && Measures(x) && Measurable(x, Landing(f, time))
    requires 0 < f.made.intervalReceived && Wrap32(f.made.highest - f.made.saved) <= f.made.intervalReceived
    ensures var y := OnReport(x, Landing(f, time), t0, t1);
            && y.indicator <= x.indicator
            && (x.testedKnown ==> y.tested >= x.tested)
            && y.ready
  {
    S.LossByteZeroExactly(f.made, f.ssrc, f.sr, f.input.now, f.input.idle);
    hide InstantBitrate, S.MakeReport;
  }

  // ----- reports made too early -----

  lemma {:induction false} OpeningStays(st: S.Stats, items: seq<S.Item>, unit: real)
    requires st.receivedData && forall k :: 0 <= k < |items| ==> items[k].Arrival?
    ensures S.Run(st, items, unit).saved == st.saved
    decreases |items|
  {
    if items != [] {
      hide S.Extend, S.TransitChange, S.Smooth;
      OpeningStays(S.Next(st, items[0], unit), items[1..], unit);
    }
  }

  lemma FirstOpening(first: S.Item, rest: seq<S.Item>, unit: real)
    requires first.Arrival? && forall k :: 0 <= k < |rest| ==> rest[k].Arrival?
    ensures S.Run(S.FRESH, [first] + rest, unit).saved
              == (if first.index % S.CYCLE == 0 then S.CYCLE else first.index % S.CYCLE) - 1
  {
    assert ([first] + rest)[0] == first && ([first] + rest)[1..] == rest;
    OpeningStays(S.Next(S.FRESH, first, unit), rest, unit);
  }

  lemma ExpectedFrom(st: S.Stats)
    requires st.saved <= st.highest
    ensures st.highest == S.Expected(st) + st.saved
  {
  }

  // A count scaled by the part of the packets a loss byte says arrived.
  function Scaled(count: real, lost: u8): real {
    count * (1.0 - lost as real / 256.0)
  }

  lemma ScaledBounds(e: real, base: real, n: real, lost: u8)
    requires base >= 0.0 && n <= Scaled(e, lost)
    ensures n <= Scaled(e + base, lost)
    ensures Scaled(e + base, lost) < n + e / 256.0 <==>
            Times(base, 256.0 - lost as real) < 256.0 * n + e - Times(e, 256.0 - lost as real)
  {
    var g := 1.0 - lost as real / 256.0;
    TimesAdd(e, base, g);
    assert base * g >= 0.0;
    assert 256.0 * (base * g) == base * (256.0 - lost as real) && 256.0 * (e * g) == e * (256.0 - lost as real);
  }

  lemma EstimateFromHighest(x: SubflowState, early: ReceivedReport, f: Flying, time: real)
    requires Measures(x) && x.lastReport == Some(early) && early.block.extHighSeq == 0
    ensures var lost := S.FractionLost(S.Expected(f.made), f.made.intervalReceived, f.input.idle);
            Delivered(x, Landing(f, time)) == Scaled(f.made.highest as real, lost)
  {
    hide S.FractionLost, S.CumulativeLost, S.Lsr, S.Dlsr, S.Expected;
  }

  lemma PrematureBounds(st: S.Stats, idle: u8)
    requires 0 < st.intervalReceived <= S.Expected(st) && st.saved <= st.highest
    ensures var e, n := S.Expected(st) as real, st.intervalReceived as real;
            var lost := S.FractionLost(S.Expected(st), st.intervalReceived, idle);
            && n <= Scaled(st.highest as real, lost)
            && (Scaled(st.highest as real, lost) < n + e / 256.0 <==>
                  Times(st.saved as real, 256.0 - lost as real) < 256.0 * n + e - Times(e, 256.0 - lost as real))
  {
    var e, lost := S.Expected(st), S.FractionLost(S.Expected(st), st.intervalReceived, idle);
    ExpectedFrom(st);
    S.FractionSound(e, st.intervalReceived, idle);
    assert st.intervalReceived as real <= Scaled(e as real, lost);
    hide S.FractionLost, S.Expected, Scaled, Times;
    ScaledBounds(e as real, st.saved as real, st.intervalReceived as real, lost);
  }

  lemma LossFreeBound(base: real, e: u32, idle: u8)
    requires e > 0
    ensures var kept := 256.0 - S.FractionLost(e, e, idle) as real;
            Times(base, kept) < 256.0 * e as real + e as real - Times(e as real, kept) <==> 256.0 * base < e as real
  {
    assert S.FractionLost(e, e, idle) == 0;
    assert Times(e as real, 256.0) == 256.0 * e as real;
  }

  // A report made before the first packet breaks the link. After any first interval the estimate is
  // then the highest number scaled by the fraction instead of the number expected. It is still no
  // less than the true count, but within expected/256 of it only if the number before the first one
  // is small enough: without loss, less than one 256th of the packets expected.
  lemma PrematureReportMisleads(x: SubflowState, early: ReceivedReport, first: S.Item, rest: seq<S.Item>, unit: real,
                                f: Flying, time: real)
    requires Measures(x) && x.lastReport == Some(early) && early.block.extHighSeq == S.FRESH.highest
    requires first.Arrival? && forall k :: 0 <= k < |rest| ==> rest[k].Arrival?
    requires f.made == S.Run(S.FRESH, [first] + rest, unit)
    ensures f.made.saved == (if first.index % S.CYCLE == 0 then S.CYCLE else first.index % S.CYCLE) - 1
    ensures var base, e, n := f.made.saved as real, S.Expected(f.made) as real, f.made.intervalReceived as real;
            var lost := S.FractionLost(S.Expected(f.made), f.made.intervalReceived, f.input.idle);
            var estimate, kept := Delivered(x, Landing(f, time)), 256.0 - lost as real;
            && estimate == Scaled(f.made.highest as real, lost)
            && (0.0 < n <= e && f.made.saved <= f.made.highest ==>
                  && n <= estimate
                  && (estimate < n + e / 256.0 <==> Times(base, kept) < 256.0 * n + e - Times(e, kept))
                  && (n == e ==> (estimate < n + e / 256.0 <==> 256.0 * base < e)))
  {
    FirstOpening(first, rest, unit);
    EstimateFromHighest(x, early, f, time);
    hide S.FractionLost, Delivered, Landing, S.Expected, Scaled, Times, S.Run, Measures;
    if 0 < f.made.intervalReceived <= S.Expected(f.made) && f.made.saved <= f.made.highest {
      PrematureBounds(f.made, f.input.idle);
      if f.made.intervalReceived == S.Expected(f.made) {
        LossFreeBound(f.made.saved as real, S.Expected(f.made), f.input.idle);
      }
    }
  }

  // With one packet received the estimate is its sequence number (65536 for zero), so it is right for
  // sequence number one alone.
  lemma PrematureSinglePacket(x: SubflowState, early: ReceivedReport, packet: S.Item, unit: real, f: Flying, time: real)
    requires Measures(x) && x.lastReport == Some(early) && early.block.extHighSeq == S.FRESH.highest
    requires packet.Arrival? && f.made == S.Next(S.FRESH, packet, unit)
    ensures var seq16 := packet.index % S.CYCLE; var estimate := Delivered(x, Landing(f, time));
            && f.made.intervalReceived == 1
            && estimate == (if seq16 == 0 then S.CYCLE else seq16) as real
            && (estimate == 1.0 <==> seq16 == 1)
  {
    assert S.Expected(f.made) == 1 && S.FractionLost(1, 1, f.input.idle) == 0;
    EstimateFromHighest(x, early, f, time);
  }
}
