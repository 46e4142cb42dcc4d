// A sender, a receiver's source and the network between them as one state machine. Sender reports
// and answers travel as the bytes the library writes and are walked at the other end.

module World {
  import opened Numeric
  import opened Clock
  import opened Reports
  import opened Congestion
  import opened Allocation
  import opened SenderModel
  import opened Rtcp
  import opened ControlLoop
  import S = Statistics
  import R = SourceModel

  datatype World = World(sender: SenderState, source: R.SourceState)

  // What happens at one end, with the time at which a packet it sends arrives at the other, if it
  // does. An answer holds a block on the stream and one on every subflow the receiver knows.
  datatype Act =
    | Sends(payload: u32, input: SendInput, arrival: Option<real>)
    | Polls(poll: PollInput, arrival: Option<real>)
    | Answers(inputs: seq<R.FillInput>, arrival: Option<real>, t0: real, t1: real)

  // The data packet a send makes, as the receiver's parser sees it.
  function PacketOf(s: SenderState, unit: real, payload: u32, input: SendInput, time: real): R.Arrived
    requires unit != 0.0 && s.subflows != []
  {
    var x := s.subflows[Chosen(s, input.draw)];
    R.Arrived(s.sequence, AfterSend(s, unit, payload, input).timestamp, time, x.id, x.sequence)
  }

  // The deliveries of a sender report as the source hears them at `time`.
  function HearAll(s: R.SourceState, ds: seq<Delivery>, time: real): R.SourceState
    decreases |ds|
  {
    if ds == [] then s
    else if ds[0].RrDelivery? then HearAll(s, ds[1..], time)
    else
      HearAll(R.AfterSr(s, S.LastSr(NtpTime(ds[0].sr.ntpMsw, ds[0].sr.ntpLsw), time), ds[0].id), ds[1..], time)
  }

  function SenderReportBytes(s: SenderState, unit: real, input: PollInput): seq<u8>
    requires unit != 0.0 && ReportFits(s)
  {
    EncodeCompound(ReportParts(NextTimestamp(s, unit, input.stampTime, input.random)))
  }

  // A report that is measured arrives later than the one before it.
  predicate Later(s: SenderState, time: real) {
    forall i :: 0 <= i < |s.subflows| && Measures(s.subflows[i]) ==> s.subflows[i].lastReport.value.recvTime < time
  }

  predicate ActEnabled(w: World, unit: real, a: Act)
    requires unit != 0.0
  {
    match a
    case Sends(payload, input, _) => CallEnabled(w.sender, unit, SendData(payload, input))
    case Polls(input, _) => PollDefined(w.sender, unit, input)
    case Answers(inputs, arrival, t0, t1) =>
      && w.source.sendRr && w.source.legs != [] && R.ReportFits(w.source) && |inputs| == |w.source.legs| + 1
      && t0 <= t1
      && (arrival.Some? ==> Later(w.sender, arrival.value))
  }

  function ActStep(w: World, unit: real, a: Act): World
    requires unit != 0.0 && ActEnabled(w, unit, a)
  {
    match a
    case Sends(payload, input, arrival) =>
      World(AfterSend(w.sender, unit, payload, input),
            if input.delivered && arrival.Some?
            then R.AfterPacket(w.source, PacketOf(w.sender, unit, payload, input, arrival.value), unit)
            else w.source)
    case Polls(input, arrival) =>
      World(AfterPoll(w.sender, unit, input),
            if ReportDue(w.sender, input.now) && arrival.Some?
            then HearAll(w.source, WalkCompound(SenderReportBytes(w.sender, unit, input)).deliveries, arrival.value)
            else w.source)
    case Answers(inputs, arrival, t0, t1) =>
      var bytes := EncodeCompound(R.ReportParts(w.source, inputs));
      World(if arrival.None? then w.sender
            else HandleAll(w.sender, WalkCompound(bytes).deliveries, arrival.value, t0, t1),
            R.AfterReport(w.source))
  }

  predicate ActsAdmissible(w: World, unit: real, acts: seq<Act>)
    requires unit != 0.0
    decreases |acts|
  {
    acts == [] || (ActEnabled(w, unit, acts[0]) && ActsAdmissible(ActStep(w, unit, acts[0]), unit, acts[1..]))
  }

  function RunActs(w: World, unit: real, acts: seq<Act>): World
    requires unit != 0.0 && ActsAdmissible(w, unit, acts)
    decreases |acts|
  {
    if acts == [] then w else RunActs(ActStep(w, unit, acts[0]), unit, acts[1..])
  }

  // ----- each end runs its own machine -----

  lemma {:induction false} SenderRunsOn(s: SenderState, unit: real, es: seq<Call>, fs: seq<Call>)
    requires unit != 0.0 && CallsAdmissible(s, unit, es) && CallsAdmissible(RunCalls(s, unit, es), unit, fs)
    ensures CallsAdmissible(s, unit, es + fs)
    ensures RunCalls(s, unit, es + fs) == RunCalls(RunCalls(s, unit, es), unit, fs)
    decreases |es|
  {
    hide CallEnabled, CallStep;
    if es == [] {
      assert es + fs == fs;
    } else {
      assert (es + fs)[0] == es[0] && (es + fs)[1..] == es[1..] + fs;
      SenderRunsOn(CallStep(s, unit, es[0]), unit, es[1..], fs);
    }
  }

  lemma LaterStays(s: SenderState, id: u16, r: ReceivedReport, t0: real, t1: real)
    requires Later(s, r.recvTime) && t0 <= t1
    ensures Timely(s, r.recvTime) && ReportMeasurable(s, id, r)
    ensures Later(AfterReport(s, id, r, t0, t1), r.recvTime)
    ensures forall unit: real :: unit != 0.0 ==> CallEnabled(s, unit, ReceiveRr(id, r, t0, t1))
  {
    hide InstantBitrate, Blend, Damped;
  }

  // Handling an answer is one call of the sender for every block in it.
  lemma {:induction false} HandlingIsCalls(s: SenderState, unit: real, ds: seq<Delivery>, time: real,
                                           t0: real, t1: real)
    returns (es: seq<Call>)
    requires unit != 0.0 && Later(s, time) && t0 <= t1
    ensures Timely(s, time) && CallsAdmissible(s, unit, es) && RunCalls(s, unit, es) == HandleAll(s, ds, time, t0, t1)
    decreases |ds|
  {
    hide InstantBitrate, Blend, Damped, OnReport;
    assert Timely(s, time);
    if ds == [] {
      es := [];
    } else if ds[0].SrDelivery? {
      es := HandlingIsCalls(s, unit, ds[1..], time, t0, t1);
    } else {
      var id, r := ds[0].id, ReceivedReport(ds[0].rr, time);
      var e := ReceiveRr(id, r, t0, t1);
      LaterStays(s, id, r, t0, t1);
      hide AfterReport, Later, Timely, CallEnabled;
      var rest := HandlingIsCalls(AfterReport(s, id, r, t0, t1), unit, ds[1..], time, t0, t1);
      es := [e] + rest;
      assert es[1..] == rest;
    }
  }

  lemma ActIsCalls(w: World, unit: real, a: Act) returns (es: seq<Call>)
    requires unit != 0.0 && ActEnabled(w, unit, a)
    ensures CallsAdmissible(w.sender, unit, es) && RunCalls(w.sender, unit, es) == ActStep(w, unit, a).sender
  {
    hide AfterSend, AfterPoll, PollDefined, WalkCompound, EncodeCompound, R.AfterPacket;
    match a
    case Sends(payload, input, _) =>
      es := [SendData(payload, input)];
      assert es[1..] == [];
    case Polls(input, _) =>
      es := [Poll(input)];
      assert es[1..] == [];
    case Answers(inputs, arrival, t0, t1) =>
      es := [];
      if arrival.Some? {
        var ds := WalkCompound(EncodeCompound(R.ReportParts(w.source, inputs))).deliveries;
        es := HandlingIsCalls(w.sender, unit, ds, arrival.value, t0, t1);
      }
  }

  // So whatever holds over every run of a sender holds of the sender in every run of the whole.
  lemma {:induction false} WorldRunsSender(w: World, unit: real, acts: seq<Act>) returns (es: seq<Call>)
    requires unit != 0.0 && ActsAdmissible(w, unit, acts)
    ensures CallsAdmissible(w.sender, unit, es) && RunCalls(w.sender, unit, es) == RunActs(w, unit, acts).sender
    decreases |acts|
  {
    hide ActEnabled, ActStep;
    es := [];
    if acts != [] {
      es := ActIsCalls(w, unit, acts[0]);
      var rest := WorldRunsSender(ActStep(w, unit, acts[0]), unit, acts[1..]);
      SenderRunsOn(w.sender, unit, es, rest);
      es := es + rest;
    }
  }

  lemma {:induction false} SourceRunsOn(s: R.SourceState, unit: real, cs: seq<R.Call>, ds: seq<R.Call>)
    ensures R.RunCalls(s, unit, cs + ds) == R.RunCalls(R.RunCalls(s, unit, cs), unit, ds)
    decreases |cs|
  {
    hide R.CallStep;
    if cs == [] {
      assert cs + ds == ds;
    } else {
      assert (cs + ds)[0] == cs[0] && (cs + ds)[1..] == cs[1..] + ds;
      SourceRunsOn(R.CallStep(s, unit, cs[0]), unit, cs[1..], ds);
    }
  }

  lemma {:induction false} HearingIsCalls(s: R.SourceState, unit: real, ds: seq<Delivery>, time: real)
    returns (cs: seq<R.Call>)
    ensures R.RunCalls(s, unit, cs) == HearAll(s, ds, time)
    decreases |ds|
  {
    hide R.AfterSr;
    if ds == [] {
      cs := [];
    } else if ds[0].RrDelivery? {
      cs := HearingIsCalls(s, unit, ds[1..], time);
    } else {
      var sr := S.LastSr(NtpTime(ds[0].sr.ntpMsw, ds[0].sr.ntpLsw), time);
      var rest := HearingIsCalls(R.AfterSr(s, sr, ds[0].id), unit, ds[1..], time);
      cs := [R.SrIn(sr, ds[0].id)] + rest;
      assert cs[1..] == rest;
    }
  }

  lemma ActIsSourceCalls(w: World, unit: real, a: Act) returns (cs: seq<R.Call>)
    requires unit != 0.0 && ActEnabled(w, unit, a)
    ensures R.RunCalls(w.source, unit, cs) == ActStep(w, unit, a).source
  {
    hide AfterSend, AfterPoll, Divisible, WalkCompound, EncodeCompound, R.AfterPacket, HandleAll, ReportDue;
    cs := [];
    match a
    case Sends(payload, input, arrival) =>
      if input.delivered && arrival.Some? {
        cs := [R.PacketIn(PacketOf(w.sender, unit, payload, input, arrival.value))];
        assert cs[1..] == [];
      }
    case Polls(input, arrival) =>
      if ReportDue(w.sender, input.now) && arrival.Some? {
        var ds := WalkCompound(SenderReportBytes(w.sender, unit, input)).deliveries;
        cs := HearingIsCalls(w.source, unit, ds, arrival.value);
      }
    case Answers(_, _, _, _) =>
      cs := [R.PollOut];
      assert cs[1..] == [];
  }

  // And whatever holds over every run of a source holds of the source.
  lemma {:induction false} WorldRunsSource(w: World, unit: real, acts: seq<Act>) returns (cs: seq<R.Call>)
    requires unit != 0.0 && ActsAdmissible(w, unit, acts)
    ensures R.RunCalls(w.source, unit, cs) == RunActs(w, unit, acts).source
    decreases |acts|
  {
    hide ActEnabled, ActStep;
    cs := [];
    if acts != [] {
      cs := ActIsSourceCalls(w, unit, acts[0]);
      var rest := WorldRunsSource(ActStep(w, unit, acts[0]), unit, acts[1..]);
      SourceRunsOn(w.source, unit, cs, rest);
      cs := cs + rest;
    }
  }

  // ----- what an exchange of reports does -----

  // Every subflow of the list has a leg.
  predicate Known(legs: seq<R.Leg>, v: seq<SubflowState>) {
    forall i :: 0 <= i < |v| ==> R.FindLeg(legs, v[i].id) < |legs|
  }

  // A sender report on subflows the source knows only asks for an answer.
  lemma {:induction false} HearsKnown(s: R.SourceState, a: SenderState, v: seq<SubflowState>, time: real)
    requires Known(s.legs, v) && forall i :: 0 <= i < |v| ==> v[i].id != 0
    ensures HearAll(s, SubflowReports(a, v), time) == s
    decreases |v|
  {
    if v != [] {
      var ds := SubflowReports(a, v);
      assert ds[1..] == SubflowReports(a, v[1..]);
      assert R.FindLeg(s.legs, v[0].id) < |s.legs|;
      assert forall i :: 0 <= i < |v| - 1 ==> v[1..][i] == v[i + 1];
      hide SubflowReports, R.FindLeg;
      HearsKnown(s, a, v[1..], time);
    }
  }

  lemma ReportAsksForAnswer(w: World, unit: real, input: PollInput, time: real)
    requires unit != 0.0 && ReportFits(w.sender) && Known(w.source.legs, w.sender.subflows)
    requires forall i :: 0 <= i < |w.sender.subflows| ==> w.sender.subflows[i].id != 0
    ensures var n := HearAll(w.source, WalkCompound(SenderReportBytes(w.sender, unit, input)).deliveries, time);
            n == w.source.(lastSr := Some(S.LastSr(ToNtp(input.stampTime), time)), sendRr := true)
  {
    hide WalkCompound, EncodeCompound, ReportParts, Advance, ToNtp, Known;
    var a := NextTimestamp(w.sender, unit, input.stampTime, input.random);
    SenderReportRoundTrip(a);
    var ds := [SrDelivery(0, ReportFor(a, a.packetCount, a.octetCount))] + SubflowReports(a, a.subflows);
    assert ds[1..] == SubflowReports(a, a.subflows);
    var sr := ReportFor(a, a.packetCount, a.octetCount);
    HearsKnown(R.AfterSr(w.source, S.LastSr(NtpTime(sr.ntpMsw, sr.ntpLsw), time), 0), a, a.subflows, time);
  }

  // Handling an answer changes subflows alone, and asks for recalculation if it is about any of them.
  lemma {:induction false} HandlingKeeps(s: SenderState, ds: seq<Delivery>, time: real, t0: real, t1: real)
    requires Timely(s, time) && ProperIds(s.subflows)
    ensures var n := HandleAll(s, ds, time, t0, t1);
            && n == s.(recalc := n.recalc, subflows := n.subflows)
            && (s.recalc ==> n.recalc)
            && ((exists j :: 0 <= j < |ds| && ds[j].RrDelivery? && ds[j].id != 0
                   && exists i :: 0 <= i < |s.subflows| && s.subflows[i].id == ds[j].id) ==> n.recalc)
    decreases |ds|
  {
    hide OnReport;
    if ds != [] {
      if ds[0].SrDelivery? {
        HandlingKeeps(s, ds[1..], time, t0, t1);
      } else {
        var r := ReceivedReport(ds[0].rr, time);
        StaysTimely(s, ds[0].id, r, t0, t1);
        ReportKeepsIds(s, ds[0].id, r, t0, t1);
        var m := AfterReport(s, ds[0].id, r, t0, t1);
        assert m == s.(recalc := m.recalc, subflows := m.subflows);
        HandlingKeeps(m, ds[1..], time, t0, t1);
        hide AfterReport, Timely, ProperIds;
      }
      assert forall j :: 0 < j < |ds| ==> ds[j] == ds[1..][j - 1];
    }
  }
}
