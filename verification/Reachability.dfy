// What runs of a sender can come to, together with a receiver: the runs are those of both ends and
// the network between them on a clock that never goes back.

module Reachability {
  import opened Numeric
  import opened Reports
  import opened Clock
  import opened Congestion
  import opened Allocation
  import opened Selection
  import opened Rtcp
  import opened SenderModel
  import opened SenderRuns
  import opened ControlLoop
  import opened World
  import S = Statistics
  import R = SourceModel

  // ----- possible runs -----

  function Arriving(arrival: Option<real>): seq<real> {
    if arrival.Some? then [arrival.value] else []
  }

  function Nows(inputs: seq<R.FillInput>): seq<real> {
    seq(|inputs|, i requires 0 <= i < |inputs| => inputs[i].now)
  }

  // The clock readings of an act, in the order they are taken; what it sends is stamped on arrival.
  function ReadingsOf(a: Act): seq<real> {
    match a
    case Sends(_, input, arrival) => [input.stampTime, input.firstTime, input.rateTime] + Arriving(arrival)
    case Polls(input, arrival) => [input.now, input.stampTime, input.rateTime] + Arriving(arrival)
    case Answers(inputs, arrival, t0, t1) => Nows(inputs) + Arriving(arrival) + [t0, t1]
  }

  function Readings(acts: seq<Act>): seq<real> {
    if acts == [] then [] else ReadingsOf(acts[0]) + Readings(acts[1..])
  }

  ghost predicate Monotone(xs: seq<real>) {
    && (forall i :: 0 <= i < |xs| ==> xs[i] > 0.0)
    && (forall i, j :: 0 <= i < j < |xs| ==> xs[i] <= xs[j])
  }

  // A run of both ends that takes w to f no later than t.
  ghost predicate Leads(w: World, unit: real, acts: seq<Act>, f: World, t: real)
    requires unit != 0.0
  {
    && ActsAdmissible(w, unit, acts) && RunActs(w, unit, acts) == f
    && Monotone(Readings(acts) + [t])
  }

  ghost predicate Reaches(w: World, unit: real, f: World, t: real)
    requires unit != 0.0
  {
    exists acts: seq<Act> :: Leads(w, unit, acts, f, t)
  }

  // A sender that has just connected, and a receiver that has heard nothing of it.
  ghost predicate Begins(w: World) {
    && Connected(w.sender) && IdsInOrder(w.sender) && w.sender.subflows != []
    && w.source == R.NewSource(w.sender.ssrc, w.source.senderSsrc)
  }

  lemma {:induction false} RunOneMore(w: World, unit: real, acts: seq<Act>, a: Act)
    requires unit != 0.0 && ActsAdmissible(w, unit, acts) && ActEnabled(RunActs(w, unit, acts), unit, a)
    ensures ActsAdmissible(w, unit, acts + [a])
    ensures RunActs(w, unit, acts + [a]) == ActStep(RunActs(w, unit, acts), unit, a)
    ensures Readings(acts + [a]) == Readings(acts) + ReadingsOf(a)
    decreases |acts|
  {
    hide ActEnabled, ActStep, ReadingsOf;
    var all := acts + [a];
    if acts != [] {
      RunOneMore(ActStep(w, unit, acts[0]), unit, acts[1..], a);
      assert all[1..] == acts[1..] + [a];
    } else {
      assert all[1..] == [];
    }
  }

  lemma MonotoneAppend(xs: seq<real>, t: real, ys: seq<real>, u: real)
    requires Monotone(xs + [t]) && t <= u && forall y :: y in ys ==> y == u
    ensures Monotone(xs + ys + [u])
  {
    assert (xs + [t])[|xs|] == t;
    var all := xs + ys + [u];
    forall i | |xs| <= i < |all| ensures all[i] == u {
      assert i < |xs + ys| ==> ys[i - |xs|] in ys;
    }
    forall i | 0 <= i < |xs| ensures all[i] == (xs + [t])[i] <= t {
    }
  }

  // One more act with all its readings at u.
  lemma ReachesStep(w: World, unit: real, m: World, t: real, a: Act, u: real)
    requires unit != 0.0 && Reaches(w, unit, m, t) && ActEnabled(m, unit, a)
    requires t <= u && forall x :: x in ReadingsOf(a) ==> x == u
    ensures Reaches(w, unit, ActStep(m, unit, a), u)
  {
    hide ActEnabled, ActStep, ReadingsOf;
    var acts: seq<Act> :| Leads(w, unit, acts, m, t);
    RunOneMore(w, unit, acts, a);
    MonotoneAppend(Readings(acts), t, ReadingsOf(a), u);
    hide Monotone, RunActs, ActsAdmissible, Readings;
    assert Leads(w, unit, acts + [a], ActStep(m, unit, a), u);
  }

  // ----- acts while no subflow has redistributed -----

  // Where the runs below stand at time t.
  ghost predicate Early(w: World, unit: real, m: World, t: real)
    requires unit != 0.0
  {
    && Reaches(w, unit, m, t)
    && 0.0 < t
    && 0 < |m.sender.subflows| <= 3 && ProperIds(m.sender.subflows)
    && (forall i :: 0 <= i < |m.sender.subflows| ==> m.sender.subflows[i].share == 0.5)
    && 0.0 <= m.sender.lastReportTime <= t && (m.sender.packetCount > 0 ==> m.sender.lastReportTime > 0.0)
    && 0.0 <= m.sender.rateTime <= t
  }

  // The legs of the receiver are those of the first subflows, in the same order.
  ghost predicate Paired(legs: seq<R.Leg>, v: seq<SubflowState>) {
    |legs| <= |v| && forall i :: 0 <= i < |legs| ==> legs[i].id == v[i].id
  }

  ghost predicate AllPaired(m: World) {
    Paired(m.source.legs, m.sender.subflows) && |m.source.legs| == |m.sender.subflows|
  }

  lemma Start(w: World, unit: real)
    requires unit != 0.0 && Begins(w) && |w.sender.subflows| <= 3
    ensures Early(w, unit, w, 1.0) && w.source.legs == []
  {
    OrderedIdsProper(w.sender);
    assert Readings([]) + [1.0] == [1.0];
    assert Leads(w, unit, [], w, 1.0);
    hide Readings, ReadingsOf, ActStep, IdsInOrder, ProperIds, ActEnabled;
  }

  lemma PairedFind(legs: seq<R.Leg>, v: seq<SubflowState>, i: nat)
    requires Paired(legs, v) && DistinctIds(v) && i < |v|
    ensures R.FindLeg(legs, v[i].id) == if i < |legs| then i else |legs|
  {
  }

  lemma HalvesChoose(s: SenderState, i: nat)
    requires i < |s.subflows| <= 3 && forall j :: 0 <= j < |s.subflows| ==> s.subflows[j].share == 0.5
    ensures Chosen(s, 50 * i) == i
  {
    HalfSharesReachThree(ShareList(s.subflows), 50 * i);
  }

  // One packet of seven octets is sent on subflow i, which half shares let through.
  lemma SendStep(m: World, unit: real, t: real, i: nat, arrival: Option<real>) returns (a: Act, stamp: u32)
    requires unit != 0.0 && i < |m.sender.subflows| <= 3
    requires forall j :: 0 <= j < |m.sender.subflows| ==> m.sender.subflows[j].share == 0.5
    ensures a.Sends? && a.arrival == arrival && a.input.stampTime == a.input.firstTime == a.input.rateTime == t
    ensures ActEnabled(m, unit, a)
    ensures var s, n := m.sender, ActStep(m, unit, a).sender; var x := s.subflows[i];
            && n.subflows == s.subflows[i := Sent(x, 7, true, false)]
            && n.packetCount == Wrap32(s.packetCount + 1)
            && n.lastReportTime == (if s.packetCount == 0 then t else s.lastReportTime)
            && n.rateTime == if s.rateTime == 0.0 then t else s.rateTime
    ensures var x := m.sender.subflows[i]; var f := ActStep(m, unit, a).source;
            f.legs == if arrival.None? then m.source.legs
                      else var legs := R.WithLeg(m.source.legs, x.id); var j := R.FindLeg(m.source.legs, x.id);
                           legs[j := R.Leg(x.id, S.Arrive(legs[j].stat, x.sequence, stamp, arrival.value, unit))]
  {
    var input := SendInput(50 * i, true, t, t, t, 0);
    HalvesChoose(m.sender, i);
    hide Chosen;
    SendChanges(m.sender, unit, 7, input);
    a := Sends(7, input, arrival);
    stamp := AfterSend(m.sender, unit, 7, input).timestamp;
    hide AfterSend, S.Arrive, R.WithLeg, R.FindLeg, Sent;
  }

  lemma StillProper(v: seq<SubflowState>, i: nat, x: SubflowState)
    requires i < |v| && x.id == v[i].id && ProperIds(v)
    ensures ProperIds(v[i := x])
  {
  }

  // The legs after a packet with number seq16 arrived on the subflow with the id of leg i.
  lemma LegsAfter(legs: seq<R.Leg>, v: seq<SubflowState>, i: nat, st: S.Stats)
    requires Paired(legs, v) && DistinctIds(v) && i < |v| && i <= |legs|
    ensures var more, j := R.WithLeg(legs, v[i].id), R.FindLeg(legs, v[i].id);
            var after := more[j := R.Leg(v[i].id, st)];
            && j == i && more[j].stat == (if i < |legs| then legs[i].stat else S.FRESH)
            && |after| == (if i < |legs| then |legs| else |legs| + 1) && Paired(after, v)
            && after[i].stat == st
            && forall k :: 0 <= k < |legs| && k != i ==> after[k] == legs[k]
  {
    PairedFind(legs, v, i);
    hide R.FindLeg;
  }

  lemma SamePairs(legs: seq<R.Leg>, v: seq<SubflowState>, u: seq<SubflowState>)
    requires |u| == |v| && forall i :: 0 <= i < |v| ==> u[i].id == v[i].id
    ensures Paired(legs, u) == Paired(legs, v)
  {
  }

  lemma SendOn(w: World, unit: real, m: World, t: real, i: nat, arrives: bool) returns (f: World, stamp: u32)
    requires unit != 0.0 && Early(w, unit, m, t)
    requires Paired(m.source.legs, m.sender.subflows) && i < |m.sender.subflows| && i <= |m.source.legs|
    ensures Early(w, unit, f, t) && f.sender.lastReportTime > 0.0 && f.sender.rateTime > 0.0
    ensures f.sender.subflows == m.sender.subflows[i := Sent(m.sender.subflows[i], 7, true, false)]
    ensures Paired(f.source.legs, f.sender.subflows)
    ensures !arrives ==> f.source.legs == m.source.legs
    ensures var k := |m.source.legs|;
            arrives ==>
              && |f.source.legs| == (if i < k then k else k + 1)
              && (forall j :: 0 <= j < k && j != i ==> f.source.legs[j] == m.source.legs[j])
              && var st := if i < k then m.source.legs[i].stat else S.FRESH;
                 f.source.legs[i].stat == S.Arrive(st, m.sender.subflows[i].sequence, stamp, t, unit)
  {
    hide ActStep, ActEnabled, S.Arrive, Wrap32;
    var v, legs, x := m.sender.subflows, m.source.legs, m.sender.subflows[i];
    assert Sent(x, 7, true, false).id == x.id && Sent(x, 7, true, false).share == x.share;
    hide Sent;
    var a;
    a, stamp := SendStep(m, unit, t, i, if arrives then Some(t) else None);
    ReachesStep(w, unit, m, t, a, t);
    f := ActStep(m, unit, a);
    LegsAfter(legs, v, i, S.Arrive(if i < |legs| then legs[i].stat else S.FRESH, x.sequence, stamp, t, unit));
    StillProper(v, i, Sent(x, 7, true, false));
    SamePairs(f.source.legs, v, f.sender.subflows);
    hide Reaches, ProperIds, Paired, R.WithLeg, R.FindLeg;
  }

  // ----- polls and answers -----

  lemma PollFields(m: SenderState, unit: real, u: real, input: PollInput)
    requires unit != 0.0 && input == PollInput(u, u, u, 0)
    requires 0 < |m.subflows| <= 3 && !AllReady(m.subflows)
    ensures PollDefined(m, unit, input)
    ensures var f := AfterPoll(m, unit, input);
            && f.subflows == m.subflows && f.packetCount == m.packetCount
            && f.lastReportTime == (if ReportDue(m, u) then u else m.lastReportTime)
            && (f.rateTime == m.rateTime || f.rateTime == u)
            && (m.rateTime > 0.0 && m.rateTime + 1.0 <= u ==>
                  && f.rateTime == u && f.rateBytes == 0
                  && (!ReportDue(m, u) && m.rateBytes == 0 ==> f.streamBitrate == 0.0))
  {
    BeforeRecalcChanges(m, unit, input);
    hide NewShares, ReportDue, Advance, Wrap32;
    PollChanges(m, unit, input);
  }

  lemma AllKnown(m: World)
    requires AllPaired(m) && DistinctIds(m.sender.subflows)
    ensures Known(m.source.legs, m.sender.subflows)
  {
    forall i | 0 <= i < |m.sender.subflows|
      ensures R.FindLeg(m.source.legs, m.sender.subflows[i].id) < |m.source.legs|
    {
      PairedFind(m.source.legs, m.sender.subflows, i);
    }
  }

  // Polling while a subflow is not ready only measures the rate and sends a report when one is due,
  // which a receiver that knows every subflow takes as a request for an answer.
  lemma PollStep(m: World, unit: real, u: real) returns (a: Act)
    requires unit != 0.0 && 0 < |m.sender.subflows| <= 3 && !AllReady(m.sender.subflows)
    requires ProperIds(m.sender.subflows) && AllPaired(m)
    ensures a == Polls(PollInput(u, u, u, 0), Some(u)) && ActEnabled(m, unit, a)
    ensures var f := ActStep(m, unit, a).source;
            && f.legs == m.source.legs
            && (if ReportDue(m.sender, u) then f.sendRr && f.lastSr.Some? else f == m.source)
  {
    var input := PollInput(u, u, u, 0);
    a := Polls(input, Some(u));
    PollFields(m.sender, unit, u, input);
    AllKnown(m);
    hide AfterPoll, PollDefined, ReportDue, Known, Paired, AllReady, WalkCompound, SenderReportBytes, HearAll;
    if ReportDue(m.sender, u) {
      ReportAsksForAnswer(m, unit, input, u);
    }
  }

  lemma PollOn(w: World, unit: real, m: World, t: real, u: real) returns (f: World)
    requires unit != 0.0 && Early(w, unit, m, t) && t <= u && !AllReady(m.sender.subflows)
    requires AllPaired(m)
    ensures Early(w, unit, f, u) && f.sender.subflows == m.sender.subflows && f.source.legs == m.source.legs
    ensures if ReportDue(m.sender, u) then f.source.sendRr && f.source.lastSr.Some? else f.source == m.source
    ensures f.sender.lastReportTime == if ReportDue(m.sender, u) then u else m.sender.lastReportTime
    ensures m.sender.rateTime > 0.0 && m.sender.rateTime + 1.0 <= u ==>
              && f.sender.rateTime == u && f.sender.rateBytes == 0
              && (!ReportDue(m.sender, u) && m.sender.rateBytes == 0 ==> f.sender.streamBitrate == 0.0)
  {
    var a := PollStep(m, unit, u);
    PollFields(m.sender, unit, u, a.poll);
    ReachesStep(w, unit, m, t, a, u);
    f := ActStep(m, unit, a);
    hide Reaches, AfterPoll, HearAll, SenderReportBytes, WalkCompound;
    hide ReportDue, AllReady, ProperIds, Paired, ActEnabled;
  }

  // The stream bitrate was just measured as zero, no sender report is due, and an answer is.
  predicate Quiet(f: SenderState, t: real) {
    f.streamBitrate == 0.0 && f.rateTime == t && f.lastReportTime == t - 1.0 && !ReportDue(f, t)
  }

  lemma SixSecondsOn(t: real, last: real)
    requires 0.0 < last <= t
    ensures Truncate(t + 6.0) - Truncate(last) >= 5
    ensures Truncate(t + 7.0) - Truncate(t + 6.0) == 1
  {
  }

  lemma EarlyTimes(w: World, unit: real, m: World, t: real)
    requires unit != 0.0 && Early(w, unit, m, t)
    ensures 0.0 < t && 0.0 <= m.sender.lastReportTime <= t && 0.0 <= m.sender.rateTime <= t
  {
  }

  lemma PollTwice(w: World, unit: real, m: World, t: real) returns (f: World)
    requires unit != 0.0 && Early(w, unit, m, t) && !AllReady(m.sender.subflows)
    requires m.sender.lastReportTime > 0.0 && m.sender.rateTime > 0.0 && AllPaired(m)
    ensures Early(w, unit, f, t + 7.0) && Quiet(f.sender, t + 7.0)
    ensures f.sender.subflows == m.sender.subflows && f.source.legs == m.source.legs
    ensures f.source.sendRr && f.source.lastSr.Some?
  {
    EarlyTimes(w, unit, m, t);
    SixSecondsOn(t, m.sender.lastReportTime);
    hide Truncate, Early, AllReady, Paired;
    assert ReportDue(m.sender, t + 6.0);
    var b := PollOn(w, unit, m, t, t + 6.0);
    assert !ReportDue(b.sender, t + 7.0);
    f := PollOn(w, unit, b, t + 6.0, t + 7.0);
  }

  // The report on a subflow with statistics st that an answer of the source carries to time t.
  function Feedback(st: S.Stats, s: R.SourceState, t: real): ReceivedReport {
    ReceivedReport(S.MakeReport(st, s.ssrc, s.lastSr, t, 0), t)
  }

  // The inputs of an answer made at t, and the deliveries its bytes walk to.
  function InputsAt(n: nat, t: real): (inputs: seq<R.FillInput>)
    ensures |inputs| == n && forall i :: 0 <= i < n ==> inputs[i] == R.FillInput(t, 0)
  {
    seq(n, _ => R.FillInput(t, 0))
  }

  function Answered(m: World, t: real): seq<Delivery>
    requires |m.source.legs| <= 3
  {
    WalkCompound(EncodeCompound(R.ReportParts(m.source, InputsAt(|m.source.legs| + 1, t)))).deliveries
  }

  lemma InformedAt(m: World, t: real, i: nat)
    requires 0 < |m.sender.subflows| <= 3 && ProperIds(m.sender.subflows) && i < |m.sender.subflows|
    requires AllPaired(m) && Timely(m.sender, t)
    ensures var x, r := m.sender.subflows[i], Feedback(m.source.legs[i].stat, m.source, t);
            var inputs := InputsAt(|m.source.legs| + 1, t)[1..];
            Measurable(x, r) && Informed(x, m.source, m.source.legs, inputs, t, t, t) == OnReport(x, r, t, t)
  {
    PairedFind(m.source.legs, m.sender.subflows, i);
    hide R.FindLeg, S.MakeReport, OnReport;
    assert InputsAt(|m.source.legs| + 1, t)[1..][i] == R.FillInput(t, 0);
  }

  lemma PairedDistinct(legs: seq<R.Leg>, v: seq<SubflowState>)
    requires Paired(legs, v) && DistinctIds(v)
    ensures R.DistinctIds(legs)
  {
  }

  lemma AnswerReaches(m: World, t: real, i: nat)
    requires 0 < |m.sender.subflows| <= 3 && ProperIds(m.sender.subflows) && i < |m.sender.subflows|
    requires AllPaired(m) && Timely(m.sender, t)
    ensures var f, inputs := HandleAll(m.sender, Answered(m, t), t, t, t), InputsAt(|m.source.legs| + 1, t)[1..];
            && |f.subflows| == |m.sender.subflows|
            && f.subflows[i] == Informed(m.sender.subflows[i], m.source, m.source.legs, inputs, t, t, t)
  {
    PairedDistinct(m.source.legs, m.sender.subflows);
    hide WalkCompound, EncodeCompound, R.ReportParts, HandleAll, ProperIds, R.DistinctIds, Informed, InputsAt, Paired;
    ReportsReachTheirSubflows(m.sender, m.source, InputsAt(|m.source.legs| + 1, t), t, t, t);
  }

  lemma AnswerInforms(m: World, t: real, i: nat)
    requires 0 < |m.sender.subflows| <= 3 && ProperIds(m.sender.subflows) && i < |m.sender.subflows|
    requires AllPaired(m) && Timely(m.sender, t)
    ensures var f, x := HandleAll(m.sender, Answered(m, t), t, t, t), m.sender.subflows[i];
            var r := Feedback(m.source.legs[i].stat, m.source, t);
            |f.subflows| == |m.sender.subflows| && Measurable(x, r) && f.subflows[i] == OnReport(x, r, t, t)
  {
    InformedAt(m, t, i);
    hide OnReport, HandleAll, ProperIds, Feedback, Informed, Measurable, Timely, InputsAt, Paired, Answered;
    AnswerReaches(m, t, i);
  }

  lemma AnswerKeeps(m: World, t: real)
    requires 0 < |m.sender.subflows| <= 3 && ProperIds(m.sender.subflows)
    requires AllPaired(m) && Timely(m.sender, t)
    ensures var f := HandleAll(m.sender, Answered(m, t), t, t, t);
            f == m.sender.(recalc := true, subflows := f.subflows)
  {
    var inputs, s := InputsAt(|m.source.legs| + 1, t), m.source;
    R.ReceiverReportRoundTrip(s, inputs);
    var ds := [R.MainReport(s, inputs[0])] + R.LegReports(s, s.legs, inputs[1..]);
    HandlingKeeps(m.sender, ds, t, t, t);
    assert ds[1] == R.LegReports(s, s.legs, inputs[1..])[0];
    assert ds[1].RrDelivery? && ds[1].id == m.sender.subflows[0].id != 0;
    hide WalkCompound, EncodeCompound, R.ReportParts, R.LegReports, HandleAll, R.MainReport, ProperIds, Timely;
  }

  lemma AnswerEnabled(m: World, unit: real, t: real, a: Act)
    requires unit != 0.0 && 0 < |m.sender.subflows| <= 3 && AllPaired(m) && m.source.sendRr && Later(m.sender, t)
    requires a == Answers(InputsAt(|m.source.legs| + 1, t), Some(t), t, t)
    ensures ActEnabled(m, unit, a) && forall x :: x in ReadingsOf(a) ==> x == t
  {
  }

  // One answer informs every subflow.
  lemma AnswerStep(m: World, unit: real, t: real, a: Act)
    requires unit != 0.0 && 0 < |m.sender.subflows| <= 3 && ProperIds(m.sender.subflows) && AllPaired(m)
    requires a == Answers(InputsAt(|m.source.legs| + 1, t), Some(t), t, t) && ActEnabled(m, unit, a)
    ensures var f, n := ActStep(m, unit, a), |m.sender.subflows|;
            && f.sender == m.sender.(recalc := true, subflows := f.sender.subflows) && |f.sender.subflows| == n
            && (forall i :: 0 <= i < n ==>
                  var x, r := m.sender.subflows[i], Feedback(m.source.legs[i].stat, m.source, t);
                  Measurable(x, r) && f.sender.subflows[i] == OnReport(x, r, t, t))
            && f.source.legs == R.IntervalsClosed(m.source.legs)
  {
    var n, s := |m.sender.subflows|, m.sender;
    assert Timely(s, t);
    AnswerKeeps(m, t);
    var f := HandleAll(s, Answered(m, t), t, t, t);
    forall i | 0 <= i < n
      ensures var x, r := s.subflows[i], Feedback(m.source.legs[i].stat, m.source, t);
              |f.subflows| == n && Measurable(x, r) && f.subflows[i] == OnReport(x, r, t, t)
    {
      AnswerInforms(m, t, i);
    }
    hide OnReport, HandleAll, Feedback, Measurable, Timely, Later, ProperIds, AllPaired;
    assert ActStep(m, unit, a).sender == f;
  }

  lemma KeepsIdentity(x: SubflowState, r: ReceivedReport, t: real)
    requires Measurable(x, r)
    ensures OnReport(x, r, t, t).id == x.id && OnReport(x, r, t, t).share == x.share
  {
    hide InstantBitrate, Blend, Damped;
  }

  lemma AnswerOn(w: World, unit: real, m: World, t: real) returns (f: World)
    requires unit != 0.0 && Early(w, unit, m, t) && AllPaired(m) && m.source.sendRr && Later(m.sender, t)
    ensures Early(w, unit, f, t) && AllPaired(f) && |f.sender.subflows| == |m.sender.subflows|
    ensures f.sender == m.sender.(recalc := true, subflows := f.sender.subflows)
    ensures forall i :: 0 <= i < |m.sender.subflows| ==>
              var x, r := m.sender.subflows[i], Feedback(m.source.legs[i].stat, m.source, t);
              && Measurable(x, r) && f.sender.subflows[i] == OnReport(x, r, t, t)
              && f.source.legs[i].stat == S.NewInterval(m.source.legs[i].stat)
  {
    hide ActStep, ActEnabled, OnReport, Feedback, Measurable, ReadingsOf, S.NewInterval, Later;
    var v, a := m.sender.subflows, Answers(InputsAt(|m.source.legs| + 1, t), Some(t), t, t);
    AnswerEnabled(m, unit, t, a);
    AnswerStep(m, unit, t, a);
    hide InputsAt, Paired;
    ReachesStep(w, unit, m, t, a, t);
    f := ActStep(m, unit, a);
    hide Reaches;
    forall i | 0 <= i < |v| ensures f.sender.subflows[i].id == v[i].id && f.sender.subflows[i].share == v[i].share {
      KeepsIdentity(v[i], Feedback(m.source.legs[i].stat, m.source, t), t);
    }
    SamePairs(m.source.legs, v, f.sender.subflows);
  }

  // ----- both ends of one subflow -----

  // The receiver reported last when its statistics were st, and the report has arrived.
  ghost predicate Level(x: SubflowState, st: S.Stats, t: real) {
    && st.receivedData && st.saved == st.highest && st.intervalReceived == 0
    && x.lastReport.Some? && x.lastReport.value.block.extHighSeq == st.highest && x.lastReport.value.recvTime == t
    && x.recentPackets == 0 == x.recentOctets
  }

  // The next packet is the one after the highest received.
  ghost predicate InStep(x: SubflowState, st: S.Stats) {
    exists k: nat, off: int :: S.Tracks(st, k, off) && x.sequence == (k + 1) % S.CYCLE
  }

  function SentTimes(x: SubflowState, n: nat): SubflowState {
    if n == 0 then x else Sent(SentTimes(x, n - 1), 7, true, false)
  }

  lemma SentTimesCounts(x: SubflowState, n: nat)
    requires x.recentPackets == 0 && n <= 2
    ensures var y := SentTimes(x, n);
            && y == x.(sequence := y.sequence, packetCount := y.packetCount, octetCount := y.octetCount,
                       recentPackets := y.recentPackets, recentOctets := y.recentOctets)
            && y.sequence == Wrap16(x.sequence + n)
            && y.recentPackets == n && (x.recentOctets == 0 ==> y.recentOctets == 7 * n)
  {
    if n > 0 {
      SentTimesCounts(x, n - 1);
      WrapAdd16(x.sequence + n - 1, 1);
    } else {
      WrapIdentity16(x.sequence);
    }
  }

  // The first packet of a subflow arrives.
  lemma FirstArrival(x: SubflowState, z: S.Stats, stamp: u32, t: real, unit: real)
    requires z == S.Arrive(S.FRESH, x.sequence, stamp, t, unit)
    ensures z.receivedData && InStep(Sent(x, 7, true, false), z)
  {
    var first := S.Arrival(x.sequence, stamp, t);
    S.ExtensionRefinesCounter(first, [], unit);
    assert [first][1..] == [] && [first] + [] == [first];
    assert S.Run(S.FRESH, [first], unit) == S.Next(S.FRESH, first, unit) == z;
    assert S.Tracks(z, x.sequence, S.Offset(x.sequence));
  }

  lemma AheadReads(k: nat, n: nat)
    requires n < 0x8000
    ensures S.Reads(k, k + n) && S.MaxIndex(k, k + n) == k + n
  {
    assert (k + n) / S.CYCLE <= k / S.CYCLE + 1;
  }

  lemma OneCounted(st: S.Stats, item: S.Item, unit: real)
    requires st.receivedData && st.intervalReceived == 0 && item.Arrival?
    ensures var z := S.Next(st, item, unit); z.receivedData && z.saved == st.saved && z.intervalReceived == 1
  {
    hide S.Extend, S.TransitChange, S.Smooth;
  }

  lemma Difference(x: u32, n: nat)
    requires n <= 2
    ensures Wrap32(Wrap32(x + n) - x) == n
  {
  }

  lemma NextSequence(sequence: u16, k: nat, n: nat)
    requires sequence == (k + 1) % S.CYCLE && 0 < n
    ensures Wrap16(sequence + n - 1) == (k + n) % S.CYCLE && Wrap16(sequence + n) == (k + n + 1) % S.CYCLE
  {
    WrapAdd16(k + 1, n - 1);
    WrapAdd16(k + 1, n);
  }

  // The last of n packets arrives, those before it do not.
  lemma NextArrival(x: SubflowState, st: S.Stats, n: nat, z: S.Stats, stamp: u32, t: real, unit: real)
    requires Level(x, st, t) && InStep(x, st) && 0 < n <= 2
    requires z == S.Arrive(st, SentTimes(x, n - 1).sequence, stamp, t, unit)
    ensures z.receivedData && InStep(SentTimes(x, n), z) && z.saved == st.saved
    ensures z.intervalReceived == 1 && S.Expected(z) == n == Wrap32(z.highest - st.highest)
  {
    var k: nat, off: int :| S.Tracks(st, k, off) && x.sequence == (k + 1) % S.CYCLE;
    SentTimesCounts(x, n);
    SentTimesCounts(x, n - 1);
    NextSequence(x.sequence, k, n);
    var item := S.Arrival(k + n, stamp, t);
    assert z == S.Next(st, item, unit);
    AheadReads(k, n);
    S.ExtensionStep(st, k, off, item, unit);
    OneCounted(st, item, unit);
    WrapAdd32(k + off, n);
    Difference(st.highest, n);
    assert S.Tracks(z, k + n, off);
    hide S.Next, S.Arrive, S.Reads, Wrap32, SentTimes;
  }

  // A closed interval keeps everything but its own counters.
  lemma Closed(x: SubflowState, y: SubflowState, z: S.Stats)
    requires y.sequence == x.sequence && z.receivedData
    ensures var st := S.NewInterval(z);
            && st.receivedData && st.highest == z.highest && st.saved == st.highest && st.intervalReceived == 0
            && (InStep(x, z) ==> InStep(y, st))
  {
    if InStep(x, z) {
      var k: nat, off: int :| S.Tracks(z, k, off) && x.sequence == (k + 1) % S.CYCLE;
      assert S.Tracks(S.NewInterval(z), k, off);
    }
  }

  // ----- the first packets -----

  // What the congestion machine of a subflow has learnt.
  predicate SameRates(x: SubflowState, y: SubflowState) {
    && y.ready == x.ready && y.indicator == x.indicator
    && y.tested == x.tested && y.testedKnown == x.testedKnown
    && y.congested == x.congested && y.congestedKnown == x.congestedKnown
  }

  lemma NonePaired(v: seq<SubflowState>)
    ensures Paired([], v)
  {
  }

  // A packet arrives from each of the first k subflows.
  lemma {:induction false} FirstSends(w: World, unit: real, k: nat) returns (f: World)
    requires unit != 0.0 && Begins(w) && k <= |w.sender.subflows| <= 3
    ensures Early(w, unit, f, 1.0) && |f.sender.subflows| == |w.sender.subflows|
    ensures k > 0 ==> f.sender.lastReportTime > 0.0 && f.sender.rateTime > 0.0
    ensures Paired(f.source.legs, f.sender.subflows) && |f.source.legs| == k
    ensures forall i :: 0 <= i < k ==>
              && f.sender.subflows[i] == Sent(w.sender.subflows[i], 7, true, false)
              && f.source.legs[i].stat.receivedData && InStep(f.sender.subflows[i], f.source.legs[i].stat)
    ensures forall i :: k <= i < |w.sender.subflows| ==> f.sender.subflows[i] == w.sender.subflows[i]
  {
    hide Early, Paired, IdsInOrder, Sent, S.Arrive, InStep;
    if k == 0 {
      Start(w, unit);
      NonePaired(w.sender.subflows);
      f := w;
    } else {
      var m := FirstSends(w, unit, k - 1);
      var stamp;
      f, stamp := SendOn(w, unit, m, 1.0, k - 1, true);
      FirstArrival(w.sender.subflows[k - 1], f.source.legs[k - 1].stat, stamp, 1.0, unit);
    }
  }

  // A report on a subflow that cannot measure it.
  lemma Refreshed(x: SubflowState, z: S.Stats, s: R.SourceState, t: real)
    requires !Measures(x) && z.receivedData
    ensures var r := Feedback(z, s, t);
            && Measurable(x, r)
            && var y := OnReport(x, r, t, t);
               && Level(y, S.NewInterval(z), t) && SameRates(x, y)
               && (InStep(x, z) ==> InStep(y, S.NewInterval(z)))
  {
    hide S.FractionLost, S.CumulativeLost, S.Lsr, S.Dlsr, InStep;
    Closed(x, OnReport(x, Feedback(z, s, t), t, t), z);
  }

  // Every subflow sends its first packet and gets its first report.
  lemma Prime(w: World, unit: real) returns (f: World)
    requires unit != 0.0 && Begins(w) && |w.sender.subflows| <= 3
    ensures Early(w, unit, f, 8.0) && AllPaired(f) && |f.sender.subflows| == |w.sender.subflows|
    ensures forall i :: 0 <= i < |w.sender.subflows| ==>
              var x, y, st := w.sender.subflows[i], f.sender.subflows[i], f.source.legs[i].stat;
              Level(y, st, 8.0) && InStep(y, st) && SameRates(x, y)
  {
    var n := |w.sender.subflows|;
    hide Early, Paired, IdsInOrder, InStep, Quiet, Level;
    var a := FirstSends(w, unit, n);
    assert !w.sender.subflows[0].ready && !a.sender.subflows[0].ready;
    var b := PollTwice(w, unit, a, 1.0);
    assert forall i :: 0 <= i < n ==> !Measures(b.sender.subflows[i]);
    f := AnswerOn(w, unit, b, 8.0);
    forall i | 0 <= i < n
      ensures var y, st := f.sender.subflows[i], f.source.legs[i].stat;
              Level(y, st, 8.0) && InStep(y, st) && SameRates(w.sender.subflows[i], y)
    {
      Refreshed(b.sender.subflows[i], b.source.legs[i].stat, b.source, 8.0);
    }
  }

  // ----- seven seconds of traffic on one subflow -----

  // The rate a measured report gives: one octet a second if the last packet arrived, zero if none did.
  lemma Rate(x: SubflowState, st: S.Stats, z: S.Stats, s: R.SourceState, t: real, n: nat)
    requires Level(x, st, t) && 0 < n <= 2 && z.saved == st.highest
    requires S.Expected(z) == z.intervalReceived == 0 || (S.Expected(z) == n && z.intervalReceived == 1)
    requires n == 2 ==> z.intervalReceived == 1
    ensures var sent, r := SentTimes(x, n), Feedback(z, s, t + 7.0);
            && Measurable(sent, r) && Measures(sent)
            && InstantBitrate(sent, r) == z.intervalReceived as real
            && r.block.fractionLost == if n == 2 then 128 else 0
  {
    hide SentTimes, S.Lsr, S.Dlsr, S.CumulativeLost;
    var sent, r, b := SentTimes(x, n), Feedback(z, s, t + 7.0), z.intervalReceived as real;
    SentTimesCounts(x, n);
    assert r.block.fractionLost == (if n == 2 then 128 else 0);
    assert Delivered(sent, r) == b;
    assert sent.recentOctets as real / sent.recentPackets as real == 7.0;
    hide Delivered, S.MakeReport, Level, Wrap32;
    assert b * 7.0 / 7.0 == b;
  }

  function Raised(indicator: int): int {
    if indicator < CIMAX then indicator + 1 else indicator
  }

  // What the report makes of the subflow.
  lemma Measured(x: SubflowState, st: S.Stats, z: S.Stats, s: R.SourceState, t: real, n: nat)
    requires Level(x, st, t) && 0 < n <= 2 && z.saved == st.highest && z.receivedData
    requires S.Expected(z) == z.intervalReceived == 0 || (S.Expected(z) == n && z.intervalReceived == 1)
    requires n == 2 ==> z.intervalReceived == 1
    ensures var sent, r := SentTimes(x, n), Feedback(z, s, t + 7.0);
            && Measurable(sent, r)
            && var y := OnReport(sent, r, t + 7.0, t + 7.0);
               && Level(y, S.NewInterval(z), t + 7.0) && y.ready
               && (InStep(sent, z) ==> InStep(y, S.NewInterval(z)))
               && (n == 2 ==> y.tested == y.congested == 0.99 && y.indicator == Raised(x.indicator))
               && (n == 1 && x.indicator == 0 && !x.testedKnown ==>
                     && y.tested == 0.99 * z.intervalReceived as real
                     && y.congested == x.congested && y.indicator == 0)
  {
    Rate(x, st, z, s, t, n);
    SentTimesCounts(x, n);
    hide SentTimes, InstantBitrate, InStep, S.FractionLost, S.CumulativeLost, S.Lsr, S.Dlsr, S.Expected;
    var sent := SentTimes(x, n);
    Closed(sent, OnReport(sent, Feedback(z, s, t + 7.0), t + 7.0, t + 7.0), z);
  }

  // Of n packets only the last arrives, or none.
  lemma SendMany(w: World, unit: real, m: World, t: real, i: nat, n: nat, arrives: bool) returns (f: World, stamp: u32)
    requires unit != 0.0 && Early(w, unit, m, t) && AllPaired(m) && i < |m.sender.subflows|
    requires 0 < n <= 2 && (n == 2 ==> arrives)
    ensures Early(w, unit, f, t) && AllPaired(f) && f.sender.lastReportTime > 0.0 && f.sender.rateTime > 0.0
    ensures f.sender.subflows == m.sender.subflows[i := SentTimes(m.sender.subflows[i], n)]
    ensures if arrives then
              && (forall j :: 0 <= j < |m.source.legs| && j != i ==> f.source.legs[j] == m.source.legs[j])
              && var sequence := SentTimes(m.sender.subflows[i], n - 1).sequence;
                 f.source.legs[i].stat == S.Arrive(m.source.legs[i].stat, sequence, stamp, t, unit)
            else f.source.legs == m.source.legs
  {
    hide Early, Paired, S.Arrive, Sent;
    var x, a := m.sender.subflows[i], m;
    assert SentTimes(x, 0) == x && SentTimes(x, 1) == Sent(x, 7, true, false);
    if n == 2 {
      a, stamp := SendOn(w, unit, m, t, i, false);
      assert SentTimes(x, 2) == Sent(SentTimes(x, 1), 7, true, false);
    }
    hide SentTimes;
    f, stamp := SendOn(w, unit, a, t, i, arrives);
    assert f.sender.subflows == m.sender.subflows[i := SentTimes(x, n)];
  }

  // Every subflow is level with its leg.
  ghost predicate AllLevel(m: World, t: real) {
    AllPaired(m) && forall j :: 0 <= j < |m.sender.subflows| ==> Level(m.sender.subflows[j], m.source.legs[j].stat, t)
  }

  // What seven seconds of traffic on subflow i leave of the others.
  ghost predicate OthersSame(m: World, f: World, i: nat) {
    && |m.source.legs| == |m.sender.subflows| == |f.sender.subflows| == |f.source.legs|
    && forall j :: 0 <= j < |m.sender.subflows| && j != i ==>
         && SameRates(m.sender.subflows[j], f.sender.subflows[j])
         && (InStep(m.sender.subflows[j], m.source.legs[j].stat) ==>
               InStep(f.sender.subflows[j], f.source.legs[j].stat))
  }

  lemma StillUnready(v: seq<SubflowState>, i: nat, x: SubflowState)
    requires i < |v| && x.ready == v[i].ready && !AllReady(v)
    ensures !AllReady(v[i := x])
  {
    var j :| 0 <= j < |v| && !v[j].ready;
    assert !v[i := x][j].ready;
  }

  // The answer that ends the seven seconds.
  lemma LevelAgain(m: World, t: real, b: World, f: World, i: nat, n: nat)
    requires AllLevel(m, t) && i < |m.sender.subflows| && AllPaired(f)
    requires b.sender.subflows == m.sender.subflows[i := SentTimes(m.sender.subflows[i], n)]
    requires |b.source.legs| == |f.sender.subflows| == |m.sender.subflows|
    requires forall j :: 0 <= j < |m.source.legs| && j != i ==> b.source.legs[j] == m.source.legs[j]
    requires forall j :: 0 <= j < |m.sender.subflows| ==>
               var y, r := b.sender.subflows[j], Feedback(b.source.legs[j].stat, b.source, t + 7.0);
               && Measurable(y, r) && f.sender.subflows[j] == OnReport(y, r, t + 7.0, t + 7.0)
               && f.source.legs[j].stat == S.NewInterval(b.source.legs[j].stat)
    ensures OthersSame(m, f, i)
    ensures forall j :: 0 <= j < |m.sender.subflows| && j != i ==>
              Level(f.sender.subflows[j], f.source.legs[j].stat, t + 7.0)
  {
    hide Feedback, OnReport, S.NewInterval, Measurable, InStep, SentTimes, Paired;
    forall j | 0 <= j < |m.sender.subflows| && j != i
      ensures var x, y := m.sender.subflows[j], f.sender.subflows[j];
              && Level(y, f.source.legs[j].stat, t + 7.0) && SameRates(x, y)
              && (InStep(x, m.source.legs[j].stat) ==> InStep(y, f.source.legs[j].stat))
    {
      Refreshed(m.sender.subflows[j], m.source.legs[j].stat, b.source, t + 7.0);
    }
  }

  lemma QuietAsks(b: SenderState, f: SenderState, t: real)
    requires Quiet(b, t) && f == b.(recalc := true, subflows := f.subflows)
    ensures Quiet(f, t)
  {
  }

  lemma LevelIsLater(m: World, t: real, i: nat, n: nat, b: SenderState)
    requires AllLevel(m, t) && i < |m.sender.subflows| && n <= 2
    requires b.subflows == m.sender.subflows[i := SentTimes(m.sender.subflows[i], n)]
    ensures Later(b, t + 7.0)
  {
    SentTimesCounts(m.sender.subflows[i], n);
    hide SentTimes, InStep, Paired;
  }

  // What the receiver has of it.
  lemma Got(x: SubflowState, st: S.Stats, n: nat, arrives: bool, z: S.Stats, stamp: u32, t: real, unit: real)
    requires Level(x, st, t) && 0 < n <= 2 && (arrives ==> InStep(x, st))
    requires z == if arrives then S.Arrive(st, SentTimes(x, n - 1).sequence, stamp, t, unit) else st
    ensures var got := if arrives then 1 else 0;
            && z.receivedData && z.saved == st.highest && z.intervalReceived == got && S.Expected(z) == got * n
            && (arrives ==> InStep(SentTimes(x, n), z))
  {
    hide SentTimes, S.Arrive, InStep;
    if arrives {
      NextArrival(x, st, n, z, stamp, t, unit);
    }
  }

  lemma SentReady(v: seq<SubflowState>, i: nat, n: nat, t: real, st: S.Stats)
    requires i < |v| && Level(v[i], st, t) && n <= 2 && !AllReady(v)
    ensures !AllReady(v[i := SentTimes(v[i], n)])
  {
    SentTimesCounts(v[i], n);
    StillUnready(v, i, SentTimes(v[i], n));
    hide SentTimes, AllReady;
  }

  // The traffic itself, and the sender report.
  lemma Traffic(w: World, unit: real, m: World, t: real, i: nat, n: nat, arrives: bool) returns (b: World)
    requires unit != 0.0 && Early(w, unit, m, t) && AllLevel(m, t) && !AllReady(m.sender.subflows)
    requires i < |m.sender.subflows| && 0 < n <= 2 && (n == 2 ==> arrives)
    requires arrives ==> InStep(m.sender.subflows[i], m.source.legs[i].stat)
    ensures Early(w, unit, b, t + 7.0) && AllPaired(b) && Quiet(b.sender, t + 7.0)
    ensures b.source.sendRr && Later(b.sender, t + 7.0)
    ensures b.sender.subflows == m.sender.subflows[i := SentTimes(m.sender.subflows[i], n)]
    ensures forall j :: 0 <= j < |m.source.legs| && j != i ==> b.source.legs[j] == m.source.legs[j]
    ensures var z, st := b.source.legs[i].stat, m.source.legs[i].stat; var got := if arrives then 1 else 0;
            && z.receivedData && z.saved == st.highest && z.intervalReceived == got && S.Expected(z) == got * n
            && (arrives ==> InStep(SentTimes(m.sender.subflows[i], n), z))
  {
    hide Early, Paired, Quiet, InStep, S.Arrive, SentTimes, AllReady, Later, Level, S.Expected;
    var x, st := m.sender.subflows[i], m.source.legs[i].stat;
    var a, stamp := SendMany(w, unit, m, t, i, n, arrives);
    SentReady(m.sender.subflows, i, n, t, st);
    b := PollTwice(w, unit, a, t);
    LevelIsLater(m, t, i, n, b.sender);
    Got(x, st, n, arrives, b.source.legs[i].stat, stamp, t, unit);
  }

  // Seven seconds of traffic on subflow i alone: of n packets only the last arrives, or none; a
  // sender report follows and an answer on all subflows.
  lemma Exchange(w: World, unit: real, m: World, t: real, i: nat, n: nat, arrives: bool) returns (f: World)
    requires unit != 0.0 && Early(w, unit, m, t) && AllLevel(m, t) && !AllReady(m.sender.subflows)
    requires i < |m.sender.subflows| && 0 < n <= 2 && (n == 2 ==> arrives)
    requires arrives ==> InStep(m.sender.subflows[i], m.source.legs[i].stat)
    ensures Early(w, unit, f, t + 7.0) && AllLevel(f, t + 7.0) && f.sender.recalc && Quiet(f.sender, t + 7.0)
    ensures OthersSame(m, f, i)
    ensures arrives ==> InStep(f.sender.subflows[i], f.source.legs[i].stat)
    ensures var x, y := m.sender.subflows[i], f.sender.subflows[i];
            && y.ready
            && (n == 2 ==> y.tested == y.congested == 0.99 && y.indicator == Raised(x.indicator))
            && (n == 1 && x.indicator == 0 && !x.testedKnown ==>
                  && y.tested == (if arrives then 0.99 else 0.0)
                  && y.congested == x.congested && y.indicator == 0)
  {
    var x, st := m.sender.subflows[i], m.source.legs[i].stat;
    hide Early, Paired, Quiet, InStep, SentTimes, AllReady, Later, S.Expected;
    var b := Traffic(w, unit, m, t, i, n, arrives);
    f := AnswerOn(w, unit, b, t + 7.0);
    QuietAsks(b.sender, f.sender, t + 7.0);
    Measured(x, st, b.source.legs[i].stat, b.source, t, n);
    hide Level, Feedback, OnReport, S.NewInterval, Measurable;
    LevelAgain(m, t, b, f, i, n);
  }

  // ----- redistribution -----

  // After the first k exchanges of one packet each, which arrives or does not.
  ghost predicate ReadyFirst(w: World, f: World, k: nat, arrives: bool) {
    && AllPaired(f) && |f.sender.subflows| == |w.sender.subflows|
    && (forall i :: 0 <= i < |f.sender.subflows| ==>
          var y := f.sender.subflows[i];
          if i < k then y.ready && y.tested == (if arrives then 0.99 else 0.0) && y.congested == 0.0 && y.indicator == 0
          else InStep(y, f.source.legs[i].stat) && SameRates(w.sender.subflows[i], y))
  }

  lemma {:induction false} ReadyUpTo(w: World, unit: real, k: nat, arrives: bool) returns (f: World, t: real)
    requires unit != 0.0 && Begins(w) && k <= |w.sender.subflows| <= 3
    ensures Early(w, unit, f, t) && AllLevel(f, t) && ReadyFirst(w, f, k, arrives)
    ensures k > 0 ==> f.sender.recalc && Quiet(f.sender, t)
  {
    hide Early, Quiet, IdsInOrder, InStep, Level, Paired;
    if k == 0 {
      f := Prime(w, unit);
      t := 8.0;
    } else {
      var m, u := ReadyUpTo(w, unit, k - 1, arrives);
      assert !m.sender.subflows[k - 1].ready;
      f := Exchange(w, unit, m, u, k - 1, 1, arrives);
      t := u + 7.0;
    }
  }

  lemma {:induction false} TotalOfEqual(v: seq<SubflowState>, tested: real)
    requires forall i :: 0 <= i < |v| ==> v[i].tested == tested
    ensures TotalTested(v) == Times(tested, |v| as real)
  {
    if v != [] {
      TotalOfEqual(v[..|v| - 1], tested);
    }
  }

  lemma EarlyReaches(w: World, unit: real, f: World, t: real)
    requires unit != 0.0 && Early(w, unit, f, t)
    ensures Reaches(w, unit, f, t) && t > 0.0
    ensures forall i :: 0 <= i < |f.sender.subflows| ==> f.sender.subflows[i].share == 0.5
  {
  }

  // A poll that recalculates from a positive total of tested bitrates.
  ghost predicate Redistributing(f: SenderState, unit: real, t: real, input: PollInput)
    requires unit != 0.0
  {
    && t <= input.now <= input.stampTime <= input.rateTime
    && f.recalc && AllReady(f.subflows) && TotalTested(f.subflows) > 0.0
    && PollDefined(f, unit, input)
  }

  // At a quiet moment a poll recalculates with a stream bitrate of zero.
  lemma PollsQuietly(f: SenderState, unit: real, t: real, input: PollInput)
    requires unit != 0.0 && Quiet(f, t) && t > 0.0 && input == PollInput(t, t, t, 0)
    ensures BeforeRecalc(f, unit, input) == f
    ensures PollDefined(f, unit, input) <==> (f.recalc ==> Divisible(f.subflows, 0.0))
  {
    hide Truncate, Divisible;
  }

  lemma EqualRatesRedistribute(f: SenderState, unit: real, t: real, input: PollInput)
    requires unit != 0.0 && Quiet(f, t) && t > 0.0 && input == PollInput(t, t, t, 0)
    requires f.recalc && f.subflows != []
    requires forall i :: 0 <= i < |f.subflows| ==>
               var y := f.subflows[i];
               y.ready && y.tested == 0.99 && IsRest(y) && y.congested == 0.0
    ensures Redistributing(f, unit, t, input)
  {
    TotalOfEqual(f.subflows, 0.99);
    PollsQuietly(f, unit, t, input);
    CountAll(f.subflows);
    hide TotalTested, TotalCongested, CongestedCount, PollDefined, Quiet;
  }

  lemma NeverRedistributes(w: World, unit: real, f: World, t: real, input: PollInput)
    requires unit != 0.0 && Begins(w) && |w.sender.subflows| >= 4 && Reaches(w, unit, f, t)
    ensures !Redistributing(f.sender, unit, t, input)
  {
    var acts: seq<Act> :| Leads(w, unit, acts, f, t);
    var es := WorldRunsSender(w, unit, acts);
    FourSubflowsNeverRedistribute(w.sender, unit, es);
    hide AllReady, RunActs, RunCalls, PollDefined, TotalTested;
  }

  // A sender that has just connected can ever redistribute its traffic exactly when it has at most
  // three subflows.
  lemma RedistributionExactly(w: World, unit: real)
    requires unit != 0.0 && Begins(w)
    ensures (exists f, t, input :: Reaches(w, unit, f, t) && Redistributing(f.sender, unit, t, input)) <==>
            |w.sender.subflows| <= 3
  {
    hide Redistributing, IdsInOrder;
    if |w.sender.subflows| <= 3 {
      var f, t := ReadyUpTo(w, unit, |w.sender.subflows|, true);
      var input := PollInput(t, t, t, 0);
      EarlyReaches(w, unit, f, t);
      hide Early, Quiet, Reaches, AllLevel, AllPaired;
      EqualRatesRedistribute(f.sender, unit, t, input);
      assert Reaches(w, unit, f, t) && Redistributing(f.sender, unit, t, input);
    } else {
      forall f, t, input | Reaches(w, unit, f, t) ensures !Redistributing(f.sender, unit, t, input) {
        NeverRedistributes(w, unit, f, t, input);
      }
    }
  }

  lemma NotDivisible(f: SenderState, unit: real, input: PollInput)
    requires unit != 0.0 && f.recalc && AllReady(f.subflows) && f.subflows != []
    requires TotalTested(f.subflows) == 0.0 && forall i :: 0 <= i < |f.subflows| ==> IsRest(f.subflows[i])
    ensures !PollDefined(f, unit, input)
  {
    BeforeRecalcChanges(f, unit, input);
    CountAll(f.subflows);
  }

  // A positive total is not a matter of course: a run in which every subflow loses the packet it
  // sends after its first, without the receiver noticing a gap, ends with all of them ready and a
  // total of zero, and no poll that recalculates is defined then.
  lemma ZeroTotalReachable(w: World, unit: real) returns (f: World, t: real)
    requires unit != 0.0 && Begins(w) && |w.sender.subflows| <= 3
    ensures Reaches(w, unit, f, t)
    ensures var s := f.sender;
            && s.recalc && AllReady(s.subflows) && s.subflows != [] && TotalTested(s.subflows) == 0.0
            && forall input :: !PollDefined(s, unit, input)
  {
    f, t := ReadyUpTo(w, unit, |w.sender.subflows|, false);
    EarlyReaches(w, unit, f, t);
    hide Early, Quiet, Reaches, AllLevel, AllPaired, IdsInOrder;
    TotalOfEqual(f.sender.subflows, 0.0);
    forall input ensures !PollDefined(f.sender, unit, input) {
      NotDivisible(f.sender, unit, input);
    }
  }

  // ----- the stale case -----

  // The first subflow has lost packets in each of c exchanges; the second has only been primed.
  ghost predicate Losing(m: World, c: nat) {
    && |m.sender.subflows| == 2 == |m.source.legs|
    && InStep(m.sender.subflows[0], m.source.legs[0].stat) && InStep(m.sender.subflows[1], m.source.legs[1].stat)
    && SameRates(Initial(0, 0), m.sender.subflows[1])
    && m.sender.subflows[0].indicator == c
    && (c > 0 ==>
          m.sender.subflows[0].ready && m.sender.subflows[0].tested == m.sender.subflows[0].congested == 0.99)
  }

  lemma {:induction false} LossyUpTo(w: World, unit: real, c: nat) returns (f: World, t: real)
    requires unit != 0.0 && Begins(w) && |w.sender.subflows| == 2 && c <= CIMAX
    ensures Early(w, unit, f, t) && AllLevel(f, t) && Losing(f, c)
  {
    hide Early, Quiet, IdsInOrder, InStep, Level, Paired;
    if c == 0 {
      f := Prime(w, unit);
      t := 8.0;
    } else {
      var m, u := LossyUpTo(w, unit, c - 1);
      assert !m.sender.subflows[1].ready;
      f := Exchange(w, unit, m, u, 0, 2, true);
      t := u + 7.0;
    }
  }

  lemma TroubledAndIdle(w: World, unit: real) returns (f: World, t: real)
    requires unit != 0.0 && Begins(w) && |w.sender.subflows| == 2
    ensures Reaches(w, unit, f, t) && t > 0.0 && f.sender.recalc && Quiet(f.sender, t)
    ensures var v := f.sender.subflows;
            && |v| == 2 && AllReady(v)
            && v[0].tested == v[0].congested == 0.99 && IsCongested(v[0])
            && v[1].tested == v[1].congested == 0.0 && IsRest(v[1]) && v[1].share == 0.5
  {
    var m, u := LossyUpTo(w, unit, CIMAX);
    hide Early, Quiet, IdsInOrder, InStep, Level, Paired, Reaches;
    assert !m.sender.subflows[1].ready;
    f := Exchange(w, unit, m, u, 1, 1, false);
    t := u + 7.0;
    EarlyReaches(w, unit, f, t);
  }

  lemma PairSums(v: seq<SubflowState>)
    requires |v| == 2 && IsCongested(v[0]) && IsRest(v[1])
    ensures TotalTested(v) == v[0].tested + v[1].tested
    ensures RestTested(v) == v[1].tested && CongestedCount(v) == 1
  {
    assert v[..|v| - 1] == [v[0]] && [v[0]][..0] == [];
    assert TotalTested([v[0]]) == v[0].tested && RestTested([v[0]]) == 0.0 && CongestedCount([v[0]]) == 1;
  }

  lemma StaleShares(f: SenderState, unit: real, t: real, input: PollInput)
    requires unit != 0.0 && |f.subflows| == 2 && f.recalc && AllReady(f.subflows)
    requires f.subflows[0].tested == f.subflows[0].congested == 0.99 && IsCongested(f.subflows[0])
    requires f.subflows[1].tested == f.subflows[1].congested == 0.0 && IsRest(f.subflows[1])
    requires f.subflows[1].share == 0.5 && Quiet(f, t) && t > 0.0 && input == PollInput(t, t, t, 0)
    ensures PollDefined(f, unit, input)
    ensures var v := AfterPoll(f, unit, input).subflows; |v| == 2 && v[0].share == 1.0 && v[1].share == 0.5
  {
    var v := f.subflows;
    PollsQuietly(f, unit, t, input);
    PairSums(v);
    hide TotalTested, RestTested, CongestedCount, BeforeRecalc, Quiet;
    assert LimitedShare(v[0], 0.99, 0.0) == 1.0;
    assert NewShare(v, 0.0, 0) == 1.0 && NewShare(v, 0.0, 1) == 0.5;
  }

  // From any sender just connected over two subflows a run leads to a poll that leaves shares adding
  // up to more than one: the first subflow loses packets three times over, then the second delivers
  // nothing and keeps its half.
  lemma StaleTotalReachable(w: World, unit: real) returns (f: World, t: real, input: PollInput)
    requires unit != 0.0 && Begins(w) && |w.sender.subflows| == 2
    ensures Reaches(w, unit, f, t) && t <= input.now <= input.stampTime <= input.rateTime
    ensures PollDefined(f.sender, unit, input)
    ensures var v := AfterPoll(f.sender, unit, input).subflows;
            |v| == 2 && v[0].share == 1.0 && v[1].share == 0.5
  {
    f, t := TroubledAndIdle(w, unit);
    hide Reaches;
    input := PollInput(t, t, t, 0);
    StaleShares(f.sender, unit, t, input);
    hide AfterPoll, PollDefined, Quiet;
  }
}
