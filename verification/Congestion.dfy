// The per-subflow congestion machine a sender drives with receiver reports: tested bitrate (TB),
// congested bitrate (CB), congestion indicator (CI) and their timers.

module Congestion {
  import opened Numeric
  import opened Reports

  const ALPHA := 0.99
  const CIMAX := 3
  const TO := 3.0
  const BETA := 0.5
  const GAMMA := 0.75

  datatype SubflowState = SubflowState(
    id: u16,
    sequence: u16,
    packetCount: u32,
    octetCount: u32,
    recentPackets: u32,
    recentOctets: u32,
    lastReport: Option<ReceivedReport>,
    instant: real,
    tested: real,
    testedKnown: bool,
    congested: real,
    congestedKnown: bool,
    indicator: int,
    congestionTime: real,
    share: real,
    ready: bool)

  function Initial(id: u16, sequence: u16): SubflowState {
    SubflowState(id, sequence, 0, 0, 0, 0, None, 0.0, 0.0, false, 0.0, false, 0, 0.0, 0.5, false)
  }

  predicate IsCongested(s: SubflowState) {
    s.indicator == CIMAX
  }

  predicate IsLossy(s: SubflowState) {
    s.indicator > 0 && !IsCongested(s)
  }

  // Handing a packet to the network: only RTP counts, and the sequence number advances even when
  // the send fails.
  function Sent(s: SubflowState, payload: u32, delivered: bool, rtcp: bool): SubflowState {
    if rtcp then s
    else if delivered then
      s.(packetCount := Wrap32(s.packetCount + 1), octetCount := Wrap32(s.octetCount + payload),
         recentPackets := Wrap32(s.recentPackets + 1), recentOctets := Wrap32(s.recentOctets + payload),
         sequence := Wrap16(s.sequence + 1))
    else s.(sequence := Wrap16(s.sequence + 1))
  }

  // A report is measured against the previous one when packets were sent in between.
  predicate Measures(s: SubflowState) {
    s.lastReport.Some? && s.recentPackets > 0
  }

  // The bitrate formula divides by the time between the two reports.
  predicate Measurable(s: SubflowState, r: ReceivedReport) {
    Measures(s) ==> r.recvTime != s.lastReport.value.recvTime
  }

  function Delivered(s: SubflowState, r: ReceivedReport): real
    requires Measures(s)
  {
    Wrap32(r.block.extHighSeq - s.lastReport.value.block.extHighSeq) as real
      * (1.0 - r.block.fractionLost as real / 256.0)
  }

  function InstantBitrate(s: SubflowState, r: ReceivedReport): real
    requires Measures(s) && Measurable(s, r)
  {
    Delivered(s, r) * (s.recentOctets as real / s.recentPackets as real)
      / (r.recvTime - s.lastReport.value.recvTime)
  }

  function Blend(rate: real, b: real): real {
    if rate < b then rate * ALPHA + (1.0 - ALPHA) * b else rate
  }

  // The rate a first or lossy report sets.
  function Damped(b: real): real {
    b * ALPHA
  }

  // A measured report without loss; t0 and t1 are the two readings of the clock.
  function Clean(s: SubflowState, b: real, t0: real, t1: real): SubflowState {
    var cool := s.indicator > 0 && s.congestionTime + s.indicator as real * TO < t0;
    s.(instant := b, ready := true, testedKnown := true,
       tested := if s.testedKnown then Blend(s.tested, b) else Damped(b),
       indicator := if cool then s.indicator - 1 else s.indicator,
       congestionTime := if cool then t1 else s.congestionTime,
       congestedKnown := s.congestedKnown || s.indicator > 0,
       congested := if s.indicator <= 0 then s.congested
                    else if s.congestedKnown then Blend(s.congested, b) else Damped(b))
  }

  function Damaged(s: SubflowState, b: real, t0: real): SubflowState {
    s.(instant := b, ready := true, testedKnown := true, tested := Damped(b),
       congestedKnown := true, congested := Damped(b), congestionTime := t0,
       indicator := if s.indicator < CIMAX then s.indicator + 1 else s.indicator)
  }

  function OnReport(s: SubflowState, r: ReceivedReport, t0: real, t1: real): SubflowState
    requires Measurable(s, r)
  {
    var m :=
      if !Measures(s) then s
      else if r.block.fractionLost == 0 then Clean(s, InstantBitrate(s, r), t0, t1)
      else Damaged(s, InstantBitrate(s, r), t0);
    m.(recentPackets := 0, recentOctets := 0, lastReport := Some(r))
  }

  // ----- runs -----

  datatype Event =
    | Transmit(payload: u32, delivered: bool, rtcp: bool)
    | Reported(report: ReceivedReport, t0: real, t1: real)

  // Arrival times come from a monotonic clock, and a measured report arrives after its predecessor.
  predicate Enabled(s: SubflowState, e: Event) {
    e.Reported? ==>
      && e.t0 <= e.t1
      && (Measures(s) ==> s.lastReport.value.recvTime < e.report.recvTime)
  }

  function Step(s: SubflowState, e: Event): SubflowState
    requires Enabled(s, e)
  {
    match e
    case Transmit(payload, delivered, rtcp) => Sent(s, payload, delivered, rtcp)
    case Reported(r, t0, t1) => OnReport(s, r, t0, t1)
  }

  predicate Admissible(s: SubflowState, es: seq<Event>)
    decreases es
  {
    es == [] || (Enabled(s, es[0]) && Admissible(Step(s, es[0]), es[1..]))
  }

  function Run(s: SubflowState, es: seq<Event>): SubflowState
    requires Admissible(s, es)
    decreases es
  {
    if es == [] then s else Run(Step(s, es[0]), es[1..])
  }

  // No measured report of the run carries loss.
  predicate LossFree(s: SubflowState, es: seq<Event>)
    requires Admissible(s, es)
    decreases es
  {
    es == [] ||
    (&& (es[0].Reported? && Measures(s) ==> es[0].report.block.fractionLost == 0)
     && LossFree(Step(s, es[0]), es[1..]))
  }

  ghost predicate Inv(s: SubflowState) {
    && 0 <= s.indicator <= CIMAX
    && (s.indicator > 0 ==> s.congestedKnown && s.tested == s.congested)
    && 0.0 <= s.congested <= s.tested
    && (s.ready <==> s.testedKnown)
    && (s.congestedKnown ==> s.testedKnown)
    && (!s.congestedKnown ==> s.congested == 0.0)
  }

  lemma ProductNonNegative(x: real, y: real)
    requires x >= 0.0 && y >= 0.0
    ensures x * y >= 0.0
  {
  }

  lemma InstantNonNegative(s: SubflowState, r: ReceivedReport)
    requires Measures(s) && s.lastReport.value.recvTime < r.recvTime
    ensures Delivered(s, r) >= 0.0
    ensures InstantBitrate(s, r) >= 0.0
  {
    var lossFactor := 1.0 - r.block.fractionLost as real / 256.0;
    var size := s.recentOctets as real / s.recentPackets as real;
    var dt := r.recvTime - s.lastReport.value.recvTime;
    var hsn := Wrap32(r.block.extHighSeq - s.lastReport.value.block.extHighSeq) as real;
    assert lossFactor > 0.0 && hsn * lossFactor >= 0.0;
    ProductNonNegative(Delivered(s, r), size);
    assert (Delivered(s, r) * size) / dt >= 0.0;
  }

  lemma StepKeepsInv(s: SubflowState, e: Event)
    requires Inv(s) && Enabled(s, e)
    ensures Inv(Step(s, e))
  {
    if e.Reported? && Measures(s) {
      InstantNonNegative(s, e.report);
    }
  }

  // Every state a subflow can reach satisfies the machine's invariant; in particular a positive
  // indicator finds CB already initialised, so the branch that would initialise it is never taken.
  lemma {:induction false} ReachableInv(s: SubflowState, es: seq<Event>)
    requires Inv(s) && Admissible(s, es)
    ensures Inv(Run(s, es))
    decreases es
  {
    if es != [] {
      StepKeepsInv(s, es[0]);
      ReachableInv(Step(s, es[0]), es[1..]);
    }
  }

  lemma FreshSubflowInv(id: u16, sequence: u16, es: seq<Event>)
    requires Admissible(Initial(id, sequence), es)
    ensures var f := Run(Initial(id, sequence), es);
            && 0 <= f.indicator <= CIMAX
            && (f.indicator > 0 ==> f.congestedKnown && f.tested == f.congested)
            && 0.0 <= f.congested <= f.tested
            && (f.ready <==> f.testedKnown)
  {
    ReachableInv(Initial(id, sequence), es);
  }

  // ----- cooling down -----

  function Triangle(n: nat): nat {
    if n == 0 then 0 else n + Triangle(n - 1)
  }

  // Seconds the machine must spend to bring the indicator from `from` down to `to`.
  function CoolingTime(from: int, to: int): real
    requires 0 <= to <= from
  {
    TO * (Triangle(from) - Triangle(to)) as real
  }

  lemma {:induction false} CoolDown(s: SubflowState, es: seq<Event>)
    requires Inv(s) && Admissible(s, es) && LossFree(s, es)
    ensures var f := Run(s, es);
            && 0 <= f.indicator <= s.indicator
            && (f.indicator == s.indicator ==> f.congestionTime == s.congestionTime)
            && (f.indicator < s.indicator ==>
                  f.congestionTime > s.congestionTime + CoolingTime(s.indicator, f.indicator))
    decreases es
  {
    if es != [] {
      var n := Step(s, es[0]);
      StepKeepsInv(s, es[0]);
      CoolDown(n, es[1..]);
    }
  }

  // The clock readings of a run never go back, from t on.
  predicate Ordered(es: seq<Event>, t: real)
    decreases |es|
  {
    es == [] ||
    if es[0].Reported? then t <= es[0].t0 <= es[0].t1 && Ordered(es[1..], es[0].t1) else Ordered(es[1..], t)
  }

  // The earliest time at which CI can be back at zero never becomes earlier, losses or not, and
  // becomes later whenever CI falls.
  lemma {:induction false} CoolingNeverShortens(s: SubflowState, es: seq<Event>, t: real)
    requires Inv(s) && Admissible(s, es) && Ordered(es, t) && s.congestionTime <= t
    ensures var f := Run(s, es);
            && 0 <= f.indicator <= CIMAX
            && var before := s.congestionTime + CoolingTime(s.indicator, 0);
               var after := f.congestionTime + CoolingTime(f.indicator, 0);
               before <= after && (f.indicator < s.indicator ==> before < after)
    decreases es
  {
    if es != [] {
      var n := Step(s, es[0]);
      StepKeepsInv(s, es[0]);
      hide InstantBitrate, Blend, Damped;
      CoolingNeverShortens(n, es[1..], if es[0].Reported? then es[0].t1 else t);
    }
  }

  lemma LossHits(s: SubflowState, r: ReceivedReport, t: real)
    requires Inv(s) && Measures(s) && Measurable(s, r) && r.block.fractionLost != 0
    ensures var hit := OnReport(s, r, t, t); hit.congestionTime == t && 0 < hit.indicator <= CIMAX
  {
    hide InstantBitrate, Damped;
  }

  // Whether the first event of a run yields a measurement.
  predicate Samples(s: SubflowState, e: Event) {
    e.Reported? && Measures(s)
  }

  // What a report that is not measured, or a packet, leaves of the machine.
  lemma UnmeasuredKeeps(s: SubflowState, e: Event)
    requires Enabled(s, e) && !Samples(s, e)
    ensures var n := Step(s, e);
            && n.indicator == s.indicator && n.congestionTime == s.congestionTime
            && n.tested == s.tested && n.congested == s.congested && n.ready == s.ready
  {
  }

  // From a lossy report at time t that leaves CI = c, more than TO*c*(c+1)/2 seconds pass before CI
  // is back at 0, and a congested subflow stays so for more than TO*CIMAX, whatever losses follow:
  // without any by the reports' own readings, with them if the clock never goes back.
  lemma CoolDownAfterLoss(s: SubflowState, r: ReceivedReport, t: real, es: seq<Event>)
    requires Inv(s) && Measures(s) && s.lastReport.value.recvTime < r.recvTime
    requires r.block.fractionLost != 0
    requires var hit := OnReport(s, r, t, t); Admissible(hit, es) && (LossFree(hit, es) || Ordered(es, t))
    ensures var hit := OnReport(s, r, t, t); var f := Run(hit, es); var c := hit.indicator;
            && c > 0
            && (f.indicator == 0 ==> f.congestionTime - t > TO * (c * (c + 1)) as real / 2.0)
            && (IsCongested(hit) && !IsCongested(f) ==> f.congestionTime - t > TO * CIMAX as real)
  {
    var hit := OnReport(s, r, t, t);
    StepKeepsInv(s, Reported(r, t, t));
    LossHits(s, r, t);
    assert Triangle(3) == 6 && Triangle(2) == 3 && Triangle(1) == 1 && Triangle(0) == 0;
    hide OnReport, Run, Admissible, LossFree, Ordered, Triangle;
    if LossFree(hit, es) {
      CoolDown(hit, es);
    } else {
      CoolingNeverShortens(hit, es, t);
    }
  }

  // A measured report without loss lowers CI by one, and restarts its clock, exactly when it is read
  // more than three seconds per step of CI after the clock was started.
  lemma CoolsExactly(s: SubflowState, r: ReceivedReport, t0: real, t1: real)
    requires Measures(s) && Measurable(s, r) && r.block.fractionLost == 0
    ensures var n := OnReport(s, r, t0, t1);
            if s.indicator > 0 && t0 > s.congestionTime + 3.0 * s.indicator as real
            then n.indicator == s.indicator - 1 && n.congestionTime == t1
            else n.indicator == s.indicator && n.congestionTime == s.congestionTime
  {
    hide InstantBitrate, Blend, Damped;
  }

  // Every measured report of the run is read more than nine seconds after the one before it, or
  // after `last`.
  predicate Spaced(s: SubflowState, es: seq<Event>, last: real)
    requires Admissible(s, es)
    decreases es
  {
    es == [] ||
    (&& (Samples(s, es[0]) ==> es[0].t0 > last + 9.0)
     && Spaced(Step(s, es[0]), es[1..], if Samples(s, es[0]) then es[0].t1 else last))
  }

  function SampleCount(s: SubflowState, es: seq<Event>): nat
    requires Admissible(s, es)
    decreases es
  {
    if es == [] then 0
    else (if Samples(s, es[0]) then 1 else 0) + SampleCount(Step(s, es[0]), es[1..])
  }

  // Recovery: k measured reports without loss, spaced so, bring CI down by k or to zero, so a
  // congested subflow stops being congested with the first.
  lemma {:induction false} Recovers(s: SubflowState, es: seq<Event>, last: real)
    requires Inv(s) && Admissible(s, es) && LossFree(s, es) && s.congestionTime <= last && Spaced(s, es, last)
    ensures var k := s.indicator - SampleCount(s, es);
            Run(s, es).indicator == if k > 0 then k else 0
    decreases es
  {
    if es != [] {
      StepKeepsInv(s, es[0]);
      if Samples(s, es[0]) {
        CoolsExactly(s, es[0].report, es[0].t0, es[0].t1);
      } else {
        UnmeasuredKeeps(s, es[0]);
      }
      hide OnReport, Inv;
      Recovers(Step(s, es[0]), es[1..], if Samples(s, es[0]) then es[0].t1 else last);
    }
  }

  // ----- the measured bitrate -----

  lemma QuotientChain(d: real, o: real, p: real, dt: real)
    requires p != 0.0 && dt != 0.0
    ensures Times(Times(d * (o / p) / dt, dt), p) == Times(d, o)
  {
    assert d * (o / p) / dt * dt == d * (o / p);
    assert o / p * p == o;
  }

  // The bitrate of a measured report: times the seconds between the reports and the packets sent in
  // between, it is the packets reported delivered times the octets sent.
  lemma RateMeasured(s: SubflowState, r: ReceivedReport, t0: real, t1: real)
    requires Measures(s) && Measurable(s, r)
    ensures var last := s.lastReport.value;
            var arrived := Wrap32(r.block.extHighSeq - last.block.extHighSeq) as real
                           * (1.0 - r.block.fractionLost as real / 256.0);
            Times(Times(OnReport(s, r, t0, t1).instant, r.recvTime - last.recvTime), s.recentPackets as real)
              == Times(arrived, s.recentOctets as real)
  {
    QuotientChain(Delivered(s, r), s.recentOctets as real, s.recentPackets as real,
                  r.recvTime - s.lastReport.value.recvTime);
    hide Times, Blend, Damped;
  }

  lemma CancelCommon(x: real, o: real, p: real)
    requires Times(x, p) == Times(p, o) && p != 0.0
    ensures x == o
  {
  }

  function DeliveredPackets(es: seq<Event>): nat {
    if es == [] then 0
    else (if es[0].Transmit? && !es[0].rtcp && es[0].delivered then 1 else 0) + DeliveredPackets(es[1..])
  }

  function DeliveredOctets(es: seq<Event>): nat {
    if es == [] then 0
    else (if es[0].Transmit? && !es[0].rtcp && es[0].delivered then es[0].payload else 0) + DeliveredOctets(es[1..])
  }

  lemma ReportKeepsTotals(s: SubflowState, r: ReceivedReport, t0: real, t1: real)
    requires Measurable(s, r)
    ensures var n := OnReport(s, r, t0, t1);
            && n.packetCount == s.packetCount && n.octetCount == s.octetCount
            && n.recentPackets == 0 && n.recentOctets == 0
  {
    hide InstantBitrate, Damped, Blend;
  }

  // Totals count what was delivered in any run; between reports the recent counters count the same,
  // so after a report, which clears them, they hold what was delivered since.
  lemma {:induction false} CountersCount(s: SubflowState, es: seq<Event>)
    requires Admissible(s, es)
    ensures var f := Run(s, es); var packets, octets := DeliveredPackets(es), DeliveredOctets(es);
            && f.packetCount == Wrap32(s.packetCount + packets)
            && f.octetCount == Wrap32(s.octetCount + octets)
            && ((forall k :: 0 <= k < |es| ==> es[k].Transmit?) ==>
                  && f.recentPackets == Wrap32(s.recentPackets + packets)
                  && f.recentOctets == Wrap32(s.recentOctets + octets))
    decreases es
  {
    hide Wrap32, InstantBitrate, Damped, Blend, OnReport;
    if es == [] {
      WrapIdentity32(s.packetCount);
      WrapIdentity32(s.octetCount);
      WrapIdentity32(s.recentPackets);
      WrapIdentity32(s.recentOctets);
    } else {
      var n, packets, octets := Step(s, es[0]), DeliveredPackets(es[1..]), DeliveredOctets(es[1..]);
      CountersCount(n, es[1..]);
      if es[0].Transmit? {
        WrapAdd32(s.packetCount + 1, packets);
        WrapAdd32(s.recentPackets + 1, packets);
        WrapAdd32(s.octetCount + es[0].payload, octets);
        WrapAdd32(s.recentOctets + es[0].payload, octets);
      } else {
        ReportKeepsTotals(s, es[0].report, es[0].t0, es[0].t1);
      }
    }
  }

  lemma {:induction false} SendsKeepReport(s: SubflowState, es: seq<Event>)
    requires Admissible(s, es) && forall k :: 0 <= k < |es| ==> es[k].Transmit?
    ensures Run(s, es).lastReport == s.lastReport
    decreases es
  {
    if es != [] {
      SendsKeepReport(Step(s, es[0]), es[1..]);
    }
  }

  lemma GoodputAtReport(s: SubflowState, r: ReceivedReport, t0: real, t1: real)
    requires Measures(s) && Measurable(s, r) && r.block.fractionLost == 0
    requires Wrap32(r.block.extHighSeq - s.lastReport.value.block.extHighSeq) == s.recentPackets
    ensures Times(OnReport(s, r, t0, t1).instant, r.recvTime - s.lastReport.value.recvTime) == s.recentOctets as real
  {
    RateMeasured(s, r, t0, t1);
    hide OnReport, Times;
    CancelCommon(Times(OnReport(s, r, t0, t1).instant, r.recvTime - s.lastReport.value.recvTime),
                 s.recentOctets as real, s.recentPackets as real);
  }

  // Over an interval in which all that was sent is reported delivered it is the octets sent a second.
  lemma GoodputMeasured(s: SubflowState, es: seq<Event>, r: ReceivedReport, t0: real, t1: real)
    requires Admissible(s, es) && s.lastReport.Some? && s.recentPackets == 0 == s.recentOctets
    requires forall k :: 0 <= k < |es| ==> es[k].Transmit?
    requires 0 < DeliveredPackets(es) < 0x1_0000_0000 && DeliveredOctets(es) < 0x1_0000_0000
    requires s.lastReport.value.recvTime != r.recvTime && r.block.fractionLost == 0
    requires Wrap32(r.block.extHighSeq - s.lastReport.value.block.extHighSeq) == DeliveredPackets(es)
    ensures var f := Run(s, es);
            && f.lastReport == s.lastReport && Measures(f) && Measurable(f, r)
            && Times(OnReport(f, r, t0, t1).instant, r.recvTime - s.lastReport.value.recvTime)
                 == DeliveredOctets(es) as real
  {
    hide OnReport, Run, Times, DeliveredPackets, DeliveredOctets, Admissible;
    CountersCount(s, es);
    SendsKeepReport(s, es);
    GoodputAtReport(Run(s, es), r, t0, t1);
  }

  // The first measured report sets TB to 0.99 of its bitrate; one with loss sets TB and CB to that
  // and starts the clock of CI.
  lemma RatesSet(s: SubflowState, r: ReceivedReport, t0: real, t1: real)
    requires Measures(s) && Measurable(s, r)
    ensures var n := OnReport(s, r, t0, t1);
            && (!s.testedKnown ==> n.tested == 0.99 * n.instant)
            && (r.block.fractionLost != 0 ==> n.tested == n.congested == 0.99 * n.instant && n.congestionTime == t0)
  {
    hide InstantBitrate;
  }

  // ----- the tested bitrate between losses -----

  function Peak(s: SubflowState, es: seq<Event>, b: real): real
    requires Admissible(s, es)
    decreases es
  {
    if es == [] then b
    else
      var n := Step(s, es[0]);
      Peak(n, es[1..], if Samples(s, es[0]) then Max(b, n.instant) else b)
  }

  // Between losses TB never falls and never exceeds the largest bitrate measured since it was set.
  lemma {:induction false} TestedBounded(s: SubflowState, es: seq<Event>, b: real)
    requires Inv(s) && s.testedKnown && s.tested <= b
    requires Admissible(s, es) && LossFree(s, es)
    ensures s.tested <= Run(s, es).tested <= Peak(s, es, b)
    decreases es
  {
    if es != [] {
      var n := Step(s, es[0]);
      StepKeepsInv(s, es[0]);
      TestedBounded(n, es[1..], if Samples(s, es[0]) then Max(b, n.instant) else b);
    }
  }

  // The report that sets TB afresh, by initialisation or by loss, puts it below that report's own
  // bitrate, so the bound above counts from there.
  lemma TestedResetBelowSample(s: SubflowState, e: Event)
    requires Inv(s) && Enabled(s, e) && Samples(s, e)
    requires !s.testedKnown || e.report.block.fractionLost != 0
    ensures Step(s, e).testedKnown
    ensures Step(s, e).tested <= Step(s, e).instant
  {
    InstantNonNegative(s, e.report);
  }

  predicate ConstantRate(s: SubflowState, es: seq<Event>, b: real)
    requires Admissible(s, es)
    decreases es
  {
    es == [] ||
    (&& (Samples(s, es[0]) ==> Step(s, es[0]).instant == b)
     && ConstantRate(Step(s, es[0]), es[1..], b))
  }

  lemma ShrinkStep(k: nat, gap: real)
    ensures Times(Power(ALPHA, k + 1), gap) == Times(Power(ALPHA, k), ALPHA * gap)
  {
    PowerStep(ALPHA, k);
  }

  // At a steady bitrate B the gap to TB shrinks by the factor ALPHA with every measured report.
  lemma {:induction false} TestedConverges(s: SubflowState, es: seq<Event>, b: real)
    requires Inv(s) && s.testedKnown && s.tested <= b
    requires Admissible(s, es) && LossFree(s, es) && ConstantRate(s, es, b)
    ensures b - Run(s, es).tested == Times(Power(ALPHA, SampleCount(s, es)), b - s.tested)
    decreases es
  {
    if es != [] {
      var n := Step(s, es[0]);
      StepKeepsInv(s, es[0]);
      TestedConverges(n, es[1..], b);
      var k := SampleCount(n, es[1..]);
      if Samples(s, es[0]) {
        assert SampleCount(s, es) == k + 1 && b - n.tested == ALPHA * (b - s.tested);
        ShrinkStep(k, b - s.tested);
      }
      hide Times, Power, Step;
    }
  }

  // The same report delivered once per clock pair.
  function Redelivered(s: SubflowState, r: ReceivedReport, clocks: seq<(real, real)>): (n: SubflowState)
    requires Measurable(s, r)
    ensures |clocks| > 0 ==> n.lastReport == Some(r) && n.recentPackets == 0
  {
    if clocks == [] then s
    else
      var last := |clocks| - 1;
      var p := Redelivered(s, r, clocks[..last]);
      OnReport(p, r, clocks[last].0, clocks[last].1)
  }

  // A report delivered a second time finds no packets sent in between and changes nothing.
  lemma {:induction false} RepeatedReportIgnored(s: SubflowState, r: ReceivedReport, clocks: seq<(real, real)>)
    requires Measurable(s, r) && |clocks| > 0
    ensures Redelivered(s, r, clocks) == OnReport(s, r, clocks[0].0, clocks[0].1)
    decreases |clocks|
  {
    if |clocks| > 1 {
      var prefix := clocks[..|clocks| - 1];
      RepeatedReportIgnored(s, r, prefix);
    }
  }

  // ----- climbing and counting -----

  // Every report of the run is measured and carries loss.
  predicate AllLossy(s: SubflowState, es: seq<Event>)
    requires Admissible(s, es)
    decreases es
  {
    es == [] ||
    (&& (es[0].Reported? ==> Measures(s) && es[0].report.block.fractionLost != 0)
     && AllLossy(Step(s, es[0]), es[1..]))
  }

  // Each lossy report raises the indicator by one until it stands at CIMAX: from zero a subflow is
  // congested after exactly three of them.
  lemma {:induction false} IndicatorClimbs(s: SubflowState, es: seq<Event>)
    requires Inv(s) && Admissible(s, es) && AllLossy(s, es)
    ensures var k := s.indicator + SampleCount(s, es);
            Run(s, es).indicator == if k < CIMAX then k else CIMAX
    decreases es
  {
    if es != [] {
      StepKeepsInv(s, es[0]);
      hide InstantBitrate, Damped, Inv;
      IndicatorClimbs(Step(s, es[0]), es[1..]);
    }
  }
}
