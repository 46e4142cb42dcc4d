// What holds over whole runs of a sender: conservation, the traffic shares, timestamps, and which
// senders never get to redistribute.

module SenderRuns {
  import opened Numeric
  import opened Clock
  import opened Reports
  import opened Congestion
  import opened Allocation
  import opened Selection
  import opened SenderModel

  // ----- conservation -----

  function PacketSum(v: seq<SubflowState>): int {
    if v == [] then 0 else PacketSum(v[..|v| - 1]) + v[|v| - 1].packetCount
  }

  function OctetSum(v: seq<SubflowState>): int {
    if v == [] then 0 else OctetSum(v[..|v| - 1]) + v[|v| - 1].octetCount
  }

  // How far the sequence numbers of the subflows have moved from their first values, all together.
  function AdvanceSum(v: seq<SubflowState>, firsts: seq<u16>): int
    requires |v| == |firsts|
  {
    if v == [] then 0
    else var last := |v| - 1; AdvanceSum(v[..last], firsts[..last]) + v[last].sequence - firsts[last]
  }

  lemma {:induction false} SumsUpdate(v: seq<SubflowState>, firsts: seq<u16>, i: nat, x: SubflowState)
    requires i < |v| == |firsts|
    ensures PacketSum(v[i := x]) == PacketSum(v) - v[i].packetCount + x.packetCount
    ensures OctetSum(v[i := x]) == OctetSum(v) - v[i].octetCount + x.octetCount
    ensures AdvanceSum(v[i := x], firsts) == AdvanceSum(v, firsts) - v[i].sequence + x.sequence
  {
    var last := |v| - 1;
    if i < last {
      SumsUpdate(v[..last], firsts[..last], i, x);
      assert v[i := x][..last] == v[..last][i := x];
    } else {
      assert v[i := x][..last] == v[..last];
    }
  }

  // The last of the new subflows and those before it.
  lemma FreshStep(v: seq<SubflowState>, id: u16, seeds: seq<u16>)
    requires seeds != []
    ensures var w := v + FreshSubflows(id, seeds); var last := |seeds| - 1;
            && |w| == |v| + |seeds|
            && w[..|w| - 1] == v + FreshSubflows(id, seeds[..last])
            && w[|w| - 1] == Initial(Wrap16(id + last), seeds[last])
  {
  }

  // New subflows have sent nothing and have not moved.
  lemma {:induction false} SumsExtend(v: seq<SubflowState>, firsts: seq<u16>, id: u16, seeds: seq<u16>)
    requires |v| == |firsts|
    ensures PacketSum(v + FreshSubflows(id, seeds)) == PacketSum(v)
    ensures OctetSum(v + FreshSubflows(id, seeds)) == OctetSum(v)
    ensures AdvanceSum(v + FreshSubflows(id, seeds), firsts + seeds) == AdvanceSum(v, firsts)
  {
    var w, all := v + FreshSubflows(id, seeds), firsts + seeds;
    if seeds == [] {
      assert w == v && all == firsts;
    } else {
      var last := |seeds| - 1;
      FreshStep(v, id, seeds);
      hide FreshSubflows, Wrap16;
      SumsExtend(v, firsts, id, seeds[..last]);
      assert all[..|all| - 1] == firsts + seeds[..last] && all[|all| - 1] == seeds[last];
    }
  }

  predicate SameCounters(v: seq<SubflowState>, w: seq<SubflowState>) {
    && |v| == |w|
    && forall i :: 0 <= i < |v| ==>
         && v[i].packetCount == w[i].packetCount
         && v[i].octetCount == w[i].octetCount
         && v[i].sequence == w[i].sequence
  }

  lemma {:induction false} SumsDependOnCounters(v: seq<SubflowState>, w: seq<SubflowState>, firsts: seq<u16>)
    requires SameCounters(v, w) && |firsts| == |v|
    ensures PacketSum(v) == PacketSum(w) && OctetSum(v) == OctetSum(w)
    ensures AdvanceSum(v, firsts) == AdvanceSum(w, firsts)
  {
    if v != [] {
      var last := |v| - 1;
      SumsDependOnCounters(v[..last], w[..last], firsts[..last]);
    }
  }

  function FirstsOf(e: Call): seq<u16> {
    if e.Connect? && e.interfaces > 0 then e.seeds else []
  }

  // The first sequence numbers of the subflows a run connects, in list order.
  function Firsts(es: seq<Call>): seq<u16> {
    if es == [] then [] else FirstsOf(es[0]) + Firsts(es[1..])
  }

  // The stream's totals are those of its subflows, and its sequence number, `from` at first, moves
  // with theirs.
  ghost predicate Balanced(s: SenderState, from: u16, firsts: seq<u16>) {
    && |firsts| == |s.subflows|
    && Wrap32(PacketSum(s.subflows)) == s.packetCount
    && Wrap32(OctetSum(s.subflows)) == s.octetCount
    && Wrap16(from + AdvanceSum(s.subflows, firsts)) == s.sequence
  }

  lemma WrapStep16(x: int, y: u16, z: u16)
    requires Wrap16(x) == z
    ensures Wrap16(x - y + Wrap16(y + 1)) == Wrap16(z + 1)
  {
  }

  lemma WrapReplace(sum: int, part: u32, add: int)
    ensures Wrap32(sum - part + Wrap32(part + add)) == Wrap32(sum + add)
  {
    WrapAdd32(part + add, sum - part);
  }

  lemma SendBalances(s: SenderState, unit: real, payload: u32, input: SendInput, from: u16, firsts: seq<u16>)
    requires unit != 0.0 && s.subflows != [] && Balanced(s, from, firsts)
    ensures Balanced(AfterSend(s, unit, payload, input), from, firsts)
  {
    hide AfterSend, PacketSum, OctetSum, AdvanceSum, Chosen, Wrap32, Wrap16;
    var i := Chosen(s, input.draw);
    var x, y := s.subflows[i], Sent(s.subflows[i], payload, input.delivered, false);
    SendChanges(s, unit, payload, input);
    SumsUpdate(s.subflows, firsts, i, y);
    WrapStep16(from + AdvanceSum(s.subflows, firsts), x.sequence, s.sequence);
    if input.delivered {
      WrapAdd32(PacketSum(s.subflows), 1);
      WrapAdd32(OctetSum(s.subflows), payload);
      WrapReplace(PacketSum(s.subflows), x.packetCount, 1);
      WrapReplace(OctetSum(s.subflows), x.octetCount, payload);
    }
  }

  lemma StepBalances(s: SenderState, unit: real, e: Call, from: u16, firsts: seq<u16>)
    requires unit != 0.0 && CallEnabled(s, unit, e) && Balanced(s, from, firsts)
    ensures Balanced(CallStep(s, unit, e), from, firsts + FirstsOf(e))
  {
    hide Wrap32, Wrap16, PacketSum, OctetSum, AdvanceSum;
    assert firsts + [] == firsts;
    match e
    case Connect(interfaces, ssrc, seeds) =>
      SumsExtend(s.subflows, firsts, s.nextId, seeds);
    case SendData(payload, input) =>
      SendBalances(s, unit, payload, input, from, firsts);
    case ReceiveRr(id, r, t0, t1) =>
      hide InstantBitrate, Damped, Blend;
      SumsDependOnCounters(s.subflows, AfterReport(s, id, r, t0, t1).subflows, firsts);
    case Poll(input) =>
      PollChanges(s, unit, input);
      SumsDependOnCounters(s.subflows, AfterPoll(s, unit, input).subflows, firsts);
      hide AfterPoll;
  }

  lemma {:induction false} RunBalances(s: SenderState, unit: real, es: seq<Call>, from: u16, firsts: seq<u16>)
    requires unit != 0.0 && CallsAdmissible(s, unit, es) && Balanced(s, from, firsts)
    ensures Balanced(RunCalls(s, unit, es), from, firsts + Firsts(es))
    decreases |es|
  {
    hide Balanced;
    if es != [] {
      var more := firsts + FirstsOf(es[0]);
      StepBalances(s, unit, es[0], from, firsts);
      RunBalances(CallStep(s, unit, es[0]), unit, es[1..], from, more);
      assert firsts + Firsts(es) == more + Firsts(es[1..]);
    } else {
      assert firsts + [] == firsts;
    }
  }

  lemma NewBalances(s: SenderState)
    requires New(s)
    ensures Balanced(s, s.sequence, [])
  {
  }

  lemma NewIdsInOrder(s: SenderState)
    requires New(s)
    ensures IdsInOrder(s)
  {
  }

  lemma WrapDifference16(a: int, b: int)
    ensures Wrap16(Wrap16(a + b) - a) == Wrap16(b)
  {
    WrapAdd16(a + b, -a);
  }

  // After any run of a new sender, connecting as often as it may, packet and octet totals equal the
  // sums over the subflows modulo 2^32; the stream's sequence number has advanced, modulo 2^16, by
  // as much as those of its subflows together, whichever sends failed; and the ids of the subflows
  // are pairwise distinct exactly while at most 2^16 were issued.
  lemma Conservation(s: SenderState, unit: real, es: seq<Call>)
    requires unit != 0.0 && New(s) && CallsAdmissible(s, unit, es)
    ensures var f := RunCalls(s, unit, es);
            && f.packetCount == Wrap32(PacketSum(f.subflows))
            && f.octetCount == Wrap32(OctetSum(f.subflows))
            && |Firsts(es)| == |f.subflows|
            && Wrap16(f.sequence - s.sequence) == Wrap16(AdvanceSum(f.subflows, Firsts(es)))
            && (DistinctIds(f.subflows) <==> |f.subflows| <= 0x1_0000)
  {
    hide RunCalls, Firsts, DistinctIds, IssuedId, Wrap16;
    NewBalances(s);
    RunBalances(s, unit, es, s.sequence, []);
    assert [] + Firsts(es) == Firsts(es);
    var f := RunCalls(s, unit, es);
    NewIdsInOrder(s);
    RunKeepsIds(s, unit, es);
    IdsDistinctExactly(f.subflows);
    hide PacketSum, OctetSum, AdvanceSum, Wrap32;
    WrapDifference16(s.sequence, AdvanceSum(f.subflows, Firsts(es)));
  }

  // ----- traffic shares -----

  predicate AllCongested(v: seq<SubflowState>) {
    forall i :: 0 <= i < |v| ==> IsCongested(v[i])
  }

  predicate SomeRest(v: seq<SubflowState>) {
    exists i :: 0 <= i < |v| && IsRest(v[i])
  }

  // After any run, once every subflow is ready with a positive TB, the next poll that recalculates
  // leaves non-negative shares adding up to at most one, and to exactly one when all subflows are
  // congested or some subflow is in no trouble; the draws then follow the shares.
  lemma SharesAfterRun(s: SenderState, unit: real, es: seq<Call>, input: PollInput, j: nat)
    requires unit != 0.0 && New(s) && CallsAdmissible(s, unit, es)
    requires var f := RunCalls(s, unit, es);
             && j < |f.subflows|
             && f.recalc && AllReady(f.subflows)
             && (forall i :: 0 <= i < |f.subflows| ==> f.subflows[i].tested > 0.0)
             && (ReportDue(f, input.now) ==> ReportFits(f))
    ensures var f := RunCalls(s, unit, es);
            && PollDefined(f, unit, input)
            && var xs := ShareList(AfterPoll(f, unit, input).subflows);
               && NonNegative(xs)
               && Sum(xs) <= 1.0
               && (AllCongested(f.subflows) || SomeRest(f.subflows) ==> Sum(xs) == 1.0)
               && |xs| == |f.subflows|
               && (j > 0 ==> -1.0 < Picks(xs, j, DRAWS) as real - 100.0 * xs[j] < 1.0)
               && (j > 0 && xs[j] == 0.0 ==> Picks(xs, j, DRAWS) == 0)
  {
    var f := RunCalls(s, unit, es);
    assert SenderInv(s);
    ReachableSenderInv(s, unit, es);
    BeforeRecalcChanges(f, unit, input);
    var m := BeforeRecalc(f, unit, input);
    hide BeforeRecalc, ReportDue, Sum, NewShare, Picks, CongestedCount;
    PositiveRatesSettle(m.subflows, m.streamBitrate);
    ShareableDivisible(m.subflows, m.streamBitrate);
    SharesAreDistribution(m.subflows, m.streamBitrate);
    CountAll(m.subflows);
    var ys := NewShares(m.subflows, m.streamBitrate);
    assert ShareList(AfterPoll(f, unit, input).subflows) == ys;
    DrawsFollowShares(ys, j);
  }

  // ----- timestamps -----

  function StampOf(s: SenderState, e: Call): seq<real> {
    match e
    case Connect(_, _, _) => []
    case SendData(_, input) => [input.stampTime]
    case ReceiveRr(_, _, _, _) => []
    case Poll(input) => if ReportDue(s, input.now) then [input.stampTime] else []
  }

  // The clock readings that stamp packets in a run: one per data packet and one per sender report.
  function Stamps(s: SenderState, unit: real, es: seq<Call>): seq<real>
    requires unit != 0.0 && CallsAdmissible(s, unit, es)
    decreases |es|
  {
    if es == [] then []
    else StampOf(s, es[0]) + Stamps(CallStep(s, unit, es[0]), unit, es[1..])
  }

  // A packet has been counted before every stamp of the run.
  predicate Underway(s: SenderState, unit: real, es: seq<Call>)
    requires unit != 0.0 && CallsAdmissible(s, unit, es)
    decreases |es|
  {
    es == [] || ((StampOf(s, es[0]) != [] ==> s.packetCount != 0) && Underway(CallStep(s, unit, es[0]), unit, es[1..]))
  }

  lemma StepStamps(s: SenderState, unit: real, e: Call)
    requires unit != 0.0 && CallEnabled(s, unit, e) && (StampOf(s, e) != [] ==> s.packetCount != 0)
    ensures var n := CallStep(s, unit, e); var ts := StampOf(s, e);
            && |ts| <= 1
            && n.timestamp == (if ts == [] then s.timestamp else Advance(s.timestamp, s.lastPacketTime, ts[0], unit))
            && n.lastPacketTime == if ts == [] then s.lastPacketTime else ts[0]
  {
    hide Advance, Chosen, Sent, OnReport, Divisible, NewShares;
  }

  lemma {:induction false} StampsAdvance(s: SenderState, unit: real, es: seq<Call>)
    requires unit != 0.0 && CallsAdmissible(s, unit, es) && Underway(s, unit, es)
    ensures var ts := Stamps(s, unit, es);
            RunCalls(s, unit, es).timestamp == AdvanceAll(s.timestamp, s.lastPacketTime, ts, unit)
    decreases |es|
  {
    if es != [] {
      hide Advance, CallStep, CallEnabled, StampOf;
      var ts := StampOf(s, es[0]);
      StepStamps(s, unit, es[0]);
      var later := Stamps(CallStep(s, unit, es[0]), unit, es[1..]);
      StampsAdvance(CallStep(s, unit, es[0]), unit, es[1..]);
      if ts == [] {
        assert ts + later == later;
      } else {
        assert (ts + later)[0] == ts[0] && (ts + later)[1..] == later;
      }
    }
  }

  // However sends, reports and polls interleave, after n stamps the RTP timestamp has advanced by a
  // number of ticks, modulo 2^32, within n/2 of the elapsed time in units.
  lemma TimestampsFollowClock(s: SenderState, unit: real, es: seq<Call>) returns (ticks: int)
    requires unit != 0.0 && CallsAdmissible(s, unit, es) && Underway(s, unit, es)
    ensures var ts := Stamps(s, unit, es);
            && RunCalls(s, unit, es).timestamp == Wrap32(s.timestamp + ticks)
            && var elapsed := Elapsed(LastTime(s.lastPacketTime, ts) - s.lastPacketTime, unit);
               Abs(ticks as real - elapsed) <= |ts| as real / 2.0
  {
    StampsAdvance(s, unit, es);
    ticks := TimestampDrift(s.timestamp, s.lastPacketTime, Stamps(s, unit, es), unit);
  }

  lemma FirstStamp(s: SenderState, unit: real, payload: u32, input: SendInput)
    requires unit != 0.0 && s.packetCount == 0 && s.subflows != []
    ensures var n := AfterSend(s, unit, payload, input);
            n.timestamp == input.random && n.lastPacketTime == input.stampTime
  {
    hide Chosen, Sent;
  }

  // The first stamps: while nothing has been counted every stamp is the random one, with its time;
  // from the last such stamp on the timestamp follows the clock.
  lemma TimestampsFromFirst(s: SenderState, unit: real, payload: u32, input: SendInput, es: seq<Call>)
    returns (ticks: int)
    requires unit != 0.0 && s.packetCount == 0 && s.subflows != [] && payload <= MAX_PAYLOAD && input.draw < DRAWS
    requires var n := AfterSend(s, unit, payload, input); CallsAdmissible(n, unit, es) && Underway(n, unit, es)
    ensures var n := AfterSend(s, unit, payload, input); var ts := Stamps(n, unit, es);
            && n.timestamp == input.random && n.lastPacketTime == input.stampTime
            && RunCalls(n, unit, es).timestamp == Wrap32(input.random + ticks)
            && var elapsed := Elapsed(LastTime(input.stampTime, ts) - input.stampTime, unit);
               Abs(ticks as real - elapsed) <= |ts| as real / 2.0
  {
    FirstStamp(s, unit, payload, input);
    hide AfterSend, Elapsed, CallsAdmissible, Underway, Stamps, RunCalls;
    ticks := TimestampsFollowClock(AfterSend(s, unit, payload, input), unit, es);
  }

  // ----- the stream bitrate -----

  // The octets a call puts on the wire: a data packet with its 24 octets of headers, a sender report
  // of 40 octets and 32 for each subflow.
  function OctetsOnWire(s: SenderState, e: Call): nat {
    match e
    case Connect(_, _, _) => 0
    case SendData(payload, input) => if input.delivered then payload + 24 else 0
    case ReceiveRr(_, _, _, _) => 0
    case Poll(input) => if ReportDue(s, input.now) then 40 + 32 * |s.subflows| else 0
  }

  function OctetsOver(s: SenderState, unit: real, es: seq<Call>): nat
    requires unit != 0.0 && CallsAdmissible(s, unit, es)
    decreases |es|
  {
    if es == [] then 0 else OctetsOnWire(s, es[0]) + OctetsOver(CallStep(s, unit, es[0]), unit, es[1..])
  }

  // No poll of the run comes a second or more after `start`.
  predicate WithinSecond(es: seq<Call>, start: real) {
    forall k :: 0 <= k < |es| && es[k].Poll? ==> es[k].poll.now < start + 1.0
  }

  lemma SendCounts(s: SenderState, unit: real, payload: u32, input: SendInput)
    requires unit != 0.0 && s.rateTime != 0.0 && s.subflows != []
    ensures var n := AfterSend(s, unit, payload, input);
            && n.streamBitrate == s.streamBitrate && n.rateTime == s.rateTime
            && n.rateBytes == if input.delivered then Wrap32(s.rateBytes + Wrap32(payload + 24)) else s.rateBytes
  {
    hide Chosen, Sent, Advance, Wrap32;
  }

  lemma PollCounts(s: SenderState, unit: real, input: PollInput)
    requires unit != 0.0 && s.rateTime != 0.0 && PollDefined(s, unit, input) && input.now < s.rateTime + 1.0
    ensures var n := AfterPoll(s, unit, input);
            && n.streamBitrate == s.streamBitrate && n.rateTime == s.rateTime
            && n.rateBytes == if ReportDue(s, input.now) then Wrap32(s.rateBytes + Wrap32(40 + 32 * |s.subflows|))
                              else s.rateBytes
  {
    hide Advance, NewShares, Divisible, ReportDue, Wrap32;
  }

  lemma StepCounts(s: SenderState, unit: real, e: Call)
    requires unit != 0.0 && s.rateTime != 0.0 && CallEnabled(s, unit, e)
    requires e.Poll? ==> e.poll.now < s.rateTime + 1.0
    ensures var n := CallStep(s, unit, e);
            && n.streamBitrate == s.streamBitrate && n.rateTime == s.rateTime
            && n.rateBytes == Wrap32(s.rateBytes + OctetsOnWire(s, e))
  {
    WrapIdentity32(s.rateBytes);
    hide AfterSend, AfterPoll, PollDefined, OnReport, ReportDue, Wrap32;
    match e
    case Connect(_, _, _) =>
    case SendData(payload, input) =>
      SendCounts(s, unit, payload, input);
      WrapAdd32(payload + 24, s.rateBytes);
    case ReceiveRr(_, _, _, _) =>
    case Poll(input) =>
      PollCounts(s, unit, input);
      WrapAdd32(40 + 32 * |s.subflows|, s.rateBytes);
  }

  lemma {:induction false} RunCounts(s: SenderState, unit: real, es: seq<Call>)
    requires unit != 0.0 && s.rateTime != 0.0 && CallsAdmissible(s, unit, es) && WithinSecond(es, s.rateTime)
    ensures var f := RunCalls(s, unit, es);
            && f.streamBitrate == s.streamBitrate && f.rateTime == s.rateTime
            && f.rateBytes == Wrap32(s.rateBytes + OctetsOver(s, unit, es))
    decreases |es|
  {
    hide CallStep, CallEnabled, OctetsOnWire, Wrap32;
    WrapIdentity32(s.rateBytes);
    if es != [] {
      var n := CallStep(s, unit, es[0]);
      StepCounts(s, unit, es[0]);
      RunCounts(n, unit, es[1..]);
      WrapAdd32(s.rateBytes + OctetsOnWire(s, es[0]), OctetsOver(n, unit, es[1..]));
    }
  }

  lemma PollMeasures(s: SenderState, unit: real, input: PollInput)
    requires unit != 0.0 && s.rateTime != 0.0 && PollDefined(s, unit, input) && s.rateTime + 1.0 <= input.now
    requires s.rateBytes + OctetsOnWire(s, Poll(input)) < 0x1_0000_0000
    ensures var n := AfterPoll(s, unit, input);
            && Times(n.streamBitrate, input.now - s.rateTime) == (s.rateBytes + OctetsOnWire(s, Poll(input))) as real
            && n.rateTime == input.now && n.rateBytes == 0
  {
    hide Advance, NewShares, Divisible, ReportDue, Times;
    var bytes := s.rateBytes + OctetsOnWire(s, Poll(input));
    QuotientTimes(bytes as real, input.now - s.rateTime);
    WrapAdd32(40 + 32 * |s.subflows|, s.rateBytes);
    WrapIdentity32(bytes);
    assert AfterPoll(s, unit, input).streamBitrate == bytes as real / (input.now - s.rateTime) by {
      hide Wrap32;
    }
  }

  // The stream bitrate: at the first poll a second or more after the last measurement it becomes the
  // octets sent since, in data packets and sender reports, by the time since; until then it stays.
  // The next measurement starts from there.
  lemma RateMeasuresTraffic(s: SenderState, unit: real, es: seq<Call>, input: PollInput)
    requires unit != 0.0 && s.rateTime != 0.0 && CallsAdmissible(s, unit, es) && WithinSecond(es, s.rateTime)
    requires PollDefined(RunCalls(s, unit, es), unit, input) && s.rateTime + 1.0 <= input.now
    requires s.rateBytes + OctetsOver(s, unit, es) + OctetsOnWire(RunCalls(s, unit, es), Poll(input)) < 0x1_0000_0000
    ensures var f := RunCalls(s, unit, es); var n := AfterPoll(f, unit, input);
            var octets := s.rateBytes + OctetsOver(s, unit, es) + OctetsOnWire(f, Poll(input));
            && f.streamBitrate == s.streamBitrate
            && Times(n.streamBitrate, input.now - s.rateTime) == octets as real
            && n.rateTime == input.now && n.rateBytes == 0
  {
    hide AfterPoll, PollDefined, OctetsOnWire, Times, WithinSecond, CallsAdmissible;
    RunCounts(s, unit, es);
    WrapIdentity32(s.rateBytes + OctetsOver(s, unit, es));
    PollMeasures(RunCalls(s, unit, es), unit, input);
  }

  // Measuring starts with the first delivered packet or the first poll.
  lemma MeasuringStarts(s: SenderState, unit: real, e: Call)
    requires unit != 0.0 && s.rateTime == 0.0 && s.rateBytes == 0 && s.lastReportTime == 0.0 && CallEnabled(s, unit, e)
    ensures var n := CallStep(s, unit, e);
            && n.streamBitrate == s.streamBitrate
            && n.rateBytes == Wrap32(OctetsOnWire(s, e))
            && n.rateTime == if e.Poll? then e.poll.now
                             else if e.SendData? && e.input.delivered then e.input.rateTime else 0.0
  {
    hide Chosen, Sent, OnReport, Advance, NewShares, Divisible, Wrap32;
    WrapIdentity32(0);
    if e.SendData? {
      WrapAdd32(e.payload + 24, 0);
    }
  }

  // The limits on subflows in trouble hold of the shares a poll leaves, after any run.
  lemma LimitsAfterRun(s: SenderState, unit: real, es: seq<Call>, input: PollInput, i: nat)
    requires unit != 0.0 && New(s) && CallsAdmissible(s, unit, es)
    requires var f := RunCalls(s, unit, es);
             && i < |f.subflows| && f.recalc && AllReady(f.subflows) && f.subflows[i].indicator > 0
             && !AllCongested(f.subflows) && TotalTested(f.subflows) > 0.0 && PollDefined(f, unit, input)
    ensures var f := RunCalls(s, unit, es); var n := AfterPoll(f, unit, input);
            var share, fair := n.subflows[i].share, f.subflows[i].tested / TotalTested(f.subflows);
            var limit := (if f.subflows[i].indicator == 3 then 0.5 else 0.75) * f.subflows[i].congested;
            && |n.subflows| == |f.subflows|
            && share <= fair && (n.streamBitrate > 0.0 ==> Times(share, n.streamBitrate) <= limit)
            && (share == fair || (n.streamBitrate > 0.0 && Times(share, n.streamBitrate) == limit))
  {
    var f := RunCalls(s, unit, es);
    assert SenderInv(s);
    ReachableSenderInv(s, unit, es);
    BeforeRecalcChanges(f, unit, input);
    var m := BeforeRecalc(f, unit, input);
    CountAll(m.subflows);
    hide BeforeRecalc, ReportDue, NewShare, CongestedCount, TotalTested, Times, RunCalls;
    TroubleIsLimited(m.subflows, m.streamBitrate, i);
  }

  // ----- requests and reports -----

  // A report on one of the subflows.
  predicate Informs(v: seq<SubflowState>, e: Call) {
    e.ReceiveRr? && e.id != 0 && exists i :: 0 <= i < |v| && v[i].id == e.id
  }

  lemma StepRequests(s: SenderState, unit: real, e: Call)
    requires unit != 0.0 && CallEnabled(s, unit, e) && (e.SendData? || e.ReceiveRr?)
    ensures var n := CallStep(s, unit, e);
            && (n.recalc <==> s.recalc || Informs(s.subflows, e))
            && |n.subflows| == |s.subflows|
            && forall i :: 0 <= i < |s.subflows| ==>
                 n.subflows[i].id == s.subflows[i].id && n.subflows[i].share == s.subflows[i].share
  {
    hide InstantBitrate, Blend, Damped, Chosen, AfterSend;
    if e.SendData? {
      SendChanges(s, unit, e.payload, e.input);
    }
  }

  lemma SameInforms(v: seq<SubflowState>, u: seq<SubflowState>)
    requires |u| == |v| && forall i :: 0 <= i < |v| ==> u[i].id == v[i].id
    ensures forall e: Call :: Informs(v, e) <==> Informs(u, e)
  {
  }

  lemma {:induction false} RequestedBetweenPolls(s: SenderState, unit: real, es: seq<Call>)
    requires unit != 0.0 && CallsAdmissible(s, unit, es)
    requires forall k :: 0 <= k < |es| ==> es[k].SendData? || es[k].ReceiveRr?
    ensures var f := RunCalls(s, unit, es);
            && (f.recalc <==> s.recalc || exists k :: 0 <= k < |es| && Informs(s.subflows, es[k]))
            && |f.subflows| == |s.subflows|
            && forall i :: 0 <= i < |s.subflows| ==>
                 f.subflows[i].id == s.subflows[i].id && f.subflows[i].share == s.subflows[i].share
    decreases |es|
  {
    if es != [] {
      var n := CallStep(s, unit, es[0]);
      StepRequests(s, unit, es[0]);
      SameInforms(s.subflows, n.subflows);
      hide CallStep, CallEnabled, Informs;
      RequestedBetweenPolls(n, unit, es[1..]);
      assert forall k :: 0 <= k < |es| - 1 ==> es[1..][k] == es[k + 1];
      assert forall k :: 0 < k < |es| ==> es[k] == es[1..][k - 1];
    }
  }

  // Shares change at a poll alone, and only if a report on a subflow came since the poll before it,
  // which leaves no request behind.
  lemma SharesChangeOnRequest(s: SenderState, unit: real, poll: PollInput, es: seq<Call>, input: PollInput)
    requires unit != 0.0 && PollDefined(s, unit, poll) && CallsAdmissible(AfterPoll(s, unit, poll), unit, es)
    requires forall k :: 0 <= k < |es| ==> es[k].SendData? || es[k].ReceiveRr?
    requires PollDefined(RunCalls(AfterPoll(s, unit, poll), unit, es), unit, input)
    ensures var m := AfterPoll(s, unit, poll); var f := RunCalls(m, unit, es);
            && !m.recalc && |f.subflows| == |m.subflows|
            && (forall i :: 0 <= i < |m.subflows| ==> f.subflows[i].share == m.subflows[i].share)
            && (f.recalc <==> exists k :: 0 <= k < |es| && Informs(m.subflows, es[k]))
            && (!f.recalc ==> AfterPoll(f, unit, input).subflows == f.subflows)
  {
    var m := AfterPoll(s, unit, poll);
    RequestedBetweenPolls(m, unit, es);
    BeforeRecalcChanges(s, unit, poll);
    BeforeRecalcChanges(RunCalls(m, unit, es), unit, input);
    hide BeforeRecalc, RunCalls, Informs, NewShares;
  }

  // A poll sends a sender report five seconds or more after the last one, or after the first packet,
  // and none within four; whole seconds decide in between. With nothing sent yet there is none.
  lemma ReportCadence(s: SenderState, unit: real, input: PollInput)
    requires unit != 0.0 && PollDefined(s, unit, input) && 0.0 <= s.lastReportTime <= input.now
    ensures var sent := ReportDue(s, input.now);
            && AfterPoll(s, unit, input).lastReportTime == (if sent then input.stampTime else s.lastReportTime)
            && (s.lastReportTime == 0.0 ==> !sent)
            && (s.lastReportTime > 0.0 ==> (sent <==> input.now.Floor - s.lastReportTime.Floor >= 5))
            && (s.lastReportTime > 0.0 && input.now - s.lastReportTime >= 5.0 ==> sent)
            && (input.now - s.lastReportTime <= 4.0 ==> !sent)
  {
    hide NewShares, Divisible, Advance;
  }

  // ----- the stream's source -----

  function LastSsrc(ssrc: u32, es: seq<Call>): u32
    decreases |es|
  {
    if es == [] then ssrc
    else LastSsrc(if es[0].Connect? && es[0].interfaces > 0 then es[0].ssrc else ssrc, es[1..])
  }

  // Packets carry the SSRC of the last connect that had an interface.
  lemma {:induction false} SsrcOfLastConnect(s: SenderState, unit: real, es: seq<Call>)
    requires unit != 0.0 && CallsAdmissible(s, unit, es)
    ensures RunCalls(s, unit, es).ssrc == LastSsrc(s.ssrc, es)
    decreases |es|
  {
    if es != [] {
      assert CallStep(s, unit, es[0]).ssrc == LastSsrc(s.ssrc, [es[0]]) by {
        assert [es[0]][1..] == [];
        hide Chosen, Sent, OnReport, Advance, NewShares, Divisible;
      }
      hide CallStep, CallEnabled;
      SsrcOfLastConnect(CallStep(s, unit, es[0]), unit, es[1..]);
    }
  }

  // ----- starvation -----

  // The first k subflows cover every draw, and one behind them is not ready and has no packets to
  // measure.
  ghost predicate Starved(s: SenderState, k: nat) {
    && 0 < k < |s.subflows|
    && Sum(ShareList(s.subflows)[..k]) > 1.0
    && forall i :: k <= i < |s.subflows| ==> !s.subflows[i].ready && s.subflows[i].recentPackets == 0
  }

  // What starvation preserves: all shares, and the counts of the starved.
  ghost predicate Frozen(s: SenderState, n: SenderState, k: nat) {
    && |n.subflows| >= |s.subflows|
    && (forall i :: 0 <= i < |s.subflows| ==> n.subflows[i].share == s.subflows[i].share)
    && (forall i :: k <= i < |s.subflows| ==> n.subflows[i].packetCount == s.subflows[i].packetCount)
  }

  lemma SharePrefix(s: SenderState, n: SenderState, k: nat)
    requires Frozen(s, n, k) && k <= |s.subflows|
    ensures ShareList(n.subflows)[..k] == ShareList(s.subflows)[..k]
  {
  }

  // A step that keeps shares, and keeps the starved as they are, keeps starvation.
  lemma StarvationKept(s: SenderState, n: SenderState, k: nat)
    requires Starved(s, k) && Frozen(s, n, k)
    requires forall i :: k <= i < |n.subflows| ==> !n.subflows[i].ready && n.subflows[i].recentPackets == 0
    ensures Starved(n, k)
  {
    SharePrefix(s, n, k);
    hide Sum;
  }

  lemma ReportStarves(s: SenderState, id: u16, r: ReceivedReport, t0: real, t1: real, k: nat)
    requires Starved(s, k) && ReportMeasurable(s, id, r)
    ensures Starved(AfterReport(s, id, r, t0, t1), k) && Frozen(s, AfterReport(s, id, r, t0, t1), k)
  {
    hide InstantBitrate, Blend, Damped, Sum;
    StarvationKept(s, AfterReport(s, id, r, t0, t1), k);
  }

  lemma StarvationPersists(s: SenderState, unit: real, e: Call, k: nat)
    requires unit != 0.0 && Starved(s, k) && CallEnabled(s, unit, e)
    ensures Starved(CallStep(s, unit, e), k) && Frozen(s, CallStep(s, unit, e), k)
  {
    hide AfterSend, AfterReport, AfterPoll, PollDefined, Sum, Wrap16;
    match e
    case Connect(interfaces, ssrc, seeds) =>
      StarvationKept(s, CallStep(s, unit, e), k);
    case SendData(payload, input) =>
      SendChanges(s, unit, payload, input);
      CoveredPrefix(ShareList(s.subflows), input.draw, 0, k);
      StarvationKept(s, CallStep(s, unit, e), k);
    case ReceiveRr(id, r, t0, t1) =>
      ReportStarves(s, id, r, t0, t1, k);
    case Poll(input) =>
      PollChanges(s, unit, input);
      assert !s.subflows[k].ready;
      StarvationKept(s, CallStep(s, unit, e), k);
  }

  // Once the subflows in front cover every draw while one behind them is not ready, that lasts for
  // ever: no share changes again, and the ones behind never carry a data packet.
  lemma {:induction false} StarvationLasts(s: SenderState, unit: real, es: seq<Call>, k: nat)
    requires unit != 0.0 && Starved(s, k) && CallsAdmissible(s, unit, es)
    ensures var f := RunCalls(s, unit, es); Starved(f, k) && Frozen(s, f, k) && !AllReady(f.subflows)
    decreases |es|
  {
    if es != [] {
      var n := CallStep(s, unit, es[0]);
      StarvationPersists(s, unit, es[0], k);
      hide Starved, CallStep, CallEnabled, AllReady;
      StarvationLasts(n, unit, es[1..], k);
    } else {
      assert !s.subflows[k].ready;
    }
  }

  lemma HalvesCover(s: SenderState)
    requires |s.subflows| >= 3 && forall i :: 0 <= i < |s.subflows| ==> s.subflows[i].share == 0.5
    ensures Sum(ShareList(s.subflows)[..3]) == 1.5
  {
    var xs := ShareList(s.subflows);
    assert Sum(xs[..0]) == 0.0;
    SumStep(xs, 0);
    SumStep(xs, 1);
    SumStep(xs, 2);
  }

  // A sender with four or more subflows never redistributes: whatever happens, connecting again
  // included, all shares stay at one half and no data packet ever takes the fourth subflow or a
  // later one.
  lemma FourSubflowsNeverRedistribute(s: SenderState, unit: real, es: seq<Call>)
    requires unit != 0.0 && Connected(s) && |s.subflows| >= 4 && CallsAdmissible(s, unit, es)
    ensures var f := RunCalls(s, unit, es);
            && |f.subflows| >= |s.subflows|
            && !AllReady(f.subflows)
            && (forall i :: 0 <= i < |s.subflows| ==> f.subflows[i].share == 0.5)
            && (forall i :: 3 <= i < |s.subflows| ==> f.subflows[i].packetCount == 0)
  {
    HalvesCover(s);
    StarvationLasts(s, unit, es, 3);
    hide RunCalls, AllReady;
  }

  lemma {:induction false} HalvesAppended(v: seq<SubflowState>, id: u16, seeds: seq<u16>)
    ensures Sum(ShareList(v + FreshSubflows(id, seeds))) == Sum(ShareList(v)) + |seeds| as real / 2.0
  {
    var w := v + FreshSubflows(id, seeds);
    if seeds == [] {
      assert w == v;
    } else {
      var last := |seeds| - 1;
      FreshStep(v, id, seeds);
      hide FreshSubflows, Wrap16;
      HalvesAppended(v, id, seeds[..last]);
      assert ShareList(w)[..|w| - 1] == ShareList(v + FreshSubflows(id, seeds[..last]));
    }
  }

  lemma ReconnectedPrefixes(s: SenderState, interfaces: nat, ssrc: u32, seeds: seq<u16>)
    requires interfaces > 0 && seeds != [] && s.subflows != []
    ensures var xs := ShareList(AfterConnect(s, interfaces, ssrc, seeds).subflows); var n := |s.subflows|;
            Sum(xs[..n]) == Sum(ShareList(s.subflows)) && Sum(xs[..n + 1]) == Sum(ShareList(s.subflows)) + 0.5
  {
    var xs, n := ShareList(AfterConnect(s, interfaces, ssrc, seeds).subflows), |s.subflows|;
    assert xs[..n] == ShareList(s.subflows);
    SumStep(xs, n);
  }

  lemma ReconnectNonNegative(s: SenderState, interfaces: nat, ssrc: u32, seeds: seq<u16>)
    requires NonNegative(ShareList(s.subflows))
    ensures NonNegative(ShareList(AfterConnect(s, interfaces, ssrc, seeds).subflows))
  {
  }

  // Connecting again after a redistribution: every new subflow adds one half to a total of one. The
  // first of them is drawn by one draw of the 101, and the others never are.
  lemma ReconnectDraws(s: SenderState, interfaces: nat, ssrc: u32, seeds: seq<u16>, draw: nat)
    requires interfaces > 0 && seeds != [] && draw < DRAWS
    requires NonNegative(ShareList(s.subflows)) && Sum(ShareList(s.subflows)) == 1.0
    ensures var c := AfterConnect(s, interfaces, ssrc, seeds); var n := |s.subflows|;
            && Sum(ShareList(c.subflows)) == 1.0 + |seeds| as real / 2.0
            && Chosen(c, draw) <= n
            && (Chosen(c, draw) == n <==> draw == 100)
  {
    var n, xs := |s.subflows|, ShareList(AfterConnect(s, interfaces, ssrc, seeds).subflows);
    HalvesAppended(s.subflows, s.nextId, seeds);
    ReconnectedPrefixes(s, interfaces, ssrc, seeds);
    ReconnectNonNegative(s, interfaces, ssrc, seeds);
    hide NonNegative, PickFrom, Sum, AfterConnect;
    CoveredPrefix(xs, draw, 0, n + 1);
    PickExactly(xs, draw, n);
  }

  lemma ReconnectedStarve(s: SenderState, interfaces: nat, ssrc: u32, seeds: seq<u16>)
    requires interfaces > 0 && |seeds| >= 2 && Sum(ShareList(s.subflows)) == 1.0
    ensures var c := AfterConnect(s, interfaces, ssrc, seeds); var n := |s.subflows|;
            && Starved(c, n + 1) && |c.subflows| == n + |seeds|
            && forall i :: n < i < |c.subflows| ==> c.subflows[i].packetCount == 0
  {
    ReconnectedPrefixes(s, interfaces, ssrc, seeds);
    hide Sum, Wrap16;
  }

  // So after connecting again over two or more new paths a redistributed sender never redistributes
  // again: all shares stay as they are, and the second new subflow and later ones carry no data.
  lemma ReconnectStarves(s: SenderState, unit: real, interfaces: nat, ssrc: u32, seeds: seq<u16>, es: seq<Call>)
    requires unit != 0.0 && interfaces > 0 && |seeds| >= 2
    requires Sum(ShareList(s.subflows)) == 1.0
    requires CallsAdmissible(AfterConnect(s, interfaces, ssrc, seeds), unit, es)
    ensures var c := AfterConnect(s, interfaces, ssrc, seeds); var f := RunCalls(c, unit, es);
            && |f.subflows| >= |c.subflows|
            && !AllReady(f.subflows)
            && (forall i :: 0 <= i < |c.subflows| ==> f.subflows[i].share == c.subflows[i].share)
            && (forall i :: |s.subflows| < i < |c.subflows| ==> f.subflows[i].packetCount == 0)
  {
    var c := AfterConnect(s, interfaces, ssrc, seeds);
    ReconnectedStarve(s, interfaces, ssrc, seeds);
    hide AfterConnect, Starved, RunCalls, AllReady, Sum;
    StarvationLasts(c, unit, es, |s.subflows| + 1);
  }
}
