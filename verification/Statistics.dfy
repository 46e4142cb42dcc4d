// What a receiver computes from the packets of one source or subflow: extended sequence numbers,
// loss and jitter (RFC 3550, section 6.4.1 and appendices A.1, A.3 and A.8).

module Statistics {
  import opened Numeric
  import opened Reports
  import opened Clock

  const CYCLE := 0x1_0000

  datatype Stats = Stats(
    receivedData: bool,
    received: u32,
    cycles: u32,
    base: u32,
    highest: u32,
    jitter: u32,
    smoothed: real,
    prevTimestamp: u32,
    prevTime: real,
    intervalReceived: u32,
    saved: u32)

  const FRESH := Stats(false, 0, 0, 0, 0, 0, 0.0, 0, 0.0, 0, 0)

  // Cycle count, extended number and new highest number for a 16-bit sequence number.
  function Extend(cycles: u32, highest: u32, seq16: u16): (u32, u32, u32) {
    var low := highest % CYCLE;
    var wrapped := Wrap32(cycles + CYCLE);
    if seq16 >= low then
      (cycles, Wrap32(cycles + seq16), Wrap32(cycles + seq16))
    else if Wrap16(seq16 - low) < Wrap16(low - seq16) then
      (wrapped, Wrap32(wrapped + seq16), Wrap32(wrapped + seq16))
    else
      (cycles, Wrap32(cycles + seq16), highest)
  }

  // The number the statistics assign to the packet.
  function ExtendedNumber(st: Stats, seq16: u16): u32 {
    if st.receivedData then Extend(st.cycles, st.highest, seq16).1 else if seq16 == 0 then CYCLE else seq16
  }

  // The signed difference of two RTP timestamps, as the jitter filter reads it.
  function TimestampDifference(prev: u32, cur: u32): int {
    if cur > prev then
      if cur - prev < 0x1000_0000 then cur - prev else -(Wrap32(-(cur - prev)) as int)
    else if cur < prev then
      if prev - cur < 0x1000_0000 then -(prev - cur) else Wrap32(-(prev - cur))
    else 0
  }

  // |D| of RFC 3550, appendix A.8: how much the transit time changed.
  function TransitChange(prevTimestamp: u32, prevTime: real, timestamp: u32, time: real, unit: real): real
    requires unit != 0.0
  {
    Abs((time - prevTime) / unit - TimestampDifference(prevTimestamp, timestamp) as real)
  }

  function Smooth(smoothed: real, change: real): real {
    smoothed + (change - smoothed) / 16.0
  }

  function Arrive(st: Stats, seq16: u16, timestamp: u32, time: real, unit: real): Stats {
    var counted := st.(received := Wrap32(st.received + 1), intervalReceived := Wrap32(st.intervalReceived + 1),
                       prevTimestamp := timestamp, prevTime := time);
    if !st.receivedData then
      var first := if seq16 == 0 then CYCLE else seq16;
      counted.(receivedData := true, cycles := if seq16 == 0 then CYCLE else st.cycles,
               base := first - 1, saved := first - 1, highest := first)
    else
      var (cycles, _, highest) := Extend(st.cycles, st.highest, seq16);
      var smoothed :=
        if unit > 0.0 then Smooth(st.smoothed, TransitChange(st.prevTimestamp, st.prevTime, timestamp, time, unit))
        else 0.0;
      counted.(cycles := cycles, highest := highest, smoothed := smoothed, jitter := ToU32(smoothed))
  }

  function NewInterval(st: Stats): Stats {
    st.(intervalReceived := 0, saved := st.highest)
  }

  function Expected(st: Stats): u32 {
    Wrap32(st.highest - st.saved)
  }

  function CumulativeLost(st: Stats): u32 {
    Wrap32(Wrap32(st.highest - st.base) - st.received)
  }

  // The loss fraction in 1/256. An interval without packets divides zero by zero; the byte C++ makes
  // of that NaN is undefined, so it is an input.
  function FractionLost(expected: u32, received: u32, idle: u8): u8 {
    if expected < received then 0
    else if expected == 0 then idle
    else ((expected - received) as real / expected as real * 256.0).Floor % 0x100
  }

  // What a report needs to know of the last sender report.
  datatype LastSr = LastSr(ntp: NtpTime, recvTime: real)

  function Lsr(sr: Option<LastSr>): u32 {
    if sr.None? then 0 else sr.value.ntp.msw % CYCLE * CYCLE + sr.value.ntp.lsw / CYCLE
  }

  function Dlsr(sr: Option<LastSr>, now: real): u32 {
    if sr.None? then 0 else ToU32((now - sr.value.recvTime) * 65536.0)
  }

  function MakeReport(st: Stats, ssrc: u32, sr: Option<LastSr>, now: real, idle: u8): ReceiverReport {
    ReceiverReport(ssrc, FractionLost(Expected(st), st.intervalReceived, idle),
                   CumulativeLost(st) % 0x100_0000, st.highest, st.jitter, Lsr(sr), Dlsr(sr, now))
  }

  // LSR is the middle 32 bits of the 64-bit NTP timestamp.
  lemma LsrIsMiddleOfNtp(sr: LastSr)
    ensures Lsr(Some(sr)) == Wrap32((sr.ntp.msw * 0x1_0000_0000 + sr.ntp.lsw) / CYCLE)
  {
    var high := sr.ntp.msw / CYCLE;
    assert (sr.ntp.msw * 0x1_0000_0000 + sr.ntp.lsw) / CYCLE == sr.ntp.msw * CYCLE + sr.ntp.lsw / CYCLE;
    WrapShift32(Lsr(Some(sr)), high);
  }

  // ----- runs -----

  // A packet is known by its true index, of which the wire carries the low 16 bits.
  datatype Item = Arrival(index: nat, timestamp: u32, time: real) | Report

  function Next(st: Stats, item: Item, unit: real): Stats {
    match item
    case Arrival(index, timestamp, time) => Arrive(st, index % CYCLE, timestamp, time, unit)
    case Report => NewInterval(st)
  }

  function Run(st: Stats, items: seq<Item>, unit: real): Stats
    decreases |items|
  {
    if items == [] then st else Run(Next(st, items[0], unit), items[1..], unit)
  }

  function Indices(items: seq<Item>): seq<nat> {
    if items == [] then []
    else (if items[0].Arrival? then [items[0].index] else []) + Indices(items[1..])
  }

  // The extended numbers given to the arrivals of a run.
  function Numbers(st: Stats, items: seq<Item>, unit: real): seq<u32>
    decreases |items|
  {
    if items == [] then []
    else (if items[0].Arrival? then [ExtendedNumber(st, items[0].index % CYCLE)] else [])
         + Numbers(Next(st, items[0], unit), items[1..], unit)
  }

  // ----- sequence numbers: the 16-bit counter refines an unbounded one -----

  function MaxIndex(m: nat, t: nat): nat {
    if t > m then t else m
  }

  function HighestIndex(m: nat, indices: seq<nat>): nat
    decreases |indices|
  {
    if indices == [] then m else HighestIndex(MaxIndex(m, indices[0]), indices[1..])
  }

  // After index m as the highest so far, index t is extended as it should be: in the same cycle
  // ahead or at most 2^15 behind, or in the next cycle less than 2^15 ahead.
  predicate Reads(m: nat, t: nat) {
    || (t / CYCLE == m / CYCLE && (t >= m || m - t <= 0x8000))
    || (t / CYCLE == m / CYCLE + 1 && t - m < 0x8000)
  }

  predicate Stream(m: nat, indices: seq<nat>)
    decreases |indices|
  {
    indices == [] || (Reads(m, indices[0]) && Stream(MaxIndex(m, indices[0]), indices[1..]))
  }

  // The state agrees with m as the true highest index, up to a fixed multiple of 2^16.
  ghost predicate Tracks(st: Stats, m: nat, off: int) {
    && st.receivedData
    && off % CYCLE == 0
    && st.highest == Wrap32(m + off)
    && st.cycles == Wrap32(m / CYCLE * CYCLE + off)
  }

  function Offset(first: nat): int {
    (if first % CYCLE == 0 then CYCLE else 0) - first / CYCLE * CYCLE
  }

  lemma WrapLow(x: int)
    ensures Wrap32(x) % CYCLE == x % CYCLE
  {
    var q := x / 0x1_0000_0000;
    assert Wrap32(x) == x + CYCLE * (-0x1_0000 * q);
    assert (x + CYCLE * (-0x1_0000 * q)) / CYCLE == x / CYCLE - 0x1_0000 * q;
  }

  lemma TrackedLow(st: Stats, m: nat, off: int)
    requires Tracks(st, m, off)
    ensures st.highest % CYCLE == m % CYCLE
  {
    WrapLow(m + off);
    assert off == CYCLE * (off / CYCLE);
    assert (m + CYCLE * (off / CYCLE)) / CYCLE == m / CYCLE + off / CYCLE;
  }

  // Whether the receiver, at highest index m, takes the low bits of t for a wrapped number.
  function Jump(m: nat, t: nat): int {
    if m % CYCLE - t % CYCLE > 0x8000 then CYCLE else 0
  }

  // The index the receiver attributes to t.
  function Attributed(m: nat, t: nat): int {
    m / CYCLE * CYCLE + Jump(m, t) + t % CYCLE
  }

  lemma AttributionExactly(m: nat, t: nat)
    ensures Attributed(m, t) == t <==> Reads(m, t)
    ensures Attributed(m, t) == t ==> m / CYCLE * CYCLE + Jump(m, t) == t / CYCLE * CYCLE
    ensures Attributed(m, t) == t && t < m ==> t / CYCLE == m / CYCLE
    ensures -CYCLE <= Attributed(m, t) - m <= 2 * CYCLE
  {
  }

  lemma WrapDistance(low: u16, seq16: u16)
    requires seq16 < low
    ensures Wrap16(seq16 - low) < Wrap16(low - seq16) <==> low - seq16 > 0x8000
  {
  }

  lemma ExtendForm(st: Stats, m: nat, off: int, t: nat)
    requires Tracks(st, m, off)
    ensures var (cycles, number, highest) := Extend(st.cycles, st.highest, t % CYCLE);
            && cycles == Wrap32(m / CYCLE * CYCLE + Jump(m, t) + off)
            && number == Wrap32(Attributed(m, t) + off)
            && highest == if t % CYCLE < m % CYCLE && Jump(m, t) == 0 then st.highest else number
  {
    var cycle, seq16 := m / CYCLE * CYCLE, t % CYCLE;
    TrackedLow(st, m, off);
    if seq16 < m % CYCLE {
      WrapDistance(m % CYCLE, seq16);
    }
    WrapAdd32(cycle + off, CYCLE);
    WrapAdd32(cycle + off + Jump(m, t), seq16);
  }

  lemma ExtensionStep(st: Stats, m: nat, off: int, item: Item, unit: real)
    requires Tracks(st, m, off) && item.Arrival? && Reads(m, item.index)
    ensures ExtendedNumber(st, item.index % CYCLE) == Wrap32(item.index + off)
    ensures Tracks(Next(st, item, unit), MaxIndex(m, item.index), off)
  {
    ExtendForm(st, m, off, item.index);
    AttributionExactly(m, item.index);
    hide Extend;
  }

  // The exact window in which the extension keeps step with the true counter. A late packet from
  // before the last wrap is never in it: it counts as a jump ahead.
  lemma ExtensionExactly(st: Stats, m: nat, off: int, t: nat, timestamp: u32, time: real, unit: real)
    requires Tracks(st, m, off) && -0x4000_0000 < t - m < 0x4000_0000
    ensures var n := Next(st, Arrival(t, timestamp, time), unit);
            (ExtendedNumber(st, t % CYCLE) == Wrap32(t + off) && Tracks(n, MaxIndex(m, t), off))
              <==> Reads(m, t)
  {
    ExtendForm(st, m, off, t);
    AttributionExactly(m, t);
    hide Reads, Jump, Extend;
    if ExtendedNumber(st, t % CYCLE) == Wrap32(t + off) {
      WrapCancel32(t + off, Attributed(m, t) + off);
    }
    if Attributed(m, t) == t {
      ExtensionStep(st, m, off, Arrival(t, timestamp, time), unit);
    }
  }

  // Every packet carries its true index plus the offset, modulo 2^32.
  ghost predicate Numbered(indices: seq<nat>, numbers: seq<u32>, off: int) {
    && |numbers| == |indices|
    && forall k :: 0 <= k < |indices| ==> numbers[k] == Wrap32(indices[k] + off)
  }

  lemma NumberedCons(x: nat, indices: seq<nat>, number: u32, numbers: seq<u32>, off: int)
    requires Numbered(indices, numbers, off) && number == Wrap32(x + off)
    ensures Numbered([x] + indices, [number] + numbers, off)
  {
  }

  lemma {:induction false} ExtensionFollows(st: Stats, m: nat, off: int, items: seq<Item>, unit: real)
    requires Tracks(st, m, off) && Stream(m, Indices(items))
    ensures Numbered(Indices(items), Numbers(st, items, unit), off)
    ensures Tracks(Run(st, items, unit), HighestIndex(m, Indices(items)), off)
    decreases |items|
  {
    if items != [] {
      hide Numbered, Reads, Extend, ExtendedNumber, Wrap32, Arrive;
      var item, rest := items[0], items[1..];
      var n := Next(st, item, unit);
      if item.Arrival? {
        assert Indices(items)[0] == item.index && Indices(items)[1..] == Indices(rest);
        ExtensionStep(st, m, off, item, unit);
        ExtensionFollows(n, MaxIndex(m, item.index), off, rest, unit);
        NumberedCons(item.index, Indices(rest), ExtendedNumber(st, item.index % CYCLE), Numbers(n, rest, unit), off);
      } else {
        assert Indices(items) == Indices(rest) && Numbers(st, items, unit) == Numbers(n, rest, unit);
        ExtensionFollows(n, m, off, rest, unit);
      }
    }
  }

  lemma OffsetLands(first: nat)
    ensures Offset(first) % CYCLE == 0
    ensures first + Offset(first) == if first % CYCLE == 0 then CYCLE else first % CYCLE
  {
    var k := first / CYCLE;
    assert (-k * CYCLE) % CYCLE == 0 && ((1 - k) * CYCLE) % CYCLE == 0;
  }

  // The whole stream: every packet of a run gets its true index plus one fixed multiple of 2^16,
  // and the highest number kept is that of the true maximum.
  lemma ExtensionRefinesCounter(first: Item, items: seq<Item>, unit: real)
    requires first.Arrival? && Stream(first.index, Indices(items))
    ensures var all := [first] + items; var off := Offset(first.index);
            && off % CYCLE == 0
            && Numbered(Indices(all), Numbers(FRESH, all, unit), off)
            && Tracks(Run(FRESH, all, unit), HighestIndex(first.index, Indices(items)), off)
  {
    var off, seq16 := Offset(first.index), first.index % CYCLE;
    var st := Next(FRESH, first, unit);
    assert ([first] + items)[0] == first && ([first] + items)[1..] == items;
    OffsetLands(first.index);
    assert Tracks(st, first.index, off);
    ExtensionFollows(st, first.index, off, items, unit);
    NumberedCons(first.index, Indices(items), ExtendedNumber(FRESH, seq16), Numbers(st, items, unit), off);
  }

  // ----- loss -----

  function IntervalLost(st: Stats): u32 {
    Wrap32(Expected(st) - st.intervalReceived)
  }

  // Expected minus received, summed over the reports of a run.
  function ReportedLoss(st: Stats, items: seq<Item>, unit: real): int
    decreases |items|
  {
    if items == [] then 0
    else (if items[0].Report? then IntervalLost(st) else 0)
         + ReportedLoss(Next(st, items[0], unit), items[1..], unit)
  }

  // Loss up to the last report.
  function Settled(st: Stats): u32 {
    Wrap32(st.saved - st.base - st.received + st.intervalReceived)
  }

  lemma LossSplits(st: Stats)
    ensures CumulativeLost(st) == Wrap32(st.highest - st.base - st.received)
    ensures Wrap32(Settled(st) + IntervalLost(st)) == CumulativeLost(st)
  {
    hide Wrap32;
    WrapAdd32(st.highest - st.base, -(st.received as int));
    var settled := st.saved - st.base - st.received + st.intervalReceived;
    WrapAdd32(st.highest - st.saved, -(st.intervalReceived as int));
    WrapAdd32(settled, IntervalLost(st));
    WrapAdd32(st.highest - st.saved - st.intervalReceived, settled);
  }

  lemma SettledStep(st: Stats, item: Item, unit: real)
    requires st.receivedData || (st.received == 0 && st.intervalReceived == 0 && st.saved == st.base)
    ensures item.Arrival? ==> Settled(Next(st, item, unit)) == Settled(st)
    ensures item.Report? ==> Settled(Next(st, item, unit)) == CumulativeLost(st)
  {
    LossSplits(st);
    if item.Arrival? && st.receivedData {
      WrapAdd32(st.received + 1, st.base - st.saved - st.intervalReceived);
      WrapSub32(st.received + 1, st.saved - st.base + Wrap32(st.intervalReceived + 1));
      WrapAdd32(st.intervalReceived + 1, st.saved - st.base - (st.received + 1));
    }
  }

  lemma {:induction false} ReportedLossAccumulates(st: Stats, items: seq<Item>, unit: real)
    requires st.receivedData || (st.received == 0 && st.intervalReceived == 0 && st.saved == st.base == st.highest)
    ensures Settled(Run(st, items, unit)) == Wrap32(Settled(st) + ReportedLoss(st, items, unit))
    decreases |items|
  {
    WrapIdentity32(Settled(st));
    hide Wrap32, Settled;
    if items != [] {
      var n := Next(st, items[0], unit);
      SettledStep(st, items[0], unit);
      ReportedLossAccumulates(n, items[1..], unit);
      LossSplits(st);
      WrapAdd32(Settled(st) + IntervalLost(st), ReportedLoss(n, items[1..], unit));
    }
  }

  lemma {:induction false} RunAppend(st: Stats, items: seq<Item>, last: Item, unit: real)
    ensures Run(st, items + [last], unit) == Next(Run(st, items, unit), last, unit)
    decreases |items|
  {
    var all := items + [last];
    if items != [] {
      assert all[1..] == items[1..] + [last];
      RunAppend(Next(st, items[0], unit), items[1..], last, unit);
    } else {
      assert all[1..] == [];
    }
  }

  lemma {:induction false} RunStarted(st: Stats, items: seq<Item>, unit: real)
    requires st.receivedData || st == FRESH
    ensures var f := Run(st, items, unit); f.receivedData || f == FRESH
    decreases |items|
  {
    if items != [] {
      RunStarted(Next(st, items[0], unit), items[1..], unit);
    }
  }

  lemma NothingSettled()
    ensures Settled(FRESH) == 0
  {
  }

  lemma WrapMod24(x: int)
    ensures Wrap32(x) % 0x100_0000 == x % 0x100_0000
  {
    var q := x / 0x1_0000_0000;
    assert (x + 0x100_0000 * (-0x100 * q)) / 0x100_0000 == x / 0x100_0000 - 0x100 * q;
  }

  // Over any run whatever, with drops, duplicates and reordering, the interval losses sum to the
  // cumulative loss, modulo 2^32 in the counters and modulo 2^24 on the wire.
  lemma IntervalLossesAddUp(items: seq<Item>, unit: real, ssrc: u32, sr: Option<LastSr>, now: real, idle: u8)
    ensures var st := Run(FRESH, items, unit); var total := ReportedLoss(FRESH, items + [Report], unit);
            && CumulativeLost(st) == Wrap32(total)
            && MakeReport(st, ssrc, sr, now, idle).packetsLost == total % 0x100_0000
  {
    hide Wrap32, Settled, CumulativeLost, Run, ReportedLoss;
    var st := Run(FRESH, items, unit);
    var total := ReportedLoss(FRESH, items + [Report], unit);
    ReportedLossAccumulates(FRESH, items + [Report], unit);
    RunAppend(FRESH, items, Report, unit);
    RunStarted(FRESH, items, unit);
    SettledStep(st, Report, unit);
    NothingSettled();
    WrapMod24(total);
  }

  // Base and count of a run that starts with a packet.
  lemma {:induction false} Counts(st: Stats, items: seq<Item>, unit: real)
    requires st.receivedData
    ensures var f := Run(st, items, unit);
            && f.receivedData && f.base == st.base
            && f.received == Wrap32(st.received + |Indices(items)|)
    decreases |items|
  {
    if items != [] {
      var n := Next(st, items[0], unit);
      Counts(n, items[1..], unit);
      WrapAdd32(st.received + 1, |Indices(items[1..])|);
    }
  }

  function Range(first: nat, last: int): (r: set<nat>)
    ensures forall x: nat :: x in r <==> first <= x <= last
    decreases last - first
  {
    if last < first then {} else Range(first, last - 1) + {last}
  }

  function Elements(indices: seq<nat>): set<nat> {
    set x | x in indices
  }

  // The packets of the range the receiver has seen that never arrived.
  function Missing(first: nat, indices: seq<nat>): set<nat> {
    Range(first, HighestIndex(first, indices)) - Elements([first] + indices)
  }

  lemma {:induction false} RangeSize(first: nat, last: int)
    requires first <= last + 1
    ensures |Range(first, last)| == last - first + 1
    decreases last - first
  {
    if first <= last {
      RangeSize(first, last - 1);
    }
  }

  ghost predicate Distinct(xs: seq<nat>) {
    forall i, j :: 0 <= i < j < |xs| ==> xs[i] != xs[j]
  }

  lemma {:induction false} DistinctSize(xs: seq<nat>)
    requires Distinct(xs)
    ensures |Elements(xs)| == |xs|
  {
    if xs != [] {
      var last := |xs| - 1;
      DistinctSize(xs[..last]);
      assert xs == xs[..last] + [xs[last]];
      assert Elements(xs) == Elements(xs[..last]) + {xs[last]};
      assert xs[last] !in Elements(xs[..last]);
    } else {
      assert Elements(xs) == {};
    }
  }

  lemma {:induction false} HighestBounds(m: nat, indices: seq<nat>)
    ensures m <= HighestIndex(m, indices)
    ensures forall x :: x in indices ==> x <= HighestIndex(m, indices)
    decreases |indices|
  {
    if indices != [] {
      HighestBounds(MaxIndex(m, indices[0]), indices[1..]);
      assert indices == [indices[0]] + indices[1..];
    }
  }

  lemma MissingSize(first: nat, xs: seq<nat>)
    requires Distinct([first] + xs) && forall x :: x in xs ==> x >= first
    ensures |Missing(first, xs)| == HighestIndex(first, xs) - first - |xs|
  {
    var m := HighestIndex(first, xs);
    HighestBounds(first, xs);
    RangeSize(first, m);
    DistinctSize([first] + xs);
    assert Elements([first] + xs) <= Range(first, m);
  }

  lemma BaseAndCount(first: Item, items: seq<Item>, unit: real)
    requires first.Arrival?
    ensures var st := Run(FRESH, [first] + items, unit);
            && st.base == first.index + Offset(first.index) - 1
            && st.received == Wrap32(1 + |Indices(items)|)
  {
    assert ([first] + items)[0] == first && ([first] + items)[1..] == items;
    Counts(Next(FRESH, first, unit), items, unit);
    OffsetLands(first.index);
  }

  lemma LossArithmetic(st: Stats, m: nat, off: int, first: nat, n: nat)
    requires st.highest == Wrap32(m + off) && st.base == first + off - 1 && st.received == Wrap32(1 + n)
    ensures CumulativeLost(st) == Wrap32(m - first - n)
  {
    WrapAdd32(m + off, -(st.base as int));
    WrapAdd32(m + off - st.base, -(st.received as int));
    WrapSub32(1 + n, m + off - st.base);
  }

  // For a stream without duplicates that starts at its lowest index, cumulative loss counts exactly
  // the packets missing between the first and the highest, reordered or not.
  lemma LossIsMissingPackets(first: Item, items: seq<Item>, unit: real)
    requires first.Arrival? && Stream(first.index, Indices(items))
    requires Distinct([first.index] + Indices(items))
    requires forall x :: x in Indices(items) ==> x >= first.index
    ensures var st := Run(FRESH, [first] + items, unit); var missing := |Missing(first.index, Indices(items))|;
            && CumulativeLost(st) == Wrap32(missing)
            && missing == HighestIndex(first.index, Indices(items)) - first.index - |Indices(items)|
  {
    hide Numbered, Wrap32, Missing, Distinct, Numbers, CumulativeLost;
    var xs, m := Indices(items), HighestIndex(first.index, Indices(items));
    MissingSize(first.index, xs);
    ExtensionRefinesCounter(first, items, unit);
    BaseAndCount(first, items, unit);
    LossArithmetic(Run(FRESH, [first] + items, unit), m, Offset(first.index), first.index, |xs|);
  }

  ghost predicate InOrder(m: nat, indices: seq<nat>)
    decreases |indices|
  {
    indices == [] || (m < indices[0] < m + 0x8000 && InOrder(indices[0], indices[1..]))
  }

  lemma {:induction false} InOrderIsStream(m: nat, indices: seq<nat>)
    requires InOrder(m, indices)
    ensures Stream(m, indices) && Distinct([m] + indices)
    ensures forall x :: x in indices ==> x > m
    decreases |indices|
  {
    if indices != [] {
      InOrderIsStream(indices[0], indices[1..]);
      assert indices == [indices[0]] + indices[1..];
      assert forall x :: x in indices ==> x == indices[0] || x in indices[1..];
      var all := [m] + indices;
      forall i, j | 0 <= i < j < |all| ensures all[i] != all[j] {
        assert all[j] == indices[j - 1] && (i > 0 ==> all[i] == indices[i - 1]);
        assert indices[j - 1] in indices;
      }
    }
  }

  // In-order delivery with any drops that leave gaps below 2^15: the loss is the number dropped
  // between the first packet and the last.
  lemma InOrderLoss(first: Item, items: seq<Item>, unit: real)
    requires first.Arrival? && InOrder(first.index, Indices(items))
    ensures CumulativeLost(Run(FRESH, [first] + items, unit)) == Wrap32(|Missing(first.index, Indices(items))|)
  {
    InOrderIsStream(first.index, Indices(items));
    LossIsMissingPackets(first, items, unit);
  }

  // ----- fraction lost -----

  // Packets since the last report of a run that follows one with n since its own last report.
  function SinceReport(n: nat, items: seq<Item>): nat
    decreases |items|
  {
    if items == [] then n else SinceReport(if items[0].Arrival? then n + 1 else 0, items[1..])
  }

  ghost predicate CountsSince(st: Stats, n: nat) {
    st.intervalReceived == Wrap32(n) && (n == 0 ==> st.highest == st.saved)
  }

  lemma {:induction false} SinceReportCounted(st: Stats, n: nat, items: seq<Item>, unit: real)
    requires CountsSince(st, n)
    ensures CountsSince(Run(st, items, unit), SinceReport(n, items))
    decreases |items|
  {
    if items != [] {
      WrapAdd32(n, 1);
      SinceReportCounted(Next(st, items[0], unit), if items[0].Arrival? then n + 1 else 0, items[1..], unit);
    }
  }

  // The loss fraction divides zero by zero exactly when no packet arrived since the last report.
  lemma FractionUndefinedExactly(items: seq<Item>, unit: real)
    requires SinceReport(0, items) < 0x1_0000_0000
    ensures var st := Run(FRESH, items, unit);
            (Expected(st) == 0 && st.intervalReceived == 0) <==> SinceReport(0, items) == 0
  {
    SinceReportCounted(FRESH, 0, items, unit);
  }

  lemma LossRatioBelowOne(lost: real, e: real)
    requires 0.0 <= lost < e
    ensures 0.0 <= lost / e * 256.0 < 256.0
  {
    QuotientTimes(lost, e);
    TimesOrder(1.0, lost / e, e);
    TimesOrder(0.0, lost / e, e);
  }

  lemma RoundedEstimate(e: real, lost: real, f: real)
    requires e > 0.0 && f <= lost / e * 256.0 < f + 1.0
    ensures e - lost <= e * (1.0 - f / 256.0) < e - lost + e / 256.0
  {
    var q, g := lost / e, f / 256.0;
    QuotientTimes(lost, e);
    TimesOrder(g, q, e);
    TimesOrder(g + 1.0 / 256.0, q, e);
    TimesAdd(g, 1.0 / 256.0, e);
    assert e * (1.0 - g) == e - Times(g, e);
  }

  // With a packet in the interval the byte is the floor of 256 * lost / expected, without overflow,
  // and what a sender recovers from it is never below the true count and less than expected/256 above.
  lemma FractionSound(expected: u32, received: u32, idle: u8)
    requires 0 < received <= expected
    ensures var f := FractionLost(expected, received, idle) as real;
            var estimate := expected as real * (1.0 - f / 256.0);
            && f == ((expected - received) as real / expected as real * 256.0).Floor as real
            && received as real <= estimate < received as real + expected as real / 256.0
  {
    var e, lost := expected as real, (expected - received) as real;
    LossRatioBelowOne(lost, e);
    var f := (lost / e * 256.0).Floor as real;
    RoundedEstimate(e, lost, f);
  }

  // ----- jitter -----

  // The difference reduces cur - prev to one of its two neighbours modulo 2^32.
  lemma DifferenceForm(prev: u32, cur: u32)
    ensures var d := cur - prev;
            TimestampDifference(prev, cur) ==
            if -0x1000_0000 < d < 0x1000_0000 then d else if d > 0 then d - 0x1_0000_0000 else d + 0x1_0000_0000
  {
  }

  // The difference is congruent to cur - prev and antisymmetric; it is the true difference d exactly
  // in a window that depends on whether the timestamp wrapped, and always when |d| is below 2^28.
  lemma TimestampDifferenceExactly(prev: u32, d: int)
    requires -0x1_0000_0000 < d < 0x1_0000_0000
    ensures var cur := Wrap32(prev + d); var e := TimestampDifference(prev, cur); var size := if d < 0 then -d else d;
            && Wrap32(e) == Wrap32(cur - prev)
            && e == -TimestampDifference(cur, prev)
            && (e == d <==> if 0 <= prev + d < 0x1_0000_0000 then size < 0x1000_0000 else size <= 0xF000_0000)
            && (size < 0x1000_0000 ==> e == d)
  {
    var cur := Wrap32(prev + d);
    DifferenceForm(prev, cur);
    DifferenceForm(cur, prev);
    WrapShift32(cur - prev, -1);
    WrapShift32(cur - prev, 1);
    assert cur == prev + d || cur == prev + d + 0x1_0000_0000 || cur == prev + d - 0x1_0000_0000;
    hide TimestampDifference;
  }

  // The change in transit time each packet of a run contributes stays within b.
  predicate SteadyTransit(st: Stats, items: seq<Item>, unit: real, b: real)
    requires unit != 0.0
    decreases |items|
  {
    items == [] ||
    (&& (items[0].Arrival? ==>
           TransitChange(st.prevTimestamp, st.prevTime, items[0].timestamp, items[0].time, unit) <= b)
     && SteadyTransit(Next(st, items[0], unit), items[1..], unit, b))
  }

  predicate ConstantTransit(st: Stats, items: seq<Item>, unit: real, b: real)
    requires unit != 0.0
    decreases |items|
  {
    items == [] ||
    (&& (items[0].Arrival? ==>
           TransitChange(st.prevTimestamp, st.prevTime, items[0].timestamp, items[0].time, unit) == b)
     && ConstantTransit(Next(st, items[0], unit), items[1..], unit, b))
  }

  lemma SmoothGap(smoothed: real, change: real, b: real, p: real, q: real)
    requires 0.0 <= change <= b && 0.0 <= smoothed && p >= 0.0 && q == 15.0 / 16.0 * p
    ensures 0.0 <= Smooth(smoothed, change)
    ensures Times(p, b - Smooth(smoothed, change)) >= Times(q, b - smoothed)
    ensures change == b ==> Times(p, b - Smooth(smoothed, change)) == Times(q, b - smoothed)
    ensures change < b && p > 0.0 ==> Times(p, b - Smooth(smoothed, change)) > Times(q, b - smoothed)
  {
    var gap := b - Smooth(smoothed, change);
    assert gap == 15.0 / 16.0 * (b - smoothed) + (b - change) / 16.0;
    assert p * gap == q * (b - smoothed) + p * ((b - change) / 16.0);
  }

  lemma TransitNonNegative(prevTimestamp: u32, prevTime: real, timestamp: u32, time: real, unit: real)
    requires unit != 0.0
    ensures TransitChange(prevTimestamp, prevTime, timestamp, time, unit) >= 0.0
  {
  }

  // After n updates with |D| <= b the jitter lies in [0, b - (15/16)^n * (b - initial)], and reaches
  // the upper end when |D| is b throughout. From zero that is b * (1 - (15/16)^n).
  lemma {:induction false} JitterBound(st: Stats, items: seq<Item>, unit: real, b: real)
    requires st.receivedData && unit > 0.0 && 0.0 <= st.smoothed && SteadyTransit(st, items, unit, b)
    ensures var f := Run(st, items, unit); var decay := Power(15.0 / 16.0, |Indices(items)|);
            && 0.0 <= f.smoothed <= b - Times(decay, b - st.smoothed)
            && (ConstantTransit(st, items, unit, b) ==> f.smoothed == b - Times(decay, b - st.smoothed))
    decreases |items|
  {
    if items == [] {
      assert Times(1.0, b - st.smoothed) == b - st.smoothed;
    } else {
      hide Extend, Times, Power, TransitChange, Smooth;
      var n := Next(st, items[0], unit);
      if items[0].Arrival? {
        var change := TransitChange(st.prevTimestamp, st.prevTime, items[0].timestamp, items[0].time, unit);
        var updates := |Indices(items[1..])|;
        assert |Indices(items)| == updates + 1;
        PowerStep(15.0 / 16.0, updates);
        TransitNonNegative(st.prevTimestamp, st.prevTime, items[0].timestamp, items[0].time, unit);
        SmoothGap(st.smoothed, change, b, Power(15.0 / 16.0, updates), Power(15.0 / 16.0, updates + 1));
      } else {
        assert Indices(items) == Indices(items[1..]);
      }
      JitterBound(n, items[1..], unit, b);
    }
  }

  // From the first packet on, whose filter starts at zero.
  lemma JitterFromStart(first: Item, items: seq<Item>, unit: real, b: real)
    requires first.Arrival? && unit > 0.0 && SteadyTransit(Next(FRESH, first, unit), items, unit, b)
    ensures 0.0 <= Run(FRESH, [first] + items, unit).smoothed <= b * (1.0 - Power(15.0 / 16.0, |Indices(items)|))
    ensures ConstantTransit(Next(FRESH, first, unit), items, unit, b) ==>
              Run(FRESH, [first] + items, unit).smoothed == b * (1.0 - Power(15.0 / 16.0, |Indices(items)|))
  {
    assert ([first] + items)[0] == first && ([first] + items)[1..] == items;
    JitterBound(Next(FRESH, first, unit), items, unit, b);
    var decay := Power(15.0 / 16.0, |Indices(items)|);
    assert b - Times(decay, b) == b * (1.0 - decay);
  }

  // ----- jitter as a filter of transit times -----

  // The transit times of a run's packets, in timestamp units: arrival minus true timestamp, one of
  // `stamps` for each packet, unbounded where the wire's timestamp wraps.
  function Transits(items: seq<Item>, stamps: seq<int>, unit: real): (trs: seq<real>)
    requires unit != 0.0 && |stamps| == |Indices(items)|
    ensures |trs| == |stamps|
    decreases |items|
  {
    if items == [] then []
    else if items[0].Arrival? then [items[0].time / unit - stamps[0] as real] + Transits(items[1..], stamps[1..], unit)
    else Transits(items[1..], stamps, unit)
  }

  // The wire carries the low 32 bits of true timestamps whose steps are less than 2^28 either way.
  predicate Stamped(prev: int, items: seq<Item>, stamps: seq<int>)
    requires |stamps| == |Indices(items)|
    decreases |items|
  {
    items == [] ||
    if items[0].Arrival? then
      && items[0].timestamp == Wrap32(stamps[0])
      && -0x1000_0000 < stamps[0] - prev < 0x1000_0000
      && Stamped(stamps[0], items[1..], stamps[1..])
    else Stamped(prev, items[1..], stamps)
  }

  // The estimator of RFC 3550, appendix A.8: J += (|D| - J) / 16.
  function Filtered(j: real, last: real, trs: seq<real>): real
    decreases |trs|
  {
    if trs == [] then j else Filtered(j + (Abs(trs[0] - last) - j) / 16.0, trs[0], trs[1..])
  }

  lemma TrueDifference(prev: int, cur: int)
    requires -0x1000_0000 < cur - prev < 0x1000_0000
    ensures TimestampDifference(Wrap32(prev), Wrap32(cur)) == cur - prev
  {
    TimestampDifferenceExactly(Wrap32(prev), cur - prev);
    WrapAdd32(prev, cur - prev);
  }

  lemma TransitDifference(prevTime: real, prev: int, time: real, cur: int, unit: real)
    requires unit != 0.0 && -0x1000_0000 < cur - prev < 0x1000_0000
    ensures TransitChange(Wrap32(prev), prevTime, Wrap32(cur), time, unit)
              == Abs((time / unit - cur as real) - (prevTime / unit - prev as real))
  {
    TrueDifference(prev, cur);
    assert (time - prevTime) / unit == time / unit - prevTime / unit;
    hide TimestampDifference, Wrap32;
  }

  lemma FilterStep(st: Stats, prev: int, item: Item, stamp: int, unit: real)
    requires st.receivedData && unit > 0.0 && st.prevTimestamp == Wrap32(prev)
    requires item.Arrival? && item.timestamp == Wrap32(stamp) && -0x1000_0000 < stamp - prev < 0x1000_0000
    ensures var n := Next(st, item, unit);
            var last, cur := st.prevTime / unit - prev as real, item.time / unit - stamp as real;
            && n.receivedData && n.prevTimestamp == Wrap32(stamp) && n.prevTime == item.time
            && n.smoothed == st.smoothed + (Abs(cur - last) - st.smoothed) / 16.0
  {
    TransitDifference(st.prevTime, prev, item.time, stamp, unit);
    hide Extend, TransitChange, Wrap32;
  }

  lemma ReportKeepsFilter(st: Stats)
    ensures var n := Next(st, Report, 1.0);
            && n == NewInterval(st) && n.receivedData == st.receivedData && n.smoothed == st.smoothed
            && n.prevTimestamp == st.prevTimestamp && n.prevTime == st.prevTime
    ensures forall unit: real :: Next(st, Report, unit) == NewInterval(st)
  {
  }

  lemma {:induction false} FilterFollows(st: Stats, prev: int, items: seq<Item>, stamps: seq<int>, unit: real)
    requires st.receivedData && unit > 0.0 && st.prevTimestamp == Wrap32(prev)
    requires |stamps| == |Indices(items)| && Stamped(prev, items, stamps)
    ensures Run(st, items, unit).smoothed
              == Filtered(st.smoothed, st.prevTime / unit - prev as real, Transits(items, stamps, unit))
    decreases |items|
  {
    if items != [] {
      hide Next, Wrap32;
      var n := Next(st, items[0], unit);
      if items[0].Arrival? {
        assert Indices(items)[1..] == Indices(items[1..]);
        FilterStep(st, prev, items[0], stamps[0], unit);
        FilterFollows(n, stamps[0], items[1..], stamps[1..], unit);
        assert Transits(items, stamps, unit)[1..] == Transits(items[1..], stamps[1..], unit);
      } else {
        ReportKeepsFilter(st);
        FilterFollows(n, prev, items[1..], stamps, unit);
      }
    }
  }

  // The jitter of a stream is the filter run over the transit times of its packets.
  lemma JitterFiltersTransit(first: Item, items: seq<Item>, stamp: int, stamps: seq<int>, unit: real)
    requires first.Arrival? && first.timestamp == Wrap32(stamp) && unit > 0.0
    requires |stamps| == |Indices(items)| && Stamped(stamp, items, stamps)
    ensures Run(FRESH, [first] + items, unit).smoothed
              == Filtered(0.0, first.time / unit - stamp as real, Transits(items, stamps, unit))
  {
    assert ([first] + items)[0] == first && ([first] + items)[1..] == items;
    FilterFollows(Next(FRESH, first, unit), stamp, items, stamps, unit);
  }

  // Each transit time differs from the one before it by at most b.
  predicate Steady(last: real, trs: seq<real>, b: real)
    decreases |trs|
  {
    trs == [] || (Abs(trs[0] - last) <= b && Steady(trs[0], trs[1..], b))
  }

  predicate Swinging(last: real, trs: seq<real>, b: real)
    decreases |trs|
  {
    trs == [] || (Abs(trs[0] - last) == b && Swinging(trs[0], trs[1..], b))
  }

  lemma {:induction false} FilterBound(j: real, last: real, trs: seq<real>, b: real)
    requires 0.0 <= j && Steady(last, trs, b)
    ensures var end := b - Times(Power(15.0 / 16.0, |trs|), b - j);
            && 0.0 <= Filtered(j, last, trs) <= end
            && (Filtered(j, last, trs) == end <==> Swinging(last, trs, b))
    decreases |trs|
  {
    if trs == [] {
      assert Times(1.0, b - j) == b - j;
    } else {
      hide Times, Power;
      var change, n := Abs(trs[0] - last), |trs| - 1;
      PowerStep(15.0 / 16.0, n);
      SmoothGap(j, change, b, Power(15.0 / 16.0, n), Power(15.0 / 16.0, n + 1));
      FilterBound(j + (change - j) / 16.0, trs[0], trs[1..], b);
    }
  }

  lemma {:induction false} DecayBelowOne(n: nat)
    ensures 0.0 < Power(15.0 / 16.0, n) <= 1.0
  {
    if n > 0 {
      DecayBelowOne(n - 1);
    }
  }

  lemma WholePart(x: real)
    requires 0.0 <= x < 4294967296.0
    ensures ToU32(x) == x.Floor
  {
  }

  lemma {:induction false} WholeKept(st: Stats, items: seq<Item>, unit: real)
    requires st.receivedData && st.jitter == ToU32(st.smoothed)
    ensures var f := Run(st, items, unit); f.jitter == ToU32(f.smoothed)
    decreases |items|
  {
    if items != [] {
      hide Extend, TransitChange, Smooth, ToU32;
      assert ToU32(0.0) == 0 by { WholePart(0.0); }
      WholeKept(Next(st, items[0], unit), items[1..], unit);
    }
  }

  lemma JitterIsWhole(first: Item, items: seq<Item>, unit: real)
    requires first.Arrival?
    ensures var f := Run(FRESH, [first] + items, unit); f.jitter == ToU32(f.smoothed)
  {
    assert ([first] + items)[0] == first && ([first] + items)[1..] == items;
    WholeKept(Next(FRESH, first, unit), items, unit);
  }

  lemma BoundArithmetic(b: real, decay: real)
    requires b >= 0.0 && 0.0 < decay <= 1.0
    ensures b - Times(decay, b - 0.0) == b * (1.0 - decay) <= b
  {
    assert b * decay >= 0.0;
  }

  // If the transit times of consecutive packets differ by at most b, the jitter after n of them lies
  // in [0, b (1 - (15/16)^n)]; it is at the upper end exactly when they always differ by b, so equal
  // transit times leave it at zero. The report's jitter is its whole part.
  lemma JitterMeasuresTransit(first: Item, items: seq<Item>, stamp: int, stamps: seq<int>, unit: real, b: real)
    requires first.Arrival? && first.timestamp == Wrap32(stamp) && unit > 0.0
    requires |stamps| == |Indices(items)| && Stamped(stamp, items, stamps)
    requires 0.0 <= b < 4294967296.0
    requires Steady(first.time / unit - stamp as real, Transits(items, stamps, unit), b)
    ensures var f := Run(FRESH, [first] + items, unit); var end := b * (1.0 - Power(15.0 / 16.0, |stamps|));
            && 0.0 <= f.smoothed <= end
            && (f.smoothed == end <==> Swinging(first.time / unit - stamp as real, Transits(items, stamps, unit), b))
            && f.jitter == f.smoothed.Floor
            && (b == 0.0 ==> f.smoothed == 0.0 && f.jitter == 0)
  {
    var last, trs := first.time / unit - stamp as real, Transits(items, stamps, unit);
    JitterFiltersTransit(first, items, stamp, stamps, unit);
    FilterBound(0.0, last, trs, b);
    hide Run, Filtered, Steady, Swinging, Transits, Power, Times, ToU32;
    DecayBelowOne(|stamps|);
    BoundArithmetic(b, Power(15.0 / 16.0, |stamps|));
    JitterIsWhole(first, items, unit);
    WholePart(Run(FRESH, [first] + items, unit).smoothed);
  }

  // Without a positive unit there is no jitter.
  lemma {:induction false} NoUnitNoJitter(items: seq<Item>, unit: real)
    requires unit <= 0.0
    ensures var f := Run(FRESH, items, unit); f.smoothed == 0.0 && f.jitter == 0
    decreases |items|
  {
    if items != [] {
      var last := |items| - 1;
      NoUnitNoJitter(items[..last], unit);
      RunAppend(FRESH, items[..last], items[last], unit);
      assert items == items[..last] + [items[last]];
      WholePart(0.0);
      hide Extend, Smooth, TransitChange;
    }
  }

  // ----- when a report says nothing was lost -----

  // With packets received in the interval, the loss byte of a report is zero exactly when less than
  // one packet in 256 of those expected is missing: also when more arrived than were expected, as
  // late packets and duplicates do.
  lemma LossByteZeroExactly(st: Stats, ssrc: u32, sr: Option<LastSr>, now: real, idle: u8)
    requires st.intervalReceived > 0
    ensures var expected := Wrap32(st.highest - st.saved);
            var zero := MakeReport(st, ssrc, sr, now, idle).fractionLost == 0;
            zero <==> 256 * (expected - st.intervalReceived) < expected
  {
    var e, n := Expected(st), st.intervalReceived;
    if n <= e {
      var lost := (e - n) as real;
      LossRatioBelowOne(lost, e as real);
      QuotientTimes(lost, e as real);
      TimesOrder(1.0, lost / e as real * 256.0, e as real);
      assert Times(lost / e as real * 256.0, e as real) == 256.0 * lost;
    }
    hide CumulativeLost, Lsr, Dlsr;
  }

  // A report's other fields: its source, the highest number, the jitter; the middle bits of the NTP
  // time of the last sender report; and the time since it arrived in 65536ths of a second.
  lemma ReportFields(st: Stats, ssrc: u32, sr: Option<LastSr>, now: real, idle: u8)
    ensures var r := MakeReport(st, ssrc, sr, now, idle);
            && r.ssrc == ssrc && r.extHighSeq == st.highest && r.jitter == st.jitter
            && (sr.None? ==> r.lsr == 0 == r.dlsr)
            && (sr.Some? ==>
                  var last := sr.value;
                  && r.lsr == (last.ntp.msw * 0x1_0000_0000 + last.ntp.lsw) / 0x1_0000 % 0x1_0000_0000
                  && (0.0 <= now - last.recvTime < 65536.0 ==>
                        r.dlsr as real / 65536.0 <= now - last.recvTime < (r.dlsr as real + 1.0) / 65536.0))
  {
    if sr.Some? {
      LsrIsMiddleOfNtp(sr.value);
      if 0.0 <= now - sr.value.recvTime < 65536.0 {
        WholePart((now - sr.value.recvTime) * 65536.0);
      }
    }
    hide FractionLost, CumulativeLost, Lsr, ToU32;
  }
}
