// Wallclock arithmetic: NTP words and RTP timestamps.

module Clock {
  import opened Numeric

  const NTP_OFFSET := 2208988800

  datatype NtpTime = NtpTime(msw: u32, lsw: u32)

  function ToNtp(t: real): NtpTime {
    var sec := ToU32(t);
    var micro := ToU32((t - sec as real) * 1000000.0);
    NtpTime(Wrap32(sec + NTP_OFFSET), ToU32(micro as real / 1000000.0 * (65536.0 * 65536.0)))
  }

  function FromNtp(n: NtpTime): real {
    if n.msw < NTP_OFFSET then 0.0
    else (n.msw - NTP_OFFSET) as real
         + 0.000001 * ToU32(n.lsw as real / (65536.0 * 65536.0) * 1000000.0) as real
  }

  // The microsecond field, rounded and capped.
  function Microseconds(t: real): u32 {
    var a := Abs(t);
    var m := ToU32(1000000.0 * (a - a.Floor as real) + 0.5);
    if m >= 1000000 then 999999 else m
  }

  lemma MicrosecondsClose(t: real)
    ensures Microseconds(t) <= 999999
    ensures var x := Abs(t).Floor as real + 0.000001 * Microseconds(t) as real;
            x - 0.0000005 <= Abs(t) <= x + 0.000001
  {
  }

  lemma FloorOfQuotient(x: real, n: int, d: int)
    requires d > 0 && Times(x, d as real) == n as real
    ensures x.Floor == n / d
  {
    var q := n / d;
    assert q * d <= n < (q + 1) * d;
    assert (q * d) as real == Times(q as real, d as real);
    assert ((q + 1) * d) as real == Times((q + 1) as real, d as real);
    TimesOrder(q as real, x, d as real);
    TimesOrder((q + 1) as real, x, d as real);
  }

  lemma MultipleOf15625(x: int, k: int)
    requires x == 15625 * k
    ensures x % 15625 == 0
  {
  }

  lemma CoprimeRemainder(micro: nat)
    ensures micro * 67108864 % 15625 == 0 <==> micro % 15625 == 0
  {
    var q := micro * 67108864 / 15625;
    if micro * 67108864 % 15625 == 0 {
      MultipleOf15625(micro, 12659 * q - 54369991 * micro);
    }
    if micro % 15625 == 0 {
      MultipleOf15625(micro * 67108864, micro / 15625 * 67108864);
    }
  }

  // A microsecond count survives the 32-bit fraction exactly when it is a multiple of 15625 (one
  // sixty-fourth of a second), and otherwise comes back one smaller.
  lemma FractionRoundTrip(micro: u32)
    requires micro < 1000000
    ensures var lsw := ToU32(micro as real / 1000000.0 * (65536.0 * 65536.0));
            ToU32(lsw as real / (65536.0 * 65536.0) * 1000000.0)
              == if micro % 15625 == 0 then micro else micro - 1
  {
    var x := micro as real / 1000000.0 * (65536.0 * 65536.0);
    assert Times(x, 15625.0) == (micro * 67108864) as real;
    FloorOfQuotient(x, micro * 67108864, 15625);
    var lsw := micro * 67108864 / 15625;
    assert ToU32(x) == lsw;
    var y := lsw as real / (65536.0 * 65536.0) * 1000000.0;
    assert Times(y, 67108864.0) == (lsw * 15625) as real;
    FloorOfQuotient(y, lsw * 15625, 67108864);
    CoprimeRemainder(micro);
  }

  lemma MicrosOf(t: real)
    requires 0.0 <= t < 4294967296.0
    ensures ToU32(t) == t.Floor
    ensures var micro := ((t - t.Floor as real) * 1000000.0).Floor;
            && 0 <= micro < 1000000 && ToU32((t - t.Floor as real) * 1000000.0) == micro
            && micro as real <= (t - t.Floor as real) * 1000000.0 < micro as real + 1.0
  {
  }

  // Converting to NTP and back never gains time; it loses less than two microseconds exactly for
  // times before the NTP era ends, and from then on yields zero.
  lemma NtpRoundTrip(t: real)
    requires 0.0 <= t < 4294967296.0
    ensures FromNtp(ToNtp(t)) <= t
    ensures t - FromNtp(ToNtp(t)) < 0.000002 <==> t.Floor + NTP_OFFSET < 0x1_0000_0000
    ensures t.Floor + NTP_OFFSET >= 0x1_0000_0000 ==> FromNtp(ToNtp(t)) == 0.0
  {
    var sec := t.Floor;
    var micro := ((t - sec as real) * 1000000.0).Floor;
    MicrosOf(t);
    FractionRoundTrip(micro);
    var lsw := ToU32(micro as real / 1000000.0 * (65536.0 * 65536.0));
    assert ToNtp(t) == NtpTime(Wrap32(sec + NTP_OFFSET), lsw);
    var back := ToU32(lsw as real / (65536.0 * 65536.0) * 1000000.0);
    assert back <= micro <= back + 1;
    hide ToU32, ToNtp;
  }

  // What the two words say: seconds since 1900 and a binary fraction, the time rounded down by less
  // than a microsecond and one unit of the fraction.
  lemma NtpWordsMean(t: real)
    requires 0.0 <= t < 4294967296.0
    ensures ToNtp(t).msw == (t.Floor + 2208988800) % 0x1_0000_0000
    ensures var said := t.Floor as real + ToNtp(t).lsw as real / 4294967296.0;
            said <= t < said + 0.000001 + 1.0 / 4294967296.0
  {
    MicrosOf(t);
    var micro := ((t - t.Floor as real) * 1000000.0).Floor;
    var x := micro as real / 1000000.0 * (65536.0 * 65536.0);
    assert 0.0 <= x < 4294967296.0;
    assert ToNtp(t).lsw == x.Floor;
    hide ToNtp, ToU32;
  }

  // ----- RTP timestamps -----

  // One step of the timestamp: elapsed units rounded to the nearest integer.
  function Advance(timestamp: u32, last: real, now: real, unit: real): u32
    requires unit != 0.0
  {
    Wrap32(timestamp + ToU32((now - last) / unit + 0.5))
  }

  function AdvanceAll(timestamp: u32, last: real, times: seq<real>, unit: real): u32
    requires unit != 0.0
    decreases |times|
  {
    if times == [] then timestamp
    else AdvanceAll(Advance(timestamp, last, times[0], unit), times[0], times[1..], unit)
  }

  function LastTime(last: real, times: seq<real>): real {
    if times == [] then last else times[|times| - 1]
  }

  function Elapsed(t: real, unit: real): real
    requires unit != 0.0
  {
    t / unit
  }

  lemma OneStep(timestamp: u32, last: real, now: real, unit: real) returns (step: int)
    requires unit != 0.0
    ensures Advance(timestamp, last, now, unit) == Wrap32(timestamp + step)
    ensures Abs(step as real - Elapsed(now - last, unit)) <= 0.5
  {
    var x := (now - last) / unit;
    step := (x + 0.5).Floor;
    WrapAdd32(step, timestamp);
  }

  lemma SplitElapsed(a: real, b: real, c: real, unit: real)
    requires unit != 0.0 && c == a + b
    ensures Elapsed(c, unit) == Elapsed(a, unit) + Elapsed(b, unit)
  {
  }

  // After n steps the timestamp has advanced, modulo 2^32, by a count of ticks within n/2 of the
  // elapsed time in units: rounding errors never accumulate faster.
  lemma {:induction false} TimestampDrift(timestamp: u32, last: real, times: seq<real>, unit: real)
    returns (ticks: int)
    requires unit != 0.0
    ensures AdvanceAll(timestamp, last, times, unit) == Wrap32(timestamp + ticks)
    ensures Abs(ticks as real - Elapsed(LastTime(last, times) - last, unit)) <= |times| as real / 2.0
    decreases |times|
  {
    hide Elapsed, Advance, Wrap32;
    if times == [] {
      ticks := 0;
      SplitElapsed(0.0, 0.0, 0.0, unit);
      WrapIdentity32(timestamp);
    } else {
      var now := times[0];
      var step := OneStep(timestamp, last, now, unit);
      var later := TimestampDrift(Advance(timestamp, last, now, unit), now, times[1..], unit);
      ticks := step + later;
      WrapAdd32(timestamp + step, later);
      var end := LastTime(last, times);
      assert LastTime(now, times[1..]) == end;
      SplitElapsed(end - now, now - last, end - last, unit);
    }
  }
}
