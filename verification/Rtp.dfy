// RTP data packets: the general format of RFC 3550, section 5.1, as parse_packet reads it, and the
// MPRTP header extension (section 4.2 of RFC 5285 for its identifier).

module Rtp {
  import opened Numeric
  import opened Bytes

  const MPRTP_EXTENSION := 0xBEDE

  datatype Extension = Extension(id: u16, data: seq<u8>)

  datatype Packet = Packet(
    marker: bool,
    payloadType: u8,
    csrcs: seq<u32>,
    extension: Option<Extension>,
    sequence: u16,
    timestamp: u32,
    ssrc: u32,
    payload: seq<u8>,
    padding: u8)

  predicate WellFormed(p: Packet) {
    && p.payloadType < 128
    && |p.csrcs| < 16
    && (p.extension.Some? ==>
          && |p.extension.value.data| % 4 == 0
          && |p.extension.value.data| < 4 * 0x1_0000
          && (p.extension.value.id == MPRTP_EXTENSION ==> |p.extension.value.data| >= 8))
  }

  // Marker and payload type together would read as an RTCP sender or receiver report.
  predicate LooksLikeRtcp(marker: bool, payloadType: int) {
    marker && (payloadType == 72 || payloadType == 73)
  }

  function Flag(b: bool, weight: u8): u8 {
    if b then weight else 0
  }

  function FirstByte(p: Packet): int
    requires WellFormed(p)
  {
    0x80 + Flag(p.padding > 0, 0x20) as int + Flag(p.extension.Some?, 0x10) as int + |p.csrcs|
  }

  function EncodeFixed(p: Packet): (b: seq<u8>)
    requires WellFormed(p)
    ensures |b| == 12 + 4 * |p.csrcs|
  {
    [FirstByte(p), Flag(p.marker, 0x80) as int + p.payloadType] + Be16(p.sequence)
    + EncodeWords([p.timestamp, p.ssrc] + p.csrcs)
  }

  function EncodeExtension(e: Option<Extension>): (b: seq<u8>)
    requires e.Some? ==> |e.value.data| < 4 * 0x1_0000
    ensures |b| == if e.None? then 0 else 4 + |e.value.data|
  {
    if e.None? then [] else Be16(e.value.id) + Be16(|e.value.data| / 4) + e.value.data
  }

  function EncodePadding(n: u8): (b: seq<u8>)
    ensures |b| == n && (n > 0 ==> b[n - 1] == n)
  {
    if n == 0 then [] else seq(n - 1, _ => 0) + [n]
  }

  function Encode(p: Packet): seq<u8>
    requires WellFormed(p)
  {
    EncodeFixed(p) + EncodeExtension(p.extension) + p.payload + EncodePadding(p.padding)
  }

  // ----- parsing -----

  datatype Raw = Raw(data: seq<u8>, isRtcp: bool, recvTime: real)

  datatype Fields = Fields(
    marker: bool,
    payloadType: int,
    csrcCount: nat,
    extension: Option<Extension>,
    subflowId: u16,
    subflowSequence: u16,
    sequence: u16,
    timestamp: u32,
    ssrc: u32,
    payload: seq<u8>)

  // Error codes are those of the C++. It checks the extension against the packet length only after
  // reading it; a read past the end is undefined there and Overrun here.
  datatype Parsed = Error(code: int) | Overrun | Ok(fields: Fields)

  function Bit(b: seq<u8>, at: nat, weight: int): bool
    requires at < |b| && weight > 0
  {
    Value(b, at) / weight % 2 == 1
  }

  function PaddingOf(b: seq<u8>): int
    requires |b| > 0
  {
    if Bit(b, 0, 32) then Value(b, |b| - 1) else 0
  }

  function FixedLength(b: seq<u8>): nat
    requires |b| > 0
  {
    12 + 4 * (Value(b, 0) % 16)
  }

  function Finish(b: seq<u8>, end: nat, extension: Option<Extension>, subflowId: u16, subflowSequence: u16): Fields
    requires 12 <= end <= |b| && end + PaddingOf(b) <= |b|
  {
    Fields(Bit(b, 1, 128), Value(b, 1) % 128, Value(b, 0) % 16, extension, subflowId, subflowSequence,
           Read16(b, 2), Read32(b, 4), Read32(b, 8), b[end..|b| - PaddingOf(b)])
  }

  function Parse(raw: Option<Raw>): Parsed {
    if raw.None? then Error(-1)
    else if raw.value.isRtcp then Error(-2)
    else if |raw.value.data| < 12 then Error(-3)
    else
      var b := raw.value.data;
      var at := FixedLength(b);
      if Value(b, 0) / 64 != 2 then Error(-4)
      else if LooksLikeRtcp(Bit(b, 1, 128), Value(b, 1) % 128) then Error(-5)
      else if Bit(b, 0, 32) && PaddingOf(b) == 0 then Error(-6)
      else if !Bit(b, 0, 16) then
        if |b| - PaddingOf(b) - at < 0 then Error(-7) else Ok(Finish(b, at, None, 0, 0))
      else if at + 4 > |b| then Overrun
      else
        var id := Read16(b, at);
        var end := at + 4 + 4 * Read16(b, at + 2) as int;
        if id == MPRTP_EXTENSION && at + 10 > |b| then Overrun
        else if |b| - PaddingOf(b) - end < 0 then Error(-7)
        else
          var mprtp := id == MPRTP_EXTENSION;
          Ok(Finish(b, end, Some(Extension(id, b[at + 4..end])),
                    if mprtp then Read16(b, at + 6) else 0, if mprtp then Read16(b, at + 8) else 0))
  }

  function Csrc(b: seq<u8>, i: nat): u32
    requires 16 + 4 * i <= |b|
  {
    Read32(b, 12 + 4 * i)
  }

  // The length a successful parse attributes to everything before the payload.
  function HeaderLength(f: Fields): nat {
    12 + 4 * f.csrcCount + if f.extension.Some? then 4 + |f.extension.value.data| else 0
  }

  // Header, payload and padding tile every packet that parses.
  lemma PartsTilePacket(raw: Raw)
    requires Parse(Some(raw)).Ok?
    ensures var f := Parse(Some(raw)).fields; var b := raw.data;
            && |b| > 0
            && HeaderLength(f) + |f.payload| + PaddingOf(b) == |b|
            && b[HeaderLength(f)..|b| - PaddingOf(b)] == f.payload
            && (f.extension.Some? ==>
                  b[HeaderLength(f) - |f.extension.value.data|..HeaderLength(f)] == f.extension.value.data)
  {
  }

  function FieldsOf(p: Packet): Fields
    requires WellFormed(p)
  {
    var mprtp := p.extension.Some? && p.extension.value.id == MPRTP_EXTENSION;
    Fields(p.marker, p.payloadType, |p.csrcs|, p.extension,
           if mprtp then Read16(p.extension.value.data, 2) else 0,
           if mprtp then Read16(p.extension.value.data, 4) else 0,
           p.sequence, p.timestamp, p.ssrc, p.payload)
  }

  lemma FirstBytes(p: Packet, b: seq<u8>)
    requires WellFormed(p) && |b| >= 2 && b[0] == FirstByte(p) && b[1] == Flag(p.marker, 0x80) as int + p.payloadType
    ensures Value(b, 0) / 64 == 2 && Value(b, 0) % 16 == |p.csrcs|
    ensures Bit(b, 0, 32) == (p.padding > 0) && Bit(b, 0, 16) == p.extension.Some?
    ensures Bit(b, 1, 128) == p.marker && Value(b, 1) % 128 == p.payloadType
    ensures (p.padding > 0 ==> b[|b| - 1] == p.padding) ==> PaddingOf(b) == p.padding
  {
  }

  lemma FixedFields(p: Packet, rest: seq<u8>)
    requires WellFormed(p)
    ensures var b := EncodeFixed(p) + rest;
            && Read16(b, 2) == p.sequence && Read32(b, 4) == p.timestamp && Read32(b, 8) == p.ssrc
            && forall i :: 0 <= i < |p.csrcs| ==> Csrc(b, i) == p.csrcs[i]
  {
    hide EncodeWords, Read32, Be16;
    var b := EncodeFixed(p) + rest;
    var words := [p.timestamp, p.ssrc] + p.csrcs;
    assert b[2..4] == Be16(p.sequence);
    ReadBe16(b, 2, p.sequence);
    assert b[4..4 + 4 * |words|] == EncodeWords(words);
    ReadWord(b, 4, words, 0);
    ReadWord(b, 4, words, 1);
    forall i | 0 <= i < |p.csrcs| ensures Csrc(b, i) == p.csrcs[i] {
      ReadWord(b, 4, words, i + 2);
    }
  }

  lemma ExtensionFields(b: seq<u8>, at: nat, e: Extension)
    requires |e.data| < 4 * 0x1_0000 && |e.data| % 4 == 0
    requires at + 4 + |e.data| <= |b| && b[at..at + 4 + |e.data|] == EncodeExtension(Some(e))
    ensures Read16(b, at) == e.id && 4 * Read16(b, at + 2) as int == |e.data|
    ensures b[at + 4..at + 4 + |e.data|] == e.data
    ensures |e.data| >= 8 ==> Read16(b, at + 6) == Read16(e.data, 2) && Read16(b, at + 8) == Read16(e.data, 4)
  {
    var x := b[at..at + 4 + |e.data|];
    SliceSlice(b, at, at + 4 + |e.data|, 0, 2);
    SliceSlice(b, at, at + 4 + |e.data|, 2, 4);
    ReadBe16(b, at, e.id);
    ReadBe16(b, at + 2, |e.data| / 4);
    SliceSlice(b, at, at + 4 + |e.data|, 4, 4 + |e.data|);
    var data := b[at + 4..at + 4 + |e.data|];
    assert data == e.data;
    if |e.data| >= 8 {
      assert data[2] == b[at + 6] && data[3] == b[at + 7] && data[4] == b[at + 8] && data[5] == b[at + 9];
    }
  }

  // The pieces of an encoded packet.
  lemma Layout(p: Packet)
    requires WellFormed(p)
    ensures var b := Encode(p); var at := 12 + 4 * |p.csrcs|; var end := at + |EncodeExtension(p.extension)|;
            && |b| == end + |p.payload| + p.padding
            && b[0] == FirstByte(p) && b[1] == Flag(p.marker, 0x80) as int + p.payloadType
            && b[at..end] == EncodeExtension(p.extension)
            && b[end..|b| - p.padding] == p.payload
            && (p.padding > 0 ==> b[|b| - 1] == p.padding)
  {
    hide EncodeExtension, EncodePadding, EncodeWords;
  }

  // The facts about the bytes that determine the result of parsing them.
  ghost predicate Represents(p: Packet, b: seq<u8>)
    requires WellFormed(p)
  {
    var at := 12 + 4 * |p.csrcs|;
    var end := at + |EncodeExtension(p.extension)|;
    && |b| == end + |p.payload| + p.padding
    && Value(b, 0) / 64 == 2 && Value(b, 0) % 16 == |p.csrcs|
    && Bit(b, 0, 32) == (p.padding > 0) && Bit(b, 0, 16) == p.extension.Some?
    && Bit(b, 1, 128) == p.marker && Value(b, 1) % 128 == p.payloadType
    && PaddingOf(b) == p.padding
    && Read16(b, 2) == p.sequence && Read32(b, 4) == p.timestamp && Read32(b, 8) == p.ssrc
    && b[end..|b| - p.padding] == p.payload
    && (p.extension.Some? ==>
          var e := p.extension.value;
          && Read16(b, at) == e.id && 4 * Read16(b, at + 2) as int == |e.data|
          && b[at + 4..end] == e.data
          && (|e.data| >= 8 ==> Read16(b, at + 6) == Read16(e.data, 2) && Read16(b, at + 8) == Read16(e.data, 4)))
  }

  function AfterFixed(p: Packet): seq<u8>
    requires WellFormed(p)
  {
    EncodeExtension(p.extension) + (p.payload + EncodePadding(p.padding))
  }

  lemma FixedFirst(p: Packet)
    requires WellFormed(p)
    ensures Encode(p) == EncodeFixed(p) + AfterFixed(p)
  {
    hide EncodeFixed, EncodeExtension, EncodePadding;
    Regroup(EncodeFixed(p), EncodeExtension(p.extension), p.payload);
    Regroup(EncodeFixed(p), EncodeExtension(p.extension) + p.payload, EncodePadding(p.padding));
    Regroup(EncodeExtension(p.extension), p.payload, EncodePadding(p.padding));
  }

  lemma EncodingRepresents(p: Packet)
    requires WellFormed(p)
    ensures Represents(p, Encode(p))
    ensures forall i :: 0 <= i < |p.csrcs| ==> 16 + 4 * i <= |Encode(p)| && Csrc(Encode(p), i) == p.csrcs[i]
  {
    hide Encode, EncodeFixed, EncodeExtension, EncodePadding, FirstByte, Bit, Read16, Read32, PaddingOf, Value, Csrc;
    var b := Encode(p);
    Layout(p);
    FirstBytes(p, b);
    FixedFields(p, AfterFixed(p));
    FixedFirst(p);
    if p.extension.Some? {
      ExtensionFields(b, 12 + 4 * |p.csrcs|, p.extension.value);
    }
  }

  lemma RepresentedParses(p: Packet, b: seq<u8>, recvTime: real)
    requires WellFormed(p) && Represents(p, b)
    ensures Parse(Some(Raw(b, false, recvTime)))
              == if LooksLikeRtcp(p.marker, p.payloadType) then Error(-5) else Ok(FieldsOf(p))
  {
    hide Bit, Read16, Read32, LooksLikeRtcp, PaddingOf, Value;
  }

  // Every well-formed packet, with any CSRCs, extension and padding, parses back to its fields,
  // unless its marker and payload type imitate RTCP, which is rejected.
  lemma RtpRoundTrip(p: Packet, recvTime: real)
    requires WellFormed(p)
    ensures Parse(Some(Raw(Encode(p), false, recvTime)))
              == if LooksLikeRtcp(p.marker, p.payloadType) then Error(-5) else Ok(FieldsOf(p))
    ensures forall i :: 0 <= i < |p.csrcs| ==> 16 + 4 * i <= |Encode(p)| && Csrc(Encode(p), i) == p.csrcs[i]
  {
    hide Represents, Parse, Encode, Csrc;
    EncodingRepresents(p);
    RepresentedParses(p, Encode(p), recvTime);
  }

  // ----- the layout of RFC 3550, sections 5.1 and 5.3.1 -----

  // Where a packet that parses keeps its fixed fields.
  lemma FixedLayout(b: seq<u8>, recvTime: real)
    requires Parse(Some(Raw(b, false, recvTime))).Ok?
    ensures |b| >= 12
    ensures var f := Parse(Some(Raw(b, false, recvTime))).fields;
            && f.marker == (Number(b, 1, 1) >= 128) && f.payloadType == Number(b, 1, 1) % 128
            && f.csrcCount == Number(b, 0, 1) % 16
            && (f.extension.Some? <==> Number(b, 0, 1) / 16 % 2 == 1)
            && f.sequence == Number(b, 2, 2) && f.timestamp == Number(b, 4, 4) && f.ssrc == Number(b, 8, 4)
  {
    assert Number(b, 0, 1) == Number(b, 0, 0) * 256 + Value(b, 0);
    assert Number(b, 1, 1) == Number(b, 1, 0) * 256 + Value(b, 1);
    hide Number, Read16, Read32, PaddingOf;
    ReadsNumbers(b, 2);
    ReadsNumbers(b, 4);
    ReadsNumbers(b, 8);
  }

  // And its extension, behind the CSRCs: the identifier, the length in words, and in an MPRTP
  // extension the subflow's id and sequence number.
  lemma ExtensionLayout(b: seq<u8>, recvTime: real)
    requires Parse(Some(Raw(b, false, recvTime))).Ok?
    ensures var f := Parse(Some(Raw(b, false, recvTime))).fields; var at := 12 + 4 * f.csrcCount;
            if f.extension.None? then f.subflowId == 0 == f.subflowSequence
            else
              var e := f.extension.value;
              && at + 4 <= |b| && e.id == Number(b, at, 2) && |e.data| == 4 * Number(b, at + 2, 2)
              && if e.id == 0xBEDE
                 then at + 10 <= |b| && f.subflowId == Number(b, at + 6, 2) && f.subflowSequence == Number(b, at + 8, 2)
                 else f.subflowId == 0 == f.subflowSequence
  {
    assert PaddingOf(b) >= 0;
    hide Number, Read16, Read32, PaddingOf;
    var at := FixedLength(b);
    ReadsNumbers(b, at);
    ReadsNumbers(b, at + 2);
    ReadsNumbers(b, at + 6);
    ReadsNumbers(b, at + 8);
  }

  // The parser's verdict without an extension: the first of these that applies. RTCP traffic, fewer
  // than twelve octets, a version other than two, marker and type of an RTCP report, padding of
  // length zero, padding that does not fit.
  lemma VerdictPlain(raw: Raw)
    requires |raw.data| >= 12 ==> Number(raw.data, 0, 1) / 16 % 2 == 0
    ensures var b := raw.data;
            var padded := |b| >= 12 && Number(b, 0, 1) / 32 % 2 == 1;
            var padding := if padded then Number(b, |b| - 1, 1) else 0;
            Parse(Some(raw)) ==
            if raw.isRtcp then Error(-2)
            else if |b| < 12 then Error(-3)
            else if Number(b, 0, 1) / 64 != 2 then Error(-4)
            else if Number(b, 1, 1) in [200, 201] then Error(-5)
            else if padded && padding == 0 then Error(-6)
            else if 12 + 4 * (Number(b, 0, 1) % 16) + padding > |b| then Error(-7)
            else Parse(Some(raw))
    ensures Parse(None) == Error(-1)
    ensures !Parse(Some(raw)).Overrun?
  {
    var b := raw.data;
    if |b| >= 12 {
      assert Number(b, 0, 1) == Number(b, 0, 0) * 256 + Value(b, 0);
      assert Number(b, 1, 1) == Number(b, 1, 0) * 256 + Value(b, 1);
      assert Number(b, |b| - 1, 1) == Number(b, |b| - 1, 0) * 256 + Value(b, |b| - 1);
    }
    hide Number, Read16, Read32;
  }

  // ----- the packets send_data writes -----

  function MprtpExtension(subflowId: u16, subflowSequence: u16): (e: Extension)
    ensures |e.data| == 8
  {
    Extension(MPRTP_EXTENSION, [4, 4] + Be16(subflowId) + Be16(subflowSequence) + [0, 0])
  }

  function DataPacket(sequence: u16, timestamp: u32, ssrc: u32, subflowId: u16, subflowSequence: u16,
                      payload: seq<u8>): (p: Packet)
    ensures WellFormed(p)
  {
    Packet(false, 0, [], Some(MprtpExtension(subflowId, subflowSequence)), sequence, timestamp, ssrc, payload, 0)
  }

  // Whatever the payload, the receiver reads back what the sender wrote.
  lemma DataRoundTrip(sequence: u16, timestamp: u32, ssrc: u32, subflowId: u16, subflowSequence: u16,
                      payload: seq<u8>, recvTime: real)
    ensures var b := Encode(DataPacket(sequence, timestamp, ssrc, subflowId, subflowSequence, payload));
            && |b| == 24 + |payload|
            && Parse(Some(Raw(b, false, recvTime)))
                 == Ok(Fields(false, 0, 0, Some(MprtpExtension(subflowId, subflowSequence)), subflowId,
                              subflowSequence, sequence, timestamp, ssrc, payload))
  {
    var p := DataPacket(sequence, timestamp, ssrc, subflowId, subflowSequence, payload);
    RtpRoundTrip(p, recvTime);
    Layout(p);
    var data := p.extension.value.data;
    assert data[2..4] == Be16(subflowId) && data[4..6] == Be16(subflowSequence);
    ReadBe16(data, 2, subflowId);
    ReadBe16(data, 4, subflowSequence);
  }

  lemma MprtpOctets(x: seq<u8>, subflowId: u16, subflowSequence: u16)
    requires x == EncodeExtension(Some(MprtpExtension(subflowId, subflowSequence)))
    ensures |x| == 12
    ensures x[..6] == [0xBE, 0xDE, 0, 2, 4, 4] && x[10..] == [0, 0]
    ensures Number(x, 6, 2) == subflowId && Number(x, 8, 2) == subflowSequence
  {
    assert x[6..8] == Be16(subflowId) && x[8..10] == Be16(subflowSequence);
    ReadBe16(x, 6, subflowId);
    ReadBe16(x, 8, subflowSequence);
    ReadsNumbers(x, 6);
    ReadsNumbers(x, 8);
  }

  // Every octet of a data packet.
  lemma DataLayout(sequence: u16, timestamp: u32, ssrc: u32, subflowId: u16, subflowSequence: u16, payload: seq<u8>)
    ensures var b := Encode(DataPacket(sequence, timestamp, ssrc, subflowId, subflowSequence, payload));
            && |b| == 24 + |payload|
            && b[0] == 0x90 && b[1] == 0 && Number(b, 2, 2) == sequence
            && Number(b, 4, 4) == timestamp && Number(b, 8, 4) == ssrc
            && b[12..18] == [0xBE, 0xDE, 0, 2, 4, 4]
            && Number(b[12..], 6, 2) == subflowId && Number(b[12..], 8, 2) == subflowSequence
            && b[22..24] == [0, 0] && b[24..] == payload
  {
    var p := DataPacket(sequence, timestamp, ssrc, subflowId, subflowSequence, payload);
    Layout(p);
    FixedFirst(p);
    FixedFields(p, AfterFixed(p));
    hide Number, Encode, EncodeFixed, EncodeExtension, Read16, Read32, MprtpExtension, AfterFixed;
    var b := Encode(p);
    var x := b[12..24];
    MprtpOctets(x, subflowId, subflowSequence);
    assert b[12..18] == x[..6] && b[22..24] == x[10..];
    assert b[12..] == x + payload;
    NumberIn(x, payload, 6, 2);
    NumberIn(x, payload, 8, 2);
    ReadsNumbers(b, 2);
    ReadsNumbers(b, 4);
    ReadsNumbers(b, 8);
  }
}
