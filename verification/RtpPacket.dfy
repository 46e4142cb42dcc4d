// A received packet object: parsed once, then renumbered by the receiver's statistics.

module RtpPackets {
  import opened Numeric
  import opened Bytes
  import opened Rtp

  class RtpPacket {
    const raw: Option<Raw>
    var hasMarker: bool
    var payloadType: int
    var csrcCount: nat
    var extension: Option<Extension>
    var extSeq: u32
    var subflowExtSeq: u32
    var subflowId: u16
    var timestamp: u32
    var ssrc: u32
    var payload: seq<u8>
    // The parser's return code; None where the parser would have read past the packet.
    var error: Option<int>

    ghost predicate Holds(f: Fields)
      reads this
    {
      && hasMarker == f.marker && payloadType == f.payloadType && csrcCount == f.csrcCount
      && extension == f.extension && subflowId == f.subflowId && subflowExtSeq == f.subflowSequence
      && extSeq == f.sequence && timestamp == f.timestamp && ssrc == f.ssrc && payload == f.payload
    }

    ghost predicate Reflects(code: Option<int>, parsed: Parsed)
      reads this
    {
      match parsed
      case Error(c) => code == Some(c)
      case Overrun => code == None
      case Ok(f) => code == Some(0) && Holds(f)
    }

    method ReadHeader(b: seq<u8>) returns (code: int)
      requires |b| >= 12
      modifies this`hasMarker, this`payloadType, this`csrcCount
      ensures code == if Value(b, 0) / 64 != 2 then -4
                      else if LooksLikeRtcp(Bit(b, 1, 128), Value(b, 1) % 128) then -5 else 0
      ensures code == 0 ==> hasMarker == Bit(b, 1, 128) && payloadType == Value(b, 1) % 128
                            && csrcCount == Value(b, 0) % 16
    {
      if Value(b, 0) / 64 != 2 {
        return -4;
      }
      hasMarker := Bit(b, 1, 128);
      payloadType := Value(b, 1) % 128;
      if hasMarker {
        if payloadType == 72 || payloadType == 73 {
          return -5;
        }
      }
      csrcCount := Value(b, 0) % 16;
      return 0;
    }

    // The extension header at `at`; the offset behind it, or None where reading leaves the packet.
    method ReadExtension(b: seq<u8>, at: nat) returns (end: Option<nat>)
      requires subflowId == 0 && subflowExtSeq == 0
      modifies this`extension, this`subflowId, this`subflowExtSeq
      ensures end.None? <==> at + 4 > |b| || (Read16(b, at) == MPRTP_EXTENSION && at + 10 > |b|)
      ensures end.Some? ==>
                var id := Read16(b, at); var mprtp := id == MPRTP_EXTENSION;
                && end.value == at + 4 + 4 * Read16(b, at + 2) as int
                && (end.value <= |b| ==> extension == Some(Extension(id, b[at + 4..end.value])))
                && subflowId == (if mprtp then Read16(b, at + 6) else 0)
                && subflowExtSeq == if mprtp then Read16(b, at + 8) else 0
    {
      if at + 4 > |b| {
        return None;
      }
      var offset := at + 4 + Read16(b, at + 2) as int * 4;
      var id := Read16(b, at);
      extension := Some(Extension(id, if offset <= |b| then b[at + 4..offset] else []));
      if id == MPRTP_EXTENSION {
        if at + 10 > |b| {
          return None;
        }
        subflowExtSeq := Read16(b, at + 8);
        subflowId := Read16(b, at + 6);
      }
      return Some(offset);
    }

    method ReadFields(b: seq<u8>, offset: nat, padBytes: nat)
      requires 12 <= offset && offset + padBytes <= |b|
      modifies this`extSeq, this`timestamp, this`ssrc, this`payload
      ensures extSeq == Read16(b, 2) && timestamp == Read32(b, 4) && ssrc == Read32(b, 8)
      ensures payload == b[offset..|b| - padBytes]
    {
      extSeq := Read16(b, 2);
      timestamp := Read32(b, 4);
      ssrc := Read32(b, 8);
      payload := b[offset..|b| - padBytes];
    }

    method ParsePacket() returns (code: Option<int>)
      requires extension == None && subflowId == 0 && subflowExtSeq == 0
      modifies this
      ensures Reflects(code, Parse(raw))
    {
      hide Bit, Read16, Read32, Value, LooksLikeRtcp;
      if raw.None? {
        return Some(-1);
      }
      var b := raw.value.data;
      if raw.value.isRtcp {
        return Some(-2);
      }
      if |b| < 12 {
        return Some(-3);
      }
      var padBytes := 0;
      var header := ReadHeader(b);
      if header != 0 {
        return Some(header);
      }
      var offset := 12 + csrcCount * 4;
      if Bit(b, 0, 32) {
        padBytes := Value(b, |b| - 1);
        if padBytes <= 0 {
          return Some(-6);
        }
      }
      if Bit(b, 0, 16) {
        var end := ReadExtension(b, offset);
        if end.None? {
          return None;
        }
        offset := end.value;
      }
      if |b| - padBytes - offset < 0 {
        return Some(-7);
      }
      ReadFields(b, offset, padBytes);
      return Some(0);
    }

    constructor (raw: Option<Raw>)
      ensures this.raw == raw
      ensures Reflects(error, Parse(raw))
    {
      this.raw := raw;
      hasMarker, payloadType, csrcCount, extension := false, 0, 0, None;
      extSeq, subflowExtSeq, subflowId, timestamp, ssrc, payload := 0, 0, 0, 0, 0, [];
      error := Some(0);
      new;
      error := ParsePacket();
    }
  }
}
