// RTCP and MPRTCP packets: what the builders write and what walking the bytes delivers.

module Rtcp {
  import opened Numeric
  import opened Bytes
  import opened Reports

  const TYPE_SR := 200
  const TYPE_RR := 201
  const TYPE_MPRTP := 211
  const BLOCK_SUBFLOW := 0

  // ----- encoding -----

  function Header(count: nat, packetType: u8, length: int): seq<u8>
    requires count < 32 && 0 <= length < 0x1_0000
  {
    [0x80 + count, packetType] + Be16(length)
  }

  function EncodeRr(r: ReceiverReport): (b: seq<u8>)
    ensures |b| == 24
  {
    Be32(r.ssrc) + [r.fractionLost] + Be24(r.packetsLost % 0x100_0000)
    + EncodeWords([r.extHighSeq, r.jitter, r.lsr, r.dlsr])
  }

  function EncodeRrs(rs: seq<ReceiverReport>): (b: seq<u8>)
    ensures |b| == 24 * |rs|
  {
    if rs == [] then [] else EncodeRr(rs[0]) + EncodeRrs(rs[1..])
  }

  function SenderInfo(sr: SenderReport): (ws: seq<u32>)
    ensures |ws| == 6
  {
    [sr.ssrc, sr.ntpMsw, sr.ntpLsw, sr.rtpTimestamp, sr.packetCount, sr.octetCount]
  }

  function EncodeSrPacket(sr: SenderReport): (b: seq<u8>)
    requires |sr.blocks| < 32
    ensures |b| == 28 + 24 * |sr.blocks|
  {
    Header(|sr.blocks|, TYPE_SR, 6 + 6 * |sr.blocks|) + EncodeWords(SenderInfo(sr)) + EncodeRrs(sr.blocks)
  }

  function EncodeRrPacket(sender: u32, rs: seq<ReceiverReport>): (b: seq<u8>)
    requires |rs| < 32
    ensures |b| == 8 + 24 * |rs|
  {
    Header(|rs|, TYPE_RR, 1 + 6 * |rs|) + Be32(sender) + EncodeRrs(rs)
  }

  // A report handed to the session's callbacks, with the subflow it is about (0: the whole stream).
  datatype Delivery =
    | SrDelivery(id: u16, sr: SenderReport)
    | RrDelivery(id: u16, sender: u32, rr: ReceiverReport)

  predicate Encodable(d: Delivery) {
    d.SrDelivery? ==> |d.sr.blocks| < 32
  }

  function ReportWords(d: Delivery): nat {
    if d.SrDelivery? then 7 + 6 * |d.sr.blocks| else 8
  }

  function EncodeReport(d: Delivery): (b: seq<u8>)
    requires Encodable(d)
    ensures |b| == 4 * ReportWords(d)
  {
    match d
    case SrDelivery(_, sr) => EncodeSrPacket(sr)
    case RrDelivery(_, sender, rr) => EncodeRrPacket(sender, [rr])
  }

  // A block counts its own words, header included, in one byte.
  function EncodeBlock(d: Delivery): (b: seq<u8>)
    requires Encodable(d)
    ensures |b| == 4 * (1 + ReportWords(d))
  {
    [BLOCK_SUBFLOW, 1 + ReportWords(d)] + Be16(d.id) + EncodeReport(d)
  }

  predicate AllEncodable(ds: seq<Delivery>) {
    forall i :: 0 <= i < |ds| ==> Encodable(ds[i])
  }

  function BlocksWords(ds: seq<Delivery>): nat {
    if ds == [] then 0 else 1 + ReportWords(ds[0]) + BlocksWords(ds[1..])
  }

  function EncodeBlocks(ds: seq<Delivery>): (b: seq<u8>)
    requires AllEncodable(ds)
    ensures |b| == 4 * BlocksWords(ds)
  {
    if ds == [] then [] else EncodeBlock(ds[0]) + EncodeBlocks(ds[1..])
  }

  predicate Fits(ds: seq<Delivery>) {
    AllEncodable(ds) && 3 + BlocksWords(ds) <= 0x1_0000
  }

  // An MPRTCP packet: its length field holds its words minus one.
  function EncodeMprtcp(ssrc: u32, source: u32, ds: seq<Delivery>): (b: seq<u8>)
    requires Fits(ds)
    ensures |b| == 4 * (3 + BlocksWords(ds))
  {
    Header(0, TYPE_MPRTP, 2 + BlocksWords(ds)) + Be32(ssrc) + Be32(source) + EncodeBlocks(ds)
  }

  // ----- decoding -----

  function DecodeRr(b: seq<u8>): ReceiverReport
    requires |b| >= 24
  {
    ReceiverReport(Read32(b, 0), b[4], Read24(b, 5), Read32(b, 8), Read32(b, 12), Read32(b, 16), Read32(b, 20))
  }

  function DecodeRrs(b: seq<u8>, n: nat): (rs: seq<ReceiverReport>)
    requires |b| >= 24 * n
    ensures |rs| == n
  {
    if n == 0 then [] else [DecodeRr(b)] + DecodeRrs(b[24..], n - 1)
  }

  function Count(b: seq<u8>): nat
    requires |b| > 0
  {
    Value(b, 0) % 32
  }

  function DecodeSr(b: seq<u8>): SenderReport
    requires |b| >= 28 && |b| >= 28 + 24 * Count(b)
  {
    SenderReport(Read32(b, 4), Read32(b, 8), Read32(b, 12), Read32(b, 16), Read32(b, 20), Read32(b, 24),
                 DecodeRrs(b[28..], Count(b)))
  }

  // What a walk hands over and how it ends. The C++ checks no bounds: a read past the packet is
  // undefined there and ends the walk here as Overrun. A block of length zero is processed again
  // and again without end, which is Stuck.
  datatype Outcome = Done | Stuck | Overrun
  datatype Walk = Walk(deliveries: seq<Delivery>, outcome: Outcome)

  function From(b: seq<u8>, at: nat): seq<u8> {
    if at <= |b| then b[at..] else []
  }

  function SrAt(b: seq<u8>, id: u16): Option<seq<Delivery>>
    requires |b| > 0
  {
    if |b| < 28 + 24 * Count(b) then None else Some([SrDelivery(id, DecodeSr(b))])
  }

  // The loop over the report blocks never advances its pointer: the first block is delivered
  // `count` times.
  function RrAt(b: seq<u8>, id: u16): Option<seq<Delivery>>
    requires |b| > 0
  {
    var count := Count(b);
    if count == 0 then Some([])
    else if |b| < 32 then None
    else Some(seq(count, _ => RrDelivery(id, Read32(b, 4), DecodeRr(b[8..]))))
  }

  function BlockDeliveries(b: seq<u8>): Option<seq<Delivery>>
    requires |b| >= 2
  {
    if b[0] != BLOCK_SUBFLOW then Some([])
    else if |b| < 6 then None
    else if b[5] == TYPE_SR then SrAt(b[4..], Read16(b, 2))
    else if b[5] == TYPE_RR then RrAt(b[4..], Read16(b, 2))
    else Some([])
  }

  // Walking the blocks at b, of which `left` bytes belong to the packet.
  function WalkBlocks(b: seq<u8>, left: int): Walk
    decreases left
  {
    if left <= 0 then Walk([], Done)
    else if |b| < 2 then Walk([], Overrun)
    else
      var ds := BlockDeliveries(b);
      if ds.None? then Walk([], Overrun)
      else if b[1] == 0 then Walk(ds.value, Stuck)
      else
        var rest := WalkBlocks(From(b, 4 * Value(b, 1)), left - 4 * Value(b, 1));
        Walk(ds.value + rest.deliveries, rest.outcome)
  }

  function PacketLength(b: seq<u8>): nat
    requires |b| >= 4
  {
    (Read16(b, 2) + 1) * 4
  }

  function WalkPacket(b: seq<u8>): Walk
    requires |b| >= 4
  {
    if b[1] == TYPE_MPRTP then WalkBlocks(From(b, 12), PacketLength(b) - 12)
    else
      var ds := if b[1] == TYPE_SR then SrAt(b, 0) else if b[1] == TYPE_RR then RrAt(b, 0) else Some([]);
      if ds.None? then Walk([], Overrun) else Walk(ds.value, Done)
  }

  function WalkCompound(b: seq<u8>): Walk
    decreases |b|
  {
    if b == [] then Walk([], Done)
    else if |b| < 4 then Walk([], Overrun)
    else
      var first := WalkPacket(b);
      if first.outcome != Done then first
      else
        var rest := WalkCompound(From(b, PacketLength(b)));
        Walk(first.deliveries + rest.deliveries, rest.outcome)
  }

  // ----- round trips -----

  // Cumulative loss travels in 24 bits.
  function OnWire(r: ReceiverReport): ReceiverReport {
    r.(packetsLost := r.packetsLost % 0x100_0000)
  }

  function AllOnWire(rs: seq<ReceiverReport>): (ws: seq<ReceiverReport>)
    ensures |ws| == |rs| && forall i :: 0 <= i < |rs| ==> ws[i] == OnWire(rs[i])
  {
    if rs == [] then [] else [OnWire(rs[0])] + AllOnWire(rs[1..])
  }

  function Arrived(d: Delivery): Delivery {
    match d
    case SrDelivery(id, sr) => SrDelivery(id, sr.(blocks := AllOnWire(sr.blocks)))
    case RrDelivery(id, sender, rr) => RrDelivery(id, sender, OnWire(rr))
  }

  function AllArrived(ds: seq<Delivery>): (r: seq<Delivery>)
    ensures |r| == |ds| && forall i :: 0 <= i < |ds| ==> r[i] == Arrived(ds[i])
  {
    if ds == [] then [] else [Arrived(ds[0])] + AllArrived(ds[1..])
  }

  lemma RrRoundTrip(r: ReceiverReport, post: seq<u8>)
    ensures DecodeRr(EncodeRr(r) + post) == OnWire(r)
  {
    var b := EncodeRr(r) + post;
    var tail := [r.extHighSeq, r.jitter, r.lsr, r.dlsr];
    assert b[0..4] == Be32(r.ssrc) && b[4] == r.fractionLost;
    assert b[5..8] == Be24(r.packetsLost % 0x100_0000);
    assert b[8..24] == EncodeWords(tail);
    ReadBe32(b, 0, r.ssrc);
    ReadBe24(b, 5, r.packetsLost % 0x100_0000);
    ReadWord(b, 8, tail, 0);
    ReadWord(b, 8, tail, 1);
    ReadWord(b, 8, tail, 2);
    ReadWord(b, 8, tail, 3);
  }

  lemma {:induction false} RrsRoundTrip(rs: seq<ReceiverReport>, post: seq<u8>)
    ensures DecodeRrs(EncodeRrs(rs) + post, |rs|) == AllOnWire(rs)
  {
    if rs != [] {
      hide EncodeRr, DecodeRr, OnWire;
      var b := EncodeRrs(rs) + post;
      var rest := EncodeRrs(rs[1..]) + post;
      Regroup(EncodeRr(rs[0]), EncodeRrs(rs[1..]), post);
      DropPrefix(EncodeRr(rs[0]), rest);
      assert b == EncodeRr(rs[0]) + rest;
      RrRoundTrip(rs[0], rest);
      RrsRoundTrip(rs[1..], post);
    }
  }

  lemma ReadSenderInfo(b: seq<u8>, sr: SenderReport)
    requires |b| >= 28 && b[4..28] == EncodeWords(SenderInfo(sr))
    ensures Read32(b, 4) == sr.ssrc && Read32(b, 8) == sr.ntpMsw && Read32(b, 12) == sr.ntpLsw
    ensures Read32(b, 16) == sr.rtpTimestamp && Read32(b, 20) == sr.packetCount && Read32(b, 24) == sr.octetCount
  {
    hide EncodeWords, Read32;
    var ws := SenderInfo(sr);
    ReadWord(b, 4, ws, 0);
    ReadWord(b, 4, ws, 1);
    ReadWord(b, 4, ws, 2);
    ReadWord(b, 4, ws, 3);
    ReadWord(b, 4, ws, 4);
    ReadWord(b, 4, ws, 5);
  }

  lemma SrRoundTrip(sr: SenderReport, post: seq<u8>, id: u16)
    requires |sr.blocks| < 32
    ensures SrAt(EncodeSrPacket(sr) + post, id) == Some([Arrived(SrDelivery(id, sr))])
  {
    hide EncodeWords, EncodeRrs, DecodeRrs, Read32, SenderInfo;
    var b := EncodeSrPacket(sr) + post;
    assert b[0] == 0x80 + |sr.blocks|;
    assert b[4..28] == EncodeWords(SenderInfo(sr));
    ReadSenderInfo(b, sr);
    assert b[28..] == EncodeRrs(sr.blocks) + post;
    RrsRoundTrip(sr.blocks, post);
  }

  // What a receiver report packet with any number of blocks delivers: its first block, once for
  // each block it carries.
  lemma RrPacketDelivers(sender: u32, rs: seq<ReceiverReport>, post: seq<u8>, id: u16)
    requires 0 < |rs| < 32
    ensures RrAt(EncodeRrPacket(sender, rs) + post, id)
              == Some(seq(|rs|, _ => RrDelivery(id, sender, OnWire(rs[0]))))
  {
    hide EncodeRr, DecodeRr, OnWire, Be32, Read32;
    var b := EncodeRrPacket(sender, rs) + post;
    assert b[0] == 0x80 + |rs| && b[4..8] == Be32(sender);
    ReadBe32(b, 4, sender);
    assert b[8..] == EncodeRr(rs[0]) + (EncodeRrs(rs[1..]) + post);
    RrRoundTrip(rs[0], EncodeRrs(rs[1..]) + post);
  }

  // So a packet is delivered as sent exactly when all its blocks are alike on the wire, which one
  // block alone always is.
  lemma RrPacketFaithfulExactly(sender: u32, rs: seq<ReceiverReport>, post: seq<u8>, id: u16)
    requires 0 < |rs| < 32
    ensures RrAt(EncodeRrPacket(sender, rs) + post, id)
              == Some(seq(|rs|, i requires 0 <= i < |rs| => RrDelivery(id, sender, OnWire(rs[i]))))
            <==> forall i :: 0 <= i < |rs| ==> OnWire(rs[i]) == OnWire(rs[0])
  {
    RrPacketDelivers(sender, rs, post, id);
    var got := seq(|rs|, _ => RrDelivery(id, sender, OnWire(rs[0])));
    var sent := seq(|rs|, i requires 0 <= i < |rs| => RrDelivery(id, sender, OnWire(rs[i])));
    if got == sent {
      forall i | 0 <= i < |rs| ensures OnWire(rs[i]) == OnWire(rs[0]) {
        assert got[i] == sent[i];
      }
    }
  }

  lemma SingleDelivery(d: Delivery)
    requires d.RrDelivery?
    ensures seq(1, _ => RrDelivery(d.id, d.sender, OnWire(d.rr))) == [Arrived(d)]
  {
  }

  // What a block at the start of b delivers depends on its report alone.
  lemma ReportDelivers(d: Delivery, post: seq<u8>)
    requires Encodable(d)
    ensures var b := EncodeReport(d) + post;
            && (d.SrDelivery? ==> b[1] == TYPE_SR && SrAt(b, d.id) == Some([Arrived(d)]))
            && (d.RrDelivery? ==> b[1] == TYPE_RR && RrAt(b, d.id) == Some([Arrived(d)]))
            && PacketLength(b) == |EncodeReport(d)|
  {
    hide EncodeWords, EncodeRrs, SrAt, RrAt, Arrived;
    var b := EncodeReport(d) + post;
    match d
    case SrDelivery(id, sr) =>
      assert b[2..4] == Be16(6 + 6 * |sr.blocks|);
      ReadBe16(b, 2, 6 + 6 * |sr.blocks|);
      SrRoundTrip(sr, post, id);
    case RrDelivery(id, sender, rr) =>
      assert b[2..4] == Be16(7);
      ReadBe16(b, 2, 7);
      RrPacketDelivers(sender, [rr], post, id);
      SingleDelivery(d);
  }

  lemma BlockRoundTrip(d: Delivery, post: seq<u8>)
    requires Encodable(d)
    ensures BlockDeliveries(EncodeBlock(d) + post) == Some([Arrived(d)])
    ensures 4 * Value(EncodeBlock(d), 1) == |EncodeBlock(d)|
  {
    hide EncodeReport, SrAt, RrAt, Arrived;
    var b := EncodeBlock(d) + post;
    assert b[2..4] == Be16(d.id);
    ReadBe16(b, 2, d.id);
    assert b[4..] == EncodeReport(d) + post;
    assert b[5] == b[4..][1];
    ReportDelivers(d, post);
  }

  // One step of the walk, for proofs that keep WalkBlocks itself folded.
  lemma WalkStep(b: seq<u8>, left: int)
    ensures left <= 0 ==> WalkBlocks(b, left) == Walk([], Done)
    ensures left > 0 && (|b| < 2 || BlockDeliveries(b).None?) ==> WalkBlocks(b, left) == Walk([], Overrun)
    ensures left > 0 && |b| >= 2 && BlockDeliveries(b).Some? ==>
              var n := 4 * Value(b, 1); var ds := BlockDeliveries(b).value;
              if n == 0 then WalkBlocks(b, left) == Walk(ds, Stuck)
              else var rest := WalkBlocks(From(b, n), left - n);
                   WalkBlocks(b, left) == Walk(ds + rest.deliveries, rest.outcome)
  {
    hide BlockDeliveries;
  }

  lemma NoBlocks(post: seq<u8>)
    ensures EncodeBlocks([]) + post == post && |EncodeBlocks([])| == 0 && AllArrived([]) == []
  {
  }

  lemma BlocksHead(ds: seq<Delivery>, post: seq<u8>)
    requires ds != [] && AllEncodable(ds)
    ensures var block := EncodeBlock(ds[0]); var rest := EncodeBlocks(ds[1..]) + post;
            && EncodeBlocks(ds) + post == block + rest
            && |EncodeBlocks(ds)| == |block| + |EncodeBlocks(ds[1..])|
            && |block| >= 4 && Value(block + rest, 1) == Value(block, 1)
            && From(block + rest, |block|) == rest
    ensures AllArrived(ds) == [Arrived(ds[0])] + AllArrived(ds[1..])
  {
    hide EncodeBlock, Arrived;
    var block, rest := EncodeBlock(ds[0]), EncodeBlocks(ds[1..]) + post;
    Regroup(block, EncodeBlocks(ds[1..]), post);
    DropPrefix(block, rest);
  }

  // Well-formed blocks in front deliver their reports; how the walk ends is up to what follows.
  lemma {:induction false} BlocksPrefix(ds: seq<Delivery>, post: seq<u8>, more: nat)
    requires AllEncodable(ds)
    ensures var rest := WalkBlocks(post, more);
            WalkBlocks(EncodeBlocks(ds) + post, |EncodeBlocks(ds)| + more)
              == Walk(AllArrived(ds) + rest.deliveries, rest.outcome)
    decreases |ds|
  {
    hide EncodeBlock, EncodeBlocks, BlockDeliveries, WalkBlocks, Arrived, AllArrived, Value, From;
    NoBlocks(post);
    if ds != [] {
      var block, rest := EncodeBlock(ds[0]), EncodeBlocks(ds[1..]) + post;
      BlocksHead(ds, post);
      BlockRoundTrip(ds[0], rest);
      WalkStep(block + rest, |block| + (|EncodeBlocks(ds[1..])| + more));
      BlocksPrefix(ds[1..], post, more);
    }
  }

  lemma BlocksRoundTrip(ds: seq<Delivery>, post: seq<u8>)
    requires AllEncodable(ds)
    ensures WalkBlocks(EncodeBlocks(ds) + post, |EncodeBlocks(ds)|) == Walk(AllArrived(ds), Done)
  {
    hide WalkBlocks, EncodeBlocks, AllArrived, BlockDeliveries;
    BlocksPrefix(ds, post, 0);
    WalkStep(post, 0);
  }

  // ----- the block loop itself -----

  // The loop over the blocks of one packet: the bytes it stands before, how many of them belong to
  // the packet, and what it has delivered.
  datatype BlockLoop = BlockLoop(b: seq<u8>, left: int, deliveries: seq<Delivery>, overrun: bool)

  predicate Readable(b: seq<u8>) {
    |b| >= 2 && BlockDeliveries(b).Some?
  }

  predicate Ended(l: BlockLoop) {
    l.overrun || l.left <= 0
  }

  function Round(l: BlockLoop): BlockLoop {
    if Ended(l) then l
    else if !Readable(l.b) then l.(overrun := true)
    else
      var n := 4 * Value(l.b, 1);
      BlockLoop(From(l.b, n), l.left - n, l.deliveries + BlockDeliveries(l.b).value, false)
  }

  function Rounds(l: BlockLoop, n: nat): BlockLoop
    decreases n
  {
    if n == 0 then l else Rounds(Round(l), n - 1)
  }

  function Repeated(ds: seq<Delivery>, n: nat): seq<Delivery>
    decreases n
  {
    if n == 0 then [] else ds + Repeated(ds, n - 1)
  }

  // The length bytes the loop meets on its way.
  function HeaderLengths(b: seq<u8>, left: int): seq<u8>
    decreases left
  {
    if left <= 0 || !Readable(b) then []
    else if b[1] == 0 then [0]
    else [b[1]] + HeaderLengths(From(b, 4 * Value(b, 1)), left - 4 * Value(b, 1))
  }

  lemma {:induction false} RoundsAdd(l: BlockLoop, m: nat, n: nat)
    ensures Rounds(l, m + n) == Rounds(Rounds(l, m), n)
    decreases m
  {
    hide Round;
    if m > 0 {
      RoundsAdd(Round(l), m - 1, n);
    }
  }

  lemma {:induction false} EndedStays(l: BlockLoop, n: nat)
    requires Ended(l)
    ensures Rounds(l, n) == l
  {
    if n > 0 {
      EndedStays(l, n - 1);
    }
  }

  lemma WholeRest(b: seq<u8>)
    ensures From(b, 0) == b
  {
  }

  lemma ZeroLengthRound(l: BlockLoop)
    requires !Ended(l) && Readable(l.b) && l.b[1] == 0
    ensures Round(l) == l.(deliveries := l.deliveries + BlockDeliveries(l.b).value)
  {
    WholeRest(l.b);
    hide BlockDeliveries, From;
  }

  // Before a length byte of zero n rounds leave the loop where it is and deliver the same block n
  // times.
  lemma {:induction false} ZeroLengthRepeats(l: BlockLoop, n: nat)
    requires !Ended(l) && Readable(l.b) && l.b[1] == 0
    ensures Rounds(l, n) == l.(deliveries := l.deliveries + Repeated(BlockDeliveries(l.b).value, n))
    decreases n
  {
    if n > 0 {
      var ds := BlockDeliveries(l.b).value;
      ZeroLengthRound(l);
      var next := Round(l);
      assert Rounds(l, n) == Rounds(next, n - 1);
      hide BlockDeliveries, Readable, Round, Rounds;
      ZeroLengthRepeats(next, n - 1);
      assert l.deliveries + ds + Repeated(ds, n - 1) == l.deliveries + (ds + Repeated(ds, n - 1));
    }
  }

  // The walk tells what the loop does. Where it ends, so does the loop, with the same deliveries and
  // for the same reason; where it is stuck, the loop comes after m rounds to a block of length zero,
  // which it has delivered n times after n more.
  lemma {:induction false} LoopFollowsWalk(l: BlockLoop) returns (m: nat)
    requires !l.overrun
    ensures var w := WalkBlocks(l.b, l.left); var f := Rounds(l, m);
            && (w.outcome != Stuck ==>
                  Ended(f) && f.overrun == (w.outcome == Overrun) && f.deliveries == l.deliveries + w.deliveries)
            && (w.outcome == Stuck ==>
                  && !Ended(f) && Readable(f.b) && f.b[1] == 0
                  && f.deliveries + BlockDeliveries(f.b).value == l.deliveries + w.deliveries)
    ensures WalkBlocks(l.b, l.left).outcome == Stuck <==> 0 in HeaderLengths(l.b, l.left)
    decreases l.left
  {
    WalkStep(l.b, l.left);
    hide BlockDeliveries, WalkBlocks, From;
    if Ended(l) {
      m := 0;
    } else if !Readable(l.b) {
      m := 1;
      assert Rounds(Round(l), 0) == Round(l);
    } else if l.b[1] == 0 {
      m := 0;
    } else {
      var next := LoopFollowsWalk(Round(l));
      m := next + 1;
      var ds, rest := BlockDeliveries(l.b).value, WalkBlocks(Round(l).b, Round(l).left);
      assert l.deliveries + ds + rest.deliveries == l.deliveries + (ds + rest.deliveries);
    }
  }

  lemma StuckStays(l: BlockLoop, m: nat, n: nat)
    requires var f := Rounds(l, m); !Ended(f) && Readable(f.b) && f.b[1] == 0
    ensures !Ended(Rounds(l, n))
  {
    hide Readable, Round;
    if n < m {
      RoundsAdd(l, n, m - n);
      if Ended(Rounds(l, n)) {
        EndedStays(Rounds(l, n), m - n);
      }
    } else {
      RoundsAdd(l, m, n - m);
      ZeroLengthRepeats(Rounds(l, m), n - m);
    }
  }

  // The loop ends exactly when no length byte it meets is zero.
  lemma LoopEndsExactly(b: seq<u8>, left: int)
    ensures (exists n: nat :: Ended(Rounds(BlockLoop(b, left, [], false), n))) <==> 0 !in HeaderLengths(b, left)
  {
    var l := BlockLoop(b, left, [], false);
    var m := LoopFollowsWalk(l);
    hide HeaderLengths, Readable, BlockDeliveries, WalkBlocks, Round;
    if 0 in HeaderLengths(b, left) {
      forall n: nat ensures !Ended(Rounds(l, n)) {
        StuckStays(l, m, n);
      }
    }
  }

  // Well-formed blocks in front take one round each.
  lemma {:induction false} BlocksRounds(ds: seq<Delivery>, post: seq<u8>, more: nat, done: seq<Delivery>)
    requires AllEncodable(ds)
    ensures Rounds(BlockLoop(EncodeBlocks(ds) + post, |EncodeBlocks(ds)| + more, done, false), |ds|)
              == BlockLoop(post, more, done + AllArrived(ds), false)
    decreases |ds|
  {
    hide EncodeBlock, EncodeBlocks, BlockDeliveries, Arrived, AllArrived, Value, From;
    NoBlocks(post);
    if ds != [] {
      var block, rest := EncodeBlock(ds[0]), EncodeBlocks(ds[1..]) + post;
      BlocksHead(ds, post);
      BlockRoundTrip(ds[0], rest);
      var left := |EncodeBlocks(ds[1..])| + more;
      assert Round(BlockLoop(block + rest, |block| + left, done, false))
          == BlockLoop(rest, left, done + [Arrived(ds[0])], false);
      BlocksRounds(ds[1..], post, more, done + [Arrived(ds[0])]);
      assert done + [Arrived(ds[0])] + AllArrived(ds[1..]) == done + ([Arrived(ds[0])] + AllArrived(ds[1..]));
    } else {
      assert done + [] == done;
    }
  }

  // A block of length zero behind well-formed ones: they are delivered, then the zero block is, over
  // and over, and nothing behind it ever.
  lemma ZeroLengthSticks(ds: seq<Delivery>, post: seq<u8>, more: nat, n: nat)
    requires AllEncodable(ds) && more > 0 && Readable(post) && post[1] == 0
    ensures var start := BlockLoop(EncodeBlocks(ds) + post, |EncodeBlocks(ds)| + more, [], false);
            Rounds(start, |ds| + n)
              == BlockLoop(post, more, AllArrived(ds) + Repeated(BlockDeliveries(post).value, n), false)
  {
    hide EncodeBlocks, BlockDeliveries, AllArrived, Round;
    var start := BlockLoop(EncodeBlocks(ds) + post, |EncodeBlocks(ds)| + more, [], false);
    BlocksRounds(ds, post, more, []);
    assert [] + AllArrived(ds) == AllArrived(ds);
    RoundsAdd(start, |ds|, n);
    ZeroLengthRepeats(Rounds(start, |ds|), n);
  }

  // ----- compound packets -----

  // A compound packet is a sequence of plain reports about the stream and MPRTCP packets.
  datatype Part = Plain(report: Delivery) | Multi(ssrc: u32, source: u32, blocks: seq<Delivery>)

  predicate PartFits(p: Part) {
    match p
    case Plain(d) => Encodable(d) && d.id == 0
    case Multi(_, _, ds) => Fits(ds)
  }

  function EncodePart(p: Part): seq<u8>
    requires PartFits(p)
  {
    match p
    case Plain(d) => EncodeReport(d)
    case Multi(ssrc, source, ds) => EncodeMprtcp(ssrc, source, ds)
  }

  function PartArrived(p: Part): seq<Delivery> {
    match p
    case Plain(d) => [Arrived(d)]
    case Multi(_, _, ds) => AllArrived(ds)
  }

  function EncodeCompound(ps: seq<Part>): seq<u8>
    requires forall i :: 0 <= i < |ps| ==> PartFits(ps[i])
  {
    if ps == [] then [] else EncodePart(ps[0]) + EncodeCompound(ps[1..])
  }

  function CompoundArrived(ps: seq<Part>): seq<Delivery> {
    if ps == [] then [] else PartArrived(ps[0]) + CompoundArrived(ps[1..])
  }

  lemma MultiRoundTrip(ssrc: u32, source: u32, ds: seq<Delivery>, post: seq<u8>)
    requires PartFits(Multi(ssrc, source, ds))
    ensures var b := EncodeMprtcp(ssrc, source, ds) + post;
            && WalkPacket(b) == Walk(AllArrived(ds), Done)
            && PacketLength(b) == |EncodeMprtcp(ssrc, source, ds)|
  {
    hide EncodeBlocks, WalkBlocks, AllArrived;
    var b := EncodeMprtcp(ssrc, source, ds) + post;
    assert b[2..4] == Be16(2 + BlocksWords(ds));
    ReadBe16(b, 2, 2 + BlocksWords(ds));
    assert From(b, 12) == EncodeBlocks(ds) + post;
    BlocksRoundTrip(ds, post);
  }

  // Walking any compound packet built from reports and MPRTCP packets ends and delivers exactly its
  // reports, in order, each with its subflow id and every field, cumulative loss modulo 2^24.
  lemma {:induction false} CompoundRoundTrip(ps: seq<Part>)
    requires forall i :: 0 <= i < |ps| ==> PartFits(ps[i])
    ensures WalkCompound(EncodeCompound(ps)) == Walk(CompoundArrived(ps), Done)
    decreases |ps|
  {
    if ps != [] {
      hide EncodeReport, EncodeMprtcp, AllArrived, Arrived, SrAt, RrAt;
      var part, rest := EncodePart(ps[0]), EncodeCompound(ps[1..]);
      var b := part + rest;
      match ps[0] {
        case Plain(d) => ReportDelivers(d, rest);
        case Multi(ssrc, source, ds) => MultiRoundTrip(ssrc, source, ds, rest);
      }
      assert From(b, |part|) == rest;
      CompoundRoundTrip(ps[1..]);
    }
  }

  // ----- for the builders -----

  lemma {:induction false} BlocksAppend(ds: seq<Delivery>, d: Delivery)
    requires AllEncodable(ds) && Encodable(d)
    ensures EncodeBlocks(ds + [d]) == EncodeBlocks(ds) + EncodeBlock(d)
    decreases |ds|
  {
    hide EncodeBlock;
    var all := ds + [d];
    if ds != [] {
      assert all[0] == ds[0] && all[1..] == ds[1..] + [d];
      BlocksAppend(ds[1..], d);
    } else {
      assert all[1..] == [];
    }
  }

  // The length of an MPRTCP packet is filled in when its blocks are complete.
  lemma PatchedHead(ssrc: u32, source: u32, ds: seq<Delivery>)
    requires Fits(ds)
    ensures var body := [0x80, TYPE_MPRTP, 0, 0] + (Be32(ssrc) + Be32(source)) + EncodeBlocks(ds);
            body[..2] + Be16(2 + BlocksWords(ds)) + body[4..] == EncodeMprtcp(ssrc, source, ds)
  {
    hide Be16, Be32, EncodeBlocks;
  }

  // ----- the layout of RFC 3550, sections 6.4.1 and 6.4.2 -----

  // Where a report block keeps its fields. With the round trips this fixes both sides of the wire.
  lemma BlockLayout(b: seq<u8>)
    requires |b| >= 24
    ensures DecodeRr(b) == ReceiverReport(Number(b, 0, 4), b[4], Number(b, 5, 3), Number(b, 8, 4), Number(b, 12, 4),
                                          Number(b, 16, 4), Number(b, 20, 4))
  {
    hide Number, Read24, Read32;
    ReadsNumbers(b, 0);
    ReadsNumbers(b, 5);
    ReadsNumbers(b, 8);
    ReadsNumbers(b, 12);
    ReadsNumbers(b, 16);
    ReadsNumbers(b, 20);
  }

  lemma {:induction false} BlockOfMany(b: seq<u8>, n: nat, i: nat)
    requires |b| >= 24 * n && i < n
    ensures DecodeRrs(b, n)[i] == DecodeRr(b[24 * i..])
    decreases n
  {
    hide DecodeRr;
    if i > 0 {
      BlockOfMany(b[24..], n - 1, i - 1);
      assert b[24..][24 * (i - 1)..] == b[24 * i..];
    } else {
      assert b[0..] == b;
    }
  }

  // Where a sender report keeps its fields; its blocks follow, 24 octets each.
  lemma SenderReportLayout(b: seq<u8>, i: nat)
    requires |b| >= 28 && |b| >= 28 + 24 * (Number(b, 0, 1) % 32) && i < Number(b, 0, 1) % 32
    ensures Count(b) == Number(b, 0, 1) % 32
    ensures var sr := DecodeSr(b);
            && sr.ssrc == Number(b, 4, 4) && sr.ntpMsw == Number(b, 8, 4) && sr.ntpLsw == Number(b, 12, 4)
            && sr.rtpTimestamp == Number(b, 16, 4) && sr.packetCount == Number(b, 20, 4)
            && sr.octetCount == Number(b, 24, 4)
            && |sr.blocks| == Number(b, 0, 1) % 32 && sr.blocks[i] == DecodeRr(b[28 + 24 * i..])
  {
    assert Number(b, 0, 1) == Number(b, 0, 0) * 256 + Value(b, 0);
    hide Number, Read32, DecodeRr, DecodeRrs;
    ReadsNumbers(b, 4);
    ReadsNumbers(b, 8);
    ReadsNumbers(b, 12);
    ReadsNumbers(b, 16);
    ReadsNumbers(b, 20);
    ReadsNumbers(b, 24);
    BlockOfMany(b[28..], Count(b), i);
    assert b[28..][24 * i..] == b[28 + 24 * i..];
  }

  // What one packet of a compound packet is taken for, by its second octet, and how long it is.
  lemma PacketDispatch(b: seq<u8>)
    requires |b| >= 32 + 24 * 31
    ensures PacketLength(b) == 4 * (Number(b, 2, 2) + 1)
    ensures b[1] == 200 ==> WalkPacket(b) == Walk([SrDelivery(0, DecodeSr(b))], Done)
    ensures b[1] == 201 ==>
              var n := Number(b, 0, 1) % 32;
              WalkPacket(b) == Walk(seq(n, _ => RrDelivery(0, Number(b, 4, 4), DecodeRr(b[8..]))), Done)
    ensures b[1] == 211 ==> WalkPacket(b) == WalkBlocks(b[12..], PacketLength(b) - 12)
    ensures b[1] !in [200, 201, 211] ==> WalkPacket(b) == Walk([], Done)
  {
    assert Number(b, 0, 1) == Number(b, 0, 0) * 256 + Value(b, 0);
    hide Number, Read16, Read32, DecodeRr, DecodeSr, WalkBlocks;
    ReadsNumbers(b, 2);
    ReadsNumbers(b, 4);
  }

  // Packets of other types are skipped by their length, whatever they hold.
  lemma UnknownPacketSkipped(b: seq<u8>)
    requires |b| >= 4 && b[1] !in [200, 201, 211]
    ensures WalkCompound(b) == WalkCompound(From(b, 4 * (Number(b, 2, 2) + 1)))
  {
    ReadsNumbers(b, 2);
    hide Number, Read16, From;
    assert WalkPacket(b) == Walk([], Done);
    assert PacketLength(b) == 4 * (Number(b, 2, 2) + 1);
    hide WalkPacket, PacketLength;
    var rest := WalkCompound(From(b, PacketLength(b)));
    assert WalkCompound(b) == Walk([] + rest.deliveries, rest.outcome);
    hide WalkCompound;
  }

  // What one block is taken for: a report on the subflow with the id behind its length, if its type
  // is zero; a block of another type, or with another packet in it, is skipped by its length.
  lemma BlockDispatch(b: seq<u8>, left: int)
    requires left > 0 && |b| >= 36 + 24 * 31 && b[1] != 0
    ensures var rest := WalkBlocks(From(b, 4 * Value(b, 1)), left - 4 * Value(b, 1)); var id := Number(b, 2, 2);
            && (b[0] == 0 && b[5] == 200 ==>
                  WalkBlocks(b, left) == Walk([SrDelivery(id, DecodeSr(b[4..]))] + rest.deliveries, rest.outcome))
            && (b[0] == 0 && b[5] == 201 ==>
                  var copies := seq(Number(b, 4, 1) % 32, _ => RrDelivery(id, Number(b, 8, 4), DecodeRr(b[12..])));
                  WalkBlocks(b, left) == Walk(copies + rest.deliveries, rest.outcome))
            && (b[0] != 0 || b[5] !in [200, 201] ==> WalkBlocks(b, left) == rest)
  {
    assert Number(b, 4, 1) == Number(b, 4, 0) * 256 + Value(b, 4);
    ReadsNumbers(b, 2);
    ReadsNumbers(b, 8);
    assert b[4..][8..] == b[12..] && Count(b[4..]) == Value(b, 4) % 32;
    assert b[4..][4] == b[8] && b[4..][5] == b[9] && b[4..][6] == b[10] && b[4..][7] == b[11];
    assert Read32(b[4..], 4) == Read32(b, 8);
    hide Number, Read16, Read32, DecodeRr, DecodeSr, WalkBlocks, From, Count;
    WalkStep(b, left);
    var rest := WalkBlocks(From(b, 4 * Value(b, 1)), left - 4 * Value(b, 1));
    assert [] + rest.deliveries == rest.deliveries;
  }

  // Everything written is of version two, and an MPRTCP packet names its sender and then its source.
  lemma WrittenHeads(d: Delivery, ssrc: u32, source: u32, ds: seq<Delivery>)
    requires Encodable(d) && Fits(ds)
    ensures EncodeReport(d)[0] / 32 == 4 && EncodeMprtcp(ssrc, source, ds)[0] / 32 == 4
    ensures Number(EncodeMprtcp(ssrc, source, ds), 4, 4) == ssrc
    ensures Number(EncodeMprtcp(ssrc, source, ds), 8, 4) == source
    ensures d.SrDelivery? ==> EncodeReport(d)[1] == 200
    ensures d.RrDelivery? ==> EncodeReport(d)[1] == 201 && Number(EncodeReport(d), 4, 4) == d.sender
    ensures EncodeMprtcp(ssrc, source, ds)[1] == 211
  {
    var b, r := EncodeMprtcp(ssrc, source, ds), EncodeReport(d);
    hide EncodeBlocks, EncodeRrs, EncodeRr, EncodeWords, Read32, Number, Be16, Be32;
    assert b[4..8] == Be32(ssrc) && b[8..12] == Be32(source);
    ReadBe32(b, 4, ssrc);
    ReadBe32(b, 8, source);
    ReadsNumbers(b, 4);
    ReadsNumbers(b, 8);
    if d.RrDelivery? {
      assert r[4..8] == Be32(d.sender);
      ReadBe32(r, 4, d.sender);
      ReadsNumbers(r, 4);
    }
  }
}
