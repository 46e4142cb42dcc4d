// The report values that travel between the two ends of a session.

module Reports {
  import opened Numeric

  // The size of the buffer a report is built in.
  const MAX_PACKET := 65535

  // One report block (struct rtcp_receiver_report), in host order.
  datatype ReceiverReport = ReceiverReport(
    ssrc: u32,
    fractionLost: u8,
    packetsLost: u32,
    extHighSeq: u32,
    jitter: u32,
    lsr: u32,
    dlsr: u32)

  // A report block together with its arrival time, as the sender keeps it.
  datatype ReceivedReport = ReceivedReport(block: ReceiverReport, recvTime: real)

  // A sender report with the report blocks it carries.
  datatype SenderReport = SenderReport(
    ssrc: u32,
    ntpMsw: u32,
    ntpLsw: u32,
    rtpTimestamp: u32,
    packetCount: u32,
    octetCount: u32,
    blocks: seq<ReceiverReport>)
}
