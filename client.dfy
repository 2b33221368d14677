/**
 * The C client of udpclient.c: the 8-byte set packet that set_var builds,
 * and the decoding of a health report in health_report. Sockets and
 * printing are left out; what health_report prints becomes its result.
 */
module Client {
  import opened Wrappers
  import opened LittleEndian
  import opened Layout
  import opened Checksum

  /** Size of health_report's receive buffer. */
  const ReplyBufLen: nat := 512

  /** One line of the report: `v%d = %d (timestamp %d, from %d)`. */
  datatype Record = Record(variable: int, value: byte, timestamp: u16, from: byte)

  /** The records, the checksum found in bytes 0..3 and the one recomputed over the rest. */
  datatype Report = Report(records: seq<Record>, claimed: u32, expected: u32)

  /**
   * The packet of set_var: the payload 0xf1, var, sender, val (each
   * converted to an unsigned byte, so kept mod 256) after the LE checksum
   * of that payload under the client's own adler32.
   */
  function SetPacket(variable: int, sender: int, val: int): (p: seq<byte>)
    ensures |p| == PacketLen
    ensures p[ChecksumLen..] == [HeartbeatMagic, variable % 0x100, sender % 0x100, val % 0x100]
    ensures FetchU32(p, 0) == Adler32Of(p[ChecksumLen..], ClientPeriod)
  {
    var payload: seq<byte> := [HeartbeatMagic, variable % 0x100, sender % 0x100, val % 0x100];
    var sum := Adler32Of(payload, ClientPeriod);
    FetchAfterSplice(LeU32(sum) + payload, 0, sum);
    assert Splice(LeU32(sum) + payload, 0, LeU32(sum)) == LeU32(sum) + payload;
    LeU32(sum) + payload
  }

  /** set_var: fill the local 8-byte buffer, then overwrite bytes 0..3 with the checksum of 4..7. */
  method SetVar(variable: int, sender: int, val: int) returns (packet: seq<byte>)
    ensures packet == SetPacket(variable, sender, val)
  {
    var buf := new byte[PacketLen](_ => 0);
    buf[4], buf[5], buf[6], buf[7] := HeartbeatMagic, variable % 0x100, sender % 0x100, val % 0x100;
    ghost var payload := buf[4..];
    assert payload == [HeartbeatMagic, variable % 0x100, sender % 0x100, val % 0x100];
    var checksum := Adler32(buf[4..], ClientPeriod);
    var le := LeU32(checksum);
    buf[0], buf[1], buf[2], buf[3] := le[0], le[1], le[2], le[3];
    packet := buf[..];
    assert packet == le + payload;
  }

  /** The record printed for offset i: `reply_buf[i] | reply_buf[i+1] << 8` is a sum of disjoint bytes. */
  function RecordAt(buf: seq<byte>, i: nat): Record
    requires i + EntrySize <= |buf|
  {
    Record(i / 4 - 1, buf[i + 3], buf[i] as int + 0x100 * (buf[i + 1] as int), buf[i + 2])
  }

  /**
   * What health_report makes of `bytes` received into its 512-byte buffer:
   * nothing when recv failed (-1) or fewer than 4 bytes came, else one
   * record per 4-byte step from offset 4 while the offset is below `bytes`,
   * the claimed checksum in bytes 0..3 and the checksum of bytes 4..bytes-1.
   */
  function HealthReportOf(buf: seq<byte>, bytes: int): (r: Option<Report>)
    requires |buf| == ReplyBufLen && -1 <= bytes <= ReplyBufLen
  {
    if bytes < 4 then None
    else
      var n := (bytes - 1) / 4;
      Some(Report(seq(n, v requires 0 <= v < n => RecordAt(buf, 4 * v + 4)),
                  FetchU32(buf, 0),
                  Adler32Of(buf[4..bytes], ClientPeriod)))
  }

  /** health_report after the recv: the size check, the decoding loop and the checksum line. */
  method HealthReport(replyBuf: array<byte>, bytes: int) returns (report: Option<Report>)
    requires replyBuf.Length == ReplyBufLen && -1 <= bytes <= ReplyBufLen
    ensures report == HealthReportOf(replyBuf[..], bytes)
  {
    if bytes == -1 {
      return None;
    }
    if bytes < 4 {
      return None;
    }
    var records: seq<Record> := [];
    var i := 4;
    while i < bytes
      invariant 4 <= i <= bytes + 3 && i % 4 == 0
      invariant |records| == i / 4 - 1
      invariant forall v :: 0 <= v < |records| ==> records[v] == RecordAt(replyBuf[..], 4 * v + 4)
    {
      records := records + [Record(i / 4 - 1, replyBuf[i + 3], replyBuf[i] as int + 0x100 * (replyBuf[i + 1] as int), replyBuf[i + 2])];
      i := i + 4;
    }
    var expected := Adler32(replyBuf[4..bytes], ClientPeriod);
    report := Some(Report(records, FetchU32(replyBuf[..], 0), expected));
    var n := (bytes - 1) / 4;
    var contents := replyBuf[..];
    assert |records| == n;
    assert records == seq(n, v requires 0 <= v < n => RecordAt(contents, 4 * v + 4));
  }

  /** A report of `bytes` bytes lists records v0 .. v((bytes-1)/4 - 1) in order; for 260 bytes, v0..v63. */
  lemma ReportRecordCount(buf: seq<byte>, bytes: int)
    requires |buf| == ReplyBufLen && 4 <= bytes <= ReplyBufLen
    ensures var r := HealthReportOf(buf, bytes);
      && r.Some?
      && 4 * |r.value.records| < bytes <= 4 * |r.value.records| + 4
      && (forall v :: 0 <= v < |r.value.records| ==> r.value.records[v].variable == v)
      && (bytes == TableLen ==> |r.value.records| == NVariables)
  {
  }

  /** Replies shorter than the checksum are refused. */
  lemma ShortReplyRefused(buf: seq<byte>, bytes: int)
    requires |buf| == ReplyBufLen && -1 <= bytes < 4
    ensures HealthReportOf(buf, bytes) == None
  {
  }
}
