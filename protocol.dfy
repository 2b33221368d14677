/**
 * The client and the engine together: a set packet from set_var is a
 * heartbeat the engine accepts, the report the engine sends decodes back to
 * its records, and the concrete exchanges of server.py's main block and of
 * loopbench.c.
 */
module Protocol {
  import opened Wrappers
  import opened LittleEndian
  import opened Layout
  import opened Checksum
  import opened Engine
  import opened Client

  /**
   * Every set_var packet takes the heartbeat path and passes the checksum
   * test. For var mod 256 below 64 the engine returns 1 and stores
   * (ts, sender, val) in that slot, touching no other slot and not the
   * prefix; otherwise it returns 0 and changes nothing.
   */
  lemma SetPacketAccepted(t: seq<byte>, variable: int, sender: int, val: int, ts: u16)
    requires |t| == TableLen
    ensures Adler32Of(SetPacket(variable, sender, val)[ChecksumLen..], EnginePeriod)
              == FetchU32(SetPacket(variable, sender, val), 0)
    ensures var r := ProcessOf(t, SetPacket(variable, sender, val), ts);
      && r.status == (if variable % 0x100 < NVariables then 1 else 0)
      && r.sent == None
      && (variable % 0x100 >= NVariables ==> r.table == t)
      && (variable % 0x100 < NVariables ==>
            && SlotAt(r.table, variable % 0x100) == Slot(ts, sender % 0x100, val % 0x100)
            && r.table[..ChecksumLen] == t[..ChecksumLen]
            && forall e :: 0 <= e < NVariables && e != variable % 0x100 ==> SlotAt(r.table, e) == SlotAt(t, e))
  {
    var p := SetPacket(variable, sender, val);
    PeriodsAgree(p[ChecksumLen..]);
    if variable % 0x100 < NVariables {
      AcceptedHeartbeat(t, p, ts);
      var r := ProcessOf(t, p, ts).table;
      assert forall k :: 0 <= k < ChecksumLen ==> r[k] == t[k];
    } else {
      OutOfRangeIgnored(t, p, ts);
    }
  }

  /**
   * set_var's packet for variable 64 under the guard as written: the
   * checksum matches and the guard passes, so process_heartbeat reads the
   * clock and returns 1 (its record write lands past the table), where
   * the corrected engine returns 0 and changes nothing, as test.py:44 expects.
   */
  lemma Variable64AsWritten(t: seq<byte>, sender: int, val: int, ts: u16)
    requires |t| == TableLen
    ensures HeartbeatStatusAsWritten(SetPacket(64, sender, val)) == (1, true)
    ensures ProcessOf(t, SetPacket(64, sender, val), ts) == Outcome(0, t, false, None)
  {
    var p := SetPacket(64, sender, val);
    PeriodsAgree(p[ChecksumLen..]);
    assert p[5] == 64;
    OutOfRangeIgnored(t, p, ts);
  }

  /**
   * The 260 bytes a query sends, received into health_report's buffer,
   * decode to records v0..v63 carrying exactly the table's slots, and the
   * checksum the client recomputes over bytes 4.. equals the one in bytes 0..3.
   */
  lemma ReportDecodes(t: seq<byte>, buf: seq<byte>, ts: u16)
    requires |t| == TableLen && |buf| == ReplyBufLen
    requires ProcessOf(t, QueryToken, ts).sent == Some(buf[..TableLen])
    ensures var r := HealthReportOf(buf, TableLen);
      && r.Some? && |r.value.records| == NVariables
      && r.value.claimed == r.value.expected
      && forall v :: 0 <= v < NVariables ==>
           r.value.records[v] == Record(v, SlotAt(t, v).value, SlotAt(t, v).timestamp, SlotAt(t, v).sender)
  {
    Sizes();
    assert buf[..TableLen] == ReportOf(t);
    ReportClaimMatches(t, buf);
    ReportRecordsMatch(t, buf, ts);
  }

  /** The prefix of a received report fetches as the client's checksum of the bytes after it. */
  lemma ReportClaimMatches(t: seq<byte>, buf: seq<byte>)
    requires |t| == TableLen && |buf| == ReplyBufLen && buf[..TableLen] == ReportOf(t)
    ensures FetchU32(buf, 0) == Adler32Of(buf[ChecksumLen..TableLen], ClientPeriod)
  {
    var rep := ReportOf(t);
    ReportStamped(t);
    assert buf[ChecksumLen..TableLen] == rep[ChecksumLen..] == t[ChecksumLen..];
    PeriodsAgree(t[ChecksumLen..]);
    assert buf[0..4] == rep[0..4];
  }

  /** Record v of a received report, at offset 4v + 4, carries slot v of the table the query saw. */
  lemma ReportRecordsMatch(t: seq<byte>, buf: seq<byte>, ts: u16)
    requires |t| == TableLen && |buf| == ReplyBufLen && buf[..TableLen] == ReportOf(t)
    ensures forall v :: 0 <= v < NVariables ==>
      RecordAt(buf, 4 * v + 4) == Record(v, SlotAt(t, v).value, SlotAt(t, v).timestamp, SlotAt(t, v).sender)
  {
    Sizes();
    var rep := ReportOf(t);
    QueryKeepsSlots(t, ts);
    assert ProcessOf(t, QueryToken, ts).table == rep;
    forall v | 0 <= v < NVariables
      ensures RecordAt(buf, 4 * v + 4) == Record(v, SlotAt(t, v).value, SlotAt(t, v).timestamp, SlotAt(t, v).sender)
    {
      var o := RecordOffset(v);
      assert o == 4 * v + 4 && o + EntrySize <= TableLen;
      assert buf[o..o + EntrySize] == rep[o..o + EntrySize];
      assert SlotAt(rep, v) == SlotAt(t, v);
    }
  }

  /**
   * The round trip of a set followed by a query: after set_var's packet for
   * variable v < 64 is accepted, the report the next query sends, received
   * into health_report's buffer in front of whatever `rest` the buffer held,
   * shows (ts, sender, value) at v and every other variable as before.
   */
  lemma SetThenQuery(t: seq<byte>, variable: nat, sender: byte, val: byte, ts1: u16, ts2: u16, rest: seq<byte>)
    requires |t| == TableLen && |rest| == ReplyBufLen - TableLen && variable < NVariables
    ensures ProcessOf(t, SetPacket(variable, sender, val), ts1).status == 1
    ensures var sent := ProcessOf(ProcessOf(t, SetPacket(variable, sender, val), ts1).table, QueryToken, ts2).sent;
      && sent.Some? && |sent.value| == TableLen
      && var r := HealthReportOf(sent.value + rest, TableLen);
      && r.Some? && |r.value.records| == NVariables && r.value.claimed == r.value.expected
      && r.value.records[variable] == Record(variable, val, ts1, sender)
      && forall v :: 0 <= v < NVariables && v != variable ==>
           r.value.records[v] == Record(v, SlotAt(t, v).value, SlotAt(t, v).timestamp, SlotAt(t, v).sender)
  {
    ModOfSmall(variable, 0x100);
    ModOfSmall(sender, 0x100);
    ModOfSmall(val, 0x100);
    SetPacketAccepted(t, variable, sender, val, ts1);
    var t1 := ProcessOf(t, SetPacket(variable, sender, val), ts1).table;
    assert SlotAt(t1, variable) == Slot(ts1, sender, val);
    SendsOnlyReports(t1, QueryToken, ts2);
    var sent := ProcessOf(t1, QueryToken, ts2).sent.value;
    var buf := sent + rest;
    assert buf[..TableLen] == sent;
    ReportDecodes(t1, buf, ts2);
    var recs := HealthReportOf(buf, TableLen).value.records;
    forall v | 0 <= v < NVariables && v != variable
      ensures recs[v] == Record(v, SlotAt(t, v).value, SlotAt(t, v).timestamp, SlotAt(t, v).sender)
    {
      assert SlotAt(t1, v) == SlotAt(t, v);
    }
  }

  /** `struct.pack("<L", zlib.adler32(payload)) + payload`: a set packet built with a library Adler-32. */
  function LibrarySetPacket(payload: seq<byte>): seq<byte>
    requires |payload| == 4
  {
    LeU32(StandardAdler32(payload)) + payload
  }

  /** A set packet built with the library Adler-32 is byte for byte the one set_var builds. */
  lemma LibraryPacketIsSetPacket(variable: byte, sender: byte, val: byte)
    ensures LibrarySetPacket([HeartbeatMagic, variable, sender, val]) == SetPacket(variable, sender, val)
  {
    var payload: seq<byte> := [HeartbeatMagic, variable, sender, val];
    ModOfSmall(variable, 0x100);
    ModOfSmall(sender, 0x100);
    ModOfSmall(val, 0x100);
    assert SetPacket(variable, sender, val)[ChecksumLen..] == payload;
    ShortInputIsStandard(payload, ClientPeriod);
    assert SetPacket(variable, sender, val) == LeU32(Adler32Of(payload, ClientPeriod)) + payload;
  }

  /** The invalid request of server.py's main block, the ASCII bytes of "12345678". */
  const Digits: seq<byte> := [0x31, 0x32, 0x33, 0x34, 0x35, 0x36, 0x37, 0x38]

  /** The first query of server.py's main block: a fresh table reports 64 zero records stamped 0x01000001. */
  lemma FreshQuery()
    ensures var r := ProcessOf(ZeroTable(), QueryToken, 12345);
      && r.status == 1 && r.sent == Some(r.table) && FetchU32(r.table, 0) == 0x0100_0001
      && (forall e :: 0 <= e < NVariables ==> SlotAt(r.table, e) == Slot(0, 0, 0))
  {
    Sizes();
    var t0 := ZeroTable();
    ReportStamped(t0);
    assert t0[ChecksumLen..] == seq(256, _ => 0);
    ZeroReportChecksum();
    QueryKeepsSlots(t0, 12345);
    forall e | 0 <= e < NVariables
      ensures SlotAt(t0, e) == Slot(0, 0, 0)
    {
      ZeroTableSlots(e);
    }
  }

  /**
   * The exchange in server.py's main block, with the clock at 12345: a query
   * on the fresh table (FreshQuery); a set of variable 3 from sender 4 to 5
   * built with a library Adler-32 is accepted; "12345678" is refused; the
   * next query shows (12345, 4, 5) at slot 3 and zeros elsewhere.
   */
  lemma ServerMainTrace()
    ensures var r1 := ProcessOf(ZeroTable(), QueryToken, 12345);
      var r2 := ProcessOf(r1.table, LibrarySetPacket([HeartbeatMagic, 3, 4, 5]), 12345);
      var r3 := ProcessOf(r2.table, Digits, 12345);
      var r4 := ProcessOf(r3.table, QueryToken, 12345);
      && r1.status == 1
      && r2.status == 1 && r2.sent == None
      && r3.status == 0 && r3.sent == None
      && r4.status == 1 && r4.sent == Some(r4.table)
      && SlotAt(r4.table, 3) == Slot(12345, 4, 5)
      && (forall e :: 0 <= e < NVariables && e != 3 ==> SlotAt(r4.table, e) == Slot(0, 0, 0))
  {
    Sizes();
    FreshQuery();
    var r1 := ProcessOf(ZeroTable(), QueryToken, 12345);
    LibraryPacketIsSetPacket(3, 4, 5);
    SetPacketAccepted(r1.table, 3, 4, 5, 12345);
    var r2 := ProcessOf(r1.table, SetPacket(3, 4, 5), 12345);
    var r3 := ProcessOf(r2.table, Digits, 12345);
    assert r3 == Outcome(0, r2.table, false, None);
    QueryKeepsSlots(r2.table, 12345);
  }

  /** The heartbeat loopbench.c repeats, as written: checksum bytes 05 6b 01 ce, then f1 3e 4b 53. */
  const BenchPacket: seq<byte> := [0x05, 0x6b, 0x01, 0xce, 0xf1, 0x3e, 0x4b, 0x53]

  /** The same heartbeat with its checksum 0x056b01ce stored little-endian. */
  const BenchPacketLittleEndian: seq<byte> := [0xce, 0x01, 0x6b, 0x05, 0xf1, 0x3e, 0x4b, 0x53]

  /** The plain Adler-32 sums of the benchmark's payload f1 3e 4b 53. */
  lemma BenchPayloadSums(p: seq<byte>)
    requires p == [0xf1, 0x3e, 0x4b, 0x53]
    ensures PlainA(p) == 462 && PlainB(p) == 1387
  {
    var p1: seq<byte> := [0xf1];
    var p2: seq<byte> := p1 + [0x3e];
    var p3: seq<byte> := p2 + [0x4b];
    assert Sum(p1) == 241 && PlainB(p1) == 242 by {
      assert p1[..0] == [];
    }
    assert Sum(p2) == 303 && PlainB(p2) == 546 by {
      assert p2[..1] == p1;
    }
    assert Sum(p3) == 378 && PlainB(p3) == 925 by {
      assert p3[..2] == p2;
    }
    assert p[..3] == p3;
  }

  /** The checksum of the benchmark's payload is 0x056b01ce. */
  lemma BenchPayloadChecksum()
    ensures Adler32Of(BenchPacket[ChecksumLen..], EnginePeriod) == 0x056B_01CE
    ensures BenchPacketLittleEndian[ChecksumLen..] == BenchPacket[ChecksumLen..]
  {
    var p := BenchPacket[ChecksumLen..];
    assert p == [0xf1, 0x3e, 0x4b, 0x53];
    BenchPayloadSums(p);
    ShortInputIsStandard(p, EnginePeriod);
  }

  /** As written, the benchmark's packet stores its checksum big-endian, so the
      engine's little-endian fetch rejects it: the call returns 0 and the
      benchmark would abort on its first iteration. */
  lemma BenchPacketRejected(t: seq<byte>)
    requires |t| == TableLen
    ensures ProcessOf(t, BenchPacket, 12345) == Outcome(0, t, false, None)
  {
    BenchPayloadChecksum();
  }

  /** With the checksum stored little-endian the heartbeat is accepted and sets
      variable 62 (0x3e) to value 0x53 from sender 0x4b at the benchmark's time 12345. */
  lemma BenchPacketLittleEndianAccepted(t: seq<byte>)
    requires |t| == TableLen
    ensures var r := ProcessOf(t, BenchPacketLittleEndian, 12345);
      r.status == 1 && r.sent == None && SlotAt(r.table, 0x3e) == Slot(12345, 0x4b, 0x53)
  {
    BenchPayloadChecksum();
    AcceptedHeartbeat(t, BenchPacketLittleEndian, 12345);
  }
}
