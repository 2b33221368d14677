/**
 * The packet engine of dumpulse.c. A Dumpulse object owns the 260-byte
 * table and updates it in place; ProcessOf and its helpers give the same
 * behaviour on table values, and the lemmas state what the engine promises.
 *
 * The two callbacks become plain data: the timestamp dumpulse_get_timestamp
 * would return is the input `ts`, `clockRead` says whether the engine asked
 * for it, and the packet handed to dumpulse_send_packet (at most one per
 * call) is the output `sent`.
 */
module Engine {
  import opened Wrappers
  import opened LittleEndian
  import opened Layout
  import opened Checksum

  /** What one call of dumpulse_process_packet returns and leaves behind. */
  datatype Outcome = Outcome(status: byte, table: seq<byte>, clockRead: bool, sent: Option<seq<byte>>)

  /**
   * update_entry: reject variables outside the table, else write the
   * timestamp (LE), the sender and the value into the variable's record.
   * The source's guard is `entry > 64`; this is the intended `entry >= 64`
   * (see GuardAsWritten).
   */
  function UpdateEntryOf(t: seq<byte>, entry: u16, from: byte, value: byte, ts: u16): (byte, seq<byte>)
    requires |t| == TableLen
  {
    if entry >= NVariables then (0, t)
    else (1, Splice(t, RecordOffset(entry), EncodeSlot(Slot(ts, from, value))))
  }

  /** process_heartbeat: check the LE checksum in bytes 0..3 against bytes 4..7, then update. */
  function HeartbeatOf(t: seq<byte>, data: seq<byte>, ts: u16): Outcome
    requires |t| == TableLen && |data| == PacketLen
  {
    if Adler32Of(data[ChecksumLen..], EnginePeriod) != FetchU32(data, 0) then Outcome(0, t, false, None)
    else
      var (ok, t') := UpdateEntryOf(t, data[5], data[6], data[7], ts);
      Outcome(ok, t', ok == 1, None)
  }

  /** send_response: the table with the LE checksum of bytes 4..259 stamped into bytes 0..3. */
  function ReportOf(t: seq<byte>): (r: seq<byte>)
    requires |t| == TableLen
    ensures |r| == TableLen
  {
    Splice(t, 0, LeU32(Adler32Of(t[ChecksumLen..], EnginePeriod)))
  }

  /**
   * dumpulse_process_packet: byte 4 equal to 0xf1 selects the heartbeat path,
   * else the exact query token sends a report, else the packet is ignored.
   * Bytes are read unsigned (see MagicMatchesSigned).
   */
  function ProcessOf(t: seq<byte>, data: seq<byte>, ts: u16): (r: Outcome)
    requires |t| == TableLen && |data| == PacketLen
    ensures |r.table| == TableLen
  {
    if data[4] == HeartbeatMagic then HeartbeatOf(t, data, ts)
    else if data == QueryToken then
      var r := ReportOf(t);
      Outcome(1, r, false, Some(r))
    else Outcome(0, t, false, None)
  }

  /** The report leaves every record as it was and carries a checksum that validates its payload. */
  lemma ReportStamped(t: seq<byte>)
    requires |t| == TableLen
    ensures ReportOf(t)[ChecksumLen..] == t[ChecksumLen..]
    ensures FetchU32(ReportOf(t), 0) == Adler32Of(ReportOf(t)[ChecksumLen..], EnginePeriod)
  {
    var r := ReportOf(t);
    assert r[ChecksumLen..] == t[ChecksumLen..];
    FetchAfterSplice(t, 0, Adler32Of(t[ChecksumLen..], EnginePeriod));
  }

  /** A request is accepted (status 1) exactly when it is the query token, or a
      heartbeat whose checksum matches and whose variable has a record. */
  lemma AcceptedExactly(t: seq<byte>, data: seq<byte>, ts: u16)
    requires |t| == TableLen && |data| == PacketLen
    ensures ProcessOf(t, data, ts).status in {0, 1}
    ensures ProcessOf(t, data, ts).status == 1 <==>
      || data == QueryToken
      || (&& data[4] == HeartbeatMagic
          && Adler32Of(data[ChecksumLen..], EnginePeriod) == FetchU32(data, 0)
          && data[5] < NVariables)
  {
    Sizes();
  }

  /** A rejected request (bad opcode, bad checksum, variable out of range)
      changes nothing, reads no clock and sends nothing. */
  lemma RejectionIsInert(t: seq<byte>, data: seq<byte>, ts: u16)
    requires |t| == TableLen && |data| == PacketLen
    requires ProcessOf(t, data, ts).status == 0
    ensures ProcessOf(t, data, ts) == Outcome(0, t, false, None)
  {
  }

  /** A heartbeat for variable 64 or above returns 0 and leaves the table alone. */
  lemma OutOfRangeIgnored(t: seq<byte>, data: seq<byte>, ts: u16)
    requires |t| == TableLen && |data| == PacketLen
    requires data[4] == HeartbeatMagic && data[5] >= NVariables
    ensures ProcessOf(t, data, ts) == Outcome(0, t, false, None)
  {
  }

  /**
   * A heartbeat with a matching checksum for variable e < 64 returns 1, asks
   * for the time, sends nothing, writes (ts, sender, value) into record e and
   * leaves every other byte -- the checksum prefix and the other records -- as it was.
   */
  lemma AcceptedHeartbeat(t: seq<byte>, data: seq<byte>, ts: u16)
    requires |t| == TableLen && |data| == PacketLen
    requires data[4] == HeartbeatMagic && data[5] < NVariables
    requires Adler32Of(data[ChecksumLen..], EnginePeriod) == FetchU32(data, 0)
    ensures var r := ProcessOf(t, data, ts);
      && r.status == 1 && r.clockRead && r.sent == None && |r.table| == TableLen
      && SlotAt(r.table, data[5]) == Slot(ts, data[6], data[7])
      && (forall k :: 0 <= k < TableLen && !(RecordOffset(data[5]) <= k < RecordOffset(data[5]) + EntrySize)
            ==> r.table[k] == t[k])
      && (forall e :: 0 <= e < NVariables && e != data[5] ==> SlotAt(r.table, e) == SlotAt(t, e))
  {
    var e: nat := data[5];
    var r := ProcessOf(t, data, ts).table;
    var w := EncodeSlot(Slot(ts, data[6], data[7]));
    assert r == Splice(t, RecordOffset(e), w);
    SlotRoundTrip(Slot(ts, data[6], data[7]), w);
    forall e' | 0 <= e' < NVariables && e' != e
      ensures SlotAt(r, e') == SlotAt(t, e')
    {
      var o := RecordOffset(e');
      if e' < e { RecordsDisjoint(e', e); } else { RecordsDisjoint(e, e'); }
      assert r[o..o + EntrySize] == t[o..o + EntrySize];
    }
  }

  /** A query leaves every slot as it was. */
  lemma QueryKeepsSlots(t: seq<byte>, ts: u16)
    requires |t| == TableLen
    ensures forall e :: 0 <= e < NVariables ==> SlotAt(ProcessOf(t, QueryToken, ts).table, e) == SlotAt(t, e)
  {
    Sizes();
    var r := ReportOf(t);
    ReportStamped(t);
    forall e | 0 <= e < NVariables
      ensures SlotAt(r, e) == SlotAt(t, e)
    {
      var o := RecordOffset(e);
      assert r[o..o + EntrySize] == r[ChecksumLen..][o - ChecksumLen..o - ChecksumLen + EntrySize];
      assert t[o..o + EntrySize] == t[ChecksumLen..][o - ChecksumLen..o - ChecksumLen + EntrySize];
    }
  }

  /** Two queries with no set in between send byte-identical reports and leave the same table. */
  lemma QueryIdempotent(t: seq<byte>, ts1: u16, ts2: u16)
    requires |t| == TableLen
    ensures var r1 := ProcessOf(t, QueryToken, ts1);
      var r2 := ProcessOf(r1.table, QueryToken, ts2);
      r2.sent == r1.sent && r2.table == r1.table && r2.status == r1.status == 1
  {
    Sizes();
    var r := ReportOf(t);
    ReportStamped(t);
    assert ReportOf(r) == r by {
      assert r[..ChecksumLen] == LeU32(Adler32Of(r[ChecksumLen..], EnginePeriod));
      assert r == r[..ChecksumLen] + r[ChecksumLen..];
    }
  }

  /** A query sends the whole table, exactly once, and only a query sends anything. */
  lemma SendsOnlyReports(t: seq<byte>, data: seq<byte>, ts: u16)
    requires |t| == TableLen && |data| == PacketLen
    ensures var r := ProcessOf(t, data, ts);
      && (r.sent.Some? <==> data == QueryToken)
      && (r.sent.Some? ==>
            r.sent.value == r.table && |r.sent.value| == TableLen && r.table[ChecksumLen..] == t[ChecksumLen..])
  {
    Sizes();
    if data == QueryToken {
      ReportStamped(t);
    }
  }

  /** The guard of update_entry as written: `if (entry > dumpulse_n_variables) return 0`. */
  function GuardAsWritten(entry: u16): (pass: bool)
    ensures pass <==> RecordOffset(entry) <= TableLen
  {
    !(entry > NVariables)
  }

  /**
   * The status process_heartbeat returns with the guard as written, and
   * whether it asks for the time: 1 and a clock read whenever the checksum
   * matches and the guard passes. The record write this implies for variable
   * 64 lands past the 260-byte table and is not modelled.
   */
  function HeartbeatStatusAsWritten(data: seq<byte>): (r: (byte, bool))
    requires |data| == PacketLen
    ensures r.1 <==> r.0 == 1
    ensures r.0 == 1 <==>
      Adler32Of(data[ChecksumLen..], EnginePeriod) == FetchU32(data, 0) && RecordOffset(data[5]) <= TableLen
  {
    if Adler32Of(data[ChecksumLen..], EnginePeriod) != FetchU32(data, 0) then (0, false)
    else if !GuardAsWritten(data[5]) then (0, false)
    else (1, true)
  }

  /** The as-written guard lets variable 64 through, whose record would start at byte 260:
      all four bytes it writes lie past the end of the 260-byte table. */
  lemma GuardAsWrittenOverruns()
    ensures GuardAsWritten(64)
    ensures RecordOffset(64) == TableLen
  {
  }

  /** The corrected guard: update_entry accepts exactly the variables whose record is in the table. */
  lemma UpdateEntryInBounds(t: seq<byte>, entry: u16, from: byte, value: byte, ts: u16)
    requires |t| == TableLen
    ensures UpdateEntryOf(t, entry, from, value, ts).0 == 1 <==> RecordOffset(entry) + EntrySize <= TableLen
    ensures UpdateEntryOf(t, entry, from, value, ts).0 == 0 ==> UpdateEntryOf(t, entry, from, value, ts).1 == t
  {
  }

  /** A plain char where char is signed: bytes from 0x80 on read as negative. */
  function SignedChar(b: byte): int
  {
    if b < 0x80 then b else b - 0x100
  }

  /** The opcode test `heartbeat_magic == data[4]` with data[4] a signed char. */
  function MagicMatchesSigned(b: byte): bool
  {
    SignedChar(b) == HeartbeatMagic as int
  }

  /** dumpulse_process_packet where plain char is signed. */
  function ProcessSignedOf(t: seq<byte>, data: seq<byte>, ts: u16): (r: Outcome)
    requires |t| == TableLen && |data| == PacketLen
    ensures data[4] != HeartbeatMagic ==> r == ProcessOf(t, data, ts)
  {
    if MagicMatchesSigned(data[4]) then HeartbeatOf(t, data, ts)
    else if data == QueryToken then
      var r := ReportOf(t);
      Outcome(1, r, false, Some(r))
    else Outcome(0, t, false, None)
  }

  /** With a signed char the heartbeat path is dead: every heartbeat, valid or
      not, returns 0 and no record is ever written. */
  lemma SignedCharRejectsHeartbeats(t: seq<byte>, data: seq<byte>, ts: u16)
    requires |t| == TableLen && |data| == PacketLen
    requires data[4] == HeartbeatMagic
    ensures ProcessSignedOf(t, data, ts) == Outcome(0, t, false, None)
  {
    Sizes();
  }

  /** The dumpulse struct: the table the engine updates in place. */
  class Dumpulse {
    var table: array<byte>

    ghost predicate Valid()
      reads this
    {
      table.Length == TableLen
    }

    /** A table filled with zeros before use, as the header requires. */
    constructor ()
      ensures Valid() && fresh(table)
      ensures table[..] == ZeroTable()
    {
      table := new byte[TableLen](_ => 0);
    }

    method UpdateEntry(entry: u16, from: byte, value: byte, ts: u16) returns (ok: byte)
      requires Valid()
      modifies table
      ensures Valid()
      ensures (ok, table[..]) == UpdateEntryOf(old(table[..]), entry, from, value, ts)
    {
      if entry >= NVariables {
        return 0;
      }
      var item := ChecksumLen + EntrySize * entry;
      StoreU16(table, item, ts);
      table[item + 2] := from;
      table[item + 3] := value;
      ok := 1;
      assert table[..] == Splice(old(table[..]), item, EncodeSlot(Slot(ts, from, value))) by {
        var r := Splice(old(table[..]), item, EncodeSlot(Slot(ts, from, value)));
        forall k | 0 <= k < TableLen
          ensures table[k] == r[k]
        {
          if item <= k < item + EntrySize {
            assert r[item..item + EntrySize][k - item] == r[k];
          }
        }
      }
    }

    method ProcessHeartbeat(data: seq<byte>, ts: u16) returns (status: byte, clockRead: bool)
      requires Valid() && |data| == PacketLen
      modifies table
      ensures Valid()
      ensures Outcome(status, table[..], clockRead, None) == HeartbeatOf(old(table[..]), data, ts)
    {
      var expected := FetchU32(data, 0);
      var checksum := Adler32(data[ChecksumLen..], EnginePeriod);
      if checksum != expected {
        return 0, false;
      }
      status := UpdateEntry(data[5], data[6], data[7], ts);
      clockRead := status == 1;
    }

    method SendResponse() returns (packet: seq<byte>)
      requires Valid()
      modifies table
      ensures Valid()
      ensures table[..] == ReportOf(old(table[..])) && packet == table[..]
    {
      var checksum := Adler32(table[ChecksumLen..], EnginePeriod);
      StoreU32(table, 0, checksum);
      packet := table[..];
    }

    /** dumpulse_process_packet; the caller supplies exactly 8 bytes. */
    method ProcessPacket(data: seq<byte>, ts: u16) returns (status: byte, clockRead: bool, sent: Option<seq<byte>>)
      requires Valid() && |data| == PacketLen
      modifies table
      ensures Valid()
      ensures Outcome(status, table[..], clockRead, sent) == ProcessOf(old(table[..]), data, ts)
    {
      if data[4] == HeartbeatMagic {
        status, clockRead := ProcessHeartbeat(data, ts);
        sent := None;
      } else if data == QueryToken {
        var packet := SendResponse();
        status, clockRead, sent := 1, false, Some(packet);
      } else {
        status, clockRead, sent := 0, false, None;
      }
    }
  }
}
