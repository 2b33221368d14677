/**
 * The Dumpulse table and wire layout (dumpulse.h): a 4-byte checksum
 * prefix followed by 64 records of (timestamp u16 LE, sender u8, value u8),
 * and the two 8-byte request shapes.
 */
module Layout {
  import opened LittleEndian

  const NVariables: nat := 64
  const ChecksumLen: nat := 4
  const TimestampLen: nat := 2
  const IdLen: nat := 1
  const ValueLen: nat := 1
  const EntrySize: nat := TimestampLen + IdLen + ValueLen
  /** sizeof the table member of the dumpulse struct. */
  const TableLen: nat := ChecksumLen + NVariables * EntrySize
  /** Every request is 8 bytes; dumpulse_process_packet takes no length. */
  const PacketLen: nat := 8

  /** First byte of a heartbeat payload. */
  const HeartbeatMagic: byte := 0xf1
  /** The query request, the ASCII bytes of "AreyouOK". */
  const QueryToken: seq<byte> := [0x41, 0x72, 0x65, 0x79, 0x6f, 0x75, 0x4f, 0x4b]

  /** One variable's record as it lies in the table. */
  datatype Slot = Slot(timestamp: u16, sender: byte, value: byte)

  /** Index of the first byte of variable e's record. */
  function RecordOffset(e: nat): nat
  {
    ChecksumLen + EntrySize * e
  }

  /** The four bytes of a record: timestamp low byte first, then sender, then value. */
  function EncodeSlot(s: Slot): (w: seq<byte>)
    ensures |w| == EntrySize
  {
    LeU16(s.timestamp) + [s.sender, s.value]
  }

  /** Reads a record back from its four bytes. */
  function DecodeSlot(w: seq<byte>): Slot
    requires |w| == EntrySize
  {
    Slot(w[0] as int + 0x100 * (w[1] as int), w[2], w[3])
  }

  /** The record of variable e in a table. */
  function SlotAt(t: seq<byte>, e: nat): Slot
    requires |t| == TableLen && e < NVariables
  {
    DecodeSlot(t[RecordOffset(e)..RecordOffset(e) + EntrySize])
  }

  /** The table as the header asks it to be before first use: all zeros. */
  function ZeroTable(): (t: seq<byte>)
    ensures |t| == TableLen
  {
    seq(TableLen, _ => 0)
  }

  /** The header's sizes: 2 + 1 + 1 = 4-byte records, a 260-byte table, and a
      4-byte heartbeat payload after the 4-byte checksum of an 8-byte request. */
  lemma Sizes()
    ensures EntrySize == 4 && TableLen == 260
    ensures TimestampLen + IdLen + ValueLen == PacketLen - ChecksumLen
    ensures |QueryToken| == PacketLen && QueryToken[4] != HeartbeatMagic
  {
  }

  /** Records 0..63 lie inside the table and after the checksum prefix. */
  lemma RecordInTable(e: nat)
    requires e < NVariables
    ensures ChecksumLen <= RecordOffset(e) && RecordOffset(e) + EntrySize <= TableLen
  {
  }

  /** Distinct records do not overlap. */
  lemma RecordsDisjoint(e1: nat, e2: nat)
    requires e1 < e2 < NVariables
    ensures RecordOffset(e1) + EntrySize <= RecordOffset(e2)
  {
  }

  /** Every byte after the prefix belongs to exactly one record. */
  lemma RecordOwning(k: nat)
    requires ChecksumLen <= k < TableLen
    ensures (k - ChecksumLen) / EntrySize < NVariables
    ensures RecordOffset((k - ChecksumLen) / EntrySize) <= k < RecordOffset((k - ChecksumLen) / EntrySize) + EntrySize
  {
  }

  /** A record reads back as what was written into it, and any four bytes are the encoding of what they read as. */
  lemma SlotRoundTrip(s: Slot, w: seq<byte>)
    requires |w| == EntrySize
    ensures DecodeSlot(EncodeSlot(s)) == s
    ensures EncodeSlot(DecodeSlot(w)) == w
  {
  }

  /** A zero-filled table reads (0, 0, 0) in every slot. */
  lemma ZeroTableSlots(e: nat)
    requires e < NVariables
    ensures SlotAt(ZeroTable(), e) == Slot(0, 0, 0)
  {
  }
}
