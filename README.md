# Dumpulse in Dafny

Dumpulse is a heartbeat daemon small enough for a microcontroller. It keeps
a fixed 260-byte table: a 4-byte checksum prefix followed by 64 four-byte
records, each holding a little-endian 16-bit timestamp, a sender byte and a
value byte. Its single entry point, `dumpulse_process_packet`, takes an
8-byte request and does one of three things:

- A heartbeat has byte 4 equal to 0xf1. The engine checks the little-endian
  checksum in bytes 0..3 against its own Adler-32 variant of bytes 4..7. It
  then writes (current time, sender, value) into the variable's record.
- The exact request `AreyouOK` stamps the checksum of table bytes 4..259 into
  bytes 0..3 and sends the whole table.
- Anything else returns 0.

The C client `udpclient.c` builds heartbeat ("set") packets with a copy of
the checksum and decodes the report the engine sends.

The project models:

- `little_endian.dfy` (module `LittleEndian`): the byte and word types, and
  the little-endian store and fetch of `dumpulse.c`. The stores work on an
  array in place.
- `layout.dfy` (module `Layout`): the constants and table layout of
  `dumpulse.h`, and a `Slot` view of one record.
- `checksum.dfy` (module `Checksum`): the hand-rolled Adler-32 loop as a
  method, proved against a recursive specification. It covers uint32
  wrap-around, the "reduce when the remaining length is a multiple of the
  period" rule (period 4096 in the engine, 256 in the client), and the final
  `b << 16 | a` as a real bitwise OR. It relates this loop to Adler-32 as
  section 2.2 of RFC 1950 defines it.
- `engine.dfy` (module `Engine`): the `dumpulse` struct as a class
  `Dumpulse` whose table is an `array` that its methods update in place.
  Each method is proved equal to a function on table values (`ProcessOf` and
  its helpers), and the lemmas state what the engine promises about those
  functions. The two callbacks become data:
  - the time `dumpulse_get_timestamp` would return is the input `ts`;
  - `clockRead` says whether the engine asked for it;
  - the packet given to `dumpulse_send_packet` is the output `sent`.
- `client.dfy` (module `Client`): the set packet of `set_var`, and the size
  check and decoding loop of `health_report`. The record lines that
  `health_report` prints become a `Report` value.
- `protocol.dfy` (module `Protocol`): the client and engine together.
  - Set packets are accepted.
  - Reports decode back to the table's records.
  - A set followed by a query shows the set.
  - A packet built with a library Adler-32 is identical to the client's.
  - Two concrete traces: the `__main__` block of `server.py` and the packet
    of `loopbench.c`.
- `wrappers.dfy`: `Option`.

Bytes are unsigned (0..255) throughout. The engine requires exactly 8
request bytes, as `dumpulse.h:23-25` says it takes no length and its callers
filter on length (`udpserver.c:80`, `server.py:57`).

Byte 4 of the query token `AreyouOK` is `o` (0x6f), so a query never
takes the heartbeat path. The engine's checksum of the 256 report bytes can
differ from standard Adler-32: it agrees whenever s2 stays below 2 * 65521
(`ReportStandardWhenSmall`), which covers the all-zero table and tables with
a few small records, and `ReportDivergesFromStandard` shows a table where it
differs.

The engine is modelled with the guard of update_entry corrected to
`entry >= 64`; the guard as written, which lets variable 64 through, is
modelled beside it (see Findings).

## Model

| member | source | states |
|---|---|---|
| LittleEndian.StoreU16 | dumpulse.c:20-24 | writes the low byte of v at p[off] and the high byte at p[off+1]; every other array element is unchanged |
| LittleEndian.StoreU32 | dumpulse.c:26-30 | two u16 stores (v mod 2^16 at off, v >> 16 at off+2) leave exactly the four little-endian bytes of v at off..off+3 and nothing else changed |
| LittleEndian.LeU16 | dumpulse.c:20-24 | the two stored bytes recombine, low byte first, to v |
| LittleEndian.FetchOfStore | dumpulse.c:26-40 | fetching the four bytes a u32 store writes returns the stored value |
| LittleEndian.StoreOfFetch | dumpulse.c:26-40 | storing the value fetched from any four bytes reproduces those bytes |
| LittleEndian.LeU32Halves | dumpulse.c:26-30 | the u32 encoding is the u16 encoding of the low half followed by that of v >> 16 |
| LittleEndian.FetchU32 | dumpulse.c:32-40 | q[0] OR q[1] << 8 OR q[2] << 16 OR q[3] << 24, the ORs written as sums of disjoint byte lanes; storing the fetched value little-endian gives back the four bytes fetched |
| LittleEndian.FetchAfterSplice | dumpulse.c:32-40 | a fetch at an offset just written by a u32 store returns the stored value, whatever surrounds it |
| LittleEndian.Splice | dumpulse.c:20-30 | an in-place write of w at off keeps the length, holds w at off.., and leaves every other byte unchanged |
| Layout.Sizes | dumpulse.h:3-13 | records are 2+1+1 = 4 bytes, the table is 260 bytes, the heartbeat payload fills the 8-byte request after the 4-byte checksum, and the query token's byte 4 is not the heartbeat magic |
| Layout.RecordInTable | dumpulse.h:17-20 | the record of every variable below 64 lies inside the table and after the checksum prefix |
| Layout.RecordsDisjoint | dumpulse.c:49 | records of distinct variables do not overlap |
| Layout.RecordOwning | dumpulse.h:17-20 | every table byte after the prefix lies in exactly the record of variable (k-4)/4 |
| Layout.SlotRoundTrip | dumpulse.c:49-52 | a record reads back as the (timestamp, sender, value) written into it, and any four bytes are the encoding of what they read as |
| Layout.ZeroTableSlots | dumpulse.h:15 | a table zero-filled before use reads (0, 0, 0) in every slot |
| Checksum.Reduce | dumpulse.c:65-66 | the conditional subtraction never increases a sum and keeps it congruent mod 65521 |
| Checksum.Adler32 | dumpulse.c:56-70 | the loop, with its uint32 wrap-around, its period test on the remaining length and its final `b << 16` OR `a`, returns the checksum its specification defines for that period |
| Checksum.BitOrDisjoint | dumpulse.c:69 | OR of a multiple of 2^k with a number below 2^k is their sum |
| Checksum.BitOrBelow | dumpulse.c:69 | OR of two k-bit numbers has k bits, so the combined value fits 32 bits |
| Checksum.CombineSmall | dumpulse.c:69 | when a fits in 16 bits the result is (b mod 2^16) * 2^16 + a: the shift drops b's high half |
| Checksum.PlainBounds | dumpulse.c:59-62 | without reduction, s1 after n bytes is at most 1 + 255n, and s2 grows by at most the bound on s1 per byte |
| Checksum.SumsBeforeLast | dumpulse.c:60-67 | for an input no longer than the period (and at most 4096 bytes) the sums before the last byte are the plain, unreduced, unwrapped Adler-32 sums |
| Checksum.ShortInputSums | dumpulse.c:63-67 | for such an input the loop reduces once, on the last byte where len == 0, by one conditional subtraction of each sum |
| Checksum.ShortInputIsStandard | dumpulse.c:56-70 | on inputs of at most 22 bytes (the 4-byte heartbeat payload among them) the loop's result equals standard Adler-32, s2 * 65536 + s1 with both sums mod 65521, under either period |
| Checksum.ReportSums | dumpulse.c:86-88 | on the 256 report bytes s1 stays at most 65281 and is never reduced, and s2 is reduced once |
| Checksum.ReportChecksum | dumpulse.c:56-70 | the 256-byte report checksum has low half 1 + the sum of the bytes (at most 65281) and high half the low 16 bits of s2 after at most one subtraction of 65521 |
| Checksum.ReportStandardWhenSmall | dumpulse.c:86-88 | when s2 of the 256 report bytes stays below 2 * 65521 the report checksum is the standard Adler-32 of RFC 1950 |
| Checksum.PeriodsAgreeUpTo | udpclient.c:18-31 | on inputs of at most 256 bytes the client's copy (reducing on `len & 0xff`) and the engine's loop (`len & 0xfff`) have equal sums after every byte |
| Checksum.PeriodsAgree | udpclient.c:18-31 | on inputs of at most 256 bytes the client's and the engine's checksums are equal |
| Checksum.ConstantSums | dumpulse.c:59-62 | closed forms of the plain sums over n copies of one byte c: s1 - 1 = c*n and s2 = n + c*n(n+1)/2 |
| Checksum.ZeroReportChecksum | dumpulse.c:86-88 | the report of an all-zero table carries the checksum 0x01000001 |
| Checksum.ReportDivergesFromStandard | dumpulse.c:63-69 | 256 bytes of 0xff give 0x008fff01 where RFC 1950 gives 0x0800ff01: one reduction and the 16-bit truncation of b make the report checksum non-standard, as udpclient.py:20-25 observes |
| Engine.Dumpulse.constructor | dumpulse.h:15-20 | a new engine owns a fresh 260-byte table filled with zeros |
| Engine.Dumpulse.UpdateEntry | dumpulse.c:42-54 | a variable of 64 or above returns 0 with the table untouched; otherwise the LE timestamp, sender and value are written at 4 + 4*entry, 1 is returned and nothing else changes |
| Engine.Dumpulse.ProcessHeartbeat | dumpulse.c:72-82 | a little-endian fetch of bytes 0..3 different from the checksum of bytes 4..7 returns 0 without touching the table or the clock; otherwise the result of the update with payload bytes 1..3 |
| Engine.Dumpulse.SendResponse | dumpulse.c:84-90 | bytes 0..3 of the table become the LE checksum of bytes 4..259, and the whole 260-byte table is the packet sent |
| Engine.Dumpulse.ProcessPacket | dumpulse.c:92-101 | status, new table, clock use and sent packet are those of the dispatch: heartbeat on byte 4 == 0xf1, report on exactly `AreyouOK`, else 0 |
| Engine.ReportStamped | dumpulse.c:84-90 | the report leaves table bytes 4..259 as they were and its prefix, fetched LE, is the checksum of those bytes |
| Engine.AcceptedExactly | dumpulse.c:92-101 | with the corrected guard, the status is 0 or 1, and it is 1 exactly for the query token or a heartbeat whose checksum matches and whose variable is below 64 |
| Engine.RejectionIsInert | dumpulse.c:80 | any rejected request leaves the table unchanged, reads no clock and sends nothing |
| Engine.OutOfRangeIgnored | dumpulse.c:48 | with the corrected guard, a heartbeat for a variable of 64 or above returns 0 and changes nothing, as test.py:44 expects |
| Engine.AcceptedHeartbeat | dumpulse.c:42-54 | a valid heartbeat for e < 64 returns 1, reads the clock once, sends nothing, sets slot e to (ts, sender, value), and leaves every byte outside record e, the prefix included, and every other slot as it was |
| Engine.QueryKeepsSlots | dumpulse.c:84-90 | a query changes no slot |
| Engine.QueryIdempotent | dumpulse.c:84-90 | two queries with nothing in between send byte-identical reports and leave the same table |
| Engine.SendsOnlyReports | dumpulse.c:89 | a packet is sent exactly when the request is the query token, and it is the whole stamped 260-byte table |
| Engine.UpdateEntryInBounds | dumpulse.c:48-49 | with the corrected guard, update_entry accepts exactly the variables whose record lies inside the table, and a refusal changes nothing |
| Engine.GuardAsWritten | dumpulse.c:48 | the guard as written passes exactly the entries whose record starts at or before byte 260, the end of the table: one entry more than fit |
| Engine.HeartbeatStatusAsWritten | dumpulse.c:72-82 | with the guard as written, process_heartbeat returns 1, and only then reads the clock, exactly when the checksum matches and the record starts no later than the end of the table |
| Engine.GuardAsWrittenOverruns | dumpulse.c:48-49 | the guard as written lets variable 64 through, and its record starts at byte 260, the end of the table |
| Engine.ProcessSignedOf | dumpulse.c:92-101 | where plain char is signed, the dispatch agrees with the unsigned one on every request whose byte 4 is not 0xf1 |
| Engine.SignedCharRejectsHeartbeats | dumpulse.c:94 | where plain char is signed, every request with byte 4 equal to 0xf1 returns 0, changes nothing and sends nothing: no heartbeat is ever accepted |
| Client.SetPacket | udpclient.c:69-78 | the set packet is 8 bytes: 0xf1, var, sender and val each kept mod 256, after an LE checksum that fetches back as the client checksum of those four bytes |
| Client.SetVar | udpclient.c:69-78 | the local buffer filled in place and then stamped with the checksum's four bytes is the set packet |
| Client.HealthReport | udpclient.c:43-65 | a recv failure or fewer than 4 bytes yields nothing; otherwise the records at offsets 4, 8, ... below `bytes`, the claimed LE checksum in bytes 0..3 and the client checksum of bytes 4..bytes-1 |
| Client.ReportRecordCount | udpclient.c:54-61 | the loop yields one record per 4-byte step below `bytes`, numbered v0, v1, ... in order, and exactly v0..v63 for a 260-byte reply |
| Client.ShortReplyRefused | udpclient.c:44-53 | a failed recv or a reply shorter than 4 bytes is refused |
| Protocol.SetPacketAccepted | udpclient.c:69-78 | every set_var packet passes the engine's checksum test (its LE prefix is the engine's checksum of its payload): with the corrected guard, for var mod 256 below 64 the engine returns 1 and writes (ts, sender, val) into that slot only, leaving the prefix; otherwise it returns 0 and changes nothing; it never sends |
| Protocol.Variable64AsWritten | dumpulse.c:48-53 | set_var's packet for variable 64 passes the checksum and, with the guard as written, gets status 1 and a clock read; the corrected engine returns 0 and changes nothing, as test.py:44 expects |
| Protocol.ReportClaimMatches | udpclient.c:63-65 | the prefix of a received report fetches as the client's checksum of bytes 4..259, the span the engine stamped |
| Protocol.ReportRecordsMatch | udpclient.c:54-59 | record v of a received report, read at offset 4v + 4, carries slot v of the table |
| Protocol.ReportDecodes | udpclient.c:54-65 | the 260 bytes a query sends decode to records v0..v63 carrying exactly the table's slots, and the recomputed checksum equals the claimed one |
| Protocol.SetThenQuery | test.py:44-64 | after a set of variable v < 64 is accepted, the report the next query sends, received into the 512-byte buffer whatever its other bytes, decodes to (ts, sender, value) at v, to the old slots elsewhere, and with a matching checksum |
| Protocol.LibraryPacketIsSetPacket | udpclient.py:33-35 | a set packet built with a library Adler-32 and stored LE is byte for byte set_var's packet |
| Protocol.FreshQuery | server.py:73-76 | on a zero-filled table a query returns 1, sends the table, stamps 0x01000001 and shows 64 zero records |
| Protocol.ServerMainTrace | server.py:70-90 | query, library-built set of variable 3 from 4 to 5, the invalid "12345678", query: statuses 1, 1, 0, 1, and the last report shows (12345, 4, 5) at slot 3 and zeros elsewhere |
| Protocol.BenchPayloadSums | loopbench.c:31 | the payload f1 3e 4b 53 has plain sums s1 = 462 and s2 = 1387 |
| Protocol.BenchPayloadChecksum | loopbench.c:31 | the engine's checksum of that payload is 0x056b01ce |
| Protocol.BenchPacketRejected | loopbench.c:31-33 | the benchmark's packet as written is rejected with the table unchanged, so the benchmark would abort |
| Protocol.BenchPacketLittleEndianAccepted | loopbench.c:11-14 | with its checksum stored little-endian the benchmark's heartbeat is accepted and sets variable 0x3e to (12345, 0x4b, 0x53) |

## Left out

- Sockets, `sendto`, `recv`, `printf`, `perror` and the program entry points of `udpclient.c` and `udpserver.c` are I/O. The received byte count becomes the input `bytes` of `Client.HealthReport`, and the printed lines become its result.
- `time(NULL)` in `udpserver.c` and the clock callback are a parameter `ts`.
- The `thread_local` current-engine pointer and function-pointer dispatch of `dumpulse_so.c` and the ctypes loader of `server.py` are foreign-call plumbing. Only the `__main__` exchange of `server.py` is kept, as `Protocol.ServerMainTrace`.
- `udpclient.py` uses `zlib.adler32`, a foreign library. It is modelled only by its packet shape (`Protocol.LibrarySetPacket`) with standard Adler-32 (`Checksum.StandardAdler32`).
- The Hypothesis harness of `test.py` calls an API that differs from `server.py` and `udpclient.py`. Only its assertions are used, as sources of properties.
- The benchmark loop and hex dump of `loopbench.c` are left out. Its packet is kept.
- Client.HealthReport: when `bytes` is not a multiple of 4, the last record reads buffer bytes past `bytes`. In C these are whatever `reply_buf` held before; here they are the buffer's contents as given.
- Client.SetVar: the `sendto` failure path (return 0) is not modelled.
- Engine.Dumpulse.ProcessPacket: requests are exactly 8 bytes; the C code reads whatever lies past a shorter buffer, which is outside the model.
- Engine.Dumpulse.ProcessPacket: bytes are read unsigned; the signed-char reading is `Engine.ProcessSignedOf` (see Findings).
- Engine.Dumpulse.ProcessHeartbeat: uses the corrected guard, so a valid heartbeat for variable 64 returns 0 here; as written it returns 1 (`Engine.HeartbeatStatusAsWritten`).
- Engine.AcceptedExactly: "1 exactly when the variable is below 64" holds only under the corrected guard `entry >= 64`; as written, variable 64 is also accepted.
- Engine.OutOfRangeIgnored: variable 64 returns 0 only under the corrected guard `entry >= 64`; as written it returns 1, reads the clock and writes past the table (`Protocol.Variable64AsWritten`).
- Protocol.SetPacketAccepted: a set packet for var mod 256 equal to 64 returns 0 and changes nothing only under the corrected guard `entry >= 64`; as written it returns 1.
- Engine.Dumpulse.ProcessPacket: a heartbeat for variable 64 returns 0 only under the corrected guard `entry >= 64`, which it takes from `UpdateEntry`.
- Engine.Dumpulse.UpdateEntry: uses the corrected guard `entry >= 64`; the guard as written is `Engine.GuardAsWritten` (see Findings), and the out-of-table write it allows is not modelled as memory.

## Findings

| source | as written | input that shows it | evidently intended | confidence | as-written member | corrected member |
|---|---|---|---|---|---|---|
| dumpulse.c:48 | `entry > dumpulse_n_variables` lets entry 64 through, and update_entry then writes table bytes 260..263, past the 260-byte table | a valid heartbeat for variable 64 | refuse every entry of 64 or above, as test.py:44 expects | not executed; follows from the header's sizes | Protocol.Variable64AsWritten | Engine.UpdateEntryInBounds |
| dumpulse.c:94 | `heartbeat_magic == data[4]` compares the int 0xf1 with a plain char, which is -15 where char is signed | any heartbeat, such as the set packet for variable 3 | compare the byte as unsigned | not executed; holds wherever char is signed | Engine.SignedCharRejectsHeartbeats | Engine.AcceptedHeartbeat |
| loopbench.c:31 | the packet holds checksum 0x056b01ce big-endian (05 6b 01 ce), but the engine fetches little-endian | the packet 05 6b 01 ce f1 3e 4b 53 | store it as ce 01 6b 05 | not executed; checksum derived by proof | Protocol.BenchPacketRejected | Protocol.BenchPacketLittleEndianAccepted |
