# BLE-FTP session engine, modelled in Dafny

This project models the client side of a small file-transfer protocol carried over Bluetooth Low
Energy (BLE-FTP). The model covers the engine in `www/js/ble-ftp.js` and the local file-name helpers
in `www/js/util.js`.

The engine keeps module-level state:

- the connection state (DISCONNECTED, CONNECTING, CONNECTED, DISCONNECTING);
- the device handle and the previous handle kept for pause/resume;
- the table of devices found while scanning;
- a transfer counter (`ftp_xid`) and the negotiated chunk size;
- two single-flight FIFO queues: one for single radio operations, one for whole transfers.

A transfer writes a 20-byte request packet `[opcode, xid, name…, zeros]`. A read then issues reads
until a `DATA_FINAL` packet arrives. A write slices the file into chunk-size blocks and sends each
one as `[opcode, xid, bytes…]`, marking the last block `DATA_FINAL`.

The model has these files:

- `bytes.dfy`: `stuffBytes` on an array, with JavaScript's 32-bit `&` and `>>=` written out.
- `framing.dfy`: the packet layouts, their decoders and the methods that build the packets.
- `call_chain.dfy`: the queue as a class, plus a pure trace semantics. It is proved FIFO and single-flight.
- `chunk_size.dfy`: the chunk size chosen by `requestMtu`.
- `transfer.dfy`: the read loop, the write loop and the write preconditions. The radio's answers are inputs.
- `session.dfy`: the connection state machine as pure transition functions, and the `BleFtp` class. Each of the class's methods is proved against those functions; the two transfer runners use the corrected transfer code described under "## Findings".
- `decimal.dfy` and `export_name.dfy`: `util.toString`, `util.dateToCode` and the local file name built by `util.export_file`.

Radio results, FileReader reads and user events enter as parameters. UTF-8 encoding and
`TextDecoder` are function-typed parameters.

## Model

| member | source | states |
|---|---|---|
| Bytes.StuffBytes | www/js/ble-ftp.js:129-143 | The array passed in is returned and now holds `Stuffed` of its old contents. With no array, a fresh zero-filled one of the fallback length is stuffed. |
| Bytes.StuffedIsBigEndian | www/js/ble-ftp.js:137-141 | The cells `pos .. pos+bytes-1`, read big-endian, hold the value modulo 256^bytes. |
| Bytes.StuffedOneByte | www/js/ble-ftp.js:137-141 | A one-byte stuff writes `value % 256` at `pos` and leaves every other cell unchanged. |
| Bytes.ToInt32 | www/js/ble-ftp.js:139-140 | The 32-bit conversion of the bitwise operators lies in the int32 range and agrees with its input modulo 2^32. It is the identity on int32 values. |
| Bytes.ShiftedOuter | www/js/ble-ftp.js:140 | Shifting k+1 times with `>>= 8` equals shifting the first result k more times. |
| Bytes.BlockIsBigEndian | www/js/ble-ftp.js:137-141 | The bytes written, most significant first, read back as the value modulo 256^n. |
| CallChain.ExecStep | www/js/ble-ftp.js:168-180 | The unit invoked, followed by the units still queued, equals the units that were queued. The queue is busy exactly when a unit was invoked. An empty list goes idle. |
| CallChain.AddStep | www/js/ble-ftp.js:187-192 | The entry is appended at the tail. A busy queue invokes nothing. What is invoked plus what stays queued is the old queue plus the new entry. An idle empty queue runs the new function at once. |
| CallChain.StepKeepsFifo | www/js/ble-ftp.js:164-192 | One add or continuation keeps "invoked ++ queued" equal to the queued units plus the pushed entry. |
| CallChain.RunIsFifo | www/js/ble-ftp.js:164-192 | Over any sequence of adds and continuations, the units invoked so far followed by those still queued are exactly the units pushed, in push order. |
| CallChain.RunIsSingleFlight | www/js/ble-ftp.js:168-192 | When only the running unit calls its continuation, the units invoked number the continuations called, plus one while busy. So unit k+1 starts only after unit k has finished. An idle queue of functions is empty. |
| CallChain.WellBehavedPrefix | www/js/ble-ftp.js:173-175 | A well-behaved run of continuations stays well-behaved on every prefix. |
| CallChain.Chain.constructor | www/js/ble-ftp.js:164-166 | The queue starts empty and idle. |
| CallChain.Chain.Exec | www/js/ble-ftp.js:168-180 | The new list and busy flag are `ExecStep` of the old ones, and the invoked unit is recorded as running. |
| CallChain.Chain.Add | www/js/ble-ftp.js:187-192 | The new list and busy flag are `AddStep` of the old ones. A running unit stays the running unit. |
| CallChain.Chain.Next | www/js/ble-ftp.js:173-175 | The continuation given to a running unit performs `ExecStep`. |
| CallChain.Chain.Clear | www/js/ble-ftp.js:843-846 | The reset in `ble.disconnect` leaves the queue empty and idle. |
| ChunkSize.Clamp | www/js/ble-ftp.js:376-377 | The result is in [18, 510]. In-range values are kept, values over the range become 510 and values under it become 18. |
| ChunkSize.MtuOutcome | www/js/ble-ftp.js:365-400 | iOS gives 180 and true. A refused MTU keeps the chunk size and resolves false. On Android a granted MTU resolves true with the chunk exactly `Clamp(mtu − 5)` for an integer MTU and `Clamp` of the old chunk otherwise, so an MTU of 10 gives 18. Any other platform never resolves. |
| ChunkSize.GrantedChunkFits | www/js/ble-ftp.js:54-74 | For a granted MTU of at least 23, chunk + 2 + 3 ≤ MTU and chunk + 2 ≤ 512. |
| ChunkSize.FullMtuGivesMaxChunk | www/js/ble-ftp.js:371-377 | Being granted the requested 515 gives the maximum chunk of 510. |
| ChunkSize.OutcomeKeepsRange | www/js/ble-ftp.js:371-396 | Every outcome keeps an in-range chunk size in range. |
| Framing.XidByte | www/js/ble-ftp.js:1223-1229 | The xid byte equals the counter below 256 and agrees with it modulo 256. |
| Framing.Decode | www/js/ble-ftp.js:1296-1306 | A reply splits into opcode, xid byte and payload exactly when it has at least 2 bytes. |
| Framing.Encode | www/js/ble-ftp.js:1364-1368 | A data packet has length payload + 2, and decoding it gives back opcode, xid and payload. |
| Framing.DecodeThenEncode | www/js/ble-ftp.js:1364-1368 | Re-encoding a decoded packet gives the original bytes. |
| Framing.RequestPacket | www/js/ble-ftp.js:1225-1233 | A request exists exactly when the name has at most 18 bytes. It is 20 bytes: the opcode, the xid byte, and from byte 2 on exactly the name followed by zeros up to the end. |
| Framing.UntilZeroPadded | www/js/ble-ftp.js:1231-1233 | Zero padding after a name without zero bytes is cut off again at the first zero. |
| Framing.RequestRoundTrip | www/js/ble-ftp.js:1225-1233 | A peer parsing the request packet recovers the opcode, the xid byte and the name. |
| Framing.StuffHeader | www/js/ble-ftp.js:1228-1229 | Stuffing opcode and xid writes bytes 0 and 1 and leaves the rest unchanged. |
| Framing.CopyPadded | www/js/ble-ftp.js:1231-1233 | `Uint8Array(20).set(cmd8)` gives the bytes followed by zeros. |
| Framing.BuildRequest | www/js/ble-ftp.js:1221-1233 | The array built holds exactly `RequestPacket`, and it is built exactly when the name fits. |
| Framing.BuildDataPacket | www/js/ble-ftp.js:1364-1368 | A fresh array holding `[opcode, xid byte, data…]`. |
| Transfer.Classify | www/js/ble-ftp.js:1289-1313 | CONT and FINAL exactly when the reply has ≥2 bytes, byte 1 equals the expected xid and byte 0 is 0x01 or 0x03. Bad exactly when the read failed, is too short or has the wrong xid. |
| Transfer.ReadFrom | www/js/ble-ftp.js:1284-1320 | The text completed starts with the text so far. Waiting means every reply was a matching CONT. Hung means some reply carried an unknown opcode. |
| Transfer.ReadFromCharacterised | www/js/ble-ftp.js:1284-1320 | After the leading run of matching CONT replies: a FINAL completes with all payloads decoded one by one and concatenated; an unknown opcode hangs; a bad reply gives null; no further reply leaves a read outstanding. |
| Transfer.DecodeEachSnoc | www/js/ble-ftp.js:1306-1307 | Decoding one more payload appends its text at the end. |
| Transfer.ReadReassembles | www/js/ble-ftp.js:1303-1313 | CONT packets then a FINAL packet echoing the xid give the decoded payloads in order. Replies after FINAL are ignored. |
| Transfer.ReadLoop | www/js/ble-ftp.js:1284-1320 | The loop's outcome is `ReadFrom` from empty text. It issues one read plus one more per matching CONT reply. |
| Transfer.ReadTransfer | www/js/ble-ftp.js:1236-1328 | A name over 18 bytes never reports. A failed request write calls `done_cb` with no argument (undefined, www/js/ble-ftp.js:1254, 1275), which is kept apart from null. Otherwise the read loop runs, comparing against the xid byte sent. |
| Transfer.ReadTransferCharacterised | www/js/ble-ftp.js:1284-1328 | Once the request is written: after the run of matching CONT replies, FINAL reports all payloads decoded in order, a bad reply reports null, an unknown opcode hangs, and no further reply waits. |
| Transfer.ReadTransferAsWritten | www/js/ble-ftp.js:1296-1301 | Comparing against the unmasked counter agrees with the corrected read for counters below 256. |
| Transfer.UnmaskedXidFailsEveryRead | www/js/ble-ftp.js:1296-1301 | As written, from counter 256 on, every read reports null whatever the peer sends. |
| Transfer.MaskedXidReadsEcho | www/js/ble-ftp.js:1296-1313 | With the masked compare, a peer echoing the xid byte is read in full for every counter value. |
| Transfer.BlockAt | www/js/ble-ftp.js:1486-1495 | A block is the slice at the offset, of chunk-size length, or the rest of the file when less remains. |
| Transfer.PlanUnfold | www/js/ble-ftp.js:1428-1433 | A block that ends before the file end is CONT and is followed by the blocks from the next offset. A block that reaches the end is the single FINAL one. |
| Transfer.PlanShape | www/js/ble-ftp.js:1428-1433 | The plan has at least one block and only its last block is FINAL. Every block has at most cs bytes, and every block before the last has exactly cs bytes. |
| Transfer.PlanConcat | www/js/ble-ftp.js:1486-1495 | The payloads of the blocks concatenate to the file from the offset on. |
| Transfer.PlanLength | www/js/ble-ftp.js:1486-1495 | The number of blocks is ⌈size/cs⌉, and 1 for an empty file. |
| Transfer.WriteFrom | www/js/ble-ftp.js:1441-1455 | A chunk loop never hangs. False is reported only after a failed write. Waiting means every write so far succeeded. |
| Transfer.WriteFromCharacterised | www/js/ble-ftp.js:1441-1455 | With k the first failed write and n the block count: k < n gives false, n successes give true, and fewer results leave a write outstanding. |
| Transfer.Wire | www/js/ble-ftp.js:1453-1465 | Every packet sent decodes to its block's opcode and payload under the one xid byte of the transfer. |
| Transfer.ChunkLoopTurn | www/js/ble-ftp.js:1420-1469 | Block i of the plan is the block read at the current offset, with the opcode the handler picks. Its write either ends the transfer as the plan says or moves on to block i+1. |
| Transfer.WriteChunks | www/js/ble-ftp.js:1420-1495 | The loop's verdict is `WriteFrom`. The packets it sends are the wire form of the plan's blocks up to and including the first failed write. |
| Transfer.WriteTransfer | www/js/ble-ftp.js:1453-1462 | A name over 18 bytes never reports. A failed request write reports false. |
| Transfer.AllWritesSucceed | www/js/ble-ftp.js:1441-1465 | When every write succeeds, the transfer reports true. |
| Transfer.WriteTransferCharacterised | www/js/ble-ftp.js:1441-1465 | Once the request is written: the first failed chunk write within the plan reports false, writing the whole plan reports true, and results that stop short wait. |
| Transfer.PrecheckAsWritten | www/js/ble-ftp.js:1389-1418 | As written, the transfer goes ahead only for a string or Blob source with nothing reported. |
| Transfer.CheckSource | www/js/ble-ftp.js:1389-1418 | Corrected checks: a transfer goes ahead exactly when the File APIs exist, the source is a string or Blob, and the size is ≤ 1 MiB. It then reports nothing yet. Every rejection reports false once. |
| Transfer.TextSourceGetsBom | www/js/ble-ftp.js:1389-1393 | A string source is sent as `EF BB BF` followed by its UTF-8 bytes. |
| Transfer.PrecheckAgreesOnFiles | www/js/ble-ftp.js:1395-1418 | The written and corrected checks agree on every string or Blob source. |
| Transfer.PrecheckReportsTwice | www/js/ble-ftp.js:1395-1407 | As written, a non-Blob source without File APIs reports false twice. |
| Transfer.WriteFtp | www/js/ble-ftp.js:1337-1511 | With the missing `return` added, `ble.writeFTP` reports at most once, and reports false for every rejected source. |
| Decimal.NatToString | www/js/util.js:35 | Decimal digits, without leading zeros. |
| Decimal.NatToStringRoundTrip | www/js/util.js:35 | The digits read back as the number. |
| Decimal.NatToStringInjective | www/js/util.js:35 | Distinct numbers have distinct digits. |
| Decimal.IntToString | www/js/util.js:35 | The text starts with `-` exactly for a negative integer; after it come one or more digits without a leading zero. |
| Decimal.IntToStringRoundTrip | www/js/util.js:35 | An integer's text parses back to the integer. |
| ExportName.ToString | www/js/util.js:31-36 | '' exactly for null, undefined or the empty string. A string is returned as is. An integer's text parses back to it. |
| ExportName.Pad | www/js/util.js:236-241 | A number below 100 becomes two digits whose value is the number. |
| ExportName.Millis3 | www/js/util.js:249 | Milliseconds 0..999 become three digits whose value is the milliseconds. |
| ExportName.DateTail | www/js/util.js:244-249 | The tail is 19 characters with the separators `-`, `-`, `_`, `:`, `:` and `.` at positions 0, 3, 6, 9, 12 and 15. |
| ExportName.DateToCode | www/js/util.js:234-250 | The code is the unpadded year followed by the 19-character tail "-MM-DD_hh:mm:ss.mmm" that `DateTail` gives. |
| ExportName.TailRoundTrip | www/js/util.js:244-249 | Reading the tail back, which checks the six separators, yields month+1, day, hours, minutes, seconds and milliseconds, each at its fixed place. |
| ExportName.DateCodeRoundTrip | www/js/util.js:234-250 | Every date field is read back from the code, so distinct dates give distinct codes. |
| ExportName.LastIndexOf | www/js/util.js:261 | Gives the index of the last occurrence, with none after it, or −1 exactly when there is none. |
| ExportName.AfterLast | www/js/util.js:260 | `split(c).pop()` is a suffix without `c`. When `c` occurs, the character just before that suffix is a `c`, so it is the text after the last one; with no `c` it is the whole string. |
| ExportName.StripPath | www/js/util.js:260 | The stripped name is the longest suffix of the path holding neither `/` nor `\`: a suffix with neither separator, preceded by `/` or `\` when shorter than the path, and the whole path when neither occurs. |
| ExportName.BaseName | www/js/util.js:261 | With no dot the base is empty. |
| ExportName.Extension | www/js/util.js:264 | The extension is a dot-free suffix, and the whole name when there is no dot. |
| ExportName.BaseDotExtension | www/js/util.js:261-264 | A name with a dot is its base, a dot and its extension. |
| ExportName.Sanitise | www/js/util.js:263 | The result holds only word characters and `-`, with no `--`. It is empty exactly when the input is. It starts with `-` exactly when the input starts with a non-word character. |
| ExportName.SanitiseRun | www/js/util.js:263 | After a stretch of word characters, a maximal run of other characters followed by a word character or the end becomes exactly one `-`, and sanitising goes on after the run. |
| ExportName.SanitiseLeadingRun | www/js/util.js:263 | A leading maximal run of non-word characters becomes exactly one `-`. |
| ExportName.SanitiseCleanPrefix | www/js/util.js:263 | Word characters in front are kept as they are, ahead of whatever the rest becomes. |
| ExportName.SkipWholeRun | www/js/util.js:263 | A run of non-word characters before a word character, or before the end, is consumed whole. |
| ExportName.SanitiseKeepsWords | www/js/util.js:263 | Sanitising keeps every word character, in order, and adds none. |
| ExportName.SanitiseClean | www/js/util.js:263 | A string of word characters is unchanged. |
| ExportName.SanitiseIdempotent | www/js/util.js:263 | Sanitising twice is sanitising once. |
| ExportName.SanitisedIsPlain | www/js/util.js:263 | A sanitised base holds no `/`, `\` or `.`. |
| ExportName.LocalFileName | www/js/util.js:258-265 | The local name holds no path separator. Its base is the sanitised stripped-remote base followed by `-` and the date code, and holds no dot. Its extension is the stripped remote name's extension. |
| ExportName.JoinSplits | www/js/util.js:261-265 | Joining a dot-free base and extension with a dot splits back into the two. |
| Session.ResolveTarget | www/js/ble-ftp.js:907-916 | No device exactly when there is no target and no handle. No target, or the empty (falsy) address, reuses the handle. An address is looked up among the known devices, else a bare device with that address is used. A device is used as given. |
| Session.ConnectLink | www/js/ble-ftp.js:907-920 | CONNECTING once a device is resolved. Otherwise nothing changes. |
| Session.DisconnectLink | www/js/ble-ftp.js:841-879 | The result is DISCONNECTING and no handle. The radio disconnect and close are called for the old handle, and nothing is called when there was none. |
| Session.DisconnectIdempotent | www/js/ble-ftp.js:851-870 | A second disconnect changes nothing and calls no radio primitive. |
| Session.LostLink | www/js/ble-ftp.js:319-332 | Connected with a handle: the handle is saved as previous, disconnected, and reconnected once. Otherwise the state becomes DISCONNECTED and the loss is reported. |
| Session.ReportLink | www/js/ble-ftp.js:278-316 | No result is ignored. "connected" stores the device and starts setup. "disconnected" for the current handle's address is a lost link, and for another address it is ignored. |
| Session.StepAccounting | www/js/ble-ftp.js:278-332 | A step that reconnects uses up the connection it had. Only a "connected" report makes a new connection. |
| Session.ReconnectBudget | www/js/ble-ftp.js:319-332 | In any run, reconnects ≤ "connected" reports + the connection there was at the start, so auto-reconnect is one-shot and never loops. |
| Session.StepKeepsHandle | www/js/ble-ftp.js:283-285 | A connected link always holds a handle. |
| Session.LostWhileNotConnected | www/js/ble-ftp.js:328-331 | A loss while not connected is reported and never retried. |
| Session.DoubleDoneStartsOverlappingTransfers | www/js/ble-ftp.js:1395-1407 | The double report runs the transfer queue's continuation twice, so a third transfer starts while the second is still running. |
| Session.BleFtp.constructor | www/js/ble-ftp.js:29-73 | The session starts DISCONNECTED, with no handle, no known devices, counter 0, the minimum chunk and both queues idle. |
| Session.BleFtp.Found | www/js/ble-ftp.js:719-727 | The device is inserted or replaced under its address, and nothing else changes. |
| Session.BleFtp.ClearFound | www/js/ble-ftp.js:821-824 | The known devices are emptied. |
| Session.BleFtp.Connect | www/js/ble-ftp.js:907-920 | State and device are `ConnectLink`. |
| Session.BleFtp.Disconnect | www/js/ble-ftp.js:841-879 | Both queues are empty and idle, the link is `DisconnectLink`, and the result is always true. |
| Session.BleFtp.AlreadyConnected | www/js/ble-ftp.js:970-974 | The device is adopted as the handle and then disconnected, leaving both queues empty and idle. The known devices, counter and chunk size are unchanged. |
| Session.BleFtp.LinkLost | www/js/ble-ftp.js:319-332 | The link, the reaction and the radio calls are `LostLink`. The reconnect branch empties both queues; otherwise they are untouched. The known devices, counter and chunk size are unchanged. |
| Session.BleFtp.OnReport | www/js/ble-ftp.js:278-316 | The link, the reaction and the radio calls are `ReportLink`. A report that tears the link down empties both queues; otherwise they are untouched. The known devices, counter and chunk size are unchanged. |
| Session.BleFtp.FinishSetup | www/js/ble-ftp.js:286-308 | The chunk size is `MtuOutcome`'s. An unresolved MTU stalls setup. A failed discovery or test read is a lost link, which empties both queues when it reconnects; otherwise they are untouched. |
| Session.BleFtp.Pause | www/js/ble-ftp.js:882-894 | The handle is remembered, then the link is disconnected, leaving both queues idle. The known devices, counter and chunk size are unchanged. |
| Session.BleFtp.Resume | www/js/ble-ftp.js:896-900 | Connects to the remembered handle, if any. The queues, known devices, counter and chunk size are unchanged. |
| Session.BleFtp.ReadFtp | www/js/ble-ftp.js:1263-1265 | The read is queued on the transfer queue (`AddStep`). |
| Session.BleFtp.WriteFtp | www/js/ble-ftp.js:1337-1338 | The write is queued on the transfer queue (`AddStep`). |
| Session.BleFtp.RunRead | www/js/ble-ftp.js:1221-1328 | Runs the queued read of that name. Takes the next xid. The outcome is `ReadTransfer`. A report, with text, null or undefined, moves the transfer queue on. The link, known devices and chunk size are unchanged. |
| Session.BleFtp.RunWrite | www/js/ble-ftp.js:1337-1511 | Runs the queued write of that name and source. Takes the next xid only when the source passes the checks. The verdicts are `WriteFtp`. A verdict moves the transfer queue on. The link, known devices and chunk size are unchanged. |

## Left out

- Radio I/O: the native plugin calls (permissions, adapter set-up, scanning and the known-device refresh, `discover`, `subscribe`, the device-information reads and `isConnected`/`wasConnected`) are not modelled. Their results enter as parameters: read replies, write results, MTU replies, status reports.
- Asynchrony: Promises, the 500 ms timeout around the radio disconnect and the priority requests are not modelled. Each continuation is one step. A disconnect is treated as completing, and priority requests are no-ops.
- The transfer's single radio operations are not routed through the operations queue. The model has that queue, and it is cleared by disconnect. The single-flight property is proved for the queue itself.
- Continuations that arrive after a disconnect has cleared the queues are not modelled.
- The chunk size is taken as fixed for the length of one write transfer.
- FileReader errors, and the DEBUG-only null checks, are not modelled.
- Sources are a string, a Blob, or anything else. Duck-typed objects with a `size` are not modelled.
- The file name reaches the model as bytes that are already UTF-8 encoded. `TextEncoder`/`TextDecoder` are function parameters.
- `util.toString` is modelled for null, undefined, strings and integers. Floating-point values and objects are not modelled.
- `util.dateToCode` takes integer date fields. It is not modelled how `toFixed` rounds floating-point values, because milliseconds 0..999 are exact there.
- The integer text assumes an integer below 10^21, with no exponent form.
- The rest of `util.export_file` (writing the file) is not modelled.
- Session.BleFtp.RunRead, Session.BleFtp.RunWrite: run the corrected transfer code, not the code as written. RunRead compares replies with the xid byte sent rather than the full counter (www/js/ble-ftp.js:1298); the as-written compare is `Transfer.ReadTransferAsWritten`. RunWrite uses the checks with the missing `return` added (www/js/ble-ftp.js:1397-1399); the as-written checks are `Transfer.PrecheckAsWritten`.
- Transfer.PrecheckAsWritten, Transfer.CheckSource: the `fileApis` flag stands for `File`, `FileReader` or `FileList` missing while `Blob` is present. When `Blob` itself is missing, `new Blob` (www/js/ble-ftp.js:1390) or `instanceof Blob` (www/js/ble-ftp.js:1396) throws before anything is reported; that environment is not modelled.
- Bytes.StuffedIsBigEndian: states the big-endian reading for values below 2^31 only, not for the whole unsigned 32-bit range the doc comment names; every call site stuffs one byte, which `Bytes.StuffedOneByte` covers for every value.
- Transfer.WriteFtp: does not state the verdict of a transfer that goes ahead. That verdict is given by `WriteTransfer` and `WriteFromCharacterised`.

## Findings

| source | as written | input that shows it | evidently intended | confidence | as-written member | corrected member |
|---|---|---|---|---|---|---|
| www/js/ble-ftp.js:1298 | Byte 1 of a reply is compared with the full transfer counter, but only `xid & 0xFF` was sent (www/js/ble-ftp.js:1229). | The 256th transfer of a session: the peer echoes byte 0, and 0 ≠ 256. | Compare with the xid byte that was sent. | not executed | Transfer.UnmaskedXidFailsEveryRead | Transfer.MaskedXidReadsEcho |
| www/js/ble-ftp.js:1397-1399 | The non-Blob branch reports false but does not return, so later checks can report false again and the transfer queue moves on twice. | A non-Blob source with `File`, `FileReader` or `FileList` missing and `Blob` present, queued ahead of two more transfers. | Return after reporting false. | not executed | Transfer.PrecheckReportsTwice | Transfer.CheckSource |
