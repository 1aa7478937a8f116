/**
 * One BLE-FTP transfer (`ble.readFTP`, `ble.writeFTP`, `commonFTP` in www/js/ble-ftp.js), with the
 * radio's answers given as inputs: the sequence of read replies, or the sequence of write results.
 * UTF-8 encoding and `TextDecoder` are function parameters.
 */
module Transfer {
  import opened Options
  import opened Bytes
  import opened Framing

  /** What one `ble_read_bytes` gives back: an error, or the value (empty when the plugin reports none). */
  datatype ReadReply = ReadFailed | ReadValue(value: seq<Byte>)

  /** How the read side reacts to one reply. */
  datatype ReplyKind = Bad | Cont(payload: seq<Byte>) | Final(payload: seq<Byte>) | Unknown

  /**
   * The end of a read: `done_cb` called with the text or with null (ReadDone), called with no
   * argument at all after a failed request write (ReadDoneUndefined), no further callback at all
   * (Hung), or still waiting for the radio to answer the last read issued.
   */
  datatype ReadOutcome = ReadDone(text: Option<string>) | ReadDoneUndefined | ReadHung | ReadWaiting
  {
    /** `done_cb` has been called, so the transfer queue moves on. */
    predicate Reported() { ReadDone? || ReadDoneUndefined? }
  }

  /**
   * The checks of `ftp_read_inner` on one reply: failed, empty or short replies and replies whose
   * byte 1 differs from `expected` are Bad; otherwise the opcode decides.
   */
  function Classify(expected: int, reply: ReadReply): (k: ReplyKind)
    ensures k.Cont? || k.Final? ==>
      (reply.ReadValue? && Decode(reply.value).Some? && Decode(reply.value).value.xid == expected
       && k.payload == Decode(reply.value).value.payload)
    ensures k.Cont? <==>
      (reply.ReadValue? && |reply.value| >= DataPos && reply.value[XidPos] == expected && reply.value[OpcodePos] == OpDataCont)
    ensures k.Final? <==>
      (reply.ReadValue? && |reply.value| >= DataPos && reply.value[XidPos] == expected && reply.value[OpcodePos] == OpDataFinal)
    ensures k.Bad? <==> reply.ReadFailed? || |reply.value| < DataPos || reply.value[XidPos] != expected
  {
    match reply
    case ReadFailed => Bad
    case ReadValue(b) =>
      match Decode(b)
      case None => Bad
      case Some(p) =>
        if p.xid != expected then Bad
        else if p.opcode == OpDataFinal then Final(p.payload)
        else if p.opcode == OpDataCont then Cont(p.payload)
        else Unknown
  }

  /**
   * The read recursion from the current accumulated text `acc`: a CONT reply appends its decoded
   * payload and reads again, a FINAL reply completes with the whole text.
   */
  function ReadFrom(expected: int, replies: seq<ReadReply>, acc: string, decode: seq<Byte> -> string): (r: ReadOutcome)
    ensures r.ReadDone? && r.text.Some? ==> acc <= r.text.value
    ensures !r.ReadDoneUndefined?
    ensures r == ReadWaiting ==> forall i :: 0 <= i < |replies| ==> Classify(expected, replies[i]).Cont?
    ensures r == ReadHung ==> exists i :: 0 <= i < |replies| && Classify(expected, replies[i]).Unknown?
  {
    if replies == [] then ReadWaiting
    else
      match Classify(expected, replies[0])
      case Bad => ReadDone(None)
      case Unknown => ReadHung
      case Final(p) => ReadDone(Some(acc + decode(p)))
      case Cont(p) => ReadFrom(expected, replies[1..], acc + decode(p), decode)
  }

  /** The number of leading replies that are matching CONT packets. */
  function ContRun(expected: int, replies: seq<ReadReply>): (n: nat)
    ensures n <= |replies|
    ensures forall i :: 0 <= i < n ==> Classify(expected, replies[i]).Cont?
    ensures n < |replies| ==> !Classify(expected, replies[n]).Cont?
  {
    if replies == [] || !Classify(expected, replies[0]).Cont? then 0
    else 1 + ContRun(expected, replies[1..])
  }

  /** The payloads of those leading CONT replies, in order. */
  function ContPayloads(expected: int, replies: seq<ReadReply>): (ps: seq<seq<Byte>>)
    ensures |ps| == ContRun(expected, replies)
    ensures forall i :: 0 <= i < |ps| ==> ps[i] == Classify(expected, replies[i]).payload
  {
    if replies == [] || !Classify(expected, replies[0]).Cont? then []
    else [Classify(expected, replies[0]).payload] + ContPayloads(expected, replies[1..])
  }

  /** Each payload decoded on its own, the texts concatenated in order (`result_txt +=`). */
  function DecodeEach(decode: seq<Byte> -> string, payloads: seq<seq<Byte>>): string
  {
    if payloads == [] then "" else decode(payloads[0]) + DecodeEach(decode, payloads[1..])
  }

  lemma {:induction false} DecodeEachSnoc(decode: seq<Byte> -> string, payloads: seq<seq<Byte>>, last: seq<Byte>)
    ensures DecodeEach(decode, payloads + [last]) == DecodeEach(decode, payloads) + decode(last)
  {
    if payloads == [] {
      assert payloads + [last] == [last];
      assert DecodeEach(decode, [last]) == decode(last) + DecodeEach(decode, []);
    } else {
      assert (payloads + [last])[1..] == payloads[1..] + [last];
      DecodeEachSnoc(decode, payloads[1..], last);
    }
  }

  /**
   * The whole behaviour of the read loop: after the run of matching CONT replies, a FINAL reply
   * completes with all payloads decoded and concatenated, any other opcode hangs, a bad reply
   * completes with null, and running out of replies leaves a read outstanding.
   */
  lemma {:induction false} ReadFromCharacterised(expected: int, replies: seq<ReadReply>, acc: string,
                                                 decode: seq<Byte> -> string)
    ensures var k := ContRun(expected, replies);
      var text := acc + DecodeEach(decode, ContPayloads(expected, replies));
      && (k == |replies| ==> ReadFrom(expected, replies, acc, decode) == ReadWaiting)
      && (k < |replies| && Classify(expected, replies[k]).Final? ==>
            ReadFrom(expected, replies, acc, decode) == ReadDone(Some(text + decode(Classify(expected, replies[k]).payload))))
      && (k < |replies| && Classify(expected, replies[k]).Unknown? ==> ReadFrom(expected, replies, acc, decode) == ReadHung)
      && (k < |replies| && Classify(expected, replies[k]).Bad? ==> ReadFrom(expected, replies, acc, decode) == ReadDone(None))
  {
    if replies != [] && Classify(expected, replies[0]).Cont? {
      var p := Classify(expected, replies[0]).payload;
      ReadFromCharacterised(expected, replies[1..], acc + decode(p), decode);
      assert ContPayloads(expected, replies) == [p] + ContPayloads(expected, replies[1..]);
      assert acc + DecodeEach(decode, ContPayloads(expected, replies))
        == (acc + decode(p)) + DecodeEach(decode, ContPayloads(expected, replies[1..]));
    } else {
      assert ContPayloads(expected, replies) == [];
      assert acc + DecodeEach(decode, []) == acc;
    }
  }

  /** The reply a peer gives to a read with its xid byte, carrying one packet. */
  function Reply(opcode: Byte, xid: Byte, payload: seq<Byte>): ReadReply
  {
    ReadValue(Encode(Packet(opcode, xid, payload)))
  }

  function ContReplies(xid: Byte, payloads: seq<seq<Byte>>): (rs: seq<ReadReply>)
    ensures |rs| == |payloads|
  {
    seq(|payloads|, i requires 0 <= i < |payloads| => Reply(OpDataCont, xid, payloads[i]))
  }

  /**
   * Reassembly: a run of CONT packets followed by a FINAL packet, all echoing the expected xid
   * byte, completes with the decoded payloads concatenated in order; replies after FINAL are
   * never looked at.
   */
  lemma {:induction false} ReadReassembles(xid: Byte, payloads: seq<seq<Byte>>, last: seq<Byte>,
                                           rest: seq<ReadReply>, acc: string, decode: seq<Byte> -> string)
    ensures ReadFrom(xid, ContReplies(xid, payloads) + [Reply(OpDataFinal, xid, last)] + rest, acc, decode)
         == ReadDone(Some(acc + DecodeEach(decode, payloads + [last])))
  {
    var replies := ContReplies(xid, payloads) + [Reply(OpDataFinal, xid, last)] + rest;
    if payloads == [] {
      assert replies[0] == Reply(OpDataFinal, xid, last);
      assert Classify(xid, replies[0]) == Final(last);
      assert payloads + [last] == [last];
      assert DecodeEach(decode, [last]) == decode(last) + DecodeEach(decode, []) == decode(last) + "";
      assert decode(last) + "" == decode(last);
      assert ReadFrom(xid, replies, acc, decode) == ReadDone(Some(acc + decode(last)));
    } else {
      var p := payloads[0];
      assert replies[0] == Reply(OpDataCont, xid, p);
      assert Classify(xid, replies[0]) == Cont(p);
      assert replies[1..] == ContReplies(xid, payloads[1..]) + [Reply(OpDataFinal, xid, last)] + rest;
      ReadReassembles(xid, payloads[1..], last, rest, acc + decode(p), decode);
      assert (payloads + [last])[1..] == payloads[1..] + [last];
      var tail := DecodeEach(decode, payloads[1..] + [last]);
      assert DecodeEach(decode, payloads + [last]) == decode(p) + tail;
      assert ReadFrom(xid, replies, acc, decode) == ReadFrom(xid, replies[1..], acc + decode(p), decode);
      assert (acc + decode(p)) + tail == acc + (decode(p) + tail);
    }
  }

  /**
   * `ftp_read_inner` as a loop over the replies: returns the outcome and the number of reads
   * issued, which is one plus one more per matching CONT reply.
   */
  method ReadLoop(expected: int, replies: seq<ReadReply>, decode: seq<Byte> -> string)
    returns (r: ReadOutcome, readCount: nat)
    ensures r == ReadFrom(expected, replies, "", decode)
    ensures readCount == ContRun(expected, replies) + 1
  {
    var resultText := "";
    var i := 0;
    readCount := 1;
    while i < |replies|
      invariant 0 <= i <= |replies|
      invariant ReadFrom(expected, replies[i..], resultText, decode) == ReadFrom(expected, replies, "", decode)
      invariant ContRun(expected, replies) == i + ContRun(expected, replies[i..])
      invariant readCount == i + 1
    {
      assert replies[i..][0] == replies[i];
      assert replies[i..][1..] == replies[i + 1..];
      match Classify(expected, replies[i]) {
        case Bad =>
          return ReadDone(None), readCount;
        case Unknown =>
          return ReadHung, readCount;
        case Final(p) =>
          resultText := resultText + decode(p);
          return ReadDone(Some(resultText)), readCount;
        case Cont(p) =>
          resultText := resultText + decode(p);
          readCount := readCount + 1;
      }
      i := i + 1;
    }
    return ReadWaiting, readCount;
  }

  /**
   * A whole `ble.readFTP` transfer with transfer counter value `xid`, comparing replies against
   * the xid byte actually sent. A name too long for the request packet throws inside a promise
   * callback, so nothing is ever reported (Hung); a failed request write calls `done_cb` with
   * no argument, that is with undefined rather than null.
   */
  function ReadTransfer(xid: int, name: seq<Byte>, requestWritten: bool, replies: seq<ReadReply>,
                        decode: seq<Byte> -> string): (r: ReadOutcome)
    ensures |name| > MaxNameBytes ==> r == ReadHung
    ensures |name| <= MaxNameBytes && !requestWritten ==> r == ReadDoneUndefined
    ensures r.ReadDoneUndefined? ==> |name| <= MaxNameBytes && !requestWritten
  {
    if RequestPacket(OpReadReq, xid, name).None? then ReadHung
    else if !requestWritten then ReadDoneUndefined
    else ReadFrom(XidByte(xid), replies, "", decode)
  }

  /**
   * A sent read ends with the replies after the run of CONT replies: FINAL gives all the decoded
   * text, a bad reply gives null, an unknown opcode hangs; replies that stop inside the run wait.
   */
  lemma ReadTransferCharacterised(xid: int, name: seq<Byte>, replies: seq<ReadReply>, decode: seq<Byte> -> string)
    requires |name| <= MaxNameBytes
    ensures var e := XidByte(xid); var k := ContRun(e, replies);
      var r := ReadTransfer(xid, name, true, replies, decode);
      && (k == |replies| ==> r == ReadWaiting)
      && (k < |replies| && Classify(e, replies[k]).Final? ==>
            r == ReadDone(Some(DecodeEach(decode, ContPayloads(e, replies) + [Classify(e, replies[k]).payload]))))
      && (k < |replies| && Classify(e, replies[k]).Bad? ==> r == ReadDone(None))
      && (k < |replies| && Classify(e, replies[k]).Unknown? ==> r == ReadHung)
  {
    var e := XidByte(xid);
    ReadFromCharacterised(e, replies, "", decode);
    var k := ContRun(e, replies);
    if k < |replies| && Classify(e, replies[k]).Final? {
      DecodeEachSnoc(decode, ContPayloads(e, replies), Classify(e, replies[k]).payload);
      assert "" + DecodeEach(decode, ContPayloads(e, replies)) == DecodeEach(decode, ContPayloads(e, replies));
    }
  }

  /**
   * The read as written, comparing the xid byte of each reply with the unmasked transfer
   * counter (www/js/ble-ftp.js:1298).
   */
  function ReadTransferAsWritten(xid: int, name: seq<Byte>, requestWritten: bool, replies: seq<ReadReply>,
                                 decode: seq<Byte> -> string): (r: ReadOutcome)
    ensures 0 <= xid < 256 ==> r == ReadTransfer(xid, name, requestWritten, replies, decode)
  {
    if RequestPacket(OpReadReq, xid, name).None? then ReadHung
    else if !requestWritten then ReadDoneUndefined
    else ReadFrom(xid, replies, "", decode)
  }

  /**
   * From the 256th transfer on, the unmasked compare rejects the first reply whatever the peer
   * sends: every read fails with null, even a correct one-packet FINAL echo.
   */
  lemma UnmaskedXidFailsEveryRead(xid: int, name: seq<Byte>, replies: seq<ReadReply>, decode: seq<Byte> -> string)
    requires xid >= 256 && |name| <= MaxNameBytes && replies != []
    ensures ReadTransferAsWritten(xid, name, true, replies, decode) == ReadDone(None)
  {
    assert Classify(xid, replies[0]).Bad?;
  }

  /** The corrected compare: a peer that echoes the xid byte it was sent is read in full, for every counter value. */
  lemma MaskedXidReadsEcho(xid: int, name: seq<Byte>, payloads: seq<seq<Byte>>, last: seq<Byte>,
                           decode: seq<Byte> -> string)
    requires |name| <= MaxNameBytes
    ensures ReadTransfer(xid, name, true, ContReplies(XidByte(xid), payloads) + [Reply(OpDataFinal, XidByte(xid), last)], decode)
         == ReadDone(Some(DecodeEach(decode, payloads + [last])))
  {
    var replies := ContReplies(XidByte(xid), payloads) + [Reply(OpDataFinal, XidByte(xid), last)];
    assert replies + [] == replies;
    ReadReassembles(XidByte(xid), payloads, last, [], "", decode);
    assert "" + DecodeEach(decode, payloads + [last]) == DecodeEach(decode, payloads + [last]);
  }

  // ---------------------------------------------------------------- writing

  /** One block of the file as it goes on the wire: its opcode and its bytes. */
  datatype Block = Block(opcode: Byte, payload: seq<Byte>)

  function Min(a: int, b: int): int { if a <= b then a else b }

  function Concat(blocks: seq<Block>): seq<Byte>
  {
    if blocks == [] then [] else blocks[0].payload + Concat(blocks[1..])
  }

  /** The bytes `chunkReaderBlock` reads at offset `off`: `slice(off, off + cs)`. */
  function BlockAt(data: seq<Byte>, off: nat, cs: nat): (b: seq<Byte>)
    requires off <= |data|
    ensures |b| <= cs && b <= data[off..]
    ensures off + cs <= |data| ==> |b| == cs
    ensures off + cs >= |data| ==> b == data[off..]
  {
    data[off..Min(off + cs, |data|)]
  }

  /**
   * The blocks read from offset `off` on, in order, each sent as FINAL exactly when it reaches
   * the end of the data (`readOffset + buf.byteLength >= fileSize`).
   */
  function Plan(data: seq<Byte>, off: nat, cs: nat): seq<Block>
    requires off <= |data| && cs > 0
    decreases |data| - off
  {
    var block := BlockAt(data, off, cs);
    if off + |block| >= |data| then [Block(OpDataFinal, block)]
    else [Block(OpDataCont, block)] + Plan(data, off + |block|, cs)
  }

  /** One step of the plan: a full CONT block then the rest, or a single FINAL block. */
  lemma PlanUnfold(data: seq<Byte>, off: nat, cs: nat)
    requires off <= |data| && cs > 0
    ensures off + cs < |data| ==>
      Plan(data, off, cs) == [Block(OpDataCont, data[off..off + cs])] + Plan(data, off + cs, cs)
    ensures off + cs >= |data| ==> Plan(data, off, cs) == [Block(OpDataFinal, data[off..])]
  {
  }

  /**
   * The shape of the plan: at least one block, only the last one FINAL, every block at most
   * `cs` bytes and every block before the last exactly `cs` bytes.
   */
  lemma {:induction false} PlanShape(data: seq<Byte>, off: nat, cs: nat)
    requires off <= |data| && cs > 0
    ensures var r := Plan(data, off, cs);
      && |r| >= 1
      && r[|r| - 1].opcode == OpDataFinal
      && (forall i :: 0 <= i < |r| - 1 ==> r[i].opcode == OpDataCont && |r[i].payload| == cs)
      && (forall i :: 0 <= i < |r| ==> |r[i].payload| <= cs)
    decreases |data| - off
  {
    PlanUnfold(data, off, cs);
    if off + cs < |data| {
      PlanShape(data, off + cs, cs);
      var r := Plan(data, off, cs);
      assert forall i :: 1 <= i < |r| ==> r[i] == Plan(data, off + cs, cs)[i - 1];
    }
  }

  /** The blocks are consecutive slices: their payloads put together give back the data. */
  lemma {:induction false} PlanConcat(data: seq<Byte>, off: nat, cs: nat)
    requires off <= |data| && cs > 0
    ensures Concat(Plan(data, off, cs)) == data[off..]
    decreases |data| - off
  {
    PlanUnfold(data, off, cs);
    var r := Plan(data, off, cs);
    if off + cs < |data| {
      PlanConcat(data, off + cs, cs);
      assert r[1..] == Plan(data, off + cs, cs);
      assert data[off..] == data[off..off + cs] + data[off + cs..];
    } else {
      assert r[1..] == [];
      assert data[off..] + [] == data[off..];
    }
  }

  lemma PlanCountStep(data: seq<Byte>, off: nat, cs: nat)
    requires off <= |data| && cs > 0
    ensures off + cs < |data| ==> |Plan(data, off, cs)| == 1 + |Plan(data, off + cs, cs)|
    ensures off + cs >= |data| ==> |Plan(data, off, cs)| == 1
  {
    PlanUnfold(data, off, cs);
  }

  /** The block count: one block for at most `cs` bytes, one more for each further `cs` bytes. */
  lemma {:induction false} PlanLength(data: seq<Byte>, off: nat, cs: nat)
    requires off <= |data| && cs > 0
    ensures |Plan(data, off, cs)| == if |data| - off == 0 then 1 else (|data| - off + cs - 1) / cs
    decreases |data| - off
  {
    var m := |data| - off;
    PlanCountStep(data, off, cs);
    if m > cs {
      PlanLength(data, off + cs, cs);
      var q := (m - cs + cs - 1) / cs;
      var r := (m - cs + cs - 1) % cs;
      assert m - cs + cs - 1 == cs * q + r;
      ModUnique(m + cs - 1, cs, q + 1, r);
    } else if m > 0 {
      ModUnique(m + cs - 1, cs, 1, m - 1);
    }
  }

  /**
   * The chunk writes from offset `off`, given the result of each write in order: the first
   * failure ends with false, success of the FINAL block ends with true.
   */
  function WriteFrom(data: seq<Byte>, off: nat, cs: nat, results: seq<bool>): (r: WriteOutcome)
    requires off <= |data| && cs > 0
    ensures r != WriteHung
    ensures r == WriteDone(false) ==> false in results
    ensures r == WriteWaiting ==> forall i :: 0 <= i < |results| ==> results[i]
    decreases |data| - off
  {
    var block := BlockAt(data, off, cs);
    if results == [] then WriteWaiting
    else if !results[0] then WriteDone(false)
    else if off + |block| >= |data| then WriteDone(true)
    else WriteFrom(data, off + |block|, cs, results[1..])
  }

  /** The end of a write: `done_cb` called with the verdict, never called, or a write outstanding. */
  datatype WriteOutcome = WriteDone(ok: bool) | WriteHung | WriteWaiting

  /** Index of the first failed write, or the number of results when none failed. */
  function FirstFailure(results: seq<bool>): (k: nat)
    ensures k <= |results|
    ensures forall i :: 0 <= i < k ==> results[i]
    ensures k < |results| ==> !results[k]
  {
    if results == [] || !results[0] then 0 else 1 + FirstFailure(results[1..])
  }

  /**
   * The whole behaviour of the chunk writes against the plan: with k the first failure and n the
   * number of blocks, a failure among the blocks gives false, n successes give true, and fewer
   * results than that leave a write outstanding.
   */
  lemma {:induction false} WriteFromCharacterised(data: seq<Byte>, off: nat, cs: nat, results: seq<bool>)
    requires off <= |data| && cs > 0
    ensures var k := FirstFailure(results); var n := |Plan(data, off, cs)|;
      && (k < n && k < |results| ==> WriteFrom(data, off, cs, results) == WriteDone(false))
      && (k >= n ==> WriteFrom(data, off, cs, results) == WriteDone(true))
      && (k == |results| < n ==> WriteFrom(data, off, cs, results) == WriteWaiting)
    decreases |data| - off
  {
    PlanCountStep(data, off, cs);
    var block := BlockAt(data, off, cs);
    if results == [] {
    } else if !results[0] {
      assert FirstFailure(results) == 0;
    } else if off + cs >= |data| {
      assert off + |block| >= |data|;
      assert WriteFrom(data, off, cs, results) == WriteDone(true);
    } else {
      assert |block| == cs;
      assert WriteFrom(data, off, cs, results) == WriteFrom(data, off + cs, cs, results[1..]);
      assert FirstFailure(results) == 1 + FirstFailure(results[1..]);
      WriteFromCharacterised(data, off + cs, cs, results[1..]);
    }
  }

  /** A block on the wire: `writeFtpChunk`'s packet with the transfer's xid byte. */
  function Wire(xid: int, blocks: seq<Block>): (ps: seq<seq<Byte>>)
    ensures |ps| == |blocks|
    ensures forall i :: 0 <= i < |ps| ==> Decode(ps[i]) == Some(Packet(blocks[i].opcode, XidByte(xid), blocks[i].payload))
  {
    seq(|blocks|, i requires 0 <= i < |blocks| => Encode(Packet(blocks[i].opcode, XidByte(xid), blocks[i].payload)))
  }

  lemma WireSnoc(xid: int, blocks: seq<Block>, b: Block)
    ensures Wire(xid, blocks + [b]) == Wire(xid, blocks) + [Encode(Packet(b.opcode, XidByte(xid), b.payload))]
  {
  }

  /** The first block of the plan, and what follows it. */
  lemma PlanHead(data: seq<Byte>, off: nat, cs: nat)
    requires off <= |data| && cs > 0
    ensures var block := BlockAt(data, off, cs); var p := Plan(data, off, cs);
      && (off + |block| >= |data| ==> p == [Block(OpDataFinal, block)])
      && (off + |block| < |data| ==> p[0] == Block(OpDataCont, block) && p[1..] == Plan(data, off + |block|, cs))
  {
  }

  /** A successful non-final chunk write moves on to the next block. */
  lemma WriteFromStep(data: seq<Byte>, off: nat, cs: nat, results: seq<bool>)
    requires off <= |data| && cs > 0
    requires results != [] && results[0] && off + |BlockAt(data, off, cs)| < |data|
    ensures WriteFrom(data, off, cs, results) == WriteFrom(data, off + |BlockAt(data, off, cs)|, cs, results[1..])
  {
  }

  /** The first failure is at `i` when every earlier result succeeded and `i` failed or is missing. */
  lemma {:induction false} FirstFailureAt(results: seq<bool>, i: nat)
    requires i <= |results| && forall j :: 0 <= j < i ==> results[j]
    requires i == |results| || !results[i]
    ensures FirstFailure(results) == i
  {
    if i > 0 {
      FirstFailureAt(results[1..], i - 1);
    }
  }

  /**
   * Where the chunk loop stands before block `i`: reading at `off`, every earlier write
   * succeeded, the packets of the first `i` blocks are sent, and what is left to happen is
   * what the whole transfer does.
   */
  ghost predicate ChunkLoop(xid: int, data: seq<Byte>, cs: nat, results: seq<bool>, off: nat, i: nat, sent: seq<seq<Byte>>)
    requires cs > 0
  {
    && off <= |data| && i <= |results| && i < |Plan(data, 0, cs)|
    && Plan(data, 0, cs)[i..] == Plan(data, off, cs)
    && WriteFrom(data, off, cs, results[i..]) == WriteFrom(data, 0, cs, results)
    && (forall j :: 0 <= j < i ==> results[j])
    && sent == Wire(xid, Plan(data, 0, cs)[..i])
  }

  lemma ChunkLoopStarts(xid: int, data: seq<Byte>, cs: nat, results: seq<bool>)
    requires cs > 0
    ensures ChunkLoop(xid, data, cs, results, 0, 0, [])
  {
    assert results[0..] == results;
    assert Plan(data, 0, cs)[0..] == Plan(data, 0, cs);
  }

  /**
   * One turn of the chunk loop: the block at `off` is block `i` of the plan, and after its write
   * the transfer is waiting, has failed, has finished, or goes on to block `i + 1`.
   */
  lemma ChunkLoopTurn(xid: int, data: seq<Byte>, cs: nat, results: seq<bool>, off: nat, i: nat, sent: seq<seq<Byte>>)
    requires cs > 0 && ChunkLoop(xid, data, cs, results, off, i, sent)
    ensures var plan := Plan(data, 0, cs); var block := BlockAt(data, off, cs);
      && plan[i] == Block(if off + |block| >= |data| then OpDataFinal else OpDataCont, block)
      && sent + [Encode(Packet(plan[i].opcode, XidByte(xid), block))] == Wire(xid, plan[..i + 1])
      && (i == |results| || !results[i] ==>
            Min(FirstFailure(results) + 1, |plan|) == i + 1
            && WriteFrom(data, 0, cs, results) == (if i == |results| then WriteWaiting else WriteDone(false)))
      && (i < |results| && results[i] && off + |block| >= |data| ==>
            Min(FirstFailure(results) + 1, |plan|) == i + 1 && WriteFrom(data, 0, cs, results) == WriteDone(true))
      && (i < |results| && results[i] && off + |block| < |data| ==>
            ChunkLoop(xid, data, cs, results, off + |block|, i + 1, sent + [Encode(Packet(plan[i].opcode, XidByte(xid), block))]))
  {
    var plan := Plan(data, 0, cs);
    var block := BlockAt(data, off, cs);
    var rest := Plan(data, off, cs);
    PlanHead(data, off, cs);
    assert plan[i] == rest[0];
    assert plan[..i + 1] == plan[..i] + [plan[i]];
    WireSnoc(xid, plan[..i], plan[i]);
    if i == |results| || !results[i] {
      FirstFailureAt(results, i);
    } else if off + |block| >= |data| {
      assert |plan| == i + 1;
      assert results[i..][0] == results[i];
    } else {
      assert results[i..][0] == results[i];
      assert results[i..][1..] == results[i + 1..];
      assert plan[i..][1..] == plan[i + 1..];
      WriteFromStep(data, off, cs, results[i..]);
    }
  }

  /**
   * The chunk-writing loop of `fileReadEventHandler`/`chunkReaderBlock`: reads block after block,
   * builds each data packet with the same xid, and stops at the first failure or after FINAL.
   * Returns the outcome and the packets written, the last of which may still be outstanding.
   */
  method WriteChunks(xid: int, data: seq<Byte>, cs: nat, results: seq<bool>)
    returns (r: WriteOutcome, sent: seq<seq<Byte>>)
    requires cs > 0
    ensures r == WriteFrom(data, 0, cs, results)
    ensures sent == Wire(xid, Plan(data, 0, cs)[..Min(FirstFailure(results) + 1, |Plan(data, 0, cs)|)])
  {
    var readOffset := 0;
    var i := 0;
    sent := [];
    ChunkLoopStarts(xid, data, cs, results);
    while true
      invariant ChunkLoop(xid, data, cs, results, readOffset, i, sent)
      decreases |data| - readOffset
    {
      var block := BlockAt(data, readOffset, cs);
      var final := readOffset + |block| >= |data|;
      var packet := BuildDataPacket(xid, if final then OpDataFinal else OpDataCont, block);
      ChunkLoopTurn(xid, data, cs, results, readOffset, i, sent);
      sent := sent + [packet[..]];
      if i == |results| {
        return WriteWaiting, sent;
      } else if !results[i] {
        return WriteDone(false), sent;
      } else if final {
        return WriteDone(true), sent;
      }
      readOffset := readOffset + |block|;
      i := i + 1;
    }
  }

  /**
   * A whole write transfer once the data is ready: the WRITE_REQ packet first (a name too long
   * for it hangs), then the chunk writes; `results[0]` is the result of the request write.
   */
  function WriteTransfer(xid: int, name: seq<Byte>, data: seq<Byte>, cs: nat, results: seq<bool>): (r: WriteOutcome)
    requires cs > 0
    ensures |name| > MaxNameBytes ==> r == WriteHung
    ensures |name| <= MaxNameBytes && results != [] && !results[0] ==> r == WriteDone(false)
  {
    if RequestPacket(OpWriteReq, xid, name).None? then WriteHung
    else if results == [] then WriteWaiting
    else if !results[0] then WriteDone(false)
    else WriteFrom(data, 0, cs, results[1..])
  }

  /**
   * Chunking: when every write succeeds the transfer ends with true, and the blocks sent are
   * exactly the plan: their payloads concatenate to the data, and only the last is FINAL.
   */
  lemma AllWritesSucceed(xid: int, name: seq<Byte>, data: seq<Byte>, cs: nat, results: seq<bool>)
    requires cs > 0 && |name| <= MaxNameBytes
    requires |results| > |Plan(data, 0, cs)| && forall i :: 0 <= i < |results| ==> results[i]
    ensures WriteTransfer(xid, name, data, cs, results) == WriteDone(true)
  {
    WriteFromCharacterised(data, 0, cs, results[1..]);
  }

  /**
   * After a successful request write the transfer ends false at the first failed chunk write
   * within the plan, true when the whole plan is written, and waits when the results stop short.
   */
  lemma WriteTransferCharacterised(xid: int, name: seq<Byte>, data: seq<Byte>, cs: nat, results: seq<bool>)
    requires cs > 0 && |name| <= MaxNameBytes && results != [] && results[0]
    ensures var k := FirstFailure(results[1..]); var n := |Plan(data, 0, cs)|;
      var r := WriteTransfer(xid, name, data, cs, results);
      && (k < n && k < |results| - 1 ==> r == WriteDone(false))
      && (k >= n ==> r == WriteDone(true))
      && (k == |results| - 1 < n ==> r == WriteWaiting)
  {
    WriteFromCharacterised(data, 0, cs, results[1..]);
  }

  // ------------------------------------------------------------ preconditions

  /** What `ble.writeFTP` is handed: a string, a Blob/File (its bytes), or anything else. */
  datatype Source = TextSource(text: string) | BlobSource(bytes: seq<Byte>) | OtherSource

  /** The UTF-8 byte order mark put in front of a string source. */
  const Bom: seq<Byte> := [0xEF, 0xBB, 0xBF]
  /** Largest file accepted: 1 MiB. */
  const MaxFileSize := 1024 * 1024

  /**
   * The checks before the first block: the verdicts passed to `my_done_cb` on the way, and the
   * bytes to send when the transfer goes ahead.
   */
  datatype Precheck = Precheck(dones: seq<bool>, data: Option<seq<Byte>>)

  function SourceBytes(src: Source, encode: string -> seq<Byte>): Option<seq<Byte>>
  {
    match src
    case TextSource(t) => Some(Bom + encode(t))
    case BlobSource(b) => Some(b)
    case OtherSource => None
  }

  /**
   * The checks as written (www/js/ble-ftp.js:1389-1418): the non-Blob branch reports false but
   * does not return, so the File-API check that follows can report false a second time; a
   * non-Blob source that passes it has reported false once and then throws at its first use as
   * a Blob (`file.size`, `slice`), so no second report follows.
   */
  function PrecheckAsWritten(src: Source, fileApis: bool, encode: string -> seq<Byte>): (r: Precheck)
    ensures r.data.Some? ==> r.dones == [] && !src.OtherSource?
  {
    var first := if src.OtherSource? then [false] else [];
    if !fileApis then Precheck(first + [false], None)
    else match SourceBytes(src, encode)
      case None => Precheck(first, None)
      case Some(b) => if |b| > MaxFileSize then Precheck([false], None) else Precheck([], Some(b))
  }

  /** The checks with the missing `return` added: every rejection reports false exactly once. */
  function CheckSource(src: Source, fileApis: bool, encode: string -> seq<Byte>): (r: Precheck)
    ensures r.data.None? <==> r.dones == [false]
    ensures r.data.Some? <==> r.dones == []
    ensures r.data.Some? <==> fileApis && !src.OtherSource? && |SourceBytes(src, encode).value| <= MaxFileSize
    ensures r.data.Some? ==> r.data == SourceBytes(src, encode)
  {
    if src.OtherSource? || !fileApis then Precheck([false], None)
    else
      var b := SourceBytes(src, encode).value;
      if |b| > MaxFileSize then Precheck([false], None) else Precheck([], Some(b))
  }

  /** A string source is sent as the BOM followed by its UTF-8 bytes. */
  lemma TextSourceGetsBom(text: string, fileApis: bool, encode: string -> seq<Byte>)
    requires fileApis && 3 + |encode(text)| <= MaxFileSize
    ensures CheckSource(TextSource(text), fileApis, encode).data == Some(Bom + encode(text))
    ensures CheckSource(TextSource(text), fileApis, encode).data.value[..3] == [0xEF, 0xBB, 0xBF]
  {
  }

  /** The two versions agree on every string or Blob source. */
  lemma PrecheckAgreesOnFiles(src: Source, fileApis: bool, encode: string -> seq<Byte>)
    requires !src.OtherSource?
    ensures PrecheckAsWritten(src, fileApis, encode) == CheckSource(src, fileApis, encode)
  {
  }

  /** As written, a non-Blob source with the File APIs missing reports false twice. */
  lemma PrecheckReportsTwice(encode: string -> seq<Byte>)
    ensures PrecheckAsWritten(OtherSource, false, encode).dones == [false, false]
  {
  }

  /** The outcome of `ble.writeFTP` as a whole: the verdicts reported, in order. */
  function WriteFtp(xid: int, name: seq<Byte>, src: Source, fileApis: bool, encode: string -> seq<Byte>,
                    cs: nat, results: seq<bool>): (dones: seq<bool>)
    requires cs > 0
    ensures |dones| <= 1
    ensures CheckSource(src, fileApis, encode).data.None? ==> dones == [false]
  {
    var check := CheckSource(src, fileApis, encode);
    match check.data
    case None => check.dones
    case Some(b) =>
      match WriteTransfer(xid, name, b, cs, results)
      case WriteDone(ok) => [ok]
      case _ => []
  }
}
