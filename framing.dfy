/**
 * BLE-FTP packet layout (www/js/ble-ftp.js): byte 0 the opcode, byte 1 the transfer id
 * (xid), then the payload. Request packets carry the UTF-8 filename and are padded with
 * zeros to 20 bytes; data packets carry one chunk.
 */
module Framing {
  import opened Options
  import opened Bytes

  const OpReadReq: Byte := 0x10
  const OpWriteReq: Byte := 0x20
  const OpDataCont: Byte := 0x01
  const OpDataFinal: Byte := 0x03
  const OpcodeBytes := 1
  const OpcodePos := 0
  const XidBytes := 1
  const XidPos := 1
  const DataPos := 2
  /** Length of a request packet (`new Uint8Array(20)`). */
  const RequestLength := 20
  /** Longest filename, in encoded bytes, that fits a request packet. */
  const MaxNameBytes := RequestLength - DataPos

  datatype Packet = Packet(opcode: Byte, xid: Byte, payload: seq<Byte>)

  /** The transfer-id byte on the wire: `xid & 0xFF`, so the counter wraps at 256. */
  function XidByte(xid: int): (b: Byte)
    ensures 0 <= xid < 256 ==> b == xid
    ensures (b - xid) % 256 == 0
  {
    xid % 256
  }

  /** Splits a received packet into header and payload (`bytes[0]`, `bytes[1]`, `bytes.slice(2)`). */
  function Decode(b: seq<Byte>): (r: Option<Packet>)
    ensures r.Some? <==> |b| >= DataPos
  {
    if |b| >= DataPos then Some(Packet(b[OpcodePos], b[XidPos], b[DataPos..])) else None
  }

  /** The wire form of a packet; decoding it gives the packet back. */
  function Encode(p: Packet): (r: seq<Byte>)
    ensures |r| == |p.payload| + DataPos
    ensures Decode(r) == Some(p)
  {
    [p.opcode, p.xid] + p.payload
  }

  /** Decoding loses nothing: a decoded packet re-encodes to the bytes it came from. */
  lemma DecodeThenEncode(b: seq<Byte>)
    requires |b| >= DataPos
    ensures Encode(Decode(b).value) == b
  {
  }

  function Zeros(n: nat): (z: seq<Byte>)
    ensures |z| == n && forall i :: 0 <= i < n ==> z[i] == 0
  {
    seq(n, _ => 0)
  }

  /**
   * The 20-byte request packet of `commonFTP`: opcode, xid byte, the encoded filename, zero
   * padding. None when the filename is longer than 18 bytes: `Uint8Array.set` then throws.
   */
  function RequestPacket(opcode: Byte, xid: int, name: seq<Byte>): (r: Option<seq<Byte>>)
    ensures r.Some? <==> |name| <= MaxNameBytes
    ensures r.Some? ==>
      |r.value| == RequestLength && Decode(r.value).value.opcode == opcode && Decode(r.value).value.xid == XidByte(xid)
    ensures r.Some? ==> r.value[DataPos..] == name + Zeros(MaxNameBytes - |name|)
  {
    if |name| <= MaxNameBytes then Some(Encode(Packet(opcode, XidByte(xid), name)) + Zeros(MaxNameBytes - |name|))
    else None
  }

  /** The bytes before the first zero byte (how a peer reads the zero-padded name). */
  function UntilZero(s: seq<Byte>): (r: seq<Byte>)
    ensures r <= s && 0 !in r
  {
    if s == [] || s[0] == 0 then [] else [s[0]] + UntilZero(s[1..])
  }

  /** A peer's reading of a request packet: opcode, xid byte and filename. */
  function ParseRequest(b: seq<Byte>): Option<(Byte, Byte, seq<Byte>)>
  {
    if |b| == RequestLength then Some((b[OpcodePos], b[XidPos], UntilZero(b[DataPos..]))) else None
  }

  lemma {:induction false} UntilZeroPadded(name: seq<Byte>, n: nat)
    requires 0 !in name
    ensures UntilZero(name + Zeros(n)) == name
  {
    if name == [] {
      assert name + Zeros(n) == Zeros(n);
    } else {
      assert (name + Zeros(n))[1..] == name[1..] + Zeros(n);
      UntilZeroPadded(name[1..], n);
    }
  }

  /**
   * Request round trip: a filename without zero bytes that fits comes back out of the request
   * packet unchanged, with its opcode and xid byte.
   */
  lemma RequestRoundTrip(opcode: Byte, xid: int, name: seq<Byte>)
    requires |name| <= MaxNameBytes && 0 !in name
    ensures ParseRequest(RequestPacket(opcode, xid, name).value) == Some((opcode, XidByte(xid), name))
  {
    var r := RequestPacket(opcode, xid, name).value;
    assert r[DataPos..] == name + Zeros(MaxNameBytes - |name|);
    UntilZeroPadded(name, MaxNameBytes - |name|);
  }

  /** The two `stuffBytes` calls that write the opcode at byte 0 and the xid at byte 1. */
  method StuffHeader(opcode: Byte, xid: int, a: array<Byte>)
    requires a.Length >= DataPos
    modifies a
    ensures a[..] == [opcode, XidByte(xid)] + old(a[DataPos..])
  {
    ghost var s0 := a[..];
    var r := StuffBytes(opcode, OpcodeBytes, OpcodePos, a, 0);
    StuffedOneByte(s0, opcode, OpcodePos);
    ghost var s1 := a[..];
    r := StuffBytes(xid, XidBytes, XidPos, a, 0);
    StuffedOneByte(s1, xid, XidPos);
    assert forall k | DataPos <= k < a.Length :: a[k] == s1[k] == s0[k];
  }

  /** `new Uint8Array(n).set(src)` for a source that fits: a copy of `src` followed by zeros. */
  method CopyPadded(src: array<Byte>, n: nat) returns (r: array<Byte>)
    requires src.Length <= n
    ensures fresh(r) && r[..] == src[..] + Zeros(n - src.Length)
  {
    r := new Byte[n](_ => 0);
    var i := 0;
    while i < src.Length
      invariant 0 <= i <= src.Length
      invariant forall k :: 0 <= k < i ==> r[k] == src[k]
      invariant forall k :: i <= k < n ==> r[k] == 0
    {
      r[i] := src[i];
      i := i + 1;
    }
  }

  /**
   * `commonFTP`'s packet building: encode "zz" + filename, stuff the opcode at 0 and the xid
   * at 1, copy into a zeroed 20-byte array. None models the RangeError of an overlong name.
   */
  method BuildRequest(opcode: Byte, xid: int, name: seq<Byte>) returns (r: Option<array<Byte>>)
    ensures r.Some? <==> RequestPacket(opcode, xid, name).Some?
    ensures r.Some? ==> fresh(r.value) && r.value[..] == RequestPacket(opcode, xid, name).value
  {
    var cmd8 := new Byte[DataPos + |name|](i requires 0 <= i < DataPos + |name| =>
      if i < DataPos then 'z' as int else name[i - DataPos]);
    assert cmd8[DataPos..] == name;
    StuffHeader(opcode, xid, cmd8);
    if cmd8.Length > RequestLength {
      return None;
    }
    var padded := CopyPadded(cmd8, RequestLength);
    return Some(padded);
  }

  /**
   * `writeFtpChunk`'s packet building: a zeroed array of chunk length + 2, the chunk copied in
   * at offset 2, then the opcode and xid stuffed at 0 and 1.
   */
  method BuildDataPacket(xid: int, opcode: Byte, data: seq<Byte>) returns (r: array<Byte>)
    ensures fresh(r) && r[..] == Encode(Packet(opcode, XidByte(xid), data))
  {
    r := new Byte[|data| + OpcodeBytes + XidBytes](_ => 0);
    var i := 0;
    while i < |data|
      invariant 0 <= i <= |data|
      invariant forall k :: 0 <= k < i ==> r[DataPos + k] == data[k]
    {
      r[DataPos + i] := data[i];
      i := i + 1;
    }
    assert r[DataPos..] == data;
    StuffHeader(opcode, xid, r);
  }
}
