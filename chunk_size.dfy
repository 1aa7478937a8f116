/**
 * The negotiated FTP chunk size (`requestMtu`, www/js/ble-ftp.js): the payload bytes that fit
 * one GATT write once the ATT overhead and the two-byte FTP header are taken off the MTU.
 */
module ChunkSize {
  import opened Options

  const GattWriteMtuOverhead := 3
  const GattMaxAttrLen := 512
  const BleMtuDefault := 23
  /** The MTU asked for on Android: the largest attribute plus the ATT overhead. */
  const BleMtuReq := GattMaxAttrLen + GattWriteMtuOverhead
  /** Opcode byte plus xid byte. */
  const FtpHeaderBytes := 2
  const ChunkMin := BleMtuDefault - GattWriteMtuOverhead - FtpHeaderBytes
  const ChunkMax := GattMaxAttrLen - FtpHeaderBytes
  /** Fixed chunk used on iOS, where the OS negotiates the MTU itself. */
  const ChunkIos := 182 - FtpHeaderBytes

  datatype Platform = Android | Ios | OtherPlatform

  /** The `mtu` field of the plugin's reply: an integer (`util.isInt`) or anything else. */
  datatype MtuValue = IntegerMtu(mtu: int) | NonIntegerMtu

  /** How the Android MTU request came back: its success callback, or its error callback. */
  datatype MtuReply = MtuGranted(value: MtuValue) | MtuRefused

  predicate InRange(chunk: int) {
    ChunkMin <= chunk <= ChunkMax
  }

  /** The two clamping `if`s that follow the MTU reply. */
  function Clamp(chunk: int): (r: int)
    ensures InRange(r)
    ensures InRange(chunk) ==> r == chunk
    ensures chunk > ChunkMax ==> r == ChunkMax
    ensures chunk < ChunkMin ==> r == ChunkMin
  {
    if chunk > ChunkMax then ChunkMax else if chunk < ChunkMin then ChunkMin else chunk
  }

  /**
   * `requestMtu`: the new chunk size and the value the promise resolves with, None when it never
   * resolves (a platform that is neither Android nor iOS). `reply` matters only on Android.
   */
  function MtuOutcome(platform: Platform, chunk: int, reply: MtuReply): (r: (int, Option<bool>))
    ensures platform == OtherPlatform ==> r == (chunk, None)
    ensures platform == Ios ==> r == (ChunkIos, Some(true))
    ensures platform == Android && reply.MtuRefused? ==> r == (chunk, Some(false))
    ensures platform == Android && reply.MtuGranted? ==> r.1 == Some(true) && InRange(r.0)
    ensures platform == Android && reply.MtuGranted? ==>
      r.0 == Clamp(if reply.value.IntegerMtu? then reply.value.mtu - GattWriteMtuOverhead - FtpHeaderBytes else chunk)
    ensures platform == Android && reply == MtuGranted(NonIntegerMtu) && InRange(chunk) ==> r.0 == chunk
    ensures platform == Android && reply.MtuGranted? && reply.value.IntegerMtu?
      && InRange(reply.value.mtu - GattWriteMtuOverhead - FtpHeaderBytes)
      ==> r.0 == reply.value.mtu - GattWriteMtuOverhead - FtpHeaderBytes
  {
    match platform
    case OtherPlatform => (chunk, None)
    case Ios => (ChunkIos, Some(true))
    case Android =>
      match reply
      case MtuRefused => (chunk, Some(false))
      case MtuGranted(value) =>
        var raw := if value.IntegerMtu? then value.mtu - GattWriteMtuOverhead - FtpHeaderBytes else chunk;
        (Clamp(raw), Some(true))
  }

  /**
   * A chunk chosen from a granted MTU fits: header and ATT overhead included, one data packet is
   * no longer than the MTU whenever the MTU is at least the BLE default, and the header plus
   * chunk never exceed the largest attribute.
   */
  lemma GrantedChunkFits(chunk: int, mtu: int)
    requires mtu >= BleMtuDefault
    ensures var c := MtuOutcome(Android, chunk, MtuGranted(IntegerMtu(mtu))).0;
      c + FtpHeaderBytes + GattWriteMtuOverhead <= mtu && c + FtpHeaderBytes <= GattMaxAttrLen
  {
  }

  /** Asking for `BleMtuReq` and being granted it gives the largest chunk. */
  lemma FullMtuGivesMaxChunk(chunk: int)
    ensures MtuOutcome(Android, chunk, MtuGranted(IntegerMtu(BleMtuReq))).0 == ChunkMax
  {
  }

  /** Every resolved outcome keeps a chunk size that was in range in range. */
  lemma OutcomeKeepsRange(platform: Platform, chunk: int, reply: MtuReply)
    requires InRange(chunk)
    ensures InRange(MtuOutcome(platform, chunk, reply).0)
  {
  }
}
