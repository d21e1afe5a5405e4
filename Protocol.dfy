/**
  The build-time configuration of a TinyFrame instance, the frame it
  carries, and the wire layout the composer produces (TF_Compose in
  TinyFrame.c). The configuration header TinyFrame.h is not part of this
  model: every constant it supplies is a field of `Config`.
*/
module Protocol {
  import opened Wire
  import opened Bits
  import opened Checksum

  datatype Option<T> = None | Some(value: T)

  /** The constants of TinyFrame.h. */
  datatype Config = Config(
    idWidth: nat,          // sizeof(TF_ID)
    lenWidth: nat,         // sizeof(TF_LEN)
    typeWidth: nat,        // sizeof(TF_TYPE)
    cksum: CksumType,      // TF_CKSUM_TYPE
    useSof: bool,          // TF_USE_SOF_BYTE
    sofByte: byte,         // TF_SOF_BYTE
    maxPayload: nat,       // TF_MAX_PAYLOAD
    idMask: nat,           // TF_ID_MASK
    idPeerBit: nat,        // TF_ID_PEERBIT
    timeoutTicks: nat,     // TF_PARSER_TIMEOUT_TICKS
    maxIdLst: nat,         // TF_MAX_ID_LST
    maxTypeLst: nat,       // TF_MAX_TYPE_LST
    maxGenLst: nat         // TF_MAX_GEN_LST
  )

  /**
    What the C types impose on the configuration: every field is at least
    one byte wide, the mask and the peer bit are TF_ID values, and they
    share no bit.
  */
  predicate ValidConfig(cfg: Config)
  {
    && cfg.idWidth >= 1 && cfg.lenWidth >= 1 && cfg.typeWidth >= 1
    && cfg.idMask < Pow256(cfg.idWidth)
    && cfg.idPeerBit < Pow256(cfg.idWidth)
    && And(cfg.idMask, cfg.idPeerBit) == 0
  }

  /** TF_OVERHEAD_BYTES: every byte of a frame that is not payload. */
  function Overhead(cfg: Config): nat
  {
    (if cfg.useSof then 1 else 0) + cfg.idWidth + cfg.lenWidth + cfg.typeWidth
      + 2 * Width(cfg.cksum)
  }

  /** A frame as the parser hands it to the listeners. */
  datatype Frame = Frame(id: nat, typ: nat, payload: seq<byte>)

  // ---------------------------------------------------------------------
  // ID generation
  // ---------------------------------------------------------------------

  /**
    The ID TF_Compose picks when none is given: the counter masked with
    TF_ID_MASK, with TF_ID_PEERBIT set when this side's peer bit is set.
    It is always a TF_ID value.
  */
  function AutoId(cfg: Config, nextId: nat, peerBit: bool): (r: nat)
    requires ValidConfig(cfg)
    ensures r < Pow256(cfg.idWidth)
  {
    AndAtMost(nextId, cfg.idMask);
    var masked := And(nextId, cfg.idMask);
    if peerBit then
      Pow256IsPow2(cfg.idWidth);
      OrBelow(masked, cfg.idPeerBit, 8 * cfg.idWidth);
      Or(masked, cfg.idPeerBit)
    else
      masked
  }

  /** `next_id++` on a TF_ID: the counter wraps at the width of the type. */
  function NextId(cfg: Config, nextId: nat): (r: nat)
    ensures r < Pow256(cfg.idWidth)
  {
    (nextId + 1) % Pow256(cfg.idWidth)
  }

  /**
    Two peers with opposite peer bits never generate the same ID, however
    far their counters have advanced.
  */
  lemma IdPartition(cfg: Config, mine: nat, theirs: nat)
    requires ValidConfig(cfg) && cfg.idPeerBit != 0
    ensures AutoId(cfg, mine, false) != AutoId(cfg, theirs, true)
  {
    var m := cfg.idMask;
    var p := cfg.idPeerBit;
    AndAssoc(mine, m, p);
    assert And(AutoId(cfg, mine, false), p) == 0;
    AndOfOr(And(theirs, m), p);
    assert And(AutoId(cfg, theirs, true), p) == p;
  }

  // ---------------------------------------------------------------------
  // Wire layout
  // ---------------------------------------------------------------------

  /** The start-of-frame byte, when one is configured. */
  function SofBytes(cfg: Config): seq<byte>
  {
    if cfg.useSof then [cfg.sofByte] else []
  }

  /** SOF, then ID, LEN and TYPE, each big-endian at the width of its C type. */
  function HeaderBytes(cfg: Config, id: nat, len: nat, typ: nat): seq<byte>
  {
    SofBytes(cfg) + BigEndian(id, cfg.idWidth) + BigEndian(len, cfg.lenWidth)
      + BigEndian(typ, cfg.typeWidth)
  }

  /** A checksum field: the TF_CKSUM value big-endian. */
  function CksumBytes(cfg: Config, v: nat): seq<byte>
  {
    BigEndian(v, Width(cfg.cksum))
  }

  /** The header checksum field, absent without a checksum. */
  function HeaderCksumField(cfg: Config, header: seq<byte>): seq<byte>
  {
    if cfg.cksum != NoCksum then CksumBytes(cfg, Of(cfg.cksum, header)) else []
  }

  /** The payload checksum field, absent without a checksum or without payload. */
  function PayloadCksumField(cfg: Config, payload: seq<byte>): seq<byte>
  {
    if cfg.cksum != NoCksum && |payload| > 0 then CksumBytes(cfg, Of(cfg.cksum, payload)) else []
  }

  /**
    The bytes TF_Compose writes for a frame: the SOF byte first when configured,
    the payload verbatim right after the header and its checksum field, and
    nothing after the header checksum when the payload is empty.
  */
  function FrameBytes(cfg: Config, id: nat, typ: nat, payload: seq<byte>): (r: seq<byte>)
    ensures cfg.useSof ==> |r| > 0 && r[0] == cfg.sofByte
    ensures var h := HeaderBytes(cfg, id, |payload|, typ);
            var k := |h| + |HeaderCksumField(cfg, h)|;
            k + |payload| <= |r| && r[k..k + |payload|] == payload
    ensures |payload| == 0 ==>
              var h := HeaderBytes(cfg, id, 0, typ); |r| == |h| + |HeaderCksumField(cfg, h)|
  {
    var header := HeaderBytes(cfg, id, |payload|, typ);
    header + HeaderCksumField(cfg, header) + payload + PayloadCksumField(cfg, payload)
  }

  /** TF_Compose's return value: the byte count of the frame, which fits the send buffer. */
  lemma FrameLength(cfg: Config, id: nat, typ: nat, payload: seq<byte>)
    ensures |FrameBytes(cfg, id, typ, payload)|
      == (if cfg.useSof then 1 else 0) + cfg.idWidth + cfg.lenWidth + cfg.typeWidth
         + (if cfg.cksum != NoCksum then Width(cfg.cksum) else 0)
         + |payload|
         + (if cfg.cksum != NoCksum && |payload| > 0 then Width(cfg.cksum) else 0)
    ensures |payload| <= cfg.maxPayload ==>
      |FrameBytes(cfg, id, typ, payload)| <= cfg.maxPayload + Overhead(cfg)
  {
  }
}
