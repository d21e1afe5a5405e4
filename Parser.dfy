/**
  The receive state machine of TinyFrame.c (TF_AcceptChar and its helpers)
  as a function on a value that holds the parser fields of
  `struct TinyFrameStruct`. The class in Framing.dfy updates those fields
  in place and is proved to follow `Step`.

  `Step` is the corrected machine described under Findings in README.md:
  a frame of exactly TF_MAX_PAYLOAD bytes is kept, and without a checksum
  the end of the TYPE field goes through the same empty-payload and
  oversize handling as the end of the header checksum. The code as
  written is in `TypeDoneAsWritten` and `OversizedAsWritten`.
*/
module Parser {
  import opened Wire
  import opened Checksum
  import opened Protocol

  /** enum TFState, in the order of its declaration. */
  datatype State = Sof | Len | HeadCksum | Id | Type | Data | DataCksum

  /** The parser fields of the session. */
  datatype Parser = Parser(
    state: State,
    ticks: nat,          // parser_timeout_ticks
    id: nat,
    len: nat,
    data: seq<byte>,     // the TF_MAX_PAYLOAD-byte payload buffer
    rxi: nat,
    cksum: nat,
    refCksum: nat,
    typ: nat,
    discard: bool        // discard_data
  )

  /** One consumed byte: the new parser and the frame it completed, if any. */
  datatype Stepped = Stepped(next: Parser, out: Option<Frame>)

  /**
    What holds of the parser between bytes. The DATA clause is the memory
    safety argument: while bytes are stored, the next write index is below
    the declared length, which is at most the size of the buffer.
  */
  predicate ParserInv(cfg: Config, p: Parser)
  {
    && |p.data| == cfg.maxPayload
    && p.ticks <= cfg.timeoutTicks
    && p.id < Pow256(cfg.idWidth) && p.len < Pow256(cfg.lenWidth) && p.typ < Pow256(cfg.typeWidth)
    && p.cksum < Bound(cfg.cksum)
    && (p.state == Id ==> p.rxi < cfg.idWidth)
    && (p.state == Len ==> p.rxi < cfg.lenWidth)
    && (p.state == Type ==> p.rxi < cfg.typeWidth)
    && (p.state == HeadCksum ==> cfg.cksum != NoCksum && p.rxi < Width(cfg.cksum))
    && (p.state == Data ==> p.rxi < p.len && (!p.discard ==> p.len <= cfg.maxPayload))
    && (p.state == DataCksum ==>
          cfg.cksum != NoCksum && p.rxi < Width(cfg.cksum) && (!p.discard ==> p.len <= cfg.maxPayload))
  }

  /** The parser fields after TF_Init. */
  function InitialParser(cfg: Config): (p: Parser)
    requires ValidConfig(cfg)
    ensures ParserInv(cfg, p) && p.state == Sof
  {
    Parser(Sof, 0, 0, 0, seq(cfg.maxPayload, _ => 0), 0, 0, 0, 0, false)
  }

  /** TF_ResetParser: only the state goes back to SOF. */
  function ResetParser(p: Parser): Parser
  {
    p.(state := Sof)
  }

  /** TF_ParsBeginFrame: start the header checksum (seeded with SOF) and collect the ID. */
  function BeginFrame(cfg: Config, p: Parser): Parser
    requires p.cksum < Bound(cfg.cksum)
  {
    var ck := if cfg.useSof then Add(cfg.cksum, Reset(cfg.cksum), cfg.sofByte) else Reset(cfg.cksum);
    p.(cksum := ck, discard := false, state := Id, rxi := 0)
  }

  /** The declared length the parser refuses to store (corrected: larger than the buffer). */
  predicate Oversized(cfg: Config, len: nat)
  {
    len > cfg.maxPayload
  }

  /** The check as written at TinyFrame.c:450. */
  predicate OversizedAsWritten(cfg: Config, len: nat)
  {
    len >= cfg.maxPayload
  }

  /** The two tests disagree on exactly one length: a frame filling the buffer. */
  lemma OversizedTests(cfg: Config, len: nat)
    ensures Oversized(cfg, len) ==> OversizedAsWritten(cfg, len)
    ensures OversizedAsWritten(cfg, len) && !Oversized(cfg, len) <==> len == cfg.maxPayload
  {
  }

  /**
    The header has been accepted: an empty frame is delivered at once,
    otherwise the payload pass starts, discarding when the length is
    oversized.
  */
  function BeginPayload(cfg: Config, p: Parser): (r: Stepped)
    requires p.cksum < Bound(cfg.cksum)
    ensures r.out.Some? <==> p.len == 0
    ensures r.out.Some? ==> r.out.value == Frame(p.id, p.typ, []) && r.next.state == Sof
    ensures r.out.None? ==> r.next.state == Data && r.next.rxi == 0 && r.next.cksum == Reset(cfg.cksum)
                            && r.next.discard == (Oversized(cfg, p.len) || p.discard)
  {
    if p.len == 0 then
      Stepped(ResetParser(p), Some(Frame(p.id, p.typ, [])))
    else
      Stepped(p.(state := Data, rxi := 0, cksum := Reset(cfg.cksum),
                 discard := if Oversized(cfg, p.len) then true else p.discard), None)
  }

  /** The start of the payload as written at TinyFrame.c:438-453, with the `>=` test. */
  function BeginPayloadAsWritten(cfg: Config, p: Parser): (r: Stepped)
    requires p.cksum < Bound(cfg.cksum)
    ensures p.len == cfg.maxPayload > 0 ==> r.out == None && r.next.state == Data && r.next.discard
  {
    if p.len == 0 then
      Stepped(ResetParser(p), Some(Frame(p.id, p.typ, [])))
    else
      Stepped(p.(state := Data, rxi := 0, cksum := Reset(cfg.cksum),
                 discard := if OversizedAsWritten(cfg, p.len) then true else p.discard), None)
  }

  /** End of the TYPE field (corrected: without a checksum, the header is accepted as is). */
  function TypeDone(cfg: Config, p: Parser): (r: Stepped)
    requires p.cksum < Bound(cfg.cksum)
    ensures cfg.cksum != NoCksum ==> r.out == None && r.next.state == HeadCksum && r.next.rxi == 0
    ensures cfg.cksum == NoCksum && p.len == 0 ==> r.out == Some(Frame(p.id, p.typ, []))
    ensures cfg.cksum == NoCksum && Oversized(cfg, p.len) ==> r.next.discard
  {
    if cfg.cksum == NoCksum then BeginPayload(cfg, p)
    else Stepped(p.(state := HeadCksum, rxi := 0, refCksum := 0), None)
  }

  /** End of the TYPE field as written at TinyFrame.c:416-424. */
  function TypeDoneAsWritten(cfg: Config, p: Parser): (r: Stepped)
    ensures r.out == None
    ensures cfg.cksum == NoCksum ==> r.next.state == Data && r.next.rxi == 0 && r.next.discard == p.discard
  {
    if cfg.cksum == NoCksum then Stepped(p.(state := Data, rxi := 0), None)
    else Stepped(p.(state := HeadCksum, rxi := 0, refCksum := 0), None)
  }

  /**
    One DATA byte as written at TinyFrame.c:457-477. `at` is the index
    `tf.data[tf.rxi++]` stores to (none when discarding); nothing bounds
    it by the buffer, and a store outside the buffer is not applied to
    `data`. `done` says the frame was handed to TF_HandleReceivedMessage
    (checksum mode 0).
  */
  datatype StoredAsWritten = StoredAsWritten(next: Parser, at: Option<nat>, done: bool)

  function ConsumeDataAsWritten(cfg: Config, p: Parser, c: byte): (r: StoredAsWritten)
    requires p.cksum < Bound(cfg.cksum)
    ensures |r.next.data| == |p.data| && r.next.cksum < Bound(cfg.cksum)
  {
    var q := if p.discard then p.(rxi := p.rxi + 1)
             else p.(cksum := Add(cfg.cksum, p.cksum, c),
                     data := if p.rxi < |p.data| then p.data[p.rxi := c] else p.data,
                     rxi := p.rxi + 1);
    var at := if p.discard then None else Some(p.rxi);
    if q.rxi != q.len then StoredAsWritten(q, at, false)
    else if cfg.cksum == NoCksum then StoredAsWritten(ResetParser(q), at, true)
    else StoredAsWritten(q.(state := DataCksum, rxi := 0, refCksum := 0), at, false)
  }

  /** Payload bytes fed one after another as written, for as long as the parser stays in DATA. */
  function FeedDataAsWritten(cfg: Config, p: Parser, s: seq<byte>): (r: Parser)
    requires p.cksum < Bound(cfg.cksum)
    ensures |r.data| == |p.data| && r.cksum < Bound(cfg.cksum)
    decreases |s|
  {
    if s == [] || p.state != Data then p
    else FeedDataAsWritten(cfg, ConsumeDataAsWritten(cfg, p, s[0]).next, s[1..])
  }

  /** End of the header checksum: finalize, compare, drop on mismatch. */
  function HeaderDone(cfg: Config, p: Parser): (r: Stepped)
    requires p.cksum < Bound(cfg.cksum)
    ensures Finalize(cfg.cksum, p.cksum) != p.refCksum ==> r.out == None && r.next.state == Sof
    ensures Finalize(cfg.cksum, p.cksum) == p.refCksum && p.len == 0 ==>
              r.out == Some(Frame(p.id, p.typ, [])) && r.next.state == Sof
  {
    var q := p.(cksum := Finalize(cfg.cksum, p.cksum));
    if q.cksum != q.refCksum then Stepped(ResetParser(q), None)
    else BeginPayload(cfg, q)
  }

  /** The last payload byte has arrived. */
  function DataDone(cfg: Config, p: Parser): (r: Stepped)
    requires !p.discard ==> p.len <= |p.data|
    ensures r.out.Some? <==> cfg.cksum == NoCksum && !p.discard
    ensures r.out.Some? ==> r.out.value == Frame(p.id, p.typ, p.data[..p.len]) && r.next.state == Sof
    ensures cfg.cksum != NoCksum ==> r.next.state == DataCksum && r.next.rxi == 0
  {
    if cfg.cksum == NoCksum then
      Stepped(ResetParser(p),
              if !p.discard then Some(Frame(p.id, p.typ, p.data[..p.len])) else None)
    else
      Stepped(p.(state := DataCksum, rxi := 0, refCksum := 0), None)
  }

  /** End of the payload checksum: deliver only a kept frame whose checksum matches. */
  function DataCksumDone(cfg: Config, p: Parser): (r: Stepped)
    requires p.cksum < Bound(cfg.cksum)
    requires !p.discard ==> p.len <= |p.data|
    ensures r.next.state == Sof
    ensures r.out.Some? <==> !p.discard && Finalize(cfg.cksum, p.cksum) == p.refCksum
    ensures r.out.Some? ==> r.out.value == Frame(p.id, p.typ, p.data[..p.len])
  {
    var q := p.(cksum := Finalize(cfg.cksum, p.cksum));
    Stepped(ResetParser(q),
            if !q.discard && q.cksum == q.refCksum then Some(Frame(q.id, q.typ, q.data[..q.len]))
            else None)
  }

  /** The property every branch of the state machine keeps. */
  predicate Keeps(cfg: Config, p: Parser, r: Stepped)
  {
    && ParserInv(cfg, r.next) && r.next.ticks == p.ticks
    && (r.out.Some? ==> r.next.state == Sof && |r.out.value.payload| <= cfg.maxPayload)
  }

  /** SOF: wait for the start byte. */
  function ConsumeSof(cfg: Config, p: Parser, c: byte): (r: Stepped)
    requires ValidConfig(cfg) && ParserInv(cfg, p) && p.state == Sof
    ensures Keeps(cfg, p, r) && r.out == None
    ensures r.next.state == Id <==> c == cfg.sofByte
  {
    Stepped(if c == cfg.sofByte then BeginFrame(cfg, p) else p, None)
  }

  /** ID: add to the header checksum and collect the frame ID. */
  function ConsumeId(cfg: Config, p: Parser, c: byte): (r: Stepped)
    requires ValidConfig(cfg) && ParserInv(cfg, p) && p.state == Id
    ensures Keeps(cfg, p, r) && r.out == None
  {
    var q := p.(cksum := Add(cfg.cksum, p.cksum, c), id := CollectByte(p.id, c, cfg.idWidth),
                rxi := p.rxi + 1);
    Stepped(if q.rxi == cfg.idWidth then q.(state := Len, rxi := 0) else q, None)
  }

  /** LEN: add to the header checksum and collect the payload length. */
  function ConsumeLen(cfg: Config, p: Parser, c: byte): (r: Stepped)
    requires ValidConfig(cfg) && ParserInv(cfg, p) && p.state == Len
    ensures Keeps(cfg, p, r) && r.out == None
  {
    var q := p.(cksum := Add(cfg.cksum, p.cksum, c), len := CollectByte(p.len, c, cfg.lenWidth),
                rxi := p.rxi + 1);
    Stepped(if q.rxi == cfg.lenWidth then q.(state := Type, rxi := 0) else q, None)
  }

  /** TYPE: add to the header checksum and collect the frame type. */
  function ConsumeType(cfg: Config, p: Parser, c: byte): (r: Stepped)
    requires ValidConfig(cfg) && ParserInv(cfg, p) && p.state == Type
    ensures Keeps(cfg, p, r)
  {
    var q := p.(cksum := Add(cfg.cksum, p.cksum, c), typ := CollectByte(p.typ, c, cfg.typeWidth),
                rxi := p.rxi + 1);
    if q.rxi == cfg.typeWidth then TypeDone(cfg, q) else Stepped(q, None)
  }

  /** HEAD_CKSUM: collect the reference header checksum. */
  function ConsumeHeadCksum(cfg: Config, p: Parser, c: byte): (r: Stepped)
    requires ValidConfig(cfg) && ParserInv(cfg, p) && p.state == HeadCksum
    ensures Keeps(cfg, p, r)
  {
    var q := p.(refCksum := CollectByte(p.refCksum, c, Width(cfg.cksum)), rxi := p.rxi + 1);
    if q.rxi == Width(cfg.cksum) then HeaderDone(cfg, q) else Stepped(q, None)
  }

  /** DATA: store and checksum the byte, or only count it when discarding. */
  function ConsumeData(cfg: Config, p: Parser, c: byte): (r: Stepped)
    requires ValidConfig(cfg) && ParserInv(cfg, p) && p.state == Data
    ensures Keeps(cfg, p, r)
  {
    var q := if p.discard then p.(rxi := p.rxi + 1)
             else p.(cksum := Add(cfg.cksum, p.cksum, c), data := p.data[p.rxi := c],
                     rxi := p.rxi + 1);
    if q.rxi == q.len then DataDone(cfg, q) else Stepped(q, None)
  }

  /** DATA_CKSUM: collect the reference payload checksum. */
  function ConsumeDataCksum(cfg: Config, p: Parser, c: byte): (r: Stepped)
    requires ValidConfig(cfg) && ParserInv(cfg, p) && p.state == DataCksum
    ensures Keeps(cfg, p, r)
  {
    var q := p.(refCksum := CollectByte(p.refCksum, c, Width(cfg.cksum)), rxi := p.rxi + 1);
    if q.rxi == Width(cfg.cksum) then DataCksumDone(cfg, q) else Stepped(q, None)
  }

  /** The `switch (tf.state)` of TF_AcceptChar for one byte. */
  function Consume(cfg: Config, p: Parser, c: byte): (r: Stepped)
    requires ValidConfig(cfg) && ParserInv(cfg, p)
    ensures Keeps(cfg, p, r)
  {
    match p.state
    case Sof => ConsumeSof(cfg, p, c)
    case Id => ConsumeId(cfg, p, c)
    case Len => ConsumeLen(cfg, p, c)
    case Type => ConsumeType(cfg, p, c)
    case HeadCksum => ConsumeHeadCksum(cfg, p, c)
    case Data => ConsumeData(cfg, p, c)
    case DataCksum => ConsumeDataCksum(cfg, p, c)
  }

  /** The timeout check at the top of TF_AcceptChar: reset when the idle counter is full. */
  function Timeout(cfg: Config, p: Parser): (r: Parser)
    ensures r.ticks == 0
    ensures r.state == (if p.ticks >= cfg.timeoutTicks then Sof else p.state)
  {
    (if p.ticks >= cfg.timeoutTicks then ResetParser(p) else p).(ticks := 0)
  }

  /**
    TF_AcceptChar: timeout check, then (without a SOF byte) a frame starts
    on any byte received in SOF, then the byte is consumed. The invariant
    is kept, so every store into the payload buffer is in bounds.
  */
  function Step(cfg: Config, p: Parser, c: byte): (r: Stepped)
    requires ValidConfig(cfg) && ParserInv(cfg, p)
    ensures ParserInv(cfg, r.next) && r.next.ticks == 0
    ensures r.out.Some? ==> r.next.state == Sof && |r.out.value.payload| <= cfg.maxPayload
  {
    var p1 := Timeout(cfg, p);
    var p2 := if !cfg.useSof && p1.state == Sof then BeginFrame(cfg, p1) else p1;
    Consume(cfg, p2, c)
  }

  /** TF_Tick: count an idle tick, saturating at the threshold. */
  function Tick(cfg: Config, p: Parser): (r: Parser)
    requires ParserInv(cfg, p)
    ensures ParserInv(cfg, r)
    ensures r.ticks == if p.ticks < cfg.timeoutTicks then p.ticks + 1 else cfg.timeoutTicks
  {
    if p.ticks < cfg.timeoutTicks then p.(ticks := p.ticks + 1) else p
  }

  /** A delivered frame as a sequence of zero or one frames. */
  function Frames(o: Option<Frame>): seq<Frame>
  {
    if o.Some? then [o.value] else []
  }

  /** The parser after a whole byte string, and every frame it completed, in order. */
  datatype Ran = Ran(parser: Parser, frames: seq<Frame>)

  /** TF_Accept: TF_AcceptChar on each byte in turn. */
  function Run(cfg: Config, p: Parser, s: seq<byte>): (r: Ran)
    requires ValidConfig(cfg) && ParserInv(cfg, p)
    ensures ParserInv(cfg, r.parser)
    ensures forall f | f in r.frames :: |f.payload| <= cfg.maxPayload
    decreases |s|
  {
    if s == [] then Ran(p, [])
    else
      var st := Step(cfg, p, s[0]);
      var rest := Run(cfg, st.next, s[1..]);
      Ran(rest.parser, Frames(st.out) + rest.frames)
  }
}
