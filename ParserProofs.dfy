/**
  What the receive state machine does with whole byte strings: a composed
  frame is delivered exactly once, a frame whose header or payload
  checksum does not match is dropped, an oversized frame is consumed to
  its end and dropped, and a timed-out partial frame is abandoned.
*/
module ParserProofs {
  import opened Wire
  import opened Checksum
  import opened Protocol
  import opened Parser

  /** Feeding two strings one after the other is feeding their concatenation. */
  lemma {:induction false} RunAppend(cfg: Config, p: Parser, s: seq<byte>, t: seq<byte>)
    requires ValidConfig(cfg) && ParserInv(cfg, p)
    ensures var a := Run(cfg, p, s);
            var b := Run(cfg, a.parser, t);
            Run(cfg, p, s + t) == Ran(b.parser, a.frames + b.frames)
    decreases |s|
  {
    if s == [] {
      assert s + t == t;
    } else {
      var st := Step(cfg, p, s[0]);
      assert (s + t)[0] == s[0];
      assert (s + t)[1..] == s[1..] + t;
      RunAppend(cfg, st.next, s[1..], t);
      RunCons(cfg, p, s);
      RunCons(cfg, p, s + t);
      var a := Run(cfg, st.next, s[1..]);
      var b := Run(cfg, a.parser, t);
      ConcatAssoc(Frames(st.out), a.frames, b.frames);
    }
  }

  lemma ConcatAssoc(x: seq<Frame>, y: seq<Frame>, z: seq<Frame>)
    ensures x + (y + z) == (x + y) + z
  {
  }

  /** One byte, then the rest. */
  lemma RunCons(cfg: Config, p: Parser, s: seq<byte>)
    requires ValidConfig(cfg) && ParserInv(cfg, p) && s != []
    ensures var st := Step(cfg, p, s[0]);
            var rest := Run(cfg, st.next, s[1..]);
            Run(cfg, p, s) == Ran(rest.parser, Frames(st.out) + rest.frames)
  {
  }

  /** TF_Accept one byte further: the next TF_AcceptChar. */
  lemma RunSnoc(cfg: Config, p: Parser, s: seq<byte>, c: byte)
    requires ValidConfig(cfg) && ParserInv(cfg, p)
    ensures var a := Run(cfg, p, s);
            var st := Step(cfg, a.parser, c);
            Run(cfg, p, s + [c]) == Ran(st.next, a.frames + Frames(st.out))
  {
    RunAppend(cfg, p, s, [c]);
    var a := Run(cfg, p, s);
    RunCons(cfg, a.parser, [c]);
    assert [c][1..] == [];
  }

  /** RunSnoc for a growing prefix of one buffer, as the loop of TF_Accept reads it. */
  lemma RunPrefix(cfg: Config, p: Parser, s: seq<byte>, i: nat)
    requires ValidConfig(cfg) && ParserInv(cfg, p) && i < |s|
    ensures var a := Run(cfg, p, s[..i]);
            var st := Step(cfg, a.parser, s[i]);
            Run(cfg, p, s[..i + 1]) == Ran(st.next, a.frames + Frames(st.out))
  {
    assert s[..i + 1] == s[..i] + [s[i]];
    RunSnoc(cfg, p, s[..i], s[i]);
  }

  /** Inside a frame, right after a byte: no timeout and no restart can intervene. */
  predicate Running(cfg: Config, p: Parser)
  {
    p.ticks == 0 && cfg.timeoutTicks > 0 && p.state != Sof
  }

  lemma StepIsConsume(cfg: Config, p: Parser, c: byte)
    requires ValidConfig(cfg) && ParserInv(cfg, p) && Running(cfg, p)
    ensures Step(cfg, p, c) == Consume(cfg, p, c)
  {
    assert Timeout(cfg, p) == p;
  }

  // ---------------------------------------------------------------------
  // One field at a time
  // ---------------------------------------------------------------------

  lemma {:induction false} IdPhase(cfg: Config, p: Parser, s: seq<byte>)
    requires ValidConfig(cfg) && ParserInv(cfg, p) && Running(cfg, p) && p.state == Id
    requires |s| == cfg.idWidth - p.rxi
    ensures Run(cfg, p, s)
      == Ran(p.(state := Len, rxi := 0, id := CollectAll(p.id, s, cfg.idWidth),
                cksum := AddAll(cfg.cksum, p.cksum, s)), [])
    decreases |s|
  {
    StepIsConsume(cfg, p, s[0]);
    if |s| > 1 {
      IdPhase(cfg, Step(cfg, p, s[0]).next, s[1..]);
    }
  }

  lemma {:induction false} LenPhase(cfg: Config, p: Parser, s: seq<byte>)
    requires ValidConfig(cfg) && ParserInv(cfg, p) && Running(cfg, p) && p.state == Len
    requires |s| == cfg.lenWidth - p.rxi
    ensures Run(cfg, p, s)
      == Ran(p.(state := Type, rxi := 0, len := CollectAll(p.len, s, cfg.lenWidth),
                cksum := AddAll(cfg.cksum, p.cksum, s)), [])
    decreases |s|
  {
    StepIsConsume(cfg, p, s[0]);
    if |s| > 1 {
      LenPhase(cfg, Step(cfg, p, s[0]).next, s[1..]);
    }
  }

  lemma {:induction false} TypePhase(cfg: Config, p: Parser, s: seq<byte>)
    requires ValidConfig(cfg) && ParserInv(cfg, p) && Running(cfg, p) && p.state == Type
    requires |s| == cfg.typeWidth - p.rxi
    ensures var x := p.(typ := CollectAll(p.typ, s, cfg.typeWidth),
                        cksum := AddAll(cfg.cksum, p.cksum, s), rxi := cfg.typeWidth);
            Run(cfg, p, s) == Ran(TypeDone(cfg, x).next, Frames(TypeDone(cfg, x).out))
    decreases |s|
  {
    StepIsConsume(cfg, p, s[0]);
    if |s| > 1 {
      TypePhase(cfg, Step(cfg, p, s[0]).next, s[1..]);
    }
  }

  lemma {:induction false} HeadCksumPhase(cfg: Config, p: Parser, s: seq<byte>)
    requires ValidConfig(cfg) && ParserInv(cfg, p) && Running(cfg, p) && p.state == HeadCksum
    requires |s| == Width(cfg.cksum) - p.rxi
    ensures var x := p.(refCksum := CollectAll(p.refCksum, s, Width(cfg.cksum)),
                        rxi := Width(cfg.cksum));
            Run(cfg, p, s) == Ran(HeaderDone(cfg, x).next, Frames(HeaderDone(cfg, x).out))
    decreases |s|
  {
    StepIsConsume(cfg, p, s[0]);
    if |s| > 1 {
      HeadCksumPhase(cfg, Step(cfg, p, s[0]).next, s[1..]);
    }
  }

  lemma {:induction false} DataCksumPhase(cfg: Config, p: Parser, s: seq<byte>)
    requires ValidConfig(cfg) && ParserInv(cfg, p) && Running(cfg, p) && p.state == DataCksum
    requires |s| == Width(cfg.cksum) - p.rxi
    ensures var x := p.(refCksum := CollectAll(p.refCksum, s, Width(cfg.cksum)),
                        rxi := Width(cfg.cksum));
            Run(cfg, p, s) == Ran(DataCksumDone(cfg, x).next, Frames(DataCksumDone(cfg, x).out))
    decreases |s|
  {
    StepIsConsume(cfg, p, s[0]);
    if |s| > 1 {
      DataCksumPhase(cfg, Step(cfg, p, s[0]).next, s[1..]);
    }
  }

  /** The payload buffer after `s` has been stored from index `i` on. */
  function Overwrite(d: seq<byte>, i: nat, s: seq<byte>): (r: seq<byte>)
    requires i + |s| <= |d|
    ensures |r| == |d| && r[i..i + |s|] == s
  {
    d[..i] + s + d[i + |s|..]
  }

  lemma OverwriteStep(d: seq<byte>, i: nat, s: seq<byte>)
    requires i + |s| <= |d| && s != []
    ensures Overwrite(d[i := s[0]], i + 1, s[1..]) == Overwrite(d, i, s)
  {
    var l := Overwrite(d[i := s[0]], i + 1, s[1..]);
    var r := Overwrite(d, i, s);
    forall k | 0 <= k < |d| ensures l[k] == r[k] {
      if k < i {
      } else if k < i + |s| {
        assert r[k] == s[k - i];
        if k > i {
          assert l[k] == s[1..][k - i - 1];
        }
      }
    }
  }

  /** A discarded payload only advances the byte counter. */
  lemma {:induction false} DiscardPhase(cfg: Config, p: Parser, s: seq<byte>)
    requires ValidConfig(cfg) && ParserInv(cfg, p) && Running(cfg, p) && p.state == Data
    requires p.discard && |s| == p.len - p.rxi
    ensures var x := p.(rxi := p.len);
            Run(cfg, p, s) == Ran(DataDone(cfg, x).next, Frames(DataDone(cfg, x).out))
    decreases |s|
  {
    StepIsConsume(cfg, p, s[0]);
    RunCons(cfg, p, s);
    var q := p.(rxi := p.rxi + 1);
    assert Step(cfg, p, s[0]) == (if q.rxi == q.len then DataDone(cfg, q) else Stepped(q, None));
    if |s| > 1 {
      DiscardPhase(cfg, q, s[1..]);
    }
  }

  /** One stored payload byte: the run goes on from the parser that stored it. */
  lemma StoreRun(cfg: Config, p: Parser, s: seq<byte>)
    requires ValidConfig(cfg) && ParserInv(cfg, p) && Running(cfg, p) && p.state == Data
    requires !p.discard && |s| == p.len - p.rxi
    ensures var q := p.(cksum := Add(cfg.cksum, p.cksum, s[0]), data := p.data[p.rxi := s[0]],
                        rxi := p.rxi + 1);
            && (|s| > 1 ==> ParserInv(cfg, q) && Running(cfg, q))
            && Run(cfg, p, s) == if |s| == 1 then Ran(DataDone(cfg, q).next, Frames(DataDone(cfg, q).out))
                                 else Run(cfg, q, s[1..])
  {
    var q := p.(cksum := Add(cfg.cksum, p.cksum, s[0]), data := p.data[p.rxi := s[0]],
                rxi := p.rxi + 1);
    StepIsConsume(cfg, p, s[0]);
    assert Step(cfg, p, s[0]) == if |s| == 1 then DataDone(cfg, q) else Stepped(q, None);
    RunCons(cfg, p, s);
    if |s| == 1 {
      assert s[1..] == [];
    }
  }

  /** The last stored byte completes the overwrite and the checksum. */
  lemma StoreLast(cfg: Config, p: Parser, c: byte)
    requires p.rxi < |p.data| && p.cksum < Bound(cfg.cksum)
    ensures p.(data := Overwrite(p.data, p.rxi, [c]), cksum := AddAll(cfg.cksum, p.cksum, [c]),
               rxi := p.rxi + 1)
         == p.(cksum := Add(cfg.cksum, p.cksum, c), data := p.data[p.rxi := c], rxi := p.rxi + 1)
  {
    assert Overwrite(p.data, p.rxi, [c]) == p.data[p.rxi := c];
    assert AddAll(cfg.cksum, p.cksum, [c]) == AddAll(cfg.cksum, Add(cfg.cksum, p.cksum, c), []);
  }

  /** A kept payload is stored in the buffer and summed into the checksum. */
  lemma {:induction false} StorePhase(cfg: Config, p: Parser, s: seq<byte>)
    requires ValidConfig(cfg) && ParserInv(cfg, p) && Running(cfg, p) && p.state == Data
    requires !p.discard && |s| == p.len - p.rxi
    ensures var x := p.(data := Overwrite(p.data, p.rxi, s),
                        cksum := AddAll(cfg.cksum, p.cksum, s), rxi := p.len);
            Run(cfg, p, s) == Ran(DataDone(cfg, x).next, Frames(DataDone(cfg, x).out))
    decreases |s|
  {
    StoreRun(cfg, p, s);
    if |s| > 1 {
      var q := p.(cksum := Add(cfg.cksum, p.cksum, s[0]), data := p.data[p.rxi := s[0]],
                  rxi := p.rxi + 1);
      StorePhase(cfg, q, s[1..]);
      OverwriteStep(p.data, p.rxi, s);
      assert AddAll(cfg.cksum, p.cksum, s) == AddAll(cfg.cksum, q.cksum, s[1..]);
    } else {
      assert s == [s[0]];
      StoreLast(cfg, p, s[0]);
    }
  }

  // ---------------------------------------------------------------------
  // The header
  // ---------------------------------------------------------------------

  /** The parser once a frame has begun: on the SOF byte, or on the first ID byte without one. */
  function Started(cfg: Config, p: Parser): (r: Parser)
    requires ValidConfig(cfg) && ParserInv(cfg, p)
    ensures ParserInv(cfg, r) && r.state == Id && r.rxi == 0 && r.ticks == 0 && !r.discard
  {
    BeginFrame(cfg, Timeout(cfg, p))
  }

  lemma StartedFacts(cfg: Config, p: Parser)
    requires ValidConfig(cfg) && ParserInv(cfg, p) && cfg.timeoutTicks > 0
    ensures var b := Started(cfg, p);
            && ParserInv(cfg, b) && Running(cfg, b) && b.state == Id && b.rxi == 0 && !b.discard
            && b.cksum == AddAll(cfg.cksum, Reset(cfg.cksum), SofBytes(cfg))
  {
  }

  /** Whatever the parser was doing, a reset or SOF state means the next frame starts cleanly. */
  lemma StartRun(cfg: Config, p: Parser, s: seq<byte>)
    requires ValidConfig(cfg) && ParserInv(cfg, p) && cfg.timeoutTicks > 0
    requires p.state == Sof || p.ticks >= cfg.timeoutTicks
    requires s != []
    ensures Run(cfg, p, SofBytes(cfg) + s) == Run(cfg, Started(cfg, p), s)
  {
    StartedFacts(cfg, p);
    var b := Started(cfg, p);
    if cfg.useSof {
      assert (SofBytes(cfg) + s)[0] == cfg.sofByte;
      assert (SofBytes(cfg) + s)[1..] == s;
    } else {
      assert SofBytes(cfg) + s == s;
      StepIsConsume(cfg, b, s[0]);
    }
  }

  /** The parser at the end of the TYPE field of a frame whose header carried id, len and typ. */
  function HeaderParsed(cfg: Config, p: Parser, id: nat, len: nat, typ: nat): Parser
    requires ValidConfig(cfg) && ParserInv(cfg, p)
  {
    Started(cfg, p).(state := Type, id := id, len := len, typ := typ, rxi := cfg.typeWidth,
                     cksum := AddAll(cfg.cksum, Reset(cfg.cksum), HeaderBytes(cfg, id, len, typ)))
  }

  /** A phase that completes no frame hands its end state to what follows. */
  lemma ThenRun(cfg: Config, p: Parser, s: seq<byte>, t: seq<byte>, q: Parser)
    requires ValidConfig(cfg) && ParserInv(cfg, p) && ParserInv(cfg, q)
    requires Run(cfg, p, s) == Ran(q, [])
    ensures Run(cfg, p, s + t) == Run(cfg, q, t)
  {
    RunAppend(cfg, p, s, t);
  }

  /** The running checksum over the header fields, one field after the other. */
  lemma HeaderSum(cfg: Config, id: nat, len: nat, typ: nat)
    ensures var r0 := Reset(cfg.cksum);
            var bi := BigEndian(id, cfg.idWidth);
            var bl := BigEndian(len, cfg.lenWidth);
            var bt := BigEndian(typ, cfg.typeWidth);
            AddAll(cfg.cksum, AddAll(cfg.cksum, AddAll(cfg.cksum, AddAll(cfg.cksum, r0, SofBytes(cfg)),
                                                       bi), bl), bt)
              == AddAll(cfg.cksum, r0, HeaderBytes(cfg, id, len, typ))
  {
    var sof := SofBytes(cfg);
    var bi := BigEndian(id, cfg.idWidth);
    var bl := BigEndian(len, cfg.lenWidth);
    var bt := BigEndian(typ, cfg.typeWidth);
    var r0 := Reset(cfg.cksum);
    AddAllAppend(cfg.cksum, r0, sof, bi);
    AddAllAppend(cfg.cksum, r0, sof + bi, bl);
    AddAllAppend(cfg.cksum, r0, sof + bi + bl, bt);
  }

  lemma HeaderRun(cfg: Config, p: Parser, id: nat, len: nat, typ: nat)
    requires ValidConfig(cfg) && ParserInv(cfg, p) && cfg.timeoutTicks > 0
    requires p.state == Sof || p.ticks >= cfg.timeoutTicks
    requires id < Pow256(cfg.idWidth) && len < Pow256(cfg.lenWidth) && typ < Pow256(cfg.typeWidth)
    ensures var x := HeaderParsed(cfg, p, id, len, typ);
            Run(cfg, p, HeaderBytes(cfg, id, len, typ))
              == Ran(TypeDone(cfg, x).next, Frames(TypeDone(cfg, x).out))
  {
    var bi := BigEndian(id, cfg.idWidth);
    var bl := BigEndian(len, cfg.lenWidth);
    var bt := BigEndian(typ, cfg.typeWidth);
    assert HeaderBytes(cfg, id, len, typ) == SofBytes(cfg) + (bi + (bl + bt));
    StartRun(cfg, p, bi + (bl + bt));
    StartedFacts(cfg, p);
    var b0 := Started(cfg, p);
    IdPhase(cfg, b0, bi);
    CollectBigEndian(b0.id, id, cfg.idWidth);
    var b1 := b0.(state := Len, rxi := 0, id := id, cksum := AddAll(cfg.cksum, b0.cksum, bi));
    ThenRun(cfg, b0, bi, bl + bt, b1);
    LenPhase(cfg, b1, bl);
    CollectBigEndian(b1.len, len, cfg.lenWidth);
    var b2 := b1.(state := Type, rxi := 0, len := len, cksum := AddAll(cfg.cksum, b1.cksum, bl));
    ThenRun(cfg, b1, bl, bt, b2);
    TypePhase(cfg, b2, bt);
    CollectBigEndian(b2.typ, typ, cfg.typeWidth);
    HeaderSum(cfg, id, len, typ);
  }

  /** With a checksum: the header, then a header checksum field holding `h`. */
  lemma CheckedHeaderRun(cfg: Config, p: Parser, id: nat, len: nat, typ: nat, h: nat)
    requires ValidConfig(cfg) && ParserInv(cfg, p) && cfg.timeoutTicks > 0
    requires p.state == Sof || p.ticks >= cfg.timeoutTicks
    requires id < Pow256(cfg.idWidth) && len < Pow256(cfg.lenWidth) && typ < Pow256(cfg.typeWidth)
    requires cfg.cksum != NoCksum && h < Bound(cfg.cksum)
    ensures var y := HeaderParsed(cfg, p, id, len, typ).(state := HeadCksum, rxi := Width(cfg.cksum),
                                                         refCksum := h);
            Run(cfg, p, HeaderBytes(cfg, id, len, typ) + CksumBytes(cfg, h))
              == Ran(HeaderDone(cfg, y).next, Frames(HeaderDone(cfg, y).out))
  {
    var header := HeaderBytes(cfg, id, len, typ);
    var x := HeaderParsed(cfg, p, id, len, typ);
    var y0 := x.(state := HeadCksum, rxi := 0, refCksum := 0);
    HeaderRun(cfg, p, id, len, typ);
    StartedFacts(cfg, p);
    assert TypeDone(cfg, x) == Stepped(y0, None);
    ThenRun(cfg, p, header, CksumBytes(cfg, h), y0);
    HeadCksumPhase(cfg, y0, CksumBytes(cfg, h));
    BoundIsPow256(cfg.cksum);
    CollectBigEndian(0, h, Width(cfg.cksum));
  }

  /**
    A header whose checksum field matches (or a header alone, without a
    checksum): an empty frame is delivered, otherwise the parser waits for
    the payload, discarding when the length is oversized.
  */
  lemma AcceptedHeader(cfg: Config, p: Parser, id: nat, len: nat, typ: nat)
    requires ValidConfig(cfg) && ParserInv(cfg, p) && cfg.timeoutTicks > 0
    requires p.state == Sof || p.ticks >= cfg.timeoutTicks
    requires id < Pow256(cfg.idWidth) && len < Pow256(cfg.lenWidth) && typ < Pow256(cfg.typeWidth)
    ensures var header := HeaderBytes(cfg, id, len, typ);
            var r := Run(cfg, p, header + HeaderCksumField(cfg, header));
            && (len == 0 ==> r.parser.state == Sof && r.frames == [Frame(id, typ, [])])
            && (len > 0 ==>
                  && r.frames == [] && r.parser.state == Data && r.parser.rxi == 0
                  && r.parser.ticks == 0 && r.parser.len == len && r.parser.id == id
                  && r.parser.typ == typ && r.parser.cksum == Reset(cfg.cksum)
                  && r.parser.discard == Oversized(cfg, len))
  {
    var header := HeaderBytes(cfg, id, len, typ);
    StartedFacts(cfg, p);
    if cfg.cksum == NoCksum {
      assert header + HeaderCksumField(cfg, header) == header;
      HeaderRun(cfg, p, id, len, typ);
    } else {
      var h := Of(cfg.cksum, header);
      CheckedHeaderRun(cfg, p, id, len, typ, h);
    }
  }

  // ---------------------------------------------------------------------
  // The payload
  // ---------------------------------------------------------------------

  /**
    From the start of the payload: `body` (the declared length) and then
    a checksum field `tail`. The frame is delivered iff it is kept and,
    with a checksum, the field holds the checksum of the body.
  */
  lemma BodyRun(cfg: Config, d: Parser, body: seq<byte>, tail: seq<byte>)
    requires ValidConfig(cfg) && ParserInv(cfg, d) && Running(cfg, d)
    requires d.state == Data && d.rxi == 0 && d.cksum == Reset(cfg.cksum)
    requires |body| == d.len && |tail| == Width(cfg.cksum)
    ensures var r := Run(cfg, d, body + tail);
            && r.parser.state == Sof
            && r.frames == if !d.discard && (cfg.cksum == NoCksum
                                             || CollectAll(0, tail, Width(cfg.cksum)) == Of(cfg.cksum, body))
                           then [Frame(d.id, d.typ, body)] else []
  {
    RunAppend(cfg, d, body, tail);
    if d.discard {
      DiscardPhase(cfg, d, body);
    } else {
      StorePhase(cfg, d, body);
      assert Overwrite(d.data, 0, body)[..d.len] == body;
    }
    var x := Run(cfg, d, body).parser;
    if cfg.cksum != NoCksum {
      DataCksumPhase(cfg, x, tail);
    } else {
      assert tail == [];
    }
  }

  // ---------------------------------------------------------------------
  // Whole frames
  // ---------------------------------------------------------------------

  /**
    A header with a matching checksum field, `len` payload bytes and a
    payload checksum field `tail`: the frame is delivered iff its length
    fits TF_MAX_PAYLOAD and, with a checksum, `tail` holds the checksum of
    the payload. The parser ends in SOF either way.
  */
  lemma FrameRun(cfg: Config, p: Parser, id: nat, len: nat, typ: nat,
                 body: seq<byte>, tail: seq<byte>)
    requires ValidConfig(cfg) && ParserInv(cfg, p) && cfg.timeoutTicks > 0
    requires p.state == Sof || p.ticks >= cfg.timeoutTicks
    requires id < Pow256(cfg.idWidth) && len < Pow256(cfg.lenWidth) && typ < Pow256(cfg.typeWidth)
    requires len > 0 && |body| == len && |tail| == Width(cfg.cksum)
    ensures var header := HeaderBytes(cfg, id, len, typ);
            var r := Run(cfg, p, header + HeaderCksumField(cfg, header) + (body + tail));
            && r.parser.state == Sof
            && r.frames == if Kept(cfg, body, tail) then [Frame(id, typ, body)] else []
  {
    var header := HeaderBytes(cfg, id, len, typ);
    var hf := header + HeaderCksumField(cfg, header);
    AcceptedHeader(cfg, p, id, len, typ);
    var d := Run(cfg, p, hf).parser;
    ThenRun(cfg, p, hf, body + tail, d);
    BodyRun(cfg, d, body, tail);
  }

  /** A payload is delivered iff it fits the buffer and its checksum field matches. */
  predicate Kept(cfg: Config, body: seq<byte>, tail: seq<byte>)
  {
    && !Oversized(cfg, |body|)
    && (cfg.cksum == NoCksum || CollectAll(0, tail, Width(cfg.cksum)) == Of(cfg.cksum, body))
  }

  /**
    Round trip: from SOF (or once the idle timeout has expired), the bytes
    the composer writes for a frame make the parser deliver exactly that
    frame and return to SOF. This holds for every payload up to
    TF_MAX_PAYLOAD bytes, including the empty one.
  */
  lemma RoundTrip(cfg: Config, p: Parser, id: nat, typ: nat, payload: seq<byte>)
    requires ValidConfig(cfg) && ParserInv(cfg, p) && cfg.timeoutTicks > 0
    requires p.state == Sof || p.ticks >= cfg.timeoutTicks
    requires id < Pow256(cfg.idWidth) && typ < Pow256(cfg.typeWidth)
    requires |payload| < Pow256(cfg.lenWidth) && |payload| <= cfg.maxPayload
    ensures var r := Run(cfg, p, FrameBytes(cfg, id, typ, payload));
            r.parser.state == Sof && r.frames == [Frame(id, typ, payload)]
  {
    var header := HeaderBytes(cfg, id, |payload|, typ);
    var hf := header + HeaderCksumField(cfg, header);
    var pf := PayloadCksumField(cfg, payload);
    if |payload| == 0 {
      AcceptedHeader(cfg, p, id, |payload|, typ);
      assert FrameBytes(cfg, id, typ, payload) == hf;
    } else {
      assert FrameBytes(cfg, id, typ, payload) == hf + (payload + pf);
      FrameRun(cfg, p, id, |payload|, typ, payload, pf);
      if cfg.cksum != NoCksum {
        BoundIsPow256(cfg.cksum);
        CollectBigEndian(0, Of(cfg.cksum, payload), Width(cfg.cksum));
      }
    }
  }

  /** A header checksum field that does not match drops the frame and returns to SOF. */
  lemma HeaderMismatchDropped(cfg: Config, p: Parser, id: nat, len: nat, typ: nat, h: nat)
    requires ValidConfig(cfg) && ParserInv(cfg, p) && cfg.timeoutTicks > 0
    requires p.state == Sof || p.ticks >= cfg.timeoutTicks
    requires id < Pow256(cfg.idWidth) && len < Pow256(cfg.lenWidth) && typ < Pow256(cfg.typeWidth)
    requires cfg.cksum != NoCksum && h < Bound(cfg.cksum)
    requires h != Of(cfg.cksum, HeaderBytes(cfg, id, len, typ))
    ensures var r := Run(cfg, p, HeaderBytes(cfg, id, len, typ) + CksumBytes(cfg, h));
            r.parser.state == Sof && r.frames == []
  {
    CheckedHeaderRun(cfg, p, id, len, typ, h);
  }

  /**
    A payload checksum field that does not match drops the frame; the
    parser is back in SOF.
  */
  lemma PayloadMismatchDropped(cfg: Config, p: Parser, id: nat, typ: nat, payload: seq<byte>,
                               pc: nat)
    requires ValidConfig(cfg) && ParserInv(cfg, p) && cfg.timeoutTicks > 0
    requires p.state == Sof || p.ticks >= cfg.timeoutTicks
    requires id < Pow256(cfg.idWidth) && typ < Pow256(cfg.typeWidth)
    requires 0 < |payload| < Pow256(cfg.lenWidth) && |payload| <= cfg.maxPayload
    requires cfg.cksum != NoCksum && pc < Bound(cfg.cksum) && pc != Of(cfg.cksum, payload)
    ensures var header := HeaderBytes(cfg, id, |payload|, typ);
            var r := Run(cfg, p, header + HeaderCksumField(cfg, header) + (payload + CksumBytes(cfg, pc)));
            r.parser.state == Sof && r.frames == []
  {
    FrameRun(cfg, p, id, |payload|, typ, payload, CksumBytes(cfg, pc));
    BoundIsPow256(cfg.cksum);
    CollectBigEndian(0, pc, Width(cfg.cksum));
  }

  /**
    Oversize containment: a frame whose valid header declares more than
    TF_MAX_PAYLOAD bytes is consumed for exactly its declared length plus
    the checksum field, whatever those bytes are, and is never delivered.
  */
  lemma OversizedDropped(cfg: Config, p: Parser, id: nat, len: nat, typ: nat,
                         body: seq<byte>, tail: seq<byte>)
    requires ValidConfig(cfg) && ParserInv(cfg, p) && cfg.timeoutTicks > 0
    requires p.state == Sof || p.ticks >= cfg.timeoutTicks
    requires id < Pow256(cfg.idWidth) && len < Pow256(cfg.lenWidth) && typ < Pow256(cfg.typeWidth)
    requires len > cfg.maxPayload && |body| == len && |tail| == Width(cfg.cksum)
    ensures var header := HeaderBytes(cfg, id, len, typ);
            var r := Run(cfg, p, header + HeaderCksumField(cfg, header) + (body + tail));
            r.parser.state == Sof && r.frames == []
  {
    assert !Kept(cfg, body, tail) by {
      assert Oversized(cfg, |body|);
    }
    FrameRun(cfg, p, id, len, typ, body, tail);
  }

  // ---------------------------------------------------------------------
  // The code as written
  // ---------------------------------------------------------------------

  /**
    As written, in the checksummed modes (checksum mode 0 never reaches
    this test), a header declaring exactly TF_MAX_PAYLOAD bytes (which
    TF_Compose accepts and the buffer can hold) sets `discard_data`, so the
    payload is consumed and the frame is never delivered, whatever its
    checksum; the corrected test keeps it (see RoundTrip).
  */
  lemma MaxFrameDroppedAsWritten(cfg: Config, h: Parser, body: seq<byte>, tail: seq<byte>)
    requires ValidConfig(cfg) && ParserInv(cfg, h) && h.ticks == 0 && cfg.timeoutTicks > 0
    requires cfg.cksum != NoCksum
    requires h.len == cfg.maxPayload > 0 && !h.discard
    requires |body| == h.len && |tail| == Width(cfg.cksum)
    ensures !Oversized(cfg, h.len)
    ensures var d := BeginPayloadAsWritten(cfg, h).next;
            ParserInv(cfg, d) && d.discard && Run(cfg, d, body + tail).frames == []
  {
    var d := BeginPayloadAsWritten(cfg, h).next;
    assert ParserInv(cfg, d);
    BodyRun(cfg, d, body, tail);
  }

  /**
    While no payload byte completes the frame, DATA as written only
    advances the store index, one byte at a time.
  */
  lemma {:induction false} FeedDataAsWrittenCounts(cfg: Config, p: Parser, s: seq<byte>)
    requires p.state == Data && !p.discard && p.cksum < Bound(cfg.cksum)
    requires p.len <= p.rxi || p.len > p.rxi + |s|
    ensures var d := FeedDataAsWritten(cfg, p, s);
            d.state == Data && !d.discard && d.len == p.len && d.rxi == p.rxi + |s|
    decreases |s|
  {
    if s != [] {
      var q := ConsumeDataAsWritten(cfg, p, s[0]).next;
      assert q.state == Data && q.rxi == p.rxi + 1;
      FeedDataAsWrittenCounts(cfg, q, s[1..]);
    }
  }

  /**
    As written, in checksum mode 0 a header declaring a length of zero or
    above TF_MAX_PAYLOAD leads straight to DATA: after TF_MAX_PAYLOAD
    payload bytes the frame is still not complete, and the next byte is
    stored at index TF_MAX_PAYLOAD, one past the end of `tf.data`. The
    parser entering DATA already breaks the invariant that bounds the
    stores; the corrected `TypeDone` keeps it (see `Step`).
  */
  lemma OverrunAsWritten(cfg: Config, x: Parser, s: seq<byte>, c: byte)
    requires cfg.cksum == NoCksum && !x.discard && x.cksum < Bound(cfg.cksum)
    requires |x.data| == cfg.maxPayload && |s| == cfg.maxPayload
    requires x.len == 0 || x.len > cfg.maxPayload
    ensures !ParserInv(cfg, TypeDoneAsWritten(cfg, x).next)
    ensures var d := FeedDataAsWritten(cfg, TypeDoneAsWritten(cfg, x).next, s);
            && d.state == Data && d.rxi == |d.data|
            && ConsumeDataAsWritten(cfg, d, c).at == Some(|d.data|)
  {
    FeedDataAsWrittenCounts(cfg, TypeDoneAsWritten(cfg, x).next, s);
  }

  // ---------------------------------------------------------------------
  // Timeout
  // ---------------------------------------------------------------------

  /** TF_Tick called n times. */
  function Ticks(cfg: Config, p: Parser, n: nat): (r: Parser)
    requires ParserInv(cfg, p)
    ensures ParserInv(cfg, r)
    decreases n
  {
    if n == 0 then p else Ticks(cfg, Tick(cfg, p), n - 1)
  }

  /** The idle counter saturates at the threshold and nothing else changes. */
  lemma {:induction false} TicksSaturate(cfg: Config, p: Parser, n: nat)
    requires ParserInv(cfg, p)
    ensures Ticks(cfg, p, n)
      == p.(ticks := if p.ticks + n < cfg.timeoutTicks then p.ticks + n else cfg.timeoutTicks)
    decreases n
  {
    if n > 0 {
      TicksSaturate(cfg, Tick(cfg, p), n - 1);
    }
  }

  /**
    Truncation and timeout: whatever partial frame the parser holds, once
    TF_Tick has run at least TF_PARSER_TIMEOUT_TICKS times, a fresh
    composed frame is delivered exactly, without the stale bytes.
  */
  lemma TimeoutResync(cfg: Config, p: Parser, n: nat, id: nat, typ: nat, payload: seq<byte>)
    requires ValidConfig(cfg) && ParserInv(cfg, p) && cfg.timeoutTicks > 0
    requires n >= cfg.timeoutTicks
    requires id < Pow256(cfg.idWidth) && typ < Pow256(cfg.typeWidth)
    requires |payload| < Pow256(cfg.lenWidth) && |payload| <= cfg.maxPayload
    ensures var r := Run(cfg, Ticks(cfg, p, n), FrameBytes(cfg, id, typ, payload));
            r.parser.state == Sof && r.frames == [Frame(id, typ, payload)]
  {
    TicksSaturate(cfg, p, n);
    RoundTrip(cfg, Ticks(cfg, p, n), id, typ, payload);
  }
}
