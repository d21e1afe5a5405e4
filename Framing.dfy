/**
  The TinyFrame session: `struct TinyFrameStruct` of TinyFrame.c as a
  class whose methods update its fields in place, as the C functions
  update the static `tf`. Each method is proved against the value-level
  specification: the parser against `Step` and `Run`, the listener
  functions against the Registry functions, the composer against
  `FrameBytes`.

  Listener callbacks are foreign code; `claims` says what each returns,
  and `trace` records, for every frame handed to TF_HandleReceivedMessage,
  the listeners called. TF_WriteImpl is not modelled: the send functions
  return the bytes they would write.
*/
module Framing {
  import opened Wire
  import opened Checksum
  import opened Protocol
  import opened Spec = Parser
  import opened ParserProofs
  import opened Registry

  /** TF_Compose's failure value. */
  const TF_ERROR: int := -1

  class TinyFrame {
    const cfg: Config
    const claims: Claims

    // Own state
    var peerBit: bool
    var nextId: nat

    // Parser state
    var state: State
    var parserTimeoutTicks: nat
    var id: nat
    var len: nat
    const data: array<byte>
    var rxi: nat
    var cksum: nat
    var refCksum: nat
    var typ: nat
    var discardData: bool

    // Callbacks
    const idListeners: array<Slot>
    const typeListeners: array<Slot>
    const genericListeners: array<Option<Handle>>
    var countIdLst: nat
    var countTypeLst: nat
    var countGenericLst: nat

    // Buffer for building frames
    const sendbuf: array<byte>

    /** Every frame dispatched so far, with the listeners it was offered to. */
    var trace: seq<Delivery>

    /** The parser fields as a value. */
    function Rx(): Spec.Parser
      reads this`state, this`parserTimeoutTicks, this`id, this`len, this`rxi, this`cksum,
               this`refCksum, this`typ, this`discardData, data
    {
      Parser(state, parserTimeoutTicks, id, len, data[..], rxi, cksum, refCksum, typ, discardData)
    }

    function IdTable(): Table
      reads this`countIdLst, idListeners
    {
      Table(idListeners[..], countIdLst)
    }

    function TypeTable(): Table
      reads this`countTypeLst, typeListeners
    {
      Table(typeListeners[..], countTypeLst)
    }

    function GenericTable(): GenTable
      reads this`countGenericLst, genericListeners
    {
      GenTable(genericListeners[..], countGenericLst)
    }

    predicate ListenersOk()
      reads this`countIdLst, this`countTypeLst, this`countGenericLst,
               idListeners, typeListeners, genericListeners
    {
      TableInv(IdTable()) && TableInv(TypeTable()) && GenInv(GenericTable())
    }

    /** What TF_HandleReceivedMessage does with these frames, given the current tables. */
    function Offers(fs: seq<Frame>): seq<Delivery>
      reads this`countIdLst, this`countTypeLst, this`countGenericLst,
               idListeners, typeListeners, genericListeners
      requires ListenersOk()
    {
      DeliverAll(IdTable(), TypeTable(), GenericTable(), claims, fs)
    }

    /** The arrays' sizes and the listener tables: everything but the parser fields. */
    predicate Shape()
      reads this`nextId, this`countIdLst, this`countTypeLst, this`countGenericLst,
            idListeners, typeListeners, genericListeners
    {
      && ValidConfig(cfg)
      && data.Length == cfg.maxPayload
      && sendbuf.Length == cfg.maxPayload + Overhead(cfg)
      && idListeners.Length == cfg.maxIdLst
      && typeListeners.Length == cfg.maxTypeLst
      && genericListeners.Length == cfg.maxGenLst
      && idListeners != typeListeners && data != sendbuf
      && ListenersOk()
      && nextId < Pow256(cfg.idWidth)
    }

    predicate Valid()
      reads this`nextId, this`state, this`parserTimeoutTicks, this`id, this`len, this`rxi, this`cksum,
               this`refCksum, this`typ, this`discardData, data,
               this`countIdLst, this`countTypeLst, this`countGenericLst,
               idListeners, typeListeners, genericListeners
    {
      Shape() && ParserInv(cfg, Rx())
    }

    /** TF_Init: everything zero (the SOF state, no listeners), then the peer bit. */
    constructor (cfg: Config, peerBit: bool, claims: Claims)
      requires ValidConfig(cfg)
      ensures Valid()
      ensures this.cfg == cfg && this.claims == claims && this.peerBit == peerBit
      ensures Rx() == InitialParser(cfg) && nextId == 0 && trace == []
      ensures IdTable() == Table(seq(cfg.maxIdLst, _ => Slot(0, None)), 0)
      ensures TypeTable() == Table(seq(cfg.maxTypeLst, _ => Slot(0, None)), 0)
      ensures GenericTable() == GenTable(seq(cfg.maxGenLst, _ => None), 0)
      ensures fresh(data) && fresh(sendbuf) && fresh(idListeners) && fresh(typeListeners)
      ensures fresh(genericListeners)
    {
      this.cfg := cfg;
      this.claims := claims;
      this.peerBit := peerBit;
      nextId := 0;
      state := Sof;
      parserTimeoutTicks := 0;
      id := 0;
      len := 0;
      data := new byte[cfg.maxPayload](_ => 0);
      rxi := 0;
      cksum := 0;
      refCksum := 0;
      typ := 0;
      discardData := false;
      idListeners := new Slot[cfg.maxIdLst](_ => Slot(0, None));
      typeListeners := new Slot[cfg.maxTypeLst](_ => Slot(0, None));
      genericListeners := new Option<Handle>[cfg.maxGenLst](_ => None);
      countIdLst := 0;
      countTypeLst := 0;
      countGenericLst := 0;
      sendbuf := new byte[cfg.maxPayload + Overhead(cfg)](_ => 0);
      trace := [];
      new;
      assert Rx() == InitialParser(cfg);
      assert idListeners[..] == seq(cfg.maxIdLst, _ => Slot(0, None));
      assert typeListeners[..] == seq(cfg.maxTypeLst, _ => Slot(0, None));
      assert genericListeners[..] == seq(cfg.maxGenLst, _ => None);
      assert ListenersOk();
    }

    // -------------------------------------------------------------------
    // Listeners
    // -------------------------------------------------------------------

    method AddIdListener(frameId: nat, cb: Handle) returns (ok: bool)
      requires Valid()
      modifies this`countIdLst, idListeners
      ensures Valid()
      ensures (ok, IdTable()) == AddKeyed(old(IdTable()), frameId, cb)
    {
      ok, countIdLst := AddSlot(idListeners, countIdLst, frameId, cb);
      AddKeyedSpec(old(IdTable()), frameId, cb);
    }

    method AddTypeListener(frameType: nat, cb: Handle) returns (ok: bool)
      requires Valid()
      modifies this`countTypeLst, typeListeners
      ensures Valid()
      ensures (ok, TypeTable()) == AddKeyed(old(TypeTable()), frameType, cb)
    {
      ok, countTypeLst := AddSlot(typeListeners, countTypeLst, frameType, cb);
      AddKeyedSpec(old(TypeTable()), frameType, cb);
    }

    method AddGenericListener(cb: Handle) returns (ok: bool)
      requires Valid()
      modifies this`countGenericLst, genericListeners
      ensures Valid()
      ensures (ok, GenericTable()) == AddGeneric(old(GenericTable()), cb)
    {
      var i := 0;
      while i < genericListeners.Length
        invariant 0 <= i <= genericListeners.Length
        invariant FirstFree(genericListeners[..], 0) == FirstFree(genericListeners[..], i)
      {
        if genericListeners[i].None? {
          genericListeners[i] := Some(cb);
          if i >= countGenericLst {
            countGenericLst := i + 1;
          }
          AddGenericSpec(old(GenericTable()), cb);
          return true;
        }
        i := i + 1;
      }
      return false;
    }

    method RemoveIdListener(frameId: nat) returns (ok: bool)
      requires Valid()
      modifies this`countIdLst, idListeners
      ensures Valid()
      ensures (ok, IdTable()) == RemoveKeyed(old(IdTable()), frameId)
    {
      ok, countIdLst := RemoveSlot(idListeners, countIdLst, frameId);
      RemoveKeyedSpec(old(IdTable()), frameId);
    }

    method RemoveTypeListener(frameType: nat) returns (ok: bool)
      requires Valid()
      modifies this`countTypeLst, typeListeners
      ensures Valid()
      ensures (ok, TypeTable()) == RemoveKeyed(old(TypeTable()), frameType)
    {
      ok, countTypeLst := RemoveSlot(typeListeners, countTypeLst, frameType);
      RemoveKeyedSpec(old(TypeTable()), frameType);
    }

    /** `cb` may be NULL (None): the first NULL slot below the count then matches. */
    method RemoveGenericListener(cb: Option<Handle>) returns (ok: bool)
      requires Valid()
      modifies this`countGenericLst, genericListeners
      ensures Valid()
      ensures (ok, GenericTable()) == RemoveGeneric(old(GenericTable()), cb)
    {
      var i := 0;
      while i < countGenericLst
        invariant 0 <= i <= countGenericLst
        invariant FirstEqual(GenericTable(), cb, 0) == FirstEqual(GenericTable(), cb, i)
      {
        if genericListeners[i] == cb {
          genericListeners[i] := None;
          if i == countGenericLst - 1 {
            countGenericLst := countGenericLst - 1;
          }
          RemoveGenericSpec(old(GenericTable()), cb);
          return true;
        }
        i := i + 1;
      }
      return false;
    }

    /**
      TF_HandleReceivedMessage: ID listeners for the frame's ID, then type
      listeners for its type, then every generic listener, each table in
      slot order below its count, until one returns true.
    */
    method HandleReceivedMessage(f: Frame)
      requires ListenersOk()
      modifies this`trace
      ensures trace == old(trace) + [Deliver(IdTable(), TypeTable(), GenericTable(), claims, f)]
    {
      DispatchOrder(IdTable(), TypeTable(), GenericTable(), claims, f);

      // ID listeners first
      var byId, done := CallKeyed(idListeners, countIdLst, f.id, claims, f);
      if done {
        trace := trace + [Delivery(f, byId)];
        return;
      }
      // Type listeners
      var byType, done' := CallKeyed(typeListeners, countTypeLst, f.typ, claims, f);
      if done' {
        trace := trace + [Delivery(f, byId + byType)];
        return;
      }
      // Generic listeners
      var generic := CallLive(genericListeners, countGenericLst, claims, f);
      trace := trace + [Delivery(f, byId + byType + generic)];
    }

    // -------------------------------------------------------------------
    // Parser
    // -------------------------------------------------------------------

    /** TF_ResetParser: only the state changes. */
    method ResetParser()
      modifies this`state
      ensures Rx() == Spec.ResetParser(old(Rx()))
    {
      state := Sof;
    }

    /** TF_ParsBeginFrame. */
    method ParsBeginFrame()
      requires cksum < Bound(cfg.cksum)
      modifies this`cksum, this`discardData, this`state, this`rxi
      ensures Rx() == BeginFrame(cfg, old(Rx()))
    {
      cksum := Reset(cfg.cksum);
      if cfg.useSof {
        cksum := Add(cfg.cksum, cksum, cfg.sofByte);
      }
      discardData := false;
      state := Id;
      rxi := 0;
    }

    /** The header is accepted: dispatch an empty frame, or start the payload. */
    method BeginPayload()
      requires Shape() && cksum < Bound(cfg.cksum)
      modifies this`state, this`rxi, this`cksum, this`discardData, this`trace
      ensures var st := Spec.BeginPayload(cfg, old(Rx()));
              Rx() == st.next && trace == old(trace) + Offers(Frames(st.out))
    {
      if len == 0 {
        HandleReceivedMessage(Frame(id, typ, []));
        ResetParser();
        return;
      }
      state := Data;
      rxi := 0;
      cksum := Reset(cfg.cksum);
      if len > cfg.maxPayload {
        discardData := true;
      }
    }

    /** The last TYPE byte has arrived. */
    method FinishType()
      requires Shape() && cksum < Bound(cfg.cksum)
      modifies this`state, this`rxi, this`cksum, this`refCksum, this`discardData, this`trace
      ensures var st := TypeDone(cfg, old(Rx()));
              Rx() == st.next && trace == old(trace) + Offers(Frames(st.out))
    {
      if cfg.cksum == NoCksum {
        BeginPayload();
      } else {
        state := HeadCksum;
        rxi := 0;
        refCksum := 0;
      }
    }

    /** The last header checksum byte has arrived. */
    method FinishHeader()
      requires Shape() && cksum < Bound(cfg.cksum)
      modifies this`state, this`rxi, this`cksum, this`discardData, this`trace
      ensures var st := HeaderDone(cfg, old(Rx()));
              Rx() == st.next && trace == old(trace) + Offers(Frames(st.out))
    {
      cksum := Finalize(cfg.cksum, cksum);
      if cksum != refCksum {
        ResetParser();
        return;
      }
      BeginPayload();
    }

    /** The last payload byte has arrived. */
    method FinishData()
      requires Shape() && (!discardData ==> len <= data.Length)
      modifies this`state, this`rxi, this`refCksum, this`trace
      ensures var st := DataDone(cfg, old(Rx()));
              Rx() == st.next && trace == old(trace) + Offers(Frames(st.out))
    {
      if cfg.cksum == NoCksum {
        if !discardData {
          OffersOne(Frame(id, typ, data[..len]));
          HandleReceivedMessage(Frame(id, typ, data[..len]));
        }
        ResetParser();
      } else {
        state := DataCksum;
        rxi := 0;
        refCksum := 0;
      }
    }

    /** The last payload checksum byte has arrived. */
    method FinishDataCksum()
      requires Shape() && cksum < Bound(cfg.cksum) && (!discardData ==> len <= data.Length)
      modifies this`state, this`cksum, this`trace
      ensures var st := DataCksumDone(cfg, old(Rx()));
              Rx() == st.next && trace == old(trace) + Offers(Frames(st.out))
    {
      cksum := Finalize(cfg.cksum, cksum);
      if !discardData && cksum == refCksum {
        OffersOne(Frame(id, typ, data[..len]));
        HandleReceivedMessage(Frame(id, typ, data[..len]));
      }
      ResetParser();
    }

    method AcceptSof(c: byte)
      requires Valid() && state == Sof
      modifies this`cksum, this`discardData, this`state, this`rxi
      ensures Valid()
      ensures Rx() == ConsumeSof(cfg, old(Rx()), c).next
    {
      if c == cfg.sofByte {
        ParsBeginFrame();
      }
    }

    method AcceptId(c: byte)
      requires Valid() && state == Id
      modifies this`cksum, this`id, this`rxi, this`state
      ensures Valid()
      ensures Rx() == ConsumeId(cfg, old(Rx()), c).next
    {
      cksum := Add(cfg.cksum, cksum, c);
      id := CollectByte(id, c, cfg.idWidth);
      rxi := rxi + 1;
      if rxi == cfg.idWidth {
        state := Len;
        rxi := 0;
      }
    }

    method AcceptLen(c: byte)
      requires Valid() && state == Len
      modifies this`cksum, this`len, this`rxi, this`state
      ensures Valid()
      ensures Rx() == ConsumeLen(cfg, old(Rx()), c).next
    {
      cksum := Add(cfg.cksum, cksum, c);
      len := CollectByte(len, c, cfg.lenWidth);
      rxi := rxi + 1;
      if rxi == cfg.lenWidth {
        state := Type;
        rxi := 0;
      }
    }

    method AcceptType(c: byte)
      requires Valid() && state == Type
      modifies this`cksum, this`typ, this`rxi, this`state, this`refCksum, this`discardData,
               this`trace
      ensures Valid()
      ensures var st := ConsumeType(cfg, old(Rx()), c);
              Rx() == st.next && trace == old(trace) + Offers(Frames(st.out))
    {
      if rxi + 1 == cfg.typeWidth {
        LastType(c);
      } else {
        cksum := Add(cfg.cksum, cksum, c);
        typ := CollectByte(typ, c, cfg.typeWidth);
        rxi := rxi + 1;
      }
    }

    /** The last TYPE byte: collect it, then end the header fields. */
    method LastType(c: byte)
      requires Valid() && state == Type && rxi + 1 == cfg.typeWidth
      modifies this`cksum, this`typ, this`rxi, this`state, this`refCksum, this`discardData,
               this`trace
      ensures Valid()
      ensures var st := ConsumeType(cfg, old(Rx()), c);
              Rx() == st.next && trace == old(trace) + Offers(Frames(st.out))
    {
      ghost var p := Rx();
      cksum := Add(cfg.cksum, cksum, c);
      typ := CollectByte(typ, c, cfg.typeWidth);
      rxi := rxi + 1;
      ghost var q := Rx();
      assert q == p.(cksum := cksum, typ := typ, rxi := rxi);
      assert ConsumeType(cfg, p, c) == TypeDone(cfg, q);
      FinishType();
    }

    method AcceptHeadCksum(c: byte)
      requires Valid() && state == HeadCksum
      modifies this`cksum, this`rxi, this`state, this`refCksum, this`discardData, this`trace
      ensures Valid()
      ensures var st := ConsumeHeadCksum(cfg, old(Rx()), c);
              Rx() == st.next && trace == old(trace) + Offers(Frames(st.out))
    {
      if rxi + 1 == Width(cfg.cksum) {
        LastHeadCksum(c);
      } else {
        refCksum := CollectByte(refCksum, c, Width(cfg.cksum));
        rxi := rxi + 1;
      }
    }

    /** The last header checksum byte: collect it, then check the header. */
    method LastHeadCksum(c: byte)
      requires Valid() && state == HeadCksum && rxi + 1 == Width(cfg.cksum)
      modifies this`cksum, this`rxi, this`state, this`refCksum, this`discardData, this`trace
      ensures Valid()
      ensures var st := ConsumeHeadCksum(cfg, old(Rx()), c);
              Rx() == st.next && trace == old(trace) + Offers(Frames(st.out))
    {
      ghost var p := Rx();
      refCksum := CollectByte(refCksum, c, Width(cfg.cksum));
      rxi := rxi + 1;
      ghost var q := Rx();
      assert q == p.(refCksum := refCksum, rxi := rxi);
      assert ConsumeHeadCksum(cfg, p, c) == HeaderDone(cfg, q);
      FinishHeader();
    }

    /** The only store into the payload buffer; the invariant keeps it in bounds. */
    method AcceptData(c: byte)
      requires Valid() && state == Data
      modifies this`cksum, this`rxi, this`state, this`refCksum, data, this`trace
      ensures Valid()
      ensures var st := ConsumeData(cfg, old(Rx()), c);
              Rx() == st.next && trace == old(trace) + Offers(Frames(st.out))
    {
      if rxi + 1 == len {
        LastData(c);
      } else if discardData {
        rxi := rxi + 1;
      } else {
        cksum := Add(cfg.cksum, cksum, c);
        data[rxi] := c;
        rxi := rxi + 1;
      }
    }

    /** The last payload byte: store it (unless discarding), then end the payload. */
    method LastData(c: byte)
      requires Valid() && state == Data && rxi + 1 == len
      modifies this`cksum, this`rxi, this`state, this`refCksum, data, this`trace
      ensures Valid()
      ensures var st := ConsumeData(cfg, old(Rx()), c);
              Rx() == st.next && trace == old(trace) + Offers(Frames(st.out))
    {
      if !discardData {
        cksum := Add(cfg.cksum, cksum, c);
        data[rxi] := c;
      }
      rxi := rxi + 1;
      FinishData();
    }

    method AcceptDataCksum(c: byte)
      requires Valid() && state == DataCksum
      modifies this`cksum, this`rxi, this`state, this`refCksum, this`trace
      ensures Valid()
      ensures var st := ConsumeDataCksum(cfg, old(Rx()), c);
              Rx() == st.next && trace == old(trace) + Offers(Frames(st.out))
    {
      refCksum := CollectByte(refCksum, c, Width(cfg.cksum));
      rxi := rxi + 1;
      if rxi == Width(cfg.cksum) {
        FinishDataCksum();
      }
    }

    /** A single completed frame makes a single delivery. */
    lemma OffersOne(f: Frame)
      requires ListenersOk()
      ensures Offers([f]) == [Deliver(IdTable(), TypeTable(), GenericTable(), claims, f)]
    {
    }

    /** The start of TF_AcceptChar: the timeout check, then (without a SOF byte) a new frame. */
    method Resync()
      requires Valid()
      modifies this`state, this`parserTimeoutTicks, this`rxi, this`cksum, this`discardData
      ensures Valid()
      ensures var p1 := Timeout(cfg, old(Rx()));
              Rx() == if !cfg.useSof && p1.state == Sof then BeginFrame(cfg, p1) else p1
    {
      if parserTimeoutTicks >= cfg.timeoutTicks {
        ResetParser();
      }
      parserTimeoutTicks := 0;
      assert Rx() == Timeout(cfg, old(Rx()));
      if !cfg.useSof && state == Sof {
        ParsBeginFrame();
      }
    }

    /** The switch of TF_AcceptChar: one byte for the state the parser is in. */
    method Consume(c: byte)
      requires Valid()
      modifies this`state, this`id, this`len, this`rxi, this`cksum,
               this`refCksum, this`typ, this`discardData, this`trace, data
      ensures Valid()
      ensures var st := Spec.Consume(cfg, old(Rx()), c);
              Rx() == st.next && trace == old(trace) + Offers(Frames(st.out))
    {
      match state {
        case Sof => AcceptSof(c);
        case Id => AcceptId(c);
        case Len => AcceptLen(c);
        case Type => AcceptType(c);
        case HeadCksum => AcceptHeadCksum(c);
        case Data => AcceptData(c);
        case DataCksum => AcceptDataCksum(c);
      }
    }

    /**
      TF_AcceptChar: the parser fields become those `Step` computes, and
      the frame it completes, if any, is offered to the listeners.
    */
    method AcceptChar(c: byte)
      requires Valid()
      modifies this`state, this`parserTimeoutTicks, this`id, this`len, this`rxi, this`cksum,
               this`refCksum, this`typ, this`discardData, this`trace, data
      ensures Valid()
      ensures var st := Step(cfg, old(Rx()), c);
              Rx() == st.next && trace == old(trace) + Offers(Frames(st.out))
    {
      Resync();
      Consume(c);
    }

    /** TF_Accept: TF_AcceptChar on each byte of the buffer. */
    method Accept(buffer: seq<byte>)
      requires Valid()
      modifies this`state, this`parserTimeoutTicks, this`id, this`len, this`rxi, this`cksum,
               this`refCksum, this`typ, this`discardData, this`trace, data
      ensures Valid()
      ensures var r := Run(cfg, old(Rx()), buffer);
              Rx() == r.parser && trace == old(trace) + Offers(r.frames)
    {
      ghost var p0, t0 := Rx(), trace;
      var i := 0;
      while i < |buffer|
        invariant 0 <= i <= |buffer|
        invariant Valid() && ParserInv(cfg, p0)
        invariant var r := Run(cfg, p0, buffer[..i]);
                  Rx() == r.parser && trace == t0 + Offers(r.frames)
      {
        AcceptAt(buffer, i, p0, t0);
        i := i + 1;
      }
      assert buffer[..i] == buffer;
    }

    /** One pass of TF_Accept's loop: byte `i` of the buffer goes through TF_AcceptChar,
        which extends the run over the bytes before it by one byte. */
    method AcceptAt(buffer: seq<byte>, i: nat, ghost p0: Spec.Parser, ghost t0: seq<Delivery>)
      requires Valid() && ParserInv(cfg, p0) && i < |buffer|
      requires var r := Run(cfg, p0, buffer[..i]);
               Rx() == r.parser && trace == t0 + Offers(r.frames)
      modifies this`state, this`parserTimeoutTicks, this`id, this`len, this`rxi, this`cksum,
               this`refCksum, this`typ, this`discardData, this`trace, data
      ensures Valid()
      ensures var r := Run(cfg, p0, buffer[..i + 1]);
              Rx() == r.parser && trace == t0 + Offers(r.frames)
    {
      ghost var r := Run(cfg, p0, buffer[..i]);
      ghost var st := Step(cfg, r.parser, buffer[i]);
      ghost var done := Offers(r.frames);
      AcceptChar(buffer[i]);
      assert Offers(r.frames) == done;
      ghost var more := Offers(Frames(st.out));
      assert trace == (t0 + done) + more;
      OffersAppend(r.frames, Frames(st.out));
      assert trace == t0 + Offers(r.frames + Frames(st.out));
      RunPrefix(cfg, p0, buffer, i);
    }

    /** Offering two runs of frames is offering each in turn. */
    lemma OffersAppend(a: seq<Frame>, b: seq<Frame>)
      requires ListenersOk()
      ensures Offers(a + b) == Offers(a) + Offers(b)
    {
      DeliverAllAppend(IdTable(), TypeTable(), GenericTable(), claims, a, b);
    }

    /** TF_Tick: count an idle tick, never past the threshold. */
    method Tick()
      requires Valid()
      modifies this`parserTimeoutTicks
      ensures Valid() && Rx() == Spec.Tick(cfg, old(Rx()))
    {
      if parserTimeoutTicks < cfg.timeoutTicks {
        parserTimeoutTicks := parserTimeoutTicks + 1;
      }
    }

    // -------------------------------------------------------------------
    // Composer
    // -------------------------------------------------------------------

    /**
      WRITENUM: the `w` bytes of `x`, most significant first, from `pos`
      on, added to the running checksum `acc` when `sum` is set.
    */
    method WriteNum(x: nat, w: nat, pos: nat, acc: nat, sum: bool) returns (pos': nat, acc': nat)
      requires pos + w <= sendbuf.Length && acc < Bound(cfg.cksum)
      modifies sendbuf
      ensures pos' == pos + w
      ensures sendbuf[..pos'] == old(sendbuf[..pos]) + BigEndian(x, w)
      ensures acc' == if sum then AddAll(cfg.cksum, acc, BigEndian(x, w)) else acc
    {
      ghost var bytes := BigEndian(x, w);
      var i: int := w - 1;
      pos', acc' := pos, acc;
      while i >= 0
        invariant -1 <= i <= w - 1
        invariant pos' == pos + (w - 1 - i)
        invariant sendbuf[..pos'] == old(sendbuf[..pos]) + bytes[..w - 1 - i]
        invariant acc' == if sum then AddAll(cfg.cksum, acc, bytes[..w - 1 - i]) else acc
      {
        var b := ((x / Pow256(i)) % 256) as byte;
        BigEndianUpTo(x, w, i);
        sendbuf[pos'] := b;
        pos' := pos' + 1;
        if sum {
          AddAllSnoc(cfg.cksum, acc, bytes[..w - 1 - i], b);
          acc' := Add(cfg.cksum, acc', b);
        }
        i := i - 1;
      }
      assert bytes[..w] == bytes;
    }

    /** The payload loop of TF_Compose: copy and checksum each byte. */
    method WriteData(payload: seq<byte>, pos: nat, acc: nat) returns (pos': nat, acc': nat)
      requires pos + |payload| <= sendbuf.Length && acc < Bound(cfg.cksum)
      modifies sendbuf
      ensures pos' == pos + |payload|
      ensures sendbuf[..pos'] == old(sendbuf[..pos]) + payload
      ensures acc' == AddAll(cfg.cksum, acc, payload)
    {
      var i := 0;
      pos', acc' := pos, acc;
      while i < |payload|
        invariant 0 <= i <= |payload|
        invariant pos' == pos + i
        invariant sendbuf[..pos'] == old(sendbuf[..pos]) + payload[..i]
        invariant acc' == AddAll(cfg.cksum, acc, payload[..i])
      {
        var b := payload[i];
        assert payload[..i + 1] == payload[..i] + [b];
        sendbuf[pos'] := b;
        pos' := pos' + 1;
        AddAllSnoc(cfg.cksum, acc, payload[..i], b);
        acc' := Add(cfg.cksum, acc', b);
        i := i + 1;
      }
      assert payload[..i] == payload;
    }

    /**
      TF_Compose. An oversized payload is refused before the ID counter is
      touched. Otherwise the frame ID is the explicit one or the next
      automatic one, and the send buffer starts with the frame's bytes.
    */
    method Compose(frameType: nat, payload: seq<byte>, explicitId: nat, useExplId: bool)
      returns (pos: int, frameId: nat)
      requires Valid()
      requires frameType < Pow256(cfg.typeWidth) && |payload| < Pow256(cfg.lenWidth)
      requires explicitId < Pow256(cfg.idWidth)
      modifies this`nextId, sendbuf
      ensures Valid()
      ensures |payload| > cfg.maxPayload ==>
        pos == TF_ERROR && nextId == old(nextId) && sendbuf[..] == old(sendbuf[..])
      ensures |payload| <= cfg.maxPayload ==>
        && frameId == (if useExplId then explicitId else AutoId(cfg, old(nextId), peerBit))
        && nextId == (if useExplId then old(nextId) else NextId(cfg, old(nextId)))
        && pos == |FrameBytes(cfg, frameId, frameType, payload)| && pos <= sendbuf.Length
        && sendbuf[..pos] == FrameBytes(cfg, frameId, frameType, payload)
    {
      if |payload| > cfg.maxPayload {
        return TF_ERROR, 0;
      }
      if useExplId {
        frameId := explicitId;
      } else {
        frameId := AutoId(cfg, nextId, peerBit);
        nextId := NextId(cfg, nextId);
      }
      var p := WriteHeader(frameId, |payload|, frameType);
      if |payload| > 0 {
        p := WritePayload(payload, p);
      } else {
        assert payload + PayloadCksumField(cfg, payload) == [];
      }
      pos := p;
    }

    /** The start of a frame: SOF, ID, LEN and TYPE under one checksum, then that checksum. */
    method WriteHeader(frameId: nat, len: nat, frameType: nat) returns (p: nat)
      requires Shape()
      modifies sendbuf
      ensures var header := HeaderBytes(cfg, frameId, len, frameType);
              p == |header + HeaderCksumField(cfg, header)| <= Overhead(cfg) - Width(cfg.cksum)
              && sendbuf[..p] == header + HeaderCksumField(cfg, header)
    {
      var acc := Reset(cfg.cksum);
      p := 0;
      if cfg.useSof {
        sendbuf[p] := cfg.sofByte;
        p := p + 1;
        acc := Add(cfg.cksum, acc, cfg.sofByte);
      }
      assert sendbuf[..p] == SofBytes(cfg);
      assert acc == AddAll(cfg.cksum, Reset(cfg.cksum), SofBytes(cfg));
      p, acc := WriteNum(frameId, cfg.idWidth, p, acc, true);
      p, acc := WriteNum(len, cfg.lenWidth, p, acc, true);
      p, acc := WriteNum(frameType, cfg.typeWidth, p, acc, true);
      HeaderSum(cfg, frameId, len, frameType);
      if cfg.cksum != NoCksum {
        acc := Finalize(cfg.cksum, acc);
        p, acc := WriteNum(acc, Width(cfg.cksum), p, acc, false);
      }
    }

    /** The payload and, with a checksum configured, its checksum, from `pos` on. */
    method WritePayload(payload: seq<byte>, pos: nat) returns (p: nat)
      requires Shape() && 0 < |payload| <= cfg.maxPayload && pos <= Overhead(cfg) - Width(cfg.cksum)
      modifies sendbuf
      ensures p == pos + |payload + PayloadCksumField(cfg, payload)|
      ensures sendbuf[..p] == old(sendbuf[..pos]) + payload + PayloadCksumField(cfg, payload)
    {
      var acc := Reset(cfg.cksum);
      p, acc := WriteData(payload, pos, acc);
      if cfg.cksum != NoCksum {
        acc := Finalize(cfg.cksum, acc);
        p, acc := WriteNum(acc, Width(cfg.cksum), p, acc, false);
      }
    }

    /**
      TF_Send: compose with the next automatic ID, register `listener` (if
      any) for that ID, and hand the bytes to the transport: here, return
      them.
    */
    method Send(frameType: nat, payload: seq<byte>, listener: Option<Handle>)
      returns (ok: bool, msgId: nat, wire: seq<byte>)
      requires Valid()
      requires frameType < Pow256(cfg.typeWidth) && |payload| < Pow256(cfg.lenWidth)
      modifies this`nextId, this`countIdLst, sendbuf, idListeners
      ensures Valid()
      ensures ok <==> |payload| <= cfg.maxPayload
      ensures ok ==>
        && msgId == AutoId(cfg, old(nextId), peerBit) && nextId == NextId(cfg, old(nextId))
        && wire == FrameBytes(cfg, msgId, frameType, payload)
        && IdTable() == (if listener.Some? then AddKeyed(old(IdTable()), msgId, listener.value).1
                         else old(IdTable()))
      ensures !ok ==> msgId == 0 && wire == [] && nextId == old(nextId) && IdTable() == old(IdTable())
                      && sendbuf[..] == old(sendbuf[..])
    {
      var len: int;
      len, msgId := Compose(frameType, payload, 0, false);
      if len == TF_ERROR {
        return false, 0, [];
      }
      if listener.Some? {
        var _ := AddIdListener(msgId, listener.value);
      }
      wire := sendbuf[..len];
      ok := true;
    }

    /** TF_Respond: compose with the given ID; the ID counter is not touched. */
    method Respond(frameType: nat, payload: seq<byte>, frameId: nat) returns (ok: bool, wire: seq<byte>)
      requires Valid()
      requires frameType < Pow256(cfg.typeWidth) && |payload| < Pow256(cfg.lenWidth)
      requires frameId < Pow256(cfg.idWidth)
      modifies this`nextId, sendbuf
      ensures Valid() && nextId == old(nextId)
      ensures ok <==> |payload| <= cfg.maxPayload
      ensures wire == if ok then FrameBytes(cfg, frameId, frameType, payload) else []
      ensures !ok ==> sendbuf[..] == old(sendbuf[..])
    {
      var len, _ := Compose(frameType, payload, frameId, true);
      if len == TF_ERROR {
        return false, [];
      }
      wire := sendbuf[..len];
      ok := true;
    }

    /** TF_Send0: TF_Send with no payload, which always fits. */
    method Send0(frameType: nat, listener: Option<Handle>) returns (ok: bool, msgId: nat, wire: seq<byte>)
      requires Valid() && frameType < Pow256(cfg.typeWidth)
      modifies this`nextId, this`countIdLst, sendbuf, idListeners
      ensures Valid() && ok
      ensures msgId == AutoId(cfg, old(nextId), peerBit) && nextId == NextId(cfg, old(nextId))
      ensures wire == FrameBytes(cfg, msgId, frameType, [])
      ensures IdTable() == (if listener.Some? then AddKeyed(old(IdTable()), msgId, listener.value).1
                            else old(IdTable()))
    {
      ok, msgId, wire := Send(frameType, [], listener);
    }

    /** TF_Send1: TF_Send with one payload byte. */
    method Send1(frameType: nat, b1: byte, listener: Option<Handle>)
      returns (ok: bool, msgId: nat, wire: seq<byte>)
      requires Valid() && frameType < Pow256(cfg.typeWidth)
      modifies this`nextId, this`countIdLst, sendbuf, idListeners
      ensures Valid()
      ensures ok <==> cfg.maxPayload >= 1
      ensures ok ==>
        && msgId == AutoId(cfg, old(nextId), peerBit) && nextId == NextId(cfg, old(nextId))
        && wire == FrameBytes(cfg, msgId, frameType, [b1])
        && IdTable() == (if listener.Some? then AddKeyed(old(IdTable()), msgId, listener.value).1
                         else old(IdTable()))
      ensures !ok ==> msgId == 0 && wire == [] && nextId == old(nextId) && IdTable() == old(IdTable())
                      && sendbuf[..] == old(sendbuf[..])
    {
      ok, msgId, wire := Send(frameType, [b1], listener);
    }

    /** TF_Send2: TF_Send with two payload bytes. */
    method Send2(frameType: nat, b1: byte, b2: byte, listener: Option<Handle>)
      returns (ok: bool, msgId: nat, wire: seq<byte>)
      requires Valid() && frameType < Pow256(cfg.typeWidth)
      modifies this`nextId, this`countIdLst, sendbuf, idListeners
      ensures Valid()
      ensures ok <==> cfg.maxPayload >= 2
      ensures ok ==>
        && msgId == AutoId(cfg, old(nextId), peerBit) && nextId == NextId(cfg, old(nextId))
        && wire == FrameBytes(cfg, msgId, frameType, [b1, b2])
        && IdTable() == (if listener.Some? then AddKeyed(old(IdTable()), msgId, listener.value).1
                         else old(IdTable()))
      ensures !ok ==> msgId == 0 && wire == [] && nextId == old(nextId) && IdTable() == old(IdTable())
                      && sendbuf[..] == old(sendbuf[..])
    {
      ok, msgId, wire := Send(frameType, [b1, b2], listener);
    }
  }

  // ---------------------------------------------------------------------
  // Slot loops shared by the ID and type tables
  // ---------------------------------------------------------------------

  /** The loop of TF_AddIdListener / TF_AddTypeListener over a slot array. */
  method AddSlot(a: array<Slot>, count: nat, key: nat, cb: Handle) returns (ok: bool, count': nat)
    modifies a
    ensures (ok, Table(a[..], count')) == AddKeyed(Table(old(a[..]), count), key, cb)
  {
    var i := 0;
    count' := count;
    while i < a.Length
      invariant 0 <= i <= a.Length
      invariant a[..] == old(a[..])
      invariant FirstFree(Fns(a[..]), 0) == FirstFree(Fns(a[..]), i)
    {
      if a[i].fn.None? {
        a[i] := Slot(key, Some(cb));
        if i >= count' {
          count' := i + 1;
        }
        return true, count';
      }
      i := i + 1;
    }
    return false, count';
  }

  /** The loop of TF_RemoveIdListener / TF_RemoveTypeListener over a slot array. */
  method RemoveSlot(a: array<Slot>, count: nat, key: nat) returns (ok: bool, count': nat)
    requires count <= a.Length
    modifies a
    ensures (ok, Table(a[..], count')) == RemoveKeyed(Table(old(a[..]), count), key)
  {
    ghost var t := Table(a[..], count);
    var i := 0;
    count' := count;
    while i < count
      invariant 0 <= i <= count
      invariant a[..] == old(a[..])
      invariant FirstMatch(t, key, 0) == FirstMatch(t, key, i)
    {
      if a[i].fn.Some? && a[i].key == key {
        a[i] := a[i].(fn := None);
        if i == count - 1 {
          count' := count - 1;
        }
        return true, count';
      }
      i := i + 1;
    }
    return false, count';
  }

  /**
    One listener loop of TF_HandleReceivedMessage over an ID or type
    table: call every listener registered for `key`, in slot order below
    the count, until one returns true.
  */
  method CallKeyed(a: array<Slot>, count: nat, key: nat, claims: Claims, f: Frame)
    returns (called: seq<Handle>, claimed: bool)
    requires count <= a.Length
    ensures var hs := Matching(Table(a[..], count), key, 0);
            && called == Dispatch(hs, claims, f)
            && (claimed <==> exists h | h in hs :: claims(h, f))
            && (!claimed ==> called == hs)
  {
    ghost var t := Table(a[..], count);
    called := [];
    var i := 0;
    while i < count
      invariant 0 <= i <= count
      invariant Matching(t, key, 0) == called + Matching(t, key, i)
      invariant forall h | h in called :: !claims(h, f)
    {
      if a[i].fn.Some? && a[i].key == key {
        var h := a[i].fn.value;
        assert called + Matching(t, key, i) == (called + [h]) + Matching(t, key, i + 1);
        if claims(h, f) {
          DispatchAppend(called, [h] + Matching(t, key, i + 1), claims, f);
          DispatchCons(h, Matching(t, key, i + 1), claims, f);
          assert h in Matching(t, key, 0);
          return called + [h], true;
        }
        called := called + [h];
      }
      i := i + 1;
    }
    DispatchAppend(called, [], claims, f);
    assert called + Matching(t, key, count) == called;
    return called, false;
  }

  /** The generic loop: every non-null listener below the count, until one returns true. */
  method CallLive(a: array<Option<Handle>>, count: nat, claims: Claims, f: Frame)
    returns (called: seq<Handle>)
    requires count <= a.Length
    ensures called == Dispatch(Live(GenTable(a[..], count), 0), claims, f)
  {
    ghost var g := GenTable(a[..], count);
    called := [];
    var i := 0;
    while i < count
      invariant 0 <= i <= count
      invariant Live(g, 0) == called + Live(g, i)
      invariant forall h | h in called :: !claims(h, f)
    {
      if a[i].Some? {
        var h := a[i].value;
        assert called + Live(g, i) == (called + [h]) + Live(g, i + 1);
        if claims(h, f) {
          DispatchAppend(called, [h] + Live(g, i + 1), claims, f);
          DispatchCons(h, Live(g, i + 1), claims, f);
          return called + [h];
        }
        called := called + [h];
      }
      i := i + 1;
    }
    DispatchAppend(called, [], claims, f);
    assert called + [] == called;
  }
}
