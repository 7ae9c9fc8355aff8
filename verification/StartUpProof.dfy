/** The start-up transfer: what reaches the firmware is what the PC holds, and each part goes out once. */
module StartUpProof {
  import opened Protocol
  import opened Adapter
  import opened Proxy
  import opened Firmware
  import opened System
  import opened Invariant
  import opened Lanes
  import opened Effects
  import opened Wrappers

  // ----- the transfer of one memory -----

  lemma StoreKeepsTransfer(whole: seq<byte>, area: Area, v: seq<byte>, rest: seq<seq<byte>>)
    requires TransferInv(whole, area, [v] + rest) && |whole| <= |area.bytes|
    ensures Fits(area.bytes, area.at, v) && TransferInv(whole, Store(area, v), rest)
    ensures RestIsZero(area) ==> RestIsZero(Store(area, v))
  {
    FlattenFirst(v, rest);
    var stored := area.bytes[..area.at];
    assert |stored + (v + Flatten(rest))| == |whole|;
    var area' := Store(area, v);
    assert area'.bytes[..area'.at] == stored + v;
    assert stored + v + Flatten(rest) == stored + (v + Flatten(rest));
    if RestIsZero(area) {
      assert area'.bytes[area'.at..] == area.bytes[area.at..][|v|..];
      assert area'.bytes[area'.at..] == Zeros(|area.bytes| - area'.at);
    }
  }

  lemma EndpointsStored(endpoints: seq<byte>, memory: seq<byte>, start: StartUp, rest: seq<seq<byte>>, v: seq<byte>, started: bool, acks: seq<seq<byte>>)
    requires EndpointsInv(endpoints, memory, started, start, [v] + rest, acks) && |endpoints| <= |memory|
    ensures !started && rest == [] && Fits(memory, 0, v)
    ensures EndpointsInv(endpoints, Overlay(memory, 0, v), true, start, rest, acks + [[]])
  {
    assert ([v] + rest)[0] == v;
    assert Overlay(Zeros(|memory|), 0, v) == Padded(v, |memory|);
  }

  // ----- the order of the packets -----

  lemma {:induction false} EndpointsLastAppend(fs: seq<Frame>, gs: seq<Frame>)
    requires EndpointsLast(fs) && EndpointsLast(gs)
    requires ValuesOf(fs, E_TYPE_ENDPOINTS) == []
             || (ValuesOf(gs, E_TYPE_DESCRIPTORS) == [] && ValuesOf(gs, E_TYPE_INDEX) == [])
    ensures EndpointsLast(fs + gs)
  {
    if fs == [] {
      assert fs + gs == gs;
    } else {
      EndpointsLastAppend(fs[1..], gs);
      assert (fs + gs)[1..] == fs[1..] + gs;
      ValuesOfConcat(fs[1..], gs, E_TYPE_DESCRIPTORS);
      ValuesOfConcat(fs[1..], gs, E_TYPE_INDEX);
    }
  }

  lemma {:induction false} NoEndpointsIsLast(fs: seq<Frame>)
    requires ValuesOf(fs, E_TYPE_ENDPOINTS) == [] || |fs| == 1
    ensures EndpointsLast(fs)
  {
    if fs != [] {
      assert fs[0].kind == E_TYPE_ENDPOINTS ==> fs[1..] == [];
      if |fs| > 1 {
        NoEndpointsIsLast(fs[1..]);
      }
    }
  }

  lemma SplitIsOrdered(kind: byte, data: seq<byte>)
    requires kind == E_TYPE_ENDPOINTS ==> |data| <= MAX_PACKET_VALUE_SIZE
    ensures EndpointsLast(Split(kind, data))
  {
    SplitReassembles(kind, data);
    NoEndpointsIsLast(Split(kind, data));
  }

  lemma SendKeepsOrder(fs: seq<Frame>, kind: byte, data: seq<byte>)
    requires EndpointsLast(fs)
    requires kind > E_TYPE_ENDPOINTS || ValuesOf(fs, E_TYPE_ENDPOINTS) == []
    requires kind == E_TYPE_ENDPOINTS ==> |data| <= MAX_PACKET_VALUE_SIZE
    ensures EndpointsLast(fs + Split(kind, data))
  {
    SplitIsOrdered(kind, data);
    SplitReassembles(kind, data);
    EndpointsLastAppend(fs, Split(kind, data));
  }

  // ----- steps -----

  lemma InitialStart(c: Config)
    requires ConfigOk(c)
    ensures StartInv(c, Initial(c))
  {
    var s := Initial(c);
    AppendSplit([], E_TYPE_DESCRIPTORS, c.desc);
    assert [] + s.toFw == s.toFw;
    SplitReassembles(E_TYPE_DESCRIPTORS, c.desc);
    SplitIsOrdered(E_TYPE_DESCRIPTORS, c.desc);
    assert s.fw.mem.descriptors.bytes[..0] + Flatten(ValuesOf(s.toFw, E_TYPE_DESCRIPTORS)) == c.desc;
  }

  lemma ToPcGrows(c: Config, s: Sys, sent: seq<Frame>, s': Sys)
    requires StartInv(c, s)
    requires s'.h.start == s.h.start && s'.fw.mem == s.fw.mem && s'.toFw == s.toFw && s'.toPc == s.toPc + sent
    requires sent == [] || (|sent| == 1 && sent[0].kind > E_TYPE_ENDPOINTS)
    ensures StartInv(c, s')
  {
    if sent == [] {
      assert s'.toPc == s.toPc;
    } else {
      assert sent == [sent[0]];
      AppendOne(s.toPc, sent[0]);
    }
  }

  lemma StoreFits(whole: seq<byte>, area: Area, fs: seq<Frame>)
    requires fs != [] && TransferInv(whole, area, ValuesOf(fs, fs[0].kind)) && |whole| <= |area.bytes|
    ensures Fits(area.bytes, area.at, fs[0].value)
  {
    PopOne(fs);
    StoreKeepsTransfer(whole, area, fs[0].value, ValuesOf(fs[1..], fs[0].kind));
  }

  lemma InterruptStoresDescriptors(c: Config, s: Sys, v: seq<byte>, s': Sys)
    requires ConfigOk(c) && StartInv(c, s) && FwShape(s.fw) && s.toFw != [] && s.toFw[0] == Frame(E_TYPE_DESCRIPTORS, v)
    requires s'.h.start == s.h.start && s'.toFw == s.toFw[1..] && s'.toPc == s.toPc + [Ack(E_TYPE_DESCRIPTORS)]
    requires Fits(s.fw.mem.descriptors.bytes, s.fw.mem.descriptors.at, v)
             ==> s'.fw.mem == s.fw.mem.(descriptors := Store(s.fw.mem.descriptors, v))
    ensures StartInv(c, s') && Fits(s.fw.mem.descriptors.bytes, s.fw.mem.descriptors.at, v)
  {
    PopOne(s.toFw);
    AppendOne(s.toPc, Ack(E_TYPE_DESCRIPTORS));
    StoreKeepsTransfer(c.desc, s.fw.mem.descriptors, v, ValuesOf(s'.toFw, E_TYPE_DESCRIPTORS));
  }

  lemma InterruptStoresIndex(c: Config, s: Sys, v: seq<byte>, s': Sys)
    requires ConfigOk(c) && StartInv(c, s) && FwShape(s.fw) && s.toFw != [] && s.toFw[0] == Frame(E_TYPE_INDEX, v)
    requires s'.h.start == s.h.start && s'.toFw == s.toFw[1..] && s'.toPc == s.toPc + [Ack(E_TYPE_INDEX)]
    requires Fits(s.fw.mem.index.bytes, s.fw.mem.index.at, v)
             ==> s'.fw.mem == s.fw.mem.(index := Store(s.fw.mem.index, v))
    ensures StartInv(c, s') && Fits(s.fw.mem.index.bytes, s.fw.mem.index.at, v)
  {
    PopOne(s.toFw);
    AppendOne(s.toPc, Ack(E_TYPE_INDEX));
    StoreKeepsTransfer(if s.h.start.indexSent then c.index else [], s.fw.mem.index, v, ValuesOf(s'.toFw, E_TYPE_INDEX));
  }

  lemma InterruptStoresEndpoints(c: Config, s: Sys, v: seq<byte>, s': Sys)
    requires ConfigOk(c) && StartInv(c, s) && FwShape(s.fw) && s.toFw != [] && s.toFw[0] == Frame(E_TYPE_ENDPOINTS, v)
    requires s'.h.start == s.h.start && s'.toFw == s.toFw[1..] && s'.toPc == s.toPc + [Ack(E_TYPE_ENDPOINTS)]
    requires Fits(s.fw.mem.endpoints, 0, v)
             ==> s'.fw.mem == s.fw.mem.(endpoints := Overlay(s.fw.mem.endpoints, 0, v), started := true)
    ensures StartInv(c, s') && Fits(s.fw.mem.endpoints, 0, v)
  {
    PopOne(s.toFw);
    AppendOne(s.toPc, Ack(E_TYPE_ENDPOINTS));
    EndpointsStored(c.endpoints, s.fw.mem.endpoints, s.h.start, ValuesOf(s'.toFw, E_TYPE_ENDPOINTS), v, s.fw.mem.started, ValuesOf(s.toPc, E_TYPE_ENDPOINTS));
  }

  lemma InterruptTakesOther(c: Config, s: Sys, s': Sys)
    requires StartInv(c, s) && s.toFw != [] && s.toFw[0].kind > E_TYPE_ENDPOINTS
    requires s'.h.start == s.h.start && s'.fw.mem == s.fw.mem && s'.toFw == s.toFw[1..] && s'.toPc == s.toPc
    ensures StartInv(c, s')
  {
    PopOne(s.toFw);
  }

  lemma InterruptDescriptors(c: Config, s: Sys)
    requires ConfigOk(c) && StartInv(c, s) && FwShape(s.fw) && s.toFw != [] && s.toFw[0].kind == E_TYPE_DESCRIPTORS
    ensures StartInv(c, Do(c, s, Interrupt)) && Fits(s.fw.mem.descriptors.bytes, s.fw.mem.descriptors.at, s.toFw[0].value)
  {
    StoreFits(c.desc, s.fw.mem.descriptors, s.toFw);
    InterruptStoresDescriptors(c, s, s.toFw[0].value, Do(c, s, Interrupt));
  }

  lemma InterruptIndex(c: Config, s: Sys)
    requires ConfigOk(c) && StartInv(c, s) && FwShape(s.fw) && s.toFw != [] && s.toFw[0].kind == E_TYPE_INDEX
    ensures StartInv(c, Do(c, s, Interrupt)) && Fits(s.fw.mem.index.bytes, s.fw.mem.index.at, s.toFw[0].value)
  {
    StoreFits(if s.h.start.indexSent then c.index else [], s.fw.mem.index, s.toFw);
    InterruptStoresIndex(c, s, s.toFw[0].value, Do(c, s, Interrupt));
  }

  lemma EndpointsFit(c: Config, s: Sys)
    requires ConfigOk(c) && StartInv(c, s) && FwShape(s.fw) && s.toFw != [] && s.toFw[0].kind == E_TYPE_ENDPOINTS
    ensures Fits(s.fw.mem.endpoints, 0, s.toFw[0].value)
  {
    PopOne(s.toFw);
    assert ValuesOf(s.toFw, E_TYPE_ENDPOINTS)[0] == s.toFw[0].value;
  }

  lemma InterruptEndpoints(c: Config, s: Sys)
    requires ConfigOk(c) && StartInv(c, s) && FwShape(s.fw) && s.toFw != [] && s.toFw[0].kind == E_TYPE_ENDPOINTS
    ensures StartInv(c, Do(c, s, Interrupt))
  {
    EndpointsFit(c, s);
    InterruptStoresEndpoints(c, s, s.toFw[0].value, Do(c, s, Interrupt));
  }

  lemma InterruptOther(c: Config, s: Sys)
    requires StartInv(c, s) && s.toFw != [] && s.toFw[0].kind > E_TYPE_ENDPOINTS
    ensures StartInv(c, Do(c, s, Interrupt))
  {
    IsrLeavesMemory(s.fw, s.toFw[0]);
    NothingSent(s.toPc);
    InterruptTakesOther(c, s, Do(c, s, Interrupt));
  }

  lemma InterruptKeepsStart(c: Config, s: Sys)
    requires ConfigOk(c) && StartInv(c, s) && FwShape(s.fw) && s.toFw != [] && ToFwKinds(s.toFw)
    ensures StartInv(c, Do(c, s, Interrupt))
  {
    var kind := s.toFw[0].kind;
    if kind == E_TYPE_DESCRIPTORS {
      InterruptDescriptors(c, s);
    } else if kind == E_TYPE_INDEX {
      InterruptIndex(c, s);
    } else if kind == E_TYPE_ENDPOINTS {
      InterruptEndpoints(c, s);
    } else {
      InterruptOther(c, s);
    }
  }

  lemma PcSends(c: Config, s: Sys, kind: byte, data: seq<byte>, s': Sys)
    requires StartInv(c, s) && s'.h.start == s.h.start && s'.fw.mem == s.fw.mem && s'.toPc == s.toPc
    requires s'.toFw == s.toFw || s'.toFw == s.toFw + Split(kind, data)
    requires kind > E_TYPE_ENDPOINTS
    ensures StartInv(c, s')
  {
    AppendSplit(s.toFw, kind, data);
    SendKeepsOrder(s.toFw, kind, data);
  }

  lemma PcTakesOther(c: Config, s: Sys, s': Sys)
    requires StartInv(c, s) && s.toPc != [] && s'.toPc == s.toPc[1..]
    requires s.toPc[0].kind > E_TYPE_ENDPOINTS
    requires s'.h.start == s.h.start && s'.fw.mem == s.fw.mem && s'.toFw == s.toFw
    ensures StartInv(c, s')
  {
    PopOne(s.toPc);
  }

  lemma PcSendsIndex(c: Config, s: Sys, s': Sys)
    requires StartInv(c, s) && s.toPc != [] && s'.toPc == s.toPc[1..] && s'.fw.mem == s.fw.mem
    requires s.toPc[0].kind == E_TYPE_DESCRIPTORS
    requires s'.h.start == s.h.start.(indexSent := true)
    requires s'.toFw == if s.h.start.indexSent then s.toFw else s.toFw + Split(E_TYPE_INDEX, c.index)
    ensures StartInv(c, s')
  {
    PopOne(s.toPc);
    if !s.h.start.indexSent {
      AppendSplit(s.toFw, E_TYPE_INDEX, c.index);
      SendKeepsOrder(s.toFw, E_TYPE_INDEX, c.index);
      var stored := s.fw.mem.index.bytes[..s.fw.mem.index.at];
      var packets := ValuesOf(Split(E_TYPE_INDEX, c.index), E_TYPE_INDEX);
      assert stored == [] && [] + packets == packets;
      assert stored + Flatten(packets) == c.index;
    }
  }

  lemma PcSendsEndpoints(c: Config, s: Sys, s': Sys)
    requires ConfigOk(c) && StartInv(c, s) && s.toPc != [] && s'.toPc == s.toPc[1..] && s'.fw.mem == s.fw.mem
    requires s.toPc[0].kind == E_TYPE_INDEX
    requires s'.h.start == s.h.start.(endpointsSent := true)
    requires s'.toFw == if s.h.start.endpointsSent then s.toFw else s.toFw + Split(E_TYPE_ENDPOINTS, c.endpoints)
    ensures StartInv(c, s')
  {
    PopOne(s.toPc);
    if !s.h.start.endpointsSent {
      AppendEndpoints(c, s.toFw);
      SendKeepsOrder(s.toFw, E_TYPE_ENDPOINTS, c.endpoints);
    }
  }

  lemma AppendEndpoints(c: Config, fs: seq<Frame>)
    requires ConfigOk(c) && ValuesOf(fs, E_TYPE_ENDPOINTS) == []
    ensures var gs := fs + Split(E_TYPE_ENDPOINTS, c.endpoints);
            && ValuesOf(gs, E_TYPE_ENDPOINTS) == [c.endpoints]
            && ValuesOf(gs, E_TYPE_DESCRIPTORS) == ValuesOf(fs, E_TYPE_DESCRIPTORS)
            && ValuesOf(gs, E_TYPE_INDEX) == ValuesOf(fs, E_TYPE_INDEX)
  {
    AppendSplit(fs, E_TYPE_ENDPOINTS, c.endpoints);
  }

  lemma PcPolls(c: Config, s: Sys, s': Sys)
    requires StartInv(c, s) && s.toPc != [] && s'.toPc == s.toPc[1..] && s'.fw.mem == s.fw.mem && s'.toFw == s.toFw
    requires s.toPc[0].kind == E_TYPE_ENDPOINTS
    requires s'.h.start == s.h.start.(pollRuns := s.h.start.pollRuns + 1)
    ensures StartInv(c, s') && s.h.start.pollRuns == 0
  {
    PopOne(s.toPc);
  }

  // ----- the PC -----

  lemma ReceiveInAck(c: Config, s: Sys)
    requires StartInv(c, s) && s.toPc != [] && s.toPc[0].kind == E_TYPE_IN
    ensures StartInv(c, Do(c, s, PcReceives))
  {
    var s' := Do(c, s, PcReceives);
    var popped := s.(toPc := s.toPc[1..]);
    PcTakesOther(c, s, popped);
    NothingSent(s.toFw);
    InAckEffect(c, s.h, s.toPc[0]);
    PcSends(c, popped, E_TYPE_IN, if s.h.flow.fifo == [] then [] else SlotOf(s.h.flow.slots, s.h.flow.fifo[0]), s');
  }

  lemma ControlEffect(c: Config, s: Sys)
    requires s.toPc != [] && s.toPc[0].kind == E_TYPE_CONTROL
    ensures var s' := Do(c, s, PcReceives);
            && s'.h.start == s.h.start && s'.fw == s.fw && s'.toPc == s.toPc[1..]
            && (s'.toFw == s.toFw || s'.toFw == s.toFw + Split(E_TYPE_CONTROL_STALL, []))
  {
    NothingSent(s.toFw);
    ControlPacketEffect(c.s2u, s.h.control, s.toPc[0].value);
  }

  lemma ReceiveControl(c: Config, s: Sys)
    requires StartInv(c, s) && s.toPc != [] && s.toPc[0].kind == E_TYPE_CONTROL
    ensures StartInv(c, Do(c, s, PcReceives))
  {
    var popped := s.(toPc := s.toPc[1..]);
    PcTakesOther(c, s, popped);
    ControlEffect(c, s);
    PcSends(c, popped, E_TYPE_CONTROL_STALL, [], Do(c, s, PcReceives));
  }

  lemma ReceiveOther(c: Config, s: Sys)
    requires StartInv(c, s) && s.toPc != []
    requires IsQuiet(s.toPc[0].kind)
    ensures StartInv(c, Do(c, s, PcReceives))
  {
    NothingSent(s.toFw);
    QuietEffect(c, s.h, s.toPc[0]);
    PcTakesOther(c, s, Do(c, s, PcReceives));
  }

  lemma ReceiveKeepsStart(c: Config, s: Sys)
    requires ConfigOk(c) && StartInv(c, s) && s.toPc != []
    ensures StartInv(c, Do(c, s, PcReceives))
  {
    var s' := Do(c, s, PcReceives);
    var kind := s.toPc[0].kind;
    if kind == E_TYPE_IN {
      ReceiveInAck(c, s);
    } else if kind == E_TYPE_CONTROL {
      ReceiveControl(c, s);
    } else if kind > E_TYPE_ENDPOINTS {
      ReceiveOther(c, s);
    } else {
      NothingSent(s.toFw);
      if kind == E_TYPE_DESCRIPTORS {
        PcSendsIndex(c, s, s');
      } else if kind == E_TYPE_INDEX {
        PcSendsEndpoints(c, s, s');
      } else {
        PcPolls(c, s, s');
      }
    }
  }

  lemma InEndsKeepsStart(c: Config, s: Sys, e: byte, completion: Completion)
    requires StartInv(c, s) && Enabled(s, InEnds(e, completion))
    ensures StartInv(c, Do(c, s, InEnds(e, completion)))
  {
    var s' := Do(c, s, InEnds(e, completion));
    var w0 := s.h.flow.(polled := s.h.flow.polled - multiset{e});
    NothingSent(s.toFw);
    if completion.Bytes? && CanQueue(w0, e) {
      var w := QueueInPacket(c.u2s, w0, e, completion.data);
      SendNextEffect(w);
      PcSends(c, s, E_TYPE_IN, SlotOf(w.slots, w.fifo[0]), s');
    } else {
      PcSends(c, s, E_TYPE_IN, [], s');
    }
  }

  lemma ControlEndsKeepsStart(c: Config, s: Sys, i: nat, completion: Completion)
    requires StartInv(c, s) && Enabled(s, ControlEnds(i, completion))
    ensures StartInv(c, Do(c, s, ControlEnds(i, completion)))
  {
    var s' := Do(c, s, ControlEnds(i, completion));
    NothingSent(s.toFw);
    match ControlReply(s.h.control.transfers[i], completion)
    case Some(r) =>
      PcSends(c, s, if r.stall then E_TYPE_CONTROL_STALL else E_TYPE_CONTROL, if r.stall then [] else r.data, s');
    case None =>
      PcSends(c, s, E_TYPE_CONTROL, [], s');
  }

  lemma MainKeepsStart(c: Config, s: Sys, step: Step)
    requires StartInv(c, s) && Enabled(s, step) && IsMain(step)
    ensures StartInv(c, Do(c, s, step))
  {
    MainEffect(c, s, step);
    ToPcGrows(c, s, Sent(s, step), Do(c, s, step));
  }

  lemma StepKeepsStart(c: Config, s: Sys, step: Step)
    requires ConfigOk(c) && StartInv(c, s) && ShapeInv(s) && Enabled(s, step)
    ensures StartInv(c, Do(c, s, step))
  {
    if IsMain(step) {
      MainKeepsStart(c, s, step);
    } else {
      match step
      case PcReceives => ReceiveKeepsStart(c, s);
      case InEnds(e, completion) => InEndsKeepsStart(c, s, e, completion);
      case ControlEnds(i, completion) => ControlEndsKeepsStart(c, s, i, completion);
      case Interrupt => InterruptKeepsStart(c, s);
    }
  }

  /** When the endpoint acknowledgement arrives, the endpoints have not been polled yet. */
  lemma FirstPoll(c: Config, s: Sys)
    requires StartInv(c, s) && s.toPc != [] && s.toPc[0].kind == E_TYPE_ENDPOINTS
    ensures s.h.start.pollRuns == 0
  {
    PopOne(s.toPc);
  }
}
