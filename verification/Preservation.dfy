/** Every step of the system keeps the invariant, so every state of every run satisfies it. */
module Preservation {
  import opened Protocol
  import opened Adapter
  import opened Proxy
  import opened Firmware
  import opened System
  import opened Invariant
  import opened Lanes
  import opened Effects
  import opened Wrappers
  import StartUpProof
  import FlowProof
  import ExchangeProof

  // ----- packet types on the line -----

  lemma SendsFwKinds(fs: seq<Frame>, kind: byte, data: seq<byte>, sent: seq<Frame>)
    requires ToFwKinds(fs) && kind <= E_TYPE_IN && kind != E_TYPE_RESET
    requires sent == [] || sent == Split(kind, data)
    ensures ToFwKinds(fs + sent)
  {
    SplitReassembles(kind, data);
  }

  lemma PopKinds(s: Sys)
    ensures s.toFw != [] && ToFwKinds(s.toFw) ==> ToFwKinds(s.toFw[1..]) && s.toFw[0].kind <= E_TYPE_IN && s.toFw[0].kind != E_TYPE_RESET
    ensures s.toPc != [] && ToPcKinds(s.toPc) ==>
              ToPcKinds(s.toPc[1..]) && s.toPc[0].kind != E_TYPE_RESET && (s.toPc[0].kind == E_TYPE_OUT ==> s.toPc[0].value != [])
  {
    if s.toFw != [] { assert s.toFw[0] in s.toFw; }
    if s.toPc != [] { assert s.toPc[0] in s.toPc; }
  }

  // ----- shapes -----

  lemma MainKeepsFwShape(c: Config, s: Sys, step: Step)
    requires FwShape(s.fw) && Enabled(s, step) && IsMain(step)
    requires PositionOk(s.fw.slot, s.fw.at)
    requires s.fw.slot.input[0] != 0 ==> s.fw.slot.inputDataLen <= MAX_PAYLOAD_SIZE_EP
    ensures FwShape(Do(c, s, step).fw)
  {
  }

  lemma MainKeepsShape(c: Config, s: Sys, step: Step)
    requires Inv(c, s) && Enabled(s, step) && IsMain(step)
    ensures ShapeInv(Do(c, s, step))
  {
    MainKeepsFwShape(c, s, step);
    MainEffect(c, s, step);
    assert ToPcKinds(Sent(s, step));
  }

  lemma IsrKeepsFwShape(fw: Fw, f: Frame)
    requires FwShape(fw) && f.kind <= E_TYPE_IN && f.kind != E_TYPE_RESET
    requires f.kind == E_TYPE_DESCRIPTORS ==> Fits(fw.mem.descriptors.bytes, fw.mem.descriptors.at, f.value)
    requires f.kind == E_TYPE_INDEX ==> Fits(fw.mem.index.bytes, fw.mem.index.at, f.value)
    requires f.kind == E_TYPE_ENDPOINTS ==> Fits(fw.mem.endpoints, 0, f.value)
    requires f.kind == E_TYPE_IN ==> Fits(fw.slot.input, 0, f.value)
    requires f.kind == E_TYPE_CONTROL || f.kind == E_TYPE_CONTROL_STALL ==> Fits(fw.box.control, 0, f.value)
    ensures FwShape(Isr(fw, f).0)
  {
  }

  /** No packet overruns the memory the interrupt writes it to. */
  lemma InterruptFits(c: Config, s: Sys)
    requires ConfigOk(c) && Inv(c, s) && s.toFw != []
    ensures FwShape(Isr(s.fw, s.toFw[0]).0)
  {
    PopKinds(s);
    var kind := s.toFw[0].kind;
    if kind == E_TYPE_DESCRIPTORS {
      StartUpProof.InterruptDescriptors(c, s);
    } else if kind == E_TYPE_INDEX {
      StartUpProof.InterruptIndex(c, s);
    } else if kind == E_TYPE_ENDPOINTS {
      StartUpProof.EndpointsFit(c, s);
    } else if kind == E_TYPE_CONTROL {
      ExchangeProof.ReplyArrives(c, s);
    } else if kind == E_TYPE_CONTROL_STALL {
      ExchangeProof.StallArrives(c, s);
    } else {
      FlowProof.InterruptKeepsFlow(c, s);
    }
    IsrKeepsFwShape(s.fw, s.toFw[0]);
  }

  lemma InterruptKeepsShape(c: Config, s: Sys)
    requires ConfigOk(c) && Inv(c, s) && s.toFw != []
    ensures ShapeInv(Do(c, s, Interrupt))
  {
    InterruptFits(c, s);
    InterruptShape(c, s);
  }

  lemma InterruptShape(c: Config, s: Sys)
    requires ShapeInv(s) && s.toFw != [] && FwShape(Isr(s.fw, s.toFw[0]).0)
    ensures ShapeInv(Do(c, s, Interrupt))
  {
    PopKinds(s);
    AcksKinds(s.fw, s.toFw[0], s.toPc);
  }

  lemma AcksKinds(fw: Fw, f: Frame, fs: seq<Frame>)
    requires ToPcKinds(fs)
    ensures ToPcKinds(fs + Isr(fw, f).1)
  {
    IsrEffect(fw, f);
  }

  lemma ReceiveSends(c: Config, h: Host, f: Frame) returns (kind: byte, data: seq<byte>)
    ensures var sent := ProcessPacket(c, h, f).1;
            kind <= E_TYPE_IN && kind != E_TYPE_RESET && (sent == [] || sent == Split(kind, data))
  {
    if f.kind == E_TYPE_CONTROL {
      ControlPacketEffect(c.s2u, h.control, f.value);
      kind, data := E_TYPE_CONTROL_STALL, [];
    } else if f.kind == E_TYPE_OUT {
      kind, data := E_TYPE_IN, [];
    } else {
      ExchangeProof.OtherPacketEffect(c, h, f);
      if f.kind == E_TYPE_DESCRIPTORS {
        kind, data := E_TYPE_INDEX, c.index;
      } else if f.kind == E_TYPE_INDEX {
        kind, data := E_TYPE_ENDPOINTS, c.endpoints;
      } else {
        InAckSends(c, h, f);
        kind, data := E_TYPE_IN, if h.flow.fifo == [] then [] else SlotOf(h.flow.slots, h.flow.fifo[0]);
      }
    }
  }

  lemma InAckSends(c: Config, h: Host, f: Frame)
    requires f.kind != E_TYPE_DESCRIPTORS && f.kind != E_TYPE_INDEX && f.kind != E_TYPE_CONTROL && f.kind != E_TYPE_OUT
    ensures var sent := ProcessPacket(c, h, f).1;
            sent == [] || (h.flow.fifo != [] && sent == Split(E_TYPE_IN, SlotOf(h.flow.slots, h.flow.fifo[0])))
  {
  }

  lemma ReceiveKeepsDone(c: Config, h: Host, f: Frame)
    requires f.kind != E_TYPE_RESET && (f.kind == E_TYPE_OUT ==> f.value != [])
    ensures ProcessPacket(c, h, f).0.done == h.done
  {
  }

  lemma ReceiveKeepsShape(c: Config, s: Sys)
    requires ShapeInv(s) && s.toPc != []
    ensures ShapeInv(Do(c, s, PcReceives))
  {
    PopKinds(s);
    ReceiveKeepsDone(c, s.h, s.toPc[0]);
    var kind, data := ReceiveSends(c, s.h, s.toPc[0]);
    SendsFwKinds(s.toFw, kind, data, ProcessPacket(c, s.h, s.toPc[0]).1);
  }

  lemma InEndsKeepsShape(c: Config, s: Sys, e: byte, completion: Completion)
    requires ConfigOk(c) && Inv(c, s) && Enabled(s, InEnds(e, completion))
    ensures ShapeInv(Do(c, s, InEnds(e, completion)))
  {
    if completion.Bytes? {
      FlowProof.InCompletesKeepsFlow(c, s, e, completion.data);
    }
    var h0 := s.h.(flow := s.h.flow.(polled := s.h.flow.polled - multiset{e}));
    var data := ExchangeProof.InEndsEffect(c, h0, e, completion);
    SendsFwKinds(s.toFw, E_TYPE_IN, data, InCompleted(c.u2s, h0, e, completion).1);
    assert InCompleted(c.u2s, h0, e, completion).0.done == s.h.done;
  }

  lemma ControlEndsKeepsShape(c: Config, s: Sys, i: nat, completion: Completion)
    requires ShapeInv(s) && Enabled(s, ControlEnds(i, completion))
    ensures ShapeInv(Do(c, s, ControlEnds(i, completion)))
  {
    ControlEndsEffect(s.h, i, completion);
    var sent := ControlCompleted(s.h, i, completion).1;
    var reply := ControlReply(s.h.control.transfers[i], completion);
    var stall := reply.Some? && reply.value.stall;
    SendsFwKinds(s.toFw, if stall then E_TYPE_CONTROL_STALL else E_TYPE_CONTROL,
                 if stall || reply.None? then [] else reply.value.data, sent);
  }

  lemma TransferEndKeepsShape(c: Config, s: Sys, step: Step)
    requires ConfigOk(c) && Inv(c, s) && Enabled(s, step) && (step.InEnds? || step.ControlEnds?)
    ensures ShapeInv(Do(c, s, step))
  {
    if step.InEnds? {
      InEndsKeepsShape(c, s, step.endpoint, step.c);
    } else {
      ControlEndsKeepsShape(c, s, step.i, step.c);
    }
  }

  lemma StepKeepsShape(c: Config, s: Sys, step: Step)
    requires ConfigOk(c) && Inv(c, s) && Enabled(s, step)
    ensures ShapeInv(Do(c, s, step))
  {
    if IsMain(step) {
      MainKeepsShape(c, s, step);
    } else if step.PcReceives? {
      ReceiveKeepsShape(c, s);
    } else if step.Interrupt? {
      InterruptKeepsShape(c, s);
    } else {
      TransferEndKeepsShape(c, s, step);
    }
  }

  // ----- the invariant -----

  lemma InitialShape(c: Config)
    ensures ShapeInv(Initial(c))
  {
    SendsFwKinds([], E_TYPE_DESCRIPTORS, c.desc, Split(E_TYPE_DESCRIPTORS, c.desc));
    assert [] + Split(E_TYPE_DESCRIPTORS, c.desc) == Split(E_TYPE_DESCRIPTORS, c.desc);
  }

  lemma InitialLanes(c: Config)
    ensures var s := Initial(c);
            && ValuesOf(s.toFw, E_TYPE_IN) == [] && ValuesOf(s.toFw, E_TYPE_CONTROL) == [] && ValuesOf(s.toFw, E_TYPE_CONTROL_STALL) == []
  {
    SplitReassembles(E_TYPE_DESCRIPTORS, c.desc);
  }

  lemma InitialFlow(c: Config)
    ensures FlowInv(c, Initial(c))
  {
    InitialLanes(c);
  }

  lemma InitialExchange(c: Config)
    ensures ExchangeInv(c, Initial(c))
  {
    InitialLanes(c);
    var s := Initial(c);
    assert LanesOf(s) == ControlLanes([], [], []);
    NothingExchanged(s.h.control, s.fw.box);
    assert OutInv(c.s2u, [], [], []);
  }

  lemma NothingExchanged(k: Control, box: ReplyBox)
    requires k == Control(0, [], []) && box == InitialFw().box
    ensures ExchangeParts(k, box, Outside, ControlLanes([], [], []), 0, [], false)
  {
  }

  lemma InitialInv(c: Config)
    requires ConfigOk(c)
    ensures Inv(c, Initial(c))
  {
    InitialShape(c);
    StartUpProof.InitialStart(c);
    InitialFlow(c);
    InitialExchange(c);
    InitialLanes(c);
  }

  lemma StepKeepsInv(c: Config, s: Sys, step: Step)
    requires ConfigOk(c) && Inv(c, s) && Enabled(s, step)
    ensures Inv(c, Do(c, s, step))
  {
    StepKeepsShape(c, s, step);
    PopKinds(s);
    if s.toPc != [] && s.toPc[0].kind == E_TYPE_ENDPOINTS {
      StartUpProof.FirstPoll(c, s);
    }
    StartUpProof.StepKeepsStart(c, s, step);
    FlowProof.StepKeepsFlow(c, s, step);
    ExchangeProof.StepKeepsExchange(c, s, step);
    ExchangeProof.StepKeepsTaken(c, s, step, Do(c, s, step));
  }

  lemma NextKeepsInv(c: Config, s: Sys, step: Step, s': Sys)
    requires ConfigOk(c) && Inv(c, s) && Enabled(s, step) && s' == Do(c, s, step)
    ensures Inv(c, s')
  {
    StepKeepsInv(c, s, step);
  }

  /** Every state of every run satisfies the invariant. */
  lemma {:induction false} RunKeepsInv(c: Config, states: seq<Sys>, steps: seq<Step>, i: nat, s: Sys)
    requires ConfigOk(c) && IsRun(c, states, steps) && i < |states| && s == states[i]
    ensures Inv(c, s)
  {
    if i == 0 {
      InitialInv(c);
    } else {
      var j := i - 1;
      var p := states[j];
      RunKeepsInv(c, states, steps, j, p);
      NextKeepsInv(c, p, steps[j], s);
    }
  }

  lemma ReachableInv(c: Config, s: Sys)
    requires ConfigOk(c) && Reachable(c, s)
    ensures Inv(c, s)
  {
    var states, steps :| IsRun(c, states, steps) && s in states;
    var i :| 0 <= i < |states| && states[i] == s;
    RunKeepsInv(c, states, steps, i, s);
  }
}
