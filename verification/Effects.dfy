/** What the steps leave alone, and what they send. */
module Effects {
  import opened Protocol
  import opened Adapter
  import opened Proxy
  import opened Firmware
  import opened System
  import opened Wrappers

  predicate IsMain(step: Step) {
    !step.PcReceives? && !step.InEnds? && !step.ControlEnds? && !step.Interrupt?
  }

  /** The packet a step of the main program sends, if any. */
  function Sent(s: Sys, step: Step): seq<Frame>
    requires Enabled(s, step)
  {
    match step
    case AckInput => [Ack(E_TYPE_IN)]
    case SendOut(endpoint, data) => [Frame(E_TYPE_OUT, [endpoint] + data)]
    case SendDebug(value) => [Frame(E_TYPE_DEBUG, value)]
    case SendControl => [Frame(E_TYPE_CONTROL, s.fw.at.request)]
    case _ => []
  }

  /** The main program touches no memory of the start-up transfer and nothing of the PC. */
  lemma MainEffect(c: Config, s: Sys, step: Step)
    requires Enabled(s, step) && IsMain(step)
    ensures var s' := Do(c, s, step);
            s'.h == s.h && s'.toFw == s.toFw && s'.fw.mem == s.fw.mem && s'.toPc == s.toPc + Sent(s, step)
  {
  }

  lemma NothingSent(fs: seq<Frame>)
    ensures fs + [] == fs
  {
  }

  lemma SendNextEffect(w: Flow)
    ensures var (w', sent) := SendNextInPacket(w);
            sent == [] || (w.fifo != [] && sent == Split(E_TYPE_IN, SlotOf(w.slots, w.fifo[0])))
  {
  }

  lemma ControlPacketEffect(s2u: seq<byte>, k: Control, value: seq<byte>)
    ensures var (k', sent) := SendControlPacket(s2u, k, value);
            sent == [] || sent == Split(E_TYPE_CONTROL_STALL, [])
  {
  }

  predicate IsQuiet(kind: byte) { kind > E_TYPE_ENDPOINTS && kind != E_TYPE_IN && kind != E_TYPE_CONTROL }

  lemma QuietEffect(c: Config, h: Host, f: Frame)
    requires IsQuiet(f.kind)
    ensures ProcessPacket(c, h, f).0.start == h.start && ProcessPacket(c, h, f).0.flow == h.flow
    ensures ProcessPacket(c, h, f).0.control == h.control && ProcessPacket(c, h, f).1 == []
  {
  }

  lemma InAckEffect(c: Config, h: Host, f: Frame)
    requires f.kind == E_TYPE_IN
    ensures var (h', sent) := ProcessPacket(c, h, f);
            && h'.start == h.start && h'.control == h.control && h'.outs == h.outs && h'.done == h.done
            && (sent == [] || (h.flow.fifo != [] && sent == Split(E_TYPE_IN, SlotOf(h.flow.slots, h.flow.fifo[0]))))
  {
  }

  lemma IsrLeavesMemory(fw: Fw, f: Frame)
    requires f.kind > E_TYPE_ENDPOINTS
    ensures Isr(fw, f).0.mem == fw.mem && Isr(fw, f).1 == []
  {
  }

  /** The interrupt writes one memory, chosen by the packet type, and sends at most one acknowledgement. */
  lemma IsrEffect(fw: Fw, f: Frame)
    ensures var (fw', acks) := Isr(fw, f);
            && fw'.at == fw.at
            && (f.kind != E_TYPE_IN ==> fw'.slot == fw.slot)
            && (f.kind != E_TYPE_CONTROL && f.kind != E_TYPE_CONTROL_STALL ==> fw'.box == fw.box)
            && (acks == [] || (f.kind <= E_TYPE_ENDPOINTS && acks == [Ack(f.kind)]))
  {
  }

  /** The end of a control transfer changes the control state only, and sends at most one reply. */
  lemma ControlEndsEffect(h: Host, i: nat, completion: Completion)
    requires i < |h.control.transfers|
    ensures var (h', sent) := ControlCompleted(h, i, completion);
            && h'.start == h.start && h'.flow == h.flow && h'.outs == h.outs
            && (match ControlReply(h.control.transfers[i], completion)
                case Some(r) => sent == ReplyFrames(r)
                case None => sent == [])
  {
  }
}
