/** The whole proxy at packet level: the PC, the firmware interrupt, the firmware main program and
    the serial line as two FIFO channels, with every interleaving of their steps. */
module System {
  import opened Protocol
  import opened Adapter
  import opened Proxy
  import opened Firmware
  import opened Wrappers

  /** What has happened so far, as far as the outside world can tell. */
  datatype History = History(
    completed: seq<Report>,     // successful interrupt IN transfers, by device address
    stalled: multiset<byte>,    // IN endpoints whose transfer ended otherwise (they are not polled again)
    reports: seq<Report>,       // reports the firmware has given to the target host
    outSent: seq<seq<byte>>,    // values of the OUT packets the firmware has sent
    requests: nat,              // control packets the firmware has sent
    asked: seq<seq<byte>>,      // their values
    ended: seq<Ended>,          // control transfers that have ended at the device
    consumed: seq<Reply>,       // replies the firmware has acted on, under the number of its request
    taken: nat,                 // reply packets the interrupt has taken
    abandoned: bool)            // some request was given up while its packet, transfer or reply was still under way

  /** The end of a control transfer. */
  datatype Ended = Ended(transfer: ControlTransfer, completion: Completion)

  datatype Sys = Sys(h: Host, toFw: seq<Frame>, fw: Fw, toPc: seq<Frame>, past: History)

  datatype Step =
    // the PC
    | PcReceives
    | InEnds(endpoint: byte, c: Completion)
    | ControlEnds(i: nat, c: Completion)
    // the serial interrupt of the firmware
    | Interrupt
    // the main program of the firmware
    | LeaveBoot
    | TestInput | SelectInput | InNotReady | InReady | WriteByte | ClearIn | FreeInput | AckInput
    | SendOut(endpoint: byte, data: seq<byte>)
    | SendDebug(value: seq<byte>)
    | StartControl(request: seq<byte>) | ForgetStall | AbortControl | SendControl
    | SeeReply | ActOnReply | GiveUp

  function Initial(c: Config): Sys {
    Sys(InitialHost(), Split(E_TYPE_DESCRIPTORS, c.desc), InitialFw(), [],
        History([], multiset{}, [], [], 0, [], [], [], 0, false))
  }

  /** A setup packet, with its data when it travels to the device; setup and data take at most 254 bytes. */
  predicate RequestOk(request: seq<byte>) {
    && SETUP_SIZE <= |request| <= MAX_PACKET_VALUE_SIZE
    && (request[0] >= USB_DIR_IN ==> |request| == SETUP_SIZE)
  }

  function InputEndpoint(fw: Fw): byte { if fw.slot.input == [] then 0 else fw.slot.input[0] }

  /** The reply the firmware finds in its buffer while it serves request `id`. */
  function Read(box: ReplyBox, id: nat): Reply {
    Reply(id, box.controlStall,
          if box.controlStall || box.controlReplyLen > |box.control| then [] else box.control[..box.controlReplyLen])
  }

  predicate Enabled(s: Sys, step: Step) {
    match step
    case PcReceives => s.toPc != []
    case InEnds(endpoint, c) => endpoint in s.h.flow.polled && (c.Bytes? ==> |c.data| <= MAX_PAYLOAD_SIZE_EP)
    case ControlEnds(i, c) => i < |s.h.control.transfers| && (c.Bytes? ==> |c.data| <= MAX_PACKET_VALUE_SIZE)
    case Interrupt => s.toFw != []
    case LeaveBoot => s.fw.at.Boot? && s.fw.mem.started
    case TestInput => s.fw.at.Idle? && InputEndpoint(s.fw) != 0
    case SelectInput => s.fw.at.InTested?
    case InNotReady => s.fw.at.InSelected?
    case InReady => s.fw.at.InSelected?
    case WriteByte => s.fw.at.InWriting? && |s.fw.at.written| < s.fw.at.length
    case ClearIn => s.fw.at.InWriting? && |s.fw.at.written| >= s.fw.at.length
    case FreeInput => s.fw.at.InCleared?
    case AckInput => s.fw.at.InFreed?
    case SendOut(endpoint, data) =>
      s.fw.at.Idle? && endpoint in OutEndpoints(s.fw.mem.endpoints, 0) && 1 <= |data| <= MAX_PAYLOAD_SIZE_EP
    case SendDebug(value) => s.fw.at.Idle? && |value| == SETUP_SIZE
    case StartControl(request) => s.fw.at.Idle? && RequestOk(request)
    case ForgetStall => s.fw.at.ControlReset?
    case AbortControl => s.fw.at.ControlReady? && s.fw.at.request != [] && s.fw.at.request[0] < USB_DIR_IN
    case SendControl => s.fw.at.ControlReady? && |s.fw.at.request| <= MAX_PACKET_VALUE_SIZE
    case SeeReply => s.fw.at.ControlWait? && s.fw.box.controlReply
    case GiveUp => s.fw.at.ControlWait? && !s.fw.box.controlReply
    case ActOnReply => s.fw.at.ControlSeen?
  }

  predicate IsReply(kind: byte) { kind == E_TYPE_CONTROL || kind == E_TYPE_CONTROL_STALL }

  /** The interrupt has taken a packet. */
  function Took(past: History, kind: byte): History {
    if IsReply(kind) then past.(taken := past.taken + 1) else past
  }

  /** Some request has not come to an end: the PC has not received it yet, its transfer is not over, or the interrupt has
      not taken its reply. */
  predicate UnderWay(k: Control, past: History) {
    k.seen < past.requests || k.transfers != [] || past.taken < |k.replies|
  }

  // ----- what a step does -----

  function FromPc(s: Sys, r: (Host, seq<Frame>)): Sys {
    s.(h := r.0, toFw := s.toFw + r.1)
  }

  function Main(s: Sys, fw: Fw): Sys { s.(fw := fw) }

  function MainSends(s: Sys, fw: Fw, f: Frame): Sys { s.(fw := fw, toPc := s.toPc + [f]) }

  function Do(c: Config, s: Sys, step: Step): Sys
    requires Enabled(s, step)
  {
    var fw, past := s.fw, s.past;
    match step
    case PcReceives =>
      FromPc(s.(toPc := s.toPc[1..]), ProcessPacket(c, s.h, s.toPc[0]))
    case InEnds(endpoint, completion) =>
      var ended := s.h.(flow := s.h.flow.(polled := s.h.flow.polled - multiset{endpoint}));
      var past' := match completion
        case Bytes(data) => past.(completed := past.completed + [Report(endpoint, data)])
        case _ => past.(stalled := past.stalled + multiset{endpoint});
      FromPc(s.(past := past'), InCompleted(c.u2s, ended, endpoint, completion))
    case ControlEnds(i, completion) =>
      FromPc(s.(past := past.(ended := past.ended + [Ended(s.h.control.transfers[i], completion)])), ControlCompleted(s.h, i, completion))
    case Interrupt =>
      var (fw', acks) := Isr(fw, s.toFw[0]);
      s.(fw := fw', toFw := s.toFw[1..], toPc := s.toPc + acks, past := Took(past, s.toFw[0].kind))
    case LeaveBoot => Main(s, fw.(at := Idle))
    case TestInput => Main(s, fw.(at := InTested))
    case SelectInput => Main(s, fw.(at := InSelected(InputEndpoint(fw))))
    case InNotReady => Main(s, fw.(at := Idle))
    case InReady => Main(s, fw.(at := InWriting(fw.at.endpoint, fw.slot.inputDataLen, [])))
    case WriteByte =>
      var k := |fw.at.written|;
      if k + 1 < |fw.slot.input| then Main(s, fw.(at := fw.at.(written := fw.at.written + [fw.slot.input[k + 1]])))
      else Main(s, fw.(health := Overrun))
    case ClearIn =>
      Main(s.(past := past.(reports := past.reports + [Report(fw.at.endpoint, fw.at.written)])), fw.(at := InCleared))
    case FreeInput => Main(s, fw.(at := InFreed, slot := fw.slot.(input := if fw.slot.input == [] then [] else fw.slot.input[0 := 0])))
    case AckInput => MainSends(s, fw.(at := Idle), Ack(E_TYPE_IN))
    case SendOut(endpoint, data) =>
      MainSends(s.(past := past.(outSent := past.outSent + [[endpoint] + data])), fw, Frame(E_TYPE_OUT, [endpoint] + data))
    case SendDebug(value) => MainSends(s, fw, Frame(E_TYPE_DEBUG, value))
    case StartControl(request) => Main(s, fw.(at := ControlReset(request), box := fw.box.(controlReply := false)))
    case ForgetStall => Main(s, fw.(at := ControlReady(fw.at.request), box := fw.box.(controlStall := false)))
    case AbortControl => Main(s, fw.(at := Idle))
    case SendControl =>
      MainSends(s.(past := past.(requests := past.requests + 1, asked := past.asked + [fw.at.request])), fw.(at := ControlWait), Frame(E_TYPE_CONTROL, fw.at.request))
    case SeeReply => Main(s, fw.(at := ControlSeen))
    case GiveUp => Main(s.(past := past.(abandoned := past.abandoned || UnderWay(s.h.control, past))), fw.(at := Idle))
    case ActOnReply =>
      Main(s.(past := past.(consumed := past.consumed + [Read(fw.box, past.requests)])), fw.(at := Idle))
  }

  /** A run: `states` visited from the initial one by the steps `steps`. */
  ghost predicate IsRun(c: Config, states: seq<Sys>, steps: seq<Step>) {
    && |states| == |steps| + 1
    && states[0] == Initial(c)
    && forall i :: 0 <= i < |steps| ==> Enabled(states[i], steps[i]) && states[i + 1] == Do(c, states[i], steps[i])
  }

  /** A state some run visits. */
  ghost predicate Reachable(c: Config, s: Sys) {
    exists states, steps :: IsRun(c, states, steps) && s in states
  }

  /** A given series of steps from a given state, if it is possible. */
  function RunSteps(c: Config, s: Sys, steps: seq<Step>): Option<Sys>
    decreases |steps|
  {
    if steps == [] then Some(s)
    else if !Enabled(s, steps[0]) then None
    else RunSteps(c, Do(c, s, steps[0]), steps[1..])
  }
}
