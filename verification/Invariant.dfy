/** What holds in every reachable state of the system, one predicate per concern. Each predicate takes
    just the components it speaks about; `…Packets` are the packets of one type in one channel. */
module Invariant {
  import opened Protocol
  import opened Adapter
  import opened Proxy
  import opened Firmware
  import opened System

  /** What fix_endpoints and send_descriptors establish before packets start to flow. */
  ghost predicate ConfigOk(c: Config) {
    && |c.desc| <= MAX_DESCRIPTORS_SIZE
    && |c.index| <= MAX_DESCRIPTORS * INDEX_ENTRY_SIZE
    && |c.endpoints| <= MAX_ENDPOINTS * ENDPOINT_CONFIG_SIZE
    && |c.ins| <= MAX_ENDPOINTS
    && (forall e :: e in c.ins ==> USB_DIR_IN < e < USB_DIR_IN + 16 && Lookup(c.u2s, e) != 0)
    && multiset(PollFrom(c.s2u, 0)) == multiset(c.ins)
  }

  // ----- shapes and transmit discipline -----

  ghost predicate FwShape(fw: Fw) {
    && |fw.mem.descriptors.bytes| == MAX_DESCRIPTORS_SIZE
    && |fw.mem.index.bytes| == MAX_DESCRIPTORS * INDEX_ENTRY_SIZE
    && |fw.mem.endpoints| == MAX_ENDPOINTS * ENDPOINT_CONFIG_SIZE
    && |fw.slot.input| == INPUT_SIZE
    && fw.health == Running
    && (!fw.at.Boot? ==> fw.mem.started)
    && (fw.at.ControlReset? || fw.at.ControlReady? ==> RequestOk(fw.at.request))
  }

  ghost predicate ToFwKinds(fs: seq<Frame>) {
    forall f :: f in fs ==> f.kind <= E_TYPE_IN && f.kind != E_TYPE_RESET
  }

  ghost predicate ToPcKinds(fs: seq<Frame>) {
    forall f :: f in fs ==> f.kind != E_TYPE_RESET && (f.kind == E_TYPE_OUT ==> f.value != [])
  }

  // ----- start-up transfer -----

  /** What has been stored, followed by what is on the line, is all of `whole`. */
  ghost predicate TransferInv(whole: seq<byte>, area: Area, packets: seq<seq<byte>>) {
    area.at <= |area.bytes| && area.bytes[..area.at] + Flatten(packets) == whole
  }

  /** The area is zero from the write position on. */
  ghost predicate RestIsZero(area: Area) {
    area.at <= |area.bytes| && area.bytes[area.at..] == Zeros(|area.bytes| - area.at)
  }

  ghost predicate DescriptorInv(desc: seq<byte>, area: Area, started: bool, indexSent: bool, packets: seq<seq<byte>>, acks: seq<seq<byte>>) {
    && TransferInv(desc, area, packets)
    && (!indexSent ==> packets != [] || acks != [])
    && (started ==> packets == [])
  }

  ghost predicate IndexInv(index: seq<byte>, area: Area, started: bool, start: StartUp, packets: seq<seq<byte>>, acks: seq<seq<byte>>) {
    && TransferInv(if start.indexSent then index else [], area, packets)
    && RestIsZero(area)
    && (!start.indexSent ==> packets == [] && acks == [])
    && (start.indexSent && !start.endpointsSent ==> packets != [] || acks != [])
    && (started ==> packets == [])
  }

  function Padded(value: seq<byte>, n: nat): seq<byte> {
    value + Zeros(if |value| <= n then n - |value| else 0)
  }

  ghost predicate EndpointsInv(endpoints: seq<byte>, memory: seq<byte>, started: bool, start: StartUp, packets: seq<seq<byte>>, acks: seq<seq<byte>>) {
    && (start.endpointsSent ==> start.indexSent)
    && (started ==> start.endpointsSent)
    && packets == (if start.endpointsSent && !started then [endpoints] else [])
    && memory == (if started then Padded(endpoints, |memory|) else Zeros(|memory|))
    && |acks| + start.pollRuns == (if started then 1 else 0)
  }

  /** No descriptor or index packet follows an endpoint packet. */
  ghost predicate EndpointsLast(fs: seq<Frame>) {
    fs == []
    || (&& EndpointsLast(fs[1..])
        && (fs[0].kind == E_TYPE_ENDPOINTS ==>
              ValuesOf(fs[1..], E_TYPE_DESCRIPTORS) == [] && ValuesOf(fs[1..], E_TYPE_INDEX) == []))
  }

  // ----- the IN token -----

  function One(b: bool): nat { if b then 1 else 0 }

  ghost predicate PacketOk(packet: seq<byte>) {
    1 <= |packet| <= INPUT_SIZE && packet[0] != 0
  }

  ghost predicate PositionOk(slot: InputSlot, at: Position)
    requires |slot.input| == INPUT_SIZE
  {
    match at
    case InTested => slot.input[0] != 0
    case InSelected(endpoint) => endpoint == slot.input[0] != 0
    case InWriting(endpoint, length, written) =>
      && endpoint == slot.input[0] != 0
      && length == slot.inputDataLen
      && |written| <= length <= MAX_PAYLOAD_SIZE_EP
      && written == slot.input[1..1 + |written|]
    case InCleared => slot.input[0] != 0
    case InFreed => slot.input[0] == 0
    case _ => true
  }

  /** inPending is set exactly while there is one IN packet on the line, one occupied input slot, or one
      acknowledgement due or on the line. */
  ghost predicate TokenInv(slot: InputSlot, at: Position, inPending: byte, packets: seq<seq<byte>>, acks: seq<seq<byte>>) {
    && |slot.input| == INPUT_SIZE
    && |packets| + One(slot.input[0] != 0) + One(at.InFreed?) + |acks| == One(inPending != 0)
    && (packets != [] ==> PacketOk(packets[0]))
    && (slot.input[0] != 0 ==> slot.inputDataLen <= MAX_PAYLOAD_SIZE_EP)
    && PositionOk(slot, at)
  }

  // ----- conservation of the IN endpoints -----

  function Pending(inPending: byte): multiset<byte> { if inPending == 0 then multiset{} else multiset{inPending} }

  /** Every configured IN endpoint is in exactly one place once polling has started. */
  ghost predicate ConservationInv(ins: set<byte>, pollRuns: nat, w: Flow, stalled: multiset<byte>) {
    && pollRuns <= 1
    && w.polled + multiset(w.fifo) + Pending(w.inPending) + stalled == (if pollRuns == 1 then multiset(ins) else multiset{})
  }

  // ----- refinement of a FIFO -----

  function ToReport(packet: seq<byte>): Report {
    if packet == [] then Report(0, []) else Report(packet[0], packet[1..])
  }

  /** The report that has left inEpFifo and has not yet been given to the target host. */
  function InFlight(slot: InputSlot, cleared: bool, packets: seq<seq<byte>>): seq<Report> {
    if packets != [] then [ToReport(packets[0])]
    else if slot.input != [] && slot.input[0] != 0 && !cleared && slot.inputDataLen < |slot.input| then
      [Report(slot.input[0], slot.input[1..1 + slot.inputDataLen])]
    else []
  }

  function Queued(slots: seq<seq<byte>>, fifo: seq<byte>): seq<Report> {
    if fifo == [] then [] else [ToReport(SlotOf(slots, fifo[0]))] + Queued(slots, fifo[1..])
  }

  /** A report of the device, under the endpoint address the target host knows. */
  function Translate(u2s: seq<byte>, r: Report): Report { Report(Lookup(u2s, r.endpoint), r.data) }

  function Translated(u2s: seq<byte>, rs: seq<Report>): seq<Report> {
    if rs == [] then [] else [Translate(u2s, rs[0])] + Translated(u2s, rs[1..])
  }

  ghost predicate SlotsOk(w: Flow) {
    forall e :: e in w.fifo ==> PacketOk(SlotOf(w.slots, e))
  }

  ghost predicate FifoInv(u2s: seq<byte>, w: Flow, inFlight: seq<Report>, reports: seq<Report>, completed: seq<Report>) {
    && SlotsOk(w)
    && reports + inFlight + Queued(w.slots, w.fifo) == Translated(u2s, completed)
  }

  // ----- control transfers -----

  /** Request numbers identify transfers and replies: each belongs to a received packet, and no packet has two. */
  ghost predicate ReplyIdInv(k: Control, requestPackets: seq<seq<byte>>, requests: nat) {
    && k.seen + |requestPackets| == requests
    && (forall i :: 0 <= i < |k.transfers| ==> 1 <= k.transfers[i].id <= k.seen)
    && (forall i :: 0 <= i < |k.replies| ==> 1 <= k.replies[i].id <= k.seen)
    && (forall i, j :: 0 <= i < j < |k.transfers| ==> k.transfers[i].id != k.transfers[j].id)
    && (forall i, j :: 0 <= i < j < |k.replies| ==> k.replies[i].id != k.replies[j].id)
    && (forall i, j :: 0 <= i < |k.transfers| && 0 <= j < |k.replies| ==> k.transfers[i].id != k.replies[j].id)
  }

  /** Where the main program stands with respect to a control request. */
  datatype Phase = Outside | Resetting | Ready | Awaiting | Seen

  function PhaseOf(at: Position): Phase {
    match at
    case ControlReset(_) => Resetting
    case ControlReady(_) => Ready
    case ControlWait => Awaiting
    case ControlSeen => Seen
    case _ => Outside
  }

  /** The packets of a control exchange: requests towards the PC, replies and stalls towards the firmware. */
  datatype ControlLanes = ControlLanes(requests: seq<seq<byte>>, replies: seq<seq<byte>>, stalls: seq<seq<byte>>)

  function InTransit(lanes: ControlLanes, k: Control): nat {
    |lanes.requests| + |k.transfers| + |lanes.replies| + |lanes.stalls|
  }

  function LastReply(k: Control): Reply { if k.replies == [] then Reply(0, false, []) else k.replies[|k.replies| - 1] }

  /** While no request has been abandoned, at most one request or reply is under way, and only while the
      firmware waits; a reply under way or in the buffer is the last one sent, and answers the current request. */
  ghost predicate ControlInv(k: Control, box: ReplyBox, phase: Phase, lanes: ControlLanes, requests: nat) {
    var current := LastReply(k);
    && (if phase == Awaiting then InTransit(lanes, k) + One(box.controlReply) <= 1 else InTransit(lanes, k) == 0)
    && (phase == Awaiting || phase == Seen ==> requests >= 1)
    && (phase == Seen ==> box.controlReply)
    && (phase == Resetting || phase == Ready ==> !box.controlReply)
    && (phase == Ready || (phase == Awaiting && !box.controlReply) ==> !box.controlStall)
    && (k.transfers != [] ==> k.transfers[0].id == requests)
    && (lanes.replies != [] ==> current == Reply(requests, false, lanes.replies[0]))
    && (lanes.stalls != [] ==> current == Reply(requests, true, []))
    && ((phase == Awaiting || phase == Seen) && box.controlReply ==> Read(box, requests) == current)
  }

  ghost predicate ConsumedInv(k: Control, consumed: seq<Reply>) {
    forall r :: r in consumed ==> r in k.replies
  }

  // ----- OUT packets -----

  /** What an OUT packet makes the PC write: its data, to the original address of its endpoint. */
  function WriteOf(s2u: seq<byte>, value: seq<byte>): OutWrite {
    if value == [] then OutWrite(0, []) else OutWrite(Lookup(s2u, value[0]), value[1..])
  }

  function Writes(s2u: seq<byte>, values: seq<seq<byte>>): seq<OutWrite> {
    if values == [] then [] else [WriteOf(s2u, values[0])] + Writes(s2u, values[1..])
  }

  ghost predicate OutInv(s2u: seq<byte>, outs: seq<OutWrite>, packets: seq<seq<byte>>, outSent: seq<seq<byte>>) {
    outs + Writes(s2u, packets) == Writes(s2u, outSent)
  }

  // ----- all together -----

  function LanesOf(s: Sys): ControlLanes {
    ControlLanes(ValuesOf(s.toPc, E_TYPE_CONTROL), ValuesOf(s.toFw, E_TYPE_CONTROL), ValuesOf(s.toFw, E_TYPE_CONTROL_STALL))
  }

  ghost predicate ShapeInv(s: Sys) {
    !s.h.done && FwShape(s.fw) && ToFwKinds(s.toFw) && ToPcKinds(s.toPc)
  }

  ghost predicate StartInv(c: Config, s: Sys) {
    && DescriptorInv(c.desc, s.fw.mem.descriptors, s.fw.mem.started, s.h.start.indexSent,
                     ValuesOf(s.toFw, E_TYPE_DESCRIPTORS), ValuesOf(s.toPc, E_TYPE_DESCRIPTORS))
    && IndexInv(c.index, s.fw.mem.index, s.fw.mem.started, s.h.start,
                ValuesOf(s.toFw, E_TYPE_INDEX), ValuesOf(s.toPc, E_TYPE_INDEX))
    && EndpointsInv(c.endpoints, s.fw.mem.endpoints, s.fw.mem.started, s.h.start,
                    ValuesOf(s.toFw, E_TYPE_ENDPOINTS), ValuesOf(s.toPc, E_TYPE_ENDPOINTS))
    && EndpointsLast(s.toFw)
  }

  ghost predicate FlowParts(c: Config, slot: InputSlot, at: Position, w: Flow, pollRuns: nat,
                            packets: seq<seq<byte>>, acks: seq<seq<byte>>,
                            stalled: multiset<byte>, reports: seq<Report>, completed: seq<Report>) {
    && TokenInv(slot, at, w.inPending, packets, acks)
    && ConservationInv(c.ins, pollRuns, w, stalled)
    && FifoInv(c.u2s, w, InFlight(slot, at.InCleared?, packets), reports, completed)
    && |w.slots| == ENDPOINT_MAX_NUMBER
  }

  /** No report waits in inEpFifo while nothing is pending. */
  predicate Busy(w: Flow) { w.inPending == 0 ==> w.fifo == [] }

  ghost predicate FlowInv(c: Config, s: Sys) {
    Busy(s.h.flow)
    && FlowParts(c, s.fw.slot, s.fw.at, s.h.flow, s.h.start.pollRuns, ValuesOf(s.toFw, E_TYPE_IN), ValuesOf(s.toPc, E_TYPE_IN),
              s.past.stalled, s.past.reports, s.past.completed)
  }

  ghost predicate ExchangeParts(k: Control, box: ReplyBox, phase: Phase, lanes: ControlLanes, requests: nat,
                                consumed: seq<Reply>, abandoned: bool) {
    && ReplyIdInv(k, lanes.requests, requests)
    && (abandoned || (ControlInv(k, box, phase, lanes, requests) && ConsumedInv(k, consumed)))
    && box.controlReplyLen <= |box.control| == MAX_PACKET_VALUE_SIZE
  }

  ghost predicate ExchangeInv(c: Config, s: Sys) {
    && ExchangeParts(s.h.control, s.fw.box, PhaseOf(s.fw.at), LanesOf(s), s.past.requests, s.past.consumed, s.past.abandoned)
    && OutInv(c.s2u, s.h.outs, ValuesOf(s.toPc, E_TYPE_OUT), s.past.outSent)
  }

  /** The replies the interrupt has not taken are on the line. */
  ghost predicate TakenInv(s: Sys) {
    s.past.taken + |ValuesOf(s.toFw, E_TYPE_CONTROL)| + |ValuesOf(s.toFw, E_TYPE_CONTROL_STALL)| == |s.h.control.replies|
  }

  ghost predicate Inv(c: Config, s: Sys) {
    ShapeInv(s) && StartInv(c, s) && FlowInv(c, s) && ExchangeInv(c, s) && TakenInv(s)
  }
}
