/** The PC proxy: its flow-control state, and what each callback does to it. */
module Proxy {
  import opened Protocol
  import opened Adapter
  import opened Wrappers

  const ENDPOINT_MAX_NUMBER := 15
  const USB_DIR_IN := 128
  const USB_DT_DEVICE_QUALIFIER := 6
  const USB_REQ_GET_DESCRIPTOR := 6
  const USB_RECIP_ENDPOINT := 2
  const SETUP_SIZE := 8

  // ----- endpoint addresses and the two translation tables -----

  function Number(endpoint: byte): byte { endpoint % 16 }

  function Direction(endpoint: byte): byte { endpoint / 128 }

  /** The cell of a row-major 2 x 15 table that an endpoint address selects; address 0x80 selects
      the last cell of the OUT row, and address 0 the cell before the table. */
  function Cell(endpoint: byte): int {
    ENDPOINT_MAX_NUMBER * Direction(endpoint) + Number(endpoint) - 1
  }

  /** U2S_ENDPOINT and S2U_ENDPOINT; 0 stands for a read outside the table. */
  function Lookup(table: seq<byte>, endpoint: byte): byte {
    if 0 <= Cell(endpoint) < |table| then table[Cell(endpoint)] else 0
  }

  /** The cells poll_all_endpoints looks at. */
  function PollRow(s2u: seq<byte>): seq<byte> {
    seq(ENDPOINT_MAX_NUMBER, i requires 0 <= i < ENDPOINT_MAX_NUMBER => PollCell(s2u, i))
  }

  function PollCell(s2u: seq<byte>, i: nat): byte
    requires i < ENDPOINT_MAX_NUMBER
  {
    Lookup(s2u, USB_DIR_IN + i)
  }

  function NonZero(cells: seq<byte>): seq<byte> {
    if cells == [] then [] else (if cells[0] != 0 then [cells[0]] else []) + NonZero(cells[1..])
  }

  /** The endpoints poll_all_endpoints polls, from loop index `i` on. */
  function PollFrom(s2u: seq<byte>, i: nat): seq<byte> {
    if i >= ENDPOINT_MAX_NUMBER then [] else NonZero(PollRow(s2u)[i..])
  }

  lemma PollFromNext(s2u: seq<byte>, i: nat)
    requires i < ENDPOINT_MAX_NUMBER
    ensures var endpoint := Lookup(s2u, USB_DIR_IN + i);
            PollFrom(s2u, i) == (if endpoint != 0 then [endpoint] else []) + PollFrom(s2u, i + 1)
  {
    var cells := PollRow(s2u)[i..];
    assert cells[0] == PollCell(s2u, i) && cells[1..] == PollRow(s2u)[i + 1..];
    assert NonZero(cells) == (if cells[0] != 0 then [cells[0]] else []) + NonZero(cells[1..]);
    if i + 1 == ENDPOINT_MAX_NUMBER {
      assert NonZero(cells[1..]) == [];
    }
  }

  /** What start-up leaves fixed: the bytes to transfer, the translation tables and the
      IN endpoints of the device that were configured. */
  datatype Config = Config(desc: seq<byte>, index: seq<byte>, endpoints: seq<byte>,
                           u2s: seq<byte>, s2u: seq<byte>, ins: set<byte>)

  // ----- state -----

  /** How a libusb transfer ended. */
  datatype Completion = Bytes(data: seq<byte>) | TimedOut | Stall | Error

  /** A control transfer submitted for the id-th control packet received. */
  datatype ControlTransfer = ControlTransfer(id: nat, value: seq<byte>)

  /** A reply for the id-th control request. */
  datatype Reply = Reply(id: nat, stall: bool, data: seq<byte>)

  /** A write submitted to an OUT endpoint of the device. */
  datatype OutWrite = OutWrite(endpoint: byte, data: seq<byte>)

  /** The start-up flags, and how often poll_all_endpoints has run. */
  datatype StartUp = StartUp(indexSent: bool, endpointsSent: bool, pollRuns: nat)

  /** inPending, inEpFifo, inPackets (a slot holds the first `length` bytes of its packet), and the
      IN endpoints with a transfer submitted to libusb. */
  datatype Flow = Flow(inPending: byte, fifo: seq<byte>, slots: seq<seq<byte>>, polled: multiset<byte>)

  /** How many control packets have come in, the control transfers under way, and the replies sent. */
  datatype Control = Control(seen: nat, transfers: seq<ControlTransfer>, replies: seq<Reply>)

  datatype Host = Host(start: StartUp, flow: Flow, control: Control, outs: seq<OutWrite>, done: bool)

  function InitialHost(): Host {
    Host(StartUp(false, false, 0), Flow(0, [], seq(ENDPOINT_MAX_NUMBER, _ => []), multiset{}), Control(0, [], []), [], false)
  }

  function SlotOf(slots: seq<seq<byte>>, endpoint: byte): seq<byte> {
    if 0 <= Number(endpoint) - 1 < |slots| then slots[Number(endpoint) - 1] else []
  }

  // ----- interrupt IN flow control -----

  /** send_next_in_packet. */
  function SendNextInPacket(w: Flow): (Flow, seq<Frame>) {
    if w.inPending != 0 || w.fifo == [] then (w, [])
    else (w.(inPending := w.fifo[0], fifo := w.fifo[1..]), Split(E_TYPE_IN, SlotOf(w.slots, w.fifo[0])))
  }

  predicate CanQueue(w: Flow, endpoint: byte) {
    |w.fifo| < MAX_ENDPOINTS && 1 <= Number(endpoint) <= |w.slots|
  }

  /** queue_in_packet. */
  function QueueInPacket(u2s: seq<byte>, w: Flow, endpoint: byte, data: seq<byte>): Flow
    requires CanQueue(w, endpoint)
  {
    w.(slots := w.slots[Number(endpoint) - 1 := [Lookup(u2s, endpoint)] + data], fifo := w.fifo + [endpoint])
  }

  /** usb_read_callback on an IN endpoint other than 0. */
  function InCompleted(u2s: seq<byte>, h: Host, endpoint: byte, c: Completion): (Host, seq<Frame>) {
    if !c.Bytes? then (h, [])
    else if |c.data| > MAX_PAYLOAD_SIZE_EP || !CanQueue(h.flow, endpoint) then (h.(done := true), [])
    else
      var (w, sent) := SendNextInPacket(QueueInPacket(u2s, h.flow, endpoint, c.data));
      (h.(flow := w), sent)
  }

  // ----- control transfers -----

  /** The setup packet as the device must see it: an endpoint recipient is given its original address. */
  function TranslateSetup(s2u: seq<byte>, value: seq<byte>): seq<byte> {
    if |value| < SETUP_SIZE || value[0] % 32 != USB_RECIP_ENDPOINT || (value[4] == 0 && value[5] == 0) then value
    else value[..4] + [if value[5] == 0 then Lookup(s2u, value[4]) else 0, 0] + value[6..]
  }

  predicate IsQualifierRequest(value: seq<byte>) {
    |value| >= SETUP_SIZE && value[0] == USB_DIR_IN && value[1] == USB_REQ_GET_DESCRIPTOR && value[3] == USB_DT_DEVICE_QUALIFIER
  }

  function ReplyFrames(r: Reply): seq<Frame> {
    if r.stall then Split(E_TYPE_CONTROL_STALL, []) else Split(E_TYPE_CONTROL, r.data)
  }

  function SendReply(k: Control, r: Reply): (Control, seq<Frame>) {
    (k.(replies := k.replies + [r]), ReplyFrames(r))
  }

  /** send_control_packet. */
  function SendControlPacket(s2u: seq<byte>, k: Control, value: seq<byte>): (Control, seq<Frame>) {
    var id := k.seen + 1;
    var setup := TranslateSetup(s2u, value);
    if IsQualifierRequest(setup) then SendReply(k.(seen := id), Reply(id, true, []))
    else (k.(seen := id, transfers := k.transfers + [ControlTransfer(id, setup)]), [])
  }

  predicate IsRead(t: ControlTransfer) { t.value != [] && t.value[0] >= USB_DIR_IN }

  /** The reply, if any, that usb_read_callback or usb_write_callback sends for endpoint 0; the direction
      of the request chooses between the two callbacks. */
  function ControlReply(t: ControlTransfer, c: Completion): Option<Reply> {
    match c
    case Bytes(data) =>
      if !IsRead(t) then Some(Reply(t.id, false, []))
      else if |data| > MAX_PACKET_VALUE_SIZE then None
      else Some(Reply(t.id, false, data))
    case TimedOut => if IsRead(t) then Some(Reply(t.id, true, [])) else None
    case Stall => Some(Reply(t.id, true, []))
    case Error => None
  }

  /** The end of the i-th control transfer. */
  function ControlCompleted(h: Host, i: nat, c: Completion): (Host, seq<Frame>)
    requires i < |h.control.transfers|
  {
    var t := h.control.transfers[i];
    var k := h.control.(transfers := h.control.transfers[..i] + h.control.transfers[i + 1..]);
    match ControlReply(t, c)
    case Some(r) =>
      var (k', sent) := SendReply(k, r);
      (h.(control := k'), sent)
    case None => (h.(control := k, done := h.done || c.Bytes?), [])
  }

  // ----- packets from the firmware -----

  /** process_packet, for submissions that libusb accepts. */
  function ProcessPacket(c: Config, h: Host, f: Frame): (Host, seq<Frame>) {
    if f.kind == E_TYPE_DESCRIPTORS then
      if h.start.indexSent then (h, []) else (h.(start := h.start.(indexSent := true)), Split(E_TYPE_INDEX, c.index))
    else if f.kind == E_TYPE_INDEX then
      if h.start.endpointsSent then (h, []) else (h.(start := h.start.(endpointsSent := true)), Split(E_TYPE_ENDPOINTS, c.endpoints))
    else if f.kind == E_TYPE_ENDPOINTS then
      (h.(start := h.start.(pollRuns := h.start.pollRuns + 1),
          flow := h.flow.(polled := h.flow.polled + multiset(PollFrom(c.s2u, 0)))), [])
    else if f.kind == E_TYPE_IN then
      if h.flow.inPending == 0 then (h, [])
      else
        var (w, sent) := SendNextInPacket(h.flow.(polled := h.flow.polled + multiset{h.flow.inPending}, inPending := 0));
        (h.(flow := w), sent)
    else if f.kind == E_TYPE_OUT then
      if f.value == [] then (h.(done := true), [])
      else (h.(outs := h.outs + [OutWrite(Lookup(c.s2u, f.value[0]), f.value[1..])]), [])
    else if f.kind == E_TYPE_CONTROL then
      var (k, sent) := SendControlPacket(c.s2u, h.control, f.value);
      (h.(control := k), sent)
    else if f.kind == E_TYPE_RESET then (h.(done := true), [])
    else (h, [])
  }
}
