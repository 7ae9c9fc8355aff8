/** The AVR firmware: its memories and flags, the serial interrupt, and the positions of the
    main program between which that interrupt may strike. */
module Firmware {
  import opened Protocol

  const INPUT_SIZE := 65

  /** An interrupt report: an endpoint and the bytes sent on it. */
  datatype Report = Report(endpoint: byte, data: seq<byte>)

  /** Where the main program is. The In positions are those of SendNextInput, the Control ones those of
      EVENT_USB_Device_UnhandledControlRequest. */
  datatype Position =
    | Boot
    | Idle
    | InTested
    | InSelected(endpoint: byte)
    | InWriting(endpoint: byte, length: byte, written: seq<byte>)
    | InCleared
    | InFreed
    | ControlReset(request: seq<byte>)
    | ControlReady(request: seq<byte>)
    | ControlWait
    | ControlSeen

  datatype Health = Running | HardReset | Overrun

  /** A memory that packets are appended to, and the position of the next write (pdesc, pindex). */
  datatype Area = Area(bytes: seq<byte>, at: nat)

  /** The memories filled during start-up. */
  datatype Memory = Memory(descriptors: Area, index: Area, endpoints: seq<byte>, started: bool)

  /** `input` and inputDataLen; byte 0 of `input` is the endpoint, 0 meaning nothing to send. */
  datatype InputSlot = InputSlot(input: seq<byte>, inputDataLen: byte)

  /** The reply buffer of the control endpoint and its flags. */
  datatype ReplyBox = ReplyBox(control: seq<byte>, controlReplyLen: byte, controlReply: bool, controlStall: bool)

  datatype Fw = Fw(mem: Memory, slot: InputSlot, box: ReplyBox, at: Position, health: Health)

  function Zeros(n: nat): seq<byte> { seq(n, _ => 0) }

  function InitialFw(): Fw {
    Fw(Memory(Area(Zeros(MAX_DESCRIPTORS_SIZE), 0), Area(Zeros(MAX_DESCRIPTORS * INDEX_ENTRY_SIZE), 0),
              Zeros(MAX_ENDPOINTS * ENDPOINT_CONFIG_SIZE), false),
       InputSlot(Zeros(INPUT_SIZE), 0),
       ReplyBox(Zeros(MAX_PACKET_VALUE_SIZE), 0, false, false),
       Boot, Running)
  }

  predicate Fits(mem: seq<byte>, at: nat, value: seq<byte>) { at + |value| <= |mem| }

  function Overlay(mem: seq<byte>, at: nat, value: seq<byte>): (r: seq<byte>)
    requires Fits(mem, at, value)
    ensures |r| == |mem|
  {
    mem[..at] + value + mem[at + |value|..]
  }

  /** READ_VALUE_INC: the bytes go to the write position, which moves past them. */
  function Store(area: Area, value: seq<byte>): Area
    requires Fits(area.bytes, area.at, value)
  {
    Area(Overlay(area.bytes, area.at, value), area.at + |value|)
  }

  function Ack(kind: byte): Frame { Frame(kind, []) }

  /** The serial interrupt, once it has read a whole packet; a write past the end of a memory is
      recorded as an overrun. Packet types above E_TYPE_IN are dropped. */
  function Isr(fw: Fw, f: Frame): (Fw, seq<Frame>) {
    var m, v := fw.mem, f.value;
    if f.kind == E_TYPE_DESCRIPTORS then
      if !Fits(m.descriptors.bytes, m.descriptors.at, v) then (fw.(health := Overrun), [])
      else (fw.(mem := m.(descriptors := Store(m.descriptors, v))), [Ack(E_TYPE_DESCRIPTORS)])
    else if f.kind == E_TYPE_INDEX then
      if !Fits(m.index.bytes, m.index.at, v) then (fw.(health := Overrun), [])
      else (fw.(mem := m.(index := Store(m.index, v))), [Ack(E_TYPE_INDEX)])
    else if f.kind == E_TYPE_ENDPOINTS then
      if !Fits(m.endpoints, 0, v) then (fw.(health := Overrun), [])
      else (fw.(mem := m.(endpoints := Overlay(m.endpoints, 0, v), started := true)), [Ack(E_TYPE_ENDPOINTS)])
    else if f.kind == E_TYPE_RESET then (fw.(health := HardReset), [])
    else if f.kind == E_TYPE_CONTROL then
      if !Fits(fw.box.control, 0, v) then (fw.(health := Overrun), [])
      else (fw.(box := ReplyBox(Overlay(fw.box.control, 0, v), |v|, true, fw.box.controlStall)), [])
    else if f.kind == E_TYPE_CONTROL_STALL then
      if !Fits(fw.box.control, 0, v) then (fw.(health := Overrun), [])
      else (fw.(box := ReplyBox(Overlay(fw.box.control, 0, v), fw.box.controlReplyLen, true, true)), [])
    else if f.kind == E_TYPE_IN then
      if !Fits(fw.slot.input, 0, v) then (fw.(health := Overrun), [])
      else (fw.(slot := InputSlot(Overlay(fw.slot.input, 0, v), (|v| - 1) % 256)), [])
    else (fw, [])
  }

  // ----- endpoint table, as EVENT_USB_Device_ConfigurationChanged reads it -----

  /** The numbers of the OUT endpoints among the entries from `i` on, up to the first unused entry. */
  function OutEndpoints(endpoints: seq<byte>, i: nat): seq<byte>
    decreases |endpoints| - ENDPOINT_CONFIG_SIZE * i
  {
    if ENDPOINT_CONFIG_SIZE * (i + 1) > |endpoints| || endpoints[ENDPOINT_CONFIG_SIZE * i] == 0 then []
    else
      var number := endpoints[ENDPOINT_CONFIG_SIZE * i];
      (if number < 128 then [number] else []) + OutEndpoints(endpoints, i + 1)
  }

  /** The indexes of the OUT endpoints among the used entries from `i` on. */
  function OutIndexes(endpoints: seq<byte>, i: nat): seq<nat>
    decreases |endpoints| - ENDPOINT_CONFIG_SIZE * i
  {
    if ENDPOINT_CONFIG_SIZE * (i + 1) > |endpoints| || endpoints[ENDPOINT_CONFIG_SIZE * i] == 0 then []
    else (if endpoints[ENDPOINT_CONFIG_SIZE * i] < 128 then [i] else []) + OutIndexes(endpoints, i + 1)
  }

  const EP_TYPE_INTERRUPT := 3

  /** The i-th entry of the memory. */
  function EntryOf(endpoints: seq<byte>, i: nat): Entry
    requires ENDPOINT_CONFIG_SIZE * (i + 1) <= |endpoints|
  {
    Entry(endpoints[ENDPOINT_CONFIG_SIZE * i], endpoints[ENDPOINT_CONFIG_SIZE * i + 1], endpoints[ENDPOINT_CONFIG_SIZE * i + 2])
  }

  /** The interrupt endpoints among the used entries from `i` on, which are set up on the controller. */
  function SetUpEntries(endpoints: seq<byte>, i: nat): seq<Entry>
    decreases |endpoints| - ENDPOINT_CONFIG_SIZE * i
  {
    if ENDPOINT_CONFIG_SIZE * (i + 1) > |endpoints| || endpoints[ENDPOINT_CONFIG_SIZE * i] == 0 then []
    else (if endpoints[ENDPOINT_CONFIG_SIZE * i + 1] == EP_TYPE_INTERRUPT then [EntryOf(endpoints, i)] else []) + SetUpEntries(endpoints, i + 1)
  }

  /** Only a RESET packet resets the firmware, and it does nothing else. */
  lemma ResetResets(fw: Fw, f: Frame)
    ensures f.kind == 3 ==> Isr(fw, f) == (fw.(health := HardReset), [])
    ensures f.kind != 3 && fw.health != HardReset ==> Isr(fw, f).0.health != HardReset
  {
  }
}
