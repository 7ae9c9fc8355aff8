/** The firmware's variables and the routines that change them in place. */
module Board {
  import opened Protocol
  import opened Wrappers
  import opened Proxy
  import opened Firmware
  import opened System
  import Runs
  import ControlRequest

  /** What the main program does with a control request. */
  datatype Handling = Refused | Aborted | GaveUp | Stalled | Answered(data: seq<byte>) | Acknowledged

  /** Those indexes lead to the OUT numbers of the list. */
  lemma {:induction false} OutIndexesLead(endpoints: seq<byte>, i: nat)
    ensures var (r, numbers) := (OutIndexes(endpoints, i), OutEndpoints(endpoints, i));
            && |r| == |numbers|
            && (forall k :: 0 <= k < |r| ==> ENDPOINT_CONFIG_SIZE * (r[k] + 1) <= |endpoints| && endpoints[ENDPOINT_CONFIG_SIZE * r[k]] == numbers[k])
    decreases |endpoints| - ENDPOINT_CONFIG_SIZE * i
  {
    if ENDPOINT_CONFIG_SIZE * (i + 1) <= |endpoints| && endpoints[ENDPOINT_CONFIG_SIZE * i] != 0 {
      OutIndexesLead(endpoints, i + 1);
    }
  }

  lemma ListLeads(list: seq<nat>, endpoints: seq<byte>, k: nat)
    requires k < |list|
    ensures list == OutIndexes(endpoints, 0) ==>
              && k < |OutEndpoints(endpoints, 0)| && ENDPOINT_CONFIG_SIZE * (list[k] + 1) <= |endpoints|
              && endpoints[ENDPOINT_CONFIG_SIZE * list[k]] == OutEndpoints(endpoints, 0)[k]
  {
    OutIndexesLead(endpoints, 0);
  }

  /** READ_VALUE and READ_VALUE_INC: the bytes go to consecutive cells from `at` on. */
  method ReadValue(target: array<byte>, at: nat, value: seq<byte>)
    requires at + |value| <= target.Length
    modifies target
    ensures target[..] == Overlay(old(target[..]), at, value)
  {
    ghost var before := target[..];
    for i := 0 to |value|
      invariant forall k :: 0 <= k < target.Length ==> target[k] == if at <= k < at + i then value[k - at] else before[k]
    {
      target[at + i] := value[i];
    }
    assert target[..] == Overlay(before, at, value);
  }

  class Emulator {
    const control: array<byte>
    const input: array<byte>
    var inputDataLen: byte
    const descriptors: array<byte>
    const descIndex: array<byte>
    const endpoints: array<byte>
    var pdesc: nat
    var pindex: nat
    const outEndpoints: array<nat>
    var selectedOutEndpoint: nat
    var outEndpointNumber: nat
    var started: bool
    var controlReply: bool
    var controlStall: bool
    var controlReplyLen: byte
    var hardReset: bool
    var overrun: bool            // a routine has reached past the end of a memory
    var transmitted: seq<byte>   // bytes given to the UART

    ghost predicate Valid()
      reads this
    {
      && control.Length == MAX_PACKET_VALUE_SIZE && input.Length == INPUT_SIZE
      && descriptors.Length == MAX_DESCRIPTORS_SIZE && descIndex.Length == MAX_DESCRIPTORS * INDEX_ENTRY_SIZE
      && endpoints.Length == MAX_ENDPOINTS * ENDPOINT_CONFIG_SIZE && outEndpoints.Length == MAX_ENDPOINTS
      && control != input && control != descriptors && control != descIndex && control != endpoints
      && input != descriptors && input != descIndex && input != endpoints
      && descriptors != descIndex && descriptors != endpoints && descIndex != endpoints
    }

    /** The variables, as the step model sees them when the main program is at `at`. */
    ghost function View(at: Position): Fw
      reads this, control, input, descriptors, descIndex, endpoints
    {
      Fw(Memory(Area(descriptors[..], pdesc), Area(descIndex[..], pindex), endpoints[..], started),
         InputSlot(input[..], inputDataLen),
         ReplyBox(control[..], controlReplyLen, controlReply, controlStall),
         at, if hardReset then HardReset else if overrun then Overrun else Running)
    }

    constructor ()
      ensures Valid() && View(Boot) == InitialFw() && transmitted == [] && outEndpointNumber == 0
    {
      control := new byte[MAX_PACKET_VALUE_SIZE](_ => 0);
      input := new byte[INPUT_SIZE](_ => 0);
      descriptors := new byte[MAX_DESCRIPTORS_SIZE](_ => 0);
      descIndex := new byte[MAX_DESCRIPTORS * INDEX_ENTRY_SIZE](_ => 0);
      endpoints := new byte[MAX_ENDPOINTS * ENDPOINT_CONFIG_SIZE](_ => 0);
      outEndpoints := new nat[MAX_ENDPOINTS](_ => 0);
      inputDataLen, pdesc, pindex, selectedOutEndpoint, outEndpointNumber := 0, 0, 0, 0, 0;
      started, controlReply, controlStall, controlReplyLen, hardReset, overrun := false, false, false, 0, false, false;
      transmitted := [];
    }

    method SendAck(kind: byte)
      modifies this`transmitted
      ensures transmitted == old(transmitted) + Encode(Ack(kind))
    {
      transmitted := transmitted + [kind];
      transmitted := transmitted + [0];
    }

    method ReceiveDescriptors(value: seq<byte>, ghost at: Position)
      requires Valid() && |value| <= MAX_PACKET_VALUE_SIZE && pdesc + |value| <= MAX_DESCRIPTORS_SIZE
      modifies this`pdesc, this`transmitted, descriptors
      ensures View(at) == Isr(old(View(at)), Frame(E_TYPE_DESCRIPTORS, value)).0
      ensures transmitted == old(transmitted) + Encode(Ack(E_TYPE_DESCRIPTORS))
    {
      ReadValue(descriptors, pdesc, value);
      pdesc := pdesc + |value|;
      SendAck(E_TYPE_DESCRIPTORS);
    }

    method ReceiveIndex(value: seq<byte>, ghost at: Position)
      requires Valid() && |value| <= MAX_PACKET_VALUE_SIZE && pindex + |value| <= MAX_DESCRIPTORS * INDEX_ENTRY_SIZE
      modifies this`pindex, this`transmitted, descIndex
      ensures View(at) == Isr(old(View(at)), Frame(E_TYPE_INDEX, value)).0
      ensures transmitted == old(transmitted) + Encode(Ack(E_TYPE_INDEX))
    {
      ReadValue(descIndex, pindex, value);
      pindex := pindex + |value|;
      SendAck(E_TYPE_INDEX);
    }

    method ReceiveEndpoints(value: seq<byte>, ghost at: Position)
      requires Valid() && |value| <= MAX_ENDPOINTS * ENDPOINT_CONFIG_SIZE
      modifies this`started, this`transmitted, endpoints
      ensures View(at) == Isr(old(View(at)), Frame(E_TYPE_ENDPOINTS, value)).0
      ensures transmitted == old(transmitted) + Encode(Ack(E_TYPE_ENDPOINTS))
    {
      ReadValue(endpoints, 0, value);
      SendAck(E_TYPE_ENDPOINTS);
      started := true;
    }

    method ReceiveControl(value: seq<byte>, ghost at: Position)
      requires Valid() && |value| <= MAX_PACKET_VALUE_SIZE
      modifies this`controlReply, this`controlReplyLen, control
      ensures View(at) == Isr(old(View(at)), Frame(E_TYPE_CONTROL, value)).0
    {
      controlReplyLen := |value|;
      ReadValue(control, 0, value);
      controlReply := true;
    }

    method ReceiveControlStall(value: seq<byte>, ghost at: Position)
      requires Valid() && |value| <= MAX_PACKET_VALUE_SIZE
      modifies this`controlReply, this`controlStall, control
      ensures View(at) == Isr(old(View(at)), Frame(E_TYPE_CONTROL_STALL, value)).0
    {
      ReadValue(control, 0, value);
      controlReply := true;
      controlStall := true;
    }

    method ReceiveInput(value: seq<byte>, ghost at: Position)
      requires Valid() && |value| <= INPUT_SIZE
      modifies this`inputDataLen, input
      ensures View(at) == Isr(old(View(at)), Frame(E_TYPE_IN, value)).0
    {
      inputDataLen := (|value| + 255) % 256;   // value_len - 1 in eight bits
      ReadValue(input, 0, value);
    }

    /** A packet for a memory of limited size is not longer than what is left of it. The source does not look. */
    predicate Room(kind: byte, length: nat)
      reads this
    {
      && (kind == E_TYPE_DESCRIPTORS ==> pdesc + length <= MAX_DESCRIPTORS_SIZE)
      && (kind == E_TYPE_INDEX ==> pindex + length <= MAX_DESCRIPTORS * INDEX_ENTRY_SIZE)
      && (kind == E_TYPE_ENDPOINTS ==> length <= MAX_ENDPOINTS * ENDPOINT_CONFIG_SIZE)
      && (kind == E_TYPE_IN ==> length <= INPUT_SIZE)
    }

    /** The serial interrupt, with the bytes it will find on the line; what it leaves there is returned. */
    method SerialInterrupt(line: seq<byte>, ghost at: Position) returns (rest: seq<byte>)
      requires Valid() && !hardReset && !overrun && |line| >= HEADER_SIZE
      requires line[0] <= E_TYPE_IN ==> HEADER_SIZE + line[1] <= |line| && line[1] <= MAX_PACKET_VALUE_SIZE
      modifies this`pdesc, this`pindex, this`started, this`controlReply, this`controlStall, this`controlReplyLen,
               this`inputDataLen, this`hardReset, this`overrun, this`transmitted, control, input, descriptors, descIndex, endpoints
      ensures line[0] > E_TYPE_IN ==> rest == line[HEADER_SIZE..] && View(at) == old(View(at)) && transmitted == old(transmitted)
      ensures line[0] <= E_TYPE_IN ==>
                var (fw, acks) := Isr(old(View(at)), Frame(line[0], line[HEADER_SIZE..HEADER_SIZE + line[1]]));
                && View(at) == fw && transmitted == old(transmitted) + EncodeAll(acks)
                && (line[0] != E_TYPE_RESET ==> rest == line[HEADER_SIZE + line[1]..])
                && (overrun <==> !old(Room(line[0], line[1])))
      ensures hardReset <==> line[0] == E_TYPE_RESET
    {
      var packetType, valueLen := line[0], line[1];
      rest := line[HEADER_SIZE..];
      if packetType > E_TYPE_IN {
        return;
      }
      var f := Frame(packetType, line[HEADER_SIZE..HEADER_SIZE + valueLen]);
      ghost var before := View(at);
      ReceivePacket(f, at);
      assert View(at) == Isr(before, f).0;
      rest := line[HEADER_SIZE + valueLen..];
    }

    /** The serial interrupt, from its jump table on; the model ends where a memory is overrun. */
    method ReceivePacket(f: Frame, ghost at: Position)
      requires Valid() && !hardReset && !overrun && f.kind <= E_TYPE_IN
      modifies this`pdesc, this`pindex, this`started, this`controlReply, this`controlStall, this`controlReplyLen,
               this`inputDataLen, this`hardReset, this`overrun, this`transmitted, control, input, descriptors, descIndex, endpoints
      ensures View(at) == Isr(old(View(at)), f).0 && transmitted == old(transmitted) + EncodeAll(Isr(old(View(at)), f).1)
      ensures (overrun <==> !old(Room(f.kind, |f.value|))) && (hardReset <==> f.kind == E_TYPE_RESET)
    {
      AckBytes(transmitted, f.kind);
      if !Room(f.kind, |f.value|) {
        overrun := true;
      } else if f.kind == E_TYPE_RESET {
        hardReset := true;
      } else if f.kind <= E_TYPE_ENDPOINTS {
        ReceiveStartUp(f.kind, f.value, at);
      } else {
        Receive(f, at);
      }
    }

    /** The serial interrupt for a start-up packet. */
    method ReceiveStartUp(kind: byte, value: seq<byte>, ghost at: Position)
      requires Valid() && kind <= E_TYPE_ENDPOINTS && |value| <= MAX_PACKET_VALUE_SIZE && Room(kind, |value|)
      modifies this`pdesc, this`pindex, this`started, this`transmitted, descriptors, descIndex, endpoints
      ensures View(at) == Isr(old(View(at)), Frame(kind, value)).0 && Isr(old(View(at)), Frame(kind, value)).1 == [Ack(kind)]
      ensures transmitted == old(transmitted) + Encode(Ack(kind))
    {
      if kind == E_TYPE_DESCRIPTORS {
        ReceiveDescriptors(value, at);
      } else if kind == E_TYPE_INDEX {
        ReceiveIndex(value, at);
      } else {
        ReceiveEndpoints(value, at);
      }
    }

    /** SendNextInput, when no interrupt touches `input`; `ready` is whether the IN endpoint can take a packet. */
    method SendNextInput(ready: bool, ghost at: Position) returns (report: Option<Report>)
      requires Valid() && !hardReset && !overrun
      modifies this`overrun, this`transmitted, input
      ensures Valid() && (overrun <==> ready && old(input[0]) != 0 && 1 + inputDataLen > INPUT_SIZE)
      ensures if ready && old(input[0]) != 0 && 1 + inputDataLen <= INPUT_SIZE then
                && report == Some(Report(old(input[0]), old(input[1..1 + inputDataLen])))
                && View(at) == Delivered(old(View(at))) && transmitted == old(transmitted) + Encode(Ack(E_TYPE_IN))
              else
                && report == None && transmitted == old(transmitted)
                && View(at) == old(View(at)).(health := if overrun then Overrun else Running)
    {
      report := None;
      if input[0] != 0 {
        var endpoint := input[0];
        if ready {
          var written: seq<byte> := [];
          for k := 0 to inputDataLen
            invariant k < INPUT_SIZE && written == input[1..1 + k] && !overrun
          {
            if k + 1 >= INPUT_SIZE {
              overrun := true;
              return;
            }
            written := written + [input[k + 1]];
          }
          report := Some(Report(endpoint, written));
          input[0] := 0;
          SendAck(E_TYPE_IN);
        }
      }
    }

    /** EVENT_USB_Device_ConfigurationChanged: `configured` is what is set up on the controller. The OUT list grows at every
        such event. */
    method ConfigurationChanged() returns (configured: seq<Entry>)
      requires Valid() && !overrun && outEndpointNumber <= MAX_ENDPOINTS
      modifies this`outEndpointNumber, this`overrun, outEndpoints
      ensures outEndpointNumber <= MAX_ENDPOINTS
      ensures overrun <==> old(outEndpointNumber) + |OutIndexes(endpoints[..], 0)| > MAX_ENDPOINTS
      ensures !overrun ==>
                && outEndpoints[..outEndpointNumber] == old(outEndpoints[..outEndpointNumber]) + OutIndexes(endpoints[..], 0)
                && configured == SetUpEntries(endpoints[..], 0)
    {
      ghost var list, before := endpoints[..], outEndpoints[..outEndpointNumber];
      configured := [];
      var i := 0;
      while i < MAX_ENDPOINTS && endpoints[ENDPOINT_CONFIG_SIZE * i] != 0
        invariant i <= MAX_ENDPOINTS && outEndpointNumber <= MAX_ENDPOINTS && !overrun
        invariant outEndpoints[..outEndpointNumber] + OutIndexes(list, i) == before + OutIndexes(list, 0)
        invariant configured + SetUpEntries(list, i) == SetUpEntries(list, 0)
      {
        ghost var outs, entries := outEndpoints[..outEndpointNumber], configured;
        NextEntries(list, i, outs, entries);
        if endpoints[ENDPOINT_CONFIG_SIZE * i + 1] == EP_TYPE_INTERRUPT {
          configured := configured + [Entry(endpoints[ENDPOINT_CONFIG_SIZE * i], endpoints[ENDPOINT_CONFIG_SIZE * i + 1],
                                            endpoints[ENDPOINT_CONFIG_SIZE * i + 2])];
        }
        if endpoints[ENDPOINT_CONFIG_SIZE * i] < 128 {
          if outEndpointNumber == MAX_ENDPOINTS {
            assert |outs + OutIndexes(list, i)| > MAX_ENDPOINTS;
            overrun := true;
            return;
          }
          outEndpoints[outEndpointNumber] := i;
          outEndpointNumber := outEndpointNumber + 1;
          assert outEndpoints[..outEndpointNumber] == outs + [i];
        }
        i := i + 1;
      }
      assert |outEndpoints[..outEndpointNumber]| == |before| + |OutIndexes(list, 0)|;
    }

    /** The OUT list holds indexes of entries. */
    ghost predicate OutsOk()
      reads this, outEndpoints
      requires Valid()
    {
      outEndpointNumber <= MAX_ENDPOINTS && forall k :: 0 <= k < outEndpointNumber ==> outEndpoints[k] < MAX_ENDPOINTS
    }

    /** The k-th entry of the OUT list. */
    ghost function OutAt(k: nat): nat
      reads this, outEndpoints, endpoints
      requires Valid() && OutsOk() && k < outEndpointNumber
    {
      outEndpoints[k]
    }

    /** The first part of ReceiveNextOutput: the entry of the next OUT endpoint in turn. As long as the list is that of one
        configuration event, the k-th turn is the k-th OUT endpoint's. */
    method SelectOutput() returns (k: nat)
      requires Valid() && OutsOk() && selectedOutEndpoint < outEndpointNumber
      modifies this`selectedOutEndpoint
      ensures k == OutAt(old(selectedOutEndpoint)) && selectedOutEndpoint == (old(selectedOutEndpoint) + 1) % outEndpointNumber
      ensures outEndpoints[..outEndpointNumber] == OutIndexes(endpoints[..], 0) ==>
                && old(selectedOutEndpoint) < |OutEndpoints(endpoints[..], 0)|
                && endpoints[ENDPOINT_CONFIG_SIZE * k] == OutEndpoints(endpoints[..], 0)[old(selectedOutEndpoint)]
    {
      ListLeads(outEndpoints[..outEndpointNumber], endpoints[..], selectedOutEndpoint);
      k := outEndpoints[selectedOutEndpoint];
      selectedOutEndpoint := selectedOutEndpoint + 1;
      if selectedOutEndpoint == outEndpointNumber {
        selectedOutEndpoint := 0;
      }
    }

    /** ReceiveNextOutput: the next OUT endpoint in turn is looked at; `bank` is what it has received, if anything, and `ready`
        whether its stream can be read. */
    method ReceiveNextOutput(bank: Option<seq<byte>>, ready: bool)
      requires Valid() && OutsOk() && (outEndpointNumber > 0 ==> selectedOutEndpoint < outEndpointNumber)
      requires bank.Some? ==> |bank.value| <= MAX_PAYLOAD_SIZE_EP
      modifies this`selectedOutEndpoint, this`transmitted
      ensures outEndpointNumber > 0 ==>
                var e := ENDPOINT_CONFIG_SIZE * OutAt(old(selectedOutEndpoint));
                var (number, size) := (endpoints[e], endpoints[e + 2]);
                && selectedOutEndpoint == (old(selectedOutEndpoint) + 1) % outEndpointNumber
                && (bank.Some? && ready && 1 <= |bank.value| <= size ==>
                      transmitted == old(transmitted) + Encode(Frame(E_TYPE_OUT, [number] + bank.value)))
                && (bank.Some? && ready && 1 <= size < |bank.value| ==>
                      transmitted == old(transmitted) + Encode(Frame(E_TYPE_OUT, [number] + bank.value[..size])))
                && (bank.None? || !ready || bank.value == [] || size == 0 ==> transmitted == old(transmitted))
      ensures outEndpointNumber == 0 ==> transmitted == old(transmitted) && selectedOutEndpoint == old(selectedOutEndpoint)
    {
      if outEndpointNumber > 0 {
        var k := SelectOutput();
        if bank.Some? {
          var length: byte := 0;
          if bank.value != [] {
            var complete, processed := ReadStream(bank.value, endpoints[ENDPOINT_CONFIG_SIZE * k + 2], ready);
            length := if complete then endpoints[ENDPOINT_CONFIG_SIZE * k + 2] else processed;
          }
          if length > 0 {
            assert bank.value[..|bank.value|] == bank.value;
            SendOutput(endpoints[ENDPOINT_CONFIG_SIZE * k], bank.value[..length]);
          }
        }
      }
    }

    /** Endpoint_Read_Stream_LE: byte by byte while the bank holds any, up to `size`; whether all of them were there, and the count
        it has left in BytesProcessed. */
    method ReadStream(bank: seq<byte>, size: byte, ready: bool) returns (complete: bool, processed: byte)
      requires |bank| <= MAX_PAYLOAD_SIZE_EP
      ensures complete <==> ready && size <= |bank|
      ensures processed == if ready && size > |bank| then |bank| else 0
    {
      if !ready {
        return false, 0;
      }
      var i: byte := 0;
      while i < size
        invariant i <= size && i <= |bank|
      {
        if i == |bank| {
          return false, i;
        }
        i := i + 1;
      }
      return true, 0;
    }

    /** The last part of ReceiveNextOutput: one packet with the endpoint and the data. */
    method SendOutput(number: byte, data: seq<byte>)
      requires |data| <= MAX_PAYLOAD_SIZE_EP
      modifies this`transmitted
      ensures transmitted == old(transmitted) + Encode(Frame(E_TYPE_OUT, [number] + data))
    {
      var packet := [E_TYPE_OUT, |data| + 1, number] + data;
      assert packet == [E_TYPE_OUT, |data| + 1] + ([number] + data);
      transmitted := transmitted + packet;
    }

    /** EVENT_USB_Device_UnhandledControlRequest: `streamed` is whether the data stage could be read, and `arrivals`
        are the packets that come in before the 50 ms are over. */
    method UnhandledControlRequest(r: ControlRequest.Request, streamed: bool, arrivals: seq<Frame>, ghost at: Position) returns (handling: Handling)
      requires Valid() && ControlRequest.Valid(r) && !hardReset && forall f :: f in arrivals ==> Late(f)
      modifies this`controlReply, this`controlStall, this`controlReplyLen, this`inputDataLen, this`transmitted, control, input
      ensures if ControlRequest.Length(r) > MAX_PACKET_VALUE_SIZE then
                handling == Refused && View(at) == old(View(at)) && transmitted == old(transmitted) + ControlRequest.Transmitted(r)
              else if !ControlRequest.ToHost(r) && !streamed then
                handling == Aborted && View(at) == Forgotten(old(View(at))) && transmitted == old(transmitted)
              else
                && View(at) == Wait(Forgotten(old(View(at))), arrivals) && handling == HandlingOf(View(at), ControlRequest.ToHost(r))
                && transmitted == old(transmitted) + ControlRequest.Transmitted(r)
      ensures handling == Refused ==> transmitted == old(transmitted) + ([E_TYPE_DEBUG, 8] + r.setup)
      ensures ControlRequest.Length(r) <= MAX_PACKET_VALUE_SIZE && (r.setup[0] >= 128 || streamed) ==>
                && (forall k: nat :: FirstReply(arrivals, k) ==>
                      handling == if arrivals[k].kind == E_TYPE_CONTROL_STALL then Stalled
                                  else if r.setup[0] >= 128 then Answered(arrivals[k].value)
                                  else Acknowledged)
                && ((forall f :: f in arrivals ==> f.kind == E_TYPE_IN) ==> handling == GaveUp)
    {
      if r.setup[6] as int + 256 * r.setup[7] as int > MAX_PACKET_VALUE_SIZE {
        SendDebug(r);
        return Refused;
      }
      controlReply := false;
      controlStall := false;
      var sent := SendRequest(r, streamed);
      if !sent {
        return Aborted;
      }
      handling := WaitAndAct(arrivals, ControlRequest.ToHost(r), at);
    }

    /** Its first part, after the guard: the request, with the data of the data stage, if that could be read. */
    method SendRequest(r: ControlRequest.Request, streamed: bool) returns (sent: bool)
      requires ControlRequest.Valid(r) && ControlRequest.Length(r) <= MAX_PACKET_VALUE_SIZE
      modifies this`transmitted
      ensures sent <==> ControlRequest.ToHost(r) || streamed
      ensures transmitted == if sent then old(transmitted) + ControlRequest.Transmitted(r) else old(transmitted)
    {
      ControlRequest.TransmittedIs(r, transmitted);
      if r.setup[0] >= USB_DIR_IN {
        SendControlHeader(r);
      } else {
        if !streamed {
          return false;
        }
        SendControlHeader(r);
        transmitted := transmitted + r.data;
      }
      return true;
    }

    /** Its second part: the wait, and what is done with the reply, if one has come. */
    method WaitAndAct(arrivals: seq<Frame>, toHost: bool, ghost at: Position) returns (handling: Handling)
      requires Valid() && !controlReply && !controlStall && forall f :: f in arrivals ==> Late(f)
      modifies this`controlReply, this`controlStall, this`controlReplyLen, this`inputDataLen, control, input
      ensures View(at) == Wait(old(View(at)), arrivals) && handling == HandlingOf(View(at), toHost)
      ensures forall k: nat :: FirstReply(arrivals, k) ==>
                handling == if arrivals[k].kind == E_TYPE_CONTROL_STALL then Stalled else if toHost then Answered(arrivals[k].value) else Acknowledged
      ensures (forall f :: f in arrivals ==> f.kind == E_TYPE_IN) ==> handling == GaveUp
    {
      ReplyIsHandled(View(at), arrivals, toHost);
      WaitForReply(arrivals, at);
      handling := Act(toHost, at);
    }

    /** The end of EVENT_USB_Device_UnhandledControlRequest. */
    method Act(toHost: bool, ghost at: Position) returns (handling: Handling)
      requires Valid()
      ensures handling == HandlingOf(View(at), toHost)
    {
      if !controlReply {
        return GaveUp;
      }
      if controlStall {
        return Stalled;
      }
      if toHost {
        return Answered(if controlReplyLen <= MAX_PACKET_VALUE_SIZE then control[..controlReplyLen] else []);
      } else {
        return Acknowledged;
      }
    }

    method SendDebug(r: ControlRequest.Request)
      requires ControlRequest.Valid(r)
      modifies this`transmitted
      ensures transmitted == old(transmitted) + ([E_TYPE_DEBUG, 8] + r.setup)
    {
      transmitted := transmitted + [E_TYPE_DEBUG];
      transmitted := transmitted + [|r.setup|];
      transmitted := transmitted + r.setup;
    }

    /** The loop that waits for controlReply or the end of the 50 ms. */
    method WaitForReply(arrivals: seq<Frame>, ghost at: Position)
      requires Valid() && forall f :: f in arrivals ==> Late(f)
      modifies this`controlReply, this`controlStall, this`controlReplyLen, this`inputDataLen, control, input
      ensures View(at) == Wait(old(View(at)), arrivals)
    {
      var i := 0;
      while !controlReply && i < |arrivals|
        invariant i <= |arrivals| && Wait(View(at), arrivals[i..]) == Wait(old(View(at)), arrivals)
      {
        assert arrivals[i] in arrivals && arrivals[i..][1..] == arrivals[i + 1..];
        Receive(arrivals[i], at);
        i := i + 1;
      }
    }

    /** The serial interrupt for a packet that may arrive after start-up. */
    method Receive(f: Frame, ghost at: Position)
      requires Valid() && Late(f)
      modifies this`controlReply, this`controlStall, this`controlReplyLen, this`inputDataLen, control, input
      ensures View(at) == Isr(old(View(at)), f).0 && Isr(old(View(at)), f).1 == []
    {
      if f.kind == E_TYPE_CONTROL {
        ReceiveControl(f.value, at);
      } else if f.kind == E_TYPE_CONTROL_STALL {
        ReceiveControlStall(f.value, at);
      } else {
        ReceiveInput(f.value, at);
      }
    }

    /** send_control_header */
    method SendControlHeader(r: ControlRequest.Request)
      requires ControlRequest.Valid(r)
      modifies this`transmitted
      ensures transmitted == old(transmitted) + ControlRequest.Header(r)
    {
      var len: byte := 8;
      if r.setup[0] < USB_DIR_IN {
        len := (len + r.setup[6] as int + 256 * r.setup[7] as int) % 256;
      }
      transmitted := transmitted + [E_TYPE_CONTROL];
      transmitted := transmitted + [len];
      transmitted := transmitted + r.setup;
    }
  }

  lemma Regroup<T>(a: seq<T>, x: T, b: seq<T>)
    ensures a + ([x] + b) == a + [x] + b && a + ([] + b) == a + b
  {
    assert [] + b == b;
  }

  lemma NextEntries(list: seq<byte>, i: nat, outs: seq<nat>, entries: seq<Entry>)
    requires ENDPOINT_CONFIG_SIZE * (i + 1) <= |list| && list[ENDPOINT_CONFIG_SIZE * i] != 0
    ensures outs + OutIndexes(list, i) == (if list[ENDPOINT_CONFIG_SIZE * i] < 128 then outs + [i] else outs) + OutIndexes(list, i + 1)
    ensures entries + SetUpEntries(list, i)
         == (if list[ENDPOINT_CONFIG_SIZE * i + 1] == EP_TYPE_INTERRUPT then entries + [EntryOf(list, i)] else entries) + SetUpEntries(list, i + 1)
  {
    Regroup(outs, i, OutIndexes(list, i + 1));
    Regroup(entries, EntryOf(list, i), SetUpEntries(list, i + 1));
  }

  lemma AckBytes(transmitted: seq<byte>, kind: byte)
    ensures EncodeAll([Ack(kind)]) == Encode(Ack(kind)) && transmitted + EncodeAll([]) == transmitted
  {
    EncodeAllSnoc([], Ack(kind));
    assert [] + [Ack(kind)] == [Ack(kind)] && EncodeAll([]) + Encode(Ack(kind)) == Encode(Ack(kind));
  }

  // ----- the control request as a whole -----

  function Forgotten(fw: Fw): Fw { fw.(box := fw.box.(controlReply := false, controlStall := false)) }

  /** The interrupts of the packets that arrive while the main program waits for controlReply. */
  function Wait(fw: Fw, arrivals: seq<Frame>): Fw
    decreases |arrivals|
  {
    if fw.box.controlReply || arrivals == [] then fw else Wait(Isr(fw, arrivals[0]).0, arrivals[1..])
  }

  /** The first reply among the packets that arrive is the k-th one. */
  ghost predicate FirstReply(arrivals: seq<Frame>, k: nat) {
    && k < |arrivals| && (arrivals[k].kind == E_TYPE_CONTROL || arrivals[k].kind == E_TYPE_CONTROL_STALL)
    && forall j :: 0 <= j < k ==> arrivals[j].kind == E_TYPE_IN
  }

  /** What a reply makes of the request. */
  function HandlingOfReply(f: Frame, toHost: bool): Handling {
    if f.kind == E_TYPE_CONTROL_STALL then Stalled else if toHost then Answered(f.value) else Acknowledged
  }

  lemma InputLeavesBox(fw: Fw, f: Frame)
    requires f.kind == E_TYPE_IN
    ensures Isr(fw, f).0.box == fw.box
  {
  }

  lemma ReplyInBox(fw: Fw, f: Frame, toHost: bool)
    requires (f.kind == E_TYPE_CONTROL || f.kind == E_TYPE_CONTROL_STALL) && |fw.box.control| == MAX_PACKET_VALUE_SIZE && !fw.box.controlStall
    ensures Isr(fw, f).0.box.controlReply && HandlingOf(Isr(fw, f).0, toHost) == HandlingOfReply(f, toHost)
  {
    assert Overlay(fw.box.control, 0, f.value)[..|f.value|] == f.value;
  }

  /** The wait ends with the first reply, and the buffer holds it. */
  lemma {:induction false} WaitFinds(fw: Fw, arrivals: seq<Frame>, k: nat)
    requires FirstReply(arrivals, k) && |fw.box.control| == MAX_PACKET_VALUE_SIZE && !fw.box.controlReply && !fw.box.controlStall
    ensures forall toHost :: HandlingOf(Wait(fw, arrivals), toHost) == HandlingOfReply(arrivals[k], toHost)
    decreases k
  {
    if k == 0 {
      forall toHost ensures HandlingOf(Wait(fw, arrivals), toHost) == HandlingOfReply(arrivals[0], toHost) {
        ReplyInBox(fw, arrivals[0], toHost);
      }
    } else {
      assert arrivals[0].kind == E_TYPE_IN;
      InputLeavesBox(fw, arrivals[0]);
      WaitFinds(Isr(fw, arrivals[0]).0, arrivals[1..], k - 1);
    }
  }

  /** Without a reply the wait ends with none. */
  lemma {:induction false} WaitEnds(fw: Fw, arrivals: seq<Frame>)
    requires !fw.box.controlReply && forall f :: f in arrivals ==> f.kind == E_TYPE_IN
    ensures !Wait(fw, arrivals).box.controlReply
    decreases |arrivals|
  {
    if arrivals != [] {
      assert arrivals[0] in arrivals;
      InputLeavesBox(fw, arrivals[0]);
      WaitEnds(Isr(fw, arrivals[0]).0, arrivals[1..]);
    }
  }

  /** The first reply decides, and without one the request is given up. */
  lemma ReplyIsHandled(fw: Fw, arrivals: seq<Frame>, toHost: bool)
    requires |fw.box.control| == MAX_PACKET_VALUE_SIZE && !fw.box.controlReply && !fw.box.controlStall
    ensures forall k: nat :: FirstReply(arrivals, k) ==>
              HandlingOf(Wait(fw, arrivals), toHost)
              == if arrivals[k].kind == E_TYPE_CONTROL_STALL then Stalled else if toHost then Answered(arrivals[k].value) else Acknowledged
    ensures (forall f :: f in arrivals ==> f.kind == E_TYPE_IN) ==> HandlingOf(Wait(fw, arrivals), toHost) == GaveUp
  {
    forall k: nat | FirstReply(arrivals, k) ensures HandlingOf(Wait(fw, arrivals), toHost) == HandlingOfReply(arrivals[k], toHost) {
      WaitFinds(fw, arrivals, k);
    }
    if forall f :: f in arrivals ==> f.kind == E_TYPE_IN {
      WaitEnds(fw, arrivals);
    }
  }

  function Interrupts(n: nat): seq<Step> { if n == 0 then [] else [Interrupt] + Interrupts(n - 1) }

  lemma LateIsQuiet(fw: Fw, f: Frame)
    requires Late(f)
    ensures Isr(fw, f).1 == [] && Isr(fw, f).0.at == fw.at
  {
  }

  /** The wait is a run of the interrupt, one step for each packet up to the first reply, or for all of them, while the main
      program stays where it waits. */
  lemma {:induction false} WaitIsARun(c: Config, s: Sys, arrivals: seq<Frame>, later: seq<Frame>) returns (n: nat, t: Sys)
    requires s.fw.at.ControlWait? && s.toFw == arrivals + later && forall f :: f in arrivals ==> Late(f)
    ensures n <= |arrivals| && RunSteps(c, s, Interrupts(n)) == Some(t)
    ensures t.fw == Wait(s.fw, arrivals) && t.fw.at.ControlWait? && t.toFw == arrivals[n..] + later && t.toPc == s.toPc && t.h == s.h
    ensures !s.fw.box.controlReply && (forall f :: f in arrivals ==> f.kind == E_TYPE_IN) ==> n == |arrivals|
    decreases |arrivals|
  {
    if s.fw.box.controlReply || arrivals == [] {
      n, t := 0, s;
      assert arrivals[0..] == arrivals;
    } else {
      var f, s' := arrivals[0], Do(c, s, Interrupt);
      assert f in arrivals && s.toFw[0] == f && s.toFw[1..] == arrivals[1..] + later;
      LateIsQuiet(s.fw, f);
      assert s.toPc + [] == s.toPc;
      if f.kind == E_TYPE_IN {
        InputLeavesBox(s.fw, f);
      }
      var m: nat;
      m, t := WaitIsARun(c, s', arrivals[1..], later);
      n := m + 1;
      assert arrivals[n..] == arrivals[1..][m..];
      Runs.StepThen(c, s, Interrupt, Interrupts(m), t);
    }
  }

  function HandlingOf(fw: Fw, toHost: bool): Handling {
    if !fw.box.controlReply then GaveUp
    else if fw.box.controlStall then Stalled
    else if toHost then Answered(Read(fw.box, 0).data)
    else Acknowledged
  }

  /** A packet that may arrive after start-up. */
  predicate Late(f: Frame) {
    f.kind == E_TYPE_CONTROL || f.kind == E_TYPE_CONTROL_STALL || (f.kind == E_TYPE_IN && |f.value| <= INPUT_SIZE)
  }

  /** `input` is free again. */
  function Delivered(fw: Fw): Fw {
    fw.(slot := fw.slot.(input := if fw.slot.input == [] then [] else fw.slot.input[0 := 0]))
  }

  // ----- SendNextInput as steps -----

  /** The main program writes the rest of the report. */
  function Writing(n: nat): seq<Step> { if n == 0 then [] else [WriteByte] + Writing(n - 1) }

  function AtWriting(s: Sys, k: nat): Sys
    requires |s.fw.slot.input| == INPUT_SIZE && 1 + k <= INPUT_SIZE
  {
    s.(fw := s.fw.(at := InWriting(s.fw.slot.input[0], s.fw.slot.inputDataLen, s.fw.slot.input[1..1 + k])))
  }

  lemma {:induction false} WritesAll(c: Config, s: Sys, k: nat)
    requires |s.fw.slot.input| == INPUT_SIZE && k <= s.fw.slot.inputDataLen <= MAX_PAYLOAD_SIZE_EP
    ensures RunSteps(c, AtWriting(s, k), Writing(s.fw.slot.inputDataLen - k)) == Some(AtWriting(s, s.fw.slot.inputDataLen))
    decreases s.fw.slot.inputDataLen - k
  {
    if k < s.fw.slot.inputDataLen {
      var before, steps := AtWriting(s, k), Writing(s.fw.slot.inputDataLen - k);
      assert s.fw.slot.input[1..1 + k] + [s.fw.slot.input[1 + k]] == s.fw.slot.input[1..1 + (k + 1)];
      assert Enabled(before, WriteByte) && Do(c, before, WriteByte) == AtWriting(s, k + 1);
      assert steps[0] == WriteByte && steps[1..] == Writing(s.fw.slot.inputDataLen - (k + 1));
      WritesAll(c, s, k + 1);
    }
  }

  function InputSteps(n: nat): seq<Step> {
    [TestInput, SelectInput, InReady] + (Writing(n) + [ClearIn, FreeInput, AckInput])
  }

  function AfterInput(s: Sys, endpoint: byte, data: seq<byte>): Sys {
    s.(fw := Delivered(s.fw), toPc := s.toPc + [Ack(E_TYPE_IN)], past := s.past.(reports := s.past.reports + [Report(endpoint, data)]))
  }

  lemma StartsWriting(c: Config, s: Sys)
    requires s.fw.at.Idle? && |s.fw.slot.input| == INPUT_SIZE && s.fw.slot.input[0] != 0
    ensures RunSteps(c, s, [TestInput, SelectInput, InReady]) == Some(AtWriting(s, 0))
  {
    var s1 := Do(c, s, TestInput);
    var s2 := Do(c, s1, SelectInput);
    var s3 := Do(c, s2, InReady);
    assert s.fw.slot.input[1..1] == [];
    assert s3 == AtWriting(s, 0);
    assert RunSteps(c, s2, [InReady]) == Some(s3);
    assert [SelectInput, InReady][1..] == [InReady] && [TestInput, SelectInput, InReady][1..] == [SelectInput, InReady];
    assert RunSteps(c, s1, [SelectInput, InReady]) == Some(s3);
  }

  lemma EndsWriting(c: Config, s: Sys)
    requires s.fw.at.Idle? && |s.fw.slot.input| == INPUT_SIZE && s.fw.slot.inputDataLen <= MAX_PAYLOAD_SIZE_EP
    ensures RunSteps(c, AtWriting(s, s.fw.slot.inputDataLen), [ClearIn, FreeInput, AckInput])
         == Some(AfterInput(s, s.fw.slot.input[0], s.fw.slot.input[1..1 + s.fw.slot.inputDataLen]))
  {
    var s1 := Do(c, AtWriting(s, s.fw.slot.inputDataLen), ClearIn);
    var s2 := Do(c, s1, FreeInput);
    var s3 := Do(c, s2, AckInput);
    assert s3 == AfterInput(s, s.fw.slot.input[0], s.fw.slot.input[1..1 + s.fw.slot.inputDataLen]);
    assert RunSteps(c, s2, [AckInput]) == Some(s3);
    assert [FreeInput, AckInput][1..] == [AckInput] && [ClearIn, FreeInput, AckInput][1..] == [FreeInput, AckInput];
    assert RunSteps(c, s1, [FreeInput, AckInput]) == Some(s3);
  }

  /** SendNextInput, run without interruption, is what the step model says: the same report, the same variables
      afterwards, and one acknowledgement. */
  lemma SendNextInputIsARun(c: Config, s: Sys)
    requires s.fw.at.Idle? && |s.fw.slot.input| == INPUT_SIZE && s.fw.slot.input[0] != 0 && s.fw.slot.inputDataLen <= MAX_PAYLOAD_SIZE_EP
    ensures RunSteps(c, s, InputSteps(s.fw.slot.inputDataLen))
         == Some(AfterInput(s, s.fw.slot.input[0], s.fw.slot.input[1..1 + s.fw.slot.inputDataLen]))
  {
    var n := s.fw.slot.inputDataLen;
    StartsWriting(c, s);
    WritesAll(c, s, 0);
    EndsWriting(c, s);
    Runs.RunStepsConcat(c, s, [TestInput, SelectInput, InReady], Writing(n) + [ClearIn, FreeInput, AckInput]);
    Runs.RunStepsConcat(c, AtWriting(s, 0), Writing(n), [ClearIn, FreeInput, AckInput]);
  }

  /** The steps up to the point where the main program waits for the reply. */
  function RequestSteps(request: seq<byte>): seq<Step> { [StartControl(request), ForgetStall, SendControl] }

  function AfterRequest(s: Sys, request: seq<byte>): Sys {
    s.(fw := Forgotten(s.fw).(at := ControlWait), toPc := s.toPc + (if |request| <= MAX_PACKET_VALUE_SIZE then [Frame(E_TYPE_CONTROL, request)] else []),
       past := s.past.(requests := s.past.requests + 1, asked := s.past.asked + [request]))
  }

  lemma RequestStepsRun(c: Config, s: Sys, request: seq<byte>)
    requires s.fw.at.Idle? && RequestOk(request)
    ensures RunSteps(c, s, RequestSteps(request)) == Some(AfterRequest(s, request))
  {
    var s1 := Do(c, s, StartControl(request));
    var s2 := Do(c, s1, ForgetStall);
    var s3 := Do(c, s2, SendControl);
    assert s3 == AfterRequest(s, request);
    assert RunSteps(c, s2, [SendControl]) == Some(s3);
    assert [ForgetStall, SendControl][1..] == [SendControl] && RequestSteps(request)[1..] == [ForgetStall, SendControl];
    assert RunSteps(c, s1, [ForgetStall, SendControl]) == Some(s3);
  }

  /** For a request within the limit, the steps of the model put on the line exactly the bytes that the routine transmits,
      and leave the variables as the routine leaves them when it starts to wait. */
  lemma ControlRequestIsARun(c: Config, s: Sys, r: ControlRequest.Request)
    requires s.fw.at.Idle? && ControlRequest.Valid(r) && !ControlRequest.TooLong(r) && ControlRequest.Length(r) <= MAX_PACKET_VALUE_SIZE
    ensures RunSteps(c, s, RequestSteps(r.setup + r.data)) == Some(AfterRequest(s, r.setup + r.data))
    ensures EncodeAll(AfterRequest(s, r.setup + r.data).toPc) == EncodeAll(s.toPc) + ControlRequest.Transmitted(r)
  {
    ControlRequest.TransmitsFrame(r);
    RequestStepsRun(c, s, r.setup + r.data);
    EncodeAllSnoc(s.toPc, Frame(E_TYPE_CONTROL, r.setup + r.data));
  }

  /** The packet that ReceiveNextOutput transmits for the k-th OUT endpoint is that of a step of the model, which any data of up to
      64 bytes may take. */
  lemma ReceiveNextOutputIsAStep(c: Config, s: Sys, k: nat, data: seq<byte>)
    requires s.fw.at.Idle? && k < |OutEndpoints(s.fw.mem.endpoints, 0)| && 1 <= |data| <= MAX_PAYLOAD_SIZE_EP
    ensures var number := OutEndpoints(s.fw.mem.endpoints, 0)[k];
            && Enabled(s, SendOut(number, data))
            && EncodeAll(Do(c, s, SendOut(number, data)).toPc) == EncodeAll(s.toPc) + Encode(Frame(E_TYPE_OUT, [number] + data))
            && Do(c, s, SendOut(number, data)).past.outSent == s.past.outSent + [[number] + data]
  {
    var number := OutEndpoints(s.fw.mem.endpoints, 0)[k];
    EncodeAllSnoc(s.toPc, Frame(E_TYPE_OUT, [number] + data));
  }

  /** When a reply has come, the routine acts on exactly the reply that the model consumes. */
  lemma ReplyIsConsumed(c: Config, s: Sys, toHost: bool)
    requires s.fw.at.ControlWait? && s.fw.box.controlReply
    ensures var r := Read(s.fw.box, s.past.requests);
            && RunSteps(c, s, [SeeReply, ActOnReply]) == Some(s.(fw := s.fw.(at := Idle), past := s.past.(consumed := s.past.consumed + [r])))
            && HandlingOf(s.fw, toHost) == (if r.stall then Stalled else if toHost then Answered(r.data) else Acknowledged)
  {
    var s1 := Do(c, s, SeeReply);
    var s2 := Do(c, s1, ActOnReply);
    assert RunSteps(c, s1, [ActOnReply]) == Some(s2);
    assert [SeeReply, ActOnReply][1..] == [ActOnReply];
  }
}
