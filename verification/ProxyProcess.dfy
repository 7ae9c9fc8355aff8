/** The PC proxy's variables and the callbacks that change them in place. */
module ProxyProcess {
  import opened Protocol
  import opened Adapter
  import opened Proxy

  class PcProxy {
    const config: Config          // what start-up leaves fixed
    var descIndexSent: bool
    var endpointsSent: bool
    var inPending: byte
    const inEpFifo: array<byte>
    var nbInEpFifo: nat
    const inPackets: array<seq<byte>>   // the first `length` bytes of each packet
    var done: bool

    // what the outside has been asked to do
    var sent: seq<Frame>                // packets given to adapter_send
    var polled: seq<byte>               // endpoints given to gusb_poll; libusb takes one out when its transfer ends
    var pollRuns: nat
    var control: Control
    var outs: seq<OutWrite>

    ghost predicate Valid()
      reads this
    {
      inEpFifo.Length == MAX_ENDPOINTS && inPackets.Length == ENDPOINT_MAX_NUMBER && nbInEpFifo <= MAX_ENDPOINTS
    }

    ghost function FlowView(): Flow
      reads this, inEpFifo, inPackets
      requires Valid()
    {
      Flow(inPending, inEpFifo[..nbInEpFifo], inPackets[..], multiset(polled))
    }

    ghost function View(): Host
      reads this, inEpFifo, inPackets
      requires Valid()
    {
      Host(StartUp(descIndexSent, endpointsSent, pollRuns), FlowView(), control, outs, done)
    }

    constructor (config: Config)
      ensures Valid() && this.config == config && View() == InitialHost() && sent == []
      ensures fresh(inEpFifo) && fresh(inPackets)
    {
      this.config := config;
      descIndexSent, endpointsSent, inPending, nbInEpFifo, done := false, false, 0, 0, false;
      inEpFifo := new byte[MAX_ENDPOINTS](_ => 0);
      inPackets := new seq<byte>[ENDPOINT_MAX_NUMBER](_ => []);
      sent, polled, pollRuns, control, outs := [], [], 0, Control(0, [], []), [];
    }

    // ----- calls to the outside -----

    /** adapter_send; `accepted` is how many packets the serial line takes before a write fails. */
    method AdapterSend(kind: byte, data: seq<byte>, accepted: nat) returns (ret: int)
      modifies this`sent
      ensures if accepted < |Split(kind, data)| then ret == -1 && sent == old(sent) + Split(kind, data)[..accepted]
              else ret == 0 && sent == old(sent) + Split(kind, data)
    {
      var packets := Split(kind, data);
      if accepted < |packets| {
        sent := sent + packets[..accepted];
        return -1;
      }
      sent := sent + packets;
      return 0;
    }

    /** gusb_poll; `accepted` is whether the transfer can be submitted. */
    method GusbPoll(endpoint: byte, accepted: bool) returns (ret: int)
      modifies this`polled
      ensures if accepted then ret == 0 && polled == old(polled) + [endpoint] else ret == -1 && polled == old(polled)
    {
      if !accepted {
        return -1;
      }
      polled := polled + [endpoint];
      return 0;
    }

    // ----- interrupt IN flow control -----

    /** memmove of the queue by one place to the left. */
    method DropFirst()
      requires Valid() && nbInEpFifo > 0
      modifies this`nbInEpFifo, inEpFifo
      ensures Valid() && inEpFifo[..nbInEpFifo] == old(inEpFifo[1..nbInEpFifo])
    {
      ghost var before := inEpFifo[..];
      var n := nbInEpFifo - 1;
      for i := 0 to n
        invariant forall k :: 0 <= k < MAX_ENDPOINTS ==> inEpFifo[k] == before[if k < i then k + 1 else k]
      {
        inEpFifo[i] := inEpFifo[i + 1];
      }
      nbInEpFifo := n;
    }

    method SendNextInPacket(accepted: nat) returns (ret: int)
      requires Valid() && (nbInEpFifo > 0 ==> 1 <= Number(inEpFifo[0]) <= ENDPOINT_MAX_NUMBER)
      modifies this`inPending, this`nbInEpFifo, this`sent, inEpFifo
      ensures Valid()
      ensures var (w, frames) := Proxy.SendNextInPacket(old(FlowView()));
              if accepted < |frames| then ret == -1 && FlowView() == old(FlowView()) && sent == old(sent) + frames[..accepted]
              else ret == 0 && FlowView() == w && sent == old(sent) + frames
    {
      if inPending != 0 {
        return 0;
      }
      if nbInEpFifo > 0 {
        var inPacketIndex := Number(inEpFifo[0]) - 1;
        ret := AdapterSend(E_TYPE_IN, inPackets[inPacketIndex], accepted);
        if ret < 0 {
          return -1;
        }
        inPending := inEpFifo[0];
        DropFirst();
      }
      return 0;
    }

    method QueueInPacket(endpoint: byte, buf: seq<byte>) returns (ret: int)
      requires Valid() && 1 <= Number(endpoint) <= ENDPOINT_MAX_NUMBER
      modifies this`nbInEpFifo, inEpFifo, inPackets
      ensures Valid()
      ensures ret == if CanQueue(old(FlowView()), endpoint) then 0 else -1
      ensures FlowView() == if ret == 0 then Proxy.QueueInPacket(config.u2s, old(FlowView()), endpoint, buf) else old(FlowView())
    {
      if nbInEpFifo == inEpFifo.Length {
        return -1;
      }
      var inPacketIndex := Number(endpoint) - 1;
      inPackets[inPacketIndex] := [Lookup(config.u2s, endpoint)] + buf;
      inEpFifo[nbInEpFifo] := endpoint;
      nbInEpFifo := nbInEpFifo + 1;
      return 0;
    }

    /** The queue names endpoints that have a slot. */
    ghost predicate Queueable()
      reads this, inEpFifo
      requires Valid()
    {
      forall i :: 0 <= i < nbInEpFifo ==> 1 <= Number(inEpFifo[i])
    }

    /** usb_read_callback for an IN endpoint other than 0. */
    method InTransferEnded(endpoint: byte, buf: seq<byte>, status: int, accepted: nat) returns (ret: int)
      requires Valid() && Queueable() && 1 <= Number(endpoint) && (status >= 0 ==> status == |buf|)
      modifies this`inPending, this`nbInEpFifo, this`sent, this`done, inEpFifo, inPackets
      ensures Valid()
      ensures var (h, frames) := InCompleted(config.u2s, old(View()), endpoint, CompletionOf(buf, status));
              if accepted < |frames| then
                && ret == -1 && sent == old(sent) + frames[..accepted] && CanQueue(old(FlowView()), endpoint)
                && View() == old(View()).(flow := Proxy.QueueInPacket(config.u2s, old(FlowView()), endpoint, buf), done := true)
              else
                && View() == h && sent == old(sent) + frames
                && (ret == if status == E_TRANSFER_ERROR || status > MAX_PAYLOAD_SIZE_EP || (status >= 0 && !CanQueue(old(FlowView()), endpoint)) then -1 else 0)
      ensures done <==> old(done) || (ret == -1 && status >= 0)
    {
      if status == E_TRANSFER_ERROR {
        return -1;
      }
      if status > MAX_PAYLOAD_SIZE_EP {
        done := true;
        return -1;
      }
      if status >= 0 {
        ret := QueueInPacket(endpoint, buf);
        if ret < 0 {
          done := true;
          return -1;
        }
        ret := SendNextInPacket(accepted);
        if ret < 0 {
          done := true;
          return -1;
        }
      }
      return 0;
    }

    /** usb_read_callback and usb_write_callback for endpoint 0: the i-th transfer under way has ended; its request has chosen
        the callback. A reply that cannot be sent ends the proxy in the second one only. */
    method ControlTransferEnded(i: nat, t: ControlTransfer, buf: seq<byte>, status: int, accepted: nat) returns (ret: int)
      requires Valid() && i < |control.transfers| && control.transfers[i] == t && status >= E_TRANSFER_ERROR && (status >= 0 ==> status == |buf|)
      modifies this`sent, this`done, this`control
      ensures Valid()
      ensures var (h, frames) := ControlCompleted(old(View()), i, CompletionOf(buf, status));
              if accepted < |frames| then
                && ret == -1 && sent == old(sent)
                && View() == old(View()).(control := h.control.(replies := old(control).replies), done := old(done) || !IsRead(t))
              else
                && View() == h && sent == old(sent) + frames
                && (ret == if status == E_TRANSFER_ERROR || (IsRead(t) && status > MAX_PACKET_VALUE_SIZE) then -1 else 0)
      ensures var read := t.value != [] && t.value[0] >= 128;
              && (accepted == 0 ==> sent == old(sent))
              && (accepted > 0 && status >= 0 ==>
                    sent == old(sent) + if !read then [Frame(E_TYPE_CONTROL, [])] else if status <= 254 then [Frame(E_TYPE_CONTROL, buf)] else [])
              && (accepted > 0 && status == -1 ==> sent == old(sent) + if read then [Frame(E_TYPE_CONTROL_STALL, [])] else [])
              && (accepted > 0 && status == -2 ==> sent == old(sent) + [Frame(E_TYPE_CONTROL_STALL, [])])
              && (status == -3 ==> sent == old(sent))
              && (done <==> old(done) || (read && status > 254) || (!read && ret == -1 && status != -3))
    {
      control := control.(transfers := control.transfers[..i] + control.transfers[i + 1..]);
      ret := 0;
      if IsRead(t) {
        if status == E_TRANSFER_ERROR {
          return -1;
        }
        if status > MAX_PACKET_VALUE_SIZE {
          done := true;
          return -1;
        }
        ret := Answer(if status >= 0 then Reply(t.id, false, buf) else Reply(t.id, true, []), accepted);
      } else {
        if status == E_TRANSFER_STALL {
          ret := Answer(Reply(t.id, true, []), accepted);
        } else if status == E_TRANSFER_ERROR {
          return -1;
        } else if status >= 0 {
          ret := Answer(Reply(t.id, false, []), accepted);
        }
        if ret < 0 {
          done := true;
        }
      }
    }

    /** A control reply, always one packet: a stall, or the data. */
    method Answer(r: Reply, accepted: nat) returns (ret: int)
      requires |r.data| <= MAX_PACKET_VALUE_SIZE
      modifies this`sent, this`control
      ensures if accepted == 0 then ret == -1 && control == old(control) && sent == old(sent)
              else ret == 0 && control == SendReply(old(control), r).0 && sent == old(sent) + ReplyFrames(r)
      ensures |ReplyFrames(r)| == 1
    {
      if r.stall {
        ret := AdapterSend(E_TYPE_CONTROL_STALL, [], accepted);
      } else {
        ret := AdapterSend(E_TYPE_CONTROL, r.data, accepted);
      }
      if ret < 0 {
        assert sent == old(sent) + [];
        return -1;
      }
      control := control.(replies := control.replies + [r]);
    }

    // ----- packets from the firmware -----

    method SendIndex(accepted: nat) returns (ret: int)
      modifies this`descIndexSent, this`sent
      ensures var frames := if old(descIndexSent) then [] else Split(E_TYPE_INDEX, config.index);
              descIndexSent && HandedOver(ret, old(sent), sent, frames, accepted)
    {
      if descIndexSent {
        return 0;
      }
      descIndexSent := true;
      ret := AdapterSend(E_TYPE_INDEX, config.index, accepted);
    }

    method SendEndpoints(accepted: nat) returns (ret: int)
      modifies this`endpointsSent, this`sent
      ensures var frames := if old(endpointsSent) then [] else Split(E_TYPE_ENDPOINTS, config.endpoints);
              endpointsSent && HandedOver(ret, old(sent), sent, frames, accepted)
    {
      if endpointsSent {
        return 0;
      }
      endpointsSent := true;
      ret := AdapterSend(E_TYPE_ENDPOINTS, config.endpoints, accepted);
    }

    /** poll_all_endpoints; `accepted` is how many transfers can be submitted before one fails, which ends the loop. */
    method PollAllEndpoints(accepted: nat) returns (ret: int)
      modifies this`polled, this`pollRuns
      ensures pollRuns == old(pollRuns) + 1 && HandedOver(ret, old(polled), polled, PollFrom(config.s2u, 0), accepted)
    {
      pollRuns := pollRuns + 1;
      var i, polls := 0, 0;
      ret := 0;
      ghost var all, before := PollFrom(config.s2u, 0), polled;
      assert all[..0] == [] && polled == before + [] && all[0..] == all;
      while i < ENDPOINT_MAX_NUMBER && ret >= 0
        invariant pollRuns == old(pollRuns) + 1
        invariant 0 <= i <= ENDPOINT_MAX_NUMBER && polls <= |all| && polls <= accepted && polled == before + all[..polls]
        invariant ret == 0 ==> all[polls..] == PollFrom(config.s2u, i)
        invariant ret != 0 ==> ret == -1 && polls == accepted < |all|
        decreases ENDPOINT_MAX_NUMBER - i, ret
      {
        var endpoint := Lookup(config.s2u, USB_DIR_IN + i);
        PollFromNext(config.s2u, i);
        if endpoint != 0 {
          PolledOneMore(all, polls, endpoint, PollFrom(config.s2u, i + 1), before);
          ret := GusbPoll(endpoint, polls < accepted);
          if ret >= 0 {
            polls := polls + 1;
          }
        }
        i := i + 1;
      }
      if ret == 0 {
        assert |all[polls..]| == 0;
        assert all[..polls] == all;
      }
    }

    /** send_out_packet; `accepted` is whether libusb takes the transfer. */
    method SendOutPacket(f: Frame, accepted: bool) returns (ret: int)
      requires f.value != []
      modifies this`outs
      ensures if accepted then ret == 0 && outs == old(outs) + [OutWrite(Lookup(config.s2u, f.value[0]), f.value[1..])]
              else ret == -1 && outs == old(outs)
    {
      if !accepted {
        return -1;
      }
      outs := outs + [OutWrite(Lookup(config.s2u, f.value[0]), f.value[1..])];
      return 0;
    }

    /** send_control_packet; a stall needs the serial line, any other request needs libusb. */
    method SendControlPacket(f: Frame, sends: nat, accepted: bool) returns (ret: int)
      modifies this`sent, this`control
      ensures var v := f.value;
              if |v| >= 8 && v[0] == 0x80 && v[1] == 6 && (v[2] as int + 256 * v[3] as int) / 256 == 6 then
                control.transfers == old(control).transfers && sent == old(sent) + if sends > 0 then [Frame(E_TYPE_CONTROL_STALL, [])] else []
              else
                && sent == old(sent)
                && control.transfers == old(control).transfers
                                        + if accepted then [ControlTransfer(old(control).seen + 1, TranslateSetup(config.s2u, v))] else []
      ensures var (k, frames) := Proxy.SendControlPacket(config.s2u, old(control), f.value);
              if (if frames == [] then accepted else sends > 0) then ret == 0 && control == k && sent == old(sent) + frames
              else ret == -1 && control == old(control).(seen := k.seen) && sent == old(sent)
    {
      control := control.(seen := control.seen + 1);
      var setup := f.value;
      if |setup| >= SETUP_SIZE && setup[0] % 32 == USB_RECIP_ENDPOINT {
        if setup[4] != 0 || setup[5] != 0 {
          setup := setup[..4] + [if setup[5] == 0 then Lookup(config.s2u, setup[4]) else 0, 0] + setup[6..];
        }
      }
      if |setup| >= SETUP_SIZE && setup[0] == USB_DIR_IN && setup[1] == USB_REQ_GET_DESCRIPTOR && setup[3] == USB_DT_DEVICE_QUALIFIER {
        ret := Answer(Reply(control.seen, true, []), sends);
        return;
      }
      if !accepted {
        return -1;
      }
      control := control.(transfers := control.transfers + [ControlTransfer(control.seen, setup)]);
      assert sent == old(sent) + [];
      return 0;
    }

    /** The acknowledgements of the first two transfers in process_packet. */
    method ProcessTransferAck(f: Frame, sends: nat) returns (ret: int)
      requires Valid() && (f.kind == E_TYPE_DESCRIPTORS || f.kind == E_TYPE_INDEX)
      modifies this`descIndexSent, this`endpointsSent, this`sent
      ensures var (h, frames) := Proxy.ProcessPacket(config, old(View()), f); View() == h && HandedOver(ret, old(sent), sent, frames, sends)
    {
      if f.kind == E_TYPE_DESCRIPTORS {
        ret := SendIndex(sends);
      } else {
        ret := SendEndpoints(sends);
      }
    }

    /** The acknowledgement of the endpoints in process_packet. */
    method ProcessEndpointsAck(f: Frame, polls: nat) returns (ret: int)
      requires Valid() && f.kind == E_TYPE_ENDPOINTS
      modifies this`polled, this`pollRuns
      ensures Proxy.ProcessPacket(config, old(View()), f).1 == [] && HandedOver(ret, old(polled), polled, PollFrom(config.s2u, 0), polls)
      ensures ret == 0 ==> View() == Proxy.ProcessPacket(config, old(View()), f).0
    {
      BagConcat(polled, PollFrom(config.s2u, 0));
      ret := PollAllEndpoints(polls);
    }

    /** The acknowledgement of an IN packet in process_packet: without a new poll, no packet is sent. */
    method ProcessIn(f: Frame, sends: nat, accepted: bool) returns (ret: int)
      requires Valid() && Queueable() && f.kind == E_TYPE_IN
      modifies this`inPending, this`nbInEpFifo, this`sent, this`polled, inEpFifo
      ensures Valid()
      ensures var (h, frames) := Proxy.ProcessPacket(config, old(View()), f);
              if old(inPending) == 0 then ret == 0 && View() == h && sent == old(sent)
              else if !accepted then ret == -1 && FlowView() == old(FlowView()).(inPending := 0) && sent == old(sent)
              else HandedOver(ret, old(sent), sent, frames, sends) && inPending == (if ret == 0 then h.flow.inPending else 0) && (ret == 0 ==> View() == h)
    {
      ghost var w := FlowView();
      ret := 0;
      if inPending > 0 {
        BagConcat(polled, [inPending]);
        ret := GusbPoll(inPending, accepted);
        inPending := 0;
        if ret != -1 {
          assert FlowView() == w.(polled := w.polled + multiset{w.inPending}, inPending := 0);
          ret := SendNextInPacket(sends);
        }
      }
    }

    /** OUT and control packets in process_packet. */
    method ProcessTraffic(f: Frame, sends: nat, accepted: bool) returns (ret: int)
      requires Valid() && (f.kind == E_TYPE_OUT || f.kind == E_TYPE_CONTROL)
      modifies this`sent, this`control, this`outs
      ensures var (h, frames) := Proxy.ProcessPacket(config, old(View()), f);
              if (if frames == [] then accepted && !(f.kind == E_TYPE_OUT && f.value == []) else sends > 0)
              then ret == 0 && View() == h && sent == old(sent) + frames
              else ret == -1 && sent == old(sent) && outs == old(outs) && View() == old(View()).(control := old(control).(seen := h.control.seen))
    {
      if f.kind == E_TYPE_CONTROL {
        ret := SendControlPacket(f, sends, accepted);
      } else if f.value == [] {
        ret := -1;
      } else {
        ret := SendOutPacket(f, accepted);
      }
    }

    /** process_packet, with what the serial line and libusb accept: `sends` packets, then `polls` polls, and a control or OUT
        transfer or not. Whatever fails ends the proxy. */
    method ProcessPacket(f: Frame, sends: nat, polls: nat, accepted: bool) returns (ret: int)
      requires Valid() && Queueable()
      modifies this`descIndexSent, this`endpointsSent, this`inPending, this`nbInEpFifo, this`done,
               this`sent, this`polled, this`pollRuns, this`control, this`outs, inEpFifo
      ensures Valid() && (ret == 0 || ret == -1)
      ensures var (h, frames) := Proxy.ProcessPacket(config, old(View()), f);
              && old(sent) <= sent <= old(sent) + frames
              && (ret == 0 ==> View() == h && sent == old(sent) + frames && done == old(done))
              && (ret == -1 <==> !Accepted(config, old(View()), f, sends, polls, accepted))
      ensures ret == -1 ==> done
    {
      if f.kind == E_TYPE_DESCRIPTORS || f.kind == E_TYPE_INDEX {
        ret := ProcessTransferAck(f, sends);
      } else if f.kind == E_TYPE_ENDPOINTS {
        ret := ProcessEndpointsAck(f, polls);
      } else if f.kind == E_TYPE_IN {
        ret := ProcessIn(f, sends, polls > 0);
      } else if f.kind == E_TYPE_OUT || f.kind == E_TYPE_CONTROL {
        ret := ProcessTraffic(f, sends, accepted);
      } else if f.kind == E_TYPE_RESET {
        ret := -1;
      } else {
        ret := 0;
      }
      if ret < 0 {
        done := true;
      }
    }
  }

  /** Of `wanted` things to hand over, `accepted` were taken before one failed. */
  ghost predicate HandedOver<T>(ret: int, before: seq<T>, after: seq<T>, wanted: seq<T>, accepted: nat) {
    if accepted < |wanted| then ret == -1 && after == before + wanted[..accepted] else ret == 0 && after == before + wanted
  }

  /** Everything that process_packet asks for on this packet is accepted, and the packet is one it can deal with. */
  ghost predicate Accepted(c: Config, h: Host, f: Frame, sends: nat, polls: nat, accepted: bool) {
    var frames := Proxy.ProcessPacket(c, h, f).1;
    && f.kind != E_TYPE_RESET && !(f.kind == E_TYPE_OUT && f.value == [])
    && |frames| <= sends
    && (f.kind == E_TYPE_ENDPOINTS ==> |PollFrom(c.s2u, 0)| <= polls)
    && (f.kind == E_TYPE_IN && h.flow.inPending != 0 ==> polls > 0)
    && (f.kind == E_TYPE_OUT || (f.kind == E_TYPE_CONTROL && frames == []) ==> accepted)
  }

  const E_TRANSFER_TIMED_OUT := -1
  const E_TRANSFER_STALL := -2
  const E_TRANSFER_ERROR := -3

  /** The end of a transfer, from the status the callbacks get. */
  function CompletionOf(buf: seq<byte>, status: int): Completion {
    if status >= 0 then Bytes(buf)
    else if status == E_TRANSFER_TIMED_OUT then TimedOut
    else if status == E_TRANSFER_STALL then Stall
    else Error
  }

  lemma PolledOneMore(all: seq<byte>, polls: nat, endpoint: byte, later: seq<byte>, before: seq<byte>)
    requires polls <= |all| && all[polls..] == [endpoint] + later
    ensures polls < |all| && all[polls + 1..] == later && before + all[..polls] + [endpoint] == before + all[..polls + 1]
  {
    assert all[polls] == all[polls..][0] && all[polls + 1..] == all[polls..][1..];
    assert all[..polls + 1] == all[..polls] + [endpoint];
  }

  lemma BagConcat(s: seq<byte>, t: seq<byte>)
    ensures multiset(s + t) == multiset(s) + multiset(t) && (|t| == 1 ==> multiset(t) == multiset{t[0]})
  {
    if |t| == 1 {
      assert t == [t[0]];
    }
  }
}
