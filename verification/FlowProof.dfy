/** Interrupt IN flow control: one token, no endpoint lost, and the reports come out as from a FIFO. */
module FlowProof {
  import opened Protocol
  import opened Adapter
  import opened Proxy
  import opened Firmware
  import opened System
  import opened Invariant
  import opened Lanes
  import opened Effects
  import opened StartUpProof
  import opened Wrappers

  // ----- the queue of reports on the PC -----

  lemma {:induction false} QueuedConcat(slots: seq<seq<byte>>, es: seq<byte>, fs: seq<byte>)
    ensures Queued(slots, es + fs) == Queued(slots, es) + Queued(slots, fs)
  {
    if es == [] {
      assert es + fs == fs;
    } else {
      QueuedConcat(slots, es[1..], fs);
      assert (es + fs)[1..] == es[1..] + fs && (es + fs)[0] == es[0];
      var first := [ToReport(SlotOf(slots, es[0]))];
      assert first + (Queued(slots, es[1..]) + Queued(slots, fs)) == first + Queued(slots, es[1..]) + Queued(slots, fs);
    }
  }

  /** Refilling the slot of an endpoint that is not queued leaves the queue as it is. */
  lemma {:induction false} QueuedOtherSlot(slots: seq<seq<byte>>, fifo: seq<byte>, e: byte, packet: seq<byte>)
    requires 1 <= Number(e) <= |slots|
    requires forall x :: x in fifo ==> Number(x) != Number(e)
    ensures Queued(slots[Number(e) - 1 := packet], fifo) == Queued(slots, fifo)
  {
    if fifo != [] {
      assert fifo[0] in fifo;
      QueuedOtherSlot(slots, fifo[1..], e, packet);
    }
  }

  lemma {:induction false} TranslatedConcat(u2s: seq<byte>, rs: seq<Report>, ts: seq<Report>)
    ensures Translated(u2s, rs + ts) == Translated(u2s, rs) + Translated(u2s, ts)
  {
    if rs == [] {
      assert rs + ts == ts;
    } else {
      TranslatedConcat(u2s, rs[1..], ts);
      assert (rs + ts)[1..] == rs[1..] + ts && (rs + ts)[0] == rs[0];
      var first := [Translate(u2s, rs[0])];
      assert first + (Translated(u2s, rs[1..]) + Translated(u2s, ts)) == first + Translated(u2s, rs[1..]) + Translated(u2s, ts);
    }
  }

  // ----- conservation -----

  ghost predicate InsOk(ins: set<byte>, u2s: seq<byte>) {
    && |ins| <= MAX_ENDPOINTS
    && forall e :: e in ins ==> USB_DIR_IN < e < USB_DIR_IN + 16 && Lookup(u2s, e) != 0
  }

  /** A polled endpoint is nowhere else, and there is room to queue it. */
  lemma PolledIsElsewhere(ins: set<byte>, pollRuns: nat, w: Flow, stalled: multiset<byte>, e: byte)
    requires ConservationInv(ins, pollRuns, w, stalled) && e in w.polled
    ensures e in ins && e !in w.fifo && |w.fifo| < |ins|
    ensures forall x :: x in w.fifo ==> x in ins
  {
    var all := multiset(ins);
    assert pollRuns == 1;
    assert w.polled[e] + multiset(w.fifo)[e] <= all[e] <= 1;
    assert multiset(w.fifo)[e] == 0;
    var rest := w.polled - multiset{e};
    assert w.polled == rest + multiset{e};
    assert |all| == |w.polled| + |multiset(w.fifo)| + |Pending(w.inPending)| + |stalled|;
    assert |all| == |ins|;
    forall x | x in w.fifo ensures x in ins {
      assert multiset(w.fifo)[x] >= 1;
      assert all[x] >= 1;
    }
  }

  lemma QueuedIsConfigured(ins: set<byte>, pollRuns: nat, w: Flow, stalled: multiset<byte>)
    requires ConservationInv(ins, pollRuns, w, stalled) && w.fifo != []
    ensures w.fifo[0] in ins
  {
    var e := w.fifo[0];
    assert e in w.fifo;
    assert multiset(w.fifo)[e] >= 1;
    assert (w.polled + multiset(w.fifo) + Pending(w.inPending) + stalled)[e] >= 1;
  }

  lemma ReturnKeepsConservation(ins: set<byte>, pollRuns: nat, w: Flow, stalled: multiset<byte>)
    requires ConservationInv(ins, pollRuns, w, stalled) && w.inPending != 0
    ensures ConservationInv(ins, pollRuns, w.(polled := w.polled + multiset{w.inPending}, inPending := 0), stalled)
  {
  }

  lemma PollGivesAll(ins: set<byte>, w: Flow, polls: seq<byte>, stalled: multiset<byte>)
    requires ConservationInv(ins, 0, w, stalled) && multiset(polls) == multiset(ins)
    ensures ConservationInv(ins, 1, w.(polled := w.polled + multiset(polls)), stalled)
  {
    var none := w.polled + multiset(w.fifo) + Pending(w.inPending) + stalled;
    assert none + multiset(polls) == multiset(ins);
  }

  // ----- queueing and sending -----

  lemma QueueKeepsConservation(u2s: seq<byte>, ins: set<byte>, pollRuns: nat, w: Flow, stalled: multiset<byte>, e: byte, data: seq<byte>)
    requires ConservationInv(ins, pollRuns, w, stalled) && e in w.polled
    requires |w.slots| == ENDPOINT_MAX_NUMBER && InsOk(ins, u2s)
    ensures var w0 := w.(polled := w.polled - multiset{e});
            CanQueue(w0, e) && ConservationInv(ins, pollRuns, QueueInPacket(u2s, w0, e, data), stalled)
  {
    PolledIsElsewhere(ins, pollRuns, w, stalled, e);
    MovesOver(w.polled, w.fifo, e, Pending(w.inPending) + stalled);
    MoveLast(w.polled - multiset{e}, multiset(w.fifo + [e]), Pending(w.inPending), stalled);
    MoveLast(w.polled, multiset(w.fifo), Pending(w.inPending), stalled);
  }

  lemma MoveLast<T>(a: multiset<T>, b: multiset<T>, c: multiset<T>, d: multiset<T>)
    ensures a + b + c + d == a + b + (c + d)
  {
  }

  /** An endpoint that leaves `polled` and joins the queue. */
  lemma MovesOver(polled: multiset<byte>, fifo: seq<byte>, e: byte, others: multiset<byte>)
    requires e in polled
    ensures polled - multiset{e} + multiset(fifo + [e]) + others == polled + multiset(fifo) + others
  {
    assert multiset(fifo + [e]) == multiset(fifo) + multiset{e};
  }

  lemma TranslatedSnoc(u2s: seq<byte>, rs: seq<Report>, r: Report)
    ensures Translated(u2s, rs + [r]) == Translated(u2s, rs) + [Translate(u2s, r)]
  {
    TranslatedConcat(u2s, rs, [r]);
    assert Translated(u2s, [r]) == [Translate(u2s, r)] + Translated(u2s, []);
  }

  lemma FifoRefilled(u2s: seq<byte>, w: Flow, w': Flow, r: Report, inFlight: seq<Report>, reports: seq<Report>, completed: seq<Report>)
    requires FifoInv(u2s, w, inFlight, reports, completed) && SlotsOk(w')
    requires Queued(w'.slots, w'.fifo) == Queued(w.slots, w.fifo) + [Translate(u2s, r)]
    ensures FifoInv(u2s, w', inFlight, reports, completed + [r])
  {
    TranslatedSnoc(u2s, completed, r);
    var queued, last := Queued(w.slots, w.fifo), [Translate(u2s, r)];
    assert reports + inFlight + (queued + last) == reports + inFlight + queued + last;
  }

  lemma QueueKeepsFifo(u2s: seq<byte>, ins: set<byte>, pollRuns: nat, w: Flow, stalled: multiset<byte>, e: byte, data: seq<byte>,
                       inFlight: seq<Report>, reports: seq<Report>, completed: seq<Report>)
    requires ConservationInv(ins, pollRuns, w, stalled) && e in w.polled
    requires |w.slots| == ENDPOINT_MAX_NUMBER && InsOk(ins, u2s) && |data| <= MAX_PAYLOAD_SIZE_EP
    requires FifoInv(u2s, w, inFlight, reports, completed)
    ensures var w0 := w.(polled := w.polled - multiset{e});
            CanQueue(w0, e) && FifoInv(u2s, QueueInPacket(u2s, w0, e, data), inFlight, reports, completed + [Report(e, data)])
  {
    PolledIsElsewhere(ins, pollRuns, w, stalled, e);
    var w' := QueueInPacket(u2s, w.(polled := w.polled - multiset{e}), e, data);
    SlotRefilled(u2s, w, w', e, data);
    FifoRefilled(u2s, w, w', Report(e, data), inFlight, reports, completed);
  }

  lemma SlotRefilled(u2s: seq<byte>, w: Flow, w': Flow, e: byte, data: seq<byte>)
    requires |w.slots| == ENDPOINT_MAX_NUMBER && SlotsOk(w) && USB_DIR_IN < e < USB_DIR_IN + 16
    requires forall x :: x in w.fifo ==> USB_DIR_IN < x < USB_DIR_IN + 16 && x != e
    requires Lookup(u2s, e) != 0 && |data| <= MAX_PAYLOAD_SIZE_EP
    requires w'.slots == w.slots[Number(e) - 1 := [Lookup(u2s, e)] + data] && w'.fifo == w.fifo + [e]
    ensures SlotsOk(w')
    ensures Queued(w'.slots, w'.fifo) == Queued(w.slots, w.fifo) + [Translate(u2s, Report(e, data))]
  {
    var packet := [Lookup(u2s, e)] + data;
    assert forall x :: x in w.fifo ==> Number(x) != Number(e);
    QueuedOtherSlot(w.slots, w.fifo, e, packet);
    QueuedConcat(w'.slots, w.fifo, [e]);
    assert SlotOf(w'.slots, e) == packet && ToReport(packet) == Translate(u2s, Report(e, data));
    assert Queued(w'.slots, [e]) == [ToReport(packet)] + Queued(w'.slots, []);
    forall x | x in w'.fifo ensures PacketOk(SlotOf(w'.slots, x)) {
      if x != e {
        assert x in w.fifo;
        assert SlotOf(w'.slots, x) == SlotOf(w.slots, x);
      }
    }
  }

  /** send_next_in_packet with no packet pending: the token and the first queued report go on the line. */
  lemma SendNextKeeps(u2s: seq<byte>, ins: set<byte>, pollRuns: nat, w: Flow, stalled: multiset<byte>, slot: InputSlot, at: Position,
                      reports: seq<Report>, completed: seq<Report>)
    requires ConservationInv(ins, pollRuns, w, stalled) && InsOk(ins, u2s) && w.inPending == 0
    requires TokenInv(slot, at, 0, [], [])
    requires FifoInv(u2s, w, [], reports, completed)
    ensures var (w', sent) := SendNextInPacket(w);
            var packets := ValuesOf(sent, E_TYPE_IN);
            && w'.slots == w.slots && Busy(w')
            && ConservationInv(ins, pollRuns, w', stalled)
            && TokenInv(slot, at, w'.inPending, packets, [])
            && FifoInv(u2s, w', InFlight(slot, at.InCleared?, packets), reports, completed)
  {
    if w.fifo == [] {
      assert InFlight(slot, at.InCleared?, []) == [];
    } else {
      var (w', sent) := SendNextInPacket(w);
      var e := w.fifo[0];
      QueuedIsConfigured(ins, pollRuns, w, stalled);
      assert e in w.fifo;
      var packet := SlotOf(w.slots, e);
      AppendSplit([], E_TYPE_IN, packet);
      assert [] + sent == sent;
      assert ValuesOf(sent, E_TYPE_IN) == [packet];
      assert w.fifo == [e] + w'.fifo;
      assert multiset(w.fifo) == multiset{e} + multiset(w'.fifo);
      assert Queued(w.slots, w.fifo) == [ToReport(packet)] + Queued(w.slots, w'.fifo);
      assert reports + [] + Queued(w.slots, w.fifo) == reports + [ToReport(packet)] + Queued(w.slots, w'.fifo);
    }
  }

  // ----- what the main program, the interrupt and the PC do to the token -----

  lemma WrittenIsInFlight(slot: InputSlot, at: Position, inPending: byte, packets: seq<seq<byte>>, acks: seq<seq<byte>>)
    requires TokenInv(slot, at, inPending, packets, acks) && at.InWriting? && |at.written| >= at.length
    ensures packets == [] && InFlight(slot, false, packets) == [Report(at.endpoint, at.written)] && InFlight(slot, true, packets) == []
    ensures TokenInv(slot, InCleared, inPending, packets, acks)
  {
  }

  lemma ReportDelivered(reports: seq<Report>, r: Report, queued: seq<Report>)
    ensures reports + [r] + queued == reports + [r] + [] + queued
  {
    assert reports + [r] + [] == reports + [r];
  }

  lemma ClearInParts(c: Config, slot: InputSlot, at: Position, w: Flow, pollRuns: nat, packets: seq<seq<byte>>, acks: seq<seq<byte>>,
                     stalled: multiset<byte>, reports: seq<Report>, completed: seq<Report>)
    requires FlowParts(c, slot, at, w, pollRuns, packets, acks, stalled, reports, completed)
    requires at.InWriting? && |at.written| >= at.length
    ensures FlowParts(c, slot, InCleared, w, pollRuns, packets, acks, stalled, reports + [Report(at.endpoint, at.written)], completed)
  {
    WrittenIsInFlight(slot, at, w.inPending, packets, acks);
    ReportDelivered(reports, Report(at.endpoint, at.written), Queued(w.slots, w.fifo));
  }

  lemma FreeParts(c: Config, slot: InputSlot, w: Flow, pollRuns: nat, packets: seq<seq<byte>>, acks: seq<seq<byte>>,
                  stalled: multiset<byte>, reports: seq<Report>, completed: seq<Report>)
    requires FlowParts(c, slot, InCleared, w, pollRuns, packets, acks, stalled, reports, completed)
    ensures FlowParts(c, slot.(input := slot.input[0 := 0]), InFreed, w, pollRuns, packets, acks, stalled, reports, completed)
  {
    assert packets == [];
    assert InFlight(slot, true, packets) == InFlight(slot.(input := slot.input[0 := 0]), false, packets);
  }

  lemma AckParts(c: Config, slot: InputSlot, w: Flow, pollRuns: nat, packets: seq<seq<byte>>, acks: seq<seq<byte>>,
                 stalled: multiset<byte>, reports: seq<Report>, completed: seq<Report>)
    requires FlowParts(c, slot, InFreed, w, pollRuns, packets, acks, stalled, reports, completed)
    ensures FlowParts(c, slot, Idle, w, pollRuns, packets, acks + [[]], stalled, reports, completed)
  {
    assert InFlight(slot, InFreed.InCleared?, packets) == InFlight(slot, Idle.InCleared?, packets);
  }

  /** The interrupt takes an IN packet: the slot is empty and no one is reading it. */
  lemma TakeParts(c: Config, slot: InputSlot, at: Position, w: Flow, pollRuns: nat, packets: seq<seq<byte>>, v: seq<byte>, rest: seq<seq<byte>>, acks: seq<seq<byte>>,
                  stalled: multiset<byte>, reports: seq<Report>, completed: seq<Report>)
    requires FlowParts(c, slot, at, w, pollRuns, packets, acks, stalled, reports, completed) && packets == [v] + rest
    ensures Fits(slot.input, 0, v) && slot.input[0] == 0
    ensures !at.InTested? && !at.InSelected? && !at.InWriting? && !at.InCleared? && !at.InFreed?
    ensures FlowParts(c, InputSlot(Overlay(slot.input, 0, v), (|v| - 1) % 256), at, w, pollRuns, rest, acks, stalled, reports, completed)
  {
    assert packets[0] == v && PacketOk(v);
    assert rest == [];
    var slot' := InputSlot(Overlay(slot.input, 0, v), (|v| - 1) % 256);
    assert slot'.input[..|v|] == v;
    assert slot'.input[1..|v|] == v[1..];
    assert InFlight(slot', at.InCleared?, []) == [ToReport(v)];
  }

  /** The PC takes the acknowledgement: the pending endpoint is polled again and nothing is under way. */
  lemma ReturnParts(c: Config, slot: InputSlot, at: Position, w: Flow, pollRuns: nat, packets: seq<seq<byte>>, x: seq<byte>, rest: seq<seq<byte>>,
                    stalled: multiset<byte>, reports: seq<Report>, completed: seq<Report>, w0: Flow)
    requires FlowParts(c, slot, at, w, pollRuns, packets, [x] + rest, stalled, reports, completed)
    requires w0 == w.(polled := w.polled + multiset{w.inPending}, inPending := 0)
    ensures packets == [] && rest == [] && w.inPending != 0
    ensures FlowParts(c, slot, at, w0, pollRuns, packets, rest, stalled, reports, completed)
  {
    assert packets == [] && rest == [];
    ReturnKeepsConservation(c.ins, pollRuns, w, stalled);
    assert TokenInv(slot, at, 0, packets, rest);
  }

  lemma NothingPending(slot: InputSlot, at: Position, packets: seq<seq<byte>>, acks: seq<seq<byte>>)
    requires TokenInv(slot, at, 0, packets, acks)
    ensures packets == [] && acks == [] && InFlight(slot, at.InCleared?, []) == []
  {
  }

  lemma SendParts(c: Config, slot: InputSlot, at: Position, w: Flow, pollRuns: nat, packets: seq<seq<byte>>, acks: seq<seq<byte>>,
                  stalled: multiset<byte>, reports: seq<Report>, completed: seq<Report>)
    requires ConfigOk(c)
    requires FlowParts(c, slot, at, w, pollRuns, packets, acks, stalled, reports, completed)
    ensures var (w', sent) := SendNextInPacket(w);
            Busy(w') && FlowParts(c, slot, at, w', pollRuns, packets + ValuesOf(sent, E_TYPE_IN), acks, stalled, reports, completed)
  {
    if w.inPending == 0 {
      SendsNow(c, slot, at, w, pollRuns, packets, acks, stalled, reports, completed);
    } else {
      assert packets + [] == packets;
    }
  }

  lemma SendsNow(c: Config, slot: InputSlot, at: Position, w: Flow, pollRuns: nat, packets: seq<seq<byte>>, acks: seq<seq<byte>>,
                 stalled: multiset<byte>, reports: seq<Report>, completed: seq<Report>)
    requires ConfigOk(c) && w.inPending == 0
    requires FlowParts(c, slot, at, w, pollRuns, packets, acks, stalled, reports, completed)
    ensures var (w', sent) := SendNextInPacket(w);
            Busy(w') && FlowParts(c, slot, at, w', pollRuns, packets + ValuesOf(sent, E_TYPE_IN), acks, stalled, reports, completed)
  {
    NothingPending(slot, at, packets, acks);
    SendNextKeeps(c.u2s, c.ins, pollRuns, w, stalled, slot, at, reports, completed);
    assert packets + ValuesOf(SendNextInPacket(w).1, E_TYPE_IN) == ValuesOf(SendNextInPacket(w).1, E_TYPE_IN);
  }

  /** An IN transfer ends well: there is room for its report in inEpFifo. */
  lemma RoomInFifo(c: Config, slot: InputSlot, at: Position, w: Flow, pollRuns: nat, packets: seq<seq<byte>>, acks: seq<seq<byte>>,
                   stalled: multiset<byte>, reports: seq<Report>, completed: seq<Report>, e: byte)
    requires ConfigOk(c)
    requires FlowParts(c, slot, at, w, pollRuns, packets, acks, stalled, reports, completed)
    requires e in w.polled
    ensures CanQueue(w.(polled := w.polled - multiset{e}), e)
  {
    QueueKeepsConservation(c.u2s, c.ins, pollRuns, w, stalled, e, []);
  }

  lemma FifoGrows(c: Config, slot: InputSlot, at: Position, w: Flow, pollRuns: nat, packets: seq<seq<byte>>, acks: seq<seq<byte>>,
                  stalled: multiset<byte>, reports: seq<Report>, completed: seq<Report>, e: byte, data: seq<byte>, w0: Flow, w1: Flow)
    requires ConfigOk(c)
    requires FlowParts(c, slot, at, w, pollRuns, packets, acks, stalled, reports, completed)
    requires e in w.polled && |data| <= MAX_PAYLOAD_SIZE_EP
    requires w0 == w.(polled := w.polled - multiset{e}) && CanQueue(w0, e) && w1 == QueueInPacket(c.u2s, w0, e, data)
    ensures FifoInv(c.u2s, w1, InFlight(slot, at.InCleared?, packets), reports, completed + [Report(e, data)])
  {
    QueueKeepsFifo(c.u2s, c.ins, pollRuns, w, stalled, e, data, InFlight(slot, at.InCleared?, packets), reports, completed);
  }

  /** Its report is queued behind all earlier ones. */
  lemma QueueParts(c: Config, slot: InputSlot, at: Position, w: Flow, pollRuns: nat, packets: seq<seq<byte>>, acks: seq<seq<byte>>,
                   stalled: multiset<byte>, reports: seq<Report>, completed: seq<Report>, e: byte, data: seq<byte>, w0: Flow, w1: Flow)
    requires ConfigOk(c)
    requires FlowParts(c, slot, at, w, pollRuns, packets, acks, stalled, reports, completed)
    requires e in w.polled && |data| <= MAX_PAYLOAD_SIZE_EP
    requires w0 == w.(polled := w.polled - multiset{e}) && CanQueue(w0, e) && w1 == QueueInPacket(c.u2s, w0, e, data)
    ensures FlowParts(c, slot, at, w1, pollRuns, packets, acks, stalled, reports, completed + [Report(e, data)])
  {
    FifoGrows(c, slot, at, w, pollRuns, packets, acks, stalled, reports, completed, e, data, w0, w1);
    QueueKeepsConservation(c.u2s, c.ins, pollRuns, w, stalled, e, data);
  }

  lemma FailParts(c: Config, slot: InputSlot, at: Position, w: Flow, pollRuns: nat, packets: seq<seq<byte>>, acks: seq<seq<byte>>,
                  stalled: multiset<byte>, reports: seq<Report>, completed: seq<Report>, e: byte)
    requires FlowParts(c, slot, at, w, pollRuns, packets, acks, stalled, reports, completed) && e in w.polled
    ensures FlowParts(c, slot, at, w.(polled := w.polled - multiset{e}), pollRuns, packets, acks, stalled + multiset{e}, reports, completed)
  {
    assert w.polled == w.polled - multiset{e} + multiset{e};
  }

  lemma PollParts(c: Config, slot: InputSlot, at: Position, w: Flow, packets: seq<seq<byte>>, acks: seq<seq<byte>>,
                  stalled: multiset<byte>, reports: seq<Report>, completed: seq<Report>)
    requires ConfigOk(c) && FlowParts(c, slot, at, w, 0, packets, acks, stalled, reports, completed)
    ensures FlowParts(c, slot, at, w.(polled := w.polled + multiset(PollFrom(c.s2u, 0))), 1, packets, acks, stalled, reports, completed)
  {
    PollGivesAll(c.ins, w, PollFrom(c.s2u, 0), stalled);
  }

  lemma MoveParts(c: Config, slot: InputSlot, at: Position, at': Position, w: Flow, pollRuns: nat, packets: seq<seq<byte>>, acks: seq<seq<byte>>,
                  stalled: multiset<byte>, reports: seq<Report>, completed: seq<Report>)
    requires FlowParts(c, slot, at, w, pollRuns, packets, acks, stalled, reports, completed)
    requires !at.InCleared? && !at.InFreed? && !at'.InCleared? && !at'.InFreed? && PositionOk(slot, at')
    ensures FlowParts(c, slot, at', w, pollRuns, packets, acks, stalled, reports, completed)
  {
    assert InFlight(slot, at.InCleared?, packets) == InFlight(slot, at'.InCleared?, packets);
  }

  // ----- steps -----

  /** The invariant of a state, from its parts. */
  lemma FlowFrom(c: Config, s: Sys, slot: InputSlot, at: Position, w: Flow, pollRuns: nat, packets: seq<seq<byte>>, acks: seq<seq<byte>>,
                 stalled: multiset<byte>, reports: seq<Report>, completed: seq<Report>)
    requires Busy(w) && FlowParts(c, slot, at, w, pollRuns, packets, acks, stalled, reports, completed)
    requires s.fw.slot == slot && s.fw.at == at && s.h.flow == w && s.h.start.pollRuns == pollRuns
    requires ValuesOf(s.toFw, E_TYPE_IN) == packets && ValuesOf(s.toPc, E_TYPE_IN) == acks
    requires s.past.stalled == stalled && s.past.reports == reports && s.past.completed == completed
    ensures FlowInv(c, s)
  {
  }

  predicate LeavesInput(step: Step) { !step.ClearIn? && !step.FreeInput? && !step.AckInput? }

  lemma PlainMove(c: Config, s: Sys, step: Step)
    requires Enabled(s, step) && IsMain(step) && LeavesInput(step)
    requires |s.fw.slot.input| == INPUT_SIZE && PositionOk(s.fw.slot, s.fw.at)
    requires s.fw.slot.input[0] != 0 ==> s.fw.slot.inputDataLen <= MAX_PAYLOAD_SIZE_EP
    ensures var s' := Do(c, s, step);
            && s'.fw.slot == s.fw.slot && PositionOk(s.fw.slot, s'.fw.at)
            && !s.fw.at.InCleared? && !s.fw.at.InFreed? && !s'.fw.at.InCleared? && !s'.fw.at.InFreed?
            && s'.past.stalled == s.past.stalled && s'.past.reports == s.past.reports && s'.past.completed == s.past.completed
            && (s'.fw.health == s.fw.health)
  {
    if step.WriteByte? {
      var k := |s.fw.at.written|;
      assert k + 1 < |s.fw.slot.input|;
      assert s.fw.slot.input[1..1 + k] + [s.fw.slot.input[k + 1]] == s.fw.slot.input[1..1 + (k + 1)];
    }
  }

  /** A step of the main program sends an IN packet only as the acknowledgement. */
  lemma SentLane(s: Sys, step: Step)
    requires Enabled(s, step) && IsMain(step)
    ensures ValuesOf(s.toPc + Sent(s, step), E_TYPE_IN)
         == if step.AckInput? then ValuesOf(s.toPc, E_TYPE_IN) + [[]] else ValuesOf(s.toPc, E_TYPE_IN)
  {
    NothingSent(s.toPc);
    if Sent(s, step) != [] {
      var f := Sent(s, step)[0];
      assert Sent(s, step) == [f];
      AppendOne(s.toPc, f);
    }
  }

  lemma MainKeepsFlow(c: Config, s: Sys, step: Step)
    requires FlowInv(c, s) && Enabled(s, step) && IsMain(step)
    ensures FlowInv(c, Do(c, s, step))
  {
    MainEffect(c, s, step);
    SentLane(s, step);
    var packets, acks := ValuesOf(s.toFw, E_TYPE_IN), ValuesOf(s.toPc, E_TYPE_IN);
    var past := s.past;
    if step.ClearIn? {
      ClearInParts(c, s.fw.slot, s.fw.at, s.h.flow, s.h.start.pollRuns, packets, acks, past.stalled, past.reports, past.completed);
    } else if step.FreeInput? {
      FreeParts(c, s.fw.slot, s.h.flow, s.h.start.pollRuns, packets, acks, past.stalled, past.reports, past.completed);
    } else if step.AckInput? {
      AckParts(c, s.fw.slot, s.h.flow, s.h.start.pollRuns, packets, acks, past.stalled, past.reports, past.completed);
    } else {
      PlainMove(c, s, step);
      MoveParts(c, s.fw.slot, s.fw.at, Do(c, s, step).fw.at, s.h.flow, s.h.start.pollRuns, packets, acks, past.stalled, past.reports, past.completed);
    }
  }

  lemma AcksAreNotIn(fs: seq<Frame>, acks: seq<Frame>)
    requires acks == [] || (|acks| == 1 && acks[0].kind <= E_TYPE_ENDPOINTS)
    ensures ValuesOf(fs + acks, E_TYPE_IN) == ValuesOf(fs, E_TYPE_IN)
  {
    NothingSent(fs);
    if acks != [] {
      assert acks == [acks[0]];
      AppendOne(fs, acks[0]);
    }
  }

  lemma InputTaken(c: Config, s: Sys, slot: InputSlot, at: Position, w: Flow, pollRuns: nat, packets: seq<seq<byte>>, v: seq<byte>, rest: seq<seq<byte>>, acks: seq<seq<byte>>,
                   stalled: multiset<byte>, reports: seq<Report>, completed: seq<Report>)
    requires Busy(w) && FlowParts(c, slot, at, w, pollRuns, packets, acks, stalled, reports, completed) && packets == [v] + rest
    requires Fits(slot.input, 0, v)
    requires s.fw.slot == InputSlot(Overlay(slot.input, 0, v), (|v| - 1) % 256) && s.fw.at == at && s.h.flow == w && s.h.start.pollRuns == pollRuns
    requires ValuesOf(s.toFw, E_TYPE_IN) == rest && ValuesOf(s.toPc, E_TYPE_IN) == acks
    requires s.past.stalled == stalled && s.past.reports == reports && s.past.completed == completed
    ensures FlowInv(c, s)
  {
    TakeParts(c, slot, at, w, pollRuns, packets, v, rest, acks, stalled, reports, completed);
    FlowFrom(c, s, s.fw.slot, at, w, pollRuns, rest, acks, stalled, reports, completed);
  }

  lemma SlotHasRoom(c: Config, slot: InputSlot, at: Position, w: Flow, pollRuns: nat, packets: seq<seq<byte>>, v: seq<byte>, rest: seq<seq<byte>>,
                    acks: seq<seq<byte>>, stalled: multiset<byte>, reports: seq<Report>, completed: seq<Report>)
    requires FlowParts(c, slot, at, w, pollRuns, packets, acks, stalled, reports, completed) && packets == [v] + rest
    ensures Fits(slot.input, 0, v)
  {
    assert packets[0] == v;
  }

  lemma InputEffect(c: Config, s: Sys)
    requires s.toFw != [] && s.toFw[0].kind == E_TYPE_IN && Fits(s.fw.slot.input, 0, s.toFw[0].value)
    ensures var (s', v) := (Do(c, s, Interrupt), s.toFw[0].value);
            && s'.fw == s.fw.(slot := InputSlot(Overlay(s.fw.slot.input, 0, v), (|v| - 1) % 256))
            && s'.h == s.h && s'.past == s.past && s'.toFw == s.toFw[1..] && s'.toPc == s.toPc
  {
    NothingSent(s.toPc);
  }

  lemma InputTakenFrom(c: Config, s: Sys, s': Sys, v: seq<byte>, rest: seq<seq<byte>>)
    requires FlowInv(c, s) && ValuesOf(s.toFw, E_TYPE_IN) == [v] + rest && Fits(s.fw.slot.input, 0, v)
    requires s'.fw == s.fw.(slot := InputSlot(Overlay(s.fw.slot.input, 0, v), (|v| - 1) % 256)) && s'.h == s.h && s'.past == s.past
    requires ValuesOf(s'.toFw, E_TYPE_IN) == rest && ValuesOf(s'.toPc, E_TYPE_IN) == ValuesOf(s.toPc, E_TYPE_IN)
    ensures FlowInv(c, s')
  {
    InputTaken(c, s', s.fw.slot, s.fw.at, s.h.flow, s.h.start.pollRuns, ValuesOf(s.toFw, E_TYPE_IN), v, rest, ValuesOf(s.toPc, E_TYPE_IN),
               s.past.stalled, s.past.reports, s.past.completed);
  }

  lemma InputFits(c: Config, s: Sys, v: seq<byte>, rest: seq<seq<byte>>)
    requires FlowInv(c, s) && ValuesOf(s.toFw, E_TYPE_IN) == [v] + rest
    ensures Fits(s.fw.slot.input, 0, v)
  {
    SlotHasRoom(c, s.fw.slot, s.fw.at, s.h.flow, s.h.start.pollRuns, ValuesOf(s.toFw, E_TYPE_IN), v, rest, ValuesOf(s.toPc, E_TYPE_IN),
                s.past.stalled, s.past.reports, s.past.completed);
  }

  lemma FirstIsIn(fs: seq<Frame>)
    requires fs != [] && fs[0].kind == E_TYPE_IN
    ensures ValuesOf(fs, E_TYPE_IN) == [fs[0].value] + ValuesOf(fs[1..], E_TYPE_IN)
  {
  }

  lemma InterruptTakesInput(c: Config, s: Sys)
    requires FlowInv(c, s) && s.toFw != [] && s.toFw[0].kind == E_TYPE_IN
    ensures FlowInv(c, Do(c, s, Interrupt)) && Fits(s.fw.slot.input, 0, s.toFw[0].value)
  {
    var v, rest := s.toFw[0].value, ValuesOf(s.toFw[1..], E_TYPE_IN);
    FirstIsIn(s.toFw);
    InputFits(c, s, v, rest);
    InputEffect(c, s);
    InputTakenFrom(c, s, Do(c, s, Interrupt), v, rest);
  }

  lemma OtherInterruptEffect(c: Config, s: Sys, s': Sys)
    requires s.toFw != [] && s.toFw[0].kind != E_TYPE_IN && s' == Do(c, s, Interrupt)
    ensures FlowUntouched(s, s')
  {
    PopOne(s.toFw);
    IsrEffect(s.fw, s.toFw[0]);
    AcksAreNotIn(s.toPc, Isr(s.fw, s.toFw[0]).1);
  }

  lemma OtherInterruptKeeps(c: Config, s: Sys)
    requires FlowInv(c, s) && s.toFw != [] && s.toFw[0].kind != E_TYPE_IN
    ensures FlowInv(c, Do(c, s, Interrupt))
  {
    OtherInterruptEffect(c, s, Do(c, s, Interrupt));
    UntouchedKeepsFlow(c, s, Do(c, s, Interrupt));
  }

  lemma InterruptKeepsFlow(c: Config, s: Sys)
    requires FlowInv(c, s) && s.toFw != []
    ensures FlowInv(c, Do(c, s, Interrupt))
    ensures s.toFw[0].kind == E_TYPE_IN ==> Fits(s.fw.slot.input, 0, s.toFw[0].value)
  {
    if s.toFw[0].kind == E_TYPE_IN {
      InterruptTakesInput(c, s);
    } else {
      OtherInterruptKeeps(c, s);
    }
  }

  lemma OtherSendsAreNotIn(fs: seq<Frame>, kind: byte, data: seq<byte>, sent: seq<Frame>)
    requires kind != E_TYPE_IN && (sent == [] || sent == Split(kind, data))
    ensures ValuesOf(fs + sent, E_TYPE_IN) == ValuesOf(fs, E_TYPE_IN)
  {
    NothingSent(fs);
    AppendSplit(fs, kind, data);
  }

  /** The PC takes an IN acknowledgement: it polls the pending endpoint again and sends the next report. */
  lemma ReturnKeepsFlow(c: Config, s: Sys)
    requires ConfigOk(c) && FlowInv(c, s) && s.toPc != [] && s.toPc[0].kind == E_TYPE_IN
    ensures FlowInv(c, Do(c, s, PcReceives))
  {
    PopOne(s.toPc);
    var packets, acks := ValuesOf(s.toFw, E_TYPE_IN), ValuesOf(s.toPc[1..], E_TYPE_IN);
    var w0 := s.h.flow.(polled := s.h.flow.polled + multiset{s.h.flow.inPending}, inPending := 0);
    ReturnParts(c, s.fw.slot, s.fw.at, s.h.flow, s.h.start.pollRuns, packets, s.toPc[0].value, acks,
                s.past.stalled, s.past.reports, s.past.completed, w0);
    SendParts(c, s.fw.slot, s.fw.at, w0, s.h.start.pollRuns, packets, acks, s.past.stalled, s.past.reports, s.past.completed);
    ReturnEffect(c, s.h, s.toPc[0], w0);
    ValuesOfConcat(s.toFw, SendNextInPacket(w0).1, E_TYPE_IN);
  }

  lemma ReturnEffect(c: Config, h: Host, f: Frame, w0: Flow)
    requires f.kind == E_TYPE_IN && h.flow.inPending != 0
    requires w0 == h.flow.(polled := h.flow.polled + multiset{h.flow.inPending}, inPending := 0)
    ensures var (h', sent) := ProcessPacket(c, h, f);
            h'.flow == SendNextInPacket(w0).0 && sent == SendNextInPacket(w0).1 && h'.start == h.start
  {
  }

  lemma PollEffect(c: Config, h: Host, f: Frame)
    requires f.kind == E_TYPE_ENDPOINTS
    ensures var (h', sent) := ProcessPacket(c, h, f);
            && h'.flow == h.flow.(polled := h.flow.polled + multiset(PollFrom(c.s2u, 0)))
            && h'.start.pollRuns == h.start.pollRuns + 1 && sent == []
  {
  }

  lemma PollKeepsFlow(c: Config, s: Sys)
    requires ConfigOk(c) && FlowInv(c, s) && s.toPc != [] && s.toPc[0].kind == E_TYPE_ENDPOINTS && s.h.start.pollRuns == 0
    ensures FlowInv(c, Do(c, s, PcReceives))
  {
    PopOne(s.toPc);
    NothingSent(s.toFw);
    PollEffect(c, s.h, s.toPc[0]);
    PollParts(c, s.fw.slot, s.fw.at, s.h.flow, ValuesOf(s.toFw, E_TYPE_IN), ValuesOf(s.toPc, E_TYPE_IN),
              s.past.stalled, s.past.reports, s.past.completed);
  }

  lemma StartUpEffect(c: Config, h: Host, f: Frame)
    requires f.kind == E_TYPE_DESCRIPTORS || f.kind == E_TYPE_INDEX
    ensures var (h', sent) := ProcessPacket(c, h, f);
            && h'.flow == h.flow && h'.start.pollRuns == h.start.pollRuns
            && (sent == [] || sent == Split(E_TYPE_INDEX, c.index) || sent == Split(E_TYPE_ENDPOINTS, c.endpoints))
  {
  }

  /** The step concerns neither the IN path nor polling. */
  ghost predicate FlowUntouched(s: Sys, s': Sys) {
    && s'.fw.slot == s.fw.slot && s'.fw.at == s.fw.at && s'.h.flow == s.h.flow && s'.h.start.pollRuns == s.h.start.pollRuns
    && ValuesOf(s'.toFw, E_TYPE_IN) == ValuesOf(s.toFw, E_TYPE_IN) && ValuesOf(s'.toPc, E_TYPE_IN) == ValuesOf(s.toPc, E_TYPE_IN)
    && s'.past.stalled == s.past.stalled && s'.past.reports == s.past.reports && s'.past.completed == s.past.completed
  }

  lemma UntouchedKeepsFlow(c: Config, s: Sys, s': Sys)
    requires FlowInv(c, s) && FlowUntouched(s, s')
    ensures FlowInv(c, s')
  {
    FlowFrom(c, s', s.fw.slot, s.fw.at, s.h.flow, s.h.start.pollRuns, ValuesOf(s.toFw, E_TYPE_IN), ValuesOf(s.toPc, E_TYPE_IN),
             s.past.stalled, s.past.reports, s.past.completed);
  }

  lemma OtherPacketEffect(c: Config, s: Sys, s': Sys)
    requires s.toPc != [] && s.toPc[0].kind != E_TYPE_IN && s.toPc[0].kind != E_TYPE_ENDPOINTS && s' == Do(c, s, PcReceives)
    ensures FlowUntouched(s, s')
  {
    var f := s.toPc[0];
    PopOne(s.toPc);
    var sent := ProcessPacket(c, s.h, f).1;
    if f.kind == E_TYPE_CONTROL {
      ControlPacketEffect(c.s2u, s.h.control, f.value);
      OtherSendsAreNotIn(s.toFw, E_TYPE_CONTROL_STALL, [], sent);
    } else if IsQuiet(f.kind) {
      QuietEffect(c, s.h, f);
      NothingSent(s.toFw);
    } else {
      StartUpEffect(c, s.h, f);
      var kind := if sent == Split(E_TYPE_INDEX, c.index) then E_TYPE_INDEX else E_TYPE_ENDPOINTS;
      OtherSendsAreNotIn(s.toFw, kind, if kind == E_TYPE_INDEX then c.index else c.endpoints, sent);
    }
  }

  /** Any other packet leaves the flow-control state alone and starts no IN packet. */
  lemma OtherPacketKeepsFlow(c: Config, s: Sys)
    requires FlowInv(c, s) && s.toPc != [] && s.toPc[0].kind != E_TYPE_IN && s.toPc[0].kind != E_TYPE_ENDPOINTS
    ensures FlowInv(c, Do(c, s, PcReceives))
  {
    OtherPacketEffect(c, s, Do(c, s, PcReceives));
    UntouchedKeepsFlow(c, s, Do(c, s, PcReceives));
  }

  lemma InFailsKeepsFlow(c: Config, s: Sys, e: byte, completion: Completion)
    requires FlowInv(c, s) && Enabled(s, InEnds(e, completion)) && !completion.Bytes?
    ensures FlowInv(c, Do(c, s, InEnds(e, completion)))
  {
    NothingSent(s.toFw);
    FailParts(c, s.fw.slot, s.fw.at, s.h.flow, s.h.start.pollRuns, ValuesOf(s.toFw, E_TYPE_IN), ValuesOf(s.toPc, E_TYPE_IN),
              s.past.stalled, s.past.reports, s.past.completed, e);
  }

  lemma InCompletesEffect(c: Config, s: Sys, e: byte, data: seq<byte>, w1: Flow, s': Sys)
    requires Enabled(s, InEnds(e, Bytes(data))) && CanQueue(s.h.flow.(polled := s.h.flow.polled - multiset{e}), e)
    requires w1 == QueueInPacket(c.u2s, s.h.flow.(polled := s.h.flow.polled - multiset{e}), e, data) && s' == Do(c, s, InEnds(e, Bytes(data)))
    ensures s'.fw == s.fw && s'.h.flow == SendNextInPacket(w1).0 && s'.h.start == s.h.start && s'.toPc == s.toPc
    ensures ValuesOf(s'.toFw, E_TYPE_IN) == ValuesOf(s.toFw, E_TYPE_IN) + ValuesOf(SendNextInPacket(w1).1, E_TYPE_IN)
    ensures s'.past == s.past.(completed := s.past.completed + [Report(e, data)])
  {
    ValuesOfConcat(s.toFw, SendNextInPacket(w1).1, E_TYPE_IN);
  }

  lemma QueuedAndSent(c: Config, s': Sys, slot: InputSlot, at: Position, w1: Flow, pollRuns: nat, packets: seq<seq<byte>>, acks: seq<seq<byte>>,
                stalled: multiset<byte>, reports: seq<Report>, completed: seq<Report>)
    requires ConfigOk(c) && FlowParts(c, slot, at, w1, pollRuns, packets, acks, stalled, reports, completed)
    requires s'.fw.slot == slot && s'.fw.at == at && s'.h.flow == SendNextInPacket(w1).0 && s'.h.start.pollRuns == pollRuns
    requires ValuesOf(s'.toFw, E_TYPE_IN) == packets + ValuesOf(SendNextInPacket(w1).1, E_TYPE_IN) && ValuesOf(s'.toPc, E_TYPE_IN) == acks
    requires s'.past.stalled == stalled && s'.past.reports == reports && s'.past.completed == completed
    ensures FlowInv(c, s')
  {
    SendParts(c, slot, at, w1, pollRuns, packets, acks, stalled, reports, completed);
    FlowFrom(c, s', slot, at, SendNextInPacket(w1).0, pollRuns, packets + ValuesOf(SendNextInPacket(w1).1, E_TYPE_IN), acks, stalled, reports, completed);
  }

  lemma InCompletesKeepsFlow(c: Config, s: Sys, e: byte, data: seq<byte>)
    requires ConfigOk(c) && FlowInv(c, s) && Enabled(s, InEnds(e, Bytes(data)))
    ensures FlowInv(c, Do(c, s, InEnds(e, Bytes(data))))
    ensures CanQueue(s.h.flow.(polled := s.h.flow.polled - multiset{e}), e)
  {
    var packets, acks := ValuesOf(s.toFw, E_TYPE_IN), ValuesOf(s.toPc, E_TYPE_IN);
    var past, n := s.past, s.h.start.pollRuns;
    RoomInFifo(c, s.fw.slot, s.fw.at, s.h.flow, n, packets, acks, past.stalled, past.reports, past.completed, e);
    var w0 := s.h.flow.(polled := s.h.flow.polled - multiset{e});
    var w1 := QueueInPacket(c.u2s, w0, e, data);
    QueueParts(c, s.fw.slot, s.fw.at, s.h.flow, n, packets, acks, past.stalled, past.reports, past.completed, e, data, w0, w1);
    InCompletesEffect(c, s, e, data, w1, Do(c, s, InEnds(e, Bytes(data))));
    QueuedAndSent(c, Do(c, s, InEnds(e, Bytes(data))), s.fw.slot, s.fw.at, w1, n, packets, acks, past.stalled, past.reports, past.completed + [Report(e, data)]);
  }

  lemma ControlEndsFlowEffect(c: Config, s: Sys, i: nat, completion: Completion, s': Sys)
    requires Enabled(s, ControlEnds(i, completion)) && s' == Do(c, s, ControlEnds(i, completion))
    ensures FlowUntouched(s, s')
  {
    ControlEndsEffect(s.h, i, completion);
    var sent := ControlCompleted(s.h, i, completion).1;
    var reply := ControlReply(s.h.control.transfers[i], completion);
    var stall := reply.Some? && reply.value.stall;
    OtherSendsAreNotIn(s.toFw, if stall then E_TYPE_CONTROL_STALL else E_TYPE_CONTROL,
                       if stall || reply.None? then [] else reply.value.data, sent);
  }

  lemma ControlEndsKeepsFlow(c: Config, s: Sys, i: nat, completion: Completion)
    requires FlowInv(c, s) && Enabled(s, ControlEnds(i, completion))
    ensures FlowInv(c, Do(c, s, ControlEnds(i, completion)))
  {
    ControlEndsFlowEffect(c, s, i, completion, Do(c, s, ControlEnds(i, completion)));
    UntouchedKeepsFlow(c, s, Do(c, s, ControlEnds(i, completion)));
  }

  lemma StepKeepsFlow(c: Config, s: Sys, step: Step)
    requires ConfigOk(c) && FlowInv(c, s) && Enabled(s, step)
    requires s.toPc != [] && s.toPc[0].kind == E_TYPE_ENDPOINTS ==> s.h.start.pollRuns == 0
    ensures FlowInv(c, Do(c, s, step))
  {
    if IsMain(step) {
      MainKeepsFlow(c, s, step);
    } else {
      match step
      case PcReceives =>
        if s.toPc[0].kind == E_TYPE_IN {
          ReturnKeepsFlow(c, s);
        } else if s.toPc[0].kind == E_TYPE_ENDPOINTS {
          PollKeepsFlow(c, s);
        } else {
          OtherPacketKeepsFlow(c, s);
        }
      case InEnds(e, completion) =>
        if completion.Bytes? {
          InCompletesKeepsFlow(c, s, e, completion.data);
        } else {
          InFailsKeepsFlow(c, s, e, completion);
        }
      case ControlEnds(i, completion) => ControlEndsKeepsFlow(c, s, i, completion);
      case Interrupt => InterruptKeepsFlow(c, s);
    }
  }
}
