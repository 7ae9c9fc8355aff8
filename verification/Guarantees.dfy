/** What the proxy promises, for every reachable state and every step from it. */
module Guarantees {
  import opened Protocol
  import opened Wrappers
  import opened Adapter
  import opened Proxy
  import opened Firmware
  import opened System
  import opened Invariant
  import opened Preservation
  import opened Lanes
  import opened Effects
  import FlowProof
  import ExchangeProof

  // ----- interrupt IN reports -----

  function FlightOf(s: Sys): seq<Report> {
    InFlight(s.fw.slot, s.fw.at.InCleared?, ValuesOf(s.toFw, E_TYPE_IN))
  }

  function QueueOf(s: Sys): seq<Report> { Queued(s.h.flow.slots, s.h.flow.fifo) }

  lemma NothingInFlight(slot: InputSlot, at: Position, packets: seq<seq<byte>>, acks: seq<seq<byte>>)
    requires TokenInv(slot, at, 0, packets, acks)
    ensures InFlight(slot, at.InCleared?, packets) == []
  {
  }

  lemma ReportsParts(c: Config, slot: InputSlot, at: Position, w: Flow, pollRuns: nat, packets: seq<seq<byte>>, acks: seq<seq<byte>>,
                     stalled: multiset<byte>, reports: seq<Report>, completed: seq<Report>)
    requires FlowParts(c, slot, at, w, pollRuns, packets, acks, stalled, reports, completed)
    ensures var (flight, queued) := (InFlight(slot, at.InCleared?, packets), Queued(w.slots, w.fifo));
            && reports + flight + queued == Translated(c.u2s, completed)
            && reports + (flight + queued) == Translated(c.u2s, completed)
            && (w.inPending == 0 && w.fifo == [] ==> flight == [] && queued == [])
  {
    if w.inPending == 0 {
      NothingInFlight(slot, at, packets, acks);
    }
    Associate(reports, InFlight(slot, at.InCleared?, packets), Queued(w.slots, w.fifo));
  }

  lemma ReportsOf(c: Config, s: Sys)
    requires Inv(c, s)
    ensures s.past.reports + FlightOf(s) + QueueOf(s) == Translated(c.u2s, s.past.completed)
    ensures s.past.reports + (FlightOf(s) + QueueOf(s)) == Translated(c.u2s, s.past.completed)
    ensures s.h.flow.inPending == 0 ==> FlightOf(s) == [] && QueueOf(s) == []
  {
    ReportsParts(c, s.fw.slot, s.fw.at, s.h.flow, s.h.start.pollRuns, ValuesOf(s.toFw, E_TYPE_IN), ValuesOf(s.toPc, E_TYPE_IN),
                 s.past.stalled, s.past.reports, s.past.completed);
  }

  lemma PrefixOf<T>(a: seq<T>, b: seq<T>, whole: seq<T>)
    requires a + b == whole
    ensures a <= whole && (b == [] ==> a == whole)
  {
  }

  /** The reports the firmware has delivered, the one in flight and the queued ones are, in this order, the
      successful IN transfers of the device under their translated addresses. */
  lemma ReportsInOrder(c: Config, s: Sys)
    requires ConfigOk(c) && Reachable(c, s)
    ensures s.past.reports + FlightOf(s) + QueueOf(s) == Translated(c.u2s, s.past.completed)
    ensures s.past.reports <= Translated(c.u2s, s.past.completed)
    ensures s.h.flow.inPending == 0 ==> s.past.reports == Translated(c.u2s, s.past.completed)
  {
    ReachableInv(c, s);
    ReportsOf(c, s);
    PrefixOf(s.past.reports, FlightOf(s) + QueueOf(s), Translated(c.u2s, s.past.completed));
  }

  /** inPending is set exactly while one IN packet, occupied slot or acknowledgement exists, and never more than one. */
  lemma OneToken(c: Config, s: Sys)
    requires ConfigOk(c) && Reachable(c, s)
    ensures |ValuesOf(s.toFw, E_TYPE_IN)| + One(InputEndpoint(s.fw) != 0) + One(s.fw.at.InFreed?) + |ValuesOf(s.toPc, E_TYPE_IN)|
         == One(s.h.flow.inPending != 0)
  {
    ReachableInv(c, s);
  }

  /** When the interrupt takes an IN packet, the slot is empty, the main program is not in the middle of
      reading it, and the packet fits and names an endpoint. */
  lemma SlotIsFree(c: Config, s: Sys)
    requires ConfigOk(c) && Reachable(c, s) && s.toFw != [] && s.toFw[0].kind == E_TYPE_IN
    ensures InputEndpoint(s.fw) == 0
    ensures !s.fw.at.InTested? && !s.fw.at.InSelected? && !s.fw.at.InWriting? && !s.fw.at.InCleared? && !s.fw.at.InFreed?
    ensures 1 <= |s.toFw[0].value| <= INPUT_SIZE && s.toFw[0].value[0] != 0
  {
    ReachableInv(c, s);
    PopOne(s.toFw);
    var v, rest := s.toFw[0].value, ValuesOf(s.toFw[1..], E_TYPE_IN);
    assert ValuesOf(s.toFw, E_TYPE_IN) == [v] + rest;
    assert ([v] + rest)[0] == v;
  }

  /** Once polling has started, every configured IN endpoint is in exactly one of: polled, queued, pending, stalled. */
  lemma EndpointsConserved(c: Config, s: Sys)
    requires ConfigOk(c) && Reachable(c, s)
    ensures s.h.start.pollRuns <= 1
    ensures s.h.flow.polled + multiset(s.h.flow.fifo) + Pending(s.h.flow.inPending) + s.past.stalled
         == (if s.h.start.pollRuns == 1 then multiset(c.ins) else multiset{})
  {
    ReachableInv(c, s);
  }

  lemma DistinctNumbers(x: byte, e: byte)
    requires USB_DIR_IN < x < USB_DIR_IN + 16 && USB_DIR_IN < e < USB_DIR_IN + 16 && x != e
    ensures Number(x) != Number(e)
  {
  }

  lemma PolledParts(u2s: seq<byte>, ins: set<byte>, pollRuns: nat, w: Flow, stalled: multiset<byte>, e: byte)
    requires FlowProof.InsOk(ins, u2s) && ConservationInv(ins, pollRuns, w, stalled) && e in w.polled
    ensures |w.fifo| < MAX_ENDPOINTS && e in ins
    ensures forall x :: x in w.fifo ==> Number(x) != Number(e)
  {
    FlowProof.PolledIsElsewhere(ins, pollRuns, w, stalled, e);
    forall x | x in w.fifo ensures Number(x) != Number(e) {
      DistinctNumbers(x, e);
    }
  }

  /** A completing transfer always finds room in inEpFifo and an unused slot. */
  lemma QueueNeverFull(c: Config, s: Sys, e: byte)
    requires ConfigOk(c) && Reachable(c, s) && e in s.h.flow.polled
    ensures |s.h.flow.fifo| < MAX_ENDPOINTS && e in c.ins
    ensures forall x :: x in s.h.flow.fifo ==> Number(x) != Number(e)
  {
    ReachableInv(c, s);
    PolledParts(c.u2s, c.ins, s.h.start.pollRuns, s.h.flow, s.past.stalled, e);
  }

  // ----- refinement of a FIFO of reports -----

  datatype Channel = Channel(waiting: seq<Report>, delivered: seq<Report>)

  function Put(q: Channel, r: Report): Channel { q.(waiting := q.waiting + [r]) }

  function Take(q: Channel): Channel
    requires q.waiting != []
  {
    Channel(q.waiting[1..], q.delivered + [q.waiting[0]])
  }

  /** The whole IN path, seen as one FIFO channel. */
  function Abstract(s: Sys): Channel {
    Channel(FlightOf(s) + QueueOf(s), s.past.reports)
  }

  lemma AbstractTotal(c: Config, s: Sys)
    requires Inv(c, s)
    ensures Abstract(s).delivered + Abstract(s).waiting == Translated(c.u2s, s.past.completed)
  {
    ReportsOf(c, s);
  }

  lemma Cancel<T>(a: seq<T>, b: seq<T>, d: seq<T>)
    requires a + b == a + d
    ensures b == d
  {
    assert b == (a + b)[|a|..];
    assert d == (a + d)[|a|..];
  }

  /** The contents of a channel before and after, from what it has carried in all. */
  lemma ChannelMoves(u2s: seq<byte>, q: Channel, q': Channel, completed: seq<Report>, put: seq<Report>, taken: seq<Report>)
    requires q.delivered + q.waiting == Translated(u2s, completed)
    requires q'.delivered + q'.waiting == Translated(u2s, completed + put)
    requires q'.delivered == q.delivered + taken
    ensures q.waiting + Translated(u2s, put) == taken + q'.waiting
  {
    FlowProof.TranslatedConcat(u2s, completed, put);
    assert q.delivered + (q.waiting + Translated(u2s, put)) == q.delivered + q.waiting + Translated(u2s, put);
    assert q.delivered + (taken + q'.waiting) == q.delivered + taken + q'.waiting;
    Cancel(q.delivered, q.waiting + Translated(u2s, put), taken + q'.waiting);
  }

  /** What a step puts into the channel, and what it takes out. */
  function PutBy(step: Step): seq<Report> {
    if step.InEnds? && step.c.Bytes? then [Report(step.endpoint, step.c.data)] else []
  }

  function TakenBy(s: Sys, step: Step): seq<Report>
    requires Enabled(s, step)
  {
    if step.ClearIn? then [Report(s.fw.at.endpoint, s.fw.at.written)] else []
  }

  lemma PastOf(c: Config, s: Sys, step: Step)
    requires Enabled(s, step)
    ensures var past' := Do(c, s, step).past;
            past'.completed == s.past.completed + PutBy(step) && past'.reports == s.past.reports + TakenBy(s, step)
  {
    assert s.past.completed + [] == s.past.completed && s.past.reports + [] == s.past.reports;
  }

  lemma TotalAfter(c: Config, s: Sys, step: Step)
    requires ConfigOk(c) && Inv(c, s) && Enabled(s, step)
    ensures var q' := Abstract(Do(c, s, step));
            && q'.delivered + q'.waiting == Translated(c.u2s, s.past.completed + PutBy(step))
            && q'.delivered == Abstract(s).delivered + TakenBy(s, step)
  {
    StepKeepsInv(c, s, step);
    AbstractTotal(c, Do(c, s, step));
    PastOf(c, s, step);
  }

  lemma StepMoves(c: Config, s: Sys, step: Step)
    requires ConfigOk(c) && Inv(c, s) && Enabled(s, step)
    ensures var (q, q') := (Abstract(s), Abstract(Do(c, s, step)));
            && q.waiting + Translated(c.u2s, PutBy(step)) == TakenBy(s, step) + q'.waiting
            && q'.delivered == q.delivered + TakenBy(s, step)
  {
    AbstractTotal(c, s);
    TotalAfter(c, s, step);
    ChannelMoves(c.u2s, Abstract(s), Abstract(Do(c, s, step)), s.past.completed, PutBy(step), TakenBy(s, step));
  }

  lemma Moved(u2s: seq<byte>, q: Channel, q': Channel, put: seq<Report>, taken: seq<Report>)
    requires q.waiting + Translated(u2s, put) == taken + q'.waiting && q'.delivered == q.delivered + taken
    ensures |put| == 1 && taken == [] ==> q' == Put(q, Translate(u2s, put[0]))
    ensures put == [] && |taken| == 1 ==> q.waiting != [] && q' == Take(q)
    ensures put == [] && taken == [] ==> q' == q
  {
    if |put| == 1 {
      assert put == [put[0]] && (taken == [] ==> taken + q'.waiting == q'.waiting);
      assert Translated(u2s, put) == [Translate(u2s, put[0])] + Translated(u2s, []);
    } else if |taken| == 1 && put == [] {
      assert q.waiting + [] == q.waiting;
      assert (taken + q'.waiting)[1..] == q'.waiting;
    }
  }

  /** Each step is a step of a FIFO channel: a successful IN transfer puts its report in, clearing the target's IN
      endpoint takes the oldest one out, and no other step of either machine changes the channel. */
  lemma StepRefinesFifo(c: Config, s: Sys, step: Step)
    requires ConfigOk(c) && Reachable(c, s) && Enabled(s, step)
    ensures var (q, q') := (Abstract(s), Abstract(Do(c, s, step)));
            if step.InEnds? && step.c.Bytes? then q' == Put(q, Translate(c.u2s, Report(step.endpoint, step.c.data)))
            else if step.ClearIn? then q.waiting != [] && q' == Take(q)
            else q' == q
  {
    ReachableInv(c, s);
    StepMoves(c, s, step);
    Moved(c.u2s, Abstract(s), Abstract(Do(c, s, step)), PutBy(step), TakenBy(s, step));
  }

  // ----- start-up -----

  function StoredIn(area: Area): seq<byte> {
    if area.at <= |area.bytes| then area.bytes[..area.at] else []
  }

  lemma MemoriesAgree(c: Config, mem: Memory, start: StartUp, s: Sys)
    requires StartInv(c, s) && mem == s.fw.mem && start == s.h.start
    ensures mem.started ==>
              && StoredIn(mem.descriptors) == c.desc
              && mem.index.bytes == Padded(c.index, |mem.index.bytes|)
              && mem.endpoints == Padded(c.endpoints, |mem.endpoints|)
    ensures start.pollRuns <= 1 && (start.pollRuns == 1 ==> mem.started)
    ensures start.pollRuns == 0 ==> s.toFw != [] || s.toPc != []
  {
    if mem.started {
      var area := mem.index;
      assert area.bytes == area.bytes[..area.at] + area.bytes[area.at..];
      assert area.bytes[..area.at] == c.index;
    }
  }

  /** When the firmware has started, its three memories hold what the PC holds, followed by zeros in the last two;
      until then its main program sends nothing. The PC starts polling at most once, and only then. */
  lemma StartUpAgreement(c: Config, s: Sys)
    requires ConfigOk(c) && Reachable(c, s)
    ensures s.fw.mem.started ==>
              && StoredIn(s.fw.mem.descriptors) == c.desc
              && s.fw.mem.index.bytes == Padded(c.index, MAX_DESCRIPTORS * INDEX_ENTRY_SIZE)
              && s.fw.mem.endpoints == Padded(c.endpoints, MAX_ENDPOINTS * ENDPOINT_CONFIG_SIZE)
    ensures !s.fw.mem.started ==> s.fw.at.Boot?
    ensures s.h.start.pollRuns <= 1 && (s.h.start.pollRuns == 1 ==> s.fw.mem.started)
  {
    ReachableInv(c, s);
    MemoriesAgree(c, s.fw.mem, s.h.start, s);
  }

  /** Start-up cannot get stuck: until the endpoints are polled, a packet is on the line in one direction. */
  lemma StartUpCanProceed(c: Config, s: Sys)
    requires ConfigOk(c) && Reachable(c, s) && s.h.start.pollRuns == 0
    ensures s.toFw != [] || s.toPc != []
  {
    ReachableInv(c, s);
    MemoriesAgree(c, s.fw.mem, s.h.start, s);
  }

  /** The step that moves the pending report or its acknowledgement on. */
  function Mover(s: Sys): Step {
    if s.toFw != [] then Interrupt
    else if s.toPc != [] then PcReceives
    else match s.fw.at
         case Boot => LeaveBoot
         case Idle => TestInput
         case InTested => SelectInput
         case InSelected(_) => InReady
         case InWriting(_, length, written) => if |written| < length then WriteByte else ClearIn
         case InCleared => FreeInput
         case InFreed => AckInput
         case ControlReset(_) => ForgetStall
         case ControlReady(_) => SendControl
         case ControlWait => if s.fw.box.controlReply then SeeReply else GiveUp
         case ControlSeen => ActOnReply
  }

  lemma MoverParts(s: Sys)
    requires TokenInv(s.fw.slot, s.fw.at, s.h.flow.inPending, ValuesOf(s.toFw, E_TYPE_IN), ValuesOf(s.toPc, E_TYPE_IN))
    requires FwShape(s.fw) && s.h.flow.inPending != 0 && s.h.start.pollRuns <= 1
    requires s.fw.at.Boot? ==> s.fw.mem.started || s.toFw != [] || s.toPc != []
    ensures Enabled(s, Mover(s))
  {
  }

  /** While a report is pending, one of the two machines can move without any new event from the USB side. */
  lemma TokenCanMove(c: Config, s: Sys)
    requires ConfigOk(c) && Reachable(c, s) && s.h.flow.inPending != 0
    ensures Enabled(s, Mover(s))
  {
    ReachableInv(c, s);
    MemoriesAgree(c, s.fw.mem, s.h.start, s);
    MoverParts(s);
  }

  /** The interrupt acknowledges only while the main program has not left its start-up loop, and the main program
      sends only afterwards, so that the two never transmit at the same time. */
  lemma OneTransmitter(c: Config, s: Sys)
    requires ConfigOk(c) && Reachable(c, s)
    ensures s.toFw != [] && Isr(s.fw, s.toFw[0]).1 != [] ==> s.fw.at.Boot? && !s.fw.mem.started
    ensures forall step :: Enabled(s, step) && IsMain(step) && Sent(s, step) != [] ==> s.fw.mem.started
  {
    StartUpAgreement(c, s);
    forall step | Enabled(s, step) && IsMain(step) && Sent(s, step) != [] ensures s.fw.mem.started {
      SendsAfterBoot(s, step);
    }
    if s.toFw != [] && Isr(s.fw, s.toFw[0]).1 != [] {
      IsrEffect(s.fw, s.toFw[0]);
      AcksBeforeStart(c, s);
    }
  }

  lemma SendsAfterBoot(s: Sys, step: Step)
    requires Enabled(s, step) && IsMain(step) && Sent(s, step) != []
    ensures !s.fw.at.Boot?
  {
  }

  lemma AcksBeforeStart(c: Config, s: Sys)
    requires ConfigOk(c) && Reachable(c, s) && s.toFw != [] && s.toFw[0].kind <= E_TYPE_ENDPOINTS
    ensures !s.fw.mem.started
  {
    ReachableInv(c, s);
    NotStarted(c, s);
  }

  lemma AcksAtBoot(c: Config, s: Sys)
    requires ShapeInv(s) && StartInv(c, s) && s.toFw != [] && Isr(s.fw, s.toFw[0]).1 != []
    ensures s.fw.at.Boot?
  {
    IsrEffect(s.fw, s.toFw[0]);
    NotStarted(c, s);
  }

  lemma NotStarted(c: Config, s: Sys)
    requires StartInv(c, s) && s.toFw != [] && s.toFw[0].kind <= E_TYPE_ENDPOINTS
    ensures !s.fw.mem.started
  {
    PopOne(s.toFw);
  }

  // ----- packets the firmware overwrites -----

  /** The types whose packets the interrupt stores from the beginning of their memory. */
  predicate IsOverwriting(kind: byte) {
    kind == E_TYPE_ENDPOINTS || kind == E_TYPE_CONTROL || kind == E_TYPE_CONTROL_STALL || kind == E_TYPE_IN
  }

  /** What the PC sends in a step. */
  function PcSends(c: Config, s: Sys, step: Step): seq<Frame>
    requires Enabled(s, step)
  {
    match step
    case PcReceives => ProcessPacket(c, s.h, s.toPc[0]).1
    case InEnds(endpoint, completion) =>
      InCompleted(c.u2s, s.h.(flow := s.h.flow.(polled := s.h.flow.polled - multiset{endpoint})), endpoint, completion).1
    case ControlEnds(i, completion) => ControlCompleted(s.h, i, completion).1
    case _ => []
  }

  lemma {:induction false} LaneOfOneKind(fs: seq<Frame>, kind: byte)
    requires forall f :: f in fs ==> f.kind == kind
    ensures |ValuesOf(fs, kind)| == |fs|
  {
    if fs != [] {
      LaneOfOneKind(fs[1..], kind);
    }
  }

  lemma SplitIsSingle(kind: byte, data: seq<byte>, sent: seq<Frame>)
    requires sent == Split(kind, data) && (|data| <= MAX_PACKET_VALUE_SIZE || !IsOverwriting(kind))
    ensures forall f :: f in sent && IsOverwriting(f.kind) ==> |sent| == 1
  {
    SplitReassembles(kind, data);
    SplitCount(kind, data);
  }

  /** Reports are sent as one packet: the line never holds two IN packets. */
  lemma ReportIsSingle(c: Config, s: Sys, step: Step, data: seq<byte>)
    requires ConfigOk(c) && Reachable(c, s) && Enabled(s, step) && (step.PcReceives? || step.InEnds?)
    requires PcSends(c, s, step) == Split(E_TYPE_IN, data)
    ensures |Split(E_TYPE_IN, data)| == 1
  {
    var sent, s' := PcSends(c, s, step), Do(c, s, step);
    ReachableInv(c, s);
    StepKeepsInv(c, s, step);
    assert s'.toFw == s.toFw + sent;
    AppendAll(s.toFw, sent);
    SplitReassembles(E_TYPE_IN, data);
    LaneOfOneKind(sent, E_TYPE_IN);
    SplitCount(E_TYPE_IN, data);
    AtMostOneIn(s', sent);
  }

  lemma AtMostOneIn(s: Sys, sent: seq<Frame>)
    requires TokenInv(s.fw.slot, s.fw.at, s.h.flow.inPending, ValuesOf(s.toFw, E_TYPE_IN), ValuesOf(s.toPc, E_TYPE_IN))
    ensures |ValuesOf(s.toFw, E_TYPE_IN)| <= 1
  {
  }

  lemma SentForPacket(c: Config, h: Host, f: Frame, sent: seq<Frame>)
    requires sent == ProcessPacket(c, h, f).1
    ensures || sent == []
            || sent == Split(E_TYPE_INDEX, c.index)
            || sent == Split(E_TYPE_ENDPOINTS, c.endpoints)
            || sent == Split(E_TYPE_CONTROL_STALL, [])
            || (h.flow.fifo != [] && sent == Split(E_TYPE_IN, SlotOf(h.flow.slots, h.flow.fifo[0])))
  {
  }

  /** Every send of a type the interrupt overwrites is a single packet, so that only appended data is ever split. */
  lemma OverwritingSendsAreSingle(c: Config, s: Sys, step: Step)
    requires ConfigOk(c) && Reachable(c, s) && Enabled(s, step)
    ensures forall f :: f in PcSends(c, s, step) && IsOverwriting(f.kind) ==> |PcSends(c, s, step)| == 1
  {
    var sent := PcSends(c, s, step);
    match step
    case PcReceives =>
      SentForPacket(c, s.h, s.toPc[0], sent);
      if sent == Split(E_TYPE_INDEX, c.index) {
        SplitIsSingle(E_TYPE_INDEX, c.index, sent);
      } else if sent == Split(E_TYPE_ENDPOINTS, c.endpoints) {
        SplitIsSingle(E_TYPE_ENDPOINTS, c.endpoints, sent);
      } else if sent == Split(E_TYPE_CONTROL_STALL, []) {
        SplitIsSingle(E_TYPE_CONTROL_STALL, [], sent);
      } else if sent != [] {
        ReportIsSingle(c, s, step, SlotOf(s.h.flow.slots, s.h.flow.fifo[0]));
      }
    case InEnds(endpoint, completion) =>
      if sent != [] {
        var w := QueueInPacket(c.u2s, s.h.flow.(polled := s.h.flow.polled - multiset{endpoint}), endpoint, completion.data);
        SendNextEffect(w);
        ReportIsSingle(c, s, step, SlotOf(w.slots, w.fifo[0]));
      }
    case ControlEnds(i, completion) =>
      ControlEndsEffect(s.h, i, completion);
      match ControlReply(s.h.control.transfers[i], completion) {
        case Some(r) =>
          if r.stall {
            SplitIsSingle(E_TYPE_CONTROL_STALL, [], sent);
          } else {
            SplitIsSingle(E_TYPE_CONTROL, r.data, sent);
          }
        case None =>
      }
    case _ =>
  }

  // ----- control transfers -----

  /** Each received request has at most one reply, and each reply acted on for request k is the one sent for request k, with
      its stall flag and its bytes, unless some request was given up while it was under way. */
  ghost predicate Matched(k: Control, past: History) {
    && k.seen <= past.requests
    && (forall i, j :: 0 <= i < j < |k.replies| ==> k.replies[i].id != k.replies[j].id)
    && (forall r :: r in k.replies ==> 1 <= r.id <= k.seen)
    && (!past.abandoned ==> forall r :: r in past.consumed ==> r in k.replies)
  }

  lemma RepliesParts(k: Control, box: ReplyBox, phase: Phase, lanes: ControlLanes, past: History)
    requires ExchangeParts(k, box, phase, lanes, past.requests, past.consumed, past.abandoned)
    ensures Matched(k, past)
  {
  }

  /** Replies match their requests, as long as no request has been given up before its packet, its transfer and its reply had
      come to an end. */
  lemma RepliesMatch(c: Config, s: Sys)
    requires ConfigOk(c) && Reachable(c, s)
    ensures Matched(s.h.control, s.past)
  {
    ReachableInv(c, s);
    RepliesParts(s.h.control, s.fw.box, PhaseOf(s.fw.at), LanesOf(s), s.past);
  }

  /** Giving up a request counts as abandoning it exactly when its packet, its transfer or its reply is under way. */
  lemma AbandonsIff(c: Config, s: Sys)
    requires ConfigOk(c) && Reachable(c, s) && Enabled(s, GiveUp)
    ensures Do(c, s, GiveUp).past.abandoned <==> s.past.abandoned || InTransit(LanesOf(s), s.h.control) > 0
  {
    ReachableInv(c, s);
    ExchangeProof.UnderWayMeans(c, s);
  }

  // ----- OUT packets -----

  /** What the PC has written to the device's OUT endpoints, followed by what the OUT packets on the line will make
      it write, is what the firmware has sent, in order, under the original addresses. */
  lemma OutsInOrder(c: Config, s: Sys)
    requires ConfigOk(c) && Reachable(c, s)
    ensures s.h.outs + Writes(c.s2u, ValuesOf(s.toPc, E_TYPE_OUT)) == Writes(c.s2u, s.past.outSent)
  {
    ReachableInv(c, s);
  }
}
