/** What happens in the end: start-up completes, and a pending report reaches the target host. Each series of steps below
    is bounded by a measure of the state it starts from, and needs no new event from USB. */
module Progress {
  import opened Protocol
  import opened Adapter
  import opened Wrappers
  import opened Proxy
  import opened Firmware
  import opened System
  import opened Invariant
  import opened Effects
  import opened Lanes
  import opened Guarantees
  import Preservation
  import Runs

  // ----- start-up -----

  predicate IsDelivery(step: Step) { step.Interrupt? || step.PcReceives? }

  /** The deliveries that packets on the line to the firmware may still cause: one each, and two more for the
      acknowledgement of a start-up packet. */
  function Weight(fs: seq<Frame>): nat {
    if fs == [] then 0 else (if fs[0].kind <= E_TYPE_ENDPOINTS then 3 else 1) + Weight(fs[1..])
  }

  lemma {:induction false} WeightConcat(fs: seq<Frame>, gs: seq<Frame>)
    ensures Weight(fs + gs) == Weight(fs) + Weight(gs)
  {
    if fs == [] {
      assert fs + gs == gs;
    } else {
      WeightConcat(fs[1..], gs);
      assert (fs + gs)[1..] == fs[1..] + gs;
    }
  }

  lemma {:induction false} WeightOfKind(fs: seq<Frame>, kind: byte)
    requires forall f :: f in fs ==> f.kind == kind
    ensures Weight(fs) == if kind <= E_TYPE_ENDPOINTS then 3 * |fs| else |fs|
  {
    if fs != [] {
      WeightOfKind(fs[1..], kind);
    }
  }

  lemma WeightSent(fs: seq<Frame>, kind: byte, data: seq<byte>)
    ensures Weight(fs + Split(kind, data)) == Weight(fs) + if kind <= E_TYPE_ENDPOINTS then 3 * |Split(kind, data)| else |Split(kind, data)|
  {
    WeightConcat(fs, Split(kind, data));
    SplitReassembles(kind, data);
    WeightOfKind(Split(kind, data), kind);
  }

  /** What the PC has not sent yet. */
  function Unsent(c: Config, start: StartUp): nat {
    (if start.indexSent then 0 else 3 * |Split(E_TYPE_INDEX, c.index)|)
    + (if start.endpointsSent then 0 else 3 * |Split(E_TYPE_ENDPOINTS, c.endpoints)|)
  }

  /** A bound on the deliveries until the endpoints are polled. */
  function StartUpWork(c: Config, s: Sys): nat {
    Weight(s.toFw) + 2 * |s.toPc| + Unsent(c, s.h.start)
  }

  lemma InterruptWorks(c: Config, s: Sys)
    requires s.toFw != []
    ensures StartUpWork(c, Do(c, s, Interrupt)) < StartUpWork(c, s)
  {
    IsrEffect(s.fw, s.toFw[0]);
  }

  /** Before the endpoints are polled, a packet from the firmware brings the start-up transfer on, or makes the PC send one
      stall at most. */
  lemma ReceiveSendsLittle(c: Config, h: Host, f: Frame)
    requires h.start.pollRuns == 0 && h.flow.fifo == []
    ensures var (h', sent) := ProcessPacket(c, h, f);
            if f.kind == E_TYPE_ENDPOINTS then h'.start.pollRuns == 1
            else
              && h'.start.pollRuns == 0
              && (|| (h'.start == h.start && (sent == [] || sent == Split(E_TYPE_CONTROL_STALL, [])))
                  || (!h.start.indexSent && h'.start == h.start.(indexSent := true) && sent == Split(E_TYPE_INDEX, c.index))
                  || (!h.start.endpointsSent && h'.start == h.start.(endpointsSent := true) && sent == Split(E_TYPE_ENDPOINTS, c.endpoints)))
  {
  }

  lemma ReceiveWorks(c: Config, s: Sys, s': Sys)
    requires s.toPc != [] && s.h.start.pollRuns == 0 && s.h.flow.fifo == [] && s' == Do(c, s, PcReceives)
    ensures s'.h.start.pollRuns == 1 || (s'.h.start.pollRuns == 0 && StartUpWork(c, s') < StartUpWork(c, s))
  {
    ReceiveSendsLittle(c, s.h, s.toPc[0]);
    var sent := ProcessPacket(c, s.h, s.toPc[0]).1;
    NothingSent(s.toFw);
    if sent == Split(E_TYPE_CONTROL_STALL, []) {
      WeightSent(s.toFw, E_TYPE_CONTROL_STALL, []);
    } else if sent == Split(E_TYPE_INDEX, c.index) {
      WeightSent(s.toFw, E_TYPE_INDEX, c.index);
    } else if sent == Split(E_TYPE_ENDPOINTS, c.endpoints) {
      WeightSent(s.toFw, E_TYPE_ENDPOINTS, c.endpoints);
    }
  }

  lemma NothingQueued(ins: set<byte>, w: Flow, stalled: multiset<byte>)
    requires ConservationInv(ins, 0, w, stalled)
    ensures w.fifo == [] && w.inPending == 0
  {
    var others := w.polled + Pending(w.inPending) + stalled;
    assert multiset(w.fifo) <= multiset(w.fifo) + others == multiset{};
    assert Pending(w.inPending) <= Pending(w.inPending) + (w.polled + multiset(w.fifo) + stalled) == multiset{};
  }

  /** Until the endpoints are polled, every delivery brings start-up closer to its end, whichever comes first, and one
      is always possible. */
  lemma DeliveryWorks(c: Config, s: Sys, step: Step)
    requires ConfigOk(c) && Reachable(c, s) && s.h.start.pollRuns == 0
    ensures s.toFw != [] || s.toPc != []
    ensures Enabled(s, step) && IsDelivery(step) ==>
              var s' := Do(c, s, step);
              s'.h.start.pollRuns == 1 || (s'.h.start.pollRuns == 0 && StartUpWork(c, s') < StartUpWork(c, s))
  {
    StartUpCanProceed(c, s);
    if Enabled(s, step) && step.PcReceives? {
      EndpointsConserved(c, s);
      NothingQueued(c.ins, s.h.flow, s.past.stalled);
      ReceiveWorks(c, s, Do(c, s, step));
    } else if Enabled(s, step) && step.Interrupt? {
      InterruptWorks(c, s);
    }
  }

  lemma DeliveryLeaves(c: Config, s: Sys, step: Step)
    requires Enabled(s, step) && IsDelivery(step)
    ensures var s' := Do(c, s, step);
            s'.fw.at == s.fw.at && s'.past.(taken := s.past.taken) == s.past
  {
    if step.Interrupt? {
      IsrEffect(s.fw, s.toFw[0]);
    }
  }

  /** Start-up completes: from any state of any run in which the endpoints are not polled yet, a bounded number of
      deliveries leads to one in which they are, and in which the firmware has started. */
  lemma {:induction false} StartUpCompletes(c: Config, s: Sys) returns (steps: seq<Step>, t: Sys)
    requires ConfigOk(c) && Reachable(c, s) && s.h.start.pollRuns == 0
    ensures RunSteps(c, s, steps) == Some(t) && Reachable(c, t)
    ensures |steps| <= StartUpWork(c, s) && forall step :: step in steps ==> IsDelivery(step)
    ensures t.h.start.pollRuns == 1 && t.fw.mem.started
    ensures t.fw.at == s.fw.at && t.past.(taken := s.past.taken) == s.past
    decreases StartUpWork(c, s)
  {
    var step := if s.toFw == [] then PcReceives else Interrupt;
    DeliveryWorks(c, s, step);
    DeliveryLeaves(c, s, step);
    var s' := Do(c, s, step);
    Runs.ReachableNext(c, s, step, s');
    var later: seq<Step>;
    if s'.h.start.pollRuns == 1 {
      later, t := [], s';
      Runs.Nothing(c, s');
      StartUpAgreement(c, t);
      WorkPositive(c, s);
    } else {
      later, t := StartUpCompletes(c, s');
    }
    steps := [step] + later;
    Runs.StepThen(c, s, step, later, t);
  }

  lemma WorkPositive(c: Config, s: Sys)
    requires s.toFw != [] || s.toPc != []
    ensures StartUpWork(c, s) >= 1
  {
  }

  // ----- the IN token -----

  /** The moves of the main program until it hands back the token. */
  function MovesLeft(at: Position): nat {
    match at
    case InFreed => 1
    case InCleared => 2
    case InWriting(_, length, written) => if |written| <= length then 3 + length - |written| else 3
    case InSelected(_) => 300
    case InTested => 301
    case Idle => 302
    case ControlSeen => 303
    case Boot => 303
    case ControlWait => 304
    case ControlReady(_) => 305
    case ControlReset(_) => 306
  }

  /** A bound on the moves until the acknowledgement has reached the PC. */
  function TokenWork(s: Sys): nat {
    |s.toFw| + 2 * |s.toPc| + 3 * (if ValuesOf(s.toPc, E_TYPE_IN) != [] then 0 else MovesLeft(s.fw.at))
  }

  /** The PC takes the acknowledgement, which makes the pending endpoint polled again and the next report sent. */
  predicate TakesAck(s: Sys, step: Step) {
    step.PcReceives? && s.toPc != [] && s.toPc[0].kind == E_TYPE_IN
  }

  /** No start-up packet is left on the way to the firmware, and none on the way to the PC makes it send anything. */
  predicate StartUpOver(s: Sys) {
    && s.h.start.indexSent && s.h.start.endpointsSent
    && (forall f :: f in s.toFw ==> f.kind > E_TYPE_ENDPOINTS)
    && (forall f :: f in s.toPc ==> f.kind != E_TYPE_ENDPOINTS)
  }

  lemma AbsentKind(fs: seq<Frame>, kind: byte)
    requires ValuesOf(fs, kind) == []
    ensures forall f :: f in fs ==> f.kind != kind
  {
    forall f | f in fs ensures f.kind != kind {
      var i :| 0 <= i < |fs| && fs[i] == f;
      ValuesOfMember(fs, i);
    }
  }

  lemma PollingMeansOver(c: Config, s: Sys)
    requires StartInv(c, s) && s.h.start.pollRuns == 1
    ensures StartUpOver(s)
  {
    AbsentKind(s.toFw, E_TYPE_DESCRIPTORS);
    AbsentKind(s.toFw, E_TYPE_INDEX);
    AbsentKind(s.toFw, E_TYPE_ENDPOINTS);
    AbsentKind(s.toPc, E_TYPE_ENDPOINTS);
  }

  lemma PendingMeansPolling(ins: set<byte>, pollRuns: nat, w: Flow, stalled: multiset<byte>)
    requires ConservationInv(ins, pollRuns, w, stalled) && w.inPending != 0
    ensures pollRuns == 1
  {
    if pollRuns == 0 {
      NothingQueued(ins, w, stalled);
    }
  }

  lemma InterruptMovesOn(c: Config, s: Sys, s': Sys)
    requires s.toFw != [] && s.toFw[0].kind > E_TYPE_ENDPOINTS && s' == Do(c, s, Interrupt)
    ensures TokenWork(s') < TokenWork(s) && s'.h == s.h && s'.past.completed == s.past.completed
  {
    IsrLeavesMemory(s.fw, s.toFw[0]);
    IsrEffect(s.fw, s.toFw[0]);
    NothingSent(s.toPc);
  }

  lemma LateSends(c: Config, h: Host, f: Frame)
    requires f.kind != E_TYPE_IN && f.kind != E_TYPE_ENDPOINTS && h.start.indexSent && h.start.endpointsSent
    ensures var (h', sent) := ProcessPacket(c, h, f);
            |sent| <= 1 && h'.flow == h.flow
  {
    if f.kind == E_TYPE_CONTROL {
      ControlPacketEffect(c.s2u, h.control, f.value);
    }
  }

  lemma ReceiveMovesOn(c: Config, s: Sys, s': Sys)
    requires s.toFw == [] && s.toPc != [] && s.toPc[0].kind != E_TYPE_IN && s.toPc[0].kind != E_TYPE_ENDPOINTS
    requires s.h.start.indexSent && s.h.start.endpointsSent && s' == Do(c, s, PcReceives)
    ensures TokenWork(s') < TokenWork(s) && s'.h.flow == s.h.flow && s'.past.completed == s.past.completed
  {
    LateSends(c, s.h, s.toPc[0]);
    PopOne(s.toPc);
  }

  /** The main program comes closer to handing the token back. */
  lemma MainComesCloser(c: Config, s: Sys, step: Step, s': Sys)
    requires s.toFw == [] && s.toPc == [] && step == Mover(s) && Enabled(s, step) && s' == Do(c, s, step)
    requires TokenInv(s.fw.slot, s.fw.at, s.h.flow.inPending, [], []) && s.h.flow.inPending != 0
    ensures s'.h == s.h && s'.past.completed == s.past.completed && s'.toFw == [] && s'.toPc == Sent(s, step)
    ensures if step.AckInput? then s.fw.at.InFreed? else MovesLeft(s'.fw.at) < MovesLeft(s.fw.at) && |Sent(s, step)| <= 1
  {
    MainEffect(c, s, step);
  }

  lemma MainMovesOn(c: Config, s: Sys, s': Sys)
    requires s.toFw == [] && s.toPc == [] && Enabled(s, Mover(s)) && s' == Do(c, s, Mover(s))
    requires TokenInv(s.fw.slot, s.fw.at, s.h.flow.inPending, [], []) && s.h.flow.inPending != 0
    ensures TokenWork(s') < TokenWork(s) && s'.h == s.h && s'.past.completed == s.past.completed
  {
    MainComesCloser(c, s, Mover(s), s');
    if s.fw.at.InFreed? {
      assert s'.toPc == [Ack(E_TYPE_IN)] && ValuesOf(s'.toPc, E_TYPE_IN) == [[]] + ValuesOf(s'.toPc[1..], E_TYPE_IN);
    }
  }

  /** While a report is pending, the mover can move, and its step brings the token closer to the PC, unless it is the one
      that takes it there. */
  lemma TokenMovesOn(c: Config, s: Sys, s': Sys)
    requires ConfigOk(c) && Reachable(c, s) && s.h.flow.inPending != 0
    ensures Enabled(s, Mover(s))
    ensures s' == Do(c, s, Mover(s)) && !TakesAck(s, Mover(s)) ==>
              TokenWork(s') < TokenWork(s) && s'.h.flow == s.h.flow && s'.past.completed == s.past.completed
  {
    TokenCanMove(c, s);
    Preservation.ReachableInv(c, s);
    PendingMeansPolling(c.ins, s.h.start.pollRuns, s.h.flow, s.past.stalled);
    PollingMeansOver(c, s);
    if s' == Do(c, s, Mover(s)) && !TakesAck(s, Mover(s)) {
      if s.toFw != [] {
        assert s.toFw[0] in s.toFw;
        InterruptMovesOn(c, s, s');
      } else if s.toPc != [] {
        assert s.toPc[0] in s.toPc;
        ReceiveMovesOn(c, s, s');
      } else {
        MainMovesOn(c, s, s');
      }
    }
  }

  /** Each step is the mover's. */
  predicate OnlyMover(c: Config, s: Sys, steps: seq<Step>)
    decreases |steps|
  {
    steps == [] || (Enabled(s, steps[0]) && steps[0] == Mover(s) && OnlyMover(c, Do(c, s, steps[0]), steps[1..]))
  }

  lemma OnlyMoverMore(c: Config, s: Sys, steps: seq<Step>)
    requires Enabled(s, Mover(s)) && OnlyMover(c, Do(c, s, Mover(s)), steps)
    ensures OnlyMover(c, s, [Mover(s)] + steps)
  {
    assert ([Mover(s)] + steps)[1..] == steps;
  }

  /** What has been delivered, with what is in flight, while nothing is put into the channel or taken from the queue. */
  lemma FlightDelivered(c: Config, s: Sys, t: Sys)
    requires Inv(c, s) && Inv(c, t) && t.h.flow == s.h.flow && t.past.completed == s.past.completed
    ensures t.past.reports + FlightOf(t) == s.past.reports + FlightOf(s)
  {
    ReportsOf(c, s);
    ReportsOf(c, t);
    CancelRight(t.past.reports + FlightOf(t), s.past.reports + FlightOf(s), QueueOf(s));
  }

  lemma CancelRight<T>(a: seq<T>, b: seq<T>, d: seq<T>)
    requires a + d == b + d
    ensures a == b
  {
    assert |a| == |b|;
    assert a == (a + d)[..|a|] && b == (b + d)[..|b|];
  }

  /** When the acknowledgement is the next packet for the PC, nothing is in flight any more; taking it makes the pending
      endpoint polled again and the next queued one pending. */
  ghost predicate Returned(s: Sys, t: Sys) {
    var w := s.h.flow;
    && t.past.reports == s.past.reports + FlightOf(s) && t.past.completed == s.past.completed
    && t.h.flow.polled == w.polled + multiset{w.inPending}
    && t.h.flow.slots == w.slots
    && if w.fifo == [] then t.h.flow.inPending == 0 && t.h.flow.fifo == []
       else t.h.flow.inPending == w.fifo[0] && t.h.flow.fifo == w.fifo[1..]
  }

  lemma AckFreesFlight(slot: InputSlot, at: Position, inPending: byte, packets: seq<seq<byte>>, acks: seq<seq<byte>>)
    requires TokenInv(slot, at, inPending, packets, acks) && acks != []
    ensures InFlight(slot, at.InCleared?, packets) == [] && inPending != 0
  {
  }

  lemma AckReturns(c: Config, s: Sys, t: Sys)
    requires Inv(c, s) && s.toPc != [] && s.toPc[0].kind == E_TYPE_IN && t == Do(c, s, PcReceives)
    ensures Returned(s, t)
  {
    PopOne(s.toPc);
    AckFreesFlight(s.fw.slot, s.fw.at, s.h.flow.inPending, ValuesOf(s.toFw, E_TYPE_IN), ValuesOf(s.toPc, E_TYPE_IN));
    assert s.past.reports + [] == s.past.reports;
    AckEffect(c, s.h, s.toPc[0]);
  }

  lemma AckEffect(c: Config, h: Host, f: Frame)
    requires f.kind == E_TYPE_IN && h.flow.inPending != 0
    ensures var (w, w') := (h.flow, ProcessPacket(c, h, f).0.flow);
            && w'.polled == w.polled + multiset{w.inPending} && w'.slots == w.slots
            && if w.fifo == [] then w'.inPending == 0 && w'.fifo == [] else w'.inPending == w.fifo[0] && w'.fifo == w.fifo[1..]
  {
  }

  /** The pending report is delivered and the token comes back: a bounded number of the mover's steps leads to a state in
      which the target host has the report in flight, its endpoint is polled again, and the next queued report is pending. */
  lemma {:induction false} TokenReturns(c: Config, s: Sys) returns (steps: seq<Step>, t: Sys)
    requires ConfigOk(c) && Reachable(c, s) && s.h.flow.inPending != 0
    ensures RunSteps(c, s, steps) == Some(t) && Reachable(c, t)
    ensures |steps| <= TokenWork(s) && OnlyMover(c, s, steps)
    ensures Returned(s, t)
    decreases TokenWork(s)
  {
    var step := Mover(s);
    var later: seq<Step>;
    TokenMovesOn(c, s, s);
    var s' := Do(c, s, step);
    TokenMovesOn(c, s, s');
    Runs.ReachableNext(c, s, step, s');
    Preservation.ReachableInv(c, s);
    if TakesAck(s, step) {
      later, t := [], s';
      Runs.Nothing(c, s');
      AckReturns(c, s, t);
    } else {
      later, t := TokenReturns(c, s');
      Preservation.ReachableInv(c, s');
      FlightDelivered(c, s, s');
    }
    steps := [step] + later;
    Runs.StepThen(c, s, step, later, t);
    OnlyMoverMore(c, s, later);
  }

  lemma {:induction false} OnlyMoverConcat(c: Config, s: Sys, first: seq<Step>, second: seq<Step>, t: Sys)
    requires OnlyMover(c, s, first) && RunSteps(c, s, first) == Some(t) && OnlyMover(c, t, second)
    ensures OnlyMover(c, s, first + second)
    decreases |first|
  {
    if first == [] {
      assert first + second == second;
    } else {
      assert (first + second)[1..] == first[1..] + second;
      OnlyMoverConcat(c, Do(c, s, first[0]), first[1..], second, t);
    }
  }

  lemma AllPolled(ins: set<byte>, pollRuns: nat, w: Flow, stalled: multiset<byte>)
    requires ConservationInv(ins, pollRuns, w, stalled) && w.inPending == 0 && w.fifo == []
    ensures pollRuns == 1 ==> w.polled + stalled == multiset(ins)
  {
    assert w.polled + multiset(w.fifo) + Pending(w.inPending) + stalled == w.polled + stalled;
  }

  lemma QueueEmpty(c: Config, s: Sys)
    requires ConfigOk(c) && Reachable(c, s) && s.h.flow.inPending == 0
    ensures s.h.flow.fifo == []
  {
    Preservation.ReachableInv(c, s);
    BusyMeans(s.h.flow);
  }

  lemma Drained(c: Config, s: Sys)
    requires ConfigOk(c) && Reachable(c, s) && s.h.flow.inPending == 0
    ensures s.past.reports == Translated(c.u2s, s.past.completed) && s.h.flow.fifo == []
    ensures s.h.start.pollRuns == 1 ==> s.h.flow.polled + s.past.stalled == multiset(c.ins)
  {
    ReportsInOrder(c, s);
    QueueEmpty(c, s);
    EndpointsConserved(c, s);
    AllPolled(c.ins, s.h.start.pollRuns, s.h.flow, s.past.stalled);
  }

  lemma BusyMeans(w: Flow)
    requires Busy(w) && w.inPending == 0
    ensures w.fifo == []
  {
  }

  /** Nothing waits for ever: from every reachable state, the mover alone delivers every report the device has given so far,
      after which each configured IN endpoint that has not failed is polled again. */
  lemma {:induction false} ReportsDrain(c: Config, s: Sys) returns (steps: seq<Step>, t: Sys)
    requires ConfigOk(c) && Reachable(c, s)
    ensures RunSteps(c, s, steps) == Some(t) && Reachable(c, t) && OnlyMover(c, s, steps)
    ensures t.past.completed == s.past.completed && t.past.reports == Translated(c.u2s, s.past.completed)
    ensures t.h.flow.inPending == 0 && t.h.flow.fifo == []
    ensures t.h.start.pollRuns == 1 ==> t.h.flow.polled + t.past.stalled == multiset(c.ins)
    decreases |s.h.flow.fifo|, s.h.flow.inPending
  {
    if s.h.flow.inPending == 0 {
      steps, t := [], s;
      Runs.Nothing(c, s);
      Drained(c, s);
    } else {
      var first, s' := TokenReturns(c, s);
      var later: seq<Step>;
      later, t := ReportsDrain(c, s');
      steps := first + later;
      Runs.RunStepsConcat(c, s, first, later);
      OnlyMoverConcat(c, s, first, later, s');
    }
  }
}
