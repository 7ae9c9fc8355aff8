/** What happens to the replies of a request the firmware has given up: exactly when they can be taken for the answer
    to another request. */
module LateReplies {
  import opened Protocol
  import opened Adapter
  import opened Wrappers
  import opened Proxy
  import opened Firmware
  import opened System
  import opened Invariant
  import opened Lanes
  import opened Runs
  import ExchangeProof
  import Guarantees
  import Preservation
  import Progress

  /** The firmware has acted on something the PC never sent for the request being served. */
  ghost predicate Mistaken(s: Sys) {
    exists r :: r in s.past.consumed && r !in s.h.control.replies
  }

  /** The firmware gives up at once, and never again. */
  predicate GivesUpOnce(steps: seq<Step>) {
    steps != [] && steps[0] == GiveUp && GiveUp !in steps[1..]
  }

  lemma SizeOfBox(c: Config, s: Sys)
    requires ConfigOk(c) && Reachable(c, s)
    ensures |s.fw.box.control| == MAX_PACKET_VALUE_SIZE
    ensures forall r :: r in s.h.control.replies ==> r.id <= s.past.requests
  {
    Preservation.ReachableInv(c, s);
  }

  // ----- giving up a request that is under way -----

  /** What draining the line to the PC keeps. */
  predicate SameExchange(s: Sys, t: Sys) {
    && t.fw == s.fw && t.past == s.past
    && InTransit(LanesOf(t), t.h.control) == InTransit(LanesOf(s), s.h.control)
  }

  lemma ReceiveKeepsTransit(c: Config, s: Sys, t: Sys)
    requires s.toPc != [] && t == Do(c, s, PcReceives)
    ensures SameExchange(s, t)
  {
    var f := s.toPc[0];
    PopOne(s.toPc);
    if f.kind == E_TYPE_CONTROL {
      if IsQualifierRequest(TranslateSetup(c.s2u, f.value)) {
        ExchangeProof.RefusedLanes(c, s, Reply(s.h.control.seen + 1, true, []));
      } else {
        ExchangeProof.AcceptEffect(c, s, ControlTransfer(s.h.control.seen + 1, TranslateSetup(c.s2u, f.value)));
      }
    } else if f.kind == E_TYPE_OUT {
      OutKeepsTransit(c, s, t);
    } else {
      ExchangeProof.OtherPacketLanes(c, s, t);
    }
  }

  lemma OutKeepsTransit(c: Config, s: Sys, t: Sys)
    requires s.toPc != [] && s.toPc[0].kind == E_TYPE_OUT && t == Do(c, s, PcReceives)
    ensures SameExchange(s, t)
  {
    PopOne(s.toPc);
    assert s.toFw + [] == s.toFw;
  }

  /** The PC takes everything the firmware has sent. */
  lemma {:induction false} PcCatchesUp(c: Config, s: Sys) returns (steps: seq<Step>, t: Sys)
    ensures RunSteps(c, s, steps) == Some(t) && GiveUp !in steps
    ensures SameExchange(s, t) && t.toPc == []
    decreases |s.toPc|
  {
    if s.toPc == [] {
      steps, t := [], s;
      Nothing(c, s);
    } else {
      var s' := Do(c, s, PcReceives);
      ReceiveKeepsTransit(c, s, s');
      steps, t := PcCatchesUp(c, s');
      StepThen(c, s, PcReceives, steps, t);
      steps := [PcReceives] + steps;
    }
  }

  /** A reply or a stall is on its way to the firmware. */
  predicate ReplyOnLine(s: Sys) { LanesOf(s).replies != [] || LanesOf(s).stalls != [] }

  lemma StallEnds(c: Config, s: Sys, s': Sys)
    requires s.h.control.transfers != [] && s' == Do(c, s, ControlEnds(0, Stall))
    ensures ReplyOnLine(s') && s'.fw == s.fw && s'.past.requests == s.past.requests && s'.past.consumed == s.past.consumed
  {
    var r := Reply(s.h.control.transfers[0].id, true, []);
    ExchangeProof.AnsweredEffect(c, s, 0, Stall, r, s');
  }

  /** The device refuses the transfer under way, if there is one. */
  lemma TransferEnds(c: Config, s: Sys) returns (steps: seq<Step>, t: Sys)
    requires s.toPc == [] && InTransit(LanesOf(s), s.h.control) > 0
    ensures RunSteps(c, s, steps) == Some(t) && GiveUp !in steps
    ensures ReplyOnLine(t) && t.fw == s.fw && t.past.requests == s.past.requests && t.past.consumed == s.past.consumed
  {
    if s.h.control.transfers == [] {
      steps, t := [], s;
      Nothing(c, s);
    } else {
      t := Do(c, s, ControlEnds(0, Stall));
      StallEnds(c, s, t);
      Nothing(c, t);
      StepThen(c, s, ControlEnds(0, Stall), [], t);
      steps := [ControlEnds(0, Stall)] + [];
    }
  }

  /** A request for 18 bytes of the device descriptor. */
  const REQUEST: seq<byte> := [USB_DIR_IN, USB_REQ_GET_DESCRIPTOR, 0, 1, 0, 0, 18, 0]

  /** The target host makes its next request. */
  lemma NextRequest(c: Config, s: Sys) returns (steps: seq<Step>, t: Sys)
    requires s.fw.at.Idle?
    ensures RunSteps(c, s, steps) == Some(t) && GiveUp !in steps
    ensures t.h == s.h && t.toFw == s.toFw && t.toPc == s.toPc + [Frame(E_TYPE_CONTROL, REQUEST)]
    ensures t.fw == s.fw.(at := ControlWait, box := s.fw.box.(controlReply := false, controlStall := false))
    ensures t.past.requests == s.past.requests + 1 && t.past.consumed == s.past.consumed && t.past.abandoned == s.past.abandoned
  {
    var s1 := Do(c, s, StartControl(REQUEST));
    var s2 := Do(c, s1, ForgetStall);
    t := Do(c, s2, SendControl);
    Nothing(c, t);
    StepThen(c, s2, SendControl, [], t);
    StepThen(c, s1, ForgetStall, [SendControl] + [], t);
    StepThen(c, s, StartControl(REQUEST), [ForgetStall] + ([SendControl] + []), t);
    steps := [StartControl(REQUEST)] + ([ForgetStall] + ([SendControl] + []));
  }

  lemma BoxTakes(fw: Fw, f: Frame)
    requires |fw.box.control| == MAX_PACKET_VALUE_SIZE
    ensures var box := Isr(fw, f).0.box;
            |box.control| == MAX_PACKET_VALUE_SIZE && box.controlReply == (fw.box.controlReply || IsReply(f.kind))
  {
  }

  lemma LanesMove(fs: seq<Frame>)
    requires fs != [] && !IsReply(fs[0].kind)
    ensures ValuesOf(fs[1..], E_TYPE_CONTROL) == ValuesOf(fs, E_TYPE_CONTROL)
    ensures ValuesOf(fs[1..], E_TYPE_CONTROL_STALL) == ValuesOf(fs, E_TYPE_CONTROL_STALL)
  {
    PopOne(fs);
  }

  lemma ReplyTaken(c: Config, s: Sys, s': Sys)
    requires s.toFw != [] && |s.fw.box.control| == MAX_PACKET_VALUE_SIZE && s' == Do(c, s, Interrupt)
    requires s.fw.box.controlReply || ReplyOnLine(s)
    ensures |s'.fw.box.control| == MAX_PACKET_VALUE_SIZE && s'.fw.at == s.fw.at && s'.h == s.h && s'.toFw == s.toFw[1..]
    ensures s'.past.requests == s.past.requests && s'.past.consumed == s.past.consumed
    ensures s'.fw.box.controlReply || ReplyOnLine(s')
  {
    BoxTakes(s.fw, s.toFw[0]);
    ExchangeProof.InterruptLanes(c, s);
    if !IsReply(s.toFw[0].kind) {
      LanesMove(s.toFw);
    }
  }

  /** The interrupt takes everything on its line; a reply among it is left in the buffer. */
  lemma {:induction false} FirmwareCatchesUp(c: Config, s: Sys) returns (steps: seq<Step>, t: Sys)
    requires |s.fw.box.control| == MAX_PACKET_VALUE_SIZE && (s.fw.box.controlReply || ReplyOnLine(s))
    ensures RunSteps(c, s, steps) == Some(t) && GiveUp !in steps
    ensures t.fw.box.controlReply && t.fw.at == s.fw.at && t.h == s.h
    ensures t.past.requests == s.past.requests && t.past.consumed == s.past.consumed
    decreases |s.toFw|
  {
    if s.toFw == [] {
      steps, t := [], s;
      Nothing(c, s);
    } else {
      var s' := Do(c, s, Interrupt);
      ReplyTaken(c, s, s');
      steps, t := FirmwareCatchesUp(c, s');
      StepThen(c, s, Interrupt, steps, t);
      steps := [Interrupt] + steps;
    }
  }

  lemma ActsOnReply(c: Config, s: Sys) returns (steps: seq<Step>, t: Sys)
    requires s.fw.at.ControlWait? && s.fw.box.controlReply
    ensures RunSteps(c, s, steps) == Some(t) && GiveUp !in steps
    ensures t.h == s.h && t.past.consumed == s.past.consumed + [Read(s.fw.box, s.past.requests)]
  {
    var s' := Do(c, s, SeeReply);
    t := Do(c, s', ActOnReply);
    Nothing(c, t);
    StepThen(c, s', ActOnReply, [], t);
    StepThen(c, s, SeeReply, [ActOnReply] + [], t);
    steps := [SeeReply] + ([ActOnReply] + []);
  }

  /** With a reply on the line and no request being served, the next request gets that reply. */
  lemma NextRequestGetsIt(c: Config, s: Sys) returns (steps: seq<Step>, t: Sys)
    requires s.fw.at.Idle? && ReplyOnLine(s) && |s.fw.box.control| == MAX_PACKET_VALUE_SIZE
    ensures RunSteps(c, s, steps) == Some(t) && GiveUp !in steps
    ensures t.h == s.h && exists r :: r in t.past.consumed && r.id == s.past.requests + 1
  {
    var asking, asked := NextRequest(c, s);
    var taking, taken := FirmwareCatchesUp(c, asked);
    var acting: seq<Step>;
    acting, t := ActsOnReply(c, taken);
    RunStepsConcat(c, asked, taking, acting);
    RunStepsConcat(c, s, asking, taking + acting);
    steps := asking + (taking + acting);
    var r := Read(taken.fw.box, taken.past.requests);
    assert r in t.past.consumed && r.id == s.past.requests + 1;
  }

  /** From the moment the request is given up to that point. */
  lemma LateReplyComes(c: Config, s: Sys) returns (steps: seq<Step>, t: Sys)
    requires s.fw.at.Idle? && InTransit(LanesOf(s), s.h.control) > 0
    ensures RunSteps(c, s, steps) == Some(t) && GiveUp !in steps
    ensures ReplyOnLine(t) && t.fw == s.fw && t.past.requests == s.past.requests
  {
    var draining, drained := PcCatchesUp(c, s);
    var ending: seq<Step>;
    ending, t := TransferEnds(c, drained);
    RunStepsConcat(c, s, draining, ending);
    steps := draining + ending;
  }

  /** A request given up while its packet, transfer or reply is under way: the next one may be given its reply. */
  lemma GivenUpUnderWay(c: Config, s: Sys) returns (steps: seq<Step>, t: Sys)
    requires ConfigOk(c) && Reachable(c, s) && s.fw.at.ControlWait? && !s.fw.box.controlReply
    requires InTransit(LanesOf(s), s.h.control) > 0
    ensures GivesUpOnce(steps) && RunSteps(c, s, steps) == Some(t) && Reachable(c, t) && Mistaken(t)
  {
    var free := Do(c, s, GiveUp);
    ReachableNext(c, s, GiveUp, free);
    ExchangeProof.GiveUpEffect(c, s, free);
    var coming, late := LateReplyComes(c, free);
    ReachableRun(c, free, coming, late);
    SizeOfBox(c, late);
    var serving: seq<Step>;
    serving, t := NextRequestGetsIt(c, late);
    RunStepsConcat(c, free, coming, serving);
    StepThen(c, s, GiveUp, coming + serving, t);
    steps := [GiveUp] + (coming + serving);
    ReachableRun(c, s, steps, t);
    var r :| r in t.past.consumed && r.id == late.past.requests + 1;
    assert r !in t.h.control.replies;
  }

  // ----- giving up a request that has come to an end -----

  lemma KeepsAbandoned(c: Config, s: Sys, step: Step)
    requires Enabled(s, step) && step != GiveUp
    ensures Do(c, s, step).past.abandoned == s.past.abandoned
  {
  }

  lemma {:induction false} RunKeepsAbandoned(c: Config, s: Sys, steps: seq<Step>, t: Sys)
    requires GiveUp !in steps && RunSteps(c, s, steps) == Some(t)
    ensures t.past.abandoned == s.past.abandoned
    decreases |steps|
  {
    if steps != [] {
      assert steps[0] in steps;
      KeepsAbandoned(c, s, steps[0]);
      RunKeepsAbandoned(c, Do(c, s, steps[0]), steps[1..], t);
    }
  }

  lemma GivenUpAtItsEnd(c: Config, s: Sys, steps: seq<Step>, t: Sys)
    requires ConfigOk(c) && Reachable(c, s) && !s.past.abandoned && InTransit(LanesOf(s), s.h.control) == 0
    requires GivesUpOnce(steps) && RunSteps(c, s, steps) == Some(t)
    ensures !t.past.abandoned && !Mistaken(t)
  {
    Preservation.ReachableInv(c, s);
    ExchangeProof.UnderWayMeans(c, s);
    RunKeepsAbandoned(c, Do(c, s, GiveUp), steps[1..], t);
    ReachableRun(c, s, steps, t);
    Guarantees.RepliesMatch(c, t);
  }

  // ----- the exact condition -----

  /** Giving up a request can make the firmware act on a reply that is not the one to the request being served exactly
      when the packet, the transfer or the reply of the request given up is still under way. */
  lemma MistakenIff(c: Config, s: Sys)
    requires ConfigOk(c) && Reachable(c, s) && !s.past.abandoned && s.fw.at.ControlWait? && !s.fw.box.controlReply
    ensures InTransit(LanesOf(s), s.h.control) > 0
       <==> exists steps, t :: GivesUpOnce(steps) && RunSteps(c, s, steps) == Some(t) && Mistaken(t)
  {
    if InTransit(LanesOf(s), s.h.control) > 0 {
      var steps, t := GivenUpUnderWay(c, s);
    } else {
      forall steps, t | GivesUpOnce(steps) && RunSteps(c, s, steps) == Some(t) ensures !Mistaken(t) {
        GivenUpAtItsEnd(c, s, steps, t);
      }
    }
  }

  /** A request is under way in some run. */
  lemma RequestIsMade(c: Config) returns (s: Sys)
    requires ConfigOk(c)
    ensures Reachable(c, s) && !s.past.abandoned && s.fw.at.ControlWait? && !s.fw.box.controlReply
    ensures InTransit(LanesOf(s), s.h.control) > 0
  {
    ReachableStart(c);
    var starting, started := Progress.StartUpCompletes(c, Initial(c));
    var idle := Do(c, started, LeaveBoot);
    ReachableNext(c, started, LeaveBoot, idle);
    var asking: seq<Step>;
    asking, s := NextRequest(c, idle);
    ReachableRun(c, idle, asking, s);
    ValuesOfSnoc(idle.toPc, Frame(E_TYPE_CONTROL, REQUEST), E_TYPE_CONTROL);
  }

  /** So the mistake does happen: whatever start-up has fixed, some run of the system contains it. */
  lemma MistakeIsReachable(c: Config) returns (t: Sys)
    requires ConfigOk(c)
    ensures Reachable(c, t) && Mistaken(t)
  {
    var s := RequestIsMade(c);
    var steps: seq<Step>;
    steps, t := GivenUpUnderWay(c, s);
  }
}
