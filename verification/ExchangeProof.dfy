/** Control requests and their replies, and the packets of the OUT endpoints. */
module ExchangeProof {
  import opened Protocol
  import opened Adapter
  import opened Proxy
  import opened Firmware
  import opened System
  import opened Invariant
  import opened Lanes
  import opened Effects
  import opened Wrappers

  // ----- request numbers -----

  lemma AcceptKeepsIds(k: Control, v: seq<byte>, rest: seq<seq<byte>>, requests: nat, t: ControlTransfer)
    requires ReplyIdInv(k, [v] + rest, requests) && t.id == k.seen + 1
    ensures ReplyIdInv(k.(seen := t.id, transfers := k.transfers + [t]), rest, requests)
  {
  }

  lemma RefuseKeepsIds(k: Control, v: seq<byte>, rest: seq<seq<byte>>, requests: nat, r: Reply)
    requires ReplyIdInv(k, [v] + rest, requests) && r.id == k.seen + 1
    ensures ReplyIdInv(k.(seen := r.id, replies := k.replies + [r]), rest, requests)
  {
  }

  /** A transfer leaves the list; what is left keeps distinct numbers, none of them that of the transfer. */
  lemma RemoveKeepsIds(k: Control, packets: seq<seq<byte>>, requests: nat, i: nat)
    requires ReplyIdInv(k, packets, requests) && i < |k.transfers|
    ensures var k' := k.(transfers := k.transfers[..i] + k.transfers[i + 1..]);
            && ReplyIdInv(k', packets, requests)
            && (forall j :: 0 <= j < |k'.transfers| ==> k'.transfers[j].id != k.transfers[i].id)
            && (forall j :: 0 <= j < |k'.replies| ==> k'.replies[j].id != k.transfers[i].id)
  {
    var ts := k.transfers[..i] + k.transfers[i + 1..];
    forall j | 0 <= j < |ts| ensures ts[j] == k.transfers[if j < i then j else j + 1] {
    }
  }

  lemma AnswerKeepsIds(k: Control, packets: seq<seq<byte>>, requests: nat, r: Reply)
    requires ReplyIdInv(k, packets, requests) && 1 <= r.id <= k.seen
    requires forall j :: 0 <= j < |k.transfers| ==> k.transfers[j].id != r.id
    requires forall j :: 0 <= j < |k.replies| ==> k.replies[j].id != r.id
    ensures ReplyIdInv(k.(replies := k.replies + [r]), packets, requests)
  {
  }

  // ----- the main program -----

  lemma ResetParts(k: Control, box: ReplyBox, phase: Phase, lanes: ControlLanes, requests: nat, consumed: seq<Reply>, abandoned: bool)
    requires phase == Outside && ExchangeParts(k, box, phase, lanes, requests, consumed, abandoned)
    ensures ExchangeParts(k, box.(controlReply := false), Resetting, lanes, requests, consumed, abandoned)
  {
  }

  lemma ReadyParts(k: Control, box: ReplyBox, phase: Phase, lanes: ControlLanes, requests: nat, consumed: seq<Reply>, abandoned: bool)
    requires phase == Resetting && ExchangeParts(k, box, phase, lanes, requests, consumed, abandoned)
    ensures ExchangeParts(k, box.(controlStall := false), Ready, lanes, requests, consumed, abandoned)
  {
  }

  lemma AbortParts(k: Control, box: ReplyBox, phase: Phase, lanes: ControlLanes, requests: nat, consumed: seq<Reply>, abandoned: bool)
    requires phase == Ready && ExchangeParts(k, box, phase, lanes, requests, consumed, abandoned)
    ensures ExchangeParts(k, box, Outside, lanes, requests, consumed, abandoned)
  {
  }

  lemma RequestParts(k: Control, box: ReplyBox, phase: Phase, lanes: ControlLanes, requests: nat, consumed: seq<Reply>, abandoned: bool, v: seq<byte>)
    requires phase == Ready && ExchangeParts(k, box, phase, lanes, requests, consumed, abandoned)
    ensures ExchangeParts(k, box, Awaiting, lanes.(requests := lanes.requests + [v]), requests + 1, consumed, abandoned)
  {
  }

  lemma SeeParts(k: Control, box: ReplyBox, phase: Phase, lanes: ControlLanes, requests: nat, consumed: seq<Reply>, abandoned: bool)
    requires phase == Awaiting && ExchangeParts(k, box, phase, lanes, requests, consumed, abandoned) && box.controlReply
    ensures ExchangeParts(k, box, Seen, lanes, requests, consumed, abandoned)
  {
  }

  lemma ActParts(k: Control, box: ReplyBox, phase: Phase, lanes: ControlLanes, requests: nat, consumed: seq<Reply>, abandoned: bool)
    requires phase == Seen && ExchangeParts(k, box, phase, lanes, requests, consumed, abandoned)
    ensures ExchangeParts(k, box, Outside, lanes, requests, consumed + [Read(box, requests)], abandoned)
  {
  }

  // ----- the interrupt -----

  lemma ReplyArrivesParts(k: Control, box: ReplyBox, phase: Phase, lanes: ControlLanes, requests: nat, consumed: seq<Reply>, abandoned: bool,
                          v: seq<byte>, rest: seq<seq<byte>>)
    requires ExchangeParts(k, box, phase, lanes, requests, consumed, abandoned) && lanes.replies == [v] + rest
    requires |v| <= MAX_PACKET_VALUE_SIZE
    ensures Fits(box.control, 0, v)
    ensures ExchangeParts(k, ReplyBox(Overlay(box.control, 0, v), |v|, true, box.controlStall), phase, lanes.(replies := rest), requests, consumed, abandoned)
  {
    assert lanes.replies[0] == v;
    assert Overlay(box.control, 0, v)[..|v|] == v;
  }

  lemma StallArrivesParts(k: Control, box: ReplyBox, phase: Phase, lanes: ControlLanes, requests: nat, consumed: seq<Reply>, abandoned: bool,
                          v: seq<byte>, rest: seq<seq<byte>>)
    requires ExchangeParts(k, box, phase, lanes, requests, consumed, abandoned) && lanes.stalls == [v] + rest
    requires |v| <= MAX_PACKET_VALUE_SIZE
    ensures Fits(box.control, 0, v)
    ensures ExchangeParts(k, ReplyBox(Overlay(box.control, 0, v), box.controlReplyLen, true, true), phase, lanes.(stalls := rest), requests, consumed, abandoned)
  {
  }

  // ----- the PC -----

  /** What a reply adds to the lanes towards the firmware. */
  function WithReply(lanes: ControlLanes, r: Reply): ControlLanes {
    if r.stall then lanes.(stalls := lanes.stalls + [[]]) else lanes.(replies := lanes.replies + [r.data])
  }

  lemma AcceptParts(k: Control, box: ReplyBox, phase: Phase, lanes: ControlLanes, requests: nat, consumed: seq<Reply>, abandoned: bool,
                    v: seq<byte>, rest: seq<seq<byte>>, t: ControlTransfer)
    requires ExchangeParts(k, box, phase, lanes, requests, consumed, abandoned) && lanes.requests == [v] + rest
    requires t.id == k.seen + 1
    ensures ExchangeParts(k.(seen := t.id, transfers := k.transfers + [t]), box, phase, lanes.(requests := rest), requests, consumed, abandoned)
  {
    AcceptKeepsIds(k, v, rest, requests, t);
  }

  lemma RefuseParts(k: Control, box: ReplyBox, phase: Phase, lanes: ControlLanes, requests: nat, consumed: seq<Reply>, abandoned: bool,
                    v: seq<byte>, rest: seq<seq<byte>>, r: Reply)
    requires ExchangeParts(k, box, phase, lanes, requests, consumed, abandoned) && lanes.requests == [v] + rest
    requires r == Reply(k.seen + 1, true, [])
    ensures ExchangeParts(k.(seen := r.id, replies := k.replies + [r]), box, phase, WithReply(lanes.(requests := rest), r), requests, consumed, abandoned)
  {
    RefuseKeepsIds(k, v, rest, requests, r);
  }

  lemma DropParts(k: Control, box: ReplyBox, phase: Phase, lanes: ControlLanes, requests: nat, consumed: seq<Reply>, abandoned: bool, i: nat)
    requires ExchangeParts(k, box, phase, lanes, requests, consumed, abandoned) && i < |k.transfers|
    ensures ExchangeParts(k.(transfers := k.transfers[..i] + k.transfers[i + 1..]), box, phase, lanes, requests, consumed, abandoned)
  {
    RemoveKeepsIds(k, lanes.requests, requests, i);
  }

  lemma AnswerParts(k: Control, box: ReplyBox, phase: Phase, lanes: ControlLanes, requests: nat, consumed: seq<Reply>, abandoned: bool, i: nat, r: Reply)
    requires ExchangeParts(k, box, phase, lanes, requests, consumed, abandoned) && i < |k.transfers|
    requires r.id == k.transfers[i].id && (r.stall ==> r.data == [])
    ensures ExchangeParts(k.(transfers := k.transfers[..i] + k.transfers[i + 1..], replies := k.replies + [r]), box, phase, WithReply(lanes, r),
                          requests, consumed, abandoned)
  {
    RemoveKeepsIds(k, lanes.requests, requests, i);
    var k1 := k.(transfers := k.transfers[..i] + k.transfers[i + 1..]);
    AnswerKeepsIds(k1, lanes.requests, requests, r);
  }

  // ----- OUT packets -----

  lemma {:induction false} WritesConcat(s2u: seq<byte>, vs: seq<seq<byte>>, ws: seq<seq<byte>>)
    ensures Writes(s2u, vs + ws) == Writes(s2u, vs) + Writes(s2u, ws)
  {
    if vs == [] {
      assert vs + ws == ws;
    } else {
      WritesConcat(s2u, vs[1..], ws);
      assert (vs + ws)[1..] == vs[1..] + ws && (vs + ws)[0] == vs[0];
      var first := [WriteOf(s2u, vs[0])];
      assert first + (Writes(s2u, vs[1..]) + Writes(s2u, ws)) == first + Writes(s2u, vs[1..]) + Writes(s2u, ws);
    }
  }

  lemma OutSentParts(s2u: seq<byte>, outs: seq<OutWrite>, packets: seq<seq<byte>>, outSent: seq<seq<byte>>, v: seq<byte>)
    requires OutInv(s2u, outs, packets, outSent)
    ensures OutInv(s2u, outs, packets + [v], outSent + [v])
  {
    WritesConcat(s2u, packets, [v]);
    WritesConcat(s2u, outSent, [v]);
    assert outs + (Writes(s2u, packets) + Writes(s2u, [v])) == outs + Writes(s2u, packets) + Writes(s2u, [v]);
  }

  lemma OutTakenParts(s2u: seq<byte>, outs: seq<OutWrite>, v: seq<byte>, rest: seq<seq<byte>>, outSent: seq<seq<byte>>)
    requires OutInv(s2u, outs, [v] + rest, outSent)
    ensures OutInv(s2u, outs + [WriteOf(s2u, v)], rest, outSent)
  {
    assert ([v] + rest)[1..] == rest;
    assert outs + ([WriteOf(s2u, v)] + Writes(s2u, rest)) == outs + [WriteOf(s2u, v)] + Writes(s2u, rest);
  }

  // ----- steps -----

  /** What a step of the main program puts on the lanes of this concern. */
  lemma SentLanes(s: Sys, step: Step)
    requires Enabled(s, step) && IsMain(step)
    ensures ValuesOf(s.toPc + Sent(s, step), E_TYPE_CONTROL)
         == if step.SendControl? then ValuesOf(s.toPc, E_TYPE_CONTROL) + [s.fw.at.request] else ValuesOf(s.toPc, E_TYPE_CONTROL)
    ensures ValuesOf(s.toPc + Sent(s, step), E_TYPE_OUT)
         == if step.SendOut? then ValuesOf(s.toPc, E_TYPE_OUT) + [[step.endpoint] + step.data] else ValuesOf(s.toPc, E_TYPE_OUT)
  {
    NothingSent(s.toPc);
    if Sent(s, step) != [] {
      var f := Sent(s, step)[0];
      assert Sent(s, step) == [f];
      AppendOne(s.toPc, f);
    }
  }

  /** The invariant of a state, from its parts. */
  lemma ExchangeFrom(c: Config, s: Sys, k: Control, box: ReplyBox, phase: Phase, lanes: ControlLanes, requests: nat,
                     consumed: seq<Reply>, abandoned: bool, packets: seq<seq<byte>>)
    requires ExchangeParts(k, box, phase, lanes, requests, consumed, abandoned) && OutInv(c.s2u, s.h.outs, packets, s.past.outSent)
    requires s.h.control == k && s.fw.box == box && PhaseOf(s.fw.at) == phase && LanesOf(s) == lanes
    requires s.past.requests == requests && s.past.consumed == consumed && s.past.abandoned == abandoned
    requires ValuesOf(s.toPc, E_TYPE_OUT) == packets
    ensures ExchangeInv(c, s)
  {
  }

  predicate ServesControl(step: Step) {
    || step.StartControl? || step.ForgetStall? || step.AbortControl? || step.SendControl? || step.SeeReply? || step.ActOnReply? || step.GiveUp?
  }

  lemma OtherMoves(c: Config, s: Sys, step: Step)
    requires Enabled(s, step) && IsMain(step) && !ServesControl(step)
    ensures var s' := Do(c, s, step);
            && s'.fw.box == s.fw.box && PhaseOf(s'.fw.at) == PhaseOf(s.fw.at) == Outside
            && s'.past.requests == s.past.requests && s'.past.consumed == s.past.consumed && s'.past.abandoned == s.past.abandoned
            && s'.past.outSent == (if step.SendOut? then s.past.outSent + [[step.endpoint] + step.data] else s.past.outSent)
  {
  }

  lemma OtherMoveKeeps(c: Config, s: Sys, step: Step)
    requires ExchangeInv(c, s) && Enabled(s, step) && IsMain(step) && !ServesControl(step)
    ensures ExchangeInv(c, Do(c, s, step))
  {
    MainEffect(c, s, step);
    SentLanes(s, step);
    OtherMoves(c, s, step);
    assert LanesOf(Do(c, s, step)) == LanesOf(s);
    if step.SendOut? {
      OutSentParts(c.s2u, s.h.outs, ValuesOf(s.toPc, E_TYPE_OUT), s.past.outSent, [step.endpoint] + step.data);
    }
  }

  lemma PrepareEffect(c: Config, s: Sys, step: Step, s': Sys)
    requires Enabled(s, step) && (step.StartControl? || step.ForgetStall? || step.AbortControl?) && s' == Do(c, s, step)
    ensures s'.h == s.h && s'.toPc == s.toPc && s'.past == s.past && LanesOf(s') == LanesOf(s)
    ensures PhaseOf(s.fw.at) == (if step.StartControl? then Outside else if step.ForgetStall? then Resetting else Ready)
    ensures PhaseOf(s'.fw.at) == (if step.StartControl? then Resetting else if step.ForgetStall? then Ready else Outside)
    ensures s'.fw.box == if step.StartControl? then s.fw.box.(controlReply := false) else if step.ForgetStall? then s.fw.box.(controlStall := false) else s.fw.box
  {
  }

  lemma PrepareKeeps(c: Config, s: Sys, step: Step)
    requires ExchangeInv(c, s) && Enabled(s, step)
    requires step.StartControl? || step.ForgetStall? || step.AbortControl?
    ensures ExchangeInv(c, Do(c, s, step))
  {
    var k, box, lanes, past, s' := s.h.control, s.fw.box, LanesOf(s), s.past, Do(c, s, step);
    PrepareEffect(c, s, step, s');
    if step.StartControl? {
      ResetParts(k, box, PhaseOf(s.fw.at), lanes, past.requests, past.consumed, past.abandoned);
    } else if step.ForgetStall? {
      ReadyParts(k, box, PhaseOf(s.fw.at), lanes, past.requests, past.consumed, past.abandoned);
    } else {
      AbortParts(k, box, PhaseOf(s.fw.at), lanes, past.requests, past.consumed, past.abandoned);
    }
    ExchangeFrom(c, s', k, s'.fw.box, PhaseOf(s'.fw.at), lanes, past.requests, past.consumed, past.abandoned, ValuesOf(s.toPc, E_TYPE_OUT));
  }

  lemma RequestEffect(c: Config, s: Sys)
    requires Enabled(s, SendControl)
    ensures var s' := Do(c, s, SendControl);
            && s'.h == s.h && s'.fw.box == s.fw.box && s'.fw.at == ControlWait
            && LanesOf(s') == LanesOf(s).(requests := LanesOf(s).requests + [s.fw.at.request])
            && ValuesOf(s'.toPc, E_TYPE_OUT) == ValuesOf(s.toPc, E_TYPE_OUT)
            && s'.past == s.past.(requests := s.past.requests + 1, asked := s.past.asked + [s.fw.at.request])
  {
    SentLanes(s, SendControl);
  }

  lemma Requested(c: Config, s: Sys, k: Control, box: ReplyBox, phase: Phase, lanes: ControlLanes, requests: nat, consumed: seq<Reply>, abandoned: bool,
                  v: seq<byte>, packets: seq<seq<byte>>)
    requires phase == Ready && ExchangeParts(k, box, phase, lanes, requests, consumed, abandoned) && OutInv(c.s2u, s.h.outs, packets, s.past.outSent)
    requires s.h.control == k && s.fw.box == box && PhaseOf(s.fw.at) == Awaiting && LanesOf(s) == lanes.(requests := lanes.requests + [v])
    requires s.past.requests == requests + 1 && s.past.consumed == consumed && s.past.abandoned == abandoned
    requires ValuesOf(s.toPc, E_TYPE_OUT) == packets
    ensures ExchangeInv(c, s)
  {
    RequestParts(k, box, phase, lanes, requests, consumed, abandoned, v);
    ExchangeFrom(c, s, k, box, Awaiting, lanes.(requests := lanes.requests + [v]), requests + 1, consumed, abandoned, packets);
  }

  lemma RequestedFrom(c: Config, s: Sys, s': Sys)
    requires ExchangeInv(c, s) && s.fw.at.ControlReady? && s'.fw.at == ControlWait && s'.h == s.h && s'.fw.box == s.fw.box
    requires LanesOf(s') == LanesOf(s).(requests := LanesOf(s).requests + [s.fw.at.request])
    requires ValuesOf(s'.toPc, E_TYPE_OUT) == ValuesOf(s.toPc, E_TYPE_OUT) && s'.past.outSent == s.past.outSent
    requires s'.past.requests == s.past.requests + 1 && s'.past.consumed == s.past.consumed && s'.past.abandoned == s.past.abandoned
    ensures ExchangeInv(c, s')
  {
    var past := s.past;
    Requested(c, s', s.h.control, s.fw.box, PhaseOf(s.fw.at), LanesOf(s), past.requests, past.consumed, past.abandoned,
              s.fw.at.request, ValuesOf(s.toPc, E_TYPE_OUT));
  }

  lemma RequestKeeps(c: Config, s: Sys)
    requires ExchangeInv(c, s) && Enabled(s, SendControl)
    ensures ExchangeInv(c, Do(c, s, SendControl))
  {
    RequestEffect(c, s);
    RequestedFrom(c, s, Do(c, s, SendControl));
  }

  /** Giving up a request that has come to an end changes nothing for the replies to come; the others are no longer matched. */
  lemma GiveUpParts(k: Control, box: ReplyBox, phase: Phase, lanes: ControlLanes, requests: nat, consumed: seq<Reply>, abandoned: bool, underWay: bool)
    requires ExchangeParts(k, box, phase, lanes, requests, consumed, abandoned)
    requires !underWay ==> phase == Awaiting && InTransit(lanes, k) == 0
    ensures ExchangeParts(k, box, Outside, lanes, requests, consumed, abandoned || underWay)
  {
  }

  lemma NothingUnderWay(k: Control, lanes: ControlLanes, past: History)
    requires k.seen + |lanes.requests| == past.requests && past.taken + |lanes.replies| + |lanes.stalls| == |k.replies|
    ensures UnderWay(k, past) <==> InTransit(lanes, k) != 0
  {
  }

  lemma ConsumeEffect(c: Config, s: Sys, step: Step, s': Sys)
    requires Enabled(s, step) && (step.SeeReply? || step.ActOnReply?) && s' == Do(c, s, step)
    ensures s'.h == s.h && s'.fw.box == s.fw.box && s'.toPc == s.toPc && LanesOf(s') == LanesOf(s)
    ensures PhaseOf(s.fw.at) == (if step.ActOnReply? then Seen else Awaiting) && PhaseOf(s'.fw.at) == (if step.SeeReply? then Seen else Outside)
    ensures s'.past.requests == s.past.requests && s'.past.outSent == s.past.outSent && s'.past.abandoned == s.past.abandoned
    ensures s'.past.consumed == if step.ActOnReply? then s.past.consumed + [Read(s.fw.box, s.past.requests)] else s.past.consumed
  {
  }

  lemma ConsumeKeeps(c: Config, s: Sys, step: Step)
    requires ExchangeInv(c, s) && Enabled(s, step)
    requires step.SeeReply? || step.ActOnReply?
    ensures ExchangeInv(c, Do(c, s, step))
  {
    var k, box, lanes, past, s' := s.h.control, s.fw.box, LanesOf(s), s.past, Do(c, s, step);
    ConsumeEffect(c, s, step, s');
    if step.SeeReply? {
      SeeParts(k, box, PhaseOf(s.fw.at), lanes, past.requests, past.consumed, past.abandoned);
    } else {
      ActParts(k, box, PhaseOf(s.fw.at), lanes, past.requests, past.consumed, past.abandoned);
    }
    ExchangeFrom(c, s', k, box, if step.SeeReply? then Seen else Outside, lanes, past.requests,
                 if step.ActOnReply? then past.consumed + [Read(box, past.requests)] else past.consumed,
                 past.abandoned, ValuesOf(s.toPc, E_TYPE_OUT));
  }

  lemma GiveUpEffect(c: Config, s: Sys, s': Sys)
    requires Enabled(s, GiveUp) && s' == Do(c, s, GiveUp)
    ensures s'.h == s.h && s'.fw.box == s.fw.box && s'.toPc == s.toPc && s'.toFw == s.toFw && LanesOf(s') == LanesOf(s)
    ensures PhaseOf(s.fw.at) == Awaiting && PhaseOf(s'.fw.at) == Outside
    ensures s'.past == s.past.(abandoned := s.past.abandoned || UnderWay(s.h.control, s.past))
  {
  }

  lemma UnderWayMeans(c: Config, s: Sys)
    requires ExchangeInv(c, s) && TakenInv(s)
    ensures UnderWay(s.h.control, s.past) <==> InTransit(LanesOf(s), s.h.control) != 0
  {
    NothingUnderWay(s.h.control, LanesOf(s), s.past);
  }

  lemma GiveUpKeeps(c: Config, s: Sys)
    requires ExchangeInv(c, s) && TakenInv(s) && Enabled(s, GiveUp)
    ensures ExchangeInv(c, Do(c, s, GiveUp))
  {
    var k, box, lanes, past, s' := s.h.control, s.fw.box, LanesOf(s), s.past, Do(c, s, GiveUp);
    GiveUpEffect(c, s, s');
    UnderWayMeans(c, s);
    GiveUpParts(k, box, PhaseOf(s.fw.at), lanes, past.requests, past.consumed, past.abandoned, UnderWay(k, past));
    ExchangeFrom(c, s', k, box, Outside, lanes, past.requests, past.consumed, past.abandoned || UnderWay(k, past), ValuesOf(s.toPc, E_TYPE_OUT));
  }

  // ----- steps of the interrupt and of the PC -----

  lemma InterruptLanes(c: Config, s: Sys)
    requires s.toFw != []
    ensures var s' := Do(c, s, Interrupt);
            && s'.h == s.h && s'.past == Took(s.past, s.toFw[0].kind) && s'.fw.at == s.fw.at
            && ValuesOf(s'.toPc, E_TYPE_OUT) == ValuesOf(s.toPc, E_TYPE_OUT)
            && LanesOf(s') == ControlLanes(LanesOf(s).requests, ValuesOf(s.toFw[1..], E_TYPE_CONTROL), ValuesOf(s.toFw[1..], E_TYPE_CONTROL_STALL))
  {
    IsrEffect(s.fw, s.toFw[0]);
    var acks := Isr(s.fw, s.toFw[0]).1;
    NothingSent(s.toPc);
    if acks != [] {
      AppendOne(s.toPc, acks[0]);
    }
  }

  lemma ReplyLanes(c: Config, s: Sys)
    requires s.toFw != [] && s.toFw[0].kind == E_TYPE_CONTROL && Fits(s.fw.box.control, 0, s.toFw[0].value)
    ensures var (s', v) := (Do(c, s, Interrupt), s.toFw[0].value);
            && s'.fw.box == ReplyBox(Overlay(s.fw.box.control, 0, v), |v|, true, s.fw.box.controlStall)
            && LanesOf(s') == LanesOf(s).(replies := ValuesOf(s.toFw[1..], E_TYPE_CONTROL))
  {
    PopOne(s.toFw);
    InterruptLanes(c, s);
  }

  lemma ReplyArrived(c: Config, s: Sys, k: Control, box: ReplyBox, phase: Phase, lanes: ControlLanes, requests: nat, consumed: seq<Reply>,
                     abandoned: bool, v: seq<byte>, rest: seq<seq<byte>>, packets: seq<seq<byte>>)
    requires ExchangeParts(k, box, phase, lanes, requests, consumed, abandoned) && OutInv(c.s2u, s.h.outs, packets, s.past.outSent)
    requires lanes.replies == [v] + rest && |v| <= MAX_PACKET_VALUE_SIZE && Fits(box.control, 0, v)
    requires s.fw.box == ReplyBox(Overlay(box.control, 0, v), |v|, true, box.controlStall) && LanesOf(s) == lanes.(replies := rest)
    requires s.h.control == k && PhaseOf(s.fw.at) == phase
    requires s.past.requests == requests && s.past.consumed == consumed && s.past.abandoned == abandoned
    requires ValuesOf(s.toPc, E_TYPE_OUT) == packets
    ensures ExchangeInv(c, s)
  {
    ReplyArrivesParts(k, box, phase, lanes, requests, consumed, abandoned, v, rest);
    ExchangeFrom(c, s, k, s.fw.box, phase, lanes.(replies := rest), requests, consumed, abandoned, packets);
  }

  lemma BoxHasRoom(k: Control, box: ReplyBox, phase: Phase, lanes: ControlLanes, requests: nat, consumed: seq<Reply>, abandoned: bool, v: seq<byte>)
    requires ExchangeParts(k, box, phase, lanes, requests, consumed, abandoned) && |v| <= MAX_PACKET_VALUE_SIZE
    ensures Fits(box.control, 0, v)
  {
  }

  lemma ReplyArrives(c: Config, s: Sys)
    requires ExchangeInv(c, s) && s.toFw != [] && s.toFw[0].kind == E_TYPE_CONTROL
    ensures Fits(s.fw.box.control, 0, s.toFw[0].value)
    ensures ExchangeInv(c, Do(c, s, Interrupt))
  {
    var f, past := s.toFw[0], s.past;
    PopOne(s.toFw);
    BoxHasRoom(s.h.control, s.fw.box, PhaseOf(s.fw.at), LanesOf(s), past.requests, past.consumed, past.abandoned, f.value);
    InterruptLanes(c, s);
    ReplyLanes(c, s);
    ReplyArrived(c, Do(c, s, Interrupt), s.h.control, s.fw.box, PhaseOf(s.fw.at), LanesOf(s), past.requests, past.consumed, past.abandoned,
                 f.value, ValuesOf(s.toFw[1..], E_TYPE_CONTROL), ValuesOf(s.toPc, E_TYPE_OUT));
  }

  lemma StallLanes(c: Config, s: Sys)
    requires s.toFw != [] && s.toFw[0].kind == E_TYPE_CONTROL_STALL && Fits(s.fw.box.control, 0, s.toFw[0].value)
    ensures var (s', v) := (Do(c, s, Interrupt), s.toFw[0].value);
            && s'.fw.box == ReplyBox(Overlay(s.fw.box.control, 0, v), s.fw.box.controlReplyLen, true, true)
            && LanesOf(s') == LanesOf(s).(stalls := ValuesOf(s.toFw[1..], E_TYPE_CONTROL_STALL))
  {
    PopOne(s.toFw);
    InterruptLanes(c, s);
  }

  lemma StallArrived(c: Config, s: Sys, k: Control, box: ReplyBox, phase: Phase, lanes: ControlLanes, requests: nat, consumed: seq<Reply>,
                     abandoned: bool, v: seq<byte>, rest: seq<seq<byte>>, packets: seq<seq<byte>>)
    requires ExchangeParts(k, box, phase, lanes, requests, consumed, abandoned) && OutInv(c.s2u, s.h.outs, packets, s.past.outSent)
    requires lanes.stalls == [v] + rest && |v| <= MAX_PACKET_VALUE_SIZE && Fits(box.control, 0, v)
    requires s.fw.box == ReplyBox(Overlay(box.control, 0, v), box.controlReplyLen, true, true) && LanesOf(s) == lanes.(stalls := rest)
    requires s.h.control == k && PhaseOf(s.fw.at) == phase
    requires s.past.requests == requests && s.past.consumed == consumed && s.past.abandoned == abandoned
    requires ValuesOf(s.toPc, E_TYPE_OUT) == packets
    ensures ExchangeInv(c, s)
  {
    StallArrivesParts(k, box, phase, lanes, requests, consumed, abandoned, v, rest);
    ExchangeFrom(c, s, k, s.fw.box, phase, lanes.(stalls := rest), requests, consumed, abandoned, packets);
  }

  lemma StallArrives(c: Config, s: Sys)
    requires ExchangeInv(c, s) && s.toFw != [] && s.toFw[0].kind == E_TYPE_CONTROL_STALL
    ensures Fits(s.fw.box.control, 0, s.toFw[0].value)
    ensures ExchangeInv(c, Do(c, s, Interrupt))
  {
    var f, past := s.toFw[0], s.past;
    PopOne(s.toFw);
    BoxHasRoom(s.h.control, s.fw.box, PhaseOf(s.fw.at), LanesOf(s), past.requests, past.consumed, past.abandoned, f.value);
    InterruptLanes(c, s);
    StallLanes(c, s);
    StallArrived(c, Do(c, s, Interrupt), s.h.control, s.fw.box, PhaseOf(s.fw.at), LanesOf(s), past.requests, past.consumed, past.abandoned,
                 f.value, ValuesOf(s.toFw[1..], E_TYPE_CONTROL_STALL), ValuesOf(s.toPc, E_TYPE_OUT));
  }

  lemma OtherArrives(c: Config, s: Sys)
    requires ExchangeInv(c, s) && s.toFw != [] && !IsReply(s.toFw[0].kind)
    ensures ExchangeInv(c, Do(c, s, Interrupt))
  {
    PopOne(s.toFw);
    InterruptLanes(c, s);
    IsrEffect(s.fw, s.toFw[0]);
    assert LanesOf(Do(c, s, Interrupt)) == LanesOf(s);
  }

  /** Sending packets of another type leaves the reply lanes alone. */
  lemma SendsAside(fs: seq<Frame>, kind: byte, data: seq<byte>, sent: seq<Frame>)
    requires kind != E_TYPE_CONTROL && kind != E_TYPE_CONTROL_STALL && (sent == [] || sent == Split(kind, data))
    ensures ValuesOf(fs + sent, E_TYPE_CONTROL) == ValuesOf(fs, E_TYPE_CONTROL)
    ensures ValuesOf(fs + sent, E_TYPE_CONTROL_STALL) == ValuesOf(fs, E_TYPE_CONTROL_STALL)
  {
    NothingSent(fs);
    AppendSplit(fs, kind, data);
  }

  lemma SendsReply(fs: seq<Frame>, r: Reply)
    requires |r.data| <= MAX_PACKET_VALUE_SIZE
    ensures ValuesOf(fs + ReplyFrames(r), E_TYPE_CONTROL) == if r.stall then ValuesOf(fs, E_TYPE_CONTROL) else ValuesOf(fs, E_TYPE_CONTROL) + [r.data]
    ensures ValuesOf(fs + ReplyFrames(r), E_TYPE_CONTROL_STALL)
         == if r.stall then ValuesOf(fs, E_TYPE_CONTROL_STALL) + [[]] else ValuesOf(fs, E_TYPE_CONTROL_STALL)
  {
    AppendSplit(fs, if r.stall then E_TYPE_CONTROL_STALL else E_TYPE_CONTROL, if r.stall then [] else r.data);
  }

  lemma InEndsEffect(c: Config, h: Host, e: byte, completion: Completion) returns (data: seq<byte>)
    ensures var (h', sent) := InCompleted(c.u2s, h, e, completion);
            && h'.control == h.control && h'.outs == h.outs && h'.start == h.start
            && (sent == [] || sent == Split(E_TYPE_IN, data))
  {
    data := [];
    if completion.Bytes? && CanQueue(h.flow, e) {
      var w := QueueInPacket(c.u2s, h.flow, e, completion.data);
      SendNextEffect(w);
      data := SlotOf(w.slots, w.fifo[0]);
    }
  }

  lemma InEndsKeepsExchange(c: Config, s: Sys, e: byte, completion: Completion)
    requires ExchangeInv(c, s) && Enabled(s, InEnds(e, completion))
    ensures ExchangeInv(c, Do(c, s, InEnds(e, completion)))
  {
    var h0 := s.h.(flow := s.h.flow.(polled := s.h.flow.polled - multiset{e}));
    var sent := InCompleted(c.u2s, h0, e, completion).1;
    var data := InEndsEffect(c, h0, e, completion);
    SendsAside(s.toFw, E_TYPE_IN, data, sent);
    assert LanesOf(Do(c, s, InEnds(e, completion))) == LanesOf(s);
  }

  lemma AnsweredEffect(c: Config, s: Sys, i: nat, completion: Completion, r: Reply, s': Sys)
    requires Enabled(s, ControlEnds(i, completion)) && s' == Do(c, s, ControlEnds(i, completion))
    requires ControlReply(s.h.control.transfers[i], completion) == Some(r)
    ensures var k := s.h.control;
            s'.h.control == k.(transfers := k.transfers[..i] + k.transfers[i + 1..], replies := k.replies + [r])
    ensures s'.h.outs == s.h.outs && s'.fw == s.fw && s'.toPc == s.toPc && LanesOf(s') == WithReply(LanesOf(s), r)
    ensures s'.past == s.past.(ended := s.past.ended + [Ended(s.h.control.transfers[i], completion)])
  {
    SendsReply(s.toFw, r);
  }

  lemma DroppedEffect(c: Config, s: Sys, i: nat, completion: Completion, s': Sys)
    requires Enabled(s, ControlEnds(i, completion)) && s' == Do(c, s, ControlEnds(i, completion))
    requires ControlReply(s.h.control.transfers[i], completion) == None
    ensures var k := s.h.control; s'.h.control == k.(transfers := k.transfers[..i] + k.transfers[i + 1..])
    ensures s'.h.outs == s.h.outs && s'.fw == s.fw && s'.toPc == s.toPc && s'.toFw == s.toFw && LanesOf(s') == LanesOf(s)
    ensures s'.past == s.past.(ended := s.past.ended + [Ended(s.h.control.transfers[i], completion)])
  {
    NothingSent(s.toFw);
  }

  lemma Answered(c: Config, s: Sys, k: Control, box: ReplyBox, phase: Phase, lanes: ControlLanes, requests: nat, consumed: seq<Reply>, abandoned: bool,
                 i: nat, r: Reply, packets: seq<seq<byte>>)
    requires ExchangeParts(k, box, phase, lanes, requests, consumed, abandoned) && OutInv(c.s2u, s.h.outs, packets, s.past.outSent)
    requires i < |k.transfers| && r.id == k.transfers[i].id && (r.stall ==> r.data == [])
    requires s.h.control == k.(transfers := k.transfers[..i] + k.transfers[i + 1..], replies := k.replies + [r])
    requires s.fw.box == box && PhaseOf(s.fw.at) == phase && LanesOf(s) == WithReply(lanes, r)
    requires s.past.requests == requests && s.past.consumed == consumed && s.past.abandoned == abandoned
    requires ValuesOf(s.toPc, E_TYPE_OUT) == packets
    ensures ExchangeInv(c, s)
  {
    AnswerParts(k, box, phase, lanes, requests, consumed, abandoned, i, r);
    ExchangeFrom(c, s, s.h.control, box, phase, WithReply(lanes, r), requests, consumed, abandoned, packets);
  }

  lemma Dropped(c: Config, s: Sys, k: Control, box: ReplyBox, phase: Phase, lanes: ControlLanes, requests: nat, consumed: seq<Reply>, abandoned: bool,
                i: nat, packets: seq<seq<byte>>)
    requires ExchangeParts(k, box, phase, lanes, requests, consumed, abandoned) && OutInv(c.s2u, s.h.outs, packets, s.past.outSent)
    requires i < |k.transfers| && s.h.control == k.(transfers := k.transfers[..i] + k.transfers[i + 1..])
    requires s.fw.box == box && PhaseOf(s.fw.at) == phase && LanesOf(s) == lanes
    requires s.past.requests == requests && s.past.consumed == consumed && s.past.abandoned == abandoned
    requires ValuesOf(s.toPc, E_TYPE_OUT) == packets
    ensures ExchangeInv(c, s)
  {
    DropParts(k, box, phase, lanes, requests, consumed, abandoned, i);
    ExchangeFrom(c, s, s.h.control, box, phase, lanes, requests, consumed, abandoned, packets);
  }

  lemma ControlEndsKeepsExchange(c: Config, s: Sys, i: nat, completion: Completion)
    requires ExchangeInv(c, s) && Enabled(s, ControlEnds(i, completion))
    ensures ExchangeInv(c, Do(c, s, ControlEnds(i, completion)))
  {
    var past, s' := s.past, Do(c, s, ControlEnds(i, completion));
    match ControlReply(s.h.control.transfers[i], completion)
    case Some(r) =>
      AnsweredEffect(c, s, i, completion, r, s');
      Answered(c, s', s.h.control, s.fw.box, PhaseOf(s.fw.at), LanesOf(s), past.requests, past.consumed, past.abandoned, i, r, ValuesOf(s.toPc, E_TYPE_OUT));
    case None =>
      DroppedEffect(c, s, i, completion, s');
      Dropped(c, s', s.h.control, s.fw.box, PhaseOf(s.fw.at), LanesOf(s), past.requests, past.consumed, past.abandoned, i, ValuesOf(s.toPc, E_TYPE_OUT));
  }

  lemma ControlPacketLanes(c: Config, s: Sys)
    requires s.toPc != [] && s.toPc[0].kind == E_TYPE_CONTROL
    ensures var s' := Do(c, s, PcReceives);
            var (k', sent) := SendControlPacket(c.s2u, s.h.control, s.toPc[0].value);
            && s'.h.control == k' && s'.h.outs == s.h.outs && s'.fw == s.fw && s'.past == s.past
            && s'.toFw == s.toFw + sent && ValuesOf(s'.toPc, E_TYPE_OUT) == ValuesOf(s.toPc, E_TYPE_OUT)
            && LanesOf(s').requests == ValuesOf(s.toPc[1..], E_TYPE_CONTROL)
  {
    PopOne(s.toPc);
  }

  lemma RefusedLanes(c: Config, s: Sys, r: Reply)
    requires s.toPc != [] && s.toPc[0].kind == E_TYPE_CONTROL && r == Reply(s.h.control.seen + 1, true, [])
    requires IsQualifierRequest(TranslateSetup(c.s2u, s.toPc[0].value))
    ensures var s' := Do(c, s, PcReceives);
            && s'.h.control == s.h.control.(seen := r.id, replies := s.h.control.replies + [r])
            && LanesOf(s') == WithReply(LanesOf(s).(requests := ValuesOf(s.toPc[1..], E_TYPE_CONTROL)), r)
  {
    ControlPacketLanes(c, s);
    SendsReply(s.toFw, r);
  }

  lemma Refused(c: Config, s: Sys, k: Control, box: ReplyBox, phase: Phase, lanes: ControlLanes, requests: nat, consumed: seq<Reply>, abandoned: bool,
                v: seq<byte>, rest: seq<seq<byte>>, r: Reply, packets: seq<seq<byte>>)
    requires ExchangeParts(k, box, phase, lanes, requests, consumed, abandoned) && OutInv(c.s2u, s.h.outs, packets, s.past.outSent)
    requires lanes.requests == [v] + rest && r == Reply(k.seen + 1, true, [])
    requires s.h.control == k.(seen := r.id, replies := k.replies + [r]) && s.fw.box == box && PhaseOf(s.fw.at) == phase
    requires LanesOf(s) == WithReply(lanes.(requests := rest), r)
    requires s.past.requests == requests && s.past.consumed == consumed && s.past.abandoned == abandoned
    requires ValuesOf(s.toPc, E_TYPE_OUT) == packets
    ensures ExchangeInv(c, s)
  {
    RefuseParts(k, box, phase, lanes, requests, consumed, abandoned, v, rest, r);
    ExchangeFrom(c, s, k.(seen := r.id, replies := k.replies + [r]), box, phase, WithReply(lanes.(requests := rest), r), requests, consumed, abandoned,
                 packets);
  }

  lemma ReceiveRefused(c: Config, s: Sys)
    requires ExchangeInv(c, s) && s.toPc != [] && s.toPc[0].kind == E_TYPE_CONTROL
    requires IsQualifierRequest(TranslateSetup(c.s2u, s.toPc[0].value))
    ensures ExchangeInv(c, Do(c, s, PcReceives))
  {
    var v, past := s.toPc[0].value, s.past;
    var r, s' := Reply(s.h.control.seen + 1, true, []), Do(c, s, PcReceives);
    PopOne(s.toPc);
    RefusedLanes(c, s, r);
    ControlPacketLanes(c, s);
    Refused(c, s', s.h.control, s.fw.box, PhaseOf(s.fw.at), LanesOf(s), past.requests, past.consumed, past.abandoned,
            v, ValuesOf(s.toPc[1..], E_TYPE_CONTROL), r, ValuesOf(s.toPc, E_TYPE_OUT));
  }

  lemma AcceptEffect(c: Config, s: Sys, t: ControlTransfer)
    requires s.toPc != [] && s.toPc[0].kind == E_TYPE_CONTROL && !IsQualifierRequest(TranslateSetup(c.s2u, s.toPc[0].value))
    requires t == ControlTransfer(s.h.control.seen + 1, TranslateSetup(c.s2u, s.toPc[0].value))
    ensures var s' := Do(c, s, PcReceives);
            && s'.h == s.h.(control := s.h.control.(seen := t.id, transfers := s.h.control.transfers + [t]))
            && s'.fw == s.fw && s'.past == s.past && s'.toFw == s.toFw && s'.toPc == s.toPc[1..]
  {
    NothingSent(s.toFw);
  }

  lemma Accepted(c: Config, s: Sys, k: Control, box: ReplyBox, phase: Phase, lanes: ControlLanes, requests: nat, consumed: seq<Reply>, abandoned: bool,
                 v: seq<byte>, rest: seq<seq<byte>>, t: ControlTransfer, packets: seq<seq<byte>>)
    requires ExchangeParts(k, box, phase, lanes, requests, consumed, abandoned) && OutInv(c.s2u, s.h.outs, packets, s.past.outSent)
    requires lanes.requests == [v] + rest && t.id == k.seen + 1
    requires s.h.control == k.(seen := t.id, transfers := k.transfers + [t]) && s.fw.box == box && PhaseOf(s.fw.at) == phase
    requires LanesOf(s) == lanes.(requests := rest)
    requires s.past.requests == requests && s.past.consumed == consumed && s.past.abandoned == abandoned
    requires ValuesOf(s.toPc, E_TYPE_OUT) == packets
    ensures ExchangeInv(c, s)
  {
    AcceptParts(k, box, phase, lanes, requests, consumed, abandoned, v, rest, t);
    ExchangeFrom(c, s, k.(seen := t.id, transfers := k.transfers + [t]), box, phase, lanes.(requests := rest), requests, consumed, abandoned, packets);
  }

  lemma ReceiveAccepted(c: Config, s: Sys)
    requires ExchangeInv(c, s) && s.toPc != [] && s.toPc[0].kind == E_TYPE_CONTROL
    requires !IsQualifierRequest(TranslateSetup(c.s2u, s.toPc[0].value))
    ensures ExchangeInv(c, Do(c, s, PcReceives))
  {
    var v, past := s.toPc[0].value, s.past;
    var t := ControlTransfer(s.h.control.seen + 1, TranslateSetup(c.s2u, v));
    PopOne(s.toPc);
    AcceptEffect(c, s, t);
    Accepted(c, Do(c, s, PcReceives), s.h.control, s.fw.box, PhaseOf(s.fw.at), LanesOf(s), past.requests, past.consumed, past.abandoned,
             v, ValuesOf(s.toPc[1..], E_TYPE_CONTROL), t, ValuesOf(s.toPc, E_TYPE_OUT));
  }

  lemma OutEffect(c: Config, s: Sys, s': Sys)
    requires s.toPc != [] && s.toPc[0].kind == E_TYPE_OUT && s.toPc[0].value != [] && s' == Do(c, s, PcReceives)
    ensures s'.h == s.h.(outs := s.h.outs + [WriteOf(c.s2u, s.toPc[0].value)])
    ensures s'.fw == s.fw && s'.past == s.past && LanesOf(s') == LanesOf(s)
    ensures ValuesOf(s.toPc, E_TYPE_OUT) == [s.toPc[0].value] + ValuesOf(s'.toPc, E_TYPE_OUT)
  {
    PopOne(s.toPc);
    NothingSent(s.toFw);
  }

  lemma ReceiveOutKeeps(c: Config, s: Sys)
    requires ExchangeInv(c, s) && s.toPc != [] && s.toPc[0].kind == E_TYPE_OUT && s.toPc[0].value != []
    ensures ExchangeInv(c, Do(c, s, PcReceives))
  {
    var s' := Do(c, s, PcReceives);
    OutEffect(c, s, s');
    OutTakenParts(c.s2u, s.h.outs, s.toPc[0].value, ValuesOf(s'.toPc, E_TYPE_OUT), s.past.outSent);
    ExchangeFrom(c, s', s.h.control, s.fw.box, PhaseOf(s.fw.at), LanesOf(s), s.past.requests, s.past.consumed, s.past.abandoned,
                 ValuesOf(s'.toPc, E_TYPE_OUT));
  }

  lemma OtherPacketEffect(c: Config, h: Host, f: Frame)
    requires f.kind != E_TYPE_CONTROL && f.kind != E_TYPE_OUT
    ensures var (h', sent) := ProcessPacket(c, h, f);
            && h'.control == h.control && h'.outs == h.outs
            && (|| sent == []
                || sent == Split(E_TYPE_INDEX, c.index)
                || sent == Split(E_TYPE_ENDPOINTS, c.endpoints)
                || (h.flow.fifo != [] && sent == Split(E_TYPE_IN, SlotOf(h.flow.slots, h.flow.fifo[0]))))
  {
  }

  lemma OtherPacketLanes(c: Config, s: Sys, s': Sys)
    requires s.toPc != [] && s.toPc[0].kind != E_TYPE_CONTROL && s.toPc[0].kind != E_TYPE_OUT && s' == Do(c, s, PcReceives)
    ensures LanesOf(s') == LanesOf(s) && s'.h.control == s.h.control && s'.h.outs == s.h.outs && s'.fw == s.fw && s'.past == s.past
    ensures ValuesOf(s'.toPc, E_TYPE_OUT) == ValuesOf(s.toPc, E_TYPE_OUT)
  {
    var f := s.toPc[0];
    PopOne(s.toPc);
    OtherPacketEffect(c, s.h, f);
    var sent := ProcessPacket(c, s.h, f).1;
    if sent == Split(E_TYPE_INDEX, c.index) {
      SendsAside(s.toFw, E_TYPE_INDEX, c.index, sent);
    } else if sent == Split(E_TYPE_ENDPOINTS, c.endpoints) {
      SendsAside(s.toFw, E_TYPE_ENDPOINTS, c.endpoints, sent);
    } else {
      SendsAside(s.toFw, E_TYPE_IN, if s.h.flow.fifo == [] then [] else SlotOf(s.h.flow.slots, s.h.flow.fifo[0]), sent);
    }
  }

  lemma ReceiveOtherKeeps(c: Config, s: Sys)
    requires ExchangeInv(c, s) && s.toPc != [] && s.toPc[0].kind != E_TYPE_CONTROL && s.toPc[0].kind != E_TYPE_OUT
    ensures ExchangeInv(c, Do(c, s, PcReceives))
  {
    OtherPacketLanes(c, s, Do(c, s, PcReceives));
    ExchangeFrom(c, Do(c, s, PcReceives), s.h.control, s.fw.box, PhaseOf(s.fw.at), LanesOf(s), s.past.requests, s.past.consumed, s.past.abandoned,
                 ValuesOf(s.toPc, E_TYPE_OUT));
  }

  lemma ReceiveKeepsExchange(c: Config, s: Sys)
    requires ExchangeInv(c, s) && s.toPc != [] && (s.toPc[0].kind == E_TYPE_OUT ==> s.toPc[0].value != [])
    ensures ExchangeInv(c, Do(c, s, PcReceives))
  {
    var f := s.toPc[0];
    if f.kind == E_TYPE_CONTROL {
      if IsQualifierRequest(TranslateSetup(c.s2u, f.value)) {
        ReceiveRefused(c, s);
      } else {
        ReceiveAccepted(c, s);
      }
    } else if f.kind == E_TYPE_OUT {
      ReceiveOutKeeps(c, s);
    } else {
      ReceiveOtherKeeps(c, s);
    }
  }

  lemma MainKeepsExchange(c: Config, s: Sys, step: Step)
    requires ExchangeInv(c, s) && TakenInv(s) && Enabled(s, step) && IsMain(step)
    ensures ExchangeInv(c, Do(c, s, step))
  {
    if step.SeeReply? || step.ActOnReply? {
      ConsumeKeeps(c, s, step);
    } else if step.GiveUp? {
      GiveUpKeeps(c, s);
    } else if step.StartControl? || step.ForgetStall? || step.AbortControl? {
      PrepareKeeps(c, s, step);
    } else if step.SendControl? {
      RequestKeeps(c, s);
    } else {
      OtherMoveKeeps(c, s, step);
    }
  }

  lemma StepKeepsExchange(c: Config, s: Sys, step: Step)
    requires ExchangeInv(c, s) && TakenInv(s) && Enabled(s, step)
    requires s.toPc != [] && s.toPc[0].kind == E_TYPE_OUT ==> s.toPc[0].value != []
    ensures ExchangeInv(c, Do(c, s, step))
  {
    if IsMain(step) {
      MainKeepsExchange(c, s, step);
    } else {
      match step
      case PcReceives => ReceiveKeepsExchange(c, s);
      case InEnds(e, completion) => InEndsKeepsExchange(c, s, e, completion);
      case ControlEnds(i, completion) => ControlEndsKeepsExchange(c, s, i, completion);
      case Interrupt =>
        if s.toFw[0].kind == E_TYPE_CONTROL {
          ReplyArrives(c, s);
        } else if s.toFw[0].kind == E_TYPE_CONTROL_STALL {
          StallArrives(c, s);
        } else {
          OtherArrives(c, s);
        }
    }
  }

  // ----- replies taken -----

  /** What a step adds to the replies sent, and takes off the line. */
  ghost predicate RepliesMove(s: Sys, s': Sys, sent: nat, taken: nat) {
    && |s'.h.control.replies| == |s.h.control.replies| + sent && s'.past.taken == s.past.taken + taken
    && |LanesOf(s').replies| + |LanesOf(s').stalls| + taken == |LanesOf(s).replies| + |LanesOf(s).stalls| + sent
  }

  lemma MovesKeepTaken(s: Sys, s': Sys, sent: nat, taken: nat)
    requires TakenInv(s) && RepliesMove(s, s', sent, taken)
    ensures TakenInv(s')
  {
  }

  lemma InterruptMoves(c: Config, s: Sys, s': Sys)
    requires s.toFw != [] && s' == Do(c, s, Interrupt)
    ensures RepliesMove(s, s', 0, if IsReply(s.toFw[0].kind) then 1 else 0)
  {
    PopOne(s.toFw);
    InterruptLanes(c, s);
  }

  lemma ReceiveMoves(c: Config, s: Sys, s': Sys)
    requires s.toPc != [] && s' == Do(c, s, PcReceives)
    ensures RepliesMove(s, s', |s'.h.control.replies| - |s.h.control.replies|, 0)
  {
    var f := s.toPc[0];
    if f.kind == E_TYPE_CONTROL {
      if IsQualifierRequest(TranslateSetup(c.s2u, f.value)) {
        RefusedLanes(c, s, Reply(s.h.control.seen + 1, true, []));
      } else {
        NothingSent(s.toFw);
      }
    } else if f.kind == E_TYPE_OUT {
      NothingSent(s.toFw);
    } else {
      OtherPacketLanes(c, s, s');
    }
  }

  lemma InEndsMoves(c: Config, s: Sys, e: byte, completion: Completion, s': Sys)
    requires Enabled(s, InEnds(e, completion)) && s' == Do(c, s, InEnds(e, completion))
    ensures RepliesMove(s, s', 0, 0)
  {
    var h0 := s.h.(flow := s.h.flow.(polled := s.h.flow.polled - multiset{e}));
    var data := InEndsEffect(c, h0, e, completion);
    SendsAside(s.toFw, E_TYPE_IN, data, InCompleted(c.u2s, h0, e, completion).1);
  }

  lemma ControlEndsMoves(c: Config, s: Sys, i: nat, completion: Completion, s': Sys)
    requires Enabled(s, ControlEnds(i, completion)) && s' == Do(c, s, ControlEnds(i, completion))
    ensures RepliesMove(s, s', |s'.h.control.replies| - |s.h.control.replies|, 0)
  {
    match ControlReply(s.h.control.transfers[i], completion)
    case Some(r) => AnsweredEffect(c, s, i, completion, r, s');
    case None => DroppedEffect(c, s, i, completion, s');
  }

  lemma PacketsKeepTaken(c: Config, s: Sys, step: Step, s': Sys)
    requires TakenInv(s) && Enabled(s, step) && (step.Interrupt? || step.PcReceives?) && s' == Do(c, s, step)
    ensures TakenInv(s')
  {
    if step.Interrupt? {
      InterruptMoves(c, s, s');
      MovesKeepTaken(s, s', 0, if IsReply(s.toFw[0].kind) then 1 else 0);
    } else {
      ReceiveMoves(c, s, s');
      MovesKeepTaken(s, s', |s'.h.control.replies| - |s.h.control.replies|, 0);
    }
  }

  lemma TransfersKeepTaken(c: Config, s: Sys, step: Step, s': Sys)
    requires TakenInv(s) && Enabled(s, step) && (step.InEnds? || step.ControlEnds?) && s' == Do(c, s, step)
    ensures TakenInv(s')
  {
    if step.InEnds? {
      InEndsMoves(c, s, step.endpoint, step.c, s');
      MovesKeepTaken(s, s', 0, 0);
    } else {
      ControlEndsMoves(c, s, step.i, step.c, s');
      MovesKeepTaken(s, s', |s'.h.control.replies| - |s.h.control.replies|, 0);
    }
  }

  lemma MainTakesNothing(c: Config, s: Sys, step: Step, s': Sys)
    requires Enabled(s, step) && IsMain(step) && s' == Do(c, s, step)
    ensures s'.past.taken == s.past.taken
  {
  }

  lemma MainKeepsTaken(c: Config, s: Sys, step: Step, s': Sys)
    requires TakenInv(s) && Enabled(s, step) && IsMain(step) && s' == Do(c, s, step)
    ensures TakenInv(s')
  {
    MainEffect(c, s, step);
    MainTakesNothing(c, s, step, s');
  }

  lemma StepKeepsTaken(c: Config, s: Sys, step: Step, s': Sys)
    requires TakenInv(s) && Enabled(s, step) && s' == Do(c, s, step)
    ensures TakenInv(s')
  {
    if IsMain(step) {
      MainKeepsTaken(c, s, step, s');
    } else if step.Interrupt? || step.PcReceives? {
      PacketsKeepTaken(c, s, step, s');
    } else {
      TransfersKeepTaken(c, s, step, s');
    }
  }
}
