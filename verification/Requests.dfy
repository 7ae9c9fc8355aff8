/** The control requests of the target host, on their way to the device and back. */
module Requests {
  import opened Protocol
  import opened Adapter
  import opened Wrappers
  import opened Proxy
  import opened Firmware
  import opened System
  import opened Effects
  import opened Lanes
  import ExchangeProof
  import Invariant
  import Guarantees

  /** The id-th request, as the device must see it. */
  function Asked(s2u: seq<byte>, asked: seq<seq<byte>>, id: nat): seq<byte>
    requires 1 <= id <= |asked|
  {
    TranslateSetup(s2u, asked[id - 1])
  }

  /** A request to the device for its descriptor of type 6, the device qualifier (sections 9.4.3 and 9.6.2 of USB 2.0). */
  predicate AsksForQualifier(v: seq<byte>) {
    |v| >= 8 && v[0] == 0x80 && v[1] == 6 && (v[2] as int + 256 * v[3] as int) / 256 == 6
  }

  lemma QualifierMeans(v: seq<byte>)
    ensures IsQualifierRequest(v) <==> AsksForQualifier(v)
  {
  }

  lemma QualifierIsKept(s2u: seq<byte>, v: seq<byte>)
    ensures AsksForQualifier(TranslateSetup(s2u, v)) <==> AsksForQualifier(v)
  {
  }

  /** The first byte of a request to read from the device has its highest bit set. */
  predicate Reads(v: seq<byte>) { v != [] && v[0] >= 128 }

  /** `r` tells the target host how the transfer has ended. */
  predicate AnsweredBy(e: Ended, r: Reply) {
    && r.id == e.transfer.id
    && match e.completion
       case Bytes(data) => !r.stall && if Reads(e.transfer.value) then |data| <= 254 && r.data == data else r.data == []
       case Stall => r.stall && r.data == []
       case TimedOut => Reads(e.transfer.value) && r.stall && r.data == []
       case Error => false
  }

  lemma ReplyMeans(t: ControlTransfer, completion: Completion)
    ensures match ControlReply(t, completion)
            case Some(r) => AnsweredBy(Ended(t, completion), r)
            case None => forall r :: !AnsweredBy(Ended(t, completion), r)
  {
  }

  /** A transfer carries the request of its number, and that request may go to the device. */
  predicate Carried(s2u: seq<byte>, asked: seq<seq<byte>>, t: ControlTransfer) {
    1 <= t.id <= |asked| && t.value == Asked(s2u, asked, t.id) && !AsksForQualifier(t.value)
  }

  /** A reply is what the device answered to the request of its number, or the forced stall of a request for the
      device qualifier. */
  ghost predicate Answers(s2u: seq<byte>, asked: seq<seq<byte>>, ended: seq<Ended>, r: Reply) {
    && 1 <= r.id <= |asked|
    && if AsksForQualifier(Asked(s2u, asked, r.id)) then r.stall && r.data == []
       else exists e :: e in ended && e.transfer == ControlTransfer(r.id, Asked(s2u, asked, r.id)) && AnsweredBy(e, r)
  }

  /** The end of a transfer that calls for a reply has got one. */
  ghost predicate Delivered(e: Ended, replies: seq<Reply>) {
    (forall r :: !AnsweredBy(e, r)) || exists r :: r in replies && AnsweredBy(e, r)
  }

  /** A request the PC has received is at the device, has ended there, or has been stalled. */
  ghost predicate Served(s2u: seq<byte>, asked: seq<seq<byte>>, ended: seq<Ended>, k: Control, id: nat) {
    && 1 <= id <= |asked|
    && (|| (exists t :: t in k.transfers && t.id == id)
        || (exists e :: e in ended && e.transfer.id == id)
        || (AsksForQualifier(Asked(s2u, asked, id)) && Reply(id, true, []) in k.replies))
  }

  ghost predicate RequestInv(s2u: seq<byte>, k: Control, asked: seq<seq<byte>>, ended: seq<Ended>, packets: seq<seq<byte>>) {
    && k.seen <= |asked| && packets == asked[k.seen..]
    && (forall t :: t in k.transfers ==> Carried(s2u, asked, t))
    && (forall e :: e in ended ==> Carried(s2u, asked, e.transfer))
    && (forall r :: r in k.replies ==> Answers(s2u, asked, ended, r))
  }

  ghost predicate ServiceInv(s2u: seq<byte>, k: Control, asked: seq<seq<byte>>, ended: seq<Ended>) {
    && (forall e :: e in ended ==> Delivered(e, k.replies))
    && (forall id :: 1 <= id <= k.seen ==> Served(s2u, asked, ended, k, id))
  }

  // ----- the steps that matter -----

  lemma AnswersLater(s2u: seq<byte>, asked: seq<seq<byte>>, ended: seq<Ended>, more: seq<seq<byte>>, later: seq<Ended>, r: Reply)
    requires Answers(s2u, asked, ended, r)
    ensures Answers(s2u, asked + more, ended + later, r)
  {
    assert Asked(s2u, asked + more, r.id) == Asked(s2u, asked, r.id);
    if !AsksForQualifier(Asked(s2u, asked, r.id)) {
      var e :| e in ended && e.transfer == ControlTransfer(r.id, Asked(s2u, asked, r.id)) && AnsweredBy(e, r);
      assert e in ended + later;
    }
  }

  lemma AskedMore(s2u: seq<byte>, k: Control, asked: seq<seq<byte>>, ended: seq<Ended>, packets: seq<seq<byte>>, v: seq<byte>)
    requires RequestInv(s2u, k, asked, ended, packets)
    ensures RequestInv(s2u, k, asked + [v], ended, packets + [v])
  {
    assert (asked + [v])[k.seen..] == asked[k.seen..] + [v];
    assert ended + [] == ended;
    forall r | r in k.replies ensures Answers(s2u, asked + [v], ended, r) {
      AnswersLater(s2u, asked, ended, [v], [], r);
    }
  }

  lemma PacketTaken(s2u: seq<byte>, k: Control, asked: seq<seq<byte>>, ended: seq<Ended>, v: seq<byte>, rest: seq<seq<byte>>, k': Control)
    requires RequestInv(s2u, k, asked, ended, [v] + rest) && k' == SendControlPacket(s2u, k, v).0
    ensures RequestInv(s2u, k', asked, ended, rest)
  {
    QualifierMeans(TranslateSetup(s2u, v));
    assert asked[k.seen] == ([v] + rest)[0] == v;
    assert rest == ([v] + rest)[1..] == asked[k.seen + 1..];
  }

  /** The control state after the end of the i-th transfer. */
  function AfterEnd(k: Control, i: nat, completion: Completion): Control
    requires i < |k.transfers|
  {
    var left := k.(transfers := k.transfers[..i] + k.transfers[i + 1..]);
    match ControlReply(k.transfers[i], completion)
    case Some(r) => left.(replies := left.replies + [r])
    case None => left
  }

  lemma TransferEnded(s2u: seq<byte>, k: Control, asked: seq<seq<byte>>, ended: seq<Ended>, packets: seq<seq<byte>>, i: nat, completion: Completion)
    requires RequestInv(s2u, k, asked, ended, packets) && i < |k.transfers|
    ensures RequestInv(s2u, AfterEnd(k, i, completion), asked, ended + [Ended(k.transfers[i], completion)], packets)
  {
    var t, later := k.transfers[i], [Ended(k.transfers[i], completion)];
    assert t in k.transfers && asked + [] == asked;
    forall r | r in k.replies ensures Answers(s2u, asked, ended + later, r) {
      AnswersLater(s2u, asked, ended, [], later, r);
    }
    ReplyMeans(t, completion);
    if ControlReply(t, completion).Some? {
      assert later[0] in ended + later;
      assert Answers(s2u, asked, ended + later, ControlReply(t, completion).value);
    }
  }

  lemma ServedLater(s2u: seq<byte>, asked: seq<seq<byte>>, ended: seq<Ended>, k: Control, id: nat, more: seq<seq<byte>>, later: seq<Ended>, k': Control)
    requires Served(s2u, asked, ended, k, id)
    requires forall r :: r in k.replies ==> r in k'.replies
    requires forall t :: t in k.transfers ==> t in k'.transfers || exists e :: e in later && e.transfer == t
    ensures Served(s2u, asked + more, ended + later, k', id)
  {
    assert Asked(s2u, asked + more, id) == Asked(s2u, asked, id);
    if t :| t in k.transfers && t.id == id {
      if t !in k'.transfers {
        var e :| e in later && e.transfer == t;
        assert e in ended + later;
      }
    } else if e :| e in ended && e.transfer.id == id {
      assert e in ended + later;
    }
  }

  lemma DeliveredLater(e: Ended, replies: seq<Reply>, more: seq<Reply>)
    requires Delivered(e, replies)
    ensures Delivered(e, replies + more)
  {
    if r :| r in replies && AnsweredBy(e, r) {
      assert r in replies + more;
    }
  }

  lemma AskingServes(s2u: seq<byte>, k: Control, asked: seq<seq<byte>>, ended: seq<Ended>, v: seq<byte>)
    requires ServiceInv(s2u, k, asked, ended)
    ensures ServiceInv(s2u, k, asked + [v], ended)
  {
    assert ended + [] == ended;
    forall id | 1 <= id <= k.seen ensures Served(s2u, asked + [v], ended, k, id) {
      ServedLater(s2u, asked, ended, k, id, [v], [], k);
    }
  }

  /** A received request goes to the device, or is stalled. */
  lemma TakingServes(s2u: seq<byte>, k: Control, asked: seq<seq<byte>>, ended: seq<Ended>, v: seq<byte>, k': Control)
    requires ServiceInv(s2u, k, asked, ended) && k.seen < |asked| && v == asked[k.seen] && k' == SendControlPacket(s2u, k, v).0
    ensures ServiceInv(s2u, k', asked, ended)
  {
    var id := k.seen + 1;
    QualifierMeans(TranslateSetup(s2u, v));
    assert asked + [] == asked && ended + [] == ended;
    forall x | 1 <= x <= k.seen ensures Served(s2u, asked, ended, k', x) {
      ServedLater(s2u, asked, ended, k, x, [], [], k');
    }
    assert Asked(s2u, asked, id) == TranslateSetup(s2u, v);
    if AsksForQualifier(Asked(s2u, asked, id)) {
      assert Reply(id, true, []) in k'.replies;
      forall e | e in ended ensures Delivered(e, k'.replies) {
        DeliveredLater(e, k.replies, [Reply(id, true, [])]);
      }
    } else {
      assert ControlTransfer(id, TranslateSetup(s2u, v)) in k'.transfers;
    }
    assert Served(s2u, asked, ended, k', id);
  }

  /** An ended transfer leaves a reply, if its end calls for one. */
  lemma EndingServes(s2u: seq<byte>, k: Control, asked: seq<seq<byte>>, ended: seq<Ended>, i: nat, completion: Completion, k': Control)
    requires ServiceInv(s2u, k, asked, ended) && i < |k.transfers| && k' == AfterEnd(k, i, completion)
    ensures ServiceInv(s2u, k', asked, ended + [Ended(k.transfers[i], completion)])
  {
    var now := Ended(k.transfers[i], completion);
    var more := if ControlReply(now.transfer, completion).Some? then [ControlReply(now.transfer, completion).value] else [];
    assert k'.replies == k.replies + more && asked + [] == asked;
    ReplyMeans(now.transfer, completion);
    forall e | e in ended + [now] ensures Delivered(e, k'.replies) {
      if e in ended {
        DeliveredLater(e, k.replies, more);
      } else if more != [] {
        assert more[0] in k'.replies && AnsweredBy(e, more[0]);
      }
    }
    forall t | t in k.transfers ensures t in k'.transfers || exists e :: e in [now] && e.transfer == t {
      TransferStays(k, i, completion, t);
      assert now in [now];
    }
    forall id | 1 <= id <= k.seen ensures Served(s2u, asked, ended + [now], k', id) {
      ServedLater(s2u, asked, ended, k, id, [], [now], k');
    }
  }

  lemma TransferStays(k: Control, i: nat, completion: Completion, t: ControlTransfer)
    requires i < |k.transfers| && t in k.transfers
    ensures t in AfterEnd(k, i, completion).transfers || t == k.transfers[i]
  {
    var j :| 0 <= j < |k.transfers| && k.transfers[j] == t;
    var left := k.transfers[..i] + k.transfers[i + 1..];
    if j < i {
      assert left[j] == t;
    } else if j > i {
      assert left[j - 1] == t;
    }
  }

  // ----- runs -----

  ghost predicate RequestsKept(c: Config, s: Sys) {
    && |s.past.asked| == s.past.requests
    && RequestInv(c.s2u, s.h.control, s.past.asked, s.past.ended, ValuesOf(s.toPc, E_TYPE_CONTROL))
    && ServiceInv(c.s2u, s.h.control, s.past.asked, s.past.ended)
  }

  lemma MainEffects(c: Config, s: Sys, step: Step, s': Sys)
    requires Enabled(s, step) && IsMain(step) && s' == Do(c, s, step)
    ensures s'.h == s.h && s'.past.ended == s.past.ended && s'.past.requests == s.past.requests + |s'.past.asked| - |s.past.asked|
    ensures if step.SendControl? then
              s'.past.asked == s.past.asked + [s.fw.at.request]
              && ValuesOf(s'.toPc, E_TYPE_CONTROL) == ValuesOf(s.toPc, E_TYPE_CONTROL) + [s.fw.at.request]
            else
              s'.past.asked == s.past.asked && ValuesOf(s'.toPc, E_TYPE_CONTROL) == ValuesOf(s.toPc, E_TYPE_CONTROL)
  {
    MainEffect(c, s, step);
    ExchangeProof.SentLanes(s, step);
  }

  lemma OtherEffects(c: Config, s: Sys, step: Step, s': Sys)
    requires Enabled(s, step) && s' == Do(c, s, step)
    requires step.Interrupt? || step.InEnds? || (step.PcReceives? && s.toPc[0].kind != E_TYPE_CONTROL)
    ensures s'.h.control == s.h.control && s'.past.asked == s.past.asked && s'.past.ended == s.past.ended && s'.past.requests == s.past.requests
    ensures ValuesOf(s'.toPc, E_TYPE_CONTROL) == ValuesOf(s.toPc, E_TYPE_CONTROL)
  {
    match step
    case Interrupt => ExchangeProof.InterruptLanes(c, s);
      assert Invariant.LanesOf(s').requests == Invariant.LanesOf(s).requests;
    case InEnds(_, _) =>
    case PcReceives =>
      PopOne(s.toPc);
      ControlUntouched(c, s.h, s.toPc[0]);
  }

  lemma ControlUntouched(c: Config, h: Host, f: Frame)
    requires f.kind != E_TYPE_CONTROL
    ensures ProcessPacket(c, h, f).0.control == h.control
  {
  }

  lemma ControlEndEffects(c: Config, s: Sys, i: nat, completion: Completion, s': Sys)
    requires Enabled(s, ControlEnds(i, completion)) && s' == Do(c, s, ControlEnds(i, completion))
    ensures s'.h.control == AfterEnd(s.h.control, i, completion) && s'.toPc == s.toPc
    ensures s'.past.asked == s.past.asked && s'.past.ended == s.past.ended + [Ended(s.h.control.transfers[i], completion)]
    ensures s'.past.requests == s.past.requests
  {
  }

  lemma StepKeepsRequests(c: Config, s: Sys, step: Step, s': Sys)
    requires RequestsKept(c, s) && Enabled(s, step) && s' == Do(c, s, step)
    ensures RequestsKept(c, s')
  {
    var k, past, packets := s.h.control, s.past, ValuesOf(s.toPc, E_TYPE_CONTROL);
    if IsMain(step) {
      MainEffects(c, s, step, s');
      if step.SendControl? {
        AskedMore(c.s2u, k, past.asked, past.ended, packets, s.fw.at.request);
        AskingServes(c.s2u, k, past.asked, past.ended, s.fw.at.request);
      }
    } else if step.ControlEnds? {
      ControlEndEffects(c, s, step.i, step.c, s');
      TransferEnded(c.s2u, k, past.asked, past.ended, packets, step.i, step.c);
      EndingServes(c.s2u, k, past.asked, past.ended, step.i, step.c, s'.h.control);
    } else if step.PcReceives? && s.toPc[0].kind == E_TYPE_CONTROL {
      PopOne(s.toPc);
      PacketTaken(c.s2u, k, past.asked, past.ended, s.toPc[0].value, ValuesOf(s.toPc[1..], E_TYPE_CONTROL), s'.h.control);
      TakingServes(c.s2u, k, past.asked, past.ended, s.toPc[0].value, s'.h.control);
    } else {
      OtherEffects(c, s, step, s');
    }
  }

  lemma InitialRequests(c: Config)
    ensures RequestsKept(c, Initial(c))
  {
  }

  lemma {:induction false} RunKeepsRequests(c: Config, states: seq<Sys>, steps: seq<Step>, i: nat, s: Sys)
    requires IsRun(c, states, steps) && i < |states| && s == states[i]
    ensures RequestsKept(c, s)
  {
    if i == 0 {
      InitialRequests(c);
    } else {
      RunKeepsRequests(c, states, steps, i - 1, states[i - 1]);
      assert Enabled(states[i - 1], steps[i - 1]) && states[i - 1 + 1] == Do(c, states[i - 1], steps[i - 1]);
      StepKeepsRequests(c, states[i - 1], steps[i - 1], s);
    }
  }

  lemma ReachableRequests(c: Config, s: Sys)
    requires Reachable(c, s)
    ensures RequestsKept(c, s)
  {
    var states, steps :| IsRun(c, states, steps) && s in states;
    var i :| 0 <= i < |states| && states[i] == s;
    RunKeepsRequests(c, states, steps, i, s);
  }

  // ----- what that means -----

  /** The device is asked exactly what the target host asked, in order: the requests not yet received by the PC are the last
      ones the firmware sent, and every control transfer, under way or ended, carries the request of its number, which is
      not one for the device qualifier. */
  lemma DeviceIsAsked(c: Config, s: Sys, t: ControlTransfer)
    requires Reachable(c, s) && (t in s.h.control.transfers || exists e :: e in s.past.ended && e.transfer == t)
    ensures s.h.control.seen <= |s.past.asked| == s.past.requests && ValuesOf(s.toPc, E_TYPE_CONTROL) == s.past.asked[s.h.control.seen..]
    ensures 1 <= t.id <= |s.past.asked| && t.value == TranslateSetup(c.s2u, s.past.asked[t.id - 1])
    ensures var v := s.past.asked[t.id - 1]; !(|v| >= 8 && v[0] == 0x80 && v[1] == 6 && (v[2] as int + 256 * v[3] as int) / 256 == 6)
  {
    ReachableRequests(c, s);
    QualifierIsKept(c.s2u, s.past.asked[t.id - 1]);
  }

  /** Every request the PC has received is at the device, or has ended there and been answered if its end calls for an
      answer, or has been stalled because it asks for the device qualifier. */
  lemma RequestIsServed(c: Config, s: Sys, id: nat)
    requires Reachable(c, s) && 1 <= id <= s.h.control.seen
    ensures id <= |s.past.asked|
    ensures || (exists t :: t in s.h.control.transfers && t.id == id)
            || (exists e :: e in s.past.ended && e.transfer.id == id && Delivered(e, s.h.control.replies))
            || (AsksForQualifier(s.past.asked[id - 1]) && Reply(id, true, []) in s.h.control.replies)
  {
    ReachableRequests(c, s);
    assert Served(c.s2u, s.past.asked, s.past.ended, s.h.control, id);
    QualifierIsKept(c.s2u, s.past.asked[id - 1]);
    if e :| e in s.past.ended && e.transfer.id == id {
      assert Delivered(e, s.h.control.replies);
    }
  }

  // ----- what the PC sends -----

  lemma OneFrame(kind: byte, data: seq<byte>)
    requires |data| <= MAX_PACKET_VALUE_SIZE
    ensures Split(kind, data) == [Frame(kind, data)]
  {
  }

  /** The end of a control transfer sends the data of a read, an empty packet for a write, a stall for a refusal and for a read
      that has timed out, and nothing else. */
  lemma ControlEndSends(c: Config, s: Sys, i: nat, completion: Completion)
    requires Enabled(s, ControlEnds(i, completion))
    ensures var (v, sent) := (s.h.control.transfers[i].value, Do(c, s, ControlEnds(i, completion)).toFw);
            match completion
            case Bytes(data) => sent == s.toFw + [Frame(E_TYPE_CONTROL, if v != [] && v[0] >= 128 then data else [])]
            case Stall => sent == s.toFw + [Frame(E_TYPE_CONTROL_STALL, [])]
            case TimedOut => sent == s.toFw + (if v != [] && v[0] >= 128 then [Frame(E_TYPE_CONTROL_STALL, [])] else [])
            case Error => sent == s.toFw
  {
    OneFrame(E_TYPE_CONTROL_STALL, []);
    OneFrame(E_TYPE_CONTROL, []);
    if completion.Bytes? {
      OneFrame(E_TYPE_CONTROL, completion.data);
    }
    assert s.toFw + [] == s.toFw;
  }

  /** A request for the device qualifier is stalled at once; any other one is submitted, translated, and nothing is sent. */
  lemma ControlPacketOutcome(c: Config, s: Sys)
    requires s.toPc != [] && s.toPc[0].kind == E_TYPE_CONTROL
    ensures var (v, k, s') := (s.toPc[0].value, s.h.control, Do(c, s, PcReceives));
            if |v| >= 8 && v[0] == 0x80 && v[1] == 6 && (v[2] as int + 256 * v[3] as int) / 256 == 6 then
              s'.toFw == s.toFw + [Frame(E_TYPE_CONTROL_STALL, [])] && s'.h.control.transfers == k.transfers
            else
              s'.toFw == s.toFw && s'.h.control.transfers == k.transfers + [ControlTransfer(k.seen + 1, TranslateSetup(c.s2u, v))]
  {
    QualifierMeans(TranslateSetup(c.s2u, s.toPc[0].value));
    QualifierIsKept(c.s2u, s.toPc[0].value);
    OneFrame(E_TYPE_CONTROL_STALL, []);
    assert s.toFw + [] == s.toFw;
  }

  /** Each reply the firmware acts on for request k is what the device answered to request k, or the stall that a request for
      the device qualifier always gets, as long as no request has been given up while it was under way. */
  lemma AnswersReachTheirRequest(c: Config, s: Sys, r: Reply)
    requires Invariant.ConfigOk(c) && Reachable(c, s) && !s.past.abandoned && r in s.past.consumed
    ensures Answers(c.s2u, s.past.asked, s.past.ended, r)
  {
    ReachableRequests(c, s);
    Guarantees.RepliesMatch(c, s);
  }
}
