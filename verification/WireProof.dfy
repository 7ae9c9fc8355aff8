/** The byte-level system simulates the packet-level one, so everything guaranteed for packets holds for bytes. */
module WireProof {
  import opened Protocol
  import opened Adapter
  import opened Proxy
  import opened Firmware
  import opened System
  import opened Invariant
  import opened Effects
  import opened Wire
  import Preservation
  import Guarantees
  import Runs

  /** The bytes on the line, with what has been taken off it and not yet put on it, are whole packets: those of `s`. */
  ghost predicate Carries(l: Line, s: Sys) {
    && l.h == s.h && l.fw == s.fw && l.past == s.past
    && DecoderOk(l.decoder)
    && l.decoder.rx + l.toPc + l.unsent == EncodeAll(s.toPc)
    && Partial(l.taken)
    && l.taken + l.toFw == EncodeAll(s.toFw)
    && (l.unsent != [] ==> !l.fw.at.Boot?)
  }

  // ----- one byte-level step is one packet-level step, or none -----

  /** The machines do the same whatever is on the line. */
  ghost predicate SameStep(c: Config, m: Sys, s: Sys, step: Step) {
    && Enabled(m, step) == Enabled(s, step)
    && (Enabled(m, step) ==>
          var (m', s') := (Do(c, m, step), Do(c, s, step));
          && m'.h == s'.h && m'.fw == s'.fw && m'.past == s'.past
          && s'.toFw == s.toFw + m'.toFw && s'.toPc == s.toPc + m'.toPc)
  }

  lemma SameTransfers(c: Config, m: Sys, s: Sys, step: Step)
    requires m.h == s.h && m.fw == s.fw && m.past == s.past && m.toFw == [] && m.toPc == []
    requires step.InEnds? || step.ControlEnds?
    ensures SameStep(c, m, s, step)
  {
    NothingSent(s.toFw);
    NothingSent(s.toPc);
  }

  lemma SameMain(c: Config, m: Sys, s: Sys, step: Step)
    requires m.h == s.h && m.fw == s.fw && m.past == s.past && m.toFw == [] && m.toPc == []
    requires IsMain(step)
    ensures SameStep(c, m, s, step)
  {
    NothingSent(s.toFw);
    NothingSent(s.toPc);
  }

  lemma TransferSimulated(c: Config, l: Line, s: Sys, step: Step)
    requires Carries(l, s) && Possible(l, TransferEnds(step))
    ensures Enabled(s, step) && Carries(Next(c, l, TransferEnds(step)), Do(c, s, step))
  {
    SameTransfers(c, Machines(l), s, step);
    TransferSends(c, Machines(l), step);
    SentToFw(l.taken, l.toFw, s.toFw, Do(c, Machines(l), step).toFw);
  }

  lemma TransferSends(c: Config, s: Sys, step: Step)
    requires Enabled(s, step) && (step.InEnds? || step.ControlEnds?)
    ensures Do(c, s, step).toPc == s.toPc && Do(c, s, step).fw == s.fw
  {
  }

  lemma SentToFw(taken: seq<byte>, toFw: seq<byte>, fs: seq<Frame>, sent: seq<Frame>)
    requires taken + toFw == EncodeAll(fs)
    ensures taken + (toFw + EncodeAll(sent)) == EncodeAll(fs + sent)
  {
    EncodeAllConcat(fs, sent);
    assert taken + (toFw + EncodeAll(sent)) == taken + toFw + EncodeAll(sent);
  }

  lemma MainSimulated(c: Config, l: Line, s: Sys, step: Step)
    requires Carries(l, s) && Possible(l, MainRuns(step))
    ensures Enabled(s, step) && Carries(Next(c, l, MainRuns(step)), Do(c, s, step))
  {
    SameMain(c, Machines(l), s, step);
    MainEffect(c, Machines(l), step);
    var sent := Do(c, Machines(l), step).toPc;
    EncodeAllConcat(s.toPc, sent);
    assert l.decoder.rx + l.toPc + [] == l.decoder.rx + l.toPc;
  }

  lemma TransmitSimulated(c: Config, l: Line, s: Sys)
    requires Carries(l, s) && Possible(l, TransmitByte)
    ensures Carries(Next(c, l, TransmitByte), s)
  {
    assert l.unsent == [l.unsent[0]] + l.unsent[1..];
    assert l.decoder.rx + (l.toPc + [l.unsent[0]]) + l.unsent[1..] == l.decoder.rx + l.toPc + l.unsent;
  }

  /** One more byte for the interrupt: still inside the first packet, or exactly that packet. */
  lemma TakeSound(taken: seq<byte>, next: byte, rest: seq<byte>, fs: seq<Frame>)
    requires Partial(taken) && taken + ([next] + rest) == EncodeAll(fs)
    ensures fs != []
    ensures fs[0].kind <= E_TYPE_IN ==>
              match Take(taken + [next])
              case More => Partial(taken + [next]) && taken + [next] + rest == EncodeAll(fs)
              case Whole(f) => f == fs[0] && rest == EncodeAll(fs[1..])
              case Dropped => false
              case TooLong => false
  {
    PartialIsInsideFirst(taken, [next] + rest, fs);
    var bytes, first, stream := taken + [next], Encode(fs[0]), EncodeAll(fs);
    assert bytes + rest == stream;
    assert stream[..|first|] == first && stream[|first|..] == EncodeAll(fs[1..]);
    assert bytes == stream[..|bytes|];
    assert |bytes| <= |first|;
    if |bytes| >= HEADER_SIZE {
      assert bytes[0] == stream[0] == fs[0].kind && bytes[1] == stream[1] == |fs[0].value|;
      if |bytes| == |first| {
        assert bytes == first;
        assert rest == stream[|bytes|..];
      }
    }
  }

  lemma ByteTaken(c: Config, l: Line, s: Sys)
    requires Carries(l, s) && Possible(l, InterruptByte) && ToFwKinds(s.toFw)
    ensures s.toFw != []
    ensures match Take(l.taken + [l.toFw[0]])
            case More => Carries(Next(c, l, InterruptByte), s)
            case Whole(f) => f == s.toFw[0] && l.toFw[1..] == EncodeAll(s.toFw[1..])
            case _ => false
  {
    assert l.toFw == [l.toFw[0]] + l.toFw[1..];
    TakeSound(l.taken, l.toFw[0], l.toFw[1..], s.toFw);
    assert s.toFw[0] in s.toFw;
  }

  lemma AcksOnTheLine(rx: seq<byte>, toPc: seq<byte>, unsent: seq<byte>, fs: seq<Frame>, acks: seq<Frame>)
    requires rx + toPc + unsent == EncodeAll(fs) && (acks != [] ==> unsent == [])
    ensures rx + (toPc + EncodeAll(acks)) + unsent == EncodeAll(fs + acks)
  {
    EncodeAllConcat(fs, acks);
    if acks == [] {
      assert toPc + EncodeAll(acks) == toPc && fs + acks == fs;
    } else {
      assert rx + (toPc + EncodeAll(acks)) + [] == rx + toPc + [] + EncodeAll(acks);
    }
  }

  lemma InterruptNext(c: Config, l: Line, f: Frame)
    requires l.toFw != [] && Take(l.taken + [l.toFw[0]]) == Whole(f)
    ensures Next(c, l, InterruptByte)
         == l.(toFw := l.toFw[1..], taken := [], fw := Isr(l.fw, f).0, toPc := l.toPc + EncodeAll(Isr(l.fw, f).1), past := Took(l.past, f.kind))
  {
  }

  lemma CarriesInterrupt(l: Line, s: Sys, l': Line, s': Sys, fw: Fw, acks: seq<Frame>, past: History)
    requires Carries(l, s) && s.toFw != [] && l.toFw != [] && l.toFw[1..] == EncodeAll(s.toFw[1..])
    requires l' == l.(toFw := l.toFw[1..], taken := [], fw := fw, toPc := l.toPc + EncodeAll(acks), past := past)
    requires s' == s.(toFw := s.toFw[1..], fw := fw, toPc := s.toPc + acks, past := past)
    requires fw.at == s.fw.at && (acks != [] ==> s.fw.at.Boot?)
    ensures Carries(l', s')
  {
    AcksOnTheLine(l.decoder.rx, l.toPc, l.unsent, s.toPc, acks);
    NothingTaken(l.toFw[1..], s.toFw[1..]);
  }

  lemma NothingTaken(toFw: seq<byte>, fs: seq<Frame>)
    requires toFw == EncodeAll(fs)
    ensures [] + toFw == EncodeAll(fs)
  {
    assert [] + toFw == toFw;
  }

  lemma InterruptDone(c: Config, l: Line, s: Sys)
    requires Carries(l, s) && s.toFw != [] && l.toFw != [] && l.toFw[1..] == EncodeAll(s.toFw[1..])
    requires Take(l.taken + [l.toFw[0]]) == Whole(s.toFw[0])
    requires Isr(s.fw, s.toFw[0]).1 != [] ==> s.fw.at.Boot?
    ensures Carries(Next(c, l, InterruptByte), Do(c, s, Interrupt))
  {
    var (fw, acks) := Isr(s.fw, s.toFw[0]);
    IsrEffect(s.fw, s.toFw[0]);
    InterruptNext(c, l, s.toFw[0]);
    CarriesInterrupt(l, s, Next(c, l, InterruptByte), Do(c, s, Interrupt), fw, acks, Took(s.past, s.toFw[0].kind));
  }

  lemma InterruptSimulated(c: Config, l: Line, s: Sys) returns (s': Sys)
    requires ShapeInv(s) && StartInv(c, s) && Carries(l, s) && Possible(l, InterruptByte)
    ensures Carries(Next(c, l, InterruptByte), s')
    ensures s' == s || (Enabled(s, Interrupt) && s' == Do(c, s, Interrupt))
  {
    ByteTaken(c, l, s);
    if Take(l.taken + [l.toFw[0]]).More? {
      s' := s;
    } else {
      if Isr(s.fw, s.toFw[0]).1 != [] {
        Guarantees.AcksAtBoot(c, s);
      }
      InterruptDone(c, l, s);
      s' := Do(c, s, Interrupt);
    }
  }

  lemma ReadSound(l: Line, s: Sys, n: nat, d: Decoder, out: Outcome)
    requires Carries(l, s) && Possible(l, PcReads(n)) && (d, out) == RecvStep(l.decoder, l.toPc[..n])
    ensures DecoderOk(d)
    ensures match out
            case Critical => false
            case Waiting => d.rx + l.toPc[n..] + l.unsent == EncodeAll(s.toPc)
            case Delivered(f) => s.toPc != [] && f == s.toPc[0] && d.rx + l.toPc[n..] + l.unsent == EncodeAll(s.toPc[1..])
  {
    var chunk, later := l.toPc[..n], l.toPc[n..];
    ReadGroups(l.decoder.rx, l.toPc, n, l.unsent);
    RecvStepSound(l.decoder, chunk, later + l.unsent, s.toPc);
    Associate(d.rx, later, l.unsent);
  }

  lemma ReadGroups(rx: seq<byte>, toPc: seq<byte>, n: nat, unsent: seq<byte>)
    requires n <= |toPc|
    ensures rx + toPc[..n] + (toPc[n..] + unsent) == rx + toPc + unsent
  {
    assert toPc == toPc[..n] + toPc[n..];
  }

  lemma ReadDelivers(c: Config, l: Line, s: Sys, n: nat, d: Decoder, out: Outcome)
    requires Carries(l, s) && Possible(l, PcReads(n)) && (d, out) == RecvStep(l.decoder, l.toPc[..n]) && out.Delivered?
    ensures s.toPc != [] && Carries(Next(c, l, PcReads(n)), Do(c, s, PcReceives))
  {
    ReadSound(l, s, n, d, out);
    SentToFw(l.taken, l.toFw, s.toFw, ProcessPacket(c, s.h, s.toPc[0]).1);
  }

  lemma ReadSimulated(c: Config, l: Line, s: Sys, n: nat) returns (s': Sys)
    requires Carries(l, s) && Possible(l, PcReads(n))
    ensures Carries(Next(c, l, PcReads(n)), s')
    ensures s' == s || (Enabled(s, PcReceives) && s' == Do(c, s, PcReceives))
  {
    var (d, out) := RecvStep(l.decoder, l.toPc[..n]);
    if out.Delivered? {
      ReadDelivers(c, l, s, n, d, out);
      s' := Do(c, s, PcReceives);
    } else {
      ReadSound(l, s, n, d, out);
      s' := s;
    }
  }

  /** One step of the packet-level system, or none. */
  ghost predicate StepOrNone(c: Config, s: Sys, s': Sys) {
    s' == s || exists step :: Enabled(s, step) && s' == Do(c, s, step)
  }

  lemma OneStep(c: Config, s: Sys, step: Step, s': Sys)
    requires s' == s || (Enabled(s, step) && s' == Do(c, s, step))
    ensures StepOrNone(c, s, s')
  {
  }

  lemma MachineSimulated(c: Config, l: Line, s: Sys, w: WireStep, l': Line) returns (s': Sys)
    requires Carries(l, s) && Possible(l, w) && (w.TransferEnds? || w.MainRuns?) && l' == Next(c, l, w)
    ensures Carries(l', s') && StepOrNone(c, s, s')
  {
    if w.TransferEnds? {
      TransferSimulated(c, l, s, w.step);
    } else {
      MainSimulated(c, l, s, w.step);
    }
    s' := Do(c, s, w.step);
    OneStep(c, s, w.step, s');
  }

  lemma LineSimulated(c: Config, l: Line, s: Sys, w: WireStep, l': Line) returns (s': Sys)
    requires ShapeInv(s) && StartInv(c, s) && Carries(l, s) && Possible(l, w) && !w.TransferEnds? && !w.MainRuns? && l' == Next(c, l, w)
    ensures Carries(l', s') && StepOrNone(c, s, s')
  {
    match w
    case PcReads(n) =>
      s' := ReadSimulated(c, l, s, n);
      OneStep(c, s, PcReceives, s');
    case InterruptByte =>
      s' := InterruptSimulated(c, l, s);
      OneStep(c, s, Interrupt, s');
    case TransmitByte =>
      TransmitSimulated(c, l, s);
      s' := s;
  }

  /** Every byte-level step is a packet-level step or leaves the packet-level state as it is. */
  lemma StepSimulated(c: Config, l: Line, s: Sys, w: WireStep) returns (s': Sys)
    requires ShapeInv(s) && StartInv(c, s) && Carries(l, s) && Possible(l, w)
    ensures Carries(Next(c, l, w), s')
    ensures s' == s || exists step :: Enabled(s, step) && s' == Do(c, s, step)
  {
    if w.TransferEnds? || w.MainRuns? {
      s' := MachineSimulated(c, l, s, w, Next(c, l, w));
    } else {
      s' := LineSimulated(c, l, s, w, Next(c, l, w));
    }
  }

  // ----- whole runs -----

  lemma CarriesStart(c: Config)
    ensures Carries(Begin(c), Initial(c))
  {
  }

  lemma ReachableSimulated(c: Config, p: Line, s0: Sys, w: WireStep) returns (s: Sys)
    requires ConfigOk(c) && Reachable(c, s0) && Carries(p, s0) && Possible(p, w)
    ensures Carries(Next(c, p, w), s)
    ensures s == s0 || exists step :: Enabled(s0, step) && s == Do(c, s0, step)
  {
    Preservation.ReachableInv(c, s0);
    s := StepSimulated(c, p, s0, w);
  }

  lemma CarriesNext(c: Config, p: Line, s0: Sys, w: WireStep, l: Line) returns (s: Sys)
    requires ConfigOk(c) && Reachable(c, s0) && Carries(p, s0) && Possible(p, w) && l == Next(c, p, w)
    ensures Reachable(c, s) && Carries(l, s)
  {
    s := ReachableSimulated(c, p, s0, w);
    if s != s0 {
      var step :| Enabled(s0, step) && s == Do(c, s0, step);
      Runs.ReachableNext(c, s0, step, s);
    }
  }

  lemma {:induction false} WireRunCarries(c: Config, lines: seq<Line>, steps: seq<WireStep>, i: nat, l: Line) returns (s: Sys)
    requires ConfigOk(c) && IsWireRun(c, lines, steps) && i < |lines| && l == lines[i]
    ensures Reachable(c, s) && Carries(l, s)
  {
    if i == 0 {
      s := Initial(c);
      Runs.ReachableStart(c);
      CarriesStart(c);
    } else {
      var j := i - 1;
      var p := lines[j];
      var s0 := WireRunCarries(c, lines, steps, j, p);
      s := CarriesNext(c, p, s0, steps[j], l);
    }
  }

  /** Every byte-level state of every run carries a reachable packet-level state. */
  lemma WireRefines(c: Config, l: Line)
    requires ConfigOk(c) && WireReachable(c, l)
    ensures exists s :: Reachable(c, s) && Carries(l, s)
  {
    var lines, steps :| IsWireRun(c, lines, steps) && l in lines;
    var i :| 0 <= i < |lines| && lines[i] == l;
    var s := WireRunCarries(c, lines, steps, i, l);
  }

  // ----- what that means for the bytes -----

  /** In every byte-level state: what the firmware has transmitted and is transmitting is a whole number of packets, the PC's
      decoder stands at the beginning of one of them, and neither end has failed or overrun a memory. */
  lemma WireIsFramed(c: Config, l: Line)
    requires ConfigOk(c) && WireReachable(c, l)
    ensures exists fs :: l.decoder.rx + l.toPc + l.unsent == EncodeAll(fs)
    ensures exists fs :: l.taken + l.toFw == EncodeAll(fs)
    ensures DecoderOk(l.decoder) && Partial(l.taken)
    ensures l.fw.health == Running && !l.h.done
  {
    WireRefines(c, l);
    var s :| Reachable(c, s) && Carries(l, s);
    Preservation.ReachableInv(c, s);
  }

  /** Nothing is lost, duplicated, reordered or altered on the way from the device to the target host: the reports delivered,
      the one that the bytes on the line or the slot hold, and the queued ones are the device's, in this order. */
  lemma WireReportsInOrder(c: Config, l: Line, fs: seq<Frame>)
    requires ConfigOk(c) && WireReachable(c, l) && l.taken + l.toFw == EncodeAll(fs)
    ensures l.past.reports + InFlight(l.fw.slot, l.fw.at.InCleared?, ValuesOf(fs, E_TYPE_IN)) + Queued(l.h.flow.slots, l.h.flow.fifo)
         == Translated(c.u2s, l.past.completed)
    ensures l.past.reports <= Translated(c.u2s, l.past.completed)
    ensures l.h.flow.inPending == 0 ==> l.past.reports == Translated(c.u2s, l.past.completed)
  {
    WireRefines(c, l);
    var s :| Reachable(c, s) && Carries(l, s);
    EncodeAllInjective(fs, s.toFw);
    Guarantees.ReportsInOrder(c, s);
  }

  /** What the bytes on their way to the PC will make it write is what it has not yet written of the firmware's OUT packets. */
  lemma WireOutsInOrder(c: Config, l: Line, fs: seq<Frame>)
    requires ConfigOk(c) && WireReachable(c, l) && l.decoder.rx + l.toPc + l.unsent == EncodeAll(fs)
    ensures l.h.outs + Writes(c.s2u, ValuesOf(fs, E_TYPE_OUT)) == Writes(c.s2u, l.past.outSent)
  {
    WireRefines(c, l);
    var s :| Reachable(c, s) && Carries(l, s);
    EncodeAllInjective(fs, s.toPc);
    Guarantees.OutsInOrder(c, s);
  }

  /** The memories agree as soon as the firmware has started. */
  lemma WireStartUpAgreement(c: Config, l: Line)
    requires ConfigOk(c) && WireReachable(c, l) && l.fw.mem.started
    ensures Guarantees.StoredIn(l.fw.mem.descriptors) == c.desc
    ensures l.fw.mem.index.bytes == Padded(c.index, MAX_DESCRIPTORS * INDEX_ENTRY_SIZE)
    ensures l.fw.mem.endpoints == Padded(c.endpoints, MAX_ENDPOINTS * ENDPOINT_CONFIG_SIZE)
  {
    WireRefines(c, l);
    var s :| Reachable(c, s) && Carries(l, s);
    Guarantees.StartUpAgreement(c, s);
  }

  /** Replies answer the requests they are used for, as long as no request has been given up while it was under way. */
  lemma WireRepliesMatch(c: Config, l: Line)
    requires ConfigOk(c) && WireReachable(c, l)
    ensures Guarantees.Matched(l.h.control, l.past)
  {
    WireRefines(c, l);
    var s :| Reachable(c, s) && Carries(l, s);
    Guarantees.RepliesMatch(c, s);
  }
}
