/** The byte-level system can do whatever the packet-level one can: with WireProof, the two have the same states, up to
    the bytes of unfinished packets. What is reachable for packets, faults included, is reachable for bytes. */
module WireComplete {
  import opened Protocol
  import opened Adapter
  import opened Proxy
  import opened Firmware
  import opened System
  import opened Invariant
  import opened Effects
  import opened Wire
  import opened WireProof
  import Guarantees
  import LateReplies
  import Preservation

  // ----- runs of bytes -----

  lemma WireCut(c: Config, lines: seq<Line>, steps: seq<WireStep>, i: nat)
    requires IsWireRun(c, lines, steps) && i < |lines|
    ensures IsWireRun(c, lines[..i + 1], steps[..i])
  {
    var lines', steps' := lines[..i + 1], steps[..i];
    forall k | 0 <= k < |steps'| ensures Possible(lines'[k], steps'[k]) && lines'[k + 1] == Next(c, lines'[k], steps'[k]) {
      assert Possible(lines[k], steps[k]) && lines[k + 1] == Next(c, lines[k], steps[k]);
    }
  }

  lemma WireGrows(c: Config, lines: seq<Line>, steps: seq<WireStep>, l: Line, w: WireStep)
    requires IsWireRun(c, lines, steps) && l == lines[|steps|] && Possible(l, w)
    ensures IsWireRun(c, lines + [Next(c, l, w)], steps + [w])
  {
    var lines', steps' := lines + [Next(c, l, w)], steps + [w];
    forall k | 0 <= k < |steps'| ensures Possible(lines'[k], steps'[k]) && lines'[k + 1] == Next(c, lines'[k], steps'[k]) {
      if k < |steps| {
        assert Possible(lines[k], steps[k]) && lines[k + 1] == Next(c, lines[k], steps[k]);
      }
    }
  }

  lemma WireReachableNext(c: Config, l: Line, w: WireStep, l': Line)
    requires WireReachable(c, l) && Possible(l, w) && l' == Next(c, l, w)
    ensures WireReachable(c, l')
  {
    var lines, steps :| IsWireRun(c, lines, steps) && l in lines;
    var i :| 0 <= i < |lines| && lines[i] == l;
    WireCut(c, lines, steps, i);
    WireGrows(c, lines[..i + 1], steps[..i], l, w);
    var grown := lines[..i + 1] + [l'];
    assert grown[i + 1] == l';
  }

  lemma WireReachableStart(c: Config)
    ensures WireReachable(c, Begin(c))
  {
    assert IsWireRun(c, [Begin(c)], []);
    assert Begin(c) in [Begin(c)];
  }

  // ----- a packet-level step, byte by byte -----

  /** No packet is half read or half transmitted. */
  ghost predicate Settled(c: Config, l: Line, s: Sys) {
    WireReachable(c, l) && Carries(l, s) && l.taken == [] && l.unsent == [] && l.decoder.rx == []
  }

  /** The main program transmits what it has begun. */
  lemma {:induction false} TransmitsAll(c: Config, l: Line, s: Sys) returns (l': Line)
    requires WireReachable(c, l) && Carries(l, s) && l.taken == [] && l.decoder.rx == []
    ensures Settled(c, l', s)
    decreases |l.unsent|
  {
    if l.unsent == [] {
      l' := l;
    } else {
      var next := Next(c, l, TransmitByte);
      TransmitSimulated(c, l, s);
      WireReachableNext(c, l, TransmitByte, next);
      l' := TransmitsAll(c, next, s);
    }
  }

  lemma MainFollows(c: Config, l: Line, s: Sys, step: Step) returns (l': Line)
    requires Settled(c, l, s) && IsMain(step) && Enabled(s, step)
    ensures Settled(c, l', Do(c, s, step))
  {
    SameMain(c, Machines(l), s, step);
    var next := Next(c, l, MainRuns(step));
    MainSimulated(c, l, s, step);
    WireReachableNext(c, l, MainRuns(step), next);
    l' := TransmitsAll(c, next, Do(c, s, step));
  }

  lemma TransferFollows(c: Config, l: Line, s: Sys, step: Step) returns (l': Line)
    requires Settled(c, l, s) && (step.InEnds? || step.ControlEnds?) && Enabled(s, step)
    ensures Settled(c, l', Do(c, s, step))
  {
    SameTransfers(c, Machines(l), s, step);
    TransferSimulated(c, l, s, step);
    l' := Next(c, l, TransferEnds(step));
    WireReachableNext(c, l, TransferEnds(step), l');
  }

  lemma ByteRead(c: Config, l: Line, s: Sys) returns (l': Line)
    requires ShapeInv(s) && StartInv(c, s) && s.toFw != []
    requires WireReachable(c, l) && Carries(l, s) && l.toFw != []
    ensures WireReachable(c, l') && l'.unsent == l.unsent && l'.decoder == l.decoder && |l'.toFw| < |l.toFw|
    ensures Carries(l', s) || (l'.taken == [] && Carries(l', Do(c, s, Interrupt)))
  {
    ByteTaken(c, l, s);
    l' := Next(c, l, InterruptByte);
    WireReachableNext(c, l, InterruptByte, l');
    if Take(l.taken + [l.toFw[0]]).Whole? {
      if Isr(s.fw, s.toFw[0]).1 != [] {
        Guarantees.AcksAtBoot(c, s);
      }
      InterruptDone(c, l, s);
      InterruptNext(c, l, s.toFw[0]);
    }
  }

  lemma SomethingLeft(l: Line, s: Sys)
    requires Carries(l, s) && s.toFw != []
    ensures l.toFw != []
  {
    PartialIsInsideFirst(l.taken, l.toFw, s.toFw);
    assert |l.taken| < |Encode(s.toFw[0])| <= |EncodeAll(s.toFw)| == |l.taken| + |l.toFw|;
  }

  /** The interrupt takes the rest of the first packet. */
  lemma {:induction false} InterruptFollows(c: Config, l: Line, s: Sys) returns (l': Line)
    requires ShapeInv(s) && StartInv(c, s) && s.toFw != []
    requires WireReachable(c, l) && Carries(l, s) && l.unsent == [] && l.decoder.rx == []
    ensures Settled(c, l', Do(c, s, Interrupt))
    decreases |l.toFw|
  {
    SomethingLeft(l, s);
    var next := ByteRead(c, l, s);
    if next.taken == [] && Carries(next, Do(c, s, Interrupt)) {
      l' := next;
    } else {
      l' := InterruptFollows(c, next, s);
    }
  }

  /** What the decoder asks for is on the line, if a packet is. */
  lemma ReadIsPossible(l: Line, s: Sys)
    requires Carries(l, s) && s.toPc != [] && l.unsent == []
    ensures l.decoder.readSize <= |l.toPc| && (l.decoder != START ==> l.decoder.readSize > 0)
  {
    var rx, first := l.decoder.rx, Encode(s.toPc[0]);
    assert rx + l.toPc == rx + l.toPc + l.unsent;
    PartialIsInsideFirst(rx, l.toPc, s.toPc);
    assert |first| <= |EncodeAll(s.toPc)| == |rx| + |l.toPc|;
    if |rx| >= HEADER_SIZE {
      assert rx[1] == first[1] == |s.toPc[0].value|;
    }
  }

  lemma ChunkRead(c: Config, l: Line, s: Sys) returns (l': Line)
    requires s.toPc != [] && WireReachable(c, l) && Carries(l, s) && l.unsent == []
    ensures WireReachable(c, l') && l'.unsent == [] && l'.taken == l.taken && |l'.toPc| <= |l.toPc|
    ensures (l'.decoder.rx == [] && Carries(l', Do(c, s, PcReceives)))
         || (Carries(l', s) && l'.decoder != START && (l.decoder != START ==> |l'.toPc| < |l.toPc|))
  {
    ReadIsPossible(l, s);
    var n := l.decoder.readSize;
    var (d, out) := RecvStep(l.decoder, l.toPc[..n]);
    l' := Next(c, l, PcReads(n));
    WireReachableNext(c, l, PcReads(n), l');
    ReadSound(l, s, n, d, out);
    if out.Delivered? {
      ReadDelivers(c, l, s, n, d, out);
    } else {
      assert l' == l.(decoder := d, toPc := l.toPc[n..]);
    }
  }

  /** The PC reads the rest of the first packet. */
  lemma {:induction false} ReadFollows(c: Config, l: Line, s: Sys) returns (l': Line)
    requires s.toPc != [] && WireReachable(c, l) && Carries(l, s) && l.unsent == [] && l.taken == []
    ensures Settled(c, l', Do(c, s, PcReceives))
    decreases |l.toPc|, l.decoder == START
  {
    var next := ChunkRead(c, l, s);
    if next.decoder.rx == [] && Carries(next, Do(c, s, PcReceives)) {
      l' := next;
    } else {
      l' := ReadFollows(c, next, s);
    }
  }

  /** Every packet-level step is a series of byte-level steps. */
  lemma StepFollows(c: Config, l: Line, s: Sys, step: Step, s': Sys) returns (l': Line)
    requires ConfigOk(c) && Reachable(c, s) && Settled(c, l, s) && Enabled(s, step) && s' == Do(c, s, step)
    ensures Settled(c, l', s')
  {
    Preservation.ReachableInv(c, s);
    if IsMain(step) {
      l' := MainFollows(c, l, s, step);
    } else if step.PcReceives? {
      l' := ReadFollows(c, l, s);
    } else if step.Interrupt? {
      l' := InterruptFollows(c, l, s);
    } else {
      l' := TransferFollows(c, l, s, step);
    }
  }

  lemma {:induction false} RunFollows(c: Config, states: seq<Sys>, steps: seq<Step>, i: nat, s: Sys) returns (l: Line)
    requires ConfigOk(c) && IsRun(c, states, steps) && i < |states| && s == states[i]
    ensures Settled(c, l, s)
  {
    if i == 0 {
      l := Begin(c);
      WireReachableStart(c);
      CarriesStart(c);
    } else {
      var before := states[i - 1];
      var l0 := RunFollows(c, states, steps, i - 1, before);
      assert Enabled(states[i - 1], steps[i - 1]) && states[i - 1 + 1] == Do(c, states[i - 1], steps[i - 1]);
      assert before in states;
      l := StepFollows(c, l0, before, steps[i - 1], s);
    }
  }

  /** Every packet-level state of every run is carried by a byte-level state of some run, with nothing unfinished on the line. */
  lemma WireReaches(c: Config, s: Sys)
    requires ConfigOk(c) && Reachable(c, s)
    ensures exists l :: Settled(c, l, s)
  {
    var states, steps :| IsRun(c, states, steps) && s in states;
    var i :| 0 <= i < |states| && states[i] == s;
    var l := RunFollows(c, states, steps, i, s);
  }

  /** The late reply taken for another one is no artefact of whole packets: it happens byte by byte. */
  lemma MistakeOnTheWire(c: Config) returns (l: Line)
    requires ConfigOk(c)
    ensures WireReachable(c, l) && exists r :: r in l.past.consumed && r !in l.h.control.replies
  {
    var t := LateReplies.MistakeIsReachable(c);
    WireReaches(c, t);
    l :| Settled(c, l, t);
    var r :| r in t.past.consumed && r !in t.h.control.replies;
    assert r in l.past.consumed && r !in l.h.control.replies;
  }
}
