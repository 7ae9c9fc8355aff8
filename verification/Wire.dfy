/** The same system at byte level: the PC reads the line in pieces, the interrupt takes a packet byte by byte
    while the main program is stopped, and the main program transmits byte by byte while it may be interrupted. */
module Wire {
  import opened Protocol
  import opened Adapter
  import opened Proxy
  import opened Firmware
  import opened System
  import opened Effects

  /** `taken` is what the running interrupt has read of its packet, `unsent` what the main program has still to
      transmit of its own. */
  datatype Line = Line(h: Host, decoder: Decoder, toFw: seq<byte>, taken: seq<byte>, fw: Fw, toPc: seq<byte>, unsent: seq<byte>, past: History)

  datatype WireStep =
    | PcReads(n: nat)
    | TransferEnds(step: Step)
    | InterruptByte
    | TransmitByte
    | MainRuns(step: Step)

  function Begin(c: Config): Line {
    Line(InitialHost(), START, EncodeAll(Split(E_TYPE_DESCRIPTORS, c.desc)), [], InitialFw(), [], [], Initial(c).past)
  }

  /** The state of the two machines, with nothing on the line. */
  function Machines(l: Line): Sys { Sys(l.h, [], l.fw, [], l.past) }

  predicate Possible(l: Line, w: WireStep) {
    match w
    case PcReads(n) => n <= l.decoder.readSize && n <= |l.toPc|
    case TransferEnds(step) => !IsMain(step) && !step.PcReceives? && !step.Interrupt? && Enabled(Machines(l), step)
    case InterruptByte => l.toFw != []
    case TransmitByte => l.unsent != [] && l.taken == []
    case MainRuns(step) => IsMain(step) && l.unsent == [] && l.taken == [] && Enabled(Machines(l), step)
  }

  /** The interrupt returns after two bytes for an unknown type, and after the announced length otherwise. */
  datatype Taken = More | Dropped | Whole(frame: Frame) | TooLong

  function Take(bytes: seq<byte>): Taken {
    if |bytes| < HEADER_SIZE then More
    else if bytes[0] > E_TYPE_IN then Dropped
    else if |bytes| < HEADER_SIZE + bytes[1] then More
    else if |bytes| - HEADER_SIZE > MAX_PACKET_VALUE_SIZE then TooLong
    else Whole(Frame(bytes[0], bytes[HEADER_SIZE..]))
  }

  function Next(c: Config, l: Line, w: WireStep): Line
    requires Possible(l, w)
  {
    match w
    case PcReads(n) =>
      var (d, out) := RecvStep(l.decoder, l.toPc[..n]);
      var l1 := l.(decoder := d, toPc := l.toPc[n..]);
      (match out
       case Waiting => l1
       case Critical => l1.(h := l.h.(done := true))
       case Delivered(f) =>
         var (h', sent) := ProcessPacket(c, l.h, f);
         l1.(h := h', toFw := l.toFw + EncodeAll(sent)))
    case TransferEnds(step) =>
      var s := Do(c, Machines(l), step);
      l.(h := s.h, past := s.past, toFw := l.toFw + EncodeAll(s.toFw))
    case InterruptByte =>
      var bytes := l.taken + [l.toFw[0]];
      var l1 := l.(toFw := l.toFw[1..]);
      (match Take(bytes)
       case More => l1.(taken := bytes)
       case Dropped => l1.(taken := [])
       case TooLong => l1.(taken := [], fw := l.fw.(health := Overrun))
       case Whole(f) =>
         var (fw', acks) := Isr(l.fw, f);
         l1.(taken := [], fw := fw', toPc := l.toPc + EncodeAll(acks), past := Took(l.past, f.kind)))
    case TransmitByte =>
      l.(toPc := l.toPc + [l.unsent[0]], unsent := l.unsent[1..])
    case MainRuns(step) =>
      var s := Do(c, Machines(l), step);
      l.(fw := s.fw, past := s.past, unsent := EncodeAll(s.toPc))
  }

  ghost predicate IsWireRun(c: Config, lines: seq<Line>, steps: seq<WireStep>) {
    && |lines| == |steps| + 1
    && lines[0] == Begin(c)
    && forall i :: 0 <= i < |steps| ==> Possible(lines[i], steps[i]) && lines[i + 1] == Next(c, lines[i], steps[i])
  }

  ghost predicate WireReachable(c: Config, l: Line) {
    exists lines, steps :: IsWireRun(c, lines, steps) && l in lines
  }
}
