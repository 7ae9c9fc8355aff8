/** What the firmware transmits for a control request, byte by byte, and when the PC can read it. */
module ControlRequest {
  import opened Protocol
  import opened Adapter
  import opened Proxy
  import opened Firmware
  import opened System

  /** A setup packet with the data stage of a host-to-device request. */
  datatype Request = Request(setup: seq<byte>, data: seq<byte>)

  function Length(r: Request): nat
    requires |r.setup| == SETUP_SIZE
  {
    r.setup[6] as int + 256 * r.setup[7] as int
  }

  predicate ToHost(r: Request)
    requires |r.setup| == SETUP_SIZE
  {
    r.setup[0] >= USB_DIR_IN
  }

  /** Eight setup bytes, and as much data as wLength says when the data travels to the device. */
  predicate Valid(r: Request) {
    |r.setup| == SETUP_SIZE && |r.data| == if ToHost(r) then 0 else Length(r)
  }

  /** send_control_header: the length byte is an 8-bit sum. */
  function Header(r: Request): seq<byte>
    requires |r.setup| == SETUP_SIZE
  {
    [E_TYPE_CONTROL, if ToHost(r) then SETUP_SIZE else (SETUP_SIZE + Length(r)) % 256] + r.setup
  }

  /** What EVENT_USB_Device_UnhandledControlRequest transmits. */
  function Transmitted(r: Request): seq<byte>
    requires Valid(r)
  {
    if Length(r) > MAX_PACKET_VALUE_SIZE then [E_TYPE_DEBUG, SETUP_SIZE] + r.setup
    else Header(r) + r.data
  }

  lemma TransmittedIs(r: Request, before: seq<byte>)
    requires Valid(r) && Length(r) <= MAX_PACKET_VALUE_SIZE
    ensures before + Transmitted(r) == before + Header(r) + r.data
    ensures ToHost(r) ==> before + Transmitted(r) == before + Header(r)
  {
    assert before + (Header(r) + r.data) == before + Header(r) + r.data;
    assert ToHost(r) ==> Header(r) + r.data == Header(r);
  }

  /** The request goes to the device, its data stage is longer than 246 bytes, and the guard lets it through. */
  predicate TooLong(r: Request)
    requires Valid(r)
  {
    !ToHost(r) && MAX_PACKET_VALUE_SIZE - SETUP_SIZE < Length(r) <= MAX_PACKET_VALUE_SIZE
  }

  function FrameOf(r: Request): Frame
    requires Valid(r) && !TooLong(r)
  {
    if Length(r) > MAX_PACKET_VALUE_SIZE then Frame(E_TYPE_DEBUG, r.setup) else Frame(E_TYPE_CONTROL, r.setup + r.data)
  }

  lemma TransmitsFrame(r: Request)
    requires Valid(r) && !TooLong(r)
    ensures Transmitted(r) == Encode(FrameOf(r))
    ensures Length(r) <= MAX_PACKET_VALUE_SIZE ==> RequestOk(r.setup + r.data)
  {
    assert [E_TYPE_CONTROL, SETUP_SIZE + |r.data|] + (r.setup + r.data) == [E_TYPE_CONTROL, SETUP_SIZE + |r.data|] + r.setup + r.data;
  }

  lemma OverlongIsNoFrame(r: Request, f: Frame)
    requires Valid(r) && TooLong(r)
    ensures Transmitted(r) != Encode(f)
  {
    var bytes := Transmitted(r);
    assert bytes[1] == (SETUP_SIZE + Length(r)) % 256 && |bytes| == HEADER_SIZE + SETUP_SIZE + Length(r);
    assert |Encode(f)| == HEADER_SIZE + Encode(f)[1];
  }

  /** What the firmware transmits for a request is one packet exactly when setup and data take at most 254 bytes, or
      the request is refused, or its data comes from the device. The guard on wLength alone does not ensure that. */
  lemma OnePacketIff(r: Request)
    requires Valid(r)
    ensures (exists f: Frame :: Transmitted(r) == Encode(f)) <==> !TooLong(r)
  {
    if TooLong(r) {
      forall f: Frame ensures Transmitted(r) != Encode(f) {
        OverlongIsNoFrame(r, f);
      }
    } else {
      TransmitsFrame(r);
    }
  }

  /** A request with 250 bytes of data: the length byte says 2, and 258 bytes follow. */
  lemma OverlongExample(data: seq<byte>, r: Request)
    requires |data| == 250 && r == Request([0x21, 0x09, 0, 2, 0, 0, 250, 0], data)
    ensures Valid(r) && TooLong(r) && Transmitted(r)[1] == 2 && |Transmitted(r)| == HEADER_SIZE + 258
  {
  }

  function Handed(out: Outcome): seq<Frame> { if out.Delivered? then [out.frame] else [] }

  lemma TwoReads(d: Decoder, first: seq<byte>, second: seq<byte>)
    ensures var (d', out) := RecvStep(d, first); RecvAll(d, [first, second]).1 == Handed(out) + Handed(RecvStep(d', second).1)
    ensures Healthy(d, [first, second]) ==> !RecvStep(RecvStep(d, first).0, second).1.Critical?
  {
    var pieces: seq<seq<byte>> := [first, second];
    var later: seq<seq<byte>> := [second];
    var d' := RecvStep(d, first).0;
    assert pieces[1..] == later && later[1..] == [];
    assert RecvAll(d', later).1 == Handed(RecvStep(d', second).1) + RecvAll(RecvStep(d', second).0, []).1;
    assert RecvAll(d, pieces).1 == Handed(RecvStep(d, first).1) + RecvAll(d', later).1;
    assert Healthy(d, pieces) ==> Healthy(d', later);
  }

  lemma HeaderRead(header: seq<byte>)
    requires |header| == HEADER_SIZE
    ensures RecvStep(Decoder([], HEADER_SIZE), header)
         == if header[1] == 0 then (Decoder([], HEADER_SIZE), Delivered(Frame(header[0], []))) else (Decoder(header, header[1]), Waiting)
  {
    assert [] + header == header;
  }

  lemma ValueRead(header: seq<byte>, value: seq<byte>)
    requires |header| == HEADER_SIZE && |value| == header[1] > 0
    ensures RecvStep(Decoder(header, header[1]), value).1
         == if |value| > MAX_PACKET_VALUE_SIZE then Critical else Delivered(Frame(header[0], value))
  {
    assert (header + value)[HEADER_SIZE..] == value;
  }

  /** Reading a header and then what it announces delivers one packet, or overruns the packet buffer. */
  lemma ReadsAsAnnounced(header: seq<byte>, value: seq<byte>)
    requires |header| == HEADER_SIZE && |value| == header[1]
    ensures if |value| > MAX_PACKET_VALUE_SIZE then !Healthy(Decoder([], HEADER_SIZE), [header, value])
            else RecvAll(Decoder([], HEADER_SIZE), [header, value]).1 == [Frame(header[0], value)]
  {
    TwoReads(Decoder([], HEADER_SIZE), header, value);
    HeaderRead(header);
    if value != [] {
      ValueRead(header, value);
    }
  }

  /** The length byte of an overlong request, and what it makes the PC take for the value. */
  function Announced(r: Request): byte
    requires |r.setup| == SETUP_SIZE
  {
    (SETUP_SIZE + Length(r)) % 256
  }

  lemma OverlongBytes(r: Request)
    requires Valid(r) && TooLong(r)
    ensures |Transmitted(r)| >= HEADER_SIZE + Announced(r) && Transmitted(r)[..HEADER_SIZE] == [E_TYPE_CONTROL, Announced(r)]
    ensures Length(r) == 247 ==> Announced(r) == 255
    ensures Length(r) != 247 ==> Announced(r) == Length(r) - 248 < SETUP_SIZE
                                 && Transmitted(r)[HEADER_SIZE..HEADER_SIZE + Announced(r)] == r.setup[..Announced(r)]
  {
  }

  /** What the PC makes of such a request, reading the header and then as much as the header announces: with 247
      bytes of data the second read overruns its packet buffer, and with more it takes the beginning of the setup
      for the whole packet. */
  lemma OverlongIsMisread(r: Request)
    requires Valid(r) && TooLong(r)
    ensures |Transmitted(r)| >= HEADER_SIZE + Announced(r)
    ensures var pieces := [Transmitted(r)[..HEADER_SIZE], Transmitted(r)[HEADER_SIZE..HEADER_SIZE + Announced(r)]];
            if Length(r) == 247 then !Healthy(Decoder([], HEADER_SIZE), pieces)
            else Announced(r) < SETUP_SIZE && RecvAll(Decoder([], HEADER_SIZE), pieces).1 == [Frame(E_TYPE_CONTROL, r.setup[..Announced(r)])]
  {
    OverlongBytes(r);
    ReadsAsAnnounced(Transmitted(r)[..HEADER_SIZE], Transmitted(r)[HEADER_SIZE..HEADER_SIZE + Announced(r)]);
  }
}
