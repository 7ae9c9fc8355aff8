/** The serial protocol shared by the PC proxy and the firmware: packet types, sizes,
    the two-byte packet header, and the byte stream a sequence of packets becomes. */
module Protocol {

  type byte = n: int | 0 <= n < 256

  const MAX_DESCRIPTORS_SIZE := 1024
  const MAX_DESCRIPTORS := 32
  const MAX_ENDPOINTS := 6
  const MAX_PAYLOAD_SIZE_EP := 64
  const MAX_PACKET_SIZE := 256
  const HEADER_SIZE := 2
  const MAX_PACKET_VALUE_SIZE := 254
  const INDEX_ENTRY_SIZE := 8
  const ENDPOINT_CONFIG_SIZE := 3

  const E_TYPE_DESCRIPTORS: byte := 0
  const E_TYPE_INDEX: byte := 1
  const E_TYPE_ENDPOINTS: byte := 2
  const E_TYPE_RESET: byte := 3
  const E_TYPE_CONTROL: byte := 4
  const E_TYPE_CONTROL_STALL: byte := 5
  const E_TYPE_IN: byte := 6
  const E_TYPE_OUT: byte := 7
  const E_TYPE_DEBUG: byte := 8

  /** s_endpointConfig: an entry of the endpoint list. */
  datatype Entry = Entry(number: byte, kind: byte, size: byte)

  /** A packet: a type and at most 254 value bytes. */
  datatype Packet = Frame(kind: byte, value: seq<byte>)
  type Frame = f: Packet | |f.value| <= MAX_PACKET_VALUE_SIZE witness Frame(0, [])

  function Encode(f: Frame): seq<byte> {
    [f.kind, |f.value|] + f.value
  }

  function EncodeAll(fs: seq<Frame>): seq<byte> {
    if fs == [] then [] else Encode(fs[0]) + EncodeAll(fs[1..])
  }

  lemma Associate<T>(a: seq<T>, b: seq<T>, c: seq<T>)
    ensures a + (b + c) == a + b + c
  {
  }

  lemma EncodeAllFirst(f: Frame, rest: seq<Frame>)
    ensures EncodeAll([f] + rest) == Encode(f) + EncodeAll(rest)
  {
    assert ([f] + rest)[1..] == rest;
  }

  lemma {:induction false} EncodeAllConcat(fs: seq<Frame>, gs: seq<Frame>)
    ensures EncodeAll(fs + gs) == EncodeAll(fs) + EncodeAll(gs)
  {
    if fs == [] {
      assert fs + gs == gs;
    } else {
      var f, rest := fs[0], fs[1..];
      assert fs == [f] + rest && fs + gs == [f] + (rest + gs);
      EncodeAllFirst(f, rest);
      EncodeAllFirst(f, rest + gs);
      EncodeAllConcat(rest, gs);
      Associate(Encode(f), EncodeAll(rest), EncodeAll(gs));
    }
  }

  lemma EncodeAllSnoc(fs: seq<Frame>, f: Frame)
    ensures EncodeAll(fs + [f]) == EncodeAll(fs) + Encode(f)
  {
    EncodeAllConcat(fs, [f]);
    assert EncodeAll([f]) == Encode(f) + EncodeAll([]);
  }

  /** The stream determines its packets. */
  lemma {:induction false} EncodeAllInjective(fs: seq<Frame>, gs: seq<Frame>)
    requires EncodeAll(fs) == EncodeAll(gs)
    ensures fs == gs
  {
    if fs != [] && gs != [] {
      var f, g, stream := fs[0], gs[0], EncodeAll(fs);
      assert f.kind == stream[0] == g.kind && |f.value| == stream[1] == |g.value|;
      assert f.value == stream[HEADER_SIZE..HEADER_SIZE + |f.value|] == g.value;
      assert EncodeAll(fs[1..]) == stream[HEADER_SIZE + |f.value|..] == EncodeAll(gs[1..]);
      EncodeAllInjective(fs[1..], gs[1..]);
      assert fs == [f] + fs[1..] && gs == [g] + gs[1..];
    }
  }

  /** The bytes of a packet that is not complete yet. */
  predicate Partial(bytes: seq<byte>) {
    |bytes| < HEADER_SIZE || |bytes| < HEADER_SIZE + bytes[1]
  }

  /** A partial packet in front of a stream lies inside the first packet of that stream. */
  lemma PartialIsInsideFirst(bytes: seq<byte>, rest: seq<byte>, fs: seq<Frame>)
    requires Partial(bytes)
    requires bytes + rest == EncodeAll(fs)
    ensures fs == [] ==> bytes == [] && rest == []
    ensures fs != [] ==> bytes < Encode(fs[0])
  {
    if fs != [] {
      var stream, first := bytes + rest, Encode(fs[0]);
      assert stream[0] == first[0] && stream[1] == first[1];
      assert |bytes| < |first|;
      assert first == stream[..|first|];
    }
  }

  /** Concatenation of the elements of a sequence of byte strings. */
  function Flatten(parts: seq<seq<byte>>): seq<byte> {
    if parts == [] then [] else parts[0] + Flatten(parts[1..])
  }

  /** The values of the packets of one type, in stream order. */
  function ValuesOf(fs: seq<Frame>, kind: byte): seq<seq<byte>> {
    if fs == [] then []
    else (if fs[0].kind == kind then [fs[0].value] else []) + ValuesOf(fs[1..], kind)
  }

  lemma {:induction false} ValuesOfConcat(fs: seq<Frame>, gs: seq<Frame>, kind: byte)
    ensures ValuesOf(fs + gs, kind) == ValuesOf(fs, kind) + ValuesOf(gs, kind)
  {
    if fs == [] {
      assert fs + gs == gs;
    } else {
      var first, rest := if fs[0].kind == kind then [fs[0].value] else [], fs[1..];
      ValuesOfConcat(rest, gs, kind);
      assert (fs + gs)[0] == fs[0] && (fs + gs)[1..] == rest + gs;
      Associate(first, ValuesOf(rest, kind), ValuesOf(gs, kind));
    }
  }

  lemma ValuesOfSnoc(fs: seq<Frame>, f: Frame, kind: byte)
    ensures ValuesOf(fs + [f], kind) == ValuesOf(fs, kind) + (if f.kind == kind then [f.value] else [])
  {
    ValuesOfConcat(fs, [f], kind);
    assert ValuesOf([f], kind) == (if f.kind == kind then [f.value] else []) + ValuesOf([], kind);
  }

  lemma {:induction false} ValuesOfMember(fs: seq<Frame>, i: nat)
    requires i < |fs|
    ensures ValuesOf(fs, fs[i].kind) != []
  {
    if i > 0 {
      ValuesOfMember(fs[1..], i - 1);
    }
  }
}
