/** The PC side of the serial link: the packet splitter and the incremental packet decoder. */
module Adapter {
  import opened Protocol
  import opened Wrappers

  const UINT_RANGE := 0x1_0000_0000

  // ----- splitting -----

  /** The packets that carry `data`: full ones first, and one packet even when there is nothing to carry. */
  function Split(kind: byte, data: seq<byte>): seq<Frame>
    decreases |data|
  {
    if |data| <= MAX_PACKET_VALUE_SIZE then [Frame(kind, data)]
    else [Frame(kind, data[..MAX_PACKET_VALUE_SIZE])] + Split(kind, data[MAX_PACKET_VALUE_SIZE..])
  }

  /** Reassembling the values gives the data back, whatever else shares the stream type-wise. */
  lemma {:induction false} SplitReassembles(kind: byte, data: seq<byte>)
    ensures Flatten(ValuesOf(Split(kind, data), kind)) == data
    ensures forall other: byte :: other != kind ==> ValuesOf(Split(kind, data), other) == []
    ensures forall f :: f in Split(kind, data) ==> f.kind == kind
    decreases |data|
  {
    if |data| <= MAX_PACKET_VALUE_SIZE {
      var fs := Split(kind, data);
      assert fs == [Frame(kind, data)];
      assert ValuesOf(fs, kind) == [data] + ValuesOf(fs[1..], kind) == [data];
      assert Flatten([data]) == data + Flatten([]);
    } else {
      var rest := data[MAX_PACKET_VALUE_SIZE..];
      SplitReassembles(kind, rest);
      var fs := Split(kind, data);
      assert fs[1..] == Split(kind, rest);
      var values := ValuesOf(fs, kind);
      assert values[1..] == ValuesOf(Split(kind, rest), kind);
      forall other: byte | other != kind ensures ValuesOf(fs, other) == [] {
        assert ValuesOf(fs, other) == [] + ValuesOf(fs[1..], other);
      }
    }
  }

  /** One packet for up to 254 bytes, otherwise exactly as many as needed, all full but the last. */
  lemma {:induction false} SplitCount(kind: byte, data: seq<byte>)
    ensures |Split(kind, data)| == if data == [] then 1 else (|data| + MAX_PACKET_VALUE_SIZE - 1) / MAX_PACKET_VALUE_SIZE
    ensures forall i :: 0 <= i < |Split(kind, data)| - 1 ==> |Split(kind, data)[i].value| == MAX_PACKET_VALUE_SIZE
    ensures |data| <= MAX_PACKET_VALUE_SIZE <==> |Split(kind, data)| == 1
    decreases |data|
  {
    if |data| > MAX_PACKET_VALUE_SIZE {
      SplitCount(kind, data[MAX_PACKET_VALUE_SIZE..]);
    }
  }

  /** One round of adapter_send: the first packet, and what is left to send. */
  lemma SplitNext(kind: byte, rest: seq<byte>, length: nat)
    requires length == if |rest| < MAX_PACKET_VALUE_SIZE then |rest| else MAX_PACKET_VALUE_SIZE
    ensures Split(kind, rest) == [Frame(kind, rest[..length])] + (if |rest[length..]| > 0 then Split(kind, rest[length..]) else [])
  {
    if |rest| == length {
      assert rest[..length] == rest;
    }
  }

  // ----- decoding -----

  /** What the decoder keeps between two reads: the bytes of the current packet and the
      size asked for in the next read (zero until the first read has been reported). */
  datatype Decoder = Decoder(rx: seq<byte>, readSize: nat)

  datatype Outcome = Waiting | Delivered(frame: Frame) | Critical

  const START := Decoder([], 0)

  /** One call of adapter_recv with the bytes of one read; `remaining` is an unsigned int. */
  function RecvStep(d: Decoder, chunk: seq<byte>): (Decoder, Outcome) {
    var rx := d.rx + chunk;
    if |rx| > MAX_PACKET_SIZE then (d, Critical)
    else if |rx| < HEADER_SIZE then (Decoder(rx, HEADER_SIZE - |rx|), Waiting)
    else
      var remaining := (rx[1] - (|rx| - HEADER_SIZE)) % UINT_RANGE;
      if remaining == 0 then (Decoder([], HEADER_SIZE), Delivered(Frame(rx[0], rx[HEADER_SIZE..])))
      else (Decoder(rx, remaining), Waiting)
  }

  /** The decoder is inside a packet and asks for what is missing of the header or of the value. */
  predicate DecoderOk(d: Decoder) {
    && Partial(d.rx)
    && (d == START
        || d.readSize == if |d.rx| < HEADER_SIZE then HEADER_SIZE - |d.rx| else HEADER_SIZE + d.rx[1] - |d.rx|)
  }

  /** A read that stays within the first packet of the stream, and reaches its end or not. */
  lemma ReadWithinFirst(d: Decoder, chunk: seq<byte>, f: Frame)
    requires DecoderOk(d) && |chunk| <= d.readSize && d.rx + chunk <= Encode(f)
    ensures var (d', out) := RecvStep(d, chunk);
            && DecoderOk(d') && 0 < d'.readSize <= MAX_PACKET_VALUE_SIZE
            && if d.rx + chunk == Encode(f) then out == Delivered(f) && d'.rx == [] else out == Waiting && d'.rx == d.rx + chunk
  {
    var rx := d.rx + chunk;
    if |rx| >= HEADER_SIZE {
      assert rx[0] == f.kind && rx[1] == |f.value|;
      if rx == Encode(f) {
        assert rx[HEADER_SIZE..] == f.value;
      }
    }
  }

  /** A partial packet completed by a read of at most the requested size does not reach beyond the first packet. */
  lemma ReadStaysInside(d: Decoder, chunk: seq<byte>, rest: seq<byte>, fs: seq<Frame>)
    requires DecoderOk(d) && |chunk| <= d.readSize && d != START && fs != []
    requires d.rx + chunk + rest == EncodeAll(fs)
    ensures d.rx + chunk <= Encode(fs[0]) && rest == Encode(fs[0])[|d.rx + chunk|..] + EncodeAll(fs[1..])
  {
    assert d.rx + (chunk + rest) == d.rx + chunk + rest;
    PartialIsInsideFirst(d.rx, chunk + rest, fs);
    var rx, first, later := d.rx + chunk, Encode(fs[0]), EncodeAll(fs[1..]);
    assert rx + rest == first + later;
    if |d.rx| >= HEADER_SIZE {
      assert d.rx[1] == first[1];
    }
    PrefixSplit(rx, rest, first, later);
  }

  lemma PrefixSplit(a: seq<byte>, b: seq<byte>, c: seq<byte>, d: seq<byte>)
    requires a + b == c + d && |a| <= |c|
    ensures a <= c && b == c[|a|..] + d
  {
    assert a == (a + b)[..|a|] == (c + d)[..|a|] == c[..|a|];
    assert b == (a + b)[|a|..] == (c + d)[|a|..] == c[|a|..] + d;
  }

  /** A read of at most the requested size, out of a well-formed stream, never overruns or
      underflows: it either stays inside the first packet or delivers exactly that packet. */
  lemma RecvStepSound(d: Decoder, chunk: seq<byte>, rest: seq<byte>, fs: seq<Frame>)
    requires DecoderOk(d) && |chunk| <= d.readSize
    requires d.rx + chunk + rest == EncodeAll(fs)
    ensures var (d', out) := RecvStep(d, chunk);
            && DecoderOk(d') && 0 < d'.readSize <= MAX_PACKET_VALUE_SIZE
            && match out
               case Critical => false
               case Waiting => d'.rx == d.rx + chunk
               case Delivered(f) => fs != [] && f == fs[0] && d'.rx == [] && rest == EncodeAll(fs[1..])
  {
    if d == START || fs == [] {
      assert d.rx + (chunk + rest) == d.rx + chunk + rest;
      PartialIsInsideFirst(d.rx, chunk + rest, fs);
      assert d.rx + chunk == [];
    } else {
      ReadStaysInside(d, chunk, rest, fs);
      ReadWithinFirst(d, chunk, fs[0]);
      if d.rx + chunk == Encode(fs[0]) {
        assert [] + EncodeAll(fs[1..]) == EncodeAll(fs[1..]);
      }
    }
  }

  /** A whole series of reads: the final decoder, and the packets handed to the callback in order. */
  function RecvAll(d: Decoder, chunks: seq<seq<byte>>): (Decoder, seq<Frame>)
    decreases |chunks|
  {
    if chunks == [] then (d, [])
    else
      var (d1, out) := RecvStep(d, chunks[0]);
      var (d2, later) := RecvAll(d1, chunks[1..]);
      (d2, (if out.Delivered? then [out.frame] else []) + later)
  }

  /** No read returns more than was requested. */
  predicate Respects(d: Decoder, chunks: seq<seq<byte>>)
    decreases |chunks|
  {
    chunks == [] || (|chunks[0]| <= d.readSize && Respects(RecvStep(d, chunks[0]).0, chunks[1..]))
  }

  /** No read of the series hits the critical-error branch or leaves an empty or oversized request. */
  predicate Healthy(d: Decoder, chunks: seq<seq<byte>>)
    decreases |chunks|
  {
    chunks == []
    || (var (d', out) := RecvStep(d, chunks[0]);
        !out.Critical? && 0 < d'.readSize <= MAX_PACKET_VALUE_SIZE && Healthy(d', chunks[1..]))
  }

  lemma Regroup(a: seq<byte>, b: seq<byte>, c: seq<byte>, d: seq<byte>)
    ensures a + (b + c) + d == a + b + (c + d) == a + b + c + d
  {
    assert a + (b + c) == a + b + c;
  }

  lemma LeadingPackets(fs: seq<Frame>, later: seq<Frame>)
    requires fs != [] && later <= fs[1..]
    ensures [fs[0]] + later <= fs && fs[1..][|later|..] == fs[|[fs[0]] + later|..]
  {
    assert fs == [fs[0]] + fs[1..];
  }

  /** However a well-formed stream is cut into reads, what has been delivered so far is the leading
      packets, unaltered, and the decoder holds the beginning of the next one. */
  lemma {:induction false} DecoderPrefix(d: Decoder, chunks: seq<seq<byte>>, rest: seq<byte>, fs: seq<Frame>)
    requires DecoderOk(d) && Respects(d, chunks)
    requires d.rx + Flatten(chunks) + rest == EncodeAll(fs)
    ensures Healthy(d, chunks)
    ensures var (d', out) := RecvAll(d, chunks);
            DecoderOk(d') && out <= fs && d'.rx + rest == EncodeAll(fs[|out|..])
    decreases |chunks|
  {
    if chunks == [] {
      assert d.rx + [] + rest == d.rx + rest;
    } else {
      var later := Flatten(chunks[1..]);
      Regroup(d.rx, chunks[0], later, rest);
      RecvStepSound(d, chunks[0], later + rest, fs);
      var (d1, out) := RecvStep(d, chunks[0]);
      if out.Delivered? {
        assert [] + later == later;
        DecoderPrefix(d1, chunks[1..], rest, fs[1..]);
        LeadingPackets(fs, RecvAll(d1, chunks[1..]).1);
      } else {
        DecoderPrefix(d1, chunks[1..], rest, fs);
        assert [] + RecvAll(d1, chunks[1..]).1 == RecvAll(d1, chunks[1..]).1;
      }
    }
  }

  /** Once every byte of the stream has been read, every packet has been delivered exactly once, in order. */
  lemma DecoderRoundTrip(chunks: seq<seq<byte>>, fs: seq<Frame>)
    requires Respects(START, chunks)
    requires Flatten(chunks) == EncodeAll(fs)
    ensures Healthy(START, chunks)
    ensures RecvAll(START, chunks).1 == fs && RecvAll(START, chunks).0.rx == []
  {
    assert START.rx + Flatten(chunks) + [] == EncodeAll(fs);
    DecoderPrefix(START, chunks, [], fs);
    var (d, out) := RecvAll(START, chunks);
    assert d.rx + [] == d.rx;
    var left := fs[|out|..];
    if left != [] {
      PartialIsInsideFirst(d.rx, [], left);
      assert false;
    }
    assert out == fs;
  }

  /** Splitting on one side and decoding on the other is the identity on the data, for any cut into reads. */
  lemma SendThenReceive(kind: byte, data: seq<byte>, chunks: seq<seq<byte>>)
    requires Respects(START, chunks)
    requires Flatten(chunks) == EncodeAll(Split(kind, data))
    ensures Flatten(ValuesOf(RecvAll(START, chunks).1, kind)) == data
  {
    DecoderRoundTrip(chunks, Split(kind, data));
    SplitReassembles(kind, data);
  }

  // ----- the adapter object -----

  class SerialAdapter {
    const packet: array<byte>   // the s_packet being assembled
    var bread: nat
    var readSize: nat           // last size given to gserial_set_read_size
    var received: seq<Frame>    // packets handed to the callback
    var written: seq<byte>      // bytes given to gserial_write

    ghost predicate Valid()
      reads this
    {
      packet.Length == MAX_PACKET_SIZE && bread <= MAX_PACKET_SIZE
    }

    ghost function State(): Decoder
      reads this, packet
      requires Valid()
    {
      Decoder(packet[..bread], readSize)
    }

    constructor ()
      ensures Valid() && fresh(packet)
      ensures State() == START && received == [] && written == []
    {
      packet := new byte[MAX_PACKET_SIZE];
      bread, readSize, received, written := 0, 0, [], [];
    }

    /** adapter_recv: `callbackReturn` is what the packet callback returns if it is called. */
    method Recv(buf: seq<byte>, status: int, callbackReturn: int) returns (ret: int)
      requires Valid() && (status >= 0 ==> status == |buf|)
      modifies this`bread, this`readSize, this`received, packet
      ensures Valid()
      ensures status < 0 ==> ret == -1 && State() == old(State()) && received == old(received)
      ensures status >= 0 ==>
                var (d, out) := RecvStep(old(State()), buf);
                && State() == d
                && received == old(received) + (if out.Delivered? then [out.frame] else [])
                && ret == (match out case Critical => -1 case Waiting => 0 case Delivered(_) => callbackReturn)
    {
      if status < 0 {
        return -1;
      }
      ret := 0;
      if bread + status <= MAX_PACKET_SIZE {
        ghost var before := packet[..bread];
        forall k | 0 <= k < status {
          packet[bread + k] := buf[k];
        }
        assert packet[..bread + status] == before + buf;
        bread := bread + status;
        var remaining: nat;
        if bread < HEADER_SIZE {
          remaining := HEADER_SIZE - bread;
        } else {
          remaining := (packet[1] - (bread - HEADER_SIZE)) % UINT_RANGE;
        }
        if remaining == 0 {
          received := received + [Frame(packet[0], packet[HEADER_SIZE..bread])];
          assert packet[HEADER_SIZE..bread] == packet[..bread][HEADER_SIZE..];
          ret := callbackReturn;
          bread := 0;
          readSize := HEADER_SIZE;
        } else {
          readSize := remaining;
        }
      } else {
        return -1;
      }
    }

    /** adapter_send: `data` is None for a null pointer, and `accepted` is how many calls of gserial_write succeed before
        one fails. */
    method Send(kind: byte, data: Option<seq<byte>>, count: nat, accepted: nat) returns (ret: int)
      requires data.Some? ==> count == |data.value|
      modifies this`written
      ensures count != 0 && data.None? ==> ret == -1 && written == old(written)
      ensures count == 0 || data.Some? ==>
                var packets := Split(kind, data.GetOr([]));
                if accepted < |packets| then ret == -1 && written == old(written) + EncodeAll(packets[..accepted])
                else ret == 0 && written == old(written) + EncodeAll(packets)
    {
      if count != 0 && data.None? {
        return -1;
      }
      ghost var packets := Split(kind, data.GetOr([]));
      var writes := SendPackets(kind, data.GetOr([]), accepted, packets);
      assert packets[..|packets|] == packets;
      return if writes < 0 then -1 else 0;
    }

    /** The loop of adapter_send: how many packets it has written, or -1. */
    method SendPackets(kind: byte, data: seq<byte>, accepted: nat, ghost packets: seq<Frame>) returns (writes: int)
      requires packets == Split(kind, data)
      modifies this`written
      ensures if accepted < |packets| then writes == -1 else writes == |packets|
      ensures written == old(written) + EncodeAll(packets[..if accepted < |packets| then accepted else |packets|])
    {
      var rest := data;
      ghost var before := written;
      assert written == before + EncodeAll(packets[..0]);
      writes := 0;
      var more := true;
      while more
        invariant 0 <= writes <= accepted && writes <= |packets| && packets[writes..] == if more then Split(kind, rest) else []
        invariant written == before + EncodeAll(packets[..writes])
        decreases |rest|, more
      {
        var length := MAX_PACKET_VALUE_SIZE;
        if |rest| < length {
          length := |rest|;
        }
        SendRound(packets, writes, kind, rest, length, before, written);
        if writes == accepted {
          return -1;
        }
        written := written + Encode(Frame(kind, rest[..length]));
        writes := writes + 1;
        rest := rest[length..];
        more := |rest| > 0;
      }
    }
  }

  lemma NextPacket(packets: seq<Frame>, n: nat)
    requires n < |packets|
    ensures packets[n] == packets[n..][0] && packets[n..][1..] == packets[n + 1..]
    ensures EncodeAll(packets[..n + 1]) == EncodeAll(packets[..n]) + Encode(packets[n])
  {
    assert packets[..n + 1] == packets[..n] + [packets[n]];
    EncodeAllSnoc(packets[..n], packets[n]);
  }

  lemma SendRound(packets: seq<Frame>, n: nat, kind: byte, rest: seq<byte>, length: nat, before: seq<byte>, written: seq<byte>)
    requires n <= |packets| && packets[n..] == Split(kind, rest) && written == before + EncodeAll(packets[..n])
    requires length == if |rest| < MAX_PACKET_VALUE_SIZE then |rest| else MAX_PACKET_VALUE_SIZE
    ensures n < |packets| && packets[n + 1..] == if |rest[length..]| > 0 then Split(kind, rest[length..]) else []
    ensures written + Encode(Frame(kind, rest[..length])) == before + EncodeAll(packets[..n + 1])
  {
    SplitNext(kind, rest, length);
    NextPacket(packets, n);
    Associate(before, EncodeAll(packets[..n]), Encode(packets[n]));
  }
}
