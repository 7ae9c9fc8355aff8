/** How the packets of each type change when a channel is extended or shortened. */
module Lanes {
  import opened Protocol
  import opened Adapter

  lemma AppendAll(fs: seq<Frame>, gs: seq<Frame>)
    ensures forall k: byte {:trigger ValuesOf(fs + gs, k)} :: ValuesOf(fs + gs, k) == ValuesOf(fs, k) + ValuesOf(gs, k)
  {
    forall k: byte ensures ValuesOf(fs + gs, k) == ValuesOf(fs, k) + ValuesOf(gs, k) {
      ValuesOfConcat(fs, gs, k);
    }
  }

  lemma AppendOne(fs: seq<Frame>, f: Frame)
    ensures forall k: byte {:trigger ValuesOf(fs + [f], k)} ::
              ValuesOf(fs + [f], k) == if f.kind == k then ValuesOf(fs, k) + [f.value] else ValuesOf(fs, k)
  {
    forall k: byte ensures ValuesOf(fs + [f], k) == if f.kind == k then ValuesOf(fs, k) + [f.value] else ValuesOf(fs, k) {
      ValuesOfSnoc(fs, f, k);
    }
  }

  /** Appending what adapter_send emits for `data`: only the packets of its own type change. */
  lemma AppendSplit(fs: seq<Frame>, kind: byte, data: seq<byte>)
    ensures ValuesOf(fs + Split(kind, data), kind) == ValuesOf(fs, kind) + ValuesOf(Split(kind, data), kind)
    ensures ValuesOf(Split(kind, data), kind) != [] && Flatten(ValuesOf(Split(kind, data), kind)) == data
    ensures |data| <= MAX_PACKET_VALUE_SIZE ==> ValuesOf(Split(kind, data), kind) == [data]
    ensures forall k: byte {:trigger ValuesOf(fs + Split(kind, data), k)} :: k != kind ==> ValuesOf(fs + Split(kind, data), k) == ValuesOf(fs, k)
  {
    AppendAll(fs, Split(kind, data));
    SplitReassembles(kind, data);
    forall k: byte | k != kind ensures ValuesOf(fs + Split(kind, data), k) == ValuesOf(fs, k) {
      ValuesOfConcat(fs, Split(kind, data), k);
      assert ValuesOf(Split(kind, data), k) == [];
    }
    if |data| <= MAX_PACKET_VALUE_SIZE {
      ValuesOfSnoc([], Frame(kind, data), kind);
      assert [] + [Frame(kind, data)] == Split(kind, data);
    }
    assert Split(kind, data)[0].kind == kind;
  }

  lemma PopOne(fs: seq<Frame>)
    requires fs != []
    ensures forall k: byte {:trigger ValuesOf(fs[1..], k)} ::
              ValuesOf(fs, k) == if fs[0].kind == k then [fs[0].value] + ValuesOf(fs[1..], k) else ValuesOf(fs[1..], k)
  {
  }

  lemma FlattenFirst(v: seq<byte>, vs: seq<seq<byte>>)
    ensures Flatten([v] + vs) == v + Flatten(vs)
  {
    assert ([v] + vs)[1..] == vs;
  }
}
