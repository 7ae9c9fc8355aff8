/** LUFA's ring buffer with its producer and its consumer on two sides of an interrupt: Insert and Remove are split
    into their memory accesses, only the updates of Count are atomic, and the steps interleave in any order. */
module RingInterleaving {
  import opened Protocol
  import opened RingBuffer

  /** Where a side is: it looks at Count, moves a byte, advances its pointer, wraps it, and updates Count. */
  datatype Stage = Away | Observed | Moved | Advanced | Wrapped

  datatype Shared = Shared(cells: seq<byte>, inAt: nat, outAt: nat, count: int, producer: Stage, consumer: Stage,
                           inserted: seq<byte>, removed: seq<byte>)

  datatype Move =
    | SeeRoom | Write(x: byte) | AdvanceIn | WrapIn | CountUp
    | SeeData | Fetch | AdvanceOut | WrapOut | CountDown

  function Empty(cells: seq<byte>): Shared {
    Shared(cells, 0, 0, 0, Away, Away, [], [])
  }

  predicate Can(s: Shared, m: Move) {
    match m
    case SeeRoom => s.producer.Away? && s.count < |s.cells|
    case Write(_) => s.producer.Observed? && s.inAt < |s.cells|
    case AdvanceIn => s.producer.Moved?
    case WrapIn => s.producer.Advanced?
    case CountUp => s.producer.Wrapped?
    case SeeData => s.consumer.Away? && s.count > 0
    case Fetch => s.consumer.Observed? && s.outAt < |s.cells|
    case AdvanceOut => s.consumer.Moved?
    case WrapOut => s.consumer.Advanced?
    case CountDown => s.consumer.Wrapped?
  }

  function Make(s: Shared, m: Move): Shared
    requires Can(s, m)
  {
    match m
    case SeeRoom => s.(producer := Observed)
    case Write(x) => s.(producer := Moved, cells := s.cells[s.inAt := x], inserted := s.inserted + [x])
    case AdvanceIn => s.(producer := Advanced, inAt := s.inAt + 1)
    case WrapIn => s.(producer := Wrapped, inAt := if s.inAt == |s.cells| then 0 else s.inAt)
    case CountUp => s.(producer := Away, count := s.count + 1)
    case SeeData => s.(consumer := Observed)
    case Fetch => s.(consumer := Moved, removed := s.removed + [s.cells[s.outAt]])
    case AdvanceOut => s.(consumer := Advanced, outAt := s.outAt + 1)
    case WrapOut => s.(consumer := Wrapped, outAt := if s.outAt == |s.cells| then 0 else s.outAt)
    case CountDown => s.(consumer := Away, count := s.count - 1)
  }

  function Run(s: Shared, moves: seq<Move>): Shared
    requires CanRun(s, moves)
    decreases |moves|
  {
    if moves == [] then s else Run(Make(s, moves[0]), moves[1..])
  }

  predicate CanRun(s: Shared, moves: seq<Move>)
    decreases |moves|
  {
    moves == [] || (Can(s, moves[0]) && CanRun(Make(s, moves[0]), moves[1..]))
  }

  // ----- the invariant -----

  /** A byte has been moved, and Count does not show it yet. */
  function Uncounted(stage: Stage): nat { if stage.Moved? || stage.Advanced? || stage.Wrapped? then 1 else 0 }

  /** The pointer of a side that has moved `n` bytes. */
  ghost predicate PointerAt(at: nat, n: nat, stage: Stage, size: nat)
    requires size > 0
  {
    match stage
    case Moved => n > 0 && at == Cell(n - 1, size)
    case Advanced => n > 0 && at == Cell(n - 1, size) + 1
    case _ => at == Cell(n, size)
  }

  ghost predicate CountInv(count: int, size: nat, producer: Stage, consumer: Stage, ins: nat, outs: nat) {
    && Uncounted(producer) <= ins && Uncounted(consumer) <= outs
    && count == (ins - Uncounted(producer)) - (outs - Uncounted(consumer))
    && outs <= ins - Uncounted(producer) && (consumer.Observed? ==> outs < ins - Uncounted(producer))
    && ins - (outs - Uncounted(consumer)) <= size && (producer.Observed? ==> ins - (outs - Uncounted(consumer)) < size)
  }

  /** What has been removed is the beginning of what was inserted, and what has not is still in its cells. */
  ghost predicate ContentInv(cells: seq<byte>, inserted: seq<byte>, removed: seq<byte>)
    requires cells != []
  {
    && |removed| <= |inserted| <= |removed| + |cells|
    && removed == inserted[..|removed|]
    && Stored(cells, |removed|, |inserted| - |removed|) == inserted[|removed|..]
  }

  ghost predicate RingInv(s: Shared) {
    && s.cells != []
    && CountInv(s.count, |s.cells|, s.producer, s.consumer, |s.inserted|, |s.removed|)
    && PointerAt(s.inAt, |s.inserted|, s.producer, |s.cells|)
    && PointerAt(s.outAt, |s.removed|, s.consumer, |s.cells|)
    && ContentInv(s.cells, s.inserted, s.removed)
  }

  lemma WriteKeepsContent(cells: seq<byte>, inserted: seq<byte>, removed: seq<byte>, at: nat, x: byte)
    requires cells != [] && ContentInv(cells, inserted, removed) && |inserted| < |removed| + |cells| && at == Cell(|inserted|, |cells|)
    ensures ContentInv(cells[at := x], inserted + [x], removed)
  {
    WriteExtends(cells, |removed|, |inserted| - |removed|, x);
    assert (inserted + [x])[..|removed|] == inserted[..|removed|];
    assert (inserted + [x])[|removed|..] == inserted[|removed|..] + [x];
  }

  lemma FetchKeepsContent(cells: seq<byte>, inserted: seq<byte>, removed: seq<byte>, at: nat)
    requires cells != [] && ContentInv(cells, inserted, removed) && |removed| < |inserted| && at == Cell(|removed|, |cells|)
    ensures cells[at] == inserted[|removed|]
    ensures ContentInv(cells, inserted, removed + [cells[at]])
  {
    ReadShrinks(cells, |removed|, |inserted| - |removed|);
    assert inserted[|removed|..] == [inserted[|removed|]] + inserted[|removed| + 1..];
    assert inserted[..|removed| + 1] == inserted[..|removed|] + [inserted[|removed|]];
  }

  lemma WrapKeepsPointer(at: nat, n: nat, size: nat)
    requires size > 0 && PointerAt(at, n, Advanced, size)
    ensures PointerAt(if at == size then 0 else at, n, Wrapped, size)
  {
    NextPosition(n - 1, size);
  }

  predicate OfProducer(m: Move) { m.SeeRoom? || m.Write? || m.AdvanceIn? || m.WrapIn? || m.CountUp? }

  lemma ProducerKeepsInv(s: Shared, m: Move)
    requires RingInv(s) && Can(s, m) && OfProducer(m)
    ensures RingInv(Make(s, m))
  {
    match m
    case Write(x) => WriteKeepsContent(s.cells, s.inserted, s.removed, s.inAt, x);
    case WrapIn => WrapKeepsPointer(s.inAt, |s.inserted|, |s.cells|);
    case _ =>
  }

  lemma ConsumerKeepsInv(s: Shared, m: Move)
    requires RingInv(s) && Can(s, m) && !OfProducer(m)
    ensures RingInv(Make(s, m))
  {
    match m
    case Fetch => FetchKeepsContent(s.cells, s.inserted, s.removed, s.outAt);
    case WrapOut => WrapKeepsPointer(s.outAt, |s.removed|, |s.cells|);
    case _ =>
  }

  /** Every step of either side keeps the invariant. */
  lemma MoveKeepsInv(s: Shared, m: Move)
    requires RingInv(s) && Can(s, m)
    ensures RingInv(Make(s, m))
  {
    if OfProducer(m) {
      ProducerKeepsInv(s, m);
    } else {
      ConsumerKeepsInv(s, m);
    }
  }

  lemma {:induction false} RunKeepsInv(s: Shared, moves: seq<Move>)
    requires RingInv(s) && CanRun(s, moves)
    ensures RingInv(Run(s, moves))
    decreases |moves|
  {
    if moves != [] {
      MoveKeepsInv(s, moves[0]);
      RunKeepsInv(Make(s, moves[0]), moves[1..]);
    }
  }

  // ----- what the two sides can rely on -----

  /** In every interleaving, the bytes removed are a prefix of the bytes inserted; the rest are in the buffer, at
      most as many as it has cells, and Count lies between 0 and the size. */
  lemma RemovedIsPrefix(cells: seq<byte>, moves: seq<Move>)
    requires cells != [] && CanRun(Empty(cells), moves)
    ensures var s := Run(Empty(cells), moves);
            && s.removed <= s.inserted && |s.inserted| - |s.removed| <= |cells| == |s.cells| && 0 <= s.count <= |cells|
            && Stored(s.cells, |s.removed|, |s.inserted| - |s.removed|) == s.inserted[|s.removed|..]
  {
    RunKeepsInv(Empty(cells), moves);
    RunKeepsSize(Empty(cells), moves);
  }

  lemma {:induction false} RunKeepsSize(s: Shared, moves: seq<Move>)
    requires CanRun(s, moves)
    ensures |Run(s, moves).cells| == |s.cells|
    decreases |moves|
  {
    if moves != [] {
      RunKeepsSize(Make(s, moves[0]), moves[1..]);
    }
  }

  /** A write goes to a cell that holds no unread byte, and neither pointer leaves the buffer when it is used. */
  lemma WritesAreFree(cells: seq<byte>, moves: seq<Move>, k: nat)
    requires cells != [] && CanRun(Empty(cells), moves)
    ensures var s := Run(Empty(cells), moves);
            && s.cells != []
            && (s.producer.Observed? ==> s.inAt < |s.cells| && (|s.removed| <= k < |s.inserted| ==> Cell(k, |s.cells|) != s.inAt))
            && (s.consumer.Observed? ==> s.outAt < |s.cells| && |s.removed| < |s.inserted| && s.cells[s.outAt] == s.inserted[|s.removed|])
  {
    RunKeepsInv(Empty(cells), moves);
    var s := Run(Empty(cells), moves);
    if s.producer.Observed? && |s.removed| <= k < |s.inserted| {
      PositionsDiffer(k, |s.inserted|, |s.cells|);
    }
    if s.consumer.Observed? {
      FetchKeepsContent(s.cells, s.inserted, s.removed, s.outAt);
    }
  }
}
