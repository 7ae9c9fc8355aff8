/** LUFA's ring buffer: the structure itself, and what one producer and one consumer see when an interrupt
    may separate any two of its memory accesses. */
module RingBuffer {
  import opened Protocol

  // ----- positions modulo the size -----

  lemma NotMultiple(d: int, size: nat, m: int)
    requires 0 < m < size
    ensures d * size != m && d * size != -m
  {
    if d >= 1 {
      assert d * size >= size;
    } else if d <= -1 {
      assert d * size <= -1 * size;
    }
  }

  /** Two counts less than `size` apart never share a position. */
  lemma PositionsDiffer(a: nat, b: nat, size: nat)
    requires a < b < a + size
    ensures a % size != b % size
  {
    var d := b / size - a / size;
    assert b - a == d * size + (b % size - a % size);
    NotMultiple(d, size, b - a);
  }

  lemma PositionOf(q: nat, r: nat, size: nat)
    requires r < size
    ensures (q * size + r) % size == r
  {
    var k := q * size + r;
    var d := k / size - q;
    assert d * size == r - k % size;
    if r > k % size {
      NotMultiple(d, size, r - k % size);
    } else if r < k % size {
      NotMultiple(d, size, k % size - r);
    }
  }

  lemma NextPosition(k: nat, size: nat)
    requires size > 0
    ensures (k + 1) % size == if k % size + 1 == size then 0 else k % size + 1
  {
    var q, r := k / size, k % size;
    if r + 1 == size {
      assert k + 1 == (q + 1) * size + 0;
      PositionOf(q + 1, 0, size);
    } else {
      assert k + 1 == q * size + (r + 1);
      PositionOf(q, r + 1, size);
    }
  }

  // ----- the structure -----

  /** `n` elements from the `first`-th on, each in the cell of its number modulo the size. */
  function Stored(cells: seq<byte>, first: nat, n: nat): seq<byte>
    requires cells != []
  {
    seq(n, k requires k >= 0 => cells[Cell(first + k, |cells|)])
  }

  function Cell(k: nat, size: nat): (p: nat)
    requires size > 0
    ensures p < size
  {
    k % size
  }

  lemma WriteExtends(cells: seq<byte>, first: nat, n: nat, x: byte)
    requires n < |cells|
    ensures Stored(cells[Cell(first + n, |cells|) := x], first, n + 1) == Stored(cells, first, n) + [x]
  {
    var cells' := cells[Cell(first + n, |cells|) := x];
    forall k | 0 <= k < n ensures Stored(cells', first, n + 1)[k] == Stored(cells, first, n)[k] {
      PositionsDiffer(first + k, first + n, |cells|);
      assert Cell(first + k, |cells|) != Cell(first + n, |cells|);
    }
  }

  lemma ReadShrinks(cells: seq<byte>, first: nat, n: nat)
    requires cells != [] && n > 0
    ensures Stored(cells, first, n) == [cells[Cell(first, |cells|)]] + Stored(cells, first + 1, n - 1)
  {
  }

  class Ring {
    const data: array<byte>
    const size: nat
    var inAt: nat
    var outAt: nat
    var count: nat
    ghost var taken: nat   // how many elements have been removed since InitBuffer

    ghost predicate Valid()
      reads this
    {
      && 0 < size <= data.Length && count <= size
      && outAt == Cell(taken, size) && inAt == Cell(taken + count, size)
    }

    ghost function Contents(): seq<byte>
      reads this, data
      requires Valid()
    {
      Stored(data[..size], taken, count)
    }

    /** RingBuffer_InitBuffer */
    constructor (data: array<byte>, size: nat)
      requires 0 < size <= data.Length
      ensures Valid() && this.data == data && this.size == size && Contents() == []
    {
      this.data, this.size := data, size;
      inAt, outAt, count, taken := 0, 0, 0, 0;
    }

    method GetCount() returns (r: nat)
      requires Valid()
      ensures r == |Contents()| <= size
    {
      return count;
    }

    method GetFreeCount() returns (r: nat)
      requires Valid()
      ensures r == size - |Contents()|
    {
      return size - count;
    }

    method IsEmpty() returns (r: bool)
      requires Valid()
      ensures r <==> Contents() == []
    {
      return count == 0;
    }

    method IsFull() returns (r: bool)
      requires Valid()
      ensures r <==> |Contents()| == size
    {
      return count == size;
    }

    method Insert(x: byte)
      requires Valid() && |Contents()| < size
      modifies this`inAt, this`count, data
      ensures Valid() && Contents() == old(Contents()) + [x]
    {
      WriteExtends(data[..size], taken, count, x);
      assert data[..size][inAt := x] == data[..][inAt := x][..size];
      data[inAt] := x;
      NextPosition(taken + count, size);
      inAt := inAt + 1;
      if inAt == size {
        inAt := 0;
      }
      count := count + 1;
    }

    method Remove() returns (x: byte)
      requires Valid() && Contents() != []
      modifies this`outAt, this`count, this`taken
      ensures Valid() && old(Contents()) == [x] + Contents()
    {
      ReadShrinks(data[..size], taken, count);
      x := data[outAt];
      NextPosition(taken, size);
      outAt := outAt + 1;
      if outAt == size {
        outAt := 0;
      }
      count := count - 1;
      taken := taken + 1;
    }

    method Peek() returns (x: byte)
      requires Valid() && Contents() != []
      ensures x == Contents()[0]
    {
      return data[outAt];
    }
  }
}
