/** The renumbering of endpoints: fix_endpoints rewrites the endpoint addresses inside the raw configurations and
    builds the two translation tables and the endpoint list of the target. */
module Renumber {
  import opened Protocol
  import opened Proxy
  import opened RawConfig

  const TABLE_SIZE := 30
  const XFER_BULK := 2
  const XFER_ISO := 1
  const XFER_INT := 3

  // ----- endpoint descriptors -----

  function Address(raw: seq<byte>, o: nat): byte
    requires o + ENDPOINT_SIZE <= |raw|
  {
    raw[o + 2]
  }

  function TransferType(raw: seq<byte>, o: nat): byte
    requires o + ENDPOINT_SIZE <= |raw|
  {
    raw[o + 3] % 4
  }

  function PacketSize(raw: seq<byte>, o: nat): nat
    requires o + ENDPOINT_SIZE <= |raw|
  {
    raw[o + 4] as int + 256 * raw[o + 5] as int
  }

  // ----- properties -----

  datatype Property = In | Out | Bidir | Int | Blk | Iso

  /** The properties of the target: six endpoints, each IN or OUT, of the interrupt type. */
  function TargetProperties(): seq<set<Property>> {
    seq(ENDPOINT_MAX_NUMBER, i => if i < MAX_ENDPOINTS then {In, Out, Int} else {})
  }

  function TypeProperty(kind: byte): set<Property> {
    if kind == XFER_INT then {Int} else if kind == XFER_BULK then {Blk} else if kind == XFER_ISO then {Iso} else {}
  }

  function Widen(props: set<Property>, kind: byte, address: byte): set<Property> {
    var p := props + TypeProperty(kind) + {if Direction(address) == 1 then In else Out};
    if In in p && Out in p then p + {Bidir} else p
  }

  function AddProperties(raw: seq<byte>, props: seq<set<Property>>, o: nat): seq<set<Property>>
    requires o + ENDPOINT_SIZE <= |raw|
  {
    var i := Number(Address(raw, o)) - 1;
    if 0 <= i < |props| then props[i := Widen(props[i], TransferType(raw, o), Address(raw, o))] else props
  }

  predicate InBounds(raw: seq<byte>, offsets: seq<nat>) {
    forall i :: 0 <= i < |offsets| ==> offsets[i] + ENDPOINT_SIZE <= |raw|
  }

  /** get_endpoint_properties, after the first `k` endpoint descriptors of a configuration. */
  function Properties(raw: seq<byte>, offsets: seq<nat>, k: nat): (r: seq<set<Property>>)
    requires InBounds(raw, offsets) && k <= |offsets|
    ensures |r| == ENDPOINT_MAX_NUMBER
  {
    if k == 0 then seq(ENDPOINT_MAX_NUMBER, _ => {}) else AddProperties(raw, Properties(raw, offsets, k - 1), offsets[k - 1])
  }

  /** compare_endpoint_properties: some endpoint number has a property that the target lacks there. */
  predicate MustRenumber(source: seq<set<Property>>, target: seq<set<Property>>) {
    exists i :: 0 <= i < |source| && i < |target| && !(source[i] <= target[i])
  }

  // ----- rewriting -----

  /** (address & 0x80) | number */
  function WithNumber(address: byte, number: byte): byte {
    if number >= 128 then number else 128 * Direction(address) + number
  }

  /** The two translation tables, row-major, and the list of endpoints. */
  datatype Tables = Tables(u2s: seq<byte>, s2u: seq<byte>, entries: seq<Entry>)

  /** The configuration being rewritten and the last number given out in it. */
  datatype Fix = Fix(raw: seq<byte>, number: byte, tables: Tables)

  function Put(table: seq<byte>, endpoint: byte, value: byte): seq<byte> {
    if 0 <= Cell(endpoint) < |table| then table[Cell(endpoint) := value] else table
  }

  /** The endpoint with this original address, seen when `number` numbers have been given out, is configured on the target. */
  predicate Usable(configuration: nat, raw: seq<byte>, o: nat, original: byte, number: byte)
    requires o + ENDPOINT_SIZE <= |raw|
  {
    && Number(original) != 0
    && configuration == 0
    && TransferType(raw, o) == XFER_INT
    && PacketSize(raw, o) <= MAX_PAYLOAD_SIZE_EP
    && number <= MAX_ENDPOINTS
  }

  function Configure(t: Tables, original: byte, address: byte, size: byte): Tables {
    Tables(Put(t.u2s, original, address), Put(t.s2u, address, original), t.entries + [Entry(address, XFER_INT, size)])
  }

  /** One round of the innermost loop of fix_endpoints. */
  function FixOne(configuration: nat, renumber: bool, f: Fix, o: nat): (r: Fix)
    requires o + ENDPOINT_SIZE <= |f.raw|
    ensures |r.raw| == |f.raw|
  {
    var original := Address(f.raw, o);
    var number := if renumber then (f.number + 1) % 256 else f.number;
    var address := if renumber then WithNumber(original, number) else original;
    var raw := f.raw[o + 2 := address];
    Fix(raw, number,
        if Usable(configuration, raw, o, original, number) then Configure(f.tables, original, address, PacketSize(raw, o)) else f.tables)
  }

  /** fix_endpoints after the first `k` endpoint descriptors of a configuration. */
  function FixFirst(configuration: nat, renumber: bool, f: Fix, offsets: seq<nat>, k: nat): (r: Fix)
    requires InBounds(f.raw, offsets) && k <= |offsets|
    ensures |r.raw| == |f.raw|
  {
    if k == 0 then f else FixOne(configuration, renumber, FixFirst(configuration, renumber, f, offsets, k - 1), offsets[k - 1])
  }

  /** The choice fix_endpoints makes for a configuration. */
  predicate Renumbers(raw: seq<byte>, offsets: seq<nat>)
    requires InBounds(raw, offsets)
  {
    MustRenumber(Properties(raw, offsets, |offsets|), TargetProperties())
  }

  function FixConfiguration(configuration: nat, raw: seq<byte>, t: Tables, offsets: seq<nat>): (r: Fix)
    requires InBounds(raw, offsets)
  {
    FixFirst(configuration, Renumbers(raw, offsets), Fix(raw, 0, t), offsets, |offsets|)
  }

  function EmptyTables(): Tables {
    Tables(seq(TABLE_SIZE, _ => 0), seq(TABLE_SIZE, _ => 0), [])
  }

  // ----- what a caller may assume about the endpoint descriptors -----

  /** Descriptors do not overlap. */
  predicate Apart(raw: seq<byte>, offsets: seq<nat>) {
    && InBounds(raw, offsets)
    && forall i, j :: 0 <= i < |offsets| && 0 <= j < |offsets| && i != j ==> offsets[i] + ENDPOINT_SIZE <= offsets[j] || offsets[j] + ENDPOINT_SIZE <= offsets[i]
  }

  /** A non-zero endpoint number, and zeros in the reserved bits. */
  predicate Plain(address: byte) { address % 128 < 16 && address % 16 != 0 }

  // ----- the rewritten bytes -----

  /** The address given to the i-th endpoint descriptor. */
  function NewAddress(raw: seq<byte>, renumber: bool, offsets: seq<nat>, i: nat): byte
    requires InBounds(raw, offsets) && i < |offsets|
  {
    if renumber then WithNumber(Address(raw, offsets[i]), (i + 1) % 256) else Address(raw, offsets[i])
  }

  /** After `k` descriptors: those have their new address, and every other byte is as before. */
  ghost predicate Rewritten(raw: seq<byte>, raw': seq<byte>, renumber: bool, offsets: seq<nat>, k: nat)
    requires InBounds(raw, offsets) && k <= |offsets|
  {
    && |raw'| == |raw|
    && (forall i :: 0 <= i < k ==> raw'[offsets[i] + 2] == NewAddress(raw, renumber, offsets, i))
    && (forall j :: 0 <= j < |raw| && raw'[j] != raw[j] ==> exists i :: 0 <= i < k && j == offsets[i] + 2)
  }

  /** What a descriptor not yet visited holds. */
  lemma Unvisited(raw: seq<byte>, raw': seq<byte>, renumber: bool, offsets: seq<nat>, k: nat)
    requires Apart(raw, offsets) && k < |offsets| && Rewritten(raw, raw', renumber, offsets, k)
    ensures raw'[offsets[k]..offsets[k] + ENDPOINT_SIZE] == raw[offsets[k]..offsets[k] + ENDPOINT_SIZE]
    ensures Address(raw', offsets[k]) == Address(raw, offsets[k])
  {
    forall i | 0 <= i < k ensures offsets[i] + 2 < offsets[k] || offsets[k] + ENDPOINT_SIZE <= offsets[i] + 2 {
    }
    forall j | offsets[k] <= j < offsets[k] + ENDPOINT_SIZE ensures raw'[j] == raw[j] {
    }
  }

  lemma RewrittenStep(raw: seq<byte>, raw0: seq<byte>, raw1: seq<byte>, renumber: bool, offsets: seq<nat>, k: nat)
    requires Apart(raw, offsets) && k < |offsets| && Rewritten(raw, raw0, renumber, offsets, k)
    requires raw1 == raw0[offsets[k] + 2 := NewAddress(raw, renumber, offsets, k)]
    ensures Rewritten(raw, raw1, renumber, offsets, k + 1)
  {
    forall j | 0 <= j < |raw| && raw1[j] != raw[j] ensures exists i :: 0 <= i < k + 1 && j == offsets[i] + 2 {
      if j != offsets[k] + 2 {
        assert raw0[j] != raw[j];
        var i :| 0 <= i < k && j == offsets[i] + 2;
        assert 0 <= i < k + 1;
      }
    }
  }

  /** The bytes and the number given out after `k` rounds. */
  ghost predicate ProgressedTo(raw: seq<byte>, f: Fix, renumber: bool, offsets: seq<nat>, k: nat)
    requires InBounds(raw, offsets) && k <= |offsets|
  {
    f.number == (if renumber then k % 256 else 0) && Rewritten(raw, f.raw, renumber, offsets, k)
  }

  lemma Progresses(configuration: nat, renumber: bool, raw: seq<byte>, f: Fix, offsets: seq<nat>, k: nat, f': Fix)
    requires Apart(raw, offsets) && k < |offsets| && ProgressedTo(raw, f, renumber, offsets, k)
    requires f' == FixOne(configuration, renumber, f, offsets[k])
    ensures ProgressedTo(raw, f', renumber, offsets, k + 1)
  {
    Unvisited(raw, f.raw, renumber, offsets, k);
    RewrittenStep(raw, f.raw, f'.raw, renumber, offsets, k);
  }

  lemma {:induction false} BytesAfter(configuration: nat, renumber: bool, raw: seq<byte>, t: Tables, offsets: seq<nat>, k: nat)
    requires Apart(raw, offsets) && k <= |offsets|
    ensures ProgressedTo(raw, FixFirst(configuration, renumber, Fix(raw, 0, t), offsets, k), renumber, offsets, k)
  {
    if k > 0 {
      BytesAfter(configuration, renumber, raw, t, offsets, k - 1);
      var f := FixFirst(configuration, renumber, Fix(raw, 0, t), offsets, k - 1);
      Progresses(configuration, renumber, raw, f, offsets, k - 1, FixOne(configuration, renumber, f, offsets[k - 1]));
    }
  }
}
