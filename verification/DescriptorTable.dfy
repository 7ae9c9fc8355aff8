/** The descriptors the PC packs for the firmware, and the lookup the firmware makes in what it received. */
module DescriptorTable {
  import opened Protocol
  import opened Wrappers
  import opened Invariant

  type word = n: int | 0 <= n < 65536

  const USB_DT_DEVICE := 1
  const USB_DT_CONFIG := 2
  const USB_DT_STRING := 3

  /** A descriptor and the request it answers. */
  datatype Descriptor = Descriptor(wValue: word, wIndex: word, data: seq<byte>)

  /** What is fetched from the device besides its standard descriptors: a string in the first language, or the first
      non-empty class descriptor that the HID descriptor of an interface announces, with the type announced for it. */
  datatype Fetched =
    | Text(index: byte, langId: word, data: seq<byte>)
    | HidClass(kind: byte, number: byte, data: seq<byte>)

  /** The request under which it was fetched. */
  function AsDescriptor(f: Fetched): Descriptor {
    match f
    case Text(index, langId, data) => Descriptor(256 * USB_DT_STRING + index, langId, data)
    case HidClass(kind, number, data) => Descriptor(256 * kind, number, data)
  }

  /** The loop of the lookup ends at this one. */
  predicate EndsLookup(f: Fetched) { f.HidClass? && f.kind == 0 }

  lemma ZeroKeyIff(f: Fetched)
    ensures AsDescriptor(f).wValue == 0 <==> EndsLookup(f)
  {
  }

  /** s_descriptorIndex */
  datatype IndexEntry = IndexEntry(offset: word, wValue: word, wIndex: word, wLength: word)

  /** desc and descIndex up to their cursors. */
  datatype Table = Table(desc: seq<byte>, index: seq<IndexEntry>)

  const EMPTY := Table([], [])

  // ----- packing -----

  predicate HasRoom(t: Table, d: Descriptor) {
    |t.desc| + |d.data| <= MAX_DESCRIPTORS_SIZE && |t.index| < MAX_DESCRIPTORS
  }

  /** add_descriptor, when there is room. */
  function Add(t: Table, d: Descriptor): Table
    requires HasRoom(t, d)
  {
    Table(t.desc + d.data, t.index + [IndexEntry(|t.desc|, d.wValue, d.wIndex, |d.data|)])
  }

  /** The calls of add_descriptor in send_descriptors, which stops at the first one that fails. */
  function AddAll(t: Table, ds: seq<Descriptor>): Option<Table>
    decreases |ds|
  {
    if ds == [] then Some(t)
    else if !HasRoom(t, ds[0]) then None
    else AddAll(Add(t, ds[0]), ds[1..])
  }

  function TotalSize(ds: seq<Descriptor>): nat {
    if ds == [] then 0 else |ds[0].data| + TotalSize(ds[1..])
  }

  /** The descriptors of a device in the order in which send_descriptors adds them. */
  function DescriptorsOf(device: seq<byte>, langId: seq<byte>, configurations: seq<seq<byte>>, others: seq<Descriptor>): seq<Descriptor>
    requires |configurations| <= 256
  {
    [Descriptor(256 * USB_DT_DEVICE, 0, device), Descriptor(256 * USB_DT_STRING, 0, langId)]
    + seq(|configurations|, i requires 0 <= i < |configurations| => Descriptor(256 * USB_DT_CONFIG + i, 0, configurations[i]))
    + others
  }

  /** Packing succeeds exactly when everything fits. */
  lemma {:induction false} AddAllSucceeds(t: Table, ds: seq<Descriptor>)
    requires |t.desc| <= MAX_DESCRIPTORS_SIZE && |t.index| <= MAX_DESCRIPTORS
    ensures AddAll(t, ds).Some? <==> |t.desc| + TotalSize(ds) <= MAX_DESCRIPTORS_SIZE && |t.index| + |ds| <= MAX_DESCRIPTORS
    decreases |ds|
  {
    if ds != [] && HasRoom(t, ds[0]) {
      AddAllSucceeds(Add(t, ds[0]), ds[1..]);
    }
  }

  /** Entry `e` of a table locates the bytes of `d` and carries its key. */
  predicate Locates(desc: seq<byte>, e: IndexEntry, d: Descriptor) {
    && e.wValue == d.wValue && e.wIndex == d.wIndex && e.wLength == |d.data|
    && e.offset + e.wLength <= |desc| && desc[e.offset..e.offset + e.wLength] == d.data
  }

  predicate Packs(t: Table, ds: seq<Descriptor>) {
    && |t.index| == |ds|
    && forall i :: 0 <= i < |ds| ==> Locates(t.desc, t.index[i], ds[i])
  }

  lemma AddPacks(t: Table, done: seq<Descriptor>, d: Descriptor)
    requires Packs(t, done) && HasRoom(t, d)
    ensures Packs(Add(t, d), done + [d])
  {
    var t' := Add(t, d);
    forall i | 0 <= i < |done| + 1 ensures Locates(t'.desc, t'.index[i], (done + [d])[i]) {
      if i < |done| {
        var e := t.index[i];
        assert Locates(t.desc, e, done[i]);
        assert t'.desc[e.offset..e.offset + e.wLength] == t.desc[e.offset..e.offset + e.wLength];
      }
    }
  }

  /** The packed table has one entry per descriptor, in order, and each entry locates its bytes. */
  lemma {:induction false} AddAllPacks(t: Table, done: seq<Descriptor>, ds: seq<Descriptor>)
    requires Packs(t, done) && AddAll(t, ds).Some? && |t.desc| <= MAX_DESCRIPTORS_SIZE && |t.index| <= MAX_DESCRIPTORS
    ensures var t' := AddAll(t, ds).value;
            Packs(t', done + ds) && |t'.desc| <= MAX_DESCRIPTORS_SIZE && |t'.index| <= MAX_DESCRIPTORS
    decreases |ds|
  {
    if ds == [] {
      assert done + ds == done;
    } else {
      AddPacks(t, done, ds[0]);
      AddAllPacks(Add(t, ds[0]), done + [ds[0]], ds[1..]);
      assert done + [ds[0]] + ds[1..] == done + ds;
    }
  }

  // ----- the index as bytes -----

  function Low(w: word): byte { w % 256 }

  function High(w: word): byte { w / 256 }

  function EntryBytes(e: IndexEntry): (r: seq<byte>) {
    [Low(e.offset), High(e.offset), Low(e.wValue), High(e.wValue), Low(e.wIndex), High(e.wIndex), Low(e.wLength), High(e.wLength)]
  }

  function IndexBytes(index: seq<IndexEntry>): (r: seq<byte>)
    ensures |r| == INDEX_ENTRY_SIZE * |index|
  {
    if index == [] then [] else EntryBytes(index[0]) + IndexBytes(index[1..])
  }

  function WordAt(bytes: seq<byte>, p: nat): word
    requires p + 2 <= |bytes|
  {
    bytes[p] as int + 256 * bytes[p + 1] as int
  }

  /** Entry `i` of an index memory, as the firmware reads it. */
  function EntryAt(memory: seq<byte>, i: nat): IndexEntry
    requires INDEX_ENTRY_SIZE * (i + 1) <= |memory|
  {
    var p := INDEX_ENTRY_SIZE * i;
    IndexEntry(WordAt(memory, p), WordAt(memory, p + 2), WordAt(memory, p + 4), WordAt(memory, p + 6))
  }

  lemma EntryRoundTrip(e: IndexEntry)
    ensures EntryAt(EntryBytes(e), 0) == e
  {
  }

  lemma {:induction false} IndexBytesAt(index: seq<IndexEntry>, i: nat)
    requires i < |index|
    ensures IndexBytes(index)[INDEX_ENTRY_SIZE * i..INDEX_ENTRY_SIZE * (i + 1)] == EntryBytes(index[i])
  {
    var bytes := IndexBytes(index);
    if i == 0 {
      assert bytes[..INDEX_ENTRY_SIZE] == EntryBytes(index[0]);
    } else {
      IndexBytesAt(index[1..], i - 1);
      var later := IndexBytes(index[1..]);
      assert bytes[INDEX_ENTRY_SIZE * i..INDEX_ENTRY_SIZE * (i + 1)] == later[INDEX_ENTRY_SIZE * (i - 1)..INDEX_ENTRY_SIZE * i];
    }
  }

  /** The firmware's index memory holds the entries of `index`, then zeros. */
  ghost predicate Holds(memory: seq<byte>, index: seq<IndexEntry>) {
    && |memory| == MAX_DESCRIPTORS * INDEX_ENTRY_SIZE && |index| <= MAX_DESCRIPTORS
    && memory == Padded(IndexBytes(index), |memory|)
  }

  lemma EntryAtSlice(memory: seq<byte>, i: nat, bytes: seq<byte>)
    requires INDEX_ENTRY_SIZE * (i + 1) <= |memory| && memory[INDEX_ENTRY_SIZE * i..INDEX_ENTRY_SIZE * (i + 1)] == bytes
    ensures EntryAt(memory, i) == EntryAt(bytes, 0)
  {
    var p := INDEX_ENTRY_SIZE * i;
    assert forall k :: 0 <= k < INDEX_ENTRY_SIZE ==> memory[p + k] == bytes[k];
  }

  lemma HeldEntry(memory: seq<byte>, index: seq<IndexEntry>, i: nat)
    requires Holds(memory, index) && i < MAX_DESCRIPTORS
    ensures EntryAt(memory, i) == if i < |index| then index[i] else IndexEntry(0, 0, 0, 0)
  {
    if i < |index| {
      IndexBytesAt(index, i);
      var p := INDEX_ENTRY_SIZE * i;
      assert memory[p..p + INDEX_ENTRY_SIZE] == IndexBytes(index)[p..p + INDEX_ENTRY_SIZE];
      EntryAtSlice(memory, i, EntryBytes(index[i]));
      EntryRoundTrip(index[i]);
    }
  }

  // ----- lookup -----

  /** The loop of CALLBACK_USB_GetDescriptor from entry `i` on: where the descriptor is and how long. */
  function LookupFrom(memory: seq<byte>, wValue: word, wIndex: word, i: nat): Option<(nat, nat)>
    requires |memory| == MAX_DESCRIPTORS * INDEX_ENTRY_SIZE
    decreases MAX_DESCRIPTORS - i
  {
    if i >= MAX_DESCRIPTORS || EntryAt(memory, i).wValue == 0 then None
    else
      var e := EntryAt(memory, i);
      if e.wValue == wValue && e.wIndex == wIndex then Some((e.offset as nat, e.wLength as nat))
      else LookupFrom(memory, wValue, wIndex, i + 1)
  }

  /** The first descriptor of a list under a key. */
  function Find(ds: seq<Descriptor>, wValue: word, wIndex: word): Option<Descriptor> {
    if ds == [] then None
    else if ds[0].wValue == wValue && ds[0].wIndex == wIndex then Some(ds[0])
    else Find(ds[1..], wValue, wIndex)
  }

  /** The descriptors before the first one whose wValue is zero. */
  function BeforeZero(ds: seq<Descriptor>): seq<Descriptor> {
    if ds == [] || ds[0].wValue == 0 then [] else [ds[0]] + BeforeZero(ds[1..])
  }

  /** The bytes the firmware answers with. */
  function Answer(descriptors: seq<byte>, found: Option<(nat, nat)>): Option<seq<byte>> {
    match found
    case None => None
    case Some((offset, length)) => if offset + length <= |descriptors| then Some(descriptors[offset..offset + length]) else None
  }

  function DataOf(found: Option<Descriptor>): Option<seq<byte>> {
    match found
    case None => None
    case Some(d) => Some(d.data)
  }

  lemma LocatedAnswer(descriptors: seq<byte>, t: Table, e: IndexEntry, d: Descriptor)
    requires Locates(t.desc, e, d) && |t.desc| <= |descriptors| && descriptors[..|t.desc|] == t.desc
    ensures Answer(descriptors, Some((e.offset as nat, e.wLength as nat))) == Some(d.data)
  {
    assert descriptors[e.offset..e.offset + e.wLength] == t.desc[e.offset..e.offset + e.wLength];
  }

  lemma {:induction false} LookupFromFinds(descriptors: seq<byte>, memory: seq<byte>, t: Table, ds: seq<Descriptor>, wValue: word, wIndex: word, i: nat)
    requires Packs(t, ds) && Holds(memory, t.index) && i <= |ds|
    requires |t.desc| <= |descriptors| && descriptors[..|t.desc|] == t.desc
    ensures Answer(descriptors, LookupFrom(memory, wValue, wIndex, i)) == DataOf(Find(BeforeZero(ds[i..]), wValue, wIndex))
    decreases |ds| - i
  {
    if i < MAX_DESCRIPTORS {
      HeldEntry(memory, t.index, i);
    }
    if i < |ds| {
      assert ds[i..][1..] == ds[i + 1..];
      assert Locates(t.desc, t.index[i], ds[i]);
      LookupFromFinds(descriptors, memory, t, ds, wValue, wIndex, i + 1);
      if ds[i].wValue != 0 {
        assert BeforeZero(ds[i..])[1..] == BeforeZero(ds[i + 1..]);
        LocatedAnswer(descriptors, t, t.index[i], ds[i]);
      }
    }
  }

  lemma {:induction false} BeforeZeroWhole(ds: seq<Descriptor>)
    ensures BeforeZero(ds) == ds <==> forall d :: d in ds ==> d.wValue != 0
  {
    if ds != [] {
      BeforeZeroWhole(ds[1..]);
      assert ds == [ds[0]] + ds[1..];
      if ds[0].wValue != 0 {
        assert BeforeZero(ds)[1..] == BeforeZero(ds[1..]);
      }
    }
  }

  lemma {:induction false} FindsMember(ds: seq<Descriptor>, d: Descriptor)
    requires d in ds
    ensures Find(ds, d.wValue, d.wIndex).Some?
  {
    if ds[0] != d {
      FindsMember(ds[1..], d);
    }
  }

  lemma {:induction false} NeverFindsZero(ds: seq<Descriptor>, wIndex: word)
    ensures Find(BeforeZero(ds), 0, wIndex).None?
  {
    if ds != [] && ds[0].wValue != 0 {
      NeverFindsZero(ds[1..], wIndex);
      assert BeforeZero(ds)[1..] == BeforeZero(ds[1..]);
    }
  }

  /** What comes after a zero wValue is not found under a key that nothing before has. */
  lemma {:induction false} HiddenAfterZero(ds: seq<Descriptor>, j: nat, wValue: word, wIndex: word)
    requires j < |ds| && ds[j].wValue == 0
    requires forall i :: 0 <= i < j ==> ds[i].wValue != wValue || ds[i].wIndex != wIndex
    ensures Find(BeforeZero(ds), wValue, wIndex).None?
  {
    if j > 0 && ds[0].wValue != 0 {
      HiddenAfterZero(ds[1..], j - 1, wValue, wIndex);
      assert BeforeZero(ds)[1..] == BeforeZero(ds[1..]);
    }
  }

  /** The firmware's memories answer this key as the list does. */
  predicate Agrees(descriptors: seq<byte>, memory: seq<byte>, ds: seq<Descriptor>, wValue: word, wIndex: word)
    requires |memory| == MAX_DESCRIPTORS * INDEX_ENTRY_SIZE
  {
    Answer(descriptors, LookupFrom(memory, wValue, wIndex, 0)) == DataOf(Find(ds, wValue, wIndex))
  }

  /** The firmware answers a request with the first descriptor the PC added under its key, and with nothing when
      there is none, as far as the list goes before a zero wValue. */
  lemma LookupIsFirstMatch(ds: seq<Descriptor>, t: Table, descriptors: seq<byte>, memory: seq<byte>, wValue: word, wIndex: word)
    requires Packs(t, ds) && Holds(memory, t.index)
    requires |t.desc| <= |descriptors| && descriptors[..|t.desc|] == t.desc
    ensures Agrees(descriptors, memory, BeforeZero(ds), wValue, wIndex)
    ensures (forall d :: d in ds ==> d.wValue != 0) ==> Agrees(descriptors, memory, ds, wValue, wIndex)
  {
    assert ds[0..] == ds;
    LookupFromFinds(descriptors, memory, t, ds, wValue, wIndex, 0);
    BeforeZeroWhole(ds);
  }

  lemma ZeroIsLost(ds: seq<Descriptor>, t: Table, descriptors: seq<byte>, memory: seq<byte>, d: Descriptor)
    requires Packs(t, ds) && Holds(memory, t.index) && d in ds && d.wValue == 0
    requires |t.desc| <= |descriptors| && descriptors[..|t.desc|] == t.desc
    ensures !Agrees(descriptors, memory, ds, 0, d.wIndex)
  {
    LookupIsFirstMatch(ds, t, descriptors, memory, 0, d.wIndex);
    FindsMember(ds, d);
    NeverFindsZero(ds, d.wIndex);
  }

  /** The firmware agrees with the list on every key exactly when no descriptor has wValue zero. */
  lemma LookupAgreesIff(ds: seq<Descriptor>, t: Table, descriptors: seq<byte>, memory: seq<byte>)
    requires Packs(t, ds) && Holds(memory, t.index)
    requires |t.desc| <= |descriptors| && descriptors[..|t.desc|] == t.desc
    ensures (forall d :: d in ds ==> d.wValue != 0) <==> (forall wValue, wIndex :: Agrees(descriptors, memory, ds, wValue, wIndex))
  {
    if forall d :: d in ds ==> d.wValue != 0 {
      forall wValue, wIndex ensures Agrees(descriptors, memory, ds, wValue, wIndex) {
        LookupIsFirstMatch(ds, t, descriptors, memory, wValue, wIndex);
      }
    } else {
      var d :| d in ds && d.wValue == 0;
      ZeroIsLost(ds, t, descriptors, memory, d);
    }
  }

  // ----- the two ends in place -----

  /** desc, descIndex and their cursors on the PC. */
  class Packer {
    const desc: array<byte>
    const descIndex: array<IndexEntry>
    var pDesc: nat
    var pDescIndex: nat

    ghost predicate Valid()
      reads this
    {
      && desc.Length == MAX_DESCRIPTORS_SIZE && descIndex.Length == MAX_DESCRIPTORS
      && pDesc <= MAX_DESCRIPTORS_SIZE && pDescIndex <= MAX_DESCRIPTORS
    }

    ghost function View(): Table
      reads this, desc, descIndex
      requires Valid()
    {
      Table(desc[..pDesc], descIndex[..pDescIndex])
    }

    constructor ()
      ensures Valid() && fresh(desc) && fresh(descIndex) && View() == EMPTY
    {
      desc := new byte[MAX_DESCRIPTORS_SIZE](_ => 0);
      descIndex := new IndexEntry[MAX_DESCRIPTORS](_ => IndexEntry(0, 0, 0, 0));
      pDesc, pDescIndex := 0, 0;
    }

    /** add_descriptor */
    method AddDescriptor(d: Descriptor) returns (ret: int)
      requires Valid()
      modifies this`pDesc, this`pDescIndex, desc, descIndex
      ensures Valid()
      ensures if HasRoom(old(View()), d) then ret == 0 && View() == Add(old(View()), d) else ret == -1 && View() == old(View())
    {
      if pDesc + |d.data| > MAX_DESCRIPTORS_SIZE || pDescIndex >= MAX_DESCRIPTORS {
        return -1;
      }
      descIndex[pDescIndex] := IndexEntry(pDesc, d.wValue, d.wIndex, |d.data|);
      forall k | 0 <= k < |d.data| {
        desc[pDesc + k] := d.data[k];
      }
      assert desc[..pDesc + |d.data|] == old(desc[..pDesc]) + d.data;
      pDesc := pDesc + |d.data|;
      pDescIndex := pDescIndex + 1;
      return 0;
    }

    /** send_descriptors up to the point where it sends: the descriptors are added one by one. */
    method AddDescriptors(ds: seq<Descriptor>) returns (ret: int)
      requires Valid() && View() == EMPTY
      modifies this`pDesc, this`pDescIndex, desc, descIndex
      ensures Valid()
      ensures ret == (if TotalSize(ds) <= MAX_DESCRIPTORS_SIZE && |ds| <= MAX_DESCRIPTORS then 0 else -1)
      ensures ret == 0 ==> Some(View()) == AddAll(EMPTY, ds)
    {
      AddAllSucceeds(EMPTY, ds);
      for i := 0 to |ds|
        invariant Valid() && AddAll(View(), ds[i..]) == AddAll(EMPTY, ds)
      {
        assert ds[i..][1..] == ds[i + 1..];
        ret := AddDescriptor(ds[i]);
        if ret < 0 {
          return -1;
        }
      }
      assert ds[|ds|..] == [];
      return 0;
    }
  }

  /** CALLBACK_USB_GetDescriptor on the index memory of the firmware. */
  method GetDescriptor(memory: array<byte>, wValue: word, wIndex: word) returns (found: Option<(nat, nat)>)
    requires memory.Length == MAX_DESCRIPTORS * INDEX_ENTRY_SIZE
    ensures found == LookupFrom(memory[..], wValue, wIndex, 0)
  {
    var i := 0;
    while i < MAX_DESCRIPTORS && EntryAt(memory[..], i).wValue != 0
      invariant i <= MAX_DESCRIPTORS && LookupFrom(memory[..], wValue, wIndex, 0) == LookupFrom(memory[..], wValue, wIndex, i)
    {
      var e := EntryAt(memory[..], i);
      if wValue == e.wValue && wIndex == e.wIndex {
        return Some((e.offset as nat, e.wLength as nat));
      }
      i := i + 1;
    }
    return None;
  }
}
