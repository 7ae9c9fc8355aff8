/** The translation tables and the endpoint list that renumbering builds. */
module TablesProof {
  import opened Protocol
  import opened Wrappers
  import opened Proxy
  import opened RawConfig
  import opened Renumber
  import opened RenumberProof

  // ----- pigeonhole -----

  function Elements(s: seq<nat>): set<nat> { set x | x in s }

  lemma {:induction false} ElementsCount(s: seq<nat>)
    requires forall i, j :: 0 <= i < j < |s| ==> s[i] != s[j]
    ensures |Elements(s)| == |s|
  {
    if s == [] {
      assert Elements(s) == {};
    } else {
      var last := |s| - 1;
      ElementsCount(s[..last]);
      assert s[last] !in s[..last];
      assert Elements(s) == Elements(s[..last]) + {s[last]};
    }
  }

  function Below(n: nat): set<nat> { if n == 0 then {} else Below(n - 1) + {n - 1} }

  lemma {:induction false} BelowCount(n: nat)
    ensures |Below(n)| == n && forall x: nat :: x in Below(n) <==> x < n
  {
    if n > 0 {
      BelowCount(n - 1);
      assert n - 1 !in Below(n - 1);
    }
  }

  lemma SubsetCount(a: set<nat>, b: set<nat>)
    requires a <= b
    ensures |a| <= |b|
  {
    assert b == a + (b - a);
  }

  lemma Pigeonhole(s: seq<nat>, n: nat)
    requires forall i :: 0 <= i < |s| ==> s[i] < n
    requires forall i, j :: 0 <= i < j < |s| ==> s[i] != s[j]
    ensures |s| <= n
  {
    ElementsCount(s);
    BelowCount(n);
    SubsetCount(Elements(s), Below(n));
  }

  // ----- cells -----

  lemma CellOfPlain(e: byte)
    requires Plain(e)
    ensures 0 <= Cell(e) < TABLE_SIZE && Cell(e) == ENDPOINT_MAX_NUMBER * Direction(e) + Number(e) - 1 && 1 <= Number(e) <= 15
    ensures e == 128 * Direction(e) + Number(e) && Direction(e) <= 1
  {
  }

  lemma PlainEqual(e: byte, f: byte)
    requires Plain(e) && Plain(f)
    ensures e == f <==> Direction(e) == Direction(f) && Number(e) == Number(f)
    ensures e == f <==> Cell(e) == Cell(f)
  {
    CellOfPlain(e);
    CellOfPlain(f);
  }

  lemma LookupPut(table: seq<byte>, e: byte, v: byte, f: byte)
    requires |table| == TABLE_SIZE && Plain(e) && Plain(f)
    ensures Lookup(Put(table, e, v), f) == if f == e then v else Lookup(table, f)
  {
    CellOfPlain(e);
    PlainEqual(e, f);
  }

  // ----- when the original numbers can be kept -----

  /** Every endpoint has a number the target has, is neither bulk nor isochronous, and shares its number with no
      endpoint of the other direction. */
  predicate Fitting(raw: seq<byte>, offsets: seq<nat>, k: nat)
    requires InBounds(raw, offsets) && k <= |offsets|
  {
    && (forall i :: 0 <= i < k ==> Number(Address(raw, offsets[i])) <= MAX_ENDPOINTS && TypeFits(raw, offsets[i]))
    && (forall i, j :: 0 <= i < k && 0 <= j < k && Number(Address(raw, offsets[i])) == Number(Address(raw, offsets[j]))
          ==> Direction(Address(raw, offsets[i])) == Direction(Address(raw, offsets[j])))
  }

  predicate TypeFits(raw: seq<byte>, o: nat)
    requires o + ENDPOINT_SIZE <= |raw|
  {
    TransferType(raw, o) == 0 || TransferType(raw, o) == 3
  }

  /** Some endpoint among the first `k` has number `n` and the given property by its own descriptor. */
  predicate Has(raw: seq<byte>, offsets: seq<nat>, k: nat, n: nat, q: Property)
    requires InBounds(raw, offsets) && k <= |offsets|
  {
    exists i :: 0 <= i < k && Number(Address(raw, offsets[i])) == n && q in Own(raw, offsets[i])
  }

  function Own(raw: seq<byte>, o: nat): set<Property>
    requires o + ENDPOINT_SIZE <= |raw|
  {
    TypeProperty(TransferType(raw, o)) + {if Direction(Address(raw, o)) == 1 then In else Out}
  }

  lemma HasNext(raw: seq<byte>, offsets: seq<nat>, k: nat, n: nat, q: Property)
    requires InBounds(raw, offsets) && k < |offsets|
    ensures Has(raw, offsets, k + 1, n, q) <==> Has(raw, offsets, k, n, q) || (Number(Address(raw, offsets[k])) == n && q in Own(raw, offsets[k]))
  {
    if Has(raw, offsets, k, n, q) {
      var i :| 0 <= i < k && Number(Address(raw, offsets[i])) == n && q in Own(raw, offsets[i]);
      assert 0 <= i < k + 1;
    }
  }

  lemma {:induction false} PropertiesMean(raw: seq<byte>, offsets: seq<nat>, k: nat, n: nat, q: Property)
    requires InBounds(raw, offsets) && k <= |offsets| && 1 <= n <= ENDPOINT_MAX_NUMBER && q != Bidir
    ensures q in Properties(raw, offsets, k)[n - 1] <==> Has(raw, offsets, k, n, q)
  {
    if k > 0 {
      PropertiesMean(raw, offsets, k - 1, n, q);
      HasNext(raw, offsets, k - 1, n, q);
    }
  }

  lemma {:induction false} BidirMeans(raw: seq<byte>, offsets: seq<nat>, k: nat, n: nat)
    requires InBounds(raw, offsets) && k <= |offsets| && 1 <= n <= ENDPOINT_MAX_NUMBER
    ensures var p := Properties(raw, offsets, k)[n - 1]; Bidir in p <==> In in p && Out in p
  {
    if k > 0 {
      BidirMeans(raw, offsets, k - 1, n);
    }
  }

  /** The properties of number `n` are within those of the target. */
  predicate NumberFits(raw: seq<byte>, offsets: seq<nat>, n: nat)
    requires InBounds(raw, offsets) && 1 <= n <= ENDPOINT_MAX_NUMBER
  {
    Properties(raw, offsets, |offsets|)[n - 1] <= TargetProperties()[n - 1]
  }

  lemma NumberFitsMeans(raw: seq<byte>, offsets: seq<nat>, n: nat)
    requires InBounds(raw, offsets) && 1 <= n <= ENDPOINT_MAX_NUMBER
    ensures NumberFits(raw, offsets, n)
       <==> var k := |offsets|;
            if n <= MAX_ENDPOINTS then
              !Has(raw, offsets, k, n, Blk) && !Has(raw, offsets, k, n, Iso) && !(Has(raw, offsets, k, n, In) && Has(raw, offsets, k, n, Out))
            else forall q :: !Has(raw, offsets, k, n, q)
  {
    var p := Properties(raw, offsets, |offsets|)[n - 1];
    forall q | q != Bidir ensures q in p <==> Has(raw, offsets, |offsets|, n, q) {
      PropertiesMean(raw, offsets, |offsets|, n, q);
    }
    BidirMeans(raw, offsets, |offsets|, n);
    if n <= MAX_ENDPOINTS {
      assert p <= {In, Out, Int} <==> Blk !in p && Iso !in p && Bidir !in p;
    } else {
      assert p <= {} <==> forall q :: q !in p;
    }
  }

  lemma FittingNumbers(raw: seq<byte>, offsets: seq<nat>, n: nat)
    requires InBounds(raw, offsets) && 1 <= n <= ENDPOINT_MAX_NUMBER && Fitting(raw, offsets, |offsets|)
    ensures NumberFits(raw, offsets, n)
  {
    NumberFitsMeans(raw, offsets, n);
  }

  lemma OwnHas(raw: seq<byte>, offsets: seq<nat>, i: nat, q: Property)
    requires InBounds(raw, offsets) && i < |offsets| && q in Own(raw, offsets[i])
    ensures Has(raw, offsets, |offsets|, Number(Address(raw, offsets[i])), q)
  {
  }

  lemma NumbersFitting(raw: seq<byte>, offsets: seq<nat>)
    requires InBounds(raw, offsets)
    requires forall i :: 0 <= i < |offsets| ==> Plain(Address(raw, offsets[i]))
    requires forall n :: 1 <= n <= ENDPOINT_MAX_NUMBER ==> NumberFits(raw, offsets, n)
    ensures Fitting(raw, offsets, |offsets|)
  {
    forall i | 0 <= i < |offsets| ensures Number(Address(raw, offsets[i])) <= MAX_ENDPOINTS && TypeFits(raw, offsets[i]) {
      var n := Number(Address(raw, offsets[i]));
      NumberFitsMeans(raw, offsets, n);
      forall q | q in Own(raw, offsets[i]) ensures Has(raw, offsets, |offsets|, n, q) {
        OwnHas(raw, offsets, i, q);
      }
      assert (if Direction(Address(raw, offsets[i])) == 1 then In else Out) in Own(raw, offsets[i]);
    }
    forall i, j | 0 <= i < |offsets| && 0 <= j < |offsets| && Number(Address(raw, offsets[i])) == Number(Address(raw, offsets[j]))
      ensures Direction(Address(raw, offsets[i])) == Direction(Address(raw, offsets[j]))
    {
      NumberFitsMeans(raw, offsets, Number(Address(raw, offsets[i])));
      forall q | q in Own(raw, offsets[i]) { OwnHas(raw, offsets, i, q); }
      forall q | q in Own(raw, offsets[j]) { OwnHas(raw, offsets, j, q); }
    }
  }

  /** The original numbers are kept exactly when the target can offer them all. */
  lemma KeepsNumbersIff(raw: seq<byte>, offsets: seq<nat>)
    requires InBounds(raw, offsets)
    requires forall i :: 0 <= i < |offsets| ==> Plain(Address(raw, offsets[i]))
    ensures !Renumbers(raw, offsets) <==> Fitting(raw, offsets, |offsets|)
  {
    assert Renumbers(raw, offsets) <==> !forall n :: 1 <= n <= ENDPOINT_MAX_NUMBER ==> NumberFits(raw, offsets, n) by {
      forall i | 0 <= i < ENDPOINT_MAX_NUMBER
        ensures NumberFits(raw, offsets, i + 1) <==> Properties(raw, offsets, |offsets|)[i] <= TargetProperties()[i]
      {
      }
    }
    if Fitting(raw, offsets, |offsets|) {
      forall n | 1 <= n <= ENDPOINT_MAX_NUMBER ensures NumberFits(raw, offsets, n) {
        FittingNumbers(raw, offsets, n);
      }
    } else if !Renumbers(raw, offsets) {
      NumbersFitting(raw, offsets);
    }
  }

  // ----- the tables -----

  /** The i-th endpoint is configured on the target: an interrupt endpoint of at most 64 bytes whose number the target has. */
  predicate UsableAt(raw: seq<byte>, renumber: bool, offsets: seq<nat>, i: nat)
    requires InBounds(raw, offsets) && i < |offsets|
  {
    && TransferType(raw, offsets[i]) == XFER_INT
    && PacketSize(raw, offsets[i]) <= MAX_PAYLOAD_SIZE_EP
    && (renumber ==> i + 1 <= MAX_ENDPOINTS)
  }

  /** Addresses are plain, and there are fewer endpoint descriptors than the eight-bit number counts. */
  predicate PlainEndpoints(raw: seq<byte>, offsets: seq<nat>)
    requires InBounds(raw, offsets)
  {
    |offsets| < 256 && forall i :: 0 <= i < |offsets| ==> Plain(Address(raw, offsets[i]))
  }

  /** No two endpoint descriptors that are configured on the target have the same address. */
  predicate UsedOnce(raw: seq<byte>, renumber: bool, offsets: seq<nat>)
    requires InBounds(raw, offsets)
  {
    forall i, j :: 0 <= i < j < |offsets| && UsableAt(raw, renumber, offsets, i) && UsableAt(raw, renumber, offsets, j)
      ==> Address(raw, offsets[i]) != Address(raw, offsets[j])
  }

  predicate Addressed(raw: seq<byte>, renumber: bool, offsets: seq<nat>)
    requires InBounds(raw, offsets)
  {
    PlainEndpoints(raw, offsets) && UsedOnce(raw, renumber, offsets)
  }

  /** An address the target can have. */
  predicate OnTarget(s: byte) { Plain(s) && Number(s) <= MAX_ENDPOINTS }

  /** The device address `e` and the target address `s` stand for each other in the tables. */
  predicate Paired(t: Tables, e: byte, s: byte) {
    && Plain(e) && OnTarget(s) && Direction(s) == Direction(e)
    && Lookup(t.u2s, e) == s && Lookup(t.s2u, s) == e
  }

  /** The two tables are inverse to each other, and keep directions. */
  ghost predicate Inverse(t: Tables) {
    && |t.u2s| == |t.s2u| == TABLE_SIZE
    && (forall e: byte :: Plain(e) && Lookup(t.u2s, e) != 0 ==> Paired(t, e, Lookup(t.u2s, e)))
    && (forall s: byte :: Plain(s) && Lookup(t.s2u, s) != 0 ==> Paired(t, Lookup(t.s2u, s), s))
  }

  /** The target addresses in use are those of the list, and no number is used twice. */
  ghost predicate Listed(t: Tables) {
    && (forall i :: 0 <= i < |t.entries| ==> OnTarget(t.entries[i].number) && Lookup(t.s2u, t.entries[i].number) != 0)
    && (forall i, j :: 0 <= i < j < |t.entries| ==> Number(t.entries[i].number) != Number(t.entries[j].number))
    && (forall s: byte :: Plain(s) && Lookup(t.s2u, s) != 0 ==> exists i :: 0 <= i < |t.entries| && t.entries[i].number == s)
  }

  lemma ConfigureLookups(t: Tables, e: byte, s: byte, size: byte, t': Tables)
    requires |t.u2s| == |t.s2u| == TABLE_SIZE && t' == Configure(t, e, s, size) && Plain(e) && Plain(s)
    ensures |t'.u2s| == |t'.s2u| == TABLE_SIZE
    ensures forall f: byte :: Plain(f) ==> Lookup(t'.u2s, f) == if f == e then s else Lookup(t.u2s, f)
    ensures forall f: byte :: Plain(f) ==> Lookup(t'.s2u, f) == if f == s then e else Lookup(t.s2u, f)
  {
    forall f: byte | Plain(f) ensures Lookup(t'.u2s, f) == (if f == e then s else Lookup(t.u2s, f)) && Lookup(t'.s2u, f) == (if f == s then e else Lookup(t.s2u, f)) {
      LookupPut(t.u2s, e, s, f);
      LookupPut(t.s2u, s, e, f);
    }
  }

  lemma PairSurvives(t: Tables, e: byte, s: byte, size: byte, t': Tables, f: byte, g: byte)
    requires |t.u2s| == |t.s2u| == TABLE_SIZE && t' == Configure(t, e, s, size) && Plain(e) && Plain(s)
    requires Paired(t, f, g) && f != e && g != s
    ensures Paired(t', f, g)
  {
    LookupPut(t.u2s, e, s, f);
    LookupPut(t.s2u, s, e, g);
  }

  lemma ConfigureKeepsInverse(t: Tables, e: byte, s: byte, size: byte, t': Tables)
    requires Inverse(t) && t' == Configure(t, e, s, size)
    requires Plain(e) && OnTarget(s) && Direction(s) == Direction(e)
    requires Lookup(t.u2s, e) == 0 && Lookup(t.s2u, s) == 0
    ensures Inverse(t') && Paired(t', e, s)
  {
    ConfigureLookups(t, e, s, size, t');
    forall f: byte | Plain(f) && Lookup(t'.u2s, f) != 0 ensures Paired(t', f, Lookup(t'.u2s, f)) {
      if f != e {
        PairSurvives(t, e, s, size, t', f, Lookup(t.u2s, f));
      }
    }
    forall f: byte | Plain(f) && Lookup(t'.s2u, f) != 0 ensures Paired(t', Lookup(t'.s2u, f), f) {
      if f != s {
        PairSurvives(t, e, s, size, t', Lookup(t.s2u, f), f);
      }
    }
  }

  lemma ConfigureKeepsListed(t: Tables, e: byte, s: byte, size: byte, t': Tables)
    requires |t.s2u| == TABLE_SIZE && Listed(t) && t' == Configure(t, e, s, size)
    requires Plain(e) && OnTarget(s)
    requires forall i :: 0 <= i < |t.entries| ==> Number(t.entries[i].number) != Number(s)
    ensures Listed(t')
  {
    forall f: byte | Plain(f) ensures Lookup(t'.s2u, f) == if f == s then e else Lookup(t.s2u, f) {
      LookupPut(t.s2u, s, e, f);
    }
    assert t'.entries[|t.entries|].number == s;
    forall f: byte | Plain(f) && Lookup(t'.s2u, f) != 0 ensures exists i :: 0 <= i < |t'.entries| && t'.entries[i].number == f {
      if f != s {
        var i :| 0 <= i < |t.entries| && t.entries[i].number == f;
        assert t'.entries[i].number == f;
      }
    }
  }

  /** After `k` endpoints: the usable ones among the first `k` are translated to their new address, no other address is
      translated, and each entry of the list describes one of them. */
  ghost predicate Covers(raw: seq<byte>, renumber: bool, offsets: seq<nat>, k: nat, t: Tables)
    requires InBounds(raw, offsets) && k <= |offsets|
  {
    && (forall i :: 0 <= i < k && UsableAt(raw, renumber, offsets, i) ==>
          Lookup(t.u2s, Address(raw, offsets[i])) == NewAddress(raw, renumber, offsets, i))
    && (forall e: byte :: Plain(e) && Lookup(t.u2s, e) != 0 ==> IsUsed(raw, renumber, offsets, k, e))
    && (forall j :: 0 <= j < |t.entries| ==> Describes(raw, renumber, offsets, k, t.entries[j]))
  }

  /** The address of a usable endpoint among the first `k`. */
  ghost predicate IsUsed(raw: seq<byte>, renumber: bool, offsets: seq<nat>, k: nat, e: byte)
    requires InBounds(raw, offsets) && k <= |offsets|
  {
    exists i :: 0 <= i < k && UsableAt(raw, renumber, offsets, i) && Address(raw, offsets[i]) == e
  }

  lemma UsedMore(raw: seq<byte>, renumber: bool, offsets: seq<nat>, k: nat, e: byte)
    requires InBounds(raw, offsets) && k < |offsets| && IsUsed(raw, renumber, offsets, k, e)
    ensures IsUsed(raw, renumber, offsets, k + 1, e)
  {
    var i :| 0 <= i < k && UsableAt(raw, renumber, offsets, i) && Address(raw, offsets[i]) == e;
    assert 0 <= i < k + 1;
  }

  ghost predicate Describes(raw: seq<byte>, renumber: bool, offsets: seq<nat>, k: nat, entry: Entry)
    requires InBounds(raw, offsets) && k <= |offsets|
  {
    exists i :: 0 <= i < k && UsableAt(raw, renumber, offsets, i)
             && entry == Entry(NewAddress(raw, renumber, offsets, i), XFER_INT, PacketSize(raw, offsets[i]))
  }

  /** A usable endpoint gets a number no other usable endpoint has. */
  lemma NumbersDiffer(raw: seq<byte>, renumber: bool, offsets: seq<nat>, i: nat, k: nat)
    requires InBounds(raw, offsets) && Addressed(raw, renumber, offsets) && i < k < |offsets|
    requires renumber || Fitting(raw, offsets, |offsets|)
    requires UsableAt(raw, renumber, offsets, i) && UsableAt(raw, renumber, offsets, k)
    ensures Number(NewAddress(raw, renumber, offsets, i)) != Number(NewAddress(raw, renumber, offsets, k))
  {
    if renumber {
      NewNumber(raw, offsets, i);
      NewNumber(raw, offsets, k);
    } else {
      PlainEqual(Address(raw, offsets[i]), Address(raw, offsets[k]));
    }
  }

  lemma NewNumber(raw: seq<byte>, offsets: seq<nat>, i: nat)
    requires InBounds(raw, offsets) && i < |offsets| && i < 15
    ensures var s := NewAddress(raw, true, offsets, i);
            Number(s) == i + 1 && Direction(s) == Direction(Address(raw, offsets[i])) && Plain(s)
  {
    assert (i + 1) % 256 == i + 1;
  }

  lemma NewAddressOnTarget(raw: seq<byte>, renumber: bool, offsets: seq<nat>, k: nat)
    requires InBounds(raw, offsets) && Addressed(raw, renumber, offsets) && k < |offsets|
    requires renumber || Fitting(raw, offsets, |offsets|)
    requires UsableAt(raw, renumber, offsets, k)
    ensures var s := NewAddress(raw, renumber, offsets, k); OnTarget(s) && Direction(s) == Direction(Address(raw, offsets[k]))
  {
    if renumber {
      NewNumber(raw, offsets, k);
    }
  }

  ghost predicate TablesInv(raw: seq<byte>, renumber: bool, offsets: seq<nat>, k: nat, t: Tables)
    requires InBounds(raw, offsets) && k <= |offsets|
  {
    Inverse(t) && Listed(t) && Covers(raw, renumber, offsets, k, t)
  }

  lemma NotYetTranslated(raw: seq<byte>, renumber: bool, offsets: seq<nat>, k: nat, t: Tables)
    requires InBounds(raw, offsets) && Addressed(raw, renumber, offsets) && k < |offsets| && Covers(raw, renumber, offsets, k, t)
    requires UsableAt(raw, renumber, offsets, k)
    ensures Lookup(t.u2s, Address(raw, offsets[k])) == 0
  {
  }

  lemma NumberUnused(raw: seq<byte>, renumber: bool, offsets: seq<nat>, k: nat, t: Tables)
    requires InBounds(raw, offsets) && Addressed(raw, renumber, offsets) && k < |offsets| && Covers(raw, renumber, offsets, k, t)
    requires renumber || Fitting(raw, offsets, |offsets|)
    requires UsableAt(raw, renumber, offsets, k)
    ensures forall j :: 0 <= j < |t.entries| ==> Number(t.entries[j].number) != Number(NewAddress(raw, renumber, offsets, k))
  {
    forall j | 0 <= j < |t.entries| ensures Number(t.entries[j].number) != Number(NewAddress(raw, renumber, offsets, k)) {
      assert Describes(raw, renumber, offsets, k, t.entries[j]);
      var i :| 0 <= i < k && UsableAt(raw, renumber, offsets, i)
            && t.entries[j] == Entry(NewAddress(raw, renumber, offsets, i), XFER_INT, PacketSize(raw, offsets[i]));
      NumbersDiffer(raw, renumber, offsets, i, k);
    }
  }

  lemma DescribesMore(raw: seq<byte>, renumber: bool, offsets: seq<nat>, k: nat, entry: Entry)
    requires InBounds(raw, offsets) && k < |offsets| && Describes(raw, renumber, offsets, k, entry)
    ensures Describes(raw, renumber, offsets, k + 1, entry)
  {
    var i :| 0 <= i < k && UsableAt(raw, renumber, offsets, i)
          && entry == Entry(NewAddress(raw, renumber, offsets, i), XFER_INT, PacketSize(raw, offsets[i]));
    assert 0 <= i < k + 1;
  }

  lemma CoversSkipped(raw: seq<byte>, renumber: bool, offsets: seq<nat>, k: nat, t: Tables)
    requires InBounds(raw, offsets) && Addressed(raw, renumber, offsets) && k < |offsets| && Covers(raw, renumber, offsets, k, t)
    requires !UsableAt(raw, renumber, offsets, k)
    ensures Covers(raw, renumber, offsets, k + 1, t)
  {
    forall j | 0 <= j < |t.entries| ensures Describes(raw, renumber, offsets, k + 1, t.entries[j]) {
      DescribesMore(raw, renumber, offsets, k, t.entries[j]);
    }
    forall e: byte | Plain(e) && Lookup(t.u2s, e) != 0 ensures IsUsed(raw, renumber, offsets, k + 1, e) {
      UsedMore(raw, renumber, offsets, k, e);
    }
  }

  lemma CoversConfigured(raw: seq<byte>, renumber: bool, offsets: seq<nat>, k: nat, t: Tables, t': Tables)
    requires InBounds(raw, offsets) && Addressed(raw, renumber, offsets) && k < |offsets| && Covers(raw, renumber, offsets, k, t)
    requires |t.u2s| == TABLE_SIZE && UsableAt(raw, renumber, offsets, k)
    requires t' == Configure(t, Address(raw, offsets[k]), NewAddress(raw, renumber, offsets, k), PacketSize(raw, offsets[k]))
    ensures Covers(raw, renumber, offsets, k + 1, t')
  {
    var e, s := Address(raw, offsets[k]), NewAddress(raw, renumber, offsets, k);
    forall f: byte | Plain(f) ensures Lookup(t'.u2s, f) == if f == e then s else Lookup(t.u2s, f) {
      LookupPut(t.u2s, e, s, f);
    }
    forall j | 0 <= j < |t'.entries| ensures Describes(raw, renumber, offsets, k + 1, t'.entries[j]) {
      if j < |t.entries| {
        assert t'.entries[j] == t.entries[j];
        DescribesMore(raw, renumber, offsets, k, t.entries[j]);
      } else {
        assert 0 <= k < k + 1;
      }
    }
    forall f: byte | Plain(f) && Lookup(t'.u2s, f) != 0 ensures IsUsed(raw, renumber, offsets, k + 1, f) {
      if f == e {
        assert 0 <= k < k + 1;
      } else {
        UsedMore(raw, renumber, offsets, k, f);
      }
    }
    forall i | 0 <= i < k && UsableAt(raw, renumber, offsets, i)
      ensures Lookup(t'.u2s, Address(raw, offsets[i])) == NewAddress(raw, renumber, offsets, i)
    {
      assert Address(raw, offsets[i]) != e;
    }
  }

  lemma TablesConfigured(raw: seq<byte>, renumber: bool, offsets: seq<nat>, k: nat, t: Tables, t': Tables)
    requires InBounds(raw, offsets) && Addressed(raw, renumber, offsets) && k < |offsets| && TablesInv(raw, renumber, offsets, k, t)
    requires renumber || Fitting(raw, offsets, |offsets|)
    requires UsableAt(raw, renumber, offsets, k)
    requires t' == Configure(t, Address(raw, offsets[k]), NewAddress(raw, renumber, offsets, k), PacketSize(raw, offsets[k]))
    ensures TablesInv(raw, renumber, offsets, k + 1, t')
  {
    var e, s := Address(raw, offsets[k]), NewAddress(raw, renumber, offsets, k);
    NewAddressOnTarget(raw, renumber, offsets, k);
    NotYetTranslated(raw, renumber, offsets, k, t);
    NumberUnused(raw, renumber, offsets, k, t);
    ConfigureKeepsInverse(t, e, s, PacketSize(raw, offsets[k]), t');
    ConfigureKeepsListed(t, e, s, PacketSize(raw, offsets[k]), t');
    CoversConfigured(raw, renumber, offsets, k, t, t');
  }

  lemma UnvisitedFields(raw: seq<byte>, raw': seq<byte>, renumber: bool, offsets: seq<nat>, k: nat)
    requires Apart(raw, offsets) && k < |offsets| && Rewritten(raw, raw', renumber, offsets, k)
    ensures Address(raw', offsets[k]) == Address(raw, offsets[k]) && TransferType(raw', offsets[k]) == TransferType(raw, offsets[k])
    ensures PacketSize(raw', offsets[k]) == PacketSize(raw, offsets[k])
  {
    var o := offsets[k];
    Unvisited(raw, raw', renumber, offsets, k);
    var seen, whole := raw'[o..o + ENDPOINT_SIZE], raw[o..o + ENDPOINT_SIZE];
    assert raw'[o + 3] == seen[3] == whole[3] == raw[o + 3];
    assert raw'[o + 4] == seen[4] == whole[4] == raw[o + 4];
    assert raw'[o + 5] == seen[5] == whole[5] == raw[o + 5];
  }

  /** What the round for the k-th endpoint sees is what the original descriptor says. */
  lemma RoundSees(raw: seq<byte>, f: Fix, renumber: bool, offsets: seq<nat>, k: nat, f': Fix)
    requires Apart(raw, offsets) && PlainEndpoints(raw, offsets) && k < |offsets| < 256 && ProgressedTo(raw, f, renumber, offsets, k)
    requires f' == FixOne(0, renumber, f, offsets[k])
    ensures f'.tables == if UsableAt(raw, renumber, offsets, k)
                         then Configure(f.tables, Address(raw, offsets[k]), NewAddress(raw, renumber, offsets, k), PacketSize(raw, offsets[k]))
                         else f.tables
  {
    UnvisitedFields(raw, f.raw, renumber, offsets, k);
    RoundFields(raw, f, renumber, offsets, k, f');
  }

  lemma RoundFields(raw: seq<byte>, f: Fix, renumber: bool, offsets: seq<nat>, k: nat, f': Fix)
    requires InBounds(raw, offsets) && k < |offsets| < 256 && |f.raw| == |raw| && Plain(Address(raw, offsets[k]))
    requires f.number == (if renumber then k % 256 else 0) && f' == FixOne(0, renumber, f, offsets[k])
    requires Address(f.raw, offsets[k]) == Address(raw, offsets[k]) && TransferType(f.raw, offsets[k]) == TransferType(raw, offsets[k])
    requires PacketSize(f.raw, offsets[k]) == PacketSize(raw, offsets[k])
    ensures f'.tables == if UsableAt(raw, renumber, offsets, k)
                         then Configure(f.tables, Address(raw, offsets[k]), NewAddress(raw, renumber, offsets, k), PacketSize(raw, offsets[k]))
                         else f.tables
  {
    assert renumber ==> (f.number + 1) % 256 == k + 1;
  }

  lemma TablesStep(raw: seq<byte>, renumber: bool, offsets: seq<nat>, k: nat, start: Fix, before: Fix) returns (f: Fix)
    requires Apart(raw, offsets) && Addressed(raw, renumber, offsets) && k < |offsets| && start == Fix(raw, 0, EmptyTables())
    requires renumber || Fitting(raw, offsets, |offsets|)
    requires before == FixFirst(0, renumber, start, offsets, k) && TablesInv(raw, renumber, offsets, k, before.tables)
    ensures f == FixFirst(0, renumber, start, offsets, k + 1) && TablesInv(raw, renumber, offsets, k + 1, f.tables)
  {
    BytesAfter(0, renumber, raw, EmptyTables(), offsets, k);
    f := FixOne(0, renumber, before, offsets[k]);
    TablesNext(raw, renumber, offsets, k, before, f);
  }

  lemma {:induction false} TablesReached(raw: seq<byte>, renumber: bool, offsets: seq<nat>, k: nat, start: Fix) returns (f: Fix)
    requires Apart(raw, offsets) && Addressed(raw, renumber, offsets) && k <= |offsets| && start == Fix(raw, 0, EmptyTables())
    requires renumber || Fitting(raw, offsets, |offsets|)
    ensures f == FixFirst(0, renumber, start, offsets, k) && TablesInv(raw, renumber, offsets, k, f.tables)
    decreases k, 0
  {
    if k == 0 {
      f := start;
      TablesAtFirst(raw, renumber, offsets, k, f.tables);
    } else {
      var j := k - 1;
      f := TablesBeyond(raw, renumber, offsets, j, start);
    }
  }

  lemma {:induction false} TablesBeyond(raw: seq<byte>, renumber: bool, offsets: seq<nat>, k: nat, start: Fix) returns (f: Fix)
    requires Apart(raw, offsets) && Addressed(raw, renumber, offsets) && k < |offsets| && start == Fix(raw, 0, EmptyTables())
    requires renumber || Fitting(raw, offsets, |offsets|)
    ensures f == FixFirst(0, renumber, start, offsets, k + 1) && TablesInv(raw, renumber, offsets, k + 1, f.tables)
    decreases k, 1
  {
    var before := TablesReached(raw, renumber, offsets, k, start);
    f := TablesStep(raw, renumber, offsets, k, start, before);
  }

  lemma TablesAfter(raw: seq<byte>, renumber: bool, offsets: seq<nat>, k: nat)
    requires Apart(raw, offsets) && Addressed(raw, renumber, offsets) && k <= |offsets|
    requires renumber || Fitting(raw, offsets, |offsets|)
    ensures TablesInv(raw, renumber, offsets, k, FixFirst(0, renumber, Fix(raw, 0, EmptyTables()), offsets, k).tables)
  {
    var f := TablesReached(raw, renumber, offsets, k, Fix(raw, 0, EmptyTables()));
  }

  lemma TablesAtFirst(raw: seq<byte>, renumber: bool, offsets: seq<nat>, k: nat, t: Tables)
    requires InBounds(raw, offsets) && k == 0 && t == EmptyTables()
    ensures TablesInv(raw, renumber, offsets, k, t)
  {
    assert forall e :: Lookup(t.u2s, e) == 0 && Lookup(t.s2u, e) == 0;
  }

  lemma TablesNext(raw: seq<byte>, renumber: bool, offsets: seq<nat>, k: nat, f: Fix, f': Fix)
    requires Apart(raw, offsets) && Addressed(raw, renumber, offsets) && k < |offsets| < 256
    requires renumber || Fitting(raw, offsets, |offsets|)
    requires ProgressedTo(raw, f, renumber, offsets, k) && TablesInv(raw, renumber, offsets, k, f.tables)
    requires f' == FixOne(0, renumber, f, offsets[k])
    ensures TablesInv(raw, renumber, offsets, k + 1, f'.tables)
  {
    RoundSees(raw, f, renumber, offsets, k, f');
    if UsableAt(raw, renumber, offsets, k) {
      TablesConfigured(raw, renumber, offsets, k, f.tables, f'.tables);
    } else {
      CoversSkipped(raw, renumber, offsets, k, f.tables);
    }
  }

  // ----- the result -----

  /** The tables that renumbering configuration 0 leaves. */
  function FinalTables(raw: seq<byte>, offsets: seq<nat>): Tables
    requires InBounds(raw, offsets)
  {
    FixConfiguration(0, raw, EmptyTables(), offsets).tables
  }

  /** The two tables are mutually inverse and keep directions; each usable endpoint of the device is translated to its new
      address, no other address is translated, and each entry of the list describes one of them. */
  lemma TranslationIsABijection(raw: seq<byte>, offsets: seq<nat>)
    requires Apart(raw, offsets) && Addressed(raw, Renumbers(raw, offsets), offsets)
    ensures TablesInv(raw, Renumbers(raw, offsets), offsets, |offsets|, FinalTables(raw, offsets))
  {
    KeepsNumbersIff(raw, offsets);
    TablesAfter(raw, Renumbers(raw, offsets), offsets, |offsets|);
  }

  /** However many endpoints the device has and whether or not they are renumbered, the list has at most six
      entries, with six different numbers from 1 to 6, of the interrupt type and of at most 64 bytes. */
  lemma ListFitsTarget(raw: seq<byte>, offsets: seq<nat>)
    requires Apart(raw, offsets) && Addressed(raw, Renumbers(raw, offsets), offsets)
    ensures var entries := FinalTables(raw, offsets).entries;
            && |entries| <= MAX_ENDPOINTS
            && (forall i :: 0 <= i < |entries| ==>
                  1 <= Number(entries[i].number) <= MAX_ENDPOINTS && entries[i].kind == XFER_INT && entries[i].size <= MAX_PAYLOAD_SIZE_EP)
            && (forall i, j :: 0 <= i < j < |entries| ==> Number(entries[i].number) != Number(entries[j].number))
  {
    TranslationIsABijection(raw, offsets);
    AtMostSix(FinalTables(raw, offsets));
    var t, renumber := FinalTables(raw, offsets), Renumbers(raw, offsets);
    forall i | 0 <= i < |t.entries| ensures t.entries[i].kind == XFER_INT && t.entries[i].size <= MAX_PAYLOAD_SIZE_EP {
      assert Describes(raw, renumber, offsets, |offsets|, t.entries[i]);
    }
  }

  lemma AtMostSix(t: Tables)
    requires Listed(t)
    ensures |t.entries| <= MAX_ENDPOINTS
  {
    var numbers := seq(|t.entries|, i requires 0 <= i < |t.entries| && Plain(t.entries[i].number) => Number(t.entries[i].number) - 1);
    Pigeonhole(numbers, MAX_ENDPOINTS);
  }

  // ----- devices that repeat an address -----

  /** The entries that the first `k` endpoint descriptors make, with repetitions. */
  function Entered(raw: seq<byte>, renumber: bool, offsets: seq<nat>, k: nat): seq<Entry>
    requires InBounds(raw, offsets) && k <= |offsets|
  {
    if k == 0 then []
    else Entered(raw, renumber, offsets, k - 1)
         + (if UsableAt(raw, renumber, offsets, k - 1) then
              [Entry(NewAddress(raw, renumber, offsets, k - 1), XFER_INT, PacketSize(raw, offsets[k - 1]))]
            else [])
  }

  /** The target address of each usable endpoint among the first `k` leads back to its own. */
  ghost predicate LeadsBack(raw: seq<byte>, renumber: bool, offsets: seq<nat>, k: nat, t: Tables)
    requires InBounds(raw, offsets) && k <= |offsets|
  {
    forall i :: 0 <= i < k && UsableAt(raw, renumber, offsets, i) ==>
      Lookup(t.s2u, NewAddress(raw, renumber, offsets, i)) == Address(raw, offsets[i])
  }

  /** Two usable endpoints with the same new address have the same original one. */
  lemma NewAddressDetermines(raw: seq<byte>, renumber: bool, offsets: seq<nat>, i: nat, k: nat)
    requires InBounds(raw, offsets) && PlainEndpoints(raw, offsets) && i < |offsets| && k < |offsets|
    requires UsableAt(raw, renumber, offsets, i) && UsableAt(raw, renumber, offsets, k)
    ensures Plain(NewAddress(raw, renumber, offsets, i))
    ensures NewAddress(raw, renumber, offsets, i) == NewAddress(raw, renumber, offsets, k) ==> Address(raw, offsets[i]) == Address(raw, offsets[k])
  {
    if renumber {
      NewNumber(raw, offsets, i);
      NewNumber(raw, offsets, k);
    }
  }

  lemma LeadsBackConfigured(raw: seq<byte>, renumber: bool, offsets: seq<nat>, k: nat, t: Tables, t': Tables)
    requires InBounds(raw, offsets) && PlainEndpoints(raw, offsets) && k < |offsets| && LeadsBack(raw, renumber, offsets, k, t)
    requires |t.s2u| == TABLE_SIZE && UsableAt(raw, renumber, offsets, k)
    requires t' == Configure(t, Address(raw, offsets[k]), NewAddress(raw, renumber, offsets, k), PacketSize(raw, offsets[k]))
    ensures LeadsBack(raw, renumber, offsets, k + 1, t')
  {
    var e, s := Address(raw, offsets[k]), NewAddress(raw, renumber, offsets, k);
    forall i | 0 <= i < k + 1 && UsableAt(raw, renumber, offsets, i)
      ensures Lookup(t'.s2u, NewAddress(raw, renumber, offsets, i)) == Address(raw, offsets[i])
    {
      NewAddressDetermines(raw, renumber, offsets, i, k);
      NewAddressDetermines(raw, renumber, offsets, k, k);
      LookupPut(t.s2u, s, e, NewAddress(raw, renumber, offsets, i));
    }
  }

  /** Whether or not addresses are repeated: the list has one entry for each usable endpoint descriptor, in tree order, and
      the second table leads back from each of them. */
  ghost predicate RepeatedInv(raw: seq<byte>, renumber: bool, offsets: seq<nat>, k: nat, t: Tables)
    requires InBounds(raw, offsets) && k <= |offsets|
  {
    |t.s2u| == |t.u2s| == TABLE_SIZE && t.entries == Entered(raw, renumber, offsets, k) && LeadsBack(raw, renumber, offsets, k, t)
  }

  lemma RepeatedNext(raw: seq<byte>, renumber: bool, offsets: seq<nat>, k: nat, f: Fix, f': Fix)
    requires Apart(raw, offsets) && PlainEndpoints(raw, offsets) && k < |offsets|
    requires ProgressedTo(raw, f, renumber, offsets, k) && RepeatedInv(raw, renumber, offsets, k, f.tables)
    requires f' == FixOne(0, renumber, f, offsets[k])
    ensures RepeatedInv(raw, renumber, offsets, k + 1, f'.tables)
  {
    RoundSees(raw, f, renumber, offsets, k, f');
    RepeatedRound(raw, renumber, offsets, k, f.tables, f'.tables);
  }

  lemma RepeatedRound(raw: seq<byte>, renumber: bool, offsets: seq<nat>, k: nat, t: Tables, t': Tables)
    requires InBounds(raw, offsets) && PlainEndpoints(raw, offsets) && k < |offsets| && RepeatedInv(raw, renumber, offsets, k, t)
    requires t' == if UsableAt(raw, renumber, offsets, k)
                   then Configure(t, Address(raw, offsets[k]), NewAddress(raw, renumber, offsets, k), PacketSize(raw, offsets[k]))
                   else t
    ensures RepeatedInv(raw, renumber, offsets, k + 1, t')
  {
    if UsableAt(raw, renumber, offsets, k) {
      LeadsBackConfigured(raw, renumber, offsets, k, t, t');
    } else {
      assert t.entries + [] == t.entries;
    }
  }

  lemma RepeatedStep(raw: seq<byte>, renumber: bool, offsets: seq<nat>, k: nat, start: Fix, before: Fix) returns (f: Fix)
    requires Apart(raw, offsets) && PlainEndpoints(raw, offsets) && k < |offsets| && start == Fix(raw, 0, EmptyTables())
    requires before == FixFirst(0, renumber, start, offsets, k) && RepeatedInv(raw, renumber, offsets, k, before.tables)
    ensures f == FixFirst(0, renumber, start, offsets, k + 1) && RepeatedInv(raw, renumber, offsets, k + 1, f.tables)
  {
    BytesAfter(0, renumber, raw, EmptyTables(), offsets, k);
    f := FixOne(0, renumber, before, offsets[k]);
    RepeatedNext(raw, renumber, offsets, k, before, f);
  }

  lemma {:induction false} RepeatedAfter(raw: seq<byte>, renumber: bool, offsets: seq<nat>, k: nat, start: Fix) returns (f: Fix)
    requires Apart(raw, offsets) && PlainEndpoints(raw, offsets) && k <= |offsets| && start == Fix(raw, 0, EmptyTables())
    ensures f == FixFirst(0, renumber, start, offsets, k) && RepeatedInv(raw, renumber, offsets, k, f.tables)
  {
    if k == 0 {
      f := start;
      RepeatedAtFirst(raw, renumber, offsets);
    } else {
      var before := RepeatedAfter(raw, renumber, offsets, k - 1, start);
      f := RepeatedStep(raw, renumber, offsets, k - 1, start, before);
    }
  }

  lemma RepeatedAtFirst(raw: seq<byte>, renumber: bool, offsets: seq<nat>)
    requires InBounds(raw, offsets)
    ensures RepeatedInv(raw, renumber, offsets, 0, EmptyTables())
  {
  }

  /** The list is as long as there are usable endpoint descriptors, counted with repetition; endpoints[6] is not overrun
      exactly when they are at most six. */
  lemma ListIsEntered(raw: seq<byte>, offsets: seq<nat>)
    requires Apart(raw, offsets) && PlainEndpoints(raw, offsets)
    ensures FinalTables(raw, offsets).entries == Entered(raw, Renumbers(raw, offsets), offsets, |offsets|)
  {
    var f := RepeatedAfter(raw, Renumbers(raw, offsets), offsets, |offsets|, Fix(raw, 0, EmptyTables()));
  }

  lemma {:induction false} EnteredGrows(raw: seq<byte>, renumber: bool, offsets: seq<nat>, k: nat, m: nat)
    requires InBounds(raw, offsets) && k <= m <= |offsets|
    ensures Entered(raw, renumber, offsets, k) <= Entered(raw, renumber, offsets, m)
    decreases m
  {
    if k < m {
      EnteredGrows(raw, renumber, offsets, k, m - 1);
    }
  }

  /** The i-th endpoint descriptor has an entry of its own. */
  lemma {:induction false} EntryOfDescriptor(raw: seq<byte>, renumber: bool, offsets: seq<nat>, i: nat, m: nat)
    requires InBounds(raw, offsets) && i < m <= |offsets| && UsableAt(raw, renumber, offsets, i)
    ensures var j := |Entered(raw, renumber, offsets, i)|;
            && j < |Entered(raw, renumber, offsets, m)|
            && Entered(raw, renumber, offsets, m)[j] == Entry(NewAddress(raw, renumber, offsets, i), XFER_INT, PacketSize(raw, offsets[i]))
  {
    EnteredGrows(raw, renumber, offsets, i + 1, m);
  }

  lemma RenumberedTwice(raw: seq<byte>, offsets: seq<nat>, i: nat, j: nat, t: Tables)
    requires InBounds(raw, offsets) && PlainEndpoints(raw, offsets) && i < j < |offsets|
    requires UsableAt(raw, true, offsets, i) && UsableAt(raw, true, offsets, j) && Address(raw, offsets[i]) == Address(raw, offsets[j])
    requires LeadsBack(raw, true, offsets, |offsets|, t)
    ensures !Inverse(t)
  {
    var r, s, e := NewAddress(raw, true, offsets, i), NewAddress(raw, true, offsets, j), Address(raw, offsets[i]);
    NewNumber(raw, offsets, i);
    NewNumber(raw, offsets, j);
    assert r != s && e != 0 && Lookup(t.s2u, r) == e && Lookup(t.s2u, s) == e;
    assert !Paired(t, e, r) || !Paired(t, e, s);
  }

  lemma KeptTwice(raw: seq<byte>, offsets: seq<nat>, i: nat, j: nat, t: Tables)
    requires InBounds(raw, offsets) && PlainEndpoints(raw, offsets) && i < j < |offsets|
    requires UsableAt(raw, false, offsets, i) && UsableAt(raw, false, offsets, j) && Address(raw, offsets[i]) == Address(raw, offsets[j])
    requires t.entries == Entered(raw, false, offsets, |offsets|)
    ensures !Listed(t)
  {
    EntryOfDescriptor(raw, false, offsets, i, |offsets|);
    EntryOfDescriptor(raw, false, offsets, j, |offsets|);
    EnteredGrows(raw, false, offsets, i + 1, j);
    var a, b := |Entered(raw, false, offsets, i)|, |Entered(raw, false, offsets, j)|;
    assert a < b && t.entries[a].number == t.entries[b].number;
  }

  /** A repeated address of usable endpoints spoils the tables: renumbered, it stands for two target addresses but is
      translated to one; kept, it is in the list twice. */
  lemma RepeatedSpoils(raw: seq<byte>, offsets: seq<nat>, i: nat, j: nat)
    requires Apart(raw, offsets) && PlainEndpoints(raw, offsets) && i < j < |offsets|
    requires UsableAt(raw, Renumbers(raw, offsets), offsets, i) && UsableAt(raw, Renumbers(raw, offsets), offsets, j)
    requires Address(raw, offsets[i]) == Address(raw, offsets[j])
    ensures !(Inverse(FinalTables(raw, offsets)) && Listed(FinalTables(raw, offsets)))
  {
    var f := RepeatedAfter(raw, Renumbers(raw, offsets), offsets, |offsets|, Fix(raw, 0, EmptyTables()));
    if Renumbers(raw, offsets) {
      RenumberedTwice(raw, offsets, i, j, f.tables);
    } else {
      KeptTwice(raw, offsets, i, j, f.tables);
    }
  }

  /** The tables are mutually inverse, and the list holds no number twice, exactly when no two usable endpoint descriptors
      have the same address. */
  lemma BijectionIff(raw: seq<byte>, offsets: seq<nat>)
    requires Apart(raw, offsets) && PlainEndpoints(raw, offsets)
    ensures Inverse(FinalTables(raw, offsets)) && Listed(FinalTables(raw, offsets)) <==> UsedOnce(raw, Renumbers(raw, offsets), offsets)
  {
    var renumber := Renumbers(raw, offsets);
    if UsedOnce(raw, renumber, offsets) {
      TranslationIsABijection(raw, offsets);
    } else {
      var i, j :| 0 <= i < j < |offsets| && UsableAt(raw, renumber, offsets, i) && UsableAt(raw, renumber, offsets, j)
               && Address(raw, offsets[i]) == Address(raw, offsets[j]);
      RepeatedSpoils(raw, offsets, i, j);
    }
  }

  /** What the arrays of fix_endpoints have room for: plain addresses, and at most six usable endpoint descriptors, counted
      with repetition. */
  predicate FitsArrays(raw: seq<byte>, offsets: seq<nat>)
    requires InBounds(raw, offsets)
  {
    PlainEndpoints(raw, offsets) && |Entered(raw, Renumbers(raw, offsets), offsets, |offsets|)| <= MAX_ENDPOINTS
  }

  /** Without repeated addresses there is always room. */
  lemma AddressedFits(raw: seq<byte>, offsets: seq<nat>)
    requires Apart(raw, offsets) && Addressed(raw, Renumbers(raw, offsets), offsets)
    ensures FitsArrays(raw, offsets)
  {
    ListFitsTarget(raw, offsets);
    ListIsEntered(raw, offsets);
  }

  lemma {:induction false} AllEntered(raw: seq<byte>, renumber: bool, offsets: seq<nat>, k: nat)
    requires InBounds(raw, offsets) && k <= |offsets| && forall i :: 0 <= i < |offsets| ==> UsableAt(raw, renumber, offsets, i)
    ensures |Entered(raw, renumber, offsets, k)| == k
  {
    if k > 0 {
      AllEntered(raw, renumber, offsets, k - 1);
    }
  }

  /** Alternate settings that all use the same interrupt endpoint, which the target has: numbers are kept, and each setting
      adds an entry, so that the seventh one is written past the end of the list. */
  lemma SettingsOverrun(raw: seq<byte>, offsets: seq<nat>, e: byte)
    requires Apart(raw, offsets) && |offsets| < 256 && OnTarget(e)
    requires forall i :: 0 <= i < |offsets| ==> Address(raw, offsets[i]) == e
    requires forall i :: 0 <= i < |offsets| ==> TransferType(raw, offsets[i]) == XFER_INT && PacketSize(raw, offsets[i]) <= MAX_PAYLOAD_SIZE_EP
    ensures !Renumbers(raw, offsets) && |FinalTables(raw, offsets).entries| == |offsets|
  {
    KeepsNumbersIff(raw, offsets);
    ListIsEntered(raw, offsets);
    AllEntered(raw, false, offsets, |offsets|);
  }
}
