/** What renumbering keeps and what it establishes. */
module RenumberProof {
  import opened Protocol
  import opened Wrappers
  import opened Proxy
  import opened RawConfig
  import opened Renumber

  // ----- the endpoint descriptors of a parsed configuration do not overlap -----

  predicate Spaced(es: seq<nat>) {
    forall i, j :: 0 <= i < j < |es| ==> es[i] + ENDPOINT_SIZE <= es[j]
  }

  lemma SpacedPrepended(p: nat, later: seq<nat>)
    requires Spaced(later) && forall x :: x in later ==> p + ENDPOINT_SIZE <= x
    ensures Spaced([p] + later)
  {
    var es := [p] + later;
    forall i, j | 0 <= i < j < |es| ensures es[i] + ENDPOINT_SIZE <= es[j] {
      assert es[j] == later[j - 1] && es[j] in later;
    }
  }

  lemma {:induction false} OffsetsWithin(raw: seq<byte>, p: nat, end: nat, x: nat)
    requires end <= |raw| && Chained(raw, p, end) && x in EndpointOffsets(raw, p, end)
    ensures p <= x && x + ENDPOINT_SIZE <= end && raw[x + 1] == DT_ENDPOINT
    decreases end - p
  {
    if p < end {
      var later := EndpointOffsets(raw, p + raw[p], end);
      if x in later {
        OffsetsWithin(raw, p + raw[p], end, x);
      }
    }
  }

  lemma {:induction false} OffsetsSpaced(raw: seq<byte>, p: nat, end: nat)
    requires end <= |raw| && Chained(raw, p, end)
    ensures Spaced(EndpointOffsets(raw, p, end))
    decreases end - p
  {
    if p < end {
      var later := EndpointOffsets(raw, p + raw[p], end);
      OffsetsSpaced(raw, p + raw[p], end);
      if raw[p + 1] == DT_ENDPOINT {
        forall x | x in later ensures p + ENDPOINT_SIZE <= x {
          OffsetsWithin(raw, p + raw[p], end, x);
        }
        SpacedPrepended(p, later);
      } else {
        assert [] + later == later;
      }
    }
  }

  lemma OffsetsRange(raw: seq<byte>, p: nat, end: nat)
    requires end <= |raw| && Chained(raw, p, end)
    ensures forall x :: x in EndpointOffsets(raw, p, end) ==> p <= x && x + ENDPOINT_SIZE <= end && raw[x + 1] == DT_ENDPOINT
    ensures Spaced(EndpointOffsets(raw, p, end))
  {
    forall x | x in EndpointOffsets(raw, p, end) ensures p <= x && x + ENDPOINT_SIZE <= end && raw[x + 1] == DT_ENDPOINT {
      OffsetsWithin(raw, p, end, x);
    }
    OffsetsSpaced(raw, p, end);
  }

  lemma {:induction false} CountOfDistinct(s: seq<nat>, x: nat)
    requires forall i, j :: 0 <= i < j < |s| ==> s[i] != s[j]
    ensures multiset(s)[x] <= 1
  {
    if s != [] {
      CountOfDistinct(s[1..], x);
      assert s == [s[0]] + s[1..];
      if s[0] == x {
        assert x !in s[1..];
      }
    }
  }

  lemma CountOfRepeated(s: seq<nat>, i: nat, j: nat)
    requires i < j < |s| && s[i] == s[j]
    ensures multiset(s)[s[i]] >= 2
  {
    assert s == s[..j] + [s[j]] + s[j + 1..];
    assert s[i] == s[..j][i];
    assert s[i] in s[..j];
    assert multiset(s) == multiset(s[..j]) + multiset{s[j]} + multiset(s[j + 1..]);
  }

  lemma ApartFromBag(raw: seq<byte>, offsets: seq<nat>, es: seq<nat>)
    requires multiset(offsets) == multiset(es)
    requires forall x :: x in es ==> x + ENDPOINT_SIZE <= |raw|
    requires Spaced(es)
    ensures Apart(raw, offsets)
    ensures forall i :: 0 <= i < |offsets| ==> offsets[i] in es
  {
    forall i | 0 <= i < |offsets| ensures offsets[i] in es {
      assert offsets[i] in multiset(offsets);
    }
    forall i, j | 0 <= i < |offsets| && 0 <= j < |offsets| && i != j
      ensures offsets[i] + ENDPOINT_SIZE <= offsets[j] || offsets[j] + ENDPOINT_SIZE <= offsets[i]
    {
      if offsets[i] == offsets[j] {
        CountOfRepeated(offsets, if i < j then i else j, if i < j then j else i);
        CountOfDistinct(es, offsets[i]);
        assert false;
      }
      var a :| 0 <= a < |es| && es[a] == offsets[i];
      var b :| 0 <= b < |es| && es[b] == offsets[j];
    }
  }

  lemma TreeApart(raw: seq<byte>, tree: Tree)
    requires WellFormed(raw) && Parse(raw) == Some(tree)
    ensures Apart(raw, TreeEndpoints(tree))
    ensures forall i :: 0 <= i < |TreeEndpoints(tree)| ==> TreeEndpoints(tree)[i] in EndpointOffsets(raw, raw[0], TotalLength(raw))
  {
    ParseConserves(raw);
    OffsetsRange(raw, raw[0], TotalLength(raw));
    ApartFromBag(raw, TreeEndpoints(tree), EndpointOffsets(raw, raw[0], TotalLength(raw)));
  }

  // ----- rewriting commutes with parsing -----

  /** Between `p` and `end`, only address bytes of endpoint descriptors differ. */
  ghost predicate OnlyAddresses(raw: seq<byte>, raw': seq<byte>, p: nat, end: nat)
    requires end <= |raw| && Chained(raw, p, end)
  {
    |raw'| == |raw| && forall j :: p <= j < end && raw'[j] != raw[j] ==> j - 2 in EndpointOffsets(raw, p, end)
  }

  lemma OffsetsFirst(raw: seq<byte>, p: nat, end: nat, q: nat, x: nat)
    requires end <= |raw| && Chained(raw, p, end) && p < end && q == p + raw[p]
    ensures Chained(raw, q, end) && p + 2 <= q
    ensures x in EndpointOffsets(raw, p, end) <==> (raw[p + 1] == DT_ENDPOINT && x == p) || x in EndpointOffsets(raw, q, end)
    ensures x in EndpointOffsets(raw, q, end) ==> q <= x
  {
    if x in EndpointOffsets(raw, q, end) {
      OffsetsWithin(raw, q, end, x);
    }
  }

  lemma UnchangedAt(raw: seq<byte>, raw': seq<byte>, p: nat, end: nat, j: nat)
    requires end <= |raw| && Chained(raw, p, end) && p < end && OnlyAddresses(raw, raw', p, end)
    requires p <= j < p + raw[p] && (j != p + 2 || raw[p + 1] != DT_ENDPOINT)
    ensures j < end && raw'[j] == raw[j]
  {
    if raw'[j] != raw[j] && j >= 2 {
      OffsetsFirst(raw, p, end, p + raw[p], j - 2);
    }
  }

  lemma OnlyAddressesHere(raw: seq<byte>, raw': seq<byte>, p: nat, end: nat)
    requires end <= |raw| && Chained(raw, p, end) && p < end && OnlyAddresses(raw, raw', p, end)
    ensures raw'[p] == raw[p] && raw'[p + 1] == raw[p + 1]
    ensures raw[p + 1] == DT_INTERFACE ==> raw'[p + 2] == raw[p + 2] && raw'[p + 3] == raw[p + 3]
  {
    UnchangedAt(raw, raw', p, end, p);
    UnchangedAt(raw, raw', p, end, p + 1);
    if raw[p + 1] == DT_INTERFACE {
      UnchangedAt(raw, raw', p, end, p + 2);
      UnchangedAt(raw, raw', p, end, p + 3);
    }
  }

  lemma OnlyAddressesLater(raw: seq<byte>, raw': seq<byte>, p: nat, end: nat, q: nat)
    requires end <= |raw| && Chained(raw, p, end) && p < end && OnlyAddresses(raw, raw', p, end) && q == p + raw[p]
    ensures OnlyAddresses(raw, raw', q, end)
  {
    forall j | q <= j < end && raw'[j] != raw[j] ensures j - 2 in EndpointOffsets(raw, q, end) {
      OffsetsFirst(raw, p, end, q, j - 2);
    }
  }

  predicate CurrentKept(raw: seq<byte>, raw': seq<byte>, w: Walker) {
    w.current.Some? ==>
      && w.current.value + 3 < |raw| == |raw'|
      && raw'[w.current.value + 2] == raw[w.current.value + 2] && raw'[w.current.value + 3] == raw[w.current.value + 3]
  }

  lemma VisitCommutes(raw: seq<byte>, raw': seq<byte>, w: Walker, p: nat)
    requires |raw'| == |raw| && p + 2 <= |raw| && (raw[p + 1] == DT_INTERFACE ==> p + INTERFACE_SIZE <= |raw|)
    requires raw'[p + 1] == raw[p + 1] && (raw[p + 1] == DT_INTERFACE ==> raw'[p + 2] == raw[p + 2] && raw'[p + 3] == raw[p + 3])
    requires CurrentKept(raw, raw', w)
    ensures Visit(raw', w, p) == Visit(raw, w, p)
    ensures Visit(raw, w, p).Some? ==> CurrentKept(raw, raw', Visit(raw, w, p).value)
  {
  }

  lemma {:induction false} ChainCommutes(raw: seq<byte>, raw': seq<byte>, p: nat, end: nat)
    requires end <= |raw| && Chained(raw, p, end) && OnlyAddresses(raw, raw', p, end)
    ensures Chained(raw', p, end)
    decreases end - p
  {
    if p < end {
      OnlyAddressesHere(raw, raw', p, end);
      OnlyAddressesLater(raw, raw', p, end, p + raw[p]);
      ChainCommutes(raw, raw', p + raw[p], end);
    }
  }

  lemma WalkNext(raw: seq<byte>, w: Walker, p: nat, end: nat, q: nat)
    requires end <= |raw| && Chained(raw, p, end) && p < end && q == p + raw[p]
    ensures Chained(raw, q, end)
    ensures Walk(raw, w, p, end) == match Visit(raw, w, p) case None => None case Some(w') => Walk(raw, w', q, end)
  {
  }

  lemma {:induction false} WalkCommutes(raw: seq<byte>, raw': seq<byte>, w: Walker, p: nat, end: nat)
    requires end <= |raw| == |raw'| && Chained(raw, p, end) && Chained(raw', p, end)
    requires OnlyAddresses(raw, raw', p, end) && CurrentKept(raw, raw', w)
    ensures Walk(raw', w, p, end) == Walk(raw, w, p, end)
    decreases end - p
  {
    if p < end {
      var q := p + raw[p];
      OnlyAddressesHere(raw, raw', p, end);
      OnlyAddressesLater(raw, raw', p, end, q);
      VisitCommutes(raw, raw', w, p);
      WalkNext(raw, w, p, end, q);
      WalkNext(raw', w, p, end, q);
      if Visit(raw, w, p).Some? {
        WalkCommutes(raw, raw', Visit(raw, w, p).value, q, end);
      }
    }
  }

  lemma ParseUnchanged(raw: seq<byte>, raw': seq<byte>)
    requires WellFormed(raw) && |raw'| == |raw|
    requires forall j :: 0 <= j < |raw| && raw'[j] != raw[j] ==> j - 2 in EndpointOffsets(raw, raw[0], TotalLength(raw))
    ensures WellFormed(raw') && raw'[..CONFIG_SIZE] == raw[..CONFIG_SIZE] && Parse(raw') == Parse(raw)
  {
    OffsetsRange(raw, raw[0], TotalLength(raw));
    forall j | 0 <= j < CONFIG_SIZE ensures raw'[j] == raw[j] {
      assert j - 2 !in EndpointOffsets(raw, raw[0], TotalLength(raw));
    }
    assert raw'[0] == raw[0] && raw'[2] == raw[2] && raw'[3] == raw[3] && raw'[4] == raw[4];
    ChainCommutes(raw, raw', raw[0], TotalLength(raw));
    WalkCommutes(raw, raw', Walker(EmptyTree(raw[4]), None), raw[0], TotalLength(raw));
  }

  lemma NotRenumbered(raw: seq<byte>, raw': seq<byte>, offsets: seq<nat>)
    requires Apart(raw, offsets) && Rewritten(raw, raw', false, offsets, |offsets|)
    ensures raw' == raw
  {
    assert forall i :: 0 <= i < |offsets| ==> NewAddress(raw, false, offsets, i) == raw[offsets[i] + 2];
  }

  lemma NumberedAddress(address: byte, number: byte)
    requires number < 128
    ensures Direction(WithNumber(address, number)) == Direction(address) && WithNumber(address, number) % 128 == number
  {
  }

  lemma RewrittenAddress(renumber: bool, address: byte, address': byte, number: nat)
    requires 1 <= number < 128
    requires address' == if renumber then WithNumber(address, number % 256) else address
    ensures Direction(address') == Direction(address)
    ensures renumber ==> address' % 128 == number
  {
    if renumber {
      assert number % 256 == number;
      NumberedAddress(address, number);
    }
  }

  lemma RewrittenAddresses(raw: seq<byte>, raw': seq<byte>, renumber: bool, offsets: seq<nat>)
    requires Apart(raw, offsets) && Rewritten(raw, raw', renumber, offsets, |offsets|)
    ensures !renumber ==> raw' == raw
    ensures |offsets| < 128 ==> forall i :: 0 <= i < |offsets| ==>
              && Direction(Address(raw', offsets[i])) == Direction(Address(raw, offsets[i]))
              && (renumber ==> Address(raw', offsets[i]) % 128 == i + 1)
  {
    if !renumber {
      NotRenumbered(raw, raw', offsets);
    }
    if |offsets| < 128 {
      forall i | 0 <= i < |offsets|
        ensures Direction(Address(raw', offsets[i])) == Direction(Address(raw, offsets[i])) && (renumber ==> Address(raw', offsets[i]) % 128 == i + 1)
      {
        assert raw'[offsets[i] + 2] == NewAddress(raw, renumber, offsets, i);
        RewrittenAddress(renumber, Address(raw, offsets[i]), Address(raw', offsets[i]), i + 1);
      }
    }
  }

  lemma RewrittenParses(raw: seq<byte>, raw': seq<byte>, renumber: bool, tree: Tree, offsets: seq<nat>)
    requires WellFormed(raw) && Parse(raw) == Some(tree) && offsets == TreeEndpoints(tree)
    requires Apart(raw, offsets) && Rewritten(raw, raw', renumber, offsets, |offsets|)
    ensures WellFormed(raw') && Parse(raw') == Some(tree)
  {
    TreeApart(raw, tree);
    ChangedAtAddresses(raw, raw', renumber, offsets, EndpointOffsets(raw, raw[0], TotalLength(raw)));
    ParseUnchanged(raw, raw');
  }

  lemma ChangedAtAddresses(raw: seq<byte>, raw': seq<byte>, renumber: bool, offsets: seq<nat>, es: seq<nat>)
    requires InBounds(raw, offsets) && Rewritten(raw, raw', renumber, offsets, |offsets|) && (forall i :: 0 <= i < |offsets| ==> offsets[i] in es)
    ensures forall j :: 0 <= j < |raw| && raw'[j] != raw[j] ==> j - 2 in es
  {
    forall j | 0 <= j < |raw| && raw'[j] != raw[j] ensures j - 2 in es {
      var i :| 0 <= i < |offsets| && j == offsets[i] + 2;
    }
  }

  /** The rewritten configuration parses to the same tree, with the same header; the only bytes that may differ are
      endpoint addresses. Up to 127 endpoints, every endpoint keeps its direction and either every address is
      unchanged or the endpoints are numbered 1, 2, 3, ... in tree order. */
  lemma RewritingCommutesWithParsing(configuration: nat, raw: seq<byte>, t: Tables, tree: Tree, offsets: seq<nat>, raw': seq<byte>)
    requires WellFormed(raw) && Parse(raw) == Some(tree) && offsets == TreeEndpoints(tree) && InBounds(raw, offsets)
    requires raw' == FixConfiguration(configuration, raw, t, offsets).raw
    ensures |raw'| == |raw| && WellFormed(raw') && Parse(raw') == Some(tree)
    ensures forall j :: 0 <= j < |raw| && raw'[j] != raw[j] ==> exists i :: 0 <= i < |offsets| && j == offsets[i] + 2
    ensures !Renumbers(raw, offsets) ==> raw' == raw
    ensures |offsets| < 128 ==> forall i :: 0 <= i < |offsets| ==>
              && Direction(Address(raw', offsets[i])) == Direction(Address(raw, offsets[i]))
              && (Renumbers(raw, offsets) ==> Address(raw', offsets[i]) % 128 == i + 1)
  {
    TreeApart(raw, tree);
    var renumber := Renumbers(raw, offsets);
    BytesAfter(configuration, renumber, raw, t, offsets, |offsets|);
    RewrittenParses(raw, raw', renumber, tree, offsets);
    RewrittenAddresses(raw, raw', renumber, offsets);
  }
}
