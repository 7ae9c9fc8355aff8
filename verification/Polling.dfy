/** What start-up polls, and what the firmware makes of the endpoint list. */
module Polling {
  import opened Protocol
  import opened Proxy
  import opened Firmware
  import opened RawConfig
  import opened Renumber
  import opened TablesProof

  /** The original addresses of the IN endpoints configured on the target. */
  function ConfiguredIns(t: Tables): set<byte> {
    set e: byte | USB_DIR_IN < e < USB_DIR_IN + 16 && Lookup(t.u2s, e) != 0
  }

  lemma DistinctBag(s: seq<byte>, es: set<byte>)
    requires forall i, j :: 0 <= i < j < |s| ==> s[i] != s[j]
    requires forall x :: x in s <==> x in es
    ensures multiset(s) == multiset(es)
  {
    forall x: byte ensures multiset(s)[x] == multiset(es)[x] {
      if x in s {
        CountOfOne(s, x);
      }
    }
  }

  lemma {:induction false} CountOfOne(s: seq<byte>, x: byte)
    requires x in s && forall i, j :: 0 <= i < j < |s| ==> s[i] != s[j]
    ensures multiset(s)[x] == 1
  {
    assert s == [s[0]] + s[1..];
    if s[0] == x {
      assert x !in s[1..];
    } else {
      CountOfOne(s[1..], x);
    }
  }

  /** The number under which the target knows a configured IN endpoint; 0 for any other address. */
  function TargetNumber(t: Tables, e: byte): nat {
    if e in ConfiguredIns(t) then Number(Lookup(t.u2s, e)) else 0
  }

  lemma TargetNumberRange(t: Tables)
    requires Inverse(t)
    ensures forall e: byte :: TargetNumber(t, e) <= MAX_ENDPOINTS && (TargetNumber(t, e) >= 1 <==> e in ConfiguredIns(t))
  {
    forall e | e in ConfiguredIns(t) ensures 1 <= Number(Lookup(t.u2s, e)) <= MAX_ENDPOINTS {
      assert Paired(t, e, Lookup(t.u2s, e));
    }
  }

  /** The table holds, for target number `i`, the one endpoint that has it. */
  lemma PolledHere(t: Tables, i: nat, s: byte)
    requires Inverse(t) && 1 <= i < ENDPOINT_MAX_NUMBER && s == USB_DIR_IN + i
    ensures Lookup(t.s2u, s) != 0 ==> TargetNumber(t, Lookup(t.s2u, s)) == i
    ensures forall e: byte :: TargetNumber(t, e) == i ==> e == Lookup(t.s2u, s) != 0
  {
    if Lookup(t.s2u, s) != 0 {
      assert Paired(t, Lookup(t.s2u, s), s);
    }
    forall e: byte | TargetNumber(t, e) == i ensures e == Lookup(t.s2u, s) != 0 {
      assert Paired(t, e, Lookup(t.u2s, e));
      PlainEqual(Lookup(t.u2s, e), s);
    }
  }

  ghost predicate PollsFrom(t: Tables, es: seq<byte>, i: nat) {
    && (forall e :: e in es <==> TargetNumber(t, e) >= i)
    && (forall a, b :: 0 <= a < b < |es| ==> es[a] != es[b])
  }

  lemma PollsOneMore(t: Tables, later: seq<byte>, endpoint: byte, i: nat)
    requires PollsFrom(t, later, i + 1)
    requires endpoint != 0 ==> TargetNumber(t, endpoint) == i
    requires forall e: byte :: TargetNumber(t, e) == i ==> e == endpoint != 0
    ensures PollsFrom(t, (if endpoint != 0 then [endpoint] else []) + later, i)
  {
    if endpoint != 0 {
      assert endpoint !in later;
    } else {
      assert [] + later == later;
    }
  }

  lemma {:induction false} PolledFrom(t: Tables, i: nat)
    requires Inverse(t) && 1 <= i <= ENDPOINT_MAX_NUMBER
    ensures PollsFrom(t, PollFrom(t.s2u, i), i)
    decreases ENDPOINT_MAX_NUMBER - i
  {
    if i == ENDPOINT_MAX_NUMBER {
      TargetNumberRange(t);
    } else {
      PolledFrom(t, i + 1);
      PolledHere(t, i, USB_DIR_IN + i);
      PollFromNext(t.s2u, i);
      PollsOneMore(t, PollFrom(t.s2u, i + 1), Lookup(t.s2u, USB_DIR_IN + i), i);
    }
  }

  /** The cell before the IN row belongs to OUT number 15, which is never in use. */
  lemma CellBeforeRow(t: Tables)
    requires Inverse(t)
    ensures Lookup(t.s2u, USB_DIR_IN) == 0
  {
    assert Lookup(t.s2u, USB_DIR_IN) == Lookup(t.s2u, 15);
    assert forall e :: !Paired(t, e, 15);
  }

  /** poll_all_endpoints polls each configured IN endpoint of the device exactly once, and nothing else. */
  lemma PollingIsExact(raw: seq<byte>, offsets: seq<nat>, t: Tables)
    requires Apart(raw, offsets) && Addressed(raw, Renumbers(raw, offsets), offsets) && t == FinalTables(raw, offsets)
    ensures multiset(PollFrom(t.s2u, 0)) == multiset(ConfiguredIns(t))
  {
    TranslationIsABijection(raw, offsets);
    PolledOnce(t);
  }

  lemma PollFromOne(s2u: seq<byte>)
    requires Lookup(s2u, USB_DIR_IN) == 0
    ensures PollFrom(s2u, 0) == PollFrom(s2u, 1)
  {
    PollFromNext(s2u, 0);
  }

  lemma PolledOnce(t: Tables)
    requires Inverse(t)
    ensures multiset(PollFrom(t.s2u, 0)) == multiset(ConfiguredIns(t))
  {
    CellBeforeRow(t);
    PollFromOne(t.s2u);
    PolledFrom(t, 1);
    TargetNumberRange(t);
    DistinctBag(PollFrom(t.s2u, 1), ConfiguredIns(t));
  }

  // ----- the endpoint list -----

  /** The bytes of the endpoint list, as send_endpoints sends them. */
  function EndpointBytes(entries: seq<Entry>): (r: seq<byte>)
    ensures |r| == ENDPOINT_CONFIG_SIZE * |entries|
  {
    if entries == [] then [] else [entries[0].number, entries[0].kind, entries[0].size] + EndpointBytes(entries[1..])
  }

  lemma {:induction false} EndpointBytesAt(entries: seq<Entry>, i: nat)
    requires i < |entries|
    ensures var bytes := EndpointBytes(entries);
            && bytes[ENDPOINT_CONFIG_SIZE * i] == entries[i].number
            && bytes[ENDPOINT_CONFIG_SIZE * i + 1] == entries[i].kind
            && bytes[ENDPOINT_CONFIG_SIZE * i + 2] == entries[i].size
  {
    if i > 0 {
      EndpointBytesAt(entries[1..], i - 1);
    }
  }

  /** The numbers of the OUT endpoints of a list. */
  function OutNumbers(entries: seq<Entry>): seq<byte> {
    if entries == [] then []
    else (if entries[0].number < 128 then [entries[0].number] else []) + OutNumbers(entries[1..])
  }

  /** The firmware finds in its memory exactly the OUT endpoints of the list, in order, whatever room is left. */
  lemma {:induction false} FirmwareFindsOuts(entries: seq<Entry>, memory: seq<byte>, i: nat)
    requires i <= |entries| && ENDPOINT_CONFIG_SIZE * |entries| <= |memory|
    requires memory[..ENDPOINT_CONFIG_SIZE * |entries|] == EndpointBytes(entries)
    requires forall j :: ENDPOINT_CONFIG_SIZE * |entries| <= j < |memory| ==> memory[j] == 0
    requires forall j :: 0 <= j < |entries| ==> entries[j].number != 0
    ensures OutEndpoints(memory, i) == OutNumbers(entries[i..])
    decreases |entries| - i
  {
    if i < |entries| {
      FirmwareFindsOuts(entries, memory, i + 1);
      EndpointBytesAt(entries, i);
      assert memory[ENDPOINT_CONFIG_SIZE * i] == EndpointBytes(entries)[ENDPOINT_CONFIG_SIZE * i];
      assert entries[i..][1..] == entries[i + 1..];
    }
  }

  /** What the memory holds at entry `i`. */
  lemma MemoryEntry(entries: seq<Entry>, memory: seq<byte>, i: nat)
    requires i < |entries| && ENDPOINT_CONFIG_SIZE * |entries| <= |memory|
    requires memory[..ENDPOINT_CONFIG_SIZE * |entries|] == EndpointBytes(entries)
    ensures ENDPOINT_CONFIG_SIZE * (i + 1) <= |memory| && EntryOf(memory, i) == entries[i]
  {
    var e, bytes := ENDPOINT_CONFIG_SIZE * i, EndpointBytes(entries);
    EndpointBytesAt(entries, i);
    assert memory[e] == bytes[e] && memory[e + 1] == bytes[e + 1] && memory[e + 2] == bytes[e + 2];
  }

  /** A list of interrupt endpoints is set up on the controller entry for entry, in order, each with its number, type and size. */
  lemma {:induction false} FirmwareSetsUp(entries: seq<Entry>, memory: seq<byte>, i: nat)
    requires i <= |entries| && ENDPOINT_CONFIG_SIZE * |entries| <= |memory|
    requires memory[..ENDPOINT_CONFIG_SIZE * |entries|] == EndpointBytes(entries)
    requires forall j :: ENDPOINT_CONFIG_SIZE * |entries| <= j < |memory| ==> memory[j] == 0
    requires forall j :: 0 <= j < |entries| ==> entries[j].number != 0 && entries[j].kind == 3
    ensures SetUpEntries(memory, i) == entries[i..]
    decreases |entries| - i
  {
    if i < |entries| {
      FirmwareSetsUp(entries, memory, i + 1);
      MemoryEntry(entries, memory, i);
      assert entries[i..] == [entries[i]] + entries[i + 1..];
    }
  }

  /** The places of exactly the OUT entries from the i-th on, increasing. */
  ghost predicate PlacesOfOuts(entries: seq<Entry>, outs: seq<nat>, i: nat) {
    && (forall j :: j in outs <==> i <= j < |entries| && entries[j].number < 128)
    && (forall a, b :: 0 <= a < b < |outs| ==> outs[a] < outs[b])
  }

  lemma PlacesOneMore(entries: seq<Entry>, later: seq<nat>, i: nat)
    requires i < |entries| && PlacesOfOuts(entries, later, i + 1)
    ensures PlacesOfOuts(entries, if entries[i].number < 128 then [i] + later else later, i)
  {
    assert forall b :: 0 <= b < |later| ==> later[b] in later;
  }

  lemma OutIndexesNext(entries: seq<Entry>, memory: seq<byte>, i: nat)
    requires i < |entries| && ENDPOINT_CONFIG_SIZE * (i + 1) <= |memory| && EntryOf(memory, i) == entries[i] && entries[i].number != 0
    ensures OutIndexes(memory, i) == if entries[i].number < 128 then [i] + OutIndexes(memory, i + 1) else OutIndexes(memory, i + 1)
  {
    assert [] + OutIndexes(memory, i + 1) == OutIndexes(memory, i + 1);
  }

  /** The OUT list holds the places of exactly the OUT entries, in increasing order. */
  lemma {:induction false} FirmwareListsOuts(entries: seq<Entry>, memory: seq<byte>, i: nat)
    requires i <= |entries| && ENDPOINT_CONFIG_SIZE * |entries| <= |memory|
    requires memory[..ENDPOINT_CONFIG_SIZE * |entries|] == EndpointBytes(entries)
    requires forall j :: ENDPOINT_CONFIG_SIZE * |entries| <= j < |memory| ==> memory[j] == 0
    requires forall j :: 0 <= j < |entries| ==> entries[j].number != 0
    ensures PlacesOfOuts(entries, OutIndexes(memory, i), i)
    decreases |entries| - i
  {
    if i < |entries| {
      FirmwareListsOuts(entries, memory, i + 1);
      MemoryEntry(entries, memory, i);
      OutIndexesNext(entries, memory, i);
      PlacesOneMore(entries, OutIndexes(memory, i + 1), i);
    }
  }
}
