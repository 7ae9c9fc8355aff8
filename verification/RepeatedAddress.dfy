/** A device that repeats an address: one interface with `n` alternate settings, each with the same interrupt endpoint. */
module RepeatedAddress {
  import opened Protocol
  import opened Wrappers
  import opened RawConfig
  import opened Renumber
  import opened TablesProof

  const ADDRESS: byte := 0x81
  const SETTING_SIZE := 16

  /** Byte `r` of the descriptors of setting `a`: an interface descriptor of the HID class, and an endpoint descriptor for
      interrupt transfers of 8 bytes. */
  function SettingByte(a: byte, r: nat): byte {
    match r
    case 0 => 9
    case 1 => 4
    case 3 => a
    case 4 => 1
    case 5 => 3
    case 9 => 7
    case 10 => 5
    case 11 => ADDRESS
    case 12 => 3
    case 13 => 8
    case 15 => 10
    case _ => 0
  }

  function HeaderByte(n: nat, k: nat): byte {
    match k
    case 0 => CONFIG_SIZE
    case 1 => 2
    case 2 => (CONFIG_SIZE + SETTING_SIZE * n) % 256
    case 3 => (CONFIG_SIZE + SETTING_SIZE * n) / 256 % 256
    case 4 => 1
    case 5 => 1
    case _ => 0
  }

  function Place(a: nat): nat { CONFIG_SIZE + SETTING_SIZE * a }

  function Bytes(n: byte): (raw: seq<byte>)
    ensures |raw| == Place(n)
  {
    seq(Place(n), k requires 0 <= k < Place(n) =>
      if k < CONFIG_SIZE then HeaderByte(n, k) else SettingByte((k - CONFIG_SIZE) / SETTING_SIZE % 256, (k - CONFIG_SIZE) % SETTING_SIZE))
  }

  lemma ByteAt(n: byte, a: nat, r: nat)
    requires a < n && r < SETTING_SIZE
    ensures Place(a) + r < Place(n) && Bytes(n)[Place(a) + r] == SettingByte(a, r)
  {
    var k := Place(a) + r;
    assert k - CONFIG_SIZE == SETTING_SIZE * a + r;
    assert (SETTING_SIZE * a + r) / SETTING_SIZE == a && (SETTING_SIZE * a + r) % SETTING_SIZE == r;
  }

  /** Setting `a` of such a configuration, at its place. */
  predicate HasSetting(raw: seq<byte>, a: nat, p: nat) {
    && p + SETTING_SIZE <= |raw|
    && raw[p] == INTERFACE_SIZE && raw[p + 1] == DT_INTERFACE && raw[p + 2] == 0 && raw[p + 3] == a
    && raw[p + 9] == ENDPOINT_SIZE && raw[p + 10] == DT_ENDPOINT && raw[p + 11] == ADDRESS
    && raw[p + 12] == XFER_INT && raw[p + 13] == 8 && raw[p + 14] == 0
  }

  predicate HasSettings(raw: seq<byte>, n: nat) {
    |raw| == Place(n) && forall a :: 0 <= a < n ==> HasSetting(raw, a, Place(a))
  }

  lemma BytesHaveSetting(n: byte, a: nat, raw: seq<byte>)
    requires a < n && raw == Bytes(n)
    ensures HasSetting(raw, a, Place(a))
  {
    var p := Place(a);
    ByteAt(n, a, 0);
    ByteAt(n, a, 1);
    ByteAt(n, a, 2);
    ByteAt(n, a, 3);
    ByteAt(n, a, 9);
    ByteAt(n, a, 10);
    ByteAt(n, a, 11);
    ByteAt(n, a, 12);
    ByteAt(n, a, 13);
    ByteAt(n, a, 14);
    ByteAt(n, a, 15);
  }

  predicate HasHeader(raw: seq<byte>) {
    |raw| >= CONFIG_SIZE && raw[0] == CONFIG_SIZE && raw[4] == 1 && TotalLength(raw) == |raw|
  }

  lemma TwoBytes(w: nat)
    requires w < 65536
    ensures w % 256 + 256 * (w / 256 % 256) == w
  {
  }

  lemma BytesHaveHeader(n: byte, raw: seq<byte>)
    requires raw == Bytes(n)
    ensures HasHeader(raw)
  {
    assert raw[0] == HeaderByte(n, 0) && raw[2] == HeaderByte(n, 2) && raw[3] == HeaderByte(n, 3) && raw[4] == HeaderByte(n, 4);
    TwoBytes(Place(n));
  }

  lemma BytesHaveSettings(n: byte, raw: seq<byte>)
    requires raw == Bytes(n)
    ensures HasSettings(raw, n)
  {
    forall a | 0 <= a < n ensures HasSetting(raw, a, Place(a)) {
      BytesHaveSetting(n, a, raw);
    }
  }

  lemma {:induction false} ChainedFrom(n: nat, a: nat, raw: seq<byte>, p: nat)
    requires a <= n && HasSettings(raw, n) && p == Place(a)
    ensures p <= |raw| && Chained(raw, p, |raw|)
    ensures a < n ==> p + 16 <= |raw| && raw[p] == 9 && Chained(raw, p + 9, |raw|) && raw[p + 9] == 7 && Chained(raw, p + 16, |raw|)
    decreases n - a
  {
    if a < n {
      assert HasSetting(raw, a, p);
      ChainedFrom(n, a + 1, raw, p + 16);
    }
  }

  function EndpointPlace(a: nat): nat { Place(a) + INTERFACE_SIZE }

  /** The first `a` settings, as parsed. */
  function Settings(a: nat): seq<Alt> { seq(a, i requires 0 <= i < a => Alt(Place(i), [EndpointPlace(i)])) }

  /** The same, with the endpoint of one more setting still to come. */
  function Begun(a: nat): seq<Alt> { Settings(a) + [Alt(Place(a), [])] }

  lemma SettingDone(a: nat)
    ensures Begun(a)[a := Begun(a)[a].(endpoints := Begun(a)[a].endpoints + [EndpointPlace(a)])] == Settings(a + 1)
  {
    assert Begun(a)[a].endpoints + [EndpointPlace(a)] == [EndpointPlace(a)];
  }

  lemma VisitInterface(a: nat, raw: seq<byte>, p: nat, w: Walker)
    requires p == Place(a) && HasSetting(raw, a, p) && w.tree == [Settings(a)]
    ensures Visit(raw, w, p) == Some(Walker([Begun(a)], Some(p)))
  {
    assert w.tree[0 := Begun(a)] == [Begun(a)];
  }

  lemma VisitEndpoint(a: nat, raw: seq<byte>, p: nat)
    requires p == Place(a) && HasSetting(raw, a, p)
    ensures Visit(raw, Walker([Begun(a)], Some(p)), p + 9) == Some(Walker([Settings(a + 1)], Some(p)))
  {
    SettingDone(a);
    assert [Begun(a)][0 := Settings(a + 1)] == [Settings(a + 1)];
  }

  lemma {:induction false} WalkFrom(n: nat, a: nat, raw: seq<byte>, p: nat, w: Walker)
    requires a <= n && HasSettings(raw, n) && p == Place(a) && p <= |raw| && w.tree == [Settings(a)] && Chained(raw, p, |raw|)
    ensures Walk(raw, w, p, |raw|).Some? && Walk(raw, w, p, |raw|).value.tree == [Settings(n)]
    decreases n - a
  {
    if a < n {
      assert HasSetting(raw, a, p);
      ChainedFrom(n, a, raw, p);
      VisitInterface(a, raw, p, w);
      VisitEndpoint(a, raw, p);
      WalkFrom(n, a + 1, raw, p + 16, Walker([Settings(a + 1)], Some(p)));
    }
  }

  /** Such bytes are a configuration with these settings. */
  lemma Parses(n: nat, raw: seq<byte>)
    requires HasHeader(raw) && HasSettings(raw, n)
    ensures WellFormed(raw) && Parse(raw) == Some([Settings(n)])
  {
    ChainedFrom(n, 0, raw, 9);
    assert EmptyTree(1)[0] == Settings(0);
    assert EmptyTree(1) == [Settings(0)];
    WalkFrom(n, 0, raw, 9, Walker(EmptyTree(1), None));
  }

  function Offsets(a: nat, m: nat): seq<nat>
    requires a <= m
  {
    seq<nat>(m - a, i requires 0 <= i < m - a => EndpointPlace(a + i))
  }

  lemma {:induction false} EndpointsAre(a: nat, m: nat)
    requires a <= m
    ensures AltEndpoints(Settings(m)[a..]) == Offsets(a, m)
    decreases m - a
  {
    if a < m {
      EndpointsAre(a + 1, m);
      assert Settings(m)[a..][1..] == Settings(m)[a + 1..];
      assert Offsets(a, m) == [EndpointPlace(a)] + Offsets(a + 1, m);
    }
  }

  lemma TreeEndpointsAre(m: nat)
    ensures TreeEndpoints([Settings(m)]) == Offsets(0, m)
  {
    EndpointsAre(0, m);
    assert Settings(m)[0..] == Settings(m) && [Settings(m)][1..] == [];
    assert Offsets(0, m) + [] == Offsets(0, m);
  }

  lemma EndpointBytes(i: nat, raw: seq<byte>, o: nat)
    requires HasSetting(raw, i, Place(i)) && o == EndpointPlace(i)
    ensures o + ENDPOINT_SIZE <= |raw| && Address(raw, o) == ADDRESS && TransferType(raw, o) == XFER_INT && PacketSize(raw, o) == 8
  {
  }

  lemma OffsetsGood(n: nat, raw: seq<byte>, offsets: seq<nat>)
    requires HasSettings(raw, n) && offsets == Offsets(0, n)
    ensures Apart(raw, offsets)
    ensures forall i :: 0 <= i < |offsets| ==> Address(raw, offsets[i]) == ADDRESS
    ensures forall i :: 0 <= i < |offsets| ==> TransferType(raw, offsets[i]) == XFER_INT && PacketSize(raw, offsets[i]) <= MAX_PAYLOAD_SIZE_EP
  {
    forall i | 0 <= i < |offsets|
      ensures offsets[i] == EndpointPlace(i) && offsets[i] + ENDPOINT_SIZE <= |raw|
      ensures Address(raw, offsets[i]) == ADDRESS && TransferType(raw, offsets[i]) == XFER_INT && PacketSize(raw, offsets[i]) == 8
    {
      assert HasSetting(raw, i, Place(i));
      EndpointBytes(i, raw, offsets[i]);
    }
  }

  lemma ListOf(n: byte, raw: seq<byte>, offsets: seq<nat>)
    requires HasSettings(raw, n) && offsets == Offsets(0, n)
    ensures Apart(raw, offsets) && PlainEndpoints(raw, offsets) && !Renumbers(raw, offsets)
    ensures |FinalTables(raw, offsets).entries| == n && (FitsArrays(raw, offsets) <==> n <= MAX_ENDPOINTS)
  {
    OffsetsGood(n, raw, offsets);
    SettingsOverrun(raw, offsets, ADDRESS);
    ListIsEntered(raw, offsets);
  }

  /** Each of the `n` settings enters the endpoint into the list: with seven of them or more, the list of six is overrun. */
  lemma ListGrows(n: byte, raw: seq<byte>)
    requires raw == Bytes(n)
    ensures WellFormed(raw) && Parse(raw).Some?
    ensures var offsets := TreeEndpoints(Parse(raw).value);
            && Apart(raw, offsets) && PlainEndpoints(raw, offsets) && !Renumbers(raw, offsets)
            && |FinalTables(raw, offsets).entries| == n && (FitsArrays(raw, offsets) <==> n <= MAX_ENDPOINTS)
  {
    BytesHaveHeader(n, raw);
    BytesHaveSettings(n, raw);
    Parses(n, raw);
    TreeEndpointsAre(n);
    ListOf(n, raw, Offsets(0, n));
  }
}
