/** From the descriptors of a device to the behaviour of the running proxy. */
module Composition {
  import opened Protocol
  import opened Wrappers
  import opened Proxy
  import opened Firmware
  import opened System
  import opened Wire
  import opened Invariant
  import opened RawConfig
  import opened Renumber
  import opened TablesProof
  import opened Polling
  import opened DescriptorTable
  import RenumberProof
  import Preservation
  import Guarantees
  import WireProof

  /** The descriptors of a device, as they were fetched. */
  datatype Device = Device(descriptor: seq<byte>, langId: seq<byte>, configurations: seq<seq<byte>>, others: seq<Fetched>)

  function OthersOf(d: Device): seq<Descriptor> {
    seq(|d.others|, i requires 0 <= i < |d.others| => AsDescriptor(d.others[i]))
  }

  function EndpointsOf(raw: seq<byte>): seq<nat>
    requires WellFormed(raw) && Parse(raw).Some?
  {
    TreeEndpoints(Parse(raw).value)
  }

  predicate IsParsed(raw: seq<byte>) { WellFormed(raw) && Parse(raw).Some? && InBounds(raw, EndpointsOf(raw)) }

  /** Every configuration parses, and in the first one the endpoint addresses are plain, those configured on the target once each. */
  predicate Supported(d: Device) {
    && 1 <= |d.configurations| <= 255
    && (forall i :: 0 <= i < |d.configurations| ==> IsParsed(d.configurations[i]))
    && Addressed(d.configurations[0], Renumbers(d.configurations[0], EndpointsOf(d.configurations[0])), EndpointsOf(d.configurations[0]))
  }

  /** The bytes of configuration `i` that are sent to the firmware. */
  function SentConfiguration(raw: seq<byte>, i: nat): seq<byte>
    requires IsParsed(raw)
  {
    FixConfiguration(i, raw, EmptyTables(), EndpointsOf(raw)).raw[..TotalLength(raw)]
  }

  function SentDescriptors(d: Device): seq<Descriptor>
    requires Supported(d)
  {
    DescriptorsOf(d.descriptor, d.langId,
                  seq(|d.configurations|, i requires 0 <= i < |d.configurations| => SentConfiguration(d.configurations[i], i)), OthersOf(d))
  }

  function TablesOf(d: Device): Tables
    requires Supported(d)
  {
    FinalTables(d.configurations[0], EndpointsOf(d.configurations[0]))
  }

  /** What start-up works with; None if the descriptors do not fit. */
  function SetUp(d: Device): Option<Config>
    requires Supported(d)
  {
    match AddAll(EMPTY, SentDescriptors(d))
    case None => None
    case Some(t) =>
      Some(Config(t.desc, IndexBytes(t.index), EndpointBytes(TablesOf(d).entries), TablesOf(d).u2s, TablesOf(d).s2u, ConfiguredIns(TablesOf(d))))
  }

  // ----- the set-up is one the proxy can run with -----

  lemma TablesAreGood(d: Device)
    requires Supported(d)
    ensures Inverse(TablesOf(d)) && Listed(TablesOf(d)) && |TablesOf(d).entries| <= MAX_ENDPOINTS
  {
    var raw := d.configurations[0];
    RenumberProof.TreeApart(raw, Parse(raw).value);
    TranslationIsABijection(raw, EndpointsOf(raw));
    AtMostSix(TablesOf(d));
  }

  /** Each configured IN endpoint has a target number of its own. */
  lemma OwnNumber(t: Tables, e: byte, f: byte)
    requires Inverse(t) && e in ConfiguredIns(t) && f in ConfiguredIns(t) && TargetNumber(t, e) == TargetNumber(t, f)
    ensures e == f
  {
    TargetNumberRange(t);
    PolledHere(t, TargetNumber(t, e), USB_DIR_IN + TargetNumber(t, e));
  }

  lemma AtMostSixIns(t: Tables)
    requires Inverse(t)
    ensures |ConfiguredIns(t)| <= MAX_ENDPOINTS
  {
    var ins := ConfiguredIns(t);
    var numbers := set e | e in ins :: TargetNumber(t, e);
    forall e, f | e in ins && f in ins && TargetNumber(t, e) == TargetNumber(t, f) ensures e == f {
      OwnNumber(t, e, f);
    }
    SameSize(ins, numbers, t);
    TargetNumberRange(t);
    assert numbers <= {1, 2, 3, 4, 5, 6};
    SubsetCount(numbers, {1, 2, 3, 4, 5, 6});
  }

  lemma {:induction false} SameSize(ins: set<byte>, numbers: set<nat>, t: Tables)
    requires numbers == set e | e in ins :: TargetNumber(t, e)
    requires forall e, f :: e in ins && f in ins && TargetNumber(t, e) == TargetNumber(t, f) ==> e == f
    ensures |ins| == |numbers|
    decreases |ins|
  {
    if ins == {} {
      assert numbers == {};
    } else {
      var e :| e in ins;
      var n := TargetNumber(t, e);
      assert n in numbers;
      SameSize(ins - {e}, numbers - {n}, t);
    }
  }

  /** Whatever the device, if its descriptors fit, the set-up meets what the running proxy relies on. */
  lemma SetUpIsOk(d: Device, c: Config)
    requires Supported(d) && SetUp(d) == Some(c)
    ensures ConfigOk(c)
  {
    var t := TablesOf(d);
    TablesAreGood(d);
    AtMostSixIns(t);
    PolledOnce(t);
    AddAllPacks(EMPTY, [], SentDescriptors(d));
    assert |c.index| <= MAX_DESCRIPTORS * INDEX_ENTRY_SIZE && |c.endpoints| <= MAX_ENDPOINTS * ENDPOINT_CONFIG_SIZE;
  }

  /** The set-up succeeds exactly when the descriptors take at most 1024 bytes and there are at most 32 of them. */
  lemma SetUpSucceeds(d: Device)
    requires Supported(d)
    ensures SetUp(d).Some? <==> TotalSize(SentDescriptors(d)) <= MAX_DESCRIPTORS_SIZE && |SentDescriptors(d)| <= MAX_DESCRIPTORS
  {
    AddAllSucceeds(EMPTY, SentDescriptors(d));
  }

  // ----- descriptors, as the target host gets them -----

  lemma MemoriesHold(d: Device, c: Config, s: Sys, t: Table)
    requires Supported(d) && SetUp(d) == Some(c) && Reachable(c, s) && s.fw.mem.started
    requires AddAll(EMPTY, SentDescriptors(d)) == Some(t)
    ensures Packs(t, SentDescriptors(d)) && Holds(s.fw.mem.index.bytes, t.index)
    ensures |t.desc| <= |s.fw.mem.descriptors.bytes| && s.fw.mem.descriptors.bytes[..|t.desc|] == t.desc
  {
    SetUpIsOk(d, c);
    Guarantees.StartUpAgreement(c, s);
    AddAllPacks(EMPTY, [], SentDescriptors(d));
    assert [] + SentDescriptors(d) == SentDescriptors(d);
    StoredIsPrefix(s.fw.mem.descriptors, c.desc);
    Preservation.ReachableInv(c, s);
  }

  lemma StoredIsPrefix(area: Area, desc: seq<byte>)
    requires Guarantees.StoredIn(area) == desc
    ensures |desc| <= |area.bytes| && area.bytes[..|desc|] == desc
  {
    if area.at > |area.bytes| {
      assert area.bytes[..0] == [];
    }
  }

  /** Once the firmware has started, it answers every request for a descriptor as the list of the device's descriptors
      does, exactly when no interface of the device announces a HID class descriptor of type zero. */
  lemma DescriptorsAgreeIff(d: Device, c: Config, s: Sys)
    requires Supported(d) && SetUp(d) == Some(c) && Reachable(c, s) && s.fw.mem.started
    ensures |s.fw.mem.index.bytes| == MAX_DESCRIPTORS * INDEX_ENTRY_SIZE
    ensures (forall f :: f in d.others ==> !EndsLookup(f))
       <==> (forall wValue, wIndex :: Agrees(s.fw.mem.descriptors.bytes, s.fw.mem.index.bytes, SentDescriptors(d), wValue, wIndex))
  {
    var ds, t := SentDescriptors(d), AddAll(EMPTY, SentDescriptors(d)).value;
    MemoriesHold(d, c, s, t);
    LookupAgreesIff(ds, t, s.fw.mem.descriptors.bytes, s.fw.mem.index.bytes);
    NonZeroOthers(d);
  }

  /** The place of the k-th fetched descriptor. */
  lemma OtherAt(d: Device, k: nat)
    requires Supported(d) && k < |d.others|
    ensures var (ds, own) := (SentDescriptors(d), 2 + |d.configurations|);
            own + k < |ds| && ds[own + k] == AsDescriptor(d.others[k]) && forall i :: 0 <= i < own ==> ds[i].wValue != 0
  {
  }

  lemma NonZeroOthers(d: Device)
    requires Supported(d)
    ensures (forall x :: x in SentDescriptors(d) ==> x.wValue != 0) <==> (forall f :: f in d.others ==> !EndsLookup(f))
  {
    var ds, own := SentDescriptors(d), 2 + |d.configurations|;
    if forall x :: x in ds ==> x.wValue != 0 {
      forall f | f in d.others ensures !EndsLookup(f) {
        var k :| 0 <= k < |d.others| && d.others[k] == f;
        OtherAt(d, k);
        assert ds[own + k] in ds;
      }
    }
    if forall f :: f in d.others ==> !EndsLookup(f) {
      forall x | x in ds ensures x.wValue != 0 {
        var i :| 0 <= i < |ds| && ds[i] == x;
        if i >= own {
          OtherAt(d, i - own);
          ZeroKeyIff(d.others[i - own]);
        }
      }
    }
  }

  /** The request of the target host for a fetched descriptor: string `index` in language `langId`, or a class descriptor of an
      interface by its type. */
  predicate AsksFor(f: Fetched, wValue: word, wIndex: word) {
    match f
    case Text(index, langId, _) => wValue == 0x300 + index && wIndex == langId
    case HidClass(kind, number, _) => wValue == 0x100 * kind && wIndex == number
  }

  /** No wValue is zero up to the k-th fetched descriptor. */
  lemma KeysUpTo(d: Device, k: nat)
    requires Supported(d) && k < |d.others| && forall j :: 0 <= j <= k ==> !EndsLookup(d.others[j])
    ensures var (ds, last) := (SentDescriptors(d), 2 + |d.configurations| + k);
            last < |ds| && ds[last] == AsDescriptor(d.others[k]) && forall i :: 0 <= i <= last ==> ds[i].wValue != 0
  {
    var ds, own := SentDescriptors(d), 2 + |d.configurations|;
    OtherAt(d, k);
    forall i | 0 <= i <= own + k ensures ds[i].wValue != 0 {
      if i >= own {
        OtherAt(d, i - own);
        ZeroKeyIff(d.others[i - own]);
      }
    }
  }

  /** A fetched string or class descriptor is answered with its own data, unless its key is that of an earlier descriptor or a
      class descriptor of type zero comes first. */
  lemma FetchedIsAnswered(d: Device, c: Config, s: Sys, k: nat, wValue: word, wIndex: word)
    requires Supported(d) && SetUp(d) == Some(c) && Reachable(c, s) && s.fw.mem.started
    requires k < |d.others| && AsksFor(d.others[k], wValue, wIndex) && forall j :: 0 <= j <= k ==> !EndsLookup(d.others[j])
    requires forall i :: 0 <= i < 2 + |d.configurations| + k ==>
               SentDescriptors(d)[i].wValue != wValue || SentDescriptors(d)[i].wIndex != wIndex
    ensures |s.fw.mem.index.bytes| == MAX_DESCRIPTORS * INDEX_ENTRY_SIZE
    ensures Answer(s.fw.mem.descriptors.bytes, LookupFrom(s.fw.mem.index.bytes, wValue, wIndex, 0)) == Some(d.others[k].data)
  {
    FirmwareFinds(d, c, s, wValue, wIndex);
    KeysUpTo(d, k);
    FindFirst(SentDescriptors(d), 2 + |d.configurations| + k, wValue, wIndex);
  }

  /** At a device that announces a class descriptor of type zero: neither that descriptor nor any string or class descriptor
      fetched after it is found by the target host, under a key that nothing before has, although the PC has sent it. */
  lemma TypeZeroHides(d: Device, c: Config, s: Sys, j: nat, k: nat)
    requires Supported(d) && SetUp(d) == Some(c) && Reachable(c, s) && s.fw.mem.started
    requires j <= k < |d.others| && EndsLookup(d.others[j])
    requires var (x, own) := (AsDescriptor(d.others[k]), 2 + |d.configurations|);
             forall i :: 0 <= i < own + j ==> SentDescriptors(d)[i].wValue != x.wValue || SentDescriptors(d)[i].wIndex != x.wIndex
    ensures |s.fw.mem.index.bytes| == MAX_DESCRIPTORS * INDEX_ENTRY_SIZE
    ensures var x := AsDescriptor(d.others[k]);
            && Answer(s.fw.mem.descriptors.bytes, LookupFrom(s.fw.mem.index.bytes, x.wValue, x.wIndex, 0)) == None
            && x in SentDescriptors(d) && Find(SentDescriptors(d), x.wValue, x.wIndex).Some?
  {
    var ds, own, x := SentDescriptors(d), 2 + |d.configurations|, AsDescriptor(d.others[k]);
    FirmwareFinds(d, c, s, x.wValue, x.wIndex);
    OtherAt(d, j);
    OtherAt(d, k);
    HiddenAfterZero(ds, own + j, x.wValue, x.wIndex);
    FindsMember(ds, ds[own + k]);
  }

  /** The started firmware answers a key with the first descriptor under it, in the list up to the first zero wValue. */
  lemma FirmwareFinds(d: Device, c: Config, s: Sys, wValue: word, wIndex: word)
    requires Supported(d) && SetUp(d) == Some(c) && Reachable(c, s) && s.fw.mem.started
    ensures |s.fw.mem.index.bytes| == MAX_DESCRIPTORS * INDEX_ENTRY_SIZE
    ensures Answer(s.fw.mem.descriptors.bytes, LookupFrom(s.fw.mem.index.bytes, wValue, wIndex, 0))
         == DataOf(Find(BeforeZero(SentDescriptors(d)), wValue, wIndex))
  {
    var ds, t := SentDescriptors(d), AddAll(EMPTY, SentDescriptors(d)).value;
    MemoriesHold(d, c, s, t);
    LookupIsFirstMatch(ds, t, s.fw.mem.descriptors.bytes, s.fw.mem.index.bytes, wValue, wIndex);
  }

  lemma {:induction false} FindFirst(ds: seq<Descriptor>, k: nat, wValue: word, wIndex: word)
    requires k < |ds| && ds[k].wValue == wValue && ds[k].wIndex == wIndex
    requires forall j :: 0 <= j <= k ==> ds[j].wValue != 0
    requires forall j :: 0 <= j < k ==> ds[j].wValue != wValue || ds[j].wIndex != wIndex
    ensures Find(BeforeZero(ds), wValue, wIndex) == Some(ds[k])
  {
    assert BeforeZero(ds)[1..] == BeforeZero(ds[1..]);
    if k > 0 {
      FindFirst(ds[1..], k - 1, wValue, wIndex);
    }
  }

  lemma FirstKeys(d: Device, i: nat)
    requires Supported(d) && i < |d.configurations|
    ensures var ds := SentDescriptors(d);
            && 2 + i < |ds| && ds[2 + i] == Descriptor(256 * USB_DT_CONFIG + i, 0, SentConfiguration(d.configurations[i], i))
            && (forall j :: 0 <= j <= 2 + i ==> ds[j].wValue != 0)
            && (forall j :: 0 <= j < 2 + i ==> ds[j].wValue != 256 * USB_DT_CONFIG + i)
  {
  }

  /** Whatever the other descriptors are, a request for configuration `i` is answered with that configuration, rewritten. */
  lemma ConfigurationIsAnswered(d: Device, c: Config, s: Sys, i: nat)
    requires Supported(d) && SetUp(d) == Some(c) && Reachable(c, s) && s.fw.mem.started && i < |d.configurations|
    ensures |s.fw.mem.index.bytes| == MAX_DESCRIPTORS * INDEX_ENTRY_SIZE
    ensures Answer(s.fw.mem.descriptors.bytes, LookupFrom(s.fw.mem.index.bytes, 0x200 + i, 0, 0))
         == Some(SentConfiguration(d.configurations[i], i))
  {
    FirmwareFinds(d, c, s, 256 * USB_DT_CONFIG + i, 0);
    FirstKeys(d, i);
    FindFirst(SentDescriptors(d), 2 + i, 256 * USB_DT_CONFIG + i, 0);
  }

  /** The device descriptor and the list of languages are answered with the device's own. */
  lemma DeviceIsAnswered(d: Device, c: Config, s: Sys)
    requires Supported(d) && SetUp(d) == Some(c) && Reachable(c, s) && s.fw.mem.started
    ensures |s.fw.mem.index.bytes| == MAX_DESCRIPTORS * INDEX_ENTRY_SIZE
    ensures Answer(s.fw.mem.descriptors.bytes, LookupFrom(s.fw.mem.index.bytes, 0x100, 0, 0)) == Some(d.descriptor)
    ensures Answer(s.fw.mem.descriptors.bytes, LookupFrom(s.fw.mem.index.bytes, 0x300, 0, 0)) == Some(d.langId)
  {
    var ds := SentDescriptors(d);
    assert ds[0] == Descriptor(256 * USB_DT_DEVICE, 0, d.descriptor) && ds[1] == Descriptor(256 * USB_DT_STRING, 0, d.langId);
    FirmwareFinds(d, c, s, 256 * USB_DT_DEVICE, 0);
    FindFirst(ds, 0, 256 * USB_DT_DEVICE, 0);
    FirmwareFinds(d, c, s, 256 * USB_DT_STRING, 0);
    FindFirst(ds, 1, 256 * USB_DT_STRING, 0);
  }

  /** A configuration of the announced length reaches the target host with the same interfaces, settings and endpoint
      descriptors, in the same places. */
  lemma SentConfigurationParses(raw: seq<byte>, i: nat)
    requires IsParsed(raw) && |raw| == TotalLength(raw)
    ensures WellFormed(SentConfiguration(raw, i)) && Parse(SentConfiguration(raw, i)) == Parse(raw)
  {
    var raw' := FixConfiguration(i, raw, EmptyTables(), EndpointsOf(raw)).raw;
    RenumberProof.RewritingCommutesWithParsing(i, raw, EmptyTables(), Parse(raw).value, EndpointsOf(raw), raw');
    assert raw'[..TotalLength(raw)] == raw';
  }

  // ----- traffic, between the addresses of the device and those of the target -----

  /** Reports come from configured endpoints, and OUT packets carry numbers of the endpoint list. */
  ghost predicate KnownEndpoints(c: Config, past: History) {
    && (forall r :: r in past.completed ==> r.endpoint in c.ins)
    && (forall v :: v in past.outSent ==> v != [] && v[0] in OutEndpoints(Padded(c.endpoints, MAX_ENDPOINTS * ENDPOINT_CONFIG_SIZE), 0))
  }

  lemma StartedHoldsEndpoints(c: Config, s: Sys)
    requires ConfigOk(c) && Reachable(c, s) && !s.fw.at.Boot?
    ensures s.fw.mem.endpoints == Padded(c.endpoints, MAX_ENDPOINTS * ENDPOINT_CONFIG_SIZE)
  {
    Guarantees.StartUpAgreement(c, s);
  }

  lemma PastGrows(c: Config, s: Sys, step: Step)
    requires Enabled(s, step)
    ensures Do(c, s, step).past.completed == s.past.completed + Guarantees.PutBy(step)
    ensures Do(c, s, step).past.outSent == s.past.outSent + (if step.SendOut? then [[step.endpoint] + step.data] else [])
  {
    Guarantees.PastOf(c, s, step);
    assert s.past.outSent + [] == s.past.outSent;
  }

  lemma StepUsesKnown(c: Config, s: Sys, step: Step)
    requires ConfigOk(c) && Reachable(c, s) && Enabled(s, step)
    ensures step.InEnds? ==> step.endpoint in c.ins
    ensures step.SendOut? ==> step.endpoint in OutEndpoints(Padded(c.endpoints, MAX_ENDPOINTS * ENDPOINT_CONFIG_SIZE), 0)
  {
    if step.InEnds? {
      Guarantees.QueueNeverFull(c, s, step.endpoint);
    }
    if step.SendOut? {
      StartedHoldsEndpoints(c, s);
    }
  }

  lemma KnownGrows(c: Config, past: History, past': History, put: seq<Report>, out: seq<seq<byte>>)
    requires KnownEndpoints(c, past) && past'.completed == past.completed + put && past'.outSent == past.outSent + out
    requires forall r :: r in put ==> r.endpoint in c.ins
    requires forall v :: v in out ==> v != [] && v[0] in OutEndpoints(Padded(c.endpoints, MAX_ENDPOINTS * ENDPOINT_CONFIG_SIZE), 0)
    ensures KnownEndpoints(c, past')
  {
  }

  lemma StepKeepsKnown(c: Config, s: Sys, step: Step, s': Sys)
    requires ConfigOk(c) && Reachable(c, s) && KnownEndpoints(c, s.past) && Enabled(s, step) && s' == Do(c, s, step)
    ensures KnownEndpoints(c, s'.past)
  {
    PastGrows(c, s, step);
    StepUsesKnown(c, s, step);
    KnownGrows(c, s.past, s'.past, Guarantees.PutBy(step), if step.SendOut? then [[step.endpoint] + step.data] else []);
  }

  lemma {:induction false} RunKeepsKnown(c: Config, states: seq<Sys>, steps: seq<Step>, i: nat, s: Sys)
    requires ConfigOk(c) && IsRun(c, states, steps) && i < |states| && s == states[i]
    ensures KnownEndpoints(c, s.past)
  {
    if i > 0 {
      var before := states[i - 1];
      RunKeepsKnown(c, states, steps, i - 1, before);
      assert Enabled(states[i - 1], steps[i - 1]) && states[i - 1 + 1] == Do(c, states[i - 1], steps[i - 1]);
      assert before in states;
      StepKeepsKnown(c, before, steps[i - 1], s);
    }
  }

  lemma ReachableKnown(c: Config, s: Sys)
    requires ConfigOk(c) && Reachable(c, s)
    ensures KnownEndpoints(c, s.past)
  {
    var states, steps :| IsRun(c, states, steps) && s in states;
    var i :| 0 <= i < |states| && states[i] == s;
    RunKeepsKnown(c, states, steps, i, s);
  }

  lemma {:induction false} TranslatedAt(u2s: seq<byte>, rs: seq<Report>, k: nat)
    requires k < |rs|
    ensures |Translated(u2s, rs)| == |rs| && Translated(u2s, rs)[k] == Translate(u2s, rs[k])
  {
    if k > 0 {
      TranslatedAt(u2s, rs[1..], k - 1);
    } else {
      TranslatedLength(u2s, rs);
    }
  }

  lemma {:induction false} TranslatedLength(u2s: seq<byte>, rs: seq<Report>)
    ensures |Translated(u2s, rs)| == |rs|
  {
    if rs != [] {
      TranslatedLength(u2s, rs[1..]);
    }
  }

  lemma ReportAt(c: Config, s: Sys, k: nat)
    requires ConfigOk(c) && Reachable(c, s) && k < |s.past.reports|
    ensures k < |s.past.completed| && s.past.completed[k].endpoint in c.ins
    ensures s.past.reports[k] == Translate(c.u2s, s.past.completed[k])
  {
    Guarantees.ReportsInOrder(c, s);
    ReachableKnown(c, s);
    TranslatedLength(c.u2s, s.past.completed);
    TranslatedAt(c.u2s, s.past.completed, k);
    assert s.past.completed[k] in s.past.completed;
  }

  lemma InIsPaired(t: Tables, e: byte)
    requires Inverse(t) && e in ConfiguredIns(t)
    ensures Paired(t, e, Lookup(t.u2s, e)) && Direction(Lookup(t.u2s, e)) == 1
  {
    assert Plain(e);
  }

  /** The k-th report given to the target host is the k-th successful IN transfer of the device: the same bytes, on an IN
      endpoint numbered 1 to 6 that the tables translate back to the endpoint of the device. */
  lemma ReportsComeFromTheirEndpoint(d: Device, c: Config, s: Sys, k: nat)
    requires Supported(d) && SetUp(d) == Some(c) && Reachable(c, s) && k < |s.past.reports|
    ensures k < |s.past.completed|
    ensures var (r, q) := (s.past.reports[k], s.past.completed[k]);
            r.data == q.data && OnTarget(r.endpoint) && Direction(r.endpoint) == 1 && Lookup(c.s2u, r.endpoint) == q.endpoint
  {
    SetUpIsOk(d, c);
    ReportAt(c, s, k);
    TablesAreGood(d);
    InIsPaired(TablesOf(d), s.past.completed[k].endpoint);
  }

  lemma {:induction false} OutNumberIsListed(entries: seq<Entry>, number: byte) returns (i: nat)
    requires number in OutNumbers(entries)
    ensures i < |entries| && entries[i].number == number && number < 128
  {
    if entries[0].number < 128 && entries[0].number == number {
      i := 0;
    } else {
      var k := OutNumberIsListed(entries[1..], number);
      i := k + 1;
    }
  }

  lemma FirmwareOuts(d: Device, c: Config)
    requires Supported(d) && SetUp(d) == Some(c)
    ensures OutEndpoints(Padded(c.endpoints, MAX_ENDPOINTS * ENDPOINT_CONFIG_SIZE), 0) == OutNumbers(TablesOf(d).entries)
  {
    var entries := TablesOf(d).entries;
    TablesAreGood(d);
    assert entries[0..] == entries;
    FirmwareFindsOuts(entries, Padded(c.endpoints, MAX_ENDPOINTS * ENDPOINT_CONFIG_SIZE), 0);
  }

  lemma {:induction false} WritesAt(s2u: seq<byte>, values: seq<seq<byte>>, k: nat)
    requires k < |values|
    ensures k < |Writes(s2u, values)| && Writes(s2u, values)[k] == WriteOf(s2u, values[k])
  {
    if k > 0 {
      WritesAt(s2u, values[1..], k - 1);
    }
  }

  lemma {:induction false} WritesLength(s2u: seq<byte>, values: seq<seq<byte>>)
    ensures |Writes(s2u, values)| == |values|
  {
    if values != [] {
      WritesLength(s2u, values[1..]);
    }
  }

  lemma OutNumberIsPaired(t: Tables, number: byte)
    requires Inverse(t) && Listed(t) && number in OutNumbers(t.entries)
    ensures Paired(t, Lookup(t.s2u, number), number) && Direction(number) == 0
  {
    var i := OutNumberIsListed(t.entries, number);
    assert Lookup(t.s2u, t.entries[i].number) != 0;
  }

  /** The k-th write to the device is the k-th OUT packet of the firmware: the same bytes, to a configured OUT endpoint
      of the device, the one that the target number stands for. */
  lemma OutsReachTheirEndpoint(d: Device, c: Config, s: Sys, k: nat)
    requires Supported(d) && SetUp(d) == Some(c) && Reachable(c, s) && k < |s.h.outs|
    ensures k < |s.past.outSent| && s.past.outSent[k] != []
    ensures var (w, v) := (s.h.outs[k], s.past.outSent[k]);
            w.data == v[1..] && Plain(w.endpoint) && Direction(w.endpoint) == 0 && Lookup(c.u2s, w.endpoint) == v[0]
  {
    SetUpIsOk(d, c);
    Guarantees.OutsInOrder(c, s);
    ReachableKnown(c, s);
    WritesLength(c.s2u, s.past.outSent);
    WritesAt(c.s2u, s.past.outSent, k);
    var v := s.past.outSent[k];
    assert v in s.past.outSent;
    FirmwareOuts(d, c);
    TablesAreGood(d);
    OutNumberIsPaired(TablesOf(d), v[0]);
  }

  /** The started firmware sets up exactly the endpoint list of the PC, in order. */
  lemma ListIsSetUp(d: Device, c: Config, s: Sys)
    requires Supported(d) && SetUp(d) == Some(c) && Reachable(c, s) && s.fw.mem.started
    ensures SetUpEntries(s.fw.mem.endpoints, 0) == TablesOf(d).entries
    ensures var outs := OutIndexes(s.fw.mem.endpoints, 0);
            && (forall j :: j in outs <==> 0 <= j < |TablesOf(d).entries| && TablesOf(d).entries[j].number < 128)
            && (forall a, b :: 0 <= a < b < |outs| ==> outs[a] < outs[b])
  {
    var entries, raw := TablesOf(d).entries, d.configurations[0];
    SetUpIsOk(d, c);
    Guarantees.StartUpAgreement(c, s);
    TablesAreGood(d);
    RenumberProof.TreeApart(raw, Parse(raw).value);
    ListFitsTarget(raw, EndpointsOf(raw));
    assert entries[0..] == entries;
    FirmwareSetsUp(entries, s.fw.mem.endpoints, 0);
    FirmwareListsOuts(entries, s.fw.mem.endpoints, 0);
  }

  /** Each usable endpoint of the device is set up on the target's controller, once started: with its new address, as an
      interrupt endpoint, and with its own packet size. */
  lemma EndpointIsSetUp(d: Device, c: Config, s: Sys, i: nat)
    requires Supported(d) && SetUp(d) == Some(c) && Reachable(c, s) && s.fw.mem.started
    requires var (raw, offsets) := (d.configurations[0], EndpointsOf(d.configurations[0]));
             i < |offsets| && UsableAt(raw, Renumbers(raw, offsets), offsets, i)
    ensures var (raw, offsets) := (d.configurations[0], EndpointsOf(d.configurations[0]));
            Entry(NewAddress(raw, Renumbers(raw, offsets), offsets, i), 3, PacketSize(raw, offsets[i])) in SetUpEntries(s.fw.mem.endpoints, 0)
  {
    var raw, offsets := d.configurations[0], EndpointsOf(d.configurations[0]);
    ListIsSetUp(d, c, s);
    RenumberProof.TreeApart(raw, Parse(raw).value);
    ListIsEntered(raw, offsets);
    EntryOfDescriptor(raw, Renumbers(raw, offsets), offsets, i, |offsets|);
  }

  /** A control request to a configured endpoint of the target names, at the device, the endpoint it stands for; nothing
      else in it changes, and a request to another recipient does not change at all. */
  lemma SetupNamesTheirEndpoint(d: Device, c: Config, value: seq<byte>)
    requires Supported(d) && SetUp(d) == Some(c) && |value| >= SETUP_SIZE
    ensures var seen := TranslateSetup(c.s2u, value);
            && |seen| == |value| && seen[..4] == value[..4] && seen[6..] == value[6..]
            && (value[0] % 32 != 2 ==> seen == value)
            && (value[0] % 32 == 2 && value[5] == 0 && (exists i :: 0 <= i < |TablesOf(d).entries| && TablesOf(d).entries[i].number == value[4])
                ==> Plain(seen[4]) && seen[5] == 0 && Direction(seen[4]) == Direction(value[4]) && Lookup(c.u2s, seen[4]) == value[4])
  {
    SetupShape(c.s2u, value);
    TablesAreGood(d);
    var t := TablesOf(d);
    if i :| 0 <= i < |t.entries| && t.entries[i].number == value[4] {
      EntryIsPaired(t, i);
    }
  }

  /** Only the two bytes of wIndex may change. */
  lemma SetupShape(s2u: seq<byte>, value: seq<byte>)
    requires |value| >= SETUP_SIZE
    ensures var seen := TranslateSetup(s2u, value);
            && |seen| == |value| && seen[..4] == value[..4] && seen[6..] == value[6..]
            && (value[0] % 32 != USB_RECIP_ENDPOINT ==> seen == value)
            && (value[0] % 32 == USB_RECIP_ENDPOINT && value[5] == 0 && value[4] != 0 ==> seen[4] == Lookup(s2u, value[4]) && seen[5] == 0)
  {
  }

  lemma EntryIsPaired(t: Tables, i: nat)
    requires Inverse(t) && Listed(t) && i < |t.entries|
    ensures var (s, e) := (t.entries[i].number, Lookup(t.s2u, t.entries[i].number));
            s != 0 && Plain(e) && Direction(e) == Direction(s) && Lookup(t.u2s, e) == s
  {
    assert Paired(t, Lookup(t.s2u, t.entries[i].number), t.entries[i].number);
  }

  // ----- the same, byte by byte -----

  lemma CarriedState(d: Device, c: Config, l: Line) returns (s: Sys)
    requires Supported(d) && SetUp(d) == Some(c) && WireReachable(c, l)
    ensures Reachable(c, s) && s.h == l.h && s.fw == l.fw && s.past == l.past
  {
    SetUpIsOk(d, c);
    WireProof.WireRefines(c, l);
    s :| Reachable(c, s) && WireProof.Carries(l, s);
  }

  /** Whatever the timing of the bytes, the started firmware answers as the device's list of descriptors does, exactly when
      no HID class descriptor of type zero is announced. */
  lemma WireDescriptorsAgreeIff(d: Device, c: Config, l: Line)
    requires Supported(d) && SetUp(d) == Some(c) && WireReachable(c, l) && l.fw.mem.started
    ensures |l.fw.mem.index.bytes| == MAX_DESCRIPTORS * INDEX_ENTRY_SIZE
    ensures (forall f :: f in d.others ==> !EndsLookup(f))
       <==> (forall wValue, wIndex :: Agrees(l.fw.mem.descriptors.bytes, l.fw.mem.index.bytes, SentDescriptors(d), wValue, wIndex))
  {
    var s := CarriedState(d, c, l);
    DescriptorsAgreeIff(d, c, s);
  }

  lemma WireConfigurationIsAnswered(d: Device, c: Config, l: Line, i: nat)
    requires Supported(d) && SetUp(d) == Some(c) && WireReachable(c, l) && l.fw.mem.started && i < |d.configurations|
    ensures |l.fw.mem.index.bytes| == MAX_DESCRIPTORS * INDEX_ENTRY_SIZE
    ensures Answer(l.fw.mem.descriptors.bytes, LookupFrom(l.fw.mem.index.bytes, 0x200 + i, 0, 0))
         == Some(SentConfiguration(d.configurations[i], i))
  {
    var s := CarriedState(d, c, l);
    ConfigurationIsAnswered(d, c, s, i);
  }

  lemma WireListIsSetUp(d: Device, c: Config, l: Line)
    requires Supported(d) && SetUp(d) == Some(c) && WireReachable(c, l) && l.fw.mem.started
    ensures SetUpEntries(l.fw.mem.endpoints, 0) == TablesOf(d).entries
  {
    var s := CarriedState(d, c, l);
    ListIsSetUp(d, c, s);
  }

  lemma WireReportsComeFromTheirEndpoint(d: Device, c: Config, l: Line, k: nat)
    requires Supported(d) && SetUp(d) == Some(c) && WireReachable(c, l) && k < |l.past.reports|
    ensures k < |l.past.completed|
    ensures var (r, q) := (l.past.reports[k], l.past.completed[k]);
            r.data == q.data && OnTarget(r.endpoint) && Direction(r.endpoint) == 1 && Lookup(c.s2u, r.endpoint) == q.endpoint
  {
    var s := CarriedState(d, c, l);
    ReportsComeFromTheirEndpoint(d, c, s, k);
  }

  lemma WireOutsReachTheirEndpoint(d: Device, c: Config, l: Line, k: nat)
    requires Supported(d) && SetUp(d) == Some(c) && WireReachable(c, l) && k < |l.h.outs|
    ensures k < |l.past.outSent| && l.past.outSent[k] != []
    ensures var (w, v) := (l.h.outs[k], l.past.outSent[k]);
            w.data == v[1..] && Plain(w.endpoint) && Direction(w.endpoint) == 0 && Lookup(c.u2s, w.endpoint) == v[0]
  {
    var s := CarriedState(d, c, l);
    OutsReachTheirEndpoint(d, c, s, k);
  }
}
