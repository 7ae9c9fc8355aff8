/** fix_endpoints itself: nested loops that rewrite raw configurations and fill the tables in place. */
module FixEndpoints {
  import opened Protocol
  import opened Proxy
  import opened RawConfig
  import opened Renumber
  import opened TablesProof

  // ----- where a loop over a tree stands in the list of its endpoints -----

  lemma {:induction false} AltEndpointsSplit(alts: seq<Alt>, a: nat)
    requires a <= |alts|
    ensures AltEndpoints(alts) == AltEndpoints(alts[..a]) + AltEndpoints(alts[a..])
  {
    if a > 0 {
      AltEndpointsSplit(alts[1..], a - 1);
      assert alts[..a][1..] == alts[1..][..a - 1] && alts[a..] == alts[1..][a - 1..];
    } else {
      assert alts[a..] == alts;
    }
  }

  lemma {:induction false} TreeEndpointsSplit(tree: Tree, n: nat)
    requires n <= |tree|
    ensures TreeEndpoints(tree) == TreeEndpoints(tree[..n]) + TreeEndpoints(tree[n..])
  {
    if n > 0 {
      TreeEndpointsSplit(tree[1..], n - 1);
      assert tree[..n][1..] == tree[1..][..n - 1] && tree[n..] == tree[1..][n - 1..];
    } else {
      assert tree[n..] == tree;
    }
  }

  /** How many endpoints come before alternate setting `a` of interface `n`. */
  function Before(tree: Tree, n: nat, a: nat): nat
    requires n < |tree| && a <= |tree[n]|
  {
    |TreeEndpoints(tree[..n])| + |AltEndpoints(tree[n][..a])|
  }

  function BeforeInterface(tree: Tree, n: nat): nat
    requires n <= |tree|
  {
    |TreeEndpoints(tree[..n])|
  }

  lemma NextInterface(tree: Tree, n: nat)
    requires n < |tree|
    ensures Before(tree, n, 0) == BeforeInterface(tree, n)
    ensures BeforeInterface(tree, n + 1) == Before(tree, n, |tree[n]|)
  {
    TreeEndpointsSplit(tree[..n + 1], n);
    assert tree[..n + 1][..n] == tree[..n] && tree[..n + 1][n..] == [tree[n]];
    assert TreeEndpoints([tree[n]]) == AltEndpoints(tree[n]) + TreeEndpoints([]);
    assert tree[n][..|tree[n]|] == tree[n];
  }

  lemma NextSetting(tree: Tree, n: nat, a: nat)
    requires n < |tree| && a < |tree[n]|
    ensures Before(tree, n, a + 1) == Before(tree, n, a) + |tree[n][a].endpoints|
  {
    var alts := tree[n];
    AltEndpointsSplit(alts[..a + 1], a);
    assert alts[..a + 1][..a] == alts[..a] && alts[..a + 1][a..] == [alts[a]];
    assert AltEndpoints([alts[a]]) == alts[a].endpoints + AltEndpoints([]);
  }

  lemma Slice<T>(whole: seq<T>, a: seq<T>, b: seq<T>, c: seq<T>, d: seq<T>)
    requires whole == a + ((b + (c + d)))
    ensures |a| + |b| + |c| <= |whole| && whole[|a| + |b|..|a| + |b| + |c|] == c
  {
  }

  lemma SettingSplit(tree: Tree, n: nat, a: nat) returns (later: seq<nat>)
    requires n < |tree| && a < |tree[n]|
    ensures TreeEndpoints(tree) == TreeEndpoints(tree[..n]) + (AltEndpoints(tree[n][..a]) + (tree[n][a].endpoints + later))
  {
    TreeEndpointsSplit(tree, n);
    var others := TreeEndpoints(tree[n..][1..]);
    assert TreeEndpoints(tree[n..]) == AltEndpoints(tree[n]) + others;
    AltEndpointsSplit(tree[n], a);
    var before, here, rest := AltEndpoints(tree[n][..a]), tree[n][a].endpoints, AltEndpoints(tree[n][a..][1..]);
    assert AltEndpoints(tree[n]) == before + (here + rest);
    later := rest + others;
    Regroup(before, here, rest, others);
  }

  lemma Regroup<T>(a: seq<T>, b: seq<T>, c: seq<T>, d: seq<T>)
    ensures a + (b + c) + d == a + (b + (c + d))
  {
  }

  lemma SettingAt(tree: Tree, n: nat, a: nat)
    requires n < |tree| && a < |tree[n]|
    ensures var (k, endpoints) := (Before(tree, n, a), tree[n][a].endpoints);
            k + |endpoints| <= |TreeEndpoints(tree)| && TreeEndpoints(tree)[k..k + |endpoints|] == endpoints
  {
    var later := SettingSplit(tree, n, a);
    Slice(TreeEndpoints(tree), TreeEndpoints(tree[..n]), AltEndpoints(tree[n][..a]), tree[n][a].endpoints, later);
  }

  lemma AllInterfaces(tree: Tree)
    ensures BeforeInterface(tree, |tree|) == |TreeEndpoints(tree)|
  {
    assert tree[..|tree|] == tree;
  }

  // ----- comparing properties -----

  /** compare_endpoint_properties */
  method CompareEndpointProperties(source: seq<set<Property>>, target: seq<set<Property>>) returns (renumber: bool)
    requires |source| == |target| == ENDPOINT_MAX_NUMBER
    ensures renumber == MustRenumber(source, target)
  {
    for i := 0 to ENDPOINT_MAX_NUMBER
      invariant forall j :: 0 <= j < i ==> source[j] <= target[j]
    {
      if source[i] != {} && target[i] * source[i] != source[i] {
        return true;
      }
    }
    return false;
  }

  /** The innermost loop of get_endpoint_properties, over the endpoints of one alternate setting. */
  method AddSettingProperties(raw: array<byte>, source: seq<set<Property>>, endpoints: seq<nat>, ghost offsets: seq<nat>, ghost k: nat)
    returns (props: seq<set<Property>>)
    requires InBounds(raw[..], offsets) && k + |endpoints| <= |offsets| && offsets[k..k + |endpoints|] == endpoints
    requires source == Properties(raw[..], offsets, k)
    ensures props == Properties(raw[..], offsets, k + |endpoints|)
  {
    props := source;
    for e := 0 to |endpoints|
      invariant props == Properties(raw[..], offsets, k + e)
    {
      var o := endpoints[e];
      assert o == offsets[k + e];
      var i := Number(raw[o + 2]) - 1;
      if 0 <= i {
        props := props[i := Widen(props[i], raw[o + 3] % 4, raw[o + 2])];
      }
    }
  }

  /** get_endpoint_properties */
  method GetEndpointProperties(raw: array<byte>, tree: Tree) returns (props: seq<set<Property>>)
    requires InBounds(raw[..], TreeEndpoints(tree))
    ensures props == Properties(raw[..], TreeEndpoints(tree), |TreeEndpoints(tree)|)
  {
    ghost var offsets := TreeEndpoints(tree);
    props := seq(ENDPOINT_MAX_NUMBER, _ => {});
    for n := 0 to |tree|
      invariant BeforeInterface(tree, n) <= |offsets| && props == Properties(raw[..], offsets, BeforeInterface(tree, n))
    {
      NextInterface(tree, n);
      for a := 0 to |tree[n]|
        invariant Before(tree, n, a) <= |offsets| && props == Properties(raw[..], offsets, Before(tree, n, a))
      {
        SettingAt(tree, n, a);
        NextSetting(tree, n, a);
        props := AddSettingProperties(raw, props, tree[n][a].endpoints, offsets, Before(tree, n, a));
      }
    }
    AllInterfaces(tree);
  }

  // ----- the tables in place -----

  class EndpointTables {
    const serialToUsb: array<byte>
    const usbToSerial: array<byte>
    const endpoints: array<Entry>
    var count: nat   // how far pEndpoints has advanced

    ghost predicate Valid()
      reads this
    {
      && serialToUsb.Length == usbToSerial.Length == TABLE_SIZE && endpoints.Length == MAX_ENDPOINTS
      && serialToUsb != usbToSerial && count <= MAX_ENDPOINTS
    }

    ghost function View(): Tables
      reads this, serialToUsb, usbToSerial, endpoints
      requires Valid()
    {
      Tables(usbToSerial[..], serialToUsb[..], endpoints[..count])
    }

    constructor ()
      ensures Valid() && fresh(serialToUsb) && fresh(usbToSerial) && fresh(endpoints)
      ensures View() == EmptyTables()
    {
      serialToUsb := new byte[TABLE_SIZE](_ => 0);
      usbToSerial := new byte[TABLE_SIZE](_ => 0);
      endpoints := new Entry[MAX_ENDPOINTS](_ => Entry(0, 0, 0));
      count := 0;
    }

    /** The innermost loop body of fix_endpoints, for the descriptor at `o`. */
    method FixEndpoint(configuration: nat, renumber: bool, raw: array<byte>, number: byte, o: nat) returns (number': byte)
      requires Valid() && raw != serialToUsb && raw != usbToSerial && o + ENDPOINT_SIZE <= raw.Length
      requires configuration == 0 ==> number < 255 && |FixOne(configuration, renumber, Fix(raw[..], number, View()), o).tables.entries| <= MAX_ENDPOINTS
      modifies this`count, serialToUsb, usbToSerial, endpoints, raw
      ensures Valid() && Fix(raw[..], number', View()) == FixOne(configuration, renumber, Fix(old(raw[..]), number, old(View())), o)
    {
      ghost var before := Fix(raw[..], number, View());
      var original := raw[o + 2];
      number' := number;
      if renumber {
        number' := (number + 1) % 256;
        raw[o + 2] := WithNumber(original, number');
      }
      var address := raw[o + 2];
      ghost var rewritten := before.raw[o + 2 := address];
      assert raw[..] == rewritten;
      if Number(original) == 0 {
        return;
      }
      if configuration > 0 {
        return;
      }
      if raw[o + 3] % 4 != XFER_INT {
        return;
      }
      if raw[o + 4] as int + 256 * raw[o + 5] as int > MAX_PAYLOAD_SIZE_EP {
        return;
      }
      if number' > MAX_ENDPOINTS {
        return;
      }
      assert Usable(configuration, rewritten, o, original, number');
      Configure(original, address, raw[o + 3] % 4, raw[o + 4]);
    }

    /** The end of the innermost loop body: the endpoint is entered into the tables and the list. */
    method Configure(original: byte, address: byte, kind: byte, size: byte)
      requires Valid() && count < MAX_ENDPOINTS && 0 <= Cell(original) < TABLE_SIZE && 0 <= Cell(address) < TABLE_SIZE
      modifies this`count, serialToUsb, usbToSerial, endpoints
      ensures Valid()
      ensures View() == Tables(Put(old(View()).u2s, original, address), Put(old(View()).s2u, address, original),
                               old(View()).entries + [Entry(address, kind, size)])
    {
      usbToSerial[Cell(original)] := address;
      serialToUsb[Cell(address)] := original;
      endpoints[count] := Entry(address, kind, size);
      count := count + 1;
    }

    /** The innermost loop of fix_endpoints, over the endpoints of one alternate setting; `k` endpoints of the
        configuration come before it. */
    method FixSetting(configuration: nat, renumber: bool, raw: array<byte>, number: byte, endpoints: seq<nat>,
                      ghost start: Fix, ghost offsets: seq<nat>, ghost k: nat) returns (number': byte)
      requires Valid() && raw != serialToUsb && raw != usbToSerial && raw.Length == |start.raw| && InBounds(start.raw, offsets)
      requires k + |endpoints| <= |offsets| && offsets[k..k + |endpoints|] == endpoints
      requires configuration == 0 ==> RoundsFit(renumber, start, offsets)
      requires Fix(raw[..], number, View()) == FixFirst(configuration, renumber, start, offsets, k)
      modifies this`count, serialToUsb, usbToSerial, this.endpoints, raw
      ensures Valid() && Fix(raw[..], number', View()) == FixFirst(configuration, renumber, start, offsets, k + |endpoints|)
    {
      number' := number;
      for e := 0 to |endpoints|
        invariant Valid() && Fix(raw[..], number', View()) == FixFirst(configuration, renumber, start, offsets, k + e)
      {
        assert endpoints[e] == offsets[k + e];
        if configuration == 0 {
          assert RoundFits(renumber, start, offsets, k + e);
        }
        number' := FixEndpoint(configuration, renumber, raw, number', endpoints[e]);
      }
    }

    /** The loop of fix_endpoints over the alternate settings of interface `n`. */
    method FixInterface(configuration: nat, renumber: bool, raw: array<byte>, number: byte, tree: Tree, n: nat, ghost start: Fix) returns (number': byte)
      requires Valid() && raw != serialToUsb && raw != usbToSerial && raw.Length == |start.raw| && n < |tree|
      requires InBounds(start.raw, TreeEndpoints(tree)) && Before(tree, n, 0) <= |TreeEndpoints(tree)|
      requires configuration == 0 ==> RoundsFit(renumber, start, TreeEndpoints(tree))
      requires Fix(raw[..], number, View()) == FixFirst(configuration, renumber, start, TreeEndpoints(tree), Before(tree, n, 0))
      modifies this`count, serialToUsb, usbToSerial, endpoints, raw
      ensures Valid() && Before(tree, n, |tree[n]|) <= |TreeEndpoints(tree)|
      ensures Fix(raw[..], number', View()) == FixFirst(configuration, renumber, start, TreeEndpoints(tree), Before(tree, n, |tree[n]|))
    {
      number' := number;
      for a := 0 to |tree[n]|
        invariant Valid() && Before(tree, n, a) <= |TreeEndpoints(tree)|
        invariant Fix(raw[..], number', View()) == FixFirst(configuration, renumber, start, TreeEndpoints(tree), Before(tree, n, a))
      {
        SettingAt(tree, n, a);
        NextSetting(tree, n, a);
        number' := FixSetting(configuration, renumber, raw, number', tree[n][a].endpoints, start, TreeEndpoints(tree), Before(tree, n, a));
      }
    }

    /** One round of the outer loop of fix_endpoints. */
    method FixConfigurationAt(configuration: nat, raw: array<byte>, tree: Tree)
      requires Valid() && raw != serialToUsb && raw != usbToSerial
      requires Apart(raw[..], TreeEndpoints(tree))
      requires configuration == 0 ==> FitsArrays(raw[..], TreeEndpoints(tree)) && View() == EmptyTables()
      modifies this`count, serialToUsb, usbToSerial, endpoints, raw
      ensures Valid()
      ensures var f := FixConfiguration(configuration, old(raw[..]), old(View()), TreeEndpoints(tree)); raw[..] == f.raw && View() == f.tables
    {
      ghost var offsets, start := TreeEndpoints(tree), Fix(raw[..], 0, View());
      var source := GetEndpointProperties(raw, tree);
      var renumber := CompareEndpointProperties(source, TargetProperties());
      if configuration == 0 {
        RoundsFitIff(raw[..], offsets);
      }
      assert InBounds(start.raw, offsets);
      var number: byte := 0;
      for n := 0 to |tree|
        invariant Valid() && raw.Length == |start.raw| && BeforeInterface(tree, n) <= |offsets|
        invariant Fix(raw[..], number, View()) == FixFirst(configuration, renumber, start, offsets, BeforeInterface(tree, n))
      {
        NextInterface(tree, n);
        number := FixInterface(configuration, renumber, raw, number, tree, n, start);
      }
      AllInterfaces(tree);
    }

    method FixParsed(configuration: nat, c: Configuration)
      requires Valid() && c.raw != serialToUsb && c.raw != usbToSerial && Apart(c.raw[..], TreeEndpoints(c.interfaces))
      requires configuration == 0 ==> FitsArrays(c.raw[..], TreeEndpoints(c.interfaces)) && View() == EmptyTables()
      modifies this`count, serialToUsb, usbToSerial, endpoints, c.raw
      ensures Valid() && IsRewritten(old(c.raw[..]), c.raw[..], c.interfaces)
      ensures View() == if configuration == 0 then FinalTables(old(c.raw[..]), TreeEndpoints(c.interfaces)) else old(View())
    {
      ghost var raw0, t, offsets := c.raw[..], View(), TreeEndpoints(c.interfaces);
      FixConfigurationAt(configuration, c.raw, c.interfaces);
      BytesAfter(configuration, Renumbers(raw0, offsets), raw0, t, offsets, |offsets|);
      if configuration > 0 {
        LaterKeepTables(configuration, Renumbers(raw0, offsets), Fix(raw0, 0, t), offsets, |offsets|);
      }
    }

    /** The configurations hold their bytes in arrays of their own; that their endpoint descriptors do not overlap is what
        parsing them gives. */
    ghost predicate Separate(configurations: seq<Configuration>, raws: seq<seq<byte>>)
      reads configurations
    {
      && |raws| == |configurations| > 0
      && (forall i :: 0 <= i < |raws| ==> configurations[i].raw != serialToUsb && configurations[i].raw != usbToSerial)
      && (forall i :: 0 <= i < |raws| ==> configurations[i].raw.Length == |raws[i]| && Apart(raws[i], TreeEndpoints(configurations[i].interfaces)))
      && (forall i, j :: 0 <= i < j < |raws| ==> configurations[i].raw != configurations[j].raw)
      && InBounds(raws[0], TreeEndpoints(configurations[0].interfaces)) && FitsArrays(raws[0], TreeEndpoints(configurations[0].interfaces))
    }

    /** The first `i` configurations are rewritten, the others are as before, and the tables are those of the first one. */
    ghost predicate FixedUpTo(configurations: seq<Configuration>, raws: seq<seq<byte>>, i: nat)
      reads this, serialToUsb, usbToSerial, endpoints, configurations, set c | c in configurations :: c.raw
      requires Separate(configurations, raws) && i <= |raws|
    {
      && Valid() && InBounds(raws[0], TreeEndpoints(configurations[0].interfaces))
      && View() == (if i == 0 then EmptyTables() else FinalTables(raws[0], TreeEndpoints(configurations[0].interfaces)))
      && (forall j :: i <= j < |raws| ==> configurations[j].raw[..] == raws[j])
      && (forall j :: 0 <= j < i ==> IsRewritten(raws[j], configurations[j].raw[..], configurations[j].interfaces))
    }

    /** fix_endpoints, on configurations with the bytes `raws`: each is rewritten, and the tables are those of the first one. */
    method FixAll(configurations: seq<Configuration>, ghost raws: seq<seq<byte>>)
      requires Separate(configurations, raws) && FixedUpTo(configurations, raws, 0)
      modifies this`count, serialToUsb, usbToSerial, endpoints, set c | c in configurations :: c.raw
      ensures Separate(configurations, raws) && FixedUpTo(configurations, raws, |raws|)
    {
      count := 0;
      for i := 0 to |configurations|
        invariant Separate(configurations, raws) && FixedUpTo(configurations, raws, i)
      {
        FixNext(configurations, raws, i);
      }
    }

    /** One round of its outer loop. */
    method FixNext(configurations: seq<Configuration>, ghost raws: seq<seq<byte>>, i: nat)
      requires Separate(configurations, raws) && i < |raws| && FixedUpTo(configurations, raws, i)
      modifies this`count, serialToUsb, usbToSerial, endpoints, configurations[i].raw
      ensures FixedUpTo(configurations, raws, i + 1)
    {
      ghost var tree := configurations[i].interfaces;
      assert configurations[i].raw[..] == raws[i] && Apart(raws[i], TreeEndpoints(tree));
      FixParsed(i, configurations[i]);
    }
  }

  /** The endpoints of the tree have their new addresses, and every other byte is as before. */
  ghost predicate IsRewritten(raw: seq<byte>, raw': seq<byte>, tree: Tree) {
    var offsets := TreeEndpoints(tree);
    InBounds(raw, offsets) && Rewritten(raw, raw', Renumbers(raw, offsets), offsets, |offsets|)
  }

  lemma {:induction false} LaterKeepTables(configuration: nat, renumber: bool, f: Fix, offsets: seq<nat>, k: nat)
    requires InBounds(f.raw, offsets) && k <= |offsets| && configuration > 0
    ensures FixFirst(configuration, renumber, f, offsets, k).tables == f.tables
  {
    if k > 0 {
      LaterKeepTables(configuration, renumber, f, offsets, k - 1);
    }
  }

  // ----- the array bounds -----

  ghost predicate RoundFits(renumber: bool, start: Fix, offsets: seq<nat>, k: nat)
    requires InBounds(start.raw, offsets) && k < |offsets|
  {
    && FixFirst(0, renumber, start, offsets, k).number < 255
    && |FixFirst(0, renumber, start, offsets, k + 1).tables.entries| <= MAX_ENDPOINTS
  }

  /** Each round on the first configuration finds a number below 255 and leaves at most six entries. */
  ghost predicate RoundsFit(renumber: bool, start: Fix, offsets: seq<nat>)
    requires InBounds(start.raw, offsets)
  {
    forall k :: 0 <= k < |offsets| ==> RoundFits(renumber, start, offsets, k)
  }

  lemma NumberBelow(raw: seq<byte>, renumber: bool, offsets: seq<nat>, k: nat, start: Fix)
    requires Apart(raw, offsets) && k < |offsets| < 256 && start == Fix(raw, 0, EmptyTables())
    ensures FixFirst(0, renumber, start, offsets, k).number < 255
  {
    BytesAfter(0, renumber, raw, EmptyTables(), offsets, k);
  }

  lemma RoundOf(raw: seq<byte>, renumber: bool, offsets: seq<nat>, k: nat, start: Fix)
    requires Apart(raw, offsets) && PlainEndpoints(raw, offsets) && k < |offsets| && start == Fix(raw, 0, EmptyTables())
    ensures RoundFits(renumber, start, offsets, k) <==> |Entered(raw, renumber, offsets, k + 1)| <= MAX_ENDPOINTS
  {
    var m := k + 1;
    var f := RepeatedAfter(raw, renumber, offsets, m, start);
    NumberBelow(raw, renumber, offsets, k, start);
    assert f.tables.entries == Entered(raw, renumber, offsets, m) && f == FixFirst(0, renumber, start, offsets, m);
  }

  /** No round writes past the end of an array exactly when the usable endpoint descriptors are at most six. */
  lemma RoundsFitIff(raw: seq<byte>, offsets: seq<nat>)
    requires Apart(raw, offsets) && PlainEndpoints(raw, offsets)
    ensures RoundsFit(Renumbers(raw, offsets), Fix(raw, 0, EmptyTables()), offsets) <==> FitsArrays(raw, offsets)
  {
    var renumber, start, n := Renumbers(raw, offsets), Fix(raw, 0, EmptyTables()), |offsets|;
    forall k | 0 <= k < n
      ensures |Entered(raw, renumber, offsets, k + 1)| <= |Entered(raw, renumber, offsets, n)|
      ensures RoundFits(renumber, start, offsets, k) <==> |Entered(raw, renumber, offsets, k + 1)| <= MAX_ENDPOINTS
    {
      EnteredGrows(raw, renumber, offsets, k + 1, n);
      RoundOf(raw, renumber, offsets, k, start);
    }
    if n > 0 && RoundsFit(renumber, start, offsets) {
      assert RoundFits(renumber, start, offsets, n - 1);
    }
  }
}
