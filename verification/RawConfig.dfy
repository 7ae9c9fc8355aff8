/** The parser of a raw USB configuration: it walks the chain of descriptors and builds, per interface, the
    alternate settings and the endpoint descriptors that belong to them, all by their offset in the raw bytes. */
module RawConfig {
  import opened Protocol
  import opened Wrappers

  const DT_INTERFACE := 4
  const DT_ENDPOINT := 5
  const DT_HID := 33
  const INTERFACE_SIZE := 9
  const ENDPOINT_SIZE := 7
  const CONFIG_SIZE := 9

  /** An alternate setting: its interface descriptor and its endpoint descriptors. */
  datatype Alt = Alt(descriptor: nat, endpoints: seq<nat>)

  type Tree = seq<seq<Alt>>

  // ----- the chain of descriptors -----

  /** From `p` to `end`, descriptors of at least header size follow each other exactly; interface and endpoint
      descriptors have at least the size the USB specification gives them (sections 9.6.5 and 9.6.6 of USB 2.0). */
  predicate Chained(raw: seq<byte>, p: nat, end: nat)
    requires end <= |raw|
    decreases end - p
  {
    p == end
    || (&& p + 2 <= end && raw[p] >= 2 && p + raw[p] <= end
        && (raw[p + 1] == DT_INTERFACE ==> raw[p] >= INTERFACE_SIZE)
        && (raw[p + 1] == DT_ENDPOINT ==> raw[p] >= ENDPOINT_SIZE)
        && Chained(raw, p + raw[p], end))
  }

  /** The endpoint descriptors of the chain, in byte order. */
  function EndpointOffsets(raw: seq<byte>, p: nat, end: nat): seq<nat>
    requires end <= |raw| && Chained(raw, p, end)
    decreases end - p
  {
    if p == end then []
    else (if raw[p + 1] == DT_ENDPOINT then [p] else []) + EndpointOffsets(raw, p + raw[p], end)
  }

  /** The endpoint descriptors from `p` up to the next interface descriptor. */
  function EndpointsUntilInterface(raw: seq<byte>, p: nat, end: nat): seq<nat>
    requires end <= |raw| && Chained(raw, p, end)
    decreases end - p
  {
    if p == end || raw[p + 1] == DT_INTERFACE then []
    else (if raw[p + 1] == DT_ENDPOINT then [p] else []) + EndpointsUntilInterface(raw, p + raw[p], end)
  }

  /** The alternate settings of interface `n`, in byte order, each with the endpoint descriptors that follow
      its interface descriptor before the next one. */
  function SettingsOf(raw: seq<byte>, p: nat, end: nat, n: nat): seq<Alt>
    requires end <= |raw| && Chained(raw, p, end)
    decreases end - p
  {
    if p == end then []
    else
      (if raw[p + 1] == DT_INTERFACE && raw[p + 2] == n then [Alt(p, EndpointsUntilInterface(raw, p + raw[p], end))] else [])
      + SettingsOf(raw, p + raw[p], end, n)
  }

  // ----- the walk -----

  /** The tree so far and the interface descriptor met last. */
  datatype Walker = Walker(tree: Tree, current: Option<nat>)

  /** get_interface succeeds. */
  predicate HasInterface(raw: seq<byte>, w: Walker) {
    && w.current.Some? && w.current.value + 3 < |raw|
    && raw[w.current.value + 2] < |w.tree|
    && raw[w.current.value + 3] < |w.tree[raw[w.current.value + 2]]|
  }

  function AddEndpoint(raw: seq<byte>, w: Walker, p: nat): Walker
    requires HasInterface(raw, w)
  {
    var n, a := raw[w.current.value + 2], raw[w.current.value + 3];
    var alt := w.tree[n][a];
    w.(tree := w.tree[n := w.tree[n][a := alt.(endpoints := alt.endpoints + [p])]])
  }

  /** One round of the loop of probe_configurations. */
  function Visit(raw: seq<byte>, w: Walker, p: nat): Option<Walker>
    requires p + 2 <= |raw| && (raw[p + 1] == DT_INTERFACE ==> p + INTERFACE_SIZE <= |raw|)
  {
    if raw[p + 1] == DT_INTERFACE then
      if raw[p + 2] >= |w.tree| then None
      else Some(Walker(w.tree[raw[p + 2] := w.tree[raw[p + 2]] + [Alt(p, [])]], Some(p)))
    else if raw[p + 1] == DT_ENDPOINT then
      if HasInterface(raw, w) then Some(AddEndpoint(raw, w, p)) else None
    else if raw[p + 1] == DT_HID then
      if HasInterface(raw, w) then Some(w) else None
    else Some(w)
  }

  function Walk(raw: seq<byte>, w: Walker, p: nat, end: nat): Option<Walker>
    requires end <= |raw| && Chained(raw, p, end)
    decreases end - p
  {
    if p == end then Some(w)
    else
      match Visit(raw, w, p)
      case None => None
      case Some(w') => Walk(raw, w', p + raw[p], end)
  }

  /** The total length announced by the configuration descriptor. */
  function TotalLength(raw: seq<byte>): nat
    requires |raw| >= CONFIG_SIZE
  {
    raw[2] as int + 256 * raw[3] as int
  }

  /** A configuration descriptor, followed by a chain up to the announced length. */
  predicate WellFormed(raw: seq<byte>) {
    && |raw| >= CONFIG_SIZE && CONFIG_SIZE <= raw[0] <= TotalLength(raw) <= |raw|
    && Chained(raw, raw[0], TotalLength(raw))
  }

  function EmptyTree(n: nat): Tree { seq(n, _ => []) }

  /** probe_configurations for one configuration. */
  function Parse(raw: seq<byte>): Option<Tree>
    requires WellFormed(raw)
  {
    match Walk(raw, Walker(EmptyTree(raw[4]), None), raw[0], TotalLength(raw))
    case None => None
    case Some(w) => Some(w.tree)
  }

  // ----- alternate settings in order -----

  /** Each interface descriptor carries the next alternate setting number of its interface (section 9.6.5 of USB 2.0). */
  predicate InOrder(raw: seq<byte>, counts: seq<nat>, p: nat, end: nat)
    requires end <= |raw| && Chained(raw, p, end)
    decreases end - p
  {
    p == end
    || (if raw[p + 1] == DT_INTERFACE && raw[p + 2] < |counts| then
          raw[p + 3] == counts[raw[p + 2]]
          && InOrder(raw, counts[raw[p + 2] := counts[raw[p + 2]] + 1], p + raw[p], end)
        else InOrder(raw, counts, p + raw[p], end))
  }

  function Counts(tree: Tree): seq<nat> { seq(|tree|, i requires 0 <= i < |tree| => |tree[i]|) }

  /** The walk stands right behind the last setting of the current interface. */
  predicate AtLast(raw: seq<byte>, w: Walker) {
    w.current.Some? ==>
      && w.current.value + 3 < |raw|
      && raw[w.current.value + 2] < |w.tree|
      && raw[w.current.value + 3] == |w.tree[raw[w.current.value + 2]]| - 1
      && w.tree[raw[w.current.value + 2]][raw[w.current.value + 3]].descriptor == w.current.value
  }

  /** The interface of the current interface descriptor is `i`. */
  predicate CurrentIs(raw: seq<byte>, w: Walker, i: nat) {
    w.current.Some? && w.current.value + 2 < |raw| && raw[w.current.value + 2] == i
  }

  /** The settings of interface `i` collected so far, the last one completed if it belongs to the current interface descriptor. */
  function Collected(raw: seq<byte>, w: Walker, p: nat, end: nat, i: nat): seq<Alt>
    requires end <= |raw| && Chained(raw, p, end) && AtLast(raw, w) && i < |w.tree|
  {
    if CurrentIs(raw, w, i) then
      var last := |w.tree[i]| - 1;
      w.tree[i][..last] + [w.tree[i][last].(endpoints := w.tree[i][last].endpoints + EndpointsUntilInterface(raw, p, end))]
    else w.tree[i]
  }

  lemma CollectedAtEnd(raw: seq<byte>, w: Walker, end: nat, i: nat)
    requires end <= |raw| && AtLast(raw, w) && i < |w.tree|
    ensures Collected(raw, w, end, end, i) + SettingsOf(raw, end, end, i) == w.tree[i]
  {
    if CurrentIs(raw, w, i) {
      var last := |w.tree[i]| - 1;
      assert w.tree[i][last].endpoints + [] == w.tree[i][last].endpoints;
      assert w.tree[i] == w.tree[i][..last] + [w.tree[i][last]];
    }
  }

  lemma CollectedAfterInterface(raw: seq<byte>, w: Walker, p: nat, end: nat, w': Walker, i: nat)
    requires end <= |raw| && Chained(raw, p, end) && p < end && i < |w.tree|
    requires raw[p + 1] == DT_INTERFACE && raw[p + 2] < |w.tree|
    requires w' == Walker(w.tree[raw[p + 2] := w.tree[raw[p + 2]] + [Alt(p, [])]], Some(p)) && AtLast(raw, w')
    ensures Collected(raw, w', p + raw[p], end, i) + SettingsOf(raw, p + raw[p], end, i) == w.tree[i] + SettingsOf(raw, p, end, i)
  {
    var q := p + raw[p];
    var later := SettingsOf(raw, q, end, i);
    if raw[p + 2] == i {
      var until := EndpointsUntilInterface(raw, q, end);
      assert [] + until == until;
      assert w'.tree[i][..|w.tree[i]|] == w.tree[i];
      assert Collected(raw, w', q, end, i) == w.tree[i] + [Alt(p, until)];
      assert w.tree[i] + [Alt(p, until)] + later == w.tree[i] + ([Alt(p, until)] + later);
    } else {
      assert [] + later == later;
    }
  }

  lemma CollectedAfterOther(raw: seq<byte>, w: Walker, p: nat, end: nat, w': Walker, i: nat)
    requires end <= |raw| && Chained(raw, p, end) && p < end && i < |w.tree| && AtLast(raw, w) && AtLast(raw, w')
    requires raw[p + 1] != DT_INTERFACE
    requires if raw[p + 1] == DT_ENDPOINT then HasInterface(raw, w) && w' == AddEndpoint(raw, w, p) else w' == w
    ensures Collected(raw, w', p + raw[p], end, i) == Collected(raw, w, p, end, i)
  {
    if CurrentIs(raw, w, i) {
      var last, until := |w.tree[i]| - 1, EndpointsUntilInterface(raw, p + raw[p], end);
      var here := if raw[p + 1] == DT_ENDPOINT then [p] else [];
      var had := w.tree[i][last].endpoints;
      assert had + (here + until) == had + here + until;
      assert w'.tree[i][..last] == w.tree[i][..last];
      assert w'.tree[i][last].endpoints == had + here;
    }
  }

  lemma CollectedStep(raw: seq<byte>, w: Walker, p: nat, end: nat, w': Walker, i: nat)
    requires end <= |raw| && Chained(raw, p, end) && p < end && i < |w.tree|
    requires AtLast(raw, w) && AtLast(raw, w') && Visit(raw, w, p) == Some(w')
    ensures Collected(raw, w', p + raw[p], end, i) + SettingsOf(raw, p + raw[p], end, i)
         == Collected(raw, w, p, end, i) + SettingsOf(raw, p, end, i)
  {
    if raw[p + 1] == DT_INTERFACE {
      CollectedAtInterface(raw, w, p, end, i);
      CollectedAfterInterface(raw, w, p, end, w', i);
    } else {
      CollectedAfterOther(raw, w, p, end, w', i);
      assert [] + SettingsOf(raw, p + raw[p], end, i) == SettingsOf(raw, p + raw[p], end, i);
    }
  }

  lemma CollectedAtInterface(raw: seq<byte>, w: Walker, p: nat, end: nat, i: nat)
    requires end <= |raw| && Chained(raw, p, end) && p < end && i < |w.tree| && AtLast(raw, w)
    requires raw[p + 1] == DT_INTERFACE
    ensures Collected(raw, w, p, end, i) == w.tree[i]
  {
    if CurrentIs(raw, w, i) {
      var last := |w.tree[i]| - 1;
      assert w.tree[i][last].endpoints + [] == w.tree[i][last].endpoints;
      assert w.tree[i] == w.tree[i][..last] + [w.tree[i][last]];
    }
  }

  lemma VisitKeepsOrder(raw: seq<byte>, w: Walker, p: nat, end: nat, w': Walker)
    requires end <= |raw| && Chained(raw, p, end) && p < end
    requires AtLast(raw, w) && InOrder(raw, Counts(w.tree), p, end)
    requires Visit(raw, w, p) == Some(w')
    ensures AtLast(raw, w') && InOrder(raw, Counts(w'.tree), p + raw[p], end) && |w'.tree| == |w.tree|
  {
    if raw[p + 1] == DT_INTERFACE {
      var n := raw[p + 2];
      assert Counts(w'.tree) == Counts(w.tree)[n := Counts(w.tree)[n] + 1];
    } else {
      assert Counts(w'.tree) == Counts(w.tree);
    }
  }

  /** With the settings in order, the walk attaches every endpoint descriptor to the nearest preceding interface descriptor. */
  lemma {:induction false} WalkCompletes(raw: seq<byte>, w: Walker, p: nat, end: nat, i: nat)
    requires end <= |raw| && Chained(raw, p, end) && i < |w.tree|
    requires AtLast(raw, w) && InOrder(raw, Counts(w.tree), p, end)
    requires Walk(raw, w, p, end).Some?
    ensures var t := Walk(raw, w, p, end).value.tree;
            |t| == |w.tree| && t[i] == Collected(raw, w, p, end, i) + SettingsOf(raw, p, end, i)
    decreases end - p
  {
    if p == end {
      CollectedAtEnd(raw, w, end, i);
    } else {
      var w' := Visit(raw, w, p).value;
      VisitKeepsOrder(raw, w, p, end, w');
      WalkCompletes(raw, w', p + raw[p], end, i);
      CollectedStep(raw, w, p, end, w', i);
    }
  }

  /** The parsed tree: each interface has its alternate settings in byte order, each with exactly the endpoint
      descriptors between its interface descriptor and the next one, in byte order. */
  lemma ParseIsNearest(raw: seq<byte>, n: nat)
    requires WellFormed(raw) && InOrder(raw, Counts(EmptyTree(raw[4])), raw[0], TotalLength(raw))
    requires Parse(raw).Some? && n < raw[4]
    ensures |Parse(raw).value| == raw[4]
    ensures Parse(raw).value[n] == SettingsOf(raw, raw[0], TotalLength(raw), n)
  {
    WalkCompletes(raw, Walker(EmptyTree(raw[4]), None), raw[0], TotalLength(raw), n);
  }

  // ----- success -----

  /** Interface numbers are below `n`, and no endpoint or HID descriptor comes before the first interface descriptor. */
  predicate Placed(raw: seq<byte>, n: nat, seen: bool, p: nat, end: nat)
    requires end <= |raw| && Chained(raw, p, end)
    decreases end - p
  {
    p == end
    || (if raw[p + 1] == DT_INTERFACE then raw[p + 2] < n && Placed(raw, n, true, p + raw[p], end)
        else (raw[p + 1] == DT_ENDPOINT || raw[p + 1] == DT_HID ==> seen) && Placed(raw, n, seen, p + raw[p], end))
  }

  lemma {:induction false} WalkSucceeds(raw: seq<byte>, w: Walker, p: nat, end: nat)
    requires end <= |raw| && Chained(raw, p, end)
    requires AtLast(raw, w) && InOrder(raw, Counts(w.tree), p, end)
    ensures Walk(raw, w, p, end).Some? <==> Placed(raw, |w.tree|, w.current.Some?, p, end)
    decreases end - p
  {
    if p < end {
      match Visit(raw, w, p)
      case None =>
      case Some(w') =>
        VisitKeepsOrder(raw, w, p, end, w');
        WalkSucceeds(raw, w', p + raw[p], end);
    }
  }

  /** With the settings in order, the parser fails exactly on a bad interface number or on an endpoint or HID
      descriptor that has no interface. */
  lemma ParseSucceeds(raw: seq<byte>)
    requires WellFormed(raw) && InOrder(raw, Counts(EmptyTree(raw[4])), raw[0], TotalLength(raw))
    ensures Parse(raw).Some? <==> Placed(raw, raw[4], false, raw[0], TotalLength(raw))
  {
    WalkSucceeds(raw, Walker(EmptyTree(raw[4]), None), raw[0], TotalLength(raw));
  }

  // ----- conservation -----

  function AltEndpoints(alts: seq<Alt>): seq<nat> {
    if alts == [] then [] else alts[0].endpoints + AltEndpoints(alts[1..])
  }

  /** The endpoint descriptors of a tree, in the order in which the loops over it meet them. */
  function TreeEndpoints(tree: Tree): seq<nat> {
    if tree == [] then [] else AltEndpoints(tree[0]) + TreeEndpoints(tree[1..])
  }

  lemma {:induction false} AltEndpointsGrow(alts: seq<Alt>, a: nat, p: nat)
    requires a < |alts|
    ensures multiset(AltEndpoints(alts[a := alts[a].(endpoints := alts[a].endpoints + [p])])) == multiset(AltEndpoints(alts)) + multiset{p}
  {
    var alts' := alts[a := alts[a].(endpoints := alts[a].endpoints + [p])];
    if a > 0 {
      AltEndpointsGrow(alts[1..], a - 1, p);
      assert alts'[1..] == alts[1..][a - 1 := alts[a].(endpoints := alts[a].endpoints + [p])];
    } else {
      assert alts'[1..] == alts[1..];
    }
  }

  lemma {:induction false} AltEndpointsEmpty(alts: seq<Alt>, p: nat)
    ensures AltEndpoints(alts + [Alt(p, [])]) == AltEndpoints(alts)
  {
    if alts == [] {
      assert (alts + [Alt(p, [])])[1..] == [];
    } else {
      AltEndpointsEmpty(alts[1..], p);
      assert (alts + [Alt(p, [])])[1..] == alts[1..] + [Alt(p, [])];
    }
  }

  lemma BagShift<T>(a: multiset<T>, b: multiset<T>, more: multiset<T>)
    ensures a + (b + more) == a + b + more && a + more + b == a + b + more
  {
  }

  lemma TreeBag(tree: Tree)
    requires tree != []
    ensures multiset(TreeEndpoints(tree)) == multiset(AltEndpoints(tree[0])) + multiset(TreeEndpoints(tree[1..]))
  {
  }

  lemma {:induction false} TreeEndpointsUpdate(tree: Tree, n: nat, alts: seq<Alt>, more: multiset<nat>)
    requires n < |tree| && multiset(AltEndpoints(alts)) == multiset(AltEndpoints(tree[n])) + more
    ensures multiset(TreeEndpoints(tree[n := alts])) == multiset(TreeEndpoints(tree)) + more
  {
    var tree' := tree[n := alts];
    TreeBag(tree);
    TreeBag(tree');
    BagShift(multiset(AltEndpoints(tree[0])), multiset(TreeEndpoints(tree[1..])), more);
    if n > 0 {
      TreeEndpointsUpdate(tree[1..], n - 1, alts, more);
      assert tree'[1..] == tree[1..][n - 1 := alts];
    } else {
      assert tree'[1..] == tree[1..];
    }
  }

  lemma VisitConserves(raw: seq<byte>, w: Walker, p: nat, w': Walker)
    requires p + 2 <= |raw| && (raw[p + 1] == DT_INTERFACE ==> p + INTERFACE_SIZE <= |raw|)
    requires Visit(raw, w, p) == Some(w')
    ensures multiset(TreeEndpoints(w'.tree)) == multiset(TreeEndpoints(w.tree)) + multiset(Here(raw, p))
  {
    if raw[p + 1] == DT_INTERFACE {
      var n := raw[p + 2];
      AltEndpointsEmpty(w.tree[n], p);
      TreeEndpointsUpdate(w.tree, n, w.tree[n] + [Alt(p, [])], multiset{});
    } else if raw[p + 1] == DT_ENDPOINT {
      var n, a := raw[w.current.value + 2], raw[w.current.value + 3];
      AltEndpointsGrow(w.tree[n], a, p);
      TreeEndpointsUpdate(w.tree, n, w.tree[n][a := w.tree[n][a].(endpoints := w.tree[n][a].endpoints + [p])], multiset{p});
    }
  }

  lemma BagChain<T>(first: multiset<T>, second: multiset<T>, here: multiset<T>, later: multiset<T>, whole: multiset<T>)
    requires second == first + here && whole == here + later
    ensures second + later == first + whole
  {
  }

  function Here(raw: seq<byte>, p: nat): seq<nat>
    requires p + 2 <= |raw|
  {
    if raw[p + 1] == DT_ENDPOINT then [p] else []
  }

  lemma ConservesStep(raw: seq<byte>, before: seq<nat>, after: seq<nat>, p: nat, end: nat, whole: seq<nat>)
    requires end <= |raw| && Chained(raw, p, end) && p < end
    requires multiset(after) == multiset(before) + multiset(Here(raw, p))
    requires multiset(whole) == multiset(after) + multiset(EndpointOffsets(raw, p + raw[p], end))
    ensures multiset(whole) == multiset(before) + multiset(EndpointOffsets(raw, p, end))
  {
    var later := EndpointOffsets(raw, p + raw[p], end);
    assert EndpointOffsets(raw, p, end) == Here(raw, p) + later;
    BagChain(multiset(before), multiset(after), multiset(Here(raw, p)), multiset(later), multiset(EndpointOffsets(raw, p, end)));
  }

  /** Whatever the setting numbers, every endpoint descriptor of the chain ends up in the tree exactly once. */
  lemma {:induction false} WalkConserves(raw: seq<byte>, w: Walker, p: nat, end: nat, whole: seq<nat>)
    requires end <= |raw| && Chained(raw, p, end) && Walk(raw, w, p, end).Some? && whole == TreeEndpoints(Walk(raw, w, p, end).value.tree)
    ensures multiset(whole) == multiset(TreeEndpoints(w.tree)) + multiset(EndpointOffsets(raw, p, end))
    decreases end - p
  {
    if p < end {
      var w' := Visit(raw, w, p).value;
      VisitConserves(raw, w, p, w');
      WalkConserves(raw, w', p + raw[p], end, whole);
      ConservesStep(raw, TreeEndpoints(w.tree), TreeEndpoints(w'.tree), p, end, whole);
    }
  }

  lemma {:induction false} EmptyTreeHasNone(n: nat)
    ensures TreeEndpoints(EmptyTree(n)) == []
  {
    if n > 0 {
      EmptyTreeHasNone(n - 1);
      assert EmptyTree(n)[1..] == EmptyTree(n - 1);
    }
  }

  lemma ParseConserves(raw: seq<byte>)
    requires WellFormed(raw) && Parse(raw).Some?
    ensures multiset(TreeEndpoints(Parse(raw).value)) == multiset(EndpointOffsets(raw, raw[0], TotalLength(raw)))
  {
    EmptyTreeHasNone(raw[4]);
    WalkConserves(raw, Walker(EmptyTree(raw[4]), None), raw[0], TotalLength(raw), TreeEndpoints(Parse(raw).value));
  }

  // ----- the parser itself -----

  /** One entry of the configurations of a device: its raw bytes and, per interface, its alternate settings. */
  class Configuration {
    const raw: array<byte>
    var interfaces: Tree

    constructor (raw: array<byte>)
      ensures this.raw == raw && interfaces == []
    {
      this.raw := raw;
      interfaces := [];
    }

    /** probe_interface */
    method ProbeInterface(p: nat) returns (ret: int)
      requires p + INTERFACE_SIZE <= raw.Length && raw[p + 1] == DT_INTERFACE
      modifies this`interfaces
      ensures forall current :: match Visit(raw[..], Walker(old(interfaces), current), p)
                                case None => ret == -1 && interfaces == old(interfaces)
                                case Some(w) => ret == 0 && w == Walker(interfaces, Some(p))
    {
      var n := raw[p + 2];
      if n >= |interfaces| {
        return -1;
      }
      interfaces := interfaces[n := interfaces[n] + [Alt(p, [])]];
      return 0;
    }

    /** get_interface: the interface number and the alternate setting number, if both exist. */
    method GetInterface(current: Option<nat>) returns (found: Option<(nat, nat)>)
      requires current.Some? ==> current.value + INTERFACE_SIZE <= raw.Length
      ensures found.Some? <==> HasInterface(raw[..], Walker(interfaces, current))
      ensures found.Some? ==> found.value == (raw[current.value + 2] as nat, raw[current.value + 3] as nat)
    {
      if current.None? {
        return None;
      }
      var n, a := raw[current.value + 2], raw[current.value + 3];
      if n >= |interfaces| {
        return None;
      }
      if a >= |interfaces[n]| {
        return None;
      }
      return Some((n, a));
    }

    /** probe_endpoint */
    method ProbeEndpoint(current: Option<nat>, p: nat) returns (ret: int)
      requires p + 2 <= raw.Length && raw[p + 1] == DT_ENDPOINT
      requires current.Some? ==> current.value + INTERFACE_SIZE <= raw.Length
      modifies this`interfaces
      ensures match Visit(raw[..], Walker(old(interfaces), current), p)
              case None => ret == -1 && interfaces == old(interfaces)
              case Some(w) => ret == 0 && w == Walker(interfaces, current)
    {
      var found := GetInterface(current);
      if found.None? {
        return -1;
      }
      var (n, a) := found.value;
      var alt := interfaces[n][a];
      interfaces := interfaces[n := interfaces[n][a := alt.(endpoints := alt.endpoints + [p])]];
      return 0;
    }

    /** probe_configurations, for this configuration. */
    method Probe() returns (ret: int)
      requires WellFormed(raw[..])
      modifies this`interfaces
      ensures ret == (if Parse(raw[..]).Some? then 0 else -1)
      ensures ret == 0 ==> Some(interfaces) == Parse(raw[..])
    {
      interfaces := EmptyTree(raw[4]);
      var ptr: nat := raw[0];
      var end := TotalLength(raw[..]);
      var current: Option<nat> := None;
      ret := 0;
      while ptr < end
        invariant ret == 0 && ptr <= end && Chained(raw[..], ptr, end)
        invariant current.Some? ==> current.value + INTERFACE_SIZE <= raw.Length
        invariant Walk(raw[..], Walker(interfaces, current), ptr, end)
               == Walk(raw[..], Walker(EmptyTree(raw[4]), None), raw[0], end)
      {
        var kind := raw[ptr + 1];
        if kind == DT_INTERFACE {
          ret := ProbeInterface(ptr);
          current := Some(ptr);
        } else if kind == DT_ENDPOINT {
          ret := ProbeEndpoint(current, ptr);
        } else if kind == DT_HID {
          var found := GetInterface(current);
          ret := if found.None? then -1 else 0;
        }
        if ret < 0 {
          return -1;
        }
        ptr := ptr + raw[ptr];
      }
    }
  }
}
