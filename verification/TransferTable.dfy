/** The table of transfers that are under way in libusb, and the number of them each device has. */
module TransferTable {

  const MAX_DEVICES := 256

  /** A transfer, by the pointer libusb allocated for it, and the device it was made for. */
  datatype Transfer = Transfer(id: nat, device: nat)

  /** The table, pending_transfers of every device, what has been freed, and what was refused by the table. */
  datatype Books = Books(table: seq<Transfer>, pending: seq<int>, freed: seq<Transfer>, lost: seq<Transfer>)

  /** How often a device occurs in a table. */
  function Count(table: seq<Transfer>, device: nat): nat {
    if table == [] then 0 else (if table[0].device == device then 1 else 0) + Count(table[1..], device)
  }

  /** The table without its first entry for `t`. */
  function Without(table: seq<Transfer>, t: Transfer): seq<Transfer> {
    if table == [] then [] else if table[0] == t then table[1..] else [table[0]] + Without(table[1..], t)
  }

  predicate Distinct(ts: seq<Transfer>) {
    forall i, j :: 0 <= i < j < |ts| ==> ts[i] != ts[j]
  }

  // ----- operations -----

  /** A submission, with what realloc and libusb answer, or the end of a transfer. */
  datatype Op = Submit(t: Transfer, grows: bool, accepted: bool) | End(t: Transfer)

  function Charge(pending: seq<int>, device: nat, change: int): seq<int> {
    if device < |pending| then pending[device := pending[device] + change] else pending
  }

  /** add_transfer */
  function Added(b: Books, t: Transfer, grows: bool): Books {
    if t in b.table then b
    else if grows then b.(table := b.table + [t], pending := Charge(b.pending, t.device, 1))
    else b.(lost := b.lost + [t])
  }

  /** remove_transfer */
  function Removed(b: Books, t: Transfer): Books {
    if t in b.table then b.(table := Without(b.table, t), pending := Charge(b.pending, t.device, -1), freed := b.freed + [t]) else b
  }

  /** submit_transfer, or the end of usb_callback. */
  function Apply(b: Books, op: Op): Books {
    match op
    case Submit(t, grows, accepted) =>
      var b' := Added(b, t, grows);
      if (grows || t in b.table) && !accepted then Removed(b', t) else b'
    case End(t) => Removed(b, t)
  }

  function ApplyAll(b: Books, ops: seq<Op>): Books
    decreases |ops|
  {
    if ops == [] then b else ApplyAll(Apply(b, ops[0]), ops[1..])
  }

  // ----- accounting -----

  /** A submitted transfer has just been allocated: it is nowhere in the books, and its device exists. */
  predicate Fresh(b: Books, op: Op) {
    op.t.device < MAX_DEVICES && (op.Submit? ==> op.t !in b.table && op.t !in b.freed && op.t !in b.lost)
  }

  predicate AllFresh(b: Books, ops: seq<Op>)
    decreases |ops|
  {
    ops == [] || (Fresh(b, ops[0]) && AllFresh(Apply(b, ops[0]), ops[1..]))
  }

  /** No duplicates in the table, none freed twice, no transfer both in the table and freed or refused, none both freed and
      refused, and each counter equals the number of entries of its device. */
  ghost predicate Balanced(b: Books) {
    && |b.pending| == MAX_DEVICES
    && Distinct(b.table) && Distinct(b.freed) && Distinct(b.lost)
    && (forall t :: t in b.table ==> t !in b.freed && t !in b.lost && t.device < MAX_DEVICES)
    && (forall t :: t in b.lost ==> t !in b.freed)
    && (forall d :: 0 <= d < MAX_DEVICES ==> b.pending[d] == Count(b.table, d))
  }

  lemma {:induction false} CountAppended(table: seq<Transfer>, t: Transfer, device: nat)
    ensures Count(table + [t], device) == Count(table, device) + (if t.device == device then 1 else 0)
  {
    if table == [] {
      assert (table + [t])[1..] == [];
    } else {
      CountAppended(table[1..], t, device);
      assert (table + [t])[1..] == table[1..] + [t];
    }
  }

  lemma {:induction false} CountRemoved(table: seq<Transfer>, t: Transfer, device: nat)
    requires t in table
    ensures Count(Without(table, t), device) == Count(table, device) - (if t.device == device then 1 else 0)
  {
    if table[0] != t {
      CountRemoved(table[1..], t, device);
      assert Without(table, t)[1..] == Without(table[1..], t);
    }
  }

  /** Removing an entry shifts the later ones down by one and touches nothing else. */
  lemma {:induction false} WithoutKeepsOrder(table: seq<Transfer>, t: Transfer) returns (i: nat)
    requires t in table
    ensures i < |table| && table[i] == t && Without(table, t) == table[..i] + table[i + 1..]
    ensures t !in table[..i]
  {
    if table[0] == t {
      i := 0;
    } else {
      var k := WithoutKeepsOrder(table[1..], t);
      i := k + 1;
      assert table[..i] == [table[0]] + table[1..][..k] && table[i + 1..] == table[1..][k + 1..];
    }
  }

  lemma {:induction false} WithoutMembers(table: seq<Transfer>, t: Transfer, u: Transfer)
    requires t in table
    ensures u in Without(table, t) ==> u in table
    ensures u != t && u in table ==> u in Without(table, t)
  {
    if table[0] != t {
      WithoutMembers(table[1..], t, u);
      assert table == [table[0]] + table[1..];
    }
  }

  lemma WithoutDistinct(table: seq<Transfer>, t: Transfer)
    requires Distinct(table) && t in table
    ensures Distinct(Without(table, t)) && forall u :: u in Without(table, t) <==> u in table && u != t
  {
    var i := WithoutKeepsOrder(table, t);
    var rest := Without(table, t);
    forall k | 0 <= k < |rest| ensures rest[k] == (if k < i then table[k] else table[k + 1]) && rest[k] != t {
    }
    forall u ensures u in rest <==> u in table && u != t {
      WithoutMembers(table, t, u);
    }
  }

  lemma AddedKeepsBalance(b: Books, t: Transfer, grows: bool)
    requires Balanced(b) && t !in b.table && t !in b.freed && t !in b.lost && t.device < MAX_DEVICES
    ensures Balanced(Added(b, t, grows))
  {
    forall d: nat ensures Count(b.table + [t], d) == Count(b.table, d) + (if t.device == d then 1 else 0) {
      CountAppended(b.table, t, d);
    }
  }

  lemma RemovedKeepsBalance(b: Books, t: Transfer)
    requires Balanced(b)
    ensures Balanced(Removed(b, t))
  {
    if t in b.table {
      WithoutDistinct(b.table, t);
      forall d: nat ensures Count(Without(b.table, t), d) == Count(b.table, d) - (if t.device == d then 1 else 0) {
        CountRemoved(b.table, t, d);
      }
    }
  }

  lemma ApplyKeepsBalance(b: Books, op: Op)
    requires Balanced(b) && Fresh(b, op)
    ensures Balanced(Apply(b, op))
  {
    match op
    case Submit(t, grows, accepted) =>
      AddedKeepsBalance(b, t, grows);
      RemovedKeepsBalance(Added(b, t, grows), t);
    case End(t) => RemovedKeepsBalance(b, t);
  }

  lemma {:induction false} WithoutLast(table: seq<Transfer>, t: Transfer)
    requires t !in table
    ensures Without(table + [t], t) == table
  {
    if table == [] {
      assert (table + [t])[1..] == [];
    } else {
      WithoutLast(table[1..], t);
      assert (table + [t])[1..] == table[1..] + [t];
    }
  }

  /** A submitted transfer is under way exactly when both the table and libusb take it; refused by libusb, it is freed,
      and the table and the counters are as before. */
  lemma SubmitOutcome(b: Books, t: Transfer, grows: bool, accepted: bool)
    requires Balanced(b) && Fresh(b, Submit(t, grows, accepted))
    ensures var b' := Apply(b, Submit(t, grows, accepted));
            && b'.table == (if grows && accepted then b.table + [t] else b.table)
            && b'.freed == (if grows && !accepted then b.freed + [t] else b.freed)
            && b'.lost == (if grows then b.lost else b.lost + [t])
            && (!(grows && accepted) ==> b'.pending == b.pending)
  {
    WithoutLast(b.table, t);
  }

  /** The end of a transfer that is under way frees it and takes it out of the table, and out of the table only. */
  lemma EndOutcome(b: Books, t: Transfer)
    requires Balanced(b) && t in b.table
    ensures var b' := Apply(b, End(t));
            && b'.freed == b.freed + [t] && t !in b'.table && (forall u :: u in b.table && u != t ==> u in b'.table)
            && b'.pending == b.pending[t.device := b.pending[t.device] - 1]
  {
    WithoutDistinct(b.table, t);
  }

  /** Over any sequence of submissions, failed submissions and ends of transfers: no duplicates, every counter exact,
      and no transfer freed twice or freed while in the table. */
  lemma {:induction false} ApplyAllKeepsBalance(b: Books, ops: seq<Op>)
    requires Balanced(b) && AllFresh(b, ops)
    ensures Balanced(ApplyAll(b, ops))
    decreases |ops|
  {
    if ops != [] {
      ApplyKeepsBalance(b, ops[0]);
      ApplyAllKeepsBalance(Apply(b, ops[0]), ops[1..]);
    }
  }

  function Submitted(ops: seq<Op>): multiset<Transfer> {
    if ops == [] then multiset{} else (if ops[0].Submit? then multiset{ops[0].t} else multiset{}) + Submitted(ops[1..])
  }

  function Everywhere(b: Books): multiset<Transfer> { multiset(b.table) + multiset(b.freed) + multiset(b.lost) }

  lemma RemovedConserves(b: Books, t: Transfer)
    ensures Everywhere(Removed(b, t)) == Everywhere(b)
  {
    if t in b.table {
      var i := WithoutKeepsOrder(b.table, t);
      assert b.table == b.table[..i] + [t] + b.table[i + 1..];
    }
  }

  lemma ApplyConserves(b: Books, op: Op)
    requires Fresh(b, op)
    ensures Everywhere(Apply(b, op)) == Everywhere(b) + (if op.Submit? then multiset{op.t} else multiset{})
  {
    match op
    case Submit(t, grows, accepted) => RemovedConserves(Added(b, t, grows), t);
    case End(t) => RemovedConserves(b, t);
  }

  lemma MoveOver<T>(a: multiset<T>, b: multiset<T>, c: multiset<T>)
    ensures a + b + c == a + (b + c)
  {
  }

  lemma {:induction false} DistinctOnce(ts: seq<Transfer>, t: Transfer)
    requires Distinct(ts)
    ensures multiset(ts)[t] <= 1
  {
    if ts != [] {
      assert ts == [ts[0]] + ts[1..];
      DistinctOnce(ts[1..], t);
      if t == ts[0] {
        assert t !in ts[1..];
      }
    }
  }

  lemma BalancedOnce(b: Books, t: Transfer)
    requires Balanced(b)
    ensures Everywhere(b)[t] <= 1
  {
    DistinctOnce(b.table, t);
    DistinctOnce(b.freed, t);
    DistinctOnce(b.lost, t);
    assert (t in b.table <==> t in multiset(b.table)) && (t in b.freed <==> t in multiset(b.freed)) && (t in b.lost <==> t in multiset(b.lost));
  }

  /** Every transfer ever submitted is in the table, or has been freed, or was refused when the table could not grow,
      and from balanced books it is there once, in exactly one of these ways. */
  lemma {:induction false} ApplyAllConserves(b: Books, ops: seq<Op>)
    requires AllFresh(b, ops)
    ensures Everywhere(ApplyAll(b, ops)) == Everywhere(b) + Submitted(ops)
    ensures Balanced(b) ==> forall t :: Everywhere(ApplyAll(b, ops))[t] <= 1
    decreases |ops|
  {
    if ops != [] {
      ApplyConserves(b, ops[0]);
      ApplyAllConserves(Apply(b, ops[0]), ops[1..]);
      MoveOver(Everywhere(b), if ops[0].Submit? then multiset{ops[0].t} else multiset{}, Submitted(ops[1..]));
    }
    if Balanced(b) {
      ApplyAllKeepsBalance(b, ops);
      forall t ensures Everywhere(ApplyAll(b, ops))[t] <= 1 {
        BalancedOnce(ApplyAll(b, ops), t);
      }
    }
  }

  // ----- transfers that the table refuses -----

  /** The transfer is accounted for: under way, or freed. */
  predicate Kept(b: Books, t: Transfer) { t in b.table || t in b.freed }

  lemma ApplyLeaves(b: Books, op: Op, t: Transfer)
    requires Balanced(b) && Fresh(b, op)
    ensures t in b.lost ==> t in Apply(b, op).lost
    ensures Kept(b, t) ==> Kept(Apply(b, op), t)
  {
    match op
    case Submit(u, grows, accepted) => SubmitOutcome(b, u, grows, accepted);
    case End(u) => if u in b.table { EndOutcome(b, u); }
  }

  lemma {:induction false} ApplyAllLeaves(b: Books, ops: seq<Op>, t: Transfer)
    requires Balanced(b) && AllFresh(b, ops)
    ensures t in b.lost ==> t in ApplyAll(b, ops).lost
    ensures Kept(b, t) ==> Kept(ApplyAll(b, ops), t)
    decreases |ops|
  {
    if ops != [] {
      ApplyKeepsBalance(b, ops[0]);
      ApplyLeaves(b, ops[0], t);
      ApplyAllLeaves(Apply(b, ops[0]), ops[1..], t);
    }
  }

  /** What the table refused for lack of memory never enters it, and is never freed, whatever follows. */
  lemma LostIsNeverFreed(b: Books, ops: seq<Op>, t: Transfer)
    requires Balanced(b) && AllFresh(b, ops) && t in b.lost
    ensures t in ApplyAll(b, ops).lost && t !in ApplyAll(b, ops).table && t !in ApplyAll(b, ops).freed
  {
    ApplyAllLeaves(b, ops, t);
    ApplyAllKeepsBalance(b, ops);
  }

  /** A submitted transfer ends under way or freed exactly when the table could grow for it, and is lost otherwise. */
  lemma {:induction false} SubmittedIsKeptIff(b: Books, ops: seq<Op>, k: nat)
    requires Balanced(b) && AllFresh(b, ops) && k < |ops| && ops[k].Submit?
    ensures var (b', t) := (ApplyAll(b, ops), ops[k].t);
            && (t in b'.table || t in b'.freed <==> ops[k].grows)
            && (t in b'.lost <==> !ops[k].grows)
    decreases |ops|
  {
    var op := ops[0];
    ApplyKeepsBalance(b, op);
    if k > 0 {
      SubmittedIsKeptIff(Apply(b, op), ops[1..], k - 1);
    } else {
      SubmitOutcome(b, op.t, op.grows, op.accepted);
      var b1, t := Apply(b, op), op.t;
      assert if op.grows then Kept(b1, t) else t in b1.lost;
      ApplyAllLeaves(b1, ops[1..], t);
      ApplyAllKeepsBalance(b, ops);
    }
  }

  /** Nothing leaks exactly when the table could grow at every submission. */
  lemma NothingLostIff(b: Books, ops: seq<Op>)
    requires Balanced(b) && AllFresh(b, ops)
    ensures (forall op :: op in ops && op.Submit? ==> op.grows)
       <==> (forall op :: op in ops && op.Submit? ==> Kept(ApplyAll(b, ops), op.t))
  {
    forall op | op in ops && op.Submit? ensures op.grows <==> Kept(ApplyAll(b, ops), op.t) {
      var k :| 0 <= k < |ops| && ops[k] == op;
      SubmittedIsKeptIff(b, ops, k);
    }
  }

  lemma {:induction false} CountZero(table: seq<Transfer>, device: nat)
    ensures Count(table, device) == 0 <==> forall t :: t in table ==> t.device != device
  {
    if table != [] {
      CountZero(table[1..], device);
      assert table == [table[0]] + table[1..];
    }
  }

  /** A device's counter is zero exactly when none of its transfers is in the table. */
  lemma DrainedIff(b: Books, device: nat)
    requires Balanced(b) && device < MAX_DEVICES
    ensures b.pending[device] == 0 <==> forall t :: t in b.table ==> t.device != device
  {
    CountZero(b.table, device);
  }

  // ----- the table in place -----

  class Transfers {
    var table: seq<Transfer>
    const pending: array<int>
    ghost var freed: seq<Transfer>
    ghost var lost: seq<Transfer>

    ghost function View(): Books
      reads this, pending
    {
      Books(table, pending[..], freed, lost)
    }

    constructor ()
      ensures View() == Books([], seq(MAX_DEVICES, _ => 0), [], []) && fresh(pending)
    {
      table, freed, lost := [], [], [];
      pending := new int[MAX_DEVICES](_ => 0);
    }

    /** add_transfer; `grows` is whether realloc succeeds. */
    method Add(t: Transfer, grows: bool) returns (ret: int)
      requires t.device < pending.Length
      modifies this`table, this`lost, pending
      ensures View() == Added(old(View()), t, grows)
      ensures ret == if grows || t in old(table) then 0 else -1
    {
      for i := 0 to |table|
        invariant t !in table[..i]
      {
        if table[i] == t {
          return 0;
        }
      }
      if grows {
        table := table + [t];
        pending[t.device] := pending[t.device] + 1;
        return 0;
      } else {
        lost := lost + [t];
        return -1;
      }
    }

    /** remove_transfer */
    method Remove(t: Transfer)
      requires t.device < pending.Length
      modifies this`table, this`freed, pending
      ensures View() == Removed(old(View()), t)
    {
      for i := 0 to |table|
        invariant t !in table[..i]
      {
        if table[i] == t {
          WithoutAt(table, t, i);
          table := table[..i] + table[i + 1..];
          pending[t.device] := pending[t.device] - 1;
          freed := freed + [t];
          return;
        }
      }
    }

    /** submit_transfer; `accepted` is whether libusb takes the transfer. */
    method SubmitTransfer(t: Transfer, grows: bool, accepted: bool) returns (ret: int)
      requires t.device < pending.Length
      modifies this`table, this`freed, this`lost, pending
      ensures View() == Apply(old(View()), Submit(t, grows, accepted))
      ensures ret == if (grows || t in old(table)) && accepted then 0 else -1
    {
      ret := Add(t, grows);
      if ret != -1 && !accepted {
        Remove(t);
        return -1;
      }
    }

    /** One call of libusb_handle_events: submissions made by callbacks, and ends of transfers. */
    method HandleEvents(ops: seq<Op>)
      requires forall op :: op in ops ==> op.t.device < pending.Length
      modifies this`table, this`freed, this`lost, pending
      ensures View() == ApplyAll(old(View()), ops)
    {
      for i := 0 to |ops|
        invariant ApplyAll(View(), ops[i..]) == ApplyAll(old(View()), ops)
      {
        assert ops[i..][1..] == ops[i + 1..];
        match ops[i]
        case Submit(t, grows, accepted) => var _ := SubmitTransfer(t, grows, accepted);
        case End(t) => Remove(t);
      }
      assert ops[|ops|..] == [];
    }

    /** The first loop of cancel_transfers: the transfers of the device, in table order. */
    method CancelEach(device: nat) returns (cancelled: seq<Transfer>)
      ensures cancelled == OfDevice(table, device) && |cancelled| == Count(table, device)
      ensures forall i :: 0 <= i < |table| && table[i].device == device ==>
                Count(table[..i], device) < |cancelled| && cancelled[Count(table[..i], device)] == table[i]
    {
      OfDeviceCount(table, device);
      forall i | 0 <= i < |table| && table[i].device == device
        ensures Count(table[..i], device) < |OfDevice(table, device)| && OfDevice(table, device)[Count(table[..i], device)] == table[i]
      {
        OfDeviceAt(table, device, i);
      }
      cancelled := [];
      for i := 0 to |table|
        invariant cancelled == OfDevice(table[..i], device)
      {
        OfDeviceAppended(table[..i], table[i], device);
        assert table[..i + 1] == table[..i] + [table[i]];
        if table[i].device == device {
          cancelled := cancelled + [table[i]];
        }
      }
      assert table[..|table|] == table;
    }

    /** cancel_transfers: the transfers of the device are cancelled, and events are handled until its counter is zero
        or libusb_handle_events fails; `rounds` is what its successful calls do. */
    method Cancel(device: nat, rounds: seq<seq<Op>>) returns (cancelled: seq<Transfer>, used: nat)
      requires Balanced(View()) && device < MAX_DEVICES && AllFresh(View(), Joined(rounds))
      modifies this`table, this`freed, this`lost, pending
      ensures used <= |rounds| && View() == ApplyAll(old(View()), Joined(rounds[..used])) && Balanced(View())
      ensures |cancelled| == Count(old(table), device)
      ensures forall i :: 0 <= i < |old(table)| && old(table)[i].device == device ==>
                Count(old(table)[..i], device) < |cancelled| && cancelled[Count(old(table)[..i], device)] == old(table)[i]
      ensures used < |rounds| ==> pending[device] == 0
      ensures pending[device] == 0 ==> forall t :: t in table ==> t.device != device
    {
      cancelled := CancelEach(device);
      used := 0;
      assert rounds[0..] == rounds && rounds[..0] == [];
      while used < |rounds| && pending[device] != 0
        invariant used <= |rounds| && View() == ApplyAll(old(View()), Joined(rounds[..used]))
        invariant Balanced(View()) && AllFresh(View(), Joined(rounds[used..]))
      {
        RoundDone(old(View()), rounds, used, View());
        HandleEvents(rounds[used]);
        used := used + 1;
      }
      DrainedIff(View(), device);
    }
  }

  lemma RoundDone(start: Books, rounds: seq<seq<Op>>, used: nat, b: Books)
    requires used < |rounds| && b == ApplyAll(start, Joined(rounds[..used])) && Balanced(b) && AllFresh(b, Joined(rounds[used..]))
    ensures forall op :: op in rounds[used] ==> op.t.device < MAX_DEVICES
    ensures var b' := ApplyAll(b, rounds[used]);
            b' == ApplyAll(start, Joined(rounds[..used + 1])) && Balanced(b') && AllFresh(b', Joined(rounds[used + 1..]))
  {
    var round, later := rounds[used], Joined(rounds[used + 1..]);
    assert rounds[used..][1..] == rounds[used + 1..];
    FreshSplit(b, round, later);
    FreshDevices(b, round);
    ApplyAllKeepsBalance(b, round);
    assert rounds[..used + 1] == rounds[..used] + [round];
    JoinedAppended(rounds[..used], round);
    ApplyAllSplit(start, Joined(rounds[..used]), round);
  }

  lemma {:induction false} WithoutAt(table: seq<Transfer>, t: Transfer, i: nat)
    requires i < |table| && table[i] == t && t !in table[..i]
    ensures Without(table, t) == table[..i] + table[i + 1..] && t in table
  {
    if i > 0 {
      assert table[0] == table[..i][0];
      assert table[1..][..i - 1] == table[..i][1..];
      WithoutAt(table[1..], t, i - 1);
      assert table[1..][i..] == table[i + 1..];
    }
  }

  function OfDevice(table: seq<Transfer>, device: nat): seq<Transfer> {
    if table == [] then [] else (if table[0].device == device then [table[0]] else []) + OfDevice(table[1..], device)
  }

  lemma {:induction false} OfDeviceAppended(table: seq<Transfer>, t: Transfer, device: nat)
    ensures OfDevice(table + [t], device) == OfDevice(table, device) + (if t.device == device then [t] else [])
  {
    if table == [] {
      assert (table + [t])[1..] == [];
    } else {
      OfDeviceAppended(table[1..], t, device);
      assert (table + [t])[1..] == table[1..] + [t];
    }
  }

  lemma {:induction false} OfDeviceCount(table: seq<Transfer>, device: nat)
    ensures |OfDevice(table, device)| == Count(table, device)
  {
    if table != [] {
      OfDeviceCount(table[1..], device);
    }
  }

  /** The transfers of a device are listed one by one, in table order: each comes after those of the device before it. */
  lemma {:induction false} OfDeviceAt(table: seq<Transfer>, device: nat, i: nat)
    requires i < |table| && table[i].device == device
    ensures Count(table[..i], device) < |OfDevice(table, device)| && OfDevice(table, device)[Count(table[..i], device)] == table[i]
  {
    if i > 0 {
      OfDeviceAt(table[1..], device, i - 1);
      assert table[..i][0] == table[0] && table[..i][1..] == table[1..][..i - 1];
    }
  }

  function Joined(rounds: seq<seq<Op>>): seq<Op> {
    if rounds == [] then [] else rounds[0] + Joined(rounds[1..])
  }

  lemma {:induction false} JoinedAppended(rounds: seq<seq<Op>>, round: seq<Op>)
    ensures Joined(rounds + [round]) == Joined(rounds) + round
  {
    if rounds == [] {
      assert (rounds + [round])[1..] == [];
      assert Joined([round]) == round + [];
    } else {
      JoinedAppended(rounds[1..], round);
      assert (rounds + [round])[1..] == rounds[1..] + [round];
    }
  }

  lemma {:induction false} ApplyAllSplit(b: Books, ops: seq<Op>, later: seq<Op>)
    ensures ApplyAll(b, ops + later) == ApplyAll(ApplyAll(b, ops), later)
    decreases |ops|
  {
    if ops == [] {
      assert ops + later == later;
    } else {
      ApplyAllSplit(Apply(b, ops[0]), ops[1..], later);
      assert (ops + later)[1..] == ops[1..] + later;
    }
  }

  lemma {:induction false} FreshSplit(b: Books, ops: seq<Op>, later: seq<Op>)
    requires AllFresh(b, ops + later)
    ensures AllFresh(b, ops) && AllFresh(ApplyAll(b, ops), later)
    decreases |ops|
  {
    if ops == [] {
      assert ops + later == later;
    } else {
      assert (ops + later)[1..] == ops[1..] + later;
      FreshSplit(Apply(b, ops[0]), ops[1..], later);
    }
  }

  lemma {:induction false} FreshDevices(b: Books, ops: seq<Op>)
    requires AllFresh(b, ops)
    ensures forall op :: op in ops ==> op.t.device < MAX_DEVICES
    decreases |ops|
  {
    if ops != [] {
      FreshDevices(Apply(b, ops[0]), ops[1..]);
      assert ops == [ops[0]] + ops[1..];
    }
  }
}
