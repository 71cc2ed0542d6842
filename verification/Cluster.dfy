/** Slot ownership and redirection (pkg/server/cluster.go, pkg/server/server.go:602-621). */
module Cluster {
  import opened Bytes
  import opened Slots

  datatype SlotRange = SlotRange(start: int, end: int, addr: Str)

  predicate Contains(r: SlotRange, slot: int) {
    r.start <= slot <= r.end
  }

  /** The address a slot maps to: the first range that contains it, else the first range. */
  function OwnerIn(ranges: seq<SlotRange>, slot: int): Option<Str> {
    if ranges == [] then None
    else if Contains(ranges[0], slot) then Some(ranges[0].addr)
    else OwnerIn(ranges[1..], slot)
  }

  function Owner(ranges: seq<SlotRange>, slot: int): Str {
    var o := OwnerIn(ranges, slot);
    if o.Some? then o.value else if ranges == [] then [] else ranges[0].addr
  }

  /** What `Owner` means, gaps and overlaps included. */
  lemma {:induction false} OwnerIsFirstMatch(ranges: seq<SlotRange>, slot: int, i: nat)
    requires i < |ranges| && ranges[i].start <= slot <= ranges[i].end
    requires forall j :: 0 <= j < i ==> slot < ranges[j].start || ranges[j].end < slot
    ensures OwnerIn(ranges, slot) == Some(ranges[i].addr) && Owner(ranges, slot) == ranges[i].addr
    decreases i
  {
    if i > 0 {
      OwnerIsFirstMatch(ranges[1..], slot, i - 1);
    }
  }

  /** A slot that no range contains goes to the first range, or to nobody when there is none. */
  lemma {:induction false} NoMatch(ranges: seq<SlotRange>, slot: int)
    requires forall r :: r in ranges ==> slot < r.start || r.end < slot
    ensures OwnerIn(ranges, slot) == None
    ensures Owner(ranges, slot) == if ranges == [] then [] else ranges[0].addr
  {
    if ranges != [] {
      assert ranges[0] in ranges;
      assert forall r :: r in ranges[1..] ==> r in ranges;
      NoMatch(ranges[1..], slot);
    }
  }

  class ClusterState {
    const slots: int
    var ranges: seq<SlotRange>

    /** NewClusterState: one range, all of it this node's */
    constructor (slots: int, self: Str)
      ensures this.slots == slots && ranges == [SlotRange(0, slots - 1, self)]
    {
      this.slots := slots;
      ranges := [SlotRange(0, slots - 1, self)];
    }

    method SetRanges(r: seq<SlotRange>)
      modifies this
      ensures ranges == r
    {
      ranges := r;
    }

    /** Lookup */
    method Lookup(slot: int) returns (addr: Str)
      ensures addr == Owner(ranges, slot)
    {
      for i := 0 to |ranges|
        invariant forall j :: 0 <= j < i ==> slot < ranges[j].start || ranges[j].end < slot
      {
        var r := ranges[i];
        if slot >= r.start && slot <= r.end {
          OwnerIsFirstMatch(ranges, slot, i);
          return r.addr;
        }
      }
      NoMatch(ranges, slot);
      if |ranges| > 0 {
        return ranges[0].addr;
      }
      return [];
    }
  }

  // ---------- Routing ----------

  datatype Node = Node(self: Str, leader: Str, slots: int, ranges: seq<SlotRange>)

  datatype Route = Local | Moved(slot: int, target: Str)

  function CheckOwner(n: Node, slot: int): Route {
    var target := Owner(n.ranges, slot);
    if target != [] && target != n.self then Moved(slot, target) else Local
  }

  /**
   * The two routing checks of executeCommand: the first only on a node that is
   * not the leader and not replaying, the second on any command with a key.
   */
  function RouteOf(n: Node, args: seq<Str>, replay: bool): Route
    requires 1 <= n.slots <= 65535
  {
    var slot := if args == [] then 0 else SlotFor(n, args[0]);
    var first := if n.leader != n.self && !replay then CheckOwner(n, slot) else Local;
    if first.Moved? then first
    else if args != [] then CheckOwner(n, slot)
    else Local
  }

  function SlotFor(n: Node, key: Str): (slot: int)
    requires 1 <= n.slots <= 65535
    ensures 0 <= slot < n.slots
  {
    KeySlotInRange(key, n.slots);
    KeySlot(key, n.slots).value
  }

  /** A table with at least one range, all with an address. */
  ghost predicate Complete(ranges: seq<SlotRange>) {
    ranges != [] && forall r :: r in ranges ==> r.addr != []
  }

  lemma {:induction false} OwnerInTable(ranges: seq<SlotRange>, slot: int)
    requires OwnerIn(ranges, slot).Some?
    ensures exists r :: r in ranges && r.addr == OwnerIn(ranges, slot).value
  {
    if Contains(ranges[0], slot) {
      assert ranges[0] in ranges;
    } else {
      OwnerInTable(ranges[1..], slot);
      var r :| r in ranges[1..] && r.addr == OwnerIn(ranges[1..], slot).value;
      assert r in ranges;
    }
  }

  lemma OwnerHasAddress(ranges: seq<SlotRange>, slot: int)
    requires Complete(ranges)
    ensures Owner(ranges, slot) != []
    ensures exists r :: r in ranges && r.addr == Owner(ranges, slot)
  {
    assert ranges[0] in ranges;
    if OwnerIn(ranges, slot).Some? {
      OwnerInTable(ranges, slot);
    }
  }

  /**
   * A command with a key runs on exactly one address of the table, replay or not,
   * leader or not; every other node answers with that address.
   */
  lemma KeyedRouting(n: Node, args: seq<Str>, replay: bool)
    requires 1 <= n.slots <= 65535 && Complete(n.ranges) && args != []
    ensures var owner := Owner(n.ranges, SlotFor(n, args[0]));
      RouteOf(n, args, replay) == if n.self == owner then Local else Moved(SlotFor(n, args[0]), owner)
  {
    OwnerHasAddress(n.ranges, SlotFor(n, args[0]));
  }

  /** Nodes that share a table agree: the node a client is sent to does not send it on. */
  lemma OneRedirectSuffices(n: Node, m: Node, args: seq<Str>)
    requires 1 <= n.slots <= 65535 && Complete(n.ranges) && args != []
    requires m.slots == n.slots && m.ranges == n.ranges
    requires RouteOf(n, args, false).Moved? && m.self == RouteOf(n, args, false).target
    ensures RouteOf(m, args, false) == Local
    ensures n.self != m.self
  {
    KeyedRouting(n, args, false);
    KeyedRouting(m, args, false);
  }

  /** Without a key, only a node that is not the leader may redirect, and then by slot 0. */
  lemma UnkeyedRouting(n: Node, replay: bool)
    requires 1 <= n.slots <= 65535 && Complete(n.ranges)
    ensures RouteOf(n, [], replay)
      == if n.leader != n.self && !replay && Owner(n.ranges, 0) != n.self then Moved(0, Owner(n.ranges, 0)) else Local
  {
    OwnerHasAddress(n.ranges, 0);
  }

  /** A command is never sent to a node without an address, nor to the node it is on. */
  lemma NeverToNobody(n: Node, args: seq<Str>, replay: bool)
    requires 1 <= n.slots <= 65535
    ensures RouteOf(n, args, replay).Moved? ==>
      RouteOf(n, args, replay).target != [] && RouteOf(n, args, replay).target != n.self
    ensures n.ranges == [] ==> RouteOf(n, args, replay) == Local
  {
    hide SlotFor;
  }

  /** With the table of a new server, which is in force while it replays its log, nothing is redirected. */
  lemma FreshTableIsLocal(n: Node, args: seq<Str>, replay: bool)
    requires 1 <= n.slots <= 65535 && n.ranges == [SlotRange(0, n.slots - 1, n.self)]
    ensures RouteOf(n, args, replay) == Local
  {
    var slot := if args == [] then 0 else SlotFor(n, args[0]);
    assert OwnerIn(n.ranges, slot) == Some(n.self);
  }
}
