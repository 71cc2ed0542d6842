/** What clients are told: the replies of a server over its whole run. */
module Replies {
  import opened Bytes
  import opened Resp
  import opened StoreModel
  import opened StoreFacts
  import opened Cluster
  import opened TimedMap
  import opened Restart
  import opened Servers

  /** The reply to request `i`. */
  ghost function ReplyAt(n: Node, replica: bool, requests: seq<Request>, xs: seq<Running>, i: nat): Reply
    requires 1 <= n.slots <= 65535 && |xs| == |requests| + 1 && i < |requests|
  {
    var r := requests[i];
    ReplyTo(Dispatch(n, replica, r.cmd, false, r.now, r.later), xs[i].store)
  }

  /** The writes of the commands before request `i`, in order. */
  ghost function Before(n: Node, replica: bool, requests: seq<Request>, i: nat): seq<Write>
    requires 1 <= n.slots <= 65535 && i <= |requests|
  {
    Writes(OpsOf(n, replica, requests[..i]))
  }

  /** A store without deadlines holds the last write of each key that has not been evicted since. */
  lemma HoldsLastWrites(c: Config, n: Node, replica: bool, requests: seq<Request>, xs: seq<Running>)
    returns (states: seq<State>)
    requires 1 <= n.slots <= 65535 && ServerRun(c, n, replica, requests, xs)
    ensures var ops := OpsOf(n, replica, requests);
      && |xs| == |requests| + 1 && Run(c, ops, states) && |states| == |ops| + 1
      && states[|ops|] == xs[|requests|].store
      && Cells(xs[|requests|].store) == Overlay(map[], Writes(ops)) - Lost(ops, states)
  {
    hide ServerRun, Run, OpsOf, Writes, Cells, Latest, Lost, NeverOver, NothingEvicted, Logging;
    RunLengths(c, n, replica, requests, xs);
    states := LogIsHistory(c, n, replica, requests, xs);
    var ops := OpsOf(n, replica, requests);
    LatestOfLogging(ops);
    OverlayNeverExpires(map[], Writes(ops));
    HoldsTheRest(c, ops, states);
  }

  lemma RunLengths(c: Config, n: Node, replica: bool, requests: seq<Request>, xs: seq<Running>)
    requires 1 <= n.slots <= 65535 && ServerRun(c, n, replica, requests, xs)
    ensures |xs| == |requests| + 1
  {
  }

  /**
   * A GET sees the latest SET: in every run, under every policy, a GET that runs here is
   * answered with the value of the last SET of its key before it, or with nil when there
   * was none or the key has been evicted since; `states` is the run of the store that
   * says what was evicted.
   */
  lemma GetSeesLatestSet(c: Config, n: Node, replica: bool, requests: seq<Request>, xs: seq<Running>, i: nat, key: Str)
    returns (states: seq<State>)
    requires 1 <= n.slots <= 65535 && ServerRun(c, n, replica, requests, xs)
    requires |xs| == |requests| + 1 && i < |requests|
    requires requests[i].cmd == Command([71, 69, 84], [key]) && RouteOf(n, [key], false) == Local
    ensures var ops := OpsOf(n, replica, requests[..i]);
      && Run(c, ops, states) && |states| == |ops| + 1 && states[|ops|] == xs[i].store
      && (key in Lost(ops, states) ==> ReplyAt(n, replica, requests, xs, i) == Nil)
    ensures forall j: nat :: IsLast(Before(n, replica, requests, i), key, j) ==>
      var ops, ws := OpsOf(n, replica, requests[..i]), Before(n, replica, requests, i);
      ReplyAt(n, replica, requests, xs, i) == if key in Lost(ops, states) then Nil else Value(ws[j].value)
    ensures (forall j: nat :: !IsLast(Before(n, replica, requests, i), key, j)) ==>
      ReplyAt(n, replica, requests, xs, i) == Nil
  {
    hide ServerRun, Run, OpsOf, Writes, Lost, Overlay, Dispatch, ReplyTo, RouteOf;
    hide ServerFits, ServerKeeps, ServerMisses;
    ServerPrefix(c, n, replica, requests, xs, i);
    states := HoldsLastWrites(c, n, replica, requests[..i], xs[..i + 1]);
    var ops, ws, s := OpsOf(n, replica, requests[..i]), Before(n, replica, requests, i), xs[i].store;
    var r := requests[i];
    GetReplies(n, replica, r.cmd, false, r.now, r.later, s);
    ReplyFromCells(s, ws, Lost(ops, states), key, r.now);
    if key in Overlay(map[], ws) {
      var _ := LastWrite(ws, key);
    }
    forall j: nat | IsLast(ws, key, j)
      ensures ReplyAt(n, replica, requests, xs, i) == if key in Lost(ops, states) then Nil else Value(ws[j].value)
    {
      OverlayLast(ws, key, j);
    }
  }

  /** A stored key without a deadline is a string with the value written last. */
  lemma ReplyFromCells(s: State, ws: seq<Write>, lost: set<Str>, key: Str, now: nat)
    requires Cells(s) == Overlay(map[], ws) - lost
    ensures key in s.data <==> key in Overlay(map[], ws) && key !in lost
    ensures key in s.data ==>
      s.data[key].expiresAt == 0 && s.data[key].kind == TypeString
      && s.data[key].value == Overlay(map[], ws)[key].value
  {
    OverlayPlain(ws);
    hide Overlay;
    assert key in Cells(s) <==> key in s.data;
    if key in s.data {
      assert Cells(s)[key] == CellOf(s.data[key]);
    }
  }

  lemma {:induction false} OverlayPlain(ws: seq<Write>)
    ensures forall k :: k in Overlay(map[], ws) ==>
      Overlay(map[], ws)[k].kind == TypeString && Overlay(map[], ws)[k].expiresAt == 0
    decreases |ws|
  {
    if ws != [] {
      OverlayPlain(ws[..|ws| - 1]);
    }
  }

  /** A SET that is answered with OK is in the log and, unless eviction took it at once, in the store. */
  lemma SetIsStored(c: Config, n: Node, replica: bool, requests: seq<Request>, xs: seq<Running>,
                    i: nat, key: Str, value: Str)
    requires 1 <= n.slots <= 65535 && ServerRun(c, n, replica, requests, xs)
    requires |xs| == |requests| + 1 && i < |requests|
    requires requests[i].cmd == Command([83, 69, 84], [key, value]) && RouteOf(n, [key, value], false) == Local
    ensures ReplyAt(n, replica, requests, xs, i) == if replica then ReadOnlyReplica else Ok
    ensures replica ==> xs[i + 1] == xs[i]
    ensures !replica ==> xs[i + 1].log == xs[i].log + Encode([[83, 69, 84], key, value])
    ensures !replica && key in xs[i + 1].store.data ==>
      xs[i + 1].store.data[key].value == value && xs[i + 1].store.data[key].expiresAt == 0
  {
    var r := requests[i];
    assert Serves(c, n, replica, xs[i], r, xs[i + 1]);
    hide ServerRun, RouteOf, Encode, Evicted, Written;
    SetReplies(n, replica, r.cmd, false, r.now, r.later, xs[i].store);
    if replica {
      assert xs[i].log + [] == xs[i].log;
    } else if key in xs[i + 1].store.data {
      var op := Set(key, value, 0, r.now, r.later);
      KeptItem(c, xs[i].store, op, xs[i + 1].store);
    }
  }

  lemma KeptItem(c: Config, s: State, op: Op, s': State)
    requires op.Set? && Step(c, s, op, s') && op.key in s'.data
    ensures s'.data[op.key].value == op.value && (op.ttl == 0 ==> s'.data[op.key].expiresAt == 0)
  {
    hide EvictionPath, EvictionEnd, Without;
    var victims :| EvictedBy(c, AfterWrite(s, op), victims, s');
    EvictedParts(c, AfterWrite(s, op), victims, s');
  }
}
