/**
 * Command execution and restart on a server (pkg/server/server.go:188-229 and
 * 594-651): routing, SET, GET and the append to the log, and the replay at start.
 *
 * The other commands neither write the store nor the log, except MIGRATE, which
 * is not part of this model; their replies are `OtherReply`.
 */
module Servers {
  import opened Bytes
  import opened Text
  import opened Resp
  import opened Draining
  import opened AppendLog
  import opened StoreModel
  import opened StoreFacts
  import opened Stores
  import opened FifoRing
  import opened MinHeaps
  import opened HeapTracking
  import opened Cluster
  import opened TimedMap
  import opened Restart
  import opened HeapReplay

  datatype Reply =
    | Redirected(slot: int, target: Str)
    | Ok
    | Value(value: Str)
    | Nil
    | WrongTypeError
    | WrongArguments
    | ReadOnlyReplica
    | OtherReply

  const GET_NAME: Str := Ascii("GET")

  /** What executeCommand does with a command. */
  datatype Action =
    | Reject(reply: Reply)
    | Perform(op: Op)

  function Dispatch(n: Node, replica: bool, cmd: Command, replay: bool, now: nat, later: nat): Action
    requires 1 <= n.slots <= 65535
  {
    match RouteOf(n, cmd.args, replay)
    case Moved(slot, target) => Reject(Redirected(slot, target))
    case Local =>
      if cmd.name == SET_NAME then
        if |cmd.args| != 2 then Reject(WrongArguments)
        else if replica && !replay then Reject(ReadOnlyReplica)
        else Perform(Set(cmd.args[0], cmd.args[1], 0, now, later))
      else if cmd.name == GET_NAME then
        if |cmd.args| != 1 then Reject(WrongArguments)
        else Perform(Get(cmd.args[0], now))
      else Reject(OtherReply)
  }

  /** What is appended to the log for an action. */
  function Appended(a: Action, cmd: Command): Str {
    if a.Perform? && a.op.Set? then Encode(Logged(cmd)) else []
  }

  function ReplyTo(a: Action, s: State): Reply {
    match a
    case Reject(r) => r
    case Perform(Get(key, now)) =>
      (match Answer(s, key, now)
       case Found(v) => Value(v)
       case NotFound => Nil
       case WrongType => WrongTypeError)
    case Perform(_) => Ok
  }

  lemma CommandNames()
    ensures SET_NAME == [83, 69, 84] && GET_NAME == [71, 69, 84]
  {
  }

  /** What a GET that runs here answers, from the data it finds. */
  lemma GetReplies(n: Node, replica: bool, cmd: Command, replay: bool, now: nat, later: nat, s: State)
    requires 1 <= n.slots <= 65535 && RouteOf(n, cmd.args, replay) == Local
    requires cmd.name == [71, 69, 84]
    ensures var a := Dispatch(n, replica, cmd, replay, now, later);
      && (|cmd.args| != 1 ==> a == Reject(WrongArguments))
      && (|cmd.args| == 1 ==>
            && a == Perform(Get(cmd.args[0], now)) && Appended(a, cmd) == []
            && var k := cmd.args[0];
               ReplyTo(a, s) == if k !in s.data || 0 < s.data[k].expiresAt < now then Nil
                                else if s.data[k].kind != TypeString then WrongTypeError
                                else Value(s.data[k].value))
  {
    CommandNames();
    hide RouteOf, SET_NAME, GET_NAME;
  }

  /**
   * What a SET that runs here does: on a read-only replica nothing, otherwise it is
   * performed without TTL, logged as it was sent and answered with OK.
   */
  lemma SetReplies(n: Node, replica: bool, cmd: Command, replay: bool, now: nat, later: nat, s: State)
    requires 1 <= n.slots <= 65535 && RouteOf(n, cmd.args, replay) == Local
    requires cmd.name == [83, 69, 84]
    ensures var a := Dispatch(n, replica, cmd, replay, now, later);
      && (|cmd.args| != 2 ==> a == Reject(WrongArguments))
      && (|cmd.args| == 2 && replica && !replay ==> a == Reject(ReadOnlyReplica) && Appended(a, cmd) == [])
      && (|cmd.args| == 2 && (replica ==> replay) ==>
            && a == Perform(Set(cmd.args[0], cmd.args[1], 0, now, later)) && ReplyTo(a, s) == Ok
            && Appended(a, cmd) == Encode([[83, 69, 84], cmd.args[0], cmd.args[1]]))
  {
    CommandNames();
    hide RouteOf, SET_NAME, GET_NAME, Encode;
    if |cmd.args| == 2 {
      assert [cmd.name] + cmd.args == [[83, 69, 84], cmd.args[0], cmd.args[1]];
    }
  }

  lemma RejectIsReply(r: Reply, s: State)
    ensures ReplyTo(Reject(r), s) == r
  {
  }

  /** A command that does not run here is answered with its slot and the owner of that slot. */
  lemma MovedReplies(n: Node, replica: bool, cmd: Command, replay: bool, now: nat, later: nat, s: State)
    requires 1 <= n.slots <= 65535 && RouteOf(n, cmd.args, replay).Moved?
    ensures var a, r := Dispatch(n, replica, cmd, replay, now, later), RouteOf(n, cmd.args, replay);
      a.Reject? && ReplyTo(a, s) == Redirected(r.slot, r.target) && Appended(a, cmd) == []
  {
    hide RouteOf;
  }

  /** Any other command (MIGRATE is not part of this model) touches neither store nor log. */
  lemma OtherReplies(n: Node, replica: bool, cmd: Command, replay: bool, now: nat, later: nat, s: State)
    requires 1 <= n.slots <= 65535 && RouteOf(n, cmd.args, replay) == Local
    requires cmd.name != [83, 69, 84] && cmd.name != [71, 69, 84]
    ensures var a := Dispatch(n, replica, cmd, replay, now, later);
      a.Reject? && ReplyTo(a, s) == OtherReply && Appended(a, cmd) == []
  {
    CommandNames();
    hide RouteOf, SET_NAME, GET_NAME;
  }

  /** The store after an action. */
  ghost predicate Acted(c: Config, s: State, a: Action, s': State) {
    if a.Perform? then Step(c, s, a.op, s') else s' == s
  }

  /** `ops` leads from `s` to `s'`. */
  ghost predicate Leads(c: Config, s: State, ops: seq<Op>, s': State) {
    if ops == [] then s' == s
    else
      var n := |ops| - 1;
      Allowed(ops[n]) && exists m :: Leads(c, s, ops[..n], m) && Step(c, m, ops[n], s')
  }

  lemma LeadsSnoc(c: Config, s: State, ops: seq<Op>, m: State, op: Op, s': State)
    requires Leads(c, s, ops, m) && Allowed(op) && Step(c, m, op, s')
    ensures Leads(c, s, ops + [op], s')
  {
    hide Step;
    assert (ops + [op])[..|ops|] == ops;
  }

  /** A path from the empty store is a run. */
  lemma {:induction false} RunOf(c: Config, ops: seq<Op>, s: State) returns (states: seq<State>)
    requires Leads(c, EMPTY, ops, s)
    ensures StoreModel.Run(c, ops, states) && states[|ops|] == s
    decreases |ops|
  {
    hide Step;
    if ops == [] {
      states := [EMPTY];
    } else {
      var n := |ops| - 1;
      var m :| Leads(c, EMPTY, ops[..n], m) && Step(c, m, ops[n], s);
      var before := RunOf(c, ops[..n], m);
      RunSnoc(c, ops[..n], before, ops[n], s);
      assert ops[..n] + [ops[n]] == ops;
      states := before + [s];
    }
  }

  /** The operations a list of commands performs when it is replayed, command `i` at `clock(i)`. */
  function ReplayOps(n: Node, cmds: seq<Command>, clock: nat -> nat): seq<Op>
    requires 1 <= n.slots <= 65535
  {
    if cmds == [] then []
    else
      var i := |cmds| - 1;
      var a := Dispatch(n, false, cmds[i], true, clock(i), clock(i));
      ReplayOps(n, cmds[..i], clock) + (if a.Perform? then [a.op] else [])
  }

  lemma ReplayOpsSnoc(n: Node, cmds: seq<Command>, clock: nat -> nat, i: nat)
    requires 1 <= n.slots <= 65535 && i < |cmds|
    ensures var a := Dispatch(n, false, cmds[i], true, clock(i), clock(i));
      && (a.Perform? ==> forall q: seq<Op> :: q + ReplayOps(n, cmds[..i + 1], clock)
                                             == q + ReplayOps(n, cmds[..i], clock) + [a.op])
      && (a.Reject? ==> ReplayOps(n, cmds[..i + 1], clock) == ReplayOps(n, cmds[..i], clock))
  {
    hide Dispatch;
    var a := Dispatch(n, false, cmds[i], true, clock(i), clock(i));
    assert cmds[..i + 1][..i] == cmds[..i];
    var done := ReplayOps(n, cmds[..i], clock);
    assert done + [] == done;
    if a.Perform? {
      forall q: seq<Op> ensures q + (done + [a.op]) == q + done + [a.op] {
      }
    }
  }

  /**
   * ValidateAndFill (server.go:46-63): a missing limit becomes one gibibyte, and the
   * policy with number 0, FIFO, becomes all-keys-random, so no server evicts by FIFO.
   */
  function Filled(maxMemory: int, policy: Policy): (c: Config)
    ensures c.policy != NoEviction && c.maxMemory != 0
    ensures policy != NoEviction ==> c.policy == policy
    ensures maxMemory != 0 ==> c.maxMemory == maxMemory
  {
    Config(if maxMemory == 0 then 1024 * 1024 * 1024 else maxMemory,
           if policy == NoEviction then AllKeysRandom else policy)
  }

  /** What a server makes of a missing limit and of policy number 0. */
  lemma FilledIn(maxMemory: int, policy: Policy)
    ensures Filled(0, policy).maxMemory == 1073741824
    ensures Filled(maxMemory, NoEviction).policy == AllKeysRandom
  {
  }

  class Server {
    const self: Str
    var leader: Str
    var replicaMode: bool
    const cluster: ClusterState
    const store: Store
    const aof: Aof
    var logging: bool  // the log is attached once it has been replayed

    ghost predicate Valid()
      reads this, cluster, store, store.ring, store.ring.keys, store.lruHeap, store.lfuHeap
    {
      store.Valid() && 1 <= cluster.slots <= 65535
    }

    function View(): Node
      reads this, cluster
    {
      Node(self, leader, cluster.slots, cluster.ranges)
    }

    /** NewServer, with an existing log file: limit, policy and slot count are filled in first */
    constructor (self: Str, slots: int, maxMemory: int, policy: Policy, replica: bool, content: Str)
      requires 0 <= slots <= 65535
      ensures Valid() && store.Abs() == EMPTY && store.config == Filled(maxMemory, policy)
      ensures aof.content == content && !logging && replicaMode == replica
      ensures var n := if slots == 0 then 16384 else slots;
        View() == Node(self, self, n, [SlotRange(0, n - 1, self)])
      ensures fresh(cluster) && fresh(store) && fresh(aof)
      ensures fresh(store.ring) && fresh(store.ring.keys) && fresh(store.lruHeap) && fresh(store.lfuHeap)
    {
      hide Inv, QueueInv, Coherent, TrackedIn, Used, Ring.Live, MinHeap.Valid, MinHeap.Contents;
      this.self, leader, replicaMode, logging := self, self, replica, false;
      cluster := new ClusterState(if slots == 0 then 16384 else slots, self);
      store := new Store(Filled(maxMemory, policy).maxMemory, Filled(maxMemory, policy).policy);
      aof := new Aof(content);
    }

    /** executeCommand for SET, GET and the routing checks */
    method ExecuteCommand(cmd: Command, replay: bool, now: nat, later: nat) returns (reply: Reply)
      requires Valid()
      modifies store, store.ring, store.ring.keys, store.lruHeap, store.lfuHeap, aof
      ensures Valid() && (store.ring.keys == old(store.ring.keys) || fresh(store.ring.keys))
      ensures var a := Dispatch(View(), replicaMode, cmd, replay, now, later);
        && Acted(store.config, old(store.Abs()), a, store.Abs())
        && reply == ReplyTo(a, old(store.Abs()))
        && aof.content == if logging && !replay then old(aof.content) + Appended(a, cmd) else old(aof.content)
      ensures RouteOf(View(), cmd.args, replay) == Local && cmd.name == [71, 69, 84] && |cmd.args| == 1 ==>
        var k, data := cmd.args[0], old(store.data);
        reply == if k !in data || 0 < data[k].expiresAt < now then Nil
                 else if data[k].kind != TypeString then WrongTypeError
                 else Value(data[k].value)
      ensures RouteOf(View(), cmd.args, replay) == Local && cmd.name == [83, 69, 84] && |cmd.args| == 2 ==>
        reply == if replicaMode && !replay then ReadOnlyReplica else Ok
    {
      hide Dispatch, ReplyTo, RouteOf, Acted, Appended;
      hide Inv, QueueInv, Coherent, TrackedIn, Used, Ring.Live, MinHeap.Valid, MinHeap.Contents;
      if RouteOf(View(), cmd.args, replay) == Local && cmd.name == [71, 69, 84] {
        GetReplies(View(), replicaMode, cmd, replay, now, later, store.Abs());
      }
      if RouteOf(View(), cmd.args, replay) == Local && cmd.name == [83, 69, 84] {
        SetReplies(View(), replicaMode, cmd, replay, now, later, store.Abs());
        RejectIsReply(ReadOnlyReplica, store.Abs());
      }
      reply := Execute(cmd, replay, now, later);
    }

    /** executeCommand, routing first */
    method Execute(cmd: Command, replay: bool, now: nat, later: nat) returns (reply: Reply)
      requires Valid()
      modifies store, store.ring, store.ring.keys, store.lruHeap, store.lfuHeap, aof
      ensures Valid() && (store.ring.keys == old(store.ring.keys) || fresh(store.ring.keys))
      ensures var a := Dispatch(View(), replicaMode, cmd, replay, now, later);
        && Acted(store.config, old(store.Abs()), a, store.Abs())
        && reply == ReplyTo(a, old(store.Abs()))
        && aof.content == if logging && !replay then old(aof.content) + Appended(a, cmd) else old(aof.content)
    {
      hide SlotFor, Encode, SET_NAME, GET_NAME, Looked, Answer, Step;
      hide Inv, QueueInv, Coherent, TrackedIn, Used, Ring.Live, MinHeap.Valid, MinHeap.Contents;
      var slot := 0;
      if leader != self && !replay {
        if |cmd.args| > 0 {
          slot := SlotFor(View(), cmd.args[0]);
        }
        var target := cluster.Lookup(slot);
        if target != [] && target != self {
          return Redirected(slot, target);
        }
      }
      if |cmd.args| > 0 {
        slot := SlotFor(View(), cmd.args[0]);
        var target := cluster.Lookup(slot);
        if target != [] && target != self {
          return Redirected(slot, target);
        }
      }
      assert RouteOf(View(), cmd.args, replay) == Local;
      reply := RunCommand(cmd, replay, now, later);
    }

    /** The command switch of executeCommand. */
    method RunCommand(cmd: Command, replay: bool, now: nat, later: nat) returns (reply: Reply)
      requires Valid() && RouteOf(View(), cmd.args, replay) == Local
      modifies store, store.ring, store.ring.keys, store.lruHeap, store.lfuHeap, aof
      ensures Valid() && (store.ring.keys == old(store.ring.keys) || fresh(store.ring.keys))
      ensures var a := Dispatch(View(), replicaMode, cmd, replay, now, later);
        && Acted(store.config, old(store.Abs()), a, store.Abs())
        && reply == ReplyTo(a, old(store.Abs()))
        && aof.content == if logging && !replay then old(aof.content) + Appended(a, cmd) else old(aof.content)
    {
      hide RouteOf, Encode, SET_NAME, GET_NAME, Looked, Answer, Evicted, Written;
      hide Inv, QueueInv, Coherent, TrackedIn, Used, Ring.Live, MinHeap.Valid, MinHeap.Contents;
      if cmd.name == SET_NAME {
        if |cmd.args| != 2 {
          return WrongArguments;
        }
        if replicaMode && !replay {
          return ReadOnlyReplica;
        }
        store.Set(cmd.args[0], cmd.args[1], 0, now, later);
        if !replay && logging {
          aof.Write(cmd);
        }
        return Ok;
      } else if cmd.name == GET_NAME {
        if |cmd.args| != 1 {
          return WrongArguments;
        }
        var found := store.Get(cmd.args[0], now);
        match found {
          case Found(v) =>
            return Value(v);
          case NotFound =>
            return Nil;
          case WrongType =>
            return WrongTypeError;
        }
      }
      return OtherReply;
    }

    /** restoreData with initAOF: the snapshot, if there is one, and then the whole log */
    method RestoreData(snapshot: Option<seq<SnapshotEntry>>, now: nat, clock: nat -> nat)
      returns (ok: bool, ghost ops: seq<Op>)
      requires Valid() && (snapshot.Some? ==> DistinctKeys(snapshot.value))
      modifies this`logging, store, store.ring, store.ring.keys, store.lruHeap, store.lfuHeap, aof
      ensures Valid() && (store.ring.keys == old(store.ring.keys) || fresh(store.ring.keys))
      ensures ops == (if snapshot.Some? then [Restore(snapshot.value, now)] else [])
                     + ReplayOps(View(), ReadLog(old(aof.content)).cmds, clock)
      ensures Leads(store.config, old(store.Abs()), ops, store.Abs())
      ensures aof.content == old(aof.content)
      ensures ok == ReadLog(old(aof.content)).ended.AtEof? && (ok ==> logging)
    {
      hide Dispatch, Step, ReadLog, DistinctKeys, ReplayOps, Leads;
      hide Inv, QueueInv, Coherent, TrackedIn, Used, Ring.Live, MinHeap.Valid, MinHeap.Contents;
      LeadsNothing(store.config, store.Abs());
      ghost var s := store.Abs();
      ops := [];
      if snapshot.Some? {
        ops := RestoreOnly(snapshot.value, now);
      }
      var cmds, ended := aof.ReadCommands();
      ops := ReplayAll(cmds, clock, s, ops);
      ok := ended.AtEof?;
      if ok {
        logging := true;
      }
    }

    /** The commands of the log, one after the other. */
    method ReplayAll(cmds: seq<Command>, clock: nat -> nat, ghost s: State, ghost before: seq<Op>)
      returns (ghost ops: seq<Op>)
      requires Valid() && Leads(store.config, s, before, store.Abs())
      modifies store, store.ring, store.ring.keys, store.lruHeap, store.lfuHeap, aof
      ensures Valid() && (store.ring.keys == old(store.ring.keys) || fresh(store.ring.keys))
      ensures aof.content == old(aof.content)
      ensures ops == before + ReplayOps(View(), cmds, clock)
      ensures Leads(store.config, s, ops, store.Abs())
    {
      hide Dispatch, Step, Leads;
      hide Inv, QueueInv, Coherent, TrackedIn, Used, Ring.Live, MinHeap.Valid, MinHeap.Contents;
      ops := before;
      assert before + [] == before;
      for i := 0 to |cmds|
        invariant Valid() && (store.ring.keys == old(store.ring.keys) || fresh(store.ring.keys))
        invariant aof.content == old(aof.content)
        invariant ops == before + ReplayOps(View(), cmds[..i], clock)
        invariant Leads(store.config, s, ops, store.Abs())
      {
        ghost var done := ReplayOps(View(), cmds[..i], clock);
        ReplayOpsSnoc(View(), cmds, clock, i);
        ops := ReplayOne(cmds[i], clock(i), s, ops);
      }
      assert cmds[..|cmds|] == cmds;
    }

    method RestoreOnly(entries: seq<SnapshotEntry>, now: nat) returns (ghost ops: seq<Op>)
      requires Valid() && DistinctKeys(entries)
      modifies store, store.ring, store.ring.keys, store.lruHeap, store.lfuHeap
      ensures Valid() && (store.ring.keys == old(store.ring.keys) || fresh(store.ring.keys))
      ensures ops == [Restore(entries, now)] && Leads(store.config, old(store.Abs()), ops, store.Abs())
    {
      hide Loaded, Leads;
      hide Inv, QueueInv, Coherent, TrackedIn, Used, Ring.Live, MinHeap.Valid, MinHeap.Contents;
      ghost var s := store.Abs();
      store.RestoreSnapshot(entries, now);
      LeadsOne(store.config, s, Restore(entries, now), store.Abs());
      ops := [Restore(entries, now)];
    }

    /** The callback of initAOF. */
    method ReplayOne(cmd: Command, now: nat, ghost s: State, ghost before: seq<Op>) returns (ghost ops: seq<Op>)
      requires Valid() && Leads(store.config, s, before, store.Abs())
      modifies store, store.ring, store.ring.keys, store.lruHeap, store.lfuHeap, aof
      ensures Valid() && (store.ring.keys == old(store.ring.keys) || fresh(store.ring.keys))
      ensures aof.content == old(aof.content)
      ensures var a := Dispatch(View(), false, cmd, true, now, now);
        ops == if a.Perform? then before + [a.op] else before
      ensures Leads(store.config, s, ops, store.Abs())
    {
      hide Step, Leads;
      hide Inv, QueueInv, Coherent, TrackedIn, Used, Ring.Live, MinHeap.Valid, MinHeap.Contents;
      ghost var m := store.Abs();
      ghost var a := Dispatch(View(), replicaMode, cmd, true, now, now);
      assert a == Dispatch(View(), false, cmd, true, now, now);
      var _ := ExecuteCommand(cmd, true, now, now);
      ops := before;
      if a.Perform? {
        LeadsSnoc(store.config, s, before, m, a.op, store.Abs());
        ops := before + [a.op];
      }
    }
  }

  lemma LeadsOne(c: Config, s: State, op: Op, s': State)
    requires Allowed(op) && Step(c, s, op, s')
    ensures Leads(c, s, [op], s')
  {
    hide Step;
    LeadsSnoc(c, s, [], s, op, s');
    assert [] + [op] == [op];
  }

  // ---------- The log of a server ----------

  /** A server with its log attached, between commands. */
  datatype Running = Running(store: State, log: Str)

  datatype Request = Request(cmd: Command, now: nat, later: nat)

  /** One client command on such a server, as ExecuteCommand performs it. */
  ghost predicate Serves(c: Config, n: Node, replica: bool, x: Running, r: Request, y: Running)
    requires 1 <= n.slots <= 65535
  {
    var a := Dispatch(n, replica, r.cmd, false, r.now, r.later);
    Acted(c, x.store, a, y.store) && y.log == x.log + Appended(a, r.cmd)
  }

  /** Client commands one after the other, on a server in any state. */
  ghost predicate Serving(c: Config, n: Node, replica: bool, requests: seq<Request>, xs: seq<Running>)
    requires 1 <= n.slots <= 65535
  {
    && |xs| == |requests| + 1
    && forall i :: 0 <= i < |requests| ==> Serves(c, n, replica, xs[i], requests[i], xs[i + 1])
  }

  /** The same on a new server with an empty log. */
  ghost predicate ServerRun(c: Config, n: Node, replica: bool, requests: seq<Request>, xs: seq<Running>)
    requires 1 <= n.slots <= 65535
  {
    Serving(c, n, replica, requests, xs) && xs[0] == Running(EMPTY, [])
  }

  lemma LogGrows(ws: seq<Write>, w: Write)
    ensures Stream(SetRequests(ws + [w])) == Stream(SetRequests(ws)) + Encode(SetRequest(w))
  {
    hide Stream, Encode, SetRequest;
    assert SetRequests(ws + [w]) == SetRequests(ws) + [SetRequest(w)];
    StreamSnoc(SetRequests(ws), SetRequest(w));
  }

  /** The operations that a sequence of client commands performs. */
  function OpsOf(n: Node, replica: bool, requests: seq<Request>): seq<Op>
    requires 1 <= n.slots <= 65535
  {
    if requests == [] then []
    else
      var r := requests[|requests| - 1];
      var a := Dispatch(n, replica, r.cmd, false, r.now, r.later);
      var before := OpsOf(n, replica, requests[..|requests| - 1]);
      if a.Perform? then before + [a.op] else before
  }

  /** No SET of the run removed a key. */
  ghost predicate ServerKeeps(n: Node, replica: bool, requests: seq<Request>, xs: seq<Running>)
    requires 1 <= n.slots <= 65535 && |xs| == |requests| + 1
  {
    forall i :: 0 <= i < |requests| ==> RequestKeeps(n, replica, requests[i], xs[i].store, xs[i + 1].store)
  }

  ghost predicate RequestKeeps(n: Node, replica: bool, r: Request, s: State, s': State)
    requires 1 <= n.slots <= 65535
  {
    var a := Dispatch(n, replica, r.cmd, false, r.now, r.later);
    a.Perform? && a.op.Set? ==> s'.data == AfterWrite(s, a.op).data
  }

  /** No SET of the run found the store over its limit. */
  ghost predicate ServerFits(c: Config, n: Node, replica: bool, requests: seq<Request>, xs: seq<Running>)
    requires 1 <= n.slots <= 65535 && |xs| == |requests| + 1
  {
    forall i :: 0 <= i < |requests| ==> RequestFits(c, n, replica, requests[i], xs[i].store)
  }

  ghost predicate RequestFits(c: Config, n: Node, replica: bool, r: Request, s: State)
    requires 1 <= n.slots <= 65535
  {
    var a := Dispatch(n, replica, r.cmd, false, r.now, r.later);
    a.Perform? && a.op.Set? ==> !Over(c, AfterWrite(s, a.op))
  }

  /** No GET of the run found its key. */
  ghost predicate ServerMisses(n: Node, replica: bool, requests: seq<Request>, xs: seq<Running>)
    requires 1 <= n.slots <= 65535 && |xs| == |requests| + 1
  {
    forall i :: 0 <= i < |requests| ==> RequestMisses(n, replica, requests[i], xs[i].store)
  }

  ghost predicate RequestMisses(n: Node, replica: bool, r: Request, s: State)
    requires 1 <= n.slots <= 65535
  {
    var a := Dispatch(n, replica, r.cmd, false, r.now, r.later);
    a.Perform? && a.op.Get? ==> a.op.key !in s.data
  }

  /** What one command does to the history and to the log. */
  lemma OneMoreRequest(n: Node, replica: bool, before: seq<Op>, r: Request)
    requires 1 <= n.slots <= 65535 && forall op :: op in before ==> Logging(op)
    ensures var a := Dispatch(n, replica, r.cmd, false, r.now, r.later);
      var ops := if a.Perform? then before + [a.op] else before;
      && (forall op :: op in ops ==> Logging(op))
      && Stream(SetRequests(Writes(ops))) == Stream(SetRequests(Writes(before))) + Appended(a, r.cmd)
  {
    hide RouteOf, SET_NAME, GET_NAME, Encode, Stream;
    var a := Dispatch(n, replica, r.cmd, false, r.now, r.later);
    var log := Stream(SetRequests(Writes(before)));
    assert log + [] == log;
    if a.Perform? {
      var ops := before + [a.op];
      assert ops[..|before|] == before;
      if a.op.Set? {
        LogGrows(Writes(before), Write(a.op.key, a.op.value));
        assert Logged(r.cmd) == SetRequest(Write(a.op.key, a.op.value));
      }
    }
  }

  /**
   * The log goes on as the history of the store: on a server whose log holds exactly
   * the writes of the run its store has made, this still holds after any client
   * commands, executed one after the other.
   */
  lemma {:induction false} HistoryGoesOn(c: Config, past: seq<Op>, earlier: seq<State>,
                                         n: Node, replica: bool, requests: seq<Request>, xs: seq<Running>)
    returns (states: seq<State>)
    requires 1 <= n.slots <= 65535 && Serving(c, n, replica, requests, xs)
    requires StoreModel.Run(c, past, earlier) && earlier[|past|] == xs[0].store
    requires (forall op :: op in past ==> Logging(op)) && xs[0].log == Stream(SetRequests(Writes(past)))
    ensures var ops := past + OpsOf(n, replica, requests);
      && StoreModel.Run(c, ops, states) && states[|ops|] == xs[|requests|].store
      && (forall op :: op in ops ==> Logging(op))
      && xs[|requests|].log == Stream(SetRequests(Writes(ops)))
      && (NeverOver(c, past, earlier) && ServerFits(c, n, replica, requests, xs) ==> NeverOver(c, ops, states))
      && (NothingEvicted(past, earlier) && ServerKeeps(n, replica, requests, xs) ==> NothingEvicted(ops, states))
      && (NoHits(past, earlier) && ServerMisses(n, replica, requests, xs) ==> NoHits(ops, states))
    decreases |requests|
  {
    hide Step, Dispatch, NeverOver, NothingEvicted, NoHits, Stream, Over, Written, Logging, Writes, SetRequests;
    hide StoreModel.Run, Appended;
    RunPrefix(c, past, earlier, 0);
    if requests == [] {
      states := earlier;
      assert past + [] == past;
    } else {
      var k := |requests| - 1;
      ServingPrefix(c, n, replica, requests, xs, k);
      var before := HistoryGoesOn(c, past, earlier, n, replica, requests[..k], xs[..k + 1]);
      var x, r, y, ops := xs[k], requests[k], xs[k + 1], past + OpsOf(n, replica, requests[..k]);
      assert Serves(c, n, replica, x, r, y);
      RunPrefix(c, ops, before, 0);
      hide Serves, RequestFits, RequestKeeps, RequestMisses, OpsOf;
      OneMoreRequest(n, replica, ops, r);
      states := OneMoreServed(c, ops, before, n, replica, x, r, y);
      OpsSnoc(n, replica, requests);
      var a := Dispatch(n, replica, r.cmd, false, r.now, r.later);
      assert past + OpsOf(n, replica, requests) == if a.Perform? then ops + [a.op] else ops;
      assert ServerFits(c, n, replica, requests, xs) ==> RequestFits(c, n, replica, r, x.store);
      assert ServerKeeps(n, replica, requests, xs) ==> RequestKeeps(n, replica, r, x.store, y.store);
      assert ServerMisses(n, replica, requests, xs) ==> RequestMisses(n, replica, r, x.store);
    }
  }

  lemma OpsSnoc(n: Node, replica: bool, requests: seq<Request>)
    requires 1 <= n.slots <= 65535 && requests != []
    ensures var r := requests[|requests| - 1];
      var a := Dispatch(n, replica, r.cmd, false, r.now, r.later);
      var before := OpsOf(n, replica, requests[..|requests| - 1]);
      OpsOf(n, replica, requests) == if a.Perform? then before + [a.op] else before
  {
    hide Dispatch;
  }

  /** One more command extends the run of the store. */
  lemma OneMoreServed(c: Config, ops: seq<Op>, before: seq<State>, n: Node, replica: bool,
                      x: Running, r: Request, y: Running) returns (states: seq<State>)
    requires 1 <= n.slots <= 65535 && Serves(c, n, replica, x, r, y)
    requires StoreModel.Run(c, ops, before) && |before| == |ops| + 1 && before[|ops|] == x.store
    ensures var a := Dispatch(n, replica, r.cmd, false, r.now, r.later);
      var ops' := if a.Perform? then ops + [a.op] else ops;
      && |states| == |ops'| + 1 && StoreModel.Run(c, ops', states) && states[|ops'|] == y.store
      && (NeverOver(c, ops, before) && RequestFits(c, n, replica, r, x.store) ==> NeverOver(c, ops', states))
      && (NothingEvicted(ops, before) && RequestKeeps(n, replica, r, x.store, y.store) ==>
            NothingEvicted(ops', states))
      && (NoHits(ops, before) && RequestMisses(n, replica, r, x.store) ==> NoHits(ops', states))
  {
    hide Step, Dispatch, NeverOver, NothingEvicted, NoHits, Over, Written, StoreModel.Run, Appended;
    var a := Dispatch(n, replica, r.cmd, false, r.now, r.later);
    if a.Perform? {
      PerformedIsAllowed(n, replica, r);
      RunSnoc(c, ops, before, a.op, y.store);
      states := before + [y.store];
      assert (ops + [a.op])[..|ops|] == ops && states[..|ops| + 1] == before;
      if NeverOver(c, ops, before) && RequestFits(c, n, replica, r, x.store) {
        NeverOverSnoc(c, ops + [a.op], states);
      }
      if NothingEvicted(ops, before) && RequestKeeps(n, replica, r, x.store, y.store) {
        NothingEvictedSnoc(ops + [a.op], states);
      }
      if NoHits(ops, before) && RequestMisses(n, replica, r, x.store) {
        NoHitsSnoc(ops, before, a.op, y.store);
      }
    } else {
      states := before;
    }
  }

  /**
   * The log of a server that started empty: whatever commands are executed, one
   * after the other, the store is at the end of a run of logged operations and the
   * log holds exactly its writes.
   */
  lemma LogIsHistory(c: Config, n: Node, replica: bool, requests: seq<Request>, xs: seq<Running>)
    returns (states: seq<State>)
    requires 1 <= n.slots <= 65535 && ServerRun(c, n, replica, requests, xs)
    ensures var ops := OpsOf(n, replica, requests);
      && StoreModel.Run(c, ops, states) && states[|ops|] == xs[|requests|].store
      && (forall op :: op in ops ==> Logging(op))
      && xs[|requests|].log == Stream(SetRequests(Writes(ops)))
      && (ServerFits(c, n, replica, requests, xs) ==> NeverOver(c, ops, states))
      && (ServerKeeps(n, replica, requests, xs) ==> NothingEvicted(ops, states))
      && (ServerMisses(n, replica, requests, xs) ==> NoHits(ops, states))
  {
    hide NeverOver, NothingEvicted, NoHits, Stream, Logging, Writes, SetRequests, StoreModel.Run, OpsOf;
    EmptyRun(c);
    EmptyLog();
    NothingOver(c);
    states := HistoryGoesOn(c, [], [EMPTY], n, replica, requests, xs);
    assert [] + OpsOf(n, replica, requests) == OpsOf(n, replica, requests);
  }

  lemma EmptyRun(c: Config)
    ensures StoreModel.Run(c, [], [EMPTY])
  {
  }

  lemma EmptyLog()
    ensures Stream(SetRequests(Writes([]))) == []
  {
    assert SetRequests([]) == [];
  }

  lemma NothingOver(c: Config)
    ensures NeverOver(c, [], [EMPTY]) && NothingEvicted([], [EMPTY]) && NoHits([], [EMPTY])
  {
  }

  lemma PerformedIsAllowed(n: Node, replica: bool, r: Request)
    requires 1 <= n.slots <= 65535
    ensures var a := Dispatch(n, replica, r.cmd, false, r.now, r.later); a.Perform? ==> Allowed(a.op)
  {
  }

  lemma ServingPrefix(c: Config, n: Node, replica: bool, requests: seq<Request>, xs: seq<Running>, k: nat)
    requires 1 <= n.slots <= 65535 && Serving(c, n, replica, requests, xs) && k <= |requests|
    ensures Serving(c, n, replica, requests[..k], xs[..k + 1])
    ensures ServerFits(c, n, replica, requests, xs) ==> ServerFits(c, n, replica, requests[..k], xs[..k + 1])
    ensures ServerKeeps(n, replica, requests, xs) ==> ServerKeeps(n, replica, requests[..k], xs[..k + 1])
    ensures ServerMisses(n, replica, requests, xs) ==> ServerMisses(n, replica, requests[..k], xs[..k + 1])
  {
    hide Serves, RequestFits, RequestKeeps, RequestMisses;
  }

  lemma ServerPrefix(c: Config, n: Node, replica: bool, requests: seq<Request>, xs: seq<Running>, k: nat)
    requires 1 <= n.slots <= 65535 && ServerRun(c, n, replica, requests, xs) && k <= |requests|
    ensures ServerRun(c, n, replica, requests[..k], xs[..k + 1])
    ensures ServerFits(c, n, replica, requests, xs) ==> ServerFits(c, n, replica, requests[..k], xs[..k + 1])
    ensures ServerKeeps(n, replica, requests, xs) ==> ServerKeeps(n, replica, requests[..k], xs[..k + 1])
    ensures ServerMisses(n, replica, requests, xs) ==> ServerMisses(n, replica, requests[..k], xs[..k + 1])
  {
    hide Serves, ServerFits, ServerKeeps, ServerMisses;
    ServingPrefix(c, n, replica, requests, xs, k);
  }

  lemma LeadsNothing(c: Config, s: State)
    ensures Leads(c, s, [], s)
  {
  }

  /** Replaying a log of writes on a new server performs exactly those writes. */
  lemma {:induction false} ReplayOpsAreWrites(n: Node, cmds: seq<Command>, clock: nat -> nat)
    requires 1 <= n.slots <= 65535 && n.ranges == [SlotRange(0, n.slots - 1, n.self)]
    requires forall cmd :: cmd in cmds ==> cmd.name == SET_NAME && |cmd.args| == 2
    ensures IsReplay(ReplayOps(n, cmds, clock), ReplayedWrites(cmds))
    decreases |cmds|
  {
    hide RouteOf, SET_NAME, GET_NAME;
    if cmds != [] {
      var i := |cmds| - 1;
      ReplayOpsAreWrites(n, cmds[..i], clock);
      var cmd := cmds[i];
      assert cmd in cmds;
      FreshTableIsLocal(n, cmd.args, true);
      ReplayedSnoc(cmds[..i], cmd);
      assert cmds == cmds[..i] + [cmd];
    }
  }

  lemma {:induction false} ReplayedSnoc(cmds: seq<Command>, cmd: Command)
    requires cmd.name == SET_NAME && |cmd.args| == 2
    ensures ReplayedWrites(cmds + [cmd]) == ReplayedWrites(cmds) + [Write(cmd.args[0], cmd.args[1])]
  {
    hide SET_NAME, ReplayedWrites;
    ReplayedCons(cmds + [cmd]);
    if cmds == [] {
      assert cmds + [cmd] == [cmd] && [cmd][1..] == [];
      ReplayedNone();
    } else {
      assert (cmds + [cmd])[1..] == cmds[1..] + [cmd];
      ReplayedCons(cmds);
      ReplayedSnoc(cmds[1..], cmd);
    }
  }

  lemma ReplayedNone()
    ensures ReplayedWrites([]) == []
  {
  }

  lemma ReplayedCons(cmds: seq<Command>)
    requires cmds != []
    ensures ReplayedWrites(cmds)
      == (if cmds[0].name == SET_NAME && |cmds[0].args| == 2 then [Write(cmds[0].args[0], cmds[0].args[1])] else [])
         + ReplayedWrites(cmds[1..])
  {
    hide SET_NAME;
  }
}
