/** A server crashes at any byte of its log and a new server starts from what is left. */
module Recovery {
  import opened Bytes
  import opened Resp
  import opened Draining
  import opened AppendLog
  import opened StoreModel
  import opened Cluster
  import opened TimedMap
  import opened Restart
  import opened Replays
  import opened HeapReplay
  import opened Servers

  /** `Whole` counts the requests that fit, and no more fit. */
  lemma {:induction false} WholeFits(rs: seq<seq<Str>>, n: nat, i: nat)
    requires i <= |rs|
    ensures |Stream(rs[..i])| <= n <==> i <= Whole(rs, n)
    decreases |rs|
  {
    hide Encode;
    if i == 0 {
      assert rs[..0] == [];
    } else {
      assert rs[..i][1..] == rs[1..][..i - 1] && rs[..i][0] == rs[0];
      var e := |Encode(rs[0])|;
      if n >= e {
        WholeFits(rs[1..], n - e, i - 1);
      }
    }
  }

  lemma {:induction false} CommandsAreSets(ws: seq<Write>)
    requires forall r :: r in SetRequests(ws) ==> InLimits(r)
    ensures forall cmd :: cmd in Commands(SetRequests(ws)) ==> cmd.name == SET_NAME && |cmd.args| == 2
    decreases |ws|
  {
    if ws != [] {
      SetNameIsUpper();
      hide SET_NAME;
      assert SetRequests(ws)[1..] == SetRequests(ws[1..]);
      CommandsAreSets(ws[1..]);
      assert |ToCommand(SetRequest(ws[0])).args| == 2;
    }
  }

  /** Reading a cut log of writes ends cleanly exactly when no argument is torn. */
  lemma CutLogEnds(ws: seq<Write>, n: nat)
    requires Loggable(ws) && n <= |Stream(SetRequests(ws))|
    ensures ReadLog(Stream(SetRequests(ws))[..n]).ended.AtEof? <==> !Torn(SetRequests(ws), n)
  {
    hide ReadLog, Commands, Torn, Whole, Stream, InLimits;
    LoggableRequests(ws);
    TruncatedLog(SetRequests(ws), n);
  }

  /** What a new server performs when it replays the log of `ws` cut at byte `n`. */
  lemma CutLogOps(ws: seq<Write>, n: nat, booted: Node, clock: nat -> nat)
    requires Loggable(ws) && n <= |Stream(SetRequests(ws))|
    requires 1 <= booted.slots <= 65535 && booted.ranges == [SlotRange(0, booted.slots - 1, booted.self)]
    ensures IsReplay(ReplayOps(booted, ReadLog(Stream(SetRequests(ws))[..n]).cmds, clock),
                     ws[..Whole(SetRequests(ws), n)])
  {
    hide ReadLog, ReplayedWrites, Commands, Torn, Whole, Stream, InLimits, ReplayOps, IsReplay;
    var k := Whole(SetRequests(ws), n);
    LoggableRequests(ws);
    TruncatedLog(SetRequests(ws), n);
    CutLogReplays(ws, n);
    assert SetRequests(ws)[..k] == SetRequests(ws[..k]);
    CommandsAreSets(ws[..k]);
    ReplayOpsAreWrites(booted, ReadLog(Stream(SetRequests(ws))[..n]).cmds, clock);
  }

  /** Some prefix of the requests has logged exactly the first `k` writes. */
  lemma {:induction false} RequestsWithWrites(n: Node, replica: bool, requests: seq<Request>, k: nat) returns (j: nat)
    requires 1 <= n.slots <= 65535 && k <= |Writes(OpsOf(n, replica, requests))|
    ensures j <= |requests|
    ensures Writes(OpsOf(n, replica, requests[..j])) == Writes(OpsOf(n, replica, requests))[..k]
    decreases |requests|
  {
    hide Dispatch;
    var ops := OpsOf(n, replica, requests);
    j := |requests|;
    assert requests[..j] == requests && Writes(ops)[..|Writes(ops)|] == Writes(ops);
    if k < |Writes(ops)| {
      var m := |requests| - 1;
      OpsPrefix(n, replica, requests);
      j := RequestsWithWrites(n, replica, requests[..m], k);
      assert requests[..m][..j] == requests[..j];
    }
  }

  /** The last request adds at most one write. */
  lemma OpsPrefix(n: Node, replica: bool, requests: seq<Request>)
    requires 1 <= n.slots <= 65535 && requests != []
    ensures var before := Writes(OpsOf(n, replica, requests[..|requests| - 1]));
      var all := Writes(OpsOf(n, replica, requests));
      before <= all && |all| <= |before| + 1
  {
    hide Dispatch;
    var ops := OpsOf(n, replica, requests);
    var before := OpsOf(n, replica, requests[..|requests| - 1]);
    if ops != before {
      assert ops[..|ops| - 1] == before;
    }
  }

  lemma {:induction false} WritesGrow(n: Node, replica: bool, requests: seq<Request>, i: nat)
    requires 1 <= n.slots <= 65535 && i <= |requests|
    ensures Writes(OpsOf(n, replica, requests[..i])) <= Writes(OpsOf(n, replica, requests))
    decreases |requests|
  {
    hide OpsOf, Writes;
    if i == |requests| {
      assert requests[..i] == requests;
    } else {
      var m := |requests| - 1;
      OpsPrefix(n, replica, requests);
      WritesGrow(n, replica, requests[..m], i);
      assert requests[..m][..i] == requests[..i];
    }
  }

  /** The log at an earlier moment is the log of the first so many writes. */
  lemma LogAt(c: Config, n: Node, replica: bool, requests: seq<Request>, xs: seq<Running>, i: nat)
    requires 1 <= n.slots <= 65535 && ServerRun(c, n, replica, requests, xs) && i <= |requests|
    ensures var ws := Writes(OpsOf(n, replica, requests));
      var k := |Writes(OpsOf(n, replica, requests[..i]))|;
      k <= |ws| && xs[i].log == Stream(SetRequests(ws)[..k])
  {
    hide OpsOf, Writes, Stream, ServerRun, StoreModel.Run, NeverOver, NothingEvicted, ServerFits, ServerKeeps;
    hide Logging;
    RunLength(c, n, replica, requests, xs);
    ServerPrefix(c, n, replica, requests, xs, i);
    var _ := LogIsHistory(c, n, replica, requests[..i], xs[..i + 1]);
    WritesGrow(n, replica, requests, i);
    var ws, p := Writes(OpsOf(n, replica, requests)), Writes(OpsOf(n, replica, requests[..i]));
    assert SetRequests(p) == SetRequests(ws)[..|p|];
  }

  lemma RunLength(c: Config, n: Node, replica: bool, requests: seq<Request>, xs: seq<Running>)
    requires 1 <= n.slots <= 65535 && ServerRun(c, n, replica, requests, xs)
    ensures |xs| == |requests| + 1
  {
  }

  /**
   * When a replay does what the server did: under volatile-random always; when nothing
   * was evicted, under LRU and LFU because the limit was not reached; and under these
   * also with evictions, if no GET hit and the clock rose from SET to SET, then and in
   * the replay `ops`.
   */
  ghost predicate Reproducible(c: Config, n: Node, replica: bool,
                               requests: seq<Request>, xs: seq<Running>, ops: seq<Op>)
    requires 1 <= n.slots <= 65535 && |xs| == |requests| + 1
  {
    || c.policy == VolatileRandom
    || (ServerKeeps(n, replica, requests, xs) && (UsesHeap(c.policy) ==> ServerFits(c, n, replica, requests, xs)))
    || (UsesHeap(c.policy) && ServerMisses(n, replica, requests, xs)
        && Rising(OpsOf(n, replica, requests)) && Rising(ops))
  }

  lemma {:induction false} RisingAt(ops: seq<Op>, m: nat)
    requires Rising(ops) && m <= |ops|
    ensures Rising(ops[..m])
    decreases |ops|
  {
    hide Rising;
    if m == |ops| {
      assert ops[..m] == ops;
    } else {
      RisingFront(ops);
      RisingAt(ops[..|ops| - 1], m);
      assert ops[..|ops| - 1][..m] == ops[..m];
    }
  }

  /** The operations of the first requests come first. */
  lemma {:induction false} OpsGrow(n: Node, replica: bool, requests: seq<Request>, i: nat)
    requires 1 <= n.slots <= 65535 && i <= |requests|
    ensures OpsOf(n, replica, requests[..i]) <= OpsOf(n, replica, requests)
    decreases |requests|
  {
    hide Dispatch, OpsOf;
    if i == |requests| {
      assert requests[..i] == requests;
    } else {
      OpsSnoc(n, replica, requests);
      OpsGrow(n, replica, requests[..|requests| - 1], i);
      assert requests[..|requests| - 1][..i] == requests[..i];
    }
  }

  /** The replay of what the first requests logged. */
  lemma Reproduced(c: Config, n: Node, replica: bool, requests: seq<Request>, xs: seq<Running>, j: nat,
                   ops': seq<Op>, states': seq<State>)
    requires 1 <= n.slots <= 65535 && ServerRun(c, n, replica, requests, xs) && j <= |requests|
    requires |xs| == |requests| + 1 && Reproducible(c, n, replica, requests, xs, ops')
    requires StoreModel.Run(c, ops', states') && IsReplay(ops', Writes(OpsOf(n, replica, requests[..j])))
    ensures Cells(states'[|ops'|]) == Cells(xs[j].store) && states'[|ops'|].fifo == xs[j].store.fifo
  {
    hide StoreModel.Run, NeverOver, NothingEvicted, NoHits, Rising, IsReplay, OpsOf, Writes, Cells, Logging;
    hide ServerRun, ServerFits, ServerKeeps, ServerMisses;
    ServerPrefix(c, n, replica, requests, xs, j);
    var ops := OpsOf(n, replica, requests[..j]);
    var states := LogIsHistory(c, n, replica, requests[..j], xs[..j + 1]);
    if c.policy == VolatileRandom {
      VolatileEvictsNothing(c, ops, states);
      ReplayRebuilds(c, ops, states, ops', states');
    } else if ServerKeeps(n, replica, requests, xs)
              && (UsesHeap(c.policy) ==> ServerFits(c, n, replica, requests, xs)) {
      ReplayRebuilds(c, ops, states, ops', states');
    } else {
      OpsGrow(n, replica, requests, j);
      RisingAt(OpsOf(n, replica, requests), |ops|);
      assert OpsOf(n, replica, requests)[..|ops|] == ops;
      HeapReplayRebuilds(c, ops, states, ops', states');
    }
  }

  /**
   * Crash and restart, end to end. A server executes any client commands, one after the
   * other, that are reproducible. Its log is cut at any byte and a new server replays
   * what is left. It starts if and only if the cut tore no argument: otherwise reading
   * the log ends in an error and `RestoreData` fails. What the replay has built by then
   * is exactly what the old server held at some moment `j`, its queue included, and
   * every moment whose log had been written in full is not later, in terms of logged
   * writes, than `j`.
   */
  lemma CrashAndRestart(c: Config, n: Node, replica: bool, requests: seq<Request>, xs: seq<Running>,
                        cut: nat, booted: Node, clock: nat -> nat, s': State) returns (j: nat)
    requires 1 <= n.slots <= 65535 && ServerRun(c, n, replica, requests, xs)
    requires Loggable(Writes(OpsOf(n, replica, requests))) && cut <= |xs[|requests|].log|
    requires 1 <= booted.slots <= 65535 && booted.ranges == [SlotRange(0, booted.slots - 1, booted.self)]
    requires var ops := ReplayOps(booted, ReadLog(xs[|requests|].log[..cut]).cmds, clock);
      Leads(c, EMPTY, ops, s') && Reproducible(c, n, replica, requests, xs, ops)
    ensures ReadLog(xs[|requests|].log[..cut]).ended.AtEof?
      <==> !Torn(SetRequests(Writes(OpsOf(n, replica, requests))), cut)
    ensures j <= |requests| && Cells(s') == Cells(xs[j].store) && s'.fifo == xs[j].store.fifo
    ensures |xs[j].log| <= cut
    ensures forall i :: 0 <= i <= |requests| && |xs[i].log| <= cut ==> |xs[i].log| <= |xs[j].log|
  {
    hide ReadLog, Stream, Whole, Torn, ReplayOps, Leads, Loggable, Cells, StoreModel.Run, NeverOver, NothingEvicted;
    hide IsReplay, OpsOf, Writes, ServerRun, NoHits, Reproducible, Logging, ServerKeeps, ServerFits, ServerMisses;
    RunLength(c, n, replica, requests, xs);
    var ws := Writes(OpsOf(n, replica, requests));
    var _ := LogIsHistory(c, n, replica, requests, xs);
    var k := Whole(SetRequests(ws), cut);
    CutLogEnds(ws, cut);
    CutLogOps(ws, cut, booted, clock);
    var ops' := ReplayOps(booted, ReadLog(xs[|requests|].log[..cut]).cmds, clock);
    var states' := RunOf(c, ops', s');
    j := RequestsWithWrites(n, replica, requests, k);
    Reproduced(c, n, replica, requests, xs, j, ops', states');
    LogAt(c, n, replica, requests, xs, j);
    WholeFits(SetRequests(ws), cut, k);
    forall i | 0 <= i <= |requests| && |xs[i].log| <= cut ensures |xs[i].log| <= |xs[j].log| {
      LogAt(c, n, replica, requests, xs, i);
      var m := |Writes(OpsOf(n, replica, requests[..i]))|;
      WholeFits(SetRequests(ws), cut, m);
      StreamGrows(SetRequests(ws), m, k);
    }
  }

  lemma {:induction false} StreamGrows(rs: seq<seq<Str>>, i: nat, k: nat)
    requires i <= k <= |rs|
    ensures |Stream(rs[..i])| <= |Stream(rs[..k])|
    decreases k
  {
    if i < k {
      StreamGrows(rs, i, k - 1);
      StreamSnoc(rs[..k - 1], rs[k - 1]);
      assert rs[..k] == rs[..k - 1] + [rs[k - 1]];
    }
  }

  lemma {:induction false} WritesConcat(a: seq<Op>, b: seq<Op>)
    ensures Writes(a + b) == Writes(a) + Writes(b)
    decreases |b|
  {
    if b == [] {
      assert a + b == a;
    } else {
      var n := |b| - 1;
      assert (a + b)[..|a + b| - 1] == a + b[..n];
      WritesConcat(a, b[..n]);
    }
  }

  /**
   * The next generation: a server that restarted from a log cut between two commands
   * and goes on appending to it. Its log again holds exactly the writes of a run its
   * store has made, the replayed ones and then its own, so the theorems about logs
   * apply to it as to a server that started empty.
   */
  lemma NextGeneration(c: Config, ws: seq<Write>, ops': seq<Op>, states': seq<State>,
                       n: Node, replica: bool, requests: seq<Request>, xs: seq<Running>)
    returns (states: seq<State>)
    requires StoreModel.Run(c, ops', states') && IsReplay(ops', ws)
    requires 1 <= n.slots <= 65535 && Serving(c, n, replica, requests, xs)
    requires xs[0] == Running(states'[|ops'|], Stream(SetRequests(ws)))
    ensures var ops := ops' + OpsOf(n, replica, requests);
      && StoreModel.Run(c, ops, states) && states[|ops|] == xs[|requests|].store
      && (forall op :: op in ops ==> Logging(op))
      && Writes(ops) == ws + Writes(OpsOf(n, replica, requests))
      && xs[|requests|].log == Stream(SetRequests(Writes(ops)))
  {
    hide StoreModel.Run, IsReplay, Serving, Stream, OpsOf, Writes, SetRequests, Logging, NeverOver;
    WritesOfReplay(ops', ws);
    WritesConcat(ops', OpsOf(n, replica, requests));
    states := HistoryGoesOn(c, ops', states', n, replica, requests, xs);
  }
}
