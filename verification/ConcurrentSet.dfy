/**
 * SETs of several connections at once (pkg/server/server.go:183 and 632-637). A SET
 * is two critical sections, `store.Set` under the lock of the store and `aof.Write`
 * under the lock of the log, with nothing held in between: what the log then holds,
 * and when replaying it rebuilds the store.
 */
module ConcurrentSet {
  import opened Bytes
  import opened StoreModel
  import opened StoreFacts
  import opened StoreEviction
  import opened TimedMap
  import opened Restart
  import opened Replays
  import opened RestartEviction

  /** `pending` and `log` refer to the applied writes by their position. */
  datatype System = System(store: State, applied: seq<Write>, pending: map<int, nat>, log: seq<nat>)

  datatype Event =
    | Apply(tid: int, w: Write, now: nat, later: nat)
    | Append(tid: int)
    | Other(op: Op)  // a read or an expiry tick of another thread

  function SetOp(ev: Event): Op
    requires ev.Apply?
  {
    Set(ev.w.key, ev.w.value, 0, ev.now, ev.later)
  }

  ghost predicate Next(c: Config, x: System, ev: Event, y: System) {
    match ev
    case Apply(tid, w, _, _) =>
      && tid !in x.pending
      && Step(c, x.store, SetOp(ev), y.store)
      && y == System(y.store, x.applied + [w], x.pending[tid := |x.applied|], x.log)
    case Append(tid) =>
      && tid in x.pending
      && y == x.(pending := x.pending - {tid}, log := x.log + [x.pending[tid]])
    case Other(op) =>
      && (op.Get? || op.ActiveExpire?)
      && Step(c, x.store, op, y.store)
      && y == x.(store := y.store)
  }

  const START := System(EMPTY, [], map[], [])

  ghost predicate Behaviour(c: Config, events: seq<Event>, systems: seq<System>) {
    && |systems| == |events| + 1
    && systems[0] == START
    && forall i :: 0 <= i < |events| ==> Next(c, systems[i], events[i], systems[i + 1])
  }

  lemma BehaviourFront(c: Config, events: seq<Event>, systems: seq<System>)
    requires Behaviour(c, events, systems) && events != []
    ensures var n := |events| - 1;
      && |systems| == n + 2
      && Behaviour(c, events[..n], systems[..n + 1])
      && Next(c, systems[n], events[n], systems[n + 1])
  {
    hide Next;
  }

  // ---------- What the log holds ----------

  /** Every applied write is in the log once or pending in one thread. */
  ghost predicate Accounted(x: System) {
    && (forall i :: 0 <= i < |x.log| ==> x.log[i] < |x.applied|)
    && (forall i, j :: 0 <= i < j < |x.log| ==> x.log[i] != x.log[j])
    && (forall t :: t in x.pending ==> x.pending[t] < |x.applied| && x.pending[t] !in x.log)
    && (forall t, u :: t in x.pending && u in x.pending && t != u ==> x.pending[t] != x.pending[u])
    && (forall n :: 0 <= n < |x.applied| ==> n in x.log || exists t :: t in x.pending && x.pending[t] == n)
  }

  lemma AccountedApply(x: System, y: System, tid: int)
    requires Accounted(x) && tid !in x.pending && |y.applied| == |x.applied| + 1
    requires y.pending == x.pending[tid := |x.applied|] && y.log == x.log
    ensures Accounted(y)
  {
    forall n | 0 <= n < |y.applied| ensures n in y.log || exists t :: t in y.pending && y.pending[t] == n {
      if n == |x.applied| {
        assert y.pending[tid] == n;
      } else if n !in x.log {
        var t :| t in x.pending && x.pending[t] == n;
        assert y.pending[t] == n;
      }
    }
  }

  lemma AccountedAppend(x: System, y: System, tid: int)
    requires Accounted(x) && tid in x.pending && y.applied == x.applied
    requires y.pending == x.pending - {tid} && y.log == x.log + [x.pending[tid]]
    ensures Accounted(y)
  {
    forall n | 0 <= n < |y.applied| ensures n in y.log || exists t :: t in y.pending && y.pending[t] == n {
      if n !in x.log {
        var t :| t in x.pending && x.pending[t] == n;
        if t != tid {
          assert y.pending[t] == n;
        } else {
          assert y.log[|x.log|] == n;
        }
      } else {
        var i :| 0 <= i < |x.log| && x.log[i] == n;
        assert y.log[i] == n;
      }
    }
  }

  /** In every behaviour every applied write is accounted for. */
  lemma {:induction false} AlwaysAccounted(c: Config, events: seq<Event>, systems: seq<System>)
    requires Behaviour(c, events, systems)
    ensures Accounted(systems[|events|])
    decreases |events|
  {
    if events != [] {
      hide Behaviour, Accounted, Step;
      var n := |events| - 1;
      BehaviourFront(c, events, systems);
      AlwaysAccounted(c, events[..n], systems[..n + 1]);
      var x, ev, y := systems[n], events[n], systems[n + 1];
      match ev
      case Apply(tid, _, _, _) => AccountedApply(x, y, tid);
      case Append(tid) => AccountedAppend(x, y, tid);
      case Other(_) => AccountedSame(x, y);
    }
  }

  lemma AccountedSame(x: System, y: System)
    requires Accounted(x) && y == x.(store := y.store)
    ensures Accounted(y)
  {
  }

  /** No SET is between its two sections: the log is a permutation of the applied writes. */
  ghost predicate Settled(x: System) {
    Accounted(x) && x.pending == map[]
  }

  /** The writes in the order of the log. */
  ghost function LogWrites(x: System): (ws: seq<Write>)
    requires Accounted(x)
    ensures |ws| == |x.log| && forall i :: 0 <= i < |ws| ==> ws[i] == x.applied[x.log[i]]
  {
    seq(|x.log|, i requires 0 <= i < |x.log| => x.applied[x.log[i]])
  }

  // ---------- When the order of the log matters ----------

  /** For each key, the SET appended last wrote the value of the SET applied last. */
  ghost predicate LastAgree(x: System)
    requires Accounted(x)
  {
    forall k, i: nat, j: nat :: IsLast(x.applied, k, i) && IsLast(LogWrites(x), k, j) ==>
      x.applied[i].value == LogWrites(x)[j].value
  }

  lemma SameKeys(x: System)
    requires Settled(x)
    ensures Overlay(map[], LogWrites(x)).Keys == Overlay(map[], x.applied).Keys
  {
    var ws := LogWrites(x);
    forall k ensures k in Overlay(map[], ws) <==> k in Overlay(map[], x.applied) {
      if k in Overlay(map[], ws) {
        var i := LastWrite(ws, k);
        WrittenKey(x.applied, x.log[i]);
      }
      if k in Overlay(map[], x.applied) {
        var i := LastWrite(x.applied, k);
        assert i in x.log;
        var j :| 0 <= j < |x.log| && x.log[j] == i;
        WrittenKey(ws, j);
      }
    }
  }

  /** The log rebuilds the applied writes if and only if the last ones agree. */
  lemma LogRebuildsExactly(x: System)
    requires Settled(x)
    ensures Overlay(map[], LogWrites(x)) == Overlay(map[], x.applied) <==> LastAgree(x)
  {
    var ws, m, l := LogWrites(x), Overlay(map[], x.applied), Overlay(map[], LogWrites(x));
    SameKeys(x);
    hide Accounted, Overlay;
    if m == l {
      forall k, i: nat, j: nat | IsLast(x.applied, k, i) && IsLast(ws, k, j)
        ensures x.applied[i].value == ws[j].value
      {
        OverlayLast(x.applied, k, i);
        OverlayLast(ws, k, j);
      }
    }
    if LastAgree(x) {
      forall k | k in m ensures k in l && m[k] == l[k] {
        var i := LastWrite(x.applied, k);
        var j := LastWrite(ws, k);
        OverlayLast(x.applied, k, i);
        OverlayLast(ws, k, j);
      }
    }
  }

  // ---------- When nothing can go wrong ----------

  /** Some SET of this key has been applied and not yet appended. */
  ghost predicate Racing(x: System, key: Str) {
    exists t :: t in x.pending && x.pending[t] < |x.applied| && x.applied[x.pending[t]].key == key
  }

  /** No SET was applied while another SET of its key was still to be appended. */
  ghost predicate NoRace(events: seq<Event>, systems: seq<System>)
    requires |systems| == |events| + 1
  {
    forall i :: 0 <= i < |events| && events[i].Apply? ==> !Racing(systems[i], events[i].w.key)
  }

  /** The log has the SETs of each key as they were applied, and those pending come later. */
  ghost predicate Ordered(x: System)
    requires Accounted(x)
  {
    && (forall i, j :: 0 <= i < j < |x.log| && x.applied[x.log[i]].key == x.applied[x.log[j]].key ==>
          x.log[i] < x.log[j])
    && (forall i, t :: 0 <= i < |x.log| && t in x.pending ==>
          x.applied[x.log[i]].key == x.applied[x.pending[t]].key ==> x.log[i] < x.pending[t])
    && (forall t, u :: t in x.pending && u in x.pending && t != u ==>
          x.applied[x.pending[t]].key != x.applied[x.pending[u]].key)
  }

  lemma OrderedApply(x: System, y: System, tid: int, w: Write)
    requires Accounted(x) && Ordered(x) && tid !in x.pending && !Racing(x, w.key) && Accounted(y)
    requires y.applied == x.applied + [w] && y.pending == x.pending[tid := |x.applied|] && y.log == x.log
    ensures Ordered(y)
  {
    forall i | 0 <= i < |y.log| ensures y.log[i] < |x.applied| && y.applied[y.log[i]] == x.applied[x.log[i]] {
    }
    hide Accounted;
    OrderedPending(x, y, tid, w);
  }

  /** What the new pending write means for the others. */
  lemma OrderedPending(x: System, y: System, tid: int, w: Write)
    requires Accounted(x) && Ordered(x) && tid !in x.pending && !Racing(x, w.key) && Accounted(y)
    requires y.applied == x.applied + [w] && y.pending == x.pending[tid := |x.applied|] && y.log == x.log
    ensures forall i, t :: 0 <= i < |y.log| && t in y.pending ==>
      y.applied[y.log[i]].key == y.applied[y.pending[t]].key ==> y.log[i] < y.pending[t]
    ensures forall t, u :: t in y.pending && u in y.pending && t != u ==>
      y.applied[y.pending[t]].key != y.applied[y.pending[u]].key
  {
    PendingKeys(x, y, tid, w);
    forall i, t | 0 <= i < |y.log| && t in y.pending
      ensures y.applied[y.log[i]].key == y.applied[y.pending[t]].key ==> y.log[i] < y.pending[t]
    {
      assert y.log[i] == x.log[i] && y.applied[y.log[i]] == x.applied[x.log[i]];
    }
    forall t, u | t in y.pending && u in y.pending && t != u
      ensures y.applied[y.pending[t]].key != y.applied[y.pending[u]].key
    {
    }
  }

  lemma PendingKeys(x: System, y: System, tid: int, w: Write)
    requires Accounted(x) && tid !in x.pending && !Racing(x, w.key) && Accounted(y)
    requires y.applied == x.applied + [w] && y.pending == x.pending[tid := |x.applied|]
    ensures forall t :: t in x.pending ==>
      y.pending[t] == x.pending[t] && y.applied[y.pending[t]] == x.applied[x.pending[t]]
      && y.applied[y.pending[t]].key != w.key
  {
  }

  lemma OrderedAppend(x: System, y: System, tid: int)
    requires Accounted(x) && Ordered(x) && tid in x.pending && Accounted(y)
    requires y.applied == x.applied && y.pending == x.pending - {tid} && y.log == x.log + [x.pending[tid]]
    ensures Ordered(y)
  {
  }

  lemma {:induction false} NoRaceOrders(c: Config, events: seq<Event>, systems: seq<System>)
    requires Behaviour(c, events, systems) && NoRace(events, systems)
    ensures Accounted(systems[|events|]) && Ordered(systems[|events|])
    decreases |events|
  {
    AlwaysAccounted(c, events, systems);
    if events != [] {
      hide Behaviour, Accounted, Ordered, Step, Racing;
      var n := |events| - 1;
      BehaviourFront(c, events, systems);
      AlwaysAccounted(c, events[..n], systems[..n + 1]);
      NoRaceOrders(c, events[..n], systems[..n + 1]);
      var x, ev, y := systems[n], events[n], systems[n + 1];
      match ev
      case Apply(tid, w, _, _) => OrderedApply(x, y, tid, w);
      case Append(tid) => OrderedAppend(x, y, tid);
      case Other(_) => OrderedSame(x, y);
    }
  }

  lemma OrderedSame(x: System, y: System)
    requires Accounted(x) && Ordered(x) && y == x.(store := y.store)
    ensures Accounted(y) && Ordered(y)
  {
  }

  /** In order, the SET of a key appended last is the one applied last. */
  lemma OrderedAgrees(x: System)
    requires Settled(x) && Ordered(x)
    ensures LastAgree(x)
  {
    var ws := LogWrites(x);
    forall k, i: nat, j: nat | IsLast(x.applied, k, i) && IsLast(ws, k, j)
      ensures x.applied[i].value == ws[j].value
    {
      assert i in x.log;
      var p :| 0 <= p < |x.log| && x.log[p] == i;
      assert ws[p].key == k && ws[j].key == k;
    }
  }

  // ---------- From the store to the replayed store ----------

  /** The operations on the store, in the order in which they took effect. */
  function StoreOps(events: seq<Event>): seq<Op> {
    if events == [] then []
    else
      var before, ev := StoreOps(events[..|events| - 1]), events[|events| - 1];
      match ev
      case Apply(_, _, _, _) => before + [SetOp(ev)]
      case Append(_) => before
      case Other(op) => before + [op]
  }

  /** No SET removed a key. */
  ghost predicate KeepsAll(events: seq<Event>, systems: seq<System>)
    requires |systems| == |events| + 1
  {
    forall i :: 0 <= i < |events| && events[i].Apply? ==>
      systems[i + 1].store.data == AfterWrite(systems[i].store, SetOp(events[i])).data
  }

  /** The store has made a sequential run of the applied writes. */
  lemma {:induction false} StoreRun(c: Config, events: seq<Event>, systems: seq<System>) returns (states: seq<State>)
    requires Behaviour(c, events, systems)
    ensures var ops, x := StoreOps(events), systems[|events|];
      && Run(c, ops, states) && states[|ops|] == x.store
      && (forall op :: op in ops ==> Logging(op)) && Writes(ops) == x.applied
      && (KeepsAll(events, systems) ==> NothingEvicted(ops, states))
    decreases |events|
  {
    hide Step, Written, Run, NothingEvicted;
    if events == [] {
      states := [EMPTY];
      NoSteps(c);
    } else {
      var n := |events| - 1;
      BehaviourFront(c, events, systems);
      hide Behaviour;
      var before := StoreRun(c, events[..n], systems[..n + 1]);
      var x, ev, y, ops := systems[n], events[n], systems[n + 1], StoreOps(events[..n]);
      if ev.Append? {
        states := before;
      } else {
        var op := if ev.Apply? then SetOp(ev) else ev.op;
        states := before + [y.store];
        OneMoreStep(c, ops, before, op, y.store);
      }
    }
  }

  lemma NoSteps(c: Config)
    ensures Run(c, [], [EMPTY]) && NothingEvicted([], [EMPTY])
  {
  }

  lemma OneMoreStep(c: Config, ops: seq<Op>, states: seq<State>, op: Op, s': State)
    requires Run(c, ops, states) && Logging(op) && Step(c, states[|ops|], op, s')
    ensures |states| == |ops| + 1
    ensures Run(c, ops + [op], states + [s'])
    ensures NothingEvicted(ops, states) && (op.Set? ==> s'.data == AfterWrite(states[|ops|], op).data) ==>
      NothingEvicted(ops + [op], states + [s'])
    ensures Writes(ops + [op]) == Writes(ops) + (if op.Set? then [Write(op.key, op.value)] else [])
  {
    hide Step, Written;
    RunSnoc(c, ops, states, op, s');
    var ops', states' := ops + [op], states + [s'];
    assert ops'[..|ops|] == ops && states'[..|ops| + 1] == states;
    if NothingEvicted(ops, states) && (op.Set? ==> s'.data == AfterWrite(states[|ops|], op).data) {
      NothingEvictedSnoc(ops', states');
    }
    WritesPrefix(ops');
  }

  /**
   * Concurrent SETs and restart: once every SET is appended, replaying the log on a
   * new server rebuilds the contents of the store if and only if for each key the
   * SET appended last wrote the value of the SET applied last. This is for stores
   * that evicted nothing and logs that can be recovered; under volatile-random that
   * is every one.
   */
  lemma ConcurrentRestart(c: Config, events: seq<Event>, systems: seq<System>, ops': seq<Op>, states': seq<State>)
    requires Behaviour(c, events, systems) && systems[|events|].pending == map[]
    requires Accounted(systems[|events|]) && IsReplay(ops', LogWrites(systems[|events|])) && Run(c, ops', states')
    requires c.policy == VolatileRandom
             || (KeepsAll(events, systems) && Recoverable(c, map[], LogWrites(systems[|events|])))
    ensures Cells(states'[|ops'|]) == Cells(systems[|events|].store) <==> LastAgree(systems[|events|])
    ensures NoRace(events, systems) ==> LastAgree(systems[|events|])
  {
    hide KeepsAll, Run, NothingEvicted, Recoverable, LastAgree, Accounted, Overlay, Cells, NoRace, IsReplay;
    hide Ordered, Writes, StoreOps, Logging;
    var x := systems[|events|];
    var states := StoreRun(c, events, systems);
    if c.policy == VolatileRandom {
      VolatileEvictsNothing(c, StoreOps(events), states);
      VolatileRecoverable(c, map[], LogWrites(x));
    }
    LoggedRunHolds(c, StoreOps(events), states);
    ReplayFromEmpty(c, ops', states', LogWrites(x));
    LogRebuildsExactly(x);
    if NoRace(events, systems) {
      NoRaceOrders(c, events, systems);
      OrderedAgrees(x);
    }
  }

  /** The race: two SETs of one key, applied in one order and appended in the other. */
  lemma RaceLosesWrite(c: Config, k: Str, v1: Str, v2: Str) returns (events: seq<Event>, systems: seq<System>)
    requires c.maxMemory <= 0 && v1 != v2
    ensures events == [Apply(1, Write(k, v1), 0, 0), Apply(2, Write(k, v2), 0, 0), Append(2), Append(1)]
    ensures Behaviour(c, events, systems) && KeepsAll(events, systems)
    ensures Settled(systems[4]) && !LastAgree(systems[4])
    ensures k in systems[4].store.data && systems[4].store.data[k].value == v2
    ensures LogWrites(systems[4]) == [Write(k, v2), Write(k, v1)]
  {
    events := [Apply(1, Write(k, v1), 0, 0), Apply(2, Write(k, v2), 0, 0), Append(2), Append(1)];
    var s1 := AfterWrite(EMPTY, SetOp(events[0]));
    var s2 := AfterWrite(s1, SetOp(events[1]));
    RaceEnd(s2, k, v1, v2);
    hide Accounted, Settled, LastAgree, Behaviour, Without;
    RaceSteps(c, events, s1, s2);
    var ws := [Write(k, v1), Write(k, v2)];
    systems := [START, System(s1, ws[..1], map[1 := 0], []), System(s2, ws, map[1 := 0, 2 := 1], []),
                System(s2, ws, map[1 := 0], [1]), System(s2, ws, map[], [1, 0])];
  }

  lemma RaceSteps(c: Config, events: seq<Event>, s1: State, s2: State)
    requires c.maxMemory <= 0 && |events| == 4
    requires events[0].Apply? && events[0].tid == 1 && s1 == AfterWrite(EMPTY, SetOp(events[0]))
    requires events[1].Apply? && events[1].tid == 2 && s2 == AfterWrite(s1, SetOp(events[1]))
    requires events[2] == Append(2) && events[3] == Append(1)
    ensures var ws := [events[0].w, events[1].w];
      var systems := [START, System(s1, ws[..1], map[1 := 0], []), System(s2, ws, map[1 := 0, 2 := 1], []),
                      System(s2, ws, map[1 := 0], [1]), System(s2, ws, map[], [1, 0])];
      Behaviour(c, events, systems)
  {
    StepBelow(c, EMPTY, SetOp(events[0]));
    StepBelow(c, s1, SetOp(events[1]));
    hide Step, Written;
    var ws := [events[0].w, events[1].w];
    assert [] + [ws[0]] == ws[..1] && ws[..1] + [ws[1]] == ws;
  }

  lemma RaceEnd(s: State, k: Str, v1: Str, v2: Str)
    requires v1 != v2
    ensures var x := System(s, [Write(k, v1), Write(k, v2)], map[], [1, 0]);
      Settled(x) && !LastAgree(x) && LogWrites(x) == [Write(k, v2), Write(k, v1)]
  {
    var x := System(s, [Write(k, v1), Write(k, v2)], map[], [1, 0]);
    assert x.log[0] == 1 && x.log[1] == 0;
    assert IsLast(x.applied, k, 1) && IsLast(LogWrites(x), k, 1);
  }
}
