/**
 * The double-checked Get (pkg/store/store.go:352-383) among other threads.
 *
 * A Get is two critical sections: a peek under the read lock, which already
 * answers when the key is missing, and the full lookup under the write lock.
 * Between them any other thread may run any operation. Every such interleaving
 * has a sequential run of atomic operations with the same answers.
 */
module LockedGet {
  import opened Bytes
  import opened StoreModel
  import opened StoreFacts

  /** `since` is the number of operations that had taken effect when the Get began. */
  datatype Pending = Pending(key: Str, now: nat, since: nat)

  /** An operation that has taken effect, and what a Get answered. */
  datatype Effect = Effect(op: Op, answer: Option<Lookup>, since: nat)

  datatype System = System(store: State, pending: map<int, Pending>, history: seq<Effect>)

  datatype Event =
    | Peek(tid: int, key: Str, now: nat)
    | Finish(tid: int)
    | Other(op: Op)  // a whole critical section of another operation

  ghost predicate Next(c: Config, x: System, ev: Event, y: System) {
    match ev
    case Peek(tid, key, now) =>
      && tid !in x.pending
      && y == if key in x.store.data
              then x.(pending := x.pending[tid := Pending(key, now, |x.history|)])
              else x.(history := x.history + [Effect(Get(key, now), Some(NotFound), |x.history|)])
    case Finish(tid) =>
      && tid in x.pending
      && var p := x.pending[tid];
         y == System(
           Looked(x.store, p.key, p.now),
           x.pending - {tid},
           x.history + [Effect(Get(p.key, p.now), Some(Answer(x.store, p.key, p.now)), p.since)])
    case Other(op) =>
      && !op.Get? && Allowed(op)
      && Step(c, x.store, op, y.store)
      && y.pending == x.pending
      && y.history == x.history + [Effect(op, None, |x.history|)]
  }

  ghost predicate Behaviour(c: Config, events: seq<Event>, systems: seq<System>) {
    && |systems| == |events| + 1
    && systems[0] == System(EMPTY, map[], [])
    && forall i :: 0 <= i < |events| ==> Next(c, systems[i], events[i], systems[i + 1])
  }

  function Ops(history: seq<Effect>): (ops: seq<Op>)
    ensures |ops| == |history| && forall i :: 0 <= i < |history| ==> ops[i] == history[i].op
  {
    seq(|history|, i requires 0 <= i < |history| => history[i].op)
  }

  /** `states` is a sequential run of the history in which every Get answers the same. */
  ghost predicate Explains(c: Config, x: System, states: seq<State>) {
    && Run(c, Ops(x.history), states)
    && states[|x.history|] == x.store
    && (forall i :: 0 <= i < |x.history| && x.history[i].op.Get? ==>
          x.history[i].answer == Some(Answer(states[i], x.history[i].op.key, x.history[i].op.now)))
    && (forall i :: 0 <= i < |x.history| ==> x.history[i].since <= i)
    && (forall tid :: tid in x.pending ==> x.pending[tid].since <= |x.history|)
  }

  lemma BehaviourFront(c: Config, events: seq<Event>, systems: seq<System>)
    requires Behaviour(c, events, systems) && events != []
    ensures var n := |events| - 1;
      && |systems| == n + 2
      && Behaviour(c, events[..n], systems[..n + 1])
      && Next(c, systems[n], events[n], systems[n + 1])
  {
    hide Next;
  }

  /** One more effect extends the sequential run. */
  lemma ExplainsSnoc(c: Config, x: System, states: seq<State>, e: Effect, y: System)
    requires Explains(c, x, states) && Allowed(e.op) && Step(c, x.store, e.op, y.store)
    requires y.history == x.history + [e] && y.pending.Keys <= x.pending.Keys
    requires forall tid :: tid in y.pending ==> y.pending[tid] == x.pending[tid]
    requires e.op.Get? ==> e.answer == Some(Answer(x.store, e.op.key, e.op.now))
    requires e.since <= |x.history|
    ensures Explains(c, y, states + [y.store])
  {
    hide Step;
    RunSnoc(c, Ops(x.history), states, e.op, y.store);
    assert Ops(y.history) == Ops(x.history) + [e.op];
  }

  /**
   * Linearizability: every behaviour has a sequential run with the same answers
   * and the same final store, in which each Get takes effect after it began.
   */
  lemma {:induction false} Linearizable(c: Config, events: seq<Event>, systems: seq<System>)
    returns (states: seq<State>)
    requires Behaviour(c, events, systems)
    ensures Explains(c, systems[|events|], states)
    decreases |events|
  {
    if events == [] {
      states := [EMPTY];
    } else {
      var n := |events| - 1;
      BehaviourFront(c, events, systems);
      hide Behaviour, Step, Looked, Answer;
      var before := Linearizable(c, events[..n], systems[..n + 1]);
      var x, ev, y := systems[n], events[n], systems[n + 1];
      if ev.Peek? && ev.key in x.store.data {
        states := before;
      } else {
        var e := y.history[|x.history|];
        ExplainsSnoc(c, x, before, e, y);
        states := before + [y.store];
      }
    }
  }
}
