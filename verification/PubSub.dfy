/**
 * Publish and subscribe (pkg/pubsub/pubsub.go) under every interleaving.
 *
 * Each critical section under the write lock is one step. A Publish holds the
 * read lock over several steps, one per send, so it interleaves with other
 * publishers, with receivers and with the closing of channels, which Unsubscribe
 * does after it has released the lock.
 */
module PubSub {
  import opened Bytes
  import opened Lists

  const BUFFER_SIZE := 100

  /** A Go channel with what has been observed of it. */
  datatype Sub<M> = Sub(
    buffer: seq<M>,
    closed: bool,
    attempts: seq<M>,   // messages some Publish tried to send
    received: seq<M>,   // messages the subscriber has taken out
    dropped: nat)       // attempts that found the buffer full

  /** A message, with the number of the Publish it comes from. */
  datatype Msg = Msg(publish: nat, text: Str)

  /** A Publish that holds the read lock. */
  datatype Publisher = Publisher(
    channel: Str,
    message: Msg,
    done: seq<int>,       // subscribers tried
    todo: seq<int>,       // subscribers still to be tried
    accepted: seq<int>,   // subscribers whose buffer took the message
    count: nat)

  /** `removing` are subscribers taken off the registry and not closed yet. */
  datatype State = State(
    registry: map<Str, seq<int>>,
    subs: map<int, Sub<Msg>>,
    removing: set<int>,
    publishing: map<int, Publisher>,
    begun: nat,           // Publishes so far
    panicked: bool)

  const EMPTY := State(map[], map[], {}, map[], 0, false)

  function NewSub<M>(): Sub<M> {
    Sub([], false, [], [], 0)
  }

  function Subscribers(registry: map<Str, seq<int>>, channel: Str): seq<int> {
    if channel in registry then registry[channel] else []
  }

  /** The registry with a new list for a channel; an empty list is not kept. */
  function WithList(registry: map<Str, seq<int>>, channel: Str, ids: seq<int>): map<Str, seq<int>> {
    if ids == [] then registry - {channel} else registry[channel := ids]
  }

  /** The registry without subscriber `id` of a channel (pubsub.go:35-55). */
  function Unregistered(registry: map<Str, seq<int>>, channel: Str, id: int): map<Str, seq<int>> {
    if channel !in registry then registry else WithList(registry, channel, RemoveFirst(registry[channel], id))
  }

  /** A non-blocking send to an open channel. */
  function Offer<M>(sub: Sub<M>, message: M): Sub<M> {
    if |sub.buffer| < BUFFER_SIZE
    then sub.(buffer := sub.buffer + [message], attempts := sub.attempts + [message])
    else sub.(attempts := sub.attempts + [message], dropped := sub.dropped + 1)
  }

  // ---------- Steps ----------

  datatype Event =
    | Subscribe(channel: Str, id: int)
    | Remove(channel: Str, id: int)                  // Unsubscribe's critical section
    | Close(id: int)                                 // Unsubscribe after it
    | Begin(tid: int, channel: Str, message: Str)    // Publish takes the read lock
    | Send(tid: int)
    | End(tid: int, result: nat)                     // Publish returns
    | Receive(id: int)

  function Removed(x: State, channel: Str, id: int): State {
    x.(registry := Unregistered(x.registry, channel, id),
       removing := if id in Subscribers(x.registry, channel) then x.removing + {id} else x.removing)
  }

  function Closed(x: State, id: int): State
    requires id in x.removing && id in x.subs
  {
    x.(removing := x.removing - {id},
       subs := x.subs[id := x.subs[id].(closed := true)],
       panicked := x.panicked || x.subs[id].closed)
  }

  /** One round of the loop of a Publish, with or without room for its message. */
  function Tried(p: Publisher, ok: bool): Publisher
    requires p.todo != []
  {
    p.(done := p.done + [p.todo[0]],
       todo := p.todo[1..],
       accepted := if ok then p.accepted + [p.todo[0]] else p.accepted,
       count := if ok then p.count + 1 else p.count)
  }

  function Sent(x: State, tid: int): State
    requires tid in x.publishing && x.publishing[tid].todo != []
    requires x.publishing[tid].todo[0] in x.subs
  {
    var p := x.publishing[tid];
    var id := p.todo[0];
    var sub := x.subs[id];
    var ok := |sub.buffer| < BUFFER_SIZE;
    x.(subs := x.subs[id := Offer(sub, p.message)],
       publishing := x.publishing[tid := Tried(p, ok)],
       panicked := x.panicked || sub.closed)
  }

  ghost predicate Next(x: State, ev: Event, y: State) {
    match ev
    case Subscribe(channel, id) =>
      && x.publishing == map[] && id !in x.subs
      && y == x.(registry := x.registry[channel := Subscribers(x.registry, channel) + [id]],
                 subs := x.subs[id := NewSub()])
    case Remove(channel, id) => x.publishing == map[] && y == Removed(x, channel, id)
    case Close(id) => id in x.removing && id in x.subs && y == Closed(x, id)
    case Begin(tid, channel, message) =>
      && tid !in x.publishing
      && y == x.(publishing := x.publishing[tid :=
                   Publisher(channel, Msg(x.begun, message), [], Subscribers(x.registry, channel), [], 0)],
                 begun := x.begun + 1)
    case Send(tid) =>
      && tid in x.publishing && x.publishing[tid].todo != [] && x.publishing[tid].todo[0] in x.subs
      && y == Sent(x, tid)
    case End(tid, result) =>
      && tid in x.publishing && x.publishing[tid].todo == [] && result == x.publishing[tid].count
      && y == x.(publishing := x.publishing - {tid})
    case Receive(id) =>
      && id in x.subs && x.subs[id].buffer != []
      && var sub := x.subs[id];
         y == x.(subs := x.subs[id := sub.(buffer := sub.buffer[1..], received := sub.received + [sub.buffer[0]])])
  }

  ghost predicate Behaviour(events: seq<Event>, xs: seq<State>) {
    && |xs| == |events| + 1
    && xs[0] == EMPTY
    && forall i :: 0 <= i < |events| ==> Next(xs[i], events[i], xs[i + 1])
  }

  // ---------- Invariant ----------

  /** `a` is `b` with some elements left out. */
  ghost predicate Subsequence<M>(a: seq<M>, b: seq<M>)
    decreases |b|
  {
    if b == [] then a == []
    else
      var n := |b| - 1;
      || Subsequence(a, b[..n])
      || (a != [] && a[|a| - 1] == b[n] && Subsequence(a[..|a| - 1], b[..n]))
  }

  ghost predicate SubInv<M>(sub: Sub<M>) {
    && |sub.buffer| <= BUFFER_SIZE
    && Subsequence(sub.received + sub.buffer, sub.attempts)
    && |sub.attempts| == |sub.received| + |sub.buffer| + sub.dropped
  }

  /** A registered channel exists, is open, is not being removed, and is registered once. */
  ghost predicate RegistryInv(x: State) {
    && (forall c :: c in x.registry ==> x.registry[c] != [] && NoDuplicates(x.registry[c]))
    && (forall c, id :: c in x.registry && id in x.registry[c] ==>
          id in x.subs && !x.subs[id].closed && id !in x.removing)
    && (forall c, d, id :: c in x.registry && d in x.registry && c != d && id in x.registry[c] ==>
          id !in x.registry[d])
    && (forall id :: id in x.removing ==> id in x.subs && !x.subs[id].closed)
  }

  /** A Publish in progress goes through the list of its channel and counts its successes. */
  ghost predicate PublisherInv(registry: map<Str, seq<int>>, p: Publisher) {
    && p.done + p.todo == Subscribers(registry, p.channel)
    && NoDuplicates(p.done + p.todo)
    && (forall id :: id in p.accepted ==> id in p.done)
    && NoDuplicates(p.accepted)
    && p.count == |p.accepted|
  }

  ghost predicate Inv(x: State) {
    && !x.panicked
    && RegistryInv(x)
    && (forall id :: id in x.subs ==> SubInv(x.subs[id]))
    && (forall t :: t in x.publishing ==> PublisherInv(x.registry, x.publishing[t]))
  }

  // ---------- Every step keeps it ----------

  lemma NewSubInv<M>()
    ensures SubInv(NewSub<M>())
  {
    var sub := NewSub<M>();
    assert sub.received + sub.buffer == [];
  }

  lemma OfferKeeps<M>(sub: Sub<M>, message: M)
    requires SubInv(sub)
    ensures SubInv(Offer(sub, message))
  {
    var all := sub.attempts + [message];
    assert all[..|sub.attempts|] == sub.attempts;
    var got := sub.received + sub.buffer;
    assert (got + [message])[..|got|] == got;
    assert sub.received + (sub.buffer + [message]) == got + [message];
  }

  lemma ReceiveKeeps<M>(sub: Sub<M>)
    requires SubInv(sub) && sub.buffer != []
    ensures SubInv(sub.(buffer := sub.buffer[1..], received := sub.received + [sub.buffer[0]]))
  {
    assert sub.received + [sub.buffer[0]] + sub.buffer[1..] == sub.received + sub.buffer;
  }

  lemma RegistrySubscribe(x: State, channel: Str, id: int, y: State)
    requires RegistryInv(x) && Next(x, Subscribe(channel, id), y)
    ensures RegistryInv(y)
  {
    var ids := Subscribers(x.registry, channel);
    assert id !in ids;
    forall c, k | c in y.registry && k in y.registry[c] ensures k == id || k in Subscribers(x.registry, c) {
    }
    forall c | c in y.registry ensures y.registry[c] != [] && NoDuplicates(y.registry[c]) {
    }
  }

  lemma KeepsSubscribe(x: State, channel: Str, id: int, y: State)
    requires Inv(x) && Next(x, Subscribe(channel, id), y)
    ensures Inv(y)
  {
    hide SubInv, RegistryInv, PublisherInv;
    NewSubInv<Msg>();
    RegistrySubscribe(x, channel, id, y);
  }

  lemma KeepsRemove(x: State, channel: Str, id: int, y: State)
    requires Inv(x) && Next(x, Remove(channel, id), y)
    ensures Inv(y)
  {
    hide SubInv;
    if channel in x.registry {
      RemoveFacts(x.registry[channel], id);
    }
  }

  lemma KeepsClose(x: State, id: int, y: State)
    requires Inv(x) && Next(x, Close(id), y)
    ensures Inv(y)
  {
    hide Subsequence;
  }

  lemma BeginPublisher(registry: map<Str, seq<int>>, channel: Str, message: Msg)
    requires forall c :: c in registry ==> NoDuplicates(registry[c])
    ensures PublisherInv(registry, Publisher(channel, message, [], Subscribers(registry, channel), [], 0))
  {
    assert [] + Subscribers(registry, channel) == Subscribers(registry, channel);
  }

  lemma TriedPublisher(registry: map<Str, seq<int>>, p: Publisher, ok: bool)
    requires PublisherInv(registry, p) && p.todo != []
    ensures PublisherInv(registry, Tried(p, ok)) && p.todo[0] !in p.done
  {
    var id := p.todo[0];
    assert p.done + [id] + p.todo[1..] == p.done + p.todo;
    forall i | 0 <= i < |p.done| ensures p.done[i] != id {
      assert (p.done + p.todo)[i] == p.done[i] && (p.done + p.todo)[|p.done|] == id;
    }
    assert id !in p.accepted;
    AppendNew(p.accepted, id);
  }

  lemma KeepsSend(x: State, tid: int, y: State)
    requires Inv(x) && Next(x, Send(tid), y)
    ensures Inv(y)
  {
    hide SubInv, PublisherInv;
    var p := x.publishing[tid];
    var id := p.todo[0];
    SendTarget(x.registry, p);
    OfferKeeps(x.subs[id], p.message);
    TriedPublisher(x.registry, p, |x.subs[id].buffer| < BUFFER_SIZE);
  }

  lemma SendTarget(registry: map<Str, seq<int>>, p: Publisher)
    requires PublisherInv(registry, p) && p.todo != []
    ensures var id := p.todo[0]; p.channel in registry && id in registry[p.channel]
  {
    var id := p.todo[0];
    assert id in p.done + p.todo;
  }

  /** The registry and what it requires of the subscribers. */
  lemma RegistrySame(x: State, y: State)
    requires RegistryInv(x) && y.registry == x.registry && y.removing == x.removing
    requires y.subs.Keys == x.subs.Keys && forall id :: id in x.subs ==> y.subs[id].closed == x.subs[id].closed
    ensures RegistryInv(y)
  {
  }

  lemma KeepsReceive(x: State, id: int, y: State)
    requires Inv(x) && Next(x, Receive(id), y)
    ensures Inv(y)
  {
    hide SubInv, PublisherInv, RegistryInv;
    ReceiveKeeps(x.subs[id]);
    RegistrySame(x, y);
  }

  lemma KeepsBegin(x: State, tid: int, channel: Str, message: Str, y: State)
    requires Inv(x) && Next(x, Begin(tid, channel, message), y)
    ensures Inv(y)
  {
    BeginPublisher(x.registry, channel, Msg(x.begun, message));
    hide SubInv, PublisherInv, RegistryInv;
    RegistrySame(x, y);
  }

  lemma KeepsEnd(x: State, tid: int, result: nat, y: State)
    requires Inv(x) && Next(x, End(tid, result), y)
    ensures Inv(y)
  {
    hide SubInv, PublisherInv, RegistryInv;
    RegistrySame(x, y);
  }

  lemma KeepsInv(x: State, ev: Event, y: State)
    requires Inv(x) && Next(x, ev, y)
    ensures Inv(y)
  {
    hide Inv, Next;
    match ev
    case Subscribe(channel, id) => KeepsSubscribe(x, channel, id, y);
    case Remove(channel, id) => KeepsRemove(x, channel, id, y);
    case Close(id) => KeepsClose(x, id, y);
    case Send(tid) => KeepsSend(x, tid, y);
    case Begin(tid, channel, message) => KeepsBegin(x, tid, channel, message, y);
    case End(tid, result) => KeepsEnd(x, tid, result, y);
    case Receive(id) => KeepsReceive(x, id, y);
  }

  /**
   * Safety of every interleaving: no send hits a closed channel and none is closed
   * twice (`panicked` stays false); each channel is registered at most once and
   * only while open; each subscriber has received, and has buffered, an in-order
   * selection of what was sent to it, and every attempt is accounted for.
   */
  lemma {:induction false} AlwaysSafe(events: seq<Event>, xs: seq<State>, i: nat)
    requires Behaviour(events, xs) && i < |xs|
    ensures Inv(xs[i])
    decreases i
  {
    if i > 0 {
      hide Next;
      AlwaysSafe(events, xs, i - 1);
      KeepsInv(xs[i - 1], events[i - 1], xs[i]);
    }
  }

  /** A send is never stuck: its subscriber always exists. */
  lemma SendEnabled(x: State, tid: int)
    requires Inv(x) && tid in x.publishing && x.publishing[tid].todo != []
    ensures x.publishing[tid].todo[0] in x.subs
    ensures Next(x, Send(tid), Sent(x, tid)) && !Sent(x, tid).panicked
  {
    hide SubInv;
    SendTarget(x.registry, x.publishing[tid]);
    var id := x.publishing[tid].todo[0];
    assert id in x.subs;
  }

  /** A subscriber with fewer than a hundred messages waiting takes the message, any other drops it. */
  lemma SendOutcome(x: State, tid: int, y: State)
    requires Next(x, Send(tid), y)
    ensures tid in x.publishing && x.publishing[tid].todo != [] && tid in y.publishing
    ensures var p := x.publishing[tid]; var id := p.todo[0];
      && id in x.subs && id in y.subs
      && (|x.subs[id].buffer| < 100 ==>
            y.subs[id].buffer == x.subs[id].buffer + [p.message] && y.publishing[tid].count == p.count + 1)
      && (|x.subs[id].buffer| >= 100 ==>
            y.subs[id].buffer == x.subs[id].buffer && y.publishing[tid].count == p.count)
      && y.subs[id].received == x.subs[id].received
      && forall k :: k in x.subs && k != id ==> y.subs[k] == x.subs[k]
  {
  }

  /** A new subscriber is the last one of its channel; every other list stays as it is. */
  lemma SubscribeOutcome(x: State, channel: Str, id: int, y: State)
    requires Next(x, Subscribe(channel, id), y)
    ensures Subscribers(y.registry, channel) == Subscribers(x.registry, channel) + [id]
    ensures forall c :: c != channel ==> Subscribers(y.registry, c) == Subscribers(x.registry, c)
    ensures id in y.subs && y.subs[id].buffer == y.subs[id].received == [] && !y.subs[id].closed
    ensures forall k :: k in x.subs ==> k != id && k in y.subs && y.subs[k] == x.subs[k]
  {
  }

  /** Removing a subscriber takes just it out of its channel, and marks it to be closed if it was there. */
  lemma RemoveOutcome(x: State, channel: Str, id: int, y: State)
    requires Inv(x) && Next(x, Remove(channel, id), y)
    ensures forall k :: k in Subscribers(y.registry, channel) <==> k in Subscribers(x.registry, channel) && k != id
    ensures forall c :: c != channel ==> Subscribers(y.registry, c) == Subscribers(x.registry, c)
    ensures channel in y.registry <==> Subscribers(y.registry, channel) != []
    ensures y.removing == if id in Subscribers(x.registry, channel) then x.removing + {id} else x.removing
    ensures y.subs == x.subs
  {
    hide SubInv, RemoveFirst;
    RemoveFacts(Subscribers(x.registry, channel), id);
  }

  /** Closing it then closes its channel and keeps what is buffered there. */
  lemma CloseOutcome(x: State, id: int, y: State)
    requires Next(x, Close(id), y)
    ensures id in x.subs && id in y.subs && y.subs[id].closed
    ensures y.subs[id].buffer == x.subs[id].buffer && y.subs[id].received == x.subs[id].received
    ensures y.removing == x.removing - {id} && y.registry == x.registry
    ensures forall k :: k in x.subs && k != id ==> k in y.subs && y.subs[k] == x.subs[k]
  {
  }

  // ---------- Which message went where ----------

  /** How many of these messages come from the given Publish. */
  function From(msgs: seq<Msg>, publish: nat): nat {
    if msgs == [] then 0
    else From(msgs[..|msgs| - 1], publish) + (if msgs[|msgs| - 1].publish == publish then 1 else 0)
  }

  lemma FromSnoc(msgs: seq<Msg>, m: Msg, publish: nat)
    ensures From(msgs + [m], publish) == From(msgs, publish) + (if m.publish == publish then 1 else 0)
  {
    assert (msgs + [m])[..|msgs|] == msgs;
  }

  /** No message comes from a later Publish. */
  ghost predicate Before(msgs: seq<Msg>, begun: nat) {
    forall i :: 0 <= i < |msgs| ==> msgs[i].publish < begun
  }

  lemma {:induction false} FromLater(msgs: seq<Msg>, begun: nat, publish: nat)
    requires Before(msgs, begun) && publish >= begun
    ensures From(msgs, publish) == 0
  {
    if msgs != [] {
      FromLater(msgs[..|msgs| - 1], begun, publish);
    }
  }

  /** What a subscriber has received or has waiting in its buffer, in order. */
  function Taken(sub: Sub<Msg>): seq<Msg> {
    sub.received + sub.buffer
  }

  /** Subscriber `id` was tried by `p` exactly if it is done, and has its message exactly if it accepted. */
  ghost predicate Tally(sub: Sub<Msg>, p: Publisher, id: int) {
    && From(sub.attempts, p.message.publish) == (if id in p.done then 1 else 0)
    && From(Taken(sub), p.message.publish) == (if id in p.accepted then 1 else 0)
  }

  /** Publishes in progress have numbers of their own, and no message has a number not yet given out. */
  ghost predicate Stamped(x: State) {
    && (forall id :: id in x.subs ==> Before(x.subs[id].attempts, x.begun) && Before(Taken(x.subs[id]), x.begun))
    && (forall t :: t in x.publishing ==> x.publishing[t].message.publish < x.begun)
    && (forall t, u :: t in x.publishing && u in x.publishing && t != u ==>
          x.publishing[t].message.publish != x.publishing[u].message.publish)
  }

  ghost predicate Tagged(x: State) {
    && Stamped(x)
    && (forall t, id :: t in x.publishing && id in x.subs ==> Tally(x.subs[id], x.publishing[t], id))
  }

  lemma TallyFresh(sub: Sub<Msg>, begun: nat, p: Publisher, id: int)
    requires Before(sub.attempts, begun) && Before(Taken(sub), begun)
    requires p.message.publish == begun && p.done == [] && p.accepted == []
    ensures Tally(sub, p, id)
  {
    FromLater(sub.attempts, begun, begun);
    FromLater(Taken(sub), begun, begun);
  }

  lemma OfferTaken(sub: Sub<Msg>, m: Msg)
    ensures Offer(sub, m).attempts == sub.attempts + [m]
    ensures Taken(Offer(sub, m)) == if |sub.buffer| < BUFFER_SIZE then Taken(sub) + [m] else Taken(sub)
  {
    assert sub.received + (sub.buffer + [m]) == sub.received + sub.buffer + [m];
  }

  /** The subscriber that is tried, for the Publish that tries it. */
  lemma TallyTried(sub: Sub<Msg>, p: Publisher)
    requires p.todo != [] && p.todo[0] !in p.done && p.todo[0] !in p.accepted && Tally(sub, p, p.todo[0])
    ensures Tally(Offer(sub, p.message), Tried(p, |sub.buffer| < BUFFER_SIZE), p.todo[0])
  {
    OfferTaken(sub, p.message);
    FromSnoc(sub.attempts, p.message, p.message.publish);
    FromSnoc(Taken(sub), p.message, p.message.publish);
    hide From, Taken, Offer;
  }

  /** The same subscriber, for another Publish. */
  lemma TallyOther(sub: Sub<Msg>, m: Msg, p: Publisher, id: int)
    requires Tally(sub, p, id) && m.publish != p.message.publish
    ensures Tally(Offer(sub, m), p, id)
  {
    OfferTaken(sub, m);
    FromSnoc(sub.attempts, m, p.message.publish);
    FromSnoc(Taken(sub), m, p.message.publish);
  }

  /** Another subscriber, for the Publish that makes progress. */
  lemma TallyElsewhere(sub: Sub<Msg>, p: Publisher, ok: bool, id: int)
    requires p.todo != [] && id != p.todo[0] && Tally(sub, p, id)
    ensures Tally(sub, Tried(p, ok), id)
  {
  }

  lemma StampedSend(x: State, tid: int, y: State)
    requires Stamped(x) && Next(x, Send(tid), y)
    ensures Stamped(y)
  {
    var p := x.publishing[tid];
    OfferTaken(x.subs[p.todo[0]], p.message);
    hide Taken, Offer;
  }

  lemma StampsDiffer(x: State, t: int, u: int)
    requires Stamped(x) && t in x.publishing && u in x.publishing && t != u
    ensures x.publishing[t].message.publish != x.publishing[u].message.publish
  {
  }

  lemma TaggedSend(x: State, tid: int, y: State)
    requires Inv(x) && Tagged(x) && Next(x, Send(tid), y)
    ensures Tagged(y)
  {
    var p := x.publishing[tid];
    var to, ok := p.todo[0], |x.subs[p.todo[0]].buffer| < BUFFER_SIZE;
    hide SubInv, RegistryInv;
    TriedPublisher(x.registry, p, ok);
    assert to !in p.accepted;
    hide Inv, Tally, Stamped, PublisherInv, Tried, Offer;
    StampedSend(x, tid, y);
    forall t, id | t in y.publishing && id in y.subs ensures Tally(y.subs[id], y.publishing[t], id) {
      assert Tally(x.subs[id], x.publishing[t], id);
      if t == tid && id == to {
        TallyTried(x.subs[to], p);
      } else if t == tid {
        TallyElsewhere(x.subs[id], p, ok, id);
      } else if id == to {
        StampsDiffer(x, t, tid);
        TallyOther(x.subs[to], p.message, x.publishing[t], id);
      }
    }
  }

  lemma TaggedBegin(x: State, tid: int, channel: Str, message: Str, y: State)
    requires Tagged(x) && Next(x, Begin(tid, channel, message), y)
    ensures Tagged(y)
  {
    hide Tally;
    forall id | id in y.subs ensures Tally(y.subs[id], y.publishing[tid], id) {
      TallyFresh(x.subs[id], x.begun, y.publishing[tid], id);
    }
  }

  /** A subscriber takes a message out of its buffer. */
  lemma ReceiveTaken(sub: Sub<Msg>)
    requires sub.buffer != []
    ensures Taken(sub.(buffer := sub.buffer[1..], received := sub.received + [sub.buffer[0]])) == Taken(sub)
  {
    assert sub.received + [sub.buffer[0]] + sub.buffer[1..] == sub.received + sub.buffer;
  }

  lemma TaggedReceive(x: State, id: int, y: State)
    requires Tagged(x) && Next(x, Receive(id), y)
    ensures Tagged(y)
  {
    ReceiveTaken(x.subs[id]);
    hide Taken, From, Before;
  }

  lemma TaggedRest(x: State, ev: Event, y: State)
    requires Tagged(x) && Next(x, ev, y) && !ev.Send? && !ev.Begin? && !ev.Receive?
    ensures Tagged(y)
  {
    hide From, Unregistered;
  }

  /** In every interleaving the tallies are right. */
  lemma {:induction false} AlwaysTagged(events: seq<Event>, xs: seq<State>, i: nat)
    requires Behaviour(events, xs) && i < |xs|
    ensures Tagged(xs[i])
    decreases i
  {
    if i > 0 {
      var x, ev, y := xs[i - 1], events[i - 1], xs[i];
      hide Next, Inv, Tagged;
      assert Next(x, ev, y);
      AlwaysTagged(events, xs, i - 1);
      AlwaysSafe(events, xs, i - 1);
      hide Behaviour;
      match ev
      case Receive(id) => TaggedReceive(x, id, y);
      case Send(tid) => TaggedSend(x, tid, y);
      case Begin(tid, channel, message) => TaggedBegin(x, tid, channel, message, y);
      case _ => TaggedRest(x, ev, y);
    }
  }

  /** The subscribers that have received or buffered a message of this Publish. */
  ghost function Holders(x: State, publish: nat): set<int> {
    set id | id in x.subs && From(Taken(x.subs[id]), publish) > 0
  }

  /**
   * What a Publish has done when it returns, whatever ran in between: it has tried
   * each subscriber registered with its channel exactly once and no other one, none
   * has its message more than once, and the result is the number of those that do.
   */
  lemma PublishCounts(events: seq<Event>, xs: seq<State>, i: nat, tid: int, result: nat)
    requires Behaviour(events, xs) && i < |events| && events[i] == End(tid, result)
    ensures tid in xs[i].publishing
    ensures var x := xs[i]; var p := x.publishing[tid]; var ids := Subscribers(x.registry, p.channel);
      && (forall id :: id in x.subs ==>
            && From(x.subs[id].attempts, p.message.publish) == (if id in ids then 1 else 0)
            && From(Taken(x.subs[id]), p.message.publish) <= 1)
      && (forall id :: id in Holders(x, p.message.publish) ==> id in ids)
      && result == |Holders(x, p.message.publish)|
  {
    AlwaysSafe(events, xs, i);
    AlwaysTagged(events, xs, i);
    assert Next(xs[i], events[i], xs[i + 1]);
    Finished(xs[i], tid);
  }

  lemma Finished(x: State, tid: int)
    requires Inv(x) && Tagged(x) && tid in x.publishing && x.publishing[tid].todo == []
    ensures var p := x.publishing[tid]; var ids := Subscribers(x.registry, p.channel);
      && (forall id :: id in x.subs ==>
            && From(x.subs[id].attempts, p.message.publish) == (if id in ids then 1 else 0)
            && From(Taken(x.subs[id]), p.message.publish) <= 1)
      && (forall id :: id in Holders(x, p.message.publish) ==> id in ids)
      && p.count == |Holders(x, p.message.publish)|
  {
    hide SubInv, From, Stamped;
    var p := x.publishing[tid];
    assert p.done + p.todo == p.done;
    forall id | id in x.subs ensures Tally(x.subs[id], p, id) {
    }
    forall id | id in p.accepted ensures id in x.subs {
      assert p.channel in x.registry && id in x.registry[p.channel];
    }
    DistinctCount(p.accepted);
    assert Holders(x, p.message.publish) == set id | id in p.accepted;
  }

  // ---------- The code of the critical sections ----------

  ghost predicate Known<M>(subs: map<int, Sub<M>>, ids: seq<int>) {
    forall i :: 0 <= i < |ids| ==> ids[i] in subs
  }

  /** Sending to each subscriber in turn, without interruption. */
  ghost function OfferAll<M>(subs: map<int, Sub<M>>, ids: seq<int>, message: M): (r: map<int, Sub<M>>)
    requires Known(subs, ids)
    ensures r.Keys == subs.Keys
    decreases |ids|
  {
    if ids == [] then subs
    else
      var n := |ids| - 1;
      var before := OfferAll(subs, ids[..n], message);
      before[ids[n] := Offer(before[ids[n]], message)]
  }

  /** Distinct subscribers do not affect each other. */
  lemma {:induction false} OfferAllAt<M>(subs: map<int, Sub<M>>, ids: seq<int>, message: M, id: int)
    requires Known(subs, ids) && NoDuplicates(ids) && id in subs
    ensures OfferAll(subs, ids, message)[id] == if id in ids then Offer(subs[id], message) else subs[id]
    decreases |ids|
  {
    if ids != [] {
      var n := |ids| - 1;
      assert ids == ids[..n] + [ids[n]];
      OfferAllAt(subs, ids[..n], message, id);
      if ids[n] == id {
        assert id !in ids[..n];
      }
    }
  }

  /** One offer, by the number of messages waiting. */
  lemma OfferByRoom<M>(sub: Sub<M>, message: M)
    ensures |sub.buffer| < 100 ==> Offer(sub, message).buffer == sub.buffer + [message]
    ensures |sub.buffer| >= 100 ==> Offer(sub, message).buffer == sub.buffer
    ensures Offer(sub, message).received == sub.received && Offer(sub, message).closed == sub.closed
  {
  }

  /** The number of these subscribers with room in their buffer. */
  ghost function Room<M>(subs: map<int, Sub<M>>, ids: seq<int>): nat
    requires Known(subs, ids)
    decreases |ids|
  {
    if ids == [] then 0
    else
      var n := |ids| - 1;
      Room(subs, ids[..n]) + (if |subs[ids[n]].buffer| < BUFFER_SIZE then 1 else 0)
  }

  /** That number is the size of the set of subscribers with fewer than a hundred messages waiting. */
  lemma {:induction false} RoomCounts<M>(subs: map<int, Sub<M>>, ids: seq<int>)
    requires Known(subs, ids) && NoDuplicates(ids)
    ensures Room(subs, ids) == |WithRoom(subs, ids)|
    decreases |ids|
  {
    if ids != [] {
      var n := |ids| - 1;
      RoomCounts(subs, ids[..n]);
      assert ids == ids[..n] + [ids[n]] && ids[n] !in ids[..n];
      WithRoomSnoc(subs, ids[..n], ids[n]);
    }
  }

  ghost function WithRoom<M>(subs: map<int, Sub<M>>, ids: seq<int>): set<int>
    requires Known(subs, ids)
  {
    set id | id in ids && |subs[id].buffer| < 100
  }

  lemma WithRoomSnoc<M>(subs: map<int, Sub<M>>, ids: seq<int>, id: int)
    requires Known(subs, ids) && id in subs && id !in ids && Known(subs, ids + [id])
    ensures |WithRoom(subs, ids + [id])| == |WithRoom(subs, ids)| + if |subs[id].buffer| < 100 then 1 else 0
  {
    assert WithRoom(subs, ids + [id])
      == if |subs[id].buffer| < 100 then WithRoom(subs, ids) + {id} else WithRoom(subs, ids);
  }

  /** The first `k` sends of one Publish as steps with nothing in between. */
  ghost predicate Sends(x: State, tid: int, k: nat, y: State)
    decreases k
  {
    if k == 0 then y == x else exists m :: Sends(x, tid, k - 1, m) && Next(m, Send(tid), y)
  }

  lemma KnownPrefix<M>(subs: map<int, Sub<M>>, ids: seq<int>, k: nat)
    requires Known(subs, ids) && k <= |ids|
    ensures Known(subs, ids[..k])
  {
  }

  lemma OneSend(m: State, tid: int, y: State)
    requires Next(m, Send(tid), y)
    ensures tid in m.publishing && m.publishing[tid].todo != [] && tid in y.publishing
    ensures var p := m.publishing[tid]; var q := y.publishing[tid]; var id := p.todo[0];
      && id in m.subs && y.subs == m.subs[id := Offer(m.subs[id], p.message)]
      && q.todo == p.todo[1..] && q.message == p.message
      && q.count == p.count + (if |m.subs[id].buffer| < BUFFER_SIZE then 1 else 0)
  {
  }

  lemma OfferOneMore<M>(subs: map<int, Sub<M>>, ids: seq<int>, message: M, k: nat)
    requires Known(subs, ids) && NoDuplicates(ids) && 0 < k <= |ids|
    ensures var id := ids[k - 1]; var before := OfferAll(subs, ids[..k - 1], message);
      && id in before && before[id] == subs[id]
      && OfferAll(subs, ids[..k], message) == before[id := Offer(subs[id], message)]
      && Room(subs, ids[..k]) == Room(subs, ids[..k - 1]) + (if |subs[id].buffer| < BUFFER_SIZE then 1 else 0)
  {
    var id := ids[k - 1];
    assert ids[..k][..k - 1] == ids[..k - 1] && ids[..k][k - 1] == id && id !in ids[..k - 1];
    OfferAllAt(subs, ids[..k - 1], message, id);
  }

  /** Uninterrupted, the steps of a Publish do what its loop does. */
  lemma {:induction false} SendsAreOffers(x: State, tid: int, k: nat, y: State)
    requires tid in x.publishing && k <= |x.publishing[tid].todo| && Sends(x, tid, k, y)
    requires Known(x.subs, x.publishing[tid].todo) && NoDuplicates(x.publishing[tid].todo)
    ensures var p := x.publishing[tid];
      && y.subs == OfferAll(x.subs, p.todo[..k], p.message)
      && tid in y.publishing && y.publishing[tid].todo == p.todo[k..] && y.publishing[tid].message == p.message
      && y.publishing[tid].count == p.count + Room(x.subs, p.todo[..k])
    decreases k
  {
    KnownPrefix(x.subs, x.publishing[tid].todo, k);
    if k > 0 {
      var p := x.publishing[tid];
      KnownPrefix(x.subs, p.todo, k - 1);
      var m :| Sends(x, tid, k - 1, m) && Next(m, Send(tid), y);
      hide Next, Offer, OfferAll, Room, NoDuplicates, Known;
      SendsAreOffers(x, tid, k - 1, m);
      OneSend(m, tid, y);
      OfferOneMore(x.subs, p.todo, p.message, k);
      assert p.todo[k - 1..][0] == p.todo[k - 1] && p.todo[k - 1..][1..] == p.todo[k..];
    }
  }

  class Hub {
    var channels: map<Str, seq<int>>
    var subs: map<int, Sub<Str>>

    ghost predicate Valid()
      reads this
    {
      && (forall c :: c in channels ==> channels[c] != [] && NoDuplicates(channels[c]))
      && (forall c :: c in channels ==> Known(subs, channels[c]))
    }

    constructor ()
      ensures Valid() && channels == map[] && subs == map[]
    {
      channels, subs := map[], map[];
    }

    /** Subscribe: `id` stands for the channel it makes */
    method AddSubscriber(channel: Str, id: int)
      requires Valid() && id !in subs
      modifies this
      ensures Valid()
      ensures channels == old(channels)[channel := Subscribers(old(channels), channel) + [id]]
      ensures subs == old(subs)[id := NewSub()]
    {
      var list := if channel in channels then channels[channel] else [];
      assert Known(subs, list) && id !in list;
      subs := subs[id := NewSub()];
      channels := channels[channel := list + [id]];
    }

    /** Unsubscribe under the lock: the subscriber to close, if it was found */
    method Unregister(channel: Str, id: int) returns (found: bool)
      requires Valid()
      modifies this`channels
      ensures Valid()
      ensures channels == Unregistered(old(channels), channel, id)
      ensures found == (id in Subscribers(old(channels), channel))
    {
      if channel !in channels {
        return false;
      }
      var list := channels[channel];
      RemoveFacts(list, id);
      found := false;
      for i := 0 to |list|
        invariant !found && channels == old(channels)
        invariant id !in list[..i]
      {
        if list[i] == id {
          found := true;
          RemoveAt(list, i, id);
          channels := channels[channel := list[..i] + list[i + 1..]];
          break;
        }
      }
      if !found {
        RemoveAbsent(list, id);
        assert channels[channel := list] == channels;
      }
      if |channels[channel]| == 0 {
        assert old(channels)[channel := []] - {channel} == old(channels) - {channel};
        channels := channels - {channel};
      }
    }

    /** Publish run to its end without interruption */
    method Publish(channel: Str, message: Str) returns (count: nat)
      requires Valid()
      modifies this`subs
      ensures Valid()
      ensures var ids := Subscribers(channels, channel);
        subs == OfferAll(old(subs), ids, message) && count == Room(old(subs), ids)
    {
      count := 0;
      if channel !in channels {
        return;
      }
      var list := channels[channel];
      ghost var start := subs;
      for i := 0 to |list|
        invariant Known(start, list)
        invariant subs == OfferAll(start, list[..i], message) && subs.Keys == start.Keys
        invariant count == Room(start, list[..i])
      {
        var id := list[i];
        assert list[..i + 1][..i] == list[..i] && id !in list[..i];
        OfferAllAt(start, list[..i], message, id);
        if |subs[id].buffer| < BUFFER_SIZE {
          count := count + 1;
        }
        subs := subs[id := Offer(subs[id], message)];
      }
      assert list[..|list|] == list;
    }
  }
}
