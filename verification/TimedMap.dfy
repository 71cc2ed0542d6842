/** The store as a map whose entries have deadlines: what Get can answer after any run. */
module TimedMap {
  import opened Bytes
  import opened StoreModel
  import opened StoreFacts
  import opened StoreInvariant

  datatype Cell = Cell(value: Str, kind: DataType, expiresAt: int)

  function CellOf(item: Item): Cell {
    Cell(item.value, item.kind, item.expiresAt)
  }

  function EntryCell(e: SnapshotEntry): Cell {
    Cell(e.value, e.kind, e.expiresAt)
  }

  /** A deadline there is, and it is over at `t`. */
  predicate Passed(deadline: int, t: int) {
    0 < deadline < t
  }

  /** The entries a restore at `now` lets in. */
  function FromEntries(entries: seq<SnapshotEntry>, now: int): map<Str, Cell> {
    if entries == [] then map[]
    else
      var before, e := FromEntries(entries[..|entries| - 1], now), entries[|entries| - 1];
      if Passed(e.expiresAt, now) then before else before[e.key := EntryCell(e)]
  }

  /** The latest Set or restore of each key that no Delete has undone. Eviction and expiry play no part. */
  function Latest(ops: seq<Op>): map<Str, Cell> {
    if ops == [] then map[]
    else Update(Latest(ops[..|ops| - 1]), ops[|ops| - 1])
  }

  function Update(m: map<Str, Cell>, op: Op): map<Str, Cell> {
    match op
    case Set(key, value, ttl, _, later) => m[key := Cell(value, TypeString, if ttl > 0 then later + ttl else 0)]
    case Delete(key) => m - {key}
    case Restore(entries, now) => FromEntries(entries, now)
    case Get(_, _) => m
    case ActiveExpire(_) => m
  }

  /** What Get would answer from such a map. */
  function MapAnswer(m: map<Str, Cell>, key: Str, now: int): Lookup {
    if key !in m || Passed(m[key].expiresAt, now) then NotFound
    else if m[key].kind != TypeString then WrongType
    else Found(m[key].value)
  }

  /** Everything stored is in the map, with the same contents. */
  ghost predicate Within(s: State, m: map<Str, Cell>) {
    forall k :: k in s.data ==> k in m && CellOf(s.data[k]) == m[k]
  }

  /** Everything in the map that is not overdue at `t` is stored. */
  ghost predicate Covers(s: State, m: map<Str, Cell>, t: int) {
    forall k :: k in m && !Passed(m[k].expiresAt, t) ==> k in s.data
  }

  lemma {:induction false} LoadedCells(s: State, entries: seq<SnapshotEntry>, now: nat)
    ensures Loaded(s, entries, now).data.Keys == FromEntries(entries, now).Keys
    ensures Within(Loaded(s, entries, now), FromEntries(entries, now))
    decreases |entries|
  {
    if entries != [] {
      LoadedCells(s, entries[..|entries| - 1], now);
    }
  }

  lemma WithinStep(c: Config, s: State, op: Op, s': State, m: map<Str, Cell>)
    requires Step(c, s, op, s') && Within(s, m)
    ensures Within(s', Update(m, op))
  {
    match op
    case Set(_, _, _, _, _) => WithinSet(c, s, op, s', m);
    case Restore(entries, now) => LoadedCells(s, entries, now);
    case ActiveExpire(now) =>
      hide Without, Used;
      var gone, n :| SweptBy(s, now, gone, n, s');
    case Delete(key) => hide Without;
    case Get(key, now) => hide Without;
  }

  lemma WithinSet(c: Config, s: State, op: Op, s': State, m: map<Str, Cell>)
    requires op.Set? && Step(c, s, op, s') && Within(s, m)
    ensures Within(s', Update(m, op))
  {
    hide Evicted, Without;
    var w := AfterWrite(s, op);
    assert Within(w, Update(m, op));
    hide Within, Update, Written;
    WithinEvicted(c, w, s', Update(m, op));
  }

  lemma WithinEvicted(c: Config, w: State, s': State, m: map<Str, Cell>)
    requires Evicted(c, w, s') && Within(w, m)
    ensures Within(s', m)
  {
    hide EvictionPath, EvictionEnd;
    var victims :| EvictedBy(c, w, victims, s');
    EvictedParts(c, w, victims, s');
  }

  lemma NothingStored(c: Config, states: seq<State>)
    requires Run(c, [], states)
    ensures |states| == 1 && states[0] == EMPTY
    ensures Within(states[0], map[])
  {
  }

  /** In every run, what is stored is the latest write of its key. */
  lemma {:induction false} StoredIsLatest(c: Config, ops: seq<Op>, states: seq<State>)
    requires Run(c, ops, states)
    ensures Within(states[|ops|], Latest(ops))
    decreases |ops|
  {
    hide Run, Step, Within;
    if ops == [] {
      NothingStored(c, states);
    } else {
      var n := |ops| - 1;
      RunFront(c, ops, states);
      StoredIsLatest(c, ops[..n], states[..n + 1]);
      WithinStep(c, states[n], ops[n], states[n + 1], Latest(ops[..n]));
    }
  }

  /** A hit, in any run, is the latest write of that key and its deadline has not passed. */
  lemma HitIsLatest(c: Config, ops: seq<Op>, states: seq<State>, key: Str, now: int)
    requires Run(c, ops, states) && Answer(states[|ops|], key, now).Found?
    ensures MapAnswer(Latest(ops), key, now) == Answer(states[|ops|], key, now)
  {
    StoredIsLatest(c, ops, states);
  }

  // ---------- What a Get answers in every run ----------

  /** The clock reading an expiry decision of the operation uses. */
  function Reading(op: Op): int {
    match op
    case Get(_, now) => now
    case ActiveExpire(now) => now
    case Restore(_, now) => now
    case _ => 0
  }

  /** The keys evicted and not written or deleted since. */
  ghost function Lost(ops: seq<Op>, states: seq<State>): set<Str>
    requires |states| == |ops| + 1
  {
    if ops == [] then {}
    else
      var n := |ops| - 1;
      StillLost(Lost(ops[..n], states[..n + 1]), states[n], ops[n], states[n + 1])
  }

  function StillLost(lost: set<Str>, s: State, op: Op, s': State): set<Str> {
    match op
    case Set(key, _, _, _, _) => lost - {key} + (AfterWrite(s, op).data.Keys - s'.data.Keys)
    case Delete(key) => lost - {key}
    case Restore(_, _) => {}
    case Get(_, _) => lost
    case ActiveExpire(_) => lost
  }

  lemma CoversStep(c: Config, s: State, op: Op, s': State, m: map<Str, Cell>, lost: set<Str>, t: int)
    requires Step(c, s, op, s') && Within(s, m) && Covers(s, m - lost, t) && Reading(op) <= t
    ensures Covers(s', Update(m, op) - StillLost(lost, s, op, s'), t)
  {
    match op
    case Set(key, value, ttl, now, later) => hide Evicted, Without;
    case Restore(entries, now) => LoadedCells(s, entries, now);
    case ActiveExpire(now) =>
      hide Without, Used;
      var gone, n :| SweptBy(s, now, gone, n, s');
    case Get(key, now) => hide Without;
    case Delete(key) => hide Without;
  }

  /** An operation other than a Set or a restore brings no key back. */
  lemma GoneStep(c: Config, s: State, op: Op, s': State, lost: set<Str>)
    requires Step(c, s, op, s') && lost !! s.data.Keys
    ensures StillLost(lost, s, op, s') !! s'.data.Keys
  {
    match op
    case Set(key, value, ttl, now, later) =>
      hide EvictionPath, EvictionEnd, Without;
      var victims :| EvictedBy(c, AfterWrite(s, op), victims, s');
      EvictedParts(c, AfterWrite(s, op), victims, s');
    case ActiveExpire(now) =>
      hide Without, Used;
      var gone, n :| SweptBy(s, now, gone, n, s');
    case _ => hide Without;
  }

  lemma {:induction false} UnexpiredIsStored(c: Config, ops: seq<Op>, states: seq<State>, t: int)
    requires Run(c, ops, states)
    requires forall op :: op in ops ==> Reading(op) <= t
    ensures |states| == |ops| + 1 && Lost(ops, states) !! states[|ops|].data.Keys
    ensures Covers(states[|ops|], Latest(ops) - Lost(ops, states), t)
    decreases |ops|
  {
    hide Run, Step, Within, Covers, StillLost;
    if ops == [] {
      NothingStored(c, states);
      NothingToCover(states[0], t);
    } else {
      var n := |ops| - 1;
      RunFront(c, ops, states);
      var m, lost := Latest(ops[..n]), Lost(ops[..n], states[..n + 1]);
      UnexpiredIsStored(c, ops[..n], states[..n + 1], t);
      StoredIsLatest(c, ops[..n], states[..n + 1]);
      CoversStep(c, states[n], ops[n], states[n + 1], m, lost, t);
      GoneStep(c, states[n], ops[n], states[n + 1], lost);
    }
  }

  lemma NothingToCover(s: State, t: int)
    ensures Covers(s, map[] - {}, t)
  {
  }

  /**
   * Refinement of the timed map, in every run and under every policy: at any time not
   * before the readings so far, a Get misses a key that was evicted and not written
   * since, and answers as the map does for every other key.
   */
  lemma RefinesTimedMap(c: Config, ops: seq<Op>, states: seq<State>, key: Str, now: int)
    requires Run(c, ops, states)
    requires forall op :: op in ops ==> Reading(op) <= now
    ensures Answer(states[|ops|], key, now)
      == if key in Lost(ops, states) then NotFound else MapAnswer(Latest(ops), key, now)
  {
    StoredIsLatest(c, ops, states);
    UnexpiredIsStored(c, ops, states, now);
    hide Run, Lost, Latest;
    assert key !in Lost(ops, states) && key in Latest(ops) ==> key in Latest(ops) - Lost(ops, states);
  }

  // ---------- Runs that evict nothing ----------

  /** No Set of the run removed a key. */
  ghost predicate NothingEvicted(ops: seq<Op>, states: seq<State>)
    requires |states| == |ops| + 1
  {
    forall i :: 0 <= i < |ops| && ops[i].Set? ==> states[i + 1].data == AfterWrite(states[i], ops[i]).data
  }

  lemma {:induction false} NothingLost(ops: seq<Op>, states: seq<State>)
    requires |states| == |ops| + 1 && NothingEvicted(ops, states)
    ensures Lost(ops, states) == {}
    decreases |ops|
  {
    if ops != [] {
      hide Written;
      NothingLost(ops[..|ops| - 1], states[..|ops|]);
    }
  }

  /** No Set of the run found the store over its limit. */
  ghost predicate NeverOver(c: Config, ops: seq<Op>, states: seq<State>)
    requires |states| == |ops| + 1
  {
    forall i :: 0 <= i < |ops| && ops[i].Set? ==> !Over(c, AfterWrite(states[i], ops[i]))
  }

  /** Below the limit a Set evicts nothing. */
  lemma NoEvictionBelowLimit(c: Config, w: State, s': State)
    requires Evicted(c, w, s') && (c.maxMemory <= 0 || Used(w.data) <= c.maxMemory)
    ensures s' == w
  {
    hide EvictionPath;
    var victims :| EvictedBy(c, w, victims, s');
    PathEmpty(c, w);
    if victims != [] {
      FirstVictim(c, w, victims);
    }
  }

  lemma FittingEvictsNothing(c: Config, ops: seq<Op>, states: seq<State>)
    requires Run(c, ops, states) && NeverOver(c, ops, states)
    ensures NothingEvicted(ops, states)
  {
    hide Evicted, Written;
    forall i | 0 <= i < |ops| && ops[i].Set? ensures states[i + 1].data == AfterWrite(states[i], ops[i]).data {
      assert Step(c, states[i], ops[i], states[i + 1]);
      NoEvictionBelowLimit(c, AfterWrite(states[i], ops[i]), states[i + 1]);
    }
  }

  // ---------- One key, from its Set on ----------

  /**
   * What a Set that leaves its key stored is worth: with a TTL the value is found up to
   * that many nanoseconds after the clock reading and never later, without one always.
   */
  lemma SetThenGet(c: Config, s: State, op: Op, s': State, t: int)
    requires op.Set? && Step(c, s, op, s') && op.key in s'.data
    ensures op.ttl > 0 && t <= op.later + op.ttl ==> Answer(s', op.key, t) == Found(op.value)
    ensures op.ttl > 0 && t > op.later + op.ttl ==> Answer(s', op.key, t) == NotFound
    ensures op.ttl <= 0 ==> Answer(s', op.key, t) == Found(op.value)
  {
    var w := Written(s, op.key, op.value, op.ttl, op.now, op.later);
    hide EvictionPath, EvictionEnd, Without;
    var victims :| EvictedBy(c, w, victims, s');
    EvictedParts(c, w, victims, s');
  }

  /** A Get of a key that is over removes just that key and counts it; any other keeps every key and its contents. */
  lemma GetKeepsOrExpires(s: State, key: Str, now: int)
    ensures var s' := Looked(s, key, now);
      if key in s.data && 0 < s.data[key].expiresAt < now
      then s'.data == s.data - {key} && s'.expired == s.expired + 1
      else s'.data.Keys == s.data.Keys && s'.expired == s.expired
           && forall k :: k in s.data ==>
                s'.data[k].value == s.data[k].value && s'.data[k].expiresAt == s.data[k].expiresAt
                && s'.data[k].kind == s.data[k].kind
  {
    hide Without;
  }

  /** A tick touches only keys that are over; with at most twenty keys it removes all of these. */
  lemma TickExact(s: State, now: int, s': State)
    requires Swept(s, now, s')
    ensures forall k :: k in s.data && !(0 < s.data[k].expiresAt < now) ==> k in s'.data
    ensures forall k :: k in s'.data ==> k in s.data && s'.data[k] == s.data[k]
    ensures |s.data| <= 20 ==> forall k :: k in s'.data ==> !(0 < s'.data[k].expiresAt < now)
  {
    hide Without;
    var gone, n :| SweptBy(s, now, gone, n, s');
  }

  /** It counts at most twenty removals, all of them up to ten, and beyond ten it has removed every key that is over. */
  lemma TickCounts(s: State, now: int, s': State)
    requires Swept(s, now, s')
    ensures s.expired <= s'.expired <= s.expired + 20
    ensures s'.expired > s.expired + 10 ==> forall k :: k in s'.data ==> !(0 < s'.data[k].expiresAt < now)
    ensures s'.expired <= s.expired + 10 ==> |s'.data| == |s.data| - (s'.expired - s.expired)
  {
    hide Without;
    var gone, n :| SweptBy(s, now, gone, n, s');
    assert s.data.Keys == s'.data.Keys + gone;
    assert |s.data.Keys| == |s'.data.Keys| + |gone|;
  }

  // ---------- Expiry is invisible ----------

  /** An expiry step at `t`, active or lazy, changes no answer from `t` on. */
  lemma ExpiryInvisible(c: Config, s: State, op: Op, s': State, key: Str, t: int)
    requires Step(c, s, op, s') && Reading(op) <= t
    requires op.ActiveExpire? || op.Get?
    ensures Answer(s', key, t) == Answer(s, key, t)
  {
    if op.ActiveExpire? {
      var gone, n :| SweptBy(s, op.now, gone, n, s');
    }
  }

  // ---------- Snapshot and restore ----------

  /** The part of the data that is not overdue. */
  function Visible(s: State, now: int): map<Str, Cell> {
    map k | k in s.data && !Passed(s.data[k].expiresAt, now) :: CellOf(s.data[k])
  }

  lemma {:induction false} FromEntriesAt(entries: seq<SnapshotEntry>, now: int, e: SnapshotEntry)
    requires DistinctKeys(entries) && e in entries
    ensures e.key in FromEntries(entries, now) <==> !Passed(e.expiresAt, now)
    ensures e.key in FromEntries(entries, now) ==> FromEntries(entries, now)[e.key] == EntryCell(e)
  {
    var n := |entries| - 1;
    if e in entries[..n] {
      FromEntriesAt(entries[..n], now, e);
    } else {
      assert e == entries[n];
      if e.key in FromEntries(entries[..n], now) {
        FromEntriesKeys(entries[..n], now, e.key);
        assert false;
      }
    }
  }

  lemma {:induction false} FromEntriesKeys(entries: seq<SnapshotEntry>, now: int, k: Str)
    requires k in FromEntries(entries, now)
    ensures exists e :: e in entries && e.key == k
  {
    var n := |entries| - 1;
    if k in FromEntries(entries[..n], now) {
      FromEntriesKeys(entries[..n], now, k);
    } else {
      assert entries[n] in entries;
    }
  }

  /**
   * Snapshot round trip: a snapshot taken from `source` and restored later into
   * any store, whatever it held before, shows exactly what `source` would still
   * show at that time; every restored item has an id no earlier heap entry has.
   */
  lemma SnapshotRoundTrip(source: State, taken: nat, entries: seq<SnapshotEntry>, target: State, now: nat)
    requires IsSnapshot(source, taken, entries) && taken <= now && Inv(target)
    ensures var s' := Loaded(target, entries, now);
      && Inv(s')
      && Visible(s', now) == Visible(source, now)
      && s'.data.Keys == Visible(source, now).Keys
      && forall k :: k in s'.data ==> s'.data[k].accessId > target.counter
  {
    DistinctAreLive(source, taken, entries, now);
    hide Inv, FromEntries, Loaded, IsSnapshot, Visible, DistinctLive, Within;
    InvLoaded(target, entries, now);
    LoadedFresh(target, entries, now);
    LoadedCells(target, entries, now);
    SnapshotCellsAt(source, taken, entries, now);
    VisibleIs(Loaded(target, entries, now), source, now);
  }

  lemma DistinctAreLive(source: State, taken: nat, entries: seq<SnapshotEntry>, now: nat)
    requires IsSnapshot(source, taken, entries)
    ensures DistinctLive(entries, now)
  {
  }

  /** A store that holds just what another shows, shows the same. */
  lemma VisibleIs(s: State, source: State, now: int)
    requires s.data.Keys == Visible(source, now).Keys && Within(s, Visible(source, now))
    ensures Visible(s, now) == Visible(source, now)
  {
    forall k | k in s.data ensures !Passed(s.data[k].expiresAt, now) {
      assert k in Visible(source, now);
    }
  }

  /** The entries that are let in are the source's unexpired items. */
  lemma SnapshotCellsAt(source: State, taken: nat, entries: seq<SnapshotEntry>, now: nat)
    requires IsSnapshot(source, taken, entries) && taken <= now
    ensures FromEntries(entries, now) == Visible(source, now)
  {
    var m := FromEntries(entries, now);
    forall k ensures k in m <==> k in Visible(source, now)
      ensures k in m ==> m[k] == Visible(source, now)[k]
    {
      if k in m {
        FromEntriesKeys(entries, now, k);
        var e :| e in entries && e.key == k;
        FromEntriesAt(entries, now, e);
      } else if k in Visible(source, now) {
        FromEntriesAt(entries, now, EntryOf(k, source.data[k]));
      }
    }
  }
}
