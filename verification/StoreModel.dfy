/**
 * What the store means (pkg/store/store.go), without its ring, its heaps and
 * its byte counter: a state, the operations on it as steps, and the eviction
 * policies as a plain choice of the next victim.
 *
 * The clock readings are parameters of the operations. The order in which Go
 * walks a map is arbitrary, so steps that walk one are relations.
 */
module StoreModel {
  import opened Bytes
  import opened Lists

  datatype DataType = TypeString | TypeList | TypeMap | TypeSet

  datatype Item = Item(
    value: Str,
    kind: DataType,
    expiresAt: int,   // 0 means no expiration
    size: int,
    freq: int,
    lastAccess: int,
    accessId: int)

  datatype SnapshotEntry = SnapshotEntry(key: Str, value: Str, kind: DataType, expiresAt: int)

  datatype Policy = NoEviction | AllKeysRandom | VolatileRandom | AllKeysLru | AllKeysLfu

  datatype Config = Config(maxMemory: int, policy: Policy)

  type Data = map<Str, Item>

  /**
   * `fifo` is the queue of non-expiring keys, oldest first; `lru` and `lfu` are
   * the keys whose current access is recorded in the respective heap.
   */
  datatype State = State(
    data: Data,
    fifo: seq<Str>,
    lru: set<Str>,
    lfu: set<Str>,
    counter: int,
    expired: int)

  const EMPTY := State(map[], [], {}, {}, 0, 0)

  // ---------- Sizes ----------

  function ItemSize(key: Str, value: Str): int {
    |key| + |value| + 100
  }

  /** Sum of the item sizes. */
  ghost function Used(data: Data): int {
    if data == map[] then 0
    else
      var k :| k in data;
      data[k].size + Used(data - {k})
  }

  // ---------- Queues ----------

  /** The queue without the keys in `gone`. */
  function Without(q: seq<Str>, gone: set<Str>): seq<Str> {
    if q == [] then []
    else if q[0] in gone then Without(q[1..], gone)
    else [q[0]] + Without(q[1..], gone)
  }

  function Elems(q: seq<Str>): set<Str> {
    set k | k in q
  }

  // ---------- Operations ----------

  predicate Overdue(expiresAt: int, now: int) {
    expiresAt > 0 && now > expiresAt
  }

  function OverdueKeys(data: Data, now: int): set<Str> {
    set k | k in data && Overdue(data[k].expiresAt, now)
  }

  /** The state after the keys in `gone` have been deleted. */
  function Removed(s: State, gone: set<Str>): State {
    s.(data := s.data - gone, fifo := Without(s.fifo, gone), lru := s.lru - gone, lfu := s.lfu - gone)
  }

  function Deadline(ttl: int, now: nat): int {
    if ttl > 0 then now + ttl else 0
  }

  /** The state after Set has stored its item and before it evicts (store.go:408-443). */
  function Written(s: State, key: Str, value: Str, ttl: int, now: nat, later: nat): State {
    var item := Item(value, TypeString, Deadline(ttl, later), ItemSize(key, value), 1, now, s.counter + 1);
    State(
      s.data[key := item],
      if ttl == 0 && key != [] then Without(s.fifo, {key}) + [key] else Without(s.fifo, {key}),
      s.lru + {key},
      s.lfu + {key},
      s.counter + 1,
      s.expired)
  }

  datatype Lookup = Found(value: Str) | NotFound | WrongType

  /** What Get answers (store.go:385-405). */
  function Answer(s: State, key: Str, now: int): Lookup {
    if key !in s.data || Overdue(s.data[key].expiresAt, now) then NotFound
    else if s.data[key].kind != TypeString then WrongType
    else Found(s.data[key].value)
  }

  /** What Get leaves behind: lazy expiry, or a newly recorded access. */
  function Looked(s: State, key: Str, now: int): State {
    if key !in s.data then s
    else if Overdue(s.data[key].expiresAt, now) then Removed(s, {key}).(expired := s.expired + 1)
    else if s.data[key].kind != TypeString then s
    else
      var item := s.data[key];
      s.(data := s.data[key := item.(lastAccess := now, accessId := s.counter + 1, freq := item.freq + 1)],
         lru := s.lru + {key}, lfu := s.lfu + {key}, counter := s.counter + 1)
  }

  const SAMPLE_SIZE := 20

  /**
   * One active-expiry tick: some overdue keys go. All of them go when the data
   * fits in the sample or more than half of a full sample was overdue.
   */
  ghost predicate Swept(s: State, now: int, s': State) {
    exists gone: set<Str>, n: nat :: SweptBy(s, now, gone, n, s')
  }

  ghost predicate SweptBy(s: State, now: int, gone: set<Str>, n: nat, s': State) {
    && gone <= OverdueKeys(s.data, now)
    && s' == Removed(s, gone).(expired := s.expired + n)
    && n <= SAMPLE_SIZE
    && (|s.data| <= SAMPLE_SIZE || n > SAMPLE_SIZE / 2 ==> gone == OverdueKeys(s.data, now))
    && (n <= SAMPLE_SIZE / 2 ==> |gone| == n)
  }

  /** One entry of RestoreSnapshot's loop (store.go:166-186). */
  function LoadedOne(s: State, e: SnapshotEntry, now: nat): State {
    if Overdue(e.expiresAt, now) then s
    else
      var item := Item(e.value, e.kind, e.expiresAt, ItemSize(e.key, e.value), 1, now, s.counter + 1);
      State(
        s.data[e.key := item],
        if e.expiresAt == 0 && e.key != [] then s.fifo + [e.key] else s.fifo,
        s.lru + {e.key},
        s.lfu + {e.key},
        s.counter + 1,
        s.expired)
  }

  /** RestoreSnapshot: existing data is replaced, the access counter runs on. */
  function Loaded(s: State, entries: seq<SnapshotEntry>, now: nat): State {
    if entries == [] then s.(data := map[], fifo := [], lru := {}, lfu := {})
    else LoadedOne(Loaded(s, entries[..|entries| - 1], now), entries[|entries| - 1], now)
  }

  /** What RestoreSnapshot adds to its byte counter: every entry it lets in. */
  function Charged(entries: seq<SnapshotEntry>, now: nat): int {
    if entries == [] then 0
    else
      var e := entries[|entries| - 1];
      Charged(entries[..|entries| - 1], now) + (if Overdue(e.expiresAt, now) then 0 else ItemSize(e.key, e.value))
  }

  /** The entries that are not overdue have different keys. */
  ghost predicate DistinctLive(entries: seq<SnapshotEntry>, now: int) {
    forall i, j :: 0 <= i < j < |entries| ==>
      Overdue(entries[i].expiresAt, now) || Overdue(entries[j].expiresAt, now) || entries[i].key != entries[j].key
  }

  ghost predicate DistinctKeys(entries: seq<SnapshotEntry>) {
    forall i, j :: 0 <= i < j < |entries| ==> entries[i].key != entries[j].key
  }

  /** What SnapshotEntries may return: the unexpired items, each once, in any order. */
  ghost predicate IsSnapshot(s: State, now: int, entries: seq<SnapshotEntry>) {
    && DistinctKeys(entries)
    && (forall e :: e in entries ==>
          e.key in s.data && !Overdue(s.data[e.key].expiresAt, now) && e == EntryOf(e.key, s.data[e.key]))
    && (forall k :: k in s.data && !Overdue(s.data[k].expiresAt, now) ==> EntryOf(k, s.data[k]) in entries)
  }

  function EntryOf(key: Str, item: Item): SnapshotEntry {
    SnapshotEntry(key, item.value, item.kind, item.expiresAt)
  }

  // ---------- Eviction ----------

  ghost predicate Over(c: Config, s: State) {
    0 < c.maxMemory < Used(s.data)
  }

  /** Rank of an item under LRU or LFU: a lower item goes first. */
  predicate RanksBelow(p: Policy, a: Item, b: Item) {
    if p == AllKeysLfu && a.freq != b.freq then a.freq < b.freq else a.lastAccess < b.lastAccess
  }

  /** The keys an LRU or LFU heap can still find. */
  function Tracked(p: Policy, s: State): set<Str> {
    if p == AllKeysLfu then s.lfu else s.lru
  }

  function Untracked(p: Policy, s: State, key: Str): State {
    if p == AllKeysLfu then s.(lfu := s.lfu - {key}) else s.(lru := s.lru - {key})
  }

  /** Which key may go next: the plain scan that each policy stands for. */
  ghost predicate Candidate(p: Policy, s: State, v: Str) {
    v in s.data &&
    match p
    case NoEviction => if s.fifo != [] then v == s.fifo[0] else s.data[v].expiresAt > 0
    case AllKeysRandom => true
    case VolatileRandom => s.data[v].expiresAt != 0
    case _ =>
      v in Tracked(p, s) &&
      forall k :: k in Tracked(p, s) && k in s.data ==> !RanksBelow(p, s.data[k], s.data[v])
  }

  /** Nothing the policy could still evict. */
  ghost predicate Exhausted(p: Policy, s: State) {
    match p
    case NoEviction => s.fifo == [] && forall k :: k in s.data ==> s.data[k].expiresAt <= 0
    case AllKeysRandom => s.data == map[]
    case VolatileRandom => forall k :: k in s.data ==> s.data[k].expiresAt == 0
    case _ => Tracked(p, s) == {}
  }

  predicate UsesHeap(p: Policy) {
    p == AllKeysLru || p == AllKeysLfu
  }

  /** `victims` go one by one, each while over the limit and each a candidate at its turn. */
  ghost predicate EvictionPath(c: Config, s: State, victims: seq<Str>) {
    forall i :: 0 <= i < |victims| ==>
      var m := Removed(s, Elems(victims[..i]));
      Over(c, m) && Candidate(c.policy, m, victims[i]) && (UsesHeap(c.policy) ==> victims[i] != [])
  }

  /**
   * Where eviction ends: within the limit, or with nothing left to evict. The
   * heap policies also end when the candidate is the empty key, which the
   * source takes for "nothing left" after popping its entry.
   */
  ghost predicate EvictionEnd(c: Config, m: State, s': State) {
    || (s' == m && (!Over(c, m) || Exhausted(c.policy, m)))
    || (UsesHeap(c.policy) && Over(c, m) && Candidate(c.policy, m, [])
        && s' == Untracked(c.policy, m, []))
  }

  ghost predicate EvictedBy(c: Config, s: State, victims: seq<Str>, s': State) {
    EvictionPath(c, s, victims) && EvictionEnd(c, Removed(s, Elems(victims)), s')
  }

  ghost predicate Evicted(c: Config, s: State, s': State) {
    exists victims :: EvictedBy(c, s, victims, s')
  }

  // ---------- Steps and runs ----------

  datatype Op =
    | Set(key: Str, value: Str, ttl: int, now: nat, later: nat)
    | Get(key: Str, now: nat)
    | Delete(key: Str)
    | ActiveExpire(now: nat)
    | Restore(entries: seq<SnapshotEntry>, now: nat)

  /** The state in which a Set starts to evict. */
  function AfterWrite(s: State, op: Op): State
    requires op.Set?
  {
    Written(s, op.key, op.value, op.ttl, op.now, op.later)
  }

  /** Restored entries come from a map, so their keys differ. */
  ghost predicate Allowed(op: Op) {
    op.Restore? ==> DistinctKeys(op.entries)
  }

  ghost predicate Step(c: Config, s: State, op: Op, s': State) {
    match op
    case Set(key, value, ttl, now, later) => Evicted(c, Written(s, key, value, ttl, now, later), s')
    case Get(key, now) => s' == Looked(s, key, now)
    case Delete(key) => s' == Removed(s, {key})
    case ActiveExpire(now) => Swept(s, now, s')
    case Restore(entries, now) => s' == Loaded(s, entries, now)
  }

  /** `states` is a run of `ops` from the empty store. */
  ghost predicate Run(c: Config, ops: seq<Op>, states: seq<State>) {
    && |states| == |ops| + 1
    && states[0] == EMPTY
    && forall i :: 0 <= i < |ops| ==> Allowed(ops[i]) && Step(c, states[i], ops[i], states[i + 1])
  }

  // ---------- Invariants ----------

  /** The queue lists non-expiring keys, each at most once. */
  ghost predicate QueueInv(data: Data, fifo: seq<Str>) {
    && NoDuplicates(fifo)
    && (forall k :: k in fifo ==> k != [] && k in data && data[k].expiresAt == 0)
  }

  /** Items are charged their size and carry distinct access ids. */
  ghost predicate ItemsInv(data: Data, counter: int) {
    && 0 <= counter
    && (forall k :: k in data ==>
          data[k].size == ItemSize(k, data[k].value) && 1 <= data[k].accessId <= counter)
    && (forall k, l :: k in data && l in data && k != l ==> data[k].accessId != data[l].accessId)
  }

  /** A heap can find every key of the data, except perhaps the empty one. */
  ghost predicate TrackInv(data: Data, tracked: set<Str>) {
    data.Keys - {[]} <= tracked <= data.Keys
  }

  /** Holds in every reachable state, empty keys and negative TTLs included. */
  ghost predicate Inv(s: State) {
    && ItemsInv(s.data, s.counter)
    && QueueInv(s.data, s.fifo)
    && TrackInv(s.data, s.lru)
    && TrackInv(s.data, s.lfu)
  }

  /** Holds when no key is empty and no TTL or deadline is negative. */
  ghost predicate Regular(s: State) {
    && [] !in s.data
    && (forall k :: k in s.data ==> s.data[k].expiresAt >= 0)
    && (forall k :: k in s.data && s.data[k].expiresAt == 0 ==> k in s.fifo)
  }

  ghost predicate RegularOp(op: Op) {
    match op
    case Set(key, _, ttl, _, _) => key != [] && ttl >= 0
    case Restore(entries, _) => forall e :: e in entries ==> e.key != [] && e.expiresAt >= 0
    case _ => true
  }
}
