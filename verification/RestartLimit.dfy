/**
 * Two restarts that exceed their limit. Replaying the whole log on top of a snapshot
 * brings back old, larger values beside keys that were written later, so it can
 * exceed a limit that the original run never reached. One of them loses a key; the
 * other, whose keys are all written again, rebuilds its contents all the same.
 */
module RestartLimit {
  import opened Bytes
  import opened StoreModel
  import opened StoreFacts
  import opened TimedMap
  import opened Restart
  import opened RestartEviction
  import opened RestartLoss
  import opened StoreEviction

  const X: Str := [120]
  const A: Str := [97]
  const B: Str := [98]

  const LIMIT := Config(360, AllKeysRandom)

  lemma UsedTwo(data: Data, a: Str, b: Str)
    requires data.Keys == {a, b} && a != b
    ensures Used(data) == data[a].size + data[b].size
  {
    UsedSplit(data, a);
    UsedSplit(data - {a}, b);
    assert data - {a} - {b} == map[];
  }

  lemma UsedThree(data: Data, a: Str, b: Str, d: Str)
    requires data.Keys == {a, b, d} && a != b && b != d && a != d
    ensures Used(data) == data[a].size + data[b].size + data[d].size
  {
    UsedSplit(data, a);
    assert (data - {a}).Keys == {b, d};
    UsedTwo(data - {a}, b, d);
  }

  function Put(key: Str, value: Str): Op {
    Set(key, value, 0, 0, 0)
  }

  /** A run goes on with a Set that fits. */
  lemma Extend(ops: seq<Op>, states: seq<State>, op: Op)
    requires Run(LIMIT, ops, states) && NeverOver(LIMIT, ops, states)
    requires op.Set? && Used(AfterWrite(states[|ops|], op).data) <= LIMIT.maxMemory
    ensures Run(LIMIT, ops + [op], states + [AfterWrite(states[|ops|], op)])
    ensures NeverOver(LIMIT, ops + [op], states + [AfterWrite(states[|ops|], op)])
  {
    var s := states[|ops|];
    StepBelow(LIMIT, s, op);
    RunSnoc(LIMIT, ops, states, op, AfterWrite(s, op));
    hide Over, Written, Step;
    var ops', states' := ops + [op], states + [AfterWrite(s, op)];
    assert ops'[..|ops|] == ops && states'[..|ops| + 1] == states;
    NeverOverSnoc(LIMIT, ops', states');
  }

  /** A store of strings without deadlines. */
  ghost predicate Plain(data: Data) {
    forall k :: k in data ==>
      data[k].kind == TypeString && data[k].expiresAt == 0 && data[k].size == ItemSize(k, data[k].value)
  }

  /** The contents at the end of the original run. */
  ghost predicate Full(s: State, a: Str, big: Str) {
    && s.data.Keys == {X, A, B} && Plain(s.data)
    && s.data[X].value == [] && s.data[A].value == a && s.data[B].value == big
  }

  lemma FullUsed(s: State, a: Str, big: Str)
    requires Full(s, a, big) && |big| == 50
    ensures Used(s.data) == 353 + |a|
  {
    UsedThree(s.data, X, A, B);
  }

  function S1(): State { AfterWrite(EMPTY, Put(X, [])) }

  function S2(big: Str): State { AfterWrite(S1(), Put(A, big)) }

  function S3(big: Str): State { AfterWrite(S2(big), Put(A, [])) }

  function S4(big: Str): State { AfterWrite(S3(big), Put(B, big)) }

  lemma OriginalSizes(big: Str)
    requires |big| == 50
    ensures Used(S1().data) == 101 && Used(S2(big).data) == 252 && Used(S3(big).data) == 202
    ensures Full(S4(big), [], big)
  {
    hide Used, Without;
    UsedPut(EMPTY.data, X, S1().data[X]);
    assert EMPTY.data - {X} == EMPTY.data;
    EmptyUsed();
    UsedTwo(S2(big).data, X, A);
    UsedTwo(S3(big).data, X, A);
  }

  lemma EmptyUsed()
    ensures Used(map[]) == 0
  {
  }

  /** The original run: X, a large A, a small A, a large B. It peaks at 353 of 360 bytes. */
  lemma OriginalRun(big: Str) returns (ops: seq<Op>, states: seq<State>)
    requires |big| == 50
    ensures ops == [Put(X, []), Put(A, big), Put(A, []), Put(B, big)] && |states| == 5
    ensures Run(LIMIT, ops, states) && NeverOver(LIMIT, ops, states)
    ensures Full(states[4], [], big)
  {
    OriginalSizes(big);
    FullUsed(S4(big), [], big);
    hide Run, NeverOver, Used, AfterWrite, Full;
    StartRun();
    ops, states := [], [EMPTY];
    ops, states := Extended(ops, states, Put(X, []));
    ops, states := Extended(ops, states, Put(A, big));
    ops, states := Extended(ops, states, Put(A, []));
    ops, states := Extended(ops, states, Put(B, big));
  }

  lemma Extended(ops: seq<Op>, states: seq<State>, op: Op) returns (ops': seq<Op>, states': seq<State>)
    requires Run(LIMIT, ops, states) && NeverOver(LIMIT, ops, states) && |states| == |ops| + 1
    requires op.Set? && Used(AfterWrite(states[|ops|], op).data) <= LIMIT.maxMemory
    ensures ops' == ops + [op] && states' == states + [AfterWrite(states[|ops|], op)]
    ensures Run(LIMIT, ops', states') && NeverOver(LIMIT, ops', states')
  {
    Extend(ops, states, op);
    ops', states' := ops + [op], states + [AfterWrite(states[|ops|], op)];
  }

  lemma StartRun()
    ensures Run(LIMIT, [], [EMPTY]) && NeverOver(LIMIT, [], [EMPTY])
  {
  }

  /** The snapshot of the final contents. */
  function FinalEntries(big: Str): seq<SnapshotEntry> {
    [SnapshotEntry(X, [], TypeString, 0), SnapshotEntry(A, [], TypeString, 0), SnapshotEntry(B, big, TypeString, 0)]
  }

  lemma FinalSnapshot(s: State, big: Str)
    requires Full(s, [], big)
    ensures IsSnapshot(s, 0, FinalEntries(big))
  {
    var es := FinalEntries(big);
    assert es[0] == EntryOf(X, s.data[X]) && es[1] == EntryOf(A, s.data[A]) && es[2] == EntryOf(B, s.data[B]);
  }

  /** What the snapshot restores. */
  function Base(big: Str): map<Str, Cell> {
    map[X := Cell([], TypeString, 0), A := Cell([], TypeString, 0), B := Cell(big, TypeString, 0)]
  }

  lemma BaseFromEntries(big: Str)
    ensures FromEntries(FinalEntries(big), 0) == Base(big) && DistinctKeys(FinalEntries(big))
  {
    var es := FinalEntries(big);
    assert es[..2] == [es[0], es[1]] && [es[0], es[1]][..1] == [es[0]] && [es[0]][..0] == [];
    assert FromEntries([es[0]], 0) == map[X := Cell([], TypeString, 0)];
    assert FromEntries([es[0], es[1]], 0) == map[X := Cell([], TypeString, 0), A := Cell([], TypeString, 0)];
  }

  /** The log of the original run. */
  function Log(big: Str): seq<Write> {
    [Write(X, []), Write(A, big), Write(A, []), Write(B, big)]
  }

  lemma OverlaidTwice(big: Str)
    ensures Overlay(Base(big), Log(big)[..1]) == Base(big)
    ensures Overlay(Base(big), Log(big)[..2]) == Base(big)[A := Cell(big, TypeString, 0)]
  {
    var ws := Log(big);
    assert ws[..1] == [ws[0]] && ws[..2] == [ws[0], ws[1]] && [ws[0], ws[1]][..1] == [ws[0]] && [ws[0]][..0] == [];
    assert Overlay(Base(big), [ws[0]]) == Base(big);
  }

  lemma BaseWeights(big: Str)
    requires |big| == 50
    ensures Weight(Base(big)) == 353 && Weight(Base(big)[A := Cell(big, TypeString, 0)]) == 403
  {
    UsedThree(DataOf(Base(big)), X, A, B);
    UsedThree(DataOf(Base(big)[A := Cell(big, TypeString, 0)]), X, A, B);
  }

  /** The replay overflows at the second SET, and X is not written again. */
  lemma OverflowAtTwo(big: Str)
    requires |big| == 50
    ensures FirstOverflow(LIMIT, Base(big), Log(big), 2)
    ensures Exposed(AllKeysRandom, Base(big), Log(big), 2, X)
  {
    OverlaidTwice(big);
    BaseWeights(big);
    hide Overlay, Weight;
  }

  lemma LogOf(big: Str)
    ensures Writes([Put(X, []), Put(A, big), Put(A, []), Put(B, big)]) == Log(big)
    ensures IsReplay([Put(X, []), Put(A, big), Put(A, []), Put(B, big)], Log(big))
  {
    WritesOfReplay([Put(X, []), Put(A, big), Put(A, []), Put(B, big)], Log(big));
  }

  /**
   * A restart that loses a key: the snapshot of the final contents and then the
   * whole log. At the second SET the store is at 403 bytes, and X may go.
   */
  lemma RestartLosesKey(big: Str) returns (ops: seq<Op>, states: seq<State>, states': seq<State>)
    requires |big| == 50
    ensures Run(LIMIT, ops, states) && NeverOver(LIMIT, ops, states) && (forall op :: op in ops ==> Logging(op))
    ensures |ops| == 4 && IsSnapshot(states[4], 0, FinalEntries(big))
    ensures IsReplay(ops, Writes(ops)) && Run(LIMIT, [Restore(FinalEntries(big), 0)] + ops, states')
    ensures X in states[4].data && |states'| == 6 && X !in states'[5].data
  {
    hide Run, NeverOver, IsReplay, IsSnapshot, FirstOverflow, FinalEntries, DistinctKeys, Overlay, Exposed;
    ops, states := OriginalRun(big);
    FinalSnapshot(states[4], big);
    LogOf(big);
    BaseFromEntries(big);
    OverflowAtTwo(big);
    var ops' := [];
    ops', states' := LosingRestart(LIMIT, FinalEntries(big), 0, Log(big), 2, X);
    assert ops' == ops;
  }

  // ---------- An overflow that does no harm ----------

  const SMALL := Config(260, AllKeysRandom)

  function Pair(a: Str, b: Str): map<Str, Cell> {
    map[A := Cell(a, TypeString, 0), B := Cell(b, TypeString, 0)]
  }

  lemma PairWeight(a: Str, b: Str)
    ensures Weight(Pair(a, b)) == 202 + |a| + |b|
  {
    UsedTwo(DataOf(Pair(a, b)), A, B);
  }

  function PairLog(big: Str): seq<Write> {
    [Write(A, big), Write(A, []), Write(B, big)]
  }

  lemma PairOverlays(big: Str)
    ensures Overlay(Pair([], big), PairLog(big)[..1]) == Pair(big, big)
    ensures Overlay(Pair([], big), PairLog(big)[..2]) == Pair([], big)
    ensures Overlay(Pair([], big), PairLog(big)[..3]) == Pair([], big)
  {
    var m, ws := Pair([], big), PairLog(big);
    assert ws[..0] == [];
    OverlaySnoc(m, ws, 0);
    OverlaySnoc(m, ws, 1);
    OverlaySnoc(m, ws, 2);
  }

  /** This restart exceeds its limit, and yet always rebuilds the contents (`RestartExact`). */
  lemma HarmlessOverflow(big: Str)
    requires |big| == 50
    ensures !ReplayWithin(SMALL, Pair([], big), PairLog(big))
    ensures Recoverable(SMALL, Pair([], big), PairLog(big))
  {
    var m, ws := Pair([], big), PairLog(big);
    PairOverlays(big);
    PairWeight(big, big);
    PairWeight([], big);
    hide Weight, Overlay;
    forall j | 0 < j <= |ws| && Overflows(SMALL, m, ws, j) ensures AllRewritten(SMALL.policy, m, ws, j) {
      assert j == 1 && ws[1..][0].key == A && ws[1..][1].key == B;
    }
  }

  // ---------- A run that the empty key keeps from evicting ----------

  const LRU := Config(250, AllKeysLru)

  function At(key: Str, now: nat): Op {
    Set(key, [], 0, now, now)
  }

  /** The store after a SET of A and one of the empty key. */
  function TwoKeys(): State {
    AfterWrite(AfterWrite(EMPTY, At(A, 1)), At([], 2))
  }

  lemma TwoKeysRun()
    ensures Used(AfterWrite(EMPTY, At(A, 1)).data) == 101 && Used(TwoKeys().data) == 201
    ensures TwoKeys().data.Keys == {A, []} && TwoKeys().lru == {A, []}
    ensures TwoKeys().data[A].lastAccess == 1 && TwoKeys().data[[]].lastAccess == 2
    ensures TwoKeys().data[A].size == 101 && TwoKeys().data[[]].size == 100
    ensures TwoKeys().data[A].kind == TypeString && TwoKeys().data[A].expiresAt == 0
  {
    hide Used, Without;
    UsedPut(EMPTY.data, A, AfterWrite(EMPTY, At(A, 1)).data[A]);
    assert EMPTY.data - {A} == EMPTY.data;
    EmptyUsed();
    UsedTwo(TwoKeys().data, A, []);
  }

  /** A, the empty key and B, last used at these times: 302 bytes. */
  ghost predicate Trio(w: State, a: int, e: int, b: int) {
    && w.data.Keys == {A, [], B} && w.lru == {A, [], B}
    && w.data[A].lastAccess == a && w.data[[]].lastAccess == e && w.data[B].lastAccess == b
    && w.data[A].size == 101 && w.data[[]].size == 100 && w.data[B].size == 101
  }

  lemma TrioOver(w: State, a: int, e: int, b: int)
    requires Trio(w, a, e, b)
    ensures Over(LRU, w)
  {
    UsedThree(w.data, A, [], B);
  }

  /** With the empty key as the oldest one, eviction stops at once. */
  lemma StopsAtOnce(w: State, a: int, e: int, b: int)
    requires Trio(w, a, e, b) && e < a && e < b
    ensures Evicted(LRU, w, Untracked(AllKeysLru, w, []))
  {
    TrioOver(w, a, e, b);
    PathEmpty(LRU, w);
    assert Candidate(AllKeysLru, w, []);
    hide EvictionPath, Over, Candidate;
    assert EvictedBy(LRU, w, [], Untracked(AllKeysLru, w, []));
  }

  /** With A as the oldest one, A is the first victim. */
  lemma EvictsA(w: State, a: int, e: int, b: int, s': State)
    requires Trio(w, a, e, b) && a < e && a < b && Evicted(LRU, w, s')
    ensures A !in s'.data
  {
    TrioOver(w, a, e, b);
    OldestOnly(w, a, e, b);
    PathEmpty(LRU, w);
    hide EvictionPath, Over, Candidate, Trio;
    var victims :| EvictedBy(LRU, w, victims, s');
    if victims == [] {
      assert false;
    }
    assert victims[..0] == [];
    PathAt(LRU, w, victims, 0);
    EvictedParts(LRU, w, victims, s');
  }

  lemma OldestOnly(w: State, a: int, e: int, b: int)
    requires Trio(w, a, e, b) && a < e && a < b
    ensures w.lru != {} && forall v :: Candidate(AllKeysLru, w, v) ==> v == A
  {
    assert RanksBelow(AllKeysLru, w.data[A], w.data[[]]) && RanksBelow(AllKeysLru, w.data[A], w.data[B]);
  }

  /** The store after the GET, and the last SET before it evicts. */
  lemma AfterGet()
    ensures Trio(AfterWrite(Looked(TwoKeys(), A, 3), At(B, 4)), 3, 2, 4)
  {
    TwoKeysRun();
    hide TwoKeys, Without, Used;
  }

  /** The original: a GET of A makes the empty key the oldest one, and eviction stops at it. */
  lemma ShieldedRun() returns (ops: seq<Op>, states: seq<State>)
    ensures ops == [At(A, 1), At([], 2), Get(A, 3), At(B, 4)] && |states| == 5
    ensures Run(LRU, ops, states) && NothingEvicted(ops, states) && A in states[4].data
  {
    TwoKeysRun();
    AfterGet();
    hide Evicted, Written, Looked, Over, Used;
    var s1, s2 := AfterWrite(EMPTY, At(A, 1)), TwoKeys();
    var s3 := Looked(s2, A, 3);
    var w := AfterWrite(s3, At(B, 4));
    SmallSteps();
    StopsAtOnce(w, 3, 2, 4);
    var s4 := Untracked(AllKeysLru, w, []);
    ops, states := [At(A, 1), At([], 2), Get(A, 3), At(B, 4)], [EMPTY, s1, s2, s3, s4];
  }

  lemma SmallSteps()
    ensures Step(LRU, EMPTY, At(A, 1), AfterWrite(EMPTY, At(A, 1)))
    ensures Step(LRU, AfterWrite(EMPTY, At(A, 1)), At([], 2), TwoKeys())
  {
    TwoKeysRun();
    hide Written, Evicted, Used;
    StepBelow(LRU, EMPTY, At(A, 1));
    StepBelow(LRU, AfterWrite(EMPTY, At(A, 1)), At([], 2));
  }

  /** The last SET of the replay, where A is the oldest key. */
  lemma ShieldGone(s': State)
    requires Step(LRU, TwoKeys(), At(B, 3), s')
    ensures A !in s'.data
  {
    TwoKeysRun();
    hide Without, Evicted, TwoKeys;
    EvictsA(AfterWrite(TwoKeys(), At(B, 3)), 1, 2, 3, s');
  }

  /**
   * Why LRU and LFU need a condition that other policies do not (`LogRebuilds`): this
   * run evicts nothing, because eviction stops at the empty key, but the GET that made
   * the empty key the oldest one is not in the log, and every replay evicts A.
   */
  lemma EmptyKeyShields() returns (ops: seq<Op>, states: seq<State>, ops': seq<Op>)
    ensures |ops| == 4 && Run(LRU, ops, states) && NothingEvicted(ops, states)
    ensures (forall op :: op in ops ==> Logging(op)) && A in states[4].data
    ensures ops' == [At(A, 1), At([], 2), At(B, 3)] && IsReplay(ops', Writes(ops))
    ensures forall states': seq<State> :: Run(LRU, ops', states') ==> A !in states'[3].data
  {
    ops, states := ShieldedRun();
    ops' := [At(A, 1), At([], 2), At(B, 3)];
    ShieldedLog(ops);
    TwoKeysRun();
    hide Written, Evicted, TwoKeys;
    forall states': seq<State> | Run(LRU, ops', states') ensures A !in states'[3].data {
      ShieldedReplay(ops', states');
    }
  }

  lemma ShieldedLog(ops: seq<Op>)
    requires ops == [At(A, 1), At([], 2), Get(A, 3), At(B, 4)]
    ensures Writes(ops) == [Write(A, []), Write([], []), Write(B, [])]
  {
    WritesPrefix(ops);
    WritesPrefix(ops[..3]);
    WritesPrefix(ops[..2]);
    WritesPrefix(ops[..1]);
    assert ops[..3][..2] == ops[..2] && ops[..2][..1] == ops[..1] && ops[..1][..0] == [];
  }

  lemma ShieldedReplay(ops: seq<Op>, states: seq<State>)
    requires ops == [At(A, 1), At([], 2), At(B, 3)] && Run(LRU, ops, states)
    ensures A !in states[3].data
  {
    TwoKeysRun();
    hide Evicted, Written;
    assert Step(LRU, states[0], ops[0], states[1]) && Step(LRU, states[1], ops[1], states[2]);
    assert Step(LRU, states[2], ops[2], states[3]);
    NoEvictionBelowLimit(LRU, AfterWrite(EMPTY, At(A, 1)), states[1]);
    NoEvictionBelowLimit(LRU, TwoKeys(), states[2]);
    ShieldGone(states[3]);
  }
}
