/**
 * Restart (pkg/server/server.go:188-229): what replaying the log, alone or on top
 * of a snapshot, rebuilds.
 */
module Restart {
  import opened Bytes
  import opened Text
  import opened Resp
  import opened Draining
  import opened AppendLog
  import opened StoreModel
  import opened StoreFacts
  import opened StoreInvariant
  import opened TimedMap

  datatype Write = Write(key: Str, value: Str)

  /** What the store holds, without access statistics. */
  function Cells(s: State): map<Str, Cell> {
    map k | k in s.data :: CellOf(s.data[k])
  }

  /** The map after these writes, in order, on top of `m`. */
  function Overlay(m: map<Str, Cell>, ws: seq<Write>): map<Str, Cell> {
    if ws == [] then m
    else
      var last := ws[|ws| - 1];
      Overlay(m, ws[..|ws| - 1])[last.key := Cell(last.value, TypeString, 0)]
  }

  /** The operations a server without TTLs performs: SET, GET and expiry ticks. */
  predicate Logging(op: Op) {
    (op.Set? && op.ttl == 0) || op.Get? || op.ActiveExpire?
  }

  /** The writes of a run, in order: what its log holds. */
  function Writes(ops: seq<Op>): seq<Write> {
    if ops == [] then []
    else
      var before, op := Writes(ops[..|ops| - 1]), ops[|ops| - 1];
      if op.Set? then before + [Write(op.key, op.value)] else before
  }

  /** The operations of a replay of `ws`, at whatever times. */
  predicate IsReplay(ops: seq<Op>, ws: seq<Write>) {
    && |ops| == |ws|
    && forall i :: 0 <= i < |ops| ==>
         ops[i].Set? && ops[i].ttl == 0 && ops[i].key == ws[i].key && ops[i].value == ws[i].value
  }

  // ---------- Runs of logged writes ----------

  lemma {:induction false} LatestOfLogging(ops: seq<Op>)
    requires forall op :: op in ops ==> Logging(op)
    ensures Latest(ops) == Overlay(map[], Writes(ops))
    decreases |ops|
  {
    if ops != [] {
      var n := |ops| - 1;
      assert ops[n] in ops;
      LatestOfLogging(ops[..n]);
      if ops[n].Set? {
        var w := Write(ops[n].key, ops[n].value);
        assert (Writes(ops[..n]) + [w])[..|Writes(ops[..n])|] == Writes(ops[..n]);
      }
    }
  }

  lemma {:induction false} OverlayNeverExpires(m: map<Str, Cell>, ws: seq<Write>)
    requires forall k :: k in m ==> m[k].expiresAt == 0
    ensures forall k :: k in Overlay(m, ws) ==> Overlay(m, ws)[k].expiresAt == 0
    decreases |ws|
  {
    if ws != [] {
      OverlayNeverExpires(m, ws[..|ws| - 1]);
    }
  }

  lemma {:induction false} LastReading(ops: seq<Op>) returns (t: int)
    ensures forall op :: op in ops ==> Reading(op) <= t
    decreases |ops|
  {
    t := 0;
    if ops != [] {
      var n := |ops| - 1;
      t := LastReading(ops[..n]);
      t := if Reading(ops[n]) > t then Reading(ops[n]) else t;
      assert ops == ops[..n] + [ops[n]];
    }
  }

  /** Without deadlines the store holds the latest writes, but for the keys evicted since. */
  lemma HoldsTheRest(c: Config, ops: seq<Op>, states: seq<State>)
    requires Run(c, ops, states)
    requires forall k :: k in Latest(ops) ==> Latest(ops)[k].expiresAt == 0
    ensures |states| == |ops| + 1 && Cells(states[|ops|]) == Latest(ops) - Lost(ops, states)
  {
    hide Run, Lost, Latest;
    var t := LastReading(ops);
    StoredIsLatest(c, ops, states);
    UnexpiredIsStored(c, ops, states, t);
  }

  /** Without deadlines and without eviction, the store holds exactly the latest writes. */
  lemma HoldsLatest(c: Config, ops: seq<Op>, states: seq<State>)
    requires Run(c, ops, states) && NothingEvicted(ops, states)
    requires forall k :: k in Latest(ops) ==> Latest(ops)[k].expiresAt == 0
    ensures Cells(states[|ops|]) == Latest(ops)
  {
    hide Run, NothingEvicted, Lost, Latest;
    var t := LastReading(ops);
    StoredIsLatest(c, ops, states);
    UnexpiredIsStored(c, ops, states, t);
    NothingLost(ops, states);
    assert Latest(ops) - {} == Latest(ops);
  }

  lemma LoggedRunHolds(c: Config, ops: seq<Op>, states: seq<State>)
    requires Run(c, ops, states) && NothingEvicted(ops, states)
    requires forall op :: op in ops ==> Logging(op)
    ensures Cells(states[|ops|]) == Overlay(map[], Writes(ops))
  {
    hide Run, NothingEvicted;
    LatestOfLogging(ops);
    OverlayNeverExpires(map[], Writes(ops));
    HoldsLatest(c, ops, states);
  }

  lemma {:induction false} WritesOfReplay(ops: seq<Op>, ws: seq<Write>)
    requires IsReplay(ops, ws)
    ensures Writes(ops) == ws
    ensures forall op :: op in ops ==> Logging(op)
    decreases |ops|
  {
    if ops != [] {
      var n := |ops| - 1;
      WritesOfReplay(ops[..n], ws[..n]);
      assert ws == ws[..n] + [ws[n]];
      assert ops == ops[..n] + [ops[n]];
    }
  }

  // ---------- Sizes and prefixes ----------

  /** The weight of the data depends only on keys and values. */
  lemma {:induction false} UsedByCells(a: Data, b: Data)
    requires a.Keys == b.Keys
    requires forall k :: k in a ==> a[k].size == b[k].size
    ensures Used(a) == Used(b)
    decreases |a|
  {
    if a == map[] {
      assert b == map[];
    } else {
      var k :| k in a;
      UsedSplit(a, k);
      UsedSplit(b, k);
      UsedByCells(a - {k}, b - {k});
    }
  }

  lemma NeverOverPrefix(c: Config, ops: seq<Op>, states: seq<State>, n: nat)
    requires |states| == |ops| + 1 && NeverOver(c, ops, states) && n <= |ops|
    ensures NeverOver(c, ops[..n], states[..n + 1])
    ensures n < |ops| && ops[n].Set? ==> !Over(c, AfterWrite(states[n], ops[n]))
  {
    hide Over, Written;
  }

  lemma NothingEvictedPrefix(ops: seq<Op>, states: seq<State>, n: nat)
    requires |states| == |ops| + 1 && NothingEvicted(ops, states) && n <= |ops|
    ensures NothingEvicted(ops[..n], states[..n + 1])
  {
    hide Written;
  }

  lemma NothingEvictedSnoc(ops: seq<Op>, states: seq<State>)
    requires ops != [] && |states| == |ops| + 1
    requires NothingEvicted(ops[..|ops| - 1], states[..|ops|])
    requires var n := |ops| - 1; ops[n].Set? ==> states[n + 1].data == AfterWrite(states[n], ops[n]).data
    ensures NothingEvicted(ops, states)
  {
    hide Written;
    var n := |ops| - 1;
    var front, firsts := ops[..n], states[..n + 1];
    forall i | 0 <= i < |ops| && ops[i].Set? ensures states[i + 1].data == AfterWrite(states[i], ops[i]).data {
      if i < n {
        assert front[i] == ops[i] && firsts[i] == states[i] && firsts[i + 1] == states[i + 1];
      }
    }
  }

  lemma WritesPrefix(ops: seq<Op>)
    requires ops != []
    ensures var n := |ops| - 1;
      Writes(ops) == Writes(ops[..n]) + (if ops[n].Set? then [Write(ops[n].key, ops[n].value)] else [])
  {
    var n := |ops| - 1;
    assert Writes(ops[..n]) + [] == Writes(ops[..n]);
  }

  lemma ReplayFront(ops: seq<Op>, ws: seq<Write>)
    requires IsReplay(ops, ws) && ws != []
    ensures |ops| == |ws|
    ensures var n := |ws| - 1;
      && IsReplay(ops[..n], ws[..n])
      && ops[n].Set? && ops[n].ttl == 0 && ops[n].key == ws[n].key && ops[n].value == ws[n].value
  {
  }

  lemma NeverOverSnoc(c: Config, ops: seq<Op>, states: seq<State>)
    requires ops != [] && |states| == |ops| + 1
    requires NeverOver(c, ops[..|ops| - 1], states[..|ops|])
    requires var n := |ops| - 1; ops[n].Set? ==> !Over(c, AfterWrite(states[n], ops[n]))
    ensures NeverOver(c, ops, states)
  {
    hide Over, Written;
    var n := |ops| - 1;
    var front, firsts := ops[..n], states[..n + 1];
    forall i | 0 <= i < |ops| && ops[i].Set? ensures !Over(c, AfterWrite(states[i], ops[i])) {
      if i < n {
        assert front[i] == ops[i] && firsts[i] == states[i];
      }
    }
  }

  // ---------- Snapshot and replay ----------

  lemma OverlaySnoc(m: map<Str, Cell>, ws: seq<Write>, j: nat)
    requires j < |ws|
    ensures Overlay(m, ws[..j + 1]) == Overlay(m, ws[..j])[ws[j].key := Cell(ws[j].value, TypeString, 0)]
  {
    assert ws[..j + 1][..j] == ws[..j];
  }

  lemma {:induction false} OverlayMerge(m: map<Str, Cell>, ws: seq<Write>)
    ensures Overlay(m, ws) == m + Overlay(map[], ws)
    decreases |ws|
  {
    if ws == [] {
      assert m + map[] == m;
    } else {
      OverlayMerge(m, ws[..|ws| - 1]);
    }
  }

  lemma {:induction false} OverlayKeys(m: map<Str, Cell>, p: seq<Write>, q: seq<Write>)
    ensures Overlay(m, p).Keys <= Overlay(m, p + q).Keys
    decreases |q|
  {
    if q == [] {
      assert p + q == p;
    } else {
      var n := |q| - 1;
      OverlayKeys(m, p, q[..n]);
      assert (p + q)[..|p + q| - 1] == p + q[..n];
    }
  }

  /** Writing everything again over an earlier state of it changes nothing. */
  lemma OverlayAbsorbs(p: seq<Write>, q: seq<Write>)
    ensures Overlay(Overlay(map[], p), p + q) == Overlay(map[], p + q)
  {
    OverlayMerge(Overlay(map[], p), p + q);
    OverlayKeys(map[], p, q);
  }

  lemma {:induction false} LatestAfterRestore(entries: seq<SnapshotEntry>, now: nat, ops: seq<Op>)
    requires forall op :: op in ops ==> Logging(op)
    ensures Latest([Restore(entries, now)] + ops) == Overlay(FromEntries(entries, now), Writes(ops))
    decreases |ops|
  {
    var all := [Restore(entries, now)] + ops;
    if ops == [] {
      assert all[..0] == [];
    } else {
      var n := |ops| - 1;
      assert all[..|all| - 1] == [Restore(entries, now)] + ops[..n];
      LatestAfterRestore(entries, now, ops[..n]);
      assert ops[n] in ops;
      if ops[n].Set? {
        var w := Write(ops[n].key, ops[n].value);
        assert (Writes(ops[..n]) + [w])[..|Writes(ops[..n])|] == Writes(ops[..n]);
      }
    }
  }

  lemma {:induction false} WritesSplit(ops: seq<Op>, i: nat)
    requires i <= |ops|
    ensures Writes(ops[..i]) <= Writes(ops)
    decreases |ops|
  {
    if i == |ops| {
      assert ops[..i] == ops;
    } else {
      WritesPrefix(ops);
      WritesSplit(ops[..|ops| - 1], i);
      assert ops[..|ops| - 1][..i] == ops[..i];
    }
  }

  /** A snapshot of a store without deadlines restores its exact contents at any time. */
  lemma SnapshotCells(s: State, taken: nat, entries: seq<SnapshotEntry>, now: nat)
    requires IsSnapshot(s, taken, entries) && forall k :: k in s.data ==> s.data[k].expiresAt == 0
    ensures FromEntries(entries, now) == Cells(s)
  {
    var m := FromEntries(entries, now);
    forall k ensures k in m <==> k in Cells(s)
      ensures k in m ==> m[k] == Cells(s)[k]
    {
      if k in m {
        FromEntriesKeys(entries, now, k);
        var e :| e in entries && e.key == k;
        FromEntriesAt(entries, now, e);
      } else if k in s.data {
        FromEntriesAt(entries, now, EntryOf(k, s.data[k]));
      }
    }
  }

  lemma NoDeadlines(s: State, ws: seq<Write>)
    requires Cells(s) == Overlay(map[], ws)
    ensures forall k :: k in s.data ==> s.data[k].expiresAt == 0
  {
    OverlayNeverExpires(map[], ws);
    forall k | k in s.data ensures s.data[k].expiresAt == 0 {
      assert k in Cells(s);
    }
  }

  // ---------- The last write of a key ----------

  /** Write `i` is the last one of key `k`. */
  ghost predicate IsLast(ws: seq<Write>, k: Str, i: nat) {
    i < |ws| && ws[i].key == k && forall j :: i < j < |ws| ==> ws[j].key != k
  }

  lemma {:induction false} OverlayLast(ws: seq<Write>, k: Str, i: nat)
    requires IsLast(ws, k, i)
    ensures k in Overlay(map[], ws) && Overlay(map[], ws)[k] == Cell(ws[i].value, TypeString, 0)
    decreases |ws|
  {
    var n := |ws| - 1;
    if i < n {
      assert ws[n].key != k;
      OverlayLast(ws[..n], k, i);
    }
  }

  lemma {:induction false} LastWrite(ws: seq<Write>, k: Str) returns (i: nat)
    requires k in Overlay(map[], ws)
    ensures IsLast(ws, k, i)
    decreases |ws|
  {
    var n := |ws| - 1;
    if ws[n].key == k {
      i := n;
    } else {
      i := LastWrite(ws[..n], k);
      assert forall j :: i < j < n ==> ws[j] == ws[..n][j];
    }
  }

  lemma {:induction false} WrittenKey(ws: seq<Write>, i: nat)
    requires i < |ws|
    ensures ws[i].key in Overlay(map[], ws)
    decreases |ws|
  {
    var n := |ws| - 1;
    if i < n {
      WrittenKey(ws[..n], i);
    }
  }

  // ---------- When a restart from a snapshot stays below the limit ----------

  /** Items with these contents, as the store would charge them. */
  function DataOf(m: map<Str, Cell>): Data {
    map k | k in m :: Item(m[k].value, m[k].kind, m[k].expiresAt, ItemSize(k, m[k].value), 1, 0, 0)
  }

  /** The bytes these contents are charged. */
  ghost function Weight(m: map<Str, Cell>): int {
    Used(DataOf(m))
  }

  /** Every intermediate contents of the replay weighs no more than the limit. */
  ghost predicate ReplayWithin(c: Config, base: map<Str, Cell>, ws: seq<Write>) {
    c.maxMemory > 0 ==> forall j :: 0 < j <= |ws| ==> Weight(Overlay(base, ws[..j])) <= c.maxMemory
  }

  lemma CellsWeight(s: State)
    requires Inv(s)
    ensures Used(s.data) == Weight(Cells(s))
  {
    UsedByCells(s.data, DataOf(Cells(s)));
  }

  lemma CellsWritten(s: State, op: Op)
    requires op.Set? && op.ttl == 0
    ensures Cells(AfterWrite(s, op))
         == Cells(s)[op.key := Cell(op.value, TypeString, 0)]
  {
  }

  /** After `j` replayed writes and no eviction, the next write brings the store to a known weight. */
  lemma RestartWeight(c: Config, entries: seq<SnapshotEntry>, now: nat, ops: seq<Op>, states: seq<State>,
                      ws: seq<Write>, j: nat)
    requires var all := [Restore(entries, now)] + ops;
      Run(c, all, states) && j < |ops| && NeverOver(c, all[..j + 1], states[..j + 2])
    requires IsReplay(ops, ws)
    requires forall k :: k in FromEntries(entries, now) ==> FromEntries(entries, now)[k].expiresAt == 0
    ensures Used(AfterWrite(states[j + 1], ops[j]).data)
         == Weight(Overlay(FromEntries(entries, now), ws[..j + 1]))
  {
    hide Run, NeverOver, NothingEvicted, Written, FromEntries, Latest, Weight, IsReplay, Cells, Logging, Inv;
    hide Overlay;
    var all, base := [Restore(entries, now)] + ops, FromEntries(entries, now);
    RunPrefix(c, all, states, j + 1);
    var s := states[j + 1];
    ReplayLength(ops, ws);
    ReplayPrefix(ops, ws, j);
    assert all[..j + 1] == [Restore(entries, now)] + ops[..j];
    WritesOfReplay(ops[..j], ws[..j]);
    LatestAfterRestore(entries, now, ops[..j]);
    OverlayNeverExpires(base, ws[..j]);
    FittingEvictsNothing(c, all[..j + 1], states[..j + 2]);
    HoldsLatest(c, all[..j + 1], states[..j + 2]);
    InvRun(c, all, states, j + 1);
    InvWritten(s, ops[j].key, ops[j].value, ops[j].ttl, ops[j].now, ops[j].later);
    CellsWritten(s, ops[j]);
    CellsWeight(AfterWrite(s, ops[j]));
    OverlaySnoc(base, ws, j);
  }

  lemma {:induction false} WithinPrefix(c: Config, entries: seq<SnapshotEntry>, now: nat,
                                        ops: seq<Op>, states: seq<State>, ws: seq<Write>, j: nat)
    requires Run(c, [Restore(entries, now)] + ops, states) && IsReplay(ops, ws) && j <= |ops|
    requires forall k :: k in FromEntries(entries, now) ==> FromEntries(entries, now)[k].expiresAt == 0
    requires ReplayWithin(c, FromEntries(entries, now), ws)
    ensures NeverOver(c, ([Restore(entries, now)] + ops)[..j + 1], states[..j + 2])
    decreases j
  {
    hide Run, IsReplay, FromEntries, Written, Weight, Overlay;
    var all := [Restore(entries, now)] + ops;
    RunPrefix(c, all, states, j + 1);
    if j > 0 {
      WithinPrefix(c, entries, now, ops, states, ws, j - 1);
      ReplayLength(ops, ws);
      RestartWeight(c, entries, now, ops, states, ws, j - 1);
      var front, firsts := all[..j + 1], states[..j + 2];
      assert front[..j] == all[..j] && firsts[..j + 1] == states[..j + 1] && front[j] == ops[j - 1];
      NeverOverSnoc(c, front, firsts);
    }
  }

  lemma ReplayPrefix(ops: seq<Op>, ws: seq<Write>, j: nat)
    requires IsReplay(ops, ws) && j < |ops|
    ensures |ws| == |ops| && IsReplay(ops[..j], ws[..j])
    ensures ops[j].Set? && ops[j].ttl == 0 && ops[j].key == ws[j].key && ops[j].value == ws[j].value
  {
  }

  lemma ReplayLength(ops: seq<Op>, ws: seq<Write>)
    requires IsReplay(ops, ws)
    ensures |ops| == |ws| && forall op :: op in ops ==> op.Set?
  {
  }

  /**
   * The proviso, exactly: a restart from a snapshot without deadlines never exceeds
   * the limit if and only if none of the contents it passes through outweighs it.
   */
  lemma RestartFitsExactly(c: Config, entries: seq<SnapshotEntry>, now: nat,
                           ops: seq<Op>, states: seq<State>, ws: seq<Write>)
    requires Run(c, [Restore(entries, now)] + ops, states) && IsReplay(ops, ws)
    requires forall k :: k in FromEntries(entries, now) ==> FromEntries(entries, now)[k].expiresAt == 0
    ensures NeverOver(c, [Restore(entries, now)] + ops, states)
      <==> ReplayWithin(c, FromEntries(entries, now), ws)
  {
    hide Run, IsReplay, FromEntries, Written, Weight, Overlay;
    var all := [Restore(entries, now)] + ops;
    RunPrefix(c, all, states, |all|);
    ReplayLength(ops, ws);
    assert all[..|all|] == all && states[..|all| + 1] == states;
    if ReplayWithin(c, FromEntries(entries, now), ws) {
      WithinPrefix(c, entries, now, ops, states, ws, |ops|);
    }
    if NeverOver(c, all, states) && c.maxMemory > 0 {
      forall j | 0 < j <= |ws| ensures Weight(Overlay(FromEntries(entries, now), ws[..j])) <= c.maxMemory {
        NeverOverPrefix(c, all, states, j);
        RestartWeight(c, entries, now, ops, states, ws, j - 1);
        assert all[j] == ops[j - 1];
      }
    }
  }

  // ---------- From bytes to contents ----------

  const SET_NAME: Str := Ascii("SET")

  /** The arguments logged for a write. */
  function SetRequest(w: Write): seq<Str> {
    [SET_NAME, w.key, w.value]
  }

  function SetRequests(ws: seq<Write>): (r: seq<seq<Str>>)
    ensures |r| == |ws| && forall i :: 0 <= i < |ws| ==> r[i] == SetRequest(ws[i])
  {
    seq(|ws|, i requires 0 <= i < |ws| => SetRequest(ws[i]))
  }

  /** The writes that a list of commands performs when it is replayed. */
  function ReplayedWrites(cmds: seq<Command>): seq<Write> {
    if cmds == [] then []
    else
      var c := cmds[0];
      (if c.name == SET_NAME && |c.args| == 2 then [Write(c.args[0], c.args[1])] else [])
      + ReplayedWrites(cmds[1..])
  }

  ghost predicate Loggable(ws: seq<Write>) {
    forall w :: w in ws ==> |w.key| <= MAX_BULK && |w.value| <= MAX_BULK
  }

  lemma LoggableRequests(ws: seq<Write>)
    requires Loggable(ws)
    ensures forall r :: r in SetRequests(ws) ==> InLimits(r)
  {
    forall r | r in SetRequests(ws) ensures InLimits(r) {
      var i :| 0 <= i < |ws| && SetRequests(ws)[i] == r;
      assert ws[i] in ws;
    }
  }

  lemma SetNameIsUpper()
    ensures Upper(SET_NAME) == SET_NAME && |SET_NAME| == 3
  {
    assert SET_NAME == [83, 69, 84];
  }

  lemma {:induction false} CommandsOfWrites(ws: seq<Write>)
    requires Loggable(ws)
    requires forall r :: r in SetRequests(ws) ==> InLimits(r)
    ensures ReplayedWrites(Commands(SetRequests(ws))) == ws
    decreases |ws|
  {
    if ws != [] {
      SetNameIsUpper();
      hide SET_NAME;
      assert SetRequests(ws)[1..] == SetRequests(ws[1..]);
      assert forall w :: w in ws[1..] ==> w in ws;
      CommandsOfWrites(ws[1..]);
      assert ToCommand(SetRequest(ws[0])) == Command(SET_NAME, [ws[0].key, ws[0].value]);
      assert ws == [ws[0]] + ws[1..];
    }
  }

  /** The log of these writes, cut at byte `n`, replays exactly the writes wholly before the cut. */
  lemma CutLogReplays(ws: seq<Write>, n: nat)
    requires Loggable(ws) && n <= |Stream(SetRequests(ws))|
    ensures ReplayedWrites(ReadLog(Stream(SetRequests(ws))[..n]).cmds) == ws[..Whole(SetRequests(ws), n)]
  {
    hide ReadLog, ReplayedWrites, Commands, Torn, Whole, Stream, InLimits;
    var k := Whole(SetRequests(ws), n);
    LoggableRequests(ws);
    TruncatedLog(SetRequests(ws), n);
    assert SetRequests(ws)[..k] == SetRequests(ws[..k]);
    assert forall w :: w in ws[..k] ==> w in ws;
    CommandsOfWrites(ws[..k]);
  }
}
