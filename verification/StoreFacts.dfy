/** Elementary facts about the store model: sums over the data, queues, removal. */
module StoreFacts {
  import opened Bytes
  import opened Lists
  import opened StoreModel

  // ---------- The sum of sizes ----------

  /** The sum does not depend on the order in which keys are taken. */
  lemma {:induction false} UsedSplit(data: Data, k: Str)
    requires k in data
    ensures Used(data) == data[k].size + Used(data - {k})
    decreases |data|
  {
    var x :| x in data && Used(data) == data[x].size + Used(data - {x});
    if x != k {
      UsedSplit(data - {x}, k);
      UsedSplit(data - {k}, x);
      assert data - {x} - {k} == data - {k} - {x};
    }
  }

  lemma UsedPut(data: Data, k: Str, item: Item)
    ensures Used(data[k := item]) == Used(data - {k}) + item.size
  {
    UsedSplit(data[k := item], k);
    assert data[k := item] - {k} == data - {k};
  }

  /** Every item is charged at least its fixed overhead. */
  lemma {:induction false} UsedAtLeast(data: Data)
    requires forall k :: k in data ==> data[k].size >= 100
    ensures Used(data) >= 100 * |data|
    decreases |data|
  {
    if data != map[] {
      var k :| k in data;
      UsedSplit(data, k);
      UsedAtLeast(data - {k});
    }
  }

  /** Fewer items of positive size weigh no more. */
  lemma {:induction false} UsedSubset(small: Data, big: Data)
    requires forall k :: k in small ==> k in big && small[k] == big[k]
    requires forall k :: k in big ==> big[k].size >= 0
    ensures Used(small) <= Used(big)
    decreases |big|
  {
    if big != map[] {
      var k :| k in big;
      UsedSplit(big, k);
      if k in small {
        UsedSplit(small, k);
        UsedSubset(small - {k}, big - {k});
      } else {
        UsedSubset(small, big - {k});
      }
    } else {
      assert small == map[];
    }
  }

  // ---------- Queues ----------

  lemma {:induction false} WithoutMember(q: seq<Str>, gone: set<Str>)
    ensures forall k :: k in Without(q, gone) <==> k in q && k !in gone
  {
    if q != [] {
      WithoutMember(q[1..], gone);
    }
  }

  lemma {:induction false} WithoutNoDuplicates(q: seq<Str>, gone: set<Str>)
    requires NoDuplicates(q)
    ensures NoDuplicates(Without(q, gone))
  {
    if q != [] {
      WithoutNoDuplicates(q[1..], gone);
      WithoutMember(q[1..], gone);
    }
  }

  lemma {:induction false} WithoutDisjoint(q: seq<Str>, gone: set<Str>)
    requires forall k :: k in q ==> k !in gone
    ensures Without(q, gone) == q
  {
    if q != [] {
      WithoutDisjoint(q[1..], gone);
    }
  }

  lemma {:induction false} WithoutTwice(q: seq<Str>, a: set<Str>, b: set<Str>)
    ensures Without(Without(q, a), b) == Without(q, a + b)
  {
    if q != [] {
      WithoutTwice(q[1..], a, b);
      if q[0] !in a {
        assert ([q[0]] + Without(q[1..], a))[1..] == Without(q[1..], a);
      }
    }
  }

  lemma {:induction false} WithoutSnoc(q: seq<Str>, x: Str, gone: set<Str>)
    ensures Without(q + [x], gone) == Without(q, gone) + (if x in gone then [] else [x])
  {
    if q == [] {
      assert q + [x] == [x];
      assert [x][1..] == [];
    } else {
      assert (q + [x])[1..] == q[1..] + [x];
      WithoutSnoc(q[1..], x, gone);
    }
  }

  lemma WithoutHead(q: seq<Str>)
    requires NoDuplicates(q) && q != []
    ensures Without(q, {q[0]}) == q[1..]
  {
    WithoutDisjoint(q[1..], {q[0]});
  }

  // ---------- Removal ----------

  lemma RemovedNothing(s: State)
    ensures Removed(s, {}) == s
  {
    WithoutDisjoint(s.fifo, {});
    assert s.data - {} == s.data;
  }

  lemma RemovedTwice(s: State, a: set<Str>, b: set<Str>)
    ensures Removed(Removed(s, a), b) == Removed(s, a + b)
  {
    WithoutTwice(s.fifo, a, b);
    assert s.data - a - b == s.data - (a + b);
  }

  lemma RemovedThenCounted(s: State, a: set<Str>, b: set<Str>, n: int)
    ensures Removed(Removed(s, a).(expired := n), b) == Removed(s, a + b).(expired := n)
  {
    RemovedTwice(s, a, b);
  }

  lemma OverdueSplit(data: Data, gone: set<Str>, now: int)
    requires gone <= OverdueKeys(data, now)
    ensures gone + OverdueKeys(data - gone, now) == OverdueKeys(data, now)
  {
  }

  /** Removing the elements of `q + [x]` is removing those of `q` and then `x`. */
  lemma RemovedSnoc(s: State, q: seq<Str>, x: Str)
    ensures Removed(s, Elems(q + [x])) == Removed(Removed(s, Elems(q)), {x})
    ensures (q + [x])[..|q|] == q
  {
    assert Elems(q + [x]) == Elems(q) + {x};
    RemovedTwice(s, Elems(q), {x});
  }

  /** Before the first victim. */
  lemma PathEmpty(c: Config, s: State)
    ensures EvictionPath(c, s, []) && Removed(s, Elems([])) == s
  {
    assert Elems([]) == {};
    RemovedNothing(s);
  }

  /** One more victim extends an eviction path. */
  lemma PathSnoc(c: Config, s: State, victims: seq<Str>, v: Str)
    requires EvictionPath(c, s, victims)
    requires var m := Removed(s, Elems(victims));
      Over(c, m) && Candidate(c.policy, m, v) && (UsesHeap(c.policy) ==> v != [])
    ensures EvictionPath(c, s, victims + [v])
    ensures Removed(s, Elems(victims + [v])) == Removed(Removed(s, Elems(victims)), {v})
  {
    RemovedSnoc(s, victims, v);
    var vs := victims + [v];
    forall i | 0 <= i < |vs|
      ensures var m := Removed(s, Elems(vs[..i]));
        Over(c, m) && Candidate(c.policy, m, vs[i]) && (UsesHeap(c.policy) ==> vs[i] != [])
    {
      if i == |victims| {
        assert vs[..i] == victims;
      } else {
        assert vs[..i] == victims[..i];
      }
    }
  }

  /** Each victim leaves fewer keys to evict. */
  lemma PathShrinks(s: State, victims: seq<Str>, v: Str)
    requires v in Removed(s, Elems(victims)).data
    ensures |Removed(s, Elems(victims + [v])).data| < |Removed(s, Elems(victims)).data|
  {
    RemovedSnoc(s, victims, v);
    var data := Removed(s, Elems(victims)).data;
    assert data.Keys == (data - {v}).Keys + {v};
  }

  /** One position of an eviction path. */
  lemma PathAt(c: Config, s: State, victims: seq<Str>, i: nat)
    requires EvictionPath(c, s, victims) && i < |victims|
    ensures var m := Removed(s, Elems(victims[..i]));
      Over(c, m) && Candidate(c.policy, m, victims[i]) && victims[i] in m.data
  {
  }

  /** Eviction only starts over the limit. */
  lemma FirstVictim(c: Config, s: State, victims: seq<Str>)
    requires EvictionPath(c, s, victims) && victims != []
    ensures Over(c, s)
  {
    PathAt(c, s, victims, 0);
    assert victims[..0] == [];
    PathEmpty(c, s);
  }

  /** Eviction deletes its victims and touches nothing else of the data and the queue. */
  lemma EvictedParts(c: Config, s: State, victims: seq<Str>, s': State)
    requires EvictedBy(c, s, victims, s')
    ensures s'.data == s.data - Elems(victims) && s'.fifo == Without(s.fifo, Elems(victims))
    ensures forall v :: v in victims ==> v in s.data
  {
    forall v | v in victims ensures v in s.data {
      var i :| 0 <= i < |victims| && victims[i] == v;
      PathAt(c, s, victims, i);
    }
  }

  // ---------- Runs ----------

  /** Every prefix of a run is a run. */
  lemma RunPrefix(c: Config, ops: seq<Op>, states: seq<State>, n: nat)
    requires Run(c, ops, states) && n <= |ops|
    ensures |states| == |ops| + 1 && Run(c, ops[..n], states[..n + 1])
  {
    hide Step;
  }

  /** The last step of a run, and the run before it. */
  lemma RunFront(c: Config, ops: seq<Op>, states: seq<State>)
    requires Run(c, ops, states) && ops != []
    ensures var n := |ops| - 1;
      && |states| == n + 2
      && Run(c, ops[..n], states[..n + 1])
      && Allowed(ops[n]) && Step(c, states[n], ops[n], states[n + 1])
  {
    hide Step, Allowed;
  }

  /** A run goes on with any step. */
  lemma RunSnoc(c: Config, ops: seq<Op>, states: seq<State>, op: Op, s': State)
    requires Run(c, ops, states) && Allowed(op) && Step(c, states[|ops|], op, s')
    ensures Run(c, ops + [op], states + [s'])
  {
    hide Step;
    var ops', states' := ops + [op], states + [s'];
    forall i | 0 <= i < |ops'| ensures Allowed(ops'[i]) && Step(c, states'[i], ops'[i], states'[i + 1]) {
      if i < |ops| {
        assert Step(c, states[i], ops[i], states[i + 1]);
      }
    }
  }
}
