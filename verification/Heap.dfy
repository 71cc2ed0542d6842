/**
 * The versioned min-heaps behind LRU and LFU eviction
 * (pkg/store/store.go:594-642), sifted the way Go's container/heap does.
 *
 * The two heaps of the source differ only in their `Less`; here one entry type
 * carries the fields of both and `byFreq` selects the order.
 */
module MinHeaps {
  import opened Bytes

  datatype Entry = Entry(key: Str, freq: int, ts: int, version: int)

  /** lruMinHeap.Less (by timestamp) or lfuMinHeap.Less (by frequency, then timestamp). */
  predicate Less(byFreq: bool, a: Entry, b: Entry) {
    if byFreq && a.freq != b.freq then a.freq < b.freq else a.ts < b.ts
  }

  function Parent(i: nat): nat
    requires i > 0
  {
    (i - 1) / 2
  }

  predicate IsParent(p: int, i: int) {
    0 < i && p == (i - 1) / 2
  }

  /** No entry of `h[..n]` is below its parent. */
  ghost predicate Ordered(byFreq: bool, h: seq<Entry>, n: nat)
    requires n <= |h|
  {
    forall p, i {:trigger IsParent(p, i)} :: IsParent(p, i) && i < n ==> !Less(byFreq, h[i], h[p])
  }

  /** Order is broken at most between `k` and its parent (sifting up). */
  ghost predicate OrderedAbove(byFreq: bool, h: seq<Entry>, k: nat)
    requires k < |h|
  {
    && (forall p, i {:trigger IsParent(p, i)} ::
          IsParent(p, i) && i < |h| && i != k ==> !Less(byFreq, h[i], h[p]))
    && (forall g, i {:trigger IsParent(g, k), IsParent(k, i)} ::
          IsParent(g, k) && IsParent(k, i) && i < |h| ==> !Less(byFreq, h[i], h[g]))
  }

  /** Order of `h[..n]` is broken at most between `k` and its children (sifting down). */
  ghost predicate OrderedBelow(byFreq: bool, h: seq<Entry>, n: nat, k: nat)
    requires n <= |h|
  {
    && (forall p, i {:trigger IsParent(p, i)} ::
          IsParent(p, i) && i < n && p != k ==> !Less(byFreq, h[i], h[p]))
    && (forall g, i {:trigger IsParent(g, k), IsParent(k, i)} ::
          IsParent(g, k) && IsParent(k, i) && i < n ==> !Less(byFreq, h[i], h[g]))
  }

  function Swap(h: seq<Entry>, i: nat, j: nat): (r: seq<Entry>)
    requires i < |h| && j < |h|
    ensures |r| == |h|
  {
    h[i := h[j]][j := h[i]]
  }

  lemma SwapPermutes(h: seq<Entry>, i: nat, j: nat)
    requires i < |h| && j < |h|
    ensures multiset(Swap(h, i, j)) == multiset(h)
  {
  }

  /** In heap order the root is minimal. */
  lemma {:induction false} RootMinimal(byFreq: bool, h: seq<Entry>, i: nat)
    requires Ordered(byFreq, h, |h|) && i < |h|
    ensures !Less(byFreq, h[i], h[0])
    decreases i
  {
    if i > 0 {
      assert IsParent(Parent(i), i);
      RootMinimal(byFreq, h, Parent(i));
    }
  }

  /** One round of sifting up. */
  lemma SiftUp(byFreq: bool, h: seq<Entry>, j: nat)
    requires 0 < j < |h| && OrderedAbove(byFreq, h, j) && Less(byFreq, h[j], h[Parent(j)])
    ensures OrderedAbove(byFreq, Swap(h, Parent(j), j), Parent(j))
  {
    var p, r := Parent(j), Swap(h, Parent(j), j);
    assert IsParent(p, j);
    forall q, i | IsParent(q, i) && i < |h| && i != p ensures !Less(byFreq, r[i], r[q]) {
    }
    forall g, i | IsParent(g, p) && IsParent(p, i) && i < |h| ensures !Less(byFreq, r[i], r[g]) {
      assert !Less(byFreq, h[p], h[g]);
    }
  }

  /** `j` is a child of `k` that no child of `k` is below. */
  ghost predicate SmallestChild(byFreq: bool, h: seq<Entry>, n: nat, k: nat, j: nat)
    requires n <= |h|
  {
    && j < n && IsParent(k, j)
    && forall i :: IsParent(k, i) && i < n ==> !Less(byFreq, h[i], h[j])
  }

  /** The child that container/heap picks is a smallest one. */
  lemma PickChild(byFreq: bool, h: seq<Entry>, n: nat, k: nat)
    requires n <= |h| && 2 * k + 1 < n
    ensures var j := 2 * k + 1;
      SmallestChild(byFreq, h, n, k, if j + 1 < n && Less(byFreq, h[j + 1], h[j]) then j + 1 else j)
  {
  }

  /** Sifting down ends when the smallest child is not below its parent. */
  lemma SiftedDown(byFreq: bool, h: seq<Entry>, n: nat, k: nat, j: nat)
    requires n <= |h| && OrderedBelow(byFreq, h, n, k)
    requires SmallestChild(byFreq, h, n, k, j) && !Less(byFreq, h[j], h[k])
    ensures Ordered(byFreq, h, n)
  {
  }

  /** One round of sifting down, to the smallest child `j`. */
  lemma SiftDown(byFreq: bool, h: seq<Entry>, n: nat, k: nat, j: nat)
    requires n <= |h| && OrderedBelow(byFreq, h, n, k)
    requires SmallestChild(byFreq, h, n, k, j) && Less(byFreq, h[j], h[k])
    ensures OrderedBelow(byFreq, Swap(h, k, j), n, j)
  {
    var r := Swap(h, k, j);
    forall p, i | IsParent(p, i) && i < n && p != j ensures !Less(byFreq, r[i], r[p]) {
      if i == k {
        assert IsParent(k, j);
      }
    }
    forall g, i | IsParent(g, j) && IsParent(j, i) && i < n ensures !Less(byFreq, r[i], r[g]) {
    }
  }

  class MinHeap {
    const byFreq: bool
    var entries: seq<Entry>

    ghost predicate Valid()
      reads this
    {
      Ordered(byFreq, entries, |entries|)
    }

    /** What the heap holds; the layout does not matter to its clients. */
    ghost function Contents(): multiset<Entry>
      reads this
    {
      multiset(entries)
    }

    lemma EmptyContents()
      requires |entries| == 0
      ensures Contents() == multiset{}
    {
    }

    constructor (byFreq: bool)
      ensures Valid() && Contents() == multiset{} && this.byFreq == byFreq
    {
      this.byFreq := byFreq;
      entries := [];
    }

    /** heap.Push */
    method Push(e: Entry)
      requires Valid()
      modifies this
      ensures Valid() && Contents() == old(Contents()) + multiset{e}
    {
      entries := entries + [e];
      var last := |entries| - 1;
      assert forall i :: IsParent(last, i) ==> i > last;
      Up(last);
    }

    /** up in container/heap */
    method Up(k: nat)
      requires k < |entries| && OrderedAbove(byFreq, entries, k)
      modifies this
      ensures Valid() && Contents() == old(Contents())
    {
      var j := k;
      while j > 0 && Less(byFreq, entries[j], entries[Parent(j)])
        invariant 0 <= j < |entries| == old(|entries|)
        invariant OrderedAbove(byFreq, entries, j)
        invariant Contents() == old(Contents())
      {
        var i := Parent(j);
        SiftUp(byFreq, entries, j);
        SwapPermutes(entries, i, j);
        entries := Swap(entries, i, j);
        j := i;
      }
    }

    /** heap.Pop: removes and returns an entry that no other entry is below. */
    method Pop() returns (e: Entry)
      requires Valid() && |entries| > 0
      modifies this
      ensures Valid()
      ensures old(Contents()) == Contents() + multiset{e}
      ensures |entries| == old(|entries|) - 1
      ensures forall x :: x in old(Contents()) ==> !Less(byFreq, x, e)
      ensures forall x :: x in old(Contents()) ==>
        if byFreq then e.freq < x.freq || (e.freq == x.freq && e.ts <= x.ts) else e.ts <= x.ts
    {
      forall x | x in entries ensures !Less(byFreq, x, entries[0]) {
        var i :| 0 <= i < |entries| && entries[i] == x;
        RootMinimal(byFreq, entries, i);
      }
      var n := |entries| - 1;
      SwapPermutes(entries, 0, n);
      entries := Swap(entries, 0, n);
      Down(0, n);
      e := entries[n];
      assert entries == entries[..n] + [e];
      entries := entries[..n];
    }

    /** down in container/heap */
    method Down(k: nat, n: nat)
      requires n < |entries| && OrderedBelow(byFreq, entries, n, k)
      modifies this
      ensures |entries| == old(|entries|) && entries[n] == old(entries[n])
      ensures Ordered(byFreq, entries, n) && Contents() == old(Contents())
    {
      var i := k;
      while 2 * i + 1 < n
        invariant 0 <= i && |entries| == old(|entries|) && entries[n] == old(entries[n])
        invariant OrderedBelow(byFreq, entries, n, i)
        invariant Contents() == old(Contents())
      {
        PickChild(byFreq, entries, n, i);
        var j := 2 * i + 1;
        if j + 1 < n && Less(byFreq, entries[j + 1], entries[j]) {
          j := j + 1;
        }
        if !Less(byFreq, entries[j], entries[i]) {
          SiftedDown(byFreq, entries, n, i, j);
          return;
        }
        SiftDown(byFreq, entries, n, i, j);
        SwapPermutes(entries, i, j);
        entries := Swap(entries, i, j);
        i := j;
      }
      assert forall c :: IsParent(i, c) ==> c >= n;
    }
  }
}
