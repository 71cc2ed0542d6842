/**
 * The growable ring buffer of non-expiring keys inside the store
 * (pkg/store/store.go:79-85 and 471-562).
 *
 * A removed key is overwritten by the empty string, a tombstone. What the
 * ring means is `Live()`: the window of `size` slots that starts at `head`,
 * without its tombstones, oldest first.
 */
module FifoRing {
  import opened Bytes
  import opened Lists

  const INITIAL_CAPACITY := 1024

  /** The non-tombstone entries of a window, in order. */
  function Compact(w: seq<Str>): (q: seq<Str>)
    ensures |q| <= |w|
  {
    if w == [] then []
    else if w[0] == [] then Compact(w[1..])
    else [w[0]] + Compact(w[1..])
  }

  /** Position of the `i`-th slot after `head` in a ring of `cap` slots. */
  function Slot(head: nat, i: nat, cap: nat): (r: nat)
    requires head < cap && i <= cap
    ensures r < cap
  {
    if head + i < cap then head + i else head + i - cap
  }

  lemma MulMonotone(a: nat, b: nat, m: nat)
    requires a <= b
    ensures a * m <= b * m
  {
  }

  lemma RemainderOnce(x: nat, m: nat)
    requires m <= x < m + m
    ensures x % m == x - m
  {
    assert x == (x / m) * m + x % m;
    if x / m >= 2 {
      MulMonotone(2, x / m, m);
    }
  }

  /** The position the source computes with a remainder. */
  lemma SlotIsRemainder(head: nat, i: nat, cap: nat)
    requires head < cap && i <= cap
    ensures Slot(head, i, cap) == (head + i) % cap
  {
    if head + i >= cap {
      RemainderOnce(head + i, cap);
    }
  }

  /** The `size` slots of `ring` that start at `head`, wrapping once. */
  function WindowOf(ring: seq<Str>, head: nat, size: nat): (w: seq<Str>)
    requires head < |ring| && size <= |ring|
    ensures |w| == size
  {
    if head + size <= |ring| then ring[head..head + size]
    else ring[head..] + ring[..head + size - |ring|]
  }

  lemma WindowAt(ring: seq<Str>, head: nat, size: nat, i: nat)
    requires head < |ring| && i < size <= |ring|
    ensures WindowOf(ring, head, size)[i] == ring[Slot(head, i, |ring|)]
  {
  }

  /** Writing one slot of the window changes that entry and no other. */
  lemma WindowPut(ring: seq<Str>, head: nat, size: nat, i: nat, x: Str)
    requires head < |ring| && i < size <= |ring|
    ensures WindowOf(ring[Slot(head, i, |ring|) := x], head, size) == WindowOf(ring, head, size)[i := x]
  {
  }

  /** Writing the slot after the window and widening it appends. */
  lemma WindowPush(ring: seq<Str>, head: nat, size: nat, x: Str)
    requires head < |ring| && size < |ring|
    ensures WindowOf(ring[Slot(head, size, |ring|) := x], head, size + 1) == WindowOf(ring, head, size) + [x]
  {
  }

  /** Clearing the first slot and stepping over it drops the first entry. */
  lemma WindowPop(ring: seq<Str>, head: nat, size: nat, x: Str)
    requires head < |ring| && 0 < size < |ring|
    ensures WindowOf(ring[head := x], Slot(head, 1, |ring|), size - 1) == WindowOf(ring, head, size)[1..]
  {
  }

  lemma {:induction false} CompactConcat(a: seq<Str>, b: seq<Str>)
    ensures Compact(a + b) == Compact(a) + Compact(b)
  {
    if a == [] {
      assert a + b == b;
    } else {
      assert (a + b)[1..] == a[1..] + b;
      CompactConcat(a[1..], b);
    }
  }

  /** Appending one slot appends its key, unless it is a tombstone. */
  lemma CompactSnoc(w: seq<Str>, x: Str)
    ensures Compact(w + [x]) == if x == [] then Compact(w) else Compact(w) + [x]
  {
    CompactConcat(w, [x]);
    assert Compact([x]) == if x == [] then [] else [x];
  }

  lemma {:induction false} CompactNoTombstone(w: seq<Str>)
    ensures [] !in Compact(w)
    ensures forall x :: x in Compact(w) ==> x in w
  {
    if w != [] {
      CompactNoTombstone(w[1..]);
    }
  }

  /** Putting a tombstone over the first occurrence removes that key from the queue. */
  lemma {:induction false} CompactTombstone(w: seq<Str>, i: nat, key: Str)
    requires i < |w| && w[i] == key
    requires forall j :: 0 <= j < i ==> w[j] != key
    ensures Compact(w[i := []]) == RemoveFirst(Compact(w), key)
  {
    if key == [] {
      CompactNoTombstone(w);
      RemoveAbsent(Compact(w), key);
      assert w[i := []] == w;
    } else if i == 0 {
      assert w[0 := []][1..] == w[1..];
      assert Compact(w) == [key] + Compact(w[1..]);
    } else {
      assert w[i := []][1..] == w[1..][i - 1 := []];
      CompactTombstone(w[1..], i - 1, key);
      ConsRemove(w[0], Compact(w[1..]), key);
    }
  }

  lemma ConsRemove(x: Str, q: seq<Str>, key: Str)
    requires x != key
    ensures RemoveFirst([x] + q, key) == [x] + RemoveFirst(q, key)
  {
    assert ([x] + q)[1..] == q;
  }

  lemma CompactAbsent(w: seq<Str>, key: Str)
    requires key !in w
    ensures RemoveFirst(Compact(w), key) == Compact(w)
  {
    CompactNoTombstone(w);
    RemoveAbsent(Compact(w), key);
  }

  lemma {:induction false} CompactIdempotent(w: seq<Str>)
    ensures Compact(Compact(w)) == Compact(w)
  {
    if w != [] {
      CompactIdempotent(w[1..]);
      if w[0] != [] {
        assert ([w[0]] + Compact(w[1..]))[1..] == Compact(w[1..]);
      }
    }
  }

  class Ring {
    var keys: array<Str>
    var head: nat
    var tail: nat
    var size: nat
    var tombs: nat

    /** The shape every operation keeps: one slot is always free. */
    ghost predicate Valid()
      reads this
    {
      && 2 <= keys.Length
      && head < keys.Length
      && size < keys.Length
      && tail == Slot(head, size, keys.Length)
    }

    /** The slots in use, oldest first, tombstones included. */
    ghost function Window(): seq<Str>
      requires Valid()
      reads this, keys
    {
      WindowOf(keys[..], head, size)
    }

    /** The queue this ring stands for. */
    ghost function Live(): seq<Str>
      requires Valid()
      reads this, keys
    {
      Compact(Window())
    }

    lemma EmptyWindow()
      requires Valid() && size == 0
      ensures Live() == []
    {
    }

    constructor ()
      ensures Valid() && fresh(keys)
      ensures Live() == []
    {
      keys := new Str[INITIAL_CAPACITY](_ => []);
      head, tail, size, tombs := 0, 0, 0, 0;
    }

    /** Forgets every entry; the slots keep their contents (store.go:163). */
    method Reset()
      requires Valid()
      modifies this
      ensures Valid() && keys == old(keys) && Live() == []
    {
      head, tail, size, tombs := 0, 0, 0, 0;
    }

    /** addFIFOUnlocked: the key becomes the newest; a tombstone adds nothing. */
    method Add(key: Str)
      requires Valid()
      modifies this, keys
      ensures Valid() && (keys == old(keys) || fresh(keys))
      ensures Live() == if key == [] then old(Live()) else old(Live()) + [key]
    {
      hide Compact, WindowOf;
      EnsureCapacity();
      ghost var ring, w := keys[..], Window();
      keys[tail] := key;
      assert keys[..] == ring[tail := key];
      SlotIsRemainder(tail, 1, keys.Length);
      tail := (tail + 1) % keys.Length;
      if size < keys.Length {
        size := size + 1;
      } else {
        assert false;  // the overwrite-oldest branch (store.go:477-480)
      }
      WindowPush(ring, head, size - 1, key);
      CompactSnoc(w, key);
    }

    /** ensureFIFOCap: doubles the ring when only one slot is left. */
    method EnsureCapacity()
      requires Valid()
      modifies this
      ensures Valid() && (keys == old(keys) || fresh(keys))
      ensures size == old(size) && size + 1 < keys.Length
      ensures Window() == old(Window())
    {
      if size < keys.Length - 1 {
        return;
      }
      ghost var w := Window();
      var newKeys := new Str[keys.Length * 2](_ => []);
      var i := head;
      for cnt := 0 to size
        invariant i == Slot(head, cnt, keys.Length)
        invariant newKeys[..cnt] == w[..cnt]
        invariant Window() == w
        modifies newKeys
      {
        WindowAt(keys[..], head, size, cnt);
        newKeys[cnt] := keys[i];
        i := i + 1;
        if i == keys.Length {
          i := 0;
        }
      }
      keys := newKeys;
      head, tail, tombs := 0, size, 0;
      assert Window() == newKeys[..size] == w;
    }

    /** removeFIFOUnlocked: the first occurrence leaves the queue, if there is one. */
    method Remove(key: Str)
      requires Valid()
      modifies this, keys
      ensures Valid() && (keys == old(keys) || fresh(keys))
      ensures Live() == RemoveFirst(old(Live()), key)
      ensures size <= old(size)
    {
      hide Compact, WindowOf;
      ghost var w := Window();
      var i, cnt := head, 0;
      while cnt < size
        invariant cnt <= size == old(size) && Valid() && keys == old(keys)
        invariant Window() == w
        invariant i == Slot(head, cnt, keys.Length)
        invariant forall j :: 0 <= j < cnt ==> w[j] != key
      {
        WindowAt(keys[..], head, size, cnt);
        if keys[i] == key {
          break;
        }
        i := i + 1;
        if i == keys.Length {
          i := 0;
        }
        cnt := cnt + 1;
      }
      if cnt < size {
        ghost var ring := keys[..];
        keys[i] := [];
        assert keys[..] == ring[i := []];
        WindowPut(ring, head, size, cnt, []);
        CompactTombstone(w, cnt, key);
        tombs := tombs + 1;
      } else {
        CompactAbsent(w, key);
      }
      CompactIfNeeded();
    }

    /** popFIFO: takes the oldest key, or the empty string when no key is left. */
    method Pop() returns (key: Str)
      requires Valid()
      modifies this, keys
      ensures Valid() && keys == old(keys)
      ensures old(Live()) == [] ==> key == [] && Live() == [] && size == 0
      ensures old(Live()) != [] ==> key == old(Live())[0] && Live() == old(Live())[1..] && key != []
      ensures old(size) > 0 ==> size < old(size)
    {
      hide WindowOf;
      while size > 0
        invariant Valid() && keys == old(keys) && size <= old(size)
        invariant Live() == old(Live())
        decreases size
      {
        ghost var ring, w := keys[..], Window();
        WindowAt(ring, head, size, 0);
        WindowPop(ring, head, size, []);
        key := keys[head];
        keys[head] := [];
        assert keys[..] == ring[head := []];
        SlotIsRemainder(head, 1, keys.Length);
        head := (head + 1) % keys.Length;
        size := size - 1;
        assert Compact(w) == if key == [] then Live() else [key] + Live();
        if key != [] {
          return;
        }
      }
      key := [];
    }

    /** compactIfNeeded: drops tombstones once they are half of the window. */
    method CompactIfNeeded()
      requires Valid()
      modifies this
      ensures Valid() && (keys == old(keys) || fresh(keys))
      ensures Live() == old(Live())
      ensures size <= old(size)
    {
      if size == 0 {
        head, tail, tombs := 0, 0, 0;
        return;
      }
      if tombs < size / 2 {
        return;
      }
      CompactIdempotent(Window());
      var newKeys, idx := CopyLive();
      keys := newKeys;
      head, tail, size, tombs := 0, idx, idx, 0;
      assert Window() == newKeys[..idx];
    }

    /** The copying loop of compactIfNeeded (store.go:544-556). */
    method CopyLive() returns (newKeys: array<Str>, idx: nat)
      requires Valid()
      ensures fresh(newKeys) && newKeys.Length == keys.Length
      ensures idx <= size && newKeys[..idx] == Live()
    {
      hide WindowOf;
      ghost var w := Window();
      newKeys := new Str[keys.Length](_ => []);
      idx := 0;
      var i := head;
      for cnt := 0 to size
        invariant i == Slot(head, cnt, keys.Length)
        invariant idx <= cnt
        invariant newKeys[..idx] == Compact(w[..cnt])
        invariant Window() == w
        modifies newKeys
      {
        WindowAt(keys[..], head, size, cnt);
        assert w[..cnt + 1] == w[..cnt] + [w[cnt]];
        CompactSnoc(w[..cnt], w[cnt]);
        if keys[i] != [] {
          newKeys[idx] := keys[i];
          idx := idx + 1;
        }
        i := i + 1;
        if i == keys.Length {
          i := 0;
        }
      }
      assert w[..size] == w;
    }
  }
}
