/** Lists from which single elements are removed: the key queue, a channel's subscribers. */
module Lists {

  ghost predicate NoDuplicates<T>(q: seq<T>) {
    forall i, j :: 0 <= i < j < |q| ==> q[i] != q[j]
  }

  /** The list without the first occurrence of `x`. */
  function RemoveFirst<T(==)>(q: seq<T>, x: T): seq<T> {
    if q == [] then []
    else if q[0] == x then q[1..]
    else [q[0]] + RemoveFirst(q[1..], x)
  }

  lemma {:induction false} RemoveAbsent<T>(q: seq<T>, x: T)
    requires x !in q
    ensures RemoveFirst(q, x) == q
  {
    if q != [] {
      RemoveAbsent(q[1..], x);
    }
  }

  lemma {:induction false} RemoveAt<T>(q: seq<T>, i: nat, x: T)
    requires i < |q| && q[i] == x && x !in q[..i]
    ensures RemoveFirst(q, x) == q[..i] + q[i + 1..]
  {
    if i > 0 {
      assert q[0] == q[..i][0];
      assert q[1..][..i - 1] == q[..i][1..];
      RemoveAt(q[1..], i - 1, x);
    }
  }

  lemma {:induction false} RemoveFacts<T>(q: seq<T>, x: T)
    requires NoDuplicates(q)
    ensures NoDuplicates(RemoveFirst(q, x))
    ensures forall k :: k in RemoveFirst(q, x) <==> k in q && k != x
  {
    if q != [] {
      RemoveFacts(q[1..], x);
      assert NoDuplicates(q[1..]);
      if q[0] == x {
        assert forall k :: k in q[1..] ==> k != x;
      } else {
        assert q[0] !in RemoveFirst(q[1..], x);
      }
    }
  }

  lemma AppendNew<T>(q: seq<T>, x: T)
    requires NoDuplicates(q) && x !in q
    ensures NoDuplicates(q + [x])
  {
    forall i, j | 0 <= i < j < |q + [x]| ensures (q + [x])[i] != (q + [x])[j] {
      assert (q + [x])[i] == q[i] && q[i] in q;
    }
  }

  /** A list without duplicates has as many entries as elements. */
  lemma {:induction false} DistinctCount<T>(q: seq<T>)
    requires NoDuplicates(q)
    ensures |set x | x in q| == |q|
  {
    if q != [] {
      var rest := q[1..];
      DistinctCount(rest);
      assert (set x | x in q) == (set x | x in rest) + {q[0]};
    }
  }
}
