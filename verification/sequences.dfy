/**
 Order-preserving removal of the elements of a sequence that satisfy a
 predicate. Every "remove the auto-generated items" step of the designer,
 and the exclusion of the technical status codes 404 and 422, is an
 instance of this one operation.
 */
module Sequences {

  /** The elements of `xs` for which `drop` is false, in their original order. */
  function RemoveWhere<T(!new)>(xs: seq<T>, drop: T -> bool): (r: seq<T>)
    ensures |r| <= |xs|
    ensures forall i :: 0 <= i < |r| ==> !drop(r[i])
    decreases xs
  {
    if |xs| == 0 then []
    else if drop(xs[0]) then RemoveWhere(xs[1..], drop)
      else [xs[0]] + RemoveWhere(xs[1..], drop)
  }

  /** Removal distributes over concatenation: what survives of `a` stays in front of what survives of `b`. */
  lemma {:induction false} RemoveWhereConcat<T(!new)>(a: seq<T>, b: seq<T>, drop: T -> bool)
    ensures RemoveWhere(a + b, drop) == RemoveWhere(a, drop) + RemoveWhere(b, drop)
    decreases a
  {
    if |a| == 0 {
      assert a + b == b;
    } else {
      assert (a + b)[0] == a[0];
      assert (a + b)[1..] == a[1..] + b;
      RemoveWhereConcat(a[1..], b, drop);
    }
  }

  /** A sequence with nothing to drop is returned unchanged. */
  lemma {:induction false} RemoveWhereKeepsAll<T(!new)>(xs: seq<T>, drop: T -> bool)
    requires forall i :: 0 <= i < |xs| ==> !drop(xs[i])
    ensures RemoveWhere(xs, drop) == xs
    decreases xs
  {
    if |xs| > 0 {
      RemoveWhereKeepsAll(xs[1..], drop);
      assert xs == [xs[0]] + xs[1..];
    }
  }

  /** Removing twice removes nothing more. */
  lemma RemoveWhereIdempotent<T(!new)>(xs: seq<T>, drop: T -> bool)
    ensures RemoveWhere(RemoveWhere(xs, drop), drop) == RemoveWhere(xs, drop)
  {
    RemoveWhereKeepsAll(RemoveWhere(xs, drop), drop);
  }

  /** An element survives exactly when it occurs and is not dropped. */
  lemma {:induction false} RemoveWhereMembers<T(!new)>(xs: seq<T>, drop: T -> bool, x: T)
    ensures x in RemoveWhere(xs, drop) <==> x in xs && !drop(x)
    decreases xs
  {
    if |xs| > 0 {
      RemoveWhereMembers(xs[1..], drop, x);
      assert xs == [xs[0]] + xs[1..];
    }
  }

  /** Every element keeps its multiplicity unless it is dropped. */
  lemma {:induction false} RemoveWhereCounts<T(!new)>(xs: seq<T>, drop: T -> bool, x: T)
    ensures multiset(RemoveWhere(xs, drop))[x] == if drop(x) then 0 else multiset(xs)[x]
    decreases xs
  {
    if |xs| > 0 {
      RemoveWhereCounts(xs[1..], drop, x);
      assert xs == [xs[0]] + xs[1..];
    }
  }

  /** A sequence whose every element is dropped leaves nothing. */
  lemma {:induction false} RemoveWhereDropsAll<T(!new)>(xs: seq<T>, drop: T -> bool)
    requires forall i :: 0 <= i < |xs| ==> drop(xs[i])
    ensures RemoveWhere(xs, drop) == []
  {
    if |xs| > 0 {
      RemoveWhereDropsAll(xs[1..], drop);
    }
  }

  /**
   Kept elements keep their relative order: a kept element splits the result
   into what is kept before it, itself, and what is kept after it.
   */
  lemma RemoveWhereSplit<T(!new)>(xs: seq<T>, drop: T -> bool, k: nat)
    requires k < |xs| && !drop(xs[k])
    ensures RemoveWhere(xs, drop) == RemoveWhere(xs[..k], drop) + [xs[k]] + RemoveWhere(xs[k+1..], drop)
  {
    var a, t, c := xs[..k], xs[k..], xs[k+1..];
    assert xs == a + t;
    assert t[1..] == c;
    RemoveWhereConcat(a, t, drop);
    var ra, rc := RemoveWhere(a, drop), RemoveWhere(c, drop);
    assert RemoveWhere(t, drop) == [xs[k]] + rc;
    assert ra + ([xs[k]] + rc) == ra + [xs[k]] + rc;
  }

  /** Dropped elements inserted anywhere as one block leave the result unchanged. */
  lemma RemoveWhereIgnoresDropped<T(!new)>(a: seq<T>, mid: seq<T>, b: seq<T>, drop: T -> bool)
    requires forall i :: 0 <= i < |mid| ==> drop(mid[i])
    ensures RemoveWhere(a + mid + b, drop) == RemoveWhere(a + b, drop)
  {
    var ra, rb := RemoveWhere(a, drop), RemoveWhere(b, drop);
    RemoveWhereDropsAll(mid, drop);
    RemoveWhereConcat(a, mid, drop);
    assert RemoveWhere(a + mid, drop) == ra by {
      assert ra + [] == ra;
    }
    RemoveWhereConcat(a + mid, b, drop);
    RemoveWhereConcat(a, b, drop);
  }
}
