/** Filtering a list: what the comprehensions and the collecting loops of the repository have in common. */
module Selection {
  /** Order-preserving selection. */
  function Select<T>(items: seq<T>, keep: T -> bool): seq<T> {
    if items == [] then []
    else Select(items[..|items| - 1], keep) + if keep(items[|items| - 1]) then [items[|items| - 1]] else []
  }

  lemma {:induction false} SelectMembers<T>(items: seq<T>, keep: T -> bool)
    ensures forall i :: i in Select(items, keep) <==> i in items && keep(i)
    ensures Unique(items) ==> Unique(Select(items, keep))
  {
    if items != [] {
      SelectMembers(items[..|items| - 1], keep);
      assert items == items[..|items| - 1] + [items[|items| - 1]];
    }
  }

  /** Only the verdicts on the listed items matter. */
  lemma {:induction false} SelectSame<T>(items: seq<T>, p: T -> bool, q: T -> bool)
    requires forall k | 0 <= k < |items| :: p(items[k]) == q(items[k])
    ensures Select(items, p) == Select(items, q)
  {
    if items != [] {
      var n := |items| - 1;
      SelectSame(items[..n], p, q);
    }
  }

  /** Two selections in a row are one selection by both. */
  lemma {:induction false} SelectTwice<T>(items: seq<T>, p: T -> bool, q: T -> bool, both: T -> bool)
    requires forall k | 0 <= k < |items| :: both(items[k]) == (p(items[k]) && q(items[k]))
    ensures Select(Select(items, p), q) == Select(items, both)
  {
    if items != [] {
      var n := |items| - 1;
      SelectTwice(items[..n], p, q, both);
      if p(items[n]) {
        var before := Select(items[..n], p);
        assert (before + [items[n]])[..|before|] == before;
      } else {
        assert Select(items, p) == Select(items[..n], p);
      }
    }
  }

  lemma {:induction false} SelectSwap<T>(items: seq<T>, p: T -> bool, q: T -> bool, r: T -> bool)
    requires forall k | 0 <= k < |items| :: q(items[k]) == r(items[k])
    ensures Select(Select(items, p), q) == Select(Select(items, r), p)
  {
    SelectTwice(items, p, q, i => p(i) && q(i));
    SelectTwice(items, r, p, i => p(i) && q(i));
  }

  lemma {:induction false} SelectConcat<T>(a: seq<T>, b: seq<T>, p: T -> bool)
    ensures Select(a + b, p) == Select(a, p) + Select(b, p)
    decreases |b|
  {
    if b == [] {
      assert a + b == a;
    } else {
      var n := |b| - 1;
      assert (a + b)[..|a + b| - 1] == a + b[..n] && (a + b)[|a + b| - 1] == b[n];
      SelectConcat(a, b[..n], p);
    }
  }

  lemma {:induction false} NothingSelected<T>(items: seq<T>, p: T -> bool)
    requires forall k | 0 <= k < |items| :: !p(items[k])
    ensures Select(items, p) == []
  {
    if items != [] {
      NothingSelected(items[..|items| - 1], p);
    }
  }

  lemma {:induction false} NothingDropped<T>(items: seq<T>, drop: T -> bool, stay: T -> bool)
    requires forall k | 0 <= k < |items| :: stay(items[k]) == !drop(items[k])
    ensures Select(items, drop) == [] ==> Select(items, stay) == items
  {
    if items != [] {
      var n := |items| - 1;
      NothingDropped(items[..n], drop, stay);
      assert items == items[..n] + [items[n]];
    }
  }

  // ----- Lists without duplicates

  predicate Unique<T(==)>(items: seq<T>) {
    forall i, j | 0 <= i < j < |items| :: items[i] != items[j]
  }

  lemma UniqueConcat<T>(a: seq<T>, b: seq<T>)
    requires Unique(a) && Unique(b) && forall i | i in b :: i !in a
    ensures Unique(a + b)
  {
    forall i, j | 0 <= i < j < |a + b| ensures (a + b)[i] != (a + b)[j] {
      if i < |a| <= j {
        assert b[j - |a|] in b && a[i] in a;
      }
    }
  }

  lemma {:induction false} SameMembers<T>(a: seq<T>, b: seq<T>)
    requires Unique(a) && Unique(b)
    requires (forall k | 0 <= k < |a| :: a[k] in b) && forall k | 0 <= k < |b| :: b[k] in a
    ensures multiset(a) == multiset(b)
  {
    forall i ensures multiset(a)[i] == multiset(b)[i] {
      Occurs(a, i);
      Occurs(b, i);
    }
  }

  lemma {:induction false} Occurs<T>(a: seq<T>, i: T)
    requires Unique(a)
    ensures multiset(a)[i] == if i in a then 1 else 0
  {
    if a != [] {
      var n := |a| - 1;
      assert a == a[..n] + [a[n]];
      Occurs(a[..n], i);
    }
  }
}
