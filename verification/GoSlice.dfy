/** Go slices, as far as this system uses them: the in-place filter idiom
    `kept := s[:0]; for _, x := range s { if keep(x) { kept = append(kept, x) } }`
    and `append` itself.  A slice is an array together with the length in use. */
module GoSlice {

  /** The elements of s that satisfy keep, in their original order. */
  function Filter<T>(s: seq<T>, keep: T -> bool): (r: seq<T>) {
    if s == [] then []
    else
      var front, last := Filter(s[..|s| - 1], keep), s[|s| - 1];
      if keep(last) then front + [last] else front
  }

  lemma FilterSnoc<T>(s: seq<T>, x: T, keep: T -> bool)
    ensures Filter(s + [x], keep) == if keep(x) then Filter(s, keep) + [x] else Filter(s, keep)
  {
    assert (s + [x])[..|s|] == s;
  }

  lemma {:induction false} FilterSound<T>(s: seq<T>, keep: T -> bool)
    ensures |Filter(s, keep)| <= |s|
    ensures forall x :: x in Filter(s, keep) <==> x in s && keep(x)
  {
    if s != [] {
      FilterSound(s[..|s| - 1], keep);
      assert s == s[..|s| - 1] + [s[|s| - 1]];
    }
  }

  /** Filtering twice, the second time with a narrower test, is filtering once. */
  lemma {:induction false} FilterNarrow<T>(s: seq<T>, wide: T -> bool, narrow: T -> bool)
    requires forall x :: x in s && narrow(x) ==> wide(x)
    ensures Filter(Filter(s, wide), narrow) == Filter(s, narrow)
  {
    if s != [] {
      var front, last := s[..|s| - 1], s[|s| - 1];
      assert last in s;
      FilterNarrow(front, wide, narrow);
      if wide(last) {
        FilterSnoc(Filter(front, wide), last, narrow);
      } else {
        assert Filter(s, wide) == Filter(front, wide);
        assert Filter(s, narrow) == Filter(front, narrow);
      }
    }
  }

  /** A narrower test keeps no more elements. */
  lemma {:induction false} FilterMonotone<T>(s: seq<T>, narrow: T -> bool, wide: T -> bool)
    requires forall x :: x in s && narrow(x) ==> wide(x)
    ensures |Filter(s, narrow)| <= |Filter(s, wide)|
  {
    if s != [] {
      assert s[|s| - 1] in s;
      FilterMonotone(s[..|s| - 1], narrow, wide);
    }
  }

  /** Tests that agree on the elements keep the same elements. */
  lemma {:induction false} FilterAgree<T>(s: seq<T>, p: T -> bool, q: T -> bool)
    requires forall x :: x in s ==> p(x) == q(x)
    ensures Filter(s, p) == Filter(s, q)
  {
    if s != [] {
      assert s[|s| - 1] in s;
      FilterAgree(s[..|s| - 1], p, q);
    }
  }

  lemma {:induction false} FilterNone<T>(s: seq<T>, keep: T -> bool)
    requires forall x :: x in s ==> !keep(x)
    ensures Filter(s, keep) == []
  {
    if s != [] {
      assert s[|s| - 1] in s;
      FilterNone(s[..|s| - 1], keep);
    }
  }

  lemma {:induction false} FilterAll<T>(s: seq<T>, keep: T -> bool)
    requires forall x <- s :: keep(x)
    ensures Filter(s, keep) == s
  {
    if s != [] {
      assert s == s[..|s| - 1] + [s[|s| - 1]] && s[|s| - 1] in s;
      FilterAll(s[..|s| - 1], keep);
    }
  }

  /** The two-index compaction: reads run ahead of writes in one array. */
  method CompactInPlace<T>(a: array<T>, n: nat, keep: T -> bool) returns (m: nat)
    requires n <= a.Length
    modifies a
    ensures m <= n
    ensures a[..m] == Filter(old(a[..n]), keep)
    ensures a[n..] == old(a[n..])
  {
    m := 0;
    for i := 0 to n
      invariant m <= i
      invariant a[..m] == Filter(old(a[..i]), keep)
      invariant a[i..] == old(a[i..])
    {
      ghost var kept := a[..m];
      assert a[i] == a[i..][0] == old(a[i..])[0];
      assert old(a[..i + 1]) == old(a[..i]) + [a[i]];
      FilterSnoc(old(a[..i]), a[i], keep);
      if keep(a[i]) {
        a[m] := a[i];
        m := m + 1;
        assert a[..m] == kept + [a[m - 1]];
      }
      assert a[i + 1..] == a[i..][1..] == old(a[i..])[1..] == old(a[i + 1..]);
    }
  }

  /** Go's append of one element: in place when the array has room, else a larger copy. */
  method Append<T>(a: array<T>, n: nat, x: T) returns (b: array<T>)
    requires n <= a.Length
    modifies a
    ensures n < b.Length
    ensures b[..n + 1] == old(a[..n]) + [x]
    ensures b == a || fresh(b)
  {
    if n < a.Length {
      b := a;
    } else {
      b := new T[2 * n + 1](_ => x);
      for i := 0 to n
        invariant a[..] == old(a[..])
        invariant b[..i] == a[..i]
      {
        b[i] := a[i];
      }
    }
    b[n] := x;
    assert b[..n] == old(a[..n]);
  }
}
