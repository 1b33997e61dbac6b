/**
 * Sorting by a comparator, as `Array.prototype.sort(cmp)`: `leq(a, b)` holds
 * when `cmp(a, b) <= 0`, i.e. `a` may stand before `b`. The comparators the
 * views pass are total preorders (ties are possible: two events at the same
 * time). `Sort` is the value-level sort of a fresh array; `SortArray`
 * sorts an existing array in place.
 */
module Sorting {

  ghost predicate TotalPreorder<T(!new)>(leq: (T, T) -> bool) {
    && (forall x, y :: leq(x, y) || leq(y, x))
    && (forall x, y, z :: leq(x, y) && leq(y, z) ==> leq(x, z))
  }

  ghost predicate SortedBy<T>(s: seq<T>, leq: (T, T) -> bool) {
    forall i, j :: 0 <= i < j < |s| ==> leq(s[i], s[j])
  }

  /** Inserts `x` after every element that does not sort strictly after it. */
  function Insert<T(!new)>(x: T, s: seq<T>, leq: (T, T) -> bool): (r: seq<T>)
    requires TotalPreorder(leq) && SortedBy(s, leq)
    ensures SortedBy(r, leq)
    ensures multiset(r) == multiset(s) + multiset{x}
  {
    if s == [] then [x]
    else if leq(x, s[0]) && !leq(s[0], x) then
      [x] + s
    else
      var rest := Insert(x, s[1..], leq);
      assert s == [s[0]] + s[1..];
      InsertBehind(s[0], x, s[1..], rest, leq);
      [s[0]] + rest
  }

  /** `x` goes behind the head `h`: the head still precedes everything once `x` is among the rest. */
  lemma InsertBehind<T(!new)>(h: T, x: T, tail: seq<T>, rest: seq<T>, leq: (T, T) -> bool)
    requires TotalPreorder(leq) && SortedBy([h] + tail, leq)
    requires !(leq(x, h) && !leq(h, x))
    requires SortedBy(rest, leq) && multiset(rest) == multiset(tail) + multiset{x}
    ensures SortedBy([h] + rest, leq)
  {
    assert leq(h, x);
    forall j | 0 <= j < |rest| ensures leq(h, rest[j]) {
      assert rest[j] in multiset(rest);
      if rest[j] != x {
        assert rest[j] in tail;
        var k :| 0 <= k < |tail| && tail[k] == rest[j];
        assert ([h] + tail)[0] == h && ([h] + tail)[k + 1] == rest[j];
      }
    }
    ConsSorted(h, rest, leq);
  }

  lemma ConsSorted<T>(h: T, rest: seq<T>, leq: (T, T) -> bool)
    requires SortedBy(rest, leq)
    requires forall j :: 0 <= j < |rest| ==> leq(h, rest[j])
    ensures SortedBy([h] + rest, leq)
  {
    var t := [h] + rest;
    forall i, j | 0 <= i < j < |t| ensures leq(t[i], t[j]) {
      assert t[j] == rest[j - 1];
      if i > 0 {
        assert t[i] == rest[i - 1];
      }
    }
  }

  /** Insertion sort: sorted, and a permutation of the input. */
  function Sort<T(!new)>(s: seq<T>, leq: (T, T) -> bool): (r: seq<T>)
    requires TotalPreorder(leq)
    ensures SortedBy(r, leq)
    ensures multiset(r) == multiset(s)
    ensures |r| == |s|
  {
    if s == [] then []
    else
      var r := Insert(s[|s| - 1], Sort(s[..|s| - 1], leq), leq);
      assert s == s[..|s| - 1] + [s[|s| - 1]];
      assert |r| == |multiset(r)|;
      r
  }

  /** In-place insertion sort of `a`. */
  method SortArray<T(!new)>(a: array<T>, leq: (T, T) -> bool)
    requires TotalPreorder(leq)
    modifies a
    ensures SortedBy(a[..], leq)
    ensures multiset(a[..]) == multiset(old(a[..]))
  {
    var i := 0;
    while i < a.Length
      invariant 0 <= i <= a.Length
      invariant SortedBy(a[..i], leq)
      invariant multiset(a[..]) == multiset(old(a[..]))
    {
      StartSinking(a[..], i, leq);
      var j := i;
      while j > 0 && !leq(a[j - 1], a[j])
        invariant 0 <= j <= i
        invariant Sinking(a[..], i, j, leq)
        invariant multiset(a[..]) == multiset(old(a[..]))
      {
        ghost var s := a[..];
        SinkStep(s, i, j, leq);
        SwapKeepsMultiset(s, j);
        a[j - 1], a[j] := a[j], a[j - 1];
        j := j - 1;
      }
      DoneSinking(a[..], i, j, leq);
      i := i + 1;
    }
    assert a[..] == a[..a.Length];
  }

  /**
   * The state of the inner loop: `s[..i + 1]` is sorted except that the element
   * at `j`, still sinking, may not follow what stands before it; it already
   * precedes everything behind it.
   */
  ghost predicate Sinking<T>(s: seq<T>, i: nat, j: nat, leq: (T, T) -> bool)
    requires j <= i < |s|
  {
    && (forall p, q :: 0 <= p < q <= i && p != j && q != j ==> leq(s[p], s[q]))
    && (forall q :: j < q <= i ==> leq(s[j], s[q]))
  }

  lemma StartSinking<T>(s: seq<T>, i: nat, leq: (T, T) -> bool)
    requires i < |s| && SortedBy(s[..i], leq)
    ensures Sinking(s, i, i, leq)
  {
    forall p, q | 0 <= p < q <= i && p != i && q != i ensures leq(s[p], s[q]) {
      assert s[..i][p] == s[p] && s[..i][q] == s[q];
    }
  }

  lemma SinkStep<T(!new)>(s: seq<T>, i: nat, j: nat, leq: (T, T) -> bool)
    requires TotalPreorder(leq)
    requires 0 < j <= i < |s| && Sinking(s, i, j, leq) && !leq(s[j - 1], s[j])
    ensures Sinking(s[j - 1 := s[j]][j := s[j - 1]], i, j - 1, leq)
  {
    var t := s[j - 1 := s[j]][j := s[j - 1]];
    assert leq(s[j], s[j - 1]);
    forall p, q | 0 <= p < q <= i && p != j - 1 && q != j - 1 ensures leq(t[p], t[q]) {
      if q == j && p < j - 1 {
        assert leq(s[p], s[j - 1]);
      }
    }
  }

  lemma SwapKeepsMultiset<T>(s: seq<T>, j: nat)
    requires 0 < j < |s|
    ensures multiset(s[j - 1 := s[j]][j := s[j - 1]]) == multiset(s)
  {
  }

  lemma DoneSinking<T(!new)>(s: seq<T>, i: nat, j: nat, leq: (T, T) -> bool)
    requires TotalPreorder(leq)
    requires j <= i < |s| && Sinking(s, i, j, leq) && (j == 0 || leq(s[j - 1], s[j]))
    ensures SortedBy(s[..i + 1], leq)
  {
    forall p, q | 0 <= p < q <= i ensures leq(s[p], s[q]) {
      if p == j {
      } else if q == j {
        if p < j - 1 {
          assert leq(s[p], s[j - 1]);
        }
      }
    }
  }

  /** Cutting a sorted sequence: nothing after the cut sorts strictly before anything in front of it. */
  lemma PrefixPrecedesRest<T(!new)>(s: seq<T>, k: nat, leq: (T, T) -> bool)
    requires SortedBy(s, leq) && k <= |s|
    ensures forall x, y :: x in s[..k] && y in multiset(s[k..]) ==> leq(x, y)
  {
    forall x, y | x in s[..k] && y in multiset(s[k..]) ensures leq(x, y) {
      var p :| 0 <= p < k && s[..k][p] == x;
      assert y in s[k..];
      var q :| 0 <= q < |s| - k && s[k..][q] == y;
      assert s[p] == x && s[k + q] == y;
    }
  }

  /**
   * A prefix `r` of a sort of `s`: sorted, drawn from `s`, and nothing of `s`
   * it leaves out sorts strictly before anything it keeps.
   */
  lemma TakeSorted<T(!new)>(s: seq<T>, sorted: seq<T>, r: seq<T>, leq: (T, T) -> bool)
    requires SortedBy(sorted, leq) && multiset(sorted) == multiset(s)
    requires |r| <= |sorted| && r == sorted[..|r|]
    ensures SortedBy(r, leq)
    ensures multiset(r) <= multiset(s)
    ensures forall x :: x in r ==> x in s
    ensures forall x, y :: x in r && y in multiset(s) - multiset(r) ==> leq(x, y)
  {
    assert sorted == r + sorted[|r|..];
    assert multiset(sorted) == multiset(r) + multiset(sorted[|r|..]);
    PrefixPrecedesRest(sorted, |r|, leq);
    forall x | x in r ensures x in s {
      assert x in multiset(sorted);
    }
  }
}
