/**
 * The three agenda collections are arrays of records keyed by a string `id`.
 * Every updater of the store is one of two shapes over such an array:
 * `prev.map(x => x.id === id ? f(x) : x)` or `prev.filter(x => x.id !== id)`.
 * This module states those two shapes once, generically in the record type,
 * with `idOf` reading a record's id.
 */
module Collection {

  /** The ids present in `s`. */
  function Ids<T>(s: seq<T>, idOf: T -> string): (r: set<string>)
    ensures forall i :: 0 <= i < |s| ==> idOf(s[i]) in r
    ensures forall k :: k in r ==> exists i :: 0 <= i < |s| && idOf(s[i]) == k
  {
    set i | 0 <= i < |s| :: idOf(s[i])
  }

  /** No two records of `s` share an id. */
  ghost predicate UniqueIds<T>(s: seq<T>, idOf: T -> string) {
    forall i, j :: 0 <= i < j < |s| ==> idOf(s[i]) != idOf(s[j])
  }

  /** How many records of `s` carry `id`. */
  function CountId<T>(s: seq<T>, idOf: T -> string, id: string): (r: nat)
    ensures r <= |s|
    ensures r == 0 <==> id !in Ids(s, idOf)
  {
    if s == [] then 0
    else (if idOf(s[0]) == id then 1 else 0) + CountId(s[1..], idOf, id)
  }

  /** `a` is `b` with some elements left out, the rest in their original order. */
  ghost predicate IsSubsequence<T>(a: seq<T>, b: seq<T>)
    decreases |b|
  {
    a == [] || (b != [] && ((a[0] == b[0] && IsSubsequence(a[1..], b[1..])) || IsSubsequence(a, b[1..])))
  }

  /** `s.map(x => x.id === id ? f(x) : x)` */
  function MapMatching<T>(s: seq<T>, idOf: T -> string, id: string, f: T -> T): (r: seq<T>)
    ensures |r| == |s|
    ensures forall i :: 0 <= i < |s| && idOf(s[i]) == id ==> r[i] == f(s[i])
    ensures forall i :: 0 <= i < |s| && idOf(s[i]) != id ==> r[i] == s[i]
  {
    if s == [] then []
    else [if idOf(s[0]) == id then f(s[0]) else s[0]] + MapMatching(s[1..], idOf, id, f)
  }

  /** `s.filter(x => x.id !== id)` */
  function RemoveMatching<T(!new)>(s: seq<T>, idOf: T -> string, id: string): (r: seq<T>)
    ensures forall x :: x in r <==> x in s && idOf(x) != id
    ensures |r| == |s| - CountId(s, idOf, id)
    ensures IsSubsequence(r, s)
  {
    if s == [] then []
    else if idOf(s[0]) == id then RemoveMatching(s[1..], idOf, id)
    else
      var r := [s[0]] + RemoveMatching(s[1..], idOf, id);
      assert r[1..] == RemoveMatching(s[1..], idOf, id);
      r
  }

  /** Updating an id that no record carries gives back the same collection. */
  lemma MapMatchingAbsent<T>(s: seq<T>, idOf: T -> string, id: string, f: T -> T)
    requires id !in Ids(s, idOf)
    ensures MapMatching(s, idOf, id, f) == s
  {
  }

  /**
   * Applying the same change twice is applying it once, for any change `f` that is
   * idempotent on the records it keeps matching (a merge of fixed fields is).
   */
  lemma MapMatchingIdempotent<T>(s: seq<T>, idOf: T -> string, id: string, f: T -> T)
    requires forall x :: idOf(x) == id && idOf(f(x)) == id ==> f(f(x)) == f(x)
    ensures MapMatching(MapMatching(s, idOf, id, f), idOf, id, f) == MapMatching(s, idOf, id, f)
  {
    var once := MapMatching(s, idOf, id, f);
    var twice := MapMatching(once, idOf, id, f);
    forall i | 0 <= i < |s|
      ensures twice[i] == once[i]
    {
      if idOf(s[i]) == id && idOf(f(s[i])) == id {
        assert once[i] == f(s[i]);
      }
    }
  }

  /** A change that keeps the id and undoes itself, applied twice, restores the collection. */
  lemma MapMatchingInvolution<T>(s: seq<T>, idOf: T -> string, id: string, f: T -> T)
    requires forall x :: idOf(x) == id ==> idOf(f(x)) == id && f(f(x)) == x
    ensures MapMatching(MapMatching(s, idOf, id, f), idOf, id, f) == s
  {
    var once := MapMatching(s, idOf, id, f);
    var twice := MapMatching(once, idOf, id, f);
    forall i | 0 <= i < |s|
      ensures twice[i] == s[i]
    {
      if idOf(s[i]) == id {
        assert once[i] == f(s[i]);
      }
    }
  }

  /** A change that keeps ids keeps them unique. */
  lemma MapMatchingKeepsUniqueIds<T>(s: seq<T>, idOf: T -> string, id: string, f: T -> T)
    requires UniqueIds(s, idOf)
    requires forall x :: idOf(f(x)) == idOf(x)
    ensures Ids(MapMatching(s, idOf, id, f), idOf) == Ids(s, idOf)
    ensures UniqueIds(MapMatching(s, idOf, id, f), idOf)
  {
    var r := MapMatching(s, idOf, id, f);
    assert forall i :: 0 <= i < |s| ==> idOf(r[i]) == idOf(s[i]);
  }

  /** Removing by id leaves the collection unchanged when the id is absent. */
  lemma {:induction false} RemoveMatchingAbsent<T(!new)>(s: seq<T>, idOf: T -> string, id: string)
    requires id !in Ids(s, idOf)
    ensures RemoveMatching(s, idOf, id) == s
  {
    if s != [] {
      assert Ids(s[1..], idOf) <= Ids(s, idOf) by {
        forall k | k in Ids(s[1..], idOf) ensures k in Ids(s, idOf) {
          var i :| 0 <= i < |s[1..]| && idOf(s[1..][i]) == k;
          assert idOf(s[i + 1]) == k;
        }
      }
      RemoveMatchingAbsent(s[1..], idOf, id);
    }
  }

  /** Leaving records out of a collection with unique ids keeps them unique. */
  lemma {:induction false} SubsequenceKeepsUniqueIds<T>(a: seq<T>, b: seq<T>, idOf: T -> string)
    requires IsSubsequence(a, b) && UniqueIds(b, idOf)
    ensures UniqueIds(a, idOf)
    decreases |b|
  {
    if a != [] && b != [] {
      assert UniqueIds(b[1..], idOf) by {
        forall i, j | 0 <= i < j < |b[1..]| ensures idOf(b[1..][i]) != idOf(b[1..][j]) {
          assert b[1..][i] == b[i + 1] && b[1..][j] == b[j + 1];
        }
      }
      if a[0] == b[0] && IsSubsequence(a[1..], b[1..]) {
        SubsequenceKeepsUniqueIds(a[1..], b[1..], idOf);
        forall j | 0 < j < |a| ensures idOf(a[0]) != idOf(a[j]) {
          assert a[j] == a[1..][j - 1];
          SubsequenceElement(a[1..], b[1..], j - 1);
          var k :| 0 <= k < |b[1..]| && b[1..][k] == a[j];
          assert b[k + 1] == a[j];
        }
        forall i, j | 0 <= i < j < |a| ensures idOf(a[i]) != idOf(a[j]) {
          if i > 0 {
            assert a[i] == a[1..][i - 1] && a[j] == a[1..][j - 1];
          }
        }
      } else {
        SubsequenceKeepsUniqueIds(a, b[1..], idOf);
      }
    }
  }

  lemma {:induction false} SubsequenceElement<T>(a: seq<T>, b: seq<T>, i: nat)
    requires IsSubsequence(a, b) && i < |a|
    ensures exists k :: 0 <= k < |b| && b[k] == a[i]
    decreases |b|
  {
    if a[0] == b[0] && IsSubsequence(a[1..], b[1..]) {
      if i > 0 {
        SubsequenceElement(a[1..], b[1..], i - 1);
        var k :| 0 <= k < |b[1..]| && b[1..][k] == a[1..][i - 1];
        assert b[k + 1] == a[i];
      } else {
        assert b[0] == a[0];
      }
    } else {
      SubsequenceElement(a, b[1..], i);
      var k :| 0 <= k < |b[1..]| && b[1..][k] == a[i];
      assert b[k + 1] == a[i];
    }
  }

  /** `s.filter(p)` */
  function Filter<T(!new)>(s: seq<T>, p: T -> bool): (r: seq<T>)
    ensures forall i :: 0 <= i < |r| ==> p(r[i])
    ensures forall x :: x in r <==> x in s && p(x)
    ensures IsSubsequence(r, s)
    ensures |r| <= |s|
  {
    if s == [] then []
    else if p(s[0]) then
      var r := [s[0]] + Filter(s[1..], p);
      assert r[1..] == Filter(s[1..], p);
      r
    else Filter(s[1..], p)
  }

  /** The filter keeps every passing element as often as it occurs, and no other. */
  lemma {:induction false} FilterMultiset<T(!new)>(s: seq<T>, p: T -> bool)
    ensures forall x :: multiset(Filter(s, p))[x] == if p(x) then multiset(s)[x] else 0
  {
    if s != [] {
      FilterMultiset(s[1..], p);
      assert s == [s[0]] + s[1..];
    }
  }

  /** Filtering distributes over concatenation (the order of `forEach`/`push`). */
  lemma {:induction false} FilterAppend<T(!new)>(s: seq<T>, t: seq<T>, p: T -> bool)
    ensures Filter(s + t, p) == Filter(s, p) + Filter(t, p)
    decreases |s|
  {
    if s != [] {
      assert (s + t)[1..] == s[1..] + t;
      FilterAppend(s[1..], t, p);
    } else {
      assert s + t == t;
    }
  }

  /** Filtering by a predicate and by its negation splits the sequence: sizes and contents add up. */
  lemma {:induction false} FilterPartition<T(!new)>(s: seq<T>, p: T -> bool, q: T -> bool)
    requires forall x :: q(x) == !p(x)
    ensures |Filter(s, p)| + |Filter(s, q)| == |s|
    ensures multiset(Filter(s, p)) + multiset(Filter(s, q)) == multiset(s)
  {
    if s != [] {
      FilterPartition(s[1..], p, q);
      assert s == [s[0]] + s[1..];
    }
  }

  /** When every element passes, the filter keeps the whole sequence. */
  lemma {:induction false} FilterAll<T(!new)>(s: seq<T>, p: T -> bool)
    requires forall i :: 0 <= i < |s| ==> p(s[i])
    ensures Filter(s, p) == s
  {
    if s != [] {
      FilterAll(s[1..], p);
      assert s == [s[0]] + s[1..];
    }
  }

  /** Filters by predicates that agree on every element give the same result. */
  lemma {:induction false} FilterExtensional<T(!new)>(s: seq<T>, p: T -> bool, q: T -> bool)
    requires forall x :: p(x) == q(x)
    ensures Filter(s, p) == Filter(s, q)
  {
    if s != [] {
      FilterExtensional(s[1..], p, q);
    }
  }

  /** `s.slice(0, n)` */
  function Take<T>(s: seq<T>, n: nat): (r: seq<T>)
    ensures |r| == if |s| <= n then |s| else n
    ensures r == s[..|r|]
  {
    if |s| <= n then s else s[..n]
  }
}
