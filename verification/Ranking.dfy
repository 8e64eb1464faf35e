// Rankings: lists sorted by a comparison under which no two different elements tie, so that
// any correct sort, and any order of the input, gives one and the same list.
module Ranking {
  ghost predicate TotalAt<E>(ahead: (E, E) -> bool, x: E, y: E, z: E) {
    && !ahead(x, x)
    && (x == y || ahead(x, y) || ahead(y, x))
    && (ahead(x, y) && ahead(y, z) ==> ahead(x, z))
  }

  ghost predicate TotalOrder<E(!new)>(ahead: (E, E) -> bool) {
    forall x, y, z :: TotalAt(ahead, x, y, z)
  }

  function Insert<E>(ahead: (E, E) -> bool, x: E, s: seq<E>): seq<E> {
    if |s| == 0 || ahead(x, s[0]) then [x] + s else [s[0]] + Insert(ahead, x, s[1..])
  }

  // What sort_by leaves.
  function Sort<E>(ahead: (E, E) -> bool, s: seq<E>): seq<E> {
    if |s| == 0 then [] else Insert(ahead, s[0], Sort(ahead, s[1..]))
  }

  // Nothing is ahead of what stands before it.
  predicate Sorted<E>(ahead: (E, E) -> bool, s: seq<E>) {
    |s| == 0 || ((forall k :: 1 <= k < |s| ==> !ahead(s[k], s[0])) && Sorted(ahead, s[1..]))
  }

  lemma {:induction false} SortedPair<E>(ahead: (E, E) -> bool, s: seq<E>, i: nat, j: nat)
    requires Sorted(ahead, s) && i < j < |s|
    ensures !ahead(s[j], s[i])
  {
    if i > 0 {
      SortedPair(ahead, s[1..], i - 1, j - 1);
    }
  }

  lemma {:induction false} InsertSorted<E(!new)>(ahead: (E, E) -> bool, x: E, s: seq<E>)
    requires TotalOrder(ahead) && Sorted(ahead, s)
    ensures Sorted(ahead, Insert(ahead, x, s))
    ensures multiset(Insert(ahead, x, s)) == multiset{x} + multiset(s)
  {
    var r := Insert(ahead, x, s);
    if |s| == 0 || ahead(x, s[0]) {
      forall k | 1 <= k < |r| ensures !ahead(r[k], x) {
        assert r[k] == s[k - 1];
        assert TotalAt(ahead, x, s[0], s[k - 1]) && TotalAt(ahead, s[k - 1], x, s[0]);
      }
      assert r[1..] == s;
    } else {
      InsertSorted(ahead, x, s[1..]);
      var rest := Insert(ahead, x, s[1..]);
      assert r[1..] == rest;
      forall k | 0 <= k < |rest| ensures !ahead(rest[k], s[0]) {
        assert rest[k] in multiset(rest);
        if rest[k] != x {
          assert rest[k] in s[1..];
        }
      }
      assert s == [s[0]] + s[1..];
    }
  }

  lemma {:induction false} SortIsRanking<E(!new)>(ahead: (E, E) -> bool, s: seq<E>)
    requires TotalOrder(ahead)
    ensures Sorted(ahead, Sort(ahead, s)) && multiset(Sort(ahead, s)) == multiset(s)
  {
    if |s| > 0 {
      SortIsRanking(ahead, s[1..]);
      InsertSorted(ahead, s[0], Sort(ahead, s[1..]));
      assert s == [s[0]] + s[1..];
    }
  }

  // There is only one ranking of given elements.
  lemma {:induction false} RankingUnique<E(!new)>(ahead: (E, E) -> bool, a: seq<E>, b: seq<E>)
    requires TotalOrder(ahead) && Sorted(ahead, a) && Sorted(ahead, b) && multiset(a) == multiset(b)
    ensures a == b
  {
    if |a| > 0 {
      assert a[0] in multiset(b);
      assert |b| > 0 && b[0] in multiset(a);
      assert !ahead(a[0], b[0]) && !ahead(b[0], a[0]);
      assert TotalAt(ahead, a[0], b[0], a[0]);
      assert a == [a[0]] + a[1..] && b == [b[0]] + b[1..];
      assert multiset(a[1..]) == multiset(a) - multiset{a[0]};
      RankingUnique(ahead, a[1..], b[1..]);
    } else {
      assert |multiset(b)| == 0;
    }
  }

  function Filter<E>(keep: E -> bool, s: seq<E>): seq<E> {
    if |s| == 0 then [] else (if keep(s[0]) then [s[0]] else []) + Filter(keep, s[1..])
  }

  lemma FilterCount<E>(keep: E -> bool, s: seq<E>, x: E)
    ensures multiset(Filter(keep, s))[x] == if keep(x) then multiset(s)[x] else 0
  {
    if |s| > 0 {
      FilterCount(keep, s[1..], x);
      assert s == [s[0]] + s[1..];
    }
  }

  lemma {:induction false} FilterSorted<E>(ahead: (E, E) -> bool, keep: E -> bool, s: seq<E>)
    requires Sorted(ahead, s)
    ensures Sorted(ahead, Filter(keep, s))
  {
    if |s| > 0 {
      var rest := Filter(keep, s[1..]);
      FilterSorted(ahead, keep, s[1..]);
      if keep(s[0]) {
        forall k | 0 <= k < |rest| ensures !ahead(rest[k], s[0]) {
          FilterCount(keep, s[1..], rest[k]);
          assert rest[k] in multiset(rest);
          assert rest[k] in s[1..];
        }
        assert Filter(keep, s)[1..] == rest;
      } else {
        assert Filter(keep, s) == rest;
      }
    }
  }

  function Take<E>(s: seq<E>, n: nat): seq<E> {
    if n < |s| then s[..n] else s
  }
}
