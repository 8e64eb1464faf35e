// Sums of reals over lists and over sets. A hash map is walked in an order nobody chose, so a
// sum over a set is shown not to depend on the order in which its elements are picked.
module Sums {
  import opened Sequences

  function SumList<T>(s: seq<T>, f: T -> real): real {
    if |s| == 0 then 0.0 else SumList(s[..|s| - 1], f) + f(s[|s| - 1])
  }

  ghost function SumSet<T>(s: set<T>, f: T -> real): real {
    if s == {} then 0.0 else
      var x :| x in s;
      SumSet(s - {x}, f) + f(x)
  }

  lemma {:induction false} SumSetPick<T>(s: set<T>, f: T -> real, x: T)
    requires x in s
    ensures SumSet(s, f) == SumSet(s - {x}, f) + f(x)
    decreases |s|
  {
    var y :| y in s && SumSet(s, f) == SumSet(s - {y}, f) + f(y);
    if x != y {
      SumSetPick(s - {y}, f, x);
      SumSetPick(s - {x}, f, y);
      assert s - {y} - {x} == s - {x} - {y};
    }
  }

  lemma SumSetAdd<T>(s: set<T>, f: T -> real, x: T)
    requires x !in s
    ensures SumSet(s + {x}, f) == SumSet(s, f) + f(x)
  {
    SumSetPick(s + {x}, f, x);
    assert s + {x} - {x} == s;
  }

  lemma {:induction false} SumSetSame<T>(s: set<T>, f: T -> real, g: T -> real)
    requires forall x :: x in s ==> f(x) == g(x)
    ensures SumSet(s, f) == SumSet(s, g)
    decreases |s|
  {
    if s != {} {
      var x :| x in s;
      SumSetPick(s, f, x);
      SumSetPick(s, g, x);
      SumSetSame(s - {x}, f, g);
    }
  }

  // A total over sets that grows by f(x) with each new element x, in whatever order they come.
  ghost predicate AddsAt<T>(total: set<T> -> real, f: T -> real, s: set<T>, x: T) {
    x !in s ==> total(s + {x}) == total(s) + f(x)
  }

  ghost predicate AddsUp<T(!new)>(total: set<T> -> real, f: T -> real) {
    total({}) == 0.0 && forall s, x :: AddsAt(total, f, s, x)
  }

  ghost function Total<T>(f: T -> real): set<T> -> real {
    s => SumSet(s, f)
  }

  lemma TotalAddsUp<T(!new)>(f: T -> real)
    ensures AddsUp(Total(f), f)
  {
    forall s: set<T>, x: T ensures AddsAt(Total(f), f, s, x) {
      if x !in s {
        SumSetAdd(s, f, x);
      }
    }
  }

  function Count<T(==)>(s: seq<T>, x: T): nat {
    if |s| == 0 then 0 else Count(s[..|s| - 1], x) + if s[|s| - 1] == x then 1 else 0
  }

  lemma CountPositive<T>(s: seq<T>, x: T)
    ensures Count(s, x) > 0 <==> x in s
  {
    if |s| > 0 {
      CountPositive(s[..|s| - 1], x);
      assert s == s[..|s| - 1] + [s[|s| - 1]];
    }
  }

  lemma SumSetChange<T>(s: set<T>, f: T -> real, g: T -> real, x: T)
    requires x in s && forall y :: y in s && y != x ==> f(y) == g(y)
    ensures SumSet(s, g) == SumSet(s, f) - f(x) + g(x)
  {
    SumSetPick(s, f, x);
    SumSetPick(s, g, x);
    SumSetSame(s - {x}, f, g);
  }

  function Repeated<T(==)>(s: seq<T>, f: T -> real): T -> real {
    x => Count(s, x) as real * f(x)
  }

  lemma RepeatedAppend<T>(s: seq<T>, f: T -> real, last: T)
    ensures Repeated(s + [last], f)(last) == Repeated(s, f)(last) + f(last)
    ensures forall x :: x != last ==> Repeated(s + [last], f)(x) == Repeated(s, f)(x)
    ensures last !in s ==> Repeated(s, f)(last) == 0.0
  {
    assert (s + [last])[..|s|] == s;
    CountPositive(s, last);
    assert (Count(s, last) + 1) as real * f(last) == Count(s, last) as real * f(last) + f(last);
  }

  // Counting repeats and multiplying is adding one element of the list at a time.
  lemma {:induction false} CountedSum<T>(s: seq<T>, f: T -> real)
    ensures SumSet(Elements(s), Repeated(s, f)) == SumList(s, f)
  {
    if |s| > 0 {
      var front, last := s[..|s| - 1], s[|s| - 1];
      CountedSum(front, f);
      assert s == front + [last];
      RepeatedAppend(front, f, last);
      if last in front {
        assert Elements(s) == Elements(front);
        SumSetChange(Elements(front), Repeated(front, f), Repeated(s, f), last);
      } else {
        assert Elements(s) == Elements(front) + {last};
        SumSetAdd(Elements(front), Repeated(s, f), last);
        SumSetSame(Elements(front), Repeated(front, f), Repeated(s, f));
      }
    }
  }
}
