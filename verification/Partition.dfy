// Cutting a list, in order, into parts that each meet a condition which every stretch of a
// good part meets too: a cut whose parts cannot take the next element is a shortest one.
module Partition {
  function SizeUpTo<E>(parts: seq<seq<E>>, k: nat): nat
    requires k <= |parts|
  {
    if k == 0 then 0 else SizeUpTo(parts, k - 1) + |parts[k - 1]|
  }

  function Concat<E>(parts: seq<seq<E>>): seq<E> {
    if |parts| == 0 then [] else Concat(parts[..|parts| - 1]) + parts[|parts| - 1]
  }

  lemma SizeUpToPrefix<E>(parts: seq<seq<E>>, n: nat, k: nat)
    requires k <= n <= |parts|
    ensures SizeUpTo(parts[..n], k) == SizeUpTo(parts, k)
  {}

  lemma {:induction false} ConcatSize<E>(parts: seq<seq<E>>)
    ensures |Concat(parts)| == SizeUpTo(parts, |parts|)
  {
    if |parts| > 0 {
      ConcatSize(parts[..|parts| - 1]);
      SizeUpToPrefix(parts, |parts| - 1, |parts| - 1);
    }
  }

  // The k-th part is the stretch of the whole that its offsets say.
  lemma {:induction false} PartIsSlice<E>(parts: seq<seq<E>>, k: nat)
    requires k < |parts|
    ensures SizeUpTo(parts, k) + |parts[k]| == SizeUpTo(parts, k + 1) <= |Concat(parts)|
    ensures Concat(parts)[SizeUpTo(parts, k)..SizeUpTo(parts, k + 1)] == parts[k]
  {
    var front := parts[..|parts| - 1];
    SizeUpToPrefix(parts, |parts| - 1, k);
    SizeUpToPrefix(parts, |parts| - 1, |parts| - 1);
    ConcatSize(front);
    if k < |front| {
      PartIsSlice(front, k);
      SizeUpToPrefix(parts, |parts| - 1, k + 1);
    }
  }

  // A part and the first element of the next are one stretch of the whole.
  lemma NextTaken<E>(parts: seq<seq<E>>, k: nat)
    requires 0 < k < |parts| && |parts[k]| > 0
    ensures SizeUpTo(parts, k - 1) <= SizeUpTo(parts, k) < |Concat(parts)|
    ensures Concat(parts)[SizeUpTo(parts, k - 1)..SizeUpTo(parts, k) + 1] == parts[k - 1] + [parts[k][0]]
  {
    PartIsSlice(parts, k - 1);
    PartIsSlice(parts, k);
    assert Concat(parts)[SizeUpTo(parts, k)] == parts[k][0];
  }

  ghost predicate Hereditary<E(!new)>(fits: seq<E> -> bool) {
    forall s: seq<E>, lo: nat, hi: nat :: lo <= hi <= |s| && fits(s) ==> fits(s[lo..hi])
  }

  // Part k could not also take the first element of the next part.
  ghost predicate SaturatedAt<E>(fits: seq<E> -> bool, parts: seq<seq<E>>, k: nat)
    requires k + 1 < |parts|
  {
    |parts[k + 1]| > 0 && !fits(parts[k] + [parts[k + 1][0]])
  }

  ghost predicate Saturated<E>(fits: seq<E> -> bool, parts: seq<seq<E>>) {
    forall k: nat :: k + 1 < |parts| ==> SaturatedAt(fits, parts, k)
  }

  ghost predicate AllFit<E>(fits: seq<E> -> bool, parts: seq<seq<E>>) {
    forall k :: 0 <= k < |parts| ==> fits(parts[k])
  }

  lemma NotPast<E(!new)>(fits: seq<E> -> bool, plan: seq<seq<E>>, other: seq<seq<E>>, k: nat)
    requires Hereditary(fits) && Saturated(fits, plan) && AllFit(fits, other)
    requires Concat(other) == Concat(plan)
    requires 0 < k < |plan| && k <= |other| && SizeUpTo(other, k - 1) <= SizeUpTo(plan, k - 1)
    ensures SizeUpTo(other, k) <= SizeUpTo(plan, k)
  {
    assert SaturatedAt(fits, plan, k - 1);
    PartIsSlice(other, k - 1);
    NextTaken(plan, k);
    if SizeUpTo(other, k) > SizeUpTo(plan, k) {
      StretchFits(fits, Concat(plan), SizeUpTo(other, k - 1), SizeUpTo(other, k), SizeUpTo(plan, k - 1), SizeUpTo(plan, k) + 1);
    }
  }

  lemma StretchFits<E(!new)>(fits: seq<E> -> bool, all: seq<E>, from: nat, to: nat, lo: nat, hi: nat)
    requires Hereditary(fits) && from <= lo <= hi <= to <= |all| && fits(all[from..to])
    ensures fits(all[lo..hi])
  {
    var stretch, wanted := all[from..to][lo - from..hi - from], all[lo..hi];
    assert forall i :: 0 <= i < hi - lo ==> stretch[i] == wanted[i];
    assert stretch == wanted;
    assert fits(all[from..to][lo - from..hi - from]);
  }

  // The plan stays ahead: after k parts it has placed at least as many elements.
  lemma {:induction false} StaysAhead<E(!new)>(fits: seq<E> -> bool, plan: seq<seq<E>>, other: seq<seq<E>>, k: nat)
    requires Hereditary(fits) && Saturated(fits, plan) && AllFit(fits, other)
    requires Concat(other) == Concat(plan)
    requires k <= |plan| && k <= |other|
    ensures SizeUpTo(other, k) <= SizeUpTo(plan, k)
  {
    if k > 0 {
      StaysAhead(fits, plan, other, k - 1);
      if k < |plan| {
        NotPast(fits, plan, other, k);
      } else {
        ConcatSize(plan);
        PartIsSlice(other, k - 1);
      }
    }
  }

  lemma FewestParts<E(!new)>(fits: seq<E> -> bool, plan: seq<seq<E>>, other: seq<seq<E>>)
    requires Hereditary(fits) && Saturated(fits, plan) && AllFit(fits, other)
    requires |plan| > 0 ==> |plan[0]| > 0
    requires Concat(other) == Concat(plan)
    ensures |plan| <= |other|
  {
    if |plan| > |other| {
      assert |other| > 0 ==> SaturatedAt(fits, plan, |other| - 1);
      ConcatSize(other);
      PartIsSlice(plan, |other|);
      StaysAhead(fits, plan, other, |other|);
    }
  }
}
