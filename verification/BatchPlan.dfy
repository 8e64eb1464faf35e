// The greedy planner of _claim_batches in src/cogdoc/agents/claim_evidence_verifier.py,
// over entries of any kind that each bring a set of document identities.
module BatchPlan {
  import opened Partition

  datatype Batch<E> = Batch(overLimit: bool, entries: seq<E>)

  datatype Limits<!E> = Limits(ids: E -> set<string>, maxClaims: int, maxDocs: int)

  // The identities a list of entries brings together.
  function Gathered<E>(ids: E -> set<string>, entries: seq<E>): set<string> {
    if |entries| == 0 then {} else Gathered(ids, entries[..|entries| - 1]) + ids(entries[|entries| - 1])
  }

  function Parts<E>(batches: seq<Batch<E>>): seq<seq<E>> {
    seq(|batches|, k requires 0 <= k < |batches| => batches[k].entries)
  }

  function Flatten<E>(batches: seq<Batch<E>>): seq<E> {
    Concat(Parts(batches))
  }

  predicate OverLimit<E>(l: Limits<E>, e: E) {
    |l.ids(e)| > l.maxDocs
  }

  // A batch always has room for one entry, even if max_claims is not positive.
  predicate Ordinary<E>(l: Limits<E>, entries: seq<E>) {
    && (|entries| <= l.maxClaims || |entries| <= 1)
    && (|entries| == 0 || |Gathered(l.ids, entries)| <= l.maxDocs)
  }

  // What may go to the verifier together, or is set aside as one entry with too much evidence.
  predicate Permitted<E>(l: Limits<E>, entries: seq<E>) {
    Ordinary(l, entries) || (|entries| == 1 && OverLimit(l, entries[0]))
  }

  predicate WellFormed<E>(l: Limits<E>, b: Batch<E>) {
    && |b.entries| > 0
    && (b.overLimit ==> |b.entries| == 1 && OverLimit(l, b.entries[0]))
    && (!b.overLimit ==> Ordinary(l, b.entries))
  }

  ghost predicate GoodPlan<E>(l: Limits<E>, batches: seq<Batch<E>>) {
    && (forall k :: 0 <= k < |batches| ==> WellFormed(l, batches[k]))
    && Saturated(s => Permitted(l, s), Parts(batches))
  }

  lemma Subsets<T>(a: set<T>, b: set<T>)
    requires a <= b
    ensures |a| <= |b|
  {
    if a != {} {
      var x :| x in a;
      Subsets(a - {x}, b - {x});
    }
  }

  lemma GatheredPrefix<E>(ids: E -> set<string>, entries: seq<E>, hi: nat)
    requires hi <= |entries|
    ensures Gathered(ids, entries[..hi]) <= Gathered(ids, entries)
  {
    if hi < |entries| {
      GatheredPrefix(ids, entries[..|entries| - 1], hi);
      assert entries[..|entries| - 1][..hi] == entries[..hi];
    } else {
      assert entries[..hi] == entries;
    }
  }

  lemma GatheredSuffix<E>(ids: E -> set<string>, entries: seq<E>, lo: nat)
    requires lo <= |entries|
    ensures Gathered(ids, entries[lo..]) <= Gathered(ids, entries)
    ensures lo < |entries| ==> ids(entries[lo]) <= Gathered(ids, entries)
  {
    if lo < |entries| {
      GatheredSuffix(ids, entries[..|entries| - 1], lo);
      assert entries[lo..][..|entries| - lo - 1] == entries[..|entries| - 1][lo..];
    }
  }

  // A stretch of a permitted batch is permitted.
  lemma PermittedIsHereditary<E(!new)>(l: Limits<E>)
    ensures Hereditary((s: seq<E>) => Permitted(l, s))
  {
    forall s: seq<E>, lo: nat, hi: nat | lo <= hi <= |s| && Permitted(l, s) ensures Permitted(l, s[lo..hi]) {
      GatheredPrefix(l.ids, s, hi);
      GatheredSuffix(l.ids, s[..hi], lo);
      assert s[..hi][lo..] == s[lo..hi];
      Subsets(Gathered(l.ids, s[lo..hi]), Gathered(l.ids, s));
    }
  }

  // An entry with too much evidence fits in no batch with another entry.
  lemma OverLimitAlone<E>(l: Limits<E>, entries: seq<E>, i: nat)
    requires i < |entries| && OverLimit(l, entries[i])
    ensures !Ordinary(l, entries)
    ensures |entries| >= 2 ==> !Permitted(l, entries)
  {
    GatheredSuffix(l.ids, entries, i);
    Subsets(l.ids(entries[i]), Gathered(l.ids, entries));
  }

  // So a good plan sets aside exactly the entries with too much evidence.
  lemma SetAsideExactly<E>(l: Limits<E>, batches: seq<Batch<E>>, k: nat, i: nat)
    requires GoodPlan(l, batches) && k < |batches| && i < |batches[k].entries|
    ensures OverLimit(l, batches[k].entries[i]) <==> batches[k].overLimit
  {
    if !batches[k].overLimit && OverLimit(l, batches[k].entries[i]) {
      OverLimitAlone(l, batches[k].entries, i);
    }
  }

  // No way to cut the same entries, in order, into permitted batches uses fewer.
  lemma FewestBatches<E(!new)>(l: Limits<E>, plan: seq<Batch<E>>, other: seq<seq<E>>)
    requires GoodPlan(l, plan)
    requires Concat(other) == Flatten(plan) && forall k :: 0 <= k < |other| ==> Permitted(l, other[k])
    ensures |plan| <= |other|
  {
    PermittedIsHereditary(l);
    FewestParts((s: seq<E>) => Permitted(l, s), Parts(plan), other);
  }

  // ----- The planner -----

  // What holds between two entries: finished batches, and the batch being filled.
  ghost predicate PlanState<E>(l: Limits<E>, batches: seq<Batch<E>>, current: seq<E>, currentIds: set<string>) {
    && GoodPlan(l, batches)
    && currentIds == Gathered(l.ids, current)
    && Ordinary(l, current)
    && (|batches| > 0 && |current| == 0 ==> batches[|batches| - 1].overLimit)
    && (|batches| > 0 && |current| > 0 ==> !Permitted(l, batches[|batches| - 1].entries + [current[0]]))
  }

  function Flush<E>(batches: seq<Batch<E>>, current: seq<E>): seq<Batch<E>> {
    if |current| == 0 then batches else batches + [Batch(false, current)]
  }

  lemma FlattenAppend<E>(batches: seq<Batch<E>>, b: Batch<E>)
    ensures Parts(batches + [b]) == Parts(batches) + [b.entries]
    ensures Flatten(batches + [b]) == Flatten(batches) + b.entries
  {
    assert Parts(batches + [b]) == Parts(batches) + [b.entries];
    assert (Parts(batches) + [b.entries])[..|batches|] == Parts(batches);
  }

  lemma AppendGood<E>(l: Limits<E>, batches: seq<Batch<E>>, b: Batch<E>)
    requires GoodPlan(l, batches) && WellFormed(l, b)
    requires |batches| > 0 ==> !Permitted(l, batches[|batches| - 1].entries + [b.entries[0]])
    ensures GoodPlan(l, batches + [b])
  {
    FlattenAppend(batches, b);
    var fits := s => Permitted(l, s);
    var parts := Parts(batches) + [b.entries];
    forall k: nat | k + 1 < |parts| ensures SaturatedAt(fits, parts, k) {
      assert k + 1 < |batches| ==> SaturatedAt(fits, Parts(batches), k);
    }
  }

  lemma FlushGood<E>(l: Limits<E>, batches: seq<Batch<E>>, current: seq<E>, currentIds: set<string>)
    requires PlanState(l, batches, current, currentIds)
    ensures GoodPlan(l, Flush(batches, current))
    ensures Flatten(Flush(batches, current)) == Flatten(batches) + current
  {
    if |current| > 0 {
      AppendGood(l, batches, Batch(false, current));
      FlattenAppend(batches, Batch(false, current));
    }
  }

  // An entry with too much evidence closes the batch being filled and makes its own.
  lemma SetAside<E>(l: Limits<E>, batches: seq<Batch<E>>, current: seq<E>, currentIds: set<string>, e: E)
    requires PlanState(l, batches, current, currentIds) && OverLimit(l, e)
    ensures PlanState(l, Flush(batches, current) + [Batch(true, [e])], [], {})
    ensures Flatten(Flush(batches, current) + [Batch(true, [e])]) == Flatten(batches) + current + [e]
  {
    FlushGood(l, batches, current, currentIds);
    var flushed := Flush(batches, current);
    if |flushed| > 0 {
      OverLimitAlone(l, flushed[|flushed| - 1].entries + [e], |flushed[|flushed| - 1].entries|);
    }
    AppendGood(l, flushed, Batch(true, [e]));
    FlattenAppend(flushed, Batch(true, [e]));
  }

  lemma GatheredAppend<E>(ids: E -> set<string>, entries: seq<E>, e: E)
    ensures Gathered(ids, entries + [e]) == Gathered(ids, entries) + ids(e)
  {
    assert (entries + [e])[..|entries|] == entries;
  }

  // An entry that does not fit with the batch being filled starts another.
  lemma StartAnother<E>(l: Limits<E>, batches: seq<Batch<E>>, current: seq<E>, currentIds: set<string>, e: E)
    requires PlanState(l, batches, current, currentIds) && !OverLimit(l, e)
    requires |current| > 0 && (|current| >= l.maxClaims || |currentIds + l.ids(e)| > l.maxDocs)
    ensures PlanState(l, Flush(batches, current), [e], l.ids(e))
    ensures Flatten(Flush(batches, current)) + [e] == Flatten(batches) + current + [e]
  {
    FlushGood(l, batches, current, currentIds);
    GatheredAppend(l.ids, current, e);
    GatheredAppend(l.ids, [], e);
    assert [] + [e] == [e];
  }

  // Otherwise it joins the batch being filled.
  lemma Join<E>(l: Limits<E>, batches: seq<Batch<E>>, current: seq<E>, currentIds: set<string>, e: E)
    requires PlanState(l, batches, current, currentIds) && !OverLimit(l, e)
    requires |current| > 0 ==> |current| < l.maxClaims && |currentIds + l.ids(e)| <= l.maxDocs
    ensures PlanState(l, batches, current + [e], currentIds + l.ids(e))
    ensures Flatten(batches) + (current + [e]) == Flatten(batches) + current + [e]
  {
    GatheredAppend(l.ids, current, e);
    if |current| == 0 {
      assert current + [e] == [e];
      if |batches| > 0 {
        OverLimitAlone(l, batches[|batches| - 1].entries + [e], 0);
      }
    }
  }

  // One round of the planning loop.
  method Place<E>(l: Limits<E>, batches: seq<Batch<E>>, current: seq<E>, currentIds: set<string>, e: E)
    returns (batches': seq<Batch<E>>, current': seq<E>, currentIds': set<string>)
    requires PlanState(l, batches, current, currentIds)
    ensures PlanState(l, batches', current', currentIds')
    ensures Flatten(batches') + current' == Flatten(batches) + current + [e]
  {
    var ids := l.ids(e);
    if |ids| > l.maxDocs {
      SetAside(l, batches, current, currentIds, e);
      batches' := Flush(batches, current) + [Batch(true, [e])];
      current', currentIds' := [], {};
      assert Flatten(batches') + current' == Flatten(batches');
    } else if |current| > 0 && (|current| >= l.maxClaims || |currentIds + ids| > l.maxDocs) {
      StartAnother(l, batches, current, currentIds, e);
      batches' := Flush(batches, current);
      current', currentIds' := [e], ids;
    } else {
      Join(l, batches, current, currentIds, e);
      batches', current', currentIds' := batches, current + [e], currentIds + ids;
    }
  }

  method PlanBatches<E>(l: Limits<E>, entries: seq<E>) returns (batches: seq<Batch<E>>)
    ensures Flatten(batches) == entries
    ensures GoodPlan(l, batches)
  {
    batches := [];
    var current: seq<E> := [];
    var currentIds: set<string> := {};
    for i := 0 to |entries|
      invariant Flatten(batches) + current == entries[..i]
      invariant PlanState(l, batches, current, currentIds)
    {
      batches, current, currentIds := Place(l, batches, current, currentIds, entries[i]);
    }
    FlushGood(l, batches, current, currentIds);
    batches := Flush(batches, current);
  }
}
