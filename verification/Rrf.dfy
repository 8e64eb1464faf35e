// Reciprocal rank fusion of rust_core/src/rrf.rs, over the reals. A document is taken with the
// key extract_doc_key gave it.
module Rrf {
  import opened Options
  import opened Ranking

  datatype Value = Text(text: string) | Number(number: real)

  type Retrieval = map<string, Value>

  datatype Hit<K> = Hit(key: K, retrieval: Option<Retrieval>)

  // A hit with the score its rank gives it.
  datatype Scored<K> = Scored(hit: Hit<K>, score: real)

  // No rank makes a denominator zero; with k above -1 none does.
  predicate RankDefined(k: real, i: nat) {
    k + (i + 1) as real != 0.0
  }

  predicate Defined(k: real, n: nat) {
    forall i: nat :: i < n ==> RankDefined(k, i)
  }

  function RankScore(k: real, i: nat): real
    requires RankDefined(k, i)
  {
    1.0 / (k + (i + 1) as real)
  }

  // Both lists, one after the other, each ranked from the start.
  function Ranks<K>(hits: seq<Hit<K>>, k: real): seq<Scored<K>>
    requires Defined(k, |hits|)
  {
    seq(|hits|, i requires 0 <= i < |hits| => Scored(hits[i], RankScore(k, i)))
  }

  // The sum of 1 / (k + rank) over the occurrences of a key.
  function Score<K(==)>(entries: seq<Scored<K>>, key: K): real {
    if |entries| == 0 then 0.0
    else
      var last := entries[|entries| - 1];
      Score(entries[..|entries| - 1], key) + if last.hit.key == key then last.score else 0.0
  }

  function Keys<K(==)>(entries: seq<Scored<K>>): set<K> {
    set e | e in entries :: e.hit.key
  }

  // merge_retrieval: what the later hit records wins.
  function Merge(target: Option<Retrieval>, source: Option<Retrieval>): Option<Retrieval> {
    if source.None? then target
    else Some((if target.Some? then target.value else map[]) + source.value)
  }

  function Merged<K(==)>(entries: seq<Scored<K>>, key: K): Option<Retrieval> {
    if |entries| == 0 then None
    else
      var last := entries[|entries| - 1];
      var front := Merged(entries[..|entries| - 1], key);
      if last.hit.key == key then Merge(front, last.hit.retrieval) else front
  }

  // ----- The fused ranking -----

  function ByScore<K(==)>(entries: seq<Scored<K>>, less: (K, K) -> bool): (K, K) -> bool {
    (a, b) => Score(entries, a) > Score(entries, b) || (Score(entries, a) == Score(entries, b) && less(a, b))
  }

  lemma ByScoreTotal<K(!new)>(entries: seq<Scored<K>>, less: (K, K) -> bool)
    requires TotalOrder(less)
    ensures TotalOrder(ByScore(entries, less))
  {
    forall x, y, z ensures TotalAt(ByScore(entries, less), x, y, z) {
      assert TotalAt(less, x, y, z);
      assert Score(entries, x) >= Score(entries, x) && Score(entries, y) >= Score(entries, y) && Score(entries, z) >= Score(entries, z);
    }
  }

  // Every key once, by score and then by key.
  ghost predicate IsRanking<K(!new)>(entries: seq<Scored<K>>, less: (K, K) -> bool, keys: seq<K>) {
    multiset(keys) == multiset(Keys(entries)) && Sorted(ByScore(entries, less), keys)
  }

  lemma OneRanking<K(!new)>(entries: seq<Scored<K>>, less: (K, K) -> bool, a: seq<K>, b: seq<K>)
    requires TotalOrder(less) && IsRanking(entries, less, a) && IsRanking(entries, less, b)
    ensures a == b
  {
    ByScoreTotal(entries, less);
    RankingUnique(ByScore(entries, less), a, b);
  }

  datatype Fused<K> = Fused(key: K, score: real, retrieval: Retrieval)

  function Finished<K(==)>(entries: seq<Scored<K>>, key: K): Fused<K> {
    var merged := Merged(entries, key);
    var score := Score(entries, key);
    Fused(key, score, (if merged.Some? then merged.value else map[])
                      ["rrf_score" := Number(score)]["search_channel" := Text("hybrid")])
  }

  // ----- The methods -----

  ghost predicate Accumulated<K>(entries: seq<Scored<K>>, scoreMap: map<K, (real, Option<Retrieval>)>) {
    && scoreMap.Keys == Keys(entries)
    && forall key :: key in scoreMap ==> scoreMap[key] == (Score(entries, key), Merged(entries, key))
  }

  lemma Accumulate<K>(entries: seq<Scored<K>>, e: Scored<K>, key: K)
    ensures Keys(entries + [e]) == Keys(entries) + {e.hit.key}
    ensures Score(entries + [e], key) == Score(entries, key) + if e.hit.key == key then e.score else 0.0
    ensures Merged(entries + [e], key) == if e.hit.key == key then Merge(Merged(entries, key), e.hit.retrieval) else Merged(entries, key)
    ensures key !in Keys(entries) ==> Score(entries, key) == 0.0 && Merged(entries, key) == None
  {
    assert (entries + [e])[..|entries|] == entries;
    if key !in Keys(entries) && |entries| > 0 {
      var front, last := entries[..|entries| - 1], entries[|entries| - 1];
      assert entries == front + [last];
      Accumulate(front, last, key);
    }
  }

  method AddOrUpdate<K(==)>(scoreMap: map<K, (real, Option<Retrieval>)>, e: Scored<K>, ghost entries: seq<Scored<K>>)
    returns (scoreMap': map<K, (real, Option<Retrieval>)>)
    requires Accumulated(entries, scoreMap)
    ensures Accumulated(entries + [e], scoreMap')
  {
    var key := e.hit.key;
    forall x ensures Keys(entries + [e]) == Keys(entries) + {key}
                && Score(entries + [e], x) == Score(entries, x) + (if key == x then e.score else 0.0)
                && Merged(entries + [e], x) == (if key == x then Merge(Merged(entries, x), e.hit.retrieval) else Merged(entries, x))
    {
      Accumulate(entries, e, x);
    }
    Accumulate(entries, e, key);
    assert e.hit.retrieval.Some? ==> map[] + e.hit.retrieval.value == e.hit.retrieval.value;
    if key in scoreMap {
      var (score, retrieval) := scoreMap[key];
      scoreMap' := scoreMap[key := (score + e.score, Merge(retrieval, e.hit.retrieval))];
    } else {
      scoreMap' := scoreMap[key := (e.score, e.hit.retrieval)];
    }
  }

  // The keys of the map, in whatever order it is walked.
  method Listing<K(==)>(keys: set<K>) returns (list: seq<K>)
    ensures multiset(list) == multiset(keys)
  {
    list := [];
    var todo := keys;
    while todo != {}
      invariant todo <= keys && multiset(list) == multiset(keys - todo)
      decreases |todo|
    {
      var key :| key in todo;
      assert keys - (todo - {key}) == (keys - todo) + {key};
      list := list + [key];
      todo := todo - {key};
    }
    assert keys - todo == keys;
  }

  method ScoreMap<K(==)>(entries: seq<Scored<K>>) returns (scoreMap: map<K, (real, Option<Retrieval>)>)
    ensures Accumulated(entries, scoreMap)
  {
    scoreMap := map[];
    for i := 0 to |entries|
      invariant Accumulated(entries[..i], scoreMap)
    {
      assert entries[..i + 1] == entries[..i] + [entries[i]];
      scoreMap := AddOrUpdate(scoreMap, entries[i], entries[..i]);
    }
    assert entries[..|entries|] == entries;
  }

  // The first topN of the ranking of the entries, each finished. By OneRanking there is one.
  ghost predicate Fusion<K(!new)>(entries: seq<Scored<K>>, less: (K, K) -> bool, topN: nat, fused: seq<Fused<K>>) {
    exists keys :: IsRanking(entries, less, keys) && FusedFrom(entries, Take(keys, topN), fused)
  }

  predicate FusedFrom<K(==)>(entries: seq<Scored<K>>, keys: seq<K>, fused: seq<Fused<K>>) {
    |fused| == |keys| && forall i :: 0 <= i < |fused| ==> fused[i] == Finished(entries, keys[i])
  }

  method Fuse<K(==,!new)>(vectorHits: seq<Hit<K>>, bm25Hits: seq<Hit<K>>, k: real, topN: nat, less: (K, K) -> bool)
    returns (fused: seq<Fused<K>>)
    requires Defined(k, |vectorHits|) && Defined(k, |bm25Hits|) && TotalOrder(less)
    ensures Fusion(Ranks(vectorHits, k) + Ranks(bm25Hits, k), less, topN, fused)
  {
    var entries := Ranks(vectorHits, k) + Ranks(bm25Hits, k);
    var scoreMap := ScoreMap(entries);
    var sorted := RankKeys(entries, scoreMap.Keys, less);
    var top := Take(sorted, topN);
    fused := [];
    for i := 0 to |top|
      invariant |fused| == i && forall n :: 0 <= n < i ==> fused[n] == Finished(entries, top[n])
    {
      assert top[i] in multiset(sorted);
      fused := fused + [Publish(scoreMap, top[i], entries)];
    }
    assert FusedFrom(entries, Take(sorted, topN), fused);
  }

  // The walking order of the map never shows.
  lemma OneFusion<K(!new)>(entries: seq<Scored<K>>, less: (K, K) -> bool, topN: nat, a: seq<Fused<K>>, b: seq<Fused<K>>)
    requires TotalOrder(less) && Fusion(entries, less, topN, a) && Fusion(entries, less, topN, b)
    ensures a == b
  {
    var x :| IsRanking(entries, less, x) && FusedFrom(entries, Take(x, topN), a);
    var y :| IsRanking(entries, less, y) && FusedFrom(entries, Take(y, topN), b);
    OneRanking(entries, less, x, y);
  }

  method RankKeys<K(==,!new)>(entries: seq<Scored<K>>, keySet: set<K>, less: (K, K) -> bool) returns (keys: seq<K>)
    requires TotalOrder(less) && keySet == Keys(entries)
    ensures IsRanking(entries, less, keys)
  {
    var list := Listing(keySet);
    var ahead := ByScore(entries, less);
    ByScoreTotal(entries, less);
    SortIsRanking(ahead, list);
    keys := Sort(ahead, list);
  }

  function Publish<K(==)>(scoreMap: map<K, (real, Option<Retrieval>)>, key: K, ghost entries: seq<Scored<K>>): (r: Fused<K>)
    requires Accumulated(entries, scoreMap) && key in scoreMap
    ensures r == Finished(entries, key)
  {
    var (score, retrieval) := scoreMap[key];
    Fused(key, score, (if retrieval.Some? then retrieval.value else map[])
                      ["rrf_score" := Number(score)]["search_channel" := Text("hybrid")])
  }

  // ----- What fusion means -----

  // The score of a key within one list.
  function ListScore<K(==)>(hits: seq<Hit<K>>, k: real, key: K): real
    requires Defined(k, |hits|)
  {
    Score(Ranks(hits, k), key)
  }

  lemma {:induction false} ScoreConcat<K>(a: seq<Scored<K>>, b: seq<Scored<K>>, key: K)
    ensures Score(a + b, key) == Score(a, key) + Score(b, key)
  {
    if |b| == 0 {
      assert a + b == a;
    } else {
      assert (a + b)[..|a + b| - 1] == a + b[..|b| - 1];
      ScoreConcat(a, b[..|b| - 1], key);
    }
  }

  // Each key gets the sum over both lists, and the order does not depend on which list is first.
  lemma SwapKeepsOrder<K(!new)>(v: seq<Hit<K>>, b: seq<Hit<K>>, k: real, less: (K, K) -> bool, keys: seq<K>, swapped: seq<K>)
    requires Defined(k, |v|) && Defined(k, |b|) && TotalOrder(less)
    requires IsRanking(Ranks(v, k) + Ranks(b, k), less, keys) && IsRanking(Ranks(b, k) + Ranks(v, k), less, swapped)
    ensures keys == swapped
    ensures forall key :: Score(Ranks(v, k) + Ranks(b, k), key) == ListScore(v, k, key) + ListScore(b, k, key)
  {
    var there, back := Ranks(v, k) + Ranks(b, k), Ranks(b, k) + Ranks(v, k);
    forall key ensures Score(there, key) == ListScore(v, k, key) + ListScore(b, k, key) == Score(back, key) {
      ScoreConcat(Ranks(v, k), Ranks(b, k), key);
      ScoreConcat(Ranks(b, k), Ranks(v, k), key);
    }
    assert Keys(there) == Keys(back);
    SameScores(there, back, less, swapped);
    OneRanking(there, less, keys, swapped);
  }

  lemma {:induction false} SameScores<K(!new)>(a: seq<Scored<K>>, b: seq<Scored<K>>, less: (K, K) -> bool, keys: seq<K>)
    requires (forall key :: Score(a, key) == Score(b, key)) && Sorted(ByScore(b, less), keys)
    ensures Sorted(ByScore(a, less), keys)
  {
    if |keys| > 0 {
      SameScores(a, b, less, keys[1..]);
      forall i | 1 <= i < |keys| ensures !ByScore(a, less)(keys[i], keys[0]) {
        assert !ByScore(b, less)(keys[i], keys[0]);
      }
    }
  }

  predicate NoRepeats<K(==)>(hits: seq<Hit<K>>) {
    forall i, j :: 0 <= i < j < |hits| ==> hits[i].key != hits[j].key
  }

  // In a list without repeats a key scores by its one rank, or nothing.
  lemma {:induction false} ListScoreIs<K>(hits: seq<Hit<K>>, k: real, key: K)
    requires k > -1.0 && NoRepeats(hits)
    ensures forall i: nat :: i < |hits| && hits[i].key == key ==> ListScore(hits, k, key) == RankScore(k, i) > 0.0
    ensures (forall i :: 0 <= i < |hits| ==> hits[i].key != key) ==> ListScore(hits, k, key) == 0.0
  {
    if |hits| > 0 {
      var front := hits[..|hits| - 1];
      ListScoreIs(front, k, key);
      assert Ranks(hits, k)[..|hits| - 1] == Ranks(front, k);
      assert forall i :: 0 <= i < |front| ==> front[i] == hits[i];
    }
  }

  // Wherever y is listed, x is listed before it.
  predicate Dominates<K(==)>(hits: seq<Hit<K>>, x: K, y: K) {
    forall j :: 0 <= j < |hits| && hits[j].key == y ==> exists i :: 0 <= i < j && hits[i].key == x
  }

  lemma DominatesScore<K>(hits: seq<Hit<K>>, k: real, x: K, y: K)
    requires k > -1.0 && NoRepeats(hits) && Dominates(hits, x, y)
    ensures ListScore(hits, k, x) >= ListScore(hits, k, y)
    ensures (exists j :: 0 <= j < |hits| && hits[j].key == y) ==> ListScore(hits, k, x) > ListScore(hits, k, y)
  {
    ListScoreIs(hits, k, x);
    ListScoreIs(hits, k, y);
    if j: nat :| j < |hits| && hits[j].key == y {
      var i: nat :| i < j && hits[i].key == x;
      RankFalls(k, i, j);
    } else if i: nat :| i < |hits| && hits[i].key == x {
    }
  }

  lemma RankFalls(k: real, i: nat, j: nat)
    requires k > -1.0 && i < j
    ensures RankScore(k, i) > RankScore(k, j)
  {
    var a, b := k + (i + 1) as real, k + (j + 1) as real;
    assert 0.0 < a < b;
    Reciprocal(a, b);
  }

  lemma Reciprocal(a: real, b: real)
    requires 0.0 < a < b
    ensures 1.0 / a > 1.0 / b
  {
    assert 1.0 / a - 1.0 / b == (b - a) / (a * b);
  }

  lemma DominatesTotal<K>(v: seq<Hit<K>>, b: seq<Hit<K>>, k: real, x: K, y: K)
    requires k > -1.0 && NoRepeats(v) && NoRepeats(b) && Dominates(v, x, y) && Dominates(b, x, y)
    requires y in Keys(Ranks(v, k) + Ranks(b, k))
    ensures Score(Ranks(v, k) + Ranks(b, k), x) > Score(Ranks(v, k) + Ranks(b, k), y)
  {
    var entries := Ranks(v, k) + Ranks(b, k);
    var e :| e in entries && e.hit.key == y;
    var n :| 0 <= n < |entries| && entries[n] == e;
    assert n < |v| ==> v[n].key == y;
    assert n >= |v| ==> b[n - |v|].key == y;
    DominatesScore(v, k, x, y);
    DominatesScore(b, k, x, y);
    ScoreConcat(Ranks(v, k), Ranks(b, k), x);
    ScoreConcat(Ranks(v, k), Ranks(b, k), y);
  }

  lemma HigherScoreFirst<K(!new)>(entries: seq<Scored<K>>, less: (K, K) -> bool, keys: seq<K>, p: nat, q: nat)
    requires Sorted(ByScore(entries, less), keys) && p < |keys| && q < |keys|
    requires Score(entries, keys[p]) > Score(entries, keys[q])
    ensures p < q
  {
    assert ByScore(entries, less)(keys[p], keys[q]);
    if q < p {
      SortedPair(ByScore(entries, less), keys, q, p);
    }
  }

  // A key that both lists put before another is put before it in the fusion.
  lemma DominanceKept<K(!new)>(v: seq<Hit<K>>, b: seq<Hit<K>>, k: real, less: (K, K) -> bool, keys: seq<K>, p: nat, q: nat)
    requires k > -1.0 && TotalOrder(less) && NoRepeats(v) && NoRepeats(b)
    requires IsRanking(Ranks(v, k) + Ranks(b, k), less, keys) && p < |keys| && q < |keys|
    requires Dominates(v, keys[p], keys[q]) && Dominates(b, keys[p], keys[q])
    ensures p < q
  {
    assert keys[q] in multiset(keys);
    DominatesTotal(v, b, k, keys[p], keys[q]);
    HigherScoreFirst(Ranks(v, k) + Ranks(b, k), less, keys, p, q);
  }

  // ----- Keys are strings -----

  // Rust compares strings by code point.
  predicate StringLess(a: string, b: string) {
    |b| > 0 && (|a| == 0 || a[0] < b[0] || (a[0] == b[0] && StringLess(a[1..], b[1..])))
  }

  lemma StringLessTotal()
    ensures TotalOrder(StringLess)
  {
    forall x: string, y: string, z: string ensures TotalAt(StringLess, x, y, z) {
      StringLessAt(x, y, z);
      NotLess(x);
    }
  }

  lemma {:induction false} NotLess(x: string)
    ensures !StringLess(x, x)
  {
    if |x| > 0 {
      NotLess(x[1..]);
    }
  }

  lemma {:induction false} StringLessAt(x: string, y: string, z: string)
    ensures x == y || StringLess(x, y) || StringLess(y, x)
    ensures StringLess(x, y) && StringLess(y, z) ==> StringLess(x, z)
    decreases |x| + |y| + |z|
  {
    if |x| > 0 && |y| > 0 {
      StringLessAt(x[1..], y[1..], if |z| > 0 then z[1..] else z);
      assert x[0] == y[0] && x[1..] == y[1..] ==> x == y;
    }
  }
}
