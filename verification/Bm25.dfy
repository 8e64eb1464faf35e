// The BM25 index of rust_core/src/bm25.rs, over the reals. Hash maps are walked by picking
// any key that is left, so every result below holds for every walking order.
module Bm25 {
  import opened Options
  import opened Sequences
  import opened Sums
  import opened Ranking

  type Term = string
  type Document = seq<Term>

  // ln is any function; only FlooredExactly uses that it is increasing.
  datatype Params = Params(k1: real, b: real, epsilon: real, ln: real -> real) {
    predicate Valid() {
      k1 >= 0.0 && 0.0 <= b <= 1.0
    }
  }

  datatype Index = Index(
    params: Params,
    avgdl: real,
    docLen: seq<nat>,
    idf: map<Term, real>,
    postings: map<Term, seq<(nat, nat)>>,
    corpus: seq<Document>)

  // ----- What the index of a corpus is -----

  function TotalTokens(corpus: seq<Document>): nat {
    if |corpus| == 0 then 0 else TotalTokens(corpus[..|corpus| - 1]) + |corpus[|corpus| - 1]|
  }

  function Avgdl(corpus: seq<Document>): real {
    if |corpus| > 0 then TotalTokens(corpus) as real / |corpus| as real else 0.0
  }

  function Vocabulary(corpus: seq<Document>): set<Term> {
    if |corpus| == 0 then {} else Vocabulary(corpus[..|corpus| - 1]) + Elements(corpus[|corpus| - 1])
  }

  // In how many documents w occurs.
  function DocFreq(corpus: seq<Document>, w: Term): nat {
    if |corpus| == 0 then 0
    else DocFreq(corpus[..|corpus| - 1], w) + if Count(corpus[|corpus| - 1], w) > 0 then 1 else 0
  }

  // The documents with w in them, and how often each has it.
  function Postings(corpus: seq<Document>, w: Term): seq<(nat, nat)> {
    if |corpus| == 0 then []
    else
      var n := Count(corpus[|corpus| - 1], w);
      Postings(corpus[..|corpus| - 1], w) + if n > 0 then [(|corpus| - 1, n)] else []
  }

  function DocFreqs(corpus: seq<Document>): map<Term, nat> {
    map w | w in Vocabulary(corpus) :: DocFreq(corpus, w)
  }

  function Seen<T(==)>(nd: map<T, nat>, w: T): nat {
    if w in nd then nd[w] else 0
  }

  // The idf of a term before flooring, from the document frequencies.
  function RawIdf<T(==)>(p: Params, size: nat, nd: map<T, nat>): T -> real {
    w => p.ln(size as real - Seen(nd, w) as real + 0.5) - p.ln(Seen(nd, w) as real + 0.5)
  }

  // epsilon times the average over the distinct terms.
  function FloorFrom(p: Params, idfSum: real, terms: nat): real {
    p.epsilon * (idfSum / (if terms > 0 then terms else 1) as real)
  }

  ghost function Floor<T>(p: Params, size: nat, nd: map<T, nat>): real {
    FloorFrom(p, Total(RawIdf(p, size, nd))(nd.Keys), |nd|)
  }

  function Idf<T(==)>(p: Params, size: nat, nd: map<T, nat>, floor: real): map<T, real> {
    map w | w in nd.Keys :: if RawIdf(p, size, nd)(w) < 0.0 then floor else RawIdf(p, size, nd)(w)
  }

  ghost function IndexOf(p: Params, corpus: seq<Document>): Index {
    Index(p, Avgdl(corpus),
          seq(|corpus|, d requires 0 <= d < |corpus| => |corpus[d]|),
          Idf(p, |corpus|, DocFreqs(corpus), Floor(p, |corpus|, DocFreqs(corpus))),
          map w | w in Vocabulary(corpus) :: Postings(corpus, w),
          corpus)
  }

  predicate IncreasesBetween(ln: real -> real, x: real, y: real) {
    0.0 < x < y ==> ln(x) < ln(y)
  }

  ghost predicate StrictlyIncreasing(ln: real -> real) {
    forall x, y :: IncreasesBetween(ln, x, y)
  }

  // n documents with a term and m without: the idf is negative exactly when n > m.
  lemma LnSign(ln: real -> real, n: nat, m: nat)
    requires StrictlyIncreasing(ln)
    ensures ln(m as real + 0.5) - ln(n as real + 0.5) < 0.0 <==> n > m
  {
    var x, y := m as real + 0.5, n as real + 0.5;
    assert IncreasesBetween(ln, x, y) && IncreasesBetween(ln, y, x);
  }

  lemma {:induction false} DocFreqRange(corpus: seq<Document>, w: Term)
    ensures w in Vocabulary(corpus) <==> DocFreq(corpus, w) > 0
    ensures DocFreq(corpus, w) <= |corpus|
  {
    if |corpus| > 0 {
      DocFreqRange(corpus[..|corpus| - 1], w);
      CountPositive(corpus[|corpus| - 1], w);
    }
  }

  // The floor replaces the idf of exactly the terms found in more than half the documents.
  lemma FlooredExactly<T>(p: Params, size: nat, nd: map<T, nat>, floor: real, w: T)
    requires StrictlyIncreasing(p.ln) && w in nd && nd[w] <= size
    ensures Idf(p, size, nd, floor)[w] ==
            if 2 * nd[w] > size then floor else p.ln((size - nd[w]) as real + 0.5) - p.ln(nd[w] as real + 0.5)
  {
    LnSign(p.ln, nd[w], size - nd[w]);
    assert size as real - nd[w] as real + 0.5 == (size - nd[w]) as real + 0.5;
  }

  // ----- Building the index -----

  method Frequencies(doc: Document) returns (freqs: map<Term, nat>)
    ensures freqs.Keys == Elements(doc)
    ensures forall w :: w in freqs ==> freqs[w] == Count(doc, w)
  {
    freqs := map[];
    for i := 0 to |doc|
      invariant freqs.Keys == Elements(doc[..i])
      invariant forall w :: w in freqs ==> freqs[w] == Count(doc[..i], w)
    {
      var w := doc[i];
      assert doc[..i + 1] == doc[..i] + [w] && doc[..i + 1][..i] == doc[..i];
      CountPositive(doc[..i], w);
      freqs := freqs[w := (if w in freqs then freqs[w] else 0) + 1];
    }
    assert doc[..|doc|] == doc;
  }

  function Listed(postings: map<Term, seq<(nat, nat)>>, w: Term): seq<(nat, nat)> {
    if w in postings then postings[w] else []
  }

  ghost predicate Built(corpus: seq<Document>, postings: map<Term, seq<(nat, nat)>>, nd: map<Term, nat>) {
    && postings == (map w | w in Vocabulary(corpus) :: Postings(corpus, w))
    && nd == DocFreqs(corpus)
  }

  // The maps while the terms of a document are entered, in any order; `todo` are still to come.
  ghost predicate EnteringPostings(front: seq<Document>, doc: Document, todo: set<Term>, postings: map<Term, seq<(nat, nat)>>) {
    && postings.Keys == Vocabulary(front) + (Elements(doc) - todo)
    && (forall w :: w in postings ==> postings[w] == Postings(if w in todo then front else front + [doc], w))
  }

  ghost predicate EnteringCounts(front: seq<Document>, doc: Document, todo: set<Term>, nd: map<Term, nat>) {
    && nd.Keys == Vocabulary(front) + (Elements(doc) - todo)
    && (forall w :: w in nd ==> nd[w] == DocFreq(if w in todo then front else front + [doc], w))
  }

  lemma AppendDocument(front: seq<Document>, doc: Document, w: Term)
    ensures Vocabulary(front + [doc]) == Vocabulary(front) + Elements(doc)
    ensures Postings(front + [doc], w) == Postings(front, w) + if w in doc then [(|front|, Count(doc, w))] else []
    ensures DocFreq(front + [doc], w) == DocFreq(front, w) + if w in doc then 1 else 0
  {
    assert (front + [doc])[..|front|] == front;
    CountPositive(doc, w);
  }

  lemma NewTerm(front: seq<Document>, w: Term)
    requires w !in Vocabulary(front)
    ensures Postings(front, w) == [] && DocFreq(front, w) == 0
  {
    if |front| > 0 {
      NewTerm(front[..|front| - 1], w);
      CountPositive(front[|front| - 1], w);
    }
  }

  lemma EnterPosting(front: seq<Document>, doc: Document, todo: set<Term>, postings: map<Term, seq<(nat, nat)>>, w: Term)
    requires EnteringPostings(front, doc, todo, postings) && w in todo && todo <= Elements(doc)
    ensures EnteringPostings(front, doc, todo - {w}, postings[w := Listed(postings, w) + [(|front|, Count(doc, w))]])
  {
    AppendDocument(front, doc, w);
    if w !in postings {
      NewTerm(front, w);
    }
  }

  lemma EnterCount(front: seq<Document>, doc: Document, todo: set<Term>, nd: map<Term, nat>, w: Term)
    requires EnteringCounts(front, doc, todo, nd) && w in todo && todo <= Elements(doc)
    ensures EnteringCounts(front, doc, todo - {w}, nd[w := Seen(nd, w) + 1])
  {
    AppendDocument(front, doc, w);
    if w !in nd {
      NewTerm(front, w);
    }
  }

  lemma StartEntering(front: seq<Document>, doc: Document, postings: map<Term, seq<(nat, nat)>>, nd: map<Term, nat>)
    requires Built(front, postings, nd)
    ensures EnteringPostings(front, doc, Elements(doc), postings) && EnteringCounts(front, doc, Elements(doc), nd)
  {
    forall w | w in Vocabulary(front) && w !in Elements(doc)
      ensures Postings(front + [doc], w) == Postings(front, w) && DocFreq(front + [doc], w) == DocFreq(front, w)
    {
      AppendDocument(front, doc, w);
    }
  }

  lemma FinishEntering(front: seq<Document>, doc: Document, postings: map<Term, seq<(nat, nat)>>, nd: map<Term, nat>)
    requires EnteringPostings(front, doc, {}, postings) && EnteringCounts(front, doc, {}, nd)
    ensures Built(front + [doc], postings, nd)
  {
    AppendDocument(front, doc, "");
    assert Vocabulary(front) + (Elements(doc) - {}) == Vocabulary(front + [doc]);
  }

  method EnterDocument(ghost front: seq<Document>, docId: nat, doc: Document,
                       postings: map<Term, seq<(nat, nat)>>, nd: map<Term, nat>)
    returns (postings': map<Term, seq<(nat, nat)>>, nd': map<Term, nat>)
    requires Built(front, postings, nd) && docId == |front|
    ensures Built(front + [doc], postings', nd')
  {
    var freqs := Frequencies(doc);
    postings', nd' := postings, nd;
    var todo := freqs.Keys;
    StartEntering(front, doc, postings, nd);
    while todo != {}
      invariant todo <= Elements(doc)
      invariant EnteringPostings(front, doc, todo, postings') && EnteringCounts(front, doc, todo, nd')
      decreases |todo|
    {
      var w :| w in todo;
      EnterPosting(front, doc, todo, postings', w);
      EnterCount(front, doc, todo, nd', w);
      postings' := postings'[w := Listed(postings', w) + [(docId, freqs[w])]];
      nd' := nd'[w := Seen(nd', w) + 1];
      todo := todo - {w};
    }
    FinishEntering(front, doc, postings', nd');
  }

  // The first pass over the document frequencies: every value, their sum, and the negative ones.
  method Values<T(==,!new)>(terms: set<T>, value: T -> real, ghost total: set<T> -> real)
    returns (idf: map<T, real>, idfSum: real, negative: set<T>)
    requires AddsUp(total, value)
    ensures idf == ValuesOf(terms, value) && negative == NegativeOf(terms, value)
    ensures idfSum == total(terms)
  {
    idf, idfSum, negative := map[], 0.0, {};
    var todo := terms;
    ghost var done: set<T> := {};
    while todo != {}
      invariant todo !! done && todo + done == terms
      invariant idf == ValuesOf(done, value) && negative == NegativeOf(done, value)
      invariant idfSum == total(done)
      decreases |todo|
    {
      var w :| w in todo;
      assert AddsAt(total, value, done, w);
      ValuesAdd(done, value, w);
      idf := idf[w := value(w)];
      idfSum := idfSum + value(w);
      if value(w) < 0.0 {
        negative := negative + {w};
      }
      todo, done := todo - {w}, done + {w};
    }
    assert done == terms;
  }

  function ValuesOf<T(==)>(terms: set<T>, value: T -> real): map<T, real> {
    map w | w in terms :: value(w)
  }

  function NegativeOf<T(==)>(terms: set<T>, value: T -> real): set<T> {
    set w | w in terms && value(w) < 0.0
  }

  lemma ValuesAdd<T>(terms: set<T>, value: T -> real, w: T)
    ensures ValuesOf(terms + {w}, value) == ValuesOf(terms, value)[w := value(w)]
    ensures NegativeOf(terms + {w}, value) == NegativeOf(terms, value) + if value(w) < 0.0 then {w} else {}
  {}

  function FlooredMap<T(==)>(idf: map<T, real>, negative: set<T>, floor: real): map<T, real> {
    map w | w in idf :: if w in negative then floor else idf[w]
  }

  lemma FlooredIsIdf<T>(p: Params, size: nat, nd: map<T, nat>, floor: real)
    ensures FlooredMap(ValuesOf(nd.Keys, RawIdf(p, size, nd)), NegativeOf(nd.Keys, RawIdf(p, size, nd)), floor)
            == Idf(p, size, nd, floor)
  {}

  // The second pass: the negative values give way to the floor.
  method Floored<T(==)>(idf: map<T, real>, negative: set<T>, floor: real) returns (floored: map<T, real>)
    requires negative <= idf.Keys
    ensures floored == FlooredMap(idf, negative, floor)
  {
    floored := idf;
    var todo := negative;
    while todo != {}
      invariant todo <= negative
      invariant floored == FlooredMap(idf, negative - todo, floor)
      decreases |todo|
    {
      var w :| w in todo;
      floored := floored[w := floor];
      todo := todo - {w};
    }
  }

  method InverseFrequencies<T(==,!new)>(p: Params, size: nat, nd: map<T, nat>, ghost total: set<T> -> real)
    returns (idf: map<T, real>)
    requires AddsUp(total, RawIdf(p, size, nd))
    ensures idf == Idf(p, size, nd, FloorFrom(p, total(nd.Keys), |nd|))
  {
    var values, idfSum, negative := Values(nd.Keys, RawIdf(p, size, nd), total);
    var eps := FloorFrom(p, idfSum, |nd|);
    idf := Floored(values, negative, eps);
    FlooredIsIdf(p, size, nd, eps);
  }

  // The index depends on the corpus alone, whatever order the maps are walked in.
  method BuildIndex(corpus: seq<Document>, p: Params) returns (index: Index)
    ensures index == IndexOf(p, corpus)
  {
    var docLen: seq<nat> := [];
    var postings: map<Term, seq<(nat, nat)>> := map[];
    var nd: map<Term, nat> := map[];
    var totalTokens: nat := 0;
    for i := 0 to |corpus|
      invariant |docLen| == i && forall d :: 0 <= d < i ==> docLen[d] == |corpus[d]|
      invariant totalTokens == TotalTokens(corpus[..i])
      invariant Built(corpus[..i], postings, nd)
    {
      assert corpus[..i + 1] == corpus[..i] + [corpus[i]] && corpus[..i + 1][..i] == corpus[..i];
      docLen := docLen + [|corpus[i]|];
      totalTokens := totalTokens + |corpus[i]|;
      postings, nd := EnterDocument(corpus[..i], i, corpus[i], postings, nd);
    }
    assert corpus[..|corpus|] == corpus;
    var avgdl := if |corpus| > 0 then totalTokens as real / |corpus| as real else 0.0;
    TotalAddsUp(RawIdf(p, |corpus|, nd));
    var idf := InverseFrequencies(p, |corpus|, nd, Total(RawIdf(p, |corpus|, nd)));
    index := Index(p, avgdl, docLen, idf, postings, corpus);
  }

  // ----- Scoring a query -----

  // What scoring relies on besides the idf values.
  ghost predicate Structured(index: Index) {
    && index.avgdl == Avgdl(index.corpus)
    && index.docLen == seq(|index.corpus|, d requires 0 <= d < |index.corpus| => |index.corpus[d]|)
    && index.idf.Keys == Vocabulary(index.corpus)
    && index.postings == map w | w in Vocabulary(index.corpus) :: Postings(index.corpus, w)
  }

  lemma IndexStructured(p: Params, corpus: seq<Document>)
    ensures Structured(IndexOf(p, corpus))
  {}

  function LengthNorm(p: Params, avgdl: real, len: nat): real
    requires avgdl > 0.0
  {
    1.0 - p.b + p.b * len as real / avgdl
  }

  function Denominator(p: Params, avgdl: real, f: nat, len: nat): real
    requires avgdl > 0.0
  {
    f as real + p.k1 * LengthNorm(p, avgdl, len)
  }

  // How much f occurrences in a document of len tokens count.
  function Saturation(p: Params, avgdl: real, f: nat, len: nat): real {
    if f > 0 && avgdl > 0.0 && Denominator(p, avgdl, f, len) != 0.0
    then f as real * (p.k1 + 1.0) / Denominator(p, avgdl, f, len)
    else 0.0
  }

  // Every denominator met is positive.
  lemma DenominatorPositive(p: Params, avgdl: real, f: nat, len: nat)
    requires p.Valid() && avgdl > 0.0 && f > 0
    ensures Denominator(p, avgdl, f, len) > 0.0
  {
    NormNotNegative(p, avgdl, len);
    ProductNotNegative(p.k1, LengthNorm(p, avgdl, len));
  }

  lemma NormNotNegative(p: Params, avgdl: real, len: nat)
    requires p.Valid() && avgdl > 0.0
    ensures LengthNorm(p, avgdl, len) >= 0.0
  {
    ProductNotNegative(p.b, len as real);
    QuotientNotNegative(p.b * len as real, avgdl);
  }

  lemma QuotientNotNegative(x: real, y: real)
    requires x >= 0.0 && y > 0.0
    ensures x / y >= 0.0
  {}

  lemma ProductNotNegative(x: real, y: real)
    requires x >= 0.0 && y >= 0.0
    ensures x * y >= 0.0
  {}

  lemma {:induction false} TokensCounted(corpus: seq<Document>, d: nat)
    requires d < |corpus|
    ensures TotalTokens(corpus) >= |corpus[d]|
  {
    if d < |corpus| - 1 {
      TokensCounted(corpus[..|corpus| - 1], d);
    }
  }

  lemma AvgdlPositive(corpus: seq<Document>, d: nat, w: Term)
    requires d < |corpus| && Count(corpus[d], w) > 0
    ensures Avgdl(corpus) > 0.0
  {
    TokensCounted(corpus, d);
    CountPositive(corpus[d], w);
  }

  // idf times saturated term frequency; nothing for a term the document or the index lacks.
  function Weight(index: Index, d: nat): Term -> real {
    w => if d < |index.corpus| && w in index.idf
         then index.idf[w] * Saturation(index.params, index.avgdl, Count(index.corpus[d], w), |index.corpus[d]|)
         else 0.0
  }

  // A term that a document has is in the idf table, occurs, and leaves avgdl positive...
  lemma TermPresent(index: Index, d: nat, w: Term)
    requires Structured(index) && d < |index.corpus| && w in index.corpus[d]
    ensures w in index.idf && Count(index.corpus[d], w) > 0 && index.avgdl > 0.0
  {
    CountPositive(index.corpus[d], w);
    AvgdlPositive(index.corpus, d, w);
    InVocabulary(index.corpus, d, w);
  }

  // ... so there the saturation is the BM25 formula unless its denominator is zero, which it is
  // not for the usual parameters.
  lemma SaturationIsFormula(p: Params, avgdl: real, f: nat, len: nat)
    requires avgdl > 0.0 && f > 0 && (p.Valid() || Denominator(p, avgdl, f, len) != 0.0)
    ensures p.Valid() ==> Denominator(p, avgdl, f, len) > 0.0
    ensures Denominator(p, avgdl, f, len) != 0.0
    ensures Saturation(p, avgdl, f, len) == f as real * (p.k1 + 1.0) / Denominator(p, avgdl, f, len)
  {
    if p.Valid() {
      DenominatorPositive(p, avgdl, f, len);
    }
  }

  predicate DefinedAt(index: Index, w: Term, d: nat)
    requires d < |index.corpus|
  {
    Count(index.corpus[d], w) > 0 && index.avgdl > 0.0 ==>
      Denominator(index.params, index.avgdl, Count(index.corpus[d], w), |index.corpus[d]|) != 0.0
  }

  // No posting of w has a zero denominator.
  ghost predicate Defined(index: Index, w: Term) {
    forall d: nat :: d < |index.corpus| ==> DefinedAt(index, w, d)
  }

  ghost predicate AllDefined(index: Index, query: seq<Term>) {
    forall w :: w in query ==> Defined(index, w)
  }

  // The usual parameters, k1 not negative and b from 0 to 1, leave none zero.
  lemma ValidDefined(index: Index, query: seq<Term>)
    requires index.params.Valid()
    ensures AllDefined(index, query)
  {
    forall w, d: nat | w in query && d < |index.corpus| ensures DefinedAt(index, w, d) {
      if Count(index.corpus[d], w) > 0 && index.avgdl > 0.0 {
        DenominatorPositive(index.params, index.avgdl, Count(index.corpus[d], w), |index.corpus[d]|);
      }
    }
  }

  lemma {:induction false} InVocabulary(corpus: seq<Document>, d: nat, w: Term)
    requires d < |corpus| && w in corpus[d]
    ensures w in Vocabulary(corpus)
  {
    if d < |corpus| - 1 {
      InVocabulary(corpus[..|corpus| - 1], d, w);
    }
  }

  lemma {:induction false} PostingsPrefix(corpus: seq<Document>, n: nat, w: Term)
    requires n <= |corpus|
    ensures Postings(corpus[..n], w) <= Postings(corpus, w)
    ensures |Postings(corpus[..n], w)| == |Postings(corpus, w)| ==> forall d :: n <= d < |corpus| ==> Count(corpus[d], w) == 0
    decreases |corpus|
  {
    if n < |corpus| {
      var front := corpus[..|corpus| - 1];
      PostingsPrefix(front, n, w);
      assert front[..n] == corpus[..n];
      assert forall d :: n <= d < |front| ==> front[d] == corpus[d];
    } else {
      assert corpus[..n] == corpus;
    }
  }

  lemma PrefixShorter(corpus: seq<Document>, n: nat, w: Term)
    requires n <= |corpus| && |Postings(corpus[..n], w)| < |Postings(corpus, w)|
    ensures n < |corpus|
  {
    assert corpus[..|corpus|] == corpus;
  }

  // The posting after those of the first n documents is of the next document that has w.
  lemma {:induction false} NextPosting(corpus: seq<Document>, w: Term, n: nat)
    requires n <= |corpus| && |Postings(corpus[..n], w)| < |Postings(corpus, w)|
    ensures var (id, f) := Postings(corpus, w)[|Postings(corpus[..n], w)|];
            && n <= id < |corpus| && f == Count(corpus[id], w) > 0
            && (forall d :: n <= d < id ==> Count(corpus[d], w) == 0)
            && |Postings(corpus[..id + 1], w)| == |Postings(corpus[..n], w)| + 1
    decreases |corpus| - n
  {
    PrefixShorter(corpus, n, w);
    assert corpus[..n + 1][..n] == corpus[..n];
    PostingsPrefix(corpus, n + 1, w);
    if Count(corpus[n], w) == 0 {
      NextPosting(corpus, w, n + 1);
    }
  }

  // scores with gain(d) added for the first n documents.
  predicate Added(gain: nat -> real, before: seq<real>, scores: seq<real>, n: nat) {
    && |scores| == |before|
    && forall d :: 0 <= d < |scores| ==> scores[d] == before[d] + if d < n then gain(d) else 0.0
  }

  lemma NothingAdded(gain: nat -> real, before: seq<real>, scores: seq<real>, n: nat, m: nat)
    requires Added(gain, before, scores, n) && n <= m
    requires forall d :: n <= d < m ==> gain(d) == 0.0
    ensures Added(gain, before, scores, m)
  {}

  lemma AddedAt(gain: nat -> real, before: seq<real>, scores: seq<real>, id: nat)
    requires Added(gain, before, scores, id) && id < |scores|
    ensures Added(gain, before, scores[id := scores[id] + gain(id)], id + 1)
  {}

  // What token w brings to each document when the query has it count times.
  function Gain(index: Index, w: Term, count: nat): nat -> real {
    (d: nat) => count as real * Weight(index, d)(w)
  }

  lemma GainAt(index: Index, w: Term, count: nat, d: nat)
    requires w in index.idf && d < |index.corpus|
    ensures Gain(index, w, count)(d) == count as real *
              (index.idf[w] * Saturation(index.params, index.avgdl, Count(index.corpus[d], w), |index.corpus[d]|))
  {
    var weight := Weight(index, d)(w);
  }

  lemma NoGain(index: Index, w: Term, count: nat, d: nat)
    requires w !in index.idf || d >= |index.corpus| || Count(index.corpus[d], w) == 0
    ensures Gain(index, w, count)(d) == 0.0
  {
    assert Weight(index, d)(w) == 0.0;
  }

  lemma Regroup(count: real, idf: real, x: real)
    ensures count * idf * x == count * (idf * x)
  {}

  // One posting's share: avgdl is positive here, and the denominator is not zero.
  function Share(p: Params, avgdl: real, idf: real, count: nat, freq: nat, len: nat): (gain: real)
    requires avgdl > 0.0 && freq > 0 && Denominator(p, avgdl, freq, len) != 0.0
    ensures gain == count as real * (idf * Saturation(p, avgdl, freq, len))
  {
    Regroup(count as real, idf, freq as real * (p.k1 + 1.0) / Denominator(p, avgdl, freq, len));
    count as real * idf * (freq as real * (p.k1 + 1.0) / Denominator(p, avgdl, freq, len))
  }

  // Entering one posting moves past the documents before it, which gain nothing, and its own.
  lemma PostingStep(corpus: seq<Document>, w: Term, gain: nat -> real, before: seq<real>, scores: seq<real>, n: nat)
    requires n <= |corpus| == |scores| && |Postings(corpus[..n], w)| < |Postings(corpus, w)|
    requires forall d: nat :: d < |corpus| && Count(corpus[d], w) == 0 ==> gain(d) == 0.0
    requires Added(gain, before, scores, n)
    ensures var (docId, freq) := Postings(corpus, w)[|Postings(corpus[..n], w)|];
            && docId < |corpus| && freq == Count(corpus[docId], w) > 0
            && |Postings(corpus[..docId + 1], w)| == |Postings(corpus[..n], w)| + 1
            && Added(gain, before, scores[docId := scores[docId] + gain(docId)], docId + 1)
  {
    NextPosting(corpus, w, n);
    var (docId, freq) := Postings(corpus, w)[|Postings(corpus[..n], w)|];
    NothingAdded(gain, before, scores, n, docId);
    AddedAt(gain, before, scores, docId);
  }

  lemma PostingsEnd(corpus: seq<Document>, w: Term, gain: nat -> real, before: seq<real>, scores: seq<real>, n: nat)
    requires n <= |corpus| && Added(gain, before, scores, n)
    requires forall d: nat :: d < |corpus| && Count(corpus[d], w) == 0 ==> gain(d) == 0.0
    requires |Postings(corpus[..n], w)| == |Postings(corpus, w)|
    ensures Added(gain, before, scores, |corpus|)
  {
    PostingsPrefix(corpus, n, w);
    NothingAdded(gain, before, scores, n, |corpus|);
  }

  // The share as the source computes it: avgdl divides a length.
  method PostingShare(index: Index, w: Term, count: nat, docId: nat, freq: nat) returns (share: real)
    requires Structured(index) && w in index.idf
    requires docId < |index.corpus| && freq == Count(index.corpus[docId], w) > 0 && DefinedAt(index, w, docId)
    ensures share == Gain(index, w, count)(docId)
  {
    AvgdlPositive(index.corpus, docId, w);
    GainAt(index, w, count, docId);
    share := Share(index.params, index.avgdl, index.idf[w], count, freq, index.docLen[docId]);
  }

  method AddPostings(index: Index, w: Term, count: nat, before: seq<real>, ghost gain: nat -> real) returns (scores: seq<real>)
    requires Defined(index, w) && Structured(index) && |before| == |index.corpus|
    requires gain == Gain(index, w, count)
    ensures Added(gain, before, scores, |index.corpus|)
  {
    scores := before;
    ghost var n: nat := 0;
    ghost var corpus := index.corpus;
    forall d: nat | w !in index.idf || (d < |corpus| && Count(corpus[d], w) == 0) ensures gain(d) == 0.0 {
      NoGain(index, w, count, d);
    }
    if w in index.idf && w in index.postings {
      var plist := index.postings[w];
      for j := 0 to |plist|
        invariant n <= |corpus| && |Postings(corpus[..n], w)| == j
        invariant Added(gain, before, scores, n)
      {
        PostingStep(corpus, w, gain, before, scores, n);
        var (docId, freq) := plist[j];
        assert DefinedAt(index, w, docId);
        var share := PostingShare(index, w, count, docId, freq);
        scores := scores[docId := scores[docId] + share];
        n := docId + 1;
      }
      PostingsEnd(corpus, w, gain, before, scores, n);
    }
  }

  // What the distinct tokens in a set bring to document d, repeats counted.
  ghost predicate ScoresTotal(index: Index, query: seq<Term>, total: (nat, set<Term>) -> real) {
    forall d: nat, s: set<Term>, w: Term :: TokenTotalAt(index, query, total, d, s, w)
  }

  ghost predicate TokenTotalAt(index: Index, query: seq<Term>, total: (nat, set<Term>) -> real, d: nat, s: set<Term>, w: Term) {
    total(d, {}) == 0.0 && (w !in s ==> total(d, s + {w}) == total(d, s) + Gain(index, w, Count(query, w))(d))
  }

  predicate Scored(total: (nat, set<Term>) -> real, scores: seq<real>, done: set<Term>) {
    forall d: nat :: d < |scores| ==> scores[d] == total(d, done)
  }

  lemma TokenScored(index: Index, query: seq<Term>, total: (nat, set<Term>) -> real,
                    before: seq<real>, scores: seq<real>, done: set<Term>, w: Term)
    requires ScoresTotal(index, query, total) && Scored(total, before, done) && w !in done
    requires Added(Gain(index, w, Count(query, w)), before, scores, |scores|)
    ensures Scored(total, scores, done + {w})
  {
    forall d: nat | d < |scores| ensures scores[d] == total(d, done + {w}) {
      assert TokenTotalAt(index, query, total, d, done, w);
    }
  }

  lemma NothingScored(index: Index, query: seq<Term>, total: (nat, set<Term>) -> real, n: nat)
    requires ScoresTotal(index, query, total)
    ensures Scored(total, seq(n, _ => 0.0), {})
  {
    forall d: nat | d < n ensures total(d, {}) == 0.0 {
      assert TokenTotalAt(index, query, total, d, {}, []);
    }
  }

  // Each distinct token once, in any order, times its count.
  method ScoreTokens(index: Index, query: seq<Term>, ghost total: (nat, set<Term>) -> real) returns (scores: seq<real>)
    requires AllDefined(index, query) && Structured(index) && ScoresTotal(index, query, total)
    ensures |scores| == |index.corpus| && Scored(total, scores, Elements(query))
  {
    var queryCounts := Frequencies(query);
    scores := seq(|index.corpus|, _ => 0.0);
    NothingScored(index, query, total, |index.corpus|);
    var todo := queryCounts.Keys;
    ghost var done: set<Term> := {};
    while todo != {}
      invariant todo !! done && todo + done == Elements(query)
      invariant |scores| == |index.corpus| && Scored(total, scores, done)
      decreases |todo|
    {
      var w :| w in todo;
      ghost var before := scores;
      scores := AddPostings(index, w, queryCounts[w], scores, Gain(index, w, queryCounts[w]));
      TokenScored(index, query, total, before, scores, done, w);
      todo, done := todo - {w}, done + {w};
    }
    assert done == Elements(query);
  }

  ghost function QueryTotal(index: Index, query: seq<Term>): (nat, set<Term>) -> real {
    (d: nat, s: set<Term>) => SumSet(s, Repeated(query, Weight(index, d)))
  }

  lemma QueryTotalAdds(index: Index, query: seq<Term>)
    ensures ScoresTotal(index, query, QueryTotal(index, query))
  {
    forall d: nat, s: set<Term>, w: Term ensures TokenTotalAt(index, query, QueryTotal(index, query), d, s, w) {
      var f := Repeated(query, Weight(index, d));
      assert f(w) == Gain(index, w, Count(query, w))(d);
      if w !in s {
        SumSetAdd(s, f, w);
      }
    }
  }

  // Scoring with counts of distinct tokens is the plain sum, over the query tokens with their
  // repeats, of idf times saturated term frequency.
  method ScoresForQuery(index: Index, query: seq<Term>) returns (scores: seq<real>)
    requires AllDefined(index, query) && Structured(index)
    ensures |scores| == |index.corpus|
    ensures forall d: nat :: d < |scores| ==> scores[d] == SumList(query, Weight(index, d))
  {
    QueryTotalAdds(index, query);
    scores := ScoreTokens(index, query, QueryTotal(index, query));
    forall d: nat | d < |scores| ensures scores[d] == SumList(query, Weight(index, d)) {
      CountedSum(query, Weight(index, d));
    }
  }

  // ----- Ranking -----

  function ScoreOf(scores: seq<real>, d: nat): real {
    if d < |scores| then scores[d] else 0.0
  }

  // Higher scores first, ties by document id.
  function Ahead(scores: seq<real>): (nat, nat) -> bool {
    (a: nat, b: nat) => ScoreOf(scores, a) > ScoreOf(scores, b) || (ScoreOf(scores, a) == ScoreOf(scores, b) && a < b)
  }

  lemma AheadTotal(scores: seq<real>)
    ensures TotalOrder(Ahead(scores))
  {
    forall x: nat, y: nat, z: nat ensures TotalAt(Ahead(scores), x, y, z) {}
  }

  function Ranked(scores: seq<real>, docIds: seq<nat>, topN: nat): seq<(nat, real)> {
    var top := Take(Sort(Ahead(scores), docIds), topN);
    seq(|top|, i requires 0 <= i < |top| => (top[i], ScoreOf(scores, top[i])))
  }

  function AllIds(n: nat): seq<nat> {
    seq(n, i => i)
  }

  // The plain sum of every document.
  function Scores(index: Index, query: seq<Term>): seq<real> {
    seq(|index.corpus|, d requires 0 <= d < |index.corpus| => SumList(query, Weight(index, d)))
  }

  method ScoreTopk(index: Index, query: seq<Term>, topN: nat) returns (top: seq<(nat, real)>)
    requires AllDefined(index, query) && Structured(index)
    ensures top == Ranked(Scores(index, query), AllIds(|index.corpus|), topN)
  {
    if |index.corpus| == 0 {
      return [];
    }
    var scores := ScoresForQuery(index, query);
    assert scores == Scores(index, query);
    top := Ranked(scores, AllIds(|index.corpus|), topN);
  }

  datatype RankError = OutOfRange

  // The allowed ids, each once, in the order of their first occurrence.
  method EachOnce(ids: seq<nat>, size: nat) returns (r: Result<seq<nat>, RankError>)
    ensures r.Ok? <==> forall i :: 0 <= i < |ids| ==> ids[i] < size
    ensures r.Ok? ==> forall d :: multiset(r.value)[d] == if d in ids then 1 else 0
  {
    var seen := seq(size, _ => false);
    var allowed: seq<nat> := [];
    for k := 0 to |ids|
      invariant forall i :: 0 <= i < k ==> ids[i] < size
      invariant |seen| == size && forall d :: 0 <= d < size ==> (seen[d] <==> d in ids[..k])
      invariant forall d :: multiset(allowed)[d] == if d in ids[..k] then 1 else 0
    {
      if ids[k] >= size {
        return Err(OutOfRange);
      }
      assert ids[..k + 1] == ids[..k] + [ids[k]];
      if !seen[ids[k]] {
        seen := seen[ids[k] := true];
        allowed := allowed + [ids[k]];
      }
    }
    assert ids[..|ids|] == ids;
    r := Ok(allowed);
  }

  method ScoreTopkFiltered(index: Index, query: seq<Term>, topN: nat, allowedDocIds: seq<nat>)
    returns (r: Result<seq<(nat, real)>, RankError>)
    requires AllDefined(index, query) && Structured(index)
    ensures r.Ok? <==> |index.corpus| == 0 || forall i :: 0 <= i < |allowedDocIds| ==> allowedDocIds[i] < |index.corpus|
    ensures r.Ok? ==> r.value == Restricted(Scores(index, query), allowedDocIds, topN)
  {
    RestrictedEmpty(Scores(index, query), allowedDocIds, topN);
    if |index.corpus| == 0 || |allowedDocIds| == 0 {
      return Ok([]);
    }
    var distinct := EachOnce(allowedDocIds, |index.corpus|);
    match distinct
    case Err(e) => r := Err(e);
    case Ok(allowed) =>
      var scores := ScoresForQuery(index, query);
      assert scores == Scores(index, query);
      FilteredRanking(scores, allowedDocIds, allowed);
      r := Ok(Ranked(scores, allowed, topN));
  }

  // The full ranking, restricted to the allowed documents, then truncated.
  function Restricted(scores: seq<real>, allowed: seq<nat>, topN: nat): seq<(nat, real)> {
    var top := Take(Filter((d: nat) => d in allowed, Sort(Ahead(scores), AllIds(|scores|))), topN);
    seq(|top|, i requires 0 <= i < |top| => (top[i], ScoreOf(scores, top[i])))
  }

  lemma RestrictedEmpty(scores: seq<real>, allowed: seq<nat>, topN: nat)
    ensures |scores| == 0 || |allowed| == 0 ==> Restricted(scores, allowed, topN) == []
  {
    var keep: nat -> bool := (d: nat) => d in allowed;
    var all: seq<nat> := Sort(Ahead(scores), AllIds(|scores|));
    if |allowed| == 0 && |Filter(keep, all)| > 0 {
      FilterCount(keep, all, Filter(keep, all)[0]);
    }
  }

  lemma AllIdsOnce(n: nat, d: nat)
    ensures multiset(AllIds(n))[d] == if d < n then 1 else 0
  {
    if n > 0 {
      AllIdsOnce(n - 1, d);
      assert AllIds(n) == AllIds(n - 1) + [n - 1];
    }
  }

  // Restricting before the sort, as score_topk_filtered does, and after it is the same.
  lemma FilteredRanking(scores: seq<real>, allowedDocIds: seq<nat>, allowed: seq<nat>)
    requires forall i :: 0 <= i < |allowedDocIds| ==> allowedDocIds[i] < |scores|
    requires forall d :: multiset(allowed)[d] == if d in allowedDocIds then 1 else 0
    ensures Sort(Ahead(scores), allowed)
            == Filter((d: nat) => d in allowedDocIds, Sort(Ahead(scores), AllIds(|scores|)))
  {
    var ahead: (nat, nat) -> bool := Ahead(scores);
    var keep: nat -> bool := (d: nat) => d in allowedDocIds;
    var all: seq<nat> := Sort(ahead, AllIds(|scores|));
    AheadTotal(scores);
    SortIsRanking(ahead, allowed);
    SortIsRanking(ahead, AllIds(|scores|));
    FilterSorted(ahead, keep, all);
    var kept: seq<nat> := Filter(keep, all);
    forall d: nat ensures multiset(kept)[d] == multiset(allowed)[d] {
      FilterCount(keep, all, d);
      AllIdsOnce(|scores|, d);
    }
    assert multiset(kept) == multiset(Sort(ahead, allowed));
    RankingUnique(ahead, Sort(ahead, allowed), kept);
  }

  lemma SortedIds(scores: seq<real>, docIds: seq<nat>) returns (sorted: seq<nat>)
    ensures sorted == Sort(Ahead(scores), docIds)
    ensures Sorted(Ahead(scores), sorted) && multiset(sorted) == multiset(docIds)
  {
    AheadTotal(scores);
    SortIsRanking(Ahead(scores), docIds);
    sorted := Sort(Ahead(scores), docIds);
  }

  // No candidate left out of the top is ahead of one in it, and the top is in order.
  lemma TopIsBest(scores: seq<real>, docIds: seq<nat>, topN: nat, i: nat, d: nat)
    requires i < |Ranked(scores, docIds, topN)| && d in docIds
    requires forall k :: 0 <= k <= i ==> Ranked(scores, docIds, topN)[k].0 != d
    ensures Ahead(scores)(Ranked(scores, docIds, topN)[i].0, d)
  {
    var sorted := SortedIds(scores, docIds);
    assert Ranked(scores, docIds, topN)[i].0 == sorted[i];
    assert d in multiset(sorted);
    var j :| 0 <= j < |sorted| && sorted[j] == d;
    assert forall k :: 0 <= k <= i ==> Ranked(scores, docIds, topN)[k].0 == sorted[k];
    SortedPair(Ahead(scores), sorted, i, j);
  }

  // ----- Rebuilding -----

  function Kept(corpus: seq<Document>, keep: seq<nat>): seq<Document>
    requires forall i :: 0 <= i < |keep| ==> keep[i] < |corpus|
  {
    seq(|keep|, i requires 0 <= i < |keep| => corpus[keep[i]])
  }

  method RebuildFromKept(index: Index, keepIndices: seq<nat>, newTokenized: seq<Document>) returns (r: Result<Index, RankError>)
    ensures r.Ok? <==> forall i :: 0 <= i < |keepIndices| ==> keepIndices[i] < |index.corpus|
    ensures r.Ok? ==> RebuiltAs(index, Change(keepIndices, newTokenized), r.value)
  {
    var corpus: seq<Document> := [];
    for k := 0 to |keepIndices|
      invariant forall i :: 0 <= i < k ==> keepIndices[i] < |index.corpus|
      invariant |corpus| == k && forall i :: 0 <= i < k ==> corpus[i] == index.corpus[keepIndices[i]]
    {
      if keepIndices[k] >= |index.corpus| {
        return Err(OutOfRange);
      }
      corpus := corpus + [index.corpus[keepIndices[k]]];
    }
    assert corpus == Kept(index.corpus, keepIndices);
    var rebuilt := BuildIndex(corpus + newTokenized, index.params);
    r := Ok(rebuilt);
  }

  datatype Change = Change(keep: seq<nat>, added: seq<Document>)

  ghost predicate RebuiltAs(index: Index, c: Change, rebuilt: Index) {
    && (forall i :: 0 <= i < |c.keep| ==> c.keep[i] < |index.corpus|)
    && rebuilt == IndexOf(index.params, Kept(index.corpus, c.keep) + c.added)
  }

  // indexes[k + 1] is what rebuild_from_kept made of indexes[k].
  ghost predicate Chain(indexes: seq<Index>, changes: seq<Change>) {
    |indexes| == |changes| + 1 && forall k: nat :: k < |changes| ==> ChainAt(indexes, changes, k)
  }

  ghost predicate ChainAt(indexes: seq<Index>, changes: seq<Change>, k: nat)
    requires k < |changes| && k + 1 < |indexes|
  {
    RebuiltAs(indexes[k], changes[k], indexes[k + 1])
  }

  // What the documents themselves become, forgetting the index.
  ghost predicate CorpusChain(corpora: seq<seq<Document>>, changes: seq<Change>) {
    |corpora| == |changes| + 1 && forall k: nat :: k < |changes| ==> CorpusAt(corpora, changes, k)
  }

  ghost predicate CorpusAt(corpora: seq<seq<Document>>, changes: seq<Change>, k: nat)
    requires k < |changes| && k + 1 < |corpora|
  {
    && (forall i :: 0 <= i < |changes[k].keep| ==> changes[k].keep[i] < |corpora[k]|)
    && corpora[k + 1] == Kept(corpora[k], changes[k].keep) + changes[k].added
  }

  // Any chain of rebuilds gives the index a fresh build on the resulting documents gives, with
  // what scoring relies on.
  lemma {:induction false} RebuildsAreFresh(p: Params, indexes: seq<Index>, corpora: seq<seq<Document>>, changes: seq<Change>, k: nat)
    requires Chain(indexes, changes) && CorpusChain(corpora, changes) && k <= |changes|
    requires indexes[0] == IndexOf(p, corpora[0])
    ensures indexes[k] == IndexOf(p, corpora[k]) && Structured(indexes[k])
  {
    IndexStructured(p, corpora[k]);
    if k > 0 {
      RebuildsAreFresh(p, indexes, corpora, changes, k - 1);
      assert ChainAt(indexes, changes, k - 1) && CorpusAt(corpora, changes, k - 1);
    }
  }
}
