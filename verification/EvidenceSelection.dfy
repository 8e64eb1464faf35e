// select_verification_docs of src/cogdoc/agents/evidence_verifier.py: which candidates the
// verifier sees. Candidates are distinct objects, named by their places in the list.
module EvidenceSelection {
  import opened Sequences

  type Req = string

  datatype Doc = Doc(chunk: string, source: string, matched: set<Req>)

  function PlaceOf<T(==)>(s: seq<T>, x: T): (k: nat)
    requires x in s
    ensures k < |s| && s[k] == x
  {
    if s[0] == x then 0 else 1 + PlaceOf(s[1..], x)
  }

  // ----- The greedy cover by pinned candidates -----

  function Gain(matched: nat -> set<Req>, open: set<Req>, i: nat): nat {
    |open * matched(i)|
  }

  // The place in s of the first candidate with the greatest gain.
  function Best(matched: nat -> set<Req>, open: set<Req>, s: seq<nat>): (k: nat)
    requires |s| > 0
    ensures k < |s|
    ensures forall j :: 0 <= j < |s| ==> Gain(matched, open, s[j]) <= Gain(matched, open, s[k])
    ensures forall j :: 0 <= j < k ==> Gain(matched, open, s[j]) < Gain(matched, open, s[k])
  {
    if |s| == 1 then 0
    else
      var front := Best(matched, open, s[..|s| - 1]);
      if Gain(matched, open, s[|s| - 1]) > Gain(matched, open, s[front]) then |s| - 1 else front
  }

  function Without<T>(s: seq<T>, k: nat): seq<T>
    requires k < |s|
  {
    s[..k] + s[k + 1..]
  }

  // The candidates picked, each gaining the most of what is still open.
  function Greedy(matched: nat -> set<Req>, open: set<Req>, s: seq<nat>): seq<nat>
    decreases |s|
  {
    if |s| == 0 then []
    else
      var best := s[Best(matched, open, s)];
      if Gain(matched, open, best) == 0 then []
      else [best] + Greedy(matched, open - matched(best), Without(s, Best(matched, open, s)))
  }

  // Some candidate of s matches r.
  predicate Meets(matched: nat -> set<Req>, s: seq<nat>, r: Req) {
    |s| > 0 && (r in matched(s[0]) || Meets(matched, s[1..], r))
  }

  // cover takes candidates of s and meets all the open requirements they meet.
  ghost predicate Covers(matched: nat -> set<Req>, open: set<Req>, s: seq<nat>, cover: seq<nat>) {
    && (forall i :: i in cover ==> i in s)
    && (forall r :: r in open && Meets(matched, s, r) ==> Meets(matched, cover, r))
  }

  lemma {:induction false} MeetsAt(matched: nat -> set<Req>, s: seq<nat>, k: nat, r: Req)
    requires k < |s| && r in matched(s[k])
    ensures Meets(matched, s, r)
  {
    if k > 0 {
      MeetsAt(matched, s[1..], k - 1, r);
    }
  }

  lemma {:induction false} MeetsJoin(matched: nat -> set<Req>, a: seq<nat>, b: seq<nat>, r: Req)
    ensures Meets(matched, a + b, r) <==> Meets(matched, a, r) || Meets(matched, b, r)
  {
    if |a| == 0 {
      assert a + b == b;
    } else {
      assert (a + b)[1..] == a[1..] + b;
      MeetsJoin(matched, a[1..], b, r);
    }
  }

  lemma MeetsWithout(matched: nat -> set<Req>, s: seq<nat>, k: nat, r: Req)
    requires k < |s|
    ensures Meets(matched, s, r) <==> r in matched(s[k]) || Meets(matched, Without(s, k), r)
  {
    assert s == s[..k] + ([s[k]] + s[k + 1..]);
    MeetsJoin(matched, s[..k], [s[k]] + s[k + 1..], r);
    MeetsJoin(matched, [s[k]], s[k + 1..], r);
    MeetsJoin(matched, s[..k], s[k + 1..], r);
  }

  lemma WithoutElements<T>(s: seq<T>, k: nat)
    requires k < |s|
    ensures forall x :: x in s <==> x == s[k] || x in Without(s, k)
  {
    assert s == s[..k] + [s[k]] + s[k + 1..];
  }

  // Without a gain to be had, nothing open is met.
  lemma {:induction false} NoGain(matched: nat -> set<Req>, open: set<Req>, s: seq<nat>, r: Req)
    requires forall j :: 0 <= j < |s| ==> Gain(matched, open, s[j]) == 0
    requires Meets(matched, s, r)
    ensures r !in open
  {
    if r in matched(s[0]) {
      assert Gain(matched, open, s[0]) == 0;
      assert r !in open * matched(s[0]);
    } else {
      NoGain(matched, open, s[1..], r);
    }
  }

  // The picks are candidates and cover all that the candidates match.
  lemma {:induction false} GreedyCovers(matched: nat -> set<Req>, open: set<Req>, s: seq<nat>)
    ensures Covers(matched, open, s, Greedy(matched, open, s))
    decreases |s|
  {
    if |s| > 0 {
      var k := Best(matched, open, s);
      if Gain(matched, open, s[k]) == 0 {
        forall r | Meets(matched, s, r) ensures r !in open {
          NoGain(matched, open, s, r);
        }
      } else {
        var later := Greedy(matched, open - matched(s[k]), Without(s, k));
        GreedyCovers(matched, open - matched(s[k]), Without(s, k));
        WithoutElements(s, k);
        forall r | r in open && Meets(matched, s, r) ensures Meets(matched, [s[k]] + later, r) {
          MeetsWithout(matched, s, k, r);
          MeetsJoin(matched, [s[k]], later, r);
        }
      }
    }
  }

  lemma CardSplit<T>(a: set<T>, b: set<T>)
    ensures |a - b| + |a * b| == |a|
  {
    assert a == (a - b) + (a * b) && (a - b) * (a * b) == {};
  }

  lemma Monotone<T>(a: set<T>, b: set<T>)
    requires a <= b
    ensures |a| <= |b|
  {
    CardSplit(b, a);
    assert b * a == a;
  }

  // Each pick gains something of what can be met at all, so there are no more picks than that.
  lemma {:induction false} GreedyFew(matched: nat -> set<Req>, open: set<Req>, s: seq<nat>, some: set<Req>)
    requires some <= open && forall r :: r in open && Meets(matched, s, r) ==> r in some
    ensures |Greedy(matched, open, s)| <= |some|
    decreases |s|
  {
    if |s| > 0 {
      var k := Best(matched, open, s);
      if Gain(matched, open, s[k]) > 0 {
        var rest := Without(s, k);
        forall r | r in open - matched(s[k]) && Meets(matched, rest, r) ensures r in some - matched(s[k]) {
          MeetsWithout(matched, s, k, r);
        }
        GreedyFew(matched, open - matched(s[k]), rest, some - matched(s[k]));
        CardSplit(some, matched(s[k]));
        GainOf(matched, open, s, k, some);
      }
    }
  }

  // All that a candidate gains can be met.
  lemma GainOf(matched: nat -> set<Req>, open: set<Req>, s: seq<nat>, k: nat, some: set<Req>)
    requires k < |s| && some <= open && forall r :: r in open && Meets(matched, s, r) ==> r in some
    ensures Gain(matched, open, s[k]) == |some * matched(s[k])|
  {
    forall r | r in open && r in matched(s[k]) ensures r in some {
      MeetsAt(matched, s, k, r);
    }
    assert open * matched(s[k]) == some * matched(s[k]);
  }

  // Candidates that each gain at most gain cover no more than that many times their number.
  lemma {:induction false} CoverBound(matched: nat -> set<Req>, some: set<Req>, cover: seq<nat>, gain: nat)
    requires forall i :: 0 <= i < |cover| ==> |some * matched(cover[i])| <= gain
    requires forall r :: r in some ==> Meets(matched, cover, r)
    ensures |some| <= |cover| * gain
    decreases |cover|
  {
    if |cover| == 0 {
      assert some == {};
    } else {
      var rest := some - matched(cover[0]);
      forall i | 0 <= i < |cover[1..]| ensures |rest * matched(cover[1..][i])| <= gain {
        assert cover[1..][i] == cover[i + 1];
        Monotone(rest * matched(cover[i + 1]), some * matched(cover[i + 1]));
      }
      CoverBound(matched, rest, cover[1..], gain);
      CardSplit(some, matched(cover[0]));
      Product(|cover| - 1, gain);
    }
  }

  lemma Product(n: nat, gain: nat)
    ensures (n + 1) * gain == n * gain + gain
  {
  }

  // With three requirements at most, no cover of what the candidates meet is smaller than the
  // greedy one.
  lemma GreedySmallest(matched: nat -> set<Req>, open: set<Req>, s: seq<nat>, some: set<Req>, cover: seq<nat>)
    requires |some| <= 3 && some <= open
    requires forall r :: r in open ==> (Meets(matched, s, r) <==> r in some)
    requires Covers(matched, open, s, cover)
    ensures |Greedy(matched, open, s)| <= |cover|
  {
    GreedyFew(matched, open, s, some);
    if |Greedy(matched, open, s)| > 0 {
      var k := Best(matched, open, s);
      var gain := Gain(matched, open, s[k]);
      forall i | 0 <= i < |cover| ensures |some * matched(cover[i])| <= gain {
        assert cover[i] in cover;
        var j := PlaceOf(s, cover[i]);
        GainOf(matched, open, s, j, some);
      }
      CoverBound(matched, some, cover, gain);
      GainOf(matched, open, s, k, some);
      var rest := some - matched(s[k]);
      CardSplit(some, matched(s[k]));
      forall r | r in open - matched(s[k]) && Meets(matched, Without(s, k), r) ensures r in rest {
        MeetsWithout(matched, s, k, r);
      }
      GreedyFew(matched, open - matched(s[k]), Without(s, k), rest);
      assert |Greedy(matched, open, s)| <= 1 + (|some| - gain);
      if |cover| == 1 {
        assert |some| <= gain;
      }
    }
  }

  // ----- The order in which candidates are taken -----

  // Taken so far: places, the requirements they match, the sources they have.
  datatype Chosen = Chosen(selected: seq<nat>, covered: set<Req>, sources: set<string>)

  const NONE := Chosen([], {}, {})

  function Add(docs: seq<Doc>, at: Chosen, i: nat): Chosen
    requires i < |docs|
  {
    Chosen(
      at.selected + [i], at.covered + docs[i].matched,
      if |docs[i].source| > 0 then at.sources + {docs[i].source} else at.sources)
  }

  type Keep = (Chosen, nat) -> bool

  predicate Places(docs: seq<Doc>, items: seq<nat>) {
    forall i :: 0 <= i < |items| ==> items[i] < |docs|
  }

  // Those of items that keep admits at their turn.
  function Walk(docs: seq<Doc>, keep: Keep, at: Chosen, items: seq<nat>): Chosen
    requires Places(docs, items)
    decreases |items|
  {
    if |items| == 0 then at
    else Walk(docs, keep, if keep(at, items[0]) then Add(docs, at, items[0]) else at, items[1..])
  }

  // The first candidate from i on that was not taken and matches r, or the number of them.
  function FirstMatch(docs: seq<Doc>, at: Chosen, r: Req, i: nat): (k: nat)
    requires i <= |docs|
    ensures i <= k <= |docs|
    ensures k < |docs| ==> k !in at.selected && r in docs[k].matched
    ensures forall j :: i <= j < k ==> j in at.selected || r !in docs[j].matched
    decreases |docs| - i
  {
    if i == |docs| || (i !in at.selected && r in docs[i].matched) then i else FirstMatch(docs, at, r, i + 1)
  }

  // One candidate for every requirement that is still open.
  function ForEach(docs: seq<Doc>, at: Chosen, asked: seq<Req>): Chosen
    decreases |asked|
  {
    if |asked| == 0 then at
    else
      var k := FirstMatch(docs, at, asked[0], 0);
      ForEach(docs, if asked[0] in at.covered || k == |docs| then at else Add(docs, at, k), asked[1..])
  }

  function Range(n: nat): seq<nat> {
    seq(n, i requires 0 <= i < n => i)
  }

  // The places of the pinned candidates from i on.
  function Pinned(docs: seq<Doc>, pinned: set<string>, i: nat): seq<nat>
    requires i <= |docs|
    decreases |docs| - i
  {
    if i == |docs| then []
    else (if |docs[i].chunk| > 0 && docs[i].chunk in pinned then [i] else []) + Pinned(docs, pinned, i + 1)
  }

  function Matching(docs: seq<Doc>): nat -> set<Req> {
    (i: nat) => if i < |docs| then docs[i].matched else {}
  }

  // Items without the places taken from them.
  function Leftover(matched: nat -> set<Req>, open: set<Req>, s: seq<nat>): seq<nat>
    decreases |s|
  {
    if |s| == 0 then []
    else
      var k := Best(matched, open, s);
      if Gain(matched, open, s[k]) == 0 then s else Leftover(matched, open - matched(s[k]), Without(s, k))
  }

  function Always(): Keep {
    (at, i) => true
  }

  function Untaken(): Keep {
    (at: Chosen, i: nat) => i !in at.selected
  }

  function NewSource(docs: seq<Doc>): Keep {
    (at: Chosen, i: nat) => i !in at.selected && !(i < |docs| && |docs[i].source| > 0 && docs[i].source in at.sources)
  }

  // After the pinned candidates: a smallest cover of what is asked, or all of them.
  function AfterPinned(docs: seq<Doc>, asked: seq<Req>, pinned: seq<nat>): Chosen
    requires Places(docs, pinned)
  {
    GreedyPlaces(docs, Elements(asked), pinned);
    if |asked| > 0 then Walk(docs, Always(), NONE, Greedy(Matching(docs), Elements(asked), pinned))
    else Walk(docs, Always(), NONE, pinned)
  }

  function AfterAsked(docs: seq<Doc>, asked: seq<Req>, pinned: seq<nat>): Chosen
    requires Places(docs, pinned)
  {
    ForEach(docs, AfterPinned(docs, asked, pinned), asked)
  }

  // All candidates, in the order in which they are taken.
  function Order(docs: seq<Doc>, asked: seq<Req>, pinned: seq<nat>): seq<nat>
    requires Places(docs, pinned)
  {
    GreedyPlaces(docs, Elements(asked), pinned);
    var remaining := if |asked| > 0 then Leftover(Matching(docs), Elements(asked), pinned) else [];
    var a := Walk(docs, Untaken(), AfterAsked(docs, asked, pinned), remaining);
    var b := Walk(docs, NewSource(docs), a, Range(|docs|));
    Walk(docs, Untaken(), b, Range(|docs|)).selected
  }

  lemma {:induction false} GreedyPlaces(docs: seq<Doc>, open: set<Req>, s: seq<nat>)
    requires Places(docs, s)
    ensures Places(docs, Greedy(Matching(docs), open, s)) && Places(docs, Leftover(Matching(docs), open, s))
    decreases |s|
  {
    if |s| > 0 {
      var k := Best(Matching(docs), open, s);
      if Gain(Matching(docs), open, s[k]) > 0 {
        GreedyPlaces(docs, open - Matching(docs)(s[k]), Without(s, k));
      }
    }
  }

  // ----- Nothing is taken back -----

  lemma {:induction false} WalkExtends(docs: seq<Doc>, keep: Keep, at: Chosen, items: seq<nat>)
    requires Places(docs, items)
    ensures at.selected <= Walk(docs, keep, at, items).selected
    decreases |items|
  {
    if |items| > 0 {
      WalkExtends(docs, keep, if keep(at, items[0]) then Add(docs, at, items[0]) else at, items[1..]);
    }
  }

  lemma {:induction false} ForEachExtends(docs: seq<Doc>, at: Chosen, asked: seq<Req>)
    ensures at.selected <= ForEach(docs, at, asked).selected
    decreases |asked|
  {
    if |asked| > 0 {
      var k := FirstMatch(docs, at, asked[0], 0);
      ForEachExtends(docs, if asked[0] in at.covered || k == |docs| then at else Add(docs, at, k), asked[1..]);
    }
  }

  lemma OrderExtends(docs: seq<Doc>, asked: seq<Req>, pinned: seq<nat>)
    requires Places(docs, pinned)
    ensures AfterPinned(docs, asked, pinned).selected <= AfterAsked(docs, asked, pinned).selected <= Order(docs, asked, pinned)
  {
    GreedyPlaces(docs, Elements(asked), pinned);
    ForEachExtends(docs, AfterPinned(docs, asked, pinned), asked);
    var remaining := if |asked| > 0 then Leftover(Matching(docs), Elements(asked), pinned) else [];
    var at := AfterAsked(docs, asked, pinned);
    WalkExtends(docs, Untaken(), at, remaining);
    var a := Walk(docs, Untaken(), at, remaining);
    WalkExtends(docs, NewSource(docs), a, Range(|docs|));
    WalkExtends(docs, Untaken(), Walk(docs, NewSource(docs), a, Range(|docs|)), Range(|docs|));
  }

  // ----- Every candidate once -----

  predicate NoRepeat(docs: seq<Doc>, s: seq<nat>) {
    Places(docs, s) && Distinct(s)
  }

  lemma DistinctAppend<T>(s: seq<T>, x: T)
    requires Distinct(s) && x !in s
    ensures Distinct(s + [x])
  {
  }

  ghost predicate OnlyNew(keep: Keep) {
    forall at: Chosen, i: nat :: keep(at, i) ==> i !in at.selected
  }

  lemma {:induction false} WalkNoRepeat(docs: seq<Doc>, keep: Keep, at: Chosen, items: seq<nat>)
    requires OnlyNew(keep) && NoRepeat(docs, at.selected) && Places(docs, items)
    ensures NoRepeat(docs, Walk(docs, keep, at, items).selected)
    decreases |items|
  {
    if |items| > 0 {
      if keep(at, items[0]) {
        DistinctAppend(at.selected, items[0]);
      }
      WalkNoRepeat(docs, keep, if keep(at, items[0]) then Add(docs, at, items[0]) else at, items[1..]);
    }
  }

  lemma {:induction false} WalkAll(docs: seq<Doc>, at: Chosen, items: seq<nat>)
    requires Places(docs, items)
    ensures Walk(docs, Always(), at, items).selected == at.selected + items
    decreases |items|
  {
    if |items| == 0 {
      assert at.selected + items == at.selected;
    } else {
      WalkAll(docs, Add(docs, at, items[0]), items[1..]);
      assert at.selected + [items[0]] + items[1..] == at.selected + items;
    }
  }

  lemma {:induction false} WalkTakes(docs: seq<Doc>, at: Chosen, items: seq<nat>, i: nat)
    requires Places(docs, items) && (i in items || i in at.selected)
    ensures i in Walk(docs, Untaken(), at, items).selected
    decreases |items|
  {
    if |items| > 0 {
      var next := if Untaken()(at, items[0]) then Add(docs, at, items[0]) else at;
      assert i in items ==> i == items[0] || i in items[1..];
      WalkTakes(docs, next, items[1..], i);
    }
  }

  lemma {:induction false} ForEachNoRepeat(docs: seq<Doc>, at: Chosen, asked: seq<Req>)
    requires NoRepeat(docs, at.selected)
    ensures NoRepeat(docs, ForEach(docs, at, asked).selected)
    decreases |asked|
  {
    if |asked| > 0 {
      var k := FirstMatch(docs, at, asked[0], 0);
      if asked[0] !in at.covered && k < |docs| {
        DistinctAppend(at.selected, k);
      }
      ForEachNoRepeat(docs, if asked[0] in at.covered || k == |docs| then at else Add(docs, at, k), asked[1..]);
    }
  }

  lemma WithoutDistinct<T>(s: seq<T>, k: nat)
    requires k < |s| && Distinct(s)
    ensures Distinct(Without(s, k)) && s[k] !in Without(s, k)
  {
    var w := Without(s, k);
    assert forall i :: 0 <= i < |w| ==> w[i] == if i < k then s[i] else s[i + 1];
  }

  lemma {:induction false} GreedyDistinct(matched: nat -> set<Req>, open: set<Req>, s: seq<nat>)
    requires Distinct(s)
    ensures Distinct(Greedy(matched, open, s))
    decreases |s|
  {
    if |s| > 0 {
      var k := Best(matched, open, s);
      if Gain(matched, open, s[k]) > 0 {
        WithoutDistinct(s, k);
        GreedyDistinct(matched, open - matched(s[k]), Without(s, k));
        GreedyCovers(matched, open - matched(s[k]), Without(s, k));
      }
    }
  }

  lemma {:induction false} PinnedPlaces(docs: seq<Doc>, pinned: set<string>, i: nat)
    requires i <= |docs|
    ensures NoRepeat(docs, Pinned(docs, pinned, i)) && forall k :: k in Pinned(docs, pinned, i) ==> i <= k
    decreases |docs| - i
  {
    if i < |docs| {
      var rest := Pinned(docs, pinned, i + 1);
      PinnedPlaces(docs, pinned, i + 1);
      assert forall j :: 0 <= j < |rest| ==> rest[j] in rest;
    }
  }

  lemma PinnedNoRepeat(docs: seq<Doc>, asked: seq<Req>, pinned: seq<nat>)
    requires NoRepeat(docs, pinned)
    ensures NoRepeat(docs, AfterPinned(docs, asked, pinned).selected)
  {
    GreedyPlaces(docs, Elements(asked), pinned);
    GreedyDistinct(Matching(docs), Elements(asked), pinned);
    var first := if |asked| > 0 then Greedy(Matching(docs), Elements(asked), pinned) else pinned;
    WalkAll(docs, NONE, first);
    assert [] + first == first;
  }

  lemma OrderNoRepeat(docs: seq<Doc>, asked: seq<Req>, pinned: seq<nat>)
    requires NoRepeat(docs, pinned)
    ensures NoRepeat(docs, Order(docs, asked, pinned))
  {
    GreedyPlaces(docs, Elements(asked), pinned);
    PinnedNoRepeat(docs, asked, pinned);
    ForEachNoRepeat(docs, AfterPinned(docs, asked, pinned), asked);
    var remaining := if |asked| > 0 then Leftover(Matching(docs), Elements(asked), pinned) else [];
    var at := AfterAsked(docs, asked, pinned);
    WalkNoRepeat(docs, Untaken(), at, remaining);
    var a := Walk(docs, Untaken(), at, remaining);
    WalkNoRepeat(docs, NewSource(docs), a, Range(|docs|));
    WalkNoRepeat(docs, Untaken(), Walk(docs, NewSource(docs), a, Range(|docs|)), Range(|docs|));
  }

  lemma OrderTakesAll(docs: seq<Doc>, asked: seq<Req>, pinned: seq<nat>, i: nat)
    requires Places(docs, pinned) && i < |docs|
    ensures i in Order(docs, asked, pinned)
  {
    GreedyPlaces(docs, Elements(asked), pinned);
    var remaining := if |asked| > 0 then Leftover(Matching(docs), Elements(asked), pinned) else [];
    var a := Walk(docs, Untaken(), AfterAsked(docs, asked, pinned), remaining);
    assert Range(|docs|)[i] == i;
    WalkTakes(docs, Walk(docs, NewSource(docs), a, Range(|docs|)), Range(|docs|), i);
  }

  lemma {:induction false} DistinctSize<T>(s: seq<T>)
    requires Distinct(s)
    ensures |Elements(s)| == |s|
  {
    if |s| > 0 {
      DistinctSize(s[1..]);
      assert Elements(s) == {s[0]} + Elements(s[1..]);
    }
  }

  // The order holds every candidate exactly once.
  lemma OrderIsAll(docs: seq<Doc>, asked: seq<Req>, pinned: seq<nat>)
    requires NoRepeat(docs, pinned)
    ensures NoRepeat(docs, Order(docs, asked, pinned)) && |Order(docs, asked, pinned)| == |docs|
  {
    var order := Order(docs, asked, pinned);
    OrderNoRepeat(docs, asked, pinned);
    DistinctSize(order);
    DistinctSize(Range(|docs|));
    forall i | i in Range(|docs|) ensures i in order {
      OrderTakesAll(docs, asked, pinned, i);
    }
    forall i | i in order ensures i in Range(|docs|) {
      assert Range(|docs|)[i] == i;
    }
    assert Elements(order) == Elements(Range(|docs|));
  }

  // ----- What is asked comes first -----

  // covered is what the candidates taken match, and each of them was taken for something asked.
  ghost predicate Earned(docs: seq<Doc>, at: Chosen, asked: set<Req>) {
    && Places(docs, at.selected)
    && (forall r :: r in at.covered <==> Meets(Matching(docs), at.selected, r))
    && |at.selected| <= |at.covered * asked|
  }

  lemma EarnsMore(docs: seq<Doc>, at: Chosen, asked: set<Req>, i: nat, r: Req)
    requires Earned(docs, at, asked) && i < |docs| && r in docs[i].matched && r in asked && r !in at.covered
    ensures Earned(docs, Add(docs, at, i), asked)
  {
    var next := Add(docs, at, i);
    forall x ensures x in next.covered <==> Meets(Matching(docs), next.selected, x) {
      MeetsJoin(Matching(docs), at.selected, [i], x);
    }
    Monotone(at.covered * asked + {r}, next.covered * asked);
  }

  lemma GainEarns(docs: seq<Doc>, at: Chosen, asked: set<Req>, i: nat)
    requires Earned(docs, at, asked) && i < |docs| && Gain(Matching(docs), asked - at.covered, i) > 0
    ensures Earned(docs, Add(docs, at, i), asked)
  {
    var gained := (asked - at.covered) * docs[i].matched;
    assert |gained| > 0;
    var r :| r in gained;
    EarnsMore(docs, at, asked, i, r);
  }

  lemma GreedyFirst(matched: nat -> set<Req>, open: set<Req>, s: seq<nat>)
    requires |s| > 0 && Gain(matched, open, s[Best(matched, open, s)]) > 0
    ensures var k, picks := Best(matched, open, s), Greedy(matched, open, s);
      |picks| > 0 && picks[0] == s[k] && picks[1..] == Greedy(matched, open - matched(s[k]), Without(s, k))
  {
  }

  // One pick of the greedy phase, and the rest of it.
  lemma GreedyWalk(docs: seq<Doc>, at: Chosen, asked: set<Req>, s: seq<nat>)
    requires Places(docs, s) && Places(docs, Greedy(Matching(docs), asked - at.covered, s)) && |s| > 0
    requires Gain(Matching(docs), asked - at.covered, s[Best(Matching(docs), asked - at.covered, s)]) > 0
    ensures var k := Best(Matching(docs), asked - at.covered, s);
      var next := Add(docs, at, s[k]);
      var rest := Greedy(Matching(docs), asked - next.covered, Without(s, k));
      && Places(docs, rest) && Places(docs, Without(s, k))
      && Walk(docs, Always(), at, Greedy(Matching(docs), asked - at.covered, s)) == Walk(docs, Always(), next, rest)
  {
    var matched, open := Matching(docs), asked - at.covered;
    var k := Best(matched, open, s);
    assert asked - Add(docs, at, s[k]).covered == open - matched(s[k]);
    GreedyFirst(matched, open, s);
  }

  lemma {:induction false} GreedyEarns(docs: seq<Doc>, at: Chosen, asked: set<Req>, s: seq<nat>)
    requires Earned(docs, at, asked) && Places(docs, s)
    requires Places(docs, Greedy(Matching(docs), asked - at.covered, s))
    ensures Earned(docs, Walk(docs, Always(), at, Greedy(Matching(docs), asked - at.covered, s)), asked)
    decreases |s|
  {
    var matched, open := Matching(docs), asked - at.covered;
    if |s| > 0 && Gain(matched, open, s[Best(matched, open, s)]) > 0 {
      var k := Best(matched, open, s);
      GainEarns(docs, at, asked, s[k]);
      GreedyWalk(docs, at, asked, s);
      GreedyEarns(docs, Add(docs, at, s[k]), asked, Without(s, k));
    }
  }

  // What is asked and any candidate matches is covered afterwards.
  lemma {:induction false} ForEachCovers(docs: seq<Doc>, at: Chosen, asked: seq<Req>, all: set<Req>)
    requires Earned(docs, at, all) && Elements(asked) <= all
    ensures Earned(docs, ForEach(docs, at, asked), all) && at.covered <= ForEach(docs, at, asked).covered
    ensures forall r, i: nat :: r in asked && i < |docs| && r in docs[i].matched ==> r in ForEach(docs, at, asked).covered
    decreases |asked|
  {
    if |asked| > 0 {
      var r := asked[0];
      var k := FirstMatch(docs, at, r, 0);
      var next := if r in at.covered || k == |docs| then at else Add(docs, at, k);
      assert r in Elements(asked) && Elements(asked[1..]) <= Elements(asked);
      if r !in at.covered {
        if k < |docs| {
          EarnsMore(docs, at, all, k, r);
        } else {
          NotMatched(docs, at, all, r);
        }
      }
      ForEachCovers(docs, next, asked[1..], all);
      assert asked == [r] + asked[1..];
    }
  }

  lemma NotMatched(docs: seq<Doc>, at: Chosen, all: set<Req>, r: Req)
    requires Earned(docs, at, all) && r !in at.covered && FirstMatch(docs, at, r, 0) == |docs|
    ensures forall i: nat :: i < |docs| ==> r !in docs[i].matched
  {
    forall i: nat | i < |docs| ensures r !in docs[i].matched {
      if i in at.selected && r in docs[i].matched {
        MeetsAt(Matching(docs), at.selected, PlaceOf(at.selected, i), r);
      }
    }
  }

  lemma {:induction false} MeetsPrefix(matched: nat -> set<Req>, a: seq<nat>, b: seq<nat>, r: Req)
    requires a <= b && Meets(matched, a, r)
    ensures Meets(matched, b, r)
  {
    assert b == a + b[|a|..];
    MeetsJoin(matched, a, b[|a|..], r);
  }

  // With room for as many candidates as there are requirements, every requirement that any
  // candidate matches is matched by a selected one.
  lemma AskedAreMet(docs: seq<Doc>, asked: seq<Req>, pinned: seq<nat>, max: nat, r: Req, i: nat)
    requires NoRepeat(docs, pinned) && Distinct(asked) && |asked| <= max
    requires r in asked && i < |docs| && r in docs[i].matched
    ensures Meets(Matching(docs), Taken(Order(docs, asked, pinned), max), r)
  {
    var all := Elements(asked);
    DistinctSize(asked);
    assert all - NONE.covered == all;
    GreedyPlaces(docs, all, pinned);
    GreedyEarns(docs, NONE, all, pinned);
    var at := AfterAsked(docs, asked, pinned);
    ForEachCovers(docs, AfterPinned(docs, asked, pinned), asked, all);
    Monotone(at.covered * all, all);
    OrderExtends(docs, asked, pinned);
    var order := Order(docs, asked, pinned);
    assert |at.selected| <= max && at.selected == order[..|at.selected|];
    assert at.selected <= Taken(order, max);
    MeetsPrefix(Matching(docs), at.selected, Taken(order, max), r);
  }

  function Taken(s: seq<nat>, max: nat): seq<nat> {
    if max < |s| then s[..max] else s
  }

  // ----- The loops of the source -----

  // One loop over candidates; full says that max were taken before it ended.
  method WalkLoop(docs: seq<Doc>, keep: Keep, start: Chosen, items: seq<nat>, max: nat) returns (at: Chosen, full: bool)
    requires Places(docs, items) && |start.selected| < max
    ensures full ==> |at.selected| == max && at.selected <= Walk(docs, keep, start, items).selected
    ensures !full ==> |at.selected| < max && at == Walk(docs, keep, start, items)
  {
    at := start;
    var i := 0;
    while i < |items|
      invariant i <= |items| && |at.selected| < max
      invariant Walk(docs, keep, start, items) == Walk(docs, keep, at, items[i..])
    {
      assert items[i..][0] == items[i] && items[i..][1..] == items[i + 1..];
      if keep(at, items[i]) {
        at := Add(docs, at, items[i]);
        if |at.selected| >= max {
          WalkExtends(docs, keep, at, items[i + 1..]);
          return at, true;
        }
      }
      i := i + 1;
    }
    full := false;
  }

  // What the picks still to come make of what is taken, and what they leave.
  function PickAll(docs: seq<Doc>, asked: set<Req>, at: Chosen, remaining: seq<nat>): Chosen
    requires Places(docs, remaining)
  {
    GreedyPlaces(docs, asked - at.covered, remaining);
    Walk(docs, Always(), at, Greedy(Matching(docs), asked - at.covered, remaining))
  }

  function LeaveAll(docs: seq<Doc>, asked: set<Req>, at: Chosen, remaining: seq<nat>): seq<nat> {
    Leftover(Matching(docs), asked - at.covered, remaining)
  }

  lemma PickOne(docs: seq<Doc>, asked: set<Req>, at: Chosen, remaining: seq<nat>, k: nat)
    requires Places(docs, remaining) && |remaining| > 0
    requires k == Best(Matching(docs), asked - at.covered, remaining)
    ensures Gain(Matching(docs), asked - at.covered, remaining[k]) == 0 ==>
      PickAll(docs, asked, at, remaining) == at && LeaveAll(docs, asked, at, remaining) == remaining
    ensures Gain(Matching(docs), asked - at.covered, remaining[k]) > 0 ==>
      var next, rest := Add(docs, at, remaining[k]), Without(remaining, k);
      Places(docs, rest)
      && PickAll(docs, asked, at, remaining) == PickAll(docs, asked, next, rest)
      && LeaveAll(docs, asked, at, remaining) == LeaveAll(docs, asked, next, rest)
  {
    var matched, open := Matching(docs), asked - at.covered;
    var best := remaining[k];
    GreedyPlaces(docs, open, remaining);
    if Gain(matched, open, best) > 0 {
      var next, picks := Add(docs, at, best), Greedy(matched, open, remaining);
      assert asked - next.covered == open - matched(best);
      assert picks[0] == best && picks[1..] == Greedy(matched, open - matched(best), Without(remaining, k));
    }
  }

  lemma PickAllExtends(docs: seq<Doc>, asked: set<Req>, at: Chosen, remaining: seq<nat>)
    requires Places(docs, remaining)
    ensures at.selected <= PickAll(docs, asked, at, remaining).selected
  {
    GreedyPlaces(docs, asked - at.covered, remaining);
    WalkExtends(docs, Always(), at, Greedy(Matching(docs), asked - at.covered, remaining));
  }

  method GreedyLoop(docs: seq<Doc>, asked: set<Req>, pinned: seq<nat>, max: nat)
    returns (at: Chosen, remaining: seq<nat>, full: bool)
    requires Places(docs, pinned) && 0 < max
    ensures Places(docs, remaining)
    ensures full ==> |at.selected| == max && at.selected <= PickAll(docs, asked, NONE, pinned).selected
    ensures !full ==> |at.selected| < max && at == PickAll(docs, asked, NONE, pinned) && remaining == LeaveAll(docs, asked, NONE, pinned)
  {
    var matched := Matching(docs);
    at, remaining := NONE, pinned;
    while |remaining| > 0
      invariant Places(docs, remaining) && |at.selected| < max
      invariant PickAll(docs, asked, NONE, pinned) == PickAll(docs, asked, at, remaining)
      invariant LeaveAll(docs, asked, NONE, pinned) == LeaveAll(docs, asked, at, remaining)
      decreases |remaining|
    {
      var uncovered := asked - at.covered;
      var k := Best(matched, uncovered, remaining);
      PickOne(docs, asked, at, remaining, k);
      if Gain(matched, uncovered, remaining[k]) == 0 {
        return at, remaining, false;
      }
      at, remaining := Add(docs, at, remaining[k]), Without(remaining, k);
      if |at.selected| >= max {
        PickAllExtends(docs, asked, at, remaining);
        return at, remaining, true;
      }
    }
    full := false;
  }

  method AskedLoop(docs: seq<Doc>, start: Chosen, asked: seq<Req>, max: nat) returns (at: Chosen, full: bool)
    requires |start.selected| < max
    ensures full ==> |at.selected| == max && at.selected <= ForEach(docs, start, asked).selected
    ensures !full ==> |at.selected| < max && at == ForEach(docs, start, asked)
  {
    at := start;
    var i := 0;
    while i < |asked|
      invariant i <= |asked| && |at.selected| < max
      invariant ForEach(docs, start, asked) == ForEach(docs, at, asked[i..])
    {
      assert asked[i..][0] == asked[i] && asked[i..][1..] == asked[i + 1..];
      if asked[i] !in at.covered {
        var k := 0;
        while k < |docs| && (k in at.selected || asked[i] !in docs[k].matched)
          invariant k <= |docs| && FirstMatch(docs, at, asked[i], 0) == FirstMatch(docs, at, asked[i], k)
        {
          k := k + 1;
        }
        if k < |docs| {
          at := Add(docs, at, k);
          if |at.selected| >= max {
            ForEachExtends(docs, at, asked[i + 1..]);
            return at, true;
          }
        }
      }
      i := i + 1;
    }
    full := false;
  }

  lemma Cut(s: seq<nat>, order: seq<nat>, max: nat)
    requires s <= order && |s| == max
    ensures Taken(order, max) == s
  {
  }

  method TakePinned(docs: seq<Doc>, asked: seq<Req>, pinned: seq<nat>, max: nat)
    returns (at: Chosen, remaining: seq<nat>, full: bool)
    requires Places(docs, pinned) && 0 < max
    ensures Places(docs, remaining)
    ensures full ==> |at.selected| == max && at.selected <= AfterPinned(docs, asked, pinned).selected
    ensures !full ==> |at.selected| < max && at == AfterPinned(docs, asked, pinned)
                      && remaining == if |asked| > 0 then Leftover(Matching(docs), Elements(asked), pinned) else []
  {
    if |asked| > 0 {
      at, remaining, full := GreedyLoop(docs, Elements(asked), pinned, max);
      assert Elements(asked) - NONE.covered == Elements(asked);
    } else {
      at, full := WalkLoop(docs, Always(), NONE, pinned, max);
      remaining := [];
    }
  }

  // The first max candidates of the order.
  method SelectVerificationDocs(docs: seq<Doc>, maxDocs: int, requirementIds: seq<Req>, pinnedIds: set<string>)
    returns (selected: seq<nat>)
    ensures maxDocs <= 0 ==> selected == []
    ensures maxDocs > 0 ==>
      NoRepeat(docs, Pinned(docs, pinnedIds, 0))
      && selected == Taken(Order(docs, Unique(requirementIds), Pinned(docs, pinnedIds, 0)), maxDocs)
  {
    if maxDocs <= 0 {
      return [];
    }
    var asked, pinned := Unique(requirementIds), Pinned(docs, pinnedIds, 0);
    PinnedPlaces(docs, pinnedIds, 0);
    OrderExtends(docs, asked, pinned);
    ghost var order := Order(docs, asked, pinned);
    var first, remaining, full := TakePinned(docs, asked, pinned, maxDocs);
    if full {
      Cut(first.selected, order, maxDocs);
      return first.selected;
    }
    var second;
    second, full := AskedLoop(docs, first, asked, maxDocs);
    if full {
      Cut(second.selected, order, maxDocs);
      return second.selected;
    }
    selected := TakeRest(docs, second, remaining, maxDocs);
    GreedyPlaces(docs, Elements(asked), pinned);
  }

  function RestOf(docs: seq<Doc>, at: Chosen, remaining: seq<nat>): seq<nat>
    requires Places(docs, remaining)
  {
    var a := Walk(docs, Untaken(), at, remaining);
    var b := Walk(docs, NewSource(docs), a, Range(|docs|));
    Walk(docs, Untaken(), b, Range(|docs|)).selected
  }

  method TakeRest(docs: seq<Doc>, at: Chosen, remaining: seq<nat>, max: nat) returns (selected: seq<nat>)
    requires Places(docs, remaining) && |at.selected| < max
    ensures selected == Taken(RestOf(docs, at, remaining), max)
  {
    var a, full := WalkLoop(docs, Untaken(), at, remaining, max);
    ghost var a', b' := Walk(docs, Untaken(), at, remaining), Walk(docs, NewSource(docs), Walk(docs, Untaken(), at, remaining), Range(|docs|));
    WalkExtends(docs, NewSource(docs), a', Range(|docs|));
    WalkExtends(docs, Untaken(), b', Range(|docs|));
    if full {
      Cut(a.selected, RestOf(docs, at, remaining), max);
      return a.selected;
    }
    var b;
    b, full := WalkLoop(docs, NewSource(docs), a, Range(|docs|), max);
    if full {
      Cut(b.selected, RestOf(docs, at, remaining), max);
      return b.selected;
    }
    var c;
    c, full := WalkLoop(docs, Untaken(), b, Range(|docs|), max);
    if full {
      Cut(c.selected, RestOf(docs, at, remaining), max);
    }
    selected := c.selected;
  }

  // ----- Main results on the selection -----

  // As many distinct candidates as there is room for, or all of them.
  lemma SelectedCount(docs: seq<Doc>, asked: seq<Req>, pinnedIds: set<string>, max: nat)
    ensures NoRepeat(docs, Pinned(docs, pinnedIds, 0))
    ensures var s := Taken(Order(docs, asked, Pinned(docs, pinnedIds, 0)), max);
      NoRepeat(docs, s) && |s| == if max < |docs| then max else |docs|
  {
    PinnedPlaces(docs, pinnedIds, 0);
    OrderIsAll(docs, asked, Pinned(docs, pinnedIds, 0));
  }

  // With at most three requirements the pinned candidates taken first are a smallest set of
  // pinned candidates that matches all that pinned candidates match.
  lemma PinnedSmallest(docs: seq<Doc>, asked: seq<Req>, pinned: seq<nat>, some: set<Req>, cover: seq<nat>)
    requires Places(docs, pinned) && 0 < |asked| <= 3 && Distinct(asked) && some <= Elements(asked)
    requires forall r :: r in asked ==> (Meets(Matching(docs), pinned, r) <==> r in some)
    requires Covers(Matching(docs), Elements(asked), pinned, cover)
    ensures Covers(Matching(docs), Elements(asked), pinned, AfterPinned(docs, asked, pinned).selected)
    ensures |AfterPinned(docs, asked, pinned).selected| <= |cover|
  {
    var picks := Greedy(Matching(docs), Elements(asked), pinned);
    GreedyPlaces(docs, Elements(asked), pinned);
    WalkAll(docs, NONE, picks);
    assert [] + picks == picks;
    GreedyCovers(Matching(docs), Elements(asked), pinned);
    DistinctSize(asked);
    Monotone(some, Elements(asked));
    GreedySmallest(Matching(docs), Elements(asked), pinned, some, cover);
  }
}
