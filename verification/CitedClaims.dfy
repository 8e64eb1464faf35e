// The two halves of the text pipeline fit: the claims that claim_evidence_verifier.py cuts from
// a section bound by summary_generator.py are those planned for the section, one by one, and
// carry an evidence tag exactly where planned. This is for plain prose: no brackets, code,
// tables or addresses.
module CitedClaims {
  import opened CitationText
  import opened CitationBinding
  import opened CitationErasure
  import opened CitationTwins
  import opened CitationStability
  import opened CitationIdempotence
  import opened CitationLines
  import opened ClaimUnits
  import opened WovenText
  import opened ClaimPlan
  import ClaimBatches

  predicate EvidenceIds(ids: seq<string>) {
    |ids| > 0 && AllEvidence(ids)
  }

  predicate AllEvidence(ids: seq<string>) {
    |ids| == 0 || (ClaimBatches.IsEvidenceId(ids[0]) && AllEvidence(ids[1..]))
  }

  // ----- Terminators in bound text -----

  predicate NoTerms(s: string) {
    forall i :: 0 <= i < |s| ==> !IsTerminator(s[i])
  }

  predicate TermsLast(s: string) {
    forall i :: 0 <= i < |s| - 1 ==> !IsTerminator(s[i])
  }

  lemma NoTailNoTerm(p: string)
    requires |p| > 0 && |Tail(p)| == 0
    ensures !IsTerminator(Last(p))
  {
    var closers, term := TailParts(p);
  }

  lemma HeadNoTerms(p: string)
    requires TermsLast(p)
    ensures NoTerms(Head(p))
  {
    var h := InsertionIndex(p);
    if h == |p| && h > 0 {
      NoTailNoTerm(p);
    }
    assert forall i :: 0 <= i < h ==> p[..h][i] == p[i];
  }

  lemma TaggedTerms(a: string, t: string, b: string)
    requires NoTerms(a) && TagChars(t) && TermsLast(a + b)
    ensures TermsLast(a + t + b)
  {
    var p := a + t + b;
    forall i | 0 <= i < |p| - 1 ensures !IsTerminator(p[i]) {
      if i < |a| {
        assert p[i] == a[i];
      } else if i < |a| + |t| {
        assert p[i] == t[i - |a|] && TagChar(t[i - |a|]);
      } else {
        assert p[i] == (a + b)[i - |t|];
      }
    }
  }

  lemma TaggedBound(p: string, ids: seq<string>)
    requires ValidIds(ids) && TermsLast(p)
    ensures NoTerms(Head(p)) && TermsLast(Head(p) + TagBlock(ids) + Tail(p)) && p == Head(p) + Tail(p)
  {
    BlockChars(ids);
    HeadNoTerms(p);
    assert p == Head(p) + Tail(p);
    TaggedTerms(Head(p), TagBlock(ids), Tail(p));
  }

  lemma BoundEnd(p: string, ids: seq<string>)
    requires ValidIds(ids) && |ids| > 0 && |p| > 0
    ensures var p' := Head(p) + TagBlock(ids) + Tail(p);
      |p'| > 0 && (IsTerminator(Last(p')) <==> IsTerminator(Last(p)))
  {
    BlockChars(ids);
    if |Tail(p)| == 0 {
      NoTailNoTerm(p);
    } else {
      assert Last(Tail(p)) == Last(p);
    }
  }

  lemma WovenThree(a: string, tags: string, b: string)
    requires Woven(a) && Woven(tags) && Woven(b) && StripTags(tags) == []
    ensures Woven(a + tags + b) && StripTags(a + tags + b) == StripTags(a) + StripTags(b)
  {
    WovenJoin(a, tags);
    WovenJoin(a + tags, b);
  }

  lemma BoundWoven(p: string, ids: seq<string>)
    requires ValidIds(ids) && NoBrackets(p)
    ensures Woven(Head(p) + TagBlock(ids) + Tail(p)) && StripTags(Head(p) + TagBlock(ids) + Tail(p)) == p
  {
    WovenPlain(Head(p));
    WovenPlain(Tail(p));
    WovenBlock(ids);
    WovenThree(Head(p), TagBlock(ids), Tail(p));
    HeadTail(p);
  }

  // p' is p with tags, or p; a terminator is at the end of both or of neither, and nowhere else.
  ghost predicate Bound(p': string, p: string) {
    && Woven(p') && StripTags(p') == p && TermsLast(p')
    && |p'| > 0 && |p| > 0 && (IsTerminator(Last(p')) <==> IsTerminator(Last(p)))
  }

  lemma PieceBound(bind: string -> string, p: string, ids: seq<string>)
    requires ValidIds(ids) && |ids| > 0 && Binds(bind, TagBlock(ids)) && NoBrackets(p) && TermsLast(p) && |p| > 0
    ensures Bound(bind(p), p)
  {
    if Tagged(p) {
      TaggedBound(p, ids);
      BoundEnd(p, ids);
      BoundWoven(p, ids);
    } else {
      WovenPlain(p);
    }
  }

  // Every terminator of the line ends a sentence.
  ghost predicate StopsAtTerms(stop: nat -> bool, line: string) {
    forall i: nat :: i < |line| && IsTerminator(line[i]) ==> stop(i)
  }

  lemma PieceTerms(stop: nat -> bool, line: string, start: nat)
    requires StopsAtTerms(stop, line) && start < |line|
    ensures TermsLast(line[start..PieceEnd(stop, |line|, start)])
  {
    var end := PieceEnd(stop, |line|, start);
    PieceEndFacts(stop, |line|, start);
    forall i | 0 <= i < end - start - 1 ensures !IsTerminator(line[start..end][i]) {
      assert !stop(start + i);
    }
  }

  // ----- A stretch of a bound line -----

  // The bound pieces from start to end.
  function BindTo(stop: nat -> bool, bind: string -> string, line: string, start: nat, end: nat): string
    requires start <= |line|
    decreases |line| - start
  {
    if start >= end || start == |line| then []
    else bind(line[start..PieceEnd(stop, |line|, start)]) + BindTo(stop, bind, line, PieceEnd(stop, |line|, start), end)
  }

  lemma {:induction false} StretchGoesOn(line: string, start: nat, mid: nat)
    requires start <= mid <= |line| && forall i :: start <= i < mid ==> !IsTerminator(line[i])
    ensures StretchEnd(line, start) == StretchEnd(line, mid)
    decreases mid - start
  {
    if start < mid {
      StretchGoesOn(line, start + 1, mid);
    }
  }

  // A sentence is all of what is left of its stretch or has no terminator.
  lemma PieceInStretch(stop: nat -> bool, line: string, start: nat)
    requires StopsAtTerms(stop, line) && start < |line|
    ensures var mid, end := PieceEnd(stop, |line|, start), StretchEnd(line, start);
      && TermsLast(line[start..mid])
      && ((mid == end && (IsTerminator(line[mid - 1]) || mid == |line|))
          || (mid < end && StretchEnd(line, mid) == end && !IsTerminator(line[mid - 1])))
  {
    var mid := PieceEnd(stop, |line|, start);
    PieceTerms(stop, line, start);
    forall i | start <= i < mid - 1 ensures !IsTerminator(line[i]) {
      assert line[i] == line[start..mid][i - start];
    }
    StretchGoesOn(line, start, mid - 1);
    if !IsTerminator(line[mid - 1]) {
      StretchGoesOn(line, mid - 1, mid);
    }
  }

  lemma {:induction false} BindSplit(stop: nat -> bool, bind: string -> string, line: string, start: nat, end: nat)
    requires StopsAtTerms(stop, line) && start < |line| && end == StretchEnd(line, start)
    ensures BindPieces(stop, bind, line, start) == BindTo(stop, bind, line, start, end) + BindPieces(stop, bind, line, end)
    decreases |line| - start
  {
    PieceInStretch(stop, line, start);
    var mid := PieceEnd(stop, |line|, start);
    if mid < end {
      BindSplit(stop, bind, line, mid, end);
    } else {
      assert BindTo(stop, bind, line, mid, end) == [];
    }
  }

  lemma BoundJoin(p': string, p: string, x': string, x: string)
    requires Bound(p', p) && Bound(x', x) && !IsTerminator(Last(p))
    ensures Bound(p' + x', p + x)
  {
    WovenJoin(p', x');
    assert forall i :: 0 <= i < |p' + x'| - 1 ==> (p' + x')[i] == if i < |p'| then p'[i] else x'[i - |p'|];
  }

  ghost function Bounds(): (string, string) -> bool {
    (p', p) => Bound(p', p)
  }

  ghost predicate BindsPieces(bounds: (string, string) -> bool, bind: string -> string) {
    forall p: string :: NoBrackets(p) && TermsLast(p) && |p| > 0 ==> bounds(bind(p), p)
  }

  predicate Joinable(bounds: (string, string) -> bool, p': string, p: string, x': string, x: string) {
    |p| > 0 && bounds(p', p) && bounds(x', x) && !IsTerminator(Last(p)) ==> bounds(p' + x', p + x)
  }

  ghost predicate BindsJoined(bounds: (string, string) -> bool) {
    forall p', p, x', x :: Joinable(bounds, p', p, x', x)
  }

  lemma SliceJoin(line: string, start: nat, mid: nat, end: nat)
    requires start <= mid <= end <= |line|
    ensures line[start..mid] + line[mid..end] == line[start..end]
  {
  }

  lemma {:induction false} StretchBounds(
    bounds: (string, string) -> bool, stop: nat -> bool, bind: string -> string, line: string, start: nat, end: nat)
    requires BindsPieces(bounds, bind) && BindsJoined(bounds) && NoBrackets(line) && StopsAtTerms(stop, line)
    requires start < |line| && end == StretchEnd(line, start)
    ensures bounds(BindTo(stop, bind, line, start, end), line[start..end])
    ensures IsTerminator(line[end - 1]) || end == |line|
    decreases |line| - start
  {
    PieceInStretch(stop, line, start);
    var mid := PieceEnd(stop, |line|, start);
    var p, rest := line[start..mid], BindTo(stop, bind, line, mid, end);
    assert bounds(bind(p), p);
    if mid < end {
      StretchBounds(bounds, stop, bind, line, mid, end);
      assert Joinable(bounds, bind(p), p, rest, line[mid..end]);
      SliceJoin(line, start, mid, end);
    } else {
      assert bind(p) + rest == bind(p);
    }
  }

  predicate Shaped(x: string, ended: bool) {
    TermsLast(x) && |x| > 0 && (ended ==> IsTerminator(Last(x)))
  }

  predicate ShapedBy(bounds: (string, string) -> bool, p': string, p: string) {
    bounds(p', p) ==> |p| > 0 && Shaped(p', IsTerminator(Last(p)))
  }

  ghost predicate Shapes(bounds: (string, string) -> bool) {
    forall p', p :: ShapedBy(bounds, p', p)
  }

  lemma BoundsShape()
    ensures Shapes(Bounds())
  {
  }

  lemma BoundsJoin()
    ensures BindsJoined(Bounds())
  {
    forall p', p, x', x ensures Joinable(Bounds(), p', p, x', x) {
      if |p| > 0 && Bound(p', p) && Bound(x', x) && !IsTerminator(Last(p)) {
        BoundJoin(p', p, x', x);
      }
    }
  }

  lemma BoundsBind(bind: string -> string, ids: seq<string>)
    requires ValidIds(ids) && |ids| > 0 && Binds(bind, TagBlock(ids))
    ensures BindsPieces(Bounds(), bind)
  {
    forall p: string | NoBrackets(p) && TermsLast(p) && |p| > 0 ensures Bounds()(bind(p), p) {
      PieceBound(bind, p, ids);
    }
  }

  lemma StretchShape(
    bounds: (string, string) -> bool, stop: nat -> bool, bind: string -> string, line: string, start: nat, end: nat)
    requires BindsPieces(bounds, bind) && BindsJoined(bounds) && Shapes(bounds) && NoBrackets(line) && StopsAtTerms(stop, line)
    requires start < |line| && end == StretchEnd(line, start)
    ensures bounds(BindTo(stop, bind, line, start, end), line[start..end])
    ensures Shaped(BindTo(stop, bind, line, start, end), IsTerminator(line[end - 1]))
    ensures IsTerminator(line[end - 1]) || end == |line|
  {
    StretchBounds(bounds, stop, bind, line, start, end);
    assert ShapedBy(bounds, BindTo(stop, bind, line, start, end), line[start..end]);
    assert Last(line[start..end]) == line[end - 1];
  }

  lemma StretchBound(stop: nat -> bool, bind: string -> string, line: string, start: nat, end: nat, ids: seq<string>)
    requires ValidIds(ids) && |ids| > 0 && Binds(bind, TagBlock(ids)) && NoBrackets(line) && StopsAtTerms(stop, line)
    requires start < |line| && end == StretchEnd(line, start)
    ensures Bounds()(BindTo(stop, bind, line, start, end), line[start..end])
    ensures Shaped(BindTo(stop, bind, line, start, end), IsTerminator(line[end - 1]))
    ensures IsTerminator(line[end - 1]) || end == |line|
  {
    BoundsShape();
    BoundsJoin();
    BoundsBind(bind, ids);
    StretchShape(Bounds(), stop, bind, line, start, end);
  }

  lemma PieceStays(bind: string -> string, p: string, tags: string)
    requires Binds(bind, tags) && NoBrackets(p) && !Tagged(p)
    ensures bind(p) == p
  {
  }

  lemma BindStep(stop: nat -> bool, bind: string -> string, line: string, start: nat, end: nat)
    requires start < |line| && start < end
    ensures var mid := PieceEnd(stop, |line|, start);
      BindTo(stop, bind, line, start, end) == bind(line[start..mid]) + BindTo(stop, bind, line, mid, end)
  {
  }

  lemma {:induction false} SilentStays(stop: nat -> bool, bind: string -> string, line: string, start: nat, end: nat, tags: string)
    requires Binds(bind, tags) && NoBrackets(line) && StopsAtTerms(stop, line)
    requires start < |line| && end == StretchEnd(line, start) && Silent(stop, line, start, end)
    ensures BindTo(stop, bind, line, start, end) == line[start..end]
    decreases |line| - start
  {
    PieceInStretch(stop, line, start);
    var mid := PieceEnd(stop, |line|, start);
    PieceStays(bind, line[start..mid], tags);
    BindStep(stop, bind, line, start, end);
    if mid < end {
      SilentStays(stop, bind, line, mid, end, tags);
    } else {
      assert BindTo(stop, bind, line, mid, end) == line[mid..end];
    }
    SliceJoin(line, start, mid, end);
  }

  // x is a text without an opening bracket, the tags, and more.
  ghost predicate TagsIn(x: string, tags: string) {
    exists a, b :: TagsAt(x, a, tags, b)
  }

  predicate TagsAt(x: string, a: string, tags: string, b: string) {
    x == a + tags + b && NoOpen(a)
  }

  lemma TagsBehind(p: string, x: string, tags: string)
    requires NoOpen(p) && TagsIn(x, tags)
    ensures TagsIn(p + x, tags)
  {
    var a, b :| TagsAt(x, a, tags, b);
    assert p + x == (p + a) + tags + b;
    assert TagsAt(p + x, p + a, tags, b);
  }

  lemma TagsBefore(a: string, tags: string, b: string, x: string)
    requires NoOpen(a)
    ensures TagsIn(a + tags + b + x, tags)
  {
    assert a + tags + b + x == a + tags + (b + x);
    assert TagsAt(a + tags + b + x, a, tags, b + x);
  }

  lemma PieceTags(bind: string -> string, p: string, tags: string, rest: string)
    requires Binds(bind, tags) && NoBrackets(p) && Tagged(p)
    ensures TagsIn(bind(p) + rest, tags)
  {
    TagsBefore(Head(p), tags, Tail(p), rest);
  }

  lemma {:induction false} TagsStand(stop: nat -> bool, bind: string -> string, line: string, start: nat, end: nat, tags: string)
    requires Binds(bind, tags) && NoBrackets(line) && start <= |line| && !Silent(stop, line, start, end)
    ensures TagsIn(BindTo(stop, bind, line, start, end), tags)
    decreases |line| - start
  {
    var mid := PieceEnd(stop, |line|, start);
    var p, rest := line[start..mid], BindTo(stop, bind, line, mid, end);
    BindStep(stop, bind, line, start, end);
    if Tagged(p) {
      PieceTags(bind, p, tags, rest);
    } else {
      TagsStand(stop, bind, line, mid, end, tags);
      PieceStays(bind, p, tags);
      TagsBehind(p, rest, tags);
    }
  }

  // Cut in front of its first tag, it still carries one.
  lemma TagsStay(x: string, ids: seq<string>, i: nat)
    requires EvidenceIds(ids) && TagsIn(x, TagBlock(ids)) && i <= |x| && NoOpen(x[..i])
    ensures Cited(x[i..])
  {
    var a, b :| TagsAt(x, a, TagBlock(ids), b);
    var more := TagBlock(ids[1..]) + b;
    assert TagBlock(ids) == Tag(ids[0]) + TagBlock(ids[1..]);
    assert x == a + Tag(ids[0]) + more;
    assert x[|a|] == '[';
    assert forall k :: 0 <= k < i ==> x[..i][k] == x[k];
    assert x[i..] == a[i..] + Tag(ids[0]) + more;
    assert Carries(x[i..], a[i..], ids[0], more);
  }

  // ----- The claims of one bound line -----

  // A piece cut from the bound line and what was planned for it.
  ghost predicate Matches(decimal: char -> bool, c: string, p: Planned) {
    if p.tagged then Cited(c) && (CitationOnly(decimal, c) <==> All(IsFiller, p.text))
    else c == p.text && NoBrackets(c)
  }

  ghost function Fits(decimal: char -> bool): (string, Planned) -> bool {
    (c, p) => Matches(decimal, c, p)
  }

  ghost predicate Matching(fits: (string, Planned) -> bool, cs: seq<string>, ps: seq<Planned>) {
    |cs| == |ps| && forall k :: 0 <= k < |cs| ==> fits(cs[k], ps[k])
  }

  lemma StretchMatches(decimal: char -> bool, x: string, text: string, i: nat, tagged: bool)
    requires Bounds()(x, text) && i <= |x| && NoOpen(x[..i]) && NoBrackets(text)
    requires if tagged then Cited(x[i..]) else x == text
    ensures i <= |text| && Matches(decimal, Trim(x[i..]), Planned(Trim(text[i..]), tagged))
    ensures |Trim(x[i..])| > 0 <==> tagged || |Trim(text[i..])| > 0
  {
    assert Bound(x, text);
    WovenDrop(x, i);
    assert text[i..] == StripTags(x[i..]);
    PlainTrim(text[i..]);
    if tagged {
      CitedTrim(x[i..]);
      WovenTrim(x[i..]);
      WovenCitation(decimal, Trim(x[i..]));
    }
  }

  lemma OneMore(fits: (string, Planned) -> bool, c: string, p: Planned, cs: seq<string>, ps: seq<Planned>)
    requires Matching(fits, cs, ps) && fits(c, p)
    ensures Matching(fits, [c] + cs, [p] + ps)
  {
  }

  // The first stretch of what is left of a line, cut at its end.
  lemma CutStretch(x: string, rest: string, i: nat)
    requires TermsLast(x) && i < |x| && IsTerminator(Last(x))
    ensures Stripped(CutAtTerminators(x[i..] + rest))
         == (if |Trim(x[i..])| > 0 then [Trim(x[i..])] else []) + Stripped(CutAtTerminators(rest))
  {
    FirstAt(x[i..], |x| - 1 - i);
    FirstStays(x[i..], rest, |x| - 1 - i);
    assert x[i..][..|x| - i] == x[i..] && x[i..][|x| - i..] + rest == rest;
    MoreStripped(x[i..], CutAtTerminators(rest));
  }

  lemma CutLast(x: string, i: nat)
    requires TermsLast(x) && i <= |x| && (|x| > 0 ==> !IsTerminator(Last(x)))
    ensures Stripped(CutAtTerminators(x[i..])) == if |Trim(x[i..])| > 0 then [Trim(x[i..])] else []
  {
    FirstAt(x[i..], |x[i..]|);
    OneStripped(x[i..]);
  }

  // What is known of a line and its binding.
  ghost predicate Binding(stop: nat -> bool, bind: string -> string, line: string, ids: seq<string>) {
    EvidenceIds(ids) && ValidIds(ids) && Binds(bind, TagBlock(ids)) && NoBrackets(line) && StopsAtTerms(stop, line)
  }

  lemma StretchTags(stop: nat -> bool, bind: string -> string, line: string, start: nat, end: nat, ids: seq<string>, i: nat)
    requires Binding(stop, bind, line, ids) && start < |line| && end == StretchEnd(line, start)
    requires i <= |BindTo(stop, bind, line, start, end)| && NoOpen(BindTo(stop, bind, line, start, end)[..i])
    ensures if Silent(stop, line, start, end) then BindTo(stop, bind, line, start, end) == line[start..end]
            else Cited(BindTo(stop, bind, line, start, end)[i..])
  {
    if Silent(stop, line, start, end) {
      SilentStays(stop, bind, line, start, end, TagBlock(ids));
    } else {
      TagsStand(stop, bind, line, start, end, TagBlock(ids));
      TagsStay(BindTo(stop, bind, line, start, end), ids, i);
    }
  }

  lemma FirstStretch(
    decimal: char -> bool, stop: nat -> bool, bind: string -> string, line: string, start: nat, end: nat, ids: seq<string>, i: nat)
    requires Binding(stop, bind, line, ids) && start < |line| && end == StretchEnd(line, start)
    requires i <= |BindTo(stop, bind, line, start, end)| && NoOpen(BindTo(stop, bind, line, start, end)[..i])
    ensures start + i <= end
    ensures var c, p := Trim(BindTo(stop, bind, line, start, end)[i..]), Planned(Trim(line[start + i..end]), !Silent(stop, line, start, end));
      Matches(decimal, c, p) && (|c| > 0 <==> p.tagged || |p.text| > 0)
  {
    StretchBound(stop, bind, line, start, end, ids);
    StretchTags(stop, bind, line, start, end, ids, i);
    StretchMatches(decimal, BindTo(stop, bind, line, start, end), line[start..end], i, !Silent(stop, line, start, end));
    SliceBehind(line, start, end, i);
  }

  lemma SliceBehind(line: string, start: nat, end: nat, i: nat)
    requires start + i <= end <= |line|
    ensures line[start..end][i..] == line[start + i..end]
  {
  }

  lemma PlanStep(stop: nat -> bool, line: string, start: nat, skip: nat)
    requires start < |line| && skip <= StretchEnd(line, start)
    ensures var end := StretchEnd(line, start);
      var p := Planned(Trim(line[skip..end]), !Silent(stop, line, start, end));
      LinePlan(stop, line, start, skip) == (if p.tagged || |p.text| > 0 then [p] else []) + LinePlan(stop, line, end, end)
  {
  }

  lemma Assemble(fits: (string, Planned) -> bool, c: string, p: Planned, cs: seq<string>, ps: seq<Planned>)
    requires Matching(fits, cs, ps) && fits(c, p) && (|c| > 0 <==> p.tagged || |p.text| > 0)
    ensures Matching(fits, (if |c| > 0 then [c] else []) + cs, (if p.tagged || |p.text| > 0 then [p] else []) + ps)
  {
    if |c| > 0 {
      OneMore(fits, c, p, cs, ps);
    } else {
      assert [] + cs == cs && [] + ps == ps;
    }
  }

  lemma FirstThenRest(
    decimal: char -> bool, stop: nat -> bool, line: string, start: nat, end: nat, x: string, rest: string, i: nat)
    requires start < |line| && end == StretchEnd(line, start) && start + i <= end
    requires TermsLast(x) && |x| > 0 && i <= |x|
    requires (IsTerminator(Last(x)) ==> i < |x|) && (IsTerminator(Last(x)) || |rest| == 0)
    requires var c, p := Trim(x[i..]), Planned(Trim(line[start + i..end]), !Silent(stop, line, start, end));
      Matches(decimal, c, p) && (|c| > 0 <==> p.tagged || |p.text| > 0)
    requires Matching(Fits(decimal), Stripped(CutAtTerminators(rest)), LinePlan(stop, line, end, end))
    ensures Matching(Fits(decimal), Stripped(CutAtTerminators((x + rest)[i..])), LinePlan(stop, line, start, start + i))
  {
    CutFirst(x, rest, i);
    PlanStep(stop, line, start, start + i);
    var c, p := Trim(x[i..]), Planned(Trim(line[start + i..end]), !Silent(stop, line, start, end));
    Assemble(Fits(decimal), c, p, Stripped(CutAtTerminators(rest)), LinePlan(stop, line, end, end));
  }

  lemma FirstShape(stop: nat -> bool, bind: string -> string, line: string, start: nat, end: nat, ids: seq<string>)
    requires Binding(stop, bind, line, ids) && start < |line| && end == StretchEnd(line, start)
    ensures var x, rest := BindTo(stop, bind, line, start, end), BindPieces(stop, bind, line, end);
      TermsLast(x) && |x| > 0 && (IsTerminator(Last(x)) || |rest| == 0)
  {
    StretchBound(stop, bind, line, start, end, ids);
    NothingLeft(stop, bind, line);
  }

  lemma NothingLeft(stop: nat -> bool, bind: string -> string, line: string)
    ensures BindPieces(stop, bind, line, |line|) == []
  {
  }

  // The first stretch, and where its first i characters end.
  lemma FirstFacts(bound: string, x: string, rest: string, i: nat)
    requires bound == x + rest && |x| > 0 && (IsTerminator(Last(x)) || |rest| == 0)
    requires i <= |bound| && Unmarked(bound[..i])
    ensures i <= |x| && NoOpen(x[..i]) && (IsTerminator(Last(x)) ==> i < |x|)
  {
    QuietFront(x, rest, i);
  }

  lemma LineStep(
    decimal: char -> bool, stop: nat -> bool, bind: string -> string, line: string, start: nat, end: nat, ids: seq<string>, i: nat)
    requires Binding(stop, bind, line, ids) && start < |line| && end == StretchEnd(line, start)
    requires i <= |BindPieces(stop, bind, line, start)| && Unmarked(BindPieces(stop, bind, line, start)[..i])
    requires Matching(Fits(decimal), Stripped(CutAtTerminators(BindPieces(stop, bind, line, end))), LinePlan(stop, line, end, end))
    ensures Matching(Fits(decimal), Stripped(CutAtTerminators(BindPieces(stop, bind, line, start)[i..])),
                     LinePlan(stop, line, start, start + i))
  {
    BindSplit(stop, bind, line, start, end);
    FirstShape(stop, bind, line, start, end, ids);
    FirstFacts(BindPieces(stop, bind, line, start), BindTo(stop, bind, line, start, end), BindPieces(stop, bind, line, end), i);
    FirstStretch(decimal, stop, bind, line, start, end, ids, i);
    FirstThenRest(decimal, stop, line, start, end, BindTo(stop, bind, line, start, end), BindPieces(stop, bind, line, end), i);
  }

  ghost function Followed(decimal: char -> bool, stop: nat -> bool, bind: string -> string, line: string): nat -> bool {
    (n: nat) => n <= |line| &&
      Matching(Fits(decimal), Stripped(CutAtTerminators(BindPieces(stop, bind, line, n))), LinePlan(stop, line, n, n))
  }

  lemma {:induction false} StretchByStretch(line: string, followed: nat -> bool, n: nat)
    requires n <= |line| && followed(|line|)
    requires forall m: nat :: m < |line| && followed(StretchEnd(line, m)) ==> followed(m)
    ensures followed(n)
    decreases |line| - n
  {
    if n < |line| {
      StretchByStretch(line, followed, StretchEnd(line, n));
    }
  }

  lemma RestFollows(decimal: char -> bool, stop: nat -> bool, bind: string -> string, line: string, ids: seq<string>, n: nat)
    requires Binding(stop, bind, line, ids) && n <= |line|
    ensures Followed(decimal, stop, bind, line)(n)
  {
    var followed := Followed(decimal, stop, bind, line);
    NothingCut();
    assert followed(|line|);
    forall m: nat | m < |line| && followed(StretchEnd(line, m)) ensures followed(m) {
      LineStep(decimal, stop, bind, line, m, StretchEnd(line, m), ids, 0);
      WholeSlice(BindPieces(stop, bind, line, m));
    }
    StretchByStretch(line, followed, n);
  }

  // All claims of a bound line, of which the first i characters are dropped.
  lemma LineFollows(
    decimal: char -> bool, stop: nat -> bool, bind: string -> string, line: string, ids: seq<string>, i: nat)
    requires Binding(stop, bind, line, ids)
    requires i <= |BindPieces(stop, bind, line, 0)| && Unmarked(BindPieces(stop, bind, line, 0)[..i])
    ensures Matching(Fits(decimal), Stripped(CutAtTerminators(BindPieces(stop, bind, line, 0)[i..])), LinePlan(stop, line, 0, i))
  {
    if |line| == 0 {
      NothingCut();
      assert BindPieces(stop, bind, line, 0)[i..] == [];
    } else {
      var end := StretchEnd(line, 0);
      RestFollows(decimal, stop, bind, line, ids, end);
      assert Followed(decimal, stop, bind, line)(end);
      LineStep(decimal, stop, bind, line, 0, end, ids, i);
    }
  }

  lemma WholeSlice(s: string)
    ensures s[0..] == s
  {
  }

  lemma NothingCut()
    ensures Stripped(CutAtTerminators([])) == []
  {
    assert FirstTerminator([]) == 0;
    OneStripped([]);
    assert Trim([]) == [];
  }

  lemma CutFirst(x: string, rest: string, i: nat)
    requires TermsLast(x) && |x| > 0 && i <= |x| && (IsTerminator(Last(x)) ==> i < |x|) && (IsTerminator(Last(x)) || |rest| == 0)
    ensures Stripped(CutAtTerminators((x + rest)[i..]))
         == (if |Trim(x[i..])| > 0 then [Trim(x[i..])] else []) + Stripped(CutAtTerminators(rest))
  {
    assert (x + rest)[i..] == x[i..] + rest;
    if IsTerminator(Last(x)) {
      CutStretch(x, rest, i);
    } else {
      NothingCut();
      CutLast(x, i);
      assert rest == [] && x[i..] + rest == x[i..];
    }
  }

  lemma QuietFront(x: string, rest: string, i: nat)
    requires |x| > 0 && i <= |x + rest| && Unmarked((x + rest)[..i]) && (IsTerminator(Last(x)) || |rest| == 0)
    ensures i <= |x| && NoOpen(x[..i]) && (IsTerminator(Last(x)) ==> i < |x|)
  {
    assert (x + rest)[|x| - 1] == Last(x);
    assert i >= |x| ==> (x + rest)[..i][|x| - 1] == Last(x);
    assert i <= |x|;
    assert x[..i] == (x + rest)[..i];
  }

  // ----- The front of a bound line -----

  // u is what binding makes of a text, up to the opening of its first tag.
  predicate FrontOf(u: string, bound: string) {
    u == bound || (Opened(u) && u <= bound)
  }

  lemma FrontBehind(p: string, u: string, bound: string)
    requires FrontOf(u, bound)
    ensures FrontOf(p + u, p + bound)
  {
    assert |u| > 0 ==> Last(p + u) == Last(u);
  }

  lemma FrontTagged(a: string, tags: string, b: string, rest: string)
    requires |tags| > 0 && tags[0] == '['
    ensures FrontOf(a + ['['], a + tags + b + rest)
  {
    var s := a + tags + b + rest;
    assert s[..|a| + 1] == a + ['['];
    assert a + ['['] <= s;
  }

  lemma PieceFront(bind: string -> string, p: string, tags: string, rest: string)
    requires Binds(bind, tags) && NoBrackets(p) && Tagged(p) && |tags| > 0 && tags[0] == '['
    ensures FrontOf(Head(p) + ['['], bind(p) + rest)
  {
    FrontTagged(Head(p), tags, Tail(p), rest);
  }

  lemma {:induction false} BeforeTagFront(stop: nat -> bool, bind: string -> string, line: string, start: nat, tags: string)
    requires Binds(bind, tags) && NoBrackets(line) && start <= |line| && |tags| > 0 && tags[0] == '['
    ensures FrontOf(BeforeTag(stop, line, start), BindPieces(stop, bind, line, start))
    decreases |line| - start
  {
    if start < |line| {
      var end := PieceEnd(stop, |line|, start);
      var p, rest := line[start..end], BindPieces(stop, bind, line, end);
      if Tagged(p) {
        PieceFront(bind, p, tags, rest);
      } else {
        BeforeTagFront(stop, bind, line, end, tags);
        PieceStays(bind, p, tags);
        FrontBehind(p, BeforeTag(stop, line, end), rest);
      }
    }
  }

  // The text cut into claims, whether blanks follow the line or not.
  lemma OpenedText(decimal: char -> bool, u: string, more: string, ending: string, skip: nat)
    requires Opened(u) && Blank(ending) && DecimalClass(decimal) && skip == |TrimRight(u)| - |LineText(decimal, u)|
    ensures skip <= |u| && Unmarked(u[..skip])
    ensures Stripped(CutAtTerminators(LineText(decimal, u + more + ending))) == Stripped(CutAtTerminators(u[skip..] + more))
  {
    OpenedEnd(u);
    LineTextBehind(decimal, u);
    OpenedMore(decimal, u, more, ending);
    BlankEnd(LineText(decimal, u), more, ending);
  }

  lemma OpenedEnd(u: string)
    requires Opened(u)
    ensures TrimRight(u) == u
  {
  }

  lemma OpenedMore(decimal: char -> bool, u: string, more: string, ending: string)
    requires Opened(u) && DecimalClass(decimal)
    ensures LineText(decimal, u + more + ending) == LineText(decimal, u) + TrimRight(more + ending)
  {
    LineTextGoesOn(decimal, u, more + ending);
    assert u + more + ending == u + (more + ending);
  }

  lemma BlankEnd(z: string, more: string, ending: string)
    requires Blank(ending)
    ensures Stripped(CutAtTerminators(z + TrimRight(more + ending))) == Stripped(CutAtTerminators(z + more))
  {
    var m := TrimRight(more + ending);
    TrimRightParts(more + ending);
    SameEnd(z, more, ending, m, (more + ending)[|m|..]);
  }

  function ClaimsIn(): string -> seq<string> {
    (s: string) => Stripped(CutAtTerminators(s))
  }

  lemma SameEnd(z: string, more: string, ending: string, m: string, blank: string)
    requires Blank(ending) && Blank(blank) && more + ending == m + blank
    ensures Stripped(CutAtTerminators(z + m)) == Stripped(CutAtTerminators(z + more))
  {
    BlankLeft(z + m, blank);
    BlankLeft(z + more, ending);
    SameClaims(ClaimsIn(), z, more, ending, m, blank);
    assert ClaimsIn()(z + m) == ClaimsIn()(z + more);
  }

  lemma BlankLeft(s: string, blank: string)
    requires Blank(blank)
    ensures ClaimsIn()(s + blank) == ClaimsIn()(s)
  {
    CutBlankBehind(s, blank);
  }

  lemma SameClaims(claims: string -> seq<string>, z: string, more: string, ending: string, m: string, blank: string)
    requires more + ending == m + blank
    requires claims((z + m) + blank) == claims(z + m) && claims((z + more) + ending) == claims(z + more)
    ensures claims(z + m) == claims(z + more)
  {
    assert (z + m) + blank == z + (m + blank) && (z + more) + ending == z + (more + ending);
  }

  lemma ClosedText(decimal: char -> bool, u: string, ending: string, skip: nat)
    requires Blank(ending) && DecimalClass(decimal) && skip == |TrimRight(u)| - |LineText(decimal, u)|
    ensures skip <= |u| && Unmarked(u[..skip])
    ensures Stripped(CutAtTerminators(LineText(decimal, u + ending))) == Stripped(CutAtTerminators(u[skip..]))
  {
    TrimBlankBehind(u, ending);
    LineTextBehind(decimal, u);
    TrimRightParts(u);
    BlankCut(u, TrimRight(u), LineText(decimal, u), skip);
  }

  lemma BlankCut(u: string, core: string, text: string, skip: nat)
    requires core <= u && All(IsSpace, u[|core|..]) && Behind(text, core) && skip == |core| - |text|
    ensures skip <= |u| && Unmarked(u[..skip])
    ensures Stripped(CutAtTerminators(text)) == Stripped(CutAtTerminators(u[skip..]))
  {
    var blank := u[|core|..];
    assert u[..skip] == core[..skip];
    assert u[skip..] == text + blank;
    CutBlankBehind(text, blank);
  }

  lemma TextFollows(decimal: char -> bool, u: string, bound: string, ending: string, skip: nat)
    requires FrontOf(u, bound) && Blank(ending) && DecimalClass(decimal)
    requires skip == |TrimRight(u)| - |LineText(decimal, u)|
    ensures skip <= |bound| && Unmarked(bound[..skip])
    ensures Stripped(CutAtTerminators(LineText(decimal, bound + ending))) == Stripped(CutAtTerminators(bound[skip..]))
  {
    if u == bound {
      ClosedText(decimal, u, ending, skip);
    } else {
      var more := bound[|u|..];
      OpenedText(decimal, u, more, ending, skip);
      PrefixSlices(u, more, bound, skip);
    }
  }

  lemma PrefixSlices(u: string, more: string, bound: string, skip: nat)
    requires u <= bound && more == bound[|u|..] && skip <= |u|
    ensures bound == u + more && bound[..skip] == u[..skip] && bound[skip..] == u[skip..] + more
  {
  }

  // ----- Plain prose -----

  predicate CalmChar(c: char) {
    c != '`' && c != '~' && c != '|' && c != '<' && c != '>'
  }

  predicate Calm(s: string) {
    forall i :: 0 <= i < |s| ==> CalmChar(s[i])
  }

  predicate NoUrl(s: string) {
    forall i :: 0 <= i < |s| ==> !UrlStart(s[i..])
  }

  predicate Prose(s: string) {
    NoBrackets(s) && Calm(s) && NoUrl(s)
  }

  lemma UrlLonger(s: string, more: string)
    requires UrlStart(s)
    ensures UrlStart(s + more)
  {
    assert |s| >= 7 ==> (s + more)[4..7] == s[4..7];
    assert |s| >= 8 ==> (s + more)[5..8] == s[5..8];
  }

  lemma ProsePart(s: string, a: nat, b: nat)
    requires Prose(s) && a <= b <= |s|
    ensures Prose(s[a..b])
  {
    forall i | 0 <= i < b - a ensures !UrlStart(s[a..b][i..]) {
      if UrlStart(s[a..b][i..]) {
        assert s[a + i..] == s[a..b][i..] + s[b..];
        UrlLonger(s[a..b][i..], s[b..]);
        assert false;
      }
    }
  }

  lemma {:induction false} CalmParts(s: string)
    requires Calm(s) && NoBrackets(s)
    ensures !TicksOdd(s) && !InLink(s) && !InLinkText(s) && !InAngle(s)
  {
    if |s| > 0 {
      CalmParts(Front(s));
      PartsNext(Front(s), Last(s));
      assert s == Front(s) + [Last(s)];
    }
  }

  lemma {:induction false} TokenIsEnd(s: string)
    ensures |LastToken(s)| <= |s| && LastToken(s) == s[|s| - |LastToken(s)|..]
  {
    if |s| > 0 && !IsSpace(Last(s)) {
      TokenIsEnd(Front(s));
    }
  }

  lemma ProseNoUrl(s: string)
    requires Prose(s)
    ensures !InUrl(s)
  {
    TokenIsEnd(s);
    var t := LastToken(s);
    forall i | 0 <= i < |t| ensures !UrlStart(t[i..]) {
      assert t[i..] == s[|s| - |t| + i..];
    }
  }

  // In plain prose every terminator ends a sentence.
  lemma ProseStops(digit: char -> bool, body: string)
    requires Prose(body) && OneLine(body)
    ensures StopsAtTerms(Stop(digit, body), body)
  {
    forall i: nat | i < |body| && IsTerminator(body[i]) ensures Stop(digit, body)(i) {
      var prefix := body[..i];
      ProsePart(body, 0, i);
      assert body[0..i] == prefix;
      CalmParts(prefix);
      ProseNoUrl(prefix);
      SpanParts(prefix, [body[i]] + body[i + 1..]);
      TermAtIndex(digit, prefix, body[i], body[i + 1..]);
      assert body == prefix + [body[i]] + body[i + 1..];
    }
  }

  lemma {:induction false} BoundCalm(stop: nat -> bool, bind: string -> string, line: string, start: nat, ids: seq<string>)
    requires ValidIds(ids) && Binds(bind, TagBlock(ids)) && NoBrackets(line) && Calm(line) && start <= |line|
    ensures Calm(BindPieces(stop, bind, line, start))
    decreases |line| - start
  {
    if start < |line| {
      var end := PieceEnd(stop, |line|, start);
      BoundCalm(stop, bind, line, end, ids);
      PieceCalm(bind, line[start..end], ids);
    }
  }

  lemma PieceCalm(bind: string -> string, s: string, ids: seq<string>)
    requires ValidIds(ids) && Binds(bind, TagBlock(ids)) && NoBrackets(s) && Calm(s)
    ensures Calm(bind(s))
  {
    BlockChars(ids);
    forall i | 0 <= i < |TagBlock(ids)| ensures CalmChar(TagBlock(ids)[i]) {
      assert TagChar(TagBlock(ids)[i]);
    }
  }

  lemma CalmLine(bound: string, ending: string)
    requires Calm(bound) && Blank(ending)
    ensures !FenceLine(Trim(bound + ending)) && !IsTable(DropHeading(Trim(bound + ending)))
  {
    var calm := (c: char) => CalmChar(c);
    var raw := bound + ending;
    assert All(calm, raw);
    TrimAll(calm, raw);
    HeadingAll(calm, Trim(raw));
    assert |Trim(raw)| > 0 ==> calm(Trim(raw)[0]);
    assert |DropHeading(Trim(raw))| > 0 ==> calm(DropHeading(Trim(raw))[0]);
  }

  lemma HeadingAll(p: char -> bool, s: string)
    requires All(p, s)
    ensures All(p, DropHeading(s))
  {
    HashesBehind(s, 6);
    assert All(p, DropHashes(s, 6));
    TrimAll(p, DropHashes(s, 6));
    TrimAll(p, TrimLeft(DropHashes(s, 6)));
  }

  lemma LineFrom(decimal: char -> bool, stop: nat -> bool, bind: string -> string, body: string, ending: string, ids: seq<string>)
    requires Binding(stop, bind, body, ids) && Calm(BindPieces(stop, bind, body, 0)) && Blank(ending) && DecimalClass(decimal)
    ensures Matching(Fits(decimal), Pieces(decimal, BindPieces(stop, bind, body, 0) + ending),
                     LinePlan(stop, body, 0, Skip(decimal, stop, body)))
  {
    var bound, front, skip := BindPieces(stop, bind, body, 0), BeforeTag(stop, body, 0), Skip(decimal, stop, body);
    BlockChars(ids);
    BeforeTagFront(stop, bind, body, 0, TagBlock(ids));
    LineTextBehind(decimal, front);
    TextFollows(decimal, front, bound, ending, skip);
    CutTrim(LineText(decimal, bound + ending));
    LineFollows(decimal, stop, bind, body, ids, skip);
    CalmLine(bound, ending);
    PiecesAre(decimal, bound + ending);
  }

  lemma ProseBinding(digit: char -> bool, body: string, ids: seq<string>)
    requires EvidenceIds(ids) && Prose(body) && OneLine(body)
    ensures Binding(Stop(digit, body), Binder(TagBlock(ids)), body, ids)
    ensures Calm(BindPieces(Stop(digit, body), Binder(TagBlock(ids)), body, 0))
  {
    IdsAreValid(ids);
    BinderBinds(TagBlock(ids));
    ProseStops(digit, body);
    BoundCalm(Stop(digit, body), Binder(TagBlock(ids)), body, 0, ids);
  }

  // The claims of a bound line of prose are those planned for the line.
  lemma LineClaims(digit: char -> bool, decimal: char -> bool, body: string, ending: string, ids: seq<string>)
    requires EvidenceIds(ids) && Prose(body) && OneLine(body) && Blank(ending) && DecimalClass(decimal)
    ensures Matching(Fits(decimal), Pieces(decimal, LineBinder(digit, TagBlock(ids))(body) + ending), Planner(digit, decimal)(body))
  {
    ProseBinding(digit, body, ids);
    LineFrom(decimal, Stop(digit, body), Binder(TagBlock(ids)), body, ending, ids);
  }

  lemma {:induction false} IdsAreValid(ids: seq<string>)
    requires AllEvidence(ids)
    ensures ValidIds(ids)
  {
    if |ids| > 0 {
      IdsAreValid(ids[1..]);
      assert forall i :: 0 < i < |ids| ==> ids[i] == ids[1..][i - 1];
    }
  }

  lemma PiecesAre(decimal: char -> bool, raw: string)
    requires !FenceLine(Trim(raw)) && !IsTable(DropHeading(Trim(raw)))
    ensures Pieces(decimal, raw) == Stripped(CutAtTerminators(Trim(LineText(decimal, raw))))
  {
    if |DropHeading(Trim(raw))| == 0 {
      NothingCut();
      assert LineText(decimal, raw) == [] && Trim([]) == [];
    }
  }

  // ----- The claims of a whole section -----

  // A claim and what was planned for it.
  ghost predicate Follows(c: string, p: Planned) {
    (Cited(c) <==> p.tagged) && (!p.tagged ==> c == p.text && NoBrackets(c))
  }

  ghost function Following(): (string, Planned) -> bool {
    (c, p) => Follows(c, p)
  }

  lemma NotCited(s: string)
    requires NoBrackets(s)
    ensures !Cited(s)
  {
    if Cited(s) {
      CitedBrackets(s);
    }
  }

  lemma MatchFollows(decimal: char -> bool, c: string, p: Planned)
    requires Matches(decimal, c, p)
    ensures Follows(c, p) && (CitationOnly(decimal, c) <==> Bare(p))
  {
    if !p.tagged {
      NoReference(decimal, c);
      NotCited(c);
    }
  }

  // A citation that stands alone joins the claim before it and brings its tag.
  lemma JoinFollows(c: string, p: Planned, citation: string, bare: Planned)
    requires Follows(c, p) && Follows(citation, bare) && bare.tagged
    ensures Follows(c + citation, Planned(p.text + bare.text, true))
  {
    CitedInside(c, citation, []);
    assert c + citation + [] == c + citation;
  }

  lemma AppendFollows(decimal: char -> bool, cs: seq<string>, plan: seq<Planned>, c: string, p: Planned)
    requires Matching(Following(), cs, plan) && Matches(decimal, c, p)
    ensures Matching(Following(), Appended(decimal, cs, c), PlanAppended(plan, p))
  {
    MatchFollows(decimal, c, p);
    if Bare(p) && |plan| > 0 {
      assert Following()(cs[|cs| - 1], plan[|plan| - 1]);
      JoinFollows(cs[|cs| - 1], plan[|plan| - 1], c, p);
    }
  }

  lemma {:induction false} AppendAllFollows(decimal: char -> bool, cs: seq<string>, plan: seq<Planned>, pieces: seq<string>, ps: seq<Planned>)
    requires Matching(Following(), cs, plan) && Matching(Fits(decimal), pieces, ps)
    ensures Matching(Following(), AppendedAll(decimal, cs, pieces), PlanAppendedAll(plan, ps))
    decreases |pieces|
  {
    if |pieces| > 0 {
      assert Fits(decimal)(pieces[0], ps[0]);
      AppendFollows(decimal, cs, plan, pieces[0], ps[0]);
      assert forall k :: 0 <= k < |pieces[1..]| ==> pieces[1..][k] == pieces[k + 1] && ps[1..][k] == ps[k + 1];
      AppendAllFollows(decimal, Appended(decimal, cs, pieces[0]), PlanAppended(plan, ps[0]), pieces[1..], ps[1..]);
    }
  }

  ghost predicate PlansLine(
    decimal: char -> bool, bind: string -> string, planner: string -> seq<Planned>, body: string, ending: string)
  {
    Prose(body) && OneLine(body) && Blank(ending) ==>
      Matching(Fits(decimal), Pieces(decimal, bind(body) + ending), planner(body))
  }

  ghost function LineRule(decimal: char -> bool, bind: string -> string, planner: string -> seq<Planned>): (string, string) -> bool {
    (body, ending) => PlansLine(decimal, bind, planner, body, ending)
  }

  ghost predicate AllHold(rule: (string, string) -> bool) {
    forall body: string, ending: string :: rule(body, ending)
  }

  ghost predicate PlansLines(decimal: char -> bool, bind: string -> string, planner: string -> seq<Planned>) {
    AllHold(LineRule(decimal, bind, planner))
  }

  lemma NoFence(body: string)
    requires Calm(body)
    ensures !IsFence(body)
  {
    TrimLeftParts(body);
  }

  lemma BodyProse(line: string, rest: string)
    requires LineOf(line, rest) && Prose(line)
    ensures Prose(Body(line)) && OneLine(Body(line)) && Blank(LineEnding(line)) && !IsFence(Body(line))
  {
    BodyOf(line, rest);
    ProsePart(line, 0, |line| - EndingLength(line));
    assert line[0..|line| - EndingLength(line)] == Body(line);
    NoFence(Body(line));
  }

  // A line of prose, bound.
  lemma OutFollows(decimal: char -> bool, bind: string -> string, planner: string -> seq<Planned>, line: string, rest: string)
    requires PlansLines(decimal, bind, planner) && LineOf(line, rest) && Prose(line)
    ensures !IsFence(Body(line)) && Matching(Fits(decimal), Pieces(decimal, Out(bind, line, false)), planner(Body(line)))
  {
    BodyProse(line, rest);
    assert LineRule(decimal, bind, planner)(Body(line), LineEnding(line));
  }

  lemma SplitStep(s: string)
    requires |s| > 0
    ensures SplitLines(s) == [s[..LineLength(s)]] + SplitLines(s[LineLength(s)..])
  {
  }

  lemma FragmentsStep(decimal: char -> bool, cs: seq<string>, line: string, lines: seq<string>)
    ensures Fragments(decimal, cs, [line] + lines) == Fragments(decimal, AppendedAll(decimal, cs, Pieces(decimal, line)), lines)
  {
    assert ([line] + lines)[1..] == lines;
  }

  lemma PlanLinesStep(planner: string -> seq<Planned>, plan: seq<Planned>, line: string, lines: seq<string>)
    ensures PlanLines(planner, plan, [line] + lines) == PlanLines(planner, PlanAppendedAll(plan, planner(Body(line))), lines)
  {
    assert ([line] + lines)[1..] == lines;
  }

  lemma {:induction false} SectionFollows(
    decimal: char -> bool, bind: string -> string, planner: string -> seq<Planned>, s: string, cs: seq<string>, plan: seq<Planned>)
    requires BodyLaws(bind) && PlansLines(decimal, bind, planner) && Prose(s) && Matching(Following(), cs, plan)
    ensures Matching(Following(), Fragments(decimal, cs, SplitLines(AttachText(bind, s, false))), PlanLines(planner, plan, SplitLines(s)))
    decreases |s|
  {
    if |s| > 0 {
      var n := LineLength(s);
      var line, rest := s[..n], s[n..];
      var later, out := AttachText(bind, rest, false), Out(bind, line, false);
      LineLengthOf(s);
      ProsePart(s, 0, n);
      ProsePart(s, n, |s|);
      assert s[0..n] == line && s[n..|s|] == rest;
      OutFollows(decimal, bind, planner, line, rest);
      AppendAllFollows(decimal, cs, plan, Pieces(decimal, out), planner(Body(line)));
      SectionFollows(decimal, bind, planner, rest, AppendedAll(decimal, cs, Pieces(decimal, out)), PlanAppendedAll(plan, planner(Body(line))));
      LinesSplit(bind, s, line, rest, out, later);
      FragmentsStep(decimal, cs, out, SplitLines(later));
      PlanLinesStep(planner, plan, line, SplitLines(rest));
    }
  }

  // The lines of a bound section are its lines, bound.
  lemma LinesSplit(bind: string -> string, s: string, line: string, rest: string, out: string, later: string)
    requires BodyLaws(bind) && |s| > 0 && line == s[..LineLength(s)] && rest == s[LineLength(s)..]
    requires NoBrackets(s) && NoBrackets(line) && NoBrackets(rest) && !IsFence(Body(line))
    requires out == Out(bind, line, false) && later == AttachText(bind, rest, false)
    ensures SplitLines(s) == [line] + SplitLines(rest)
    ensures SplitLines(AttachText(bind, s, false)) == [out] + SplitLines(later)
  {
    SplitStep(s);
    LineLengthOf(s);
    AttachSettles(bind, rest, false);
    AttachFirst(bind, s, false);
    OutLine(bind, line, rest, later, false);
    SplitFirst(out, later);
  }

  lemma SplitFirst(out: string, later: string)
    requires LineOf(out, later)
    ensures SplitLines(out + later) == [out] + SplitLines(later)
  {
    LineLengthIs(out, later);
    assert (out + later)[..|out|] == out && (out + later)[|out|..] == later;
  }

  lemma LinePlanned(digit: char -> bool, decimal: char -> bool, ids: seq<string>, body: string, ending: string)
    requires EvidenceIds(ids) && DecimalClass(decimal)
    ensures LineRule(decimal, LineBinder(digit, TagBlock(ids)), Planner(digit, decimal))(body, ending)
  {
    if Prose(body) && OneLine(body) && Blank(ending) {
      LineClaims(digit, decimal, body, ending, ids);
    }
  }

  lemma PlansLinesHolds(digit: char -> bool, decimal: char -> bool, ids: seq<string>)
    requires EvidenceIds(ids) && DecimalClass(decimal)
    ensures PlansLines(decimal, LineBinder(digit, TagBlock(ids)), Planner(digit, decimal))
  {
    forall body: string, ending: string
      ensures LineRule(decimal, LineBinder(digit, TagBlock(ids)), Planner(digit, decimal))(body, ending)
    {
      LinePlanned(digit, decimal, ids, body, ending);
    }
  }

  // A blank section stays as it is, as the source leaves it.
  ghost predicate KeepsBlank(bind: string -> string) {
    forall body: string :: Blank(body) ==> bind(body) == body
  }

  lemma {:induction false} BlankStays(bind: string -> string, s: string)
    requires Blank(s) && KeepsBlank(bind)
    ensures AttachText(bind, s, false) == s
    decreases |s|
  {
    if |s| > 0 {
      var n := LineLength(s);
      BlankStays(bind, s[n..]);
      BlankFirst(bind, s, s[..n], s[n..]);
    }
  }

  lemma BlankFirst(bind: string -> string, s: string, line: string, rest: string)
    requires |s| > 0 && line == s[..LineLength(s)] && rest == s[LineLength(s)..] && Blank(line) && KeepsBlank(bind)
    requires AttachText(bind, rest, false) == rest
    ensures AttachText(bind, s, false) == s
  {
    AttachFirst(bind, s, false);
    BlankOut(bind, line);
    PrefixRest(s, LineLength(s));
  }

  lemma PrefixRest(s: string, n: nat)
    requires n <= |s|
    ensures s[..n] + s[n..] == s
  {
  }

  lemma BlankOut(bind: string -> string, line: string)
    requires Blank(line) && KeepsBlank(bind)
    ensures Out(bind, line, false) == line && !Next(line, false)
  {
    assert Blank(Body(line));
    BlankNoFence(Body(line));
    assert Body(line) + LineEnding(line) == line;
  }

  lemma BlankNoFence(s: string)
    requires Blank(s)
    ensures !IsFence(s)
  {
    TrimLeftParts(s);
  }

  lemma BlankUnbound(digit: char -> bool, ids: seq<string>, s: string)
    requires ValidIds(ids) && Blank(s)
    ensures BindLine(digit, s, TagBlock(ids)) == s
  {
    BinderBinds(TagBlock(ids));
    BlankPieces(Stop(digit, s), Binder(TagBlock(ids)), s, 0, TagBlock(ids));
  }

  lemma {:induction false} BlankPieces(stop: nat -> bool, bind: string -> string, line: string, start: nat, tags: string)
    requires Binds(bind, tags) && Blank(line) && start <= |line|
    ensures BindPieces(stop, bind, line, start) == line[start..]
    decreases |line| - start
  {
    if start < |line| {
      var end := PieceEnd(stop, |line|, start);
      var p := line[start..end];
      assert Blank(p);
      assert !Factual(p) && NoBrackets(p);
      BlankPieces(stop, bind, line, end, tags);
      assert line[start..] == p + line[end..];
    }
  }

  lemma {:induction false} TrimLeftBlank(s: string)
    requires |TrimLeft(s)| == 0
    ensures Blank(s)
  {
    if |s| > 0 {
      TrimLeftBlank(s[1..]);
      assert s == [s[0]] + s[1..];
    }
  }

  lemma AttachIsText(digit: char -> bool, content: string, ids: seq<string>)
    requires EvidenceIds(ids)
    ensures Attach(digit, content, ids) == AttachText(LineBinder(digit, TagBlock(ids)), content, false)
  {
    if |TrimLeft(content)| == 0 {
      IdsAreValid(ids);
      TrimLeftBlank(content);
      var bind := LineBinder(digit, TagBlock(ids));
      forall body: string | Blank(body) ensures bind(body) == body {
        BlankUnbound(digit, ids, body);
      }
      BlankStays(bind, content);
    }
  }

  // The claims the verifier cuts from the bound section.
  function BoundClaims(digit: char -> bool, decimal: char -> bool, content: string, ids: seq<string>): seq<string> {
    Fragments(decimal, [], SplitLines(Attach(digit, content, ids)))
  }

  // What is known of the lines of a section.
  ghost function LawOf(decimal: char -> bool): (string -> string, string -> seq<Planned>) -> bool {
    (bind: string -> string, planner: string -> seq<Planned>) => BodyLaws(bind) && PlansLines(decimal, bind, planner)
  }

  ghost predicate Laws(digit: char -> bool, decimal: char -> bool, ids: seq<string>) {
    LawOf(decimal)(LineBinder(digit, TagBlock(ids)), Planner(digit, decimal))
  }

  lemma LawsHold(digit: char -> bool, decimal: char -> bool, ids: seq<string>)
    requires DigitClass(digit) && DecimalClass(decimal) && EvidenceIds(ids)
    ensures Laws(digit, decimal, ids)
  {
    IdsAreValid(ids);
    BodyLawsHold(digit, ids);
    PlansLinesHolds(digit, decimal, ids);
  }

  lemma ClaimsAre(digit: char -> bool, decimal: char -> bool, content: string, ids: seq<string>)
    requires EvidenceIds(ids)
    ensures BoundClaims(digit, decimal, content, ids)
         == Fragments(decimal, [], SplitLines(AttachText(LineBinder(digit, TagBlock(ids)), content, false)))
  {
    AttachIsText(digit, content, ids);
  }

  lemma SectionFrom(decimal: char -> bool, bind: string -> string, planner: string -> seq<Planned>, content: string)
    requires LawOf(decimal)(bind, planner) && Prose(content)
    ensures Matching(Following(), Fragments(decimal, [], SplitLines(AttachText(bind, content, false))),
                     PlanLines(planner, [], SplitLines(content)))
  {
    SectionFollows(decimal, bind, planner, content, [], []);
  }

  lemma SectionMatches(digit: char -> bool, decimal: char -> bool, content: string, ids: seq<string>)
    requires Laws(digit, decimal, ids) && Prose(content)
    ensures Matching(Following(), Fragments(decimal, [], SplitLines(AttachText(LineBinder(digit, TagBlock(ids)), content, false))),
                     PlanLines(Planner(digit, decimal), [], SplitLines(content)))
  {
    SectionFrom(decimal, LineBinder(digit, TagBlock(ids)), Planner(digit, decimal), content);
  }

  lemma SectionClaims(digit: char -> bool, decimal: char -> bool, content: string, ids: seq<string>)
    requires Laws(digit, decimal, ids) && EvidenceIds(ids) && Prose(content)
    ensures Matching(Following(), BoundClaims(digit, decimal, content, ids), PlanOf(digit, decimal, content))
  {
    ClaimsAre(digit, decimal, content, ids);
    SectionMatches(digit, decimal, content, ids);
  }

  // They are, one by one, those planned for the section, if it is plain prose: a claim carries a
  // tag exactly if its plan says so, and otherwise is the text planned.
  lemma ClaimsFollowPlan(digit: char -> bool, decimal: char -> bool, content: string, ids: seq<string>)
    requires DigitClass(digit) && DecimalClass(decimal) && EvidenceIds(ids) && Prose(content)
    ensures Matching(Following(), BoundClaims(digit, decimal, content, ids), PlanOf(digit, decimal, content))
  {
    LawsHold(digit, decimal, ids);
    SectionClaims(digit, decimal, content, ids);
  }

  predicate Every<T>(p: T -> bool, s: seq<T>) {
    |s| == 0 || (p(s[0]) && Every(p, s[1..]))
  }

  // What the pipeline promises of a claim: one that states something carries a tag or is the
  // fixed no-evidence sentence.
  ghost predicate Accounted(c: string) {
    Factual(c) ==> Cited(c) || NoEvidence(c)
  }

  ghost function Promised(): string -> bool {
    (c: string) => Accounted(c)
  }

  function Covered(): Planned -> bool {
    (p: Planned) => !Uncited(p)
  }

  // It keeps the promise for every claim if and only if nothing in the section is planned to go
  // uncited.
  lemma ClaimsAreCited(digit: char -> bool, decimal: char -> bool, content: string, ids: seq<string>)
    requires DigitClass(digit) && DecimalClass(decimal) && EvidenceIds(ids) && Prose(content)
    ensures Every(Promised(), BoundClaims(digit, decimal, content, ids)) <==> Every(Covered(), PlanOf(digit, decimal, content))
  {
    ClaimsFollowPlan(digit, decimal, content, ids);
    PlanAccounts(digit, decimal, content, ids);
  }

  lemma PlanAccounts(digit: char -> bool, decimal: char -> bool, content: string, ids: seq<string>)
    requires Matching(Following(), BoundClaims(digit, decimal, content, ids), PlanOf(digit, decimal, content))
    ensures Every(Promised(), BoundClaims(digit, decimal, content, ids)) <==> Every(Covered(), PlanOf(digit, decimal, content))
  {
    FollowAccounts(BoundClaims(digit, decimal, content, ids), PlanOf(digit, decimal, content));
  }

  lemma {:induction false} FollowAccounts(cs: seq<string>, plan: seq<Planned>)
    requires Matching(Following(), cs, plan)
    ensures Every(Promised(), cs) <==> Every(Covered(), plan)
    decreases |cs|
  {
    if |cs| > 0 {
      assert Following()(cs[0], plan[0]);
      assert forall k :: 0 <= k < |cs[1..]| ==> cs[1..][k] == cs[k + 1] && plan[1..][k] == plan[k + 1];
      FollowAccounts(cs[1..], plan[1..]);
    }
  }

  // ----- A claim that goes uncited -----

  function Twice(): string {
    NO_EVIDENCE + ['.', ' '] + NO_EVIDENCE + ['。']
  }

  predicate Ideograph(c: char) {
    '\U{3400}' <= c <= '\U{9FFF}'
  }

  lemma MarkerChars()
    ensures |NO_EVIDENCE| == 8 && forall i :: 0 <= i < 8 ==> Ideograph(NO_EVIDENCE[i])
  {
  }

  lemma TwiceChars()
    ensures |Twice()| == 19 && Twice()[8] == '.' && Twice()[9] == ' ' && Twice()[18] == '。'
    ensures forall i :: 0 <= i < 19 && i != 8 && i != 9 && i != 18 ==> Ideograph(Twice()[i])
    ensures Twice()[0..9] == NO_EVIDENCE + ['.'] && Twice()[9..19] == [' '] + NO_EVIDENCE + ['。']
  {
    MarkerChars();
    forall i | 0 <= i < 19 && i != 8 && i != 9 && i != 18 ensures Ideograph(Twice()[i]) {
      assert Twice()[i] == if i < 8 then NO_EVIDENCE[i] else NO_EVIDENCE[i - 10];
    }
  }

  lemma TwiceProse()
    ensures Prose(Twice()) && OneLine(Twice()) && LineOf(Twice(), [])
  {
    TwiceChars();
    var s := Twice();
    forall i | 0 <= i < |s| ensures !UrlStart(s[i..]) {
      assert s[i..][0] == s[i];
    }
  }

  lemma SolidTrim(s: string)
    requires |s| > 0 && !IsSpace(s[0]) && !IsSpace(Last(s))
    ensures Trim(s) == s && TrimLeft(s) == s && TrimRight(s) == s
  {
  }

  ghost predicate OneStop(stop: nat -> bool, size: nat, m: nat) {
    stop(m) && forall i: nat :: i < size && i != m ==> !stop(i)
  }

  // A line of two pieces that both stay.
  lemma TwoPieces(stop: nat -> bool, bind: string -> string, s: string, m: nat)
    requires 0 < m < |s| && OneStop(stop, |s| - 1, m - 1)
    requires bind(s[0..m]) == s[0..m] && bind(s[m..|s|]) == s[m..|s|]
    ensures BindPieces(stop, bind, s, 0) == s
  {
    PieceEndIs(stop, |s|, 0, m);
    PieceEndIs(stop, |s|, m, |s|);
    LastPiece(stop, bind, s, m);
    assert s[0..m] + s[m..|s|] == s;
  }

  lemma LastPiece(stop: nat -> bool, bind: string -> string, s: string, m: nat)
    requires m < |s| && PieceEnd(stop, |s|, m) == |s|
    ensures BindPieces(stop, bind, s, m) == bind(s[m..|s|])
  {
    assert BindPieces(stop, bind, s, |s|) == [];
  }

  lemma NoStop(digit: char -> bool, s: string, i: nat)
    requires OneLine(s) && i < |s| && s[i] != '.' && !IsTerminator(s[i])
    ensures !Stop(digit, s)(i)
  {
  }

  lemma TwiceStops(digit: char -> bool, i: nat)
    requires DigitClass(digit) && i < 18
    ensures Stop(digit, Twice())(i) <==> i == 8
  {
    var s := Twice();
    TwiceChars();
    TwiceProse();
    if i != 8 {
      NoStop(digit, s, i);
    } else {
      var prefix := s[..8];
      ProsePart(s, 0, 8);
      assert s[0..8] == prefix;
      CalmParts(prefix);
      ProseNoUrl(prefix);
      SpanParts(prefix, ['.'] + s[9..]);
      EndsHereLooks(s[9..]);
      TermAtIndex(digit, prefix, '.', s[9..]);
      assert s == prefix + ['.'] + s[9..];
    }
  }

  // The fixed sentence stays as it is.
  lemma FixedStays(tags: string, front: string, c: char)
    requires (front == [] || front == [' ']) && (c == '.' || c == '。')
    ensures Binder(tags)(front + NO_EVIDENCE + [c]) == front + NO_EVIDENCE + [c]
  {
    var core := NO_EVIDENCE + [c];
    var s := front + core;
    MarkerChars();
    SolidTrim(core);
    assert |front| == 1 ==> s[1..] == core;
    assert |front| == 0 ==> s == core;
    assert TrimLeft(s) == core;
    assert core[..8] == NO_EVIDENCE;
    assert s == front + NO_EVIDENCE + [c];
    assert NoBrackets(s);
    BindPlain(s, tags);
  }

  lemma TwiceStays(digit: char -> bool, tags: string)
    requires DigitClass(digit)
    ensures LineBinder(digit, tags)(Twice()) == Twice()
  {
    var s := Twice();
    TwiceChars();
    forall i: nat | i < 18 ensures Stop(digit, s)(i) <==> i == 8 {
      TwiceStops(digit, i);
    }
    assert OneStop(Stop(digit, s), 18, 8);
    FixedStays(tags, [], '.');
    FixedStays(tags, [' '], '。');
    assert [] + NO_EVIDENCE + ['.'] == NO_EVIDENCE + ['.'];
    TwoPieces(Stop(digit, s), Binder(tags), s, 9);
  }

  lemma FirstTerminatorIs(s: string, k: nat)
    requires k < |s| && IsTerminator(s[k]) && forall i :: 0 <= i < k ==> !IsTerminator(s[i])
    ensures FirstTerminator(s) == k
  {
  }

  lemma OneSentencePieces(decimal: char -> bool, s: string)
    requires |s| > 2 && Ideograph(s[0]) && !decimal(s[0]) && Last(s) == '。'
    requires forall i :: 0 <= i < |s| - 1 ==> !IsTerminator(s[i])
    ensures Pieces(decimal, s) == [s]
  {
    SolidTrim(s);
    assert DropListPrefix(decimal, s) == s;
    FirstTerminatorIs(s, |s| - 1);
    assert s[..|s|] == s && s[|s|..] == [];
    assert CutAtTerminators(s) == [s] + CutAtTerminators([]);
    assert Trim([]) == [];
    var cuts: seq<string> := [s, []];
    assert cuts[1..] == [[]];
    assert Stripped([[]]) == [];
    assert Stripped(cuts) == [s];
  }

  // A section of one line that stays.
  lemma OneLineStays(bind: string -> string, s: string)
    requires !IsFence(s) && EndingLength(s) == 0 && bind(s) == s
    ensures AttachLines(bind, [s], false) == s
  {
    assert Body(s) == s && LineEnding(s) == [];
    assert AttachLines(bind, [s][1..], false) == [];
  }

  lemma OneLineOnly(s: string)
    requires LineOf(s, [])
    ensures SplitLines(s) == [s]
  {
    SplitFirst(s, []);
    assert s + [] == s;
  }

  lemma TwiceAttached(digit: char -> bool, ids: seq<string>)
    requires DigitClass(digit)
    ensures Attach(digit, Twice(), ids) == Twice() && SplitLines(Twice()) == [Twice()]
  {
    TwiceChars();
    TwiceProse();
    OneLineOnly(Twice());
    NoFence(Twice());
    TwiceStays(digit, TagBlock(ids));
    OneLineStays(LineBinder(digit, TagBlock(ids)), Twice());
  }

  lemma TwicePieces(decimal: char -> bool)
    requires !decimal(NO_EVIDENCE[0])
    ensures Fragments(decimal, [], [Twice()]) == [Twice()]
  {
    var s := Twice();
    var none: seq<string> := [];
    TwiceChars();
    assert s[0] == NO_EVIDENCE[0];
    OneSentencePieces(decimal, s);
    var one: seq<string> := [s];
    assert one[1..] == [];
    assert Appended(decimal, none, s) == one;
    assert AppendedAll(decimal, none, one) == one;
    assert Fragments(decimal, none, one) == Fragments(decimal, one, one[1..]);
  }

  lemma TwiceIsMore()
    ensures !Cited(Twice()) && !NoEvidence(Twice()) && Factual(Twice())
  {
    var s := Twice();
    TwiceChars();
    SolidTrim(s);
    MarkerChars();
    assert IsSemantic(s[0]);
    assert NoBrackets(s);
    NotCited(s);
  }

  // Two of them with a full stop between are one claim, which carries no tag and is not the
  // fixed sentence.
  lemma TwoSentencesOneClaim(digit: char -> bool, decimal: char -> bool, ids: seq<string>)
    requires DigitClass(digit) && !decimal(NO_EVIDENCE[0])
    ensures Fragments(decimal, [], SplitLines(Attach(digit, Twice(), ids))) == [Twice()]
    ensures !Cited(Twice()) && !NoEvidence(Twice()) && Factual(Twice())
  {
    TwiceAttached(digit, ids);
    TwicePieces(decimal);
    TwiceIsMore();
  }
}
