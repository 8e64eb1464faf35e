// Binding a line twice binds it once: in the bound line the sentences end where they ended
// before, and a sentence that carries the tags is bound to itself.
module CitationStability {
  import opened CitationText
  import opened CitationBinding
  import opened CitationErasure
  import opened CitationTwins

  // ----- What follows a full stop -----

  // EndsHere, one closer at a time: ~ counts in pairs.
  predicate Look(s: string) {
    |s| == 0 || IsSpace(s[0])
    || ((s[0] == '*' || s[0] == '_') && Look(s[1..]))
    || (|s| > 1 && s[0] == '~' && s[1] == '~' && Look(s[2..]))
  }

  lemma {:induction false} EndsHereLooks(s: string)
    ensures EndsHere(s) <==> Look(s)
    decreases |s|
  {
    var n := CloserLength(s);
    if n > 0 {
      EndsHereLooks(s[n..]);
      if s[0] != '~' {
        assert Look(s) <==> Look(s[1..]);
        if n > 1 {
          assert s[1..][1..] == s[2..];
          assert Look(s[1..]) <==> Look(s[2..]);
        }
        if n > 2 {
          assert s[2..][1..] == s[3..];
          assert Look(s[2..]) <==> Look(s[3..]);
        }
      }
    }
  }

  lemma {:induction false} LookQuiet(s: string)
    requires Look(s)
    ensures Quiet(s)
    decreases |s|
  {
    if |s| > 0 && !IsSpace(s[0]) {
      if s[0] == '~' {
        LookQuiet(s[2..]);
        assert s[1..][1..] == s[2..];
      } else {
        LookQuiet(s[1..]);
      }
    }
  }

  // A look that succeeds in front of a tag is decided before it.
  lemma {:induction false} LookBefore(a: string, t: string, other: string)
    requires |t| > 0 && t[0] == '[' && Look(a + t)
    ensures |a| > 0 && Look(a + other)
    decreases |a|
  {
    if |a| > 0 && !IsSpace(a[0]) {
      if a[0] == '~' {
        assert |a| > 1;
        assert (a + t)[2..] == a[2..] + t && (a + other)[2..] == a[2..] + other;
        LookBefore(a[2..], t, other);
      } else {
        assert (a + t)[1..] == a[1..] + t && (a + other)[1..] == a[1..] + other;
        LookBefore(a[1..], t, other);
      }
    }
  }

  // ----- Texts alike up to their first statement -----

  predicate Alike(a: string, b: string) {
    if |a| == 0 || |b| == 0 then |a| == |b| else a[0] == b[0] && (IsSemantic(a[0]) || Alike(a[1..], b[1..]))
  }

  lemma {:induction false} AlikeBehind(s: string, a: string, b: string)
    requires Alike(a, b)
    ensures Alike(s + a, s + b)
  {
    if |s| == 0 {
      assert s + a == a && s + b == b;
    } else {
      AlikeBehind(s[1..], a, b);
      assert (s + a)[1..] == s[1..] + a && (s + b)[1..] == s[1..] + b;
    }
  }

  lemma {:induction false} AlikeFactual(s: string, a: string, b: string)
    requires Factual(s)
    ensures Alike(s + a, s + b)
  {
    if !IsSemantic(s[0]) {
      var i :| 0 <= i < |s| && IsSemantic(s[i]);
      assert s[1..][i - 1] == s[i];
      AlikeFactual(s[1..], a, b);
      assert (s + a)[1..] == s[1..] + a && (s + b)[1..] == s[1..] + b;
    }
  }

  lemma {:induction false} LookAlike(a: string, b: string)
    requires Alike(a, b)
    ensures Look(a) == Look(b)
    decreases |a|
  {
    if |a| > 0 && !IsSemantic(a[0]) {
      LookAlike(a[1..], b[1..]);
      if |a| > 1 && |b| > 1 && !IsSemantic(a[1]) {
        assert a[1..][1..] == a[2..] && b[1..][1..] == b[2..];
        LookAlike(a[2..], b[2..]);
      }
    }
  }

  lemma FactualPart(a: string, b: string)
    requires Factual(a + b)
    ensures Factual(a) || Factual(b)
  {
    var i :| 0 <= i < |a + b| && IsSemantic((a + b)[i]);
    if i < |a| {
      assert IsSemantic(a[i]);
    } else {
      assert IsSemantic(b[i - |a|]);
    }
  }

  lemma ShapeStatesNothing(b: string, closers: nat, term: nat)
    requires TailShape(b, closers, term)
    ensures !Factual(b)
  {
    forall i | 0 <= i < |b| ensures !IsSemantic(b[i]) {
      assert i < closers ==> IsCloser(b[i]);
      assert i >= closers + term ==> IsSpace(b[i]);
    }
  }

  // The tags stand behind everything a sentence states.
  lemma TailStatesNothing(s: string)
    ensures !Factual(Tail(s))
    ensures Factual(s) ==> Factual(Head(s))
  {
    var closers, term := TailParts(s);
    ShapeStatesNothing(Tail(s), closers, term);
    if Factual(s) {
      assert s == Head(s) + Tail(s);
      FactualPart(Head(s), Tail(s));
    }
  }

  lemma AlikeInserted(a: string, tags: string, b: string, later: string, rest: string)
    requires Factual(a)
    ensures Alike(a + tags + b + later, a + b + rest)
  {
    AlikeFactual(a, tags + b + later, b + rest);
    assert a + tags + b + later == a + (tags + b + later);
    assert a + b + rest == a + (b + rest);
  }

  // Bound or not, a piece leaves alike texts alike.
  ghost predicate BindsAlike(bind: string -> string) {
    forall s: string, later: string, rest: string ::
      NoBrackets(s) && Alike(later, rest) ==> Alike(bind(s) + later, s + rest)
  }

  lemma PieceAlike(bind: string -> string, tags: string)
    requires Binds(bind, tags)
    ensures BindsAlike(bind)
  {
    forall s: string, later: string, rest: string | NoBrackets(s) && Alike(later, rest)
      ensures Alike(bind(s) + later, s + rest)
    {
      if Tagged(s) {
        TailStatesNothing(s);
        AlikeInserted(Head(s), tags, Tail(s), later, rest);
        assert Head(s) + Tail(s) == s;
      } else {
        AlikeBehind(s, later, rest);
      }
    }
  }

  lemma {:induction false} BindAlike(stop: nat -> bool, bind: string -> string, line: string, start: nat)
    requires BindsAlike(bind) && NoBrackets(line) && start <= |line|
    ensures Alike(BindPieces(stop, bind, line, start), line[start..])
    decreases |line| - start
  {
    if start < |line| {
      var end := PieceEnd(stop, |line|, start);
      BindAlike(stop, bind, line, end);
      assert line[start..] == line[start..end] + line[end..];
    }
  }

  // ----- Terminators by what stands around them -----

  predicate BetweenDigits(digit: char -> bool, prefix: string, suffix: string) {
    |prefix| > 0 && digit(Last(prefix)) && |suffix| > 0 && digit(suffix[0])
  }

  predicate TermAt(digit: char -> bool, prefix: string, c: char, suffix: string) {
    !ProtectedSpan(prefix, [c] + suffix)
    && (IsTerminator(c) || (c == '.' && !BetweenDigits(digit, prefix, suffix) && EndsHere(suffix)))
  }

  predicate OneLine(s: string) {
    forall i :: 0 <= i < |s| ==> s[i] != '\n'
  }

  lemma {:induction false} NoLineStart(s: string)
    requires OneLine(s)
    ensures RFind(s, '\n') == -1
  {
    if |s| > 0 {
      NoLineStart(Front(s));
    }
  }

  lemma TermAtIndex(digit: char -> bool, prefix: string, c: char, suffix: string)
    requires OneLine(prefix)
    ensures SentenceTerminator(digit, prefix + [c] + suffix, |prefix|) == TermAt(digit, prefix, c, suffix)
  {
    var line := prefix + [c] + suffix;
    NoLineStart(prefix);
    assert line[..|prefix|] == prefix && line[0..|prefix|] == prefix && line[|prefix|..] == [c] + suffix;
    assert line[|prefix| + 1..] == suffix;
  }

  // What is assumed of str.isdigit.
  ghost predicate DigitClass(digit: char -> bool) {
    !digit(']') && forall c :: IsSpace(c) ==> !digit(c)
  }

  // suffix' is what follows in the bound line, suffix in the line.
  ghost predicate LooksNoFarther(suffix': string, suffix: string) {
    EndsHere(suffix') ==> EndsHere(suffix) && (|suffix| > 0 <==> |suffix'| > 0) && (|suffix| > 0 ==> suffix[0] == suffix'[0])
  }

  lemma TermTwin(digit: char -> bool, tagged: string, bare: string, v: string, c: char, suffix': string, suffix: string)
    requires DigitClass(digit) && Twin(tagged, bare, v, [c] + suffix)
    requires LooksNoFarther(suffix', suffix)
    ensures TermAt(digit, tagged + v, c, suffix') ==>
      TermAt(digit, bare + v, c, suffix) || (|v| == 0 < |tagged| && c == '.' && BetweenDigits(digit, bare + v, suffix))
    ensures LooksNoFarther(suffix, suffix') && TermAt(digit, bare + v, c, suffix) ==> TermAt(digit, tagged + v, c, suffix')
  {
    if IsTerminator(c) || c == '.' {
      assert !Quiet([c] + suffix);
      TwinProtected(tagged, bare, v, [c] + suffix, [c] + suffix', [c] + suffix);
      assert |v| > 0 ==> Last(tagged + v) == Last(v) && Last(bare + v) == Last(v);
      assert |v| == 0 && |tagged| > 0 ==> Last(tagged + v) == ']';
    }
  }

  lemma AlikeLooks(a: string, b: string)
    requires Alike(a, b)
    ensures LooksNoFarther(a, b) && LooksNoFarther(b, a)
  {
    LookAlike(a, b);
    EndsHereLooks(a);
    EndsHereLooks(b);
  }

  // ----- Terminators of a bound piece -----

  lemma TermInPlain(
    digit: char -> bool, tagged: string, bare: string, v: string, s: string, later: string, rest: string, p: nat)
    requires DigitClass(digit) && Twin(tagged, bare, v, s + rest) && NoBrackets(s) && Alike(later, rest)
    requires |tagged| > 0 ==> |v| > 0
    requires p < |s|
    ensures TermAt(digit, tagged + (v + s[..p]), s[p], s[p + 1..] + later)
        <==> TermAt(digit, bare + (v + s[..p]), s[p], s[p + 1..] + rest)
  {
    assert s + rest == s[..p] + ([s[p]] + (s[p + 1..] + rest));
    TwinWalk(tagged, bare, v, s[..p], [s[p]] + (s[p + 1..] + rest));
    AlikeBehind(s[p + 1..], later, rest);
    AlikeLooks(s[p + 1..] + later, s[p + 1..] + rest);
    TermTwin(digit, tagged, bare, v + s[..p], s[p], s[p + 1..] + later, s[p + 1..] + rest);
  }

  lemma LooksBefore(a: string, t: string, other: string)
    requires |t| > 0 && t[0] == '['
    ensures LooksNoFarther(a + t, a + other)
  {
    EndsHereLooks(a + t);
    EndsHereLooks(a + other);
    if Look(a + t) {
      LookBefore(a, t, other);
    }
  }

  // In front of the tags of its sentence: no terminator that was none.
  lemma TermInHead(
    digit: char -> bool, tagged: string, bare: string, v: string, a: string, t: string, other: string, p: nat)
    requires DigitClass(digit) && Twin(tagged, bare, v, a + other) && NoBrackets(a)
    requires |tagged| > 0 ==> |v| > 0
    requires p < |a| && |t| > 0 && t[0] == '['
    ensures TermAt(digit, tagged + (v + a[..p]), a[p], a[p + 1..] + t)
        ==> TermAt(digit, bare + (v + a[..p]), a[p], a[p + 1..] + other)
  {
    assert a + other == a[..p] + ([a[p]] + (a[p + 1..] + other));
    TwinWalk(tagged, bare, v, a[..p], [a[p]] + (a[p + 1..] + other));
    LooksBefore(a[p + 1..], t, other);
    TermTwin(digit, tagged, bare, v + a[..p], a[p], a[p + 1..] + t, a[p + 1..] + other);
  }

  // Behind the tags of its sentence: the terminators that were there.
  lemma TermInTail(digit: char -> bool, tagged: string, bare: string, b: string, later: string, rest: string, k: nat)
    requires DigitClass(digit) && Twin(tagged, bare, [], b + rest) && NoBrackets(b) && Alike(later, rest)
    requires k < |b| && |tagged| > 0 && MayFollow(b[0], b[1..] + rest)
    requires b[0] == '.' && BetweenDigits(digit, bare, b[1..] + rest) ==> TermAt(digit, bare, b[0], b[1..] + rest)
    ensures TermAt(digit, tagged + b[..k], b[k], b[k + 1..] + later)
       <==> TermAt(digit, bare + b[..k], b[k], b[k + 1..] + rest)
  {
    assert b + rest == b[..k] + ([b[k]] + (b[k + 1..] + rest));
    assert k > 0 ==> b[..k][0] == b[0] && b[..k][1..] + ([b[k]] + (b[k + 1..] + rest)) == b[1..] + rest;
    TwinWalk(tagged, bare, [], b[..k], [b[k]] + (b[k + 1..] + rest));
    assert [] + b[..k] == b[..k];
    AlikeBehind(b[k + 1..], later, rest);
    AlikeLooks(b[k + 1..] + later, b[k + 1..] + rest);
    TermTwin(digit, tagged, bare, b[..k], b[k], b[k + 1..] + later, b[k + 1..] + rest);
    assert k == 0 ==> bare + b[..k] == bare;
  }

  // ----- Where pieces end -----

  lemma {:induction false} PieceEndFacts(stop: nat -> bool, size: nat, index: nat)
    requires index < size
    ensures forall i :: index <= i < PieceEnd(stop, size, index) - 1 ==> !stop(i)
    ensures stop(PieceEnd(stop, size, index) - 1) || PieceEnd(stop, size, index) == size
    decreases size - index
  {
    if !stop(index) && index + 1 < size {
      PieceEndFacts(stop, size, index + 1);
    }
  }

  lemma {:induction false} PieceEndIs(stop: nat -> bool, size: nat, index: nat, end: nat)
    requires index < end <= size
    requires forall i :: index <= i < end - 1 ==> !stop(i)
    requires stop(end - 1) || end == size
    ensures PieceEnd(stop, size, index) == end
    decreases end - index
  {
    if index < end - 1 {
      PieceEndIs(stop, size, index + 1, end);
    }
  }

  // Places y.. under stop and places x.. under stop' are stops together.
  ghost predicate SameStops(stop: nat -> bool, y: nat, stop': nat -> bool, x: nat, n: nat) {
    forall p: nat :: p < n ==> (StopsAt(stop', x, p) <==> StopsAt(stop, y, p))
  }

  predicate StopsAt(stop: nat -> bool, start: nat, p: nat) {
    stop(start + p)
  }

  lemma SameEnd(stop: nat -> bool, size: nat, y: nat, stop': nat -> bool, size': nat, x: nat, n: nat)
    requires 0 < n && y + n <= size && x + n <= size' && (y + n == size ==> x + n == size')
    requires SameStops(stop, y, stop', x, n) && PieceEnd(stop, size, y) == y + n
    ensures PieceEnd(stop', size', x) == x + n
  {
    PieceEndFacts(stop, size, y);
    forall i | x <= i < x + n ensures stop'(i) <==> stop(y + (i - x)) {
      assert StopsAt(stop', x, i - x) <==> StopsAt(stop, y, i - x);
    }
    assert stop'(x + n - 1) <==> stop(y + n - 1);
    PieceEndIs(stop', size', x, x + n);
  }

  // Of a line made of x, s and rest, the place p in s.
  lemma StopIn(digit: char -> bool, x: string, s: string, rest: string, p: nat)
    requires p < |s| && OneLine(x + s + rest)
    ensures StopsAt(Stop(digit, x + s + rest), |x|, p) <==> TermAt(digit, x + s[..p], s[p], s[p + 1..] + rest)
  {
    var prefix := x + s[..p];
    assert x + s + rest == prefix + [s[p]] + (s[p + 1..] + rest);
    assert forall i :: 0 <= i < |prefix| ==> prefix[i] == (x + s + rest)[i];
    TermAtIndex(digit, x + s[..p], s[p], s[p + 1..] + rest);
  }

  lemma PlainStop(
    digit: char -> bool, tagged: string, bare: string, v: string, s: string, later: string, rest: string, p: nat)
    requires DigitClass(digit) && Twin(tagged, bare, v, s + rest) && NoBrackets(s) && Alike(later, rest)
    requires |tagged| > 0 ==> |v| > 0
    requires OneLine(bare + v + s + rest) && OneLine(tagged + v + s + later) && p < |s|
    ensures StopsAt(Stop(digit, tagged + v + s + later), |tagged + v|, p)
       <==> StopsAt(Stop(digit, bare + v + s + rest), |bare + v|, p)
  {
    StopIn(digit, tagged + v, s, later, p);
    StopIn(digit, bare + v, s, rest, p);
    TermInPlain(digit, tagged, bare, v, s, later, rest, p);
    assert tagged + v + s[..p] == tagged + (v + s[..p]);
    assert bare + v + s[..p] == bare + (v + s[..p]);
  }

  lemma PlainStops(
    digit: char -> bool, tagged: string, bare: string, v: string, s: string, later: string, rest: string)
    requires DigitClass(digit) && Twin(tagged, bare, v, s + rest) && NoBrackets(s) && Alike(later, rest)
    requires |tagged| > 0 ==> |v| > 0
    requires OneLine(bare + v + s + rest) && OneLine(tagged + v + s + later)
    ensures SameStops(
      Stop(digit, bare + v + s + rest), |bare + v|, Stop(digit, tagged + v + s + later), |tagged + v|, |s|)
  {
    forall p: nat | p < |s|
      ensures StopsAt(Stop(digit, tagged + v + s + later), |tagged + v|, p)
         <==> StopsAt(Stop(digit, bare + v + s + rest), |bare + v|, p)
    {
      PlainStop(digit, tagged, bare, v, s, later, rest, p);
    }
  }

  // s, a sentence of bare + v + s + rest, is one of tagged + v + s + later.
  lemma PlainPieceEnds(
    digit: char -> bool, tagged: string, bare: string, v: string, s: string, later: string, rest: string)
    requires DigitClass(digit) && Twin(tagged, bare, v, s + rest) && NoBrackets(s) && Alike(later, rest)
    requires |tagged| > 0 ==> |v| > 0
    requires OneLine(bare + v + s + rest) && OneLine(tagged + v + s + later) && |s| > 0
    requires PieceEnd(Stop(digit, bare + v + s + rest), |bare + v + s + rest|, |bare + v|) == |bare + v| + |s|
    ensures PieceEnd(Stop(digit, tagged + v + s + later), |tagged + v + s + later|, |tagged + v|) == |tagged + v| + |s|
  {
    PlainStops(digit, tagged, bare, v, s, later, rest);
    SameEnd(
      Stop(digit, bare + v + s + rest), |bare + v + s + rest|, |bare + v|,
      Stop(digit, tagged + v + s + later), |tagged + v + s + later|, |tagged + v|, |s|);
  }

  // ----- A piece that gets the tags -----

  ghost predicate NoStops(stop: nat -> bool, start: nat, n: nat) {
    forall q: nat :: q < n ==> !StopsAt(stop, start, q)
  }

  ghost predicate NoMoreStops(stop: nat -> bool, y: nat, stop': nat -> bool, x: nat, n: nat) {
    forall p: nat :: p < n ==> (StopsAt(stop', x, p) ==> StopsAt(stop, y, p))
  }

  lemma NoStopsNext(stop: nat -> bool, x: nat, next: nat, n: nat)
    requires 0 < n && next == x + 1 && NoStops(stop, x, n)
    ensures NoStops(stop, next, n - 1)
  {
    forall q: nat | q < n - 1 ensures !StopsAt(stop, next, q) {
      assert !StopsAt(stop, x, q + 1);
    }
  }

  // A stretch without a stop is passed over.
  lemma {:induction false} PassOver(stop: nat -> bool, size: nat, x: nat, n: nat)
    requires x + n <= size && NoStops(stop, x, n)
    ensures PieceEnd(stop, size, x) == PieceEnd(stop, size, x + n)
    decreases n
  {
    if n > 0 {
      assert !StopsAt(stop, x, 0);
      NoStopsNext(stop, x, x + 1, n);
      PassOver(stop, size, x + 1, n - 1);
    }
  }

  lemma PassHead(stop: nat -> bool, size: nat, y: nat, stop': nat -> bool, size': nat, x: nat, a: nat, b: nat)
    requires y + a + b <= size && x + a <= size' && 0 < a + b && PieceEnd(stop, size, y) == y + a + b
    requires NoMoreStops(stop, y, stop', x, a)
    requires b == 0 ==> !StopsAt(stop, y, a - 1)
    ensures PieceEnd(stop', size', x) == PieceEnd(stop', size', x + a)
  {
    PieceEndFacts(stop, size, y);
    forall q: nat | q < a ensures !StopsAt(stop', x, q) {
      assert StopsAt(stop', x, q) ==> StopsAt(stop, y, q);
    }
    PassOver(stop', size', x, a);
  }

  lemma {:induction false} PieceEndInside(stop: nat -> bool, size: nat, y: nat, a: nat)
    requires y <= size && y + a < PieceEnd(stop, size, y)
    ensures PieceEnd(stop, size, y + a) == PieceEnd(stop, size, y)
    decreases a
  {
    if a > 0 {
      PieceEndInside(stop, size, y + 1, a - 1);
    }
  }

  lemma HeadStop(
    digit: char -> bool, tagged: string, bare: string, v: string, a: string, t: string, other: string, p: nat)
    requires DigitClass(digit) && Twin(tagged, bare, v, a + other) && NoBrackets(a)
    requires |tagged| > 0 ==> |v| > 0
    requires OneLine(bare + v + a + other) && OneLine(tagged + v + a + t)
    requires p < |a| && |t| > 0 && t[0] == '['
    ensures StopsAt(Stop(digit, tagged + v + a + t), |tagged + v|, p)
        ==> StopsAt(Stop(digit, bare + v + a + other), |bare + v|, p)
  {
    StopIn(digit, tagged + v, a, t, p);
    StopIn(digit, bare + v, a, other, p);
    TermInHead(digit, tagged, bare, v, a, t, other, p);
    assert tagged + v + a[..p] == tagged + (v + a[..p]);
    assert bare + v + a[..p] == bare + (v + a[..p]);
  }

  lemma TagNoStop(digit: char -> bool, x: string, t: string, rest: string, q: nat)
    requires TagChars(t) && q < |t| && OneLine(x + t + rest)
    ensures !StopsAt(Stop(digit, x + t + rest), |x|, q)
  {
    StopIn(digit, x, t, rest, q);
    assert TagChar(t[q]);
  }

  lemma TailStop(digit: char -> bool, tagged: string, bare: string, b: string, later: string, rest: string, k: nat)
    requires DigitClass(digit) && Twin(tagged, bare, [], b + rest) && NoBrackets(b) && Alike(later, rest)
    requires OneLine(bare + b + rest) && OneLine(tagged + b + later)
    requires k < |b| && |tagged| > 0 && MayFollow(b[0], b[1..] + rest)
    requires b[0] == '.' && BetweenDigits(digit, bare, b[1..] + rest) ==> TermAt(digit, bare, b[0], b[1..] + rest)
    ensures StopsAt(Stop(digit, tagged + b + later), |tagged|, k) <==> StopsAt(Stop(digit, bare + b + rest), |bare|, k)
  {
    StopIn(digit, tagged, b, later, k);
    StopIn(digit, bare, b, rest, k);
    TermInTail(digit, tagged, bare, b, later, rest, k);
  }

  // What a tail of a sentence is, given how the sentence ends.
  lemma TailFollows(digit: char -> bool, bare: string, b: string, rest: string, closers: nat, term: nat)
    requires DigitClass(digit) && TailShape(b, closers, term) && |b| > 0
    requires |rest| > 0 ==> TermAt(digit, bare + b[..|b| - 1], b[|b| - 1], rest)
    ensures MayFollow(b[0], b[1..] + rest)
    ensures b[0] == '.' && BetweenDigits(digit, bare, b[1..] + rest) ==> TermAt(digit, bare, b[0], b[1..] + rest)
  {
    if b[0] == '.' {
      assert closers == 0 && term == 1;
      if |b| > 1 {
        assert IsSpace(b[1]) && (b[1..] + rest)[0] == b[1];
      } else {
        assert b[1..] + rest == rest && bare + b[..0] == bare;
        if |rest| > 0 {
          EndsHereLooks(rest);
          LookQuiet(rest);
        }
      }
    }
  }

  lemma HeadStops(digit: char -> bool, tagged: string, bare: string, v: string, a: string, t: string, other: string)
    requires DigitClass(digit) && Twin(tagged, bare, v, a + other) && NoBrackets(a)
    requires |tagged| > 0 ==> |v| > 0
    requires OneLine(bare + v + a + other) && OneLine(tagged + v + a + t)
    requires |t| > 0 && t[0] == '['
    ensures NoMoreStops(Stop(digit, bare + v + a + other), |bare + v|, Stop(digit, tagged + v + a + t), |tagged + v|, |a|)
  {
    forall p: nat | p < |a|
      ensures StopsAt(Stop(digit, tagged + v + a + t), |tagged + v|, p)
          ==> StopsAt(Stop(digit, bare + v + a + other), |bare + v|, p)
    {
      HeadStop(digit, tagged, bare, v, a, t, other, p);
    }
  }

  lemma TagNoStops(digit: char -> bool, x: string, t: string, rest: string)
    requires TagChars(t) && OneLine(x + t + rest)
    ensures NoStops(Stop(digit, x + t + rest), |x|, |t|)
  {
    forall q: nat | q < |t| ensures !StopsAt(Stop(digit, x + t + rest), |x|, q) {
      TagNoStop(digit, x, t, rest, q);
    }
  }

  // The tail of a sentence may stand behind tags.
  ghost predicate TailFits(digit: char -> bool, before: string, b: string, rest: string) {
    |b| > 0 ==>
      MayFollow(b[0], b[1..] + rest)
      && (b[0] == '.' && BetweenDigits(digit, before, b[1..] + rest) ==> TermAt(digit, before, b[0], b[1..] + rest))
  }

  lemma TailStops(digit: char -> bool, tagged: string, bare: string, b: string, later: string, rest: string)
    requires DigitClass(digit) && Twin(tagged, bare, [], b + rest) && NoBrackets(b) && Alike(later, rest)
    requires OneLine(bare + b + rest) && OneLine(tagged + b + later) && |tagged| > 0
    requires TailFits(digit, bare, b, rest)
    ensures SameStops(Stop(digit, bare + b + rest), |bare|, Stop(digit, tagged + b + later), |tagged|, |b|)
  {
    forall k: nat | k < |b|
      ensures StopsAt(Stop(digit, tagged + b + later), |tagged|, k) <==> StopsAt(Stop(digit, bare + b + rest), |bare|, k)
    {
      TailStop(digit, tagged, bare, b, later, rest, k);
    }
  }

  lemma TwinTagged(
    tagged: string, bare: string, v: string, a: string, q: string, ids: seq<string>)
    requires ValidIds(ids) && |ids| > 0
    requires Twin(tagged, bare, v, a + q) && NoBrackets(a)
    requires |tagged| > 0 ==> |v| > 0
    ensures Twin(tagged + (v + a) + TagBlock(ids), bare + (v + a), [], q)
  {
    TwinWalk(tagged, bare, v, a, q);
    TwinTag(tagged, bare, v + a, q, ids);
  }

  lemma TwinTail(after: string, before: string, b: string, rest: string)
    requires Twin(after, before, [], b + rest) && NoBrackets(b)
    requires |b| > 0 ==> MayFollow(b[0], b[1..] + rest)
    ensures Twin(after, before, b, rest)
  {
    TwinWalk(after, before, [], b, rest);
    assert [] + b == b;
  }

  ghost predicate HeadCase(
    digit: char -> bool, tagged: string, bare: string, v: string, a: string, t: string, other: string, b: nat)
  {
    && DigitClass(digit) && Twin(tagged, bare, v, a + other) && NoBrackets(a)
    && (|tagged| > 0 ==> |v| > 0)
    && OneLine(bare + v + a + other) && OneLine(tagged + v + a + t)
    && |t| > 0 && t[0] == '[' && b <= |other| && 0 < |a| + b
    && (b == 0 ==> !IsTerminator(Last(a)) && Last(a) != '.')
  }

  ghost predicate TailCase(digit: char -> bool, after: string, before: string, b: string, later: string, rest: string) {
    && DigitClass(digit) && Twin(after, before, [], b + rest) && NoBrackets(b) && Alike(later, rest)
    && OneLine(before + b + rest) && OneLine(after + b + later) && |after| > 0 && |b| > 0
    && TailFits(digit, before, b, rest)
  }

  // Where the sentence of line that runs at from ends.
  function Ends(digit: char -> bool, line: string, from: nat): nat {
    if from <= |line| then PieceEnd(Stop(digit, line), |line|, from) else from
  }

  lemma HeadLast(digit: char -> bool, x: string, a: string, other: string)
    requires OneLine(x + a + other) && |a| > 0 && !IsTerminator(Last(a)) && Last(a) != '.'
    ensures !StopsAt(Stop(digit, x + a + other), |x|, |a| - 1)
  {
    StopIn(digit, x, a, other, |a| - 1);
  }

  lemma HeadFacts(digit: char -> bool, tagged: string, bare: string, v: string, a: string, t: string, other: string, b: nat)
    requires HeadCase(digit, tagged, bare, v, a, t, other, b)
    ensures NoMoreStops(Stop(digit, bare + v + a + other), |bare + v|, Stop(digit, tagged + v + a + t), |tagged + v|, |a|)
    ensures b == 0 ==> !StopsAt(Stop(digit, bare + v + a + other), |bare + v|, |a| - 1)
  {
    HeadStops(digit, tagged, bare, v, a, t, other);
    if b == 0 {
      HeadLast(digit, bare + v, a, other);
    }
  }

  lemma TagEnds(digit: char -> bool, x: string, t: string, rest: string)
    requires TagChars(t) && OneLine(x + t + rest)
    ensures Ends(digit, x + t + rest, |x|) == Ends(digit, x + t + rest, |x| + |t|)
  {
    TagNoStops(digit, x, t, rest);
    PassOver(Stop(digit, x + t + rest), |x + t + rest|, |x|, |t|);
  }

  lemma TailEnds(digit: char -> bool, after: string, before: string, b: string, later: string, rest: string)
    requires TailCase(digit, after, before, b, later, rest)
    requires Ends(digit, before + b + rest, |before|) == |before| + |b|
    ensures Ends(digit, after + b + later, |after|) == |after| + |b|
  {
    TailStops(digit, after, before, b, later, rest);
    SameEnd(
      Stop(digit, before + b + rest), |before + b + rest|, |before|,
      Stop(digit, after + b + later), |after + b + later|, |after|, |b|);
  }

  // ----- Laws of sentence ends -----

  type Ending = (string, nat) -> nat
  type HeadCases = (string, string, string, string, string, nat) -> bool
  type TagCases = (string, string, string) -> bool
  type TailCases = (string, string, string, string, string) -> bool

  ghost predicate BasicLaw(ends: Ending) {
    && (forall line: string, from: nat :: from < |line| ==> from < ends(line, from) <= |line|)
    && (forall line: string :: ends(line, |line|) == |line|)
  }

  ghost predicate InsideLaw(ends: Ending) {
    forall line: string, from: nat, to: nat :: from <= to < ends(line, from) ==> ends(line, to) == ends(line, from)
  }

  ghost predicate HeadLaw(ends: Ending, head: HeadCases) {
    forall x, y, a, t, other, b :: head(x, y, a, t, other, b) ==> HeadPassed(ends, x, y, a, t, other, b)
  }

  predicate HeadPassed(ends: Ending, x: string, y: string, a: string, t: string, other: string, b: nat) {
    ends(y + a + other, |y|) == |y| + |a| + b ==> ends(x + a + t, |x|) == ends(x + a + t, |x| + |a|)
  }

  ghost predicate TagLaw(ends: Ending, tag: TagCases) {
    forall x, t, rest :: tag(x, t, rest) ==> TagPassed(ends, x, t, rest)
  }

  predicate TagPassed(ends: Ending, x: string, t: string, rest: string) {
    ends(x + t + rest, |x|) == ends(x + t + rest, |x| + |t|)
  }

  ghost predicate TailLaw(ends: Ending, tail: TailCases) {
    forall after, before, b, later, rest ::
      tail(after, before, b, later, rest) ==> TailPassed(ends, after, before, b, later, rest)
  }

  predicate TailPassed(ends: Ending, after: string, before: string, b: string, later: string, rest: string) {
    ends(before + b + rest, |before|) == |before| + |b| ==> ends(after + b + later, |after|) == |after| + |b|
  }

  ghost predicate HeadCaseAt(digit: char -> bool, x: string, y: string, a: string, t: string, other: string, b: nat) {
    exists tagged, bare, v :: tagged + v == x && bare + v == y && HeadCase(digit, tagged, bare, v, a, t, other, b)
  }

  ghost function HeadOf(digit: char -> bool): HeadCases {
    (x, y, a, t, other, b: nat) => HeadCaseAt(digit, x, y, a, t, other, b)
  }

  function TagOf(): TagCases {
    (x, t, rest) => TagChars(t) && OneLine(x + t + rest)
  }

  ghost function TailOf(digit: char -> bool): TailCases {
    (after, before, b, later, rest) => TailCase(digit, after, before, b, later, rest)
  }

  function EndsOf(digit: char -> bool): Ending {
    (line: string, from: nat) => Ends(digit, line, from)
  }

  lemma EndsBounds(digit: char -> bool, line: string, from: nat)
    ensures from < |line| ==> from < Ends(digit, line, from) <= |line|
    ensures Ends(digit, line, |line|) == |line|
  {
  }

  lemma EndsInside(digit: char -> bool, line: string, from: nat, to: nat)
    requires from <= to < Ends(digit, line, from)
    ensures Ends(digit, line, to) == Ends(digit, line, from)
  {
    PieceEndInside(Stop(digit, line), |line|, from, to - from);
  }

  lemma BasicLawHolds(digit: char -> bool)
    ensures BasicLaw(EndsOf(digit)) && InsideLaw(EndsOf(digit))
  {
    var ends := EndsOf(digit);
    forall line: string, from: nat | from < |line| ensures from < ends(line, from) <= |line| {
      EndsBounds(digit, line, from);
    }
    forall line: string ensures ends(line, |line|) == |line| {
      EndsBounds(digit, line, |line|);
    }
    forall line: string, from: nat, to: nat | from <= to < ends(line, from) ensures ends(line, to) == ends(line, from) {
      EndsInside(digit, line, from, to);
    }
  }

  // The head a of a sentence a + b is passed over in the bound line too.
  lemma HeadEnds(digit: char -> bool, x: string, y: string, a: string, t: string, other: string, b: nat)
    requires NoMoreStops(Stop(digit, y + a + other), |y|, Stop(digit, x + a + t), |x|, |a|)
    requires b == 0 ==> |a| > 0 && !StopsAt(Stop(digit, y + a + other), |y|, |a| - 1)
    requires b <= |other| && 0 < |a| + b
    ensures HeadPassed(EndsOf(digit), x, y, a, t, other, b)
  {
    if Ends(digit, y + a + other, |y|) == |y| + |a| + b {
      PassHead(Stop(digit, y + a + other), |y + a + other|, |y|, Stop(digit, x + a + t), |x + a + t|, |x|, |a|, b);
    }
  }

  lemma HeadStep(digit: char -> bool, tagged: string, bare: string, v: string, a: string, t: string, other: string, b: nat)
    requires HeadCase(digit, tagged, bare, v, a, t, other, b)
    ensures HeadPassed(EndsOf(digit), tagged + v, bare + v, a, t, other, b)
  {
    HeadFacts(digit, tagged, bare, v, a, t, other, b);
    HeadEnds(digit, tagged + v, bare + v, a, t, other, b);
  }

  lemma HeadLawHolds(digit: char -> bool)
    ensures HeadLaw(EndsOf(digit), HeadOf(digit))
  {
    forall x, y, a, t, other, b | HeadCaseAt(digit, x, y, a, t, other, b)
      ensures HeadPassed(EndsOf(digit), x, y, a, t, other, b)
    {
      var tagged, bare, v :| tagged + v == x && bare + v == y && HeadCase(digit, tagged, bare, v, a, t, other, b);
      HeadStep(digit, tagged, bare, v, a, t, other, b);
    }
  }

  lemma TagLawHolds(digit: char -> bool)
    ensures TagLaw(EndsOf(digit), TagOf())
  {
    forall x, t, rest | TagChars(t) && OneLine(x + t + rest) ensures TagPassed(EndsOf(digit), x, t, rest) {
      TagEnds(digit, x, t, rest);
    }
  }

  lemma TailStep(digit: char -> bool, after: string, before: string, b: string, later: string, rest: string)
    requires TailCase(digit, after, before, b, later, rest)
    ensures TailPassed(EndsOf(digit), after, before, b, later, rest)
  {
    if Ends(digit, before + b + rest, |before|) == |before| + |b| {
      TailEnds(digit, after, before, b, later, rest);
    }
  }

  lemma TailLawHolds(digit: char -> bool)
    ensures TailLaw(EndsOf(digit), TailOf(digit))
  {
    forall after, before, b, later, rest | TailCase(digit, after, before, b, later, rest)
      ensures TailPassed(EndsOf(digit), after, before, b, later, rest)
    {
      TailStep(digit, after, before, b, later, rest);
    }
  }

  // A sentence that does not end its line ends in a terminator.
  lemma LastStop(digit: char -> bool, x: string, s: string, rest: string)
    requires OneLine(x + s + rest) && |s| > 0 && |rest| > 0 && Ends(digit, x + s + rest, |x|) == |x| + |s|
    ensures TermAt(digit, x + s[..|s| - 1], Last(s), rest)
  {
    PieceEndFacts(Stop(digit, x + s + rest), |x + s + rest|, |x|);
    StopIn(digit, x, s, rest, |s| - 1);
    assert s[|s| - 1 + 1..] + rest == rest;
  }

  // ----- A whole line -----

  function Rebound(ends: Ending, bind: string -> string, line: string, start: nat): string
    decreases |line| - start
  {
    if start < |line| && start < ends(line, start) <= |line| then
      bind(line[start..ends(line, start)]) + Rebound(ends, bind, line, ends(line, start))
    else []
  }

  lemma {:induction false} ReboundIs(digit: char -> bool, bind: string -> string, line: string, start: nat)
    requires start <= |line|
    ensures Rebound(EndsOf(digit), bind, line, start) == BindPieces(Stop(digit, line), bind, line, start)
    decreases |line| - start
  {
    if start < |line| {
      ReboundIs(digit, bind, line, Ends(digit, line, start));
    }
  }

  lemma {:induction false} ReboundAlike(ends: Ending, bind: string -> string, line: string, start: nat)
    requires BasicLaw(ends) && BindsAlike(bind) && NoBrackets(line) && start <= |line|
    ensures Alike(Rebound(ends, bind, line, start), line[start..])
    decreases |line| - start
  {
    if start < |line| {
      var end := ends(line, start);
      ReboundAlike(ends, bind, line, end);
      assert line[start..] == line[start..end] + line[end..];
    }
  }

  ghost predicate Settles(bind: string -> string) {
    forall s: string :: NoBrackets(s) ==> bind(bind(s)) == bind(s)
  }

  lemma TagUse(ends: Ending, tag: TagCases, x: string, t: string, rest: string, bound: string)
    requires TagLaw(ends, tag) && tag(x, t, rest) && bound == x + t + rest
    ensures ends(bound, |x|) == ends(bound, |x| + |t|)
  {
    assert TagPassed(ends, x, t, rest);
  }

  lemma TailUse(
    ends: Ending, tail: TailCases, after: string, before: string, b: string, later: string, rest: string,
    line: string, bound: string, from: nat)
    requires InsideLaw(ends) && TailLaw(ends, tail) && tail(after, before, b, later, rest)
    requires line == before + b + rest && bound == after + b + later
    requires |b| > 0 && from <= |before| && ends(line, from) == |before| + |b|
    ensures ends(bound, |after|) == |after| + |b|
  {
    assert ends(line, |before|) == ends(line, from);
    assert TailPassed(ends, after, before, b, later, rest);
  }

  lemma HeadUse(ends: Ending, head: HeadCases, x: string, y: string, a: string, t: string, other: string, b: nat)
    requires HeadLaw(ends, head) && head(x, y, a, t, other, b) && ends(y + a + other, |y|) == |y| + |a| + b
    ensures ends(x + a + t, |x|) == ends(x + a + t, |x| + |a|)
  {
    assert HeadPassed(ends, x, y, a, t, other, b);
  }

  lemma Regroup(x: string, t: string, b: string, later: string)
    ensures x + (t + b + later) == x + t + (b + later) && x + (t + b + later) == x + t + b + later
  {
  }

  // Where the bound sentence a + t + b ends.
  lemma TaggedNext(
    ends: Ending, head: HeadCases, tag: TagCases, tail: TailCases,
    x: string, y: string, a: string, t: string, b: string, later: string, rest: string)
    requires BasicLaw(ends) && InsideLaw(ends) && HeadLaw(ends, head) && TagLaw(ends, tag) && TailLaw(ends, tail)
    requires tag(x + a, t, b + later)
    requires head(x, y, a, t + b + later, b + rest, |b|)
    requires ends(y + a + (b + rest), |y|) == |y| + |a| + |b|
    requires |b| > 0 ==> tail(x + a + t, y + a, b, later, rest)
    requires |b| == 0 ==> |later| == 0
    ensures ends(x + a + (t + b + later), |x|) == |x| + |a| + |t| + |b|
  {
    var bound := x + a + (t + b + later);
    Regroup(x + a, t, b, later);
    HeadUse(ends, head, x, y, a, t + b + later, b + rest, |b|);
    TagUse(ends, tag, x + a, t, b + later, bound);
    if |b| > 0 {
      assert y + a + (b + rest) == y + a + b + rest;
      TailUse(ends, tail, x + a + t, y + a, b, later, rest, y + a + (b + rest), bound, |y|);
    } else {
      assert ends(bound, |bound|) == |bound|;
    }
  }

  lemma CutLast(x: string, a: string, b: string)
    requires |b| > 0
    ensures x + (a + b)[..|a + b| - 1] == x + a + b[..|b| - 1] && Last(a + b) == b[|b| - 1]
  {
    assert (a + b)[..|a + b| - 1] == a + b[..|b| - 1];
  }

  // What the tail b of such a sentence is.
  lemma TailReady(digit: char -> bool, x: string, a: string, b: string, rest: string, closers: nat, term: nat)
    requires DigitClass(digit) && |b| > 0 && TailShape(b, closers, term)
    requires |rest| > 0 ==> TermAt(digit, x + (a + b)[..|a + b| - 1], Last(a + b), rest)
    ensures TailFits(digit, x + a, b, rest)
  {
    CutLast(x, a, b);
    TailFollows(digit, x + a, b, rest, closers, term);
  }

  lemma NoTailEnds(digit: char -> bool, prefix: string, s: string, rest: string)
    requires |s| > 0 && |Tail(s)| == 0 && (|rest| > 0 ==> TermAt(digit, prefix, Last(s), rest))
    ensures |rest| == 0 && !IsTerminator(Last(s)) && Last(s) != '.'
  {
    var closers, term := TailParts(s);
  }

  type Twins = (string, string, string, string) -> bool

  ghost function TwinsOf(): Twins {
    (tagged, bare, v, q) => Twin(tagged, bare, v, q)
  }

  ghost predicate Split(twin: Twins, x: string, y: string, q: string, tagged: string, bare: string, v: string) {
    tagged + v == x && bare + v == y && twin(tagged, bare, v, q) && (|tagged| > 0 ==> |v| > 0)
  }

  // What is bound so far is x, made of y; q is still to come.
  ghost predicate Ready(twin: Twins, x: string, y: string, q: string) {
    exists tagged, bare, v :: Split(twin, x, y, q, tagged, bare, v)
  }

  ghost predicate WalkLaw(twin: Twins) {
    forall tagged, bare, v, s, q ::
      twin(tagged, bare, v, s + q) && NoBrackets(s) && (|tagged| > 0 ==> |v| > 0) ==> twin(tagged, bare, v + s, q)
  }

  lemma WalkLawHolds()
    ensures WalkLaw(TwinsOf())
  {
    forall tagged, bare, v, s, q | Twin(tagged, bare, v, s + q) && NoBrackets(s) && (|tagged| > 0 ==> |v| > 0)
      ensures Twin(tagged, bare, v + s, q)
    {
      TwinWalk(tagged, bare, v, s, q);
    }
  }

  lemma ReadyWalk(twin: Twins, x: string, y: string, s: string, q: string)
    requires WalkLaw(twin) && Ready(twin, x, y, s + q) && NoBrackets(s)
    ensures Ready(twin, x + s, y + s, q)
  {
    var tagged, bare, v :| Split(twin, x, y, s + q, tagged, bare, v);
    assert tagged + (v + s) == x + s && bare + (v + s) == y + s;
    assert Split(twin, x + s, y + s, q, tagged, bare, v + s);
  }

  ghost predicate TagsLaw(twin: Twins, t: string) {
    forall tagged, bare, v, a, q ::
      twin(tagged, bare, v, a + q) && NoBrackets(a) && (|tagged| > 0 ==> |v| > 0) ==>
        twin(tagged + (v + a) + t, bare + (v + a), [], q)
  }

  lemma TagsLawHolds(ids: seq<string>)
    requires ValidIds(ids) && |ids| > 0
    ensures TagsLaw(TwinsOf(), TagBlock(ids))
  {
    forall tagged, bare, v, a, q | Twin(tagged, bare, v, a + q) && NoBrackets(a) && (|tagged| > 0 ==> |v| > 0)
      ensures Twin(tagged + (v + a) + TagBlock(ids), bare + (v + a), [], q)
    {
      TwinTagged(tagged, bare, v, a, q, ids);
    }
  }

  lemma BehindTag(twin: Twins, x: string, y: string, a: string, t: string, q: string)
    requires TagsLaw(twin, t) && Ready(twin, x, y, a + q) && NoBrackets(a)
    ensures twin(x + a + t, y + a, [], q)
  {
    var tagged, bare, v :| Split(twin, x, y, a + q, tagged, bare, v);
    assert tagged + (v + a) == x + a && bare + (v + a) == y + a;
  }

  lemma PlainPieceAt(digit: char -> bool, x: string, y: string, s: string, later: string, rest: string)
    requires DigitClass(digit) && Ready(TwinsOf(), x, y, s + rest) && NoBrackets(s) && |s| > 0 && Alike(later, rest)
    requires OneLine(y + s + rest) && OneLine(x + s + later) && Ends(digit, y + s + rest, |y|) == |y| + |s|
    ensures Ends(digit, x + s + later, |x|) == |x| + |s|
  {
    var tagged, bare, v :| Split(TwinsOf(), x, y, s + rest, tagged, bare, v);
    PlainPieceEnds(digit, tagged, bare, v, s, later, rest);
  }

  lemma HeadCaseFrom(
    digit: char -> bool, x: string, y: string, a: string, t: string, b: string, later: string, rest: string)
    requires DigitClass(digit) && Ready(TwinsOf(), x, y, a + (b + rest)) && NoBrackets(a) && |a| + |b| > 0
    requires OneLine(y + a + (b + rest)) && OneLine(x + a + (t + b + later)) && |t| > 0 && t[0] == '['
    requires |b| == 0 ==> !IsTerminator(Last(a)) && Last(a) != '.'
    ensures HeadCaseAt(digit, x, y, a, t + b + later, b + rest, |b|)
  {
    var tagged, bare, v :| Split(TwinsOf(), x, y, a + (b + rest), tagged, bare, v);
    assert HeadCase(digit, tagged, bare, v, a, t + b + later, b + rest, |b|);
  }

  // A sentence a + b at this place, as it must be to be bound to a + t + b.
  ghost predicate Bindable(digit: char -> bool, x: string, y: string, a: string, t: string, b: string, later: string, rest: string) {
    && DigitClass(digit) && Ready(TwinsOf(), x, y, a + (b + rest)) && NoBrackets(a) && NoBrackets(b)
    && |a| + |b| > 0 && Alike(later, rest) && TagChars(t) && |t| > 0 && t[0] == '['
    && OneLine(y + a + (b + rest)) && OneLine(x + a + (t + b + later))
    && TailFits(digit, y + a, b, rest)
    && (|b| == 0 ==> |rest| == 0 && !IsTerminator(Last(a)) && Last(a) != '.')
  }

  lemma TailCaseFrom(
    digit: char -> bool, x: string, y: string, a: string, t: string, b: string, later: string, rest: string)
    requires Bindable(digit, x, y, a, t, b, later, rest) && |b| > 0
    requires Twin(x + a + t, y + a, [], b + rest)
    ensures TailCase(digit, x + a + t, y + a, b, later, rest)
  {
    Regroup(x + a, t, b, later);
    assert y + a + (b + rest) == y + a + b + rest;
  }

  lemma TaggedPieceAt(
    digit: char -> bool, x: string, y: string, a: string, t: string, b: string, later: string, rest: string)
    requires Bindable(digit, x, y, a, t, b, later, rest) && Twin(x + a + t, y + a, [], b + rest)
    requires Ends(digit, y + a + (b + rest), |y|) == |y| + |a| + |b|
    ensures Ends(digit, x + a + (t + b + later), |x|) == |x| + |a| + |t| + |b|
  {
    HeadCaseFrom(digit, x, y, a, t, b, later, rest);
    if |b| > 0 {
      TailCaseFrom(digit, x, y, a, t, b, later, rest);
    }
    Regroup(x + a, t, b, later);
    BasicLawHolds(digit);
    HeadLawHolds(digit);
    TagLawHolds(digit);
    TailLawHolds(digit);
    TaggedNext(EndsOf(digit), HeadOf(digit), TagOf(), TailOf(digit), x, y, a, t, b, later, rest);
  }

  lemma SentenceTail(digit: char -> bool, y: string, s: string, rest: string)
    requires DigitClass(digit) && |Tail(s)| > 0
    requires |rest| > 0 ==> TermAt(digit, y + s[..|s| - 1], Last(s), rest)
    ensures TailFits(digit, y + Head(s), Tail(s), rest)
  {
    var closers, term := TailParts(s);
    assert s == Head(s) + Tail(s);
    TailReady(digit, y, Head(s), Tail(s), rest, closers, term);
  }

  lemma SentenceStop(digit: char -> bool, y: string, s: string, rest: string)
    requires DigitClass(digit) && |s| > 0 && OneLine(y + s + rest) && Ends(digit, y + s + rest, |y|) == |y| + |s|
    ensures TailFits(digit, y + Head(s), Tail(s), rest)
    ensures |Tail(s)| == 0 ==> |rest| == 0 && !IsTerminator(Last(s)) && Last(s) != '.'
  {
    if |rest| > 0 {
      LastStop(digit, y, s, rest);
    }
    if |Tail(s)| > 0 {
      SentenceTail(digit, y, s, rest);
    } else {
      NoTailEnds(digit, y + s[..|s| - 1], s, rest);
    }
  }

  lemma SentenceFollows(digit: char -> bool, y: string, s: string, rest: string)
    requires DigitClass(digit) && |s| > 0 && OneLine(y + s + rest) && Ends(digit, y + s + rest, |y|) == |y| + |s|
    requires |rest| > 0
    ensures |Tail(s)| > 0 && MayFollow(Tail(s)[0], Tail(s)[1..] + rest)
  {
    SentenceStop(digit, y, s, rest);
  }

  lemma SameText(x: string, y: string, a: string, t: string, b: string, later: string, rest: string)
    ensures a + b + rest == a + (b + rest) && y + (a + b) + rest == y + a + (b + rest)
    ensures x + (a + t + b) + later == x + a + (t + b + later)
    ensures x + a + t + b == x + (a + t + b) && y + a + b == y + (a + b)
  {
  }

  // The sentence s = a + b of the line is a + t + b in the bound line, and what follows is
  // ready to be bound in turn.
  lemma TaggedPiece(
    digit: char -> bool, x: string, y: string, s: string, a: string, b: string, ids: seq<string>, later: string, rest: string)
    requires DigitClass(digit) && ValidIds(ids) && |ids| > 0 && a == Head(s) && b == Tail(s)
    requires Ready(TwinsOf(), x, y, s + rest) && NoBrackets(s) && |s| > 0 && Alike(later, rest)
    requires OneLine(y + s + rest) && OneLine(x + (a + TagBlock(ids) + b) + later)
    requires Ends(digit, y + s + rest, |y|) == |y| + |s|
    ensures Ends(digit, x + (a + TagBlock(ids) + b) + later, |x|) == |x| + |a + TagBlock(ids) + b|
  {
    var t := TagBlock(ids);
    BlockChars(ids);
    SentenceStop(digit, y, s, rest);
    assert s == a + b;
    SameText(x, y, a, t, b, later, rest);
    TagsLawHolds(ids);
    BehindTag(TwinsOf(), x, y, a, t, b + rest);
    TaggedPieceAt(digit, x, y, a, t, b, later, rest);
  }

  ghost predicate TailWalkLaw(twin: Twins) {
    forall after, before, b, q ::
      twin(after, before, [], b + q) && NoBrackets(b) && |b| > 0 && MayFollow(b[0], b[1..] + q) ==>
        twin(after, before, b, q)
  }

  lemma TailWalkLawHolds()
    ensures TailWalkLaw(TwinsOf())
  {
    forall after, before, b, q
      | Twin(after, before, [], b + q) && NoBrackets(b) && |b| > 0 && MayFollow(b[0], b[1..] + q)
      ensures Twin(after, before, b, q)
    {
      TwinTail(after, before, b, q);
    }
  }

  lemma ReadyBehind(twin: Twins, x: string, y: string, a: string, t: string, b: string, rest: string)
    requires TagsLaw(twin, t) && TailWalkLaw(twin) && NoBrackets(a) && NoBrackets(b) && |b| > 0
    requires Ready(twin, x, y, a + b + rest) && MayFollow(b[0], b[1..] + rest)
    ensures Ready(twin, x + (a + t + b), y + (a + b), rest)
  {
    SameText(x, y, a, t, b, [], rest);
    BehindTag(twin, x, y, a, t, b + rest);
    assert Split(twin, x + (a + t + b), y + (a + b), rest, x + a + t, y + a, b);
  }

  // ----- Every piece, bound -----

  type Readiness = (string, string, string) -> bool

  ghost function ReadyOf(): Readiness {
    (x, y, q) => Ready(TwinsOf(), x, y, q)
  }

  // A piece s of a line that is bound in place.
  ghost predicate Piece(
    ends: Ending, ready: Readiness, bind: string -> string, x: string, y: string, s: string, later: string, rest: string)
  {
    && ready(x, y, s + rest) && NoBrackets(s) && |s| > 0 && Alike(later, rest)
    && OneLine(y + s + rest) && OneLine(x + bind(s) + later) && ends(y + s + rest, |y|) == |y| + |s|
  }

  ghost predicate PieceBound(
    ends: Ending, ready: Readiness, bind: string -> string, x: string, y: string, s: string, later: string, rest: string)
  {
    && ends(x + bind(s) + later, |x|) == |x| + |bind(s)|
    && (|rest| > 0 ==> ready(x + bind(s), y + s, rest))
  }

  ghost predicate PieceLaw(ends: Ending, ready: Readiness, bind: string -> string) {
    forall x, y, s, later, rest ::
      Piece(ends, ready, bind, x, y, s, later, rest) ==> PieceBound(ends, ready, bind, x, y, s, later, rest)
  }

  lemma PlainPieceLaw(digit: char -> bool, bind: string -> string, x: string, y: string, s: string, later: string, rest: string)
    requires DigitClass(digit) && bind(s) == s && Piece(EndsOf(digit), ReadyOf(), bind, x, y, s, later, rest)
    ensures PieceBound(EndsOf(digit), ReadyOf(), bind, x, y, s, later, rest)
  {
    PlainPieceAt(digit, x, y, s, later, rest);
    WalkLawHolds();
    ReadyWalk(TwinsOf(), x, y, s, rest);
  }

  lemma TaggedReady(twin: Twins, x: string, y: string, s: string, t: string, rest: string)
    requires TagsLaw(twin, t) && TailWalkLaw(twin) && NoBrackets(s)
    requires Ready(twin, x, y, s + rest) && |Tail(s)| > 0 && MayFollow(Tail(s)[0], Tail(s)[1..] + rest)
    ensures Ready(twin, x + (Head(s) + t + Tail(s)), y + s, rest)
  {
    assert s == Head(s) + Tail(s);
    ReadyBehind(twin, x, y, Head(s), t, Tail(s), rest);
  }

  lemma TaggedPieceLaw(
    digit: char -> bool, bind: string -> string, ids: seq<string>, x: string, y: string, s: string, later: string, rest: string)
    requires DigitClass(digit) && ValidIds(ids) && |ids| > 0 && bind(s) == Head(s) + TagBlock(ids) + Tail(s)
    requires Piece(EndsOf(digit), ReadyOf(), bind, x, y, s, later, rest)
    ensures PieceBound(EndsOf(digit), ReadyOf(), bind, x, y, s, later, rest)
  {
    TaggedPiece(digit, x, y, s, Head(s), Tail(s), ids, later, rest);
    if |rest| > 0 {
      SentenceFollows(digit, y, s, rest);
      TagsLawHolds(ids);
      TailWalkLawHolds();
      TaggedReady(TwinsOf(), x, y, s, TagBlock(ids), rest);
    }
  }

  lemma PieceLawHolds(digit: char -> bool, bind: string -> string, ids: seq<string>)
    requires DigitClass(digit) && ValidIds(ids) && |ids| > 0 && Binds(bind, TagBlock(ids))
    ensures PieceLaw(EndsOf(digit), ReadyOf(), bind)
  {
    forall x, y, s, later, rest | Piece(EndsOf(digit), ReadyOf(), bind, x, y, s, later, rest)
      ensures PieceBound(EndsOf(digit), ReadyOf(), bind, x, y, s, later, rest)
    {
      if Tagged(s) {
        TaggedPieceLaw(digit, bind, ids, x, y, s, later, rest);
      } else {
        PlainPieceLaw(digit, bind, x, y, s, later, rest);
      }
    }
  }

  // ----- Every line, bound -----

  // The first piece of what is left of a line.
  lemma LinePiece(
    ends: Ending, ready: Readiness, bind: string -> string, line: string, start: nat, end: nat, x: string, later: string)
    requires PieceLaw(ends, ready, bind) && NoBrackets(line) && OneLine(line)
    requires start < end <= |line| && end == ends(line, start) && ready(x, line[..start], line[start..])
    requires OneLine(x + bind(line[start..end]) + later) && Alike(later, line[end..])
    ensures ends(x + bind(line[start..end]) + later, |x|) == |x| + |bind(line[start..end])|
    ensures end < |line| ==> ready(x + bind(line[start..end]), line[..end], line[end..])
  {
    var y, s, rest := line[..start], line[start..end], line[end..];
    assert line[start..] == s + rest && y + s + rest == line && line[..end] == y + s;
    assert Piece(ends, ready, bind, x, y, s, later, rest);
    assert PieceBound(ends, ready, bind, x, y, s, later, rest);
  }

  // Binding what is bound, from any piece on, changes nothing.
  lemma {:induction false} LineSettles(
    ends: Ending, ready: Readiness, bind: string -> string, line: string, start: nat, x: string, bound: string)
    requires BasicLaw(ends) && PieceLaw(ends, ready, bind) && BindsAlike(bind) && Settles(bind)
    requires NoBrackets(line) && OneLine(line) && OneLine(bound) && start <= |line|
    requires start < |line| ==> ready(x, line[..start], line[start..])
    requires bound == x + Rebound(ends, bind, line, start)
    ensures Rebound(ends, bind, bound, |x|) == Rebound(ends, bind, line, start)
    decreases |line| - start
  {
    if start < |line| {
      var end := ends(line, start);
      var p, later := bind(line[start..end]), Rebound(ends, bind, line, end);
      ReboundAlike(ends, bind, line, end);
      assert bound == x + p + later;
      LinePiece(ends, ready, bind, line, start, end, x, later);
      LineSettles(ends, ready, bind, line, end, x + p, bound);
      ReboundPiece(ends, bind, x, p, later, bound);
    } else {
      assert bound == x;
    }
  }

  lemma ReboundPiece(ends: Ending, bind: string -> string, x: string, p: string, later: string, bound: string)
    requires bound == x + p + later && ends(bound, |x|) == |x| + |p| && bind(p) == p
    requires Rebound(ends, bind, bound, |x + p|) == later
    ensures Rebound(ends, bind, bound, |x|) == p + later
  {
    if |p| > 0 {
      assert bound[|x|..|x| + |p|] == p;
    }
  }
}
