// Splitting bound text into lines gives the bound lines, so that binding a section twice binds
// it once.
module CitationLines {
  import opened CitationText
  import opened CitationBinding
  import opened CitationErasure
  import opened CitationTwins
  import opened CitationStability
  import opened CitationIdempotence

  // ----- Lines and their breaks -----

  predicate NoBreaks(s: string) {
    forall i :: 0 <= i < |s| ==> !IsBreak(s[i])
  }

  predicate BreaksLast(s: string) {
    forall i :: 0 <= i < |s| - 1 ==> !IsBreak(s[i])
  }

  // x is a first line in front of next.
  predicate LineOf(x: string, next: string) {
    |x| > 0
    && ((|x| > 1 && x[|x| - 2] == '\r' && Last(x) == '\n' && NoBreaks(x[..|x| - 2]))
        || (BreaksLast(x) && (|next| == 0 || (IsBreak(Last(x)) && !(Last(x) == '\r' && next[0] == '\n')))))
  }

  lemma {:induction false} LineLengthIs(x: string, next: string)
    requires LineOf(x, next)
    ensures LineLength(x + next) == |x|
    decreases |x|
  {
    var s := x + next;
    if |x| > 1 && x[|x| - 2] == '\r' && Last(x) == '\n' && NoBreaks(x[..|x| - 2]) {
      if |x| > 2 {
        assert x[..|x| - 2][0] == x[0];
        assert x[1..][..|x[1..]| - 2] == x[..|x| - 2][1..];
        assert s[1..] == x[1..] + next;
        LineLengthIs(x[1..], next);
      }
    } else if |x| > 1 {
      assert s[1..] == x[1..] + next;
      LineLengthIs(x[1..], next);
    }
  }

  lemma {:induction false} LineLengthOf(s: string)
    requires |s| > 0
    ensures LineOf(s[..LineLength(s)], s[LineLength(s)..])
    decreases |s|
  {
    var n := LineLength(s);
    if !IsBreak(s[0]) && |s| > 1 {
      var m := LineLength(s[1..]);
      LineLengthOf(s[1..]);
      var x, y := s[..n], s[1..][..m];
      assert x == [s[0]] + y && s[n..] == s[1..][m..];
      if |y| > 1 && y[|y| - 2] == '\r' && Last(y) == '\n' && NoBreaks(y[..|y| - 2]) {
        assert x[..|x| - 2] == [s[0]] + y[..|y| - 2];
      }
    }
  }

  // The body of a line has no line feed in it, and a break only where nothing else ends it.
  lemma BodyOf(line: string, next: string)
    requires LineOf(line, next)
    ensures BreaksLast(Body(line)) && OneLine(Body(line))
    ensures |LineEnding(line)| > 0 ==> NoBreaks(Body(line))
    ensures line == Body(line) + LineEnding(line)
  {
    var body := Body(line);
    forall i | 0 <= i < |body| ensures body[i] != '\n' {
      assert body[i] == line[i];
    }
  }

  // ----- What binding does to a body -----

  predicate SameStart(a: string, b: string) {
    (|a| == 0 <==> |b| == 0) && (|a| > 0 && |b| > 0 ==> a[0] == b[0])
  }

  ghost predicate SameBreaks(bound: string, body: string) {
    |body| > 0 ==>
      && |bound| > 0 && (BreaksLast(body) ==> BreaksLast(bound))
      && (Last(bound) == Last(body) || (Last(bound) == ']' && !IsBreak(Last(body))))
  }

  ghost predicate BodyLaw(bind: string -> string, body: string) {
    bind(bind(body)) == bind(body) && Alike(bind(body), body) && SameBreaks(bind(body), body)
  }

  ghost predicate BodyLaws(bind: string -> string) {
    forall body: string :: NoBrackets(body) && OneLine(body) ==> BodyLaw(bind, body)
  }

  lemma NoTailNoSpace(s: string)
    requires |s| > 0 && |Tail(s)| == 0
    ensures !IsSpace(Last(s)) && Last(s) == Last(Head(s))
  {
    assert InsertionIndex(s) == |s|;
    assert Head(s) == s;
  }

  lemma TaggedBreaks(a: string, t: string, b: string)
    requires |a| > 0 && TagChars(t) && |t| > 0 && Last(t) == ']'
    requires |b| == 0 ==> !IsBreak(Last(a))
    ensures SameBreaks(a + t + b, a + b)
  {
    var s, r := a + b, a + t + b;
    if BreaksLast(s) {
      forall i | 0 <= i < |r| - 1 ensures !IsBreak(r[i]) {
        if i < |a| {
          assert r[i] == s[i];
        } else if i < |a| + |t| {
          assert TagChar(t[i - |a|]) && r[i] == t[i - |a|];
        } else {
          assert r[i] == s[i - |t|];
        }
      }
    }
  }

  lemma HeadKeepsOn(s: string)
    requires Factual(s)
    ensures |Head(s)| > 0 && (|Tail(s)| == 0 ==> !IsBreak(Last(Head(s))))
  {
    TailStatesNothing(s);
    if |Tail(s)| == 0 {
      NoTailNoSpace(s);
    }
  }

  lemma PieceBreaks(s: string, ids: seq<string>)
    requires ValidIds(ids) && |ids| > 0 && Factual(s)
    ensures SameBreaks(Head(s) + TagBlock(ids) + Tail(s), s)
  {
    BlockChars(ids);
    HeadKeepsOn(s);
    HeadTail(s);
    TaggedBreaks(Head(s), TagBlock(ids), Tail(s));
  }

  lemma HeadTail(s: string)
    ensures Head(s) + Tail(s) == s
  {
  }

  lemma PiecesBreakHolds(bind: string -> string, ids: seq<string>)
    requires ValidIds(ids) && |ids| > 0 && Binds(bind, TagBlock(ids))
    ensures PiecesBreak(bind)
  {
    forall s: string | NoBrackets(s) ensures SameBreaks(bind(s), s) {
      if Tagged(s) {
        PieceBreaks(s, ids);
      }
    }
  }

  ghost predicate PiecesBreak(bind: string -> string) {
    forall s: string :: NoBrackets(s) ==> SameBreaks(bind(s), s)
  }

  lemma BreaksJoin(p: string, later: string, s: string, rest: string)
    requires SameBreaks(p, s) && SameBreaks(later, rest) && |s| > 0 && |rest| > 0
    ensures SameBreaks(p + later, s + rest)
  {
    assert Last(p + later) == Last(later) && Last(s + rest) == Last(rest);
    if BreaksLast(s + rest) {
      assert forall i :: 0 <= i < |s| ==> s[i] == (s + rest)[i];
      assert forall i :: 0 <= i < |rest| ==> rest[i] == (s + rest)[|s| + i];
    }
  }

  lemma {:induction false} BindBreaks(stop: nat -> bool, bind: string -> string, line: string, start: nat)
    requires PiecesBreak(bind) && NoBrackets(line) && start < |line|
    ensures SameBreaks(BindPieces(stop, bind, line, start), line[start..])
    decreases |line| - start
  {
    var end := PieceEnd(stop, |line|, start);
    var s, rest := line[start..end], line[end..];
    assert line[start..] == s + rest;
    if end < |line| {
      BindBreaks(stop, bind, line, end);
      BreaksJoin(bind(s), BindPieces(stop, bind, line, end), s, rest);
    } else {
      assert s + rest == s && bind(s) + [] == bind(s);
    }
  }

  // ----- Fences -----

  lemma {:induction false} FenceAlike(a: string, b: string)
    requires Alike(a, b)
    ensures IsFence(a) == IsFence(b)
    decreases |a|
  {
    if |a| > 0 && IsSpace(a[0]) {
      FenceAlike(a[1..], b[1..]);
    } else if |a| > 0 && (a[0] == '`' || a[0] == '~') {
      assert Alike(a[1..], b[1..]);
      if |a| > 1 && a[1] == a[0] {
        assert Alike(a[1..][1..], b[1..][1..]);
      }
    }
  }

  // ----- Whole sections -----

  function AttachText(bind: string -> string, s: string, inFence: bool): string {
    AttachLines(bind, SplitLines(s), inFence)
  }

  function Out(bind: string -> string, line: string, inFence: bool): string {
    if inFence || IsFence(Body(line)) then line else bind(Body(line)) + LineEnding(line)
  }

  function Next(line: string, inFence: bool): bool {
    if IsFence(Body(line)) then !inFence else inFence
  }

  lemma AttachFirst(bind: string -> string, s: string, inFence: bool)
    requires |s| > 0
    ensures var n := LineLength(s);
      AttachText(bind, s, inFence) == Out(bind, s[..n], inFence) + AttachText(bind, s[n..], Next(s[..n], inFence))
  {
    var n := LineLength(s);
    assert SplitLines(s)[0] == s[..n] && SplitLines(s)[1..] == SplitLines(s[n..]);
  }

  // A bound line is a line in front of whatever starts as the next line does; its body is the
  // bound body, and it is a fence only if it was one.
  lemma OutLine(bind: string -> string, line: string, rest: string, later: string, inFence: bool)
    requires LineOf(line, rest) && NoBrackets(line) && BodyLaws(bind) && SameStart(later, rest)
    ensures var out := Out(bind, line, inFence);
      LineOf(out, later) && SameStart(out, line) && Out(bind, out, inFence) == out && Next(out, inFence) == Next(line, inFence)
  {
    if !inFence && !IsFence(Body(line)) {
      BodyOf(line, rest);
      assert NoBrackets(Body(line));
      assert BodyLaw(bind, Body(line));
      BoundLine(bind(Body(line)), Body(line), LineEnding(line), rest, later);
      FenceAlike(bind(Body(line)), Body(line));
    }
  }

  lemma BoundLine(bound: string, body: string, ending: string, rest: string, later: string)
    requires LineOf(body + ending, rest) && SameStart(later, rest)
    requires Body(body + ending) == body && LineEnding(body + ending) == ending
    requires Alike(bound, body) && SameBreaks(bound, body)
    requires BreaksLast(body) && (|ending| > 0 ==> NoBreaks(body))
    ensures LineOf(bound + ending, later) && SameStart(bound + ending, body + ending)
    ensures Body(bound + ending) == bound && LineEnding(bound + ending) == ending
  {
    var out := bound + ending;
    assert NoBreaks(body) ==> NoBreaks(bound);
    if |ending| == 2 {
      assert out[..|out| - 2] == bound;
    } else if |ending| == 1 {
      assert out[..|out| - 1] == bound;
    } else {
      assert out == bound && body + ending == body;
    }
  }

  lemma {:induction false} AttachSettles(bind: string -> string, s: string, inFence: bool)
    requires BodyLaws(bind) && NoBrackets(s)
    ensures AttachText(bind, AttachText(bind, s, inFence), inFence) == AttachText(bind, s, inFence)
    ensures SameStart(AttachText(bind, s, inFence), s)
    decreases |s|
  {
    if |s| > 0 {
      var n := LineLength(s);
      var line, rest := s[..n], s[n..];
      var next := Next(line, inFence);
      var later := AttachText(bind, rest, next);
      var out := Out(bind, line, inFence);
      AttachSettles(bind, rest, next);
      LineLengthOf(s);
      AttachFirst(bind, s, inFence);
      OutLine(bind, line, rest, later, inFence);
      LineLengthIs(out, later);
      AttachFirst(bind, out + later, inFence);
      assert (out + later)[..|out|] == out && (out + later)[|out|..] == later;
    }
  }

  lemma BodyLawsHold(digit: char -> bool, ids: seq<string>)
    requires DigitClass(digit) && ValidIds(ids) && |ids| > 0
    ensures BodyLaws(LineBinder(digit, TagBlock(ids)))
  {
    var tags := TagBlock(ids);
    BinderBinds(tags);
    PieceAlike(Binder(tags), tags);
    PiecesBreakHolds(Binder(tags), ids);
    forall body: string | NoBrackets(body) && OneLine(body) ensures BodyLaw(LineBinder(digit, tags), body) {
      LineIsSettled(digit, body, ids);
      BindAlike(Stop(digit, body), Binder(tags), body, 0);
      assert body[0..] == body;
      if |body| > 0 {
        BindBreaks(Stop(digit, body), Binder(tags), body, 0);
      }
    }
  }

  // Binding the citations of a section twice is binding them once.
  lemma AttachTwice(digit: char -> bool, content: string, ids: seq<string>)
    requires DigitClass(digit) && NoBrackets(content) && ValidIds(ids)
    ensures Attach(digit, Attach(digit, content, ids), ids) == Attach(digit, content, ids)
  {
    if |TrimLeft(content)| > 0 && |ids| > 0 {
      var bind := LineBinder(digit, TagBlock(ids));
      BodyLawsHold(digit, ids);
      AttachSettles(bind, content, false);
      assert Attach(digit, content, ids) == AttachText(bind, content, false);
    }
  }
}
