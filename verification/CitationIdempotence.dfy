// attach_section_citations applied to its own output changes nothing.
module CitationIdempotence {
  import opened CitationText
  import opened CitationBinding
  import opened CitationErasure
  import opened CitationTwins
  import opened CitationStability

  // ----- A bound sentence is bound to itself -----

  lemma {:induction false} TrimLeftParts(s: string)
    ensures |TrimLeft(s)| <= |s| && TrimLeft(s) == s[|s| - |TrimLeft(s)|..]
    ensures forall i :: 0 <= i < |s| - |TrimLeft(s)| ==> IsSpace(s[i])
  {
    if |s| > 0 && IsSpace(s[0]) {
      TrimLeftParts(s[1..]);
    }
  }

  lemma TrimKeeps(s: string, i: nat)
    requires i < |s| && !IsSpace(s[i])
    ensures s[i] in TrimRight(TrimLeft(s))
  {
    TrimLeftParts(s);
    var left := TrimLeft(s);
    var k := i - (|s| - |left|);
    assert left[k] == s[i];
    TrimRightParts(left);
    assert k < |TrimRight(left)| by {
      assert forall j :: |TrimRight(left)| <= j < |left| ==> left[j] == left[|TrimRight(left)|..][j - |TrimRight(left)|];
    }
    assert TrimRight(left)[k] == s[i];
  }

  lemma NoEvidencePlain(s: string)
    requires '[' in s
    ensures !NoEvidence(s)
  {
    var i :| 0 <= i < |s| && s[i] == '[';
    TrimKeeps(s, i);
    var t := TrimRight(TrimLeft(s));
    var k :| 0 <= k < |t| && t[k] == '[';
    assert NO_EVIDENCE[0] != '[' && NO_EVIDENCE[1] != '[' && NO_EVIDENCE[2] != '[' && NO_EVIDENCE[3] != '['
        && NO_EVIDENCE[4] != '[' && NO_EVIDENCE[5] != '[' && NO_EVIDENCE[6] != '[' && NO_EVIDENCE[7] != '[';
    assert k < |t| - 1 ==> t[..|t| - 1][k] == t[k];
  }

  lemma BoundNormal(a: string, b: string, ids: seq<string>)
    requires ValidIds(ids) && NoBrackets(a) && NoBrackets(b)
    ensures Normalized(a + TagBlock(ids) + b) == a + b
  {
    var t := TagBlock(ids);
    StripKeepsPlain();
    StripBlock(ids);
    EraseAround(StripTags, a, t, b);
    TurnsWhole(StripTags, a + t + b, a + b);
    TurnsPlain(StripCitations, a);
    TurnsPlain(StripCitations, b);
    TurnsBoth(StripCitations, a, a, t, t);
    TurnsBoth(StripCitations, a + t, a + t, b, b);
    TurnsWhole(StripCitations, a + t + b, a + t + b);
  }

  // A sentence with the tags in it is bound to itself.
  ghost predicate KeepsTagged(bind: string -> string, tags: string) {
    forall s: string :: NoBrackets(s) && Tagged(s) ==> bind(Head(s) + tags + Tail(s)) == Head(s) + tags + Tail(s)
  }

  lemma SettlesFrom(bind: string -> string, tags: string)
    requires Binds(bind, tags) && KeepsTagged(bind, tags)
    ensures Settles(bind)
  {
  }

  lemma BinderSettles(ids: seq<string>)
    requires ValidIds(ids) && |ids| > 0
    ensures Settles(Binder(TagBlock(ids)))
  {
    var tags := TagBlock(ids);
    forall s: string | NoBrackets(s) && Tagged(s)
      ensures Binder(tags)(Head(s) + tags + Tail(s)) == Head(s) + tags + Tail(s)
    {
      SentenceSettles(s, Head(s), Tail(s), ids);
    }
    BinderBinds(tags);
    SettlesFrom(Binder(tags), tags);
  }

  lemma SentenceSettles(s: string, a: string, b: string, ids: seq<string>)
    requires ValidIds(ids) && |ids| > 0 && NoBrackets(s) && Tagged(s) && a == Head(s) && b == Tail(s)
    ensures BindSentence(a + TagBlock(ids) + b, TagBlock(ids)) == a + TagBlock(ids) + b
  {
    assert s == a + b;
    TaggedText(a, b, ids);
    BoundSettles(a + TagBlock(ids) + b, s, TagBlock(ids));
  }

  lemma TaggedText(a: string, b: string, ids: seq<string>)
    requires ValidIds(ids) && |ids| > 0 && NoBrackets(a) && NoBrackets(b)
    ensures Normalized(a + TagBlock(ids) + b) == a + b && !NoEvidence(a + TagBlock(ids) + b)
  {
    BoundNormal(a, b, ids);
    BlockChars(ids);
    assert (a + TagBlock(ids) + b)[|a|] == '[';
    NoEvidencePlain(a + TagBlock(ids) + b);
  }

  lemma BoundSettles(bound: string, s: string, tags: string)
    requires Normalized(bound) == s && !NoEvidence(bound) && Factual(s) && bound == Head(s) + tags + Tail(s)
    ensures BindSentence(bound, tags) == bound
  {
  }

  // ----- A bound line is bound to itself -----

  lemma {:induction false} BoundOneLine(
    stop: nat -> bool, bind: string -> string, line: string, start: nat, ids: seq<string>)
    requires ValidIds(ids) && Binds(bind, TagBlock(ids)) && NoBrackets(line) && OneLine(line) && start <= |line|
    ensures OneLine(BindPieces(stop, bind, line, start))
    decreases |line| - start
  {
    if start < |line| {
      var end := PieceEnd(stop, |line|, start);
      BoundOneLine(stop, bind, line, end, ids);
      PieceOneLine(bind, line[start..end], ids);
    }
  }

  lemma PieceOneLine(bind: string -> string, s: string, ids: seq<string>)
    requires ValidIds(ids) && Binds(bind, TagBlock(ids)) && NoBrackets(s) && OneLine(s)
    ensures OneLine(bind(s))
  {
    BlockChars(ids);
    forall i | 0 <= i < |TagBlock(ids)| ensures TagBlock(ids)[i] != '\n' {
      assert TagChar(TagBlock(ids)[i]);
    }
  }

  lemma BoundIsRebound(digit: char -> bool, line: string, tags: string)
    ensures BindLine(digit, line, tags) == Rebound(EndsOf(digit), Binder(tags), line, 0)
  {
    ReboundIs(digit, Binder(tags), line, 0);
  }

  lemma WholeLineSettles(ends: Ending, ready: Readiness, bind: string -> string, line: string, bound: string)
    requires BasicLaw(ends) && PieceLaw(ends, ready, bind) && BindsAlike(bind) && Settles(bind)
    requires NoBrackets(line) && OneLine(line) && OneLine(bound) && ready([], [], line)
    requires bound == Rebound(ends, bind, line, 0)
    ensures Rebound(ends, bind, bound, 0) == bound
  {
    assert line[..0] == [] && line[0..] == line && [] + bound == bound;
    LineSettles(ends, ready, bind, line, 0, [], bound);
  }

  lemma StartReady(line: string)
    ensures ReadyOf()([], [], line)
  {
    TwinStart(line);
    assert Split(TwinsOf(), [], [], line, [], [], []);
  }

  ghost predicate LineLaws(digit: char -> bool, tags: string) {
    BasicLaw(EndsOf(digit)) && PieceLaw(EndsOf(digit), ReadyOf(), Binder(tags))
    && BindsAlike(Binder(tags)) && Settles(Binder(tags))
  }

  lemma LineLawsHold(digit: char -> bool, ids: seq<string>)
    requires DigitClass(digit) && ValidIds(ids) && |ids| > 0
    ensures LineLaws(digit, TagBlock(ids))
  {
    BinderBinds(TagBlock(ids));
    BinderSettles(ids);
    PieceAlike(Binder(TagBlock(ids)), TagBlock(ids));
    BasicLawHolds(digit);
    PieceLawHolds(digit, Binder(TagBlock(ids)), ids);
  }

  lemma BoundLineOneLine(digit: char -> bool, line: string, ids: seq<string>)
    requires ValidIds(ids) && NoBrackets(line) && OneLine(line)
    ensures OneLine(BindLine(digit, line, TagBlock(ids)))
  {
    BinderBinds(TagBlock(ids));
    BoundOneLine(Stop(digit, line), Binder(TagBlock(ids)), line, 0, ids);
  }

  lemma LineIsSettled(digit: char -> bool, line: string, ids: seq<string>)
    requires DigitClass(digit) && ValidIds(ids) && |ids| > 0 && NoBrackets(line) && OneLine(line)
    ensures BindLine(digit, BindLine(digit, line, TagBlock(ids)), TagBlock(ids)) == BindLine(digit, line, TagBlock(ids))
  {
    var bound := BindLine(digit, line, TagBlock(ids));
    BoundIsRebound(digit, line, TagBlock(ids));
    BoundIsRebound(digit, bound, TagBlock(ids));
    BoundLineOneLine(digit, line, ids);
    LineLawsHold(digit, ids);
    StartReady(line);
    WholeLineSettles(EndsOf(digit), ReadyOf(), Binder(TagBlock(ids)), line, bound);
  }
}
