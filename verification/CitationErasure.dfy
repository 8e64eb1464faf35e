// Erasing the bound tags gives the text back: what attach_section_citations adds to text
// without brackets is exactly the tag blocks, one to each sentence that states something.
module CitationErasure {
  import opened CitationText
  import opened CitationBinding

  predicate NoBrackets(s: string) {
    forall i :: 0 <= i < |s| ==> !IsBracket(s[i])
  }

  // ----- Stripping plain text and tags -----

  // In front of any text, f makes y of x and goes on.
  ghost predicate Turns(f: string -> string, x: string, y: string) {
    forall rest: string :: f(x + rest) == y + f(rest)
  }

  lemma TurnsNothing(f: string -> string)
    ensures Turns(f, [], [])
  {
    forall rest: string ensures f([] + rest) == [] + f(rest) {
      assert [] + rest == rest;
    }
  }

  lemma TurnsBoth(f: string -> string, x1: string, y1: string, x2: string, y2: string)
    requires Turns(f, x1, y1) && Turns(f, x2, y2)
    ensures Turns(f, x1 + x2, y1 + y2)
  {
    forall rest: string ensures f(x1 + x2 + rest) == y1 + y2 + f(rest) {
      assert x1 + x2 + rest == x1 + (x2 + rest);
      assert f(x2 + rest) == y2 + f(rest);
    }
  }

  ghost predicate KeepsPlain(f: string -> string) {
    forall c: char :: !IsBracket(c) ==> Turns(f, [c], [c])
  }

  lemma {:induction false} TurnsPlain(f: string -> string, s: string)
    requires KeepsPlain(f) && NoBrackets(s)
    ensures Turns(f, s, s)
  {
    if |s| == 0 {
      TurnsNothing(f);
    } else {
      TurnsPlain(f, s[1..]);
      TurnsBoth(f, [s[0]], [s[0]], s[1..], s[1..]);
      assert s == [s[0]] + s[1..];
    }
  }

  lemma KeepFirst(c: char, rest: string)
    ensures TagLength([c] + rest) == 0 ==> StripTags([c] + rest) == [c] + StripTags(rest)
    ensures CitationLength([c] + rest) == 0 ==> StripCitations([c] + rest) == [c] + StripCitations(rest)
  {
    assert ([c] + rest)[1..] == rest;
  }

  lemma StripKeeps(c: char)
    requires c != '[' && c != '［'
    ensures Turns(StripTags, [c], [c]) && Turns(StripCitations, [c], [c])
  {
    forall rest: string
      ensures StripTags([c] + rest) == [c] + StripTags(rest)
      ensures StripCitations([c] + rest) == [c] + StripCitations(rest)
    {
      KeepFirst(c, rest);
    }
  }

  lemma StripKeepsPlain()
    ensures KeepsPlain(StripTags) && KeepsPlain(StripCitations)
  {
    forall c: char | !IsBracket(c) ensures Turns(StripTags, [c], [c]) && Turns(StripCitations, [c], [c]) {
      StripKeeps(c);
    }
  }

  lemma {:induction false} SkipAll(p: char -> bool, s: string, rest: string)
    requires forall i :: 0 <= i < |s| ==> p(s[i])
    requires |rest| > 0 && !p(rest[0])
    ensures SkipWhile(p, s + rest) == rest
  {
    if |s| == 0 {
      assert s + rest == rest;
    } else {
      assert (s + rest)[1..] == s[1..] + rest;
      SkipAll(p, s[1..], rest);
    }
  }

  lemma TagRecognized(id: string, rest: string)
    requires ValidId(id)
    ensures TagLength(Tag(id) + rest) == |id| + 2
    ensures CitationLength(Tag(id) + rest) == 0
  {
    var s := Tag(id) + rest;
    assert s[2..] == id[1..] + ([']'] + rest);
    SkipAll(AsciiDigit, id[1..], [']'] + rest);
    assert s[1..] == id + ([']'] + rest);
    var p := (c: char) => !Colon(c) && !Close(c);
    SkipAll(p, id, [']'] + rest);
  }

  lemma StripTag(id: string)
    requires ValidId(id)
    ensures Turns(StripTags, Tag(id), [])
  {
    forall rest: string ensures StripTags(Tag(id) + rest) == [] + StripTags(rest) {
      TagRecognized(id, rest);
      assert (Tag(id) + rest)[|id| + 2..] == rest;
    }
  }

  lemma OpenKept(id: string, rest: string)
    requires ValidId(id)
    ensures StripCitations(['['] + (id + [']'] + rest)) == ['['] + StripCitations(id + [']'] + rest)
  {
    assert ['['] + (id + [']'] + rest) == Tag(id) + rest;
    TagRecognized(id, rest);
    KeepFirst('[', id + [']'] + rest);
  }

  lemma CitationsKeepTag(id: string)
    requires ValidId(id)
    ensures Turns(StripCitations, Tag(id), Tag(id))
  {
    StripKeepsPlain();
    StripKeeps(']');
    forall rest: string
      ensures StripCitations(['['] + (id + [']'] + rest)) == ['['] + StripCitations(id + [']'] + rest)
    {
      OpenKept(id, rest);
    }
    TagTurns(StripCitations, id);
  }

  lemma TagTurns(f: string -> string, id: string)
    requires ValidId(id) && KeepsPlain(f) && Turns(f, [']'], [']'])
    requires forall rest: string :: f(['['] + (id + [']'] + rest)) == ['['] + f(id + [']'] + rest)
    ensures Turns(f, Tag(id), Tag(id))
  {
    TurnsPlain(f, id);
    TurnsBoth(f, id, id, [']'], [']']);
    TurnsCons(f, '[', id + [']']);
    assert ['['] + (id + [']']) == Tag(id);
  }

  lemma TurnsCons(f: string -> string, c: char, body: string)
    requires Turns(f, body, body)
    requires forall rest: string :: f([c] + (body + rest)) == [c] + f(body + rest)
    ensures Turns(f, [c] + body, [c] + body)
  {
    forall rest: string ensures f([c] + body + rest) == [c] + body + f(rest) {
      assert [c] + body + rest == [c] + (body + rest);
      assert f(body + rest) == body + f(rest);
    }
  }

  lemma {:induction false} StripBlock(ids: seq<string>)
    requires ValidIds(ids)
    ensures Turns(StripTags, TagBlock(ids), [])
    ensures Turns(StripCitations, TagBlock(ids), TagBlock(ids))
  {
    if |ids| == 0 {
      TurnsNothing(StripTags);
      TurnsNothing(StripCitations);
    } else {
      StripBlock(ids[1..]);
      StripTag(ids[0]);
      CitationsKeepTag(ids[0]);
      TurnsBoth(StripTags, Tag(ids[0]), [], TagBlock(ids[1..]), []);
      TurnsBoth(StripCitations, Tag(ids[0]), Tag(ids[0]), TagBlock(ids[1..]), TagBlock(ids[1..]));
    }
  }

  lemma TurnsWhole(f: string -> string, x: string, y: string)
    requires Turns(f, x, y) && f([]) == []
    ensures f(x) == y
  {
    assert x + [] == x;
    assert f(x + []) == y + f([]);
  }

  lemma PlainStays(s: string)
    requires NoBrackets(s)
    ensures StripTags(s) == s && StripCitations(s) == s && Normalized(s) == s
  {
    StripKeepsPlain();
    TurnsPlain(StripTags, s);
    TurnsPlain(StripCitations, s);
    TurnsWhole(StripTags, s, s);
    TurnsWhole(StripCitations, s, s);
  }

  // ----- One sentence -----

  function Head(s: string): string {
    s[..InsertionIndex(s)]
  }

  function Tail(s: string): string {
    s[InsertionIndex(s)..]
  }

  predicate Tagged(s: string) {
    !NoEvidence(s) && Factual(s)
  }

  // A sentence without brackets gets the block once, or stays as it is.
  lemma BindPlain(s: string, tags: string)
    requires NoBrackets(s)
    ensures BindSentence(s, tags) == if Tagged(s) then Head(s) + tags + Tail(s) else s
  {
    PlainStays(s);
  }

  // What stands behind a citation: closers, one terminator, spaces.
  ghost predicate TailShape(b: string, closers: nat, term: nat) {
    && closers + term <= |b| && term <= 1
    && (forall i :: 0 <= i < closers ==> IsCloser(b[i]))
    && (term == 1 ==> IsTerminator(b[closers]) || b[closers] == '.')
    && (forall i :: closers + term <= i < |b| ==> IsSpace(b[i]))
  }

  lemma TailParts(s: string) returns (closers: nat, term: nat)
    ensures TailShape(Tail(s), closers, term)
    ensures term == 0 && closers == |Tail(s)| > 0 ==> |s| > 0 && IsCloser(Last(s))
    ensures |Tail(s)| == 0 ==> |s| == 0 || (!IsTerminator(Last(s)) && Last(s) != '.')
  {
    var trimmed := TrimRight(s);
    TrimRightParts(s);
    var bare := DropTerminator(trimmed);
    DropClosersParts(bare);
    closers := |bare| - |DropClosers(bare)|;
    term := |trimmed| - |bare|;
    var n := InsertionIndex(s);
    forall i | 0 <= i < closers ensures IsCloser(Tail(s)[i]) {
      assert Tail(s)[i] == bare[n + i];
    }
    forall i | closers + term <= i < |Tail(s)| ensures IsSpace(Tail(s)[i]) {
      assert Tail(s)[i] == s[|trimmed|..][n + i - |trimmed|];
    }
  }

  // ----- Erasure -----

  // f erases the block and keeps plain text.
  ghost predicate Erases(f: string -> string, tags: string) {
    KeepsPlain(f) && Turns(f, tags, [])
  }

  ghost predicate Binds(bind: string -> string, tags: string) {
    forall s: string :: NoBrackets(s) ==> bind(s) == if Tagged(s) then Head(s) + tags + Tail(s) else s
  }

  lemma EraseAround(f: string -> string, a: string, tags: string, b: string)
    requires Erases(f, tags) && NoBrackets(a) && NoBrackets(b)
    ensures Turns(f, a + tags + b, a + b)
  {
    TurnsPlain(f, a);
    TurnsPlain(f, b);
    TurnsBoth(f, a, a, tags, []);
    TurnsBoth(f, a + tags, a + [], b, b);
    assert a + [] == a;
  }

  lemma EraseBound(f: string -> string, bind: string -> string, s: string, tags: string)
    requires Erases(f, tags) && Binds(bind, tags) && NoBrackets(s)
    ensures Turns(f, bind(s), s)
  {
    if Tagged(s) {
      assert Head(s) + Tail(s) == s;
      EraseAround(f, Head(s), tags, Tail(s));
    } else {
      TurnsPlain(f, s);
    }
  }

  // Text without brackets is bound to something f erases.
  ghost predicate ErasesBound(f: string -> string, bind: string -> string) {
    KeepsPlain(f) && forall s: string :: NoBrackets(s) ==> Turns(f, bind(s), s)
  }

  lemma {:induction false} ErasePieces(f: string -> string, bind: string -> string, stop: nat -> bool, line: string, start: nat)
    requires ErasesBound(f, bind) && NoBrackets(line) && start <= |line|
    ensures Turns(f, BindPieces(stop, bind, line, start), line[start..])
    decreases |line| - start
  {
    if start == |line| {
      TurnsNothing(f);
    } else {
      var end := PieceEnd(stop, |line|, start);
      ErasePieces(f, bind, stop, line, end);
      TurnsBoth(f, bind(line[start..end]), line[start..end], BindPieces(stop, bind, line, end), line[end..]);
      assert line[start..end] + line[end..] == line[start..];
    }
  }

  ghost predicate AllNoBrackets(lines: seq<string>) {
    forall i :: 0 <= i < |lines| ==> NoBrackets(lines[i])
  }

  function Joined(lines: seq<string>): string {
    if |lines| == 0 then [] else lines[0] + Joined(lines[1..])
  }

  lemma {:induction false} SplitJoined(s: string)
    ensures Joined(SplitLines(s)) == s
    ensures NoBrackets(s) ==> AllNoBrackets(SplitLines(s))
    decreases |s|
  {
    if |s| > 0 {
      SplitJoined(s[LineLength(s)..]);
    }
  }

  lemma {:induction false} EraseLines(f: string -> string, bindLine: string -> string, lines: seq<string>, inFence: bool)
    requires AllNoBrackets(lines) && ErasesBound(f, bindLine)
    ensures Turns(f, AttachLines(bindLine, lines, inFence), Joined(lines))
    decreases |lines|
  {
    if |lines| == 0 {
      TurnsNothing(f);
    } else {
      var line := lines[0];
      var fence := IsFence(Body(line));
      if inFence || fence {
        var next := if fence then !inFence else inFence;
        EraseLines(f, bindLine, lines[1..], next);
        TurnsPlain(f, line);
        TurnsBoth(f, line, line, AttachLines(bindLine, lines[1..], next), Joined(lines[1..]));
      } else {
        EraseLines(f, bindLine, lines[1..], inFence);
        TurnsPlain(f, LineEnding(line));
        TurnsBoth(f, bindLine(Body(line)), Body(line), LineEnding(line), LineEnding(line));
        assert Body(line) + LineEnding(line) == line;
        TurnsBoth(f, bindLine(Body(line)) + LineEnding(line), line, AttachLines(bindLine, lines[1..], inFence), Joined(lines[1..]));
      }
    }
  }

  lemma BinderBinds(tags: string)
    ensures Binds(Binder(tags), tags)
  {
    forall s: string | NoBrackets(s) ensures Binder(tags)(s) == if Tagged(s) then Head(s) + tags + Tail(s) else s {
      BindPlain(s, tags);
    }
  }

  lemma StripErasesLine(digit: char -> bool, ids: seq<string>)
    requires ValidIds(ids)
    ensures ErasesBound(StripTags, LineBinder(digit, TagBlock(ids)))
  {
    var tags := TagBlock(ids);
    StripKeepsPlain();
    StripBlock(ids);
    BinderBinds(tags);
    forall s: string | NoBrackets(s) ensures Turns(StripTags, Binder(tags)(s), s) {
      EraseBound(StripTags, Binder(tags), s, tags);
    }
    forall body: string | NoBrackets(body) ensures Turns(StripTags, LineBinder(digit, tags)(body), body) {
      ErasePieces(StripTags, Binder(tags), Stop(digit, body), body, 0);
      assert LineBinder(digit, tags)(body) == BindPieces(Stop(digit, body), Binder(tags), body, 0);
      assert body[0..] == body;
    }
  }

  // Erasing the tags from the bound text gives back exactly the text.
  lemma EraseGivesBack(digit: char -> bool, content: string, ids: seq<string>)
    requires NoBrackets(content) && ValidIds(ids)
    ensures StripTags(Attach(digit, content, ids)) == content
  {
    if |TrimLeft(content)| == 0 || |ids| == 0 {
      PlainStays(content);
    } else {
      SplitJoined(content);
      StripErasesLine(digit, ids);
      EraseLines(StripTags, LineBinder(digit, TagBlock(ids)), SplitLines(content), false);
      TurnsWhole(StripTags, Attach(digit, content, ids), content);
    }
  }

  // ----- How many tags -----

  lemma {:induction false} CountJoin(a: string, b: string, c: char)
    ensures CountChar(a + b, c) == CountChar(a, c) + CountChar(b, c)
  {
    if |b| == 0 {
      assert a + b == a;
    } else {
      assert Front(a + b) == a + Front(b);
      CountJoin(a, Front(b), c);
    }
  }

  lemma {:induction false} CountPlain(s: string)
    requires NoBrackets(s)
    ensures CountChar(s, '[') == 0
  {
    if |s| > 0 {
      CountPlain(Front(s));
    }
  }

  // n for every sentence of the line from start on that states something.
  function DueInLine(stop: nat -> bool, states: string -> bool, line: string, start: nat, n: nat): nat
    requires start <= |line|
    decreases |line| - start
  {
    if start == |line| then 0
    else
      var end := PieceEnd(stop, |line|, start);
      (if states(line[start..end]) then n else 0) + DueInLine(stop, states, line, end, n)
  }

  // due of the body of every line outside fences.
  function DueInLines(due: string -> nat, lines: seq<string>, inFence: bool): nat {
    if |lines| == 0 then 0
    else if inFence || IsFence(Body(lines[0])) then
      DueInLines(due, lines[1..], if IsFence(Body(lines[0])) then !inFence else inFence)
    else due(Body(lines[0])) + DueInLines(due, lines[1..], inFence)
  }

  function LineDue(digit: char -> bool, n: nat): string -> nat {
    (body: string) => DueInLine(Stop(digit, body), (s: string) => Tagged(s), body, 0, n)
  }

  ghost predicate Counts(count: string -> nat) {
    && (forall a: string, b: string :: count(a + b) == count(a) + count(b))
    && (forall s: string :: NoBrackets(s) ==> count(s) == 0)
  }

  ghost predicate CountsDue(count: string -> nat, bind: string -> string, due: string -> nat) {
    forall s: string :: NoBrackets(s) ==> count(bind(s)) == due(s)
  }

  lemma {:induction false} CountPieces(
    count: string -> nat, stop: nat -> bool, bind: string -> string, states: string -> bool, line: string, start: nat, n: nat)
    requires Counts(count) && CountsDue(count, bind, s => if states(s) then n else 0)
    requires NoBrackets(line) && start <= |line|
    ensures count(BindPieces(stop, bind, line, start)) == DueInLine(stop, states, line, start, n)
    decreases |line| - start
  {
    if start < |line| {
      CountPieces(count, stop, bind, states, line, PieceEnd(stop, |line|, start), n);
    } else {
      assert NoBrackets([]);
    }
  }

  lemma {:induction false} CountLines(
    count: string -> nat, bind: string -> string, due: string -> nat, lines: seq<string>, inFence: bool)
    requires Counts(count) && CountsDue(count, bind, due) && AllNoBrackets(lines)
    ensures count(AttachLines(bind, lines, inFence)) == DueInLines(due, lines, inFence)
    decreases |lines|
  {
    if |lines| == 0 {
      assert NoBrackets([]);
    } else {
      assert NoBrackets(Body(lines[0])) && NoBrackets(LineEnding(lines[0])) && NoBrackets(lines[0]);
      CountLines(count, bind, due, lines[1..], if IsFence(Body(lines[0])) then !inFence else inFence);
    }
  }

  lemma CountBound(s: string, tags: string)
    requires NoBrackets(s)
    ensures CountChar(BindSentence(s, tags), '[') == if Tagged(s) then CountChar(tags, '[') else 0
  {
    BindPlain(s, tags);
    if Tagged(s) {
      CountJoin(Head(s) + tags, Tail(s), '[');
      CountJoin(Head(s), tags, '[');
      CountPlain(Head(s));
      CountPlain(Tail(s));
    } else {
      CountPlain(s);
    }
  }

  lemma CharCounts()
    ensures Counts((s: string) => CountChar(s, '['))
  {
    forall a: string, b: string ensures CountChar(a + b, '[') == CountChar(a, '[') + CountChar(b, '[') {
      CountJoin(a, b, '[');
    }
    forall s: string | NoBrackets(s) ensures CountChar(s, '[') == 0 {
      CountPlain(s);
    }
  }

  lemma LineCounts(digit: char -> bool, tags: string)
    ensures CountsDue((s: string) => CountChar(s, '['), LineBinder(digit, tags), LineDue(digit, CountChar(tags, '[')))
  {
    var n := CountChar(tags, '[');
    var count, states := (s: string) => CountChar(s, '['), (s: string) => Tagged(s);
    CharCounts();
    forall s: string | NoBrackets(s) ensures count(Binder(tags)(s)) == if states(s) then n else 0 {
      CountBound(s, tags);
    }
    forall body: string | NoBrackets(body) ensures count(LineBinder(digit, tags)(body)) == LineDue(digit, n)(body) {
      CountPieces(count, Stop(digit, body), Binder(tags), states, body, 0, n);
    }
  }

  lemma {:induction false} BlockCount(ids: seq<string>)
    requires ValidIds(ids)
    ensures CountChar(TagBlock(ids), '[') == |ids|
  {
    if |ids| > 0 {
      BlockCount(ids[1..]);
      CountJoin(Tag(ids[0]), TagBlock(ids[1..]), '[');
      CountJoin(['['] + ids[0], [']'], '[');
      CountJoin(['['], ids[0], '[');
      CountPlain(ids[0]);
      assert Front(['[']) == [] && Front([']']) == [];
    }
  }

  // One block for every sentence outside fences that states something, and no other tag.
  lemma OneBlockEach(digit: char -> bool, content: string, ids: seq<string>)
    requires NoBrackets(content) && |TrimLeft(content)| > 0 && |ids| > 0 && ValidIds(ids)
    ensures CountChar(Attach(digit, content, ids), '[') == DueInLines(LineDue(digit, |ids|), SplitLines(content), false)
  {
    var tags := TagBlock(ids);
    var count := (s: string) => CountChar(s, '[');
    SplitJoined(content);
    CharCounts();
    LineCounts(digit, tags);
    BlockCount(ids);
    CountLines(count, LineBinder(digit, tags), LineDue(digit, CountChar(tags, '[')), SplitLines(content), false);
    assert count(Attach(digit, content, ids)) == CountChar(Attach(digit, content, ids), '[');
  }
}
