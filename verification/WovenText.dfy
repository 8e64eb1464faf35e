// Text with evidence tags woven into it, what it is without them, and what the reference
// patterns of the claim splitter find in it.
module WovenText {
  import opened CitationText
  import opened CitationBinding
  import opened CitationErasure
  import opened ClaimUnits
  import ClaimBatches

  // Tags, and between them characters that are no brackets.
  predicate Woven(s: string)
    decreases |s|
  {
    |s| == 0
    || (if s[0] == '[' then TagLength(s) > 0 && Woven(s[TagLength(s)..]) else !IsBracket(s[0]) && Woven(s[1..]))
  }

  predicate NoOpen(s: string) {
    forall i :: 0 <= i < |s| ==> s[i] != '['
  }

  predicate Blank(s: string) {
    forall i :: 0 <= i < |s| ==> IsSpace(s[i])
  }

  lemma {:induction false} SkipDigits(s: string)
    ensures s[|s| - |SkipWhile(AsciiDigit, s)|..] == SkipWhile(AsciiDigit, s)
    ensures forall i :: 0 <= i < |s| - |SkipWhile(AsciiDigit, s)| ==> AsciiDigit(s[i])
    ensures |SkipWhile(AsciiDigit, s)| > 0 ==> !AsciiDigit(SkipWhile(AsciiDigit, s)[0])
  {
    if |s| > 0 && AsciiDigit(s[0]) {
      SkipDigits(s[1..]);
    }
  }

  // What is recognised as a tag is the tag of an id.
  lemma TagShape(s: string) returns (id: string, rest: string)
    requires TagLength(s) > 0
    ensures ValidId(id) && s == Tag(id) + rest && TagLength(s) == |id| + 2 && rest == s[TagLength(s)..]
  {
    SkipDigits(s[2..]);
    var after := SkipWhile(AsciiDigit, s[2..]);
    id, rest := s[1..|s| - |after|], s[TagLength(s)..];
    assert s[2..][|s| - 2 - |after|] == after[0] == ']';
    forall i | 1 <= i < |id| ensures AsciiDigit(id[i]) {
      assert id[i] == s[2..][i - 1];
    }
    assert s == s[..1] + id + s[|s| - |after|..|s| - |after| + 1] + rest;
  }

  // One character and one tag.
  lemma WovenChar(c: char, rest: string)
    requires !IsBracket(c)
    ensures Woven([c] + rest) <==> Woven(rest)
    ensures StripTags([c] + rest) == [c] + StripTags(rest)
  {
    assert ([c] + rest)[1..] == rest;
  }

  lemma WovenTag(id: string, rest: string)
    requires ValidId(id)
    ensures Woven(Tag(id) + rest) <==> Woven(rest)
    ensures StripTags(Tag(id) + rest) == StripTags(rest)
  {
    TagRecognized(id, rest);
    assert (Tag(id) + rest)[|id| + 2..] == rest && (Tag(id) + rest)[0] == '[';
  }

  // The first character or tag, and what follows it.
  lemma Unwoven(s: string) returns (tag: bool, first: string, rest: string)
    requires Woven(s) && |s| > 0
    ensures s == first + rest && |first| > 0 && Woven(rest) && (tag <==> s[0] == '[')
    ensures if tag then exists id :: ValidId(id) && first == Tag(id) else first == [s[0]] && !IsBracket(s[0])
    ensures tag ==> Last(first) == ']'
  {
    if s[0] == '[' {
      var id;
      id, rest := TagShape(s);
      tag, first := true, Tag(id);
    } else {
      tag, first, rest := false, [s[0]], s[1..];
    }
  }

  // Either goes before woven text.
  lemma WovenFirst(tag: bool, first: string, rest: string)
    requires if tag then exists id :: ValidId(id) && first == Tag(id) else |first| == 1 && !IsBracket(first[0])
    ensures Woven(first + rest) <==> Woven(rest)
    ensures StripTags(first + rest) == (if tag then [] else first) + StripTags(rest)
  {
    if tag {
      var id :| ValidId(id) && first == Tag(id);
      WovenTag(id, rest);
    } else {
      WovenChar(first[0], rest);
    }
  }

  lemma {:induction false} WovenPlain(s: string)
    requires NoBrackets(s)
    ensures Woven(s) && StripTags(s) == s
  {
    if |s| > 0 {
      WovenPlain(s[1..]);
      WovenChar(s[0], s[1..]);
      assert s == [s[0]] + s[1..];
    }
  }

  ghost predicate Goes(woven: string -> bool, untagged: string -> string, first: string, left: string, rest: string) {
    (woven(first + rest) <==> woven(rest)) && untagged(first + rest) == left + untagged(rest)
  }

  lemma JoinFirst(woven: string -> bool, untagged: string -> string, first: string, left: string, rest: string, b: string)
    requires Goes(woven, untagged, first, left, rest) && Goes(woven, untagged, first, left, rest + b)
    requires woven(rest + b) && untagged(rest + b) == untagged(rest) + untagged(b)
    ensures woven(first + (rest + b)) && untagged(first + (rest + b)) == untagged(first + rest) + untagged(b)
  {
  }

  lemma WovenGoes(tag: bool, first: string, rest: string)
    requires if tag then exists id :: ValidId(id) && first == Tag(id) else |first| == 1 && !IsBracket(first[0])
    ensures Goes((s: string) => Woven(s), (s: string) => StripTags(s), first, if tag then [] else first, rest)
  {
    WovenFirst(tag, first, rest);
  }

  lemma {:induction false} WovenJoin(a: string, b: string)
    requires Woven(a) && Woven(b)
    ensures Woven(a + b) && StripTags(a + b) == StripTags(a) + StripTags(b)
    decreases |a|
  {
    if |a| == 0 {
      assert a + b == b;
    } else {
      var tag, first, rest := Unwoven(a);
      WovenJoin(rest, b);
      JoinBehind(tag, first, rest, b);
      Associates(first, rest, b, a);
    }
  }

  lemma Associates(x: string, y: string, z: string, a: string)
    requires a == x + y
    ensures a + z == x + (y + z)
  {
  }

  lemma JoinBehind(tag: bool, first: string, rest: string, b: string)
    requires if tag then exists id :: ValidId(id) && first == Tag(id) else |first| == 1 && !IsBracket(first[0])
    requires Woven(rest + b) && StripTags(rest + b) == StripTags(rest) + StripTags(b)
    ensures Woven(first + (rest + b)) && StripTags(first + (rest + b)) == StripTags(first + rest) + StripTags(b)
  {
    var woven, untagged := (s: string) => Woven(s), (s: string) => StripTags(s);
    WovenGoes(tag, first, rest);
    WovenGoes(tag, first, rest + b);
    JoinFirst(woven, untagged, first, if tag then [] else first, rest, b);
    assert woven(first + (rest + b));
    assert untagged(first + (rest + b)) == untagged(first + rest) + untagged(b);
  }

  lemma {:induction false} WovenBlock(ids: seq<string>)
    requires ValidIds(ids)
    ensures Woven(TagBlock(ids)) && StripTags(TagBlock(ids)) == []
  {
    if |ids| > 0 {
      WovenBlock(ids[1..]);
      WovenTag(ids[0], TagBlock(ids[1..]));
    }
  }

  // What stands before the first tag can be taken off.
  lemma {:induction false} WovenDrop(s: string, n: nat)
    requires Woven(s) && n <= |s| && NoOpen(s[..n])
    ensures Woven(s[n..]) && StripTags(s) == s[..n] + StripTags(s[n..])
    decreases n
  {
    if n == 0 {
      assert s[0..] == s;
    } else {
      assert s[0] == s[..n][0];
      var tag, first, rest := Unwoven(s);
      assert rest[..n - 1] == s[..n][1..] && rest[n - 1..] == s[n..];
      WovenDrop(rest, n - 1);
      WovenFirst(tag, first, rest);
      assert s[..n] == first + rest[..n - 1];
    }
  }

  // And a space behind the last.
  lemma {:induction false} WovenFront(s: string)
    requires Woven(s) && |s| > 0 && IsSpace(Last(s))
    ensures Woven(Front(s)) && StripTags(s) == StripTags(Front(s)) + [Last(s)]
    decreases |s|
  {
    var tag, first, rest := Unwoven(s);
    WovenFirst(tag, first, rest);
    if |rest| > 0 {
      assert Last(rest) == Last(s);
      WovenFront(rest);
      WovenFirst(tag, first, Front(rest));
      assert Front(s) == first + Front(rest);
    } else {
      assert s == first && Front(s) == [];
    }
  }

  // Blanks around a text are filler, so that trimming does not matter.
  lemma {:induction false} WovenTrimLeft(s: string)
    requires Woven(s)
    ensures Woven(TrimLeft(s)) && (All(IsFiller, StripTags(TrimLeft(s))) <==> All(IsFiller, StripTags(s)))
    decreases |s|
  {
    if |s| > 0 && IsSpace(s[0]) {
      WovenTrimLeft(s[1..]);
      FillerMore([s[0]], StripTags(s[1..]));
    }
  }

  lemma {:induction false} WovenTrimRight(s: string)
    requires Woven(s)
    ensures Woven(TrimRight(s)) && (All(IsFiller, StripTags(TrimRight(s))) <==> All(IsFiller, StripTags(s)))
    decreases |s|
  {
    if |s| > 0 && IsSpace(Last(s)) {
      WovenFront(s);
      WovenTrimRight(Front(s));
      FillerMore(StripTags(Front(s)), [Last(s)]);
    }
  }

  lemma FillerMore(a: string, b: string)
    ensures All(IsFiller, a + b) <==> All(IsFiller, a) && All(IsFiller, b)
  {
    assert forall i :: 0 <= i < |a| ==> (a + b)[i] == a[i];
    assert forall i :: 0 <= i < |b| ==> (a + b)[|a| + i] == b[i];
  }

  lemma WovenTrim(s: string)
    requires Woven(s)
    ensures Woven(Trim(s)) && (All(IsFiller, StripTags(Trim(s))) <==> All(IsFiller, StripTags(s)))
  {
    WovenTrimLeft(s);
    WovenTrimRight(TrimLeft(s));
  }

  lemma PlainTrim(s: string)
    requires NoBrackets(s)
    ensures NoBrackets(Trim(s)) && (All(IsFiller, Trim(s)) <==> All(IsFiller, s))
  {
    WovenPlain(s);
    WovenTrim(s);
    TrimAll((c: char) => !IsBracket(c), s);
    WovenPlain(Trim(s));
  }

  lemma {:induction false} TrimAll(p: char -> bool, s: string)
    requires All(p, s)
    ensures All(p, TrimLeft(s)) && All(p, Trim(s)) && All(p, TrimRight(s))
  {
    TrimLeftAll(p, s);
    TrimRightAll(p, s);
    TrimRightAll(p, TrimLeft(s));
  }

  lemma {:induction false} TrimLeftAll(p: char -> bool, s: string)
    requires All(p, s)
    ensures All(p, TrimLeft(s))
  {
    if |s| > 0 && IsSpace(s[0]) {
      TrimLeftAll(p, s[1..]);
    }
  }

  lemma TrimRightAll(p: char -> bool, s: string)
    requires All(p, s)
    ensures All(p, TrimRight(s))
  {
    TrimRightParts(s);
  }

  // ----- References in it -----

  // A pattern that starts with an opening bracket and matches no tag.
  ghost predicate NoTagPattern(length: string -> nat) {
    forall s: string :: NoMatch(length, s)
  }

  predicate NoMatch(length: string -> nat, s: string) {
    |s| == 0 || TagLength(s) > 0 || (s[0] != '[' && s[0] != '［') ==> length(s) == 0
  }

  lemma StripOne(length: string -> nat, c: char, rest: string)
    requires NoMatch(length, [c] + rest) && (TagLength([c] + rest) > 0 || (c != '[' && c != '［'))
    ensures Strip(length, [c] + rest) == [c] + Strip(length, rest)
  {
    assert ([c] + rest)[1..] == rest;
  }

  lemma {:induction false} StripPasses(length: string -> nat, s: string, rest: string)
    requires NoTagPattern(length) && forall i :: 0 <= i < |s| ==> s[i] != '[' && s[i] != '［'
    ensures Strip(length, s + rest) == s + Strip(length, rest)
  {
    if |s| == 0 {
      assert s + rest == rest;
    } else {
      StripPasses(length, s[1..], rest);
      assert NoMatch(length, [s[0]] + (s[1..] + rest));
      StripOne(length, s[0], s[1..] + rest);
      assert s + rest == [s[0]] + (s[1..] + rest);
    }
  }

  lemma StripTagKept(length: string -> nat, id: string, rest: string)
    requires NoTagPattern(length) && ValidId(id)
    ensures Strip(length, Tag(id) + rest) == Tag(id) + Strip(length, rest)
  {
    var inner := id + [']'];
    TagRecognized(id, rest);
    assert Tag(id) + rest == ['['] + (inner + rest);
    assert NoMatch(length, ['['] + (inner + rest));
    StripOne(length, '[', inner + rest);
    StripPasses(length, inner, rest);
  }

  lemma {:induction false} StripWoven(length: string -> nat, s: string)
    requires NoTagPattern(length) && Woven(s)
    ensures Strip(length, s) == s
    decreases |s|
  {
    if |s| > 0 {
      var tag, first, rest := Unwoven(s);
      StripWoven(length, rest);
      if tag {
        var id :| ValidId(id) && first == Tag(id);
        StripTagKept(length, id, rest);
      } else {
        assert NoMatch(length, [s[0]] + rest);
        StripOne(length, s[0], rest);
      }
    }
  }

  function DocumentPattern(decimal: char -> bool): string -> nat {
    (s: string) => DocumentLength(decimal, s)
  }

  lemma PatternsPassTags(decimal: char -> bool)
    ensures NoTagPattern(KnowledgeLength) && NoTagPattern(DocumentPattern(decimal))
  {
    forall s: string ensures NoMatch(KnowledgeLength, s) && NoMatch(DocumentPattern(decimal), s) {
      if TagLength(s) > 0 {
        NoPatternAtTag(decimal, s);
      }
    }
  }

  lemma NoPatternAtTag(decimal: char -> bool, s: string)
    requires TagLength(s) > 0
    ensures KnowledgeLength(s) == 0 && DocumentLength(decimal, s) == 0
  {
    var id, rest := TagShape(s);
    assert s[1] == 'E' && SkipWhile(IsSpace, s[1..]) == s[1..];
    assert s[1..] == id + ([']'] + rest);
    var p := (c: char) => !Colon(c) && !Close(c);
    SkipAll(p, id, [']'] + rest);
  }

  lemma WovenReferences(decimal: char -> bool, s: string)
    requires Woven(s)
    ensures WithoutReferences(decimal, s) == StripTags(s)
  {
    PatternsPassTags(decimal);
    StripWoven(KnowledgeLength, s);
    StripWoven(DocumentPattern(decimal), s);
    assert WithoutReferences(decimal, s) == StripTags(Strip(DocumentPattern(decimal), Strip(KnowledgeLength, s)));
  }

  // ----- Text that carries a tag -----

  predicate Carries(s: string, a: string, id: string, b: string) {
    s == a + Tag(id) + b && ClaimBatches.IsEvidenceId(id)
  }

  // The tag of some evidence id stands in s.
  ghost predicate Cited(s: string) {
    exists a, id, b :: Carries(s, a, id, b)
  }

  lemma CitedInside(a: string, s: string, b: string)
    requires Cited(s)
    ensures Cited(a + s + b)
  {
    var x, id, y :| Carries(s, x, id, y);
    assert a + s + b == (a + x) + Tag(id) + (y + b);
    assert Carries(a + s + b, a + x, id, y + b);
  }

  lemma CitedBrackets(s: string)
    requires Cited(s)
    ensures !NoBrackets(s)
  {
    var a, id, b :| Carries(s, a, id, b);
    assert s[|a|] == Tag(id)[0] == '[';
  }

  lemma CitedTrim(s: string)
    requires Cited(s)
    ensures Cited(Trim(s)) && |Trim(s)| > 0
  {
    var a, id, b :| Carries(s, a, id, b);
    assert s == a + (Tag(id) + b);
    TrimLeftOf(a, Tag(id) + b);
    var x := TrimLeft(a) + Tag(id);
    assert TrimLeft(s) == x + b && Last(x) == ']';
    TrimRightOf(x, b);
    assert Carries(Trim(s), TrimLeft(a), id, TrimRight(b));
  }

  lemma CitedFound(decimal: char -> bool, s: string)
    requires Cited(s)
    ensures HasReference(decimal, s)
  {
    var a, id, b :| Carries(s, a, id, b);
    assert s[|a|..] == Tag(id) + b;
    TagRecognized(id, b);
    assert (Tag(id) + b)[1..|id| + 1] == id;
    assert EvidenceLength(s[|a|..]) > 0;
  }

  // A woven text that carries a tag is a lone citation exactly if the rest of it is filler.
  lemma WovenCitation(decimal: char -> bool, s: string)
    requires Woven(s) && Cited(s)
    ensures CitationOnly(decimal, s) <==> All(IsFiller, StripTags(s))
  {
    CitedFound(decimal, s);
    WovenReferences(decimal, s);
  }

  lemma NoReference(decimal: char -> bool, s: string)
    requires NoBrackets(s)
    ensures !HasReference(decimal, s)
  {
    forall i | 0 <= i < |s|
      ensures EvidenceLength(s[i..]) == 0 && KnowledgeLength(s[i..]) == 0 && DocumentLength(decimal, s[i..]) == 0
    {
      assert s[i..][0] == s[i];
    }
  }
}
