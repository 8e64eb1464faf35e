// A prefix of a line with tags and the same prefix without them look alike to the scanner: no
// tag opens or closes a protected span. A tag may break up one thing, the www. of an address
// whose dot ends the sentence, and then only closers stand before the next space.
module CitationTwins {
  import opened CitationText
  import opened CitationBinding
  import opened CitationErasure

  // ----- The parts of a protected span, one character at a time -----

  predicate TicksOdd(s: string) {
    CountChar(s, '`') % 2 == 1
  }

  predicate InLink(s: string) {
    RFindPair(s, ']', '(') > RFind(s, ')')
  }

  predicate InLinkText(s: string) {
    RFind(s, '[') > RFind(s, ']')
  }

  predicate InAngle(s: string) {
    RFind(s, '<') > RFind(s, '>')
  }

  predicate InUrl(s: string) {
    HasUrl(LastToken(s))
  }

  lemma SpanParts(prefix: string, suffix: string)
    ensures ProtectedSpan(prefix, suffix)
       <==> TicksOdd(prefix) || InLink(prefix) || (InLinkText(prefix) && HasLink(suffix)) || InUrl(prefix) || InAngle(prefix)
  {
  }

  lemma PartsNext(s: string, c: char)
    ensures TicksOdd(s + [c]) <==> (TicksOdd(s) != (c == '`'))
    ensures InLink(s + [c]) <==> (|s| > 0 && Last(s) == ']' && c == '(') || (c != ')' && InLink(s))
    ensures InLinkText(s + [c]) <==> c == '[' || (c != ']' && InLinkText(s))
    ensures InAngle(s + [c]) <==> c == '<' || (c != '>' && InAngle(s))
  {
    assert Front(s + [c]) == s;
    assert |s| > 0 ==> (s + [c])[|s + [c]| - 2] == Last(s);
    assert |s| > 0 && Last(s) == ']' ==> RFind(s, ')') < |s| - 1;
  }

  // The k-th character from the end.
  function Back(s: string, k: nat): char
    requires 1 <= k <= |s|
  {
    s[|s| - k]
  }

  // s ends with http://, https:// or www.
  predicate UrlStop(s: string) {
    WwwStop(s) || (HttpStop(s, 7)) || (HttpStop(s, 8) && (Letter(Back(s, 4), 's', 'S') || Back(s, 4) == 'ſ'))
  }

  predicate WwwStop(s: string) {
    |s| >= 4 && Back(s, 1) == '.'
    && Letter(Back(s, 2), 'w', 'W') && Letter(Back(s, 3), 'w', 'W') && Letter(Back(s, 4), 'w', 'W')
  }

  predicate HttpStop(s: string, n: nat)
    requires n >= 4
  {
    |s| >= n && Back(s, 1) == '/' && Back(s, 2) == '/' && Back(s, 3) == ':'
    && Letter(Back(s, n), 'h', 'H') && Letter(Back(s, n - 1), 't', 'T')
    && Letter(Back(s, n - 2), 't', 'T') && Letter(Back(s, n - 3), 'p', 'P')
  }

  // The last n characters are the same.
  ghost predicate SameBack(a: string, b: string, n: nat) {
    n <= |a| && n <= |b| && forall k :: 1 <= k <= n ==> Back(a, k) == Back(b, k)
  }

  lemma {:induction false} TokenParts(s: string)
    ensures SameBack(LastToken(s), s, |LastToken(s)|)
    ensures |LastToken(s)| < |s| ==> IsSpace(Back(s, |LastToken(s)| + 1))
  {
    if |s| > 0 && !IsSpace(Last(s)) {
      var f := Front(s);
      TokenParts(f);
      var t := LastToken(s);
      assert t == LastToken(f) + [Last(s)];
      forall k | 1 <= k <= |t| ensures Back(t, k) == Back(s, k) {
        if k > 1 {
          assert Back(t, k) == Back(LastToken(f), k - 1) && Back(s, k) == Back(f, k - 1);
        }
      }
      assert |t| < |s| ==> Back(s, |t| + 1) == Back(f, |t|);
    }
  }

  // A url start that ends s lies in its last token.
  lemma UrlStopToken(s: string)
    ensures UrlStop(s) <==> UrlStop(LastToken(s))
  {
    TokenParts(s);
  }

  lemma UrlStartNext(t: string, c: char, i: nat)
    requires i <= |t|
    ensures UrlStart((t + [c])[i..]) ==> (i < |t| && UrlStart(t[i..])) || UrlStop(t + [c])
    ensures i < |t| && UrlStart(t[i..]) ==> UrlStart((t + [c])[i..])
  {
    var a, b, whole := t[i..], (t + [c])[i..], t + [c];
    assert b == a + [c];
    assert SameBack(b, whole, |b|);
    assert |b| >= 7 ==> b[4..7] == [b[4], b[5], b[6]];
    assert |a| >= 7 ==> a[4..7] == [a[4], a[5], a[6]];
    assert |b| >= 8 ==> b[5..8] == [b[5], b[6], b[7]];
    assert |a| >= 8 ==> a[5..8] == [a[5], a[6], a[7]];
  }

  lemma UrlStopStarts(t: string)
    requires UrlStop(t)
    ensures HasUrl(t)
  {
    var n := |t|;
    if WwwStop(t) {
      assert UrlStart(t[n - 4..]);
    } else if HttpStop(t, 7) {
      var s := t[n - 7..];
      assert s[4..7] == "://";
      assert UrlStart(s);
    } else {
      var s := t[n - 8..];
      assert s[5..8] == "://";
      assert UrlStart(s);
    }
  }

  lemma UrlNext(s: string, c: char)
    ensures InUrl(s + [c]) <==> !IsSpace(c) && (InUrl(s) || UrlStop(s + [c]))
  {
    assert Front(s + [c]) == s;
    if !IsSpace(c) {
      var t := LastToken(s);
      assert LastToken(s + [c]) == t + [c];
      UrlStopToken(s + [c]);
      if HasUrl(t + [c]) {
        var i :| 0 <= i < |t + [c]| && UrlStart((t + [c])[i..]);
        UrlStartNext(t, c, i);
      }
      if HasUrl(t) {
        var i :| 0 <= i < |t| && UrlStart(t[i..]);
        UrlStartNext(t, c, i);
      }
      if UrlStop(t + [c]) {
        UrlStopStarts(t + [c]);
      }
    }
  }

  // ----- Tags change no part -----

  predicate TagChar(c: char) {
    c == '[' || c == ']' || c == 'E' || AsciiDigit(c)
  }

  predicate TagChars(s: string) {
    forall i :: 0 <= i < |s| ==> TagChar(s[i])
  }

  lemma {:induction false} BlockChars(ids: seq<string>)
    requires ValidIds(ids)
    ensures TagChars(TagBlock(ids))
    ensures |ids| > 0 ==> |TagBlock(ids)| > 0 && Last(TagBlock(ids)) == ']' && TagBlock(ids)[0] == '['
  {
    if |ids| > 0 {
      BlockChars(ids[1..]);
      assert forall i :: 0 <= i < |ids[0]| ==> TagChar(ids[0][i]);
    }
  }

  lemma UrlPasses(s: string, c: char)
    requires TagChar(c)
    ensures InUrl(s + [c]) == InUrl(s)
  {
    UrlNext(s, c);
    assert Back(s + [c], 1) == c;
  }

  lemma {:induction false} UrlRun(s: string, tags: string)
    requires TagChars(tags)
    ensures InUrl(s + tags) == InUrl(s)
  {
    if |tags| == 0 {
      assert s + tags == s;
    } else {
      UrlRun(s, Front(tags));
      UrlPasses(s + Front(tags), Last(tags));
      assert s + tags == s + Front(tags) + [Last(tags)];
    }
  }

  lemma {:induction false} PartsRun(s: string, tags: string)
    requires TagChars(tags)
    ensures TicksOdd(s + tags) == TicksOdd(s) && InAngle(s + tags) == InAngle(s)
    ensures InLink(s + tags) == InLink(s)
    ensures |tags| > 0 && Last(tags) == ']' ==> !InLinkText(s + tags)
  {
    if |tags| == 0 {
      assert s + tags == s;
    } else {
      PartsRun(s, Front(tags));
      PartsNext(s + Front(tags), Last(tags));
      assert s + tags == s + Front(tags) + [Last(tags)];
    }
  }

  // ----- Twins -----

  predicate AfterTag(c: char) {
    IsCloser(c) || IsTerminator(c) || c == '.' || IsSpace(c)
  }

  predicate Quiet(q: string) {
    |q| == 0 || IsSpace(q[0]) || (IsCloser(q[0]) && Quiet(q[1..]))
  }

  ghost predicate SameParts(a: string, b: string) {
    && TicksOdd(a) == TicksOdd(b) && InAngle(a) == InAngle(b)
    && !InLink(a) && !InLinkText(a) && !InLink(b) && !InLinkText(b)
  }

  ghost predicate SameUrl(a: string, b: string, q: string) {
    InUrl(a) == InUrl(b) || (InUrl(b) && Quiet(q))
  }

  // tagged ends with a tag, or both are empty; v follows both, and q is still to come.
  ghost predicate Twin(tagged: string, bare: string, v: string, q: string) {
    && NoBrackets(v)
    && (if |tagged| == 0 then |bare| == 0 else Last(tagged) == ']' && (|v| > 0 ==> AfterTag(v[0])))
    && SameParts(tagged + v, bare + v)
    && SameUrl(tagged + v, bare + v, q)
  }

  // Behind a tag, the next character may be c with q behind it.
  predicate MayFollow(c: char, q: string) {
    AfterTag(c) && (c == '.' ==> Quiet(q))
  }

  lemma TwinStart(q: string)
    ensures Twin([], [], [], q)
  {
  }

  lemma UrlStopTwin(tagged: string, bare: string, v: string, c: char)
    requires |tagged| == 0 ==> |bare| == 0
    requires |tagged| > 0 ==> Last(tagged) == ']' && AfterTag((v + [c])[0])
    ensures UrlStop(tagged + v + [c]) ==> UrlStop(bare + v + [c])
    ensures UrlStop(bare + v + [c]) && !UrlStop(tagged + v + [c]) ==> |v| == 0 && c == '.' && |tagged| > 0
  {
    var w := v + [c];
    var a, b := tagged + v + [c], bare + v + [c];
    assert a == tagged + w && b == bare + w;
    forall k | 1 <= k <= |w| ensures Back(a, k) == Back(w, k) && Back(b, k) == Back(w, k) {
    }
    assert Back(w, |w|) == w[0] && Back(w, 1) == c;
    assert |tagged| > 0 ==> Back(a, |w| + 1) == ']';
    if |tagged| == 0 {
      assert a == b;
    }
  }

  lemma PartsTwin(a: string, b: string, c: char)
    requires SameParts(a, b) && !IsBracket(c)
    requires c == '(' ==> (|a| > 0 ==> Last(a) != ']') && (|b| > 0 ==> Last(b) != ']')
    ensures SameParts(a + [c], b + [c])
  {
    PartsNext(a, c);
    PartsNext(b, c);
  }

  lemma UrlTwin(a: string, b: string, c: char, q: string)
    requires SameUrl(a, b, [c] + q)
    requires UrlStop(a + [c]) ==> UrlStop(b + [c])
    requires UrlStop(b + [c]) && !UrlStop(a + [c]) ==> Quiet(q)
    ensures SameUrl(a + [c], b + [c], q)
  {
    UrlNext(a, c);
    UrlNext(b, c);
    assert ([c] + q)[1..] == q;
  }

  lemma UrlStep(tagged: string, bare: string, v: string, c: char, q: string)
    requires SameUrl(tagged + v, bare + v, [c] + q)
    requires |tagged| == 0 ==> |bare| == 0
    requires |tagged| > 0 ==> Last(tagged) == ']' && AfterTag((v + [c])[0]) && (|v| == 0 && c == '.' ==> Quiet(q))
    ensures SameUrl(tagged + v + [c], bare + v + [c], q)
  {
    UrlStopTwin(tagged, bare, v, c);
    UrlTwin(tagged + v, bare + v, c, q);
  }

  lemma PartsStep(tagged: string, bare: string, v: string, c: char)
    requires SameParts(tagged + v, bare + v) && NoBrackets(v) && !IsBracket(c)
    requires |tagged| == 0 ==> |bare| == 0
    requires |tagged| > 0 && |v| == 0 ==> AfterTag(c)
    ensures SameParts(tagged + v + [c], bare + v + [c])
  {
    var a, b := tagged + v, bare + v;
    assert |v| > 0 ==> Last(a) == Last(v) && Last(b) == Last(v);
    PartsTwin(a, b, c);
  }

  lemma TwinNext(tagged: string, bare: string, v: string, c: char, q: string)
    requires Twin(tagged, bare, v, [c] + q) && !IsBracket(c)
    requires |tagged| > 0 && |v| == 0 ==> MayFollow(c, q)
    ensures Twin(tagged, bare, v + [c], q)
  {
    UrlStep(tagged, bare, v, c, q);
    PartsStep(tagged, bare, v, c);
    assert tagged + (v + [c]) == tagged + v + [c] && bare + (v + [c]) == bare + v + [c];
  }

  // What one more character keeps, a whole text keeps.
  lemma {:induction false} Walk(good: (string, string) -> bool, atTag: bool, v: string, s: string, q: string)
    requires forall v: string, c: char, q: string ::
      good(v, [c] + q) && !IsBracket(c) && (atTag && |v| == 0 ==> MayFollow(c, q)) ==> good(v + [c], q)
    requires good(v, s + q) && NoBrackets(s)
    requires atTag && |v| == 0 && |s| > 0 ==> MayFollow(s[0], s[1..] + q)
    ensures good(v + s, q)
    decreases |s|
  {
    if |s| == 0 {
      assert v + s == v && s + q == q;
    } else {
      assert s + q == [s[0]] + (s[1..] + q);
      Walk(good, atTag, v + [s[0]], s[1..], q);
      assert v + [s[0]] + s[1..] == v + s;
    }
  }

  lemma TwinWalk(tagged: string, bare: string, v: string, s: string, q: string)
    requires Twin(tagged, bare, v, s + q) && NoBrackets(s)
    requires |tagged| > 0 && |v| == 0 && |s| > 0 ==> MayFollow(s[0], s[1..] + q)
    ensures Twin(tagged, bare, v + s, q)
  {
    ghost var good := (v: string, q: string) => Twin(tagged, bare, v, q);
    forall v: string, c: char, q: string
      | good(v, [c] + q) && !IsBracket(c) && (|tagged| > 0 && |v| == 0 ==> MayFollow(c, q))
      ensures good(v + [c], q)
    {
      TwinNext(tagged, bare, v, c, q);
    }
    Walk(good, |tagged| > 0, v, s, q);
  }

  lemma TwinTag(tagged: string, bare: string, v: string, q: string, ids: seq<string>)
    requires Twin(tagged, bare, v, q) && ValidIds(ids) && |ids| > 0
    ensures Twin(tagged + v + TagBlock(ids), bare + v, [], q)
  {
    var tags := TagBlock(ids);
    BlockChars(ids);
    PartsRun(tagged + v, tags);
    UrlRun(tagged + v, tags);
    assert tagged + v + tags + [] == tagged + v + tags && bare + v + [] == bare + v;
    assert Last(tagged + v + tags) == Last(tags);
  }

  // Where a sentence could end, twins agree on whether the place is protected.
  lemma TwinProtected(tagged: string, bare: string, v: string, q: string, suffix': string, suffix: string)
    requires Twin(tagged, bare, v, q) && !Quiet(q)
    ensures ProtectedSpan(tagged + v, suffix') == ProtectedSpan(bare + v, suffix)
  {
    SpanParts(tagged + v, suffix');
    SpanParts(bare + v, suffix);
  }
}
