// What becomes of a section of plain prose in the text pipeline, read off the section itself: the
// claims that claim_evidence_verifier.py will cut once summary_generator.py has bound the section,
// and which of them will carry an evidence tag. A line falls into stretches, each up to a
// terminator; a stretch carries a tag unless all its sentences take none.
module ClaimPlan {
  import opened CitationText
  import opened CitationBinding
  import opened CitationErasure
  import opened ClaimUnits
  import opened WovenText

  // A claim as it stands in the section, and whether binding puts a tag into it.
  datatype Planned = Planned(text: string, tagged: bool)

  // Behind the next terminator.
  function StretchEnd(line: string, start: nat): (end: nat)
    requires start <= |line|
    ensures start <= end <= |line| && (start < |line| ==> start < end)
    decreases |line| - start
  {
    if start == |line| then start
    else if IsTerminator(line[start]) then start + 1
    else StretchEnd(line, start + 1)
  }

  // No sentence from start to end takes a tag.
  predicate Silent(stop: nat -> bool, line: string, start: nat, end: nat)
    requires start <= |line|
    decreases |line| - start
  {
    start >= end || start == |line|
    || (!Tagged(line[start..PieceEnd(stop, |line|, start)]) && Silent(stop, line, PieceEnd(stop, |line|, start), end))
  }

  // The line up to where its first tag goes, with the bracket that opens the tag.
  function BeforeTag(stop: nat -> bool, line: string, start: nat): string
    requires start <= |line|
    decreases |line| - start
  {
    if start == |line| then []
    else
      var end := PieceEnd(stop, |line|, start);
      if Tagged(line[start..end]) then Head(line[start..end]) + ['[']
      else line[start..end] + BeforeTag(stop, line, end)
  }

  // A line without its heading marks and its list prefix.
  function LineText(decimal: char -> bool, line: string): string {
    DropListPrefix(decimal, DropHeading(Trim(line)))
  }

  // How much of a line that is dropped: a prefix is one only in front of the first tag.
  function Skip(decimal: char -> bool, stop: nat -> bool, line: string): nat {
    var front := BeforeTag(stop, line, 0);
    if |LineText(decimal, front)| <= |TrimRight(front)| then |TrimRight(front)| - |LineText(decimal, front)| else 0
  }

  // The stretches from start on, the first one only from skip on.
  function LinePlan(stop: nat -> bool, line: string, start: nat, skip: nat): seq<Planned>
    requires start <= |line|
    decreases |line| - start
  {
    if start == |line| then []
    else
      var end := StretchEnd(line, start);
      var p := Planned(Trim(if skip <= end then line[skip..end] else []), !Silent(stop, line, start, end));
      (if p.tagged || |p.text| > 0 then [p] else []) + LinePlan(stop, line, end, end)
  }

  function Planner(digit: char -> bool, decimal: char -> bool): string -> seq<Planned> {
    (body: string) => LinePlan(Stop(digit, body), body, 0, Skip(decimal, Stop(digit, body), body))
  }

  // A claim of which only the tag is left, the number in front of it having been dropped.
  predicate Bare(p: Planned) {
    p.tagged && All(IsFiller, p.text)
  }

  // Its tag goes to the claim before it.
  function PlanAppended(plan: seq<Planned>, p: Planned): seq<Planned> {
    if Bare(p) && |plan| > 0 then plan[|plan| - 1 := Planned(plan[|plan| - 1].text + p.text, true)]
    else plan + [p]
  }

  function PlanAppendedAll(plan: seq<Planned>, ps: seq<Planned>): seq<Planned>
    decreases |ps|
  {
    if |ps| == 0 then plan else PlanAppendedAll(PlanAppended(plan, ps[0]), ps[1..])
  }

  function PlanLines(planner: string -> seq<Planned>, plan: seq<Planned>, lines: seq<string>): seq<Planned>
    decreases |lines|
  {
    if |lines| == 0 then plan
    else PlanLines(planner, PlanAppendedAll(plan, planner(Body(lines[0]))), lines[1..])
  }

  function PlanOf(digit: char -> bool, decimal: char -> bool, content: string): seq<Planned> {
    PlanLines(Planner(digit, decimal), [], SplitLines(content))
  }

  // It states something, is not the fixed no-evidence sentence, and will have no tag.
  predicate Uncited(p: Planned) {
    !p.tagged && Factual(p.text) && !NoEvidence(p.text)
  }

  // ----- What is dropped from the front of a line -----

  // What is assumed of the class \d.
  ghost predicate DecimalClass(decimal: char -> bool) {
    !decimal('[') && forall c :: IsTerminator(c) ==> !decimal(c)
  }

  predicate Unmarked(s: string) {
    forall i :: 0 <= i < |s| ==> s[i] != '[' && !IsTerminator(s[i])
  }

  // s is whole without some characters at its front that neither open a tag nor end a sentence.
  predicate Behind(s: string, whole: string) {
    |s| <= |whole| && s == whole[|whole| - |s|..] && Unmarked(whole[..|whole| - |s|])
  }

  lemma BehindSame(s: string)
    ensures Behind(s, s)
  {
  }

  lemma BehindOne(s: string)
    requires |s| > 0 && s[0] != '[' && !IsTerminator(s[0])
    ensures Behind(s[1..], s)
  {
  }

  lemma BehindTwice(s: string, t: string, whole: string)
    requires Behind(s, t) && Behind(t, whole)
    ensures Behind(s, whole)
  {
    var n, m := |whole| - |t|, |whole| - |s|;
    assert whole[n..][m - n..] == whole[m..];
    forall i | 0 <= i < m ensures whole[i] != '[' && !IsTerminator(whole[i]) {
      assert if i < n then whole[i] == whole[..n][i] else whole[i] == t[..m - n][i - n];
    }
  }

  lemma {:induction false} TrimLeftBehind(s: string)
    ensures Behind(TrimLeft(s), s)
  {
    if |s| > 0 && IsSpace(s[0]) {
      TrimLeftBehind(s[1..]);
      BehindOne(s);
      BehindTwice(TrimLeft(s), s[1..], s);
    } else {
      BehindSame(s);
    }
  }

  lemma {:induction false} HashesBehind(s: string, n: nat)
    ensures Behind(DropHashes(s, n), s)
  {
    if n > 0 && |s| > 0 && s[0] == '#' {
      HashesBehind(s[1..], n - 1);
      BehindOne(s);
      BehindTwice(DropHashes(s, n), s[1..], s);
    } else {
      BehindSame(s);
    }
  }

  lemma {:induction false} DigitsBehind(decimal: char -> bool, s: string)
    requires DecimalClass(decimal)
    ensures Behind(SkipWhile(decimal, s), s)
  {
    if |s| > 0 && decimal(s[0]) {
      DigitsBehind(decimal, s[1..]);
      BehindOne(s);
      BehindTwice(SkipWhile(decimal, s), s[1..], s);
    } else {
      BehindSame(s);
    }
  }

  lemma OneThenTrim(s: string)
    requires |s| > 0 && s[0] != '[' && !IsTerminator(s[0])
    ensures Behind(TrimLeft(s[1..]), s)
  {
    BehindOne(s);
    TrimLeftBehind(s[1..]);
    BehindTwice(TrimLeft(s[1..]), s[1..], s);
  }

  lemma BulletBehind(t: string)
    requires |t| > 1 && IsBullet(t[0])
    ensures Behind(TrimLeft(t[1..]), t)
  {
    OneThenTrim(t);
  }

  lemma NumberBehind(decimal: char -> bool, t: string)
    requires DecimalClass(decimal)
    ensures var d := SkipWhile(decimal, t); 0 < |d| < |t| && EndsNumber(d[0]) ==> Behind(TrimLeft(d[1..]), t)
  {
    var d := SkipWhile(decimal, t);
    DigitsBehind(decimal, t);
    if 0 < |d| < |t| && EndsNumber(d[0]) {
      OneThenTrim(d);
      BehindTwice(TrimLeft(d[1..]), d, t);
    }
  }

  lemma ListPrefixBehind(decimal: char -> bool, s: string)
    requires DecimalClass(decimal)
    ensures Behind(DropListPrefix(decimal, s), s)
  {
    var t, dropped := TrimLeft(s), DropListPrefix(decimal, s);
    TrimLeftBehind(s);
    BehindSame(s);
    if |t| > 1 && IsBullet(t[0]) && IsSpace(t[1]) {
      BulletBehind(t);
      BehindTwice(dropped, t, s);
    } else if dropped != s {
      NumberBehind(decimal, t);
      BehindTwice(dropped, t, s);
    }
  }

  // Does not end in a space.
  predicate Ended(s: string) {
    |s| == 0 || !IsSpace(Last(s))
  }

  lemma EndedBehind(s: string, whole: string)
    requires Behind(s, whole) && Ended(whole)
    ensures Ended(s) && TrimRight(s) == s
  {
  }

  lemma {:induction false} TrimOrder(s: string)
    ensures Trim(s) == TrimLeft(TrimRight(s))
  {
    if |s| > 0 && IsSpace(s[0]) {
      TrimOrder(s[1..]);
      TrimRightMore(s[0], s[1..]);
      assert s == [s[0]] + s[1..];
    } else if |s| > 0 {
      TrimRightOf([s[0]], s[1..]);
      assert s == [s[0]] + s[1..];
    }
  }

  lemma {:induction false} TrimRightMore(c: char, s: string)
    requires IsSpace(c)
    ensures TrimLeft(TrimRight([c] + s)) == TrimLeft(TrimRight(s))
  {
    if |s| == 0 {
      assert [c] + s == [c] && Front([c]) == [];
      assert TrimRight([c]) == TrimRight([]);
    } else if IsSpace(Last(s)) {
      assert Front([c] + s) == [c] + Front(s) && Last([c] + s) == Last(s);
      TrimRightMore(c, Front(s));
    } else {
      assert Last([c] + s) == Last(s);
      assert ([c] + s)[1..] == s;
    }
  }

  lemma HeadingBehind(s: string)
    requires Ended(s)
    ensures Behind(DropHeading(s), s)
  {
    BehindSame(s);
    if |s| > 0 && s[0] == '#' {
      var h := DropHashes(s, 6);
      HashesBehind(s, 6);
      TrimLeftBehind(h);
      TrimLeftBehind(TrimLeft(h));
      BehindTwice(TrimLeft(h), h, s);
      BehindTwice(TrimLeft(TrimLeft(h)), TrimLeft(h), s);
      EndedBehind(TrimLeft(TrimLeft(h)), s);
    }
  }

  lemma LineTextBehind(decimal: char -> bool, x: string)
    requires DecimalClass(decimal)
    ensures Behind(LineText(decimal, x), TrimRight(x))
  {
    TrimRightLast(x);
    TrimOrder(x);
    TrimLeftBehind(TrimRight(x));
    EndedBehind(Trim(x), TrimRight(x));
    HeadingBehind(Trim(x));
    ListPrefixBehind(decimal, DropHeading(Trim(x)));
    BehindTwice(DropHeading(Trim(x)), Trim(x), TrimRight(x));
    BehindTwice(LineText(decimal, x), DropHeading(Trim(x)), TrimRight(x));
  }

  // ----- The front of a line decides -----

  // A text that ends where a tag opens.
  predicate Opened(x: string) {
    |x| > 0 && Last(x) == '['
  }

  lemma {:induction false} TrimLeftGoesOn(x: string, more: string)
    requires Opened(x)
    ensures TrimLeft(x + more) == TrimLeft(x) + more && Opened(TrimLeft(x))
  {
    if IsSpace(x[0]) {
      assert (x + more)[1..] == x[1..] + more;
      TrimLeftGoesOn(x[1..], more);
    }
  }

  lemma {:induction false} HashesGoOn(x: string, n: nat, more: string)
    requires Opened(x)
    ensures DropHashes(x + more, n) == DropHashes(x, n) + more && Opened(DropHashes(x, n))
  {
    if n > 0 && x[0] == '#' {
      assert (x + more)[1..] == x[1..] + more;
      HashesGoOn(x[1..], n - 1, more);
    }
  }

  lemma {:induction false} DigitsGoOn(decimal: char -> bool, x: string, more: string)
    requires Opened(x) && DecimalClass(decimal)
    ensures SkipWhile(decimal, x + more) == SkipWhile(decimal, x) + more && Opened(SkipWhile(decimal, x))
  {
    if decimal(x[0]) {
      assert (x + more)[1..] == x[1..] + more;
      DigitsGoOn(decimal, x[1..], more);
    }
  }

  lemma OneThenTrimGoesOn(x: string, more: string)
    requires Opened(x) && x[0] != '['
    ensures TrimLeft((x + more)[1..]) == TrimLeft(x[1..]) + more && Opened(TrimLeft(x[1..]))
  {
    assert (x + more)[1..] == x[1..] + more;
    TrimLeftGoesOn(x[1..], more);
  }

  lemma ListPrefixGoesOn(decimal: char -> bool, x: string, more: string)
    requires Opened(x) && DecimalClass(decimal)
    ensures DropListPrefix(decimal, x + more) == DropListPrefix(decimal, x) + more
  {
    TrimLeftGoesOn(x, more);
    var t := TrimLeft(x);
    DigitsGoOn(decimal, t, more);
    var d := SkipWhile(decimal, t);
    if IsBullet(t[0]) {
      OneThenTrimGoesOn(t, more);
    }
    if EndsNumber(d[0]) {
      OneThenTrimGoesOn(d, more);
    }
  }

  lemma TrimGoesOn(x: string, more: string)
    requires Opened(x)
    ensures Trim(x + more) == TrimLeft(x) + TrimRight(more) && Trim(x) == TrimLeft(x) && Opened(TrimLeft(x))
  {
    TrimLeftGoesOn(x, more);
    TrimRightOf(TrimLeft(x), more);
  }

  lemma HeadingGoesOn(x: string, more: string)
    requires Opened(x) && TrimRight(more) == more
    ensures DropHeading(x + more) == DropHeading(x) + more && Opened(DropHeading(x))
  {
    if x[0] == '#' {
      HashesGoOn(x, 6, more);
      var h := DropHashes(x, 6);
      TrimLeftGoesOn(h, more);
      TrimGoesOn(TrimLeft(h), more);
    }
  }

  lemma {:induction false} TrimRightTwice(s: string)
    ensures TrimRight(TrimRight(s)) == TrimRight(s)
  {
    if |s| > 0 && IsSpace(Last(s)) {
      TrimRightTwice(Front(s));
    }
  }

  // What is dropped before a tag does not depend on what comes behind.
  lemma LineTextGoesOn(decimal: char -> bool, x: string, more: string)
    requires Opened(x) && DecimalClass(decimal)
    ensures LineText(decimal, x + more) == LineText(decimal, x) + TrimRight(more)
  {
    TrimGoesOn(x, more);
    TrimRightTwice(more);
    HeadingGoesOn(TrimLeft(x), TrimRight(more));
    ListPrefixGoesOn(decimal, DropHeading(TrimLeft(x)), TrimRight(more));
  }

  // ----- Blanks around a text change none of its claims -----

  lemma {:induction false} CutBlankBehind(s: string, blank: string)
    requires Blank(blank)
    ensures Stripped(CutAtTerminators(s + blank)) == Stripped(CutAtTerminators(s))
    decreases |s|
  {
    var k := FirstTerminator(s);
    if k == |s| {
      NoneFirst(s, blank);
      TrimBlankBehind(s, blank);
      OneStripped(s);
      OneStripped(s + blank);
    } else {
      FirstStays(s, blank, k);
      CutBlankBehind(s[k + 1..], blank);
      MoreStripped(s[..k + 1], CutAtTerminators(s[k + 1..]));
      MoreStripped(s[..k + 1], CutAtTerminators(s[k + 1..] + blank));
    }
  }

  lemma OneStripped(s: string)
    requires FirstTerminator(s) == |s|
    ensures Stripped(CutAtTerminators(s)) == if |Trim(s)| > 0 then [Trim(s)] else []
  {
    MoreStripped(s, []);
    assert [s] + [] == [s];
  }

  lemma MoreStripped(s: string, cuts: seq<string>)
    ensures Stripped([s] + cuts) == (if |Trim(s)| > 0 then [Trim(s)] else []) + Stripped(cuts)
  {
    assert ([s] + cuts)[1..] == cuts;
  }

  lemma FirstAt(s: string, k: nat)
    requires k <= |s| && (k < |s| ==> IsTerminator(s[k])) && forall i :: 0 <= i < k ==> !IsTerminator(s[i])
    ensures FirstTerminator(s) == k
  {
  }

  lemma NoneFirst(s: string, blank: string)
    requires Blank(blank) && FirstTerminator(s) == |s|
    ensures FirstTerminator(s + blank) == |s + blank|
  {
    FirstAt(s + blank, |s + blank|);
  }

  lemma FirstStays(s: string, more: string, k: nat)
    requires FirstTerminator(s) == k < |s|
    ensures CutAtTerminators(s) == [s[..k + 1]] + CutAtTerminators(s[k + 1..])
    ensures CutAtTerminators(s + more) == [s[..k + 1]] + CutAtTerminators(s[k + 1..] + more)
  {
    FirstAt(s + more, k);
    assert (s + more)[..k + 1] == s[..k + 1] && (s + more)[k + 1..] == s[k + 1..] + more;
  }

  lemma TrimBlankBehind(s: string, blank: string)
    requires Blank(blank)
    ensures Trim(s + blank) == Trim(s)
  {
    TrimOrder(s);
    TrimOrder(s + blank);
    TrimRightBlank(s, blank);
  }

  lemma {:induction false} TrimRightBlank(s: string, blank: string)
    requires Blank(blank)
    ensures TrimRight(s + blank) == TrimRight(s)
  {
    if |blank| == 0 {
      assert s + blank == s;
    } else {
      assert Front(s + blank) == s + Front(blank);
      TrimRightBlank(s, Front(blank));
    }
  }

  lemma {:induction false} CutTrimLeft(s: string)
    ensures Stripped(CutAtTerminators(TrimLeft(s))) == Stripped(CutAtTerminators(s))
  {
    if |s| > 0 && IsSpace(s[0]) {
      CutTrimLeft(s[1..]);
      CutSpaceBefore(s);
    }
  }

  lemma FirstBehindSpace(s: string)
    requires |s| > 0 && IsSpace(s[0])
    ensures FirstTerminator(s) == 1 + FirstTerminator(s[1..])
  {
  }

  lemma CutSpaceBefore(s: string)
    requires |s| > 0 && IsSpace(s[0])
    ensures Stripped(CutAtTerminators(s)) == Stripped(CutAtTerminators(s[1..]))
  {
    FirstBehindSpace(s);
    if FirstTerminator(s) == |s| {
      OneStripped(s);
      OneStripped(s[1..]);
    } else {
      SpaceFirstCut(s, s[1..], FirstTerminator(s[1..]));
    }
  }

  lemma SpaceFirstCut(s: string, t: string, k: nat)
    requires |s| > 0 && IsSpace(s[0]) && t == s[1..] && k == FirstTerminator(t) < |t| && FirstTerminator(s) == k + 1
    ensures Stripped(CutAtTerminators(s)) == Stripped(CutAtTerminators(t))
  {
    FirstCut(s, k + 1);
    FirstCut(t, k);
    SpaceBefore(s, k + 2);
    assert s[k + 2..] == t[k + 1..];
  }

  lemma SpaceBefore(s: string, n: nat)
    requires 0 < n <= |s| && IsSpace(s[0])
    ensures Trim(s[..n]) == Trim(s[1..][..n - 1])
  {
    assert s[..n][1..] == s[1..][..n - 1];
  }

  lemma FirstCut(s: string, k: nat)
    requires k == FirstTerminator(s) < |s|
    ensures Stripped(CutAtTerminators(s))
         == (if |Trim(s[..k + 1])| > 0 then [Trim(s[..k + 1])] else []) + Stripped(CutAtTerminators(s[k + 1..]))
  {
    MoreStripped(s[..k + 1], CutAtTerminators(s[k + 1..]));
  }

  lemma CutTrim(s: string)
    ensures Stripped(CutAtTerminators(Trim(s))) == Stripped(CutAtTerminators(s))
  {
    TrimRightParts(s);
    TrimOrder(s);
    CutTrimLeft(TrimRight(s));
    CutCore(s, TrimRight(s));
  }

  lemma CutCore(s: string, core: string)
    requires core <= s && All(IsSpace, s[|core|..])
    ensures Stripped(CutAtTerminators(core)) == Stripped(CutAtTerminators(s))
  {
    CutBlankBehind(core, s[|core|..]);
    assert s == core + s[|core|..];
  }
}
