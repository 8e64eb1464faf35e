// Scanning of Markdown text in src/cogdoc/agents/summary_generator.py: character classes, the
// two citation patterns, protected spans, sentence terminators and where a citation goes in a
// sentence. Regular expressions are written out as scanners.
module CitationText {
  // ----- Characters -----

  // Python's str.isspace, which is also the class \s.
  predicate IsSpace(c: char) {
    '\t' <= c <= '\r' || '\U{1C}' <= c <= ' ' || c == '\U{85}' || c == '\U{A0}' || c == '\U{1680}'
    || '\U{2000}' <= c <= '\U{200A}' || c == '\U{2028}' || c == '\U{2029}' || c == '\U{202F}'
    || c == '\U{205F}' || c == '\U{3000}'
  }

  predicate IsSemantic(c: char) {
    'A' <= c <= 'Z' || 'a' <= c <= 'z' || '0' <= c <= '9' || '\U{3400}' <= c <= '\U{9FFF}'
  }

  predicate IsTerminator(c: char) {
    c == '。' || c == '！' || c == '？' || c == '!' || c == '?' || c == ';' || c == '；'
  }

  predicate IsCloser(c: char) {
    c == '*' || c == '_' || c == '~'
  }

  predicate IsBracket(c: char) {
    c == '[' || c == ']' || c == '［' || c == '］'
  }

  predicate AsciiDigit(c: char) {
    '0' <= c <= '9'
  }

  predicate Has(p: char -> bool, s: string) {
    exists i :: 0 <= i < |s| && p(s[i])
  }

  predicate All(p: char -> bool, s: string) {
    forall i :: 0 <= i < |s| ==> p(s[i])
  }

  predicate Plain(s: string) {
    All(c => !IsBracket(c), s)
  }

  predicate Factual(s: string) {
    Has(IsSemantic, s)
  }

  function Front(s: string): string
    requires |s| > 0
  {
    s[..|s| - 1]
  }

  function Last(s: string): char
    requires |s| > 0
  {
    s[|s| - 1]
  }

  // str.rfind of one character: its last place in s, or -1.
  function RFind(s: string, c: char): (r: int)
    ensures -1 <= r < |s|
  {
    if |s| == 0 then -1 else if Last(s) == c then |s| - 1 else RFind(Front(s), c)
  }

  // str.rfind of two characters.
  function RFindPair(s: string, c: char, d: char): (r: int)
    ensures -1 <= r < |s|
  {
    if |s| < 2 then -1
    else if s[|s| - 2] == c && Last(s) == d then |s| - 2
    else RFindPair(Front(s), c, d)
  }

  function CountChar(s: string, c: char): nat {
    if |s| == 0 then 0 else CountChar(Front(s), c) + if Last(s) == c then 1 else 0
  }

  function TrimRight(s: string): (r: string)
    ensures |r| <= |s|
  {
    if |s| > 0 && IsSpace(Last(s)) then TrimRight(Front(s)) else s
  }

  function TrimLeft(s: string): string {
    if |s| > 0 && IsSpace(s[0]) then TrimLeft(s[1..]) else s
  }

  // ----- Citation patterns -----

  function SkipWhile(p: char -> bool, s: string): (rest: string)
    ensures |rest| <= |s|
  {
    if |s| > 0 && p(s[0]) then SkipWhile(p, s[1..]) else s
  }

  predicate Colon(c: char) {
    c == ':' || c == '：'
  }

  predicate Close(c: char) {
    c == ']' || c == '］'
  }

  // Behind the colon of a page citation: spaces, an optional P, spaces, digits, spaces, a close.
  // The text behind the close, or None.
  function AfterPage(s: string): (rest: string) {
    var a := SkipWhile(IsSpace, s);
    var b := if |a| > 0 && (a[0] == 'p' || a[0] == 'P' || a[0] == 'ｐ' || a[0] == 'Ｐ') then a[1..] else a;
    var c := SkipWhile(IsSpace, b);
    var d := SkipWhile(c => AsciiDigit(c) || '０' <= c <= '９', c);
    var e := SkipWhile(IsSpace, d);
    if |d| < |c| && |e| > 0 && Close(e[0]) then e[1..] else s
  }

  // The length of the page citation [source:Pn] s starts with, or 0.
  function CitationLength(s: string): (n: nat)
    ensures n <= |s|
  {
    if |s| == 0 || (s[0] != '[' && s[0] != '［') then 0
    else
      var stop := SkipWhile(c => !Colon(c) && !Close(c), s[1..]);
      if |stop| == 0 || !Colon(stop[0]) || |stop| == |s| - 1 then 0
      else
        var rest := AfterPage(stop[1..]);
        if |rest| < |stop| - 1 then |s| - |rest| else 0
  }

  // The length of the evidence tag [E001] s starts with, or 0.
  function TagLength(s: string): (n: nat)
    ensures n <= |s|
  {
    if |s| < 2 || s[0] != '[' || s[1] != 'E' then 0
    else
      var rest := SkipWhile(AsciiDigit, s[2..]);
      if |rest| + 3 <= |s| - 2 && |rest| > 0 && rest[0] == ']' then |s| - |rest| + 1 else 0
  }

  // re.sub with an empty replacement.
  function StripCitations(s: string): string
    decreases |s|
  {
    if |s| == 0 then []
    else if CitationLength(s) > 0 then StripCitations(s[CitationLength(s)..])
    else [s[0]] + StripCitations(s[1..])
  }

  function StripTags(s: string): string
    decreases |s|
  {
    if |s| == 0 then []
    else if TagLength(s) > 0 then StripTags(s[TagLength(s)..])
    else [s[0]] + StripTags(s[1..])
  }

  // ----- Protected spans -----

  function LineStart(content: string, index: nat): nat
    requires index <= |content|
  {
    RFind(content[..index], '\n') + 1
  }

  // The text behind the last whitespace.
  function LastToken(s: string): string {
    if |s| == 0 || IsSpace(Last(s)) then [] else LastToken(Front(s)) + [Last(s)]
  }

  // Letters compared as re.I does; the long s is an s.
  predicate Letter(c: char, lower: char, upper: char) {
    c == lower || c == upper
  }

  predicate UrlStart(s: string) {
    (|s| >= 4 && Letter(s[0], 'w', 'W') && Letter(s[1], 'w', 'W') && Letter(s[2], 'w', 'W') && s[3] == '.')
    || (|s| >= 7 && Letter(s[0], 'h', 'H') && Letter(s[1], 't', 'T') && Letter(s[2], 't', 'T') && Letter(s[3], 'p', 'P')
        && (s[4..7] == "://"
            || (|s| >= 8 && (Letter(s[4], 's', 'S') || s[4] == 'ſ') && s[5..8] == "://")))
  }

  predicate HasUrl(token: string) {
    exists i :: 0 <= i < |token| && UrlStart(token[i..])
  }

  predicate HasLink(s: string) {
    exists i :: 0 <= i < |s| - 1 && s[i] == ']' && s[i + 1] == '('
  }

  predicate ProtectedSpan(prefix: string, suffix: string) {
    || CountChar(prefix, '`') % 2 == 1
    || RFindPair(prefix, ']', '(') > RFind(prefix, ')')
    || (RFind(prefix, '[') > RFind(prefix, ']') && HasLink(suffix))
    || HasUrl(LastToken(prefix))
    || RFind(prefix, '<') > RFind(prefix, '>')
  }

  predicate InsideProtectedSpan(content: string, index: nat)
    requires index <= |content|
  {
    ProtectedSpan(content[LineStart(content, index)..index], content[index..])
  }

  // ----- Sentence terminators -----

  // The length of the first of ***, ___, **, __, ~~, *, _ that s starts with, or 0.
  function CloserLength(s: string): (n: nat)
    ensures n <= |s|
  {
    if |s| > 2 && s[0] == s[1] == s[2] && (s[0] == '*' || s[0] == '_') then 3
    else if |s| > 1 && s[0] == s[1] && IsCloser(s[0]) then 2
    else if |s| > 0 && (s[0] == '*' || s[0] == '_') then 1
    else 0
  }

  // Only closers up to a space or the end.
  predicate EndsHere(s: string)
    decreases |s|
  {
    if CloserLength(s) > 0 then EndsHere(s[CloserLength(s)..])
    else |s| == 0 || IsSpace(s[0])
  }

  predicate SentenceTerminator(digit: char -> bool, content: string, index: nat)
    requires index < |content|
  {
    && !InsideProtectedSpan(content, index)
    && (IsTerminator(content[index])
        || (content[index] == '.'
            && !(index > 0 && digit(content[index - 1]) && index + 1 < |content| && digit(content[index + 1]))
            && EndsHere(content[index + 1..])))
  }

  // ----- Where a citation goes -----

  // The same from the end.
  function CloserLengthBack(s: string): (n: nat)
    ensures n <= |s|
  {
    if |s| > 2 && s[|s| - 3] == s[|s| - 2] == Last(s) && (Last(s) == '*' || Last(s) == '_') then 3
    else if |s| > 1 && s[|s| - 2] == Last(s) && IsCloser(Last(s)) then 2
    else if |s| > 0 && (Last(s) == '*' || Last(s) == '_') then 1
    else 0
  }

  function DropClosers(s: string): (r: string)
    ensures |r| <= |s|
    decreases |s|
  {
    if CloserLengthBack(s) > 0 then DropClosers(s[..|s| - CloserLengthBack(s)]) else s
  }

  function DropTerminator(s: string): string {
    if |s| > 0 && (IsTerminator(Last(s)) || Last(s) == '.') then Front(s) else s
  }

  function InsertionIndex(sentence: string): (index: nat)
    ensures index <= |sentence|
  {
    |DropClosers(DropTerminator(TrimRight(sentence)))|
  }

  lemma {:induction false} TrimRightParts(s: string)
    ensures TrimRight(s) <= s && All(IsSpace, s[|TrimRight(s)|..])
  {
    if |s| > 0 && IsSpace(Last(s)) {
      TrimRightParts(Front(s));
    }
  }

  lemma {:induction false} TrimRightLast(s: string)
    ensures |TrimRight(s)| > 0 ==> !IsSpace(Last(TrimRight(s)))
  {
    if |s| > 0 && IsSpace(Last(s)) {
      TrimRightLast(Front(s));
    }
  }

  // Trimming goes no further than the first and the last character that is no space.
  lemma {:induction false} TrimLeftOf(prefix: string, s: string)
    requires |s| > 0 && !IsSpace(s[0])
    ensures TrimLeft(prefix + s) == TrimLeft(prefix) + s && |TrimLeft(prefix)| <= |prefix|
  {
    if |prefix| == 0 {
      assert prefix + s == s;
    } else if IsSpace(prefix[0]) {
      assert (prefix + s)[1..] == prefix[1..] + s;
      TrimLeftOf(prefix[1..], s);
    }
  }

  lemma {:induction false} TrimRightOf(s: string, suffix: string)
    requires |s| > 0 && !IsSpace(Last(s))
    ensures TrimRight(s + suffix) == s + TrimRight(suffix)
  {
    if |suffix| == 0 {
      assert s + suffix == s;
    } else {
      assert Front(s + suffix) == s + Front(suffix);
      TrimRightOf(s, Front(suffix));
    }
  }

  lemma {:induction false} DropClosersParts(s: string)
    ensures DropClosers(s) <= s
    ensures forall i :: |DropClosers(s)| <= i < |s| ==> IsCloser(s[i])
    decreases |s|
  {
    if CloserLengthBack(s) > 0 {
      DropClosersParts(s[..|s| - CloserLengthBack(s)]);
    }
  }

  // ----- The fixed no-evidence sentence -----

  const NO_EVIDENCE := "文档中未明确说明"

  predicate NoEvidence(sentence: string) {
    var s := TrimRight(TrimLeft(sentence));
    s == NO_EVIDENCE
    || (|s| == |NO_EVIDENCE| + 1 && s[..|NO_EVIDENCE|] == NO_EVIDENCE
        && (Last(s) == '。' || Last(s) == '.' || Last(s) == '!' || Last(s) == '！' || Last(s) == '?' || Last(s) == '？'))
  }
}
