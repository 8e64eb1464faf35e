// Page citations in answers, rust_core/src/citation.rs: parsing with checked arithmetic,
// extraction, and the check against the documents that were retrieved.
module CitationParser {
  import opened Options

  const MAX_I64: int := 0x7FFF_FFFF_FFFF_FFFF
  const MIN_I64: int := -MAX_I64 - 1

  datatype Citation = Citation(source: string, page: int)

  // Rust's char::is_whitespace.
  predicate IsBlank(c: char) {
    '\t' <= c <= '\r' || c == ' ' || c == '\U{85}' || c == '\U{A0}' || c == '\U{1680}'
    || '\U{2000}' <= c <= '\U{200A}' || c == '\U{2028}' || c == '\U{2029}' || c == '\U{202F}'
    || c == '\U{205F}' || c == '\U{3000}'
  }

  predicate IsOpen(c: char) {
    c == '[' || c == '［'
  }

  predicate IsClose(c: char) {
    c == ']' || c == '］'
  }

  predicate IsColon(c: char) {
    c == ':' || c == '：'
  }

  predicate IsPagePrefix(c: char) {
    c == 'p' || c == 'P' || c == 'ｐ' || c == 'Ｐ'
  }

  function DigitValue(c: char): (v: Option<int>)
    ensures v.Some? ==> 0 <= v.value <= 9
  {
    if '0' <= c <= '9' then Some(c as int - '0' as int)
    else if '０' <= c <= '９' then Some(c as int - '０' as int)
    else None
  }

  predicate IsDigit(c: char) {
    DigitValue(c).Some?
  }

  predicate Digits(s: string) {
    forall i :: 0 <= i < |s| ==> IsDigit(s[i])
  }

  // The number a digit string stands for, however large.
  function Number(s: string): (n: nat)
    requires Digits(s)
  {
    if |s| == 0 then 0 else Number(s[..|s| - 1]) * 10 + DigitValue(s[|s| - 1]).value
  }

  function TrimStart(s: string): (r: string)
    ensures |r| <= |s|
  {
    if |s| > 0 && IsBlank(s[0]) then TrimStart(s[1..]) else s
  }

  function TrimEnd(s: string): (r: string)
    ensures |r| <= |s|
  {
    if |s| > 0 && IsBlank(s[|s| - 1]) then TrimEnd(s[..|s| - 1]) else s
  }

  function Trim(s: string): string {
    TrimEnd(TrimStart(s))
  }

  // ----- Page numbers -----

  function Checked(n: int): Option<int> {
    if MIN_I64 <= n <= MAX_I64 then Some(n) else None
  }

  // A page without a sign: digits whose value fits.
  function PageOf(s: string): Option<int> {
    if |s| > 0 && Digits(s) then Checked(Number(s)) else None
  }

  // The number accepted with a sign, as document metadata may have one.
  function SignedPageOf(s: string): Option<int> {
    if |s| > 0 && s[0] == '-' then
      var page := PageOf(TrimStart(s[1..]));
      if page.Some? then Some(-page.value) else None
    else if |s| > 0 && s[0] == '+' then PageOf(TrimStart(s[1..]))
    else PageOf(s)
  }

  lemma {:induction false} NumberGrows(s: string, i: nat)
    requires Digits(s) && i <= |s|
    ensures Number(s[..i]) <= Number(s)
  {
    if i < |s| {
      assert s[..|s| - 1][..i] == s[..i];
      NumberGrows(s[..|s| - 1], i);
    } else {
      assert s[..i] == s;
    }
  }

  // The loop with checked multiplication and addition succeeds exactly on digits whose value,
  // not just each step, fits.
  method ReadDigits(s: string) returns (page: Option<int>)
    requires |s| > 0
    ensures page == PageOf(s)
  {
    var value := 0;
    var i := 0;
    while i < |s|
      invariant i <= |s| && Digits(s[..i]) && value == Number(s[..i]) <= MAX_I64
    {
      var digit := DigitValue(s[i]);
      if digit.None? {
        assert !IsDigit(s[i]);
        return None;
      }
      assert s[..i + 1][..i] == s[..i];
      var scaled := Checked(value * 10);
      if scaled.None? || Checked(scaled.value + digit.value).None? {
        if Digits(s) {
          NumberGrows(s, i + 1);
        }
        return None;
      }
      value := scaled.value + digit.value;
      i := i + 1;
    }
    assert s[..i] == s;
    page := Some(value);
  }

  method ParsePageNumber(pagePart: string, allowSign: bool) returns (page: Option<int>)
    ensures page == if allowSign then SignedPageOf(Trim(pagePart)) else PageOf(Trim(pagePart))
  {
    var part := Trim(pagePart);
    var sign := 1;
    if allowSign {
      if |part| > 0 && part[0] == '-' {
        sign := -1;
        part := TrimStart(part[1..]);
      } else if |part| > 0 && part[0] == '+' {
        part := TrimStart(part[1..]);
      }
    }
    if |part| == 0 {
      return None;
    }
    var value := ReadDigits(part);
    if value.None? {
      return None;
    }
    page := Checked(value.value * sign);
  }

  // ----- One citation -----

  // The place of the first character that satisfies p, or the length.
  function Find(p: char -> bool, s: string): (i: nat)
    ensures i <= |s|
    ensures i < |s| ==> p(s[i])
    ensures forall k :: 0 <= k < i ==> !p(s[k])
  {
    if |s| == 0 || p(s[0]) then 0 else 1 + Find(p, s[1..])
  }

  function WithoutPrefix(s: string): string {
    if |s| > 0 && IsPagePrefix(s[0]) then Trim(s[1..]) else s
  }

  // The page of a citation as it is read: an optional prefix, and blanks around both.
  function PagePart(s: string): Option<int> {
    PageOf(Trim(WithoutPrefix(Trim(s))))
  }

  function CitationOf(source: string, page: Option<int>): Option<Citation> {
    if |source| == 0 || page.None? then None else Some(Citation(source, page.value))
  }

  // The text in front of the first colon names the source, the text behind it the page.
  function ParseHalves(source: string -> string, page: string -> Option<int>, body: string): Option<Citation> {
    var colon := Find(IsColon, body);
    if colon == |body| then None else CitationOf(source(body[..colon]), page(body[colon + 1..]))
  }

  function ParseBody(body: string): Option<Citation> {
    ParseHalves(Trim, PagePart, body)
  }

  method ParsePagePart(s: string) returns (page: Option<int>)
    ensures page == PagePart(s)
  {
    var pagePart := Trim(s);
    if |pagePart| > 0 && IsPagePrefix(pagePart[0]) {
      pagePart := Trim(pagePart[1..]);
    }
    page := ParsePageNumber(pagePart, false);
  }

  method ParseCitationBody(body: string) returns (citation: Option<Citation>)
    ensures citation == ParseBody(body)
  {
    var colon := Find(IsColon, body);
    if colon == |body| {
      return None;
    }
    var source := Trim(body[..colon]);
    if |source| == 0 {
      return None;
    }
    var page := ParsePagePart(body[colon + 1..]);
    citation := if page.None? then None else Some(Citation(source, page.value));
  }

  // ----- All citations of an answer -----

  function Optional<T>(o: Option<T>): seq<T> {
    if o.Some? then [o.value] else []
  }

  // The text between the first opening bracket and the next closing one, and what follows.
  function Bracketed(answer: string): (r: Option<(string, string)>)
    ensures r.Some? ==> |r.value.1| < |answer|
  {
    var open := Find(IsOpen, answer);
    if open == |answer| then None
    else
      var rest := answer[open + 1..];
      var close := Find(IsClose, rest);
      if close == |rest| then None else Some((rest[..close], rest[close + 1..]))
  }

  // What parse makes of every bracketed text, in order.
  function ExtractWith(parse: string -> Option<Citation>, answer: string): seq<Citation>
    decreases |answer|
  {
    var bracketed := Bracketed(answer);
    if bracketed.None? then []
    else Optional(parse(bracketed.value.0)) + ExtractWith(parse, bracketed.value.1)
  }

  function Extract(answer: string): seq<Citation> {
    ExtractWith(ParseBody, answer)
  }

  method NextBracketed(answer: string, searchFrom: nat) returns (body: string, next: nat, found: bool)
    requires searchFrom <= |answer|
    ensures found <==> Bracketed(answer[searchFrom..]).Some?
    ensures found ==> searchFrom < next <= |answer| && Bracketed(answer[searchFrom..]) == Some((body, answer[next..]))
  {
    var ahead := answer[searchFrom..];
    var open := Find(IsOpen, ahead);
    if open == |ahead| {
      return [], 0, false;
    }
    var bodyStart := searchFrom + open + 1;
    var rest := answer[bodyStart..];
    assert rest == ahead[open + 1..];
    var close := Find(IsClose, rest);
    if close == |rest| {
      return [], 0, false;
    }
    assert rest[close + 1..] == answer[bodyStart + close + 1..];
    body, next, found := rest[..close], bodyStart + close + 1, true;
  }

  // The loop of extract_citations, whatever parses one body.
  method ExtractEach(parse: string -> Option<Citation>, answer: string) returns (citations: seq<Citation>)
    ensures citations == ExtractWith(parse, answer)
  {
    citations := [];
    var searchFrom := 0;
    assert answer[0..] == answer;
    while true
      invariant searchFrom <= |answer|
      invariant ExtractWith(parse, answer) == citations + ExtractWith(parse, answer[searchFrom..])
      decreases |answer| - searchFrom
    {
      var body, next, found := NextBracketed(answer, searchFrom);
      if !found {
        return;
      }
      citations := citations + Optional(parse(body));
      searchFrom := next;
    }
  }

  method ExtractCitations(answer: string) returns (citations: seq<Citation>)
    ensures citations == Extract(answer)
  {
    citations := ExtractEach(ParseBody, answer);
  }

  // ----- Printed citations -----

  // The ways to write one citation: brackets, colon and digits of either width, a page prefix
  // or none, and blanks around every part.
  datatype Written = Written(
    open: char, before: string, source: string, after: string, colon: char, pad: string, prefix: string, gap: string,
    digits: string, tail: string, close: char)

  predicate Blank(s: string) {
    forall i :: 0 <= i < |s| ==> IsBlank(s[i])
  }

  predicate Solid(s: string) {
    |s| > 0 && !IsBlank(s[0]) && !IsBlank(s[|s| - 1])
  }

  predicate Free(p: char -> bool, s: string) {
    forall i :: 0 <= i < |s| ==> !p(s[i])
  }

  // A source can be written if it has no colon and no closing bracket and is trimmed.
  predicate ValidWritten(w: Written) {
    && IsOpen(w.open) && IsClose(w.close) && IsColon(w.colon)
    && Blank(w.before) && Blank(w.after) && Blank(w.pad) && Blank(w.gap) && Blank(w.tail)
    && Solid(w.source) && Free(IsColon, w.source) && Free(IsClose, w.source)
    && (w.prefix == "" || (|w.prefix| == 1 && IsPagePrefix(w.prefix[0])))
    && |w.digits| > 0 && Digits(w.digits) && Number(w.digits) <= MAX_I64
  }

  function Head(w: Written): string {
    w.before + w.source + w.after
  }

  function Page(w: Written): string {
    w.pad + (w.prefix + (w.gap + (w.digits + w.tail)))
  }

  function Body(w: Written): string {
    Head(w) + ([w.colon] + Page(w))
  }

  function Meant(w: Written): Citation
    requires ValidWritten(w)
  {
    Citation(w.source, Number(w.digits))
  }

  lemma {:induction false} TrimStartBlank(s: string, rest: string)
    requires Blank(s) && (|rest| > 0 ==> !IsBlank(rest[0]))
    ensures TrimStart(s + rest) == rest
  {
    if |s| == 0 {
      assert s + rest == rest;
    } else {
      assert (s + rest)[1..] == s[1..] + rest;
      TrimStartBlank(s[1..], rest);
    }
  }

  lemma {:induction false} TrimEndBlank(s: string, rest: string)
    requires Blank(rest) && (|s| > 0 ==> !IsBlank(s[|s| - 1]))
    ensures TrimEnd(s + rest) == s
  {
    if |rest| == 0 {
      assert s + rest == s;
    } else {
      assert (s + rest)[..|s + rest| - 1] == s + rest[..|rest| - 1];
      TrimEndBlank(s, rest[..|rest| - 1]);
    }
  }

  lemma TrimSolid(a: string, s: string, b: string)
    requires Blank(a) && Blank(b) && Solid(s)
    ensures Trim(a + s + b) == s
  {
    assert a + s + b == a + (s + b);
    TrimStartBlank(a, s + b);
    TrimEndBlank(s, b);
  }

  lemma {:induction false} FindBehind(p: char -> bool, s: string, rest: string)
    requires Free(p, s) && |rest| > 0 && p(rest[0])
    ensures Find(p, s + rest) == |s|
  {
    if |s| == 0 {
      assert s + rest == rest;
    } else {
      assert (s + rest)[1..] == s[1..] + rest;
      FindBehind(p, s[1..], rest);
    }
  }

  lemma DigitsSolid(s: string)
    requires |s| > 0 && Digits(s)
    ensures Solid(s) && !IsPagePrefix(s[0])
  {
    assert IsDigit(s[0]) && IsDigit(s[|s| - 1]);
  }

  lemma TrimDigits(a: string, d: string, b: string)
    requires Blank(a) && Blank(b) && |d| > 0 && Digits(d)
    ensures Trim(a + d + b) == d && Trim(a + d) == d && Trim(d) == d && !IsPagePrefix(d[0])
  {
    DigitsSolid(d);
    TrimSolid(a, d, b);
    TrimSolid(a, d, []);
    TrimSolid([], d, []);
    assert a + d + [] == a + d && [] + d + [] == d;
  }

  lemma TrimPrefixed(pad: string, p: char, gap: string, d: string, tail: string)
    requires Blank(pad) && Blank(gap) && Blank(tail) && IsPagePrefix(p) && |d| > 0 && Digits(d)
    ensures Trim(pad + ([p] + (gap + (d + tail)))) == [p] + (gap + d)
  {
    var core := [p] + (gap + d);
    DigitsSolid(d);
    assert Solid(core);
    assert pad + ([p] + (gap + (d + tail))) == pad + core + tail;
    TrimSolid(pad, core, tail);
  }

  // The page part of a written citation is its digits.
  lemma PageIsDigits(w: Written)
    requires ValidWritten(w)
    ensures Trim(WithoutPrefix(Trim(Page(w)))) == w.digits
  {
    if w.prefix == "" {
      assert Page(w) == w.pad + w.gap + w.digits + w.tail;
      TrimDigits(w.pad + w.gap, w.digits, w.tail);
    } else {
      var p := w.prefix[0];
      assert w.prefix == [p];
      TrimPrefixed(w.pad, p, w.gap, w.digits, w.tail);
      TrimDigits(w.gap, w.digits, []);
      assert ([p] + (w.gap + w.digits))[1..] == w.gap + w.digits;
    }
  }

  lemma ColonSplits(head: string, colon: char, page: string)
    requires Free(IsColon, head) && IsColon(colon)
    ensures var body := head + ([colon] + page);
      Find(IsColon, body) == |head| && body[..|head|] == head && body[|head| + 1..] == page
  {
    FindBehind(IsColon, head, [colon] + page);
  }

  lemma ParseAt(source: string -> string, page: string -> Option<int>, body: string, head: string, tail: string)
    requires Find(IsColon, body) == |head| < |body| && body[..|head|] == head && body[|head| + 1..] == tail
    ensures ParseHalves(source, page, body) == CitationOf(source(head), page(tail))
  {
  }

  lemma PageFits(digits: string)
    requires |digits| > 0 && Digits(digits) && Number(digits) <= MAX_I64
    ensures PageOf(digits) == Some(Number(digits))
  {
  }

  lemma ParseParts(head: string, colon: char, page: string, source: string, digits: string)
    requires Free(IsColon, head) && IsColon(colon) && Trim(head) == source && |source| > 0
    requires Trim(WithoutPrefix(Trim(page))) == digits && |digits| > 0 && Digits(digits) && Number(digits) <= MAX_I64
    ensures ParseBody(head + ([colon] + page)) == Some(Citation(source, Number(digits)))
  {
    PageFits(digits);
    ParseAround(head, colon, page, source, Number(digits));
  }

  lemma ParseAround(head: string, colon: char, page: string, source: string, number: int)
    requires Free(IsColon, head) && IsColon(colon) && Trim(head) == source && |source| > 0 && PagePart(page) == Some(number)
    ensures ParseBody(head + ([colon] + page)) == Some(Citation(source, number))
  {
    ColonSplits(head, colon, page);
    ParseAt(Trim, PagePart, head + ([colon] + page), head, page);
  }

  lemma BodyMeans(w: Written)
    requires ValidWritten(w)
    ensures ParseBody(Body(w)) == Some(Meant(w))
  {
    TrimSolid(w.before, w.source, w.after);
    PageIsDigits(w);
    ParseParts(Head(w), w.colon, Page(w), w.source, w.digits);
  }

  lemma BodyFree(w: Written)
    requires ValidWritten(w)
    ensures Free(IsClose, Body(w))
  {
    forall i | 0 <= i < |w.digits| ensures !IsClose(w.digits[i]) {
      assert IsDigit(w.digits[i]);
    }
    assert Free(IsClose, Head(w)) && Free(IsClose, w.digits + w.tail);
    assert Free(IsClose, w.gap + (w.digits + w.tail));
    assert Free(IsClose, w.prefix + (w.gap + (w.digits + w.tail)));
    assert Free(IsClose, [w.colon] + Page(w));
  }

  // Citations among texts, each text in front of its citation.
  function Rendered(pairs: seq<(string, Written)>, tail: string): string {
    if |pairs| == 0 then tail
    else pairs[0].0 + ([pairs[0].1.open] + (Body(pairs[0].1) + ([pairs[0].1.close] + Rendered(pairs[1..], tail))))
  }

  function AllMeant(pairs: seq<(string, Written)>): seq<Citation>
    requires forall i :: 0 <= i < |pairs| ==> ValidWritten(pairs[i].1)
  {
    if |pairs| == 0 then [] else [Meant(pairs[0].1)] + AllMeant(pairs[1..])
  }

  lemma ExtractFirst(text: string, open: char, body: string, close: char, rest: string)
    requires Free(IsOpen, text) && IsOpen(open) && Free(IsClose, body) && IsClose(close)
    ensures ExtractWith(ParseBody, text + ([open] + (body + ([close] + rest)))) == Optional(ParseBody(body)) + ExtractWith(ParseBody, rest)
  {
    var behind := body + ([close] + rest);
    var answer := text + ([open] + behind);
    FindBehind(IsOpen, text, [open] + behind);
    assert answer[|text| + 1..] == behind;
    FindBehind(IsClose, body, [close] + rest);
    assert behind[..|body|] == body && behind[|body| + 1..] == rest;
  }

  // Whatever stands between them, the citations written are the citations read.
  lemma {:induction false} RenderThenExtract(pairs: seq<(string, Written)>, tail: string)
    requires forall i :: 0 <= i < |pairs| ==> ValidWritten(pairs[i].1) && Free(IsOpen, pairs[i].0)
    requires Free(IsOpen, tail)
    ensures Extract(Rendered(pairs, tail)) == AllMeant(pairs)
  {
    if |pairs| > 0 {
      var text, w := pairs[0].0, pairs[0].1;
      RenderThenExtract(pairs[1..], tail);
      BodyMeans(w);
      BodyFree(w);
      ExtractFirst(text, w.open, Body(w), w.close, Rendered(pairs[1..], tail));
    }
  }

  // ----- Decimal pages -----

  function Decimal(n: nat): (s: string) {
    if n < 10 then ['0' + n as char] else Decimal(n / 10) + ['0' + (n % 10) as char]
  }

  // Every page has a digit string, and its value is the page.
  lemma {:induction false} DecimalNumber(n: nat)
    ensures |Decimal(n)| > 0 && Digits(Decimal(n)) && Number(Decimal(n)) == n
  {
    if n < 10 {
      assert DigitValue(Decimal(n)[0]) == Some(n);
      assert Decimal(n)[..0] == [];
    } else {
      DecimalNumber(n / 10);
      assert Decimal(n)[..|Decimal(n)| - 1] == Decimal(n / 10);
      assert DigitValue('0' + (n % 10) as char) == Some(n % 10);
    }
  }

  // ----- What can be cited at all -----

  // A trimmed source without a colon or closing bracket, and a page that fits.
  predicate Citable(c: Citation) {
    Solid(c.source) && Free(IsColon, c.source) && Free(IsClose, c.source) && 0 <= c.page <= MAX_I64
  }

  lemma {:induction false} TrimStartPart(s: string)
    ensures |TrimStart(s)| > 0 ==> !IsBlank(TrimStart(s)[0])
    ensures forall p: char -> bool :: Free(p, s) ==> Free(p, TrimStart(s))
  {
    if |s| > 0 && IsBlank(s[0]) {
      TrimStartPart(s[1..]);
      assert forall p: char -> bool :: Free(p, s) ==> Free(p, s[1..]);
    }
  }

  lemma {:induction false} TrimEndPart(s: string)
    ensures TrimEnd(s) <= s && (|TrimEnd(s)| > 0 ==> !IsBlank(TrimEnd(s)[|TrimEnd(s)| - 1]))
  {
    if |s| > 0 && IsBlank(s[|s| - 1]) {
      TrimEndPart(s[..|s| - 1]);
    }
  }

  lemma TrimmedSource(s: string)
    requires Free(IsColon, s) && Free(IsClose, s) && |Trim(s)| > 0
    ensures Solid(Trim(s)) && Free(IsColon, Trim(s)) && Free(IsClose, Trim(s))
  {
    TrimStartPart(s);
    TrimEndPart(TrimStart(s));
  }

  lemma PageCitable(s: string)
    ensures PagePart(s).Some? ==> 0 <= PagePart(s).value <= MAX_I64
  {
  }

  lemma BodyCitable(body: string)
    requires Free(IsClose, body) && ParseBody(body).Some?
    ensures Citable(ParseBody(body).value)
  {
    var colon := Find(IsColon, body);
    var head := body[..colon];
    assert Free(IsColon, head) && Free(IsClose, head);
    TrimmedSource(head);
    PageCitable(body[colon + 1..]);
  }

  ghost predicate CitesWell(parse: string -> Option<Citation>) {
    forall body: string :: Free(IsClose, body) && parse(body).Some? ==> Citable(parse(body).value)
  }

  lemma BracketedFree(answer: string)
    ensures Bracketed(answer).Some? ==> Free(IsClose, Bracketed(answer).value.0)
  {
  }

  lemma {:induction false} ExtractCitable(parse: string -> Option<Citation>, answer: string, k: nat)
    requires CitesWell(parse) && k < |ExtractWith(parse, answer)|
    ensures Citable(ExtractWith(parse, answer)[k])
    decreases |answer|
  {
    var (body, rest) := Bracketed(answer).value;
    BracketedFree(answer);
    if k >= |Optional(parse(body))| {
      ExtractCitable(parse, rest, k - |Optional(parse(body))|);
    }
  }

  // The plainest way to write a citation.
  function Plain(c: Citation): Written
    requires Citable(c)
  {
    Written('[', "", c.source, "", ':', "", "P", "", Decimal(c.page), "", ']')
  }

  lemma PlainMeans(c: Citation)
    requires Citable(c)
    ensures ValidWritten(Plain(c)) && Meant(Plain(c)) == c
  {
    DecimalNumber(c.page);
  }

  lemma AnswerCites(c: Citation) returns (answer: string)
    requires Citable(c)
    ensures c in Extract(answer)
  {
    PlainMeans(c);
    var pairs := [("", Plain(c))];
    RenderThenExtract(pairs, "");
    answer := Rendered(pairs, "");
    assert AllMeant(pairs)[0] == c;
  }

  // A citation is found in some answer exactly if it is citable, so that those are the ones
  // written and read back the same.
  lemma CitableExactly(c: Citation)
    ensures (exists answer: string :: c in Extract(answer)) <==> Citable(c)
  {
    if Citable(c) {
      var answer := AnswerCites(c);
    }
    forall answer: string | c in Extract(answer) ensures Citable(c) {
      var k :| 0 <= k < |Extract(answer)| && Extract(answer)[k] == c;
      ParseCitesWell();
      ExtractCitable(ParseBody, answer, k);
    }
  }

  lemma ParseCitesWell()
    ensures CitesWell(ParseBody)
  {
    forall body: string | Free(IsClose, body) && ParseBody(body).Some? ensures Citable(ParseBody(body).value) {
      BodyCitable(body);
    }
  }

  // ----- Retrieved documents -----

  // The page in a document's metadata, as Python hands it over.
  datatype PyPage = IntPage(value: int) | FloatPage(number: real) | NonFinite | TextPage(text: string) | NoPage

  datatype Meta = Meta(source: Option<string>, page: PyPage)

  function Truncated(value: real): int {
    if value >= 0.0 then value.Floor else -((-value).Floor)
  }

  // A float within the range of i64 as a float, whose upper end is one more than the last i64.
  function TruncateFloat(value: real): (page: Option<int>)
    ensures page.Some? <==> MIN_I64 <= Truncated(value) <= MAX_I64 + 1
    ensures page.Some? ==> MIN_I64 <= page.value <= MAX_I64 && (page.value == Truncated(value) || (page.value == MAX_I64 && Truncated(value) == MAX_I64 + 1))
  {
    var truncated := Truncated(value);
    if truncated < MIN_I64 || truncated > MAX_I64 + 1 then None
    else Some(if truncated > MAX_I64 then MAX_I64 else truncated)
  }

  // An integer below the range of i64 is tried as a float, and those next to it round to its end.
  function PageOfMeta(page: PyPage): Option<int> {
    match page
    case IntPage(value) => if MIN_I64 - 1024 <= value < MIN_I64 then Some(MIN_I64) else Checked(value)
    case FloatPage(value) => TruncateFloat(value)
    case NonFinite => None
    case TextPage(text) => SignedPageOf(Trim(text))
    case NoPage => None
  }

  type Registry = map<string, set<int>>

  predicate Registers(doc: Meta, source: string, page: int) {
    doc.source == Some(source) && |source| > 0 && PageOfMeta(doc.page) == Some(page)
  }

  predicate Registered(registry: Registry, c: Citation) {
    c.source in registry && c.page in registry[c.source]
  }

  ghost predicate HasPage(pages: set<int>) {
    exists page :: page in pages
  }

  // The pages that can be cited are exactly those of the documents with a usable source and
  // page.
  ghost predicate RegistryOf(registry: Registry, docs: seq<Meta>) {
    && (forall c: Citation :: Registered(registry, c) <==> exists i :: 0 <= i < |docs| && Registers(docs[i], c.source, c.page))
    && (forall source :: source in registry ==> HasPage(registry[source]))
  }

  method BuildAllowedRegistry(docs: seq<Meta>) returns (registry: Registry)
    ensures RegistryOf(registry, docs)
  {
    registry := map[];
    var i := 0;
    while i < |docs|
      invariant i <= |docs|
      invariant RegistryOf(registry, docs[..i])
    {
      var page := PageOfMeta(docs[i].page);
      if docs[i].source.Some? && |docs[i].source.value| > 0 && page.Some? {
        var source := docs[i].source.value;
        registry := registry[source := (if source in registry then registry[source] else {}) + {page.value}];
        assert Registers(docs[i], source, page.value) && page.value in registry[source];
      }
      assert docs[..i + 1] == docs[..i] + [docs[i]];
      i := i + 1;
    }
    assert docs[..i] == docs;
  }

  // ----- The verdict -----

  const FALLBACK := "在所提供的参考资料中未找到与该问题相关的内容"

  predicate HasFallback(answer: string) {
    exists i :: 0 <= i <= |answer| - |FALLBACK| && answer[i..][..|FALLBACK|] == FALLBACK
  }

  datatype Verdict = Verdict(valid: bool, missing: bool, badSources: seq<Citation>, badPages: seq<Citation>)

  // The citations that are not registered, of known sources or of unknown ones.
  function Failing(registry: Registry, citations: seq<Citation>, known: bool): seq<Citation> {
    if |citations| == 0 then []
    else
      var c := citations[|citations| - 1];
      Failing(registry, citations[..|citations| - 1], known)
      + if !Registered(registry, c) && (c.source in registry) == known then [c] else []
  }

  ghost predicate AllRegistered(registry: Registry, citations: seq<Citation>) {
    forall i :: 0 <= i < |citations| ==> Registered(registry, citations[i])
  }

  method CheckCitations(registry: Registry, citations: seq<Citation>) returns (badSources: seq<Citation>, badPages: seq<Citation>)
    ensures badSources == Failing(registry, citations, false) && badPages == Failing(registry, citations, true)
    ensures |badSources| == 0 && |badPages| == 0 <==> AllRegistered(registry, citations)
  {
    badSources, badPages := [], [];
    var i := 0;
    while i < |citations|
      invariant i <= |citations|
      invariant badSources == Failing(registry, citations[..i], false) && badPages == Failing(registry, citations[..i], true)
    {
      assert citations[..i + 1][..i] == citations[..i];
      if citations[i].source !in registry {
        badSources := badSources + [citations[i]];
      } else if citations[i].page !in registry[citations[i].source] {
        badPages := badPages + [citations[i]];
      }
      i := i + 1;
    }
    assert citations[..i] == citations;
    FailingNone(registry, citations);
  }

  lemma {:induction false} FailingNone(registry: Registry, citations: seq<Citation>)
    ensures |Failing(registry, citations, false)| == 0 && |Failing(registry, citations, true)| == 0
       <==> AllRegistered(registry, citations)
  {
    if |citations| > 0 {
      var front := citations[..|citations| - 1];
      FailingNone(registry, front);
      assert AllRegistered(registry, citations) <==> AllRegistered(registry, front) && Registered(registry, citations[|front|]);
    }
  }

  // Valid exactly for an empty answer, documents none of which can be cited, the fallback
  // sentence, or at least one citation with every citation registered; otherwise the failing
  // ones are listed in order.
  method ValidateCitations(answer: string, docs: seq<Meta>) returns (verdict: Verdict, ghost registry: Registry)
    ensures RegistryOf(registry, docs)
    ensures verdict.valid <==>
      || |answer| == 0 || NothingToCite(docs) || HasFallback(answer)
      || (|Extract(answer)| > 0 && AllRegistered(registry, Extract(answer)))
    ensures verdict.missing <==> |answer| > 0 && !NothingToCite(docs) && !HasFallback(answer) && |Extract(answer)| == 0
    ensures !verdict.valid && !verdict.missing ==>
      verdict.badSources == Failing(registry, Extract(answer), false)
      && verdict.badPages == Failing(registry, Extract(answer), true)
  {
    var allowed := BuildAllowedRegistry(docs);
    registry := allowed;
    if |answer| == 0 {
      return Verdict(true, false, [], []), registry;
    }
    EmptyRegistry(docs, allowed);
    if allowed == map[] || HasFallback(answer) {
      return Verdict(true, false, [], []), registry;
    }
    var citations := ExtractCitations(answer);
    if |citations| == 0 {
      return Verdict(false, true, [], []), registry;
    }
    var badSources, badPages := CheckCitations(allowed, citations);
    verdict := Verdict(|badSources| == 0 && |badPages| == 0, false, badSources, badPages);
  }

  ghost predicate NothingToCite(docs: seq<Meta>) {
    forall i, source, page :: 0 <= i < |docs| ==> !Registers(docs[i], source, page)
  }

  lemma EmptyRegistry(docs: seq<Meta>, registry: Registry)
    requires RegistryOf(registry, docs)
    ensures registry == map[] <==> NothingToCite(docs)
  {
    if registry != map[] {
      var source :| source in registry;
      assert HasPage(registry[source]);
      var page :| page in registry[source];
      assert Registered(registry, Citation(source, page));
    } else {
      forall i, source, page | 0 <= i < |docs| ensures !Registers(docs[i], source, page) {
        assert !Registered(registry, Citation(source, page));
      }
    }
  }
}
