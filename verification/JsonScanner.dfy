// _extract_json_object of src/cogdoc/agents/structured_output.py: the first JSON object in the
// output of a model. json.loads is a parameter that tells which texts parse to an object.
module JsonScanner {
  import opened Options
  import opened CitationText

  // ----- Braces outside strings -----

  datatype Scan = Scan(depth: int, inString: bool, escape: bool)

  const START := Scan(0, false, false)

  function Step(at: Scan, c: char): Scan {
    if at.inString then
      if at.escape then at.(escape := false)
      else if c == '\\' then at.(escape := true)
      else if c == '"' then at.(inString := false)
      else at
    else if c == '"' then at.(inString := true)
    else if c == '{' then at.(depth := at.depth + 1)
    else if c == '}' then at.(depth := at.depth - 1)
    else at
  }

  predicate Closes(at: Scan, c: char) {
    !at.inString && c == '}' && at.depth == 1
  }

  // Where, from i on, a closing brace first brings the depth to zero: the place behind it.
  function CloseAt(at: Scan, s: string, i: nat): (end: Option<nat>)
    requires i <= |s|
    ensures end.Some? ==> i < end.value <= |s|
    decreases |s| - i
  {
    if i == |s| then None
    else if Closes(at, s[i]) then Some(i + 1)
    else CloseAt(Step(at, s[i]), s, i + 1)
  }

  // The end of the object text that starts at i, or none.
  function ObjectAt(accepts: string -> bool, s: string, i: nat): (end: Option<nat>)
    requires i <= |s|
    ensures end.Some? ==> i < end.value <= |s| && s[i] == '{'
  {
    if i == |s| || s[i] != '{' then None
    else
      var end := CloseAt(START, s, i);
      if end.Some? && accepts(s[i..end.value]) then end else None
  }

  function FirstObject(accepts: string -> bool, s: string, i: nat): Option<string>
    requires i <= |s|
    decreases |s| - i
  {
    if i == |s| then None
    else
      var end := ObjectAt(accepts, s, i);
      if end.Some? then Some(s[i..end.value]) else FirstObject(accepts, s, i + 1)
  }

  // ----- A code fence around the text -----

  function Trim(s: string): string {
    TrimRight(TrimLeft(s))
  }

  function UntickLeft(s: string): string {
    if |s| > 0 && s[0] == '`' then UntickLeft(s[1..]) else s
  }

  function UntickRight(s: string): string {
    if |s| > 0 && Last(s) == '`' then UntickRight(Front(s)) else s
  }

  predicate StartsJson(s: string) {
    |s| >= 4 && Letter(s[0], 'j', 'J') && Letter(s[1], 's', 'S') && Letter(s[2], 'o', 'O') && Letter(s[3], 'n', 'N')
  }

  function Unfenced(text: string): string {
    var stripped := Trim(text);
    if |stripped| < 3 || stripped[..3] != "```" then stripped
    else
      var bare := UntickRight(UntickLeft(stripped));
      if StartsJson(bare) then Trim(bare[4..]) else bare
  }

  function Extract(accepts: string -> bool, text: string): Option<string> {
    FirstObject(accepts, Unfenced(text), 0)
  }

  // ----- The loops of the source -----

  method MatchBrace(s: string, start: nat) returns (end: Option<nat>)
    requires start <= |s|
    ensures end == CloseAt(START, s, start)
  {
    var at := START;
    var idx := start;
    while idx < |s|
      invariant start <= idx <= |s| && CloseAt(START, s, start) == CloseAt(at, s, idx)
    {
      if Closes(at, s[idx]) {
        return Some(idx + 1);
      }
      at := Step(at, s[idx]);
      idx := idx + 1;
    }
    end := None;
  }

  // None where the source raises ValueError.
  method ExtractJsonObject(accepts: string -> bool, text: string) returns (found: Option<string>)
    ensures found == Extract(accepts, text)
  {
    var stripped := Unfenced(text);
    var start := 0;
    while start < |stripped|
      invariant start <= |stripped|
      invariant FirstObject(accepts, stripped, 0) == FirstObject(accepts, stripped, start)
    {
      if stripped[start] == '{' {
        var end := MatchBrace(stripped, start);
        if end.Some? && accepts(stripped[start..end.value]) {
          return Some(stripped[start..end.value]);
        }
      }
      start := start + 1;
    }
    found := None;
  }

  // ----- What is found -----

  // The scanner behind s[i..k].
  function StateAt(s: string, i: nat, k: nat): Scan
    requires i <= k <= |s|
    decreases k
  {
    if k == i then START else Step(StateAt(s, i, k - 1), s[k - 1])
  }

  ghost predicate OpenUntil(s: string, i: nat, k: nat, end: nat)
    requires i <= k && end <= |s|
  {
    forall j :: k <= j < end ==> StateAt(s, i, j).depth > 0
  }

  predicate EndsAt(s: string, i: nat, end: nat)
    requires i < end <= |s|
  {
    StateAt(s, i, end).depth == 0 && s[end - 1] == '}' && !StateAt(s, i, end - 1).inString
  }

  // Between i and end the depth is positive, and the brace at its end, outside strings, brings
  // it to zero for the first time.
  ghost predicate Balanced(s: string, i: nat, end: nat) {
    i < end <= |s| && OpenUntil(s, i, i + 1, end) && EndsAt(s, i, end)
  }

  lemma OpenStep(s: string, i: nat, k: nat, end: nat)
    requires i <= k < end <= |s|
    ensures OpenUntil(s, i, k, end) <==> StateAt(s, i, k).depth > 0 && OpenUntil(s, i, k + 1, end)
  {
  }

  lemma {:induction false} CloseFrom(s: string, i: nat, k: nat, end: nat)
    requires i < k < end <= |s| && StateAt(s, i, k).depth > 0
    ensures CloseAt(StateAt(s, i, k), s, k) == Some(end) <==> EndsAt(s, i, end) && OpenUntil(s, i, k, end)
    decreases end - k
  {
    var at, next := StateAt(s, i, k), StateAt(s, i, k + 1);
    assert next == Step(at, s[k]);
    assert Closes(at, s[k]) <==> next.depth == 0;
    OpenStep(s, i, k, end);
    if k + 1 < end {
      OpenStep(s, i, k + 1, end);
      if next.depth > 0 {
        CloseFrom(s, i, k + 1, end);
      }
    }
  }

  // The text found from an opening brace on is the one whose depth first returns to zero at
  // its last character.
  lemma CloseExactly(s: string, i: nat, end: nat)
    requires i < |s| && s[i] == '{'
    ensures CloseAt(START, s, i) == Some(end) <==> Balanced(s, i, end)
  {
    var at := StateAt(s, i, i + 1);
    assert at == Step(StateAt(s, i, i), '{') == Scan(1, false, false);
    assert CloseAt(START, s, i) == CloseAt(at, s, i + 1);
    if i + 1 < end <= |s| {
      CloseFrom(s, i, i + 1, end);
    } else if end == i + 1 {
      assert !EndsAt(s, i, end);
    }
  }

  // What is found starts with a brace, is balanced and parses to an object, and nothing that
  // starts earlier does; nothing is found only if there is none.
  lemma {:induction false} FoundExactly(accepts: string -> bool, s: string, i: nat) returns (start: nat)
    requires i <= |s|
    ensures i <= start <= |s| && forall k :: i <= k < start ==> ObjectAt(accepts, s, k).None?
    ensures FirstObject(accepts, s, i).None? <==> start == |s|
    ensures start < |s| ==>
      ObjectAt(accepts, s, start).Some? && s[start] == '{' && Balanced(s, start, ObjectAt(accepts, s, start).value)
      && FirstObject(accepts, s, i) == Some(s[start..ObjectAt(accepts, s, start).value])
      && accepts(s[start..ObjectAt(accepts, s, start).value])
    decreases |s| - i
  {
    start := i;
    if i < |s| {
      if ObjectAt(accepts, s, i).Some? {
        CloseExactly(s, i, ObjectAt(accepts, s, i).value);
      } else {
        start := FoundExactly(accepts, s, i + 1);
      }
    }
  }

  // ----- Printed JSON -----

  // A string as in section 7 of RFC 8259, character by character.
  datatype StringChar = Unescaped(c: char) | Escaped(c: char) | UnicodeEscape(hex: string)

  // A value as in sections 2 to 7 of RFC 8259, with the white space between its tokens.
  datatype Json =
    | Scalar(text: string)
    | Text(chars: seq<StringChar>)
    | List(blank: string, items: seq<Item>)
    | Object(blank: string, members: seq<Member>)

  datatype Item = Item(before: string, value: Json, after: string)

  datatype Member = Member(before: string, key: seq<StringChar>, beforeColon: string, afterColon: string, value: Json, after: string)

  predicate Quiet(s: string) {
    forall i :: 0 <= i < |s| ==> s[i] != '"' && s[i] != '{' && s[i] != '}'
  }

  predicate ValidChar(c: StringChar) {
    match c
    case Unescaped(c) => c != '"' && c != '\\' && c >= ' '
    case Escaped(c) => c in "\"\\/bfnrt"
    case UnicodeEscape(hex) => |hex| == 4 && forall i :: 0 <= i < 4 ==> hex[i] in "0123456789abcdefABCDEF"
  }

  predicate ValidString(chars: seq<StringChar>) {
    forall i :: 0 <= i < |chars| ==> ValidChar(chars[i])
  }

  // Numbers and the three names have no quotes or braces, nor has white space.
  predicate ValidJson(v: Json) {
    match v
    case Scalar(text) => Quiet(text)
    case Text(chars) => ValidString(chars)
    case List(blank, items) => Quiet(blank) && forall i :: 0 <= i < |items| ==> ValidItem(items[i])
    case Object(blank, members) => Quiet(blank) && forall i :: 0 <= i < |members| ==> ValidMember(members[i])
  }

  predicate ValidItem(item: Item) {
    Quiet(item.before) && Quiet(item.after) && ValidJson(item.value)
  }

  predicate ValidMember(m: Member) {
    Quiet(m.before) && ValidString(m.key) && Quiet(m.beforeColon) && Quiet(m.afterColon) && Quiet(m.after) && ValidJson(m.value)
  }

  function PrintChar(c: StringChar): string {
    match c
    case Unescaped(c) => [c]
    case Escaped(c) => ['\\', c]
    case UnicodeEscape(hex) => ['\\', 'u'] + hex
  }

  function PrintChars(chars: seq<StringChar>): string {
    if |chars| == 0 then [] else PrintChar(chars[0]) + PrintChars(chars[1..])
  }

  function PrintString(chars: seq<StringChar>): string {
    ['"'] + PrintChars(chars) + ['"']
  }

  function Print(v: Json): string
    decreases v, 0
  {
    match v
    case Scalar(text) => text
    case Text(chars) => PrintString(chars)
    case List(blank, items) => ['['] + blank + PrintItems(items) + [']']
    case Object(blank, members) => ['{'] + (blank + PrintMembers(members)) + ['}']
  }

  function PrintItems(items: seq<Item>): string
    decreases items, 1
  {
    if |items| == 0 then []
    else items[0].before + Print(items[0].value) + items[0].after + (if |items| > 1 then [','] else []) + PrintItems(items[1..])
  }

  function PrintMembers(members: seq<Member>): string
    decreases members, 1
  {
    if |members| == 0 then []
    else PrintMember(members[0]) + (if |members| > 1 then [','] else []) + PrintMembers(members[1..])
  }

  function PrintMember(m: Member): string
    decreases m, 1
  {
    m.before + PrintString(m.key) + m.beforeColon + [':'] + m.afterColon + Print(m.value) + m.after
  }

  // ----- The scanner passes over printed values -----

  function Plus(n: nat, more: Option<nat>): Option<nat> {
    if more.Some? then Some(n + more.value) else None
  }

  // How far into s the object closes.
  function FirstClose(at: Scan, s: string): Option<nat>
    decreases |s|
  {
    if |s| == 0 then None
    else if Closes(at, s[0]) then Some(1)
    else Plus(1, FirstClose(Step(at, s[0]), s[1..]))
  }

  lemma FirstNext(at: Scan, s: string, i: nat)
    requires i < |s|
    ensures FirstClose(at, s[i..]) == if Closes(at, s[i]) then Some(1) else Plus(1, FirstClose(Step(at, s[i]), s[i + 1..]))
  {
    assert s[i..][1..] == s[i + 1..];
  }

  lemma {:induction false} CloseIsFirst(at: Scan, s: string, i: nat)
    requires i <= |s|
    ensures CloseAt(at, s, i) == Plus(i, FirstClose(at, s[i..]))
    decreases |s| - i
  {
    if i < |s| {
      FirstNext(at, s, i);
      CloseIsFirst(Step(at, s[i]), s, i + 1);
    }
  }

  // Whatever follows, reading x takes the scanner from a to b.
  ghost predicate Passes(f: (Scan, string) -> Option<nat>, x: string, a: Scan, b: Scan) {
    forall rest: string :: f(a, x + rest) == Plus(|x|, f(b, rest))
  }

  ghost predicate Steps(f: (Scan, string) -> Option<nat>) {
    forall a: Scan, c: char :: !Closes(a, c) ==> Passes(f, [c], a, Step(a, c))
  }

  lemma PassOne(f: (Scan, string) -> Option<nat>, c: char, a: Scan, b: Scan)
    requires Steps(f) && !Closes(a, c) && b == Step(a, c)
    ensures Passes(f, [c], a, b)
  {
  }

  lemma FirstCloseSteps()
    ensures Steps(FirstClose)
  {
    forall a: Scan, c: char | !Closes(a, c) ensures Passes(FirstClose, [c], a, Step(a, c)) {
      forall rest: string ensures FirstClose(a, [c] + rest) == Plus(1, FirstClose(Step(a, c), rest)) {
        assert ([c] + rest)[1..] == rest;
      }
    }
  }

  lemma PassNothing(f: (Scan, string) -> Option<nat>, a: Scan)
    ensures Passes(f, [], a, a)
  {
    forall rest: string ensures f(a, [] + rest) == Plus(0, f(a, rest)) {
      assert [] + rest == rest;
    }
  }

  lemma PassBoth(f: (Scan, string) -> Option<nat>, x: string, y: string, a: Scan, b: Scan, c: Scan)
    requires Passes(f, x, a, b) && Passes(f, y, b, c)
    ensures Passes(f, x + y, a, c)
  {
    forall rest: string ensures f(a, x + y + rest) == Plus(|x + y|, f(c, rest)) {
      assert x + y + rest == x + (y + rest);
      assert f(b, y + rest) == Plus(|y|, f(c, rest));
    }
  }

  // Outside strings, with the object still open.
  predicate Open(a: Scan) {
    !a.inString && !a.escape && a.depth >= 1
  }

  lemma {:induction false} PassQuiet(f: (Scan, string) -> Option<nat>, x: string, a: Scan)
    requires Steps(f) && Open(a) && Quiet(x)
    ensures Passes(f, x, a, a)
  {
    if |x| == 0 {
      PassNothing(f, a);
    } else {
      PassQuiet(f, x[1..], a);
      PassOne(f, x[0], a, a);
      PassBoth(f, [x[0]], x[1..], a, a, a);
      assert [x[0]] + x[1..] == x;
    }
  }

  lemma {:induction false} PassInside(f: (Scan, string) -> Option<nat>, x: string, a: Scan)
    requires Steps(f) && a.inString && !a.escape && forall i :: 0 <= i < |x| ==> x[i] != '"' && x[i] != '\\'
    ensures Passes(f, x, a, a)
  {
    if |x| == 0 {
      PassNothing(f, a);
    } else {
      PassInside(f, x[1..], a);
      PassOne(f, x[0], a, a);
      PassBoth(f, [x[0]], x[1..], a, a, a);
      assert [x[0]] + x[1..] == x;
    }
  }

  lemma PassEscape(f: (Scan, string) -> Option<nat>, c: char, a: Scan)
    requires Steps(f) && a.inString && !a.escape
    ensures Passes(f, ['\\', c], a, a)
  {
    var b := a.(escape := true);
    assert !Closes(a, '\\') && Step(a, '\\') == b;
    assert !Closes(b, c) && Step(b, c) == a;
    PassBoth(f, ['\\'], [c], a, b, a);
    assert ['\\'] + [c] == ['\\', c];
  }

  lemma PassChar(f: (Scan, string) -> Option<nat>, c: StringChar, a: Scan)
    requires Steps(f) && a.inString && !a.escape && ValidChar(c)
    ensures Passes(f, PrintChar(c), a, a)
  {
    match c
    case Unescaped(c) => PassInside(f, [c], a);
    case Escaped(c) => PassEscape(f, c, a);
    case UnicodeEscape(hex) =>
      PassEscape(f, 'u', a);
      HexInside(hex);
      PassInside(f, hex, a);
      PassBoth(f, ['\\', 'u'], hex, a, a, a);
  }

  lemma HexInside(hex: string)
    requires forall i :: 0 <= i < |hex| ==> hex[i] in "0123456789abcdefABCDEF"
    ensures forall i :: 0 <= i < |hex| ==> hex[i] != '"' && hex[i] != '\\'
  {
  }

  lemma {:induction false} PassChars(f: (Scan, string) -> Option<nat>, chars: seq<StringChar>, a: Scan)
    requires Steps(f) && a.inString && !a.escape && ValidString(chars)
    ensures Passes(f, PrintChars(chars), a, a)
  {
    if |chars| == 0 {
      PassNothing(f, a);
    } else {
      PassChar(f, chars[0], a);
      PassChars(f, chars[1..], a);
      PassBoth(f, PrintChar(chars[0]), PrintChars(chars[1..]), a, a, a);
    }
  }

  lemma PassString(f: (Scan, string) -> Option<nat>, chars: seq<StringChar>, a: Scan)
    requires Steps(f) && Open(a) && ValidString(chars)
    ensures Passes(f, PrintString(chars), a, a)
  {
    var b := a.(inString := true);
    assert !Closes(a, '"') && Step(a, '"') == b && !Closes(b, '"') && Step(b, '"') == a;
    PassChars(f, chars, b);
    PassBoth(f, ['"'], PrintChars(chars), a, b, b);
    PassBoth(f, ['"'] + PrintChars(chars), ['"'], a, b, a);
  }

  lemma {:induction false} PassJson(f: (Scan, string) -> Option<nat>, v: Json, a: Scan)
    requires Steps(f) && Open(a) && ValidJson(v)
    ensures Passes(f, Print(v), a, a)
    decreases v, 0
  {
    match v
    case Scalar(text) => PassQuiet(f, text, a);
    case Text(chars) => PassString(f, chars, a);
    case List(blank, items) =>
      PassQuiet(f, ['['] + blank, a);
      PassItems(f, items, a);
      PassBoth(f, ['['] + blank, PrintItems(items), a, a, a);
      PassQuiet(f, [']'], a);
      PassBoth(f, ['['] + blank + PrintItems(items), [']'], a, a, a);
    case Object(blank, members) =>
      var b := a.(depth := a.depth + 1);
      assert !Closes(a, '{') && Step(a, '{') == b && !Closes(b, '}') && Step(b, '}') == a;
      PassQuiet(f, blank, b);
      PassMembers(f, members, b);
      PassBoth(f, blank, PrintMembers(members), b, b, b);
      PassBoth(f, ['{'], blank + PrintMembers(members), a, b, b);
      PassBoth(f, ['{'] + (blank + PrintMembers(members)), ['}'], a, b, a);
  }

  lemma {:induction false} PassItems(f: (Scan, string) -> Option<nat>, items: seq<Item>, a: Scan)
    requires Steps(f) && Open(a) && forall i :: 0 <= i < |items| ==> ValidItem(items[i])
    ensures Passes(f, PrintItems(items), a, a)
    decreases items, 1
  {
    if |items| == 0 {
      PassNothing(f, a);
    } else {
      var item := items[0];
      var comma := if |items| > 1 then [','] else [];
      PassQuiet(f, item.before, a);
      PassJson(f, item.value, a);
      PassQuiet(f, item.after, a);
      PassQuiet(f, comma, a);
      PassItems(f, items[1..], a);
      PassBoth(f, item.before, Print(item.value), a, a, a);
      PassBoth(f, item.before + Print(item.value), item.after, a, a, a);
      PassBoth(f, item.before + Print(item.value) + item.after, comma, a, a, a);
      PassBoth(f, item.before + Print(item.value) + item.after + comma, PrintItems(items[1..]), a, a, a);
    }
  }

  lemma {:induction false} PassMembers(f: (Scan, string) -> Option<nat>, members: seq<Member>, a: Scan)
    requires Steps(f) && Open(a) && forall i :: 0 <= i < |members| ==> ValidMember(members[i])
    ensures Passes(f, PrintMembers(members), a, a)
    decreases members, 1
  {
    if |members| == 0 {
      PassNothing(f, a);
    } else {
      var comma := if |members| > 1 then [','] else [];
      PassMember(f, members[0], a);
      PassQuiet(f, comma, a);
      PassMembers(f, members[1..], a);
      PassBoth(f, PrintMember(members[0]), comma, a, a, a);
      PassBoth(f, PrintMember(members[0]) + comma, PrintMembers(members[1..]), a, a, a);
    }
  }

  lemma PassMember(f: (Scan, string) -> Option<nat>, m: Member, a: Scan)
    requires Steps(f) && Open(a) && ValidMember(m)
    ensures Passes(f, PrintMember(m), a, a)
    decreases m, 1
  {
    PassQuiet(f, m.before, a);
    PassString(f, m.key, a);
    PassBoth(f, m.before, PrintString(m.key), a, a, a);
    PassQuiet(f, m.beforeColon, a);
    PassBoth(f, m.before + PrintString(m.key), m.beforeColon, a, a, a);
    PassQuiet(f, [':'], a);
    PassBoth(f, m.before + PrintString(m.key) + m.beforeColon, [':'], a, a, a);
    PassQuiet(f, m.afterColon, a);
    PassBoth(f, m.before + PrintString(m.key) + m.beforeColon + [':'], m.afterColon, a, a, a);
    PassJson(f, m.value, a);
    PassBoth(f, m.before + PrintString(m.key) + m.beforeColon + [':'] + m.afterColon, Print(m.value), a, a, a);
    PassQuiet(f, m.after, a);
    PassBoth(f, m.before + PrintString(m.key) + m.beforeColon + [':'] + m.afterColon + Print(m.value), m.after, a, a, a);
  }

  // ----- Main result -----

  lemma PassOpened(f: (Scan, string) -> Option<nat>, v: Json, a: Scan)
    requires Steps(f) && v.Object? && ValidJson(v) && a == Scan(1, false, false)
    ensures Passes(f, ['{'] + (v.blank + PrintMembers(v.members)), START, a)
  {
    PassQuiet(f, v.blank, a);
    PassMembers(f, v.members, a);
    PassBoth(f, v.blank, PrintMembers(v.members), a, a, a);
    PassOne(f, '{', START, a);
    PassBoth(f, ['{'], v.blank + PrintMembers(v.members), START, a, a);
  }

  lemma CloseBrace(rest: string)
    ensures FirstClose(Scan(1, false, false), ['}'] + rest) == Some(1)
  {
  }

  lemma CloseBehind(f: (Scan, string) -> Option<nat>, x: string, rest: string, a: Scan)
    requires Passes(f, x, START, a) && f(a, ['}'] + rest) == Some(1)
    ensures f(START, x + ['}'] + rest) == Some(|x| + 1)
  {
    assert x + ['}'] + rest == x + (['}'] + rest);
  }

  // The scanner closes an object exactly at the end of its printed text.
  lemma ClosesObject(v: Json, rest: string)
    requires v.Object? && ValidJson(v)
    ensures FirstClose(START, Print(v) + rest) == Some(|Print(v)|)
  {
    var a := Scan(1, false, false);
    FirstCloseSteps();
    PassOpened(FirstClose, v, a);
    CloseBrace(rest);
    CloseBehind(FirstClose, ['{'] + (v.blank + PrintMembers(v.members)), rest, a);
  }

  lemma {:induction false} SkipPrefix(accepts: string -> bool, s: string, i: nat, k: nat)
    requires i <= k <= |s| && forall j :: i <= j < k ==> s[j] != '{'
    ensures FirstObject(accepts, s, i) == FirstObject(accepts, s, k)
    decreases k - i
  {
    if i < k {
      SkipPrefix(accepts, s, i + 1, k);
    }
  }

  predicate BraceFree(s: string) {
    forall i :: 0 <= i < |s| ==> s[i] != '{'
  }

  lemma FindsObject(accepts: string -> bool, prefix: string, v: Json, suffix: string)
    requires v.Object? && ValidJson(v) && accepts(Print(v)) && BraceFree(prefix)
    ensures FirstObject(accepts, prefix + Print(v) + suffix, 0) == Some(Print(v))
  {
    var s, i, end := prefix + Print(v) + suffix, |prefix|, |prefix + Print(v)|;
    SkipPrefix(accepts, s, 0, i);
    ClosesObject(v, suffix);
    CloseIsFirst(START, s, i);
    assert s[i..] == Print(v) + suffix && s[i..end] == Print(v);
  }

  // ----- What is stripped before -----

  lemma {:induction false} TrimBraceFree(s: string)
    requires BraceFree(s)
    ensures BraceFree(TrimLeft(s))
  {
    if |s| > 0 && IsSpace(s[0]) {
      TrimBraceFree(s[1..]);
    }
  }

  lemma {:induction false} UntickLeftOf(prefix: string, s: string)
    requires |s| > 0 && s[0] != '`' && BraceFree(prefix)
    ensures UntickLeft(prefix + s) == UntickLeft(prefix) + s && BraceFree(UntickLeft(prefix))
  {
    if |prefix| == 0 {
      assert prefix + s == s;
    } else if prefix[0] == '`' {
      assert (prefix + s)[1..] == prefix[1..] + s;
      UntickLeftOf(prefix[1..], s);
    }
  }

  lemma {:induction false} UntickRightOf(s: string, suffix: string)
    requires |s| > 0 && Last(s) != '`'
    ensures UntickRight(s + suffix) == s + UntickRight(suffix)
  {
    if |suffix| == 0 {
      assert s + suffix == s;
    } else {
      assert Front(s + suffix) == s + Front(suffix);
      UntickRightOf(s, Front(suffix));
    }
  }

  // A text that stays whole when spaces or ticks are stripped off both ends.
  predicate Solid(s: string) {
    |s| > 0 && s[0] == '{' && Last(s) == '}'
  }

  lemma TrimAround(prefix: string, s: string, suffix: string) returns (p: string, q: string)
    requires Solid(s) && BraceFree(prefix)
    ensures Trim(prefix + s + suffix) == p + s + q && BraceFree(p)
  {
    p, q := TrimLeft(prefix), TrimRight(suffix);
    assert prefix + s + suffix == prefix + (s + suffix);
    TrimLeftOf(prefix, s + suffix);
    TrimBraceFree(prefix);
    assert p + (s + suffix) == p + s + suffix && Last(p + s) == '}';
    TrimRightOf(p + s, suffix);
  }

  lemma UntickAround(prefix: string, s: string, suffix: string) returns (p: string, q: string)
    requires Solid(s) && BraceFree(prefix)
    ensures UntickRight(UntickLeft(prefix + s + suffix)) == p + s + q && BraceFree(p)
  {
    p, q := UntickLeft(prefix), UntickRight(suffix);
    assert prefix + s + suffix == prefix + (s + suffix);
    UntickLeftOf(prefix, s + suffix);
    assert p + (s + suffix) == p + s + suffix && Last(p + s) == '}';
    UntickRightOf(p + s, suffix);
  }

  lemma UnfencedAround(prefix: string, s: string, suffix: string) returns (p: string, q: string)
    requires Solid(s) && BraceFree(prefix)
    ensures Unfenced(prefix + s + suffix) == p + s + q && BraceFree(p)
  {
    p, q := TrimAround(prefix, s, suffix);
    var stripped := p + s + q;
    if |stripped| >= 3 && stripped[..3] == "```" {
      p, q := UntickAround(p, s, q);
      var bare := p + s + q;
      if StartsJson(bare) {
        assert bare[|p|] == '{';
        assert bare[4..] == p[4..] + s + q;
        p, q := TrimAround(p[4..], s, q);
      }
    }
  }

  // An object printed in any way section 4 to 7 of RFC 8259 allow, behind any text without an
  // opening brace (a code fence too) and in front of any text, is found as it was printed.
  lemma PrintedObjectFound(accepts: string -> bool, prefix: string, v: Json, suffix: string)
    requires v.Object? && ValidJson(v) && accepts(Print(v)) && BraceFree(prefix)
    ensures Extract(accepts, prefix + Print(v) + suffix) == Some(Print(v))
  {
    assert Solid(Print(v));
    var p, q := UnfencedAround(prefix, Print(v), suffix);
    FindsObject(accepts, p, v, q);
  }
}
