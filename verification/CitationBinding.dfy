// attach_section_citations of src/cogdoc/agents/summary_generator.py: every sentence of a section
// that states something gets the section's evidence tags.
module CitationBinding {
  import opened CitationText

  predicate ValidId(id: string) {
    |id| >= 4 && id[0] == 'E' && forall i :: 1 <= i < |id| ==> AsciiDigit(id[i])
  }

  predicate ValidIds(ids: seq<string>) {
    forall i :: 0 <= i < |ids| ==> ValidId(ids[i])
  }

  function Tag(id: string): string {
    ['['] + id + [']']
  }

  // build_section_citations
  function TagBlock(ids: seq<string>): string {
    if |ids| == 0 then [] else Tag(ids[0]) + TagBlock(ids[1..])
  }

  function Normalized(sentence: string): string {
    StripTags(StripCitations(sentence))
  }

  function BindSentence(sentence: string, tags: string): string {
    var text := Normalized(sentence);
    if NoEvidence(sentence) || !Factual(text) then text
    else text[..InsertionIndex(text)] + tags + text[InsertionIndex(text)..]
  }

  // The end of the piece that runs at index: behind the next stop.
  function PieceEnd(stop: nat -> bool, size: nat, index: nat): (end: nat)
    requires index <= size
    ensures index <= end <= size
    ensures index < size ==> index < end
    decreases size - index
  {
    if index == size then index
    else if stop(index) then index + 1
    else PieceEnd(stop, size, index + 1)
  }

  // The line from start on, each piece up to a stop changed by bind.
  function BindPieces(stop: nat -> bool, bind: string -> string, line: string, start: nat): string
    requires start <= |line|
    decreases |line| - start
  {
    if start == |line| then []
    else
      var end := PieceEnd(stop, |line|, start);
      bind(line[start..end]) + BindPieces(stop, bind, line, end)
  }

  function Stop(digit: char -> bool, line: string): nat -> bool {
    (i: nat) => i < |line| && SentenceTerminator(digit, line, i)
  }

  function Binder(tags: string): string -> string {
    (sentence: string) => BindSentence(sentence, tags)
  }

  function BindLine(digit: char -> bool, line: string, tags: string): string {
    BindPieces(Stop(digit, line), Binder(tags), line, 0)
  }

  // ----- Lines -----

  // Where str.splitlines breaks.
  predicate IsBreak(c: char) {
    '\n' <= c <= '\r' || '\U{1C}' <= c <= '\U{1E}' || c == '\U{85}' || c == '\U{2028}' || c == '\U{2029}'
  }

  // The length of the first line of s with its line break.
  function LineLength(s: string): (n: nat)
    requires |s| > 0
    ensures 0 < n <= |s|
  {
    if s[0] == '\r' && |s| > 1 && s[1] == '\n' then 2
    else if IsBreak(s[0]) || |s| == 1 then 1
    else 1 + LineLength(s[1..])
  }

  function SplitLines(s: string): seq<string> {
    if |s| == 0 then [] else [s[..LineLength(s)]] + SplitLines(s[LineLength(s)..])
  }

  // The length of the \r\n, \r or \n that ends a line.
  function EndingLength(line: string): (n: nat)
    ensures n <= |line|
  {
    if |line| > 1 && line[|line| - 2] == '\r' && Last(line) == '\n' then 2
    else if |line| > 0 && (Last(line) == '\r' || Last(line) == '\n') then 1
    else 0
  }

  function Body(line: string): string {
    line[..|line| - EndingLength(line)]
  }

  function LineEnding(line: string): string {
    line[|line| - EndingLength(line)..]
  }

  predicate IsFence(body: string) {
    var s := TrimLeft(body);
    |s| > 2 && s[0] == s[1] == s[2] && (s[0] == '`' || s[0] == '~')
  }

  // Lines of a fenced block, fences included, stay as they are.
  function AttachLines(bind: string -> string, lines: seq<string>, inFence: bool): string {
    if |lines| == 0 then []
    else if inFence || IsFence(Body(lines[0])) then
      lines[0] + AttachLines(bind, lines[1..], if IsFence(Body(lines[0])) then !inFence else inFence)
    else
      bind(Body(lines[0])) + LineEnding(lines[0]) + AttachLines(bind, lines[1..], inFence)
  }

  function LineBinder(digit: char -> bool, tags: string): string -> string {
    (line: string) => BindLine(digit, line, tags)
  }

  function Attach(digit: char -> bool, content: string, ids: seq<string>): string {
    if |TrimLeft(content)| == 0 || |ids| == 0 then content
    else AttachLines(LineBinder(digit, TagBlock(ids)), SplitLines(content), false)
  }

  // ----- The loops of the source -----

  method CitationInsertionIndex(sentence: string) returns (insertion: nat)
    ensures insertion == InsertionIndex(sentence) <= |sentence|
  {
    var end: nat := |sentence|;
    assert sentence[..end] == sentence;
    while end > 0 && IsSpace(sentence[end - 1])
      invariant end <= |sentence| && TrimRight(sentence) == TrimRight(sentence[..end])
    {
      assert Front(sentence[..end]) == sentence[..end - 1];
      end := end - 1;
    }
    assert TrimRight(sentence) == sentence[..end];
    insertion := end;
    if insertion > 0 && (IsTerminator(sentence[insertion - 1]) || sentence[insertion - 1] == '.') {
      insertion := insertion - 1;
    }
    DropTerminatorAt(sentence, end, insertion);
    insertion := DropClosersLoop(sentence, insertion);
  }

  lemma DropTerminatorAt(s: string, end: nat, insertion: nat)
    requires end <= |s|
    requires insertion == if end > 0 && (IsTerminator(s[end - 1]) || s[end - 1] == '.') then end - 1 else end
    ensures DropTerminator(s[..end]) == s[..insertion]
  {
    if insertion < end {
      assert Front(s[..end]) == s[..insertion];
    }
  }

  method DropClosersLoop(sentence: string, start: nat) returns (insertion: nat)
    requires start <= |sentence|
    ensures insertion == |DropClosers(sentence[..start])| <= |sentence|
  {
    insertion := start;
    var closer := CloserLengthBack(sentence[..insertion]);
    while closer > 0
      invariant insertion <= |sentence| && closer == CloserLengthBack(sentence[..insertion])
      invariant DropClosers(sentence[..start]) == DropClosers(sentence[..insertion])
      decreases insertion
    {
      assert sentence[..insertion][..insertion - closer] == sentence[..insertion - closer];
      insertion := insertion - closer;
      closer := CloserLengthBack(sentence[..insertion]);
    }
  }

  method BindSentenceCitations(sentence: string, tags: string) returns (bound: string)
    ensures bound == BindSentence(sentence, tags)
  {
    var text := StripTags(StripCitations(sentence));
    if NoEvidence(sentence) || !Factual(text) {
      return text;
    }
    var insertion := CitationInsertionIndex(text);
    bound := text[..insertion] + tags + text[insertion..];
  }

  method BindEach(stop: nat -> bool, bind: string -> string, line: string) returns (bound: string)
    requires bind([]) == []
    ensures bound == BindPieces(stop, bind, line, 0)
  {
    bound := [];
    var start := 0;
    var index := 0;
    while index < |line|
      invariant start <= index <= |line|
      invariant PieceEnd(stop, |line|, start) == PieceEnd(stop, |line|, index)
      invariant BindPieces(stop, bind, line, 0) == bound + BindPieces(stop, bind, line, start)
    {
      if stop(index) {
        bound := bound + bind(line[start..index + 1]);
        start := index + 1;
      }
      index := index + 1;
    }
    assert line[start..|line|] == line[start..];
    bound := bound + bind(line[start..]);
  }

  method BindLineCitations(digit: char -> bool, line: string, tags: string) returns (bound: string)
    ensures bound == BindLine(digit, line, tags)
  {
    bound := BindEach(Stop(digit, line), Binder(tags), line);
  }

  method AttachEach(bind: string -> string, lines: seq<string>) returns (result: string)
    ensures result == AttachLines(bind, lines, false)
  {
    result := [];
    var inFence := false;
    var i := 0;
    while i < |lines|
      invariant i <= |lines|
      invariant AttachLines(bind, lines, false) == result + AttachLines(bind, lines[i..], inFence)
    {
      var line := lines[i];
      assert lines[i..][0] == line && lines[i..][1..] == lines[i + 1..];
      var isFence := IsFence(Body(line));
      if inFence || isFence {
        result := result + line;
        if isFence {
          inFence := !inFence;
        }
      } else {
        result := result + (bind(Body(line)) + LineEnding(line));
      }
      i := i + 1;
    }
  }

  method AttachSectionCitations(digit: char -> bool, content: string, ids: seq<string>) returns (result: string)
    ensures result == Attach(digit, content, ids)
  {
    if |TrimLeft(content)| == 0 || |ids| == 0 {
      return content;
    }
    result := AttachEach(LineBinder(digit, TagBlock(ids)), SplitLines(content));
  }
}
