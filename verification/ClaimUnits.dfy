// _candidate_fragments and extract_claim_units of src/cogdoc/agents/claim_evidence_verifier.py:
// how an answer is cut into the claims that are audited one by one. decimal is the class \d.
module ClaimUnits {
  import opened CitationText
  import opened CitationBinding
  import ClaimBatches

  function Trim(s: string): string {
    TrimRight(TrimLeft(s))
  }

  // ----- References -----

  function BehindClose(s: string): string {
    var e := SkipWhile(IsSpace, s);
    if |e| > 0 && Close(e[0]) then e[1..] else s
  }

  // The length of the reference [knowledge:id] s starts with, or 0.
  function KnowledgeLength(s: string): (n: nat)
    ensures n <= |s|
  {
    if |s| == 0 || (s[0] != '[' && s[0] != '［') then 0
    else
      var word := SkipWhile(IsSpace, s[1..]);
      if |word| < 9 || !IsKnowledge(word[..9]) then 0
      else
        var colon := SkipWhile(IsSpace, word[9..]);
        if |colon| == 0 || !Colon(colon[0]) then 0
        else
          var id := SkipWhile(IsSpace, colon[1..]);
          var rest := SkipWhile(c => !Close(c) && !IsSpace(c), id);
          if |rest| == |id| || |BehindClose(rest)| == |rest| then 0 else |s| - |BehindClose(rest)|
  }

  predicate IsKnowledge(w: string)
    requires |w| == 9
  {
    (Letter(w[0], 'k', 'K') || w[0] == '\U{212A}') && Letter(w[1], 'n', 'N') && Letter(w[2], 'o', 'O') && Letter(w[3], 'w', 'W')
    && Letter(w[4], 'l', 'L') && Letter(w[5], 'e', 'E') && Letter(w[6], 'd', 'D') && Letter(w[7], 'g', 'G') && Letter(w[8], 'e', 'E')
  }

  // The length of the reference [source:Pn] s starts with, or 0.
  function DocumentLength(decimal: char -> bool, s: string): (n: nat)
    ensures n <= |s|
  {
    if |s| == 0 || (s[0] != '[' && s[0] != '［') then 0
    else
      var colon := SkipWhile(c => !Colon(c) && !Close(c), s[1..]);
      if |colon| == 0 || !Colon(colon[0]) || |colon| == |s| - 1 then 0
      else
        var p := SkipWhile(IsSpace, colon[1..]);
        if |p| == 0 || !Letter(p[0], 'p', 'P') then 0
        else
          var digits := SkipWhile(IsSpace, p[1..]);
          var rest := SkipWhile(decimal, digits);
          if |rest| == |digits| || |BehindClose(rest)| == |rest| then 0 else |s| - |BehindClose(rest)|
  }

  // A document reference whose source reads knowledge is not counted as one.
  predicate NamesKnowledge(s: string)
    requires |s| > 0
  {
    var source := Trim(s[1..|s| - |SkipWhile(c => !Colon(c) && !Close(c), s[1..])|]);
    |source| == 9 && IsKnowledge(source)
  }

  function SourceLength(decimal: char -> bool, s: string): nat {
    if DocumentLength(decimal, s) > 0 && !NamesKnowledge(s) then DocumentLength(decimal, s) else 0
  }

  // re.sub with an empty replacement, for a pattern given by the length of its match.
  function Strip(match': string -> nat, s: string): string
    decreases |s|
  {
    if |s| == 0 then []
    else
      var n := match'(s);
      if 0 < n <= |s| then Strip(match', s[n..]) else [s[0]] + Strip(match', s[1..])
  }

  predicate Finds(match': string -> nat, s: string) {
    exists i :: 0 <= i < |s| && match'(s[i..]) > 0
  }

  // The length of the canonical evidence tag s starts with, or 0.
  function EvidenceLength(s: string): nat {
    if TagLength(s) > 2 && ClaimBatches.IsEvidenceId(s[1..TagLength(s) - 1]) then TagLength(s) else 0
  }

  predicate HasReference(decimal: char -> bool, s: string) {
    Finds(EvidenceLength, s) || Finds(KnowledgeLength, s) || Finds(t => SourceLength(decimal, t), s)
  }

  function WithoutReferences(decimal: char -> bool, s: string): string {
    StripTags(Strip((t: string) => DocumentLength(decimal, t), Strip(KnowledgeLength, s)))
  }

  predicate IsFiller(c: char) {
    IsSpace(c) || IsTerminator(c) || c == ',' || c == '.' || c == '，' || c == '、' || Colon(c)
  }

  // References and nothing else but punctuation.
  predicate CitationOnly(decimal: char -> bool, s: string) {
    HasReference(decimal, s) && All(IsFiller, WithoutReferences(decimal, s))
  }

  // ----- One line -----

  predicate IsFenceWord(c: char) {
    'A' <= c <= 'Z' || 'a' <= c <= 'z' || '0' <= c <= '9' || c == '_' || c == '.' || c == '+' || c == '-'
  }

  predicate FenceLine(line: string) {
    |line| > 2 && line[0] == line[1] == line[2] && (line[0] == '`' || line[0] == '~') && All(IsFenceWord, line[3..])
  }

  function DropHashes(s: string, n: nat): string {
    if n > 0 && |s| > 0 && s[0] == '#' then DropHashes(s[1..], n - 1) else s
  }

  function DropHeading(line: string): string {
    if |line| > 0 && line[0] == '#' then Trim(TrimLeft(DropHashes(line, 6))) else line
  }

  predicate IsBullet(c: char) {
    c == '-' || c == '*' || c == '+'
  }

  predicate EndsNumber(c: char) {
    c == '.' || c == ')' || c == '、'
  }

  function DropListPrefix(decimal: char -> bool, s: string): string {
    var t := TrimLeft(s);
    if |t| > 1 && IsBullet(t[0]) && IsSpace(t[1]) then TrimLeft(t[1..])
    else
      var d := SkipWhile(decimal, t);
      if 0 < |d| < |t| && EndsNumber(d[0]) then TrimLeft(d[1..]) else s
  }

  // The text cut behind each sentence terminator.
  function CutAtTerminators(s: string): seq<string>
    decreases |s|
  {
    var k := FirstTerminator(s);
    if k == |s| then [s] else [s[..k + 1]] + CutAtTerminators(s[k + 1..])
  }

  function FirstTerminator(s: string): (k: nat)
    ensures k <= |s| && (k < |s| ==> IsTerminator(s[k]))
    ensures forall i :: 0 <= i < k ==> !IsTerminator(s[i])
  {
    if |s| == 0 || IsTerminator(s[0]) then 0 else 1 + FirstTerminator(s[1..])
  }

  // The pieces stripped, without the empty ones.
  function Stripped(pieces: seq<string>): seq<string> {
    if |pieces| == 0 then []
    else (if |Trim(pieces[0])| > 0 then [Trim(pieces[0])] else []) + Stripped(pieces[1..])
  }

  function CutAtBars(s: string): seq<string>
    decreases |s|
  {
    var rest := SkipWhile(c => c != '|', s);
    if |rest| == 0 then [s] else [s[..|s| - |rest|]] + CutAtBars(rest[1..])
  }

  function StripBars(s: string): string
    decreases |s|
  {
    if |s| > 0 && s[0] == '|' then StripBars(s[1..])
    else if |s| > 0 && Last(s) == '|' then StripBars(Front(s))
    else s
  }

  // An empty cell, or dashes with a colon or none at either end.
  predicate SeparatorCell(cell: string) {
    var s := Trim(cell);
    var a := if |s| > 0 && s[0] == ':' then s[1..] else s;
    var b := if |a| > 0 && Last(a) == ':' then Front(a) else a;
    |s| == 0 || (|b| > 2 && All(c => c == '-', b))
  }

  predicate IsTable(line: string) {
    |line| > 0 && line[0] == '|' && Last(line) == '|'
  }

  function Pieces(decimal: char -> bool, rawLine: string): seq<string> {
    var line := DropHeading(Trim(rawLine));
    if FenceLine(Trim(rawLine)) || |line| == 0 then []
    else if IsTable(line) then
      var cells := CutAtBars(StripBars(line));
      if forall i :: 0 <= i < |cells| ==> SeparatorCell(cells[i]) then [] else Stripped(cells)
    else Stripped(CutAtTerminators(Trim(DropListPrefix(decimal, line))))
  }

  // ----- All lines -----

  // A citation that stands alone goes to the fragment before it.
  function Appended(decimal: char -> bool, fragments: seq<string>, fragment: string): seq<string> {
    if CitationOnly(decimal, fragment) && |fragments| > 0
    then fragments[|fragments| - 1 := fragments[|fragments| - 1] + fragment]
    else fragments + [fragment]
  }

  function AppendedAll(decimal: char -> bool, fragments: seq<string>, pieces: seq<string>): seq<string>
    decreases |pieces|
  {
    if |pieces| == 0 then fragments else AppendedAll(decimal, Appended(decimal, fragments, pieces[0]), pieces[1..])
  }

  function Fragments(decimal: char -> bool, fragments: seq<string>, lines: seq<string>): seq<string>
    decreases |lines|
  {
    if |lines| == 0 then fragments
    else Fragments(decimal, AppendedAll(decimal, fragments, Pieces(decimal, lines[0])), lines[1..])
  }

  method CandidateFragments(decimal: char -> bool, answer: string) returns (fragments: seq<string>)
    ensures fragments == Fragments(decimal, [], SplitLines(answer))
  {
    var lines := SplitLines(answer);
    fragments := [];
    var i := 0;
    while i < |lines|
      invariant i <= |lines|
      invariant Fragments(decimal, [], lines) == Fragments(decimal, fragments, lines[i..])
    {
      assert lines[i..][0] == lines[i] && lines[i..][1..] == lines[i + 1..];
      fragments := AppendPieces(decimal, fragments, Pieces(decimal, lines[i]));
      i := i + 1;
    }
  }

  method AppendPieces(decimal: char -> bool, before: seq<string>, pieces: seq<string>) returns (fragments: seq<string>)
    ensures fragments == AppendedAll(decimal, before, pieces)
  {
    fragments := before;
    var i := 0;
    while i < |pieces|
      invariant i <= |pieces|
      invariant AppendedAll(decimal, before, pieces) == AppendedAll(decimal, fragments, pieces[i..])
    {
      assert pieces[i..][0] == pieces[i] && pieces[i..][1..] == pieces[i + 1..];
      fragments := Appended(decimal, fragments, pieces[i]);
      i := i + 1;
    }
  }

  const NO_RELEVANT_CONTENT := "在所提供的参考资料中未找到与该问题相关的内容"

  // Runs of white space as one space, none at the ends.
  function Compact(s: string): string {
    OneSpaced(Trim(s))
  }

  function OneSpaced(s: string): string {
    if |s| == 0 then []
    else if !IsSpace(s[0]) then [s[0]] + OneSpaced(s[1..])
    else if |s| > 1 && IsSpace(s[1]) then OneSpaced(s[1..])
    else [' '] + OneSpaced(s[1..])
  }

  predicate Claims(fragment: string) {
    |Compact(fragment)| > 0 && Compact(fragment) != NO_RELEVANT_CONTENT
  }

  function Auditable(claims: string -> bool, fragments: seq<string>): seq<string> {
    if |fragments| == 0 then []
    else
      Auditable(claims, fragments[..|fragments| - 1])
      + if claims(fragments[|fragments| - 1]) then [fragments[|fragments| - 1]] else []
  }

  method TakeClaims(claims: string -> bool, fragments: seq<string>, maxClaims: nat) returns (units: seq<string>)
    requires maxClaims > 0
    ensures var all := Auditable(claims, fragments);
      units == if |all| < maxClaims then all else all[..maxClaims]
  {
    units := [];
    var i := 0;
    while i < |fragments|
      invariant i <= |fragments| && units == Auditable(claims, fragments[..i]) && |units| < maxClaims
    {
      assert fragments[..i + 1][..i] == fragments[..i];
      if claims(fragments[i]) {
        units := units + [fragments[i]];
        if |units| >= maxClaims {
          AuditablePrefix(claims, fragments, i + 1);
          return;
        }
      }
      i := i + 1;
    }
    assert fragments[..i] == fragments;
  }

  // The texts of the first claims; claim k has the id c(k + 1).
  method ExtractClaimUnits(decimal: char -> bool, answer: string, maxClaims: nat) returns (units: seq<string>)
    requires maxClaims > 0
    ensures var all := Auditable(Claims, Fragments(decimal, [], SplitLines(answer)));
      units == if |all| < maxClaims then all else all[..maxClaims]
  {
    var fragments := CandidateFragments(decimal, answer);
    units := TakeClaims(Claims, fragments, maxClaims);
  }

  lemma {:induction false} AuditablePrefix(claims: string -> bool, fragments: seq<string>, n: nat)
    requires n <= |fragments|
    ensures Auditable(claims, fragments[..n]) <= Auditable(claims, fragments)
  {
    if n < |fragments| {
      assert fragments[..|fragments| - 1][..n] == fragments[..n];
      AuditablePrefix(claims, fragments[..|fragments| - 1], n);
    } else {
      assert fragments[..n] == fragments;
    }
  }
}
