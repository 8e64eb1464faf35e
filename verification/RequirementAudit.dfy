// _requirements and _validate_requirement_assessments of src/cogdoc/agents/evidence_verifier.py:
// a model's judgement of a closed set of requirements, taken at its word only where it keeps to
// the protocol.
module RequirementAudit {
  import opened Options
  import opened Sequences
  import CitationText
  import ClaimUnits

  // ----- The requirements asked about -----

  // A raw requirement as it is in the state; None for what is not a mapping.
  datatype Raw = Raw(id: string, question: string, retrieval: string, recovery: string)

  datatype Requirement = Requirement(id: string, question: string, retrievalQuery: string, recoveryQuery: string)

  // A query falls back to the question only where it is empty, and is then collapsed.
  function QueryOf(given: string, question: string): string {
    ClaimUnits.Compact(if |given| > 0 then given else question)
  }

  function RequirementFrom(raw: Raw): Requirement {
    var question := ClaimUnits.Compact(raw.question);
    Requirement(ClaimUnits.Trim(raw.id), question, QueryOf(raw.retrieval, question), QueryOf(raw.recovery, question))
  }

  function Ids(rs: seq<Requirement>): seq<string> {
    seq(|rs|, i requires 0 <= i < |rs| => rs[i].id)
  }

  predicate Usable(raw: Option<Raw>) {
    raw.Some? && |RequirementFrom(raw.value).id| > 0 && |RequirementFrom(raw.value).question| > 0
  }

  // The first of each id, if it has an id and a question.
  function RequirementsOf(raws: seq<Option<Raw>>): seq<Requirement> {
    if |raws| == 0 then []
    else
      var front, raw := RequirementsOf(raws[..|raws| - 1]), raws[|raws| - 1];
      if !Usable(raw) || RequirementFrom(raw.value).id in Ids(front) then front
      else front + [RequirementFrom(raw.value)]
  }

  lemma RequirementNext(raws: seq<Option<Raw>>, i: nat)
    requires i < |raws|
    ensures var front, raw := RequirementsOf(raws[..i]), raws[i];
      if !Usable(raw) || RequirementFrom(raw.value).id in Ids(front) then RequirementsOf(raws[..i + 1]) == front
      else RequirementsOf(raws[..i + 1]) == front + [RequirementFrom(raw.value)]
           && Ids(RequirementsOf(raws[..i + 1])) == Ids(front) + [RequirementFrom(raw.value).id]
  {
    assert raws[..i + 1][..i] == raws[..i];
  }

  method Requirements(raws: seq<Option<Raw>>) returns (requirements: seq<Requirement>)
    ensures requirements == RequirementsOf(if |raws| > 3 then raws[..3] else raws)
  {
    var first := if |raws| > 3 then raws[..3] else raws;
    var seen: set<string> := {};
    requirements := [];
    var i := 0;
    while i < |first|
      invariant i <= |first| && requirements == RequirementsOf(first[..i])
      invariant forall id :: id in seen <==> id in Ids(requirements)
    {
      RequirementNext(first, i);
      if Usable(first[i]) && RequirementFrom(first[i].value).id !in seen {
        var r := RequirementFrom(first[i].value);
        seen := seen + {r.id};
        requirements := requirements + [r];
      }
      i := i + 1;
    }
    assert first[..i] == first;
  }

  predicate BlankOnly(s: string) {
    |s| > 0 && CitationText.All(CitationText.IsSpace, s)
  }

  lemma {:induction false} BlankLeft(s: string)
    ensures |CitationText.TrimLeft(s)| == 0 <==> CitationText.All(CitationText.IsSpace, s)
    ensures |CitationText.TrimLeft(s)| > 0 ==> !CitationText.IsSpace(CitationText.TrimLeft(s)[0])
  {
    if |s| > 0 && CitationText.IsSpace(s[0]) {
      BlankLeft(s[1..]);
      assert s == [s[0]] + s[1..];
    }
  }

  lemma {:induction false} NotBlankRight(s: string)
    requires |s| > 0 && !CitationText.IsSpace(s[0])
    ensures |CitationText.TrimRight(s)| > 0
  {
    if CitationText.IsSpace(CitationText.Last(s)) {
      NotBlankRight(CitationText.Front(s));
    }
  }

  lemma {:induction false} OneSpacedEmpty(s: string)
    ensures |ClaimUnits.OneSpaced(s)| == 0 <==> |s| == 0
  {
    if |s| > 1 && CitationText.IsSpace(s[0]) {
      OneSpacedEmpty(s[1..]);
    }
  }

  lemma CompactEmpty(s: string)
    ensures |ClaimUnits.Compact(s)| == 0 <==> CitationText.All(CitationText.IsSpace, s)
  {
    BlankLeft(s);
    if |CitationText.TrimLeft(s)| > 0 {
      NotBlankRight(CitationText.TrimLeft(s));
    }
    OneSpacedEmpty(ClaimUnits.Trim(s));
  }

  // A query is empty exactly if it was given as blanks only.
  lemma QueryEmpty(given: string, question: string)
    requires |question| > 0 && !CitationText.All(CitationText.IsSpace, question)
    ensures |QueryOf(given, question)| == 0 <==> BlankOnly(given)
  {
    CompactEmpty(if |given| > 0 then given else question);
  }

  predicate MadeFrom(raw: Option<Raw>, r: Requirement) {
    && raw.Some? && r == RequirementFrom(raw.value) && |r.id| > 0 && |r.question| > 0
    && (|r.retrievalQuery| == 0 <==> BlankOnly(raw.value.retrieval))
    && (|r.recoveryQuery| == 0 <==> BlankOnly(raw.value.recovery))
  }

  ghost predicate Made(raws: seq<Option<Raw>>, r: Requirement) {
    exists j :: 0 <= j < |raws| && MadeFrom(raws[j], r)
  }

  lemma CompactNotBlank(s: string)
    requires |ClaimUnits.Compact(s)| > 0
    ensures !CitationText.All(CitationText.IsSpace, ClaimUnits.Compact(s))
  {
    CompactEmpty(s);
    BlankLeft(s);
    NotBlankRight(CitationText.TrimLeft(s));
    CitationText.TrimRightParts(CitationText.TrimLeft(s));
    var t := ClaimUnits.Trim(s);
    assert t[0] == CitationText.TrimLeft(s)[0];
    assert ClaimUnits.OneSpaced(t)[0] == t[0];
  }

  lemma UsableMade(raw: Option<Raw>)
    requires Usable(raw)
    ensures MadeFrom(raw, RequirementFrom(raw.value))
  {
    CompactNotBlank(raw.value.question);
    QueryEmpty(raw.value.retrieval, ClaimUnits.Compact(raw.value.question));
    QueryEmpty(raw.value.recovery, ClaimUnits.Compact(raw.value.question));
  }

  lemma MadeMore(raws: seq<Option<Raw>>, r: Requirement)
    requires |raws| > 0 && Made(raws[..|raws| - 1], r)
    ensures Made(raws, r)
  {
    var j :| 0 <= j < |raws| - 1 && MadeFrom(raws[..|raws| - 1][j], r);
    assert MadeFrom(raws[j], r);
  }

  // No more requirements than raw ones, each with its own id, a question, and queries that are
  // empty exactly where blanks only were given.
  lemma {:induction false} RequirementsDistinct(raws: seq<Option<Raw>>)
    ensures Distinct(Ids(RequirementsOf(raws))) && |RequirementsOf(raws)| <= |raws|
    ensures forall i :: 0 <= i < |RequirementsOf(raws)| ==> Made(raws, RequirementsOf(raws)[i])
  {
    if |raws| > 0 {
      var front, raw := RequirementsOf(raws[..|raws| - 1]), raws[|raws| - 1];
      RequirementsDistinct(raws[..|raws| - 1]);
      forall i | 0 <= i < |front| ensures Made(raws, front[i]) {
        MadeMore(raws, front[i]);
      }
      if Usable(raw) && RequirementFrom(raw.value).id !in Ids(front) {
        UsableMade(raw);
        assert Ids(RequirementsOf(raws)) == Ids(front) + [RequirementFrom(raw.value).id];
      }
    }
  }

  // ----- The model's output -----

  datatype Verdict = Supported | Missing | Contradictory

  datatype Assessment = Assessment(id: string, verdict: Verdict, chunks: seq<string>, reason: string)

  datatype Output = Output(supported: bool, chunks: seq<string>, reason: string, assessments: seq<Assessment>)

  // What is made of one requirement; broken says that the protocol was.
  datatype Judged = Judged(id: string, verdict: Verdict, chunks: seq<string>, broken: bool)

  function Those(assessments: seq<Assessment>, id: string): seq<Assessment> {
    if |assessments| == 0 then []
    else
      Those(assessments[..|assessments| - 1], id)
      + if assessments[|assessments| - 1].id == id then [assessments[|assessments| - 1]] else []
  }

  function Within(chunks: seq<string>, allowed: set<string>): seq<string> {
    if |chunks| == 0 then []
    else Within(chunks[..|chunks| - 1], allowed) + if chunks[|chunks| - 1] in allowed then [chunks[|chunks| - 1]] else []
  }

  predicate Outside(chunks: seq<string>, allowed: set<string>) {
    exists i :: 0 <= i < |chunks| && |chunks[i]| > 0 && chunks[i] !in allowed
  }

  function JudgeThose(candidates: seq<Assessment>, id: string, allowed: set<string>): (judged: Judged)
    ensures judged.id == id && (judged.broken ==> judged.verdict.Missing?)
  {
    if |candidates| != 1 then Judged(id, Missing, [], true)
    else
      var a := candidates[0];
      var valid := Within(Unique(a.chunks), allowed);
      if Outside(Unique(a.chunks), allowed) then Judged(id, Missing, valid, true)
      else if !a.verdict.Missing? && |valid| == 0 then Judged(id, Missing, [], true)
      else Judged(id, a.verdict, valid, false)
  }

  function JudgeOne(assessments: seq<Assessment>, id: string, allowed: set<string>): (judged: Judged)
    ensures judged.id == id && (judged.broken ==> judged.verdict.Missing?)
  {
    JudgeThose(Those(assessments, id), id, allowed)
  }

  function JudgeEach(judge: string -> Judged, ids: seq<string>): seq<Judged> {
    seq(|ids|, i requires 0 <= i < |ids| => judge(ids[i]))
  }

  function Judge(assessments: seq<Assessment>, allowed: set<string>): string -> Judged {
    (id: string) => JudgeOne(assessments, id, allowed)
  }

  function JudgeAll(assessments: seq<Assessment>, ids: seq<string>, allowed: set<string>): seq<Judged> {
    JudgeEach(Judge(assessments, allowed), ids)
  }

  predicate Foreign(output: Output, ids: seq<string>, allowed: set<string>) {
    (exists i :: 0 <= i < |output.assessments| && output.assessments[i].id !in ids) || Outside(output.chunks, allowed)
  }

  predicate AnyBroken(judged: seq<Judged>) {
    exists i :: 0 <= i < |judged| && judged[i].broken
  }

  predicate AllSupported(judged: seq<Judged>) {
    forall i :: 0 <= i < |judged| ==> judged[i].verdict.Supported? && !judged[i].broken
  }

  // The protocol is kept: nothing from outside the closed sets, one usable assessment for each
  // requirement, and no verdict against all of its parts.
  predicate Kept(output: Output, ids: seq<string>, allowed: set<string>) {
    var judged := JudgeAll(output.assessments, ids, allowed);
    !Foreign(output, ids, allowed) && !AnyBroken(judged) && (AllSupported(judged) ==> output.supported)
  }

  // One assessment, supported by chunks that were given and by none that was not.
  predicate BackedBy(candidates: seq<Assessment>, allowed: set<string>) {
    |candidates| == 1 && candidates[0].verdict.Supported?
    && Inside(candidates[0].chunks, allowed) && !Outside(candidates[0].chunks, allowed)
  }

  predicate Inside(chunks: seq<string>, allowed: set<string>) {
    exists i :: 0 <= i < |chunks| && chunks[i] in allowed
  }

  predicate Backed(output: Output, id: string, allowed: set<string>) {
    BackedBy(Those(output.assessments, id), allowed)
  }

  // No one assessment, a chunk that was not given, or a verdict that needs one and names none.
  predicate Breaks(candidates: seq<Assessment>, allowed: set<string>) {
    |candidates| != 1 || Outside(candidates[0].chunks, allowed)
    || (!candidates[0].verdict.Missing? && !Inside(candidates[0].chunks, allowed))
  }

  // ----- The loops of the source -----

  predicate Grouped(grouped: map<string, seq<Assessment>>, assessments: seq<Assessment>, ids: seq<string>) {
    forall id :: id in ids ==> id in grouped && grouped[id] == Those(assessments, id)
  }

  lemma ThoseNext(assessments: seq<Assessment>, a: Assessment, id: string)
    ensures Those(assessments + [a], id) == if a.id == id then Those(assessments, id) + [a] else Those(assessments, id)
  {
    assert (assessments + [a])[..|assessments|] == assessments;
    assert Those(assessments, id) + [] == Those(assessments, id);
  }

  lemma GroupedNext(grouped: map<string, seq<Assessment>>, assessments: seq<Assessment>, a: Assessment, ids: seq<string>)
    requires Grouped(grouped, assessments, ids)
    ensures Grouped(if a.id in ids then grouped[a.id := grouped[a.id] + [a]] else grouped, assessments + [a], ids)
  {
    forall id | id in ids
      ensures Those(assessments + [a], id) == if a.id == id then Those(assessments, id) + [a] else Those(assessments, id)
    {
      ThoseNext(assessments, a, id);
    }
  }

  lemma GroupedUpTo(grouped: map<string, seq<Assessment>>, assessments: seq<Assessment>, i: nat, ids: seq<string>)
    requires i < |assessments| && Grouped(grouped, assessments[..i], ids)
    ensures var a := assessments[i];
      Grouped(if a.id in ids then grouped[a.id := grouped[a.id] + [a]] else grouped, assessments[..i + 1], ids)
  {
    assert assessments[..i + 1] == assessments[..i] + [assessments[i]];
    GroupedNext(grouped, assessments[..i], assessments[i], ids);
  }

  method Group(assessments: seq<Assessment>, ids: seq<string>) returns (grouped: map<string, seq<Assessment>>, unknown: bool)
    ensures Grouped(grouped, assessments, ids)
    ensures unknown <==> exists i :: 0 <= i < |assessments| && assessments[i].id !in ids
  {
    grouped := map id | id in ids :: [];
    unknown := false;
    var i := 0;
    while i < |assessments|
      invariant i <= |assessments| && Grouped(grouped, assessments[..i], ids)
      invariant unknown <==> exists j :: 0 <= j < i && assessments[j].id !in ids
    {
      var a := assessments[i];
      GroupedUpTo(grouped, assessments, i, ids);
      if a.id !in ids {
        unknown := true;
      } else {
        grouped := grouped[a.id := grouped[a.id] + [a]];
      }
      i := i + 1;
    }
    assert assessments[..i] == assessments;
  }

  datatype Report = Report(
    supported: bool, normalized: seq<Judged>, missing: seq<string>, verified: seq<string>, trusted: bool)

  function Gaps(judged: seq<Judged>): seq<string> {
    if |judged| == 0 then []
    else Gaps(judged[..|judged| - 1]) + if judged[|judged| - 1].verdict.Supported? then [] else [judged[|judged| - 1].id]
  }

  function Chunks(judged: seq<Judged>): seq<string> {
    if |judged| == 0 then []
    else Chunks(judged[..|judged| - 1]) + if judged[|judged| - 1].verdict.Supported? then judged[|judged| - 1].chunks else []
  }

  method JudgeCandidates(candidates: seq<Assessment>, id: string, allowed: set<string>) returns (judged: Judged)
    ensures judged == JudgeThose(candidates, id, allowed)
    ensures judged.verdict.Supported? <==> BackedBy(candidates, allowed)
    ensures judged.broken <==> Breaks(candidates, allowed)
    ensures forall x :: x in judged.chunks ==> x in allowed && |candidates| == 1 && x in candidates[0].chunks
  {
    JudgedBy(candidates, id, allowed);
    if |candidates| != 1 {
      return Judged(id, Missing, [], true);
    }
    var a := candidates[0];
    var assessmentIds := Unique(a.chunks);
    var valid := Within(assessmentIds, allowed);
    if Outside(assessmentIds, allowed) {
      return Judged(id, Missing, valid, true);
    }
    if !a.verdict.Missing? && |valid| == 0 {
      return Judged(id, Missing, [], true);
    }
    judged := Judged(id, a.verdict, valid, false);
  }

  method JudgeRequirements(output: Output, ids: seq<string>, allowed: set<string>)
    returns (normalized: seq<Judged>, missing: seq<string>, verified: seq<string>, broken: bool)
    ensures normalized == JudgeAll(output.assessments, ids, allowed)
    ensures missing == Gaps(normalized) && verified == Chunks(normalized)
    ensures broken <==> AnyBroken(normalized) || exists i :: 0 <= i < |output.assessments| && output.assessments[i].id !in ids
  {
    var grouped, unknown := Group(output.assessments, ids);
    normalized, missing, verified, broken := [], [], [], unknown;
    ghost var judge := Judge(output.assessments, allowed);
    var i := 0;
    while i < |ids|
      invariant i <= |ids| && normalized == JudgeEach(judge, ids[..i])
      invariant Gathered(normalized, missing, verified, broken, unknown)
    {
      var judged := JudgeCandidates(grouped[ids[i]], ids[i], allowed);
      JudgeNext(judge, ids, i);
      GatherNext(normalized, missing, verified, broken, unknown, judged);
      normalized := normalized + [judged];
      if judged.verdict.Supported? {
        verified := verified + judged.chunks;
      } else {
        missing := missing + [ids[i]];
      }
      broken := broken || judged.broken;
      i := i + 1;
    }
    assert ids[..i] == ids;
  }

  predicate Gathered(judged: seq<Judged>, missing: seq<string>, verified: seq<string>, broken: bool, unknown: bool) {
    missing == Gaps(judged) && verified == Chunks(judged) && (broken <==> AnyBroken(judged) || unknown)
  }

  lemma JudgeNext(judge: string -> Judged, ids: seq<string>, i: nat)
    requires i < |ids|
    ensures JudgeEach(judge, ids[..i + 1]) == JudgeEach(judge, ids[..i]) + [judge(ids[i])]
  {
  }

  lemma GatherNext(judged: seq<Judged>, missing: seq<string>, verified: seq<string>, broken: bool, unknown: bool, next: Judged)
    requires Gathered(judged, missing, verified, broken, unknown)
    ensures Gathered(
      judged + [next],
      if next.verdict.Supported? then missing else missing + [next.id],
      if next.verdict.Supported? then verified + next.chunks else verified,
      broken || next.broken, unknown)
  {
    JudgedNext(judged, next);
  }

  lemma JudgedNext(judged: seq<Judged>, next: Judged)
    ensures Gaps(judged + [next]) == Gaps(judged) + if next.verdict.Supported? then [] else [next.id]
    ensures Chunks(judged + [next]) == Chunks(judged) + if next.verdict.Supported? then next.chunks else []
    ensures AnyBroken(judged + [next]) <==> AnyBroken(judged) || next.broken
  {
    assert (judged + [next])[..|judged|] == judged;
    if AnyBroken(judged) {
      var i :| 0 <= i < |judged| && judged[i].broken;
      assert (judged + [next])[i].broken;
    }
    if next.broken {
      assert (judged + [next])[|judged|].broken;
    }
  }

  function Keep(ids: seq<string>, p: string -> bool): seq<string> {
    if |ids| == 0 then []
    else Keep(ids[..|ids| - 1], p) + if p(ids[|ids| - 1]) then [ids[|ids| - 1]] else []
  }

  lemma {:induction false} KeepMembers(ids: seq<string>, p: string -> bool, x: string)
    ensures x in Keep(ids, p) <==> x in ids && p(x)
  {
    if |ids| > 0 {
      KeepMembers(ids[..|ids| - 1], p, x);
      assert ids == ids[..|ids| - 1] + [ids[|ids| - 1]];
    }
  }

  lemma {:induction false} KeepSame(ids: seq<string>, p: string -> bool, q: string -> bool)
    requires forall i :: 0 <= i < |ids| ==> p(ids[i]) == q(ids[i])
    ensures Keep(ids, p) == Keep(ids, q)
  {
    if |ids| > 0 {
      KeepSame(ids[..|ids| - 1], p, q);
    }
  }

  lemma {:induction false} KeepAll(ids: seq<string>, p: string -> bool)
    requires forall i :: 0 <= i < |ids| ==> p(ids[i])
    ensures Keep(ids, p) == ids
  {
    if |ids| > 0 {
      KeepAll(ids[..|ids| - 1], p);
    }
  }

  function Lacks(judge: string -> Judged): string -> bool {
    (id: string) => !judge(id).verdict.Supported?
  }

  function Among(all: seq<string>): string -> bool {
    (id: string) => id in all
  }

  lemma {:induction false} GapsAreIds(judge: string -> Judged, ids: seq<string>)
    requires forall i :: 0 <= i < |ids| ==> judge(ids[i]).id == ids[i]
    ensures Gaps(JudgeEach(judge, ids)) == Keep(ids, Lacks(judge))
  {
    if |ids| > 0 {
      assert JudgeEach(judge, ids)[..|ids| - 1] == JudgeEach(judge, ids[..|ids| - 1]);
      GapsAreIds(judge, ids[..|ids| - 1]);
    }
  }

  // The ids listed as missing, in their order.
  lemma MissingIds(judge: string -> Judged, ids: seq<string>, all: seq<string>, broken: bool)
    requires forall i :: 0 <= i < |ids| ==> judge(ids[i]).id == ids[i]
    requires all == Gaps(JudgeEach(judge, ids)) + if broken then ids else []
    ensures Keep(ids, Among(all)) == if broken then ids else Gaps(JudgeEach(judge, ids))
  {
    if broken {
      KeepAll(ids, Among(all));
    } else {
      GapsAreIds(judge, ids);
      KeepBack(ids, Lacks(judge), all);
    }
  }

  lemma KeepBack(ids: seq<string>, p: string -> bool, all: seq<string>)
    requires all == Keep(ids, p)
    ensures Keep(ids, Among(all)) == all
  {
    forall i | 0 <= i < |ids| ensures Among(all)(ids[i]) == p(ids[i]) {
      KeepMembers(ids, p, ids[i]);
    }
    KeepSame(ids, Among(all), p);
  }

  lemma {:induction false} GapsNone(judged: seq<Judged>)
    ensures |Gaps(judged)| == 0 <==> forall i :: 0 <= i < |judged| ==> judged[i].verdict.Supported?
  {
    if |judged| > 0 {
      var front := judged[..|judged| - 1];
      GapsNone(front);
      assert judged == front + [judged[|front|]];
    }
  }

  // What the errors found mean for the protocol.
  lemma KeptExactly(output: Output, ids: seq<string>, allowed: set<string>, broken: bool)
    requires broken <==>
      AnyBroken(JudgeAll(output.assessments, ids, allowed))
      || exists i :: 0 <= i < |output.assessments| && output.assessments[i].id !in ids
    ensures var gaps := Gaps(JudgeAll(output.assessments, ids, allowed));
      Kept(output, ids, allowed) <==> !broken && !Outside(output.chunks, allowed) && (output.supported || |gaps| > 0)
    ensures |Gaps(JudgeAll(output.assessments, ids, allowed))| == 0 <==> AllSupported(JudgeAll(output.assessments, ids, allowed))
  {
    var judged := JudgeAll(output.assessments, ids, allowed);
    GapsNone(judged);
    forall i | 0 <= i < |judged| && judged[i].verdict.Supported? ensures !judged[i].broken {
      assert judged[i] == JudgeOne(output.assessments, ids[i], allowed);
    }
  }

  // The verdict, and what is missing without it.
  method ValidateAssessments(output: Output, ids: seq<string>, allowed: set<string>) returns (report: Report)
    ensures report.normalized == JudgeAll(output.assessments, ids, allowed)
    ensures report.trusted <==> Kept(output, ids, allowed)
    ensures report.supported <==> report.trusted && AllSupported(report.normalized) && |ids| > 0
    ensures report.missing == if report.trusted then Gaps(report.normalized) else ids
    ensures report.verified == Unique(Chunks(report.normalized))
  {
    var normalized, missing, verified, broken := JudgeRequirements(output, ids, allowed);
    KeptExactly(output, ids, allowed, broken);
    var protocolErrors := broken || Outside(output.chunks, allowed);
    if !output.supported && |missing| == 0 {
      protocolErrors := true;
    }
    var all := missing + if protocolErrors then ids else [];
    MissingIds(Judge(output.assessments, allowed), ids, all, protocolErrors);
    var supported := !protocolErrors && |all| == 0 && |ids| > 0;
    report := Report(supported, normalized, Keep(ids, Among(all)), Unique(verified), !protocolErrors);
  }

  // ----- Main results -----

  lemma {:induction false} WithinMembers(chunks: seq<string>, allowed: set<string>, x: string)
    ensures x in Within(chunks, allowed) <==> x in chunks && x in allowed
  {
    if |chunks| > 0 {
      WithinMembers(chunks[..|chunks| - 1], allowed, x);
      assert chunks == chunks[..|chunks| - 1] + [chunks[|chunks| - 1]];
    }
  }

  // A requirement is judged supported exactly when it is backed.
  lemma JudgedBy(candidates: seq<Assessment>, id: string, allowed: set<string>)
    ensures var judged := JudgeThose(candidates, id, allowed);
      && (judged.verdict.Supported? <==> BackedBy(candidates, allowed))
      && (judged.broken <==> Breaks(candidates, allowed))
      && forall x :: x in judged.chunks ==> x in allowed && |candidates| == 1 && x in candidates[0].chunks
  {
    if |candidates| == 1 {
      var chunks := candidates[0].chunks;
      UniqueOutside(chunks, allowed);
      UniqueWithin(chunks, allowed);
      UniqueDistinct(chunks);
      forall x ensures x in Within(Unique(chunks), allowed) <==> x in Unique(chunks) && x in allowed {
        WithinMembers(Unique(chunks), allowed, x);
      }
    }
  }

  lemma SupportedIsBacked(output: Output, id: string, allowed: set<string>)
    ensures JudgeOne(output.assessments, id, allowed).verdict.Supported? <==> Backed(output, id, allowed)
  {
    JudgedBy(Those(output.assessments, id), id, allowed);
  }

  lemma UniqueOutside(chunks: seq<string>, allowed: set<string>)
    ensures Outside(Unique(chunks), allowed) <==> Outside(chunks, allowed)
  {
    UniqueDistinct(chunks);
    SameOutside(chunks, Unique(chunks), allowed);
    SameOutside(Unique(chunks), chunks, allowed);
  }

  lemma SameOutside(a: seq<string>, b: seq<string>, allowed: set<string>)
    requires forall x :: x in a ==> x in b
    ensures Outside(a, allowed) ==> Outside(b, allowed)
  {
    if Outside(a, allowed) {
      var i :| 0 <= i < |a| && |a[i]| > 0 && a[i] !in allowed;
      assert a[i] in b;
    }
  }

  lemma UniqueWithin(chunks: seq<string>, allowed: set<string>)
    ensures |Within(Unique(chunks), allowed)| > 0 <==> Inside(chunks, allowed)
  {
    var within := Within(Unique(chunks), allowed);
    if |within| > 0 {
      WithinMembers(Unique(chunks), allowed, within[0]);
      UniqueDistinct(chunks);
    }
    if exists i :: 0 <= i < |chunks| && chunks[i] in allowed {
      var i :| 0 <= i < |chunks| && chunks[i] in allowed;
      UniqueDistinct(chunks);
      WithinMembers(Unique(chunks), allowed, chunks[i]);
    }
  }

  // Whatever the model returns, it is taken for supported exactly when it says so, names nothing
  // from outside the closed sets, and backs every requirement.
  lemma SupportedExactly(output: Output, ids: seq<string>, allowed: set<string>)
    requires |ids| > 0
    ensures Kept(output, ids, allowed) && AllSupported(JudgeAll(output.assessments, ids, allowed))
       <==> output.supported && !Foreign(output, ids, allowed) && forall i :: 0 <= i < |ids| ==> Backed(output, ids[i], allowed)
  {
    var judged := JudgeAll(output.assessments, ids, allowed);
    forall i | 0 <= i < |ids|
      ensures judged[i].verdict.Supported? <==> Backed(output, ids[i], allowed)
      ensures judged[i].verdict.Supported? ==> !judged[i].broken
    {
      SupportedIsBacked(output, ids[i], allowed);
    }
  }

  // Without that verdict something is listed as missing.
  lemma UnsupportedIsMissing(output: Output, ids: seq<string>, allowed: set<string>)
    requires |ids| > 0 && !(Kept(output, ids, allowed) && AllSupported(JudgeAll(output.assessments, ids, allowed)))
    ensures |if Kept(output, ids, allowed) then Gaps(JudgeAll(output.assessments, ids, allowed)) else ids| > 0
  {
    var judged := JudgeAll(output.assessments, ids, allowed);
    GapsNone(judged);
    if Kept(output, ids, allowed) {
      var i :| 0 <= i < |judged| && !(judged[i].verdict.Supported? && !judged[i].broken);
      assert !judged[i].broken;
    }
  }

  // Every chunk listed as verified is one that was given.
  lemma {:induction false} VerifiedAreGiven(assessments: seq<Assessment>, ids: seq<string>, allowed: set<string>, x: string)
    requires x in Chunks(JudgeAll(assessments, ids, allowed))
    ensures x in allowed
  {
    var judged := JudgeAll(assessments, ids, allowed);
    var last := judged[|judged| - 1];
    assert judged[..|judged| - 1] == JudgeAll(assessments, ids[..|ids| - 1], allowed);
    if last.verdict.Supported? && x in last.chunks {
      var a := Those(assessments, ids[|ids| - 1])[0];
      WithinMembers(Unique(a.chunks), allowed, x);
    } else {
      VerifiedAreGiven(assessments, ids[..|ids| - 1], allowed, x);
    }
  }
}
