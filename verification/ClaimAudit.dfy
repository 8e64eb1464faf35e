// ClaimEvidenceVerifierAgent.audit of src/cogdoc/agents/claim_evidence_verifier.py from the
// point where claims go to the verifier model. The model is not trusted: its answer to each
// call, or its failure, is an arbitrary parameter.
module ClaimAudit {
  import opened Options
  import opened Partition
  import opened BatchPlan
  import opened ClaimBatches

  datatype Verdict = Supported | Unsupported | Insufficient | NotFactual

  datatype Assessment = Assessment(claimId: string, verdict: Verdict, chunkIds: seq<string>, evidenceIds: seq<string>)

  datatype Response = Answer(assessments: seq<Assessment>) | Failure(reason: string)

  datatype Assessed = Assessed(claim: Claim, verdict: Verdict, cited: set<string>, supporting: seq<string>)

  datatype Audit = Audit(passed: bool, claims: seq<Assessed>, error: Option<string>, calls: nat)

  // What audit() depends on besides the claims and the documents. nonFactual is
  // _deterministically_non_factual; the model answers each call in turn as it likes.
  datatype Setting = Setting(
    ledger: bool, maxClaims: int, maxDocs: int, nonFactual: string -> bool, model: nat -> Response)

  // dict.fromkeys over the ids that are allowed.
  function Keep(ids: seq<string>, allowed: set<string>): seq<string> {
    if |ids| == 0 then []
    else
      var front, last := Keep(ids[..|ids| - 1], allowed), ids[|ids| - 1];
      if last in allowed && last !in front then front + [last] else front
  }

  lemma KeepIsFilter(ids: seq<string>, allowed: set<string>)
    ensures forall x :: x in Keep(ids, allowed) <==> x in ids && x in allowed
  {
    if |ids| > 0 {
      KeepIsFilter(ids[..|ids| - 1], allowed);
      assert ids == ids[..|ids| - 1] + [ids[|ids| - 1]];
    }
  }

  // The first assessment returned for a claim.
  function First(assessments: seq<Assessment>, claimId: string): Option<Assessment> {
    if |assessments| == 0 then None
    else if assessments[0].claimId == claimId then Some(assessments[0])
    else First(assessments[1..], claimId)
  }

  function Judge(s: Setting, claim: Claim, allowed: set<string>, returned: Option<Assessment>): Assessed {
    if returned.None? then Assessed(claim, Insufficient, allowed, [])
    else
      var a := returned.value;
      var supporting := Keep(if s.ledger then a.evidenceIds else a.chunkIds, allowed);
      if a.verdict.Supported? && |claim.refs| == 0 then Assessed(claim, Unsupported, allowed, [])
      else if a.verdict.Supported? && |supporting| == 0 then Assessed(claim, Insufficient, allowed, supporting)
      else if a.verdict.NotFactual? && !s.nonFactual(claim.text) then Assessed(claim, Insufficient, allowed, [])
      else Assessed(claim, a.verdict, allowed, supporting)
  }

  function SetAsideClaim(s: Setting, e: Entry): Assessed {
    Assessed(e.claim, Insufficient, Ids(e.allowed, s.ledger), [])
  }

  function JudgeBatch(s: Setting, entries: seq<Entry>, answer: seq<Assessment>): seq<Assessed> {
    seq(|entries|, i requires 0 <= i < |entries| =>
      Judge(s, entries[i].claim, Ids(entries[i].allowed, s.ledger), First(answer, entries[i].claim.claimId)))
  }

  // The batches from `call` on, up to the first call that fails.
  function JudgeAll(s: Setting, batches: seq<Batch<Entry>>, call: nat): (r: (seq<Assessed>, Option<string>, nat)) {
    if |batches| == 0 then ([], None, call)
    else if batches[0].overLimit && |batches[0].entries| > 0 then
      var rest := JudgeAll(s, batches[1..], call);
      ([SetAsideClaim(s, batches[0].entries[0])] + rest.0, rest.1, rest.2)
    else
      match s.model(call)
      case Failure(reason) => ([], Some(reason), call)
      case Answer(answer) =>
        var rest := JudgeAll(s, batches[1..], call + 1);
        (JudgeBatch(s, batches[0].entries, answer) + rest.0, rest.1, rest.2)
  }

  predicate Failing(a: Assessed) {
    a.verdict.Unsupported? || a.verdict.Insufficient?
  }

  predicate DistinctIds(claims: seq<Claim>) {
    forall i, j :: 0 <= i < j < |claims| ==> claims[i].claimId != claims[j].claimId
  }

  // ----- The methods -----

  method FirstReturned(answer: seq<Assessment>, asked: set<string>) returns (returned: map<string, Assessment>)
    ensures forall id :: id in asked ==> First(answer, id) == if id in returned then Some(returned[id]) else None
  {
    returned := map[];
    for i := 0 to |answer|
      invariant forall id :: id in asked ==>
                  First(answer, id) == if id in returned then Some(returned[id]) else First(answer[i..], id)
    {
      if answer[i].claimId in asked && answer[i].claimId !in returned {
        returned := returned[answer[i].claimId := answer[i]];
      }
      assert answer[i..][1..] == answer[i + 1..];
    }
  }

  method AssessBatch(s: Setting, entries: seq<Entry>, answer: seq<Assessment>) returns (assessed: seq<Assessed>)
    requires forall i, j :: 0 <= i < j < |entries| ==> entries[i].claim.claimId != entries[j].claim.claimId
    ensures assessed == JudgeBatch(s, entries, answer)
  {
    var allowedByClaim: map<string, set<string>> := map[];
    for i := 0 to |entries|
      invariant forall k :: 0 <= k < i ==> entries[k].claim.claimId in allowedByClaim
      invariant forall k :: 0 <= k < i ==> allowedByClaim[entries[k].claim.claimId] == Ids(entries[k].allowed, s.ledger)
    {
      allowedByClaim := allowedByClaim[entries[i].claim.claimId := Ids(entries[i].allowed, s.ledger)];
    }
    var returned := FirstReturned(answer, allowedByClaim.Keys);
    assessed := [];
    for i := 0 to |entries|
      invariant assessed == JudgeBatch(s, entries, answer)[..i]
    {
      var id := entries[i].claim.claimId;
      assert id in allowedByClaim.Keys;
      var found := if id in returned then Some(returned[id]) else None;
      assessed := assessed + [Judge(s, entries[i].claim, allowedByClaim[id], found)];
    }
  }

  predicate Passing(r: (seq<Assessed>, Option<string>, nat)) {
    r.1.None? && forall i :: 0 <= i < |r.0| ==> !Failing(r.0[i])
  }

  lemma BatchIdsDistinct(claims: seq<Claim>, docs: seq<Doc>, ledger: bool, batches: seq<Batch<Entry>>, k: nat)
    requires DistinctIds(claims) && Flatten(batches) == EntriesOf(claims, docs, ledger) && k < |batches|
    ensures forall i, j :: 0 <= i < j < |batches[k].entries| ==>
              batches[k].entries[i].claim.claimId != batches[k].entries[j].claim.claimId
  {
    var parts := Parts(batches);
    PartIsSlice(parts, k);
    var from := SizeUpTo(parts, k);
    forall i | 0 <= i < |batches[k].entries| ensures batches[k].entries[i].claim == claims[from + i] {
      assert batches[k].entries[i] == EntriesOf(claims, docs, ledger)[from + i];
    }
  }

  // What may be raised: by the check on the number of documents, or by the call.
  datatype BatchError = PlannerExceeded | CallFailed(reason: string)

  // One batch through the model. The planner's limit makes the source's check on the number
  // of documents unreachable.
  method VerifyBatch(s: Setting, b: Batch<Entry>, call: nat) returns (r: Result<seq<Assessed>, BatchError>)
    requires WellFormed(LimitsFor(s.ledger, s.maxClaims, s.maxDocs), b) && !b.overLimit
    requires forall i, j :: 0 <= i < j < |b.entries| ==> b.entries[i].claim.claimId != b.entries[j].claim.claimId
    ensures r != Err(PlannerExceeded)
    ensures r == match s.model(call) case Failure(reason) => Err(CallFailed(reason))
                                     case Answer(answer) => Ok(JudgeBatch(s, b.entries, answer))
  {
    var batchDocs := BatchDocs(b.entries, s.ledger);
    r := if |batchDocs| > s.maxDocs then Err(PlannerExceeded)
         else match s.model(call) case Failure(reason) => Err(CallFailed(reason)) case Answer(_) => Ok([]);
    if r.Ok? {
      var assessed := AssessBatch(s, b.entries, s.model(call).assessments);
      r := Ok(assessed);
    }
  }

  method RunAudit(s: Setting, claims: seq<Claim>, docs: seq<Doc>) returns (r: Audit, ghost plan: seq<Batch<Entry>>)
    requires DistinctIds(claims)
    ensures Flatten(plan) == EntriesOf(claims, docs, s.ledger)
    ensures GoodPlan(LimitsFor(s.ledger, s.maxClaims, s.maxDocs), plan)
    ensures (r.claims, r.error, r.calls) == JudgeAll(s, plan, 0)
    ensures r.passed == Passing(JudgeAll(s, plan, 0))
  {
    var batches := PlanClaims(claims, docs, s.ledger, s.maxClaims, s.maxDocs);
    plan := batches;
    var assessed: seq<Assessed> := [];
    var calls: nat := 0;
    assert batches[0..] == batches && assessed + JudgeAll(s, batches, 0).0 == JudgeAll(s, batches, 0).0;
    for k := 0 to |batches|
      invariant batches == plan
      invariant var rest := JudgeAll(s, batches[k..], calls);
                JudgeAll(s, plan, 0) == (assessed + rest.0, rest.1, rest.2)
    {
      var b := batches[k];
      ghost var rest := JudgeAll(s, batches[k..], calls);
      assert batches[k..][1..] == batches[k + 1..];
      assert WellFormed(LimitsFor(s.ledger, s.maxClaims, s.maxDocs), b);
      if b.overLimit {
        ghost var next := [SetAsideClaim(s, b.entries[0])];
        assert assessed + (next + JudgeAll(s, batches[k + 1..], calls).0) == assessed + next + JudgeAll(s, batches[k + 1..], calls).0;
        assessed := assessed + [SetAsideClaim(s, b.entries[0])];
      } else {
        BatchIdsDistinct(claims, docs, s.ledger, batches, k);
        var outcome := VerifyBatch(s, b, calls);
        if outcome.Err? {
          assert assessed + [] == assessed;
          return Audit(false, assessed, Some(outcome.error.reason), calls), plan;
        }
        calls := calls + 1;
        ghost var next := outcome.value;
        assert assessed + (next + JudgeAll(s, batches[k + 1..], calls).0) == assessed + next + JudgeAll(s, batches[k + 1..], calls).0;
        assessed := assessed + outcome.value;
      }
    }
    assert assessed + [] == assessed;
    var failed := exists i :: 0 <= i < |assessed| && Failing(assessed[i]);
    r := Audit(!failed, assessed, None, calls);
  }

  // ----- What a passed audit means -----

  // Supported by evidence that the claim's own citations name, or recognised as non-factual.
  predicate Backed(s: Setting, docs: seq<Doc>, a: Assessed) {
    || (a.verdict.Supported? && |a.claim.refs| > 0 && |a.supporting| > 0
        && forall k :: 0 <= k < |a.supporting| ==> Named(docs, s.ledger, a.claim, a.supporting[k]))
    || (a.verdict.NotFactual? && s.nonFactual(a.claim.text))
  }

  predicate Named(docs: seq<Doc>, ledger: bool, claim: Claim, id: string) {
    |id| > 0 && exists d :: d in docs && Names(claim, d) && d.Identity(ledger) == id
  }

  lemma JudgedIsBacked(s: Setting, claim: Claim, docs: seq<Doc>, returned: Option<Assessment>)
    ensures var a := Judge(s, claim, Ids(EntryOf(claim, docs, s.ledger).allowed, s.ledger), returned);
            !Failing(a) ==> Backed(s, docs, a)
  {
    EntryHasAllEvidence(claim, docs, s.ledger);
    var allowed := EntryOf(claim, docs, s.ledger).allowed;
    var a := Judge(s, claim, Ids(allowed, s.ledger), returned);
    if returned.Some? {
      KeepIsFilter(if s.ledger then returned.value.evidenceIds else returned.value.chunkIds, Ids(allowed, s.ledger));
    }
    forall k | 0 <= k < |a.supporting| ensures Named(docs, s.ledger, claim, a.supporting[k]) {
      assert a.supporting[k] in a.supporting;
      var d :| d in allowed && d.Identity(s.ledger) == a.supporting[k];
    }
  }

  predicate AllFromEntries(docs: seq<Doc>, ledger: bool, entries: seq<Entry>) {
    forall i :: 0 <= i < |entries| ==> entries[i] == EntryOf(entries[i].claim, docs, ledger)
  }

  // The assessments are of the first entries, in order, and what is not failed is backed.
  predicate Covers(s: Setting, docs: seq<Doc>, assessed: seq<Assessed>, entries: seq<Entry>) {
    && |assessed| <= |entries|
    && forall i :: 0 <= i < |assessed| ==>
         assessed[i].claim == entries[i].claim && (Failing(assessed[i]) || Backed(s, docs, assessed[i]))
  }

  lemma CoversConcat(s: Setting, docs: seq<Doc>, a: seq<Assessed>, b: seq<Assessed>, ea: seq<Entry>, eb: seq<Entry>)
    requires Covers(s, docs, a, ea) && |a| == |ea| && Covers(s, docs, b, eb)
    ensures Covers(s, docs, a + b, ea + eb)
  {}

  lemma BatchCovers(s: Setting, docs: seq<Doc>, entries: seq<Entry>, answer: seq<Assessment>)
    requires AllFromEntries(docs, s.ledger, entries)
    ensures Covers(s, docs, JudgeBatch(s, entries, answer), entries)
  {
    var assessed := JudgeBatch(s, entries, answer);
    forall i | 0 <= i < |assessed| ensures
      assessed[i].claim == entries[i].claim && (Failing(assessed[i]) || Backed(s, docs, assessed[i]))
    {
      JudgedIsBacked(s, entries[i].claim, docs, First(answer, entries[i].claim.claimId));
    }
  }

  // Unless a call fails, every entry is assessed once, in order; what is not failed is backed.
  lemma {:induction false} JudgeAllCovers(s: Setting, docs: seq<Doc>, batches: seq<Batch<Entry>>, call: nat)
    requires forall k :: 0 <= k < |batches| ==> |batches[k].entries| > 0 && (batches[k].overLimit ==> |batches[k].entries| == 1)
    requires AllFromEntries(docs, s.ledger, Flatten(batches))
    ensures Covers(s, docs, JudgeAll(s, batches, call).0, Flatten(batches))
    ensures JudgeAll(s, batches, call).1.None? ==> |JudgeAll(s, batches, call).0| == |Flatten(batches)|
    decreases |batches|
  {
    if |batches| > 0 {
      FlattenFirst(batches);
      var first, rest := batches[0].entries, batches[1..];
      assert forall i :: 0 <= i < |first| ==> first[i] == Flatten(batches)[i];
      assert forall i :: 0 <= i < |Flatten(rest)| ==> Flatten(rest)[i] == Flatten(batches)[|first| + i];
      if batches[0].overLimit {
        JudgeAllCovers(s, docs, rest, call);
        CoversConcat(s, docs, [SetAsideClaim(s, first[0])], JudgeAll(s, rest, call).0, first, Flatten(rest));
      } else if s.model(call).Answer? {
        JudgeAllCovers(s, docs, rest, call + 1);
        BatchCovers(s, docs, first, s.model(call).assessments);
        CoversConcat(s, docs, JudgeBatch(s, first, s.model(call).assessments), JudgeAll(s, rest, call + 1).0, first, Flatten(rest));
      }
    }
  }

  lemma {:induction false} FlattenFirst(batches: seq<Batch<Entry>>)
    requires |batches| > 0
    ensures Flatten(batches) == batches[0].entries + Flatten(batches[1..])
  {
    var parts := Parts(batches);
    assert parts == [batches[0].entries] + Parts(batches[1..]);
    ConcatFirst(parts);
  }

  lemma {:induction false} ConcatFirst<E>(parts: seq<seq<E>>)
    requires |parts| > 0
    ensures Concat(parts) == parts[0] + Concat(parts[1..])
  {
    if |parts| == 1 {
      assert parts[..0] == [];
    } else {
      ConcatFirst(parts[..|parts| - 1]);
      assert parts[..|parts| - 1][1..] == parts[1..][..|parts| - 2];
    }
  }

  // Whatever the model returned: if the audit passes, every claim, once and in order, is
  // supported by evidence its own citations name or is non-factual by the fixed rules.
  lemma PassedMeansBacked(s: Setting, claims: seq<Claim>, docs: seq<Doc>, plan: seq<Batch<Entry>>)
    requires Flatten(plan) == EntriesOf(claims, docs, s.ledger)
    requires GoodPlan(LimitsFor(s.ledger, s.maxClaims, s.maxDocs), plan)
    requires Passing(JudgeAll(s, plan, 0))
    ensures var assessed := JudgeAll(s, plan, 0).0;
            |assessed| == |claims|
            && forall i :: 0 <= i < |claims| ==> assessed[i].claim == claims[i] && Backed(s, docs, assessed[i])
  {
    JudgeAllCovers(s, docs, plan, 0);
  }

  // What the model must say of an entry for its claim to pass.
  predicate Accepts(s: Setting, e: Entry, returned: Option<Assessment>) {
    returned.Some? && match returned.value.verdict
      case Supported => |e.claim.refs| > 0 &&
        exists id :: id in (if s.ledger then returned.value.evidenceIds else returned.value.chunkIds)
                     && id in Ids(e.allowed, s.ledger)
      case NotFactual => s.nonFactual(e.claim.text)
      case _ => false
  }

  lemma JudgeAccepts(s: Setting, e: Entry, returned: Option<Assessment>)
    ensures Failing(Judge(s, e.claim, Ids(e.allowed, s.ledger), returned)) <==> !Accepts(s, e, returned)
  {
    if returned.Some? {
      var ids := if s.ledger then returned.value.evidenceIds else returned.value.chunkIds;
      KeepIsFilter(ids, Ids(e.allowed, s.ledger));
      if |Keep(ids, Ids(e.allowed, s.ledger))| > 0 {
        assert Keep(ids, Ids(e.allowed, s.ledger))[0] in Keep(ids, Ids(e.allowed, s.ledger));
      }
    }
  }

  ghost predicate BatchAccepted(s: Setting, b: Batch<Entry>, call: nat) {
    && !b.overLimit && s.model(call).Answer?
    && forall i :: 0 <= i < |b.entries| ==>
         Accepts(s, b.entries[i], First(s.model(call).assessments, b.entries[i].claim.claimId))
  }

  // And it passes exactly when no claim has too much evidence, no call fails, and every claim is
  // accepted by the first assessment its own call returned for it.
  lemma {:induction false} PassesExactly(s: Setting, plan: seq<Batch<Entry>>, call: nat)
    requires forall k :: 0 <= k < |plan| ==> |plan[k].entries| > 0
    ensures Passing(JudgeAll(s, plan, call)) <==> forall k :: 0 <= k < |plan| ==> BatchAccepted(s, plan[k], call + k)
  {
    if |plan| > 0 {
      var rest := plan[1..];
      PassesExactly(s, rest, call + 1);
      assert forall k :: 0 <= k < |rest| ==> rest[k] == plan[k + 1];
      BatchVerdict(s, plan, call);
      var accepted := forall k :: 0 <= k < |plan| ==> BatchAccepted(s, plan[k], call + k);
      if accepted {
        forall k | 0 <= k < |rest| ensures BatchAccepted(s, rest[k], call + 1 + k) {
          assert BatchAccepted(s, plan[k + 1], call + (k + 1));
        }
      }
      if BatchAccepted(s, plan[0], call) && Passing(JudgeAll(s, rest, call + 1)) {
        forall k | 0 <= k < |plan| ensures BatchAccepted(s, plan[k], call + k) {
          if k > 0 {
            assert BatchAccepted(s, rest[k - 1], call + 1 + (k - 1));
          }
        }
      }
    }
  }

  lemma BatchVerdict(s: Setting, plan: seq<Batch<Entry>>, call: nat)
    requires |plan| > 0 && |plan[0].entries| > 0
    ensures Passing(JudgeAll(s, plan, call)) <==>
              BatchAccepted(s, plan[0], call) && Passing(JudgeAll(s, plan[1..], call + 1))
  {
    var b, r := plan[0], JudgeAll(s, plan, call);
    if b.overLimit {
      assert Failing(r.0[0]);
    } else if s.model(call).Answer? {
      var answer := s.model(call).assessments;
      var first, rest := JudgeBatch(s, b.entries, answer), JudgeAll(s, plan[1..], call + 1);
      forall i | 0 <= i < |b.entries| ensures
        Failing(first[i]) <==> !Accepts(s, b.entries[i], First(answer, b.entries[i].claim.claimId))
      {
        JudgeAccepts(s, b.entries[i], First(answer, b.entries[i].claim.claimId));
      }
      assert forall i :: 0 <= i < |first| ==> r.0[i] == first[i];
      assert forall i :: 0 <= i < |rest.0| ==> r.0[|first| + i] == rest.0[i];
    }
  }
}
