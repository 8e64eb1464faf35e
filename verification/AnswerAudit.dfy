// The whole of ClaimEvidenceVerifierAgent.audit in src/cogdoc/agents/claim_evidence_verifier.py
// for an answer that passed the gates before it: the limit on fragments, the claims cut from the
// answer, the calls of the model, and the counts reported.
module AnswerAudit {
  import opened Options
  import opened Partition
  import opened BatchPlan
  import opened ClaimBatches
  import opened ClaimAudit
  import CitationText
  import CitationBinding
  import CitationParser
  import ClaimUnits

  // Overflow: more fragments than may be audited. NoClaims: nothing to audit.
  datatype Outcome = Overflow | NoClaims | Audited(audit: Audit)

  predicate Passed(o: Outcome) {
    o.NoClaims? || (o.Audited? && o.audit.passed)
  }

  // How an answer is read: \d and _citation_refs.
  datatype Reading = Reading(decimal: char -> bool, refs: string -> seq<string>)

  function FragmentsOf(r: Reading, answer: string): seq<string> {
    ClaimUnits.Fragments(r.decimal, [], CitationBinding.SplitLines(answer))
  }

  // The fragments that state something to audit, none left out.
  function TextsOf(r: Reading, answer: string): seq<string> {
    ClaimUnits.Auditable(ClaimUnits.Claims, FragmentsOf(r, answer))
  }

  function ClaimsOf(refs: string -> seq<string>, texts: seq<string>): seq<Claim> {
    seq(|texts|, i requires 0 <= i < |texts| => Claim("c" + CitationParser.Decimal(i + 1), texts[i], refs(texts[i])))
  }

  lemma ClaimIdsDistinct(refs: string -> seq<string>, texts: seq<string>)
    ensures DistinctIds(ClaimsOf(refs, texts))
  {
    var claims := ClaimsOf(refs, texts);
    forall i, j | 0 <= i < j < |claims| ensures claims[i].claimId != claims[j].claimId {
      CitationParser.DecimalNumber(i + 1);
      CitationParser.DecimalNumber(j + 1);
      assert claims[i].claimId[1..] == CitationParser.Decimal(i + 1);
      assert claims[j].claimId[1..] == CitationParser.Decimal(j + 1);
    }
  }

  // Behind the limit on fragments the limit on claims cuts nothing off.
  lemma {:induction false} AuditableFewer(claims: string -> bool, fragments: seq<string>)
    ensures |ClaimUnits.Auditable(claims, fragments)| <= |fragments|
  {
    if |fragments| > 0 {
      AuditableFewer(claims, fragments[..|fragments| - 1]);
    }
  }

  // The claims that are audited: at most maxClaims fragments, and then all that state something.
  method ClaimTexts(r: Reading, answer: string, maxClaims: nat) returns (texts: seq<string>, overflow: bool)
    requires maxClaims > 0
    ensures overflow <==> |FragmentsOf(r, answer)| > maxClaims
    ensures !overflow ==> texts == TextsOf(r, answer)
  {
    var fragments := ClaimUnits.CandidateFragments(r.decimal, answer);
    if |fragments| > maxClaims {
      return [], true;
    }
    AuditableFewer(ClaimUnits.Claims, fragments);
    texts := ClaimUnits.ExtractClaimUnits(r.decimal, answer, maxClaims);
    overflow := false;
    ghost var all := ClaimUnits.Auditable(ClaimUnits.Claims, fragments);
    assert |all| <= maxClaims && all[..|all|] == all;
  }

  ghost predicate AllBacked(s: Setting, docs: seq<Doc>, claims: seq<Claim>, assessed: seq<Assessed>) {
    |assessed| == |claims| && forall i :: 0 <= i < |claims| ==> assessed[i].claim == claims[i] && Backed(s, docs, assessed[i])
  }

  // An audit passes exactly if the model accepts every batch, and then every claim is backed.
  ghost predicate Sound(s: Setting, docs: seq<Doc>, claims: seq<Claim>, plan: seq<Batch<Entry>>, audit: Audit) {
    && Flatten(plan) == EntriesOf(claims, docs, s.ledger)
    && GoodPlan(LimitsFor(s.ledger, s.maxClaims, s.maxDocs), plan)
    && (audit.passed <==> AcceptedAll(s, plan))
    && (audit.passed ==> AllBacked(s, docs, claims, audit.claims))
  }

  method AuditClaims(s: Setting, claims: seq<Claim>, docs: seq<Doc>) returns (audit: Audit, ghost plan: seq<Batch<Entry>>)
    requires DistinctIds(claims)
    ensures Sound(s, docs, claims, plan, audit)
    ensures audit.passed ==> AllBacked(s, docs, claims, audit.claims)
  {
    audit, plan := RunAudit(s, claims, docs);
    PlanPasses(s, LimitsFor(s.ledger, s.maxClaims, s.maxDocs), plan);
    if audit.passed {
      PassedMeansBacked(s, claims, docs, plan);
    }
  }

  lemma PlanPasses(s: Setting, l: Limits<Entry>, plan: seq<Batch<Entry>>)
    requires GoodPlan(l, plan)
    ensures Passing(JudgeAll(s, plan, 0)) <==> AcceptedAll(s, plan)
  {
    assert forall k :: 0 <= k < |plan| ==> WellFormed(l, plan[k]);
    PassesExactly(s, plan, 0);
    assert forall k :: 0 <= k < |plan| ==> BatchAccepted(s, plan[k], 0 + k) == BatchAccepted(s, plan[k], k);
  }

  ghost predicate AcceptedAll(s: Setting, plan: seq<Batch<Entry>>) {
    forall k :: 0 <= k < |plan| ==> BatchAccepted(s, plan[k], k)
  }

  // So an answer passes only if it is short enough and every fragment of it that states
  // something, once and in order, is backed.
  method AuditAnswer(r: Reading, s: Setting, answer: string, docs: seq<Doc>, maxClaims: nat)
    returns (outcome: Outcome, ghost plan: seq<Batch<Entry>>)
    requires maxClaims > 0
    ensures outcome.Overflow? <==> |FragmentsOf(r, answer)| > maxClaims
    ensures outcome.NoClaims? <==> |FragmentsOf(r, answer)| <= maxClaims && |TextsOf(r, answer)| == 0
    ensures outcome.Audited? ==> Sound(s, docs, ClaimsOf(r.refs, TextsOf(r, answer)), plan, outcome.audit)
    ensures Passed(outcome) ==>
      AllBacked(s, docs, ClaimsOf(r.refs, TextsOf(r, answer)), if outcome.Audited? then outcome.audit.claims else [])
  {
    plan := [];
    var texts, overflow := ClaimTexts(r, answer, maxClaims);
    if overflow {
      outcome := Overflow;
    } else if |texts| == 0 {
      outcome := NoClaims;
    } else {
      ClaimIdsDistinct(r.refs, texts);
      var audit;
      audit, plan := AuditClaims(s, ClaimsOf(r.refs, texts), docs);
      outcome := Audited(audit);
    }
  }

  // ----- _audit_summary -----

  function CountOf(p: Assessed -> bool, claims: seq<Assessed>): (n: nat)
    ensures n <= |claims|
  {
    if |claims| == 0 then 0 else CountOf(p, claims[1..]) + if p(claims[0]) then 1 else 0
  }

  datatype Counts = Counts(claims: nat, supported: nat, unsupported: nat, insufficient: nat, cited: nat, skipped: nat)

  // Whether a claim cites a chunk, which in ledger mode too is a question of chunk ids.
  predicate CitesChunk(s: Setting, docs: seq<Doc>, a: Assessed) {
    |Ids(EntryOf(a.claim, docs, s.ledger).allowed, false)| > 0
  }

  function Summary(s: Setting, docs: seq<Doc>, claims: seq<Assessed>): Counts {
    var factual := CountOf((a: Assessed) => !a.verdict.NotFactual?, claims);
    Counts(
      factual,
      CountOf((a: Assessed) => a.verdict.Supported?, claims),
      CountOf((a: Assessed) => a.verdict.Unsupported?, claims),
      CountOf((a: Assessed) => a.verdict.Insufficient?, claims),
      CountOf((a: Assessed) => !a.verdict.NotFactual? && CitesChunk(s, docs, a), claims),
      |claims| - factual)
  }

  // Every claim is counted under one verdict, and an audit that no call broke off passes exactly
  // if every factual claim is supported.
  lemma {:induction false} SummaryAddsUp(s: Setting, docs: seq<Doc>, claims: seq<Assessed>)
    ensures var c := Summary(s, docs, claims);
      && c.supported + c.unsupported + c.insufficient == c.claims && c.claims + c.skipped == |claims|
      && (c.supported == c.claims <==> forall i :: 0 <= i < |claims| ==> !Failing(claims[i]))
  {
    if |claims| > 0 {
      SummaryAddsUp(s, docs, claims[1..]);
      var c, rest := Summary(s, docs, claims), Summary(s, docs, claims[1..]);
      if c.supported == c.claims {
        assert rest.supported == rest.claims && !Failing(claims[0]);
        assert forall i :: 0 < i < |claims| ==> claims[i] == claims[1..][i - 1];
      } else if !Failing(claims[0]) {
        assert rest.supported < rest.claims;
        var i :| 0 <= i < |claims[1..]| && Failing(claims[1..][i]);
        assert Failing(claims[i + 1]);
      }
    }
  }

  // ----- When what is supported is counted as cited -----

  // A claim with evidence it can be supported by has a chunk among its evidence. In the mode of
  // chunk ids that is so of every claim; in ledger mode the first document of each evidence id
  // decides.
  predicate Countable(s: Setting, docs: seq<Doc>, claim: Claim) {
    var allowed := EntryOf(claim, docs, s.ledger).allowed;
    |claim.refs| > 0 && |Ids(allowed, s.ledger)| > 0 ==> exists k :: 0 <= k < |allowed| && |allowed[k].chunkId| > 0
  }

  function JudgedOn(s: Setting, docs: seq<Doc>, claim: Claim, returned: Option<Assessment>): Assessed {
    Judge(s, claim, Ids(EntryOf(claim, docs, s.ledger).allowed, s.ledger), returned)
  }

  lemma ChunkCited(s: Setting, docs: seq<Doc>, claim: Claim)
    ensures CitesChunk(s, docs, Assessed(claim, Supported, {}, []))
       <==> exists k :: 0 <= k < |EntryOf(claim, docs, s.ledger).allowed| && |EntryOf(claim, docs, s.ledger).allowed[k].chunkId| > 0
  {
    var allowed := EntryOf(claim, docs, s.ledger).allowed;
    if k :| 0 <= k < |allowed| && |allowed[k].chunkId| > 0 {
      assert allowed[k] in allowed && allowed[k].Identity(false) in Ids(allowed, false);
    } else {
      assert Ids(allowed, false) == {};
    }
  }

  // Whatever is returned for a claim, it is counted as cited if that makes it supported, exactly
  // if the claim is countable.
  lemma CountedExactly(s: Setting, docs: seq<Doc>, claim: Claim)
    ensures (forall returned :: JudgedOn(s, docs, claim, returned).verdict.Supported? ==>
               CitesChunk(s, docs, JudgedOn(s, docs, claim, returned)))
       <==> Countable(s, docs, claim)
  {
    var ids := Ids(EntryOf(claim, docs, s.ledger).allowed, s.ledger);
    ChunkCited(s, docs, claim);
    forall returned | JudgedOn(s, docs, claim, returned).verdict.Supported? ensures |claim.refs| > 0 && |ids| > 0 {
      var a := returned.value;
      KeepIsFilter(if s.ledger then a.evidenceIds else a.chunkIds, ids);
      var supporting := JudgedOn(s, docs, claim, returned).supporting;
      assert supporting[0] in supporting && supporting[0] in ids;
    }
    if |claim.refs| > 0 && |ids| > 0 {
      var returned := SupportedBy(s, docs, claim);
      assert JudgedOn(s, docs, claim, returned).verdict.Supported?;
    }
  }

  lemma SupportedBy(s: Setting, docs: seq<Doc>, claim: Claim) returns (returned: Option<Assessment>)
    requires |claim.refs| > 0 && |Ids(EntryOf(claim, docs, s.ledger).allowed, s.ledger)| > 0
    ensures JudgedOn(s, docs, claim, returned).verdict.Supported?
  {
    var ids := Ids(EntryOf(claim, docs, s.ledger).allowed, s.ledger);
    var id :| id in ids;
    returned := Some(Assessment(claim.claimId, Supported, [id], [id]));
    KeepIsFilter([id], ids);
    assert id in [id];
    assert id in Keep([id], ids);
  }

  // In the mode of chunk ids nothing is asked of a claim.
  lemma ChunksCountable(s: Setting, docs: seq<Doc>, claim: Claim)
    requires !s.ledger
    ensures Countable(s, docs, claim)
  {
    var allowed := EntryOf(claim, docs, s.ledger).allowed;
    if |Ids(allowed, false)| > 0 {
      var id :| id in Ids(allowed, false);
      var d :| d in allowed && d.chunkId == id;
      var k :| 0 <= k < |allowed| && allowed[k] == d;
      assert |allowed[k].chunkId| > 0;
    }
  }

  predicate AllCountable(s: Setting, docs: seq<Doc>, claims: seq<Claim>) {
    forall i :: 0 <= i < |claims| ==> Countable(s, docs, claims[i])
  }

  predicate CountedAt(s: Setting, docs: seq<Doc>, a: Assessed) {
    a.verdict.Supported? ==> CitesChunk(s, docs, a)
  }

  lemma BatchCounted(s: Setting, docs: seq<Doc>, entries: seq<Entry>, answer: seq<Assessment>)
    requires AllFromEntries(docs, s.ledger, entries)
    requires forall i :: 0 <= i < |entries| ==> Countable(s, docs, entries[i].claim)
    ensures forall i :: 0 <= i < |entries| ==> CountedAt(s, docs, JudgeBatch(s, entries, answer)[i])
  {
    forall i | 0 <= i < |entries| ensures CountedAt(s, docs, JudgeBatch(s, entries, answer)[i]) {
      var returned := First(answer, entries[i].claim.claimId);
      CountedExactly(s, docs, entries[i].claim);
      assert JudgeBatch(s, entries, answer)[i] == JudgedOn(s, docs, entries[i].claim, returned);
    }
  }

  lemma {:induction false} AuditCounted(s: Setting, docs: seq<Doc>, batches: seq<Batch<Entry>>, call: nat)
    requires forall k :: 0 <= k < |batches| ==> |batches[k].entries| > 0 && (batches[k].overLimit ==> |batches[k].entries| == 1)
    requires AllFromEntries(docs, s.ledger, Flatten(batches))
    requires forall i :: 0 <= i < |Flatten(batches)| ==> Countable(s, docs, Flatten(batches)[i].claim)
    ensures forall i :: 0 <= i < |JudgeAll(s, batches, call).0| ==> CountedAt(s, docs, JudgeAll(s, batches, call).0[i])
    decreases |batches|
  {
    if |batches| > 0 {
      FlattenFirst(batches);
      var first, rest := batches[0].entries, batches[1..];
      assert forall i :: 0 <= i < |first| ==> first[i] == Flatten(batches)[i];
      assert forall i :: 0 <= i < |Flatten(rest)| ==> Flatten(rest)[i] == Flatten(batches)[|first| + i];
      if batches[0].overLimit {
        AuditCounted(s, docs, rest, call);
      } else if s.model(call).Answer? {
        AuditCounted(s, docs, rest, call + 1);
        BatchCounted(s, docs, first, s.model(call).assessments);
      }
    }
  }

  lemma {:induction false} CitedAtLeast(s: Setting, docs: seq<Doc>, claims: seq<Assessed>)
    requires forall i :: 0 <= i < |claims| ==> CountedAt(s, docs, claims[i])
    ensures Summary(s, docs, claims).supported <= Summary(s, docs, claims).cited
  {
    if |claims| > 0 {
      assert CountedAt(s, docs, claims[0]);
      assert forall i :: 0 <= i < |claims[1..]| ==> claims[1..][i] == claims[i + 1];
      CitedAtLeast(s, docs, claims[1..]);
    }
  }

  // So if every claim is countable, the citation coverage is never below the support rate.
  lemma CoverageAboveSupport(s: Setting, claims: seq<Claim>, docs: seq<Doc>, plan: seq<Batch<Entry>>)
    requires Flatten(plan) == EntriesOf(claims, docs, s.ledger)
    requires GoodPlan(LimitsFor(s.ledger, s.maxClaims, s.maxDocs), plan) && AllCountable(s, docs, claims)
    ensures Summary(s, docs, JudgeAll(s, plan, 0).0).supported <= Summary(s, docs, JudgeAll(s, plan, 0).0).cited
  {
    forall i | 0 <= i < |Flatten(plan)| ensures Countable(s, docs, Flatten(plan)[i].claim) {
      assert Flatten(plan)[i].claim == claims[i];
    }
    AuditCounted(s, docs, plan, 0);
    CitedAtLeast(s, docs, JudgeAll(s, plan, 0).0);
  }

  // A document with a chunk id behind one of the same evidence id without is dropped, and the
  // claim it would have made countable is supported and not counted.
  lemma CoverageWithoutChunks(s: Setting, bare: Doc, chunked: Doc, claim: Claim)
    requires s.ledger && IsEvidenceId(bare.evidenceId) && bare.evidenceId == chunked.evidenceId
    requires |bare.chunkId| == 0 && |chunked.chunkId| > 0 && claim.refs == [bare.evidenceId]
    ensures var docs := [bare, chunked];
      var a := JudgedOn(s, docs, claim, Some(Assessment(claim.claimId, Supported, [], [bare.evidenceId])));
      !Countable(s, docs, claim) && Summary(s, docs, [a]).supported == 1 && Summary(s, docs, [a]).cited == 0
  {
    var docs, id := [bare, chunked], bare.evidenceId;
    SameNamed(bare, chunked, claim);
    var allowed := EntryOf(claim, docs, true).allowed;
    assert allowed == [bare];
    assert bare in allowed && id in Ids(allowed, true);
    KeepIsFilter([id], Ids(allowed, true));
    assert id in [id];
    assert id in Keep([id], Ids(allowed, true));
    assert Ids(allowed, false) == {};
  }

  lemma SameNamed(bare: Doc, chunked: Doc, claim: Claim)
    requires IsEvidenceId(bare.evidenceId) && bare.evidenceId == chunked.evidenceId && claim.refs == [bare.evidenceId]
    ensures EntryOf(claim, [bare, chunked], true).allowed == [bare]
  {
    assert claim.refs[0] == bare.evidenceId && Names(claim, bare) && Names(claim, chunked);
    assert [bare, chunked][1..] == [chunked] && [chunked][1..] == [];
    assert AllowedDocs(claim, []) == [];
    assert AllowedDocs(claim, [chunked]) == [chunked];
    assert AllowedDocs(claim, [bare, chunked]) == [bare] + [chunked] == [bare, chunked];
    DedupeSame(bare, chunked);
  }

  lemma DedupeSame(bare: Doc, chunked: Doc)
    requires |bare.evidenceId| > 0 && bare.evidenceId == chunked.evidenceId
    ensures Dedupe([bare, chunked], true) == [bare]
  {
    assert [bare, chunked][..1] == [bare] && [bare][..0] == [];
    assert Dedupe([bare], true) == [bare];
    assert bare in [bare] && bare.Identity(true) in Ids([bare], true);
  }
}
