// Evidence of a claim and the batching of claims in
// src/cogdoc/agents/claim_evidence_verifier.py.
module ClaimBatches {
  import opened Partition
  import opened BatchPlan
  import CitationText

  // An evidence document, by its frozen evidence id, its chunk id, and the reference keys
  // (knowledge:... or document:...:P...) under which a citation may name it.
  datatype Doc = Doc(evidenceId: string, chunkId: string, refKeys: set<string>) {
    function Identity(ledger: bool): string {
      if ledger then evidenceId else chunkId
    }
  }

  datatype Claim = Claim(claimId: string, text: string, refs: seq<string>)

  // The canonical spelling E001 ... E999, E1000 ...: three digits, or more without a leading zero.
  predicate IsEvidenceId(s: string) {
    && 4 <= |s| <= 160 && s[0] == 'E'
    && (forall i :: 1 <= i < |s| ==> CitationText.AsciiDigit(s[i]))
    && (exists i :: 1 <= i < |s| && s[i] != '0')
    && (|s| > 4 ==> s[1] != '0')
  }

  // Exact evidence ids take precedence over the older page and knowledge citations.
  predicate Names(claim: Claim, d: Doc) {
    if exists i :: 0 <= i < |claim.refs| && IsEvidenceId(claim.refs[i])
    then d.evidenceId in claim.refs && IsEvidenceId(d.evidenceId)
    else exists i :: 0 <= i < |claim.refs| && claim.refs[i] in d.refKeys
  }

  function AllowedDocs(claim: Claim, docs: seq<Doc>): seq<Doc> {
    if docs == [] then []
    else (if Names(claim, docs[0]) then [docs[0]] else []) + AllowedDocs(claim, docs[1..])
  }

  // The identities of a list of documents, those without one left aside.
  function Ids(docs: seq<Doc>, ledger: bool): set<string> {
    set d | d in docs && |d.Identity(ledger)| > 0 :: d.Identity(ledger)
  }

  ghost predicate Unique(docs: seq<Doc>, ledger: bool) {
    && (forall i :: 0 <= i < |docs| ==> |docs[i].Identity(ledger)| > 0)
    && (forall i, j :: 0 <= i < j < |docs| ==> docs[i].Identity(ledger) != docs[j].Identity(ledger))
  }

  lemma IdsAppend(docs: seq<Doc>, d: Doc, ledger: bool)
    ensures Ids(docs + [d], ledger) == Ids(docs, ledger) + if |d.Identity(ledger)| == 0 then {} else {d.Identity(ledger)}
  {
    assert forall e :: e in docs + [d] <==> e in docs || e == d;
  }

  // The first document of each identity.
  function Dedupe(docs: seq<Doc>, ledger: bool): seq<Doc> {
    if docs == [] then []
    else
      var front := Dedupe(docs[..|docs| - 1], ledger);
      var d := docs[|docs| - 1];
      if |d.Identity(ledger)| == 0 || d.Identity(ledger) in Ids(front, ledger) then front else front + [d]
  }

  // No identity is lost and none is kept twice.
  lemma {:induction false} DedupeKeepsIds(docs: seq<Doc>, ledger: bool)
    ensures Ids(Dedupe(docs, ledger), ledger) == Ids(docs, ledger)
    ensures |Dedupe(docs, ledger)| == |Ids(docs, ledger)|
    ensures forall d :: d in Dedupe(docs, ledger) ==> d in docs
  {
    if |docs| > 0 {
      var front, last := docs[..|docs| - 1], docs[|docs| - 1];
      DedupeKeepsIds(front, ledger);
      IdsAppend(front, last, ledger);
      IdsAppend(Dedupe(front, ledger), last, ledger);
      assert docs == front + [last];
    }
  }

  lemma {:induction false} DedupeUnique(docs: seq<Doc>, ledger: bool)
    ensures Unique(Dedupe(docs, ledger), ledger)
  {
    if |docs| > 0 {
      var front, last := docs[..|docs| - 1], docs[|docs| - 1];
      DedupeUnique(front, ledger);
      if |last.Identity(ledger)| > 0 && last.Identity(ledger) !in Ids(Dedupe(front, ledger), ledger) {
        UniqueAppend(Dedupe(front, ledger), last, ledger);
      }
    }
  }

  lemma UniqueAppend(docs: seq<Doc>, d: Doc, ledger: bool)
    requires Unique(docs, ledger) && |d.Identity(ledger)| > 0 && d.Identity(ledger) !in Ids(docs, ledger)
    ensures Unique(docs + [d], ledger)
  {
    forall i | 0 <= i < |docs| ensures docs[i].Identity(ledger) != d.Identity(ledger) {
      assert docs[i] in docs;
    }
  }

  method UniqueAllowedDocs(docs: seq<Doc>, ledger: bool) returns (unique: seq<Doc>)
    ensures unique == Dedupe(docs, ledger)
  {
    unique := [];
    var seen: set<string> := {};
    for i := 0 to |docs|
      invariant unique == Dedupe(docs[..i], ledger) && seen == Ids(unique, ledger)
    {
      var identity := docs[i].Identity(ledger);
      assert docs[..i + 1][..i] == docs[..i];
      if |identity| > 0 && identity !in seen {
        IdsAppend(unique, docs[i], ledger);
        seen := seen + {identity};
        unique := unique + [docs[i]];
      }
    }
    assert docs[..|docs|] == docs;
  }

  // ----- Batches -----

  datatype Entry = Entry(claim: Claim, allowed: seq<Doc>)

  function EntryOf(claim: Claim, docs: seq<Doc>, ledger: bool): Entry {
    Entry(claim, Dedupe(AllowedDocs(claim, docs), ledger))
  }

  // An entry carries all the evidence its claim names, each identity once, and no other.
  lemma EntryHasAllEvidence(claim: Claim, docs: seq<Doc>, ledger: bool)
    ensures Unique(EntryOf(claim, docs, ledger).allowed, ledger)
    ensures forall d :: d in EntryOf(claim, docs, ledger).allowed ==> d in docs && Names(claim, d)
    ensures forall d :: d in docs && Names(claim, d) && |d.Identity(ledger)| > 0 ==>
              d.Identity(ledger) in Ids(EntryOf(claim, docs, ledger).allowed, ledger)
  {
    AllowedNamed(claim, docs);
    DedupeKeepsIds(AllowedDocs(claim, docs), ledger);
    DedupeUnique(AllowedDocs(claim, docs), ledger);
  }

  lemma AllowedNamed(claim: Claim, docs: seq<Doc>)
    ensures forall d :: d in AllowedDocs(claim, docs) <==> d in docs && Names(claim, d)
  {
    if |docs| > 0 {
      AllowedNamed(claim, docs[1..]);
      assert docs == [docs[0]] + docs[1..];
    }
  }

  function EntriesOf(claims: seq<Claim>, docs: seq<Doc>, ledger: bool): seq<Entry> {
    seq(|claims|, i requires 0 <= i < |claims| => EntryOf(claims[i], docs, ledger))
  }

  function LimitsFor(ledger: bool, maxClaims: int, maxDocs: int): Limits<Entry> {
    Limits((e: Entry) => Ids(e.allowed, ledger), maxClaims, maxDocs)
  }

  // Every claim once, in order, with all its evidence, in batches that meet the limits and
  // could not be larger; exactly the claims with too much evidence are set aside.
  method PlanClaims(claims: seq<Claim>, docs: seq<Doc>, ledger: bool, maxClaims: int, maxDocs: int)
    returns (batches: seq<Batch<Entry>>)
    ensures Flatten(batches) == EntriesOf(claims, docs, ledger)
    ensures GoodPlan(LimitsFor(ledger, maxClaims, maxDocs), batches)
  {
    var entries: seq<Entry> := [];
    for i := 0 to |claims|
      invariant entries == EntriesOf(claims, docs, ledger)[..i]
    {
      var allowed := UniqueAllowedDocs(AllowedDocs(claims[i], docs), ledger);
      entries := entries + [Entry(claims[i], allowed)];
    }
    batches := PlanBatches(LimitsFor(ledger, maxClaims, maxDocs), entries);
  }

  // The documents sent along with a batch: those of its claims, each identity once.
  method BatchDocs(entries: seq<Entry>, ledger: bool) returns (docs: seq<Doc>)
    ensures Unique(docs, ledger)
    ensures forall d :: d in docs ==> exists e :: e in entries && d in e.allowed
    ensures |docs| == |Gathered((e: Entry) => Ids(e.allowed, ledger), entries)|
  {
    var all: seq<Doc> := [];
    ghost var ids := (e: Entry) => Ids(e.allowed, ledger);
    for i := 0 to |entries|
      invariant forall d :: d in all ==> exists e :: e in entries && d in e.allowed
      invariant Ids(all, ledger) == Gathered(ids, entries[..i])
    {
      assert entries[..i + 1][..i] == entries[..i];
      IdsConcat(all, entries[i].allowed, ledger);
      all := all + entries[i].allowed;
    }
    assert entries[..|entries|] == entries;
    DedupeKeepsIds(all, ledger);
    DedupeUnique(all, ledger);
    docs := UniqueAllowedDocs(all, ledger);
  }

  lemma IdsConcat(a: seq<Doc>, b: seq<Doc>, ledger: bool)
    ensures Ids(a + b, ledger) == Ids(a, ledger) + Ids(b, ledger)
  {}
}
