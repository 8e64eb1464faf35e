// When the creation of a row comes to the same in both backends of the derived-knowledge store
// of src/cogdoc/api/derived_knowledge_store.py, which go through their latest rows in different
// orders: the duplicate returned, and the conflict group chosen among rows that resemble the
// new one.
module CreateAgreement {
  import opened Options
  import opened Sequences
  import opened KnowledgeLog
  import opened KnowledgeStore

  // ----- The group chosen -----

  predicate Candidate(texts: Texts, m: map<Id, Row>, kb: string, text: string, id: Id) {
    id in m && texts.Resembles(m[id], kb, text)
  }

  predicate GroupedCandidate(texts: Texts, m: map<Id, Row>, kb: string, text: string, id: Id) {
    Candidate(texts, m, kb, text, id) && Grouped(m[id])
  }

  // Among the rows that resemble a text and have a group, none scores higher.
  ghost predicate Leading(texts: Texts, m: map<Id, Row>, kb: string, text: string, id: Id) {
    GroupedCandidate(texts, m, kb, text, id)
    && forall other :: GroupedCandidate(texts, m, kb, text, other) ==>
         texts.Score(m, text)(other) <= texts.Score(m, text)(id)
  }

  ghost predicate OneLeadingGroup(texts: Texts, m: map<Id, Row>, kb: string, text: string) {
    forall a, b :: Leading(texts, m, kb, text, a) && Leading(texts, m, kb, text, b) ==> m[a].group == m[b].group
  }

  lemma {:induction false} FirstGrouped(m: map<Id, Row>, ids: seq<Id>, newGroup: string) returns (k: nat)
    requires forall i :: 0 <= i < |ids| ==> ids[i] in m
    ensures k <= |ids| && forall j :: 0 <= j < k ==> !Grouped(m[ids[j]])
    ensures k < |ids| ==> Grouped(m[ids[k]]) && GroupFor(m, ids, newGroup) == m[ids[k]].group.value
    ensures k == |ids| ==> GroupFor(m, ids, newGroup) == newGroup
  {
    if |ids| == 0 || Grouped(m[ids[0]]) {
      k := 0;
    } else {
      k := FirstGrouped(m, ids[1..], newGroup);
      assert forall j :: 0 < j < k + 1 ==> ids[j] == ids[1..][j - 1];
      k := k + 1;
    }
  }

  // The group chosen is that of a leading row, if any resembling row has a group.
  lemma ChosenLeads(texts: Texts, m: map<Id, Row>, kb: string, text: string, ids: seq<Id>, newGroup: string)
    returns (leader: Option<Id>)
    requires Similar(texts, m, kb, text, ids)
    ensures leader.Some? ==>
      Leading(texts, m, kb, text, leader.value) && GroupFor(m, ids, newGroup) == m[leader.value].group.value
    ensures leader.None? ==>
      GroupFor(m, ids, newGroup) == newGroup && forall id :: !GroupedCandidate(texts, m, kb, text, id)
  {
    var k := FirstGrouped(m, ids, newGroup);
    forall other | GroupedCandidate(texts, m, kb, text, other)
      ensures k < |ids| && texts.Score(m, text)(other) <= texts.Score(m, text)(ids[k])
    {
      var j :| 0 <= j < |ids| && ids[j] == other;
      assert k <= j;
    }
    leader := if k < |ids| then Some(ids[k]) else None;
  }

  // ids[k] is x, and all in front of it score higher.
  predicate FirstOfScore(score: Id -> real, ids: seq<Id>, x: Id, k: nat) {
    k < |ids| && ids[k] == x && forall j :: 0 <= j < k ==> score(ids[j]) > score(x)
  }

  lemma {:induction false} PlaceBehind(score: Id -> real, ids: seq<Id>, id: Id, x: Id, k: nat) returns (k': nat)
    requires FirstOfScore(score, ids, x, k) && Descending(score, ids) && Distinct(ids) && id !in ids
    ensures FirstOfScore(score, Place(score, ids, id), x, k')
  {
    var front, last := ids[..|ids| - 1], ids[|ids| - 1];
    if score(last) >= score(id) {
      k' := k;
    } else if k == |ids| - 1 {
      PlaceKeeps(score, front, id);
      var placed := Place(score, front, id);
      k' := |placed|;
      forall j | 0 <= j < |placed| ensures score(placed[j]) > score(x) {
        assert placed[j] in placed;
        assert placed[j] in front ==> exists i :: 0 <= i < |front| && front[i] == placed[j];
      }
    } else {
      k' := PlaceBehind(score, front, id, x, k);
    }
  }

  // Rows placed one by one behind x, which was placed first.
  lemma {:induction false} PlaceAll(score: Id -> real, ids: seq<Id>, left: set<Id>, x: Id, k: nat)
    returns (order: seq<Id>, at: nat)
    requires FirstOfScore(score, ids, x, k) && Descending(score, ids) && Distinct(ids)
    requires forall id :: id in left ==> id !in ids
    ensures FirstOfScore(score, order, x, at) && Descending(score, order) && Distinct(order)
    ensures forall id :: id in order <==> id in ids || id in left
    decreases |left|
  {
    if left == {} {
      order, at := ids, k;
    } else {
      var id :| id in left;
      PlaceKeeps(score, ids, id);
      var k' := PlaceBehind(score, ids, id, x, k);
      order, at := PlaceAll(score, Place(score, ids, id), left - {id}, x, k');
    }
  }

  // Whichever leading row is met first, its group is chosen.
  lemma LeaderChosen(texts: Texts, m: map<Id, Row>, kb: string, text: string, x: Id, newGroup: string) returns (ids: seq<Id>)
    requires Leading(texts, m, kb, text, x)
    ensures Similar(texts, m, kb, text, ids) && GroupFor(m, ids, newGroup) == m[x].group.value && |ids| > 0
  {
    var score := texts.Score(m, text);
    var all := set id | id in m && Candidate(texts, m, kb, text, id);
    var at;
    ids, at := PlaceAll(score, [x], all - {x}, x, 0);
    forall i | 0 <= i < |ids| ensures Candidate(texts, m, kb, text, ids[i]) {
      assert ids[i] in ids;
    }
    var k := FirstGrouped(m, ids, newGroup);
    assert forall j :: 0 <= j < at ==> (GroupedCandidate(texts, m, kb, text, ids[j]) <==> Grouped(m[ids[j]]));
  }

  ghost predicate OneGroupFor(texts: Texts, m: map<Id, Row>, kb: string, text: string, newGroup: string) {
    forall a, b :: Similar(texts, m, kb, text, a) && Similar(texts, m, kb, text, b) ==>
      GroupFor(m, a, newGroup) == GroupFor(m, b, newGroup)
  }

  // Every order of the resembling rows gives one group exactly if the leading rows have one.
  lemma GroupAgrees(texts: Texts, m: map<Id, Row>, kb: string, text: string, newGroup: string)
    ensures OneGroupFor(texts, m, kb, text, newGroup) <==> OneLeadingGroup(texts, m, kb, text)
  {
    if OneLeadingGroup(texts, m, kb, text) {
      forall a, b | Similar(texts, m, kb, text, a) && Similar(texts, m, kb, text, b)
        ensures GroupFor(m, a, newGroup) == GroupFor(m, b, newGroup)
      {
        var x := ChosenLeads(texts, m, kb, text, a, newGroup);
        var y := ChosenLeads(texts, m, kb, text, b, newGroup);
      }
    }
    if OneGroupFor(texts, m, kb, text, newGroup) {
      forall x, y | Leading(texts, m, kb, text, x) && Leading(texts, m, kb, text, y) ensures m[x].group == m[y].group {
        var a := LeaderChosen(texts, m, kb, text, x, newGroup);
        var b := LeaderChosen(texts, m, kb, text, y, newGroup);
      }
    }
  }

  // ----- The whole creation -----

  predicate Refused(p: Payload) {
    |p.text| == 0 || |p.kb| == 0
  }

  ghost predicate OneDuplicate(m: map<Id, Row>, kb: string, hash: string) {
    forall a, b :: a in m && b in m && Duplicates(m[a], kb, hash) && Duplicates(m[b], kb, hash) ==> m[a] == m[b]
  }

  // What can be told from the latest rows before the call.
  ghost predicate Determined(texts: Texts, m: map<Id, Row>, p: Payload) {
    if Refused(p) then true
    else if HasDuplicate(m, p.kb, texts.hashOf(p.text)) then OneDuplicate(m, p.kb, texts.hashOf(p.text))
    else OneLeadingGroup(texts, m, p.kb, p.text)
  }

  datatype Outcome = Outcome(result: Result<(Row, bool), Error>, op: Op, log: History)

  ghost predicate Possible(texts: Texts, h: History, p: Payload, newId: Id, newGroup: string, o: Outcome) {
    Created(texts, h, p, newId, newGroup, o.result, o.op, o.log)
  }

  // All ways the creation can go return the same and leave the same latest rows.
  ghost predicate OneOutcome(texts: Texts, h: History, p: Payload, newId: Id, newGroup: string) {
    forall a, b :: Possible(texts, h, p, newId, newGroup, a) && Possible(texts, h, p, newId, newGroup, b) ==>
      a.result == b.result && Latest(a.log) == Latest(b.log)
  }

  function NewRow(texts: Texts, p: Payload, newId: Id, similar: seq<Id>, group: string): Row {
    Row(newId, p.kb, p.text, texts.hashOf(p.text), VersionOf(p.version), p.previous,
        if |similar| > 0 then Some(group) else None, p.binding, if |similar| > 0 then Pending else OrPending(p.status))
  }

  // Any order of the resembling rows is a way it can go.
  lemma OrderIsPossible(texts: Texts, h: History, p: Payload, newId: Id, newGroup: string, similar: seq<Id>) returns (o: Outcome)
    requires Consistent(h) && Fresh(h, newId) && !Refused(p) && !HasDuplicate(Latest(h), p.kb, texts.hashOf(p.text))
    requires Similar(texts, Latest(h), p.kb, p.text, similar)
    ensures Possible(texts, h, p, newId, newGroup, o) && o.result.Ok? && o.op.Create? && o.op.similar == similar
    ensures |similar| > 0 ==> o.result.value.0.group == Some(GroupFor(Latest(h), similar, newGroup))
  {
    var group := GroupFor(Latest(h), similar, newGroup);
    var entry := NewRow(texts, p, newId, similar, group);
    CreationDone(texts, h, p, newId, newGroup, similar, group, entry);
    o := Outcome(Ok((entry, false)), Op.Create(entry, similar, group), Regroup(h, similar, group) + [entry]);
  }

  lemma SameMembers(texts: Texts, m: map<Id, Row>, kb: string, text: string, a: seq<Id>, b: seq<Id>)
    requires Similar(texts, m, kb, text, a) && Similar(texts, m, kb, text, b)
    ensures (forall x :: x in a <==> x in b) && (|a| == 0 <==> |b| == 0)
  {
    forall x ensures x in a <==> x in b {
      if x in a {
        var i :| 0 <= i < |a| && a[i] == x;
      }
      if x in b {
        var i :| 0 <= i < |b| && b[i] == x;
      }
    }
    assert |a| > 0 ==> a[0] in a;
    assert |b| > 0 ==> b[0] in b;
  }

  // Two creations with one group leave the same latest rows, however they ordered the others.
  lemma SameLatest(texts: Texts, h: History, p: Payload, newId: Id, newGroup: string, a: Outcome, b: Outcome)
    requires Consistent(h) && !Refused(p) && !HasDuplicate(Latest(h), p.kb, texts.hashOf(p.text))
    requires Possible(texts, h, p, newId, newGroup, a) && Possible(texts, h, p, newId, newGroup, b)
    requires OneGroupFor(texts, Latest(h), p.kb, p.text, newGroup)
    ensures a.result == b.result && Latest(a.log) == Latest(b.log)
  {
    SameMembers(texts, Latest(h), p.kb, p.text, a.op.similar, b.op.similar);
    ApplyLatest(h, a.op);
    ApplyLatest(h, b.op);
    SameRegrouped(Latest(h), a.op, b.op);
  }

  lemma SameRegrouped(m: map<Id, Row>, a: Op, b: Op)
    requires a.Create? && b.Create? && a.row == b.row
    requires (forall x :: x in a.similar <==> x in b.similar) && (|a.similar| == 0 <==> |b.similar| == 0)
    requires |a.similar| > 0 ==> a.group == b.group
    ensures LatestAfter(m, a) == LatestAfter(m, b)
  {
    if |a.similar| > 0 {
      assert Regrouped(m, a.similar, a.group) == Regrouped(m, b.similar, b.group);
    } else {
      assert Regrouped(m, a.similar, a.group) == m == Regrouped(m, b.similar, b.group);
    }
  }

  lemma SameDuplicates(texts: Texts, h: History, p: Payload, newId: Id, newGroup: string)
    requires !Refused(p) && HasDuplicate(Latest(h), p.kb, texts.hashOf(p.text))
    ensures OneOutcome(texts, h, p, newId, newGroup) <==> OneDuplicate(Latest(h), p.kb, texts.hashOf(p.text))
  {
    var m, hash := Latest(h), texts.hashOf(p.text);
    var op := Op.ClearKb("");
    if OneOutcome(texts, h, p, newId, newGroup) {
      forall x, y | x in m && y in m && Duplicates(m[x], p.kb, hash) && Duplicates(m[y], p.kb, hash) ensures m[x] == m[y] {
        assert Possible(texts, h, p, newId, newGroup, Outcome(Ok((m[x], true)), op, h));
        assert Possible(texts, h, p, newId, newGroup, Outcome(Ok((m[y], true)), op, h));
      }
    }
    if OneDuplicate(m, p.kb, hash) {
      forall a, b | Possible(texts, h, p, newId, newGroup, a) && Possible(texts, h, p, newId, newGroup, b)
        ensures a.result == b.result && Latest(a.log) == Latest(b.log)
      {
        var x :| x in m && m[x] == a.result.value.0;
        var y :| y in m && m[y] == b.result.value.0;
      }
    }
  }

  // Creating a row comes to the same however the latest rows are walked if and only if the
  // latest rows leave one duplicate to return, or one group to choose.
  lemma CreateAgrees(texts: Texts, h: History, p: Payload, newId: Id, newGroup: string)
    requires Consistent(h) && Fresh(h, newId)
    ensures OneOutcome(texts, h, p, newId, newGroup) <==> Determined(texts, Latest(h), p)
  {
    if !Refused(p) {
      if HasDuplicate(Latest(h), p.kb, texts.hashOf(p.text)) {
        SameDuplicates(texts, h, p, newId, newGroup);
      } else if OneLeadingGroup(texts, Latest(h), p.kb, p.text) {
        GroupsAgree(texts, h, p, newId, newGroup);
      } else {
        GroupsDiffer(texts, h, p, newId, newGroup);
      }
    }
  }

  lemma GroupsAgree(texts: Texts, h: History, p: Payload, newId: Id, newGroup: string)
    requires Consistent(h) && !Refused(p) && !HasDuplicate(Latest(h), p.kb, texts.hashOf(p.text))
    requires OneLeadingGroup(texts, Latest(h), p.kb, p.text)
    ensures OneOutcome(texts, h, p, newId, newGroup)
  {
    GroupAgrees(texts, Latest(h), p.kb, p.text, newGroup);
    forall a, b | Possible(texts, h, p, newId, newGroup, a) && Possible(texts, h, p, newId, newGroup, b)
      ensures a.result == b.result && Latest(a.log) == Latest(b.log)
    {
      SameLatest(texts, h, p, newId, newGroup, a, b);
    }
  }

  lemma GroupsDiffer(texts: Texts, h: History, p: Payload, newId: Id, newGroup: string)
    requires Consistent(h) && Fresh(h, newId) && !Refused(p) && !HasDuplicate(Latest(h), p.kb, texts.hashOf(p.text))
    requires !OneLeadingGroup(texts, Latest(h), p.kb, p.text)
    ensures !OneOutcome(texts, h, p, newId, newGroup)
  {
    var m := Latest(h);
    var x, y :| Leading(texts, m, p.kb, p.text, x) && Leading(texts, m, p.kb, p.text, y) && m[x].group != m[y].group;
    var a := LeaderChosen(texts, m, p.kb, p.text, x, newGroup);
    var b := LeaderChosen(texts, m, p.kb, p.text, y, newGroup);
    OrdersDiffer(texts, h, p, newId, newGroup, a, b);
  }

  lemma OrdersDiffer(texts: Texts, h: History, p: Payload, newId: Id, newGroup: string, a: seq<Id>, b: seq<Id>)
    requires Consistent(h) && Fresh(h, newId) && !Refused(p) && !HasDuplicate(Latest(h), p.kb, texts.hashOf(p.text))
    requires Similar(texts, Latest(h), p.kb, p.text, a) && Similar(texts, Latest(h), p.kb, p.text, b) && |a| > 0 && |b| > 0
    requires GroupFor(Latest(h), a, newGroup) != GroupFor(Latest(h), b, newGroup)
    ensures !OneOutcome(texts, h, p, newId, newGroup)
  {
    var first := OrderIsPossible(texts, h, p, newId, newGroup, a);
    var second := OrderIsPossible(texts, h, p, newId, newGroup, b);
    assert first.result != second.result;
  }

  // With unique active rows there is one duplicate at most.
  lemma UniqueIsOne(m: map<Id, Row>, kb: string, hash: string)
    requires UniqueActive(m)
    ensures OneDuplicate(m, kb, hash)
  {
    forall a, b | a in m && b in m && Duplicates(m[a], kb, hash) && Duplicates(m[b], kb, hash) ensures m[a] == m[b] {
      SameDuplicate(m, kb, hash, a, b);
    }
  }

  // ----- The logs -----

  predicate NoTies(score: Id -> real, ids: seq<Id>) {
    forall i, j :: 0 <= i < j < |ids| ==> score(ids[i]) != score(ids[j])
  }

  // Without ties there is one order by score.
  lemma {:induction false} OneOrder(score: Id -> real, a: seq<Id>, b: seq<Id>)
    requires Descending(score, a) && Descending(score, b) && Distinct(a) && Distinct(b) && NoTies(score, a)
    requires forall x :: x in a <==> x in b
    ensures a == b
  {
    SameEmpty(a, b);
    if |a| > 0 {
      FirstSame(score, a, b);
      var x, a', b' := a[0], a[1..], b[1..];
      assert a == [x] + a' && b == [x] + b';
      forall y ensures y in a' <==> y in b' {
        assert y in a' <==> y in a && y != x;
        assert y in b' <==> y in b && y != x;
      }
      OneOrder(score, a', b');
    }
  }

  lemma SameEmpty(a: seq<Id>, b: seq<Id>)
    requires forall x :: x in a <==> x in b
    ensures |a| == 0 <==> |b| == 0
    ensures |a| > 0 ==> a[0] in b && b[0] in a
  {
    assert |a| > 0 ==> a[0] in a;
    assert |b| > 0 ==> b[0] in b;
  }

  lemma FirstSame(score: Id -> real, a: seq<Id>, b: seq<Id>)
    requires Descending(score, a) && Descending(score, b) && NoTies(score, a) && |a| > 0 && |b| > 0
    requires a[0] in b && b[0] in a
    ensures a[0] == b[0]
  {
    var i: nat :| i < |b| && b[i] == a[0];
    var j: nat :| j < |a| && a[j] == b[0];
  }

  ghost predicate NoTiesAmong(texts: Texts, m: map<Id, Row>, kb: string, text: string) {
    forall a, b :: Candidate(texts, m, kb, text, a) && Candidate(texts, m, kb, text, b) && a != b ==>
      texts.Score(m, text)(a) != texts.Score(m, text)(b)
  }

  lemma OneSimilar(texts: Texts, m: map<Id, Row>, kb: string, text: string, a: seq<Id>, b: seq<Id>)
    requires Similar(texts, m, kb, text, a) && Similar(texts, m, kb, text, b) && NoTiesAmong(texts, m, kb, text)
    ensures a == b
  {
    SameMembers(texts, m, kb, text, a, b);
    assert forall i :: 0 <= i < |a| ==> Candidate(texts, m, kb, text, a[i]);
    OneOrder(texts.Score(m, text), a, b);
  }

  // Where no two rows that resemble the new one tie, even the logs are the same.
  lemma LogsAgree(texts: Texts, h: History, p: Payload, newId: Id, newGroup: string, a: Outcome, b: Outcome)
    requires !Refused(p) && !HasDuplicate(Latest(h), p.kb, texts.hashOf(p.text)) && NoTiesAmong(texts, Latest(h), p.kb, p.text)
    requires Possible(texts, h, p, newId, newGroup, a) && Possible(texts, h, p, newId, newGroup, b)
    ensures a.result == b.result && a.log == b.log
  {
    OneSimilar(texts, Latest(h), p.kb, p.text, a.op.similar, b.op.similar);
    SameLog(h, a.op, b.op);
  }

  lemma SameLog(h: History, a: Op, b: Op)
    requires a.Create? && b.Create? && Legal(h, a) && Legal(h, b) && a.row == b.row && a.similar == b.similar
    requires |a.similar| > 0 ==> a.group == b.group
    ensures Apply(h, a) == Apply(h, b)
  {
  }
}
