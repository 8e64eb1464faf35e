// A log on which creating a row chooses one conflict group in the file backend and another in the
// SQLite backend of src/cogdoc/api/derived_knowledge_store.py. A dictionary filled from the log
// keeps the ids in the order of their first snapshots; rows selected by their greatest event ids,
// for which SQL names no order, come in the order of their last if they come by event id.
module TiedGroups {
  import opened Options
  import opened Sequences
  import opened KnowledgeLog
  import opened KnowledgeStore
  import opened CreateAgreement

  // ----- Walking the latest rows -----

  function FirstWalk(ids: seq<Id>): seq<Id> {
    Unique(ids)
  }

  function LastWalk(ids: seq<Id>): seq<Id> {
    if |ids| == 0 then []
    else if ids[0] in ids[1..] then LastWalk(ids[1..])
    else [ids[0]] + LastWalk(ids[1..])
  }

  // A walk meets every latest row once.
  ghost predicate Walks(h: History, walk: seq<Id>) {
    Distinct(walk) && forall id :: id in walk <==> id in Latest(h)
  }

  lemma {:induction false} LastWalkDistinct(ids: seq<Id>)
    ensures Distinct(LastWalk(ids)) && forall id :: id in LastWalk(ids) <==> id in ids
  {
    if |ids| > 0 {
      LastWalkDistinct(ids[1..]);
      assert ids == [ids[0]] + ids[1..];
    }
  }

  lemma LoggedIds(h: History, id: Id)
    requires Consistent(h)
    ensures id in IdsOf(h) <==> id in Latest(h)
  {
    if id in IdsOf(h) {
      var i :| 0 <= i < |IdsOf(h)| && IdsOf(h)[i] == id;
      assert h[i].id == id;
    }
    if id in Latest(h) {
      LatestFromHistory(h, id);
      var i :| 0 <= i < |h| && h[i] == Latest(h)[id];
      assert IdsOf(h)[i] == id;
    }
  }

  lemma BothWalk(h: History)
    requires Consistent(h)
    ensures Walks(h, FirstWalk(IdsOf(h))) && Walks(h, LastWalk(IdsOf(h)))
  {
    UniqueDistinct(IdsOf(h));
    LastWalkDistinct(IdsOf(h));
    forall id ensures id in IdsOf(h) <==> id in Latest(h) {
      LoggedIds(h, id);
    }
  }

  // _find_similar along a walk: a stable sort by falling score of the rows that resemble.
  function SimilarAlong(texts: Texts, m: map<Id, Row>, kb: string, text: string, walk: seq<Id>): seq<Id> {
    if |walk| == 0 then []
    else
      var front, last := SimilarAlong(texts, m, kb, text, walk[..|walk| - 1]), walk[|walk| - 1];
      if Candidate(texts, m, kb, text, last) then Place(texts.Score(m, text), front, last) else front
  }

  lemma {:induction false} AlongSorts(texts: Texts, m: map<Id, Row>, kb: string, text: string, walk: seq<Id>)
    requires Distinct(walk)
    ensures var ids := SimilarAlong(texts, m, kb, text, walk);
      Distinct(ids) && Descending(texts.Score(m, text), ids)
      && forall id :: id in ids <==> id in walk && Candidate(texts, m, kb, text, id)
  {
    if |walk| > 0 {
      var front, last := walk[..|walk| - 1], walk[|walk| - 1];
      AlongSorts(texts, m, kb, text, front);
      assert walk == front + [last] && last !in front;
      if Candidate(texts, m, kb, text, last) {
        PlaceKeeps(texts.Score(m, text), SimilarAlong(texts, m, kb, text, front), last);
      }
    }
  }

  // Along every walk it finds what the search promises.
  lemma AlongIsSimilar(texts: Texts, h: History, kb: string, text: string, walk: seq<Id>)
    requires Walks(h, walk)
    ensures Similar(texts, Latest(h), kb, text, SimilarAlong(texts, Latest(h), kb, text, walk))
  {
    AlongSorts(texts, Latest(h), kb, text, walk);
    var ids := SimilarAlong(texts, Latest(h), kb, text, walk);
    forall i | 0 <= i < |ids| ensures Candidate(texts, Latest(h), kb, text, ids[i]) {
      assert ids[i] in ids;
    }
  }

  // ----- The log -----

  // Texts resemble if they start alike, and x resembles all.
  predicate Alike(a: string, b: string) {
    |a| > 0 && |b| > 0 && (a[0] == 'x' || b[0] == 'x' || a[0] == b[0])
  }

  function Sample(): Texts {
    Texts((s: string) => s, (a: string, b: string) => if Alike(a, b) then 1.0 else 0.0, (x: real) => x)
  }

  function Draft(id: Id, text: string, group: Option<string>, status: Status): Row {
    Row(id, "kb", text, text, 1, None, group, Binding(None, None), status)
  }

  predicate FourIds(k: seq<Id>) {
    |k| == 4 && Distinct(k) && forall i :: 0 <= i < 4 ==> |k[i]| > 0
  }

  // Two rows alike are in group C1, two others in group C2, and then the first two are approved.
  function TiedOps(k: seq<Id>): seq<Op>
    requires |k| == 4
  {
    [Create(Draft(k[0], "a1", None, Pending), [], ""),
     Create(Draft(k[1], "a2", Some("C1"), Pending), [k[0]], "C1"),
     Create(Draft(k[2], "b1", None, Pending), [], ""),
     Create(Draft(k[3], "b2", Some("C2"), Pending), [k[2]], "C2"),
     SetStatus(k[0], Approved, Binding(None, None)),
     SetStatus(k[1], Approved, Binding(None, None))]
  }

  function TiedLogs(k: seq<Id>): seq<History>
    requires |k| == 4
  {
    var h1 := [Draft(k[0], "a1", None, Pending)];
    var h2 := h1 + [Draft(k[0], "a1", Some("C1"), Pending), Draft(k[1], "a2", Some("C1"), Pending)];
    var h3 := h2 + [Draft(k[2], "b1", None, Pending)];
    var h4 := h3 + [Draft(k[2], "b1", Some("C2"), Pending), Draft(k[3], "b2", Some("C2"), Pending)];
    var h5 := h4 + [Draft(k[0], "a1", Some("C1"), Approved)];
    var h6 := h5 + [Draft(k[1], "a2", Some("C1"), Approved)];
    [[], h1, h2, h3, h4, h5, h6]
  }

  function TiedRows(k: seq<Id>): map<Id, Row>
    requires |k| == 4
  {
    map[k[0] := Draft(k[0], "a1", Some("C1"), Approved), k[1] := Draft(k[1], "a2", Some("C1"), Approved),
        k[2] := Draft(k[2], "b1", Some("C2"), Pending), k[3] := Draft(k[3], "b2", Some("C2"), Pending)]
  }

  lemma LatestTwo(h: History, r: Row, s: Row)
    requires |r.id| > 0 && |s.id| > 0
    ensures Latest(h + [r, s]) == Latest(h)[r.id := r][s.id := s]
  {
    LatestAppend(h, r);
    LatestAppend(h + [r], s);
    assert h + [r, s] == h + [r] + [s];
  }

  lemma TiedLatest(k: seq<Id>)
    requires FourIds(k)
    ensures var hs := TiedLogs(k);
      && Latest(hs[1]) == map[k[0] := Draft(k[0], "a1", None, Pending)]
      && Latest(hs[2]) == map[k[0] := Draft(k[0], "a1", Some("C1"), Pending), k[1] := Draft(k[1], "a2", Some("C1"), Pending)]
      && Latest(hs[3]) == Latest(hs[2])[k[2] := Draft(k[2], "b1", None, Pending)]
      && Latest(hs[4]) == Latest(hs[2])[k[2] := Draft(k[2], "b1", Some("C2"), Pending)][k[3] := Draft(k[3], "b2", Some("C2"), Pending)]
      && Latest(hs[5]) == Latest(hs[4])[k[0] := Draft(k[0], "a1", Some("C1"), Approved)]
      && Latest(hs[6]) == TiedRows(k)
  {
    var hs := TiedLogs(k);
    LatestAppend([], Draft(k[0], "a1", None, Pending));
    assert [] + [Draft(k[0], "a1", None, Pending)] == hs[1];
    LatestTwo(hs[1], Draft(k[0], "a1", Some("C1"), Pending), Draft(k[1], "a2", Some("C1"), Pending));
    LatestAppend(hs[2], Draft(k[2], "b1", None, Pending));
    LatestTwo(hs[3], Draft(k[2], "b1", Some("C2"), Pending), Draft(k[3], "b2", Some("C2"), Pending));
    LatestAppend(hs[4], Draft(k[0], "a1", Some("C1"), Approved));
    LatestAppend(hs[5], Draft(k[1], "a2", Some("C1"), Approved));
  }

  lemma CreateAloneStep(h: History, row: Row)
    requires Fresh(h, row.id) && !HasDuplicate(Latest(h), row.kb, row.hash) && row.group == None
    ensures Legal(h, Create(row, [], "")) && Apply(h, Create(row, [], "")) == h + [row]
  {
  }

  lemma CreateBesideStep(h: History, row: Row, beside: Id, group: string)
    requires Fresh(h, row.id) && !HasDuplicate(Latest(h), row.kb, row.hash) && row.group == Some(group) && row.status.Pending?
    requires beside in Latest(h) && Latest(h)[beside].kb == row.kb && Latest(h)[beside].status.Active()
    requires Latest(h)[beside].group == None
    ensures Legal(h, Create(row, [beside], group))
    ensures Apply(h, Create(row, [beside], group)) == h + [Latest(h)[beside].(group := Some(group)), row]
  {
    assert [beside][..0] == [];
    assert Regroup(h, [beside], group) == h + [Latest(h)[beside].(group := Some(group))];
  }

  lemma ApproveStep(h: History, id: Id)
    requires id in Latest(h) && Latest(h)[id].previous == None && Latest(h)[id].binding == Binding(None, None)
    ensures Legal(h, SetStatus(id, Approved, Binding(None, None)))
    ensures Apply(h, SetStatus(id, Approved, Binding(None, None))) == h + [Latest(h)[id].(status := Approved)]
  {
  }

  lemma SampleTexts()
    ensures "a1" != "a2" && "a1" != "b1" && "a1" != "b2" && "a2" != "b1" && "a2" != "b2" && "b1" != "b2"
  {
    assert "a1"[1] == '1' && "a2"[1] == '2' && "b1"[1] == '1' && "b2"[1] == '2';
    assert "a1"[0] == 'a' && "a2"[0] == 'a' && "b1"[0] == 'b' && "b2"[0] == 'b';
  }

  lemma FirstStep(k: seq<Id>)
    requires FourIds(k)
    ensures StepAt(TiedLogs(k), TiedOps(k), 0)
  {
    CreateAloneStep([], Draft(k[0], "a1", None, Pending));
  }

  lemma SecondStep(k: seq<Id>)
    requires FourIds(k)
    ensures StepAt(TiedLogs(k), TiedOps(k), 1)
  {
    SampleTexts();
    TiedLatest(k);
    CreateBesideStep(TiedLogs(k)[1], Draft(k[1], "a2", Some("C1"), Pending), k[0], "C1");
  }

  lemma ThirdStep(k: seq<Id>)
    requires FourIds(k)
    ensures StepAt(TiedLogs(k), TiedOps(k), 2)
  {
    SampleTexts();
    TiedLatest(k);
    CreateAloneStep(TiedLogs(k)[2], Draft(k[2], "b1", None, Pending));
  }

  lemma FourthStep(k: seq<Id>)
    requires FourIds(k)
    ensures StepAt(TiedLogs(k), TiedOps(k), 3)
  {
    SampleTexts();
    TiedLatest(k);
    CreateBesideStep(TiedLogs(k)[3], Draft(k[3], "b2", Some("C2"), Pending), k[2], "C2");
  }

  lemma LastSteps(k: seq<Id>)
    requires FourIds(k)
    ensures StepAt(TiedLogs(k), TiedOps(k), 4) && StepAt(TiedLogs(k), TiedOps(k), 5)
  {
    TiedLatest(k);
    ApproveStep(TiedLogs(k)[4], k[0]);
    ApproveStep(TiedLogs(k)[5], k[1]);
  }

  lemma TiedUnique(k: seq<Id>)
    requires FourIds(k)
    ensures UniqueActive(TiedRows(k))
  {
    SampleTexts();
    forall a, b ensures !Rivals(TiedRows(k), a, b) {
    }
  }

  lemma TiedRun(k: seq<Id>)
    requires FourIds(k)
    ensures IsRun(TiedLogs(k), TiedOps(k)) && UniqueActive(TiedRows(k)) && Latest(TiedLogs(k)[6]) == TiedRows(k)
  {
    FirstStep(k);
    SecondStep(k);
    ThirdStep(k);
    FourthStep(k);
    LastSteps(k);
    TiedLatest(k);
    TiedUnique(k);
  }

  // ----- Creating a row that resembles all of them -----

  lemma {:induction false} UniqueFirst(ids: seq<Id>)
    requires |ids| > 0
    ensures |Unique(ids)| > 0 && Unique(ids)[0] == ids[0]
  {
    if |ids| > 1 {
      UniqueFirst(ids[..|ids| - 1]);
    }
  }

  // Where all score alike, the walk is the order.
  lemma {:induction false} TiedKeepWalk(texts: Texts, m: map<Id, Row>, kb: string, text: string, walk: seq<Id>, score: real)
    requires forall i :: 0 <= i < |walk| ==>
      Candidate(texts, m, kb, text, walk[i]) && texts.Score(m, text)(walk[i]) == score
    ensures SimilarAlong(texts, m, kb, text, walk) == walk
  {
    if |walk| > 0 {
      TiedKeepWalk(texts, m, kb, text, walk[..|walk| - 1], score);
      assert walk == walk[..|walk| - 1] + [walk[|walk| - 1]];
    }
  }

  lemma AllResemble(k: seq<Id>, id: Id)
    requires FourIds(k) && id in TiedRows(k)
    ensures Candidate(Sample(), TiedRows(k), "kb", "x", id) && Sample().Score(TiedRows(k), "x")(id) == 1.0
    ensures Grouped(TiedRows(k)[id])
  {
    var m := TiedRows(k);
    assert "x"[0] == 'x' && |m[id].text| > 0;
    assert Alike("x", m[id].text);
    assert |"C1"| > 0 && |"C2"| > 0;
  }

  lemma TiedWalk(k: seq<Id>, walk: seq<Id>, newGroup: string)
    requires FourIds(k) && |walk| > 0 && Walks(TiedLogs(k)[6], walk) && Latest(TiedLogs(k)[6]) == TiedRows(k)
    ensures SimilarAlong(Sample(), TiedRows(k), "kb", "x", walk) == walk
    ensures walk[0] in TiedRows(k) && GroupFor(TiedRows(k), walk, newGroup) == TiedRows(k)[walk[0]].group.value
  {
    forall i | 0 <= i < |walk|
      ensures walk[i] in TiedRows(k) && Candidate(Sample(), TiedRows(k), "kb", "x", walk[i])
              && Sample().Score(TiedRows(k), "x")(walk[i]) == 1.0
    {
      assert walk[i] in walk;
      AllResemble(k, walk[i]);
    }
    AllResemble(k, walk[0]);
    TiedKeepWalk(Sample(), TiedRows(k), "kb", "x", walk, 1.0);
  }

  lemma TiedIds(k: seq<Id>)
    requires |k| == 4
    ensures IdsOf(TiedLogs(k)[6]) == [k[0]] + ([k[0]] + ([k[1]] + ([k[2]] + ([k[2]] + [k[3], k[0], k[1]]))))
  {
  }

  lemma WalkStep(id: Id, ids: seq<Id>)
    ensures LastWalk([id] + ids) == if id in ids then LastWalk(ids) else [id] + LastWalk(ids)
  {
    assert ([id] + ids)[1..] == ids;
  }

  lemma WalkSkips(id: Id, ids: seq<Id>)
    requires id in ids
    ensures LastWalk([id] + ids) == LastWalk(ids)
  {
    WalkStep(id, ids);
  }

  lemma LastWalkSkips(a: Id, b: Id, c: Id, rest: seq<Id>)
    requires a in rest && b in rest && c !in rest
    ensures LastWalk([a] + ([a] + ([b] + ([c] + ([c] + rest))))) == [c] + LastWalk(rest)
  {
    WalkStep(c, rest);
    WalkSkips(c, [c] + rest);
    WalkSkips(b, [c] + ([c] + rest));
    WalkSkips(a, [b] + ([c] + ([c] + rest)));
    WalkSkips(a, [a] + ([b] + ([c] + ([c] + rest))));
  }

  lemma WalksDiffer(k: seq<Id>)
    requires FourIds(k)
    ensures var ids := IdsOf(TiedLogs(k)[6]);
      |FirstWalk(ids)| > 0 && FirstWalk(ids)[0] == k[0] && |LastWalk(ids)| > 0 && LastWalk(ids)[0] == k[2]
  {
    TiedIds(k);
    UniqueFirst(IdsOf(TiedLogs(k)[6]));
    LastWalkSkips(k[0], k[1], k[2], [k[3], k[0], k[1]]);
  }

  // Active rows are unique, and yet the order of first snapshots leads to one group and the
  // order of last snapshots to the other.
  lemma BackendsDiffer(k: seq<Id>, p: Payload, newId: Id, newGroup: string) returns (first: Outcome, last: Outcome)
    requires FourIds(k) && p.text == "x" && p.kb == "kb" && Fresh(TiedLogs(k)[6], newId)
    ensures IsRun(TiedLogs(k), TiedOps(k)) && UniqueActive(Latest(TiedLogs(k)[6]))
    ensures Possible(Sample(), TiedLogs(k)[6], p, newId, newGroup, first)
         && Possible(Sample(), TiedLogs(k)[6], p, newId, newGroup, last)
    ensures var h := TiedLogs(k)[6];
      && first.op.Create? && first.op.similar == SimilarAlong(Sample(), Latest(h), "kb", "x", FirstWalk(IdsOf(h)))
      && last.op.Create? && last.op.similar == SimilarAlong(Sample(), Latest(h), "kb", "x", LastWalk(IdsOf(h)))
    ensures first.result.Ok? && first.result.value.0.group == Some("C1")
    ensures last.result.Ok? && last.result.value.0.group == Some("C2")
  {
    var h := TiedLogs(k)[6];
    TiedRun(k);
    RunConsistent(TiedLogs(k), TiedOps(k), 6);
    BothWalk(h);
    WalksDiffer(k);
    first := AlongWalk(k, p, newId, newGroup, FirstWalk(IdsOf(h)));
    last := AlongWalk(k, p, newId, newGroup, LastWalk(IdsOf(h)));
  }

  lemma AlongWalk(k: seq<Id>, p: Payload, newId: Id, newGroup: string, walk: seq<Id>) returns (o: Outcome)
    requires FourIds(k) && p.text == "x" && p.kb == "kb" && Fresh(TiedLogs(k)[6], newId)
    requires Consistent(TiedLogs(k)[6]) && Latest(TiedLogs(k)[6]) == TiedRows(k)
    requires |walk| > 0 && Walks(TiedLogs(k)[6], walk)
    ensures Possible(Sample(), TiedLogs(k)[6], p, newId, newGroup, o) && o.op.Create?
    ensures o.op.similar == SimilarAlong(Sample(), TiedRows(k), "kb", "x", walk)
    ensures walk[0] in TiedRows(k) && o.result.Ok? && o.result.value.0.group == TiedRows(k)[walk[0]].group
  {
    AlongIsSimilar(Sample(), TiedLogs(k)[6], "kb", "x", walk);
    TiedWalk(k, walk, newGroup);
    AllResemble(k, walk[0]);
    NoSuchText(k);
    o := OrderIsPossible(Sample(), TiedLogs(k)[6], p, newId, newGroup, walk);
  }

  lemma NoSuchText(k: seq<Id>)
    requires FourIds(k)
    ensures !HasDuplicate(TiedRows(k), "kb", Sample().hashOf("x")) && |"x"| > 0 && |"kb"| > 0
  {
    assert |"x"| == 1 && |"a1"| == 2 && |"a2"| == 2 && |"b1"| == 2 && |"b2"| == 2;
  }
}
