// DerivedKnowledgeStore of src/cogdoc/api/derived_knowledge_store.py: its methods over the log.
// Each changing method is one operation of KnowledgeLog, or a run of them. New ids are
// parameters; texts and ids arrive stripped; iteration over the latest rows is in any order.
module KnowledgeStore {
  import opened Options
  import opened Sequences
  import opened KnowledgeLog

  datatype Error =
    | BlankText
    | BlankKb
    | NotRevisable(status: Status)
    | DuplicateActive(id: Id)
    | InvalidStatus(name: string)
    | Busy

  datatype Payload = Payload(
    text: string, kb: string, version: Option<int>, previous: Option<Id>,
    status: Option<Status>, binding: Binding)

  // A binding field that is not supplied keeps the value of the row revised.
  datatype Revision = Revision(
    text: string, status: Option<Status>, source: Option<Option<string>>, sha256: Option<Option<string>>)

  // What the store computes of texts: the hash of one, the similarity of two, a rounded score.
  datatype Texts = Texts(hashOf: string -> string, similarity: (string, string) -> real, rounded: real -> real) {
    predicate Resembles(r: Row, kb: string, text: string) {
      r.kb == kb && r.status.Active() && similarity(text, r.text) >= 0.72
    }

    function Score(latest: map<Id, Row>, text: string): Id -> real {
      (id: Id) => if id in latest then rounded(similarity(text, latest[id].text)) else 0.0
    }
  }

  function OrPending(status: Option<Status>): Status {
    if status.Some? then status.value else Pending
  }

  function VersionOf(version: Option<int>): int {
    if version.Some? && version.value != 0 then version.value else 1
  }

  function Or<T>(given: Option<T>, otherwise: T): T {
    if given.Some? then given.value else otherwise
  }

  predicate Grouped(r: Row) {
    r.group.Some? && |r.group.value| > 0
  }

  // The group of the first row that has one, else a new group.
  function GroupFor(m: map<Id, Row>, ids: seq<Id>, newGroup: string): string
    requires forall i :: 0 <= i < |ids| ==> ids[i] in m
  {
    if |ids| == 0 then newGroup
    else if Grouped(m[ids[0]]) then m[ids[0]].group.value
    else GroupFor(m, ids[1..], newGroup)
  }

  // ----- Order of similar rows -----

  predicate Descending(score: Id -> real, ids: seq<Id>) {
    forall i, j :: 0 <= i < j < |ids| ==> score(ids[i]) >= score(ids[j])
  }

  // Into a descending list, behind the ids of equal score.
  function Place(score: Id -> real, ids: seq<Id>, id: Id): seq<Id> {
    if |ids| == 0 || score(ids[|ids| - 1]) >= score(id) then ids + [id]
    else Place(score, ids[..|ids| - 1], id) + [ids[|ids| - 1]]
  }

  lemma {:induction false} PlaceKeeps(score: Id -> real, ids: seq<Id>, id: Id)
    requires Descending(score, ids) && Distinct(ids) && id !in ids
    ensures Descending(score, Place(score, ids, id)) && Distinct(Place(score, ids, id))
    ensures forall x :: x in Place(score, ids, id) <==> x == id || x in ids
  {
    if |ids| > 0 && score(ids[|ids| - 1]) < score(id) {
      var front, last := ids[..|ids| - 1], ids[|ids| - 1];
      PlaceKeeps(score, front, id);
      var placed := Place(score, front, id);
      assert ids == front + [last];
      forall i | 0 <= i < |placed| ensures placed[i] != last && score(placed[i]) >= score(last) {
        assert placed[i] in placed;
      }
    }
  }

  // ----- Scans -----

  function StaleRow(r: Row): Row {
    r.(status := Stale)
  }

  // The latest rows after those picked were marked stale.
  function Staled(m: map<Id, Row>, picked: Row -> bool): map<Id, Row> {
    map id | id in m :: if picked(m[id]) then StaleRow(m[id]) else m[id]
  }

  // A row approved against a document that has since changed or gone.
  predicate Outdated(r: Row, kb: string, current: map<string, string>) {
    r.kb == kb && r.status.Approved?
    && r.binding.source.Some? && |r.binding.source.value| > 0
    && r.binding.sha256.Some? && |r.binding.sha256.value| > 0
    && !(r.binding.source.value in current && current[r.binding.source.value] == r.binding.sha256.value)
  }

  predicate BoundTo(r: Row, kb: string, source: string, sha256: string) {
    r.kb == kb && r.status.Approved? && r.binding == Binding(Some(source), Some(sha256))
  }

  // ----- Statuses of many rows -----

  // What set_status on each id in turn makes of the log; ids without a row are passed over.
  function SetAll(h: History, ids: seq<Id>, status: Status): History {
    if |ids| == 0 then h
    else SetOne(SetAll(h, ids[..|ids| - 1], status), ids[|ids| - 1], status)
  }

  function SetOne(h: History, id: Id, status: Status): History {
    var op := SetStatus(id, status, Binding(None, None));
    if Legal(h, op) then Apply(h, op) else h
  }

  function Restatus(m: map<Id, Row>, ids: seq<Id>, status: Status): map<Id, Row> {
    map id | id in m :: if id in ids then m[id].(status := status) else m[id]
  }

  // Set_status neither adds a row nor drops one.
  lemma {:induction false} SetAllKeys(h: History, ids: seq<Id>, status: Status)
    requires Consistent(h)
    ensures Consistent(SetAll(h, ids, status)) && Latest(SetAll(h, ids, status)).Keys == Latest(h).Keys
  {
    if |ids| > 0 {
      SetAllKeys(h, ids[..|ids| - 1], status);
      SetOneKeys(SetAll(h, ids[..|ids| - 1], status), ids[|ids| - 1], status);
    }
  }

  lemma SetOneKeys(h: History, id: Id, status: Status)
    requires Consistent(h)
    ensures Consistent(SetOne(h, id, status)) && Latest(SetOne(h, id, status)).Keys == Latest(h).Keys
    ensures status.Valid() && !status.Approved? ==> Latest(SetOne(h, id, status)) == Restatus(Latest(h), [id], status)
  {
    var op := SetStatus(id, status, Binding(None, None));
    if Legal(h, op) {
      ApplyLatest(h, op);
      StatusOnLatest(Latest(h), op);
    }
  }

  lemma StatusOnLatest(m: map<Id, Row>, op: Op)
    requires op.SetStatus? && op.id in m && op.updates == Binding(None, None)
    ensures LatestAfter(m, op).Keys == m.Keys
    ensures !op.status.Approved? ==> LatestAfter(m, op) == Restatus(m, [op.id], op.status)
  {
  }

  // Short of an approval, which may archive previous versions, exactly the named rows change.
  lemma {:induction false} SetAllLatest(h: History, ids: seq<Id>, status: Status)
    requires Consistent(h) && status.Valid() && !status.Approved?
    ensures Latest(SetAll(h, ids, status)) == Restatus(Latest(h), ids, status)
  {
    if |ids| > 0 {
      var ids', id := ids[..|ids| - 1], ids[|ids| - 1];
      SetAllLatest(h, ids', status);
      SetAllKeys(h, ids', status);
      SetOneKeys(SetAll(h, ids', status), id, status);
      RestatusMore(Latest(h), ids', id, status);
      assert ids == ids' + [id];
    }
  }

  lemma RestatusMore(m: map<Id, Row>, ids: seq<Id>, id: Id, status: Status)
    ensures Restatus(Restatus(m, ids, status), [id], status) == Restatus(m, ids + [id], status)
  {
  }

  // The operations such a batch comes to.
  function StatusOps(known: set<Id>, ids: seq<Id>, status: Status): seq<Op> {
    if |ids| == 0 then []
    else
      StatusOps(known, ids[..|ids| - 1], status)
      + if ids[|ids| - 1] in known then [SetStatus(ids[|ids| - 1], status, Binding(None, None))] else []
  }

  lemma {:induction false} BatchIsChain(h: History, ids: seq<Id>, status: Status)
    requires Consistent(h) && (status.Valid() || |ids| == 0)
    ensures After(h, StatusOps(Latest(h).Keys, ids, status)) == Some(SetAll(h, ids, status))
  {
    if |ids| > 0 {
      var ids', id := ids[..|ids| - 1], ids[|ids| - 1];
      BatchIsChain(h, ids', status);
      SetAllKeys(h, ids', status);
      var ops, op := StatusOps(Latest(h).Keys, ids', status), SetStatus(id, status, Binding(None, None));
      if id in Latest(h) {
        AfterOne(SetAll(h, ids', status), op);
        AfterConcat(h, ops, [op]);
      } else {
        assert StatusOps(Latest(h).Keys, ids, status) == ops;
      }
    }
  }

  // What a scan leaves in the rows and hands back.
  ghost predicate Marked(m: map<Id, Row>, done: seq<Id>, stale: seq<Row>) {
    |stale| == |done| && forall i :: 0 <= i < |done| ==> done[i] in m && stale[i] == StaleRow(m[done[i]])
  }

  ghost predicate Scanned(m: map<Id, Row>, picked: Row -> bool, left: set<Id>, done: seq<Id>, stale: seq<Row>) {
    && Distinct(done) && Marked(m, done, stale)
    && forall id :: id in done <==> id in m && id !in left && picked(m[id])
  }

  lemma ScannedMore(m: map<Id, Row>, picked: Row -> bool, left: set<Id>, done: seq<Id>, stale: seq<Row>, id: Id)
    requires Scanned(m, picked, left, done, stale) && id in left && id in m && picked(m[id])
    ensures Scanned(m, picked, left - {id}, done + [id], stale + [StaleRow(m[id])]) && id !in done
  {
  }

  lemma ScannedPast(m: map<Id, Row>, picked: Row -> bool, left: set<Id>, done: seq<Id>, stale: seq<Row>, id: Id)
    requires Scanned(m, picked, left, done, stale) && id in left && id in m && !picked(m[id])
    ensures Scanned(m, picked, left - {id}, done, stale)
  {
  }

  lemma ScanResult(m: map<Id, Row>, picked: Row -> bool, done: seq<Id>, stale: seq<Row>)
    requires Keyed(m) && Scanned(m, picked, {}, done, stale)
    ensures Restatus(m, done, Stale) == Staled(m, picked)
    ensures Distinct(IdsOf(stale))
    ensures forall r: Row :: r in stale <==> r.id in m && picked(m[r.id]) && r == StaleRow(m[r.id])
  {
    assert IdsOf(stale) == done;
    forall r: Row | r.id in m && picked(m[r.id]) && r == StaleRow(m[r.id]) ensures r in stale {
      assert r.id in done;
      var i :| 0 <= i < |done| && done[i] == r.id;
      assert stale[i] == r;
    }
    forall r | r in stale ensures r.id in m && picked(m[r.id]) && r == StaleRow(m[r.id]) {
      var i :| 0 <= i < |stale| && stale[i] == r;
      assert done[i] in done;
    }
  }

  // With unique active rows every search order finds the same duplicate.
  lemma SameDuplicate(m: map<Id, Row>, kb: string, hash: string, a: Id, b: Id)
    requires UniqueActive(m) && a in m && b in m && Duplicates(m[a], kb, hash) && Duplicates(m[b], kb, hash)
    ensures a == b
  {
    assert !Rivals(m, a, b);
  }

  function Select(ids: seq<Id>, known: set<Id>, wanted: bool): seq<Id> {
    if |ids| == 0 then []
    else
      Select(ids[..|ids| - 1], known, wanted)
      + if (ids[|ids| - 1] in known) == wanted then [ids[|ids| - 1]] else []
  }

  function IdsOf(rows: seq<Row>): seq<Id> {
    seq(|rows|, i requires 0 <= i < |rows| => rows[i].id)
  }

  // The rows updated and the ids missing after ids were gone through.
  ghost predicate Parted(known: set<Id>, ids: seq<Id>, updated: seq<Row>, missing: seq<Id>, status: Status) {
    && IdsOf(updated) == Select(ids, known, true) && missing == Select(ids, known, false)
    && forall i :: 0 <= i < |updated| ==> updated[i].status == status
  }

  lemma PartedNext(known: set<Id>, ids: seq<Id>, updated: seq<Row>, missing: seq<Id>, status: Status, id: Id, row: Option<Row>)
    requires Parted(known, ids, updated, missing, status)
    requires row.Some? <==> id in known
    requires row.Some? ==> row.value.id == id && row.value.status == status
    ensures if row.Some? then Parted(known, ids + [id], updated + [row.value], missing, status)
            else Parted(known, ids + [id], updated, missing + [id], status)
  {
    assert (ids + [id])[..|ids|] == ids;
    if row.Some? {
      assert IdsOf(updated + [row.value]) == IdsOf(updated) + [id];
    }
  }

  // ----- Searches through the latest rows, in any order -----

  method SearchDuplicate(latest: map<Id, Row>, kb: string, hash: string) returns (found: Option<Row>)
    requires Keyed(latest)
    ensures found.Some? <==> HasDuplicate(latest, kb, hash)
    ensures found.Some? ==> found.value.id in latest && latest[found.value.id] == found.value && Duplicates(found.value, kb, hash)
  {
    var left := latest.Keys;
    found := None;
    while left != {}
      invariant left <= latest.Keys
      invariant forall id :: id in latest && id !in left ==> !Duplicates(latest[id], kb, hash)
    {
      var id :| id in left;
      if Duplicates(latest[id], kb, hash) {
        return Some(latest[id]);
      }
      left := left - {id};
    }
  }

  // The rows that resemble a text, by falling score.
  ghost predicate Similar(texts: Texts, latest: map<Id, Row>, kb: string, text: string, ids: seq<Id>) {
    && Distinct(ids) && Descending(texts.Score(latest, text), ids)
    && (forall i :: 0 <= i < |ids| ==> ids[i] in latest && texts.Resembles(latest[ids[i]], kb, text))
    && (forall id :: id in latest && texts.Resembles(latest[id], kb, text) ==> id in ids)
  }

  method SearchSimilar(texts: Texts, latest: map<Id, Row>, kb: string, text: string) returns (ids: seq<Id>)
    ensures Similar(texts, latest, kb, text, ids)
  {
    var score := texts.Score(latest, text);
    var left := latest.Keys;
    ids := [];
    while left != {}
      invariant left <= latest.Keys
      invariant Distinct(ids) && Descending(score, ids)
      invariant forall id :: id in ids <==> id in latest && id !in left && texts.Resembles(latest[id], kb, text)
    {
      var id :| id in left;
      if texts.Resembles(latest[id], kb, text) {
        PlaceKeeps(score, ids, id);
        ids := Place(score, ids, id);
      }
      left := left - {id};
    }
    forall i | 0 <= i < |ids| ensures ids[i] in latest && texts.Resembles(latest[ids[i]], kb, text) {
      assert ids[i] in ids;
    }
  }

  // The group of the first of some rows that has one, else a new group.
  method ChooseGroup(latest: map<Id, Row>, ids: seq<Id>, newGroup: string) returns (group: string)
    requires forall i :: 0 <= i < |ids| ==> ids[i] in latest
    ensures group == GroupFor(latest, ids, newGroup)
  {
    var k := 0;
    while k < |ids| && !Grouped(latest[ids[k]])
      invariant k <= |ids|
      invariant GroupFor(latest, ids, newGroup) == GroupFor(latest, ids[k..], newGroup)
    {
      k := k + 1;
    }
    group := if k < |ids| then latest[ids[k]].group.value else newGroup;
  }

  // ----- What create, revise and set_status make of a log, in either backend -----

  // A blank text or knowledge base is refused, an active row with the same text is returned,
  // and otherwise one creation happens, pending when any active row resembles the new one.
  ghost predicate Created(
    texts: Texts, h: History, p: Payload, newId: Id, newGroup: string, result: Result<(Row, bool), Error>, op: Op, h': History)
  {
    var m, hash := Latest(h), texts.hashOf(p.text);
    if |p.text| == 0 then result == Err(BlankText) && h' == h
    else if |p.kb| == 0 then result == Err(BlankKb) && h' == h
    else if HasDuplicate(m, p.kb, hash) then
      result.Ok? && result.value.1 && result.value.0 in m.Values && Duplicates(result.value.0, p.kb, hash) && h' == h
    else
      && op.Create? && Legal(h, op) && h' == Apply(h, op) && result == Ok((op.row, false))
      && Similar(texts, m, p.kb, p.text, op.similar)
      && (|op.similar| > 0 ==> op.group == GroupFor(m, op.similar, newGroup))
      && op.row == Row(newId, p.kb, p.text, hash, VersionOf(p.version), p.previous,
                       if |op.similar| > 0 then Some(op.group) else None, p.binding,
                       if |op.similar| > 0 then Pending else OrPending(p.status))
  }

  // The new row, once the rows it resembles are found and grouped, makes a creation of it all.
  lemma CreationDone(texts: Texts, h: History, p: Payload, newId: Id, newGroup: string, similar: seq<Id>, group: string, entry: Row)
    requires Consistent(h) && Fresh(h, newId) && |p.text| > 0 && |p.kb| > 0
    requires !HasDuplicate(Latest(h), p.kb, texts.hashOf(p.text)) && Similar(texts, Latest(h), p.kb, p.text, similar)
    requires |similar| > 0 ==> group == GroupFor(Latest(h), similar, newGroup)
    requires entry == Row(newId, p.kb, p.text, texts.hashOf(p.text), VersionOf(p.version), p.previous,
                          if |similar| > 0 then Some(group) else None, p.binding,
                          if |similar| > 0 then Pending else OrPending(p.status))
    ensures var h', op := Regroup(h, similar, group) + [entry], Op.Create(entry, similar, group);
      Legal(h, op) && h' == Apply(h, op) && Consistent(h') && Created(texts, h, p, newId, newGroup, Ok((entry, false)), op, h')
  {
    CreationLegal(texts, h, p, similar, group, entry);
    ApplyLatest(h, Op.Create(entry, similar, group));
  }

  lemma CreationLegal(texts: Texts, h: History, p: Payload, similar: seq<Id>, group: string, entry: Row)
    requires Fresh(h, entry.id) && !HasDuplicate(Latest(h), entry.kb, entry.hash) && p.kb == entry.kb
    requires Similar(texts, Latest(h), p.kb, p.text, similar)
    requires entry.group == (if |similar| > 0 then Some(group) else None) && (|similar| > 0 ==> entry.status.Pending?)
    ensures Legal(h, Op.Create(entry, similar, group))
  {
  }

  // Only an approved or stale row is revised, into a text no active row has; an approved
  // revision archives the row it revises.
  ghost predicate Revised(
    texts: Texts, h: History, id: Id, p: Revision, newId: Id, result: Result<Option<Row>, Error>, op: Op, h': History)
  {
    var m, hash := Latest(h), texts.hashOf(p.text);
    if |p.text| == 0 then result == Err(BlankText) && h' == h
    else if id !in m then result == Ok(None) && h' == h
    else if !m[id].status.Approved? && !m[id].status.Stale? then result == Err(NotRevisable(m[id].status)) && h' == h
    else if HasDuplicate(m, m[id].kb, hash) then
      result.Err? && result.error.DuplicateActive? && result.error.id in m
      && Duplicates(m[result.error.id], m[id].kb, hash) && h' == h
    else
      && op.Revise? && result == Ok(Some(op.row)) && Legal(h, op) && h' == Apply(h, op)
      && op.row == Row(newId, m[id].kb, p.text, hash, NextVersion(m[id].version), Some(id), m[id].group,
                       Binding(Or(p.source, m[id].binding.source), Or(p.sha256, m[id].binding.sha256)),
                       OrPending(p.status))
  }

  // An invalid status or an unknown id changes nothing.
  ghost predicate StatusSet(h: History, id: Id, status: Status, updates: Binding, result: Result<Option<Row>, Error>, h': History) {
    var m, op := Latest(h), Op.SetStatus(id, status, updates);
    if !status.Valid() then result == Err(InvalidStatus(status.name)) && h' == h
    else if id !in m then result == Ok(None) && h' == h
    else
      && Legal(h, op) && h' == Apply(h, op)
      && result == Ok(Some(m[id].(status := status, binding := Rebind(m[id].binding, updates))))
  }

  // ----- The store -----

  class DerivedKnowledgeStore {
    var history: History
    const texts: Texts

    constructor (texts: Texts)
      ensures history == [] && this.texts == texts
    {
      history := [];
      this.texts := texts;
    }

    ghost predicate Valid()
      reads this
    {
      Consistent(history)
    }

    method FindDuplicate(kb: string, hash: string) returns (found: Option<Row>)
      ensures found.Some? <==> HasDuplicate(Latest(history), kb, hash)
      ensures found.Some? ==> found.value.id in Latest(history) && Latest(history)[found.value.id] == found.value
                              && Duplicates(found.value, kb, hash)
    {
      LatestKeyed(history);
      found := SearchDuplicate(Latest(history), kb, hash);
    }

    method FindSimilar(kb: string, text: string) returns (ids: seq<Id>)
      ensures Similar(texts, Latest(history), kb, text, ids)
    {
      ids := SearchSimilar(texts, Latest(history), kb, text);
    }

    method EnsureConflictGroup(ids: seq<Id>, newGroup: string) returns (group: string)
      requires Distinct(ids) && forall i :: 0 <= i < |ids| ==> ids[i] in Latest(history)
      modifies this
      ensures group == GroupFor(old(Latest(history)), ids, newGroup)
      ensures history == Regroup(old(history), ids, group)
    {
      ghost var before := history;
      var latest := Latest(history);
      group := ChooseGroup(latest, ids, newGroup);
      var i := 0;
      while i < |ids|
        invariant i <= |ids|
        invariant history == Regroup(before, ids[..i], group)
      {
        assert ids[..i + 1][..i] == ids[..i];
        if latest[ids[i]].group != Some(group) {
          history := history + [latest[ids[i]].(group := Some(group))];
        }
        i := i + 1;
      }
      assert ids[..|ids|] == ids;
    }

    method Create(p: Payload, newId: Id, newGroup: string) returns (result: Result<(Row, bool), Error>, ghost op: Op)
      requires Valid() && Fresh(history, newId)
      modifies this
      ensures Valid() && Created(texts, old(history), p, newId, newGroup, result, op, history)
    {
      op := Op.ClearKb("");
      if |p.text| == 0 {
        return Err(BlankText), op;
      }
      if |p.kb| == 0 {
        return Err(BlankKb), op;
      }
      var hash := texts.hashOf(p.text);
      var existing := FindDuplicate(p.kb, hash);
      if existing.Some? {
        assert existing.value.id in Latest(history);
        return Ok((existing.value, true)), op;
      }
      var similar := FindSimilar(p.kb, p.text);
      ghost var before := history;
      var group := newGroup;
      if |similar| > 0 {
        group := EnsureConflictGroup(similar, newGroup);
      }
      var entry := Row(
        newId, p.kb, p.text, hash, VersionOf(p.version), p.previous,
        if |similar| > 0 then Some(group) else None, p.binding,
        if |similar| > 0 then Pending else OrPending(p.status));
      history := history + [entry];
      op := Op.Create(entry, similar, group);
      CreationDone(texts, before, p, newId, newGroup, similar, group, entry);
      result := Ok((entry, false));
    }

    method Revise(id: Id, p: Revision, newId: Id) returns (result: Result<Option<Row>, Error>, ghost op: Op)
      requires Valid() && Fresh(history, newId)
      modifies this
      ensures Valid() && Revised(texts, old(history), id, p, newId, result, op, history)
    {
      op := Op.ClearKb("");
      if |p.text| == 0 {
        return Err(BlankText), op;
      }
      var latest := Latest(history);
      if id !in latest {
        return Ok(None), op;
      }
      LatestKeyed(history);
      var current := latest[id];
      if !current.status.Approved? && !current.status.Stale? {
        return Err(NotRevisable(current.status)), op;
      }
      var existing := FindDuplicate(current.kb, texts.hashOf(p.text));
      if existing.Some? {
        return Err(DuplicateActive(existing.value.id)), op;
      }
      ghost var before := history;
      var entry := Row(
        newId, current.kb, p.text, texts.hashOf(p.text), NextVersion(current.version), Some(current.id), current.group,
        Binding(Or(p.source, current.binding.source), Or(p.sha256, current.binding.sha256)), OrPending(p.status));
      history := history + [entry];
      if entry.status.Approved? {
        ArchivePreviousVersion(entry);
      }
      op := Op.Revise(entry);
      ApplyLatest(before, op);
      result := Ok(Some(entry));
    }

    method ArchivePreviousVersion(current: Row)
      modifies this
      ensures history == ArchivePrevious(old(history), current.previous)
    {
      if current.previous.None? || |current.previous.value| == 0 {
        return;
      }
      var latest := Latest(history);
      if current.previous.value !in latest || latest[current.previous.value].status.Archived? {
        return;
      }
      history := history + [latest[current.previous.value].(status := Archived)];
    }

    method SetStatus(id: Id, status: Status, updates: Binding) returns (result: Result<Option<Row>, Error>)
      requires Valid()
      modifies this
      ensures Valid() && StatusSet(old(history), id, status, updates, result, history)
    {
      if !status.Valid() {
        return Err(InvalidStatus(status.name));
      }
      var latest := Latest(history);
      if id !in latest {
        return Ok(None);
      }
      ghost var before := history;
      var current := latest[id];
      var updated := current.(status := status, binding := Rebind(current.binding, updates));
      history := history + [updated];
      if status.Approved? && current.previous.Some? && |current.previous.value| > 0 {
        ArchivePreviousVersion(current);
      }
      ApplyLatest(before, Op.SetStatus(id, status, updates));
      result := Ok(Some(updated));
    }

    method Delete(id: Id) returns (gone: Option<Row>)
      requires Valid()
      modifies this
      ensures Valid()
      ensures gone == if id in old(Latest(history)) then Some(old(Latest(history))[id]) else None
      ensures history == if gone.Some? then Apply(old(history), Op.Delete(id)) else old(history)
      ensures id !in Latest(history)
      ensures forall other :: other != id ==>
        (other in Latest(history) <==> other in old(Latest(history)))
        && (other in Latest(history) ==> Latest(history)[other] == old(Latest(history))[other])
    {
      var latest := Latest(history);
      if id !in latest {
        return None;
      }
      ApplyLatest(history, Op.Delete(id));
      history := Without(history, (r: Row) => r.id != id);
      gone := Some(latest[id]);
    }

    method ClearKb(kb: string)
      requires Valid()
      modifies this
      ensures Valid()
      ensures history == Apply(old(history), Op.ClearKb(kb))
      ensures forall i :: 0 <= i < |history| ==> history[i].kb != kb
      ensures forall id :: id in Latest(history) <==> id in old(Latest(history)) && old(Latest(history))[id].kb != kb
    {
      ApplyLatest(history, Op.ClearKb(kb));
      WithoutSubset(history, (r: Row) => r.kb != kb);
      history := Without(history, (r: Row) => r.kb != kb);
    }

    method SetNext(ghost before: History, ghost done: seq<Id>, id: Id, status: Status)
      returns (result: Result<Option<Row>, Error>)
      requires Consistent(before) && Valid() && history == SetAll(before, done, status)
      modifies this
      ensures Valid()
      ensures result.Err? <==> !status.Valid()
      ensures result.Err? ==> history == old(history)
      ensures result.Ok? ==> history == SetAll(before, done + [id], status)
      ensures result.Ok? ==> (result.value.Some? <==> id in Latest(before))
      ensures result.Ok? && result.value.Some? ==> result.value.value.id == id && result.value.value.status == status
    {
      LatestKeyed(history);
      SetAllKeys(before, done, status);
      assert (done + [id])[..|done|] == done;
      result := SetStatus(id, status, Binding(None, None));
    }

    method MarkOne(id: Id) returns (row: Row)
      requires Valid() && id in Latest(history)
      modifies this
      ensures Valid()
      ensures history == old(history) + [row] && row == StaleRow(old(Latest(history))[id])
      ensures Latest(history) == Restatus(old(Latest(history)), [id], Stale)
    {
      SetOneKeys(history, id, Stale);
      var result := SetStatus(id, Stale, Binding(None, None));
      row := result.value.value;
    }

    // One set_status an id; an invalid status is refused before any row changes.
    method BatchSetStatus(ids: seq<Id>, status: Status) returns (result: Result<(seq<Row>, seq<Id>), Error>)
      requires Valid()
      modifies this
      ensures Valid()
      ensures result.Err? <==> !status.Valid() && |ids| > 0
      ensures result.Err? ==> history == old(history)
      ensures result.Ok? ==> history == SetAll(old(history), ids, status)
      ensures result.Ok? ==> Parted(old(Latest(history)).Keys, ids, result.value.0, result.value.1, status)
    {
      ghost var before := history;
      ghost var known := Latest(history).Keys;
      var updated: seq<Row>, missing: seq<Id> := [], [];
      var i := 0;
      while i < |ids|
        invariant i <= |ids| && Valid()
        invariant i > 0 ==> status.Valid()
        invariant history == SetAll(before, ids[..i], status)
        invariant Parted(known, ids[..i], updated, missing, status)
      {
        assert ids[..i + 1] == ids[..i] + [ids[i]];
        var row := SetNext(before, ids[..i], ids[i], status);
        if row.Err? {
          return Err(row.error);
        }
        PartedNext(known, ids[..i], updated, missing, status, ids[i], row.value);
        if row.value.None? {
          missing := missing + [ids[i]];
        } else {
          updated := updated + [row.value.value];
        }
        i := i + 1;
      }
      assert ids[..i] == ids;
      result := Ok((updated, missing));
    }

    // Marks stale exactly the rows picked among the latest ones.
    method MarkStale(picked: Row -> bool) returns (stale: seq<Row>)
      requires Valid() && forall r: Row :: picked(r) ==> r.status.Approved?
      modifies this
      ensures Valid()
      ensures Latest(history) == Staled(old(Latest(history)), picked)
      ensures old(history) <= history && |history| == |old(history)| + |stale|
      ensures Distinct(IdsOf(stale))
      ensures forall r :: r in stale <==>
        r.id in old(Latest(history)) && picked(old(Latest(history))[r.id]) && r == StaleRow(old(Latest(history))[r.id])
    {
      var latest := Latest(history);
      ghost var before := history;
      LatestKeyed(history);
      var left := latest.Keys;
      ghost var done: seq<Id> := [];
      stale := [];
      while left != {}
        invariant left <= latest.Keys && Valid()
        invariant before <= history && |history| == |before| + |stale|
        invariant Latest(history) == Restatus(latest, done, Stale)
        invariant Scanned(latest, picked, left, done, stale)
      {
        var id :| id in left;
        if picked(latest[id]) {
          var row := MarkOne(id);
          RestatusMore(latest, done, id, Stale);
          ScannedMore(latest, picked, left, done, stale, id);
          stale := stale + [row];
          done := done + [id];
        } else {
          ScannedPast(latest, picked, left, done, stale, id);
        }
        left := left - {id};
      }
      ScanResult(latest, picked, done, stale);
    }

    method MarkStaleByDocuments(kb: string, current: map<string, string>) returns (stale: seq<Row>)
      requires Valid()
      modifies this
      ensures Valid() && Latest(history) == Staled(old(Latest(history)), r => Outdated(r, kb, current))
      ensures forall id :: id in Latest(history) ==> !Outdated(Latest(history)[id], kb, current)
      ensures forall r :: r in stale <==>
        r.id in old(Latest(history)) && Outdated(old(Latest(history))[r.id], kb, current)
        && r == StaleRow(old(Latest(history))[r.id])
    {
      stale := MarkStale(r => Outdated(r, kb, current));
    }

    method MarkStaleForSource(kb: string, source: string, sha256: string) returns (stale: seq<Row>)
      requires Valid()
      modifies this
      ensures Valid() && Latest(history) == Staled(old(Latest(history)), r => BoundTo(r, kb, source, sha256))
      ensures forall r :: r in stale <==>
        r.id in old(Latest(history)) && BoundTo(old(Latest(history))[r.id], kb, source, sha256)
        && r == StaleRow(old(Latest(history))[r.id])
    {
      stale := MarkStale(r => BoundTo(r, kb, source, sha256));
    }
  }
}
