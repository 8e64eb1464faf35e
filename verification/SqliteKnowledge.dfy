// The operations of SqliteDerivedKnowledgeStore in src/cogdoc/api/derived_knowledge_store.py:
// the inherited code of the file backend inside a write transaction, on this backend's own
// latest rows and its own append, and the two deletions it has of its own. busy says whether
// the database is locked by another writer when an outermost transaction begins.
module SqliteKnowledge {
  import opened Options
  import opened Sequences
  import opened KnowledgeLog
  import opened KnowledgeStore
  import opened EventImport
  import opened SqliteStore

  function LogOf<I>(d: Db<Row, I>): History {
    Records(d.table.events)
  }

  ghost predicate Holds<I(!new)>(s: SqliteDerivedKnowledgeStore<Row, I>)
    reads s
  {
    s.Valid() && Consistent(LogOf(s.db)) && forall r: Row :: s.idOf(r) == r.id
  }

  // What one public write comes to: some operations of the log in order, none if it changed
  // nothing, or the records an import added.
  datatype Step = Ops(ops: seq<Op>) | Adds(rows: seq<Row>)

  // The log becomes what the step makes of it, and the revision moves with it.
  ghost predicate Wrote<I>(d: Db<Row, I>, step: Step, d': Db<Row, I>) {
    && Moves(d, d') && (Ordered(d.table) ==> Ordered(d'.table))
    && match step
       case Ops(ops) => After(LogOf(d), ops) == Some(LogOf(d'))
       case Adds(rows) => LogOf(d') == LogOf(d) + rows
  }

  lemma WroteOne<I>(d: Db<Row, I>, op: Op, d': Db<Row, I>)
    requires Legal(LogOf(d), op) && LogOf(d') == Apply(LogOf(d), op) && Moves(d, d') && Ordered(d'.table)
    ensures Wrote(d, Ops([op]), d')
  {
    AfterOne(LogOf(d), op);
  }

  // ----- Reading and appending -----

  lemma {:induction false} LatestByIds(idOf: Row -> string, h: History)
    requires forall r: Row :: idOf(r) == r.id
    ensures LatestBy(idOf, h) == Latest(h)
  {
    if |h| > 0 {
      LatestByIds(idOf, h[..|h| - 1]);
    }
  }

  // _latest of this backend: what SQL selects.
  method LatestRows<I(!new)>(s: SqliteDerivedKnowledgeStore<Row, I>) returns (latest: map<Id, Row>)
    requires Holds(s)
    ensures latest == Latest(LogOf(s.db)) && Keyed(latest)
  {
    assert forall i :: 0 <= i < |s.db.table.events| ==> LogOf(s.db)[i] == s.db.table.events[i].record;
    latest := s.Latest();
    LatestByIds(s.idOf, LogOf(s.db));
    LatestKeyed(LogOf(s.db));
  }

  method AppendRow<I(!new)>(s: SqliteDerivedKnowledgeStore<Row, I>, r: Row)
    requires Holds(s) && Consistent(LogOf(s.db) + [r])
    modifies s`db
    ensures Holds(s) && LogOf(s.db) == LogOf(old(s.db)) + [r] && Moves(old(s.db), s.db)
  {
    RecordsAppend(s.db.table, Appended(s.db.table.nextId), r);
    s.Append(r);
  }

  // ----- The inherited code -----

  lemma RegroupStep(h: History, ids: seq<Id>, group: string, i: nat)
    requires i < |ids| && Distinct(ids) && Consistent(h) && forall k :: 0 <= k < |ids| ==> ids[k] in Latest(h)
    ensures var r := Latest(h)[ids[i]].(group := Some(group));
      Regroup(h, ids[..i + 1], group) == if Latest(h)[ids[i]].group == Some(group) then Regroup(h, ids[..i], group) else Regroup(h, ids[..i], group) + [r]
    ensures Consistent(Regroup(h, ids[..i + 1], group))
  {
    assert ids[..i + 1][..i] == ids[..i];
    ConsistentRegroup(h, ids[..i + 1], group);
  }

  // The rows were read before; each is appended with the group in turn.
  method EnsureConflictGroup<I(!new)>(s: SqliteDerivedKnowledgeStore<Row, I>, rows: map<Id, Row>, ids: seq<Id>, newGroup: string)
    returns (group: string)
    requires Holds(s) && rows == Latest(LogOf(s.db)) && Distinct(ids) && forall i :: 0 <= i < |ids| ==> ids[i] in rows
    modifies s`db
    ensures Holds(s) && Moves(old(s.db), s.db)
    ensures group == GroupFor(rows, ids, newGroup)
    ensures LogOf(s.db) == Regroup(LogOf(old(s.db)), ids, group)
  {
    ghost var before := LogOf(s.db);
    group := ChooseGroup(rows, ids, newGroup);
    var i := 0;
    while i < |ids|
      invariant i <= |ids| && Holds(s) && Moves(old(s.db), s.db)
      invariant LogOf(s.db) == Regroup(before, ids[..i], group)
    {
      RegroupStep(before, ids, group, i);
      if rows[ids[i]].group != Some(group) {
        AppendRow(s, rows[ids[i]].(group := Some(group)));
      }
      i := i + 1;
    }
    assert ids[..i] == ids;
  }

  method CreateInside<I(!new)>(s: SqliteDerivedKnowledgeStore<Row, I>, texts: Texts, p: Payload, newId: Id, newGroup: string)
    returns (result: Result<(Row, bool), Error>, ghost op: Op)
    requires Holds(s) && Fresh(LogOf(s.db), newId)
    modifies s`db
    ensures Holds(s) && Moves(old(s.db), s.db)
    ensures Created(texts, LogOf(old(s.db)), p, newId, newGroup, result, op, LogOf(s.db))
    ensures result.Err? || result.value.1 ==> s.db == old(s.db)
  {
    op := Op.ClearKb("");
    if |p.text| == 0 {
      return Err(BlankText), op;
    }
    if |p.kb| == 0 {
      return Err(BlankKb), op;
    }
    var latest := LatestRows(s);
    var existing := SearchDuplicate(latest, p.kb, texts.hashOf(p.text));
    if existing.Some? {
      return Ok((existing.value, true)), op;
    }
    latest := LatestRows(s);
    var similar := SearchSimilar(texts, latest, p.kb, p.text);
    ghost var before := LogOf(s.db);
    var group := newGroup;
    if |similar| > 0 {
      group := EnsureConflictGroup(s, latest, similar, newGroup);
    }
    var entry := Row(
      newId, p.kb, p.text, texts.hashOf(p.text), VersionOf(p.version), p.previous,
      if |similar| > 0 then Some(group) else None, p.binding,
      if |similar| > 0 then Pending else OrPending(p.status));
    CreationDone(texts, before, p, newId, newGroup, similar, group, entry);
    AppendRow(s, entry);
    op := Op.Create(entry, similar, group);
    result := Ok((entry, false));
  }

  // Reads the latest rows again, behind what the transaction has appended.
  method ArchivePreviousVersion<I(!new)>(s: SqliteDerivedKnowledgeStore<Row, I>, current: Row)
    requires Holds(s)
    modifies s`db
    ensures Holds(s) && Moves(old(s.db), s.db)
    ensures LogOf(s.db) == ArchivePrevious(LogOf(old(s.db)), current.previous)
  {
    if current.previous.None? || |current.previous.value| == 0 {
      return;
    }
    var latest := LatestRows(s);
    if current.previous.value !in latest || latest[current.previous.value].status.Archived? {
      return;
    }
    ConsistentArchive(LogOf(s.db), current.previous);
    AppendRow(s, latest[current.previous.value].(status := Archived));
  }

  lemma RevisionDone(texts: Texts, h: History, id: Id, p: Revision, newId: Id, entry: Row)
    requires Consistent(h) && Fresh(h, newId) && |p.text| > 0 && id in Latest(h)
    requires Latest(h)[id].status.Approved? || Latest(h)[id].status.Stale?
    requires !HasDuplicate(Latest(h), Latest(h)[id].kb, texts.hashOf(p.text))
    requires var current := Latest(h)[id];
      entry == Row(newId, current.kb, p.text, texts.hashOf(p.text), NextVersion(current.version), Some(id), current.group,
                   Binding(Or(p.source, current.binding.source), Or(p.sha256, current.binding.sha256)), OrPending(p.status))
    ensures var h' := if entry.status.Approved? then ArchivePrevious(h + [entry], Some(id)) else h + [entry];
      Legal(h, Op.Revise(entry)) && h' == Apply(h, Op.Revise(entry)) && Consistent(h') && Consistent(h + [entry])
      && Revised(texts, h, id, p, newId, Ok(Some(entry)), Op.Revise(entry), h')
  {
    LatestFromHistory(h, id);
    FreshUnused(h, newId);
    ConsistentAppend(h, entry);
    ApplyLatest(h, Op.Revise(entry));
  }

  method ReviseInside<I(!new)>(s: SqliteDerivedKnowledgeStore<Row, I>, texts: Texts, id: Id, p: Revision, newId: Id)
    returns (result: Result<Option<Row>, Error>, ghost op: Op)
    requires Holds(s) && Fresh(LogOf(s.db), newId)
    modifies s`db
    ensures Holds(s) && Moves(old(s.db), s.db)
    ensures Revised(texts, LogOf(old(s.db)), id, p, newId, result, op, LogOf(s.db))
    ensures result.Err? || result.value.None? ==> s.db == old(s.db)
  {
    op := Op.ClearKb("");
    if |p.text| == 0 {
      return Err(BlankText), op;
    }
    var latest := LatestRows(s);
    if id !in latest {
      return Ok(None), op;
    }
    var current := latest[id];
    if !current.status.Approved? && !current.status.Stale? {
      return Err(NotRevisable(current.status)), op;
    }
    latest := LatestRows(s);
    var existing := SearchDuplicate(latest, current.kb, texts.hashOf(p.text));
    if existing.Some? {
      return Err(DuplicateActive(existing.value.id)), op;
    }
    var entry := Row(
      newId, current.kb, p.text, texts.hashOf(p.text), NextVersion(current.version), Some(current.id), current.group,
      Binding(Or(p.source, current.binding.source), Or(p.sha256, current.binding.sha256)), OrPending(p.status));
    RevisionDone(texts, LogOf(s.db), id, p, newId, entry);
    op := Op.Revise(entry);
    AppendRow(s, entry);
    if entry.status.Approved? {
      ArchivePreviousVersion(s, entry);
    }
    result := Ok(Some(entry));
  }

  lemma StatusDone(h: History, id: Id, status: Status, updates: Binding, updated: Row)
    requires Consistent(h) && id in Latest(h) && status.Valid()
    requires updated == Latest(h)[id].(status := status, binding := Rebind(Latest(h)[id].binding, updates))
    ensures var h' := if status.Approved? then ArchivePrevious(h + [updated], updated.previous) else h + [updated];
      Legal(h, Op.SetStatus(id, status, updates)) && h' == Apply(h, Op.SetStatus(id, status, updates)) && Consistent(h')
      && Consistent(h + [updated]) && StatusSet(h, id, status, updates, Ok(Some(updated)), h')
  {
    LatestFromHistory(h, id);
    ConsistentAppend(h, updated);
    ApplyLatest(h, Op.SetStatus(id, status, updates));
  }

  method SetStatusInside<I(!new)>(s: SqliteDerivedKnowledgeStore<Row, I>, id: Id, status: Status, updates: Binding)
    returns (result: Result<Option<Row>, Error>)
    requires Holds(s)
    modifies s`db
    ensures Holds(s) && Moves(old(s.db), s.db)
    ensures StatusSet(LogOf(old(s.db)), id, status, updates, result, LogOf(s.db))
    ensures result.Err? || result.value.None? ==> s.db == old(s.db)
  {
    if !status.Valid() {
      return Err(InvalidStatus(status.name));
    }
    var latest := LatestRows(s);
    if id !in latest {
      return Ok(None);
    }
    var current := latest[id];
    var updated := current.(status := status, binding := Rebind(current.binding, updates));
    StatusDone(LogOf(s.db), id, status, updates, updated);
    AppendRow(s, updated);
    if status.Approved? && current.previous.Some? && |current.previous.value| > 0 {
      ArchivePreviousVersion(s, current);
    }
    result := Ok(Some(updated));
  }

  // ----- The public operations -----

  method Create<I(!new)>(s: SqliteDerivedKnowledgeStore<Row, I>, texts: Texts, p: Payload, newId: Id, newGroup: string, busy: bool)
    returns (result: Result<(Row, bool), Error>, ghost op: Op)
    requires Holds(s) && Fresh(LogOf(s.db), newId)
    modifies s
    ensures Holds(s) && s.depth == old(s.depth) && s.saved == old(s.saved)
    ensures if busy && s.depth == 0 then result == Err(Busy)
            else Created(texts, LogOf(old(s.db)), p, newId, newGroup, result, op, LogOf(s.db))
    ensures result.Err? || result.value.1 ==> s.db == old(s.db)
    ensures Wrote(old(s.db), Ops(if result.Ok? && !result.value.1 then [op] else []), s.db)
  {
    op := Op.ClearKb("");
    var failed := s.Begin(busy);
    if failed {
      return Err(Busy), op;
    }
    result, op := CreateInside(s, texts, p, newId, newGroup);
    s.End(result.Err?);
    if result.Ok? && !result.value.1 {
      WroteOne(old(s.db), op, s.db);
    }
  }

  method Revise<I(!new)>(s: SqliteDerivedKnowledgeStore<Row, I>, texts: Texts, id: Id, p: Revision, newId: Id, busy: bool)
    returns (result: Result<Option<Row>, Error>, ghost op: Op)
    requires Holds(s) && Fresh(LogOf(s.db), newId)
    modifies s
    ensures Holds(s) && s.depth == old(s.depth) && s.saved == old(s.saved)
    ensures if busy && s.depth == 0 then result == Err(Busy)
            else Revised(texts, LogOf(old(s.db)), id, p, newId, result, op, LogOf(s.db))
    ensures result.Err? || result.value.None? ==> s.db == old(s.db)
    ensures Wrote(old(s.db), Ops(if result.Ok? && result.value.Some? then [op] else []), s.db)
  {
    op := Op.ClearKb("");
    var failed := s.Begin(busy);
    if failed {
      return Err(Busy), op;
    }
    result, op := ReviseInside(s, texts, id, p, newId);
    s.End(result.Err?);
    if result.Ok? && result.value.Some? {
      WroteOne(old(s.db), op, s.db);
    }
  }

  method SetStatus<I(!new)>(s: SqliteDerivedKnowledgeStore<Row, I>, id: Id, status: Status, updates: Binding, busy: bool)
    returns (result: Result<Option<Row>, Error>)
    requires Holds(s)
    modifies s
    ensures Holds(s) && s.depth == old(s.depth) && s.saved == old(s.saved) && Moves(old(s.db), s.db)
    ensures if busy && s.depth == 0 then result == Err(Busy)
            else StatusSet(LogOf(old(s.db)), id, status, updates, result, LogOf(s.db))
    ensures result.Err? || result.value.None? ==> s.db == old(s.db)
    ensures Wrote(old(s.db), Ops(if result.Ok? && result.value.Some? then [Op.SetStatus(id, status, updates)] else []), s.db)
  {
    var failed := s.Begin(busy);
    if failed {
      return Err(Busy);
    }
    result := SetStatusInside(s, id, status, updates);
    s.End(result.Err?);
    if result.Ok? && result.value.Some? {
      WroteOne(old(s.db), Op.SetStatus(id, status, updates), s.db);
    }
  }

  method DeleteInside<I(!new)>(s: SqliteDerivedKnowledgeStore<Row, I>, id: Id) returns (gone: Option<Row>)
    requires Holds(s)
    modifies s`db
    ensures Holds(s) && gone == if id in Latest(LogOf(old(s.db))) then Some(Latest(LogOf(old(s.db)))[id]) else None
    ensures gone.None? ==> s.db == old(s.db)
    ensures Wrote(old(s.db), Ops(if gone.Some? then [Op.Delete(id)] else []), s.db)
  {
    var latest := LatestRows(s);
    if id !in latest {
      return None;
    }
    RemovalDone(s.db, (r: Row) => r.id == id, (r: Row) => r.id != id, Op.Delete(id));
    s.Remove((r: Row) => r.id == id);
    WroteOne(old(s.db), Op.Delete(id), s.db);
    gone := Some(latest[id]);
  }

  method Delete<I(!new)>(s: SqliteDerivedKnowledgeStore<Row, I>, id: Id, busy: bool) returns (result: Result<Option<Row>, Error>)
    requires Holds(s)
    modifies s
    ensures Holds(s) && s.depth == old(s.depth) && s.saved == old(s.saved)
    ensures if busy && s.depth == 0 then result == Err(Busy)
            else result == Ok(if id in Latest(LogOf(old(s.db))) then Some(Latest(LogOf(old(s.db)))[id]) else None)
    ensures result.Err? || result.value.None? ==> s.db == old(s.db)
    ensures Wrote(old(s.db), Ops(if result.Ok? && result.value.Some? then [Op.Delete(id)] else []), s.db)
  {
    var failed := s.Begin(busy);
    if failed {
      return Err(Busy);
    }
    var gone := DeleteInside(s, id);
    s.End(false);
    result := Ok(gone);
  }

  method ClearKb<I(!new)>(s: SqliteDerivedKnowledgeStore<Row, I>, kb: string, busy: bool) returns (failed: bool)
    requires Holds(s)
    modifies s
    ensures Holds(s) && s.depth == old(s.depth) && s.saved == old(s.saved)
    ensures failed <==> busy && s.depth == 0
    ensures failed ==> s.db == old(s.db)
    ensures Wrote(old(s.db), Ops(if failed then [] else [Op.ClearKb(kb)]), s.db)
  {
    failed := s.Begin(busy);
    if !failed {
      RemovalDone(s.db, (r: Row) => r.kb == kb, (r: Row) => r.kb != kb, Op.ClearKb(kb));
      s.Remove((r: Row) => r.kb == kb);
      s.End(false);
      WroteOne(old(s.db), Op.ClearKb(kb), s.db);
    }
  }

  predicate Opposite(drop: Row -> bool, keep: Row -> bool, r: Row) {
    drop(r) <==> !keep(r)
  }

  lemma {:induction false} KeptIsWithout<I>(events: seq<Event<Row, I>>, drop: Row -> bool, keep: Row -> bool)
    requires forall r :: Opposite(drop, keep, r)
    ensures Records(SqliteStore.Kept(events, drop)) == Without(Records(events), keep)
  {
    if |events| > 0 {
      var front, last := events[..|events| - 1], events[|events| - 1];
      KeptIsWithout(front, drop, keep);
      assert Records(events)[..|events| - 1] == Records(front);
      assert Opposite(drop, keep, last.record);
    }
  }

  lemma RemovalDone<I>(d: Db<Row, I>, drop: Row -> bool, keep: Row -> bool, op: Op)
    requires Consistent(LogOf(d)) && Legal(LogOf(d), op) && (op.Delete? || op.ClearKb?)
    requires Apply(LogOf(d), op) == Without(LogOf(d), keep) && forall r :: Opposite(drop, keep, r)
    ensures Consistent(LogOf(Removing(d, drop))) && Moves(d, Removing(d, drop)) && LogOf(Removing(d, drop)) == Apply(LogOf(d), op)
  {
    KeptIsWithout(d.table.events, drop, keep);
    KeptShorter(d.table.events, drop);
    ApplyLatest(LogOf(d), op);
  }

  // ----- Many rows in one transaction -----

  // One more row of a batch, in a transaction of its own inside that of the batch.
  method SetNext<I(!new)>(s: SqliteDerivedKnowledgeStore<Row, I>, ghost before: History, ghost done: seq<Id>, id: Id, status: Status)
    returns (result: Result<Option<Row>, Error>)
    requires Holds(s) && s.depth > 0 && Consistent(before) && LogOf(s.db) == SetAll(before, done, status)
    modifies s
    ensures Holds(s) && s.depth == old(s.depth) && s.saved == old(s.saved) && Moves(old(s.db), s.db)
    ensures result.Err? <==> !status.Valid()
    ensures result.Err? ==> s.db == old(s.db) && result.error == InvalidStatus(status.name)
    ensures result.Ok? ==> LogOf(s.db) == SetAll(before, done + [id], status)
    ensures result.Ok? ==> (result.value.Some? <==> id in Latest(before))
    ensures result.Ok? && result.value.Some? ==> result.value.value.id == id && result.value.value.status == status
  {
    LatestKeyed(LogOf(s.db));
    SetAllKeys(before, done, status);
    assert (done + [id])[..|done|] == done;
    result := SetStatus(s, id, status, Binding(None, None), false);
  }

  ghost predicate Batched(before: History, done: seq<Id>, status: Status, h: History, updated: seq<Row>, missing: seq<Id>) {
    h == SetAll(before, done, status) && Parted(Latest(before).Keys, done, updated, missing, status)
  }

  // The next row of a batch, sorted among those updated or those missing.
  method SetAndSort<I(!new)>(
    s: SqliteDerivedKnowledgeStore<Row, I>, ghost before: History, ghost done: seq<Id>, id: Id, status: Status,
    updated: seq<Row>, missing: seq<Id>)
    returns (error: Option<Error>, updated': seq<Row>, missing': seq<Id>)
    requires Holds(s) && s.depth > 0 && Consistent(before) && Batched(before, done, status, LogOf(s.db), updated, missing)
    modifies s
    ensures Holds(s) && s.depth == old(s.depth) && s.saved == old(s.saved) && Moves(old(s.db), s.db)
    ensures error.Some? <==> !status.Valid()
    ensures error.Some? ==> s.db == old(s.db)
    ensures error.None? ==> Batched(before, done + [id], status, LogOf(s.db), updated', missing')
  {
    var row := SetNext(s, before, done, id, status);
    if row.Err? {
      return Some(row.error), updated, missing;
    }
    PartedNext(Latest(before).Keys, done, updated, missing, status, id, row.value);
    error := None;
    updated' := if row.value.None? then updated else updated + [row.value.value];
    missing' := if row.value.None? then missing + [id] else missing;
  }

  method SetEach<I(!new)>(s: SqliteDerivedKnowledgeStore<Row, I>, ids: seq<Id>, status: Status)
    returns (result: Result<(seq<Row>, seq<Id>), Error>)
    requires Holds(s) && s.depth > 0
    modifies s
    ensures Holds(s) && s.depth == old(s.depth) && s.saved == old(s.saved) && Moves(old(s.db), s.db)
    ensures result.Err? <==> !status.Valid() && |ids| > 0
    ensures result.Err? ==> s.db == old(s.db)
    ensures result.Ok? ==> Batched(LogOf(old(s.db)), ids, status, LogOf(s.db), result.value.0, result.value.1)
  {
    ghost var before := LogOf(s.db);
    var updated: seq<Row>, missing: seq<Id> := [], [];
    var i := 0;
    while i < |ids|
      invariant i <= |ids| && Holds(s) && s.depth == old(s.depth) && s.saved == old(s.saved) && Moves(old(s.db), s.db)
      invariant if i == 0 then s.db == old(s.db) else status.Valid()
      invariant Batched(before, ids[..i], status, LogOf(s.db), updated, missing)
    {
      var error;
      error, updated, missing := SetAndSort(s, before, ids[..i], ids[i], status, updated, missing);
      if error.Some? {
        return Err(error.value);
      }
      assert ids[..i + 1] == ids[..i] + [ids[i]];
      i := i + 1;
    }
    assert ids[..i] == ids;
    result := Ok((updated, missing));
  }

  // All of the batch or nothing of it.
  method BatchSetStatus<I(!new)>(s: SqliteDerivedKnowledgeStore<Row, I>, ids: seq<Id>, status: Status, busy: bool)
    returns (result: Result<(seq<Row>, seq<Id>), Error>)
    requires Holds(s)
    modifies s
    ensures Holds(s) && s.depth == old(s.depth) && s.saved == old(s.saved) && Moves(old(s.db), s.db)
    ensures result.Err? <==> (busy && s.depth == 0) || (!status.Valid() && |ids| > 0)
    ensures result.Err? ==> s.db == old(s.db)
    ensures result.Ok? ==> LogOf(s.db) == SetAll(LogOf(old(s.db)), ids, status)
    ensures result.Ok? ==> Parted(Latest(LogOf(old(s.db))).Keys, ids, result.value.0, result.value.1, status)
    ensures Wrote(old(s.db), Ops(if result.Ok? then StatusOps(Latest(LogOf(old(s.db))).Keys, ids, status) else []), s.db)
  {
    var failed := s.Begin(busy);
    if failed {
      return Err(Busy);
    }
    result := SetEach(s, ids, status);
    s.End(result.Err?);
    if result.Ok? {
      BatchIsChain(LogOf(old(s.db)), ids, status);
    }
  }

  method MarkOne<I(!new)>(s: SqliteDerivedKnowledgeStore<Row, I>, id: Id) returns (row: Row)
    requires Holds(s) && s.depth > 0 && id in Latest(LogOf(s.db))
    modifies s
    ensures Holds(s) && s.depth == old(s.depth) && s.saved == old(s.saved) && Moves(old(s.db), s.db)
    ensures row == StaleRow(Latest(LogOf(old(s.db)))[id]) && LogOf(s.db) == SetOne(LogOf(old(s.db)), id, Stale)
    ensures Latest(LogOf(s.db)) == Restatus(Latest(LogOf(old(s.db))), [id], Stale)
  {
    SetOneKeys(LogOf(s.db), id, Stale);
    var result := SetStatus(s, id, Stale, Binding(None, None), false);
    row := result.value.value;
  }

  ghost predicate ScanState(before: History, h: History, picked: Row -> bool, left: set<Id>, done: seq<Id>, stale: seq<Row>) {
    && left <= Latest(before).Keys
    && Latest(h) == Restatus(Latest(before), done, Stale) && h == SetAll(before, done, Stale)
    && Scanned(Latest(before), picked, left, done, stale)
  }

  // One row of a scan.
  method ScanOne<I(!new)>(
    s: SqliteDerivedKnowledgeStore<Row, I>, picked: Row -> bool, latest: map<Id, Row>, id: Id, stale: seq<Row>,
    ghost before: History, ghost left: set<Id>, ghost done: seq<Id>)
    returns (stale': seq<Row>, ghost done': seq<Id>)
    requires Holds(s) && s.depth > 0 && latest == Latest(before) && id in left
    requires ScanState(before, LogOf(s.db), picked, left, done, stale)
    modifies s
    ensures Holds(s) && s.depth == old(s.depth) && s.saved == old(s.saved) && Moves(old(s.db), s.db)
    ensures ScanState(before, LogOf(s.db), picked, left - {id}, done', stale')
  {
    stale', done' := stale, done;
    if picked(latest[id]) {
      assert (done + [id])[..|done|] == done;
      ScannedMore(latest, picked, left, done, stale, id);
      var row := MarkOne(s, id);
      RestatusMore(latest, done, id, Stale);
      stale', done' := stale + [row], done + [id];
    } else {
      ScannedPast(latest, picked, left, done, stale, id);
    }
  }

  method ScanEach<I(!new)>(s: SqliteDerivedKnowledgeStore<Row, I>, picked: Row -> bool) returns (stale: seq<Row>, ghost done: seq<Id>)
    requires Holds(s) && s.depth > 0
    modifies s
    ensures Holds(s) && s.depth == old(s.depth) && s.saved == old(s.saved) && Moves(old(s.db), s.db)
    ensures ScanState(LogOf(old(s.db)), LogOf(s.db), picked, {}, done, stale)
  {
    ghost var before := LogOf(s.db);
    var latest := LatestRows(s);
    var left := latest.Keys;
    done, stale := [], [];
    while left != {}
      invariant Holds(s) && s.depth == old(s.depth) && s.saved == old(s.saved) && Moves(old(s.db), s.db)
      invariant ScanState(before, LogOf(s.db), picked, left, done, stale)
    {
      var id :| id in left;
      stale, done := ScanOne(s, picked, latest, id, stale, before, left, done);
      left := left - {id};
    }
  }

  // Both stale scans: exactly the rows picked among those read at the start.
  method MarkStale<I(!new)>(s: SqliteDerivedKnowledgeStore<Row, I>, picked: Row -> bool, busy: bool)
    returns (result: Result<seq<Row>, Error>, ghost done: seq<Id>)
    requires Holds(s) && forall r: Row :: picked(r) ==> r.status.Approved?
    modifies s
    ensures Holds(s) && s.depth == old(s.depth) && s.saved == old(s.saved) && Moves(old(s.db), s.db)
    ensures result.Err? <==> busy && s.depth == 0
    ensures result.Err? ==> s.db == old(s.db)
    ensures result.Ok? ==> Latest(LogOf(s.db)) == Staled(Latest(LogOf(old(s.db))), picked)
    ensures result.Ok? ==> forall r :: r in result.value <==>
      r.id in Latest(LogOf(old(s.db))) && picked(Latest(LogOf(old(s.db)))[r.id]) && r == StaleRow(Latest(LogOf(old(s.db)))[r.id])
    ensures Wrote(old(s.db), Ops(if result.Ok? then StatusOps(Latest(LogOf(old(s.db))).Keys, done, Stale) else []), s.db)
  {
    done := [];
    var failed := s.Begin(busy);
    if failed {
      return Err(Busy), done;
    }
    ghost var before := LogOf(s.db);
    LatestKeyed(before);
    var stale;
    stale, done := ScanEach(s, picked);
    ScanResult(Latest(before), picked, done, stale);
    BatchIsChain(before, done, Stale);
    s.End(false);
    result := Ok(stale);
  }

  // ----- Import -----

  // What is behind the old records was loaded.
  ghost predicate Extends(before: seq<Row>, after: seq<Row>, loaded: seq<Row>) {
    before <= after && forall i :: |before| <= i < |after| ==> after[i] in loaded
  }

  lemma {:induction false} LoadExtends<I>(t: Table<Row, I>, items: seq<(Key<I>, Row)>)
    requires EventImport.Load(t, items).Some?
    ensures Extends(Records(t.events), Records(EventImport.Load(t, items).value.table.events), Seconds(items))
  {
    if |items| > 0 {
      var front, last := items[..|items| - 1], items[|items| - 1];
      LoadExtends(t, front);
      RecordsAppend(EventImport.Load(t, front).value.table, last.0, last.1);
      assert Seconds(items) == Seconds(front) + [last.1];
    }
  }

  lemma {:induction false} PreparedRecords<I>(identity: Row -> I, records: seq<Row>)
    ensures Seconds(Prepared(identity, records)) == records
  {
    if |records| > 0 {
      PreparedRecords(identity, records[..|records| - 1]);
    }
  }

  // An import adds rows behind the log; a log that was consistent need not stay so.
  method ImportRows<I(!new)>(s: SqliteDerivedKnowledgeStore<Row, I>, records: seq<Row>, busy: bool)
    returns (result: Option<(nat, nat)>, ghost rows: seq<Row>)
    requires s.Valid() && s.depth == 0
    modifies s
    ensures s.Valid() && s.depth == 0
    ensures result.None? <==>
      (exists i :: 0 <= i < |records| && s.blank(records[i])) || busy || Import(s.identity, old(s.db).table, records).None?
    ensures result.None? ==> s.db == old(s.db) && rows == []
    ensures result.Some? ==> Importing(s.identity, old(s.db), records) == Some(s.db)
    ensures Wrote(old(s.db), Adds(rows), s.db) && forall r :: r in rows ==> r in records
  {
    ghost var before := s.db;
    result := s.ImportRecords(records, busy);
    rows := [];
    if result.Some? {
      LoadExtends(before.table, Prepared(s.identity, records));
      PreparedRecords(s.identity, records);
      OneMoves(s.identity, before, Stmt.Load(records));
      rows := LogOf(s.db)[|LogOf(before)|..];
    }
  }
}
