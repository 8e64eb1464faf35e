// SqliteDerivedKnowledgeStore of src/cogdoc/api/derived_knowledge_store.py: nested write
// transactions, the revision token, and the latest rows as SQL selects them. A statement may
// fail at any point; beginning a transaction may fail on a locked database.
module SqliteStore {
  import opened Options
  import opened EventImport

  datatype Db<R, I> = Db(table: Table<R, I>, revision: nat)

  // What the body of a write transaction does, in order.
  datatype Stmt<!R> =
    | Append(record: R)
    | Remove(drop: R -> bool)
    | Load(records: seq<R>)
    | Raise
    | Nested(body: seq<Stmt<R>>)

  function Kept<R, I>(events: seq<Event<R, I>>, drop: R -> bool): seq<Event<R, I>> {
    if |events| == 0 then []
    else Kept(events[..|events| - 1], drop) + if drop(events[|events| - 1].record) then [] else [events[|events| - 1]]
  }

  function Appending<R, I>(d: Db<R, I>, record: R): Db<R, I> {
    Db(Inserted(d.table, Appended(d.table.nextId), record), d.revision + 1)
  }

  // The revision moves only when a row was deleted.
  function Removing<R, I>(d: Db<R, I>, drop: R -> bool): Db<R, I> {
    var kept := Kept(d.table.events, drop);
    Db(Table(kept, d.table.nextId), if |kept| < |d.table.events| then d.revision + 1 else d.revision)
  }

  function Importing<R(==), I(==)>(identity: R -> I, d: Db<R, I>, records: seq<R>): Option<Db<R, I>> {
    var loaded := Import(identity, d.table, records);
    if loaded.None? then None
    else Some(Db(loaded.value.table, if loaded.value.imported > 0 then d.revision + 1 else d.revision))
  }

  function One<R(==), I(==)>(identity: R -> I, d: Db<R, I>, stmt: Stmt<R>): Option<Db<R, I>>
    decreases stmt
  {
    match stmt
    case Append(record) => Some(Appending(d, record))
    case Remove(drop) => Some(Removing(d, drop))
    case Load(records) => Importing(identity, d, records)
    case Raise => None
    case Nested(body) => Effect(identity, d, body)
  }

  // What the whole body comes to, or None when it raises.
  function Effect<R(==), I(==)>(identity: R -> I, d: Db<R, I>, body: seq<Stmt<R>>): Option<Db<R, I>>
    decreases body
  {
    if |body| == 0 then Some(d)
    else
      var front := Effect(identity, d, body[..|body| - 1]);
      if front.None? then None else One(identity, front.value, body[|body| - 1])
  }

  class SqliteDerivedKnowledgeStore<R(==, !new), I(==, !new)> {
    var db: Db<R, I>
    var depth: nat
    // The database as the open transaction found it.
    var saved: Option<Db<R, I>>
    const identity: R -> I
    const blank: R -> bool
    const idOf: R -> string

    constructor (db: Db<R, I>, identity: R -> I, blank: R -> bool, idOf: R -> string)
      requires Ordered(db.table)
      ensures Valid()
      ensures this.db == db && depth == 0 && saved == None && this.identity == identity && this.blank == blank && this.idOf == idOf
    {
      this.db, depth, saved, this.identity, this.blank, this.idOf := db, 0, None, identity, blank, idOf;
    }

    ghost predicate Valid()
      reads this
    {
      (depth == 0 <==> saved.None?) && Ordered(db.table) && (saved.Some? ==> Ordered(saved.value.table))
    }

    // The rows SQL selects come in any order; they are the latest rows of the fold.
    method Latest() returns (latest: map<string, R>)
      requires Valid() && forall i :: 0 <= i < |db.table.events| ==> |idOf(db.table.events[i].record)| > 0
      ensures latest == LatestBy(idOf, Records(db.table.events))
    {
      var events, id := db.table.events, idOf;
      ghost var fold := LatestBy(id, Records(events));
      var rows := set i: nat | i < |events| && Selected(id, events, i);
      latest := map[];
      while rows != {}
        invariant forall i :: i in rows ==> i < |events| && Selected(id, events, i)
        invariant forall x :: x in latest ==> x in fold && latest[x] == fold[x]
        invariant forall i: nat :: i < |events| && Selected(id, events, i) && i !in rows ==> id(events[i].record) in latest
        decreases rows
      {
        var i :| i in rows;
        SelectedIsLast(id, db.table, i);
        LastIsLatest(id, events, i);
        latest := latest[id(events[i].record) := events[i].record];
        rows := rows - {i};
      }
      forall x | x in fold ensures x in latest {
        var i := LatestIsLast(id, events, x);
        SelectedIsLast(id, db.table, i);
      }
    }

    method BumpRevision()
      modifies this`db
      ensures db == Db(old(db).table, old(db).revision + 1)
    {
      db := db.(revision := db.revision + 1);
    }

    method Append(record: R)
      requires Valid()
      modifies this`db
      ensures Valid() && db == Appending(old(db), record)
    {
      db := db.(table := Inserted(db.table, Appended(db.table.nextId), record));
      BumpRevision();
    }

    method Remove(drop: R -> bool)
      requires Valid()
      modifies this`db
      ensures Valid() && db == Removing(old(db), drop)
    {
      KeptOrdered(db.table.events, drop, db.table.nextId);
      var before := |db.table.events|;
      db := db.(table := Table(Kept(db.table.events, drop), db.table.nextId));
      if |db.table.events| < before {
        BumpRevision();
      }
    }

    // Keys as import_records counts them.
    method Prepare(records: seq<R>) returns (prepared: seq<(Key<I>, R)>)
      ensures prepared == Prepared(identity, records)
    {
      var occurrences: map<I, nat> := map[];
      prepared := [];
      var i := 0;
      while i < |records|
        invariant i <= |records| && prepared == Prepared(identity, records[..i])
        invariant forall x :: (if x in occurrences then occurrences[x] else 0) == Count(identity, records[..i], x)
      {
        var digest := identity(records[i]);
        var occurrence := if digest in occurrences then occurrences[digest] else 0;
        occurrences := occurrences[digest := occurrence + 1];
        prepared := prepared + [(Imported(digest, occurrence), records[i])];
        assert records[..i + 1][..i] == records[..i];
        i := i + 1;
      }
      assert records[..i] == records;
    }

    // One prepared record: inserted if its key is new, skipped if it is there, or a conflict.
    method LoadItem(item: (Key<I>, R), ghost at: Loaded<R, I>) returns (conflict: bool, inserted: bool)
      requires at.table == db.table && Ordered(db.table)
      modifies this`db
      ensures db.revision == old(db).revision && Ordered(db.table)
      ensures conflict <==> LoadOne(at, item).None?
      ensures !conflict ==>
        LoadOne(at, item) == Some(Loaded(db.table, at.imported + if inserted then 1 else 0, at.skipped + if inserted then 0 else 1))
    {
      var existing := Lookup(db.table.events, item.0);
      conflict := existing.Some? && existing.value != item.1;
      inserted := existing.None?;
      if inserted {
        db := db.(table := Inserted(db.table, item.0, item.1));
      }
    }

    method LoadPrepared(prepared: seq<(Key<I>, R)>) returns (raised: bool, imported: nat, skipped: nat)
      requires Ordered(db.table)
      modifies this`db
      ensures db.revision == old(db).revision && Ordered(db.table)
      ensures raised <==> EventImport.Load(old(db).table, prepared).None?
      ensures !raised ==> EventImport.Load(old(db).table, prepared) == Some(Loaded(db.table, imported, skipped))
    {
      ghost var before := db.table;
      imported, skipped := 0, 0;
      var i := 0;
      while i < |prepared|
        invariant i <= |prepared| && db.revision == old(db).revision && Ordered(db.table)
        invariant EventImport.Load(before, prepared[..i]) == Some(Loaded(db.table, imported, skipped))
      {
        var conflict, inserted := LoadItem(prepared[i], Loaded(db.table, imported, skipped));
        LoadNext(before, prepared, i);
        if conflict {
          LoadStops(before, prepared, i + 1);
          return true, imported, skipped;
        }
        imported, skipped := imported + if inserted then 1 else 0, skipped + if inserted then 0 else 1;
        i := i + 1;
      }
      assert prepared[..i] == prepared;
      raised := false;
    }

    method LoadRecords(records: seq<R>) returns (raised: bool, imported: nat, skipped: nat)
      requires Valid()
      modifies this`db
      ensures Valid()
      ensures raised <==> Import(identity, old(db).table, records).None?
      ensures !raised ==> Importing(identity, old(db), records) == Some(db)
      ensures !raised ==> imported == Import(identity, old(db).table, records).value.imported
                          && skipped == Import(identity, old(db).table, records).value.skipped
    {
      var prepared := Prepare(records);
      raised, imported, skipped := LoadPrepared(prepared);
      if !raised && imported > 0 {
        BumpRevision();
      }
    }

    // The body of a transaction, stopping where it raises.
    method Perform(body: seq<Stmt<R>>) returns (raised: bool)
      requires Valid() && depth > 0
      modifies this
      ensures Valid() && depth == old(depth) && saved == old(saved)
      ensures raised <==> Effect(identity, old(db), body).None?
      ensures !raised ==> Effect(identity, old(db), body) == Some(db)
      decreases body, 0
    {
      var i := 0;
      while i < |body|
        invariant i <= |body| && Valid() && depth == old(depth) && saved == old(saved)
        invariant Effect(identity, old(db), body[..i]) == Some(db)
      {
        assert body[..i + 1][..i] == body[..i];
        raised := PerformOne(body[i]);
        if raised {
          EffectStops(identity, old(db), body, i + 1);
          return;
        }
        i := i + 1;
      }
      assert body[..i] == body;
      raised := false;
    }

    method PerformOne(stmt: Stmt<R>) returns (raised: bool)
      requires Valid() && depth > 0
      modifies this
      ensures Valid() && depth == old(depth) && saved == old(saved)
      ensures raised <==> One(identity, old(db), stmt).None?
      ensures !raised ==> One(identity, old(db), stmt) == Some(db)
      decreases stmt, 2
    {
      raised := false;
      match stmt
      case Append(record) => Append(record);
      case Remove(drop) => Remove(drop);
      case Load(records) =>
        var imported, skipped;
        raised, imported, skipped := LoadRecords(records);
      case Raise => raised := true;
      case Nested(body) => raised := WriteTransaction(body, false);
    }

    // Entering a write transaction: only the outermost one begins one in the database, and only
    // that can fail.
    method Begin(locked: bool) returns (failed: bool)
      requires Valid()
      modifies this
      ensures Valid() && db == old(db)
      ensures failed <==> old(depth) == 0 && locked
      ensures failed ==> depth == 0 && saved == None
      ensures !failed ==> depth == old(depth) + 1 && saved == if old(depth) == 0 then Some(db) else old(saved)
    {
      if depth == 0 {
        if locked {
          return true;
        }
        saved := Some(db);
      }
      depth := depth + 1;
      failed := false;
    }

    // Leaving it: the outermost one commits, or rolls back what was done since it began.
    method End(raised: bool)
      requires Valid() && depth > 0
      modifies this
      ensures Valid() && depth == old(depth) - 1
      ensures db == if raised && depth == 0 then old(saved).value else old(db)
      ensures saved == if depth == 0 then None else old(saved)
    {
      depth := depth - 1;
      if depth == 0 {
        if raised {
          db := saved.value;
        }
        saved := None;
      }
    }

    // However deep it is entered, the depth comes back; the outermost transaction has the whole
    // effect of its body or none.
    method WriteTransaction(body: seq<Stmt<R>>, locked: bool) returns (raised: bool)
      requires Valid()
      modifies this
      ensures Valid() && depth == old(depth) && saved == old(saved)
      ensures raised <==> (old(depth) == 0 && locked) || Effect(identity, old(db), body).None?
      ensures !raised ==> Effect(identity, old(db), body) == Some(db)
      ensures raised && old(depth) == 0 ==> db == old(db)
      decreases body, 1
    {
      raised := Begin(locked);
      if !raised {
        raised := Perform(body);
        End(raised);
      }
    }

    // A blank record is refused before the database is touched; a conflict leaves it unchanged.
    method ImportRecords(records: seq<R>, locked: bool) returns (result: Option<(nat, nat)>)
      requires Valid() && depth == 0
      modifies this
      ensures Valid() && depth == 0
      ensures result.None? <==>
        (exists i :: 0 <= i < |records| && blank(records[i])) || locked || Import(identity, old(db).table, records).None?
      ensures result.None? ==> db == old(db)
      ensures result.Some? ==> Importing(identity, old(db), records) == Some(db)
      ensures result.Some? ==> result.value.0 == Import(identity, old(db).table, records).value.imported
                               && result.value.1 == Import(identity, old(db).table, records).value.skipped
    {
      var i := 0;
      while i < |records|
        invariant i <= |records| && forall j :: 0 <= j < i ==> !blank(records[j])
      {
        if blank(records[i]) {
          return None;
        }
        i := i + 1;
      }
      var failed := Begin(locked);
      if failed {
        return None;
      }
      var raised, imported, skipped := LoadRecords(records);
      End(raised);
      result := if raised then None else Some((imported, skipped));
    }
  }

  lemma LoadNext<R, I>(t: Table<R, I>, items: seq<(Key<I>, R)>, n: nat)
    requires n < |items| && EventImport.Load(t, items[..n]).Some?
    ensures EventImport.Load(t, items[..n + 1]) == LoadOne(EventImport.Load(t, items[..n]).value, items[n])
  {
    assert items[..n + 1][..n] == items[..n];
  }

  lemma {:induction false} LoadStops<R, I>(t: Table<R, I>, items: seq<(Key<I>, R)>, n: nat)
    requires n <= |items| && EventImport.Load(t, items[..n]).None?
    ensures EventImport.Load(t, items).None?
  {
    LoadConcat(t, items[..n], items[n..]);
    assert items == items[..n] + items[n..];
  }

  lemma {:induction false} EffectStops<R, I>(identity: R -> I, d: Db<R, I>, body: seq<Stmt<R>>, n: nat)
    requires n <= |body| && Effect(identity, d, body[..n]).None?
    ensures Effect(identity, d, body).None?
    decreases |body|
  {
    if n < |body| {
      assert body[..|body| - 1][..n] == body[..n];
      EffectStops(identity, d, body[..|body| - 1], n);
    } else {
      assert body[..n] == body;
    }
  }

  // ----- The revision token -----

  lemma {:induction false} KeptShorter<R, I>(events: seq<Event<R, I>>, drop: R -> bool)
    ensures |Kept(events, drop)| <= |events|
    ensures |Kept(events, drop)| == |events| ==> Kept(events, drop) == events
  {
    if |events| > 0 {
      KeptShorter(events[..|events| - 1], drop);
    }
  }

  lemma {:induction false} LoadCounts<R, I>(t: Table<R, I>, items: seq<(Key<I>, R)>)
    requires EventImport.Load(t, items).Some?
    ensures EventImport.Load(t, items).value.imported == 0 ==> EventImport.Load(t, items).value.table == t
  {
    if |items| > 0 {
      LoadCounts(t, items[..|items| - 1]);
    }
  }

  // The revision never falls, and stays only where the table does.
  ghost predicate Moves<R, I>(before: Db<R, I>, after: Db<R, I>) {
    before.revision <= after.revision && (before.revision == after.revision ==> before == after)
  }

  lemma {:induction false} EffectMoves<R, I>(identity: R -> I, d: Db<R, I>, body: seq<Stmt<R>>)
    requires Effect(identity, d, body).Some?
    ensures Moves(d, Effect(identity, d, body).value)
    decreases body
  {
    if |body| > 0 {
      EffectMoves(identity, d, body[..|body| - 1]);
      OneMoves(identity, Effect(identity, d, body[..|body| - 1]).value, body[|body| - 1]);
    }
  }

  lemma {:induction false} OneMoves<R, I>(identity: R -> I, d: Db<R, I>, stmt: Stmt<R>)
    requires One(identity, d, stmt).Some?
    ensures Moves(d, One(identity, d, stmt).value)
    decreases stmt
  {
    match stmt
    case Append(_) =>
    case Remove(drop) => KeptShorter(d.table.events, drop);
    case Load(records) => LoadCounts(d.table, Prepared(identity, records));
    case Nested(body) => EffectMoves(identity, d, body);
  }

  // A run of public writes: each leaves the database alone or has the whole effect of a body.
  ghost predicate WriteAt<R, I>(identity: R -> I, dbs: seq<Db<R, I>>, bodies: seq<seq<Stmt<R>>>, i: nat)
    requires i < |bodies| && |dbs| == |bodies| + 1
  {
    dbs[i + 1] == dbs[i] || Effect(identity, dbs[i], bodies[i]) == Some(dbs[i + 1])
  }

  ghost predicate IsRun<R, I>(identity: R -> I, dbs: seq<Db<R, I>>, bodies: seq<seq<Stmt<R>>>) {
    |dbs| == |bodies| + 1 && forall i: nat :: i < |bodies| ==> WriteAt(identity, dbs, bodies, i)
  }

  ghost predicate MovesAt<R, I>(dbs: seq<Db<R, I>>, i: nat)
    requires i + 1 < |dbs|
  {
    Moves(dbs[i], dbs[i + 1])
  }

  // The databases between writes of any kind.
  ghost predicate Moving<R, I>(dbs: seq<Db<R, I>>) {
    forall i: nat :: i + 1 < |dbs| ==> MovesAt(dbs, i)
  }

  // Two of them with the same token hold the same events.
  lemma {:induction false} TokenIdentifies<R, I>(dbs: seq<Db<R, I>>, i: nat, j: nat)
    requires Moving(dbs) && i <= j < |dbs|
    ensures dbs[i].revision <= dbs[j].revision
    ensures dbs[i].revision == dbs[j].revision ==> dbs[i] == dbs[j]
  {
    if i < j {
      TokenIdentifies(dbs, i, j - 1);
      assert MovesAt(dbs, j - 1);
    }
  }

  // A run of transactions, whatever they do, moves in this way.
  lemma RunMoves<R, I>(identity: R -> I, dbs: seq<Db<R, I>>, bodies: seq<seq<Stmt<R>>>)
    requires IsRun(identity, dbs, bodies)
    ensures Moving(dbs)
  {
    forall i: nat | i + 1 < |dbs| ensures MovesAt(dbs, i) {
      assert WriteAt(identity, dbs, bodies, i);
      if dbs[i + 1] != dbs[i] {
        EffectMoves(identity, dbs[i], bodies[i]);
      }
    }
  }

  // ----- Event ids rise -----

  ghost predicate Ordered<R, I>(t: Table<R, I>) {
    && (forall i, j :: 0 <= i < j < |t.events| ==> t.events[i].id < t.events[j].id)
    && (forall i :: 0 <= i < |t.events| ==> t.events[i].id < t.nextId)
  }

  lemma {:induction false} KeptOrdered<R, I>(events: seq<Event<R, I>>, drop: R -> bool, nextId: nat)
    requires Ordered(Table(events, nextId))
    ensures Ordered(Table(Kept(events, drop), nextId))
    ensures forall i :: 0 <= i < |Kept(events, drop)| ==> |events| > 0 && Kept(events, drop)[i].id <= events[|events| - 1].id
  {
    if |events| > 0 {
      assert Ordered(Table(events[..|events| - 1], nextId));
      KeptOrdered(events[..|events| - 1], drop, nextId);
    }
  }

  lemma {:induction false} LoadOrdered<R, I>(t: Table<R, I>, items: seq<(Key<I>, R)>)
    requires Ordered(t) && EventImport.Load(t, items).Some?
    ensures Ordered(EventImport.Load(t, items).value.table)
  {
    if |items| > 0 {
      LoadOrdered(t, items[..|items| - 1]);
    }
  }

  // Every write keeps the event ids increasing and below the next one.
  lemma {:induction false} EffectOrdered<R, I>(identity: R -> I, d: Db<R, I>, body: seq<Stmt<R>>)
    requires Ordered(d.table) && Effect(identity, d, body).Some?
    ensures Ordered(Effect(identity, d, body).value.table)
    decreases body
  {
    if |body| > 0 {
      EffectOrdered(identity, d, body[..|body| - 1]);
      OneOrdered(identity, Effect(identity, d, body[..|body| - 1]).value, body[|body| - 1]);
    }
  }

  lemma {:induction false} OneOrdered<R, I>(identity: R -> I, d: Db<R, I>, stmt: Stmt<R>)
    requires Ordered(d.table) && One(identity, d, stmt).Some?
    ensures Ordered(One(identity, d, stmt).value.table)
    decreases stmt
  {
    match stmt
    case Append(_) =>
    case Remove(drop) => KeptOrdered(d.table.events, drop, d.table.nextId);
    case Load(records) => LoadOrdered(d.table, Prepared(identity, records));
    case Nested(body) => EffectOrdered(identity, d, body);
  }

  // ----- Latest rows -----

  // The fold of the other backend: the last record of each id.
  function LatestBy<R>(idOf: R -> string, records: seq<R>): map<string, R> {
    if |records| == 0 then map[]
    else
      var front, last := LatestBy(idOf, records[..|records| - 1]), records[|records| - 1];
      if |idOf(last)| > 0 then front[idOf(last) := last] else front
  }

  // The event ids SQL selects: the greatest of each knowledge id.
  predicate Selected<R, I>(idOf: R -> string, events: seq<Event<R, I>>, i: nat)
    requires i < |events|
  {
    forall j :: 0 <= j < |events| && idOf(events[j].record) == idOf(events[i].record) ==> events[j].id <= events[i].id
  }

  predicate LastOf<R, I>(idOf: R -> string, events: seq<Event<R, I>>, i: nat)
    requires i < |events|
  {
    forall j :: i < j < |events| ==> idOf(events[j].record) != idOf(events[i].record)
  }

  lemma SelectedIsLast<R, I>(idOf: R -> string, t: Table<R, I>, i: nat)
    requires Ordered(t) && i < |t.events|
    ensures Selected(idOf, t.events, i) <==> LastOf(idOf, t.events, i)
  {
    if !LastOf(idOf, t.events, i) {
      var j :| i < j < |t.events| && idOf(t.events[j].record) == idOf(t.events[i].record);
      assert t.events[i].id < t.events[j].id;
    }
  }

  lemma {:induction false} LastIsLatest<R, I>(idOf: R -> string, events: seq<Event<R, I>>, i: nat)
    requires i < |events| && LastOf(idOf, events, i) && |idOf(events[i].record)| > 0
    ensures idOf(events[i].record) in LatestBy(idOf, Records(events))
    ensures LatestBy(idOf, Records(events))[idOf(events[i].record)] == events[i].record
  {
    var front := events[..|events| - 1];
    assert Records(events)[..|events| - 1] == Records(front);
    if i < |front| {
      assert LastOf(idOf, front, i);
      LastIsLatest(idOf, front, i);
    }
  }

  lemma {:induction false} LatestIsLast<R, I>(idOf: R -> string, events: seq<Event<R, I>>, id: string) returns (i: nat)
    requires id in LatestBy(idOf, Records(events))
    ensures i < |events| && LastOf(idOf, events, i) && idOf(events[i].record) == id && |id| > 0
  {
    var front := events[..|events| - 1];
    assert Records(events)[..|events| - 1] == Records(front);
    i := |events| - 1;
    if idOf(events[i].record) != id || |id| == 0 {
      i := LatestIsLast(idOf, front, id);
    }
  }
}
