// The two backends of the derived-knowledge store agree: a run of the SQLite backend is, log by
// log, a run of the file backend, and the searches of both find the same rows.
module StoreBackends {
  import opened Options
  import opened Sequences
  import opened KnowledgeLog
  import opened KnowledgeStore
  import opened EventImport
  import opened SqliteStore
  import opened SqliteKnowledge

  // ----- Runs -----

  ghost predicate WroteAt<I>(dbs: seq<Db<Row, I>>, steps: seq<Step>, i: nat)
    requires i < |steps| && |dbs| == |steps| + 1
  {
    Wrote(dbs[i], steps[i], dbs[i + 1])
  }

  // The databases before and after each public write, from an empty one on.
  ghost predicate IsDbRun<I>(dbs: seq<Db<Row, I>>, steps: seq<Step>) {
    |dbs| == |steps| + 1 && |dbs[0].table.events| == 0 && forall i: nat :: i < |steps| ==> WroteAt(dbs, steps, i)
  }

  // The operations of the first k writes, in order.
  function OpsOf(steps: seq<Step>, k: nat): seq<Op>
    requires k <= |steps|
  {
    if k == 0 then [] else OpsOf(steps, k - 1) + if steps[k - 1].Ops? then steps[k - 1].ops else []
  }

  predicate NoImports(steps: seq<Step>, k: nat)
    requires k <= |steps|
  {
    forall i :: 0 <= i < k ==> steps[i].Ops?
  }

  lemma {:induction false} RunAfter<I>(dbs: seq<Db<Row, I>>, steps: seq<Step>, k: nat)
    requires IsDbRun(dbs, steps) && k <= |steps| && NoImports(steps, k)
    ensures After([], OpsOf(steps, k)) == Some(LogOf(dbs[k]))
  {
    if k > 0 {
      RunAfter(dbs, steps, k - 1);
      assert WroteAt(dbs, steps, k - 1);
      AfterConcat([], OpsOf(steps, k - 1), steps[k - 1].ops);
    } else {
      assert LogOf(dbs[0]) == [];
    }
  }

  // Without imports, the log after k writes is where a run of the file backend with the same
  // operations ends, so all that is proved of those runs holds here.
  lemma RunAgrees<I>(dbs: seq<Db<Row, I>>, steps: seq<Step>, k: nat)
    requires IsDbRun(dbs, steps) && k <= |steps| && NoImports(steps, k)
    ensures var ops := OpsOf(steps, k);
      KnowledgeLog.IsRun(Trace([], ops), ops) && Trace([], ops)[|ops|] == LogOf(dbs[k])
  {
    RunAfter(dbs, steps, k);
    TraceIsRun(OpsOf(steps, k));
  }

  // Event ids rise in every table of a run, and its revisions name its tables.
  lemma {:induction false} RunOrdered<I>(dbs: seq<Db<Row, I>>, steps: seq<Step>, k: nat)
    requires IsDbRun(dbs, steps) && k <= |steps|
    ensures Ordered(dbs[k].table)
  {
    if k > 0 {
      RunOrdered(dbs, steps, k - 1);
      assert WroteAt(dbs, steps, k - 1);
    }
  }

  lemma RunTokens<I>(dbs: seq<Db<Row, I>>, steps: seq<Step>, i: nat, j: nat)
    requires IsDbRun(dbs, steps) && i <= j <= |steps|
    ensures dbs[i].revision <= dbs[j].revision
    ensures dbs[i].revision == dbs[j].revision ==> dbs[i] == dbs[j]
  {
    forall n: nat | n + 1 < |dbs| ensures MovesAt(dbs, n) {
      assert WroteAt(dbs, steps, n);
    }
    TokenIdentifies(dbs, i, j);
  }

  // A write that sets no row active beside another with its text, and imports no rows that are
  // at odds with the snapshots there or with the uniqueness of active rows.
  ghost predicate Clean(h: History, step: Step) {
    match step
    case Ops(ops) => NoneClashes(h, ops)
    case Adds(rows) => Consistent(h + rows) && UniqueActive(Latest(h + rows))
  }

  ghost predicate CleanAt<I>(dbs: seq<Db<Row, I>>, steps: seq<Step>, i: nat)
    requires i < |steps| && |dbs| == |steps| + 1
  {
    Clean(LogOf(dbs[i]), steps[i])
  }

  lemma {:induction false} RunUnique<I>(dbs: seq<Db<Row, I>>, steps: seq<Step>, k: nat)
    requires IsDbRun(dbs, steps) && k <= |steps| && forall i: nat :: i < k ==> CleanAt(dbs, steps, i)
    ensures Consistent(LogOf(dbs[k])) && UniqueActive(Latest(LogOf(dbs[k])))
  {
    if k > 0 {
      RunUnique(dbs, steps, k - 1);
      assert WroteAt(dbs, steps, k - 1) && CleanAt(dbs, steps, k - 1);
      if steps[k - 1].Ops? {
        AfterUnique(LogOf(dbs[k - 1]), steps[k - 1].ops);
      }
    }
  }

  // ----- Searches -----

  // With unique active rows the duplicate found is one row in both backends, whatever the
  // order in which each goes through its latest rows.
  lemma DuplicateAgrees<I>(t: Table<Row, I>, kb: string, hash: string, i: nat, id: Id)
    requires Ordered(t) && UniqueActive(Latest(Records(t.events))) && forall j :: 0 <= j < |t.events| ==> |t.events[j].record.id| > 0
    requires i < |t.events| && Selected((r: Row) => r.id, t.events, i) && Duplicates(t.events[i].record, kb, hash)
    requires id in Latest(Records(t.events)) && Duplicates(Latest(Records(t.events))[id], kb, hash)
    ensures Latest(Records(t.events))[id] == t.events[i].record
  {
    var idOf := (r: Row) => r.id;
    SelectedIsLast(idOf, t, i);
    LastIsLatest(idOf, t.events, i);
    LatestByIds(idOf, Records(t.events));
    SameDuplicate(Latest(Records(t.events)), kb, hash, id, t.events[i].record.id);
  }

  // So it is in every state of a run of clean writes.
  lemma RunDuplicateAgrees<I>(dbs: seq<Db<Row, I>>, steps: seq<Step>, k: nat, kb: string, hash: string, i: nat, id: Id)
    requires IsDbRun(dbs, steps) && k <= |steps| && forall n: nat :: n < k ==> CleanAt(dbs, steps, n)
    requires var t := dbs[k].table;
      && i < |t.events| && Selected((r: Row) => r.id, t.events, i) && Duplicates(t.events[i].record, kb, hash)
      && id in Latest(LogOf(dbs[k])) && Duplicates(Latest(LogOf(dbs[k]))[id], kb, hash)
    ensures Latest(LogOf(dbs[k]))[id] == dbs[k].table.events[i].record
  {
    RunOrdered(dbs, steps, k);
    RunUnique(dbs, steps, k);
    var t := dbs[k].table;
    forall j | 0 <= j < |t.events| ensures |t.events[j].record.id| > 0 {
      assert LogOf(dbs[k])[j] == t.events[j].record;
    }
    DuplicateAgrees(t, kb, hash, i, id);
  }

  // Revising leaves no choice but which of several duplicates is named; setting a status none.
  lemma ReviseAgrees(
    texts: Texts, h: History, id: Id, p: Revision, newId: Id,
    r1: Result<Option<Row>, Error>, op1: Op, h1: History, r2: Result<Option<Row>, Error>, op2: Op, h2: History)
    requires UniqueActive(Latest(h)) && Keyed(Latest(h))
    requires Revised(texts, h, id, p, newId, r1, op1, h1) && Revised(texts, h, id, p, newId, r2, op2, h2)
    ensures r1 == r2 && h1 == h2
  {
    var m := Latest(h);
    if |p.text| > 0 && id in m && (m[id].status.Approved? || m[id].status.Stale?) {
      var hash := texts.hashOf(p.text);
      if HasDuplicate(m, m[id].kb, hash) {
        SameDuplicate(m, m[id].kb, hash, r1.error.id, r2.error.id);
      }
    }
  }
}
