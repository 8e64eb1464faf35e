// The event table of SqliteDerivedKnowledgeStore (src/cogdoc/api/derived_knowledge_store.py)
// and its idempotent import of records. Records and their identities are of any type.
module EventImport {
  import opened Options

  // The key of an appended event is random in the source; here it is the event's own id, which
  // is never used again.
  datatype Key<I> = Appended(id: nat) | Imported(identity: I, occurrence: nat)

  datatype Event<R, I> = Event(id: nat, key: Key<I>, record: R)

  datatype Table<R, I> = Table(events: seq<Event<R, I>>, nextId: nat)

  function Records<R, I>(events: seq<Event<R, I>>): seq<R> {
    seq(|events|, i requires 0 <= i < |events| => events[i].record)
  }

  function Inserted<R, I>(t: Table<R, I>, key: Key<I>, record: R): Table<R, I> {
    Table(t.events + [Event(t.nextId, key, record)], t.nextId + 1)
  }

  // ----- Import -----

  function Count<R, I(==)>(identity: R -> I, records: seq<R>, which: I): nat {
    if |records| == 0 then 0
    else Count(identity, records[..|records| - 1], which) + if identity(records[|records| - 1]) == which then 1 else 0
  }

  // Each record under its identity and the number of earlier records with that identity.
  function Prepared<R, I(==)>(identity: R -> I, records: seq<R>): seq<(Key<I>, R)> {
    if |records| == 0 then []
    else
      var front, last := records[..|records| - 1], records[|records| - 1];
      Prepared(identity, front) + [(Imported(identity(last), Count(identity, front, identity(last))), last)]
  }

  function Lookup<R, I(==)>(events: seq<Event<R, I>>, key: Key<I>): Option<R> {
    if |events| == 0 then None
    else
      var front := Lookup(events[..|events| - 1], key);
      if front.Some? then front
      else if events[|events| - 1].key == key then Some(events[|events| - 1].record)
      else None
  }

  datatype Loaded<R, I> = Loaded(table: Table<R, I>, imported: nat, skipped: nat)

  // None when a key is there already with another record.
  function LoadOne<R(==), I(==)>(at: Loaded<R, I>, item: (Key<I>, R)): Option<Loaded<R, I>> {
    var existing := Lookup(at.table.events, item.0);
    if existing.None? then Some(Loaded(Inserted(at.table, item.0, item.1), at.imported + 1, at.skipped))
    else if existing.value == item.1 then Some(Loaded(at.table, at.imported, at.skipped + 1))
    else None
  }

  function Load<R(==), I(==)>(t: Table<R, I>, items: seq<(Key<I>, R)>): Option<Loaded<R, I>> {
    if |items| == 0 then Some(Loaded(t, 0, 0))
    else
      var front := Load(t, items[..|items| - 1]);
      if front.None? then None else LoadOne(front.value, items[|items| - 1])
  }

  function Import<R(==), I(==)>(identity: R -> I, t: Table<R, I>, records: seq<R>): Option<Loaded<R, I>> {
    Load(t, Prepared(identity, records))
  }

  lemma {:induction false} PreparedAt<R, I>(identity: R -> I, records: seq<R>, i: nat)
    requires i < |records|
    ensures |Prepared(identity, records)| == |records|
    ensures Prepared(identity, records)[i]
         == (Imported(identity(records[i]), Count(identity, records[..i], identity(records[i]))), records[i])
  {
    var front := records[..|records| - 1];
    if i < |front| {
      PreparedAt(identity, front, i);
      assert front[..i] == records[..i];
    } else if |front| > 0 {
      PreparedAt(identity, front, 0);
    }
  }

  lemma {:induction false} CountGrows<R, I>(identity: R -> I, records: seq<R>, i: nat, which: I)
    requires i <= |records|
    ensures Count(identity, records[..i], which) <= Count(identity, records, which)
  {
    if i < |records| {
      var front := records[..|records| - 1];
      CountGrows(identity, front, i, which);
      assert front[..i] == records[..i];
    } else {
      assert records[..i] == records;
    }
  }

  lemma PreparedDistinct<R, I>(identity: R -> I, records: seq<R>, i: nat, j: nat)
    requires i < j < |records| && |Prepared(identity, records)| == |records|
    ensures Prepared(identity, records)[i].0 != Prepared(identity, records)[j].0
  {
    PreparedAt(identity, records, i);
    PreparedAt(identity, records, j);
    if identity(records[i]) == identity(records[j]) {
      CountGrows(identity, records[..j], i + 1, identity(records[i]));
      assert records[..j][..i + 1] == records[..i + 1] && records[..i + 1][..i] == records[..i];
    }
  }

  lemma {:induction false} PreparedConcat<R, I>(identity: R -> I, a: seq<R>, b: seq<R>)
    ensures |Prepared(identity, a)| == |a| && |Prepared(identity, a + b)| == |a| + |b|
    ensures Prepared(identity, a + b)[..|a|] == Prepared(identity, a)
  {
    if |a| > 0 {
      PreparedAt(identity, a, 0);
    }
    if |b| > 0 {
      var b' := b[..|b| - 1];
      assert (a + b)[..|a + b| - 1] == a + b';
      PreparedConcat(identity, a, b');
    } else {
      assert a + b == a;
    }
  }

  lemma LookupAppend<R, I>(events: seq<Event<R, I>>, e: Event<R, I>, key: Key<I>)
    ensures Lookup(events + [e], key)
         == if Lookup(events, key).Some? then Lookup(events, key) else if e.key == key then Some(e.record) else None
  {
    assert (events + [e])[..|events|] == events;
  }

  predicate HasKey<R, I(==)>(items: seq<(Key<I>, R)>, key: Key<I>) {
    |items| > 0 && (items[|items| - 1].0 == key || HasKey(items[..|items| - 1], key))
  }

  // What was there stays, and otherwise what is there was loaded.
  lemma {:induction false} LoadKeeps<R, I>(t: Table<R, I>, items: seq<(Key<I>, R)>, key: Key<I>)
    requires Load(t, items).Some?
    ensures Lookup(t.events, key).Some? ==> Lookup(Load(t, items).value.table.events, key) == Lookup(t.events, key)
    ensures Lookup(t.events, key).None? ==>
      (Lookup(Load(t, items).value.table.events, key).Some? <==> HasKey(items, key))
  {
    if |items| > 0 {
      var front, last := items[..|items| - 1], items[|items| - 1];
      LoadKeeps(t, front, key);
      var before := Load(t, front).value.table;
      LookupAppend(before.events, Event(before.nextId, last.0, last.1), key);
    }
  }

  // Everything loaded is there.
  lemma {:induction false} LoadFinds<R, I>(t: Table<R, I>, items: seq<(Key<I>, R)>, i: nat)
    requires Load(t, items).Some? && i < |items|
    ensures Lookup(Load(t, items).value.table.events, items[i].0) == Some(items[i].1)
  {
    var front, last := items[..|items| - 1], items[|items| - 1];
    var before := Load(t, front).value.table;
    LookupAppend(before.events, Event(before.nextId, last.0, last.1), items[i].0);
    if i < |front| {
      LoadFinds(t, front, i);
    }
  }

  // Loading what is there with the same records skips all of it.
  lemma {:induction false} LoadAgain<R, I>(t: Table<R, I>, items: seq<(Key<I>, R)>)
    requires forall i :: 0 <= i < |items| ==> Lookup(t.events, items[i].0) == Some(items[i].1)
    ensures Load(t, items) == Some(Loaded(t, 0, |items|))
  {
    if |items| > 0 {
      LoadAgain(t, items[..|items| - 1]);
    }
  }

  function Then<R, I>(first: Loaded<R, I>, second: Option<Loaded<R, I>>): Option<Loaded<R, I>> {
    if second.None? then None
    else Some(Loaded(second.value.table, first.imported + second.value.imported, first.skipped + second.value.skipped))
  }

  lemma ThenOne<R, I>(first: Loaded<R, I>, second: Loaded<R, I>, item: (Key<I>, R))
    ensures LoadOne(Then(first, Some(second)).value, item) == Then(first, LoadOne(second, item))
  {
  }

  lemma {:induction false} LoadConcat<R, I>(t: Table<R, I>, a: seq<(Key<I>, R)>, b: seq<(Key<I>, R)>)
    ensures Load(t, a).None? ==> Load(t, a + b).None?
    ensures Load(t, a).Some? ==> Load(t, a + b) == Then(Load(t, a).value, Load(Load(t, a).value.table, b))
  {
    if |b| == 0 {
      assert a + b == a;
    } else {
      var b', last := b[..|b| - 1], b[|b| - 1];
      assert (a + b)[..|a + b| - 1] == a + b' && (a + b)[|a + b| - 1] == last;
      LoadConcat(t, a, b');
      if Load(t, a).Some? && Load(Load(t, a).value.table, b').Some? {
        ThenOne(Load(t, a).value, Load(Load(t, a).value.table, b').value, last);
      }
    }
  }

  predicate DistinctKeys<R, I(==)>(items: seq<(Key<I>, R)>) {
    |items| == 0
    || (!HasKey(items[..|items| - 1], items[|items| - 1].0) && DistinctKeys(items[..|items| - 1]))
  }

  // New keys, all different: every item is appended, in order.
  lemma {:induction false} LoadNew<R, I>(t: Table<R, I>, items: seq<(Key<I>, R)>)
    requires forall i :: 0 <= i < |items| ==> Lookup(t.events, items[i].0).None?
    requires DistinctKeys(items)
    ensures Load(t, items).Some? && Load(t, items).value.imported == |items| && Load(t, items).value.skipped == 0
    ensures Records(Load(t, items).value.table.events) == Records(t.events) + Seconds(items)
  {
    if |items| > 0 {
      var front := items[..|items| - 1];
      LoadNew(t, front);
      LoadKeeps(t, front, items[|items| - 1].0);
      assert Seconds(items) == Seconds(front) + [items[|items| - 1].1];
      RecordsAppend(Load(t, front).value.table, items[|items| - 1].0, items[|items| - 1].1);
    }
  }

  function Seconds<A, B>(items: seq<(A, B)>): seq<B> {
    seq(|items|, i requires 0 <= i < |items| => items[i].1)
  }

  lemma RecordsAppend<R, I>(t: Table<R, I>, key: Key<I>, record: R)
    ensures Records(Inserted(t, key, record).events) == Records(t.events) + [record]
  {
  }

  lemma {:induction false} HasKeySome<R, I>(items: seq<(Key<I>, R)>, key: Key<I>) returns (i: nat)
    requires HasKey(items, key)
    ensures i < |items| && items[i].0 == key
  {
    i := |items| - 1;
    if items[i].0 != key {
      i := HasKeySome(items[..i], key);
    }
  }

  lemma PreparedNew<R, I>(identity: R -> I, records: seq<R>, i: nat)
    requires i < |records| == |Prepared(identity, records)|
    ensures !HasKey(Prepared(identity, records)[..i], Prepared(identity, records)[i].0)
  {
    var items := Prepared(identity, records);
    if HasKey(items[..i], items[i].0) {
      var j := HasKeySome(items[..i], items[i].0);
      PreparedDistinct(identity, records, j, i);
    }
  }

  lemma {:induction false} PreparedAllDistinct<R, I>(identity: R -> I, records: seq<R>, n: nat)
    requires n <= |records| == |Prepared(identity, records)|
    ensures DistinctKeys(Prepared(identity, records)[..n])
  {
    if n > 0 {
      PreparedAllDistinct(identity, records, n - 1);
      PreparedNew(identity, records, n - 1);
      assert Prepared(identity, records)[..n][..n - 1] == Prepared(identity, records)[..n - 1];
    }
  }

  predicate ConflictItem<R(==), I(==)>(t: Table<R, I>, item: (Key<I>, R)) {
    Lookup(t.events, item.0).Some? && Lookup(t.events, item.0).value != item.1
  }

  lemma {:induction false} LoadConflict<R, I>(t: Table<R, I>, items: seq<(Key<I>, R)>)
    requires DistinctKeys(items)
    ensures Load(t, items).None? <==> exists i :: 0 <= i < |items| && ConflictItem(t, items[i])
  {
    if |items| > 0 {
      var front, last := items[..|items| - 1], items[|items| - 1];
      LoadConflict(t, front);
      assert items == front + [last];
      if Load(t, front).Some? {
        LoadKeeps(t, front, last.0);
        assert Load(t, items).None? <==> ConflictItem(t, last);
      }
    }
  }

  // ----- Main results on import -----

  predicate NoImports<R, I>(t: Table<R, I>) {
    forall i :: 0 <= i < |t.events| ==> t.events[i].key.Appended?
  }

  lemma {:induction false} NoImportsLookup<R, I>(t: Table<R, I>, key: Key<I>)
    requires NoImports(t) && key.Imported?
    ensures Lookup(t.events, key).None?
    decreases |t.events|
  {
    if |t.events| > 0 {
      NoImportsLookup(Table(t.events[..|t.events| - 1], t.nextId), key);
    }
  }

  // Importing into a store that was never imported into appends the records in order, so that
  // import into an empty store and export give the records back.
  lemma ImportThenExport<R, I>(identity: R -> I, t: Table<R, I>, records: seq<R>)
    requires NoImports(t)
    ensures Import(identity, t, records).Some?
    ensures var d := Import(identity, t, records).value;
      Records(d.table.events) == Records(t.events) + records && d.imported == |records| && d.skipped == 0
  {
    var items := Prepared(identity, records);
    PreparedConcat(identity, records, []);
    assert records + [] == records;
    forall i | 0 <= i < |items|
      ensures items[i].1 == records[i] && Lookup(t.events, items[i].0).None?
    {
      PreparedAt(identity, records, i);
      NoImportsLookup(t, items[i].0);
    }
    PreparedAllDistinct(identity, records, |records|);
    assert Seconds(items) == records && items[..|items|] == items;
    LoadNew(t, items);
  }

  // A second import of the same records leaves the table as it is.
  lemma ImportTwice<R, I>(identity: R -> I, t: Table<R, I>, records: seq<R>)
    requires Import(identity, t, records).Some?
    ensures var d := Import(identity, t, records).value;
      Import(identity, d.table, records) == Some(Loaded(d.table, 0, |records|))
  {
    var items := Prepared(identity, records);
    PreparedConcat(identity, records, []);
    assert records + [] == records;
    forall i | 0 <= i < |items|
      ensures Lookup(Load(t, items).value.table.events, items[i].0) == Some(items[i].1)
    {
      LoadFinds(t, items, i);
    }
    LoadAgain(Load(t, items).value.table, items);
  }

  // An import cut short can be repeated with more: a, then a + b, is a + b at once. The records
  // of a are skipped the second time.
  lemma ImportInParts<R, I>(identity: R -> I, t: Table<R, I>, a: seq<R>, b: seq<R>)
    requires Import(identity, t, a).Some?
    ensures var first := Import(identity, t, a).value;
            var second := Import(identity, first.table, a + b);
            var whole := Import(identity, t, a + b);
      && (second.Some? <==> whole.Some?)
      && (whole.Some? ==>
            second.value.table == whole.value.table
            && second.value.imported == whole.value.imported - first.imported
            && second.value.skipped == |a| + whole.value.skipped - first.skipped)
  {
    var head := Prepared(identity, a);
    var all := Prepared(identity, a + b);
    PreparedConcat(identity, a, b);
    var tail := all[|a|..];
    assert all == head + tail;
    LoadConcat(t, head, tail);
    ImportTwice(identity, t, a);
    LoadConcat(Load(t, head).value.table, head, tail);
  }

  // Into a store never imported into: the second import adds |b| records and skips |a|.
  lemma ImportPrefix<R, I>(identity: R -> I, t: Table<R, I>, a: seq<R>, b: seq<R>)
    requires NoImports(t)
    ensures Import(identity, t, a).Some? && Import(identity, t, a + b).Some?
    ensures Import(identity, Import(identity, t, a).value.table, a + b)
         == Some(Loaded(Import(identity, t, a + b).value.table, |b|, |a|))
  {
    ImportThenExport(identity, t, a);
    ImportThenExport(identity, t, a + b);
    ImportInParts(identity, t, a, b);
  }

  // An import fails exactly when a key it gives a record is in the table with another record.
  lemma ConflictExactly<R, I>(identity: R -> I, t: Table<R, I>, records: seq<R>)
    ensures Import(identity, t, records).None? <==>
      exists i :: 0 <= i < |records| && ConflictAt(identity, t, records, i)
  {
    var items := Prepared(identity, records);
    PreparedConcat(identity, records, []);
    assert records + [] == records && items[..|items|] == items;
    PreparedAllDistinct(identity, records, |records|);
    LoadConflict(t, items);
    forall i | 0 <= i < |records| ensures ConflictItem(t, items[i]) <==> ConflictAt(identity, t, records, i) {
      PreparedAt(identity, records, i);
    }
  }

  predicate ConflictAt<R(==), I(==)>(identity: R -> I, t: Table<R, I>, records: seq<R>, i: nat)
    requires i < |records|
  {
    ConflictItem(t, (Imported(identity(records[i]), Count(identity, records[..i], identity(records[i]))), records[i]))
  }
}
