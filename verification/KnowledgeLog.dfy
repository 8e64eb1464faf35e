// The log behind the derived-knowledge store of src/cogdoc/api/derived_knowledge_store.py:
// row snapshots in order, the latest snapshot of each id being the row's state.
module KnowledgeLog {
  import opened Options
  import opened Sequences

  type Id = string

  datatype Status = Pending | Approved | Stale | Rejected | Archived | Unknown(name: string) {
    predicate Active() {
      Pending? || Approved? || Stale?
    }

    predicate Valid() {
      !Unknown?
    }
  }

  datatype Binding = Binding(source: Option<string>, sha256: Option<string>)

  datatype Row = Row(
    id: Id, kb: string, text: string, hash: string,
    version: int, previous: Option<Id>,
    group: Option<string>, binding: Binding, status: Status)
  {
    predicate SameIdentity(other: Row) {
      id == other.id && kb == other.kb && text == other.text && hash == other.hash
      && version == other.version && previous == other.previous
    }
  }

  type History = seq<Row>

  // The last snapshot of each id wins; a snapshot without an id is skipped.
  function Latest(h: History): map<Id, Row> {
    if |h| == 0 then map[]
    else
      var front, last := Latest(h[..|h| - 1]), h[|h| - 1];
      if |last.id| > 0 then front[last.id := last] else front
  }

  lemma LatestAppend(h: History, r: Row)
    requires |r.id| > 0
    ensures Latest(h + [r]) == Latest(h)[r.id := r]
  {
    assert (h + [r])[..|h|] == h;
  }

  lemma {:induction false} LatestFromHistory(h: History, id: Id)
    requires id in Latest(h)
    ensures Latest(h)[id] in h && Latest(h)[id].id == id && |id| > 0
  {
    var front, last := h[..|h| - 1], h[|h| - 1];
    if last.id != id || |last.id| == 0 {
      LatestFromHistory(front, id);
    }
  }

  // ----- Operations -----

  predicate Duplicates(r: Row, kb: string, hash: string) {
    r.kb == kb && r.hash == hash && r.status.Active()
  }

  predicate HasDuplicate(m: map<Id, Row>, kb: string, hash: string) {
    exists id :: id in m && Duplicates(m[id], kb, hash)
  }

  // Rows drawn into a conflict group, one new snapshot each unless they are in it already.
  function Regroup(h: History, ids: seq<Id>, group: string): History
    requires forall i :: 0 <= i < |ids| ==> ids[i] in Latest(h)
  {
    if |ids| == 0 then h
    else
      var front := Regroup(h, ids[..|ids| - 1], group);
      var r := Latest(h)[ids[|ids| - 1]];
      if r.group == Some(group) then front else front + [r.(group := Some(group))]
  }

  function ArchivePrevious(h: History, previous: Option<Id>): History {
    if previous.Some? && |previous.value| > 0 && previous.value in Latest(h) && !Latest(h)[previous.value].status.Archived?
    then h + [Latest(h)[previous.value].(status := Archived)]
    else h
  }

  function Rebind(b: Binding, updates: Binding): Binding {
    Binding(if updates.source.Some? then updates.source else b.source,
            if updates.sha256.Some? then updates.sha256 else b.sha256)
  }

  // A missing or zero version counts as the first.
  function NextVersion(version: int): int {
    if version == 0 then 2 else version + 1
  }

  datatype Op =
    | Create(row: Row, similar: seq<Id>, group: string)
    | Revise(row: Row)
    | SetStatus(id: Id, status: Status, updates: Binding)
    | Delete(id: Id)
    | ClearKb(kb: string)

  // An id that no snapshot in the log has or names as its previous version.
  predicate Fresh(h: History, id: Id) {
    |id| > 0 && forall i :: 0 <= i < |h| ==> h[i].id != id && h[i].previous != Some(id)
  }

  // When the operation changes the log (otherwise the methods below say what is returned).
  predicate Legal(h: History, op: Op) {
    var m := Latest(h);
    match op
    case Create(r, similar, group) =>
      && Fresh(h, r.id) && !HasDuplicate(m, r.kb, r.hash)
      && Distinct(similar)
      && (forall i :: 0 <= i < |similar| ==> similar[i] in m && m[similar[i]].kb == r.kb && m[similar[i]].status.Active())
      && r.group == (if |similar| == 0 then None else Some(group))
      && (|similar| > 0 ==> r.status.Pending?)
    case Revise(r) =>
      && Fresh(h, r.id) && !HasDuplicate(m, r.kb, r.hash)
      && r.previous.Some? && r.previous.value in m
      && var current := m[r.previous.value];
         && (current.status.Approved? || current.status.Stale?)
         && r.kb == current.kb && r.version == NextVersion(current.version) && r.group == current.group
    case SetStatus(id, status, _) => id in m && status.Valid()
    case Delete(id) => id in m
    case ClearKb(_) => true
  }

  function Without(h: History, keep: Row -> bool): History {
    if |h| == 0 then []
    else Without(h[..|h| - 1], keep) + if keep(h[|h| - 1]) then [h[|h| - 1]] else []
  }

  function Apply(h: History, op: Op): History
    requires Legal(h, op)
  {
    match op
    case Create(r, similar, group) => Regroup(h, similar, group) + [r]
    case Revise(r) => if r.status.Approved? then ArchivePrevious(h + [r], r.previous) else h + [r]
    case SetStatus(id, status, updates) =>
      var current := Latest(h)[id];
      var changed := h + [current.(status := status, binding := Rebind(current.binding, updates))];
      if status.Approved? then ArchivePrevious(changed, current.previous) else changed
    case Delete(id) => Without(h, (r: Row) => r.id != id)
    case ClearKb(kb) => Without(h, (r: Row) => r.kb != kb)
  }

  // ----- Latest rows after an operation -----

  function Regrouped(m: map<Id, Row>, ids: seq<Id>, group: string): map<Id, Row> {
    map id | id in m :: if id in ids then m[id].(group := Some(group)) else m[id]
  }

  lemma {:induction false} RegroupLatest(h: History, ids: seq<Id>, group: string)
    requires forall i :: 0 <= i < |ids| ==> ids[i] in Latest(h)
    requires Distinct(ids)
    ensures Latest(Regroup(h, ids, group)) == Regrouped(Latest(h), ids, group)
  {
    if |ids| > 0 {
      var front, id := ids[..|ids| - 1], ids[|ids| - 1];
      RegroupLatest(h, front, group);
      LatestFromHistory(h, id);
      var r := Latest(h)[id];
      assert ids == front + [id];
      assert id !in front;
      if r.group != Some(group) {
        LatestAppend(Regroup(h, front, group), r.(group := Some(group)));
      }
    }
  }

  function Archiving(m: map<Id, Row>, previous: Option<Id>): map<Id, Row> {
    if previous.Some? && |previous.value| > 0 && previous.value in m
    then m[previous.value := m[previous.value].(status := Archived)]
    else m
  }

  lemma ArchiveLatest(h: History, previous: Option<Id>)
    ensures Latest(ArchivePrevious(h, previous)) == Archiving(Latest(h), previous)
  {
    if previous.Some? && previous.value in Latest(h) {
      LatestFromHistory(h, previous.value);
      var r := Latest(h)[previous.value];
      if !r.status.Archived? {
        LatestAppend(h, r.(status := Archived));
      } else {
        assert r == r.(status := Archived);
      }
    }
  }

  predicate KeepsById(h: History, keep: Row -> bool, keepId: Id -> bool) {
    forall i :: 0 <= i < |h| && |h[i].id| > 0 ==> (keep(h[i]) <==> keepId(h[i].id))
  }

  function Kept(m: map<Id, Row>, keepId: Id -> bool): map<Id, Row> {
    map id | id in m && keepId(id) :: m[id]
  }

  lemma {:induction false} WithoutLatest(h: History, keep: Row -> bool, keepId: Id -> bool)
    requires KeepsById(h, keep, keepId)
    ensures Latest(Without(h, keep)) == Kept(Latest(h), keepId)
  {
    if |h| > 0 {
      var front, last := h[..|h| - 1], h[|h| - 1];
      assert KeepsById(front, keep, keepId);
      WithoutLatest(front, keep, keepId);
      if keep(last) {
        assert (Without(front, keep) + [last])[..|Without(front, keep)|] == Without(front, keep);
      } else {
        assert Without(front, keep) + [] == Without(front, keep);
      }
    }
  }

  // ----- All snapshots of one id describe one row -----

  // Every snapshot agrees with the latest one of its id on all but status, binding and group.
  ghost predicate Consistent(h: History) {
    forall i :: 0 <= i < |h| ==>
      |h[i].id| > 0 && h[i].id in Latest(h) && h[i].SameIdentity(Latest(h)[h[i].id])
  }

  lemma ConsistentAppend(h: History, r: Row)
    requires Consistent(h) && |r.id| > 0
    requires r.id in Latest(h) ==> r.SameIdentity(Latest(h)[r.id])
    ensures Consistent(h + [r])
  {
    LatestAppend(h, r);
    forall i | 0 <= i < |h| ensures h[i].SameIdentity(Latest(h + [r])[h[i].id]) {
      assert h[i].SameIdentity(Latest(h)[h[i].id]);
    }
  }

  lemma {:induction false} ConsistentRegroup(h: History, ids: seq<Id>, group: string)
    requires Consistent(h) && Distinct(ids) && forall i :: 0 <= i < |ids| ==> ids[i] in Latest(h)
    ensures Consistent(Regroup(h, ids, group))
  {
    if |ids| > 0 {
      var front, id := ids[..|ids| - 1], ids[|ids| - 1];
      ConsistentRegroup(h, front, group);
      RegroupLatest(h, front, group);
      LatestFromHistory(h, id);
      if Latest(h)[id].group != Some(group) {
        ConsistentAppend(Regroup(h, front, group), Latest(h)[id].(group := Some(group)));
      }
    }
  }

  lemma ConsistentArchive(h: History, previous: Option<Id>)
    requires Consistent(h)
    ensures Consistent(ArchivePrevious(h, previous))
  {
    if previous.Some? && previous.value in Latest(h) && !Latest(h)[previous.value].status.Archived? {
      LatestFromHistory(h, previous.value);
      ConsistentAppend(h, Latest(h)[previous.value].(status := Archived));
    }
  }

  lemma WithoutSubset(h: History, keep: Row -> bool)
    ensures forall i :: 0 <= i < |Without(h, keep)| ==> Without(h, keep)[i] in h && keep(Without(h, keep)[i])
  {
    if |h| > 0 {
      WithoutSubset(h[..|h| - 1], keep);
      assert h == h[..|h| - 1] + [h[|h| - 1]];
    }
  }

  lemma ConsistentWithout(h: History, keep: Row -> bool, keepId: Id -> bool)
    requires Consistent(h) && KeepsById(h, keep, keepId)
    ensures Consistent(Without(h, keep))
  {
    WithoutSubset(h, keep);
    WithoutLatest(h, keep, keepId);
    forall i | 0 <= i < |Without(h, keep)|
      ensures var r := Without(h, keep)[i]; |r.id| > 0 && r.id in Latest(Without(h, keep)) && r.SameIdentity(Latest(h)[r.id])
    {
      var r := Without(h, keep)[i];
      var n :| 0 <= n < |h| && h[n] == r;
    }
  }

  // The ids a removing operation keeps.
  function KeptBy(m: map<Id, Row>, op: Op): Id -> bool {
    id => match op
          case Delete(gone) => id != gone
          case ClearKb(kb) => id in m && m[id].kb != kb
          case _ => true
  }

  lemma RemovalById(h: History, op: Op)
    requires Consistent(h) && (op.Delete? || op.ClearKb?) && Legal(h, op)
    ensures Consistent(Apply(h, op)) && Latest(Apply(h, op)) == Kept(Latest(h), KeptBy(Latest(h), op))
  {
    var keepId := KeptBy(Latest(h), op);
    match op
    case Delete(gone) =>
      var keep := (r: Row) => r.id != gone;
      assert KeepsById(h, keep, keepId);
      WithoutLatest(h, keep, keepId);
      ConsistentWithout(h, keep, keepId);
      assert Apply(h, op) == Without(h, keep);
    case ClearKb(kb) =>
      var keep := (r: Row) => r.kb != kb;
      assert KeepsById(h, keep, keepId);
      WithoutLatest(h, keep, keepId);
      ConsistentWithout(h, keep, keepId);
      assert Apply(h, op) == Without(h, keep);
    case _ =>
  }

  // ----- What each operation does to the latest rows -----

  function LatestAfter(m: map<Id, Row>, op: Op): map<Id, Row> {
    match op
    case Create(r, similar, group) => Regrouped(m, similar, group)[r.id := r]
    case Revise(r) => if r.status.Approved? then Archiving(m[r.id := r], r.previous) else m[r.id := r]
    case SetStatus(id, status, updates) =>
      if id !in m then m
      else
        var changed := m[id := m[id].(status := status, binding := Rebind(m[id].binding, updates))];
        if status.Approved? then Archiving(changed, m[id].previous) else changed
    case Delete(_) => Kept(m, KeptBy(m, op))
    case ClearKb(_) => Kept(m, KeptBy(m, op))
  }

  // What Legal says of the latest rows alone.
  ghost predicate LegalOn(m: map<Id, Row>, op: Op) {
    match op
    case Create(r, similar, group) =>
      && r.id !in m && (forall id :: id in m ==> m[id].previous != Some(r.id)) && !HasDuplicate(m, r.kb, r.hash)
      && (forall i :: 0 <= i < |similar| ==> similar[i] in m && m[similar[i]].status.Active())
    case Revise(r) =>
      && r.id !in m && (forall id :: id in m ==> m[id].previous != Some(r.id)) && !HasDuplicate(m, r.kb, r.hash)
      && r.previous.Some? && |r.previous.value| > 0 && r.previous.value in m
      && r.kb == m[r.previous.value].kb && r.version == NextVersion(m[r.previous.value].version)
    case SetStatus(id, _, _) => id in m
    case _ => true
  }

  lemma LegalOnLatest(h: History, op: Op)
    requires Legal(h, op)
    ensures LegalOn(Latest(h), op)
  {
    forall id | id in Latest(h) ensures Latest(h)[id] in h && Latest(h)[id].id == id && |id| > 0 {
      LatestFromHistory(h, id);
    }
  }

  lemma ApplyLatest(h: History, op: Op)
    requires Consistent(h) && Legal(h, op)
    ensures Latest(Apply(h, op)) == LatestAfter(Latest(h), op)
    ensures Consistent(Apply(h, op))
  {
    var m := Latest(h);
    match op
    case Create(r, similar, group) =>
      RegroupLatest(h, similar, group);
      ConsistentRegroup(h, similar, group);
      LatestAppend(Regroup(h, similar, group), r);
      FreshUnused(h, r.id);
      ConsistentAppend(Regroup(h, similar, group), r);
    case Revise(r) =>
      LatestAppend(h, r);
      FreshUnused(h, r.id);
      ConsistentAppend(h, r);
      ArchiveLatest(h + [r], r.previous);
      ConsistentArchive(h + [r], r.previous);
    case SetStatus(id, status, updates) =>
      LatestFromHistory(h, id);
      var changed := m[id].(status := status, binding := Rebind(m[id].binding, updates));
      LatestAppend(h, changed);
      ConsistentAppend(h, changed);
      ArchiveLatest(h + [changed], m[id].previous);
      ConsistentArchive(h + [changed], m[id].previous);
    case _ => RemovalById(h, op);
  }

  lemma FreshUnused(h: History, id: Id)
    requires Fresh(h, id)
    ensures id !in Latest(h)
  {
    if id in Latest(h) {
      LatestFromHistory(h, id);
    }
  }

  // ----- Revision chains -----

  predicate LinkedAt(m: map<Id, Row>, id: Id)
    requires id in m
  {
    && |id| > 0 && m[id].id == id && m[id].version >= 1
    && (m[id].previous.None? <==> m[id].version == 1)
    && (m[id].previous.Some? && m[id].previous.value in m ==>
          m[m[id].previous.value].version + 1 == m[id].version && m[m[id].previous.value].kb == m[id].kb)
  }

  // Versions count the links back to the first one.
  ghost predicate Linked(m: map<Id, Row>) {
    forall id :: id in m ==> LinkedAt(m, id)
  }

  predicate FreshRow(op: Op) {
    match op
    case Create(r, _, _) => |r.id| > 0
    case Revise(r) => |r.id| > 0
    case _ => true
  }

  // A creation that supplies neither a version nor a previous version of its own.
  predicate Plain(op: Op) {
    op.Create? ==> op.row.version == 1 && op.row.previous == None
  }

  lemma LinkedStep(m: map<Id, Row>, op: Op)
    requires Linked(m) && LegalOn(m, op) && FreshRow(op) && Plain(op)
    ensures Linked(LatestAfter(m, op))
  {
    var n := LatestAfter(m, op);
    forall id | id in n ensures LinkedAt(n, id) {
      LinkedStepAt(m, op, id);
    }
  }

  lemma LinkedStepAt(m: map<Id, Row>, op: Op, id: Id)
    requires Linked(m) && LegalOn(m, op) && FreshRow(op) && Plain(op) && id in LatestAfter(m, op)
    ensures LinkedAt(LatestAfter(m, op), id)
  {
    assert id in m ==> LinkedAt(m, id);
    if op.Revise? {
      assert LinkedAt(m, op.row.previous.value);
    }
  }

  // ids[k + 1] is the previous version of ids[k].
  predicate LinkAt(m: map<Id, Row>, ids: seq<Id>, k: nat)
    requires k + 1 < |ids|
  {
    ids[k] in m && m[ids[k]].previous == Some(ids[k + 1]) && ids[k + 1] in m
  }

  ghost predicate IsChain(m: map<Id, Row>, ids: seq<Id>) {
    forall k: nat :: k + 1 < |ids| ==> LinkAt(m, ids, k)
  }

  // Along a chain of previous versions the version falls by one a step, so no chain is longer
  // than the version it starts from and none comes back to a row.
  lemma {:induction false} ChainsEnd(m: map<Id, Row>, ids: seq<Id>, k: nat)
    requires Linked(m) && IsChain(m, ids) && k < |ids| && ids[0] in m
    ensures ids[k] in m && m[ids[k]].version == m[ids[0]].version - k && k < m[ids[0]].version
    ensures k > 0 ==> ids[k] != ids[0]
  {
    assert LinkedAt(m, ids[0]);
    if k > 0 {
      ChainsEnd(m, ids, k - 1);
      assert LinkAt(m, ids, k - 1) && LinkedAt(m, ids[k - 1]) && LinkedAt(m, ids[k]);
    }
  }

  // ----- Approving a revision archives what it revises -----

  predicate SupersededAt(m: map<Id, Row>, id: Id)
    requires id in m
  {
    m[id].status.Approved? && m[id].previous.Some? && m[id].previous.value in m ==>
      m[m[id].previous.value].status.Archived?
  }

  ghost predicate Superseded(m: map<Id, Row>) {
    forall id :: id in m ==> SupersededAt(m, id)
  }

  predicate Revives(m: map<Id, Row>, op: Op) {
    op.SetStatus? && op.id in m && m[op.id].status.Archived? && !op.status.Archived?
  }

  // While no archived row is revived, every approved revision has an archived predecessor, or
  // one that was deleted.
  lemma SupersededStep(m: map<Id, Row>, op: Op)
    requires Linked(m) && Superseded(m) && LegalOn(m, op) && FreshRow(op) && Plain(op) && !Revives(m, op)
    ensures Superseded(LatestAfter(m, op))
  {
    var n := LatestAfter(m, op);
    forall id | id in n ensures SupersededAt(n, id) {
      assert id in m ==> SupersededAt(m, id) && LinkedAt(m, id);
      if op.Create? {
        assert forall i :: 0 <= i < |op.similar| ==> m[op.similar[i]].status.Active();
      }
      if op.SetStatus? {
        assert LinkedAt(m, op.id);
      }
    }
  }

  // ----- No two active rows with one text -----

  predicate Rivals(m: map<Id, Row>, a: Id, b: Id) {
    a in m && b in m && a != b && m[a].status.Active() && m[b].status.Active()
    && m[a].kb == m[b].kb && m[a].hash == m[b].hash
  }

  ghost predicate Keyed(m: map<Id, Row>) {
    forall id :: id in m ==> |id| > 0 && m[id].id == id
  }

  lemma LatestKeyed(h: History)
    ensures Keyed(Latest(h))
  {
    forall id | id in Latest(h) ensures |id| > 0 && Latest(h)[id].id == id {
      LatestFromHistory(h, id);
    }
  }

  // At most one active row for each knowledge base and text.
  ghost predicate UniqueActive(m: map<Id, Row>) {
    forall a, b :: !Rivals(m, a, b)
  }

  // The one way to break it: activating an inactive row while another active row has its text,
  // unless the approval archives one of the two as a previous version.
  predicate Clashes(m: map<Id, Row>, op: Op) {
    Reactivates(m, op) && !(op.status.Approved? && m[op.id].previous == Some(op.id))
    && exists other :: other in m && RivalOf(m, op, other)
  }

  predicate Reactivates(m: map<Id, Row>, op: Op) {
    op.SetStatus? && op.id in m && op.status.Active() && !m[op.id].status.Active()
  }

  predicate RivalOf(m: map<Id, Row>, op: Op, other: Id)
    requires op.SetStatus? && op.id in m && other in m
  {
    other != op.id && m[other].status.Active() && m[other].kb == m[op.id].kb && m[other].hash == m[op.id].hash
    && !(op.status.Approved? && m[op.id].previous == Some(other))
  }

  lemma ClashBreaks(m: map<Id, Row>, op: Op)
    requires Keyed(m) && Clashes(m, op)
    ensures !UniqueActive(LatestAfter(m, op))
  {
    var other :| other in m && RivalOf(m, op, other);
    assert Rivals(LatestAfter(m, op), op.id, other);
  }

  // An operation other than a clash makes no new rivals: rows it adds have no duplicate, and
  // rows it activates have none either.
  lemma NoNewRivals(m: map<Id, Row>, op: Op, a: Id, b: Id)
    requires Keyed(m) && LegalOn(m, op) && FreshRow(op) && !Clashes(m, op)
    requires Rivals(LatestAfter(m, op), a, b)
    ensures Rivals(m, a, b)
  {
    if (op.Create? || op.Revise?) && (a == op.row.id || b == op.row.id) {
      var other := if a == op.row.id then b else a;
      assert other in m && Duplicates(m[other], op.row.kb, op.row.hash);
    }
    if op.SetStatus? {
      assert a in m && b in m;
      assert a == op.id ==> !RivalOf(m, op, b) || m[op.id].status.Active();
      assert b == op.id ==> !RivalOf(m, op, a) || m[op.id].status.Active();
    }
  }

  // Uniqueness survives an operation exactly when the operation does not clash.
  lemma UniqueActiveStep(m: map<Id, Row>, op: Op)
    requires UniqueActive(m) && Keyed(m) && LegalOn(m, op) && FreshRow(op)
    ensures UniqueActive(LatestAfter(m, op)) <==> !Clashes(m, op)
  {
    if Clashes(m, op) {
      ClashBreaks(m, op);
    } else {
      forall a, b ensures !Rivals(LatestAfter(m, op), a, b) {
        assert !Rivals(m, a, b);
        if Rivals(LatestAfter(m, op), a, b) {
          NoNewRivals(m, op, a, b);
        }
      }
    }
  }

  // ----- Conflict groups -----

  // Creation leaves the new row and every row it resembles in one conflict group, and takes no
  // other row out of its group.
  lemma CreateGroups(h: History, op: Op, id: Id)
    requires Consistent(h) && Legal(h, op) && op.Create?
    requires id in Latest(h) || id == op.row.id
    ensures id in Latest(Apply(h, op))
    ensures id == op.row.id ==>
      Latest(Apply(h, op))[id].group == if |op.similar| > 0 then Some(op.group) else None
    ensures id != op.row.id ==>
      Latest(Apply(h, op))[id].group == if id in op.similar then Some(op.group) else Latest(h)[id].group
  {
    ApplyLatest(h, op);
    FreshUnused(h, op.row.id);
  }

  // ----- Whole runs -----

  predicate StepAt(hs: seq<History>, ops: seq<Op>, i: nat)
    requires i < |ops| && |hs| == |ops| + 1
  {
    Legal(hs[i], ops[i]) && hs[i + 1] == Apply(hs[i], ops[i])
  }

  // hs[i] is the log before operation i; the first log is empty.
  ghost predicate IsRun(hs: seq<History>, ops: seq<Op>) {
    |hs| == |ops| + 1 && hs[0] == [] && forall i: nat :: i < |ops| ==> StepAt(hs, ops, i)
  }

  // The log after some operations, or None if one of them is not legal when its turn comes.
  function After(h: History, ops: seq<Op>): Option<History> {
    if |ops| == 0 then Some(h)
    else
      var front, last := After(h, ops[..|ops| - 1]), ops[|ops| - 1];
      if front.Some? && Legal(front.value, last) then Some(Apply(front.value, last)) else None
  }

  lemma AfterOne(h: History, op: Op)
    requires Legal(h, op)
    ensures After(h, [op]) == Some(Apply(h, op))
  {
    assert [op][..0] == [];
  }

  lemma {:induction false} AfterConcat(h: History, a: seq<Op>, b: seq<Op>)
    requires After(h, a).Some?
    ensures After(h, a + b) == After(After(h, a).value, b)
  {
    if |b| == 0 {
      assert a + b == a;
    } else {
      AfterConcat(h, a, b[..|b| - 1]);
      assert (a + b)[..|a + b| - 1] == a + b[..|b| - 1];
    }
  }

  // All the logs on the way.
  function Trace(h: History, ops: seq<Op>): (hs: seq<History>)
    ensures |hs| == |ops| + 1 && hs[0] == h
  {
    if |ops| == 0 then [h]
    else
      var after := After(h, ops);
      Trace(h, ops[..|ops| - 1]) + [if after.Some? then after.value else h]
  }

  // Such operations on an empty log make a run.
  lemma {:induction false} TraceIsRun(ops: seq<Op>)
    requires After([], ops).Some?
    ensures IsRun(Trace([], ops), ops) && Trace([], ops)[|ops|] == After([], ops).value
  {
    if |ops| > 0 {
      var front := ops[..|ops| - 1];
      TraceIsRun(front);
      forall i: nat | i < |ops| ensures StepAt(Trace([], ops), ops, i) {
        if i < |front| {
          assert StepAt(Trace([], front), front, i);
        }
      }
    }
  }

  // No operation sets a row active beside another with its text when its turn comes.
  predicate NoneClashes(h: History, ops: seq<Op>) {
    |ops| == 0
    || (NoneClashes(h, ops[..|ops| - 1])
        && After(h, ops[..|ops| - 1]).Some? && !Clashes(Latest(After(h, ops[..|ops| - 1]).value), ops[|ops| - 1]))
  }

  lemma {:induction false} AfterUnique(h: History, ops: seq<Op>)
    requires Consistent(h) && UniqueActive(Latest(h)) && After(h, ops).Some? && NoneClashes(h, ops)
    ensures Consistent(After(h, ops).value) && UniqueActive(Latest(After(h, ops).value))
  {
    if |ops| > 0 {
      AfterUnique(h, ops[..|ops| - 1]);
      var before, op := After(h, ops[..|ops| - 1]).value, ops[|ops| - 1];
      ApplyLatest(before, op);
      LegalOnLatest(before, op);
      LatestKeyed(before);
      UniqueActiveStep(Latest(before), op);
    }
  }

  // In every run all snapshots of one id agree on text, hash, version and previous version.
  lemma {:induction false} RunConsistent(hs: seq<History>, ops: seq<Op>, k: nat)
    requires IsRun(hs, ops) && k <= |ops|
    ensures Consistent(hs[k])
    ensures k < |ops| ==> Latest(hs[k + 1]) == LatestAfter(Latest(hs[k]), ops[k]) && LegalOn(Latest(hs[k]), ops[k])
    ensures k < |ops| ==> FreshRow(ops[k])
  {
    if k > 0 {
      RunConsistent(hs, ops, k - 1);
      assert StepAt(hs, ops, k - 1);
      ApplyLatest(hs[k - 1], ops[k - 1]);
    }
    if k < |ops| {
      assert StepAt(hs, ops, k);
      ApplyLatest(hs[k], ops[k]);
      LegalOnLatest(hs[k], ops[k]);
    }
  }

  // With plain creations the versions of every run follow the links.
  lemma {:induction false} RunLinked(hs: seq<History>, ops: seq<Op>, k: nat)
    requires IsRun(hs, ops) && k <= |ops| && forall i :: 0 <= i < k ==> Plain(ops[i])
    ensures Linked(Latest(hs[k]))
  {
    if k > 0 {
      RunLinked(hs, ops, k - 1);
      RunConsistent(hs, ops, k - 1);
      LinkedStep(Latest(hs[k - 1]), ops[k - 1]);
    }
  }

  lemma {:induction false} RunSuperseded(hs: seq<History>, ops: seq<Op>, k: nat)
    requires IsRun(hs, ops) && k <= |ops| && forall i :: 0 <= i < k ==> Plain(ops[i]) && !RevivesAt(hs, ops, i)
    ensures Superseded(Latest(hs[k]))
  {
    if k > 0 {
      RunSuperseded(hs, ops, k - 1);
      RunLinked(hs, ops, k - 1);
      RunConsistent(hs, ops, k - 1);
      assert !RevivesAt(hs, ops, k - 1);
      SupersededStep(Latest(hs[k - 1]), ops[k - 1]);
    }
  }

  predicate RevivesAt(hs: seq<History>, ops: seq<Op>, i: nat)
    requires i < |ops| && |hs| == |ops| + 1
  {
    Revives(Latest(hs[i]), ops[i])
  }

  predicate ClashesAt(hs: seq<History>, ops: seq<Op>, i: nat)
    requires i < |ops| && |hs| == |ops| + 1
  {
    Clashes(Latest(hs[i]), ops[i])
  }

  predicate ReactivatesAt(hs: seq<History>, ops: seq<Op>, i: nat)
    requires i < |ops| && |hs| == |ops| + 1
  {
    Reactivates(Latest(hs[i]), ops[i])
  }

  ghost predicate UniqueAt(hs: seq<History>, i: nat)
    requires i < |hs|
  {
    UniqueActive(Latest(hs[i]))
  }

  lemma UniqueAtStep(hs: seq<History>, ops: seq<Op>, i: nat)
    requires IsRun(hs, ops) && i < |ops| && UniqueAt(hs, i)
    ensures UniqueAt(hs, i + 1) <==> !ClashesAt(hs, ops, i)
  {
    RunConsistent(hs, ops, i);
    LatestKeyed(hs[i]);
    UniqueActiveStep(Latest(hs[i]), ops[i]);
  }

  // All logs of a run up to k hold at most one active row for each text exactly when no
  // operation before k clashes.
  lemma {:induction false} RunUnique(hs: seq<History>, ops: seq<Op>, k: nat)
    requires IsRun(hs, ops) && k <= |ops|
    ensures (forall i :: 0 <= i <= k ==> UniqueAt(hs, i)) <==> (forall i :: 0 <= i < k ==> !ClashesAt(hs, ops, i))
  {
    if k == 0 {
      assert UniqueAt(hs, 0);
    } else {
      RunUnique(hs, ops, k - 1);
      if UniqueAt(hs, k - 1) {
        UniqueAtStep(hs, ops, k - 1);
      }
    }
  }

  // In particular a run that never reactivates a row keeps them unique.
  lemma RunWithoutReactivation(hs: seq<History>, ops: seq<Op>, k: nat)
    requires IsRun(hs, ops) && k <= |ops| && forall i :: 0 <= i < k ==> !ReactivatesAt(hs, ops, i)
    ensures UniqueActive(Latest(hs[k]))
  {
    RunUnique(hs, ops, k);
    forall i | 0 <= i < k ensures !ClashesAt(hs, ops, i) {
      assert !ReactivatesAt(hs, ops, i);
    }
    assert UniqueAt(hs, k);
  }

  // Reactivation does break it: create a text, reject it, create it again, approve the first.
  lemma ReactivationClash(row: Row) returns (hs: seq<History>, ops: seq<Op>)
    requires row.id == "K1" && row.status.Pending? && row.previous == None && row.group == None
    ensures IsRun(hs, ops) && |ops| == 4 && Rivals(Latest(hs[4]), "K1", "K2")
  {
    var again := row.(id := "K2");
    var none := Binding(None, None);
    var rejected, approved := row.(status := Rejected), row.(status := Approved);
    ops := [Create(row, [], ""), SetStatus("K1", Rejected, none), Create(again, [], ""), SetStatus("K1", Approved, none)];
    hs := [[], [row], [row, rejected], [row, rejected, again], [row, rejected, again, approved]];
    LatestAppend([], row);
    LatestAppend([row], rejected);
    LatestAppend([row, rejected], again);
    LatestAppend([row, rejected, again], approved);
    assert [] + [row] == hs[1] && [row] + [rejected] == hs[2];
    assert [row, rejected] + [again] == hs[3] && [row, rejected, again] + [approved] == hs[4];
    assert Latest(hs[1]) == map["K1" := row];
    assert Latest(hs[2]) == map["K1" := rejected];
    assert Latest(hs[3]) == map["K1" := rejected, "K2" := again];
    assert Latest(hs[4]) == map["K1" := approved, "K2" := again];
    assert Rebind(row.binding, none) == row.binding;
    assert StepAt(hs, ops, 0);
    assert StepAt(hs, ops, 1);
    assert StepAt(hs, ops, 2);
    assert StepAt(hs, ops, 3);
  }
}
