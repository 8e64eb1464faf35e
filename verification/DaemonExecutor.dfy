// The bounded executor of src/cogdoc/daemon_executor.py, as a state machine whose
// steps are the atomic actions of its threads. The executor lock is held across
// several actions by the first shutdown() only, while workers keep taking items
// from the queue (the queue has a lock of its own); the phase records that.
module DaemonExecutor {
  import opened Options

  datatype FutureState = Pending | Running | Cancelled | CancelledAndNotified | Finished {
    predicate Done() {
      Cancelled? || CancelledAndNotified? || Finished?
    }

    // Future.cancel(): refused once the call runs or is over.
    function Cancel(): FutureState {
      if Pending? then Cancelled else this
    }
  }

  // A submitted call is named by its position in the order of admission.
  datatype Item = Work(job: nat) | Stop

  datatype Worker = Idle | Taken(job: nat) | Executing(job: nat) | Releasing(job: nat) | Exited {
    predicate Busy() {
      Taken? || Executing? || Releasing?
    }

    predicate Holds(j: nat) {
      Busy() && job == j
    }

    // Actions this worker takes before it waits on the queue again, the wait counting as one.
    function Left(): nat {
      match this case Taken(_) => 4 case Executing(_) => 3 case Releasing(_) => 2 case Idle => 1 case Exited => 0
    }
  }

  // Open: admission is possible. Cancelling and Stopping: the first shutdown() holds the
  // lock, emptying the queue and then adding `left` more sentinels. Closed: it let go.
  datatype Phase = Open | Cancelling(hand: Option<nat>, retained: nat) | Stopping(left: nat) | Closed {
    predicate LockFree() {
      Open? || Closed?
    }

    predicate Holds(j: nat) {
      Cancelling? && hand == Some(j)
    }
  }

  datatype State = State(
    maxPending: Option<nat>,
    maxWorkers: nat,
    phase: Phase,
    pending: nat,
    queue: seq<Item>,
    workers: seq<Worker>,
    futures: seq<FutureState>,
    calls: seq<nat>)  // calls[j]: how often the function of job j was called

  datatype Action =
    | Submit
    | BeginShutdown(cancelFutures: bool)
    | CancelTake
    | CancelApply
    | CancelDone
    | PutStop
    | EndShutdown
    | Take(w: nat)
    | Start(w: nat)
    | Finish(w: nat)
    | Release(w: nat)
    | ClientCancel(job: nat)

  function Initial(maxPending: Option<nat>, maxWorkers: nat): State {
    State(maxPending, maxWorkers, Open, 0, [], [], [], [])
  }

  predicate Full(s: State) {
    s.maxPending.Some? && s.pending >= s.maxPending.value
  }

  predicate Enabled(s: State, a: Action) {
    match a
    case Submit => s.phase.LockFree()
    case BeginShutdown(_) => s.phase.LockFree()
    case CancelTake => s.phase.Cancelling? && s.phase.hand.None? && s.queue != []
    case CancelApply => s.phase.Cancelling? && s.phase.hand.Some? && s.phase.hand.value < |s.futures|
    case CancelDone => s.phase.Cancelling? && s.phase.hand.None? && s.queue == []
    case PutStop => s.phase.Stopping? && s.phase.left > 0
    case EndShutdown => s.phase.Stopping? && s.phase.left == 0
    case Take(w) => w < |s.workers| && s.workers[w].Idle? && s.queue != []
    case Start(w) => w < |s.workers| && s.workers[w].Taken? && s.workers[w].job < |s.futures| == |s.calls|
    case Finish(w) => w < |s.workers| && s.workers[w].Executing? && s.workers[w].job < |s.futures|
    case Release(w) => s.phase.LockFree() && w < |s.workers| && s.workers[w].Releasing?
    case ClientCancel(j) => j < |s.futures|
  }

  // _release_pending keeps its guard; GuardNeverNeeded shows the guard is never what decides.
  function Released(pending: nat): nat {
    if pending > 0 then pending - 1 else pending
  }

  function Started(s: State): seq<Worker> {
    if s.workers == [] then seq(s.maxWorkers, _ => Idle) else s.workers
  }

  function Apply(s: State, a: Action): State
    requires Enabled(s, a)
  {
    match a
    case Submit =>
      if !s.phase.Open? || Full(s) then s
      else s.(workers := Started(s), pending := s.pending + 1,
              queue := s.queue + [Work(|s.futures|)],
              futures := s.futures + [Pending], calls := s.calls + [0])
    case BeginShutdown(cancelFutures) =>
      if !s.phase.Open? then s
      else if cancelFutures then s.(phase := Cancelling(None, 0))
      else s.(phase := Stopping(|s.workers|))
    case CancelTake =>
      var item := s.queue[0];
      if item.Stop? then s.(queue := s.queue[1..], phase := Cancelling(None, s.phase.retained + 1))
      else s.(queue := s.queue[1..], phase := Cancelling(Some(item.job), s.phase.retained))
    case CancelApply =>
      var j := s.phase.hand.value;
      s.(futures := s.futures[j := s.futures[j].Cancel()], pending := Released(s.pending),
         phase := Cancelling(None, s.phase.retained))
    case CancelDone => s.(phase := Stopping(s.phase.retained + |s.workers|))
    case PutStop => s.(queue := s.queue + [Stop], phase := Stopping(s.phase.left - 1))
    case EndShutdown => s.(phase := Closed)
    case Take(w) =>
      var item := s.queue[0];
      s.(queue := s.queue[1..],
         workers := s.workers[w := if item.Stop? then Exited else Taken(item.job)])
    case Start(w) =>
      var j := s.workers[w].job;
      if s.futures[j].Pending? then
        s.(futures := s.futures[j := Running], calls := s.calls[j := s.calls[j] + 1],
           workers := s.workers[w := Executing(j)])
      else
        s.(futures := s.futures[j := CancelledAndNotified], workers := s.workers[w := Releasing(j)])
    case Finish(w) =>
      var j := s.workers[w].job;
      s.(futures := s.futures[j := Finished], workers := s.workers[w := Releasing(j)])
    case Release(w) => s.(pending := Released(s.pending), workers := s.workers[w := Idle])
    case ClientCancel(j) => s.(futures := s.futures[j := s.futures[j].Cancel()])
  }

  // ----- The invariant -----

  function BusyCount(workers: seq<Worker>): nat {
    if workers == [] then 0 else (if workers[0].Busy() then 1 else 0) + BusyCount(workers[1..])
  }

  function ExitedCount(workers: seq<Worker>): nat {
    if workers == [] then 0 else (if workers[0].Exited? then 1 else 0) + ExitedCount(workers[1..])
  }

  predicate Waiting(s: State, j: nat) {
    j < |s.futures| == |s.calls| && (s.futures[j].Pending? || s.futures[j].Cancelled?) && s.calls[j] == 0
  }

  predicate InProgress(s: State, j: nat) {
    j < |s.futures| == |s.calls| && s.futures[j].Running? && s.calls[j] == 1
  }

  // Over: done, and called exactly once if finished and never if cancelled.
  predicate Settled(s: State, j: nat) {
    j < |s.futures| == |s.calls| && s.futures[j].Done() &&
    s.calls[j] == if s.futures[j].Finished? then 1 else 0
  }

  // The queue is the jobs from `first` to the newest, in order of admission, then `stops` sentinels.
  predicate QueueShape(s: State, first: nat, stops: nat) {
    && first <= |s.futures|
    && |s.queue| == |s.futures| - first + stops
    && (forall i :: 0 <= i < |s.futures| - first ==> s.queue[i] == Work(first + i))
    && (forall i :: |s.futures| - first <= i < |s.queue| ==> s.queue[i] == Stop)
  }

  // The count is the jobs queued, in the hand of shutdown(), or taken and not yet released.
  predicate Counted(s: State, first: nat) {
    && first <= |s.futures| == |s.calls|
    && s.pending == |s.futures| - first + (if s.phase.Cancelling? && s.phase.hand.Some? then 1 else 0) + BusyCount(s.workers)
    && (s.maxPending.Some? ==> s.pending <= s.maxPending.value)
  }

  predicate WorkerOwns(s: State, first: nat, w: nat)
    requires w < |s.workers|
  {
    s.workers[w].Busy() ==>
      && s.workers[w].job < first
      && (s.workers[w].Taken? ==> Waiting(s, s.workers[w].job))
      && (s.workers[w].Executing? ==> InProgress(s, s.workers[w].job))
      && (s.workers[w].Releasing? ==> Settled(s, s.workers[w].job))
  }

  predicate Owned(s: State, j: nat) {
    s.phase.Holds(j) || exists w :: 0 <= w < |s.workers| && s.workers[w].Holds(j)
  }

  // The future and the call count of a job fit the place it is in.
  ghost predicate Placed(s: State, first: nat) {
    && (forall j: nat :: first <= j < |s.futures| ==> Waiting(s, j))
    && (forall j: nat :: s.phase.Holds(j) ==> j < first && Waiting(s, j))
    && (forall w: nat :: w < |s.workers| ==> WorkerOwns(s, first, w))
  }

  // No job is in two places.
  ghost predicate Apart(s: State) {
    && (forall w: nat, j: nat :: w < |s.workers| && s.workers[w].Holds(j) ==> !s.phase.Holds(j))
    && (forall v: nat, w: nat, j: nat :: v < |s.workers| && w < |s.workers| && v != w && s.workers[v].Holds(j) ==> !s.workers[w].Holds(j))
  }

  // A job that left the queue is in a hand or over.
  ghost predicate Covered(s: State, first: nat) {
    forall j: nat :: j < first ==> Owned(s, j) || Settled(s, j)
  }

  // One sentinel per worker, none before shutdown, and none taken ahead of queued work.
  predicate Sentinels(s: State, first: nat, stops: nat) {
    && (s.workers == [] || |s.workers| == s.maxWorkers)
    && (s.workers == [] ==> s.futures == [])
    && (ExitedCount(s.workers) > 0 ==> first == |s.futures|)
    && match s.phase
       case Open => stops == 0 && ExitedCount(s.workers) == 0
       case Cancelling(_, retained) => retained == 0 && stops == 0 && ExitedCount(s.workers) == 0
       case Stopping(left) => stops + ExitedCount(s.workers) + left == |s.workers|
       case Closed => stops + ExitedCount(s.workers) == |s.workers|
  }

  ghost predicate InvAt(s: State, first: nat, stops: nat) {
    && s.maxWorkers >= 1
    && QueueShape(s, first, stops)
    && Counted(s, first)
    && Placed(s, first)
    && Apart(s)
    && Covered(s, first)
    && Sentinels(s, first, stops)
  }

  ghost predicate Inv(s: State) {
    exists first: nat, stops: nat :: InvAt(s, first, stops)
  }

  // ----- Facts about the workers -----

  lemma WorkerUpdate(workers: seq<Worker>, w: nat, x: Worker)
    requires w < |workers|
    ensures BusyCount(workers[w := x]) ==
            BusyCount(workers) - (if workers[w].Busy() then 1 else 0) + (if x.Busy() then 1 else 0)
    ensures ExitedCount(workers[w := x]) ==
            ExitedCount(workers) - (if workers[w].Exited? then 1 else 0) + (if x.Exited? then 1 else 0)
  {
    if w > 0 {
      WorkerUpdate(workers[1..], w - 1, x);
      assert workers[w := x][1..] == workers[1..][w - 1 := x];
    } else {
      assert workers[w := x][1..] == workers[1..];
    }
  }

  lemma FreshWorkers(n: nat)
    ensures BusyCount(seq(n, _ => Idle)) == 0 && ExitedCount(seq(n, _ => Idle)) == 0
  {
    if n > 0 {
      assert seq(n, _ => Idle)[1..] == seq(n - 1, _ => Idle);
      FreshWorkers(n - 1);
    }
  }

  lemma BusyPositive(workers: seq<Worker>, w: nat)
    requires w < |workers| && workers[w].Busy()
    ensures BusyCount(workers) > 0
  {
    WorkerUpdate(workers, w, Idle);
  }

  lemma AllExited(workers: seq<Worker>)
    ensures ExitedCount(workers) + BusyCount(workers) <= |workers|
    ensures ExitedCount(workers) == |workers| <==> forall w :: 0 <= w < |workers| ==> workers[w].Exited?
  {
    if workers != [] {
      AllExited(workers[1..]);
      assert forall w :: 0 <= w < |workers[1..]| ==> workers[1..][w] == workers[w + 1];
      if workers[0].Exited? && forall w :: 0 <= w < |workers[1..]| ==> workers[1..][w].Exited? {
        forall w | 0 <= w < |workers| ensures workers[w].Exited? {
          assert w > 0 ==> workers[w] == workers[1..][w - 1];
        }
      }
    }
  }

  // ----- Every step keeps the invariant -----

  // Where the queue starts after an action, and how many sentinels it then holds.
  function FirstAfter(s: State, a: Action, first: nat): nat
    requires Enabled(s, a)
  {
    if (a.Take? || a.CancelTake?) && s.queue[0].Work? then first + 1 else first
  }

  function StopsAfter(s: State, a: Action, stops: nat): int
    requires Enabled(s, a)
  {
    if a.PutStop? then stops + 1
    else if (a.Take? || a.CancelTake?) && s.queue[0].Stop? then stops - 1 else stops
  }

  lemma QueueStep(s: State, a: Action, first: nat, stops: nat)
    requires InvAt(s, first, stops) && Enabled(s, a)
    ensures StopsAfter(s, a, stops) >= 0
    ensures QueueShape(Apply(s, a), FirstAfter(s, a, first), StopsAfter(s, a, stops))
  {}

  // Whoever releases a job holds it, so the count is positive and the guard of
  // _release_pending is never what keeps it from going negative.
  lemma GuardNeverNeeded(s: State, a: Action)
    requires Inv(s) && Enabled(s, a) && (a.CancelApply? || a.Release?)
    ensures s.pending > 0 && Apply(s, a).pending == s.pending - 1
  {
    if a.Release? {
      BusyPositive(s.workers, a.w);
    }
  }

  lemma CountedStep(s: State, a: Action, first: nat, stops: nat)
    requires InvAt(s, first, stops) && Enabled(s, a)
    ensures Counted(Apply(s, a), FirstAfter(s, a, first))
  {
    match a
    case Submit => FreshWorkers(s.maxWorkers);
    case Take(w) => WorkerUpdate(s.workers, w, Apply(s, a).workers[w]);
    case Start(w) => WorkerUpdate(s.workers, w, Apply(s, a).workers[w]);
    case Finish(w) => WorkerUpdate(s.workers, w, Apply(s, a).workers[w]);
    case Release(w) => WorkerUpdate(s.workers, w, Idle); GuardNeverNeeded(s, a);
    case _ =>
  }

  lemma SentinelsStep(s: State, a: Action, first: nat, stops: nat)
    requires InvAt(s, first, stops) && Enabled(s, a)
    ensures StopsAfter(s, a, stops) >= 0
    ensures Sentinels(Apply(s, a), FirstAfter(s, a, first), StopsAfter(s, a, stops))
  {
    match a
    case Submit => FreshWorkers(s.maxWorkers);
    case Take(w) => WorkerUpdate(s.workers, w, Apply(s, a).workers[w]);
    case Start(w) => WorkerUpdate(s.workers, w, Apply(s, a).workers[w]);
    case Finish(w) => WorkerUpdate(s.workers, w, Apply(s, a).workers[w]);
    case Release(w) => WorkerUpdate(s.workers, w, Idle);
    case _ =>
  }

  // The jobs an action touches are out of the queue.
  lemma TouchedBefore(s: State, a: Action, first: nat)
    requires Placed(s, first) && Enabled(s, a)
    ensures a.Start? || a.Finish? || a.Release? ==> s.workers[a.w].job < first
    ensures a.CancelApply? ==> s.phase.hand.value < first
  {
    if a.Start? || a.Finish? || a.Release? {
      assert WorkerOwns(s, first, a.w);
    }
    if a.CancelApply? {
      assert s.phase.Holds(s.phase.hand.value);
    }
  }

  lemma QueuedStep(s: State, a: Action, first: nat, stops: nat, j: nat)
    requires InvAt(s, first, stops) && Enabled(s, a)
    requires FirstAfter(s, a, first) <= j < |Apply(s, a).futures|
    ensures Waiting(Apply(s, a), j)
  {
    TouchedBefore(s, a, first);
    assert j < |s.futures| ==> Waiting(s, j);
  }

  lemma InHandStep(s: State, a: Action, first: nat, stops: nat, j: nat)
    requires InvAt(s, first, stops) && Enabled(s, a) && Apply(s, a).phase.Holds(j)
    ensures j < FirstAfter(s, a, first) && Waiting(Apply(s, a), j)
  {
    assert !a.CancelTake? ==> s.phase.Holds(j);
    assert first < |s.futures| ==> Waiting(s, first);
    if a.Start? || a.Finish? {
      assert s.workers[a.w].Holds(s.workers[a.w].job);
    }
  }

  lemma OwnedByWorkerStep(s: State, a: Action, first: nat, stops: nat, w: nat)
    requires InvAt(s, first, stops) && Enabled(s, a) && w < |Apply(s, a).workers|
    ensures WorkerOwns(Apply(s, a), FirstAfter(s, a, first), w)
  {
    assert w < |s.workers| ==> WorkerOwns(s, first, w);
    assert first < |s.futures| ==> Waiting(s, first);
    if w < |s.workers| && s.workers[w].Busy() {
      assert s.workers[w].Holds(s.workers[w].job);
      if (a.Start? || a.Finish?) && w != a.w {
        assert s.workers[a.w].Holds(s.workers[a.w].job);
      }
    }
  }

  lemma PlacedStep(s: State, a: Action, first: nat, stops: nat)
    requires InvAt(s, first, stops) && Enabled(s, a)
    ensures Placed(Apply(s, a), FirstAfter(s, a, first))
  {
    var t := Apply(s, a);
    forall j: nat | FirstAfter(s, a, first) <= j < |t.futures| ensures Waiting(t, j) {
      QueuedStep(s, a, first, stops, j);
    }
    forall j: nat | t.phase.Holds(j) ensures j < FirstAfter(s, a, first) && Waiting(t, j) {
      InHandStep(s, a, first, stops, j);
    }
    forall w: nat | w < |t.workers| ensures WorkerOwns(t, FirstAfter(s, a, first), w) {
      OwnedByWorkerStep(s, a, first, stops, w);
    }
  }

  lemma ApartStep(s: State, a: Action, first: nat, stops: nat)
    requires InvAt(s, first, stops) && Enabled(s, a)
    ensures Apart(Apply(s, a))
  {
    var t := Apply(s, a);
    forall w: nat | w < |s.workers| ensures forall j: nat :: s.workers[w].Holds(j) ==> j < first {
      assert WorkerOwns(s, first, w);
    }
    forall w: nat, j: nat | w < |t.workers| && t.workers[w].Holds(j) ensures !t.phase.Holds(j) {
      assert s.phase.Holds(j) ==> j < first;
      assert w < |s.workers| && (s.workers[w].Holds(j) || (a.Take? && j == first));
    }
    forall v: nat, w: nat, j: nat | v < |t.workers| && w < |t.workers| && v != w && t.workers[v].Holds(j) ensures !t.workers[w].Holds(j) {
      assert s.workers[v].Holds(j) || (a == Take(v) && j == first);
    }
  }

  lemma CoveredStep(s: State, a: Action, first: nat, stops: nat)
    requires InvAt(s, first, stops) && Enabled(s, a)
    ensures Covered(Apply(s, a), FirstAfter(s, a, first))
  {
    var t := Apply(s, a);
    forall j: nat | j < FirstAfter(s, a, first) ensures Owned(t, j) || Settled(t, j) {
      if j == first {
        assert a.Take? ==> t.workers[a.w].Holds(j);
      } else if !Settled(s, j) {
        assert Owned(s, j);
        OwnedStep(s, a, first, j);
      } else {
        SettledStep(s, a, first, j);
      }
    }
  }

  lemma OwnedStep(s: State, a: Action, first: nat, j: nat)
    requires Placed(s, first) && Enabled(s, a) && Owned(s, j) && |s.futures| == |s.calls|
    ensures Owned(Apply(s, a), j) || Settled(Apply(s, a), j)
  {
    var t := Apply(s, a);
    if !s.phase.Holds(j) {
      var w :| 0 <= w < |s.workers| && s.workers[w].Holds(j);
      assert WorkerOwns(s, first, w);
      assert t.workers[w].Holds(j) || a == Release(w);
    }
  }

  // A settled job stays settled: it is no longer where a step could touch it.
  lemma SettledStep(s: State, a: Action, first: nat, j: nat)
    requires Placed(s, first) && Enabled(s, a) && Settled(s, j)
    ensures Settled(Apply(s, a), j) || Owned(Apply(s, a), j)
  {
    if a.Start? || a.Finish? {
      assert WorkerOwns(s, first, a.w);
    }
  }

  lemma StepKeepsInv(s: State, a: Action)
    requires Inv(s) && Enabled(s, a)
    ensures Inv(Apply(s, a))
  {
    var first: nat, stops: nat :| InvAt(s, first, stops);
    QueueStep(s, a, first, stops);
    CountedStep(s, a, first, stops);
    PlacedStep(s, a, first, stops);
    ApartStep(s, a, first, stops);
    CoveredStep(s, a, first, stops);
    SentinelsStep(s, a, first, stops);
    assert InvAt(Apply(s, a), FirstAfter(s, a, first), StopsAfter(s, a, stops));
  }

  // ----- Every interleaving -----

  predicate Legal(s: State, actions: seq<Action>)
    decreases |actions|
  {
    actions == [] || (Enabled(s, actions[0]) && Legal(Apply(s, actions[0]), actions[1..]))
  }

  function Run(s: State, actions: seq<Action>): State
    requires Legal(s, actions)
    decreases |actions|
  {
    if actions == [] then s else Run(Apply(s, actions[0]), actions[1..])
  }

  lemma {:induction false} RunKeepsInv(s: State, actions: seq<Action>)
    requires Inv(s) && Legal(s, actions)
    ensures Inv(Run(s, actions))
    decreases |actions|
  {
    if actions != [] {
      StepKeepsInv(s, actions[0]);
      RunKeepsInv(Apply(s, actions[0]), actions[1..]);
    }
  }

  lemma {:induction false} RunAppend(s: State, actions: seq<Action>, a: Action)
    requires Legal(s, actions) && Enabled(Run(s, actions), a)
    ensures Legal(s, actions + [a]) && Run(s, actions + [a]) == Apply(Run(s, actions), a)
    decreases |actions|
  {
    if actions == [] {
      assert actions + [a] == [a];
    } else {
      RunAppend(Apply(s, actions[0]), actions[1..], a);
      assert (actions + [a])[1..] == actions[1..] + [a];
    }
  }

  // A state some interleaving reaches from a new executor.
  ghost predicate Reachable(s: State) {
    exists maxPending: Option<nat>, actions: seq<Action> ::
      && s.maxWorkers >= 1
      && Legal(Initial(maxPending, s.maxWorkers), actions)
      && s == Run(Initial(maxPending, s.maxWorkers), actions)
  }

  lemma ReachableInv(s: State)
    requires Reachable(s)
    ensures Inv(s)
  {
    var maxPending: Option<nat>, actions: seq<Action> :|
      Legal(Initial(maxPending, s.maxWorkers), actions) && s == Run(Initial(maxPending, s.maxWorkers), actions);
    assert InvAt(Initial(maxPending, s.maxWorkers), 0, 0);
    RunKeepsInv(Initial(maxPending, s.maxWorkers), actions);
  }

  function WorkCount(queue: seq<Item>): nat {
    if queue == [] then 0 else (if queue[0].Work? then 1 else 0) + WorkCount(queue[1..])
  }

  lemma WorkCountIs(queue: seq<Item>, work: nat)
    requires work <= |queue|
    requires forall i :: 0 <= i < |queue| ==> (queue[i].Work? <==> i < work)
    ensures WorkCount(queue) == work
  {
    if queue != [] {
      WorkCountIs(queue[1..], if work > 0 then work - 1 else 0);
    }
  }

  // pending_count() is the jobs queued (cancelled ones included), in the hand of shutdown(),
  // or taken and not yet released; it never passes max_pending.
  lemma PendingIsExact(s: State)
    requires Reachable(s)
    ensures s.pending == WorkCount(s.queue) + (if s.phase.Cancelling? && s.phase.hand.Some? then 1 else 0)
                         + BusyCount(s.workers)
    ensures s.maxPending.Some? ==> s.pending <= s.maxPending.value
  {
    ReachableInv(s);
    var first: nat, stops: nat :| InvAt(s, first, stops);
    WorkCountIs(s.queue, |s.futures| - first);
  }

  // Sentinels stay behind all work, so a worker that left found no work queued, and an
  // executor that is not shut down has all its workers.
  lemma NoWorkerLeavesWorkBehind(s: State, w: nat, i: nat, k: nat)
    requires Reachable(s)
    ensures i < k < |s.queue| && s.queue[i].Stop? ==> s.queue[k].Stop?
    ensures w < |s.workers| && s.workers[w].Exited? ==> WorkCount(s.queue) == 0 && !s.phase.Open?
  {
    ReachableInv(s);
    var first: nat, stops: nat :| InvAt(s, first, stops);
    if w < |s.workers| && s.workers[w].Exited? {
      WorkerUpdate(s.workers, w, Idle);
      WorkCountIs(s.queue, 0);
    }
  }

  // What set_running_or_notify_cancel, set_result and set_exception demand of the future
  // they are called on holds, so a worker never dies of an InvalidStateError.
  lemma FutureCallsNeverRaise(s: State, w: nat)
    requires Reachable(s) && w < |s.workers|
    ensures s.workers[w].Taken? ==>
              Enabled(s, Start(w)) && (s.futures[s.workers[w].job].Pending? || s.futures[s.workers[w].job].Cancelled?)
    ensures s.workers[w].Executing? ==> Enabled(s, Finish(w)) && s.futures[s.workers[w].job].Running?
  {
    ReachableInv(s);
    var first: nat, stops: nat :| InvAt(s, first, stops);
    assert WorkerOwns(s, first, w);
  }

  // No function is called twice, and a future is finished only by the one call of its function.
  lemma CalledAtMostOnce(s: State, j: nat)
    requires Reachable(s) && j < |s.futures|
    ensures |s.calls| == |s.futures| && s.calls[j] <= 1
    ensures s.calls[j] == 1 <==> s.futures[j].Running? || s.futures[j].Finished?
  {
    ReachableInv(s);
    var first: nat, stops: nat :| InvAt(s, first, stops);
    if j >= first || s.phase.Holds(j) {
      assert Waiting(s, j);
    } else if !Settled(s, j) {
      var w :| 0 <= w < |s.workers| && s.workers[w].Holds(j);
      assert WorkerOwns(s, first, w);
    }
  }

  // What a caller of shutdown(wait=True) may rely on once every join has returned.
  lemma WaitReturnsDrained(s: State, j: nat)
    requires Reachable(s) && s.phase.Closed?
    requires forall w :: 0 <= w < |s.workers| ==> s.workers[w].Exited?
    ensures s.pending == 0 && s.queue == []
    ensures j < |s.futures| ==> Settled(s, j)
  {
    ReachableInv(s);
    var first: nat, stops: nat :| InvAt(s, first, stops);
    AllExited(s.workers);
  }

  // ----- shutdown(wait=True) returns if every function does -----

  function ItemEffort(queue: seq<Item>): nat {
    if queue == [] then 0 else (if queue[0].Work? then 5 else 1) + ItemEffort(queue[1..])
  }

  function WorkerEffort(workers: seq<Worker>): nat {
    if workers == [] then 0 else workers[0].Left() + WorkerEffort(workers[1..])
  }

  function PhaseEffort(s: State): nat {
    match s.phase
    case Open => 0
    case Cancelling(hand, retained) => 2 * (retained + |s.workers|) + 2 + if hand.Some? then 1 else 0
    case Stopping(left) => 2 * left + 1
    case Closed => 0
  }

  function Effort(s: State): nat {
    3 * ItemEffort(s.queue) + WorkerEffort(s.workers) + 3 * PhaseEffort(s)
  }

  lemma EffortUpdate(workers: seq<Worker>, w: nat, x: Worker)
    requires w < |workers|
    ensures WorkerEffort(workers[w := x]) == WorkerEffort(workers) - workers[w].Left() + x.Left()
  {
    if w > 0 {
      EffortUpdate(workers[1..], w - 1, x);
      assert workers[w := x][1..] == workers[1..][w - 1 := x];
    } else {
      assert workers[w := x][1..] == workers[1..];
    }
  }

  lemma EffortAppend(queue: seq<Item>)
    ensures ItemEffort(queue + [Stop]) == ItemEffort(queue) + 1
  {
    if queue == [] {
      assert queue + [Stop] == [Stop];
    } else {
      EffortAppend(queue[1..]);
      assert (queue + [Stop])[1..] == queue[1..] + [Stop];
    }
  }

  // The actions shutdown() and the workers take by themselves.
  predicate Driven(a: Action) {
    !a.Submit? && !a.BeginShutdown? && !a.ClientCancel?
  }

  lemma WorkerEffortFalls(s: State, a: Action)
    requires Enabled(s, a) && (a.Take? || a.Start? || a.Finish? || a.Release?)
    ensures Effort(Apply(s, a)) < Effort(s)
  {
    EffortUpdate(s.workers, a.w, Apply(s, a).workers[a.w]);
  }

  // Once shutdown has begun, what clients do adds no effort and every other action spends some.
  lemma EffortFalls(s: State, a: Action)
    requires Reachable(s) && Enabled(s, a) && !s.phase.Open?
    ensures Driven(a) ==> Effort(Apply(s, a)) < Effort(s)
    ensures !Driven(a) ==> Effort(Apply(s, a)) == Effort(s)
    ensures !Apply(s, a).phase.Open?
  {
    if a.Take? || a.Start? || a.Finish? || a.Release? {
      WorkerEffortFalls(s, a);
    } else if a.PutStop? {
      EffortAppend(s.queue);
    } else if a.CancelTake? {
      NoStopBeforeShutdownEnds(s);
    }
  }

  // shutdown() meets no sentinel while it cancels, so _cancel_queued_locked retains none.
  lemma NoStopBeforeShutdownEnds(s: State)
    requires Reachable(s) && s.phase.Cancelling?
    ensures s.phase.retained == 0 && Stop !in s.queue
  {
    ReachableInv(s);
    var first: nat, stops: nat :| InvAt(s, first, stops);
  }

  // And until shutdown is over and every worker gone, some such action can be taken: the
  // sentinels suffice, so no worker waits on an empty queue for ever.
  lemma NeverStuck(s: State)
    requires Reachable(s) && !s.phase.Open?
    ensures (s.phase.Closed? && forall w :: 0 <= w < |s.workers| ==> s.workers[w].Exited?)
            || exists a :: Driven(a) && Enabled(s, a)
  {
    ReachableInv(s);
    var first: nat, stops: nat :| InvAt(s, first, stops);
    if s.phase.Closed? {
      AllExited(s.workers);
      if w :| 0 <= w < |s.workers| && !s.workers[w].Exited? {
        assert WorkerOwns(s, first, w);
        assert Enabled(s, if s.workers[w].Idle? then Take(w) else if s.workers[w].Taken? then Start(w)
                          else if s.workers[w].Executing? then Finish(w) else Release(w));
      }
    } else {
      assert s.phase.Cancelling? && s.phase.hand.Some? ==> s.phase.Holds(s.phase.hand.value);
      assert Enabled(s, if s.phase.Stopping? then (if s.phase.left > 0 then PutStop else EndShutdown)
                        else if s.phase.hand.Some? then CancelApply
                        else if s.queue == [] then CancelDone else CancelTake);
    }
  }

  lemma ReachableStep(s: State, a: Action)
    requires Reachable(s) && Enabled(s, a)
    ensures Reachable(Apply(s, a))
  {
    var maxPending: Option<nat>, actions: seq<Action> :|
      Legal(Initial(maxPending, s.maxWorkers), actions) && s == Run(Initial(maxPending, s.maxWorkers), actions);
    RunAppend(Initial(maxPending, s.maxWorkers), actions, a);
    assert Apply(s, a) == Run(Initial(maxPending, s.maxWorkers), actions + [a]);
  }

  lemma QueuedIsWaiting(s: State, j: nat)
    requires Inv(s) && Work(j) in s.queue
    ensures Waiting(s, j)
  {
    var first: nat, stops: nat :| InvAt(s, first, stops);
  }

  // ----- The class -----

  datatype SubmitError = ShutDown | QueueFull

  // Each method runs here with no other thread in between, and says which steps of the state
  // machine above it takes; Valid is that the state is one some interleaving reaches.
  class DaemonFutureExecutor {
    const maxWorkers: nat
    const maxPending: Option<nat>
    var shutdown: bool
    var pending: nat
    var queue: seq<Item>
    var threads: seq<Worker>
    var futures: seq<FutureState>
    ghost var phase: Phase
    ghost var calls: seq<nat>

    ghost function Snap(): State
      reads this
    {
      State(maxPending, maxWorkers, phase, pending, queue, threads, futures, calls)
    }

    ghost predicate Valid()
      reads this
    {
      Reachable(Snap()) && (shutdown <==> !phase.Open?)
    }

    static predicate Accepts(maxWorkers: int, maxPending: Option<int>) {
      maxWorkers >= 1 && (maxPending.Some? ==> maxPending.value >= 1)
    }

    constructor (maxWorkers: nat, maxPending: Option<nat>)
      requires Accepts(maxWorkers, maxPending)
      ensures Valid() && Snap() == Initial(maxPending, maxWorkers)
    {
      this.maxWorkers, this.maxPending := maxWorkers, maxPending;
      shutdown, pending, queue, threads, futures := false, 0, [], [], [];
      phase, calls := Open, [];
      new;
      assert Legal(Initial(maxPending, maxWorkers), []) && Snap() == Run(Initial(maxPending, maxWorkers), []);
    }

    // Admission: exactly when the executor is open and has a free slot.
    method SubmitWork() returns (r: Result<nat, SubmitError>)
      requires Valid() && phase.LockFree()
      modifies this
      ensures Valid() && Snap() == Apply(old(Snap()), Submit)
      ensures r == if old(shutdown) then Err(ShutDown)
                   else if maxPending.Some? && old(pending) >= maxPending.value then Err(QueueFull)
                   else Ok(|old(futures)|)
      ensures r.Err? ==> Snap() == old(Snap())
      ensures r.Ok? ==> futures == old(futures) + [Pending] && queue == old(queue) + [Work(r.value)]
    {
      ReachableStep(Snap(), Submit);
      if shutdown {
        return Err(ShutDown);
      }
      if maxPending.Some? && pending >= maxPending.value {
        return Err(QueueFull);
      }
      if threads == [] {
        threads := seq(maxWorkers, _ => Idle);
      }
      r := Ok(|futures|);
      pending := pending + 1;
      queue := queue + [Work(|futures|)];
      futures := futures + [Pending];
      calls := calls + [0];
    }

    method ReleasePending()
      modifies this`pending
      ensures pending == Released(old(pending))
    {
      if pending > 0 {
        pending := pending - 1;
      }
    }

    // get_nowait() while cancelling.
    method TakeQueued(ghost retained: nat) returns (item: Item)
      requires Valid() && phase == Cancelling(None, retained) && queue != []
      modifies this`queue, this`phase
      ensures Valid() && item == old(queue)[0] && queue == old(queue)[1..]
      ensures item.Work? && phase == Cancelling(Some(item.job), retained)
      ensures Waiting(Snap(), item.job)
    {
      NoStopBeforeShutdownEnds(Snap());
      ReachableStep(Snap(), CancelTake);
      item := queue[0];
      QueuedIsWaiting(Snap(), item.job) by { ReachableInv(Snap()); }
      queue := queue[1..];
      phase := Cancelling(Some(item.job), retained);
    }

    method CancelInHand(j: nat, ghost retained: nat)
      requires Valid() && phase == Cancelling(Some(j), retained) && Waiting(Snap(), j)
      modifies this`futures, this`pending, this`phase
      ensures Valid() && phase == Cancelling(None, retained)
      ensures futures == old(futures)[j := Cancelled] && pending == old(pending) - 1
    {
      ReachableStep(Snap(), CancelApply);
      GuardNeverNeeded(Snap(), CancelApply) by { ReachableInv(Snap()); }
      futures := futures[j := futures[j].Cancel()];
      ReleasePending();
      phase := Cancelling(None, retained);
    }

    // Cancels everything queued. No sentinel is met on the way, so none is put back.
    method CancelQueuedLocked()
      requires Valid() && phase == Cancelling(None, 0)
      modifies this`pending, this`queue, this`futures, this`phase
      ensures Valid() && queue == [] && phase == Stopping(|threads|)
      ensures pending == old(pending) - |old(queue)|
      ensures |futures| == |old(futures)|
      ensures forall j: nat :: j < |futures| ==>
                futures[j] == if Work(j) in old(queue) then Cancelled else old(futures)[j]
    {
      ghost var done := 0;
      while queue != []
        invariant Valid() && phase == Cancelling(None, 0)
        invariant 0 <= done <= |old(queue)| && queue == old(queue)[done..]
        invariant pending == old(pending) - done
        invariant |futures| == |old(futures)|
        invariant forall j: nat :: j < |futures| ==>
                    futures[j] == if Work(j) in old(queue)[..done] then Cancelled else old(futures)[j]
        decreases |queue|
      {
        var item := TakeQueued(0);
        CancelInHand(item.job, 0);
        assert old(queue)[..done + 1] == old(queue)[..done] + [item];
        done := done + 1;
      }
      ReachableStep(Snap(), CancelDone);
      phase := Stopping(|threads|);
      assert old(queue)[..|old(queue)|] == old(queue);
    }

    // The part of shutdown() under the lock. A second call changes nothing.
    method ShutdownLocked(cancelFutures: bool)
      requires Valid() && phase.LockFree()
      modifies this
      ensures Valid() && shutdown && phase == Closed
      ensures old(shutdown) ==> Snap() == old(Snap())
      ensures threads == old(threads) && |futures| == |old(futures)|
      ensures !old(shutdown) ==>
                && queue == (if cancelFutures then [] else old(queue)) + seq(|threads|, _ => Stop)
                && pending == old(pending) - (if cancelFutures then |old(queue)| else 0)
                && forall j: nat :: j < |futures| ==>
                     futures[j] == if cancelFutures && Work(j) in old(queue) then Cancelled else old(futures)[j]
    {
      var firstShutdown := !shutdown;
      ReachableStep(Snap(), BeginShutdown(cancelFutures));
      shutdown := true;
      if firstShutdown {
        phase := if cancelFutures then Cancelling(None, 0) else Stopping(|threads|);
        if cancelFutures {
          CancelQueuedLocked();
        }
        PutStops();
      }
    }

    method PutStops()
      requires Valid() && shutdown && phase == Stopping(|threads|)
      modifies this`queue, this`phase
      ensures Valid() && phase == Closed && queue == old(queue) + seq(|threads|, _ => Stop)
    {
      var put: nat := 0;
      while put < |threads|
        invariant put <= |threads|
        invariant Valid() && phase == Stopping(|threads| - put)
        invariant queue == old(queue) + seq(put, _ => Stop)
      {
        ReachableStep(Snap(), PutStop);
        queue := queue + [Stop];
        put := put + 1;
        phase := Stopping(|threads| - put);
      }
      ReachableStep(Snap(), EndShutdown);
      phase := Closed;
    }

    // queue.get() in a worker: a sentinel ends it, anything else is its next job.
    method GetItem(w: nat) returns (item: Item)
      requires Valid() && w < |threads| && threads[w].Idle? && queue != []
      modifies this`queue, this`threads
      ensures Valid() && item == old(queue)[0] && queue == old(queue)[1..]
      ensures threads == old(threads)[w := if item.Stop? then Exited else Taken(item.job)]
      ensures item.Work? ==> Waiting(Snap(), item.job)
    {
      ReachableStep(Snap(), Take(w));
      item := queue[0];
      if item.Work? {
        QueuedIsWaiting(Snap(), item.job) by { ReachableInv(Snap()); }
      }
      queue := queue[1..];
      threads := threads[w := if item.Stop? then Exited else Taken(item.job)];
    }

    // The rest of the turn: the function runs unless its future was cancelled meanwhile.
    method RunItem(w: nat, j: nat)
      requires Valid() && w < |threads| && threads[w] == Taken(j) && Waiting(Snap(), j)
      modifies this`threads, this`futures, this`calls
      ensures Valid() && threads == old(threads)[w := Releasing(j)]
      ensures old(futures)[j].Cancelled? ==>
                futures == old(futures)[j := CancelledAndNotified] && calls == old(calls)
      ensures old(futures)[j].Pending? ==>
                futures == old(futures)[j := Finished] && calls == old(calls)[j := 1]
    {
      ReachableStep(Snap(), Start(w));
      if futures[j].Pending? {
        futures, calls, threads := futures[j := Running], calls[j := calls[j] + 1], threads[w := Executing(j)];
        ReachableStep(Snap(), Finish(w));
        futures, threads := futures[j := Finished], threads[w := Releasing(j)];
      } else {
        futures, threads := futures[j := CancelledAndNotified], threads[w := Releasing(j)];
      }
    }

    // The finally clause: the slot comes back whether the job ran, failed or was cancelled.
    method ReleaseItem(w: nat)
      requires Valid() && phase.LockFree() && w < |threads| && threads[w].Releasing?
      modifies this`pending, this`threads
      ensures Valid() && threads == old(threads)[w := Idle] && pending == old(pending) - 1
    {
      ReachableStep(Snap(), Release(w));
      GuardNeverNeeded(Snap(), Release(w)) by { ReachableInv(Snap()); }
      ReleasePending();
      threads := threads[w := Idle];
    }
  }
}
