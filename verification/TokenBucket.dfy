// TokenBucketRateLimiter of src/cogdoc/api/access_control.py: one token bucket per
// identity in an ordered dictionary that forgets the identity idle for longest.
// The clock reading is an argument of each call; it is taken before the lock is, so
// nothing below assumes that readings never go back unless it says so.
module TokenBucket {
  import opened Options
  import opened Sequences

  type Identity = string

  datatype Limits = Limits(capacity: int, refill: real, maxIdentities: int)

  datatype Bucket = Bucket(tokens: real, last: real)

  // An OrderedDict: `order` lists its keys, most recently used last.
  datatype Table = Table(order: seq<Identity>, buckets: map<Identity, Bucket>) {
    ghost predicate Valid() {
      && Distinct(order)
      && (forall id :: id in order <==> id in buckets)
    }
  }

  datatype Event = Event(id: Identity, now: real)

  function Min(x: real, y: real): real {
    if x <= y then x else y
  }

  function Without(order: seq<Identity>, id: Identity): seq<Identity> {
    if |order| == 0 then []
    else if order[0] == id then Without(order[1..], id)
    else [order[0]] + Without(order[1..], id)
  }

  function Held(t: Table, id: Identity): Option<Bucket> {
    if id in t.buckets then Some(t.buckets[id]) else None
  }

  // The tokens of a bucket at time `now`.
  function Level(l: Limits, b: Bucket, now: real): real {
    Min(l.capacity as real, b.tokens + (now - b.last) * l.refill)
  }

  // The tokens a call at time `now` finds; a new identity has a full bucket.
  function Refilled(l: Limits, held: Option<Bucket>, now: real): real {
    Level(l, if held.Some? then held.value else Bucket(l.capacity as real, now), now)
  }

  function Found(l: Limits, t: Table, e: Event): real {
    Refilled(l, Held(t, e.id), e.now)
  }

  predicate Allowed(l: Limits, t: Table, e: Event) {
    l.capacity <= 0 || Found(l, t, e) >= 1.0
  }

  function Touched(l: Limits, t: Table, e: Event): Table {
    var tokens := Found(l, t, e) - if Allowed(l, t, e) then 1.0 else 0.0;
    Table(Without(t.order, e.id) + [e.id], t.buckets[e.id := Bucket(tokens, e.now)])
  }

  function Ids(order: seq<Identity>): set<Identity> {
    set id | id in order
  }

  // The table with all but the `keep` most recently used identities forgotten.
  function Evicted(t: Table, keep: nat): Table {
    var drop := if |t.order| <= keep then 0 else |t.order| - keep;
    Table(t.order[drop..], t.buckets - Ids(t.order[..drop]))
  }

  function Next(l: Limits, t: Table, e: Event): Table
    requires l.maxIdentities >= 0
  {
    if l.capacity <= 0 then t else Evicted(Touched(l, t, e), l.maxIdentities)
  }

  lemma WithoutProperties(order: seq<Identity>, id: Identity)
    requires Distinct(order)
    ensures id !in Without(order, id)
    ensures forall x :: x in Without(order, id) <==> x in order && x != id
    ensures Distinct(Without(order, id))
  {
    if |order| > 0 {
      WithoutProperties(order[1..], id);
      assert order == [order[0]] + order[1..];
      assert order[0] !in order[1..];
    }
  }

  lemma TouchedValid(l: Limits, t: Table, e: Event)
    requires t.Valid()
    ensures Touched(l, t, e).Valid()
  {
    WithoutProperties(t.order, e.id);
  }

  lemma NextValid(l: Limits, t: Table, e: Event)
    requires t.Valid() && l.maxIdentities >= 0
    ensures Next(l, t, e).Valid()
    ensures l.capacity > 0 ==> |Next(l, t, e).order| <= l.maxIdentities
  {
    TouchedValid(l, t, e);
    if l.capacity > 0 {
      EvictedValid(Touched(l, t, e), l.maxIdentities);
    }
  }

  // popitem(last=False) on what is left of `was` leaves one identity less of it.
  lemma PopIsEviction(was: Table, t: Table)
    requires |t.order| > 0 && |t.order| <= |was.order|
    requires t == Evicted(was, |t.order|)
    ensures Table(t.order[1..], t.buckets - {t.order[0]}) == Evicted(was, |t.order| - 1)
  {
    var drop := |was.order| - |t.order|;
    assert was.order[..drop + 1] == was.order[..drop] + [t.order[0]];
    assert Ids(was.order[..drop + 1]) == Ids(was.order[..drop]) + {t.order[0]};
  }

  lemma EvictedValid(t: Table, keep: nat)
    requires t.Valid()
    ensures Evicted(t, keep).Valid()
    ensures |Evicted(t, keep).order| <= keep
  {
    var drop := if |t.order| <= keep then 0 else |t.order| - keep;
    assert t.order == t.order[..drop] + t.order[drop..];
    forall id ensures id in t.order[drop..] <==> id in t.order && id !in t.order[..drop] {
      if i :| 0 <= i < drop && t.order[i] == id {
        assert forall j :: drop <= j < |t.order| ==> t.order[j] != id;
      }
    }
  }

  lemma NothingKept(l: Limits, t: Table, e: Event)
    requires t.Valid()
    ensures Evicted(Touched(l, t, e), 0) == Table([], map[])
  {
    TouchedValid(l, t, e);
    EvictedValid(Touched(l, t, e), 0);
    assert Evicted(Touched(l, t, e), 0).buckets == map[];
  }

  // ----- The class -----

  datatype Failure = KeyError

  class TokenBucketRateLimiter {
    const limits: Limits
    var order: seq<Identity>
    var buckets: map<Identity, Bucket>

    ghost function Contents(): Table
      reads this
    {
      Table(order, buckets)
    }

    constructor (capacity: int, refillPerSecond: real, maxIdentities: int)
      ensures limits == Limits(capacity, refillPerSecond, maxIdentities)
      ensures Contents() == Table([], map[]) && Contents().Valid()
    {
      limits := Limits(capacity, refillPerSecond, maxIdentities);
      order, buckets := [], map[];
    }

    // The eviction loop; it fails when it would pop from an empty table.
    method DropIdle() returns (ok: bool)
      modifies this
      ensures ok <==> limits.maxIdentities >= 0
      ensures Contents() == Evicted(old(Contents()), if ok then limits.maxIdentities else 0)
    {
      ghost var was := Contents();
      while |order| > limits.maxIdentities
        invariant |order| <= |was.order| && Contents() == Evicted(was, |order|)
        invariant limits.maxIdentities >= 0 ==> |order| >= limits.maxIdentities || order == was.order
        decreases |order|
      {
        if |order| == 0 {
          return false;
        }
        PopIsEviction(was, Contents());
        buckets := buckets - {order[0]};
        order := order[1..];
      }
      ok := true;
    }

    // A negative max_identities empties the table and then fails popping from it.
    method Allow(identity: Identity, now: real) returns (r: Result<bool, Failure>)
      requires Contents().Valid()
      modifies this
      ensures Contents().Valid()
      ensures r.Err? <==> limits.capacity > 0 && limits.maxIdentities < 0
      ensures r.Err? ==> Contents() == Table([], map[])
      ensures r.Ok? ==> r.value == Allowed(limits, old(Contents()), Event(identity, now))
      ensures r.Ok? && limits.maxIdentities >= 0 ==>
                Contents() == Next(limits, old(Contents()), Event(identity, now))
    {
      if limits.capacity <= 0 {
        return Ok(true);
      }
      ghost var e := Event(identity, now);
      ghost var touched := Touched(limits, Contents(), e);
      if limits.maxIdentities >= 0 {
        NextValid(limits, Contents(), e);
      } else {
        NothingKept(limits, Contents(), e);
      }
      var b := if identity in buckets then buckets[identity] else Bucket(limits.capacity as real, now);
      var tokens := Level(limits, b, now);
      var allowed := tokens >= 1.0;
      assert tokens == Found(limits, Contents(), e) && allowed == Allowed(limits, Contents(), e);
      if allowed {
        tokens := tokens - 1.0;
      }
      buckets := buckets[identity := Bucket(tokens, now)];
      order := Without(order, identity) + [identity];
      assert Contents() == touched;
      var ok := DropIdle();
      if !ok {
        return Err(KeyError);
      }
      return Ok(allowed);
    }
  }

  // ----- Runs -----

  predicate Steps(l: Limits, tables: seq<Table>, events: seq<Event>, k: nat)
    requires l.maxIdentities >= 0 && k < |events| < |tables|
  {
    tables[k + 1] == Next(l, tables[k], events[k])
  }

  // tables[k] is the table before event k.
  ghost predicate IsRun(l: Limits, tables: seq<Table>, events: seq<Event>) {
    && l.maxIdentities >= 0
    && |tables| == |events| + 1
    && tables[0].Valid()
    && forall k: nat :: k < |events| ==> Steps(l, tables, events, k)
  }

  lemma {:induction false} RunValid(l: Limits, tables: seq<Table>, events: seq<Event>, k: nat)
    requires IsRun(l, tables, events) && k < |tables|
    ensures tables[k].Valid()
    ensures k > 0 && l.capacity > 0 ==> |tables[k].order| <= l.maxIdentities
  {
    if k > 0 {
      RunValid(l, tables, events, k - 1);
      NextValid(l, tables[k - 1], events[k - 1]);
      assert Steps(l, tables, events, k - 1);
    }
  }

  // 1 if event e is a call of id that is let through.
  function Pass(l: Limits, t: Table, e: Event, id: Identity): int {
    if e.id == id && Allowed(l, t, e) then 1 else 0
  }

  // How many calls of id are let through from event lo up to event hi.
  function Passed(l: Limits, tables: seq<Table>, events: seq<Event>, id: Identity, lo: nat, hi: nat): nat
    requires lo <= hi <= |events| < |tables|
  {
    if lo == hi then 0
    else Passed(l, tables, events, id, lo, hi - 1) + Pass(l, tables[hi - 1], events[hi - 1], id)
  }

  // 1 if event e makes the limiter forget id.
  function Loss(t: Table, e: Event, after: Table, id: Identity): int {
    if (Held(t, id).Some? || e.id == id) && Held(after, id).None? then 1 else 0
  }

  // How often id is forgotten meanwhile.
  function Evictions(l: Limits, tables: seq<Table>, events: seq<Event>, id: Identity, lo: nat, hi: nat): nat
    requires lo <= hi <= |events| < |tables|
  {
    if lo == hi then 0
    else Evictions(l, tables, events, id, lo, hi - 1) +
         Loss(tables[hi - 1], events[hi - 1], tables[hi], id)
  }

  // ----- The rate bound -----

  // After a call, a bucket is the one the call left, or the one it found, or forgotten.
  lemma NextHeld(l: Limits, t: Table, e: Event, id: Identity)
    requires t.Valid() && l.maxIdentities >= 0 && l.capacity > 0
    ensures var left := if e.id == id then Some(Bucket(Found(l, t, e) - Pass(l, t, e, id) as real, e.now)) else Held(t, id);
            Held(Next(l, t, e), id) == left || Held(Next(l, t, e), id) == None
  {}

  // What a bucket full at time `from` can have given by time `to`.
  function Budget(l: Limits, from: real, to: real): real {
    l.capacity as real + (to - from) * l.refill
  }

  // `spent` so far plus what is left in a bucket last used at `last` is within the capacity
  // and the refill since `first`.
  predicate Within(l: Limits, spent: real, b: Bucket, first: real) {
    spent + b.tokens <= Budget(l, first, b.last)
  }

  lemma RefilledWithin(l: Limits, b: Bucket, now: real, spent: real, first: real)
    requires Within(l, spent, b, first)
    ensures spent + Refilled(l, Some(b), now) <= Budget(l, first, now)
  {
    assert (b.last - first) * l.refill + (now - b.last) * l.refill == (now - first) * l.refill;
  }

  lemma WithinStep(l: Limits, t: Table, e: Event, id: Identity, spent: real, first: real)
    requires t.Valid() && l.maxIdentities >= 0 && l.capacity > 0
    requires Held(Next(l, t, e), id).Some?
    requires (spent == 0.0 && e.id == id && e.now == first)
             || (Held(t, id).Some? && Within(l, spent, Held(t, id).value, first))
    ensures Within(l, spent + Pass(l, t, e, id) as real, Held(Next(l, t, e), id).value, first)
  {
    NextHeld(l, t, e, id);
    if e.id == id && Held(t, id).Some? && Within(l, spent, Held(t, id).value, first) {
      RefilledWithin(l, Held(t, id).value, e.now, spent, first);
    }
  }

  // Whatever the clock did, a bucket that survives from its first call in a window gives, up
  // to its last call, at most its capacity and the refill between the two.
  lemma {:induction false} SpentWithinRefill(l: Limits, tables: seq<Table>, events: seq<Event>, id: Identity, lo: nat, hi: nat)
    requires IsRun(l, tables, events) && l.capacity > 0
    requires lo < hi <= |events| && events[lo].id == id
    requires Evictions(l, tables, events, id, lo, hi) == 0
    ensures Held(tables[hi], id).Some?
    ensures Within(l, Passed(l, tables, events, id, lo, hi) as real, Held(tables[hi], id).value, events[lo].now)
    decreases hi
  {
    RunValid(l, tables, events, hi - 1);
    assert Steps(l, tables, events, hi - 1);
    if hi - 1 > lo {
      SpentWithinRefill(l, tables, events, id, lo, hi - 1);
    }
    WithinStep(l, tables[hi - 1], events[hi - 1], id,
               Passed(l, tables, events, id, lo, hi - 1) as real, events[lo].now);
  }

  lemma LeftAfterPass(l: Limits, t: Table, e: Event)
    requires t.Valid() && l.maxIdentities >= 0 && l.capacity > 0
    requires Held(Next(l, t, e), e.id).Some? && Allowed(l, t, e)
    ensures Held(Next(l, t, e), e.id).value.tokens >= 0.0 && Held(Next(l, t, e), e.id).value.last == e.now
  {
    NextHeld(l, t, e, e.id);
  }

  // In particular the calls let through never outrun the rate: at most capacity at once, and
  // refill * T more in a window of length T between the first call and the last one let through.
  lemma RateBound(l: Limits, tables: seq<Table>, events: seq<Event>, id: Identity, lo: nat, hi: nat)
    requires IsRun(l, tables, events) && l.capacity > 0
    requires lo < hi <= |events| && events[lo].id == id == events[hi - 1].id
    requires Evictions(l, tables, events, id, lo, hi) == 0
    requires Allowed(l, tables[hi - 1], events[hi - 1])
    ensures Passed(l, tables, events, id, lo, hi) as real <= Budget(l, events[lo].now, events[hi - 1].now)
  {
    var b := LastBucket(l, tables, events, id, lo, hi);
  }

  lemma LastBucket(l: Limits, tables: seq<Table>, events: seq<Event>, id: Identity, lo: nat, hi: nat) returns (b: Bucket)
    requires IsRun(l, tables, events) && l.capacity > 0
    requires lo < hi <= |events| && events[lo].id == id == events[hi - 1].id
    requires Evictions(l, tables, events, id, lo, hi) == 0
    requires Allowed(l, tables[hi - 1], events[hi - 1])
    ensures b.tokens >= 0.0 && b.last == events[hi - 1].now
    ensures Within(l, Passed(l, tables, events, id, lo, hi) as real, b, events[lo].now)
  {
    SpentWithinRefill(l, tables, events, id, lo, hi);
    RunValid(l, tables, events, hi - 1);
    assert Steps(l, tables, events, hi - 1);
    LeftAfterPass(l, tables[hi - 1], events[hi - 1]);
    b := Held(tables[hi], id).value;
  }

  // ----- Evictions -----

  predicate ClockForward(events: seq<Event>) {
    forall i, j :: 0 <= i <= j < |events| ==> events[i].now <= events[j].now
  }

  // `spent` is within `granted` (the full buckets handed out again after evictions), one more
  // full bucket, and the refill since `first`; a forgotten bucket has given its share already.
  predicate Ahead(l: Limits, spent: real, granted: real, held: Option<Bucket>, first: real, now: real) {
    match held
    case Some(b) => b.tokens >= 0.0 && b.last <= now && Within(l, spent - granted, b, first)
    case None => spent - granted + l.capacity as real <= Budget(l, first, now)
  }

  lemma BudgetGrows(l: Limits, first: real, earlier: real, later: real)
    requires l.refill >= 0.0 && earlier <= later
    ensures Budget(l, first, earlier) <= Budget(l, first, later)
  {
    assert (later - first) * l.refill - (earlier - first) * l.refill == (later - earlier) * l.refill;
  }

  // Time passes, and the bucket may be forgotten.
  lemma AheadIdle(l: Limits, spent: real, granted: real, held: Option<Bucket>, first: real, now: real, later: real)
    requires l.refill >= 0.0 && now <= later && Ahead(l, spent, granted, held, first, now)
    ensures Ahead(l, spent, granted, held, first, later)
    ensures held.Some? ==> Ahead(l, spent, granted + l.capacity as real, None, first, later)
  {
    BudgetGrows(l, first, now, later);
    if held.Some? {
      BudgetGrows(l, first, held.value.last, later);
    }
  }

  // A call at `now` takes what it is allowed to from what it finds.
  lemma AheadCall(l: Limits, spent: real, granted: real, held: Option<Bucket>, first: real, now: real, pass: int)
    requires l.refill >= 0.0 && l.capacity > 0 && Ahead(l, spent, granted, held, first, now)
    requires pass == if Refilled(l, held, now) >= 1.0 then 1 else 0
    ensures Ahead(l, spent + pass as real, granted, Some(Bucket(Refilled(l, held, now) - pass as real, now)), first, now)
  {
    if held.Some? {
      RefilledWithin(l, held.value, now, spent - granted, first);
      assert (now - held.value.last) * l.refill >= 0.0;
    }
  }

  lemma AheadStep(l: Limits, t: Table, e: Event, id: Identity, spent: real, granted: real, first: real, now: real)
    requires t.Valid() && l.maxIdentities >= 0 && l.capacity > 0 && l.refill >= 0.0
    requires now <= e.now && Ahead(l, spent, granted, Held(t, id), first, now)
    ensures Ahead(l, spent + Pass(l, t, e, id) as real,
                  granted + if Loss(t, e, Next(l, t, e), id) == 1 then l.capacity as real else 0.0,
                  Held(Next(l, t, e), id), first, e.now)
  {
    NextHeld(l, t, e, id);
    AheadIdle(l, spent, granted, Held(t, id), first, now, e.now);
    if e.id == id {
      var pass := Pass(l, t, e, id);
      AheadCall(l, spent, granted, Held(t, id), first, e.now, pass);
      AheadIdle(l, spent + pass as real, granted, Some(Bucket(Found(l, t, e) - pass as real, e.now)), first, e.now, e.now);
    }
  }

  function Granted(l: Limits, evictions: int): real {
    evictions as real * l.capacity as real
  }

  // The clock reading of the last event before event k.
  function Clock(events: seq<Event>, k: nat): real
    requires 0 < |events| && k <= |events|
  {
    if k == 0 then events[0].now else events[k - 1].now
  }

  ghost predicate AheadAt(l: Limits, tables: seq<Table>, events: seq<Event>, id: Identity, k: nat)
    requires 0 < |events| < |tables| && k <= |events|
  {
    Ahead(l, Passed(l, tables, events, id, 0, k) as real, Granted(l, Evictions(l, tables, events, id, 0, k)),
          Held(tables[k], id), events[0].now, Clock(events, k))
  }

  lemma {:induction false} AheadAlways(l: Limits, tables: seq<Table>, events: seq<Event>, id: Identity, k: nat)
    requires IsRun(l, tables, events) && l.capacity > 0 && l.refill >= 0.0 && Held(tables[0], id).None?
    requires ClockForward(events) && 0 < |events| && k <= |events|
    ensures AheadAt(l, tables, events, id, k)
  {
    if k > 0 {
      AheadAlways(l, tables, events, id, k - 1);
      AheadAtStep(l, tables, events, id, k - 1);
    }
  }

  lemma AheadAtStep(l: Limits, tables: seq<Table>, events: seq<Event>, id: Identity, k: nat)
    requires IsRun(l, tables, events) && l.capacity > 0 && l.refill >= 0.0
    requires ClockForward(events) && k < |events|
    requires AheadAt(l, tables, events, id, k)
    ensures AheadAt(l, tables, events, id, k + 1)
  {
    RunValid(l, tables, events, k);
    assert Steps(l, tables, events, k);
    var spent, evictions := Passed(l, tables, events, id, 0, k), Evictions(l, tables, events, id, 0, k);
    AheadCount(l, tables[k], events[k], id, spent, evictions, events[0].now, Clock(events, k));
  }

  // AheadStep with the passes and the evictions counted.
  lemma AheadCount(l: Limits, t: Table, e: Event, id: Identity, spent: int, evictions: int, first: real, now: real)
    requires t.Valid() && l.maxIdentities >= 0 && l.capacity > 0 && l.refill >= 0.0
    requires now <= e.now && Ahead(l, spent as real, Granted(l, evictions), Held(t, id), first, now)
    ensures Ahead(l, (spent + Pass(l, t, e, id)) as real, Granted(l, evictions + Loss(t, e, Next(l, t, e), id)),
                  Held(Next(l, t, e), id), first, e.now)
  {
    GrantedStep(l, evictions);
    AheadStep(l, t, e, id, spent as real, Granted(l, evictions), first, now);
    assert (spent + Pass(l, t, e, id)) as real == spent as real + Pass(l, t, e, id) as real;
  }

  lemma GrantedStep(l: Limits, evictions: int)
    ensures Granted(l, 0) == 0.0 && Granted(l, evictions + 1) == Granted(l, evictions) + l.capacity as real
  {}

  // With a clock that goes forward, each eviction hands out one full bucket again and no more.
  lemma RateBoundWithEvictions(l: Limits, tables: seq<Table>, events: seq<Event>, id: Identity, hi: nat)
    requires IsRun(l, tables, events) && l.capacity > 0 && l.refill >= 0.0 && Held(tables[0], id).None?
    requires ClockForward(events) && 0 < hi <= |events|
    ensures Passed(l, tables, events, id, 0, hi) as real
              <= Granted(l, Evictions(l, tables, events, id, 0, hi)) + Budget(l, events[0].now, events[hi - 1].now)
  {
    AheadAlways(l, tables, events, id, hi);
    var held := Held(tables[hi], id);
    if held.Some? {
      BudgetGrows(l, events[0].now, held.value.last, events[hi - 1].now);
    }
  }

  // Without the eviction term the bound fails: one token and no refill, yet both calls of "a"
  // pass, because a table of one identity forgot it in between.
  lemma EvictionRefills(l: Limits, a: Event, b: Event)
    requires l == Limits(1, 0.0, 1) && a == Event("a", 0.0) && b == Event("b", 0.0)
    ensures var t := Next(l, Next(l, Table([], map[]), a), b);
            Allowed(l, Table([], map[]), a) && Held(t, "a").None? && Allowed(l, t, a) && Budget(l, 0.0, 0.0) == 1.0
  {
    assert Next(l, Table([], map[]), a).order == ["a"];
    assert Without(["a"], "b") == ["a"] + Without([], "b");
    assert Next(l, Next(l, Table([], map[]), a), b).order == ["b"];
  }

  // An identity that is remembered is with the time of its last call.
  ghost predicate LastCall(events: seq<Event>, id: Identity, last: real, k: nat)
    requires k <= |events|
  {
    exists j: nat :: j < k && events[j] == Event(id, last)
  }

  lemma {:induction false} HeldSinceCall(l: Limits, tables: seq<Table>, events: seq<Event>, id: Identity, k: nat)
    requires IsRun(l, tables, events) && l.capacity > 0 && Held(tables[0], id).None? && k <= |events|
    ensures Held(tables[k], id).Some? ==> LastCall(events, id, Held(tables[k], id).value.last, k)
  {
    if k > 0 {
      HeldSinceCall(l, tables, events, id, k - 1);
      RunValid(l, tables, events, k - 1);
      assert Steps(l, tables, events, k - 1);
      NextHeld(l, tables[k - 1], events[k - 1], id);
      if Held(tables[k], id).Some? {
        var last := Held(tables[k], id).value.last;
        if events[k - 1].id == id {
          assert events[k - 1] == Event(id, last);
        } else {
          assert LastCall(events, id, last, k - 1);
        }
      }
    }
  }

  lemma LevelEnough(l: Limits, b: Bucket, now: real)
    requires l.capacity as real >= 1.0 && b.tokens >= 0.0 && (now - b.last) * l.refill >= 1.0
    ensures Level(l, b, now) >= 1.0
  {
  }

  lemma LevelFull(l: Limits, now: real)
    requires l.capacity as real >= 1.0
    ensures Level(l, Bucket(l.capacity as real, now), now) >= 1.0
  {
    assert (now - now) * l.refill == 0.0;
  }

  // In every run with a clock that goes forward, a caller that waits for one token's refill
  // after each of its calls is never turned away.
  lemma SlowCallerPasses(l: Limits, tables: seq<Table>, events: seq<Event>, k: nat)
    requires IsRun(l, tables, events) && l.refill >= 0.0 && ClockForward(events) && k < |events|
    requires Held(tables[0], events[k].id).None?
    requires forall j: nat :: j < k && events[j].id == events[k].id ==> (events[k].now - events[j].now) * l.refill >= 1.0
    ensures Allowed(l, tables[k], events[k])
  {
    if l.capacity > 0 {
      var id, now := events[k].id, events[k].now;
      assert l.capacity as real >= 1.0;
      if Held(tables[k], id).Some? {
        var b := Held(tables[k], id).value;
        AheadAlways(l, tables, events, id, k);
        HeldSinceCall(l, tables, events, id, k);
        var j: nat :| j < k && events[j] == Event(id, b.last);
        assert events[j].id == id;
        LevelEnough(l, b, now);
      } else {
        LevelFull(l, now);
      }
    }
  }

  // Identities other than id that called in events[lo..hi].
  function Others(events: seq<Event>, id: Identity, lo: nat, hi: nat): set<Identity>
    requires lo <= hi <= |events|
  {
    set k | lo <= k < hi && events[k].id != id :: events[k].id
  }

  // ----- Who is forgotten -----

  // id is in the table with exactly the identities `others` used after it, or `others` are so
  // many that it is gone.
  ghost predicate Recent(t: Table, id: Identity, others: set<Identity>, keep: nat) {
    if |others| < keep then
      exists pre, suf :: t.order == pre + [id] + suf && Ids(suf) == others && |suf| == |others|
    else
      id !in t.order
  }

  lemma WithoutConcat(s: seq<Identity>, u: seq<Identity>, x: Identity)
    ensures Without(s + u, x) == Without(s, x) + Without(u, x)
    ensures x !in s ==> Without(s, x) == s
  {
    if |s| == 0 {
      assert s + u == u;
    } else {
      WithoutConcat(s[1..], u, x);
      assert (s + u)[1..] == s[1..] + u;
    }
  }

  lemma WithoutSize(s: seq<Identity>, x: Identity)
    requires x in s && Distinct(s)
    ensures |Without(s, x)| == |s| - 1 && Ids(Without(s, x)) == Ids(s) - {x}
  {
    WithoutProperties(s, x);
    if s[0] == x {
      WithoutConcat(s[1..], [], x);
      assert s[1..] + [] == s[1..];
      assert x !in s[1..];
    } else {
      WithoutSize(s[1..], x);
    }
  }

  lemma RecentAfterCall(l: Limits, t: Table, e: Event)
    requires t.Valid() && l.capacity > 0 && l.maxIdentities >= 0
    ensures Recent(Next(l, t, e), e.id, {}, l.maxIdentities)
  {
    var order := Next(l, t, e).order;
    if l.maxIdentities > 0 {
      assert order == order[..|order| - 1] + [e.id] + [];
    }
  }

  // Using x moves it behind everything, and leaves the order of the rest.
  lemma RecentOrder(pre: seq<Identity>, id: Identity, suf: seq<Identity>, x: Identity)
    requires Distinct(suf) && x != id
    ensures Without(pre + [id] + suf, x) + [x] == Without(pre, x) + [id] + (Without(suf, x) + [x])
    ensures Ids(Without(suf, x) + [x]) == Ids(suf) + {x}
    ensures |Without(suf, x) + [x]| == |suf| + if x in suf then 0 else 1
  {
    WithoutConcat(pre + [id], suf, x);
    WithoutConcat(pre, [id], x);
    if x in suf {
      WithoutSize(suf, x);
    } else {
      WithoutConcat(suf, [], x);
    }
    assert Ids(Without(suf, x) + [x]) == Ids(Without(suf, x)) + {x};
  }

  lemma RecentStep(l: Limits, t: Table, e: Event, id: Identity, others: set<Identity>)
    requires t.Valid() && l.capacity > 0 && l.maxIdentities >= 0
    requires e.id != id && Recent(t, id, others, l.maxIdentities)
    ensures Recent(Next(l, t, e), id, others + {e.id}, l.maxIdentities)
  {
    if |others| < l.maxIdentities {
      var pre, suf :| t.order == pre + [id] + suf && Ids(suf) == others && |suf| == |others|;
      RecentNext(l, t, e, pre, id, suf);
    } else {
      WithoutProperties(t.order, e.id);
      assert e.id in others ==> others + {e.id} == others;
    }
  }

  lemma RecentNext(l: Limits, t: Table, e: Event, pre: seq<Identity>, id: Identity, suf: seq<Identity>)
    requires t.Valid() && l.capacity > 0 && l.maxIdentities >= 0
    requires e.id != id && t.order == pre + [id] + suf && |suf| == |Ids(suf)|
    ensures Recent(Next(l, t, e), id, Ids(suf) + {e.id}, l.maxIdentities)
  {
    assert t.order[|pre| + 1..] == suf;
    RecentOrder(pre, id, suf, e.id);
    var right := Without(suf, e.id) + [e.id];
    assert |right| == |Ids(suf) + {e.id}| by {
      assert e.id in suf ==> Ids(suf) + {e.id} == Ids(suf);
    }
    TouchedValid(l, t, e);
    KeptIfRecent(Touched(l, t, e), Without(pre, e.id), id, right, l.maxIdentities);
  }

  lemma KeptIfRecent(t: Table, left: seq<Identity>, id: Identity, right: seq<Identity>, keep: nat)
    requires t.Valid() && t.order == left + [id] + right
    ensures |right| < keep ==> exists pre :: Evicted(t, keep).order == pre + [id] + right
    ensures |right| >= keep ==> id !in Evicted(t, keep).order
  {
    var drop := if |t.order| <= keep then 0 else |t.order| - keep;
    assert t.order[|left|] == id;
    if |right| < keep {
      assert t.order[drop..] == left[drop..] + [id] + right;
    }
  }

  lemma {:induction false} RecentAlways(l: Limits, tables: seq<Table>, events: seq<Event>, k: nat, hi: nat)
    requires IsRun(l, tables, events) && l.capacity > 0
    requires k < hi <= |events| && forall i :: k < i < hi ==> events[i].id != events[k].id
    ensures Recent(tables[hi], events[k].id, Others(events, events[k].id, k + 1, hi), l.maxIdentities)
    decreases hi
  {
    var id := events[k].id;
    RunValid(l, tables, events, hi - 1);
    assert Steps(l, tables, events, hi - 1);
    if hi == k + 1 {
      RecentAfterCall(l, tables[k], events[k]);
      assert Others(events, id, k + 1, hi) == {};
    } else {
      RecentAlways(l, tables, events, k, hi - 1);
      RecentStep(l, tables[hi - 1], events[hi - 1], id, Others(events, id, k + 1, hi - 1));
      OthersStep(events, id, k + 1, hi - 1);
    }
  }

  lemma OthersStep(events: seq<Event>, id: Identity, lo: nat, hi: nat)
    requires lo <= hi < |events| && events[hi].id != id
    ensures Others(events, id, lo, hi + 1) == Others(events, id, lo, hi) + {events[hi].id}
  {}

  lemma RecentMeansHeld(t: Table, id: Identity, others: set<Identity>, keep: nat)
    requires t.Valid() && Recent(t, id, others, keep)
    ensures id in t.buckets <==> |others| < keep
  {
    if |others| < keep {
      var pre, suf :| t.order == pre + [id] + suf && Ids(suf) == others && |suf| == |others|;
      assert t.order[|pre|] == id;
    }
  }

  // The eviction policy, both ways: after id calls, and until it calls again, it is remembered
  // as long as fewer than max_identities others have called, and no longer.
  lemma ForgottenExactly(l: Limits, tables: seq<Table>, events: seq<Event>, k: nat, hi: nat)
    requires IsRun(l, tables, events) && l.capacity > 0
    requires k < hi <= |events| && forall i :: k < i < hi ==> events[i].id != events[k].id
    ensures Held(tables[hi], events[k].id).Some? <==>
              |Others(events, events[k].id, k + 1, hi)| < l.maxIdentities
  {
    RecentAlways(l, tables, events, k, hi);
    RunValid(l, tables, events, hi);
    RecentMeansHeld(tables[hi], events[k].id, Others(events, events[k].id, k + 1, hi), l.maxIdentities);
  }
}
