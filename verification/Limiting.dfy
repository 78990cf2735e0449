/** The token bucket (crates/gal-server/src/limit.rs:20-125): a table of buckets that forgets the
    idle ones, and answers every call as a table that never forgets would. Times are in seconds
    and never go back; tokens are exact. */
module Limiting {

  /** An allowance as of time `last`. */
  datatype Bucket = Bucket(tokens: real, last: real)

  type Table = map<string, Bucket>

  const CLEANUP_INTERVAL: real := 60.0

  function Min(a: real, b: real): real {
    if a <= b then a else b
  }

  function Max(a: real, b: real): real {
    if a <= b then b else a
  }

  /** Burst size and refill rate. */
  datatype Rate = Rate(capacity: real, perSec: real) {
    predicate Valid() {
      capacity >= 0.0 && perSec > 0.0
    }

    function IdleEviction(): real
      requires Valid()
    {
      Max(capacity / perSec, 600.0)
    }
  }

  // --- the table that never forgets -------------------------------------

  /** Tokens added in `seconds`. */
  function Refill(rate: Rate, seconds: real): real {
    seconds * rate.perSec
  }

  lemma {:induction false} RefillSum(rate: Rate, a: real, b: real)
    ensures Refill(rate, a + b) == Refill(rate, a) + Refill(rate, b)
  {
  }

  lemma {:induction false} RefillGrows(rate: Rate, a: real)
    requires rate.Valid() && a >= 0.0
    ensures Refill(rate, a) >= 0.0
  {
  }

  /** What a bucket holds at `now`. */
  function Filled(rate: Rate, bucket: Bucket, now: real): real {
    Min(bucket.tokens + Refill(rate, now - bucket.last), rate.capacity)
  }

  /** What a key has at `now`; one that was never seen has a full bucket. */
  function Level(rate: Rate, table: Table, key: string, now: real): real {
    if key in table then Filled(rate, table[key], now) else rate.capacity
  }

  predicate Allows(rate: Rate, table: Table, key: string, cost: real, now: real) {
    Level(rate, table, key, now) >= cost
  }

  /** The table after a call; only an allowed call that consumes is charged. */
  function Charged(rate: Rate, table: Table, key: string, cost: real, consume: bool, now: real): Table {
    var level := Level(rate, table, key, now);
    table[key := Bucket(if consume && level >= cost then level - cost else level, now)]
  }

  /** No bucket is overdrawn, overfull or dated after `now`. */
  predicate TableOk(rate: Rate, table: Table, now: real) {
    forall key | key in table :: 0.0 <= table[key].tokens <= rate.capacity && table[key].last <= now
  }

  /** From `now` on the two tables can not be told apart. */
  ghost predicate Alike(rate: Rate, x: Table, y: Table, now: real) {
    forall key, t: real | t >= now :: Level(rate, x, key, t) == Level(rate, y, key, t)
  }

  /** Bringing a bucket up to date and waiting is the same as waiting. */
  lemma {:induction false} FilledLater(rate: Rate, bucket: Bucket, now: real, t: real)
    requires rate.Valid() && bucket.last <= now <= t && 0.0 <= bucket.tokens <= rate.capacity
    ensures Filled(rate, bucket, t) == Min(Filled(rate, bucket, now) + Refill(rate, t - now), rate.capacity)
    ensures 0.0 <= Filled(rate, bucket, now) <= rate.capacity
  {
    hide Refill;
    RefillGrows(rate, t - now);
    RefillGrows(rate, now - bucket.last);
    RefillSum(rate, now - bucket.last, t - now);
    assert (now - bucket.last) + (t - now) == t - bucket.last;
  }

  lemma {:induction false} LevelLater(rate: Rate, table: Table, key: string, now: real, t: real)
    requires rate.Valid() && TableOk(rate, table, now) && now <= t
    ensures Level(rate, table, key, t) == Min(Level(rate, table, key, now) + Refill(rate, t - now), rate.capacity)
    ensures 0.0 <= Level(rate, table, key, now) <= rate.capacity
  {
    hide Refill, Filled;
    RefillGrows(rate, t - now);
    if key in table {
      FilledLater(rate, table[key], now, t);
    }
  }

  /** A bucket just brought up to date. */
  lemma {:induction false} FilledNow(rate: Rate, tokens: real, now: real, t: real)
    requires rate.Valid() && tokens <= rate.capacity
    ensures Filled(rate, Bucket(tokens, now), t) == Min(tokens + Refill(rate, t - now), rate.capacity)
    ensures Filled(rate, Bucket(tokens, now), now) == tokens
  {
  }

  lemma {:induction false} ChargedOk(rate: Rate, table: Table, key: string, cost: real, consume: bool, now: real)
    requires rate.Valid() && TableOk(rate, table, now) && cost >= 0.0
    ensures TableOk(rate, Charged(rate, table, key, cost, consume, now), now)
  {
    hide Refill, Filled;
    LevelLater(rate, table, key, now, now);
  }

  /** Tables that can not be told apart still can not after the same call. */
  lemma {:induction false} ChargedAlike(rate: Rate, x: Table, y: Table, key: string, cost: real, consume: bool,
        now: real)
    requires Alike(rate, x, y, now)
    ensures Alike(rate, Charged(rate, x, key, cost, consume, now), Charged(rate, y, key, cost, consume, now), now)
  {
    var x', y' := Charged(rate, x, key, cost, consume, now), Charged(rate, y, key, cost, consume, now);
    assert Level(rate, x, key, now) == Level(rate, y, key, now);
    forall k, t: real | t >= now
      ensures Level(rate, x', k, t) == Level(rate, y', k, t)
    {
      if k != key {
        assert Level(rate, x', k, t) == Level(rate, x, k, t);
        assert Level(rate, y', k, t) == Level(rate, y, k, t);
      }
    }
  }

  // --- forgetting -------------------------------------------------------

  function Pruned(rate: Rate, table: Table, now: real): Table
    requires rate.Valid()
  {
    map key | key in table && now - table[key].last < rate.IdleEviction() :: table[key]
  }

  /** A bucket that has been idle for so long is full, which is what an unknown key has. */
  lemma {:induction false} IdleIsFull(rate: Rate, table: Table, key: string, now: real, t: real)
    requires rate.Valid() && TableOk(rate, table, now) && now <= t
    requires key in table && now - table[key].last >= rate.IdleEviction()
    ensures Level(rate, table, key, t) == rate.capacity
  {
    hide Refill, Rate.IdleEviction;
    var idle := t - table[key].last;
    RefillIdle(rate, idle);
  }

  lemma {:induction false} RefillIdle(rate: Rate, idle: real)
    requires rate.Valid() && idle >= rate.IdleEviction()
    ensures Refill(rate, idle) >= rate.capacity
  {
    assert idle >= rate.capacity / rate.perSec;
  }

  lemma {:induction false} PrunedAlike(rate: Rate, table: Table, now: real)
    requires rate.Valid() && TableOk(rate, table, now)
    ensures TableOk(rate, Pruned(rate, table, now), now)
    ensures Alike(rate, table, Pruned(rate, table, now), now)
  {
    forall key, t: real | t >= now
      ensures Level(rate, table, key, t) == Level(rate, Pruned(rate, table, now), key, t)
    {
      if key in table && key !in Pruned(rate, table, now) {
        IdleIsFull(rate, table, key, now, t);
      }
    }
  }

  class RateLimiter {
    const rate: Rate
    const idleEviction: real
    var entries: Table
    var lastCleanup: real

    /** What the entries would be if none had ever been dropped, and the time of the last call. */
    ghost var remembered: Table
    ghost var clock: real

    ghost predicate Valid()
      reads this
    {
      && rate.Valid() && idleEviction == rate.IdleEviction()
      && TableOk(rate, entries, clock) && TableOk(rate, remembered, clock)
      && Alike(rate, remembered, entries, clock)
    }

    constructor (capacity: real, perSec: real, now: real)
      requires capacity >= 0.0 && perSec > 0.0
      ensures Valid() && rate == Rate(capacity, perSec) && remembered == map[] && clock == now
    {
      rate := Rate(capacity, perSec);
      idleEviction := Max(capacity / perSec, 600.0);
      entries, lastCleanup := map[], now;
      remembered, clock := map[], now;
    }

    /** Drop the idle entries, if there are many and it has been a while. */
    method Cleanup(now: real)
      requires Valid() && clock <= now
      modifies this`entries, this`lastCleanup
      ensures TableOk(rate, entries, now) && Alike(rate, remembered, entries, now)
    {
      hide Alike, Level, Rate.IdleEviction;
      AlikeLater(rate, remembered, entries, clock, now);
      if |entries| > 4096 && now - lastCleanup >= CLEANUP_INTERVAL {
        TableLater(rate, entries, clock, now);
        PrunedAlike(rate, entries, now);
        AlikeChain(rate, remembered, entries, Pruned(rate, entries, now), now);
        entries := map k | k in entries && now - entries[k].last < idleEviction :: entries[k];
        lastCleanup := now;
      }
    }

    /** One call. The answer, and what later calls will find, are those of a table from which
        nothing is ever dropped. */
    method Take(key: string, cost: real, consume: bool, now: real) returns (allowed: bool)
      requires Valid() && cost >= 0.0 && clock <= now
      modifies this
      ensures Valid() && clock == now
      ensures allowed <==> Allows(rate, old(remembered), key, cost, now)
      ensures remembered == Charged(rate, old(remembered), key, cost, consume, now)
    {
      hide Alike, Level, Refill, Rate.IdleEviction, TableOk, Min;
      TableLater(rate, remembered, clock, now);
      Cleanup(now);
      ChargedOk(rate, remembered, key, cost, consume, now);
      ChargedOk(rate, entries, key, cost, consume, now);
      ChargedAlike(rate, remembered, entries, key, cost, consume, now);
      AlikeNow(rate, remembered, entries, key, now);
      LevelOfEntry(rate, entries, key, now);
      ghost var goal := Charged(rate, entries, key, cost, consume, now);
      var bucket := if key in entries then entries[key] else Bucket(rate.capacity, now);
      var elapsed := now - bucket.last;
      bucket := Bucket(Min(bucket.tokens + Refill(rate, elapsed), rate.capacity), now);
      allowed := bucket.tokens >= cost;
      if allowed && consume {
        bucket := Bucket(bucket.tokens - cost, now);
      }
      entries := entries[key := bucket];
      assert entries == goal;
      remembered := Charged(rate, remembered, key, cost, consume, now);
      clock := now;
    }

    /** Take `cost` tokens; a caller with fewer is refused and charged nothing. */
    method CheckCost(key: string, cost: real, now: real) returns (allowed: bool)
      requires Valid() && cost >= 0.0 && clock <= now
      modifies this
      ensures Valid() && clock == now
      ensures allowed <==> Allows(rate, old(remembered), key, cost, now)
      ensures allowed ==> Level(rate, remembered, key, now) == Level(rate, old(remembered), key, now) - cost
      ensures !allowed ==> Alike(rate, remembered, old(remembered), now)
    {
      hide Alike, Level, TableOk;
      TableLater(rate, remembered, clock, now);
      LevelLater(rate, remembered, key, now, now);
      LevelAfter(rate, remembered, key, Call(key, cost, true, now));
      if !Allows(rate, remembered, key, cost, now) {
        PeekAlike(rate, remembered, key, cost, true, now);
      }
      allowed := Take(key, cost, true, now);
    }

    /** Ask without paying. */
    method WouldAllow(key: string, now: real) returns (allowed: bool)
      requires Valid() && clock <= now
      modifies this
      ensures Valid() && clock == now
      ensures allowed <==> Allows(rate, old(remembered), key, 1.0, now)
      ensures Alike(rate, remembered, old(remembered), now)
    {
      hide Alike, Level, TableOk;
      TableLater(rate, remembered, clock, now);
      PeekAlike(rate, remembered, key, 1.0, false, now);
      allowed := Take(key, 1.0, false, now);
    }
  }

  lemma {:induction false} TableLater(rate: Rate, table: Table, now: real, t: real)
    requires TableOk(rate, table, now) && now <= t
    ensures TableOk(rate, table, t)
  {
  }

  lemma {:induction false} AlikeLater(rate: Rate, x: Table, y: Table, now: real, t: real)
    requires Alike(rate, x, y, now) && now <= t
    ensures Alike(rate, x, y, t)
  {
  }

  lemma {:induction false} AlikeChain(rate: Rate, x: Table, y: Table, z: Table, now: real)
    requires Alike(rate, x, y, now) && Alike(rate, y, z, now)
    ensures Alike(rate, x, z, now)
  {
    forall key, t: real | t >= now
      ensures Level(rate, x, key, t) == Level(rate, z, key, t)
    {
      assert Level(rate, x, key, t) == Level(rate, y, key, t);
    }
  }

  lemma {:induction false} AlikeNow(rate: Rate, x: Table, y: Table, key: string, now: real)
    requires Alike(rate, x, y, now)
    ensures Level(rate, x, key, now) == Level(rate, y, key, now)
  {
  }

  lemma {:induction false} LevelOfEntry(rate: Rate, table: Table, key: string, now: real)
    ensures var bucket := if key in table then table[key] else Bucket(rate.capacity, now);
            && Level(rate, table, key, now) == Filled(rate, bucket, now)
  {
  }

  /** A call that is not charged leaves a table that can not be told from the one before. */
  lemma {:induction false} PeekAlike(rate: Rate, table: Table, key: string, cost: real, consume: bool, now: real)
    requires rate.Valid() && TableOk(rate, table, now)
    requires !consume || !Allows(rate, table, key, cost, now)
    ensures Alike(rate, Charged(rate, table, key, cost, consume, now), table, now)
  {
    hide Refill, Filled;
    forall k, t: real | t >= now
      ensures Level(rate, Charged(rate, table, key, cost, consume, now), k, t) == Level(rate, table, k, t)
    {
      if k == key {
        LevelLater(rate, table, key, now, t);
        FilledNow(rate, Level(rate, table, key, now), now, t);
      }
    }
  }

  // --- whole runs -------------------------------------------------------

  datatype Call = Call(key: string, cost: real, consume: bool, now: real)

  /** Calls in the order they are made, none of them before `clock`. */
  predicate Ordered(calls: seq<Call>, clock: real)
    decreases |calls|
  {
    calls != [] ==> calls[0].cost >= 0.0 && clock <= calls[0].now && Ordered(calls[1..], calls[0].now)
  }

  function After(rate: Rate, table: Table, call: Call): Table {
    Charged(rate, table, call.key, call.cost, call.consume, call.now)
  }

  function Answers(rate: Rate, table: Table, calls: seq<Call>): seq<bool>
    decreases |calls|
  {
    if calls == [] then []
    else [Allows(rate, table, calls[0].key, calls[0].cost, calls[0].now)] + Answers(rate, After(rate, table, calls[0]), calls[1..])
  }

  /** Tables that can not be told apart answer every later run alike. */
  lemma {:induction false} AlikeAnswers(rate: Rate, x: Table, y: Table, calls: seq<Call>, clock: real)
    requires Alike(rate, x, y, clock) && Ordered(calls, clock)
    ensures Answers(rate, x, calls) == Answers(rate, y, calls)
    decreases |calls|
  {
    hide Alike, Level;
    if calls != [] {
      var c := calls[0];
      AlikeLater(rate, x, y, clock, c.now);
      AlikeNow(rate, x, y, c.key, c.now);
      ChargedAlike(rate, x, y, c.key, c.cost, c.consume, c.now);
      AlikeAnswers(rate, After(rate, x, c), After(rate, y, c), calls[1..], c.now);
    }
  }

  /** Asking without taking never changes a later answer. */
  lemma {:induction false} PeekChangesNothing(rate: Rate, table: Table, peek: Call, calls: seq<Call>, clock: real)
    requires rate.Valid() && TableOk(rate, table, clock) && !peek.consume && Ordered([peek] + calls, clock)
    ensures Answers(rate, table, [peek] + calls)[1..] == Answers(rate, table, calls)
  {
    hide Alike, Level;
    var all := [peek] + calls;
    assert all[1..] == calls;
    assert TableOk(rate, table, peek.now);
    PeekAlike(rate, table, peek.key, peek.cost, false, peek.now);
    AlikeAnswers(rate, After(rate, table, peek), table, calls, peek.now);
  }

  /** What `key` is charged over a run. */
  function Granted(rate: Rate, table: Table, key: string, calls: seq<Call>): real
    decreases |calls|
  {
    if calls == [] then 0.0
    else
      var c := calls[0];
      (if c.key == key && c.consume && Allows(rate, table, key, c.cost, c.now) then c.cost else 0.0)
      + Granted(rate, After(rate, table, c), key, calls[1..])
  }

  predicate Until(calls: seq<Call>, end: real) {
    forall i | 0 <= i < |calls| :: calls[i].now <= end
  }

  /** Whatever a key is granted comes out of what it had and what has been refilled since. */
  lemma {:induction false} GrantedBound(rate: Rate, table: Table, key: string, calls: seq<Call>, start: real, end: real)
    requires rate.Valid() && TableOk(rate, table, start) && start <= end
    requires Ordered(calls, start) && Until(calls, end)
    ensures Granted(rate, table, key, calls) <= Level(rate, table, key, start) + Refill(rate, end - start)
    decreases |calls|
  {
    hide Level, Refill, TableOk;
    LevelLater(rate, table, key, start, start);
    RefillGrows(rate, end - start);
    if calls != [] {
      var c := calls[0];
      assert c.now <= end;
      TableLater(rate, table, start, c.now);
      ChargedOk(rate, table, c.key, c.cost, c.consume, c.now);
      assert Until(calls[1..], end);
      GrantedBound(rate, After(rate, table, c), key, calls[1..], c.now, end);
      LevelLater(rate, table, key, start, c.now);
      LevelAfter(rate, table, key, c);
      RefillSum(rate, c.now - start, end - c.now);
      assert (c.now - start) + (end - c.now) == end - start;
    }
  }

  /** One call lowers the level of its key by what it grants, and of no other key. */
  lemma {:induction false} LevelAfter(rate: Rate, table: Table, key: string, c: Call)
    requires rate.Valid() && TableOk(rate, table, c.now) && c.cost >= 0.0
    ensures Level(rate, After(rate, table, c), key, c.now)
         == Level(rate, table, key, c.now)
            - (if c.key == key && c.consume && Allows(rate, table, key, c.cost, c.now) then c.cost else 0.0)
  {
    hide Filled;
    var level := Level(rate, table, c.key, c.now);
    LevelLater(rate, table, c.key, c.now, c.now);
    FilledNow(rate, level, c.now, c.now);
    FilledNow(rate, level - c.cost, c.now, c.now);
  }

  /** In any window, however the calls fall, a key is granted at most a full bucket and what is
      refilled in that time. */
  lemma {:induction false} WindowBound(rate: Rate, table: Table, key: string, calls: seq<Call>, start: real, end: real)
    requires rate.Valid() && TableOk(rate, table, start) && start <= end
    requires Ordered(calls, start) && Until(calls, end)
    ensures Granted(rate, table, key, calls) <= rate.capacity + (end - start) * rate.perSec
  {
    hide Level, TableOk, Granted, Ordered, Until, Charged;
    GrantedBound(rate, table, key, calls, start, end);
    LevelLater(rate, table, key, start, start);
  }

  /** The table after a run of calls. */
  function AfterAll(rate: Rate, table: Table, calls: seq<Call>): Table
    decreases |calls|
  {
    if calls == [] then table else AfterAll(rate, After(rate, table, calls[0]), calls[1..])
  }

  /** Other keys' calls do not touch the level of a key. */
  lemma {:induction false} LevelAlone(rate: Rate, table: Table, key: string, calls: seq<Call>, start: real, end: real)
    requires rate.Valid() && TableOk(rate, table, start) && start <= end
    requires Ordered(calls, start) && Until(calls, end) && forall c | c in calls :: c.key != key
    ensures Level(rate, AfterAll(rate, table, calls), key, end)
         == Min(Level(rate, table, key, start) + Refill(rate, end - start), rate.capacity)
    decreases |calls|
  {
    hide Refill, Level, TableOk;
    LevelLater(rate, table, key, start, end);
    if calls != [] {
      var c := calls[0];
      assert c in calls && c.now <= end;
      assert Until(calls[1..], end) && forall c | c in calls[1..] :: c.key != key;
      TableLater(rate, table, start, c.now);
      ChargedOk(rate, table, c.key, c.cost, c.consume, c.now);
      LevelAlone(rate, After(rate, table, c), key, calls[1..], c.now, end);
      OtherLevel(rate, table, key, c);
      LevelLater(rate, table, key, start, c.now);
      RefillSum(rate, c.now - start, end - c.now);
      RefillGrows(rate, end - c.now);
      assert (c.now - start) + (end - c.now) == end - start;
    }
  }

  /** A key that nobody uses for a while, whatever happens to others, gets back what is refilled in
      that time, up to a full bucket: from then on it is allowed a call if and only if the cost is
      within that. */
  lemma {:induction false} LeftAlone(rate: Rate, table: Table, key: string, calls: seq<Call>, start: real, end: real,
        cost: real)
    requires rate.Valid() && TableOk(rate, table, start) && start <= end
    requires Ordered(calls, start) && Until(calls, end) && forall c | c in calls :: c.key != key
    ensures Allows(rate, AfterAll(rate, table, calls), key, cost, end)
            <==> cost <= rate.capacity && cost <= Level(rate, table, key, start) + (end - start) * rate.perSec
  {
    hide Level, TableOk, AfterAll, Ordered, Until;
    LevelAlone(rate, table, key, calls, start, end);
  }

  lemma {:induction false} OtherLevel(rate: Rate, table: Table, key: string, c: Call)
    requires c.key != key
    ensures Level(rate, After(rate, table, c), key, c.now) == Level(rate, table, key, c.now)
  {
  }

  /** A key that was never seen may spend a full bucket, and no more, at once. */
  lemma {:induction false} FullAtFirst(rate: Rate, table: Table, key: string, cost: real, now: real)
    requires key !in table
    ensures Allows(rate, table, key, cost, now) <==> cost <= rate.capacity
  {
  }
}
