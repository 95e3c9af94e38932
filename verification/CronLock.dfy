/**
 The lock scheduled jobs take in Redis: claimed with one atomic SET NX PX, never released, gone when
 its time to live has passed. Times are Redis' own clock.
 */
module CronLock {
  import opened Wrappers

  // What the server holds: each live key with the instant it expires at.
  type Keys = map<string, int>

  predicate Free(keys: Keys, key: string, now: int) { key in keys ==> keys[key] <= now }

  // `ttl <= 0` is an error of the command itself.
  predicate Claims(keys: Keys, key: string, ttl: int, now: int, reachable: bool) {
    reachable && ttl > 0 && Free(keys, key, now)
  }

  function After(keys: Keys, key: string, ttl: int, now: int, reachable: bool): Keys {
    if Claims(keys, key, ttl, now, reachable) then keys[key := now + ttl] else keys
  }

  class RedisLock {
    var keys: Keys

    constructor ()
      ensures keys == map[]
    {
      keys := map[];
    }

    /** Fails closed: an unreachable server is an answer of no, and changes nothing. */
    method TryAcquire(key: string, ttl: int, now: int, reachable: bool) returns (acquired: bool)
      modifies this
      ensures acquired <==> reachable && ttl > 0 && Free(old(keys), "lock:" + key, now)
      ensures keys == After(old(keys), "lock:" + key, ttl, now, reachable)
    {
      if !reachable || ttl <= 0 { return false; }
      var name := "lock:" + key;
      if name in keys && now < keys[name] { return false; }
      keys := keys[name := now + ttl];
      return true;
    }

    /** The work runs only for the caller that won, and finishing it gives nothing back. */
    method RunExclusively(key: string, ttl: int, now: int, reachable: bool, work: Id) returns (ran: Option<Id>)
      modifies this
      ensures ran == if Claims(old(keys), "lock:" + key, ttl, now, reachable) then Some(work) else None
      ensures keys == After(old(keys), "lock:" + key, ttl, now, reachable)
    {
      var acquired := TryAcquire(key, ttl, now, reachable);
      if !acquired { return None; }
      return Some(work);
    }
  }

  // ---------------------------------------------------------------- any sequence of attempts

  // One caller's attempt, in the order the server takes them.
  datatype Attempt = Attempt(key: string, ttl: int, at: int, reachable: bool)

  ghost predicate Timed(attempts: seq<Attempt>) { forall i, j | 0 <= i < j < |attempts| :: attempts[i].at <= attempts[j].at }

  function KeysAfter(attempts: seq<Attempt>): Keys {
    if attempts == [] then map[] else
    var a := attempts[|attempts| - 1];
    After(KeysAfter(attempts[..|attempts| - 1]), a.key, a.ttl, a.at, a.reachable)
  }

  predicate Wins(attempts: seq<Attempt>, k: nat)
    requires k < |attempts|
  {
    Claims(KeysAfter(attempts[..k]), attempts[k].key, attempts[k].ttl, attempts[k].at, attempts[k].reachable)
  }

  // A won key is held at least until its time to live has passed.
  lemma {:induction false} Holds(attempts: seq<Attempt>, k: nat)
    requires Timed(attempts) && k < |attempts| && Wins(attempts, k)
    ensures attempts[k].key in KeysAfter(attempts)
    ensures KeysAfter(attempts)[attempts[k].key] >= attempts[k].at + attempts[k].ttl
    decreases |attempts|
  {
    var n := |attempts| - 1;
    if k < n {
      assert attempts[..n][..k] == attempts[..k];
      Holds(attempts[..n], k);
    }
  }

  /**
   Mutual exclusion without a release: over any attempts by any callers, two claims of one key are at
   least the first one's time to live apart, so two runs that each fit in theirs never overlap.
   */
  lemma ClaimsAreApart(attempts: seq<Attempt>, i: nat, j: nat, lasts: int)
    requires Timed(attempts) && i < j < |attempts| && attempts[i].key == attempts[j].key
    requires Wins(attempts, i) && Wins(attempts, j)
    ensures attempts[j].at - attempts[i].at >= attempts[i].ttl
    ensures lasts <= attempts[i].ttl ==> attempts[i].at + lasts <= attempts[j].at
  {
    assert attempts[..j][..i] == attempts[..i];
    Holds(attempts[..j], i);
  }

  // Whoever asks for other keys takes nothing away.
  lemma {:induction false} OtherKeysDoNotMatter(attempts: seq<Attempt>, key: string)
    requires forall k | 0 <= k < |attempts| :: attempts[k].key == key ==> !Wins(attempts, k)
    ensures key !in KeysAfter(attempts)
  {
    if attempts != [] {
      var n := |attempts| - 1;
      forall k | 0 <= k < n ensures attempts[..n][k].key == key ==> !Wins(attempts[..n], k) {
        assert attempts[..n][..k] == attempts[..k];
      }
      OtherKeysDoNotMatter(attempts[..n], key);
      assert !(attempts[n].key == key && Wins(attempts, n));
    }
  }

  /** First one wins: with a live server the first attempt at a key succeeds, whatever other keys saw before. */
  lemma FirstAttemptWins(attempts: seq<Attempt>, k: nat)
    requires k < |attempts| && attempts[k].reachable && attempts[k].ttl > 0
    requires forall i | 0 <= i < k :: attempts[i].key != attempts[k].key
    ensures Wins(attempts, k)
  {
    OtherKeysDoNotMatter(attempts[..k], attempts[k].key);
  }

  // ---------------------------------------------------------------- a schedule over replicas

  /**
   A schedule: tick t is due at t * interval, and every replica that fires it asks within `skew` of
   that. `ticks[t]` are the instants the server takes its attempts at.
   */
  ghost predicate Fits(ticks: seq<seq<int>>, interval: int, skew: int) {
    forall t | 0 <= t < |ticks| :: TickFits(ticks[t], t * interval, skew)
  }

  ghost predicate TickFits(tick: seq<int>, due: int, skew: int) {
    && tick != []
    && (forall i | 0 <= i < |tick| :: due <= tick[i] <= due + skew)
    && (forall i, j | 0 <= i < j < |tick| :: tick[i] <= tick[j])
  }

  // The server's keys, and how many attempts of the tick have won.
  datatype Tally = Tally(keys: Keys, wins: nat)

  function Tick(keys: Keys, job: string, ttl: int, tick: seq<int>): Tally {
    if tick == [] then Tally(keys, 0) else
    var before := Tick(keys, job, ttl, tick[..|tick| - 1]);
    var at := tick[|tick| - 1];
    Tally(After(before.keys, job, ttl, at, true), before.wins + if Claims(before.keys, job, ttl, at, true) then 1 else 0)
  }

  function AfterTicks(job: string, ttl: int, ticks: seq<seq<int>>): Keys {
    if ticks == [] then map[] else Tick(AfterTicks(job, ttl, ticks[..|ticks| - 1]), job, ttl, ticks[|ticks| - 1]).keys
  }

  function Runs(job: string, ttl: int, ticks: seq<seq<int>>, t: nat): nat
    requires t < |ticks|
  {
    Tick(AfterTicks(job, ttl, ticks[..t]), job, ttl, ticks[t]).wins
  }

  ghost predicate OneRunPerTick(job: string, ttl: int, ticks: seq<seq<int>>) {
    forall t | 0 <= t < |ticks| :: Runs(job, ttl, ticks, t) == 1
  }

  // The first replica of a tick finds the key free; all the others find it taken.
  lemma {:induction false} TickRunsOnce(keys: Keys, job: string, ttl: int, tick: seq<int>, due: int, skew: int)
    requires TickFits(tick, due, skew) && Free(keys, job, due) && 0 <= skew < ttl
    ensures Tick(keys, job, ttl, tick) == Tally(keys[job := tick[0] + ttl], 1)
    decreases |tick|
  {
    var n := |tick| - 1;
    if n == 0 {
      assert tick[..n] == [];
    } else {
      assert tick[..n][0] == tick[0];
      TickRunsOnce(keys, job, ttl, tick[..n], due, skew);
    }
  }

  lemma {:induction false} FreeByNextTick(job: string, ttl: int, ticks: seq<seq<int>>, interval: int, skew: int)
    requires Fits(ticks, interval, skew) && 0 <= skew < ttl && skew + ttl <= interval
    ensures Free(AfterTicks(job, ttl, ticks), job, |ticks| * interval)
    decreases |ticks|
  {
    if ticks != [] {
      var n := |ticks| - 1;
      assert Fits(ticks[..n], interval, skew);
      FreeByNextTick(job, ttl, ticks[..n], interval, skew);
      assert TickFits(ticks[n], n * interval, skew);
      TickRunsOnce(AfterTicks(job, ttl, ticks[..n]), job, ttl, ticks[n], n * interval, skew);
      assert (n + 1) * interval == n * interval + interval;
    }
  }

  lemma OnePerTick(job: string, ttl: int, ticks: seq<seq<int>>, interval: int, skew: int)
    requires Fits(ticks, interval, skew) && 0 <= skew < ttl && skew + ttl <= interval
    ensures OneRunPerTick(job, ttl, ticks)
  {
    forall t | 0 <= t < |ticks| ensures Runs(job, ttl, ticks, t) == 1 {
      assert Fits(ticks[..t], interval, skew);
      FreeByNextTick(job, ttl, ticks[..t], interval, skew);
      assert TickFits(ticks[t], t * interval, skew);
      TickRunsOnce(AfterTicks(job, ttl, ticks[..t]), job, ttl, ticks[t], t * interval, skew);
    }
  }

  lemma OneAttempt(keys: Keys, job: string, ttl: int, at: int)
    ensures Tick(keys, job, ttl, [at]) == Tally(After(keys, job, ttl, at, true), if Claims(keys, job, ttl, at, true) then 1 else 0)
  {
    assert [at][..0] == [];
  }

  // A time to live within the skew: one tick runs twice.
  lemma ShortTtlRunsTwice(job: string, ttl: int, interval: int, skew: int)
    requires 0 < ttl <= skew
    ensures var ticks := [[0, skew]]; Fits(ticks, interval, skew) && Runs(job, ttl, ticks, 0) == 2
  {
    var ticks := [[0, skew]];
    assert TickFits(ticks[0], 0, skew);
    assert ticks[..0] == [] && [0, skew][..1] == [0];
    OneAttempt(map[], job, ttl, 0);
  }

  function Late(interval: int, skew: int): int { if skew <= interval then skew else interval }

  // A key that outlives the interval less the skew: a late tick makes the next one run nowhere.
  lemma LongTtlSkipsTick(job: string, ttl: int, interval: int, skew: int)
    requires 0 <= skew < ttl && 0 < interval < skew + ttl
    ensures var ticks := [[Late(interval, skew)], [interval]]; Fits(ticks, interval, skew) && Runs(job, ttl, ticks, 1) == 0
  {
    var late := Late(interval, skew);
    var ticks := [[late], [interval]];
    assert TickFits(ticks[0], 0 * interval, skew) && TickFits(ticks[1], 1 * interval, skew);
    assert ticks[..1] == [[late]] && [[late]][..0] == [];
    OneAttempt(map[], job, ttl, late);
    assert AfterTicks(job, ttl, [[late]]) == map[job := late + ttl];
    OneAttempt(map[job := late + ttl], job, ttl, interval);
  }

  /**
   Exactly one run per tick, whatever the replicas do within their skew, if and only if the time to
   live exceeds the skew and still leaves a skew's room before the next tick. Being shorter than the
   interval, as the interface advises, is not enough.
   */
  lemma ExactlyOncePerTickIff(job: string, ttl: int, interval: int, skew: int)
    requires 0 < ttl && 0 <= skew && 0 < interval
    ensures (forall ticks: seq<seq<int>> :: Fits(ticks, interval, skew) ==> OneRunPerTick(job, ttl, ticks))
       <==> (skew < ttl && skew + ttl <= interval)
  {
    if skew < ttl && skew + ttl <= interval {
      forall ticks: seq<seq<int>> | Fits(ticks, interval, skew) ensures OneRunPerTick(job, ttl, ticks) {
        OnePerTick(job, ttl, ticks, interval, skew);
      }
    } else if ttl <= skew {
      ShortTtlRunsTwice(job, ttl, interval, skew);
      assert !OneRunPerTick(job, ttl, [[0, skew]]);
    } else {
      LongTtlSkipsTick(job, ttl, interval, skew);
      assert !OneRunPerTick(job, ttl, [[Late(interval, skew)], [interval]]);
    }
  }
}
