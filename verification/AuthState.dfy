/**
 Per-request authorization state: the per-process tier as the map it is, the two-tier cache of one
 (user, company) key as a timed step system, and the guard's revocation comparison. Times are in
 milliseconds of one clock.
 */
module AuthState {
  import opened Wrappers

  datatype State = State(permissions: set<Id>, forcePasswordReset: bool, tokensValidAfter: Option<nat>)

  const REDIS_TTL: nat := 60000
  const LOCAL_TTL: nat := 4000
  const LOCAL_MAX: nat := 5000

  // ---------------------------------------------------------------- the per-process tier

  datatype LocalEntry = LocalEntry(state: State, expiresAt: nat)

  /** The in-process Map: `order` is its insertion order, oldest first. */
  class LocalCache {
    var entries: map<Id, LocalEntry>
    var order: seq<Id>

    ghost predicate Valid()
      reads this
    {
      && (forall k :: k in order <==> k in entries)
      && (forall i, j | 0 <= i < j < |order| :: order[i] != order[j])
      && |order| <= LOCAL_MAX
    }

    constructor ()
      ensures Valid() && entries == map[] && order == []
    {
      entries, order := map[], [];
    }

    method Delete(key: Id)
      requires Valid()
      modifies this
      ensures Valid() && entries == old(entries) - {key}
      ensures order == Without(old(order), key)
    {
      entries, order := entries - {key}, Without(order, key);
      WithoutFacts(old(order), key);
    }

    /** An expired entry is evicted and reads as a miss. */
    method Get(key: Id, now: nat) returns (hit: Option<State>)
      requires Valid()
      modifies this
      ensures Valid()
      ensures hit == if key in old(entries) && now < old(entries)[key].expiresAt then Some(old(entries)[key].state) else None
      ensures entries == if key in old(entries) && hit.None? then old(entries) - {key} else old(entries)
      ensures order == if key in old(entries) && hit.None? then Without(old(order), key) else old(order)
    {
      if key !in entries { return None; }
      if now >= entries[key].expiresAt {
        Delete(key);
        return None;
      }
      return Some(entries[key].state);
    }

    /** A new key at capacity displaces exactly the oldest; an existing key displaces nothing and keeps its place. */
    method Set(key: Id, state: State, now: nat)
      requires Valid()
      modifies this
      ensures Valid()
      ensures var full := key !in old(entries) && |old(order)| >= 5000;
              && entries == (if full then old(entries) - {old(order)[0]} else old(entries))[key := LocalEntry(state, now + 4000)]
              && order == if key in old(entries) then old(order) else (if full then old(order)[1..] else old(order)) + [key]
    {
      if key !in entries && |order| >= LOCAL_MAX {
        entries, order := entries - {order[0]}, order[1..];
      }
      if key !in entries { order := order + [key]; }
      entries := entries[key := LocalEntry(state, now + LOCAL_TTL)];
    }
  }

  function Without(order: seq<Id>, key: Id): seq<Id> {
    if order == [] then [] else (if order[0] == key then [] else [order[0]]) + Without(order[1..], key)
  }

  lemma {:induction false} WithoutFacts(order: seq<Id>, key: Id)
    requires forall i, j | 0 <= i < j < |order| :: order[i] != order[j]
    ensures |Without(order, key)| <= |order|
    ensures forall k :: k in Without(order, key) <==> k in order && k != key
    ensures forall i, j | 0 <= i < j < |Without(order, key)| :: Without(order, key)[i] != Without(order, key)[j]
  {
    if order != [] {
      WithoutFacts(order[1..], key);
      assert order[0] !in order[1..];
    }
  }

  // ---------------------------------------------------------------- the timed system of one key

  // Postgres as the list of states it went through; version i took effect at `since`.
  datatype Version = Version(state: State, since: nat)

  // One statement's result: the version it saw, and when (for the specification only).
  datatype Read = Read(version: nat, at: nat)

  // Permissions and user row are read by two statements of one READ COMMITTED transaction.
  datatype Copy = Copy(permissions: Read, user: Read)

  datatype Entry = Entry(copy: Copy, expiresAt: nat)

  // A request that missed both tiers: what it has read so far, its redis and local writes still to land.
  datatype Fill = Fill(process: Id, permissions: Option<Read>, user: Option<Read>)
  {
    predicate Complete() { permissions.Some? && user.Some? }

    function Value(): Copy
      requires Complete()
    {
      Copy(permissions.value, user.value)
    }
  }

  // `stamps` are revocations whose instant is fixed and whose row update is still to commit.
  datatype System = System(
    now: nat, db: seq<Version>, redis: Option<Entry>, local: map<Id, Entry>, fills: map<Id, Fill>, stamps: map<Id, nat>)

  datatype Step =
    | Tick(ms: nat)
    | Write(state: State)                 // any committed change of the user's row or roles
    | Stamp(revocation: Id)               // revokeUserTokens evaluates its instant
    | Land(revocation: Id)                // and its update commits
    | Invalidate(process: Id)             // the synchronous Map.delete
    | RedisDelete                         // also an eviction, a restart, or a late timed-out delete
    | LocalEvict(process: Id)             // expiry or capacity
    | StartFill(fill: Id, process: Id)
    | ReadPermissions(fill: Id)
    | ReadUser(fill: Id)
    | LandRedis(fill: Id)
    | LandLocal(fill: Id)                 // sets the local tier and answers the request
    | Forget(fill: Id)                    // its writes are over
    | HitRedis(process: Id)
    | HitLocal(process: Id)

  predicate Within(read: Read, now: nat, delay: nat) { now <= read.at + delay }

  // `delay` bounds how long after each of its two reads a fill may still write, timed-out writes included.
  predicate MayLand(s: System, fill: Id, delay: nat) {
    && fill in s.fills && s.fills[fill].Complete()
    && Within(s.fills[fill].permissions.value, s.now, delay) && Within(s.fills[fill].user.value, s.now, delay)
  }

  ghost predicate Enabled(s: System, step: Step, delay: nat) {
    match step
    case StartFill(fill, _) => fill !in s.fills
    case ReadPermissions(fill) => fill in s.fills && s.fills[fill].permissions.None? && s.db != []
    case ReadUser(fill) => fill in s.fills && s.fills[fill].user.None? && s.db != []
    case LandRedis(fill) => MayLand(s, fill, delay)
    case LandLocal(fill) => MayLand(s, fill, delay)
    case HitRedis(_) => s.redis.Some? && s.now < s.redis.value.expiresAt
    case HitLocal(p) => p in s.local && s.now < s.local[p].expiresAt
    case Stamp(b) => b !in s.stamps
    case Land(b) => b in s.stamps && s.db != []
    case _ => true
  }

  function Latest(s: System): State
    requires s.db != []
  {
    s.db[|s.db| - 1].state
  }

  // Every write but a revocation leaves the revocation instant alone.
  function Written(s: System, state: State): State {
    if s.db == [] then state.(tokensValidAfter := None) else state.(tokensValidAfter := Latest(s).tokensValidAfter)
  }

  ghost function Next(s: System, step: Step, delay: nat): System
    requires Enabled(s, step, delay)
  {
    match step
    case Tick(ms) => s.(now := s.now + ms)
    case Write(state) => s.(db := s.db + [Version(Written(s, state), s.now)])
    case Stamp(b) => s.(stamps := s.stamps[b := s.now])
    case Land(b) => s.(db := s.db + [Version(Latest(s).(tokensValidAfter := Some(s.stamps[b])), s.now)], stamps := s.stamps - {b})
    case Invalidate(p) => s.(local := s.local - {p})
    case RedisDelete => s.(redis := None)
    case LocalEvict(p) => s.(local := s.local - {p})
    case StartFill(fill, p) => s.(fills := s.fills[fill := Fill(p, None, None)])
    case ReadPermissions(fill) => s.(fills := s.fills[fill := s.fills[fill].(permissions := Some(Read(|s.db| - 1, s.now)))])
    case ReadUser(fill) => s.(fills := s.fills[fill := s.fills[fill].(user := Some(Read(|s.db| - 1, s.now)))])
    case LandRedis(fill) => s.(redis := Some(Entry(s.fills[fill].Value(), s.now + REDIS_TTL)))
    case LandLocal(fill) => s.(local := s.local[s.fills[fill].process := Entry(s.fills[fill].Value(), s.now + LOCAL_TTL)])
    case Forget(fill) => s.(fills := s.fills - {fill})
    case HitRedis(_) => s
    case HitLocal(_) => s
  }

  // What a step hands to a request, if it answers one.
  ghost function Served(s: System, step: Step, delay: nat): Option<Copy>
    requires Enabled(s, step, delay)
  {
    match step
    case HitRedis(_) => Some(s.redis.value.copy)
    case HitLocal(p) => Some(s.local[p].copy)
    case LandLocal(fill) => Some(s.fills[fill].Value())
    case _ => None
  }

  /** The state a copy stands for: each part as of its own read. */
  function StateOf(db: seq<Version>, copy: Copy): State
    requires copy.permissions.version < |db| && copy.user.version < |db|
  {
    db[copy.user.version].state.(permissions := db[copy.permissions.version].state.permissions)
  }

  ghost function Answer(s: System, step: Step, delay: nat): Option<State>
    requires Enabled(s, step, delay) && Inv(s, delay)
  {
    if Served(s, step, delay).Some? then Some(StateOf(s.db, Served(s, step, delay).value)) else None
  }

  // Version i was what Postgres held at instant t.
  ghost predicate CurrentAt(db: seq<Version>, i: nat, t: nat) {
    i < |db| && db[i].since <= t && (i + 1 < |db| ==> t <= db[i + 1].since)
  }

  ghost predicate ReadFrom(db: seq<Version>, now: nat, read: Read) { read.at <= now && CurrentAt(db, read.version, read.at) }

  ghost predicate CopyOk(db: seq<Version>, now: nat, copy: Copy) { ReadFrom(db, now, copy.permissions) && ReadFrom(db, now, copy.user) }

  ghost predicate EntryOk(db: seq<Version>, now: nat, e: Entry, life: nat) {
    CopyOk(db, now, e.copy) && e.expiresAt <= e.copy.permissions.at + life && e.expiresAt <= e.copy.user.at + life
  }

  ghost predicate FillOk(db: seq<Version>, now: nat, f: Fill) {
    (f.permissions.Some? ==> ReadFrom(db, now, f.permissions.value)) && (f.user.Some? ==> ReadFrom(db, now, f.user.value))
  }

  ghost predicate Ordered(db: seq<Version>, now: nat) {
    && (forall i, j | 0 <= i <= j < |db| :: db[i].since <= db[j].since)
    && (forall i | 0 <= i < |db| :: db[i].since <= now)
  }

  // Revocation instants are past; they need not come in order.
  ghost predicate Revocations(db: seq<Version>) {
    forall i | 0 <= i < |db| && db[i].state.tokensValidAfter.Some? :: db[i].state.tokensValidAfter.value <= db[i].since
  }

  ghost predicate StampsOk(s: System) { forall b | b in s.stamps :: s.stamps[b] <= s.now }

  ghost predicate CachesOk(db: seq<Version>, s: System, delay: nat) {
    && (s.redis.Some? ==> EntryOk(db, s.now, s.redis.value, delay + REDIS_TTL))
    && (forall p | p in s.local :: EntryOk(db, s.now, s.local[p], delay + LOCAL_TTL))
    && (forall f | f in s.fills :: FillOk(db, s.now, s.fills[f]))
  }

  ghost predicate Inv(s: System, delay: nat) {
    Ordered(s.db, s.now) && Revocations(s.db) && StampsOk(s) && CachesOk(s.db, s, delay)
  }

  lemma AppendKeepsReads(db: seq<Version>, v: Version, now: nat, read: Read)
    requires ReadFrom(db, now, read) && v.since == now
    ensures ReadFrom(db + [v], now, read)
  {
  }

  lemma AppendKeepsOrder(db: seq<Version>, v: Version, now: nat)
    requires Ordered(db, now) && Revocations(db) && v.since == now
    requires v.state.tokensValidAfter.Some? ==> v.state.tokensValidAfter.value <= now
    ensures Ordered(db + [v], now) && Revocations(db + [v])
  {
  }

  lemma WriteKeepsInv(s: System, v: Version, delay: nat)
    requires Inv(s, delay) && v.since == s.now
    requires v.state.tokensValidAfter.Some? ==> v.state.tokensValidAfter.value <= s.now
    ensures Inv(s.(db := s.db + [v]), delay)
  {
    AppendKeepsOrder(s.db, v, s.now);
    forall read | ReadFrom(s.db, s.now, read) ensures ReadFrom(s.db + [v], s.now, read) { AppendKeepsReads(s.db, v, s.now, read); }
  }

  lemma TickKeepsInv(s: System, ms: nat, delay: nat)
    requires Inv(s, delay)
    ensures Inv(s.(now := s.now + ms), delay)
  {
  }

  lemma FillsKeepInv(s: System, fills: map<Id, Fill>, delay: nat)
    requires Inv(s, delay) && forall f | f in fills :: FillOk(s.db, s.now, fills[f])
    ensures Inv(s.(fills := fills), delay)
  {
  }

  lemma RedisKeepsInv(s: System, redis: Option<Entry>, delay: nat)
    requires Inv(s, delay) && (redis.Some? ==> EntryOk(s.db, s.now, redis.value, delay + REDIS_TTL))
    ensures Inv(s.(redis := redis), delay)
  {
  }

  lemma LocalKeepsInv(s: System, local: map<Id, Entry>, delay: nat)
    requires Inv(s, delay) && forall p | p in local :: EntryOk(s.db, s.now, local[p], delay + LOCAL_TTL)
    ensures Inv(s.(local := local), delay)
  {
  }

  lemma StampsKeepInv(s: System, stamps: map<Id, nat>, delay: nat)
    requires Inv(s, delay) && forall b | b in stamps :: stamps[b] <= s.now
    ensures Inv(s.(stamps := stamps), delay)
  {
  }

  // What a fill lands is as old as its reads.
  lemma LandingIsOk(s: System, fill: Id, delay: nat, ttl: nat)
    requires Inv(s, delay) && MayLand(s, fill, delay)
    ensures EntryOk(s.db, s.now, Entry(s.fills[fill].Value(), s.now + ttl), delay + ttl)
  {
    assert FillOk(s.db, s.now, s.fills[fill]);
  }

  lemma FillStepKeepsInv(s: System, step: Step, delay: nat)
    requires Inv(s, delay) && Enabled(s, step, delay)
    requires step.StartFill? || step.ReadPermissions? || step.ReadUser? || step.Forget?
    ensures Inv(Next(s, step, delay), delay)
  {
    if step.ReadPermissions? || step.ReadUser? { assert ReadFrom(s.db, s.now, Read(|s.db| - 1, s.now)); }
    forall f | f in Next(s, step, delay).fills ensures FillOk(s.db, s.now, Next(s, step, delay).fills[f]) {
      if f in s.fills { assert FillOk(s.db, s.now, s.fills[f]); }
    }
    FillsKeepInv(s, Next(s, step, delay).fills, delay);
  }

  lemma TierStepKeepsInv(s: System, step: Step, delay: nat)
    requires Inv(s, delay) && Enabled(s, step, delay)
    requires step.Invalidate? || step.RedisDelete? || step.LocalEvict? || step.LandRedis? || step.LandLocal?
    ensures Inv(Next(s, step, delay), delay)
  {
    if step.LandRedis? { LandingIsOk(s, step.fill, delay, REDIS_TTL); }
    if step.LandLocal? { LandingIsOk(s, step.fill, delay, LOCAL_TTL); }
    if step.RedisDelete? || step.LandRedis? { RedisKeepsInv(s, Next(s, step, delay).redis, delay); }
    else { LocalKeepsInv(s, Next(s, step, delay).local, delay); }
  }

  lemma LandKeepsInv(s: System, b: Id, delay: nat)
    requires Inv(s, delay) && Enabled(s, Land(b), delay)
    ensures Inv(Next(s, Land(b), delay), delay)
  {
    StampsKeepInv(s, s.stamps - {b}, delay);
    WriteKeepsInv(s.(stamps := s.stamps - {b}), Version(Latest(s).(tokensValidAfter := Some(s.stamps[b])), s.now), delay);
  }

  lemma StepKeepsInv(s: System, step: Step, delay: nat)
    requires Inv(s, delay) && Enabled(s, step, delay)
    ensures Inv(Next(s, step, delay), delay)
  {
    if step.Tick? { TickKeepsInv(s, step.ms, delay); }
    else if step.Write? {
      if s.db != [] { assert s.db[|s.db| - 1].since <= s.now; }
      WriteKeepsInv(s, Version(Written(s, step.state), s.now), delay);
    } else if step.Stamp? { StampsKeepInv(s, s.stamps[step.revocation := s.now], delay); }
    else if step.Land? { LandKeepsInv(s, step.revocation, delay); }
    else if step.StartFill? || step.ReadPermissions? || step.ReadUser? || step.Forget? { FillStepKeepsInv(s, step, delay); }
    else if !step.HitRedis? && !step.HitLocal? { TierStepKeepsInv(s, step, delay); }
  }

  ghost predicate Reaches(s: System, steps: seq<Step>, delay: nat, final: System)
    decreases |steps|
  {
    if steps == [] then final == s else Enabled(s, steps[0], delay) && Reaches(Next(s, steps[0], delay), steps[1..], delay, final)
  }

  const Empty: System := System(0, [], None, map[], map[], map[])

  lemma {:induction false} InvAlongRun(s: System, steps: seq<Step>, delay: nat, final: System)
    requires Inv(s, delay) && Reaches(s, steps, delay, final)
    ensures Inv(final, delay)
    decreases |steps|
  {
    if steps != [] {
      StepKeepsInv(s, steps[0], delay);
      InvAlongRun(Next(s, steps[0], delay), steps[1..], delay, final);
    }
  }

  lemma ReachesNext(s: System, step: Step, rest: seq<Step>, delay: nat, final: System)
    requires Enabled(s, step, delay) && Reaches(Next(s, step, delay), rest, delay, final)
    ensures Reaches(s, [step] + rest, delay, final)
  {
    assert ([step] + rest)[1..] == rest;
  }

  lemma {:induction false} ReachesThen(s: System, steps: seq<Step>, delay: nat, mid: System, more: seq<Step>, final: System)
    requires Reaches(s, steps, delay, mid) && Reaches(mid, more, delay, final)
    ensures Reaches(s, steps + more, delay, final)
    decreases |steps|
  {
    if steps == [] {
      assert steps + more == more;
    } else {
      ReachesThen(Next(s, steps[0], delay), steps[1..], delay, mid, more, final);
      assert (steps + more)[1..] == steps[1..] + more;
    }
  }

  // ---------------------------------------------------------------- how old an answer can be

  // Read within the last 60 s + delay.
  ghost predicate Recent(s: System, read: Read, delay: nat) {
    read.at <= s.now < read.at + REDIS_TTL + delay && CurrentAt(s.db, read.version, read.at)
  }

  lemma ServedIsRecent(s: System, step: Step, delay: nat)
    requires Inv(s, delay) && Enabled(s, step, delay) && Served(s, step, delay).Some?
    ensures var copy := Served(s, step, delay).value; Recent(s, copy.permissions, delay) && Recent(s, copy.user, delay)
  {
    if step.HitRedis? { assert EntryOk(s.db, s.now, s.redis.value, delay + REDIS_TTL); }
    if step.HitLocal? { assert EntryOk(s.db, s.now, s.local[step.process], delay + LOCAL_TTL); }
    if step.LandLocal? { assert FillOk(s.db, s.now, s.fills[step.fill]); }
  }

  // `part` is what Postgres held at instant t, less than 60 s + delay ago.
  ghost predicate HeldRecently(s: System, delay: nat, i: nat, t: nat) { t <= s.now < t + 60000 + delay && CurrentAt(s.db, i, t) }

  /**
   Bounded staleness, part by part: whatever the interleaving of reads, fills, invalidations, evictions
   and timed-out writes, the permissions of every answer of every process, and its user row, are each
   what Postgres held at some instant of the last 60 s + delay, because the local tier is filled from
   Postgres and never from Redis.
   */
  lemma AnswersAreRecent(steps: seq<Step>, delay: nat, s: System, step: Step)
    requires Reaches(Empty, steps, delay, s) && Enabled(s, step, delay)
    ensures Inv(s, delay)
    ensures Answer(s, step, delay).Some? ==> exists i: nat, t: nat ::
              HeldRecently(s, delay, i, t) && s.db[i].state.permissions == Answer(s, step, delay).value.permissions
    ensures Answer(s, step, delay).Some? ==> exists i: nat, t: nat ::
              HeldRecently(s, delay, i, t) && s.db[i].state.(permissions := Answer(s, step, delay).value.permissions) == Answer(s, step, delay).value
  {
    InvAlongRun(Empty, steps, delay, s);
    if Served(s, step, delay).Some? {
      ServedIsRecent(s, step, delay);
      var copy := Served(s, step, delay).value;
      assert HeldRecently(s, delay, copy.permissions.version, copy.permissions.at) && HeldRecently(s, delay, copy.user.version, copy.user.at);
    }
  }

  // Read at some instant of the last 4 s + delay.
  ghost predicate HeldJustNow(s: System, delay: nat, read: Read) { read.at <= s.now < read.at + 4000 + delay && CurrentAt(s.db, read.version, read.at) }

  /** The per-process tier alone is younger: what it answers, Postgres held within the last 4 s + delay. */
  lemma LocalAnswersAreRecent(steps: seq<Step>, delay: nat, s: System, process: Id)
    requires Reaches(Empty, steps, delay, s) && Enabled(s, HitLocal(process), delay)
    ensures Served(s, HitLocal(process), delay).Some?
    ensures var copy := Served(s, HitLocal(process), delay).value; HeldJustNow(s, delay, copy.permissions) && HeldJustNow(s, delay, copy.user)
  {
    InvAlongRun(Empty, steps, delay, s);
    assert EntryOk(s.db, s.now, s.local[process], delay + LOCAL_TTL);
  }

  // ---------------------------------------------------------------- when an answer is one state

  ghost predicate Writes(step: Step) { step.Write? || step.Land? }

  lemma {:induction false} VersionsPersist(s: System, steps: seq<Step>, delay: nat, final: System)
    requires Reaches(s, steps, delay, final)
    ensures |s.db| <= |final.db| && final.db[..|s.db|] == s.db && s.now <= final.now
    ensures |s.db| == |final.db| <==> forall k | 0 <= k < |steps| :: !Writes(steps[k])
    decreases |steps|
  {
    if steps != [] {
      VersionsPersist(Next(s, steps[0], delay), steps[1..], delay, final);
      if forall k | 0 <= k < |steps| - 1 :: !Writes(steps[1..][k]) {
        forall k | 1 <= k < |steps| ensures !Writes(steps[k]) { assert steps[k] == steps[1..][k - 1]; }
      }
      forall k | 0 <= k < |steps| - 1 && Writes(steps[1..][k]) ensures Writes(steps[k + 1]) {}
    }
  }

  ghost predicate Keeps(steps: seq<Step>, fill: Id) { forall k | 0 <= k < |steps| :: steps[k] != Forget(fill) }

  lemma {:induction false} ReadsPersist(s: System, steps: seq<Step>, delay: nat, final: System, fill: Id)
    requires Reaches(s, steps, delay, final) && fill in s.fills && Keeps(steps, fill)
    ensures fill in final.fills
    ensures s.fills[fill].permissions.Some? ==> final.fills[fill].permissions == s.fills[fill].permissions
    ensures s.fills[fill].user.Some? ==> final.fills[fill].user == s.fills[fill].user
    decreases |steps|
  {
    if steps != [] { ReadsPersist(Next(s, steps[0], delay), steps[1..], delay, final, fill); }
  }

  // The statement that runs first, and the one that runs second.
  function FirstRead(fill: Id, permissionsFirst: bool): Step { if permissionsFirst then ReadPermissions(fill) else ReadUser(fill) }

  function SecondRead(fill: Id, permissionsFirst: bool): Step { FirstRead(fill, !permissionsFirst) }

  // The part of a state each statement reads; the other part is blanked.
  function FirstPart(state: State, permissionsFirst: bool): State {
    if permissionsFirst then State(state.permissions, false, None) else state.(permissions := {})
  }

  function SecondPart(state: State, permissionsFirst: bool): State { FirstPart(state, !permissionsFirst) }

  // A fill that reads at s, then, after `between`, at mid.
  ghost predicate ReadsTwice(s: System, fill: Id, permissionsFirst: bool, between: seq<Step>, mid: System, delay: nat) {
    && Enabled(s, FirstRead(fill, permissionsFirst), delay)
    && Reaches(Next(s, FirstRead(fill, permissionsFirst), delay), between, delay, mid)
    && Keeps(between, fill) && Enabled(mid, SecondRead(fill, permissionsFirst), delay)
  }

  // What the fill then stands for.
  ghost function FillValue(s: System, fill: Id, permissionsFirst: bool, mid: System, delay: nat): State
    requires s.db != [] && mid.db != []
  {
    if permissionsFirst then Latest(mid).(permissions := Latest(s).permissions) else Latest(s).(permissions := Latest(mid).permissions)
  }

  lemma ValueOfTwoReads(s: System, fill: Id, permissionsFirst: bool, between: seq<Step>, mid: System, delay: nat)
    requires ReadsTwice(s, fill, permissionsFirst, between, mid, delay)
    ensures 0 < |s.db| <= |mid.db| && mid.db[..|s.db|] == s.db
    ensures var f := Next(mid, SecondRead(fill, permissionsFirst), delay).fills[fill];
            && f.Complete() && f.Value().permissions.version < |mid.db| && f.Value().user.version < |mid.db|
            && StateOf(mid.db, f.Value()) == FillValue(s, fill, permissionsFirst, mid, delay)
  {
    ReadsPersist(Next(s, FirstRead(fill, permissionsFirst), delay), between, delay, mid, fill);
    VersionsPersist(Next(s, FirstRead(fill, permissionsFirst), delay), between, delay, mid);
    assert mid.db[|s.db| - 1] == mid.db[..|s.db|][|s.db| - 1];
  }

  /** The two reads see one version exactly when nothing was written between them, and then the fill is that state. */
  lemma OneVersionIffNoWriteBetween(s: System, fill: Id, permissionsFirst: bool, between: seq<Step>, mid: System, delay: nat)
    requires ReadsTwice(s, fill, permissionsFirst, between, mid, delay)
    ensures var f := Next(mid, SecondRead(fill, permissionsFirst), delay).fills[fill];
            && f.Complete()
            && (f.Value().permissions.version == f.Value().user.version <==> forall k | 0 <= k < |between| :: !Writes(between[k]))
            && (f.Value().permissions.version == f.Value().user.version ==> StateOf(mid.db, f.Value()) == Latest(mid) == Latest(s))
  {
    ValueOfTwoReads(s, fill, permissionsFirst, between, mid, delay);
    ReadsPersist(Next(s, FirstRead(fill, permissionsFirst), delay), between, delay, mid, fill);
    VersionsPersist(Next(s, FirstRead(fill, permissionsFirst), delay), between, delay, mid);
  }

  // Postgres held `state` at some moment from version lo to version hi.
  ghost predicate HeldBetween(db: seq<Version>, lo: nat, hi: nat, state: State)
    requires hi < |db|
  {
    exists j :: lo <= j <= hi && db[j].state == state
  }

  // At version j the part read first is still what it was at lo, and the other already what it is at hi.
  ghost predicate Cut(db: seq<Version>, lo: nat, hi: nat, permissionsFirst: bool, j: int)
    requires lo <= hi < |db|
  {
    lo <= j <= hi && FirstPart(db[j].state, permissionsFirst) == FirstPart(db[lo].state, permissionsFirst)
    && SecondPart(db[j].state, permissionsFirst) == SecondPart(db[hi].state, permissionsFirst)
  }

  ghost predicate SomeCut(db: seq<Version>, lo: nat, hi: nat, permissionsFirst: bool)
    requires lo <= hi < |db|
  {
    exists j :: Cut(db, lo, hi, permissionsFirst, j)
  }

  /**
   Exactly when a fill is whole: its value is a state Postgres held between the two reads, in whichever
   order they ran, if and only if at some moment between them the part read first was still as it was read
   and the other part already as it was read.
   */
  lemma WholeIffCut(s: System, fill: Id, permissionsFirst: bool, between: seq<Step>, mid: System, delay: nat)
    requires ReadsTwice(s, fill, permissionsFirst, between, mid, delay)
    ensures 0 < |s.db| <= |mid.db|
    ensures HeldBetween(mid.db, |s.db| - 1, |mid.db| - 1, FillValue(s, fill, permissionsFirst, mid, delay))
       <==> SomeCut(mid.db, |s.db| - 1, |mid.db| - 1, permissionsFirst)
  {
    ValueOfTwoReads(s, fill, permissionsFirst, between, mid, delay);
    var lo, hi := |s.db| - 1, |mid.db| - 1;
    assert mid.db[lo] == mid.db[..|s.db|][lo] == s.db[lo];
    var value := FillValue(s, fill, permissionsFirst, mid, delay);
    if HeldBetween(mid.db, lo, hi, value) {
      var j :| lo <= j <= hi && mid.db[j].state == value;
      assert Cut(mid.db, lo, hi, permissionsFirst, j);
    }
    if j :| Cut(mid.db, lo, hi, permissionsFirst, j) { assert mid.db[j].state == value; }
  }

  // Version i of the list differs from the one before it in a part.
  ghost predicate ChangesFirst(db: seq<Version>, permissionsFirst: bool, i: nat)
    requires 0 < i < |db|
  {
    FirstPart(db[i].state, permissionsFirst) != FirstPart(db[i - 1].state, permissionsFirst)
  }

  ghost predicate ChangesSecond(db: seq<Version>, permissionsFirst: bool, i: nat)
    requires 0 < i < |db|
  {
    SecondPart(db[i].state, permissionsFirst) != SecondPart(db[i - 1].state, permissionsFirst)
  }

  // A change of the part read first, and at it or after it a change of the other part.
  ghost predicate Crosses(db: seq<Version>, lo: nat, hi: nat, permissionsFirst: bool, i: nat, k: nat)
    requires hi < |db|
  {
    lo < i <= k <= hi && ChangesFirst(db, permissionsFirst, i) && ChangesSecond(db, permissionsFirst, k)
  }

  lemma {:induction false} FirstUnchanged(db: seq<Version>, lo: nat, j: nat, permissionsFirst: bool)
    requires lo <= j < |db| && forall i | lo < i <= j :: !ChangesFirst(db, permissionsFirst, i)
    ensures FirstPart(db[j].state, permissionsFirst) == FirstPart(db[lo].state, permissionsFirst)
  {
    if lo < j { assert !ChangesFirst(db, permissionsFirst, j); FirstUnchanged(db, lo, j - 1, permissionsFirst); }
  }

  lemma {:induction false} SecondUnchanged(db: seq<Version>, j: nat, hi: nat, permissionsFirst: bool)
    requires j <= hi < |db| && forall k | j < k <= hi :: !ChangesSecond(db, permissionsFirst, k)
    ensures SecondPart(db[j].state, permissionsFirst) == SecondPart(db[hi].state, permissionsFirst)
  {
    if j < hi { assert !ChangesSecond(db, permissionsFirst, hi); SecondUnchanged(db, j, hi - 1, permissionsFirst); }
  }

  lemma {:induction false} LastSecondChange(db: seq<Version>, lo: nat, hi: nat, permissionsFirst: bool) returns (j: nat)
    requires lo <= hi < |db|
    ensures lo <= j <= hi && (forall k | j < k <= hi :: !ChangesSecond(db, permissionsFirst, k))
    ensures j == lo || ChangesSecond(db, permissionsFirst, j)
  {
    j := hi;
    if lo < hi && !ChangesSecond(db, permissionsFirst, hi) { j := LastSecondChange(db, lo, hi - 1, permissionsFirst); }
  }

  // The part read first never comes back to what was read, and the other was never before what it ends as.
  ghost predicate NoReturn(db: seq<Version>, lo: nat, hi: nat, permissionsFirst: bool)
    requires lo <= hi < |db|
  {
    && (forall i, j | lo < i <= j <= hi && ChangesFirst(db, permissionsFirst, i) ::
          FirstPart(db[j].state, permissionsFirst) != FirstPart(db[lo].state, permissionsFirst))
    && (forall j, k | lo <= j < k <= hi && ChangesSecond(db, permissionsFirst, k) ::
          SecondPart(db[j].state, permissionsFirst) != SecondPart(db[hi].state, permissionsFirst))
  }

  /**
   Which writes tear a fill: only a change of the part read first with, at it or after it, a change of the
   other part; and, unless a part is changed back to an earlier value, every such pair does.
   */
  lemma TornIffWritesCross(db: seq<Version>, lo: nat, hi: nat, permissionsFirst: bool)
    requires lo <= hi < |db|
    ensures !SomeCut(db, lo, hi, permissionsFirst) ==> exists i: nat, k: nat :: Crosses(db, lo, hi, permissionsFirst, i, k)
    ensures NoReturn(db, lo, hi, permissionsFirst) ==>
              (!SomeCut(db, lo, hi, permissionsFirst) <==> exists i: nat, k: nat :: Crosses(db, lo, hi, permissionsFirst, i, k))
  {
    if forall i: nat, k: nat :: !Crosses(db, lo, hi, permissionsFirst, i, k) {
      var j := LastSecondChange(db, lo, hi, permissionsFirst);
      forall i | lo < i <= j ensures !ChangesFirst(db, permissionsFirst, i) { assert !Crosses(db, lo, hi, permissionsFirst, i, j); }
      FirstUnchanged(db, lo, j, permissionsFirst);
      SecondUnchanged(db, j, hi, permissionsFirst);
      assert Cut(db, lo, hi, permissionsFirst, j);
    }
    if i: nat, k: nat :| Crosses(db, lo, hi, permissionsFirst, i, k) {
      if NoReturn(db, lo, hi, permissionsFirst) {
        forall j ensures !Cut(db, lo, hi, permissionsFirst, j) {}
      }
    }
  }

  // ---------------------------------------------------------------- the guard

  /** JwtAuthGuard's revocation check at whole-second granularity; `iat` is section 4.1.6 of RFC 7519. */
  function Rejected(state: State, iat: nat): bool {
    state.tokensValidAfter.Some? && iat < state.tokensValidAfter.value / 1000
  }

  /** A token is refused exactly when it was minted in an earlier second than the revocation. */
  lemma RejectedIffEarlierSecond(state: State, mintedAt: nat, revokedAt: nat)
    requires state.tokensValidAfter == Some(revokedAt)
    ensures Rejected(state, mintedAt / 1000) <==> mintedAt / 1000 < revokedAt / 1000
    ensures mintedAt >= revokedAt ==> !Rejected(state, mintedAt / 1000)
    ensures mintedAt + 1000 <= revokedAt ==> Rejected(state, mintedAt / 1000)
  {
  }

  // The user row of a copy refuses the token.
  predicate Refuses(db: seq<Version>, copy: Copy, iat: nat) {
    copy.user.version < |db| && Rejected(db[copy.user.version].state, iat)
  }

  // From s on, once the window is over, every answer refuses the token.
  ghost predicate RefusedForGood(s: System, iat: nat, delay: nat) {
    forall later: seq<Step>, final: System, step: Step ::
      Reaches(s, later, delay, final) && final.now >= s.now + REDIS_TTL + delay && Enabled(final, step, delay) && Served(final, step, delay).Some?
      ==> Refuses(final.db, Served(final, step, delay).value, iat)
  }

  // Every revocation still to land was stamped in a later second than the token was minted.
  ghost predicate StampsAfter(s: System, iat: nat) { forall b | b in s.stamps :: iat < s.stamps[b] / 1000 }

  ghost predicate RefusesFrom(s: System, n: nat, iat: nat) {
    && n < |s.db| && (forall i | n <= i < |s.db| :: Rejected(s.db[i].state, iat))
    && StampsAfter(s, iat) && iat < s.now / 1000
  }

  lemma StepKeepsRefusing(s: System, n: nat, iat: nat, step: Step, delay: nat)
    requires RefusesFrom(s, n, iat) && Enabled(s, step, delay)
    ensures RefusesFrom(Next(s, step, delay), n, iat)
  {
    assert Rejected(Latest(s), iat);
  }

  lemma {:induction false} RefusesAlongRun(s: System, n: nat, iat: nat, steps: seq<Step>, delay: nat, final: System)
    requires RefusesFrom(s, n, iat) && Reaches(s, steps, delay, final)
    ensures RefusesFrom(final, n, iat)
    decreases |steps|
  {
    if steps != [] {
      StepKeepsRefusing(s, n, iat, steps[0], delay);
      RefusesAlongRun(Next(s, steps[0], delay), n, iat, steps[1..], delay, final);
    }
  }

  lemma RecentIsSince(s: System, n: nat, landed: nat, read: Read, delay: nat)
    requires Ordered(s.db, s.now) && Recent(s, read, delay) && n < |s.db| && s.db[n].since <= landed && s.now >= landed + REDIS_TTL + delay
    ensures read.version >= n
  {
  }

  lemma RefusedAfterWindow(s: System, iat: nat, delay: nat, later: seq<Step>, final: System, step: Step)
    requires Inv(s, delay) && s.db != [] && Rejected(Latest(s), iat) && StampsAfter(s, iat)
    requires Reaches(s, later, delay, final) && final.now >= s.now + REDIS_TTL + delay && Enabled(final, step, delay) && Served(final, step, delay).Some?
    ensures Refuses(final.db, Served(final, step, delay).value, iat)
  {
    var n := |s.db| - 1;
    assert Latest(s).tokensValidAfter.value <= s.db[n].since <= s.now;
    RefusesAlongRun(s, n, iat, later, delay, final);
    InvAlongRun(s, later, delay, final);
    VersionsPersist(s, later, delay, final);
    assert final.db[n] == final.db[..|s.db|][n] == s.db[n];
    ServedIsRecent(final, step, delay);
    RecentIsSince(final, n, s.now, Served(final, step, delay).value.user, delay);
  }

  lemma BothReadNow(s: System, delay: nat) returns (final: System)
    requires s.db != [] && 0 in s.fills && s.fills[0] == Fill(0, None, None)
    ensures Reaches(s, [ReadPermissions(0), ReadUser(0)], delay, final)
    ensures final == s.(fills := s.fills[0 := Fill(0, Some(Read(|s.db| - 1, s.now)), Some(Read(|s.db| - 1, s.now)))])
  {
    var mid := Next(s, ReadPermissions(0), delay);
    final := Next(mid, ReadUser(0), delay);
    assert Reaches(final, [], delay, final);
    ReachesNext(mid, ReadUser(0), [], delay, final);
    ReachesNext(s, ReadPermissions(0), [ReadUser(0)], delay, final);
    assert [ReadPermissions(0)] + [ReadUser(0)] == [ReadPermissions(0), ReadUser(0)];
  }

  // A user row read now, whatever the caches hold.
  lemma ReadsAfresh(s: System, delay: nat) returns (steps: seq<Step>, final: System)
    requires s.db != []
    ensures Reaches(s, steps, delay, final) && Enabled(final, LandLocal(0), delay) && final.now == s.now && final.db == s.db
    ensures Served(final, LandLocal(0), delay).value.user.version == |s.db| - 1
  {
    var s1 := Next(s, Forget(0), delay);
    var s2 := Next(s1, StartFill(0, 0), delay);
    final := BothReadNow(s2, delay);
    ReachesNext(s1, StartFill(0, 0), [ReadPermissions(0), ReadUser(0)], delay, final);
    ReachesNext(s, Forget(0), [StartFill(0, 0)] + [ReadPermissions(0), ReadUser(0)], delay, final);
    steps := [Forget(0)] + ([StartFill(0, 0)] + [ReadPermissions(0), ReadUser(0)]);
  }

  // A revocation stamped before the token was minted, but landing last, lets it through again.
  lemma LateLandingReadmits(s: System, iat: nat, delay: nat, b: Id) returns (steps: seq<Step>, final: System)
    requires s.db != [] && b in s.stamps && s.stamps[b] / 1000 <= iat
    ensures Reaches(s, steps, delay, final) && final.now >= s.now + REDIS_TTL + delay && Enabled(final, LandLocal(0), delay)
    ensures !Refuses(final.db, Served(final, LandLocal(0), delay).value, iat)
  {
    var s1 := Next(s, Land(b), delay);
    var s2 := Next(s1, Tick(REDIS_TTL + delay), delay);
    steps, final := ReadsAfresh(s2, delay);
    ReachesNext(s1, Tick(REDIS_TTL + delay), steps, delay, final);
    ReachesNext(s, Land(b), [Tick(REDIS_TTL + delay)] + steps, delay, final);
    steps := [Land(b)] + ([Tick(REDIS_TTL + delay)] + steps);
  }

  /**
   Exactly when a landed revocation holds: every answer after the window refuses a token it refuses, for
   good, if and only if no revocation still to land was stamped in that token's second or before. The
   instant is taken before the update, so of two overlapping revocations the earlier can land last.
   */
  lemma RevocationHoldsIff(s: System, iat: nat, delay: nat)
    requires Inv(s, delay) && s.db != [] && Rejected(Latest(s), iat)
    ensures RefusedForGood(s, iat, delay) <==> StampsAfter(s, iat)
  {
    if StampsAfter(s, iat) {
      forall later: seq<Step>, final: System, step: Step |
        Reaches(s, later, delay, final) && final.now >= s.now + REDIS_TTL + delay && Enabled(final, step, delay) && Served(final, step, delay).Some?
        ensures Refuses(final.db, Served(final, step, delay).value, iat)
      {
        RefusedAfterWindow(s, iat, delay, later, final, step);
      }
    }
    if b :| b in s.stamps && !(iat < s.stamps[b] / 1000) {
      var steps, final := LateLandingReadmits(s, iat, delay, b);
    }
  }

  /**
   Revocation takes hold: 60 s + delay after a revocation landed and later, every answer refuses every
   token minted in an earlier second than its stamp, unless one stamped that early was still to land.
   */
  lemma RevokedTokenIsRefused(steps: seq<Step>, delay: nat, s: System, b: Id, later: seq<Step>, final: System, step: Step, iat: nat)
    requires Reaches(Empty, steps, delay, s) && Enabled(s, Land(b), delay) && iat < s.stamps[b] / 1000 && StampsAfter(s, iat)
    requires Reaches(Next(s, Land(b), delay), later, delay, final) && Enabled(final, step, delay)
    requires final.now >= s.now + REDIS_TTL + delay
    ensures Inv(final, delay) && (Answer(final, step, delay).Some? ==> Rejected(Answer(final, step, delay).value, iat))
  {
    InvAlongRun(Empty, steps, delay, s);
    StepKeepsInv(s, Land(b), delay);
    InvAlongRun(Next(s, Land(b), delay), later, delay, final);
    if Served(final, step, delay).Some? { RefusedAfterWindow(Next(s, Land(b), delay), iat, delay, later, final, step); }
  }

  /** A token minted at or after every landed revocation's stamp is refused by no answer. */
  lemma FreshTokenIsNeverRefused(steps: seq<Step>, delay: nat, s: System, step: Step, mintedAt: nat)
    requires Reaches(Empty, steps, delay, s) && Enabled(s, step, delay)
    requires forall i | 0 <= i < |s.db| && s.db[i].state.tokensValidAfter.Some? :: s.db[i].state.tokensValidAfter.value <= mintedAt
    ensures Inv(s, delay) && (Answer(s, step, delay).Some? ==> !Rejected(Answer(s, step, delay).value, mintedAt / 1000))
  {
    InvAlongRun(Empty, steps, delay, s);
    if Served(s, step, delay).Some? { ServedIsRecent(s, step, delay); }
  }

  // ---------------------------------------------------------------- when an invalidation has taken hold

  // Read at version n or later.
  predicate FreshCopy(copy: Copy, n: nat) { copy.permissions.version >= n && copy.user.version >= n }

  // A part read before version n, in a fill that can still write.
  predicate StaleFill(f: Fill, now: nat, n: nat, delay: nat) {
    && (f.permissions.Some? ==> Within(f.permissions.value, now, delay))
    && (f.user.Some? ==> Within(f.user.value, now, delay))
    && ((f.permissions.Some? && f.permissions.value.version < n) || (f.user.Some? && f.user.value.version < n))
  }

  /** Nothing older than version n can still be served: no live entry holds it, and no fill can still write it. */
  ghost predicate Dropped(s: System, n: nat, delay: nat) {
    && (s.redis.Some? && s.now < s.redis.value.expiresAt ==> FreshCopy(s.redis.value.copy, n))
    && (forall p | p in s.local && s.now < s.local[p].expiresAt :: FreshCopy(s.local[p].copy, n))
    && (forall f | f in s.fills :: !StaleFill(s.fills[f], s.now, n, delay))
  }

  // From s on, every answer of every run was read at version n or later.
  ghost predicate AlwaysFresh(s: System, n: nat, delay: nat) {
    forall steps: seq<Step>, final: System, step: Step ::
      Reaches(s, steps, delay, final) && Enabled(final, step, delay) && Served(final, step, delay).Some? ==> FreshCopy(Served(final, step, delay).value, n)
  }

  lemma StepKeepsDropped(s: System, n: nat, delay: nat, step: Step)
    requires Dropped(s, n, delay) && n < |s.db| && Enabled(s, step, delay)
    ensures Dropped(Next(s, step, delay), n, delay) && n < |Next(s, step, delay).db|
  {
    var s' := Next(s, step, delay);
    if step.LandRedis? || step.LandLocal? { assert !StaleFill(s.fills[step.fill], s.now, n, delay); }
    forall f | f in s'.fills ensures !StaleFill(s'.fills[f], s'.now, n, delay) {
      if f in s.fills { assert !StaleFill(s.fills[f], s.now, n, delay); }
    }
  }

  lemma {:induction false} DroppedAlongRun(s: System, n: nat, delay: nat, steps: seq<Step>, final: System)
    requires Dropped(s, n, delay) && n < |s.db| && Reaches(s, steps, delay, final)
    ensures Dropped(final, n, delay)
    decreases |steps|
  {
    if steps != [] {
      StepKeepsDropped(s, n, delay, steps[0]);
      DroppedAlongRun(Next(s, steps[0], delay), n, delay, steps[1..], final);
    }
  }

  // A stale fill can finish its reads now and answer with what it holds.
  lemma StaleFillAnswers(s: System, n: nat, delay: nat, fill: Id) returns (steps: seq<Step>, final: System)
    requires n < |s.db| && fill in s.fills && StaleFill(s.fills[fill], s.now, n, delay)
    ensures Reaches(s, steps, delay, final) && Enabled(final, LandLocal(fill), delay)
    ensures !FreshCopy(Served(final, LandLocal(fill), delay).value, n)
  {
    if s.fills[fill].Complete() {
      steps, final := [], s;
    } else {
      var step := if s.fills[fill].permissions.None? then ReadPermissions(fill) else ReadUser(fill);
      steps, final := [step], Next(s, step, delay);
      assert Reaches(final, steps[1..], delay, final);
    }
  }

  /**
   Exactly when an invalidation has taken hold: every later answer was read at version n or later if and
   only if no unexpired entry of either tier, and no fill that can still write, holds a part older than n.
   */
  lemma DropTakesHoldIff(s: System, n: nat, delay: nat)
    requires n < |s.db|
    ensures AlwaysFresh(s, n, delay) <==> Dropped(s, n, delay)
  {
    if Dropped(s, n, delay) {
      forall steps: seq<Step>, final: System, step: Step |
        Reaches(s, steps, delay, final) && Enabled(final, step, delay) && Served(final, step, delay).Some?
        ensures FreshCopy(Served(final, step, delay).value, n)
      {
        DroppedAlongRun(s, n, delay, steps, final);
        if step.LandLocal? { assert !StaleFill(final.fills[step.fill], final.now, n, delay); }
      }
    }
    if AlwaysFresh(s, n, delay) {
      assert Reaches(s, [], delay, s);
      if s.redis.Some? && s.now < s.redis.value.expiresAt { assert Enabled(s, HitRedis(0), delay) && FreshCopy(Served(s, HitRedis(0), delay).value, n); }
      forall p | p in s.local && s.now < s.local[p].expiresAt ensures FreshCopy(s.local[p].copy, n) {
        assert Enabled(s, HitLocal(p), delay) && FreshCopy(Served(s, HitLocal(p), delay).value, n);
      }
      forall f | f in s.fills ensures !StaleFill(s.fills[f], s.now, n, delay) {
        if StaleFill(s.fills[f], s.now, n, delay) { var steps, final := StaleFillAnswers(s, n, delay, f); }
      }
    }
  }

  /** An eviction, by expiry or capacity or a drop, makes its own process or tier miss, and no other. */
  lemma EvictedIsMissed(s: System, process: Id, delay: nat)
    ensures forall step | step in [LocalEvict(process), Invalidate(process)] ::
              !Enabled(Next(s, step, delay), HitLocal(process), delay)
              && forall p | p != process && Enabled(s, HitLocal(p), delay) ::
                   Enabled(Next(s, step, delay), HitLocal(p), delay) && Served(Next(s, step, delay), HitLocal(p), delay) == Served(s, HitLocal(p), delay)
    ensures !Enabled(Next(s, RedisDelete, delay), HitRedis(process), delay)
  {
  }

  // ---------------------------------------------------------------- runs from the empty system

  // What a revocation and its cache drop do, in the code's order.
  function RevokeSteps(process: Id): seq<Step> { [Stamp(0), Land(0), Invalidate(process), RedisDelete] }

  lemma AfterRevoke(s: System, delay: nat, process: Id) returns (final: System)
    requires s.db != [] && s.stamps == map[]
    ensures Reaches(s, RevokeSteps(process), delay, final)
    ensures final == System(s.now, s.db + [Version(Latest(s).(tokensValidAfter := Some(s.now)), s.now)], None, s.local - {process}, s.fills, map[])
  {
    var s1 := Next(s, Stamp(0), delay);
    var s2 := Next(s1, Land(0), delay);
    var s3 := Next(s2, Invalidate(process), delay);
    final := Next(s3, RedisDelete, delay);
    assert s2.stamps == map[];
    assert Reaches(final, [], delay, final);
    ReachesNext(s3, RedisDelete, [], delay, final);
    ReachesNext(s2, Invalidate(process), [RedisDelete], delay, final);
    ReachesNext(s1, Land(0), [Invalidate(process), RedisDelete], delay, final);
    ReachesNext(s, Stamp(0), [Land(0), Invalidate(process), RedisDelete], delay, final);
    assert RevokeSteps(process) == [Stamp(0)] + [Land(0), Invalidate(process), RedisDelete];
  }

  // A fill that has read something, all of it recently enough to be written still.
  ghost predicate UnderWay(f: Fill, now: nat, delay: nat) {
    && (f.permissions.Some? || f.user.Some?)
    && (f.permissions.Some? ==> Within(f.permissions.value, now, delay)) && (f.user.Some? ==> Within(f.user.value, now, delay))
  }

  ghost predicate HeldElsewhere(s: System, process: Id, delay: nat) {
    || (exists p :: p in s.local && p != process && s.now < s.local[p].expiresAt)
    || exists f :: f in s.fills && UnderWay(s.fills[f], s.now, delay)
  }

  lemma UnderWayIsStale(s: System, delay: nat, f: Id)
    requires Inv(s, delay) && f in s.fills
    ensures UnderWay(s.fills[f], s.now, delay) <==> StaleFill(s.fills[f], s.now, |s.db|, delay)
  {
    assert FillOk(s.db, s.now, s.fills[f]);
  }

  /**
   Exactly when a revocation with its drop takes hold at once: every answer from then on is as new as the
   revocation if and only if no other process holds an unexpired entry and no fill under way may still write.
   */
  lemma RevocationTakesHoldIff(s: System, delay: nat, process: Id) returns (final: System)
    requires Inv(s, delay) && s.db != [] && s.stamps == map[]
    ensures Reaches(s, RevokeSteps(process), delay, final) && |final.db| == |s.db| + 1 && Latest(final).tokensValidAfter == Some(s.now)
    ensures AlwaysFresh(final, |s.db|, delay) <==> !HeldElsewhere(s, process, delay)
  {
    final := AfterRevoke(s, delay, process);
    DropTakesHoldIff(final, |s.db|, delay);
    forall p | p in s.local ensures !FreshCopy(s.local[p].copy, |s.db|) { assert EntryOk(s.db, s.now, s.local[p], delay + LOCAL_TTL); }
    forall f | f in s.fills ensures UnderWay(s.fills[f], s.now, delay) <==> StaleFill(s.fills[f], s.now, |s.db|, delay) { UnderWayIsStale(s, delay, f); }
    if HeldElsewhere(s, process, delay) {
      if p :| p in s.local && p != process && s.now < s.local[p].expiresAt { assert p in final.local && !FreshCopy(final.local[p].copy, |s.db|); }
    }
  }

  // One step more: the run so far, and where it leads.
  lemma OneMore(steps: seq<Step>, delay: nat, s: System, step: Step) returns (longer: seq<Step>, final: System)
    requires Reaches(Empty, steps, delay, s) && Enabled(s, step, delay)
    ensures longer == steps + [step] && final == Next(s, step, delay) && Reaches(Empty, longer, delay, final)
  {
    longer, final := steps + [step], Next(s, step, delay);
    assert Reaches(final, [], delay, final);
    ReachesNext(s, step, [], delay, final);
    ReachesThen(Empty, steps, delay, s, [step], final);
  }

  // A user with one permission, and a fill that has read its permissions but not yet its user row.
  lemma HalfRead(delay: nat, process: Id, granted: Id) returns (steps: seq<Step>, s: System)
    ensures Reaches(Empty, steps, delay, s)
    ensures s == System(0, [Version(State({granted}, false, None), 0)], None, map[], map[0 := Fill(process, Some(Read(0, 0)), None)], map[])
  {
    assert Reaches(Empty, [], delay, Empty);
    steps, s := OneMore([], delay, Empty, Write(State({granted}, false, None)));
    assert s.db == [Version(State({granted}, false, None), 0)];
    steps, s := OneMore(steps, delay, s, StartFill(0, process));
    steps, s := OneMore(steps, delay, s, ReadPermissions(0));
    assert s.fills == map[0 := Fill(process, Some(Read(0, 0)), None)];
  }

  lemma TornFill(delay: nat, granted: Id) returns (steps: seq<Step>, s: System)
    ensures Reaches(Empty, steps, delay, s)
    ensures s.now == 0 && s.fills == map[0 := Fill(0, Some(Read(0, 0)), Some(Read(2, 0)))]
    ensures s.db == [Version(State({granted}, false, None), 0), Version(State({}, false, None), 0), Version(State({}, false, Some(0)), 0)]
  {
    steps, s := HalfRead(delay, 0, granted);
    steps, s := OneMore(steps, delay, s, Write(State({}, false, None)));
    steps, s := OneMore(steps, delay, s, Stamp(0));
    steps, s := OneMore(steps, delay, s, Land(0));
    steps, s := OneMore(steps, delay, s, ReadUser(0));
  }

  /**
   The two statements can be torn apart: a role change and its revocation that commit between them leave
   a fill with the old permissions and the new revocation instant, a pair Postgres never held, and a token
   minted then is served the withdrawn permissions.
   */
  lemma TornRead(delay: nat, granted: Id) returns (steps: seq<Step>, s: System)
    ensures Reaches(Empty, steps, delay, s) && Enabled(s, LandLocal(0), delay) && Inv(s, delay) && s.db != []
    ensures Answer(s, LandLocal(0), delay).Some?
    ensures var answer := Answer(s, LandLocal(0), delay).value;
            && granted in answer.permissions && Latest(s).permissions == {}
            && (forall i | 0 <= i < |s.db| :: s.db[i].state != answer)
            && !Rejected(answer, s.now / 1000)
  {
    steps, s := TornFill(delay, granted);
    InvAlongRun(Empty, steps, delay, s);
    assert Answer(s, LandLocal(0), delay) == Some(State({granted}, false, Some(0)));
    assert s.db[0].state.tokensValidAfter == None;
  }

  lemma FillBeforeRevocation(delay: nat, process: Id) returns (steps: seq<Step>, s: System)
    ensures Reaches(Empty, steps, delay, s)
    ensures s == System(1000, [Version(State({0}, false, None), 0)], None, map[], map[0 := Fill(process, Some(Read(0, 0)), Some(Read(0, 0)))], map[])
  {
    steps, s := HalfRead(delay, process, 0);
    steps, s := OneMore(steps, delay, s, ReadUser(0));
    steps, s := OneMore(steps, delay, s, Tick(1000));
    assert s.fills == map[0 := Fill(process, Some(Read(0, 0)), Some(Read(0, 0)))];
  }

  lemma RevokedBeforeLanding(delay: nat, process: Id) returns (before: seq<Step>, revoked: System)
    ensures Reaches(Empty, before + RevokeSteps(process), delay, revoked)
    ensures revoked.now == 1000 && revoked.fills == map[0 := Fill(process, Some(Read(0, 0)), Some(Read(0, 0)))]
    ensures revoked.db == [Version(State({0}, false, None), 0), Version(State({0}, false, Some(1000)), 1000)]
  {
    var s0: System;
    before, s0 := FillBeforeRevocation(delay, process);
    revoked := AfterRevoke(s0, delay, process);
    ReachesThen(Empty, before, delay, s0, RevokeSteps(process), revoked);
  }

  lemma AnsweredFromBefore(revoked: System, delay: nat, process: Id, steps: seq<Step>)
    requires delay >= 1000 && Reaches(Empty, steps, delay, revoked)
    requires revoked.now == 1000 && revoked.fills == map[0 := Fill(process, Some(Read(0, 0)), Some(Read(0, 0)))]
    requires revoked.db == [Version(State({0}, false, None), 0), Version(State({0}, false, Some(1000)), 1000)]
    ensures Enabled(revoked, LandRedis(0), delay)
    ensures var s := Next(revoked, LandRedis(0), delay);
            Enabled(s, HitRedis(process), delay) && Inv(s, delay) && s.db != [] && Rejected(Latest(s), 0)
            && Answer(s, HitRedis(process), delay) == Some(State({0}, false, None))
  {
    InvAlongRun(Empty, steps, delay, revoked);
    StepKeepsInv(revoked, LandRedis(0), delay);
  }

  /**
   The drop does not make the next request read Postgres: a run from the empty system in which a fill read
   before a revocation lands after its drop, and the next request is answered with the revoked state, which
   lets through a token the current state refuses.
   */
  lemma DropRacesWithFill(delay: nat, process: Id) returns (before: seq<Step>, revoked: System, s: System)
    requires delay >= 1000
    ensures Reaches(Empty, before + RevokeSteps(process), delay, revoked) && Enabled(revoked, LandRedis(0), delay) && s == Next(revoked, LandRedis(0), delay)
    ensures Enabled(s, HitRedis(process), delay) && Inv(s, delay) && s.db != []
    ensures Answer(s, HitRedis(process), delay).Some?
    ensures !Rejected(Answer(s, HitRedis(process), delay).value, 0) && Rejected(Latest(s), 0)
  {
    before, revoked := RevokedBeforeLanding(delay, process);
    s := Next(revoked, LandRedis(0), delay);
    AnsweredFromBefore(revoked, delay, process, before + RevokeSteps(process));
  }

  // A fill complete at time 0, a state replaced at once, and the fill's redis write landing at its last instant.
  lemma LastInstantLanding(delay: nat, process: Id, granted: Id) returns (steps: seq<Step>, s: System)
    ensures Reaches(Empty, steps, delay, s)
    ensures s.db == [Version(State({granted}, false, None), 0), Version(State({}, false, None), 0)]
    ensures s.now == delay && s.redis == Some(Entry(Copy(Read(0, 0), Read(0, 0)), delay + REDIS_TTL))
  {
    steps, s := HalfRead(delay, process, granted);
    steps, s := OneMore(steps, delay, s, ReadUser(0));
    steps, s := OneMore(steps, delay, s, Write(State({}, false, None)));
    steps, s := OneMore(steps, delay, s, Tick(delay));
    steps, s := OneMore(steps, delay, s, LandRedis(0));
  }

  /**
   The bound is met: a run from the empty system in which a permission withdrawn at time 0 is still served
   60 s + delay - 1 ms later.
   */
  lemma StalenessBoundIsTight(delay: nat, process: Id, granted: Id) returns (steps: seq<Step>, s: System)
    ensures Reaches(Empty, steps, delay, s) && Enabled(s, HitRedis(process), delay) && Inv(s, delay)
    ensures |s.db| == 2 && s.db[1].since == 0 && granted !in s.db[1].state.permissions && s.now == 60000 + delay - 1
    ensures Answer(s, HitRedis(process), delay).Some? && granted in Answer(s, HitRedis(process), delay).value.permissions
  {
    steps, s := LastInstantLanding(delay, process, granted);
    steps, s := OneMore(steps, delay, s, Tick(REDIS_TTL - 1));
    InvAlongRun(Empty, steps, delay, s);
  }

  /**
   Of two overlapping revocations the one stamped first lands last: from the empty system, a token the other
   one refused is let through by the state Postgres ends in.
   */
  lemma EarlierStampLandsLast(delay: nat) returns (steps: seq<Step>, refused: System, s: System)
    ensures Reaches(Empty, steps, delay, refused) && refused.db != [] && Rejected(Latest(refused), 0)
    ensures Enabled(refused, Land(1), delay) && s == Next(refused, Land(1), delay) && !Rejected(Latest(s), 0)
  {
    assert Reaches(Empty, [], delay, Empty);
    steps, refused := OneMore([], delay, Empty, Write(State({}, false, None)));
    steps, refused := OneMore(steps, delay, refused, Stamp(1));
    steps, refused := OneMore(steps, delay, refused, Tick(1000));
    steps, refused := OneMore(steps, delay, refused, Stamp(2));
    assert refused.stamps[1] == 0 && refused.stamps[2] == 1000;
    steps, refused := OneMore(steps, delay, refused, Land(2));
    s := Next(refused, Land(1), delay);
  }
}
