/**
 The catalog cache of one tenant: entries live under a version that is part of their key, and an
 update bumps the version. Requests, fills and bumps interleave freely.
 */
module CatalogCache {
  import opened Wrappers

  // The repository is the number of updates it has absorbed; a result is the number it was read at.
  type Revision = nat

  // One request of getCourses or getCourseTopics for one cache variant (kind, course, search term).
  datatype Request =
    | Keyed(variant: Id, version: nat)                    // has its version, will look the entry up
    | Loaded(variant: Id, version: nat, result: Revision) // missed, has read the repository, may still write

  datatype System = System(
    revision: Revision,
    key: Option<nat>,                 // catalogs:version:<tenant>
    entries: map<(nat, Id), Revision>,
    requests: map<Id, Request>,
    bumps: map<Id, nat>,              // stamped, not yet landed
    clock: nat)

  datatype Step =
    | Update                          // a visibility upsert or a catalog sync commits
    | Stamp(bump: Id, at: nat)        // Date.now() of a bump
    | Land(bump: Id)                  // its version write
    | ReadVersion(request: Id, variant: Id)
    | ReadVersionBypassed(request: Id, variant: Id)   // timed out or failed: version 0
    | Miss(request: Id)               // no entry, or its read bypassed; reads the repository
    | Fill(request: Id)               // the entry write lands, in time or late
    | Done(request: Id)
    | Expire(version: nat, variant: Id)
    | EvictKey                        // the store drops the version key

  ghost predicate Enabled(s: System, step: Step) {
    match step
    case Stamp(bump, at) => bump !in s.bumps && at >= s.clock
    case Land(bump) => bump in s.bumps
    case ReadVersion(request, _) => request !in s.requests
    case ReadVersionBypassed(request, _) => request !in s.requests
    case Miss(request) => request in s.requests && s.requests[request].Keyed?
    case Fill(request) => request in s.requests && s.requests[request].Loaded?
    case _ => true
  }

  function VersionOf(s: System): nat { if s.key.Some? then s.key.value else 0 }

  ghost function Next(s: System, step: Step): System
    requires Enabled(s, step)
  {
    match step
    case Update => s.(revision := s.revision + 1)
    case Stamp(bump, at) => s.(bumps := s.bumps[bump := at], clock := at)
    case Land(bump) => s.(key := Some(s.bumps[bump]), bumps := s.bumps - {bump})
    case ReadVersion(request, variant) => s.(requests := s.requests[request := Keyed(variant, VersionOf(s))])
    case ReadVersionBypassed(request, variant) => s.(requests := s.requests[request := Keyed(variant, 0)])
    case Miss(request) =>
      s.(requests := s.requests[request := Loaded(s.requests[request].variant, s.requests[request].version, s.revision)])
    case Fill(request) =>
      var q := s.requests[request];
      s.(entries := s.entries[(q.version, q.variant) := q.result])
    case Done(request) => s.(requests := s.requests - {request})
    case Expire(version, variant) => s.(entries := s.entries - {(version, variant)})
    case EvictKey => s.(key := None)
  }

  /** What a request would be answered right now: its entry if there is one, else the repository. */
  ghost function Answer(s: System, request: Id): Revision
    requires request in s.requests
  {
    match s.requests[request]
    case Keyed(variant, version) => if (version, variant) in s.entries then s.entries[(version, variant)] else s.revision
    case Loaded(_, _, result) => result
  }

  /** An entry that expired is not answered from: the repository is, and every other request as before. */
  lemma ExpiredIsReadAgain(s: System, request: Id, version: nat, variant: Id)
    requires request in s.requests && s.requests[request] == Keyed(variant, version)
    ensures Answer(Next(s, Expire(version, variant)), request) == s.revision
    ensures forall other | other in s.requests && s.requests[other].Keyed? && s.requests[other] != Keyed(variant, version) ::
              Answer(Next(s, Expire(version, variant)), other) == Answer(s, other)
  {
  }

  // What strict runs are assumed to do: bump stamps are distinct and positive.
  ghost predicate Proper(step: Step, s: System) { step.Stamp? ==> step.at > s.clock }

  // `floor[v]` is the repository revision at the moment version v first became the key.
  type Floor = map<nat, Revision>

  ghost predicate VersionsOk(key: Option<nat>, bumps: map<Id, nat>, clock: nat, revision: Revision, floor: Floor) {
    && (key.Some? ==> key.value in floor)
    && (forall v | v in floor :: 0 < v <= clock && floor[v] <= revision)
    && (forall b | b in bumps :: 0 < bumps[b] <= clock && bumps[b] !in floor)
    && (forall a, b | a in bumps && b in bumps :: a != b ==> bumps[a] != bumps[b])
  }

  // A result held under a bumped version is at least as new as the bump; any result has been read.
  ghost predicate ResultOk(version: nat, result: Revision, revision: Revision, floor: Floor) {
    result <= revision && (version != 0 ==> version in floor && floor[version] <= result)
  }

  ghost predicate EntriesOk(entries: map<(nat, Id), Revision>, revision: Revision, floor: Floor) {
    forall e | e in entries :: ResultOk(e.0, entries[e], revision, floor)
  }

  ghost predicate RequestOk(q: Request, revision: Revision, floor: Floor) {
    && (q.version != 0 ==> q.version in floor)
    && (q.Loaded? ==> ResultOk(q.version, q.result, revision, floor))
  }

  ghost predicate RequestsOk(requests: map<Id, Request>, revision: Revision, floor: Floor) {
    forall q | q in requests :: RequestOk(requests[q], revision, floor)
  }

  ghost predicate Inv(s: System, floor: Floor) {
    VersionsOk(s.key, s.bumps, s.clock, s.revision, floor) && EntriesOk(s.entries, s.revision, floor) && RequestsOk(s.requests, s.revision, floor)
  }

  ghost function NextFloor(s: System, floor: Floor, step: Step): Floor
    requires Enabled(s, step)
  {
    if step.Land? then floor[s.bumps[step.bump] := s.revision] else floor
  }

  lemma BumpKeepsInv(s: System, floor: Floor, step: Step)
    requires Inv(s, floor) && Enabled(s, step) && Proper(step, s) && (step.Stamp? || step.Land?)
    ensures Inv(Next(s, step), NextFloor(s, floor, step))
  {
    var s', floor' := Next(s, step), NextFloor(s, floor, step);
    assert forall v | v in floor :: v in floor' && floor'[v] == floor[v];
    assert EntriesOk(s'.entries, s'.revision, floor');
    assert RequestsOk(s'.requests, s'.revision, floor');
  }

  lemma RequestStepKeepsInv(s: System, floor: Floor, step: Step)
    requires Inv(s, floor) && Enabled(s, step) && Proper(step, s) && !step.Stamp? && !step.Land?
    ensures Inv(Next(s, step), floor)
  {
    var s' := Next(s, step);
    assert VersionsOk(s'.key, s'.bumps, s'.clock, s'.revision, floor);
    assert RequestsOk(s'.requests, s'.revision, floor);
    if step.Fill? { assert RequestOk(s.requests[step.request], s.revision, floor); }
    assert EntriesOk(s'.entries, s'.revision, floor);
  }

  lemma StepKeepsInv(s: System, floor: Floor, step: Step)
    requires Inv(s, floor) && Enabled(s, step) && Proper(step, s)
    ensures Inv(Next(s, step), NextFloor(s, floor, step))
  {
    if step.Stamp? || step.Land? { BumpKeepsInv(s, floor, step); } else { RequestStepKeepsInv(s, floor, step); }
  }

  // A run; with `strict`, one whose bump stamps are distinct.
  ghost predicate Reaches(s: System, steps: seq<Step>, strict: bool, final: System)
    decreases |steps|
  {
    if steps == [] then final == s
    else Enabled(s, steps[0]) && (strict ==> Proper(steps[0], s)) && Reaches(Next(s, steps[0]), steps[1..], strict, final)
  }

  const Empty: System := System(0, None, map[], map[], map[], 0)

  // What a run adds to the floors: nothing changes, and newer versions stand on newer revisions. A key
  // that is there at the end is the old one or a newer one.
  ghost predicate Extends(s: System, floor: Floor, final: System, finalFloor: Floor) {
    && s.revision <= final.revision
    && (forall v | v in floor :: v in finalFloor && finalFloor[v] == floor[v])
    && (forall v | v in finalFloor && v !in floor :: s.revision <= finalFloor[v])
    && (final.key.Some? ==> final.key == s.key || (final.key.value in finalFloor && s.revision <= finalFloor[final.key.value]))
  }

  lemma StepExtends(s: System, floor: Floor, step: Step)
    requires Inv(s, floor) && Enabled(s, step) && Proper(step, s)
    ensures Extends(s, floor, Next(s, step), NextFloor(s, floor, step))
  {
  }

  lemma ExtendsTransitive(a: System, fa: Floor, b: System, fb: Floor, c: System, fc: Floor)
    requires Extends(a, fa, b, fb) && Extends(b, fb, c, fc)
    requires (b.key.Some? ==> b.key.value in fb) && (c.key.Some? ==> c.key.value in fc)
    ensures Extends(a, fa, c, fc)
  {
  }

  lemma {:induction false} InvAlongRun(s: System, floor: Floor, steps: seq<Step>, final: System) returns (finalFloor: Floor)
    requires Inv(s, floor) && Reaches(s, steps, true, final)
    ensures Inv(final, finalFloor) && Extends(s, floor, final, finalFloor)
    decreases |steps|
  {
    if steps == [] {
      finalFloor := floor;
    } else {
      StepKeepsInv(s, floor, steps[0]);
      StepExtends(s, floor, steps[0]);
      finalFloor := InvAlongRun(Next(s, steps[0]), NextFloor(s, floor, steps[0]), steps[1..], final);
      ExtendsTransitive(s, floor, Next(s, steps[0]), NextFloor(s, floor, steps[0]), final, finalFloor);
    }
  }

  /** A landed bump: from then on its version, and every later key while there is one, stands on the repository as of that moment. */
  lemma LandedBump(steps: seq<Step>, s: System, bump: Id, later: seq<Step>, final: System) returns (floor: Floor)
    requires Reaches(Empty, steps, true, s) && bump in s.bumps && Reaches(Next(s, Land(bump)), later, true, final)
    ensures Inv(final, floor) && s.bumps[bump] in floor && floor[s.bumps[bump]] == s.revision
    ensures final.key.Some? ==> final.key.value in floor && s.revision <= floor[final.key.value]
  {
    var before := InvAlongRun(Empty, map[], steps, s);
    StepKeepsInv(s, before, Land(bump));
    floor := InvAlongRun(Next(s, Land(bump)), NextFloor(s, before, Land(bump)), later, final);
  }

  /** Every entry under a bumped version was read from the repository after that version became the key. */
  lemma EntriesFollowTheirBump(steps: seq<Step>, s: System, bump: Id, later: seq<Step>, final: System, variant: Id)
    requires Reaches(Empty, steps, true, s) && bump in s.bumps && Reaches(Next(s, Land(bump)), later, true, final)
    requires (s.bumps[bump], variant) in final.entries
    ensures s.revision <= final.entries[(s.bumps[bump], variant)]
  {
    var floor := LandedBump(steps, s, bump, later, final);
    assert ResultOk(s.bumps[bump], final.entries[(s.bumps[bump], variant)], final.revision, floor);
  }

  /** What a request is answered is no older than the floor of the version it carries. */
  lemma AnswerAboveFloor(s: System, floor: Floor, request: Id)
    requires Inv(s, floor) && request in s.requests && s.requests[request].version != 0
    ensures s.requests[request].version in floor && floor[s.requests[request].version] <= Answer(s, request)
  {
    var q := s.requests[request];
    assert RequestOk(q, s.revision, floor);
    if q.Keyed? && (q.version, q.variant) in s.entries {
      assert ResultOk(q.version, s.entries[(q.version, q.variant)], s.revision, floor);
    }
  }

  // Nothing under version 0 of the variant is older than `since`.
  ghost predicate ZeroIsFresh(s: System, variant: Id, since: Revision) {
    (0, variant) in s.entries ==> since <= s.entries[(0, variant)]
  }

  // A request that reads its version at `mid`: in time, or bypassed.
  ghost predicate ReadsVersion(step: Step, request: Id, variant: Id) {
    step == ReadVersion(request, variant) || step == ReadVersionBypassed(request, variant)
  }

  /**
   Exactly when it is fresh: with evicted keys and bypassed reads anywhere in the run, a request that reads
   the version after an update's bump landed is answered with that update if and only if it got a version
   other than 0, or has gone to the repository itself, or version 0 holds nothing of its variant older than
   the update.
   */
  lemma FreshIff(steps: seq<Step>, s: System, bump: Id, between: seq<Step>, mid: System,
                 read: Step, request: Id, variant: Id, later: seq<Step>, final: System)
    requires Reaches(Empty, steps, true, s) && bump in s.bumps && Reaches(Next(s, Land(bump)), between, true, mid)
    requires ReadsVersion(read, request, variant) && Enabled(mid, read) && Reaches(Next(mid, read), later, true, final)
    requires forall k | 0 <= k < |later| :: !Restarts(later[k], request)
    ensures request in final.requests
    ensures s.revision <= Answer(final, request) <==>
            (Next(mid, read).requests[request].version != 0 || final.requests[request].Loaded? || ZeroIsFresh(final, variant, s.revision))
  {
    var floor := LandedBump(steps, s, bump, between, mid);
    var mid' := Next(mid, read);
    StepKeepsInv(mid, floor, read);
    var finalFloor := InvAlongRun(mid', floor, later, final);
    RequestKeepsVersion(mid', later, true, final, request);
    LoadedSince(mid', later, true, final, request, s.revision);
    if mid'.requests[request].version != 0 {
      AnswerAboveFloor(final, finalFloor, request);
    }
  }

  // What a request loads after its version read is at least as new as the repository was then.
  lemma {:induction false} LoadedSince(s: System, steps: seq<Step>, strict: bool, final: System, request: Id, since: Revision)
    requires Reaches(s, steps, strict, final) && request in s.requests && since <= s.revision
    requires s.requests[request].Loaded? ==> since <= s.requests[request].result
    requires forall k | 0 <= k < |steps| :: !Restarts(steps[k], request)
    ensures request in final.requests && final.requests[request].variant == s.requests[request].variant
    ensures final.requests[request].Loaded? ==> since <= final.requests[request].result
    decreases |steps|
  {
    if steps != [] { LoadedSince(Next(s, steps[0]), steps[1..], strict, final, request, since); }
  }

  ghost predicate NeverEvicts(steps: seq<Step>) { forall k | 0 <= k < |steps| :: !steps[k].EvictKey? }

  lemma {:induction false} KeyStays(s: System, steps: seq<Step>, final: System)
    requires Reaches(s, steps, true, final) && s.key.Some? && NeverEvicts(steps)
    ensures final.key.Some?
    decreases |steps|
  {
    if steps != [] { KeyStays(Next(s, steps[0]), steps[1..], final); }
  }

  /**
   Freshness: if the key is not evicted before it, a request that reads the version after an update's bump
   has landed is answered, whenever it looks, with a result that includes that update, under every
   interleaving of other requests, late fills and other bumps.
   */
  lemma ReadsAfterBumpAreFresh(steps: seq<Step>, s: System, bump: Id, between: seq<Step>, mid: System,
                               request: Id, variant: Id, later: seq<Step>, final: System)
    requires Reaches(Empty, steps, true, s) && bump in s.bumps && Reaches(Next(s, Land(bump)), between, true, mid) && NeverEvicts(between)
    requires Enabled(mid, ReadVersion(request, variant)) && Reaches(Next(mid, ReadVersion(request, variant)), later, true, final)
    requires forall k | 0 <= k < |later| :: !Restarts(later[k], request)
    ensures request in final.requests && s.revision <= Answer(final, request)
  {
    var floor := LandedBump(steps, s, bump, between, mid);
    KeyStays(Next(s, Land(bump)), between, mid);
    FreshIff(steps, s, bump, between, mid, ReadVersion(request, variant), request, variant, later, final);
  }

  // Steps that would reuse the request's identity.
  ghost predicate Restarts(step: Step, request: Id) {
    step == Done(request) || (step.ReadVersion? && step.request == request) || (step.ReadVersionBypassed? && step.request == request)
  }

  lemma {:induction false} RequestKeepsVersion(s: System, steps: seq<Step>, strict: bool, final: System, request: Id)
    requires Reaches(s, steps, strict, final) && request in s.requests
    requires forall k | 0 <= k < |steps| :: !Restarts(steps[k], request)
    ensures request in final.requests && final.requests[request].version == s.requests[request].version
    decreases |steps|
  {
    if steps != [] { RequestKeepsVersion(Next(s, steps[0]), steps[1..], strict, final, request); }
  }

  // ---------------------------------------------------------------- each assumption is needed

  // Version 0 holds an entry older than the update the current key was bumped for.
  ghost predicate StaleZero(s: System, variant: Id) {
    s.key.Some? && (0, variant) in s.entries && s.entries[(0, variant)] < s.revision
  }

  /** A request whose version read is bypassed falls back to version 0 and can be answered from before the update. */
  lemma BypassedVersionReadIsStale(s: System, request: Id, variant: Id)
    requires StaleZero(s, variant) && request !in s.requests
    ensures Answer(Next(s, ReadVersionBypassed(request, variant)), request) < s.revision
  {
  }

  /** So does every request once the store has evicted the version key, contrary to the documented scheme. */
  lemma EvictedKeyResurrectsVersionZero(s: System, request: Id, variant: Id)
    requires StaleZero(s, variant) && request !in s.requests
    ensures Answer(Next(Next(s, EvictKey), ReadVersion(request, variant)), request) < s.revision
  {
  }

  /** A stale version-0 entry beside a bumped key is reachable by one proper run. */
  lemma StaleZeroIsReachable(variant: Id)
    ensures exists steps: seq<Step>, s: System :: Reaches(Empty, steps, true, s) && StaleZero(s, variant)
  {
    var steps := [ReadVersion(0, variant), Miss(0), Fill(0), Update, Stamp(0, 1), Land(0)];
    var s1 := Next(Empty, steps[0]);
    var s2 := Next(s1, steps[1]);
    var s3 := Next(s2, steps[2]);
    var s4 := Next(s3, steps[3]);
    var s5 := Next(s4, steps[4]);
    var s6 := Next(s5, steps[5]);
    assert s3.entries == map[(0, variant) := 0];
    assert s6 == System(1, Some(1), s3.entries, s3.requests, s6.bumps, 1);
    assert Reaches(s6, steps[6..], true, s6);
    assert Reaches(s5, steps[5..], true, s6) by { assert steps[5..][1..] == steps[6..]; }
    assert Reaches(s4, steps[4..], true, s6) by { assert steps[4..][1..] == steps[5..]; }
    assert Reaches(s3, steps[3..], true, s6) by { assert steps[3..][1..] == steps[4..]; }
    assert Reaches(s2, steps[2..], true, s6) by { assert steps[2..][1..] == steps[3..]; }
    assert Reaches(s1, steps[1..], true, s6) by { assert steps[1..][1..] == steps[2..]; }
    assert Reaches(Empty, steps, true, s6);
    assert StaleZero(s6, variant);
  }

  // ---------------------------------------------------------------- bumps that share a stamp

  // Nothing of the variant under version v is older than `since`, nor on its way there.
  ghost predicate Clean(s: System, v: nat, variant: Id, since: Revision) {
    && ((v, variant) in s.entries ==> since <= s.entries[(v, variant)])
    && forall q | q in s.requests && s.requests[q].Loaded? && s.requests[q].version == v && s.requests[q].variant == variant :: since <= s.requests[q].result
  }

  // In every run from s, stamps shared or not, no entry of the variant under v is older than `since`.
  ghost predicate StaysFresh(s: System, v: nat, variant: Id, since: Revision) {
    forall steps: seq<Step>, final: System :: Reaches(s, steps, false, final) && (v, variant) in final.entries ==> since <= final.entries[(v, variant)]
  }

  lemma {:induction false} CleanAlongRun(s: System, steps: seq<Step>, final: System, v: nat, variant: Id, since: Revision)
    requires Reaches(s, steps, false, final) && Clean(s, v, variant, since) && since <= s.revision
    ensures Clean(final, v, variant, since)
    decreases |steps|
  {
    if steps != [] { CleanAlongRun(Next(s, steps[0]), steps[1..], final, v, variant, since); }
  }

  /**
   Exactly when a version is fresh, shared stamp or not: from s on no entry of the variant under v is ever
   older than the repository at s if and only if none is now, and no request that loaded older data under v
   can still write it.
   */
  lemma SharedVersionFreshIff(s: System, v: nat, variant: Id)
    ensures StaysFresh(s, v, variant, s.revision) <==> Clean(s, v, variant, s.revision)
  {
    if Clean(s, v, variant, s.revision) {
      forall steps: seq<Step>, final: System | Reaches(s, steps, false, final) && (v, variant) in final.entries
        ensures s.revision <= final.entries[(v, variant)]
      {
        CleanAlongRun(s, steps, final, v, variant, s.revision);
      }
    }
    if StaysFresh(s, v, variant, s.revision) {
      assert Reaches(s, [], false, s);
      forall q | q in s.requests && s.requests[q].Loaded? && s.requests[q].version == v && s.requests[q].variant == variant
        ensures s.revision <= s.requests[q].result
      {
        var filled := Next(s, Fill(q));
        assert Reaches(filled, [Fill(q)][1..], false, filled);
        assert Reaches(s, [Fill(q)], false, filled) && (v, variant) in filled.entries;
      }
    }
  }

  /** And a read under such a version that starts then is answered with the repository at s or newer. */
  lemma SharedVersionReadIsFresh(s: System, request: Id, variant: Id, later: seq<Step>, final: System)
    requires Clean(s, VersionOf(s), variant, s.revision) && Enabled(s, ReadVersion(request, variant))
    requires Reaches(Next(s, ReadVersion(request, variant)), later, false, final)
    requires forall k | 0 <= k < |later| :: !Restarts(later[k], request)
    ensures request in final.requests && s.revision <= Answer(final, request)
  {
    var read := Next(s, ReadVersion(request, variant));
    RequestKeepsVersion(read, later, false, final, request);
    LoadedSince(read, later, false, final, request, s.revision);
    CleanAlongRun(read, later, final, VersionOf(s), variant, s.revision);
    RevisionGrows(read, later, final);
  }

  lemma {:induction false} RevisionGrows(s: System, steps: seq<Step>, final: System)
    requires Reaches(s, steps, false, final)
    ensures s.revision <= final.revision
    decreases |steps|
  {
    if steps != [] { RevisionGrows(Next(s, steps[0]), steps[1..], final); }
  }

  lemma OneMore(steps: seq<Step>, s: System, step: Step) returns (longer: seq<Step>, final: System)
    requires Reaches(Empty, steps, false, s) && Enabled(s, step)
    ensures longer == steps + [step] && final == Next(s, step) && Reaches(Empty, longer, false, final)
  {
    longer, final := steps + [step], Next(s, step);
    RunSnoc(Empty, steps, s, step);
  }

  lemma {:induction false} RunSnoc(s: System, steps: seq<Step>, mid: System, step: Step)
    requires Reaches(s, steps, false, mid) && Enabled(mid, step)
    ensures Reaches(s, steps + [step], false, Next(mid, step))
    decreases |steps|
  {
    if steps == [] {
      assert (steps + [step])[1..] == [];
    } else {
      RunSnoc(Next(s, steps[0]), steps[1..], mid, step);
      assert (steps + [step])[1..] == steps[1..] + [step];
    }
  }

  // A bump at instant 1, and a request that fills the cache under it.
  lemma FilledUnderBump(variant: Id) returns (steps: seq<Step>, s: System)
    ensures Reaches(Empty, steps, false, s)
    ensures s.key == Some(1) && s.entries == map[(1, variant) := 0] && s.revision == 0 && s.clock == 1 && s.bumps == map[] && 1 !in s.requests
  {
    assert Reaches(Empty, [], false, Empty);
    steps, s := OneMore([], Empty, Stamp(0, 1));
    steps, s := OneMore(steps, s, Land(0));
    steps, s := OneMore(steps, s, ReadVersion(0, variant));
    steps, s := OneMore(steps, s, Miss(0));
    steps, s := OneMore(steps, s, Fill(0));
  }

  /**
   Two bumps in the same millisecond share a version, and the second retires nothing: from the empty system,
   a request that reads the version after an update and its bump is answered from before the update.
   */
  lemma EqualStampsRetireNothing(variant: Id) returns (steps: seq<Step>, s: System)
    ensures Reaches(Empty, steps, false, s) && |steps| >= 4
    ensures steps[|steps| - 4..] == [Update, Stamp(1, 1), Land(1), ReadVersion(1, variant)]
    ensures 1 in s.requests && Answer(s, 1) < s.revision
  {
    steps, s := FilledUnderBump(variant);
    steps, s := OneMore(steps, s, Update);
    steps, s := OneMore(steps, s, Stamp(1, 1));
    steps, s := OneMore(steps, s, Land(1));
    steps, s := OneMore(steps, s, ReadVersion(1, variant));
  }
}
