/**
 getRandomQuestions: the SQL-sampled pool of three bounded tiers behaves, for the selector, like the
 whole subtopic.
 */
module BoundedPool {
  import opened Wrappers
  import opened QuestionSelection

  const POOL_OVERSAMPLE: nat := 3

  function Matching(s: set<Question>, level: string): set<Question> { set q | q in s && OnLevel(q, level) }

  function Unused(s: set<Question>, usedIds: set<Id>): set<Question> { set q | q in s && q.id !in usedIds }

  function Used(s: set<Question>, usedIds: set<Id>): set<Question> { set q | q in s && q.id in usedIds }

  function Min(a: nat, b: nat): nat { if a < b then a else b }

  /** ORDER BY random() LIMIT n over a set of rows. */
  ghost predicate IsSample(rows: set<Question>, from: set<Question>, n: nat) {
    rows <= from && |rows| == Min(n, |from|)
  }

  // The UNION of the three tiers of findBoundedCandidatePool.
  ghost predicate IsBoundedPool(pool: set<Question>, eligible: set<Question>, usedIds: set<Id>, level: string, limit: nat, oversample: nat) {
    exists t1, t2, t3 ::
      && IsSample(t1, Matching(Unused(eligible, usedIds), level), limit * oversample)
      && IsSample(t2, Unused(eligible, usedIds), limit * oversample)
      && IsSample(t3, Used(eligible, usedIds), limit * oversample)
      && pool == t1 + t2 + t3
  }

  // u is some order of the members of s, each once.
  ghost predicate IsOrderOf(u: seq<Question>, s: set<Question>) { multiset(u) == multiset(s) }

  function Same(limit: nat, level: string): seq<string> { seq(limit, _ => level) }

  // What a caller can tell of a selection: unused on level, unused off level, recycled, empty.
  datatype Profile = Profile(onLevel: nat, offLevel: nat, recycled: nat, empty: nat)

  function ProfileOf(sel: seq<Option<Question>>, usedIds: set<Id>, level: string): Profile {
    if sel == [] then Profile(0, 0, 0, 0)
    else
      var rest := ProfileOf(sel[1..], usedIds, level);
      if sel[0].None? then rest.(empty := rest.empty + 1)
      else if sel[0].value.id in usedIds then rest.(recycled := rest.recycled + 1)
      else if OnLevel(sel[0].value, level) then rest.(onLevel := rest.onLevel + 1)
      else rest.(offLevel := rest.offLevel + 1)
  }

  /** The profile as a function of three sizes: matching unused, unused, used. */
  function Expected(limit: nat, matching: nat, unused: nat, used: nat): Profile
    requires matching <= unused
  {
    var unusedPicks := Min(limit, unused);
    var recycled := Min(limit - unusedPicks, used);
    Profile(Min(limit, matching), unusedPicks - Min(limit, matching), recycled, limit - unusedPicks - recycled)
  }

  lemma OrderFacts(u: seq<Question>, s: set<Question>)
    requires IsOrderOf(u, s)
    ensures |u| == |s| && (forall q :: q in u <==> q in s)
  {
    assert |multiset(s)| == |s|;
    forall q ensures q in u <==> q in s { assert q in multiset(u) <==> q in multiset(s); }
  }

  lemma OrderMinus(u: seq<Question>, s: set<Question>, q: Question, u': seq<Question>)
    requires IsOrderOf(u, s) && multiset(u) == multiset{q} + multiset(u')
    ensures q in s && IsOrderOf(u', s - {q})
  {
    assert q in multiset(u);
    assert q in s;
    forall x ensures multiset(u')[x] == multiset(s - {q})[x] {
      assert multiset(u)[x] == multiset(s)[x];
    }
  }

  lemma MatchingSizes(s: set<Question>, q: Question, level: string)
    requires q in s
    ensures |s - {q}| == |s| - 1
    ensures |Matching(s - {q}, level)| == |Matching(s, level)| - if OnLevel(q, level) then 1 else 0
    ensures |Matching(s, level)| <= |s|
  {
    assert Matching(s - {q}, level) == Matching(s, level) - {q};
    SubsetSize(Matching(s, level), s);
  }

  lemma SubsetSize<T>(a: set<T>, b: set<T>)
    requires a <= b
    ensures |a| <= |b|
    ensures |a| == |b| ==> a == b
  {
    assert b == a + (b - a);
  }

  lemma MatchingAtMost(s: set<Question>, level: string)
    ensures |Matching(s, level)| <= |s|
  {
    SubsetSize(Matching(s, level), s);
  }

  lemma SelectSame(u: seq<Question>, v: seq<Question>, limit: nat, level: string)
    requires limit > 0
    ensures Select(u, v, Same(limit, level), true) == FirstAndRest(u, v, limit, level)
  {
    assert Same(limit, level)[1..] == Same(limit - 1, level);
  }

  // Expected, one request earlier: the pick is an unused question, a recycled one, or none is left.
  lemma UnusedStep(unused: set<Question>, used: nat, usedIds: set<Id>, level: string, limit: nat, q: Question, rest: seq<Option<Question>>)
    requires limit > 0 && q in unused && q.id !in usedIds && (OnLevel(q, level) || Matching(unused, level) == {})
    requires |Matching(unused, level)| <= |unused| && |Matching(unused - {q}, level)| <= |unused - {q}|
    requires ProfileOf(rest, usedIds, level) == Expected(limit - 1, |Matching(unused - {q}, level)|, |unused - {q}|, used)
    ensures ProfileOf([Some(q)] + rest, usedIds, level) == Expected(limit, |Matching(unused, level)|, |unused|, used)
  {
    MatchingSizes(unused, q, level);
    assert ([Some(q)] + rest)[1..] == rest;
  }

  lemma RecycledStep(used: nat, usedIds: set<Id>, level: string, limit: nat, q: Question, rest: seq<Option<Question>>)
    requires limit > 0 && used > 0 && q.id in usedIds
    requires ProfileOf(rest, usedIds, level) == Expected(limit - 1, 0, 0, used - 1)
    ensures ProfileOf([Some(q)] + rest, usedIds, level) == Expected(limit, 0, 0, used)
  {
    assert ([Some(q)] + rest)[1..] == rest;
  }

  lemma EmptyStep(usedIds: set<Id>, level: string, limit: nat, rest: seq<Option<Question>>)
    requires limit > 0 && ProfileOf(rest, usedIds, level) == Expected(limit - 1, 0, 0, 0)
    ensures ProfileOf([None] + rest, usedIds, level) == Expected(limit, 0, 0, 0)
  {
    assert ([None] + rest)[1..] == rest;
  }

  lemma OnLevelIfAny(u: seq<Question>, unused: set<Question>, level: string, q: Question)
    requires IsOrderOf(u, unused) && (forall x | x in u && OnLevel(x, level) :: OnLevel(q, level))
    ensures OnLevel(q, level) || Matching(unused, level) == {}
  {
    OrderFacts(u, unused);
  }

  /** For `limit` equal requests the greedy selection has the expected profile, whatever the shuffles. */
  lemma {:induction false} UniformProfile(unused: set<Question>, used: set<Question>, usedIds: set<Id>, level: string, limit: nat,
                                          u: seq<Question>, v: seq<Question>)
    requires (forall q | q in unused :: q.id !in usedIds) && (forall q | q in used :: q.id in usedIds)
    requires IsOrderOf(u, unused) && IsOrderOf(v, used)
    ensures |Matching(unused, level)| <= |unused|
    ensures ProfileOf(Select(u, v, Same(limit, level), true), usedIds, level)
         == Expected(limit, |Matching(unused, level)|, |unused|, |used|)
    decreases limit
  {
    MatchingAtMost(unused, level);
    OrderFacts(u, unused);
    OrderFacts(v, used);
    if limit > 0 {
      SelectSame(u, v, limit, level);
      if u != [] {
        UnusedFirst(unused, used, usedIds, level, limit, u, v);
      } else {
        NoneMatch(level);
        assert unused == {};
        if v != [] {
          OrderOfRest(v, used);
          UniformProfile({}, used - {v[0]}, usedIds, level, limit - 1, [], v[1..]);
          RecycledFirst(used, usedIds, level, limit, v);
        } else {
          UniformProfile({}, {}, usedIds, level, limit - 1, [], []);
          EmptyFirst(usedIds, level, limit);
        }
      }
    }
  }

  function FirstAndRest(u: seq<Question>, v: seq<Question>, limit: nat, level: string): seq<Option<Question>>
    requires limit > 0
  {
    var p := Pick(u, v, level, true);
    [p.question] + Select(p.unused, p.used, Same(limit - 1, level), true)
  }

  lemma {:induction false} UnusedFirst(unused: set<Question>, used: set<Question>, usedIds: set<Id>, level: string, limit: nat,
                                       u: seq<Question>, v: seq<Question>)
    requires (forall q | q in unused :: q.id !in usedIds) && (forall q | q in used :: q.id in usedIds)
    requires IsOrderOf(u, unused) && IsOrderOf(v, used) && u != [] && limit > 0
    ensures |Matching(unused, level)| <= |unused|
    ensures ProfileOf(FirstAndRest(u, v, limit, level), usedIds, level) == Expected(limit, |Matching(unused, level)|, |unused|, |used|)
    decreases limit, 0
  {
    var p := Pick(u, v, level, true);
    PickConserves(u, v, level, true);
    var q := p.question.value;
    OrderMinus(u, unused, q, p.unused);
    OnLevelIfAny(u, unused, level, q);
    MatchingAtMost(unused, level);
    UniformProfile(unused - {q}, used, usedIds, level, limit - 1, p.unused, p.used);
    UnusedStep(unused, |used|, usedIds, level, limit, q, Select(p.unused, p.used, Same(limit - 1, level), true));
  }

  lemma RecycledFirst(used: set<Question>, usedIds: set<Id>, level: string, limit: nat, v: seq<Question>)
    requires (forall q | q in used :: q.id in usedIds) && IsOrderOf(v, used) && v != [] && |used| > 0 && limit > 0
    requires ProfileOf(Select([], v[1..], Same(limit - 1, level), true), usedIds, level) == Expected(limit - 1, 0, 0, |used| - 1)
    ensures ProfileOf(FirstAndRest([], v, limit, level), usedIds, level) == Expected(limit, 0, 0, |used|)
  {
    OrderFacts(v, used);
    assert v[0] in used;
    assert Pick([], v, level, true) == Picked(Some(v[0]), [], v[1..]);
    RecycledStep(|used|, usedIds, level, limit, v[0], Select([], v[1..], Same(limit - 1, level), true));
  }

  lemma EmptyFirst(usedIds: set<Id>, level: string, limit: nat)
    requires limit > 0
    requires ProfileOf(Select([], [], Same(limit - 1, level), true), usedIds, level) == Expected(limit - 1, 0, 0, 0)
    ensures ProfileOf(FirstAndRest([], [], limit, level), usedIds, level) == Expected(limit, 0, 0, 0)
  {
    assert Pick([], [], level, true) == Picked(None, [], []);
    EmptyStep(usedIds, level, limit, Select([], [], Same(limit - 1, level), true));
  }

  lemma OrderOfRest(v: seq<Question>, used: set<Question>)
    requires IsOrderOf(v, used) && v != []
    ensures v[0] in used && IsOrderOf(v[1..], used - {v[0]}) && |used - {v[0]}| == |used| - 1
  {
    assert v == [v[0]] + v[1..];
    OrderMinus(v, used, v[0], v[1..]);
  }

  lemma NoneMatch(level: string)
    ensures Matching({}, level) == {}
  {
  }

  /** A pool that contains a sample of a set, and nothing outside the set, is as good up to the sample size. */
  lemma SampleSuffices(rows: set<Question>, from: set<Question>, n: nat, part: set<Question>, limit: nat)
    requires IsSample(rows, from, n) && rows <= part <= from && limit <= n
    ensures Min(limit, |part|) == Min(limit, |from|)
  {
    SubsetSize(rows, part);
    SubsetSize(part, from);
  }

  // The same for all three tiers at once, with the per-tier row limit n.
  lemma TierSizes(eligible: set<Question>, usedIds: set<Id>, level: string, limit: nat, n: nat,
                  t1: set<Question>, t2: set<Question>, t3: set<Question>, pool: set<Question>)
    requires IsSample(t1, Matching(Unused(eligible, usedIds), level), n) && IsSample(t2, Unused(eligible, usedIds), n)
    requires IsSample(t3, Used(eligible, usedIds), n) && pool == t1 + t2 + t3 && limit <= n
    ensures Min(limit, |Matching(Unused(pool, usedIds), level)|) == Min(limit, |Matching(Unused(eligible, usedIds), level)|)
    ensures Min(limit, |Unused(pool, usedIds)|) == Min(limit, |Unused(eligible, usedIds)|)
    ensures Min(limit, |Used(pool, usedIds)|) == Min(limit, |Used(eligible, usedIds)|)
    ensures pool <= eligible && |pool| <= 3 * n
  {
    SampleSuffices(t1, Matching(Unused(eligible, usedIds), level), n, Matching(Unused(pool, usedIds), level), limit);
    SampleSuffices(t2, Unused(eligible, usedIds), n, Unused(pool, usedIds), limit);
    SampleSuffices(t3, Used(eligible, usedIds), n, Used(pool, usedIds), limit);
    UnionSize(t1, t2);
    UnionSize(t1 + t2, t3);
  }

  lemma PoolParts(pool: set<Question>, eligible: set<Question>, usedIds: set<Id>, level: string, limit: nat, oversample: nat)
    requires IsBoundedPool(pool, eligible, usedIds, level, limit, oversample) && oversample >= 1
    ensures Min(limit, |Matching(Unused(pool, usedIds), level)|) == Min(limit, |Matching(Unused(eligible, usedIds), level)|)
    ensures Min(limit, |Unused(pool, usedIds)|) == Min(limit, |Unused(eligible, usedIds)|)
    ensures Min(limit, |Used(pool, usedIds)|) == Min(limit, |Used(eligible, usedIds)|)
    ensures pool <= eligible && |pool| <= 3 * (limit * oversample)
  {
    var n := limit * oversample;
    assert limit <= n by { LimitWithin(limit, oversample); }
    var t1, t2, t3 :|
      && IsSample(t1, Matching(Unused(eligible, usedIds), level), n)
      && IsSample(t2, Unused(eligible, usedIds), n)
      && IsSample(t3, Used(eligible, usedIds), n)
      && pool == t1 + t2 + t3;
    TierSizes(eligible, usedIds, level, limit, n, t1, t2, t3, pool);
  }

  lemma LimitWithin(limit: nat, oversample: nat)
    requires oversample >= 1
    ensures limit <= limit * oversample
  {
    assert limit * oversample == limit + limit * (oversample - 1);
  }

  lemma UnionSize<T>(a: set<T>, b: set<T>)
    ensures |a + b| <= |a| + |b|
  {
    assert a + b == a + (b - a);
    SubsetSize(b - a, b);
  }

  lemma SplitsEligible(s: set<Question>, usedIds: set<Id>)
    ensures forall q | q in Unused(s, usedIds) :: q.id !in usedIds
    ensures forall q | q in Used(s, usedIds) :: q.id in usedIds
    ensures |s| == |Unused(s, usedIds)| + |Used(s, usedIds)|
  {
    assert s == Unused(s, usedIds) + Used(s, usedIds);
  }

  /**
   Refinement: selecting from any bounded pool, under any shuffles, gives the same number of on-level,
   off-level, recycled and empty answers as selecting from the whole subtopic under any shuffles. Any
   oversample from 1 up suffices.
   */
  lemma BoundedPoolRefinesSubtopic(pool: set<Question>, eligible: set<Question>, usedIds: set<Id>, level: string, limit: nat, oversample: nat,
                                   u: seq<Question>, v: seq<Question>, u': seq<Question>, v': seq<Question>)
    requires IsBoundedPool(pool, eligible, usedIds, level, limit, oversample) && oversample >= 1
    requires IsOrderOf(u, Unused(pool, usedIds)) && IsOrderOf(v, Used(pool, usedIds))
    requires IsOrderOf(u', Unused(eligible, usedIds)) && IsOrderOf(v', Used(eligible, usedIds))
    ensures ProfileOf(Select(u, v, Same(limit, level), true), usedIds, level)
         == ProfileOf(Select(u', v', Same(limit, level), true), usedIds, level)
  {
    PoolParts(pool, eligible, usedIds, level, limit, oversample);
    SplitsEligible(pool, usedIds);
    SplitsEligible(eligible, usedIds);
    UniformProfile(Unused(pool, usedIds), Used(pool, usedIds), usedIds, level, limit, u, v);
    UniformProfile(Unused(eligible, usedIds), Used(eligible, usedIds), usedIds, level, limit, u', v');
    var a, b := |Used(pool, usedIds)|, |Used(eligible, usedIds)|;
    var unusedPicks := Min(limit, |Unused(pool, usedIds)|);
    assert Min(limit - unusedPicks, a) == Min(limit - unusedPicks, b);
  }

  // ---------------------------------------------------------------- the service

  function IdsOf(s: set<Question>): set<Id> { set q | q in s :: q.id }

  function Ids(sel: seq<Option<Question>>): set<Id> { set k | 0 <= k < |sel| && sel[k].Some? :: sel[k].value.id }

  /** How many used questions an answer of `limit` questions needs: none while unused ones remain. */
  function Recycled(limit: nat, s: set<Question>, usedIds: set<Id>): nat {
    Min(limit - Min(limit, |Unused(s, usedIds)|), |Used(s, usedIds)|)
  }

  // An id names one question of the bank.
  ghost predicate DistinctIds(s: set<Question>) { forall p, q | p in s && q in s :: p.id == q.id ==> p == q }

  lemma PartOrder(poolRows: seq<Question>, pool: set<Question>, usedIds: set<Id>, u: seq<Question>, v: seq<Question>)
    requires IsOrderOf(poolRows, pool)
    requires multiset(u) == multiset(Part(poolRows, usedIds, false)) && multiset(v) == multiset(Part(poolRows, usedIds, true))
    ensures IsOrderOf(u, Unused(pool, usedIds)) && IsOrderOf(v, Used(pool, usedIds))
  {
    forall q
      ensures multiset(u)[q] == multiset(Unused(pool, usedIds))[q] && multiset(v)[q] == multiset(Used(pool, usedIds))[q]
    {
      assert multiset(poolRows)[q] == multiset(pool)[q];
    }
  }

  lemma IdsUnfold(sel: seq<Option<Question>>)
    requires sel != []
    ensures Ids(sel) == Ids(sel[1..]) + if sel[0].Some? then {sel[0].value.id} else {}
  {
    var tail := sel[1..];
    forall x | x in Ids(tail) ensures x in Ids(sel) {
      var k :| 0 <= k < |tail| && tail[k].Some? && tail[k].value.id == x;
      assert sel[k + 1] == tail[k];
    }
    forall x | x in Ids(sel) && !(sel[0].Some? && sel[0].value.id == x) ensures x in Ids(tail) {
      var k :| 0 <= k < |sel| && sel[k].Some? && sel[k].value.id == x;
      assert tail[k - 1] == sel[k];
    }
  }

  lemma PicksStep(sel: seq<Option<Question>>, s: set<Question>)
    requires sel != [] && sel[0].Some? && Picks(sel) <= multiset(s)
    ensures sel[0].value in s && Picks(sel[1..]) <= multiset(s - {sel[0].value})
  {
    var q := sel[0].value;
    assert q in s by { assert q in multiset(s); }
    forall x ensures Picks(sel[1..])[x] <= multiset(s - {q})[x] { assert Picks(sel)[x] <= multiset(s)[x]; }
  }

  lemma {:induction false} PicksAreIds(sel: seq<Option<Question>>, s: set<Question>)
    requires Picks(sel) <= multiset(s) && DistinctIds(s)
    ensures |Ids(sel)| == |sel| - CountEmpty(sel)
    ensures Ids(sel) <= IdsOf(s)
    decreases |sel|
  {
    if sel != [] {
      var tail := sel[1..];
      IdsUnfold(sel);
      if sel[0].None? {
        PicksAreIds(tail, s);
      } else {
        PicksStep(sel, s);
        PicksAreIds(tail, s - {sel[0].value});
        assert sel[0].value.id !in Ids(tail);
      }
    }
  }

  lemma AddedId(ids: set<Id>, x: Id, usedIds: set<Id>)
    requires x !in ids
    ensures |(ids + {x}) * usedIds| == |ids * usedIds| + if x in usedIds then 1 else 0
  {
    assert (ids + {x}) * usedIds == ids * usedIds + if x in usedIds then {x} else {};
  }

  function CountRecycled(sel: seq<Option<Question>>, usedIds: set<Id>): nat {
    if sel == [] then 0 else (if sel[0].Some? && sel[0].value.id in usedIds then 1 else 0) + CountRecycled(sel[1..], usedIds)
  }

  lemma {:induction false} ProfileRecycled(sel: seq<Option<Question>>, usedIds: set<Id>, level: string)
    ensures ProfileOf(sel, usedIds, level).recycled == CountRecycled(sel, usedIds)
  {
    if sel != [] { ProfileRecycled(sel[1..], usedIds, level); }
  }

  lemma NewId(sel: seq<Option<Question>>, s: set<Question>)
    requires sel != [] && sel[0].Some? && Picks(sel) <= multiset(s) && DistinctIds(s)
    ensures sel[0].value.id !in Ids(sel[1..])
  {
    PicksStep(sel, s);
    PicksAreIds(sel[1..], s - {sel[0].value});
  }

  lemma {:induction false} RecycledIds(sel: seq<Option<Question>>, s: set<Question>, usedIds: set<Id>)
    requires Picks(sel) <= multiset(s) && DistinctIds(s)
    ensures |Ids(sel) * usedIds| == CountRecycled(sel, usedIds)
    decreases |sel|
  {
    if sel != [] {
      var tail := sel[1..];
      IdsUnfold(sel);
      if sel[0].None? {
        RecycledIds(tail, s, usedIds);
      } else {
        var q := sel[0].value;
        PicksStep(sel, s);
        NewId(sel, s);
        RecycledIds(tail, s - {q}, usedIds);
        AddedId(Ids(tail), q.id, usedIds);
      }
    }
  }

  function CountOnLevel(sel: seq<Option<Question>>, usedIds: set<Id>, level: string): nat {
    if sel == [] then 0
    else (if sel[0].Some? && sel[0].value.id !in usedIds && OnLevel(sel[0].value, level) then 1 else 0) + CountOnLevel(sel[1..], usedIds, level)
  }

  lemma {:induction false} ProfileOnLevel(sel: seq<Option<Question>>, usedIds: set<Id>, level: string)
    ensures ProfileOf(sel, usedIds, level).onLevel == CountOnLevel(sel, usedIds, level)
  {
    if sel != [] { ProfileOnLevel(sel[1..], usedIds, level); }
  }

  // The ids of the unused questions of the level, in the whole subtopic.
  function WantedIds(eligible: set<Question>, usedIds: set<Id>, level: string): set<Id> { IdsOf(Matching(Unused(eligible, usedIds), level)) }

  lemma WantedIff(eligible: set<Question>, usedIds: set<Id>, level: string, q: Question)
    requires DistinctIds(eligible) && q in eligible
    ensures q.id in WantedIds(eligible, usedIds, level) <==> q.id !in usedIds && OnLevel(q, level)
  {
    if q.id !in usedIds && OnLevel(q, level) { assert q in Matching(Unused(eligible, usedIds), level); }
  }

  // The answers on level are those whose ids are wanted.
  lemma {:induction false} OnLevelAreWanted(sel: seq<Option<Question>>, eligible: set<Question>, usedIds: set<Id>, level: string)
    requires DistinctIds(eligible) && forall k | 0 <= k < |sel| && sel[k].Some? :: sel[k].value in eligible
    ensures CountRecycled(sel, WantedIds(eligible, usedIds, level)) == CountOnLevel(sel, usedIds, level)
  {
    if sel != [] {
      OnLevelAreWanted(sel[1..], eligible, usedIds, level);
      if sel[0].Some? { WantedIff(eligible, usedIds, level, sel[0].value); }
    }
  }

  lemma {:induction false} PicksWithin(sel: seq<Option<Question>>, s: set<Question>)
    requires Picks(sel) <= multiset(s)
    ensures forall k | 0 <= k < |sel| && sel[k].Some? :: sel[k].value in s
  {
    if sel != [] {
      if sel[0].Some? { PicksStep(sel, s); PicksWithin(sel[1..], s - {sel[0].value}); } else { PicksWithin(sel[1..], s); }
    }
  }

  // The selection takes as many unused questions of the level as there are, up to the limit.
  lemma LevelHonoured(pool: set<Question>, eligible: set<Question>, usedIds: set<Id>, level: string, limit: nat, u: seq<Question>, v: seq<Question>)
    requires DistinctIds(eligible) && IsBoundedPool(pool, eligible, usedIds, level, limit, POOL_OVERSAMPLE)
    requires IsOrderOf(u, Unused(pool, usedIds)) && IsOrderOf(v, Used(pool, usedIds))
    ensures |Ids(Select(u, v, Same(limit, level), true)) * WantedIds(eligible, usedIds, level)|
         == Min(limit, |Matching(Unused(eligible, usedIds), level)|)
  {
    var sel := Select(u, v, Same(limit, level), true);
    PoolParts(pool, eligible, usedIds, level, limit, POOL_OVERSAMPLE);
    SelectedFromPool(pool, usedIds, level, limit, u, v);
    PicksWithin(sel, pool);
    OnLevelAreWanted(sel, eligible, usedIds, level);
    RecycledIds(sel, pool, WantedIds(eligible, usedIds, level));
    ProfileOnLevel(sel, usedIds, level);
    SplitsEligible(pool, usedIds);
    UniformProfile(Unused(pool, usedIds), Used(pool, usedIds), usedIds, level, limit, u, v);
  }

  /**
   The service call over the rows the database returned answers min(limit, size of the subtopic)
   distinct questions of the subtopic from at most 9 * limit rows: unused ones of the difficulty first, as
   many as the whole subtopic has, and recycled ones only for what its unused questions cannot cover.
   */
  method GetRandomQuestions(ghost eligible: set<Question>, poolRows: seq<Question>, ghost pool: set<Question>,
                            limit: int, excludeIds: set<Id>, difficulty: string) returns (ids: set<Id>)
    requires DistinctIds(eligible) && IsOrderOf(poolRows, pool)
    requires limit > 0 ==> IsBoundedPool(pool, eligible, excludeIds, difficulty, limit, POOL_OVERSAMPLE)
    ensures ids <= IdsOf(eligible)
    ensures |ids| == if limit <= 0 then 0 else Min(limit, |eligible|)
    ensures limit > 0 ==> |ids * excludeIds| == Recycled(limit, eligible, excludeIds)
    ensures limit > 0 ==>
              |ids * IdsOf(Matching(Unused(eligible, excludeIds), difficulty))| == Min(limit, |Matching(Unused(eligible, excludeIds), difficulty)|)
    ensures limit > 0 ==> |pool| <= 9 * limit
  {
    if limit <= 0 { return {}; }
    var selected := SelectBestQuestions(poolRows, excludeIds, Same(limit, difficulty), true);
    ids := Ids(selected);
    ghost var u, v :| multiset(u) == multiset(Part(poolRows, excludeIds, false)) && multiset(v) == multiset(Part(poolRows, excludeIds, true))
                      && selected == Select(u, v, Same(limit, difficulty), true);
    PartOrder(poolRows, pool, excludeIds, u, v);
    ServiceFacts(pool, eligible, excludeIds, difficulty, limit, u, v);
    LevelHonoured(pool, eligible, excludeIds, difficulty, limit, u, v);
  }

  /** Each tier is there three times over, as far as the subtopic goes. */
  lemma PoolIsOversampled(pool: set<Question>, eligible: set<Question>, usedIds: set<Id>, level: string, limit: nat)
    requires IsBoundedPool(pool, eligible, usedIds, level, limit, POOL_OVERSAMPLE)
    ensures |Matching(Unused(pool, usedIds), level)| >= Min(3 * limit, |Matching(Unused(eligible, usedIds), level)|)
    ensures |Unused(pool, usedIds)| >= Min(3 * limit, |Unused(eligible, usedIds)|)
    ensures |Used(pool, usedIds)| >= Min(3 * limit, |Used(eligible, usedIds)|)
  {
    var n := limit * POOL_OVERSAMPLE;
    var t1, t2, t3 :|
      && IsSample(t1, Matching(Unused(eligible, usedIds), level), n) && IsSample(t2, Unused(eligible, usedIds), n)
      && IsSample(t3, Used(eligible, usedIds), n) && pool == t1 + t2 + t3;
    SubsetSize(t1, Matching(Unused(pool, usedIds), level));
    SubsetSize(t2, Unused(pool, usedIds));
    SubsetSize(t3, Used(pool, usedIds));
  }

  // What the pool is, and what its selection makes of it, in the subtopic's terms.
  lemma PoolStandsForSubtopic(pool: set<Question>, eligible: set<Question>, usedIds: set<Id>, level: string, limit: nat)
    requires IsBoundedPool(pool, eligible, usedIds, level, limit, POOL_OVERSAMPLE)
    ensures pool <= eligible && |pool| <= 9 * limit
    ensures Min(limit, |pool|) == Min(limit, |eligible|) && Recycled(limit, pool, usedIds) == Recycled(limit, eligible, usedIds)
  {
    PoolParts(pool, eligible, usedIds, level, limit, POOL_OVERSAMPLE);
    SplitsEligible(pool, usedIds);
    SplitsEligible(eligible, usedIds);
  }

  lemma ServiceFacts(pool: set<Question>, eligible: set<Question>, usedIds: set<Id>, level: string, limit: nat, u: seq<Question>, v: seq<Question>)
    requires DistinctIds(eligible) && IsBoundedPool(pool, eligible, usedIds, level, limit, POOL_OVERSAMPLE)
    requires IsOrderOf(u, Unused(pool, usedIds)) && IsOrderOf(v, Used(pool, usedIds))
    ensures Ids(Select(u, v, Same(limit, level), true)) <= IdsOf(eligible)
    ensures |Ids(Select(u, v, Same(limit, level), true))| == Min(limit, |eligible|)
    ensures |Ids(Select(u, v, Same(limit, level), true)) * usedIds| == Recycled(limit, eligible, usedIds)
    ensures |pool| <= 9 * limit
  {
    PoolStandsForSubtopic(pool, eligible, usedIds, level, limit);
    SelectedIds(pool, usedIds, level, limit, u, v);
    IdsGrow(pool, eligible);
  }

  lemma IdsGrow(a: set<Question>, b: set<Question>)
    requires a <= b
    ensures IdsOf(a) <= IdsOf(b)
  {
  }

  lemma SelectedFromPool(pool: set<Question>, usedIds: set<Id>, level: string, limit: nat, u: seq<Question>, v: seq<Question>)
    requires IsOrderOf(u, Unused(pool, usedIds)) && IsOrderOf(v, Used(pool, usedIds))
    ensures Picks(Select(u, v, Same(limit, level), true)) <= multiset(pool)
    ensures limit - CountEmpty(Select(u, v, Same(limit, level), true)) == Min(limit, |pool|)
  {
    SplitsEligible(pool, usedIds);
    OrderFacts(u, Unused(pool, usedIds));
    OrderFacts(v, Used(pool, usedIds));
    EmptyAnswers(u, v, Same(limit, level), true);
    PicksComeFromPools(u, v, Same(limit, level), true);
    forall x ensures multiset(u)[x] + multiset(v)[x] == multiset(pool)[x] {}
  }

  lemma SelectedIds(pool: set<Question>, usedIds: set<Id>, level: string, limit: nat, u: seq<Question>, v: seq<Question>)
    requires DistinctIds(pool) && IsOrderOf(u, Unused(pool, usedIds)) && IsOrderOf(v, Used(pool, usedIds))
    ensures Ids(Select(u, v, Same(limit, level), true)) <= IdsOf(pool)
    ensures |Ids(Select(u, v, Same(limit, level), true))| == Min(limit, |pool|)
    ensures |Ids(Select(u, v, Same(limit, level), true)) * usedIds| == Recycled(limit, pool, usedIds)
  {
    SelectedFromPool(pool, usedIds, level, limit, u, v);
    PicksAreIds(Select(u, v, Same(limit, level), true), pool);
    RecycledIds(Select(u, v, Same(limit, level), true), pool, usedIds);
    ProfileRecycled(Select(u, v, Same(limit, level), true), usedIds, level);
    MatchingAtMost(Unused(pool, usedIds), level);
    UniformProfile(Unused(pool, usedIds), Used(pool, usedIds), usedIds, level, limit, u, v);
  }
}
