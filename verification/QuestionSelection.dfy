/** Difficulty labels and the three-tier greedy selector over shuffled, shrinking pools. */
module QuestionSelection {
  import opened Shuffling
  import opened Wrappers

  datatype Question = Question(id: Id, levelId: int)

  // ---------------------------------------------------------------- difficulty labels

  function UpperChar(c: char): char { if 'a' <= c <= 'z' then c - 'a' + 'A' else c }

  function Upper(s: string): string { seq(|s|, i requires 0 <= i < |s| => UpperChar(s[i])) }

  const EASY_LEVELS: seq<int> := [43, 44]
  const MEDIUM_LEVELS: seq<int> := [45]
  const HARD_LEVELS: seq<int> := [46, 47, 48, 49, 50, 51, 52]

  function LevelIds(difficulty: string): seq<int> {
    var d := Upper(difficulty);
    if d == "EASY" || d == "FACIL" then EASY_LEVELS
    else if d == "MEDIUM" || d == "INTERMEDIO" || d == "MEDIA" then MEDIUM_LEVELS
    else if d == "HARD" || d == "DIFICIL" then HARD_LEVELS
    else []
  }

  /** The level relation the selector and the bounded pool share; the empty label requests no level. */
  predicate OnLevel(q: Question, level: string) { level != "" && q.levelId in LevelIds(level) }

  /** The levels 43 to 52 split into easy, medium and hard, from the lowest up; synonyms and letter case do not matter. */
  lemma LabelsSplitLevels(q: Question, difficulty: string)
    ensures Upper(difficulty) in ["EASY", "FACIL"] ==> (OnLevel(q, difficulty) <==> 43 <= q.levelId <= 44)
    ensures Upper(difficulty) in ["MEDIUM", "INTERMEDIO", "MEDIA"] ==> (OnLevel(q, difficulty) <==> q.levelId == 45)
    ensures Upper(difficulty) in ["HARD", "DIFICIL"] ==> (OnLevel(q, difficulty) <==> 46 <= q.levelId <= 52)
    ensures Upper(difficulty) !in ["EASY", "FACIL", "MEDIUM", "INTERMEDIO", "MEDIA", "HARD", "DIFICIL"] ==> !OnLevel(q, difficulty)
    ensures OnLevel(q, Upper(difficulty)) == OnLevel(q, difficulty)
  {
    assert Upper(Upper(difficulty)) == Upper(difficulty);
  }

  // ---------------------------------------------------------------- one request

  function FindLevel(pool: seq<Question>, level: string): (i: nat)
    ensures i <= |pool|
    ensures i < |pool| ==> OnLevel(pool[i], level)
    ensures forall j | 0 <= j < i :: !OnLevel(pool[j], level)
  {
    if pool == [] || OnLevel(pool[0], level) then 0 else 1 + FindLevel(pool[1..], level)
  }

  function RemoveAt<T>(s: seq<T>, i: nat): seq<T>
    requires i < |s|
  {
    s[..i] + s[i + 1..]
  }

  datatype Picked = Picked(question: Option<Question>, unused: seq<Question>, used: seq<Question>)

  function Pick(unused: seq<Question>, used: seq<Question>, level: string, recycle: bool): Picked {
    var i := FindLevel(unused, level);
    if i < |unused| then Picked(Some(unused[i]), RemoveAt(unused, i), used)
    else if unused != [] then Picked(Some(unused[0]), unused[1..], used)
    else if recycle && used != [] then Picked(Some(used[0]), unused, used[1..])
    else Picked(None, unused, used)
  }

  /** What the loop over the requests selects from two given shuffles. */
  function Select(unused: seq<Question>, used: seq<Question>, levels: seq<string>, recycle: bool): (r: seq<Option<Question>>)
    ensures |r| == |levels|
    decreases |levels|
  {
    if levels == [] then []
    else
      var p := Pick(unused, used, levels[0], recycle);
      [p.question] + Select(p.unused, p.used, levels[1..], recycle)
  }

  /** The part of the pool whose questions are (or are not) on the used list, in pool order. */
  function Part(pool: seq<Question>, usedIds: set<Id>, used: bool): (r: seq<Question>)
    ensures forall q | q in r :: q in pool && (q.id in usedIds) == used
    ensures forall q :: multiset(r)[q] == if (q.id in usedIds) == used then multiset(pool)[q] else 0
  {
    if pool == [] then []
    else
      assert pool == [pool[0]] + pool[1..];
      if (pool[0].id in usedIds) == used then [pool[0]] + Part(pool[1..], usedIds, used) else Part(pool[1..], usedIds, used)
  }

  lemma SelectUnfolds(unused: seq<Question>, used: seq<Question>, levels: seq<string>, recycle: bool, k: nat, done: seq<Option<Question>>)
    requires k < |levels|
    ensures var p := Pick(unused, used, levels[k], recycle);
            done + Select(unused, used, levels[k..], recycle) == (done + [p.question]) + Select(p.unused, p.used, levels[k + 1..], recycle)
  {
    assert levels[k..][1..] == levels[k + 1..];
  }

  /** The greedy selection from some order of the pool's unused questions and some order of its used ones. */
  ghost predicate IsSelection(pool: seq<Question>, usedIds: set<Id>, levels: seq<string>, recycle: bool, sel: seq<Option<Question>>) {
    exists u, v ::
      && multiset(u) == multiset(Part(pool, usedIds, false))
      && multiset(v) == multiset(Part(pool, usedIds, true))
      && sel == Select(u, v, levels, recycle)
  }

  /** The selector itself, for whatever two shuffles it happens to draw. */
  method SelectBestQuestions(availablePool: seq<Question>, usedIds: set<Id>, levels: seq<string>, allowRecycling: bool)
      returns (selected: seq<Option<Question>>)
    ensures |selected| == |levels|
    ensures IsSelection(availablePool, usedIds, levels, allowRecycling, selected)
  {
    var unusedPool := Shuffled(Part(availablePool, usedIds, false));
    var usedPool := Shuffled(Part(availablePool, usedIds, true));
    ghost var u, v := unusedPool, usedPool;
    selected := [];
    for k := 0 to |levels|
      invariant selected + Select(unusedPool, usedPool, levels[k..], allowRecycling) == Select(u, v, levels, allowRecycling)
    {
      SelectUnfolds(unusedPool, usedPool, levels, allowRecycling, k, selected);
      var selectedQ: Option<Question> := None;
      ghost var p := Pick(unusedPool, usedPool, levels[k], allowRecycling);
      var idx := FindLevel(unusedPool, levels[k]);
      if idx < |unusedPool| {
        selectedQ := Some(unusedPool[idx]);
        unusedPool := RemoveAt(unusedPool, idx);
      } else if |unusedPool| > 0 {
        selectedQ := Some(unusedPool[0]);
        unusedPool := unusedPool[1..];
      } else if allowRecycling && |usedPool| > 0 {
        selectedQ := Some(usedPool[0]);
        usedPool := usedPool[1..];
      }
      assert p == Picked(selectedQ, unusedPool, usedPool);
      selected := selected + [selectedQ];
    }
  }

  // ---------------------------------------------------------------- what every selection satisfies

  function Picks(sel: seq<Option<Question>>): multiset<Question> {
    if sel == [] then multiset{}
    else (if sel[0].Some? then multiset{sel[0].value} else multiset{}) + Picks(sel[1..])
  }

  function CountEmpty(sel: seq<Option<Question>>): nat {
    if sel == [] then 0 else (if sel[0].None? then 1 else 0) + CountEmpty(sel[1..])
  }

  lemma RemoveAtMultiset<T>(s: seq<T>, i: nat)
    requires i < |s|
    ensures multiset(s) == multiset{s[i]} + multiset(RemoveAt(s, i))
  {
    assert s == s[..i] + [s[i]] + s[i + 1..];
  }

  /** One pick moves one question out of one pool, preferring level, then unused, then recycled. */
  lemma PickConserves(unused: seq<Question>, used: seq<Question>, level: string, recycle: bool)
    ensures var p := Pick(unused, used, level, recycle);
            && (unused != [] ==> p.question.Some? && multiset(unused) == multiset{p.question.value} + multiset(p.unused) && p.used == used)
            && (unused == [] && recycle && used != [] ==>
                  p.question.Some? && p.unused == [] && multiset(used) == multiset{p.question.value} + multiset(p.used))
            && (unused == [] && !(recycle && used != []) ==> p == Picked(None, [], used))
            && (forall x | x in unused && OnLevel(x, level) :: p.question.Some? && OnLevel(p.question.value, level))
  {
    var i := FindLevel(unused, level);
    if i < |unused| { RemoveAtMultiset(unused, i); }
    else if unused != [] { RemoveAtMultiset(unused, 0); assert RemoveAt(unused, 0) == unused[1..]; }
    else if recycle && used != [] { RemoveAtMultiset(used, 0); assert RemoveAt(used, 0) == used[1..]; }
  }

  /** No question is picked more often than the pools hold it, and without recycling only unused ones are. */
  lemma {:induction false} PicksComeFromPools(unused: seq<Question>, used: seq<Question>, levels: seq<string>, recycle: bool)
    ensures Picks(Select(unused, used, levels, recycle)) <= multiset(unused) + if recycle then multiset(used) else multiset{}
    decreases |levels|
  {
    if levels != [] {
      var p := Pick(unused, used, levels[0], recycle);
      PickConserves(unused, used, levels[0], recycle);
      PicksComeFromPools(p.unused, p.used, levels[1..], recycle);
      assert Select(unused, used, levels, recycle)[1..] == Select(p.unused, p.used, levels[1..], recycle);
    }
  }

  /** A request is left empty only for want of questions, so the number of empty answers is fixed. */
  lemma {:induction false} EmptyAnswers(unused: seq<Question>, used: seq<Question>, levels: seq<string>, recycle: bool)
    ensures var available := |unused| + if recycle then |used| else 0;
            CountEmpty(Select(unused, used, levels, recycle)) == if |levels| > available then |levels| - available else 0
    decreases |levels|
  {
    if levels != [] {
      var p := Pick(unused, used, levels[0], recycle);
      EmptyAnswers(p.unused, p.used, levels[1..], recycle);
      assert Select(unused, used, levels, recycle)[1..] == Select(p.unused, p.used, levels[1..], recycle);
    }
  }

  lemma PickKeepsApart(unused: seq<Question>, used: seq<Question>, level: string, recycle: bool)
    requires forall x | x in unused :: x !in used
    ensures var p := Pick(unused, used, level, recycle); forall x | x in p.unused :: x !in p.used
  {
    PickConserves(unused, used, level, recycle);
    var p := Pick(unused, used, level, recycle);
    forall x | x in p.unused ensures x !in p.used {
      assert x in multiset(p.unused);
      if unused != [] { assert x in multiset(unused); }
    }
  }

  lemma PicksPrefix(sel: seq<Option<Question>>, k: nat)
    requires 0 < k <= |sel|
    ensures Picks(sel[..k]) == (if sel[0].Some? then multiset{sel[0].value} else multiset{}) + Picks(sel[1..][..k - 1])
  {
    assert sel[..k][1..] == sel[1..][..k - 1] && sel[..k][0] == sel[0];
  }

  /**
   Priorities, at every position k: an answer that is empty or recycled means every unused question
   was picked before, and an answer off the requested level means every unused question of that
   level was.
   */
  lemma {:induction false} Priorities(unused: seq<Question>, used: seq<Question>, levels: seq<string>, recycle: bool, k: nat)
    requires k < |levels| && (forall x | x in unused :: x !in used)
    ensures var sel := Select(unused, used, levels, recycle);
            && (sel[k].None? || sel[k].value in used ==> multiset(unused) <= Picks(sel[..k]))
            && (sel[k].None? || !OnLevel(sel[k].value, levels[k]) ==>
                  forall x | x in unused && OnLevel(x, levels[k]) :: multiset(unused)[x] <= Picks(sel[..k])[x])
    decreases k
  {
    var p := Pick(unused, used, levels[0], recycle);
    var sel := Select(unused, used, levels, recycle);
    PickConserves(unused, used, levels[0], recycle);
    if k > 0 {
      var tail := Select(p.unused, p.used, levels[1..], recycle);
      PickKeepsApart(unused, used, levels[0], recycle);
      Priorities(p.unused, p.used, levels[1..], recycle, k - 1);
      PicksPrefix(sel, k);
      assert sel == [p.question] + tail && sel[1..] == tail;
      if sel[k].Some? && sel[k].value in used && sel[k].value !in p.used {
        PickedBefore(unused, used, levels, recycle, k);
      }
    }
  }

  // A question of the used pool that left it did so by being picked, after the unused ran out.
  lemma PickedBefore(unused: seq<Question>, used: seq<Question>, levels: seq<string>, recycle: bool, k: nat)
    requires 0 < k < |levels|
    requires var p := Pick(unused, used, levels[0], recycle); exists x :: x in used && x !in p.used
    ensures unused == []
  {
  }
}
