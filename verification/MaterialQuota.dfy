/** How a generation splits a course's target quantity and difficulty quota over its syllabus cells. */
module MaterialQuota {
  import opened Shuffling
  import opened Wrappers
  import opened QuestionSelection

  datatype TemplateCourse = TemplateCourse(questionsQuantity: nat, easyCount: nat, mediumCount: nat, hardCount: nat)

  datatype Cell = Cell(topicId: Id, subtopicId: Id)

  datatype Topic = Topic(topicId: Id, subtopicId: Id, quantity: nat, levels: seq<string>)

  datatype Error = InvalidArrayLength

  datatype Quota = Quota(target: nat, easy: nat, medium: nat, hard: int)

  // `||` in the source: a stored 0 counts as absent.
  function OrDefault(stored: nat, default: nat): nat { if stored != 0 then stored else default }

  /** The quota after defaults; the hard count absorbs any difference to the target. */
  function QuotaOf(tc: Option<TemplateCourse>): Quota {
    var t := if tc.Some? then tc.value else TemplateCourse(0, 0, 0, 0);
    var target := OrDefault(t.questionsQuantity, 35);
    var easy := OrDefault(t.easyCount, target * 2 / 5);
    var medium := OrDefault(t.mediumCount, target * 2 / 5);
    var hard := OrDefault(t.hardCount, target / 5);
    var currentSum := easy + medium + hard;
    Quota(target, easy, medium, if currentSum != target then hard + (target - currentSum) else hard)
  }

  function Repeat(n: nat, level: string): seq<string> { seq(n, _ => level) }

  function LevelMultiset(q: Quota): multiset<string>
    requires q.hard >= 0
  {
    multiset(Repeat(q.easy, "EASY") + Repeat(q.medium, "MEDIUM") + Repeat(q.hard, "HARD"))
  }

  lemma {:induction false} Repeated(n: nat, level: string, other: string)
    ensures multiset(Repeat(n, level))[other] == if other == level then n else 0
  {
    if n > 0 {
      Repeated(n - 1, level, other);
      assert Repeat(n, level) == Repeat(n - 1, level) + [level];
    }
  }

  lemma LevelsCounted(q: Quota)
    requires q.hard >= 0
    ensures LevelMultiset(q)["EASY"] == q.easy && LevelMultiset(q)["MEDIUM"] == q.medium && LevelMultiset(q)["HARD"] == q.hard
  {
    forall level ensures LevelMultiset(q)[level]
      == (if level == "EASY" then q.easy else 0) + (if level == "MEDIUM" then q.medium else 0) + if level == "HARD" then q.hard else 0
    {
      Repeated(q.easy, "EASY", level);
      Repeated(q.medium, "MEDIUM", level);
      Repeated(q.hard, "HARD", level);
    }
  }

  function Quantity(target: nat, cells: nat, idx: nat): nat
    requires cells > 0
  {
    if idx < target % cells then target / cells + 1 else target / cells
  }

  function Rest(s: seq<string>, n: nat): seq<string> { if n <= |s| then s[n..] else [] }

  function Front(s: seq<string>, n: nat): seq<string> { if n <= |s| then s[..n] else s }

  /** Cells idx.. take their quantity off the front of the pool, one after the other; empty cells vanish. */
  function TopicsFrom(cells: seq<Cell>, target: nat, pool: seq<string>, idx: nat): seq<Topic>
    requires |cells| > 0
    decreases |cells| - idx
  {
    if idx >= |cells| then []
    else
      var n := Quantity(target, |cells|, idx);
      var rest := TopicsFrom(cells, target, Rest(pool, n), idx + 1);
      if n > 0 then [Topic(cells[idx].topicId, cells[idx].subtopicId, n, Front(pool, n))] + rest else rest
  }

  /** The level pool is built, shuffled in place and consumed cell by cell. */
  method PlanTopics(tc: Option<TemplateCourse>, cells: seq<Cell>) returns (r: Result<seq<Topic>, Error>, ghost pool: seq<string>)
    requires cells != []
    ensures r.Success? <==> QuotaOf(tc).easy + QuotaOf(tc).medium <= QuotaOf(tc).target
    ensures r.Success? ==> QuotaOf(tc).hard >= 0 && multiset(pool) == LevelMultiset(QuotaOf(tc))
                           && r.value == TopicsFrom(cells, QuotaOf(tc).target, pool, 0)
    ensures r.Success? ==> SharesOut(r.value, cells, QuotaOf(tc).target)
  {
    var q := QuotaOf(tc);
    pool := [];
    if q.hard < 0 { return Failure(InvalidArrayLength), pool; }
    var levelsPool := Shuffled(Repeat(q.easy, "EASY") + Repeat(q.medium, "MEDIUM") + Repeat(q.hard, "HARD"));
    pool := levelsPool;
    var topics: seq<Topic> := [];
    for idx := 0 to |cells|
      invariant topics + TopicsFrom(cells, q.target, levelsPool, idx) == TopicsFrom(cells, q.target, pool, 0)
    {
      var baseQty := q.target / |cells|;
      var remainder := q.target % |cells|;
      var quantity := if idx < remainder then baseQty + 1 else baseQty;
      var expectedLevels := Front(levelsPool, quantity);
      ghost var tail := TopicsFrom(cells, q.target, Rest(levelsPool, quantity), idx + 1);
      levelsPool := Rest(levelsPool, quantity);
      if quantity > 0 {
        var topic := Topic(cells[idx].topicId, cells[idx].subtopicId, quantity, expectedLevels);
        Regroup(topics, topic, tail);
        topics := topics + [topic];
      }
    }
    r := Success(topics);
    TopicsShareOut(cells, q.target, pool);
  }

  // A topic of cell k, with an even share of the target: one more for the first `target % |cells|` of them.
  ghost predicate IsShare(t: Topic, cells: seq<Cell>, base: nat, remainder: nat, k: nat)
    requires k < |cells|
  {
    t.topicId == cells[k].topicId && t.subtopicId == cells[k].subtopicId && t.quantity == base + if k < remainder then 1 else 0
  }

  // The topics are the cells' in their order, as far as the target goes.
  ghost predicate SharesOut(topics: seq<Topic>, cells: seq<Cell>, target: nat)
    requires cells != []
  {
    && |topics| == (if |cells| < target then |cells| else target)
    && forall k | 0 <= k < |topics| :: IsShare(topics[k], cells, target / |cells|, target % |cells|, k)
  }

  lemma {:induction false} SharesFrom(cells: seq<Cell>, target: nat, pool: seq<string>, idx: nat, base: nat, remainder: nat)
    requires cells != [] && idx <= |cells| && base == target / |cells| && remainder == target % |cells|
    ensures var topics := TopicsFrom(cells, target, pool, idx);
            && |topics| == (if base > 0 then |cells| - idx else if idx < remainder then remainder - idx else 0)
            && forall k | 0 <= k < |topics| :: IsShare(topics[k], cells, base, remainder, idx + k)
    decreases |cells| - idx
  {
    if idx < |cells| {
      var n := Quantity(target, |cells|, idx);
      assert n == base + if idx < remainder then 1 else 0;
      var rest := TopicsFrom(cells, target, Rest(pool, n), idx + 1);
      SharesFrom(cells, target, Rest(pool, n), idx + 1, base, remainder);
      var topics := TopicsFrom(cells, target, pool, idx);
      if n > 0 {
        forall k | 0 <= k < |topics| ensures IsShare(topics[k], cells, base, remainder, idx + k) {
          if k > 0 { assert topics[k] == rest[k - 1]; }
        }
      }
    }
  }

  lemma WholeShares(target: nat, cells: nat)
    requires cells > 0
    ensures (if target / cells > 0 then cells else target % cells) == if cells < target then cells else target
  {
    assert target == target / cells * cells + target % cells;
  }

  lemma TopicsShareOut(cells: seq<Cell>, target: nat, pool: seq<string>)
    requires cells != []
    ensures SharesOut(TopicsFrom(cells, target, pool, 0), cells, target)
  {
    SharesFrom(cells, target, pool, 0, target / |cells|, target % |cells|);
    WholeShares(target, |cells|);
  }

  lemma Regroup(a: seq<Topic>, t: Topic, b: seq<Topic>)
    ensures a + ([t] + b) == (a + [t]) + b
  {
  }

  // ---------------------------------------------------------------- conservation

  /** What cells idx.. of a target take together. */
  function Remaining(target: nat, cells: nat, idx: nat): nat
    requires cells > 0 && idx <= cells
    decreases cells - idx
  {
    if idx == cells then 0 else Quantity(target, cells, idx) + Remaining(target, cells, idx + 1)
  }

  lemma {:induction false} RemainingClosed(target: nat, cells: nat, idx: nat)
    requires cells > 0 && idx <= cells
    ensures Remaining(target, cells, idx)
         == target / cells * (cells - idx) + if idx < target % cells then target % cells - idx else 0
    decreases cells - idx
  {
    if idx < cells {
      RemainingClosed(target, cells, idx + 1);
      var base := target / cells;
      assert base * (cells - idx) == base + base * (cells - (idx + 1));
    }
  }

  lemma WholeTarget(target: nat, cells: nat)
    requires cells > 0
    ensures Remaining(target, cells, 0) == target
  {
    RemainingClosed(target, cells, 0);
    assert target == target / cells * cells + target % cells;
  }

  function Flatten(topics: seq<Topic>): seq<string> {
    if topics == [] then [] else topics[0].levels + Flatten(topics[1..])
  }

  function TotalQuantity(topics: seq<Topic>): nat {
    if topics == [] then 0 else topics[0].quantity + TotalQuantity(topics[1..])
  }

  lemma {:induction false} TopicsPartitionPool(cells: seq<Cell>, target: nat, pool: seq<string>, idx: nat)
    requires |cells| > 0 && idx <= |cells| && |pool| == Remaining(target, |cells|, idx)
    ensures var topics := TopicsFrom(cells, target, pool, idx);
            && Flatten(topics) == pool && TotalQuantity(topics) == |pool|
            && forall t | t in topics :: TopicFits(t, cells)
    decreases |cells| - idx
  {
    if idx < |cells| {
      var n := Quantity(target, |cells|, idx);
      var rest := TopicsFrom(cells, target, Rest(pool, n), idx + 1);
      TopicsPartitionPool(cells, target, Rest(pool, n), idx + 1);
      assert pool == Front(pool, n) + Rest(pool, n);
      if n > 0 { FirstTopic(Topic(cells[idx].topicId, cells[idx].subtopicId, n, Front(pool, n)), rest, cells, idx); }
    }
  }

  // A topic asks for something, has a level for each question, and is one of the cells.
  ghost predicate TopicFits(t: Topic, cells: seq<Cell>) {
    t.quantity > 0 && |t.levels| == t.quantity && Cell(t.topicId, t.subtopicId) in cells
  }

  lemma FirstTopic(t: Topic, rest: seq<Topic>, cells: seq<Cell>, idx: nat)
    requires idx < |cells| && cells[idx] == Cell(t.topicId, t.subtopicId) && t.quantity > 0 && |t.levels| == t.quantity
    requires forall r | r in rest :: TopicFits(r, cells)
    ensures Flatten([t] + rest) == t.levels + Flatten(rest) && TotalQuantity([t] + rest) == t.quantity + TotalQuantity(rest)
    ensures forall r | r in [t] + rest :: TopicFits(r, cells)
  {
    assert ([t] + rest)[1..] == rest;
  }

  /**
   Conservation: the topics of a course together ask for exactly the target, every topic carries
   one level per question, and the levels handed out are the quota's levels, each exactly once.
   */
  lemma QuotaConserved(tc: Option<TemplateCourse>, cells: seq<Cell>, pool: seq<string>)
    requires cells != [] && QuotaOf(tc).hard >= 0 && multiset(pool) == LevelMultiset(QuotaOf(tc))
    ensures var topics := TopicsFrom(cells, QuotaOf(tc).target, pool, 0);
            && TotalQuantity(topics) == QuotaOf(tc).target
            && multiset(Flatten(topics)) == LevelMultiset(QuotaOf(tc))
            && multiset(Flatten(topics))["EASY"] == QuotaOf(tc).easy && multiset(Flatten(topics))["MEDIUM"] == QuotaOf(tc).medium
            && multiset(Flatten(topics))["HARD"] == QuotaOf(tc).hard
            && SharesOut(topics, cells, QuotaOf(tc).target)
            && forall t | t in topics :: TopicFits(t, cells)
  {
    var q := QuotaOf(tc);
    TopicsShareOut(cells, q.target, pool);
    LevelsCounted(q);
    assert |multiset(pool)| == |Repeat(q.easy, "EASY") + Repeat(q.medium, "MEDIUM") + Repeat(q.hard, "HARD")|;
    WholeTarget(q.target, |cells|);
    TopicsPartitionPool(cells, q.target, pool, 0);
  }

  lemma {:induction false} QuantitiesNearAverage(cells: seq<Cell>, target: nat, pool: seq<string>, idx: nat)
    requires |cells| > 0
    ensures forall t | t in TopicsFrom(cells, target, pool, idx) :: target / |cells| <= t.quantity <= target / |cells| + 1
    ensures forall t | t in TopicsFrom(cells, target, pool, idx) && idx >= target % |cells| :: t.quantity == target / |cells|
    decreases |cells| - idx
  {
    if idx < |cells| { QuantitiesNearAverage(cells, target, Rest(pool, Quantity(target, |cells|, idx)), idx + 1); }
  }

  /** The quantities of a course's topics differ by at most one, and are all equal when the cells divide the target. */
  lemma TopicsBalanced(cells: seq<Cell>, target: nat, pool: seq<string>)
    requires |cells| > 0
    ensures var topics := TopicsFrom(cells, target, pool, 0);
            forall a, b | a in topics && b in topics :: a.quantity <= b.quantity + 1 && (target % |cells| == 0 ==> a.quantity == b.quantity)
  {
    QuantitiesNearAverage(cells, target, pool, 0);
  }

  // ---------------------------------------------------------------- what `||` does to stored quotas

  // What validateAndMapCourses lets an operator store.
  ghost predicate Validated(t: TemplateCourse) {
    t.questionsQuantity >= 1 && t.easyCount + t.mediumCount + t.hardCount == t.questionsQuantity
  }

  /** What stands in for an absent count: 35 questions, two fifths of them easy, two fifths medium, rounded down; the rest are hard. */
  lemma QuotaDefaults(tc: Option<TemplateCourse>)
    ensures var q := QuotaOf(tc);
            && q.target == (if tc.Some? && tc.value.questionsQuantity > 0 then tc.value.questionsQuantity else 35)
            && (tc.Some? && tc.value.easyCount > 0 ==> q.easy == tc.value.easyCount)
            && (tc.None? || tc.value.easyCount == 0 ==> 5 * q.easy <= 2 * q.target < 5 * (q.easy + 1))
            && (tc.Some? && tc.value.mediumCount > 0 ==> q.medium == tc.value.mediumCount)
            && (tc.None? || tc.value.mediumCount == 0 ==> 5 * q.medium <= 2 * q.target < 5 * (q.medium + 1))
            && q.easy + q.medium + q.hard == q.target
  {
  }

  /** A stored quota is handed out as stored exactly when no 0 in it has a non-zero default. */
  lemma StoredQuotaHonoured(t: TemplateCourse)
    requires Validated(t)
    ensures (QuotaOf(Some(t)).easy == t.easyCount && QuotaOf(Some(t)).medium == t.mediumCount && QuotaOf(Some(t)).hard == t.hardCount)
       <==> (t.questionsQuantity <= 2 || (t.easyCount > 0 && t.mediumCount > 0))
  {
  }

  /** A validated template fails to generate exactly when a 0 replaced by two fifths overshoots the target. */
  lemma ValidatedTemplateFails(t: TemplateCourse)
    requires Validated(t)
    ensures QuotaOf(Some(t)).hard < 0
       <==> || (t.easyCount == 0 && t.mediumCount > 0 && t.mediumCount + t.questionsQuantity * 2 / 5 > t.questionsQuantity)
            || (t.mediumCount == 0 && t.easyCount > 0 && t.easyCount + t.questionsQuantity * 2 / 5 > t.questionsQuantity)
  {
  }

  /** Ten questions, none easy, eight medium, two hard: accepted when stored, refused when generating. */
  lemma ZeroEasyTemplateFails()
    ensures Validated(TemplateCourse(10, 0, 8, 2)) && QuotaOf(Some(TemplateCourse(10, 0, 8, 2))).hard == -2
  {
  }
}
