/**
 From the planned topics to the ledger: the review slots a generation saves, the questions a worker
 loads for one course from those slots, and the usage records its completion callback carries.
 */
module ReviewPlan {
  import opened Wrappers
  import opened QuestionSelection
  import opened MaterialQuota
  import opened MaterialWebhook

  datatype Mapping = Mapping(questionId: Id, subtopicId: Id)

  // The question bank as the plan reads it: active subtopic mappings and the questions that exist.
  datatype Bank = Bank(mappings: seq<Mapping>, questions: map<Id, Question>)

  ghost predicate ValidBank(bank: Bank) { forall id | id in bank.questions :: bank.questions[id].id == id }

  datatype CourseDist = CourseDist(courseId: Id, topics: seq<Topic>, exclude: set<Id>)

  datatype Slot = Slot(topicId: Id, subtopicId: Id, expectedLevel: string, questionId: Option<Id>)

  /** The questions of one subtopic that exist and are not excluded; they are shuffled before they are picked. */
  function PoolOf(bank: Bank, mappings: seq<Mapping>, subtopicId: Id, exclude: set<Id>): (r: seq<Question>)
    ensures ValidBank(bank) ==> forall q | q in r :: q.id !in exclude && Mapping(q.id, subtopicId) in mappings
    decreases |mappings|
  {
    if mappings == [] then []
    else
      var rest := PoolOf(bank, mappings[1..], subtopicId, exclude);
      var m := mappings[0];
      if m.subtopicId == subtopicId && m.questionId in bank.questions && bank.questions[m.questionId].id !in exclude
      then [bank.questions[m.questionId]] + rest else rest
  }

  function SlotsOf(t: Topic, sel: seq<Option<Question>>): (r: seq<Slot>)
    requires |sel| == |t.levels|
    ensures |r| == |sel|
  {
    seq(|sel|, i requires 0 <= i < |sel| =>
      Slot(t.topicId, t.subtopicId, t.levels[i], if sel[i].Some? then Some(sel[i].value.id) else None))
  }

  /** The slots of one topic: some greedy selection, without recycling, from some order of its pool. */
  ghost predicate IsTopicPlan(bank: Bank, t: Topic, exclude: set<Id>, slots: seq<Slot>) {
    exists u: seq<Question> ::
      && multiset(u) == multiset(PoolOf(bank, bank.mappings, t.subtopicId, exclude))
      && slots == SlotsOf(t, Select(u, [], t.levels, false))
  }

  function Concat(parts: seq<seq<Slot>>): seq<Slot> { if parts == [] then [] else parts[0] + Concat(parts[1..]) }

  // One plan part per (course, topic), in position order.
  datatype Entry = Entry(courseId: Id, topic: Topic, exclude: set<Id>)

  function TopicEntries(d: CourseDist, topics: seq<Topic>): seq<Entry> {
    seq(|topics|, i requires 0 <= i < |topics| => Entry(d.courseId, topics[i], d.exclude))
  }

  function Entries(dists: seq<CourseDist>): seq<Entry> {
    if dists == [] then [] else TopicEntries(dists[0], dists[0].topics) + Entries(dists[1..])
  }

  ghost predicate IsPlan(bank: Bank, entries: seq<Entry>, parts: seq<seq<Slot>>) {
    |parts| == |entries| && forall e | 0 <= e < |entries| :: IsTopicPlan(bank, entries[e].topic, entries[e].exclude, parts[e])
  }

  lemma EntriesSnoc(dists: seq<CourseDist>, k: nat)
    requires k < |dists|
    ensures Entries(dists[..k + 1]) == Entries(dists[..k]) + TopicEntries(dists[k], dists[k].topics)
    decreases k
  {
    if k > 0 {
      EntriesSnoc(dists[1..], k - 1);
      assert dists[..k + 1][1..] == dists[1..][..k] && dists[..k][1..] == dists[1..][..k - 1];
    }
  }

  method PlanTopic(bank: Bank, t: Topic, exclude: set<Id>) returns (slots: seq<Slot>)
    requires |t.levels| == t.quantity
    ensures IsTopicPlan(bank, t, exclude, slots)
  {
    var availablePool := PoolOf(bank, bank.mappings, t.subtopicId, exclude);
    var selected := SelectBestQuestions(availablePool, {}, t.levels, false);
    slots := FillSlots(t, selected);
    ghost var u, v :| multiset(u) == multiset(Part(availablePool, {}, false)) && multiset(v) == multiset(Part(availablePool, {}, true))
                      && selected == Select(u, v, t.levels, false);
    KeepAll(availablePool);
    NothingUsed(v);
    assert slots == SlotsOf(t, Select(u, [], t.levels, false));
  }

  method FillSlots(t: Topic, selected: seq<Option<Question>>) returns (slots: seq<Slot>)
    requires |t.levels| == t.quantity == |selected|
    ensures slots == SlotsOf(t, selected)
  {
    slots := [];
    for i := 0 to t.quantity
      invariant slots == SlotsOf(t, selected)[..i]
    {
      slots := slots + [Slot(t.topicId, t.subtopicId, t.levels[i], if selected[i].Some? then Some(selected[i].value.id) else None)];
    }
  }

  lemma NothingUsed(v: seq<Question>)
    requires multiset(v) == multiset([])
    ensures v == []
  {
    assert |multiset(v)| == 0;
  }

  lemma {:induction false} KeepAll(s: seq<Question>)
    ensures Part(s, {}, false) == s && Part(s, {}, true) == []
  {
    if s != [] { KeepAll(s[1..]); }
  }

  lemma ConcatSnoc(parts: seq<seq<Slot>>, last: seq<Slot>)
    ensures Concat(parts + [last]) == Concat(parts) + last
  {
    ConcatPlus(parts, [last]);
    assert [last][1..] == [] && Concat([]) == [];
  }

  lemma PlanOneMore(bank: Bank, d: CourseDist, k: nat, parts: seq<seq<Slot>>, slots: seq<Slot>)
    requires k < |d.topics| && IsPlan(bank, TopicEntries(d, d.topics[..k]), parts) && IsTopicPlan(bank, d.topics[k], d.exclude, slots)
    ensures IsPlan(bank, TopicEntries(d, d.topics[..k + 1]), parts + [slots])
  {
    var before, after := TopicEntries(d, d.topics[..k]), TopicEntries(d, d.topics[..k + 1]);
    assert after == before + [Entry(d.courseId, d.topics[k], d.exclude)];
  }

  method PlanCourse(bank: Bank, d: CourseDist) returns (slots: seq<Slot>, ghost parts: seq<seq<Slot>>)
    requires forall t | t in d.topics :: |t.levels| == t.quantity
    ensures slots == Concat(parts) && IsPlan(bank, TopicEntries(d, d.topics), parts)
  {
    slots, parts := [], [];
    for k := 0 to |d.topics|
      invariant slots == Concat(parts) && IsPlan(bank, TopicEntries(d, d.topics[..k]), parts)
    {
      var topicSlots := PlanTopic(bank, d.topics[k], d.exclude);
      ConcatSnoc(parts, topicSlots);
      PlanOneMore(bank, d, k, parts, topicSlots);
      slots, parts := slots + topicSlots, parts + [topicSlots];
    }
    assert d.topics[..|d.topics|] == d.topics;
  }

  lemma {:induction false} ConcatPlus(a: seq<seq<Slot>>, b: seq<seq<Slot>>)
    ensures Concat(a + b) == Concat(a) + Concat(b)
  {
    if a == [] {
      assert a + b == b;
    } else {
      ConcatPlus(a[1..], b);
      assert (a + b)[1..] == a[1..] + b;
    }
  }

  lemma PlanPlus(bank: Bank, a: seq<Entry>, parts: seq<seq<Slot>>, b: seq<Entry>, more: seq<seq<Slot>>)
    requires IsPlan(bank, a, parts) && IsPlan(bank, b, more)
    ensures IsPlan(bank, a + b, parts + more)
  {
  }

  ghost predicate IsReviewPlan(bank: Bank, dists: seq<CourseDist>, slots: seq<Slot>) {
    exists parts :: slots == Concat(parts) && IsPlan(bank, Entries(dists), parts)
  }

  /** The plan over all courses and topics, in the order positions are assigned. */
  method BuildReviewPlan(bank: Bank, dists: seq<CourseDist>) returns (slots: seq<Slot>)
    requires forall d | d in dists :: forall t | t in d.topics :: |t.levels| == t.quantity
    ensures IsReviewPlan(bank, dists, slots)
  {
    slots := [];
    ghost var parts: seq<seq<Slot>> := [];
    for k := 0 to |dists|
      invariant slots == Concat(parts) && IsPlan(bank, Entries(dists[..k]), parts)
    {
      var courseSlots, courseParts := PlanCourse(bank, dists[k]);
      EntriesSnoc(dists, k);
      ConcatPlus(parts, courseParts);
      PlanPlus(bank, Entries(dists[..k]), parts, TopicEntries(dists[k], dists[k].topics), courseParts);
      slots, parts := slots + courseSlots, parts + courseParts;
    }
    assert dists[..|dists|] == dists;
  }

  // ---------------------------------------------------------------- what a plan contains

  ghost function QuestionIds(slots: seq<Slot>): set<Id> {
    set i | 0 <= i < |slots| && slots[i].questionId.Some? :: slots[i].questionId.value
  }

  function EmptySlots(slots: seq<Slot>): nat {
    if slots == [] then 0 else (if slots[0].questionId.None? then 1 else 0) + EmptySlots(slots[1..])
  }

  lemma {:induction false} PickedFromPool(sel: seq<Option<Question>>, u: seq<Question>, i: nat)
    requires Picks(sel) <= multiset(u) && i < |sel| && sel[i].Some?
    ensures sel[i].value in u
    decreases i
  {
    if i == 0 {
      assert sel[0].value in Picks(sel);
      assert sel[0].value in multiset(u);
    } else {
      assert Picks(sel[1..]) <= Picks(sel);
      PickedFromPool(sel[1..], u, i - 1);
    }
  }

  lemma {:induction false} EmptySlotsCount(sel: seq<Option<Question>>, slots: seq<Slot>)
    requires |slots| == |sel| && forall i | 0 <= i < |sel| :: slots[i].questionId.None? <==> sel[i].None?
    ensures EmptySlots(slots) == CountEmpty(sel)
    decreases |sel|
  {
    if sel != [] { EmptySlotsCount(sel[1..], slots[1..]); }
  }

  /** A topic's slots: one per question asked, none excluded, all of the subtopic, EMPTY only when the pool ran dry. */
  lemma TopicPlanFacts(bank: Bank, t: Topic, exclude: set<Id>, slots: seq<Slot>)
    requires ValidBank(bank) && |t.levels| == t.quantity && IsTopicPlan(bank, t, exclude, slots)
    ensures |slots| == t.quantity
    ensures forall i | 0 <= i < |slots| ::
              slots[i].topicId == t.topicId && slots[i].subtopicId == t.subtopicId && slots[i].expectedLevel == t.levels[i]
    ensures forall q | q in QuestionIds(slots) :: q !in exclude && Mapping(q, t.subtopicId) in bank.mappings
    ensures var pool := PoolOf(bank, bank.mappings, t.subtopicId, exclude);
            EmptySlots(slots) == if t.quantity > |pool| then t.quantity - |pool| else 0
  {
    var pool := PoolOf(bank, bank.mappings, t.subtopicId, exclude);
    var u :| multiset(u) == multiset(pool) && slots == SlotsOf(t, Select(u, [], t.levels, false));
    var sel := Select(u, [], t.levels, false);
    EmptyAnswers(u, [], t.levels, false);
    EmptySlotsCount(sel, slots);
    assert |u| == |pool| by { assert |multiset(u)| == |multiset(pool)|; }
    PicksComeFromPools(u, [], t.levels, false);
    forall q | q in QuestionIds(slots) ensures q !in exclude && Mapping(q, t.subtopicId) in bank.mappings {
      var i :| 0 <= i < |slots| && slots[i].questionId.Some? && slots[i].questionId.value == q;
      PickedFromPool(sel, u, i);
      assert sel[i].value in multiset(u);
      assert sel[i].value in pool;
    }
  }

  lemma {:induction false} InPool(bank: Bank, mappings: seq<Mapping>, subtopicId: Id, exclude: set<Id>, q: Id)
    requires ValidBank(bank) && Mapping(q, subtopicId) in mappings && q in bank.questions && q !in exclude
    ensures bank.questions[q] in PoolOf(bank, mappings, subtopicId, exclude)
    decreases |mappings|
  {
    if mappings[0] != Mapping(q, subtopicId) { InPool(bank, mappings[1..], subtopicId, exclude, q); }
  }

  lemma {:induction false} PickedAt(sel: seq<Option<Question>>, q: Question) returns (k: nat)
    requires Picks(sel)[q] > 0
    ensures k < |sel| && sel[k] == Some(q)
  {
    if sel[0] == Some(q) { k := 0; } else { k := PickedAt(sel[1..], q); k := k + 1; }
  }

  // A question the topic may use: mapped to its subtopic, in the bank, not excluded.
  ghost predicate Usable(bank: Bank, t: Topic, exclude: set<Id>, q: Id) {
    Mapping(q, t.subtopicId) in bank.mappings && q in bank.questions && q !in exclude
  }

  // A slot that got no question of its level.
  ghost predicate OffLevel(bank: Bank, slot: Slot) {
    slot.questionId.Some? && slot.questionId.value in bank.questions && !OnLevel(bank.questions[slot.questionId.value], slot.expectedLevel)
  }

  /**
   No question is passed over: when a slot stays EMPTY, every question the topic may use fills an earlier
   slot, and when it got one off its level, every such question of that level does.
   */
  lemma TopicPlanPassesNoneOver(bank: Bank, t: Topic, exclude: set<Id>, slots: seq<Slot>, i: nat, q: Id)
    requires ValidBank(bank) && |t.levels| == t.quantity && IsTopicPlan(bank, t, exclude, slots)
    requires i < |slots| && Usable(bank, t, exclude, q)
    requires slots[i].questionId.None? || (OffLevel(bank, slots[i]) && OnLevel(bank.questions[q], t.levels[i]))
    ensures q in QuestionIds(slots[..i])
  {
    var pool := PoolOf(bank, bank.mappings, t.subtopicId, exclude);
    var u :| multiset(u) == multiset(pool) && slots == SlotsOf(t, Select(u, [], t.levels, false));
    var sel, x := Select(u, [], t.levels, false), bank.questions[q];
    InPool(bank, bank.mappings, t.subtopicId, exclude, q);
    assert x in multiset(u) && x in u;
    if sel[i].Some? {
      PicksComeFromPools(u, [], t.levels, false);
      PickedFromPool(sel, u, i);
      assert sel[i].value in multiset(u);
      FromBank(bank, bank.mappings, t.subtopicId, exclude, sel[i].value);
    }
    Priorities(u, [], t.levels, false, i);
    assert Picks(sel[..i])[x] >= multiset(u)[x] > 0;
    var k := PickedAt(sel[..i], x);
    assert slots[..i][k].questionId == Some(q);
  }

  /** No question fills two slots of one topic when the subtopic maps each question once. */
  lemma TopicPlanDistinct(bank: Bank, t: Topic, exclude: set<Id>, slots: seq<Slot>, i: nat, j: nat)
    requires ValidBank(bank) && |t.levels| == t.quantity && IsTopicPlan(bank, t, exclude, slots)
    requires forall a, b | 0 <= a < b < |bank.mappings| :: bank.mappings[a] != bank.mappings[b]
    requires i < j < |slots| && slots[i].questionId.Some?
    ensures slots[i].questionId != slots[j].questionId
  {
    var pool := PoolOf(bank, bank.mappings, t.subtopicId, exclude);
    var u :| multiset(u) == multiset(pool) && slots == SlotsOf(t, Select(u, [], t.levels, false));
    var sel := Select(u, [], t.levels, false);
    PicksComeFromPools(u, [], t.levels, false);
    if slots[i].questionId == slots[j].questionId {
      PickedFromPool(sel, u, i);
      PickedFromPool(sel, u, j);
      assert sel[i].value in multiset(u) && sel[j].value in multiset(u);
      assert sel[i].value in pool && sel[j].value in pool;
      SameIdSameQuestion(bank, bank.mappings, t.subtopicId, exclude, sel[i].value, sel[j].value);
      TwicePicked(sel, i, j);
      PoolHoldsOnce(bank, bank.mappings, t.subtopicId, exclude, sel[i].value);
    }
  }

  lemma {:induction false} SameIdSameQuestion(bank: Bank, mappings: seq<Mapping>, subtopicId: Id, exclude: set<Id>, p: Question, q: Question)
    requires ValidBank(bank) && p.id == q.id
    requires p in PoolOf(bank, mappings, subtopicId, exclude) && q in PoolOf(bank, mappings, subtopicId, exclude)
    ensures p == q
  {
    FromBank(bank, mappings, subtopicId, exclude, p);
    FromBank(bank, mappings, subtopicId, exclude, q);
  }

  lemma {:induction false} FromBank(bank: Bank, mappings: seq<Mapping>, subtopicId: Id, exclude: set<Id>, q: Question)
    requires ValidBank(bank) && q in PoolOf(bank, mappings, subtopicId, exclude)
    ensures q.id in bank.questions && bank.questions[q.id] == q
    decreases |mappings|
  {
    if mappings != [] && q in PoolOf(bank, mappings[1..], subtopicId, exclude) { FromBank(bank, mappings[1..], subtopicId, exclude, q); }
  }

  lemma {:induction false} TwicePicked(sel: seq<Option<Question>>, i: nat, j: nat)
    requires i < j < |sel| && sel[i].Some? && sel[i] == sel[j]
    ensures Picks(sel)[sel[i].value] >= 2
    decreases i
  {
    if i == 0 { PickedOnce(sel[1..], j - 1); } else { TwicePicked(sel[1..], i - 1, j - 1); }
  }

  lemma {:induction false} PickedOnce(sel: seq<Option<Question>>, j: nat)
    requires j < |sel| && sel[j].Some?
    ensures Picks(sel)[sel[j].value] >= 1
    decreases j
  {
    if j > 0 { PickedOnce(sel[1..], j - 1); }
  }

  lemma {:induction false} PoolHoldsOnce(bank: Bank, mappings: seq<Mapping>, subtopicId: Id, exclude: set<Id>, q: Question)
    requires ValidBank(bank) && forall a, b | 0 <= a < b < |mappings| :: mappings[a] != mappings[b]
    ensures multiset(PoolOf(bank, mappings, subtopicId, exclude))[q] <= 1
    decreases |mappings|
  {
    if mappings != [] {
      var rest := PoolOf(bank, mappings[1..], subtopicId, exclude);
      PoolHoldsOnce(bank, mappings[1..], subtopicId, exclude, q);
      if q in rest { assert mappings[0] != Mapping(q.id, subtopicId); }
    }
  }

  /** Every planned question of an entry avoids the entry's exclusions. */
  lemma {:induction false} PlanAvoidsExcluded(bank: Bank, entries: seq<Entry>, parts: seq<seq<Slot>>, i: nat)
    requires ValidBank(bank) && IsPlan(bank, entries, parts)
    requires forall e | e in entries :: |e.topic.levels| == e.topic.quantity
    requires i < |Concat(parts)| && Concat(parts)[i].questionId.Some?
    ensures exists e | e in entries :: e.topic.topicId == Concat(parts)[i].topicId && Concat(parts)[i].questionId.value !in e.exclude
    decreases |parts|
  {
    var slot := Concat(parts)[i];
    if i < |parts[0]| {
      TopicPlanFacts(bank, entries[0].topic, entries[0].exclude, parts[0]);
      assert parts[0][i] == slot;
      assert slot.questionId.value in QuestionIds(parts[0]);
      assert entries[0] in entries;
    } else {
      PlanAvoidsExcluded(bank, entries[1..], parts[1..], i - |parts[0]|);
      var e :| e in entries[1..] && e.topic.topicId == slot.topicId && slot.questionId.value !in e.exclude;
      assert e in entries;
    }
  }

  function SumQuantities(entries: seq<Entry>): nat {
    if entries == [] then 0 else entries[0].topic.quantity + SumQuantities(entries[1..])
  }

  /** The number of saved slots is the number of questions asked for. */
  lemma {:induction false} PlanSize(bank: Bank, entries: seq<Entry>, parts: seq<seq<Slot>>)
    requires ValidBank(bank) && IsPlan(bank, entries, parts)
    requires forall e | e in entries :: |e.topic.levels| == e.topic.quantity
    ensures |Concat(parts)| == SumQuantities(entries)
    decreases |parts|
  {
    if parts != [] {
      assert entries[0] in entries;
      TopicPlanFacts(bank, entries[0].topic, entries[0].exclude, parts[0]);
      PlanSize(bank, entries[1..], parts[1..]);
    }
  }

  lemma PartPlace(parts: seq<seq<Slot>>, e: nat, i: nat)
    requires e < |parts| && i < |parts[e]|
    ensures |Concat(parts[..e])| + i < |Concat(parts)| && Concat(parts)[|Concat(parts[..e])| + i] == parts[e][i]
  {
    ConcatPlus(parts[..e], parts[e..]);
    assert parts == parts[..e] + parts[e..] && parts[e..][0] == parts[e];
  }

  // Slot i of entry e comes after all the slots of the entries before it.
  lemma SlotPlace(bank: Bank, entries: seq<Entry>, parts: seq<seq<Slot>>, e: nat, i: nat)
    requires ValidBank(bank) && IsPlan(bank, entries, parts) && forall x | x in entries :: |x.topic.levels| == x.topic.quantity
    requires e < |entries| && i < entries[e].topic.quantity
    ensures var p := SumQuantities(entries[..e]) + i;
            p < |Concat(parts)| && Concat(parts)[p].topicId == entries[e].topic.topicId
            && Concat(parts)[p].subtopicId == entries[e].topic.subtopicId && Concat(parts)[p].expectedLevel == entries[e].topic.levels[i]
  {
    assert entries[e] in entries;
    TopicPlanFacts(bank, entries[e].topic, entries[e].exclude, parts[e]);
    PlanSize(bank, entries[..e], parts[..e]);
    PartPlace(parts, e, i);
  }

  function CountTopics(dists: seq<CourseDist>): nat { if dists == [] then 0 else |dists[0].topics| + CountTopics(dists[1..]) }

  lemma {:induction false} EntryPlace(dists: seq<CourseDist>, a: nat, b: nat)
    requires a < |dists| && b < |dists[a].topics|
    ensures CountTopics(dists[..a]) + b < |Entries(dists)|
    ensures Entries(dists)[CountTopics(dists[..a]) + b] == Entry(dists[a].courseId, dists[a].topics[b], dists[a].exclude)
    decreases a
  {
    if a > 0 {
      EntryPlace(dists[1..], a - 1, b);
      assert dists[..a][1..] == dists[1..][..a - 1];
    }
  }

  /** Positions follow the request: course by course, topic by topic, one slot per level of the topic, in that order. */
  lemma PlanFollowsRequest(bank: Bank, dists: seq<CourseDist>, parts: seq<seq<Slot>>, a: nat, b: nat, i: nat)
    requires ValidBank(bank) && IsPlan(bank, Entries(dists), parts) && forall x | x in Entries(dists) :: |x.topic.levels| == x.topic.quantity
    requires a < |dists| && b < |dists[a].topics| && i < dists[a].topics[b].quantity
    ensures CountTopics(dists[..a]) + b < |Entries(dists)|
    ensures var p := SumQuantities(Entries(dists)[..CountTopics(dists[..a]) + b]) + i;
            p < |Concat(parts)| && Concat(parts)[p].topicId == dists[a].topics[b].topicId
            && Concat(parts)[p].subtopicId == dists[a].topics[b].subtopicId
            && i < |dists[a].topics[b].levels| && Concat(parts)[p].expectedLevel == dists[a].topics[b].levels[i]
  {
    EntryPlace(dists, a, b);
    assert Entries(dists)[CountTopics(dists[..a]) + b] in Entries(dists);
    SlotPlace(bank, Entries(dists), parts, CountTopics(dists[..a]) + b, i);
  }

  // ---------------------------------------------------------------- saved rows and what a worker loads

  datatype ReviewStatus = Found | Empty | Replaced | Removed

  datatype ReviewRow = ReviewRow(questionId: Option<Id>, topicId: Id, subtopicId: Id, position: nat, status: ReviewStatus)

  function SavedRows(slots: seq<Slot>): (r: seq<ReviewRow>)
    ensures |r| == |slots|
  {
    seq(|slots|, i requires 0 <= i < |slots| =>
      ReviewRow(slots[i].questionId, slots[i].topicId, slots[i].subtopicId, i + 1, if slots[i].questionId.Some? then Found else Empty))
  }

  datatype Extracted = Extracted(id: Id, topicId: Id, subtopicId: Id)

  /** The rows of one course (by its topics' course), in position order; `flat` is what the bank still serves. */
  function Loadable(rows: seq<ReviewRow>, courseOf: map<Id, Id>, courseId: Id, flat: set<Id>): (r: seq<ReviewRow>)
    ensures forall x | x in r :: x in rows && x.questionId.Some? && x.topicId in courseOf && courseOf[x.topicId] == courseId
  {
    if rows == [] then []
    else
      var rest := Loadable(rows[1..], courseOf, courseId, flat);
      var mrq := rows[0];
      if mrq.topicId in courseOf && courseOf[mrq.topicId] == courseId && !mrq.status.Empty? && !mrq.status.Removed?
         && mrq.questionId.Some? && mrq.questionId.value in flat
      then [mrq] + rest else rest
  }

  function ExtractedOf(rows: seq<ReviewRow>): (r: seq<Extracted>)
    requires forall x | x in rows :: x.questionId.Some?
    ensures |r| == |rows|
  {
    seq(|rows|, i requires 0 <= i < |rows| => Extracted(rows[i].questionId.value, rows[i].topicId, rows[i].subtopicId))
  }

  function ReplacedIds(rows: seq<ReviewRow>): set<Id> {
    set x | x in rows && x.status.Replaced? && x.questionId.Some? :: x.questionId.value
  }

  function CountOfCourse(rows: seq<ReviewRow>, courseOf: map<Id, Id>, courseId: Id): nat {
    if rows == [] then 0
    else (if rows[0].topicId in courseOf && courseOf[rows[0].topicId] == courseId then 1 else 0) + CountOfCourse(rows[1..], courseOf, courseId)
  }

  /** What reaches the PDF, what is reported missing, and which questions were replacements. */
  method LoadCourseQuestions(rows: seq<ReviewRow>, courseOf: map<Id, Id>, courseId: Id, flat: set<Id>)
      returns (allQuestions: seq<Extracted>, missing: nat, replacedIds: set<Id>)
    ensures allQuestions == ExtractedOf(Loadable(rows, courseOf, courseId, flat))
    ensures replacedIds == ReplacedIds(Loadable(rows, courseOf, courseId, flat))
    ensures |allQuestions| + missing == CountOfCourse(rows, courseOf, courseId)
  {
    allQuestions, missing, replacedIds := [], 0, {};
    ghost var l: seq<ReviewRow> := [];
    for k := 0 to |rows|
      invariant l + Loadable(rows[k..], courseOf, courseId, flat) == Loadable(rows, courseOf, courseId, flat)
      invariant (forall x | x in l :: x.questionId.Some?) && allQuestions == ExtractedOf(l)
      invariant replacedIds == ReplacedIds(l)
      invariant |allQuestions| + missing + CountOfCourse(rows[k..], courseOf, courseId) == CountOfCourse(rows, courseOf, courseId)
    {
      var mrq := rows[k];
      assert rows[k..][1..] == rows[k + 1..];
      if mrq.topicId in courseOf && courseOf[mrq.topicId] == courseId {
        if mrq.status.Empty? || mrq.status.Removed? {
          missing := missing + 1;
        } else if mrq.questionId.Some? && mrq.questionId.value in flat {
          LoadStep(l, mrq, Loadable(rows[k + 1..], courseOf, courseId, flat));
          allQuestions := allQuestions + [Extracted(mrq.questionId.value, mrq.topicId, mrq.subtopicId)];
          l := l + [mrq];
          if mrq.status.Replaced? {
            replacedIds := replacedIds + {mrq.questionId.value};
          }
        } else {
          missing := missing + 1;
        }
      }
    }
  }

  lemma LoadStep(l: seq<ReviewRow>, mrq: ReviewRow, tail: seq<ReviewRow>)
    ensures l + ([mrq] + tail) == (l + [mrq]) + tail
  {
  }

  function BuildUsageRecords(qs: seq<Extracted>, cycleId: Id, replacedIds: set<Id>): (r: seq<Usage>)
    ensures |r| == |qs|
  {
    seq(|qs|, i requires 0 <= i < |qs| => Usage(cycleId, qs[i].id, qs[i].topicId, qs[i].subtopicId, i + 1, qs[i].id in replacedIds))
  }

  // A row the worker prints: of the course, found or replaced, with a question the bank still serves.
  ghost predicate Printable(x: ReviewRow, courseOf: map<Id, Id>, courseId: Id, flat: set<Id>) {
    && x.topicId in courseOf && courseOf[x.topicId] == courseId && (x.status.Found? || x.status.Replaced?)
    && x.questionId.Some? && x.questionId.value in flat
  }

  /** What a worker loads of a course is exactly its printable rows, in the order of their positions. */
  lemma {:induction false} LoadsPrintableRows(rows: seq<ReviewRow>, courseOf: map<Id, Id>, courseId: Id, flat: set<Id>)
    ensures forall x :: x in Loadable(rows, courseOf, courseId, flat) <==> x in rows && Printable(x, courseOf, courseId, flat)
    ensures (forall i, j | 0 <= i < j < |rows| :: rows[i].position < rows[j].position) ==>
              forall i, j | 0 <= i < j < |Loadable(rows, courseOf, courseId, flat)| ::
                Loadable(rows, courseOf, courseId, flat)[i].position < Loadable(rows, courseOf, courseId, flat)[j].position
    decreases |rows|
  {
    if rows != [] {
      var rest := Loadable(rows[1..], courseOf, courseId, flat);
      LoadsPrintableRows(rows[1..], courseOf, courseId, flat);
      if forall i, j | 0 <= i < j < |rows| :: rows[i].position < rows[j].position {
        forall k | 0 <= k < |rest| ensures rows[0].position < rest[k].position {
          assert rest[k] in rest;
          var i :| 0 <= i < |rows[1..]| && rows[1..][i] == rest[k];
          assert rows[i + 1] == rest[k];
        }
      }
    }
  }

  /** Usage k of a course is its k-th printed row, at place k + 1, marked replaced exactly when a printed row of that question is. */
  lemma UsageOfRow(rows: seq<ReviewRow>, courseOf: map<Id, Id>, courseId: Id, flat: set<Id>, cycleId: Id, k: nat)
    requires k < |Loadable(rows, courseOf, courseId, flat)|
    ensures var l, us := Loadable(rows, courseOf, courseId, flat), CourseUsages(rows, courseOf, courseId, flat, cycleId);
            && |us| == |l| && us[k].cycleId == cycleId && l[k].questionId == Some(us[k].questionId)
            && us[k].topicId == l[k].topicId && us[k].subtopicId == l[k].subtopicId && us[k].positionInPdf == k + 1
            && (us[k].wasReplacement <==> exists x :: x in l && x.questionId == l[k].questionId && x.status.Replaced?)
  {
  }

  /** A freshly saved plan is printed whole: every planned question of the course that the bank still serves. */
  lemma PlannedIsPrinted(slots: seq<Slot>, courseOf: map<Id, Id>, courseId: Id, flat: set<Id>, q: Id)
    ensures (exists x :: x in Loadable(SavedRows(slots), courseOf, courseId, flat) && x.questionId == Some(q))
       <==> q in flat && exists i :: 0 <= i < |slots| && slots[i].questionId == Some(q) && slots[i].topicId in courseOf && courseOf[slots[i].topicId] == courseId
  {
    var rows := SavedRows(slots);
    LoadsPrintableRows(rows, courseOf, courseId, flat);
    if q in flat {
      if i :| 0 <= i < |slots| && slots[i].questionId == Some(q) && slots[i].topicId in courseOf && courseOf[slots[i].topicId] == courseId {
        assert rows[i] in rows && Printable(rows[i], courseOf, courseId, flat);
      }
    }
    if x :| x in Loadable(rows, courseOf, courseId, flat) && x.questionId == Some(q) {
      var i :| 0 <= i < |rows| && rows[i] == x;
      assert slots[i].questionId == Some(q);
    }
  }

  // The questions of one course among saved rows, whether the bank still serves them or not.
  ghost function Planned(rows: seq<ReviewRow>, courseOf: map<Id, Id>, courseId: Id): set<Id> {
    set x | x in rows && x.questionId.Some? && x.topicId in courseOf && courseOf[x.topicId] == courseId :: x.questionId.value
  }

  // Topics carry one level per question and belong to the course they are planned for.
  ghost predicate TopicsOfCourses(dists: seq<CourseDist>, courseOf: map<Id, Id>) {
    && (forall x | x in dists :: forall t | t in x.topics ::
          |t.levels| == t.quantity && t.topicId in courseOf && courseOf[t.topicId] == x.courseId)
    && (forall x, y | x in dists && y in dists :: x.courseId == y.courseId ==> x == y)
  }

  /** The saved questions of a course avoid that course's exclusions. */
  lemma PlannedAvoidsExcluded(bank: Bank, dists: seq<CourseDist>, parts: seq<seq<Slot>>, courseOf: map<Id, Id>, d: CourseDist)
    requires ValidBank(bank) && IsPlan(bank, Entries(dists), parts) && d in dists && TopicsOfCourses(dists, courseOf)
    ensures Planned(SavedRows(Concat(parts)), courseOf, d.courseId) !! d.exclude
  {
    var slots := Concat(parts);
    forall e | e in Entries(dists) ensures |e.topic.levels| == e.topic.quantity { EntryOrigin(dists, e); }
    forall q | q in Planned(SavedRows(slots), courseOf, d.courseId) ensures q !in d.exclude {
      var row :| row in SavedRows(slots) && row.questionId == Some(q) && row.topicId in courseOf && courseOf[row.topicId] == d.courseId;
      var k :| 0 <= k < |slots| && SavedRows(slots)[k] == row;
      PlanAvoidsExcluded(bank, Entries(dists), parts, k);
      var e :| e in Entries(dists) && e.topic.topicId == slots[k].topicId && slots[k].questionId.value !in e.exclude;
      EntryOrigin(dists, e);
    }
  }

  /** The usage records of an uncurated course. */
  function CourseUsages(rows: seq<ReviewRow>, courseOf: map<Id, Id>, courseId: Id, flat: set<Id>, cycleId: Id): (r: seq<Usage>)
    ensures forall u | u in r :: u.cycleId == cycleId && u.questionId in Planned(rows, courseOf, courseId)
  {
    var l := Loadable(rows, courseOf, courseId, flat);
    BuildUsageRecords(ExtractedOf(l), cycleId, ReplacedIds(l))
  }

  lemma {:induction false} EntryOrigin(dists: seq<CourseDist>, e: Entry)
    requires e in Entries(dists)
    ensures exists d | d in dists :: e.courseId == d.courseId && e.exclude == d.exclude && e.topic in d.topics
    decreases |dists|
  {
    if e in TopicEntries(dists[0], dists[0].topics) {
      assert dists[0] in dists;
    } else {
      EntryOrigin(dists[1..], e);
    }
  }

  // ---------------------------------------------------------------- from the quotas of a request to its rows

  // A course of a request: its template entry, its syllabus cells, its shuffled levels, its exclusions.
  datatype CourseInput = CourseInput(courseId: Id, template: Option<TemplateCourse>, cells: seq<Cell>, pool: seq<string>, exclude: set<Id>)
  {
    function Target(): nat { QuotaOf(template).target }
  }

  ghost predicate ValidInput(c: CourseInput) {
    c.cells != [] && QuotaOf(c.template).hard >= 0 && multiset(c.pool) == LevelMultiset(QuotaOf(c.template))
  }

  function DistOf(c: CourseInput): CourseDist {
    CourseDist(c.courseId, if c.cells == [] then [] else TopicsFrom(c.cells, c.Target(), c.pool, 0), c.exclude)
  }

  function DistsOf(inputs: seq<CourseInput>): seq<CourseDist> {
    if inputs == [] then [] else [DistOf(inputs[0])] + DistsOf(inputs[1..])
  }

  function SumTargets(inputs: seq<CourseInput>): nat {
    if inputs == [] then 0 else inputs[0].Target() + SumTargets(inputs[1..])
  }

  function CountSlots(slots: seq<Slot>, courseOf: map<Id, Id>, courseId: Id): nat {
    if slots == [] then 0
    else (if slots[0].topicId in courseOf && courseOf[slots[0].topicId] == courseId then 1 else 0) + CountSlots(slots[1..], courseOf, courseId)
  }

  // What the entries of one course ask for.
  function QuantityOf(entries: seq<Entry>, courseId: Id): nat {
    if entries == [] then 0
    else (if entries[0].courseId == courseId then entries[0].topic.quantity else 0) + QuantityOf(entries[1..], courseId)
  }

  lemma {:induction false} CountRows(rows: seq<ReviewRow>, slots: seq<Slot>, courseOf: map<Id, Id>, courseId: Id)
    requires |rows| == |slots| && forall i | 0 <= i < |rows| :: rows[i].topicId == slots[i].topicId
    ensures CountOfCourse(rows, courseOf, courseId) == CountSlots(slots, courseOf, courseId)
    decreases |rows|
  {
    if rows != [] { CountRows(rows[1..], slots[1..], courseOf, courseId); }
  }

  lemma {:induction false} CountSlotsPlus(a: seq<Slot>, b: seq<Slot>, courseOf: map<Id, Id>, courseId: Id)
    ensures CountSlots(a + b, courseOf, courseId) == CountSlots(a, courseOf, courseId) + CountSlots(b, courseOf, courseId)
    decreases |a|
  {
    if a == [] {
      assert a + b == b;
    } else {
      CountSlotsPlus(a[1..], b, courseOf, courseId);
      assert (a + b)[1..] == a[1..] + b;
    }
  }

  lemma {:induction false} CountPart(slots: seq<Slot>, topicId: Id, courseOf: map<Id, Id>, courseId: Id)
    requires topicId in courseOf && forall i | 0 <= i < |slots| :: slots[i].topicId == topicId
    ensures CountSlots(slots, courseOf, courseId) == if courseOf[topicId] == courseId then |slots| else 0
    decreases |slots|
  {
    if slots != [] { CountPart(slots[1..], topicId, courseOf, courseId); }
  }

  ghost predicate EntryBelongs(e: Entry, courseOf: map<Id, Id>) {
    |e.topic.levels| == e.topic.quantity && e.topic.topicId in courseOf && courseOf[e.topic.topicId] == e.courseId
  }

  lemma {:induction false} CountPlan(bank: Bank, entries: seq<Entry>, parts: seq<seq<Slot>>, courseOf: map<Id, Id>, courseId: Id)
    requires ValidBank(bank) && IsPlan(bank, entries, parts) && forall e | e in entries :: EntryBelongs(e, courseOf)
    ensures CountSlots(Concat(parts), courseOf, courseId) == QuantityOf(entries, courseId)
    decreases |parts|
  {
    if parts != [] {
      assert entries[0] in entries;
      TopicPlanFacts(bank, entries[0].topic, entries[0].exclude, parts[0]);
      CountPart(parts[0], entries[0].topic.topicId, courseOf, courseId);
      CountSlotsPlus(parts[0], Concat(parts[1..]), courseOf, courseId);
      CountPlan(bank, entries[1..], parts[1..], courseOf, courseId);
    }
  }

  lemma {:induction false} QuantityPlus(a: seq<Entry>, b: seq<Entry>, courseId: Id)
    ensures QuantityOf(a + b, courseId) == QuantityOf(a, courseId) + QuantityOf(b, courseId)
    ensures SumQuantities(a + b) == SumQuantities(a) + SumQuantities(b)
    decreases |a|
  {
    if a == [] {
      assert a + b == b;
    } else {
      QuantityPlus(a[1..], b, courseId);
      assert (a + b)[1..] == a[1..] + b;
    }
  }

  lemma {:induction false} EntriesQuantity(d: CourseDist, topics: seq<Topic>, courseId: Id)
    ensures SumQuantities(TopicEntries(d, topics)) == TotalQuantity(topics)
    ensures QuantityOf(TopicEntries(d, topics), courseId) == if d.courseId == courseId then TotalQuantity(topics) else 0
    decreases |topics|
  {
    if topics != [] {
      assert TopicEntries(d, topics)[1..] == TopicEntries(d, topics[1..]);
      EntriesQuantity(d, topics[1..], courseId);
    }
  }

  ghost predicate ValidRequest(inputs: seq<CourseInput>) {
    (forall c | c in inputs :: ValidInput(c)) && forall i, j | 0 <= i < j < |inputs| :: inputs[i].courseId != inputs[j].courseId
  }

  // One course in front of others adds what it asks for, to itself only.
  lemma OneMoreCourse(inputs: seq<CourseInput>, courseId: Id)
    requires inputs != [] && ValidInput(inputs[0])
    ensures var rest := Entries(DistsOf(inputs[1..]));
            && SumQuantities(Entries(DistsOf(inputs))) == inputs[0].Target() + SumQuantities(rest)
            && QuantityOf(Entries(DistsOf(inputs)), courseId) == (if inputs[0].courseId == courseId then inputs[0].Target() else 0) + QuantityOf(rest, courseId)
  {
    var c, d := inputs[0], DistOf(inputs[0]);
    assert DistsOf(inputs)[1..] == DistsOf(inputs[1..]);
    QuotaConserved(c.template, c.cells, c.pool);
    EntriesQuantity(d, d.topics, courseId);
    QuantityPlus(TopicEntries(d, d.topics), Entries(DistsOf(inputs[1..])), courseId);
  }

  lemma {:induction false} RequestTotal(inputs: seq<CourseInput>)
    requires forall c | c in inputs :: ValidInput(c)
    ensures SumQuantities(Entries(DistsOf(inputs))) == SumTargets(inputs)
    decreases |inputs|
  {
    if inputs != [] {
      assert ValidInput(inputs[0]);
      OneMoreCourse(inputs, 0);
      RequestTotal(inputs[1..]);
    }
  }

  lemma {:induction false} NotAsked(inputs: seq<CourseInput>, courseId: Id)
    requires forall c | c in inputs :: ValidInput(c) && c.courseId != courseId
    ensures QuantityOf(Entries(DistsOf(inputs)), courseId) == 0
    decreases |inputs|
  {
    if inputs != [] {
      assert inputs[0] in inputs;
      OneMoreCourse(inputs, courseId);
      NotAsked(inputs[1..], courseId);
    }
  }

  lemma RestApart(inputs: seq<CourseInput>)
    requires ValidRequest(inputs) && inputs != []
    ensures ValidRequest(inputs[1..]) && forall c | c in inputs[1..] :: c.courseId != inputs[0].courseId
  {
    var rest := inputs[1..];
    forall c | c in rest ensures c in inputs && c.courseId != inputs[0].courseId {
      var i :| 0 <= i < |rest| && rest[i] == c;
      assert inputs[i + 1] == c;
    }
  }

  lemma FirstCourseQuantity(inputs: seq<CourseInput>)
    requires ValidRequest(inputs) && inputs != []
    ensures QuantityOf(Entries(DistsOf(inputs)), inputs[0].courseId) == inputs[0].Target()
  {
    RestApart(inputs);
    assert inputs[0] in inputs;
    OneMoreCourse(inputs, inputs[0].courseId);
    NotAsked(inputs[1..], inputs[0].courseId);
  }

  // One course asks for its target, whatever the other courses do.
  lemma {:induction false} CourseQuantity(inputs: seq<CourseInput>, k: nat)
    requires ValidRequest(inputs) && k < |inputs|
    ensures QuantityOf(Entries(DistsOf(inputs)), inputs[k].courseId) == inputs[k].Target()
    decreases |inputs|
  {
    if k == 0 {
      FirstCourseQuantity(inputs);
    } else {
      var c := inputs[k];
      RestApart(inputs);
      assert inputs[0] in inputs && inputs[0].courseId != c.courseId && inputs[1..][k - 1] == c;
      CourseQuantity(inputs[1..], k - 1);
      OneMoreCourse(inputs, c.courseId);
    }
  }

  lemma EntriesBelong(dists: seq<CourseDist>, courseOf: map<Id, Id>)
    requires TopicsOfCourses(dists, courseOf)
    ensures forall e | e in Entries(dists) :: EntryBelongs(e, courseOf)
  {
    forall e | e in Entries(dists) ensures EntryBelongs(e, courseOf) { EntryOrigin(dists, e); }
  }

  lemma CourseCount(bank: Bank, inputs: seq<CourseInput>, slots: seq<Slot>, parts: seq<seq<Slot>>, courseOf: map<Id, Id>, c: CourseInput)
    requires ValidBank(bank) && c in inputs && ValidRequest(inputs)
    requires slots == Concat(parts) && IsPlan(bank, Entries(DistsOf(inputs)), parts) && TopicsOfCourses(DistsOf(inputs), courseOf)
    ensures CountOfCourse(SavedRows(slots), courseOf, c.courseId) == c.Target()
  {
    EntriesBelong(DistsOf(inputs), courseOf);
    CountRows(SavedRows(slots), slots, courseOf, c.courseId);
    CountPlan(bank, Entries(DistsOf(inputs)), parts, courseOf, c.courseId);
    var k :| 0 <= k < |inputs| && inputs[k] == c;
    CourseQuantity(inputs, k);
  }

  lemma RequestCount(bank: Bank, inputs: seq<CourseInput>, parts: seq<seq<Slot>>, courseOf: map<Id, Id>)
    requires ValidBank(bank) && ValidRequest(inputs)
    requires IsPlan(bank, Entries(DistsOf(inputs)), parts) && TopicsOfCourses(DistsOf(inputs), courseOf)
    ensures |Concat(parts)| == SumTargets(inputs)
  {
    EntriesBelong(DistsOf(inputs), courseOf);
    forall e | e in Entries(DistsOf(inputs)) ensures |e.topic.levels| == e.topic.quantity { assert EntryBelongs(e, courseOf); }
    PlanSize(bank, Entries(DistsOf(inputs)), parts);
    RequestTotal(inputs);
  }

  /**
   From quotas to rows, for a request of any number of courses: every course saves exactly its target of
   slots, and the positions of the whole request are 1 to the sum of the targets, in order.
   */
  lemma RequestSlotCounts(bank: Bank, inputs: seq<CourseInput>, slots: seq<Slot>, courseOf: map<Id, Id>)
    requires ValidBank(bank) && ValidRequest(inputs)
    requires IsReviewPlan(bank, DistsOf(inputs), slots) && TopicsOfCourses(DistsOf(inputs), courseOf)
    ensures forall c | c in inputs :: CountOfCourse(SavedRows(slots), courseOf, c.courseId) == c.Target()
    ensures |SavedRows(slots)| == SumTargets(inputs)
    ensures forall i | 0 <= i < SumTargets(inputs) :: SavedRows(slots)[i].position == i + 1
  {
    var parts :| slots == Concat(parts) && IsPlan(bank, Entries(DistsOf(inputs)), parts);
    RequestCount(bank, inputs, parts, courseOf);
    forall c | c in inputs ensures CountOfCourse(SavedRows(slots), courseOf, c.courseId) == c.Target() {
      CourseCount(bank, inputs, slots, parts, courseOf, c);
    }
  }
}
