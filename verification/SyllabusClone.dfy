/**
 Cloning a syllabus onto another, and a whole cycle of them, in one tenant transaction; and what every
 run of edits and clones keeps.
 */
module SyllabusClone {
  import opened Wrappers
  import opened Syllabus

  // A material template of a cycle; names are compared trimmed and in lower case, and `name` is that form.
  datatype Template = Template(id: Id, name: string)

  // What the academic calendar answers: the templates of a cycle, oldest first, and its visible weeks.
  datatype Calendar = Calendar(templates: map<Id, seq<Template>>, activeWeeks: map<Id, seq<int>>)

  function TemplatesOf(cal: Calendar, cycle: Id): seq<Template> { if cycle in cal.templates then cal.templates[cycle] else [] }

  function ActiveWeeksOf(cal: Calendar, cycle: Id): seq<int> { if cycle in cal.activeWeeks then cal.activeWeeks[cycle] else [] }

  function FindTemplate(list: seq<Template>, id: Id): (found: Option<Template>)
    ensures found.Some? ==> found.value in list && found.value.id == id
    ensures found.None? ==> forall t | t in list :: t.id != id
  {
    if list == [] then None else if list[0].id == id then Some(list[0]) else FindTemplate(list[1..], id)
  }

  function FindNamed(list: seq<Template>, name: string): (found: Option<Template>)
    ensures found.Some? ==> found.value in list && found.value.name == name
    ensures found.None? ==> forall t | t in list :: t.name != name
  {
    if list == [] then None else if list[0].name == name then Some(list[0]) else FindNamed(list[1..], name)
  }

  function FindActive(headers: seq<Header>, id: Id): (found: Option<Header>)
    ensures found.Some? ==> found.value in headers && found.value.id == id && found.value.active
    ensures found.None? ==> forall h | h in headers :: !(h.id == id && h.active)
  {
    if headers == [] then None else if headers[0].id == id && headers[0].active then Some(headers[0]) else FindActive(headers[1..], id)
  }

  function OfSyllabus(cells: seq<Cell>, syllabus: Id): (own: seq<Cell>)
    ensures forall c | c in own :: c in cells && c.syllabus == syllabus
  {
    if cells == [] then [] else
    var before, last := OfSyllabus(cells[..|cells| - 1], syllabus), cells[|cells| - 1];
    if last.syllabus == syllabus then before + [last] else before
  }

  function Without(cells: seq<Cell>, syllabus: Id): (others: seq<Cell>)
    ensures forall c | c in others :: c in cells && c.syllabus != syllabus
  {
    if cells == [] then [] else
    var before, last := Without(cells[..|cells| - 1], syllabus), cells[|cells| - 1];
    if last.syllabus != syllabus then before + [last] else before
  }

  // ---------------------------------------------------------------- templates from cycle to cycle

  // Where a source template goes: None drops the cells that use it.
  type Mapping = map<Id, Option<Id>>

  function Referenced(source: Header, from: seq<Cell>): seq<Id> {
    (if source.template.Some? then [source.template.value] else []) + CellTemplates(from)
  }

  function CellTemplates(from: seq<Cell>): seq<Id> {
    if from == [] then [] else
    CellTemplates(from[..|from| - 1]) + if from[|from| - 1].template.Some? then [from[|from| - 1].template.value] else []
  }

  // The template of the same name in the target cycle, for one the source cycle still lists.
  function Match(sources: seq<Template>, targets: seq<Template>, id: Id): Option<Template> {
    match FindTemplate(sources, id)
    case None => None
    case Some(t) => FindNamed(targets, t.name)
  }

  predicate Missing(sources: seq<Template>, targets: seq<Template>, id: Id) {
    FindTemplate(sources, id).Some? && Match(sources, targets, id).None?
  }

  function MapTemplates(cal: Calendar, source: Header, cycle: Id, from: seq<Cell>): Result<Mapping, Error> {
    var referenced := Referenced(source, from);
    var sources, targets := TemplatesOf(cal, source.cycle), TemplatesOf(cal, cycle);
    if source.cycle == cycle then Success(map[])
    else if targets == [] then Success(map id | id in referenced :: None)
    else if exists id | id in referenced :: Missing(sources, targets, id) then Failure(MissingTemplates)
    else Success(map id | id in referenced && Match(sources, targets, id).Some? :: Some(Match(sources, targets, id).value.id))
  }

  // Some(t): the cell is copied under template t. A template without a destination drops it.
  function Retarget(c: Cell, weeks: seq<int>, same: bool, mapping: Mapping): Option<Option<Id>> {
    if c.week !in weeks then None
    else if c.template.None? then Some(None)
    else if c.template.value in mapping then (if mapping[c.template.value].Some? then Some(mapping[c.template.value]) else None)
    else if same then Some(c.template)
    else None
  }

  function Copied(from: seq<Cell>, target: Id, weeks: seq<int>, same: bool, mapping: Mapping, nextId: Id): seq<Cell> {
    if from == [] then [] else
    var before := Copied(from[..|from| - 1], target, weeks, same, mapping, nextId);
    var c := from[|from| - 1];
    match Retarget(c, weeks, same, mapping)
    case None => before
    case Some(t) => before + [c.(id := nextId + |before|, syllabus := target, template := t)]
  }

  predicate OverLimit(batch: seq<Cell>, target: Id) {
    exists i | 0 <= i < |batch| :: WeekSum(batch, target, batch[i].week, None) > WEEKLY_QUESTION_LIMIT
  }

  predicate Collides(batch: seq<Cell>) { exists i, j | 0 <= i < j < |batch| :: SameCell(batch[i], batch[j]) }

  // The default template a clone leaves the target with.
  function DefaultTemplate(source: Header, target: Header, mapping: Mapping): Option<Id> {
    if source.template.None? then None
    else if source.cycle == target.cycle then source.template
    else if source.template.value in mapping then mapping[source.template.value]
    else None
  }

  function SetTemplate(headers: seq<Header>, id: Id, template: Option<Id>): (after: seq<Header>)
    ensures |after| == |headers|
    ensures forall i | 0 <= i < |headers| ::
              after[i] == if headers[i].id == id && template.Some? then headers[i].(template := template) else headers[i]
  {
    if headers == [] then [] else
    [if headers[0].id == id && template.Some? then headers[0].(template := template) else headers[0]] + SetTemplate(headers[1..], id, template)
  }

  // What a clone has read before it writes anything.
  datatype Plan = Plan(target: Header, source: Header, weeks: seq<int>, mapping: Mapping)

  function PlanClone(db: Db, cal: Calendar, target: Id, source: Id, targetWeeks: Option<seq<int>>): (plan: Result<Plan, Error>)
    ensures plan.Success? ==> FindActive(db.headers, target) == Some(plan.value.target) && FindActive(db.headers, source) == Some(plan.value.source)
    ensures plan.Success? ==> plan.value.target.id == target && plan.value.source.id == source
    ensures plan.Success? ==> plan.value.weeks == if targetWeeks.Some? then targetWeeks.value else ActiveWeeksOf(cal, plan.value.target.cycle)
    ensures plan.Success? && SameCycle(plan.value) ==> plan.value.mapping == map[]
  {
    var t, s := FindActive(db.headers, target), FindActive(db.headers, source);
    if t.None? then Failure(NoTarget)
    else if s.None? then Failure(NoSource)
    else
      var weeks := if targetWeeks.Some? then targetWeeks.value else ActiveWeeksOf(cal, t.value.cycle);
      match MapTemplates(cal, s.value, t.value.cycle, OfSyllabus(db.cells, source))
      case Failure(e) => Failure(e)
      case Success(mapping) => Success(Plan(t.value, s.value, weeks, mapping))
  }

  predicate SameCycle(plan: Plan) { plan.source.cycle == plan.target.cycle }

  function Batch(db: Db, plan: Plan): seq<Cell> {
    Copied(OfSyllabus(db.cells, plan.source.id), plan.target.id, plan.weeks, SameCycle(plan), plan.mapping, db.nextId)
  }

  function Write(db: Db, plan: Plan): Db {
    Db(SetTemplate(db.headers, plan.target.id, DefaultTemplate(plan.source, plan.target, plan.mapping)),
       Without(db.cells, plan.target.id) + Batch(db, plan), db.nextId + |Batch(db, plan)|)
  }

  function Clone(db: Db, cal: Calendar, target: Id, source: Id, targetWeeks: Option<seq<int>>): Result<Db, Error> {
    match PlanClone(db, cal, target, source, targetWeeks)
    case Failure(e) => Failure(e)
    case Success(plan) =>
      if OverLimit(Batch(db, plan), target) then Failure(WeekFull)
      else if Collides(Batch(db, plan)) then Failure(DuplicateCell)
      else Success(Write(db, plan))
  }

  // A clone that goes through writes what it planned.
  lemma CloneIsWrite(db: Db, cal: Calendar, target: Id, source: Id, targetWeeks: Option<seq<int>>) returns (plan: Plan)
    requires Clone(db, cal, target, source, targetWeeks).Success?
    ensures PlanClone(db, cal, target, source, targetWeeks) == Success(plan) && plan.target.id == target && plan.source.id == source
    ensures Clone(db, cal, target, source, targetWeeks).value == Write(db, plan) && !Collides(Batch(db, plan))
  {
    plan := PlanClone(db, cal, target, source, targetWeeks).value;
  }

  // ---------------------------------------------------------------- what a copy holds

  lemma {:induction false} SumOfOwn(cells: seq<Cell>, syllabus: Id, week: int)
    ensures WeekSum(OfSyllabus(cells, syllabus), syllabus, week, None) == WeekSum(cells, syllabus, week, None)
  {
    if cells != [] {
      var n := |cells| - 1;
      SumOfOwn(cells[..n], syllabus, week);
      assert (OfSyllabus(cells[..n], syllabus) + [cells[n]])[..|OfSyllabus(cells[..n], syllabus)|] == OfSyllabus(cells[..n], syllabus);
    }
  }

  lemma {:induction false} SumOfOthers(cells: seq<Cell>, syllabus: Id, other: Id, week: int)
    ensures WeekSum(Without(cells, syllabus), other, week, None) == if other == syllabus then 0 else WeekSum(cells, other, week, None)
  {
    if cells != [] {
      var n := |cells| - 1;
      SumOfOthers(cells[..n], syllabus, other, week);
      assert (Without(cells[..n], syllabus) + [cells[n]])[..|Without(cells[..n], syllabus)|] == Without(cells[..n], syllabus);
    }
  }

  // Which of the source's questions survive the copy.
  function KeptSum(from: seq<Cell>, weeks: seq<int>, same: bool, mapping: Mapping, week: int): int {
    if from == [] then 0 else
    var c := from[|from| - 1];
    KeptSum(from[..|from| - 1], weeks, same, mapping, week)
      + if c.week == week && Retarget(c, weeks, same, mapping).Some? then c.count else 0
  }

  lemma {:induction false} SumOfCopy(from: seq<Cell>, target: Id, weeks: seq<int>, same: bool, mapping: Mapping, nextId: Id, week: int)
    ensures WeekSum(Copied(from, target, weeks, same, mapping, nextId), target, week, None) == KeptSum(from, weeks, same, mapping, week)
  {
    if from != [] {
      var n := |from| - 1;
      SumOfCopy(from[..n], target, weeks, same, mapping, nextId, week);
      var before := Copied(from[..n], target, weeks, same, mapping, nextId);
      if Retarget(from[n], weeks, same, mapping).Some? {
        var copy := from[n].(id := nextId + |before|, syllabus := target, template := Retarget(from[n], weeks, same, mapping).value);
        assert (before + [copy])[..|before|] == before;
      }
    }
  }

  lemma {:induction false} KeptIsAtMostAll(from: seq<Cell>, source: Id, weeks: seq<int>, same: bool, mapping: Mapping, week: int)
    requires forall c | c in from :: c.syllabus == source && c.count >= 0
    ensures KeptSum(from, weeks, same, mapping, week) <= WeekSum(from, source, week, None)
    ensures same && mapping == map[] && week in weeks ==> KeptSum(from, weeks, same, mapping, week) == WeekSum(from, source, week, None)
    ensures week !in weeks ==> KeptSum(from, weeks, same, mapping, week) == 0
  {
    if from != [] {
      assert from[|from| - 1] in from;
      KeptIsAtMostAll(from[..|from| - 1], source, weeks, same, mapping, week);
    }
  }

  lemma BatchSum(db: Db, plan: Plan, week: int)
    requires Inv(db)
    ensures var copy := WeekSum(Batch(db, plan), plan.target.id, week, None);
            && copy <= WeekSum(db.cells, plan.source.id, week, None)
            && (SameCycle(plan) && plan.mapping == map[] && week in plan.weeks ==> copy == WeekSum(db.cells, plan.source.id, week, None))
            && (week !in plan.weeks ==> copy == 0)
  {
    var from := OfSyllabus(db.cells, plan.source.id);
    SumOfCopy(from, plan.target.id, plan.weeks, SameCycle(plan), plan.mapping, db.nextId, week);
    KeptIsAtMostAll(from, plan.source.id, plan.weeks, SameCycle(plan), plan.mapping, week);
    SumOfOwn(db.cells, plan.source.id, week);
  }

  /** The limit on the clone path never bites: a source within the cap is never refused for the cap. */
  lemma CloneIsNeverOverLimit(db: Db, cal: Calendar, target: Id, source: Id, targetWeeks: Option<seq<int>>)
    requires Inv(db)
    ensures Clone(db, cal, target, source, targetWeeks) != Failure(WeekFull)
  {
    var planned := PlanClone(db, cal, target, source, targetWeeks);
    if planned.Success? {
      var batch := Batch(db, planned.value);
      forall i | 0 <= i < |batch| ensures WeekSum(batch, target, batch[i].week, None) <= WEEKLY_QUESTION_LIMIT {
        BatchSum(db, planned.value, batch[i].week);
        assert WeekSum(db.cells, source, batch[i].week, None) <= WEEKLY_QUESTION_LIMIT;
      }
    }
  }

  // ---------------------------------------------------------------- what a clone keeps

  lemma {:induction false} CopiedFacts(from: seq<Cell>, target: Id, weeks: seq<int>, same: bool, mapping: Mapping, nextId: Id, i: nat)
    requires (forall c | c in from :: c.count >= 1) && i < |Copied(from, target, weeks, same, mapping, nextId)|
    ensures var copy := Copied(from, target, weeks, same, mapping, nextId)[i];
            copy.id == nextId + i && copy.syllabus == target && copy.count >= 1
  {
    var n := |from| - 1;
    assert from[n] in from;
    if i < |Copied(from[..n], target, weeks, same, mapping, nextId)| {
      CopiedFacts(from[..n], target, weeks, same, mapping, nextId, i);
    }
  }

  lemma BatchFacts(db: Db, plan: Plan)
    requires Inv(db)
    ensures forall i | 0 <= i < |Batch(db, plan)| ::
              Batch(db, plan)[i].id == db.nextId + i && Batch(db, plan)[i].syllabus == plan.target.id && Batch(db, plan)[i].count >= 1
  {
    forall i | 0 <= i < |Batch(db, plan)|
      ensures Batch(db, plan)[i].id == db.nextId + i && Batch(db, plan)[i].syllabus == plan.target.id && Batch(db, plan)[i].count >= 1
    {
      CopiedFacts(OfSyllabus(db.cells, plan.source.id), plan.target.id, plan.weeks, SameCycle(plan), plan.mapping, db.nextId, i);
    }
  }

  lemma {:induction false} OthersStayDistinct(cells: seq<Cell>, syllabus: Id)
    requires DistinctCells(cells)
    ensures DistinctCells(Without(cells, syllabus))
  {
    if cells != [] {
      var n := |cells| - 1;
      OthersStayDistinct(cells[..n], syllabus);
      var others := Without(cells[..n], syllabus);
      forall i | 0 <= i < |others| ensures others[i].id != cells[n].id && !SameCell(others[i], cells[n]) {
        assert others[i] in cells[..n];
      }
    }
  }

  lemma WrittenCellsDistinct(db: Db, plan: Plan)
    requires Inv(db) && !Collides(Batch(db, plan))
    ensures DistinctCells(Write(db, plan).cells) && CellsOk(Write(db, plan).cells, Write(db, plan).nextId)
  {
    BatchFacts(db, plan);
    OthersStayDistinct(db.cells, plan.target.id);
    var others, batch := Without(db.cells, plan.target.id), Batch(db, plan);
    forall i | 0 <= i < |others| ensures others[i].id < db.nextId && 1 <= others[i].count && others[i].syllabus != plan.target.id {
      assert others[i] in others;
    }
  }

  lemma WrittenSum(db: Db, plan: Plan, syllabus: Id, week: int)
    requires Inv(db)
    ensures WeekSum(Write(db, plan).cells, syllabus, week, None)
         == if syllabus == plan.target.id then WeekSum(Batch(db, plan), syllabus, week, None) else WeekSum(db.cells, syllabus, week, None)
  {
    SumOfPlus(Without(db.cells, plan.target.id), Batch(db, plan), syllabus, week, None);
    SumOfOthers(db.cells, plan.target.id, syllabus, week);
    if syllabus != plan.target.id {
      BatchFacts(db, plan);
      SumElsewhere(Batch(db, plan), plan.target.id, syllabus, week);
    }
  }

  lemma {:induction false} SumElsewhere(batch: seq<Cell>, target: Id, syllabus: Id, week: int)
    requires syllabus != target && forall i | 0 <= i < |batch| :: batch[i].syllabus == target
    ensures WeekSum(batch, syllabus, week, None) == 0
  {
    if batch != [] { SumElsewhere(batch[..|batch| - 1], target, syllabus, week); }
  }

  lemma WriteKeepsInv(db: Db, plan: Plan)
    requires Inv(db) && !Collides(Batch(db, plan))
    ensures Inv(Write(db, plan))
  {
    WrittenCellsDistinct(db, plan);
    var after := Write(db, plan).cells;
    forall syllabus, week ensures WeekSum(after, syllabus, week, None) <= WEEKLY_QUESTION_LIMIT {
      WrittenSum(db, plan, syllabus, week);
      BatchSum(db, plan, week);
      assert WeekSum(db.cells, syllabus, week, None) <= WEEKLY_QUESTION_LIMIT;
      assert WeekSum(db.cells, plan.source.id, week, None) <= WEEKLY_QUESTION_LIMIT;
    }
  }

  lemma CloneKeepsInv(db: Db, cal: Calendar, target: Id, source: Id, targetWeeks: Option<seq<int>>)
    requires Inv(db) && Clone(db, cal, target, source, targetWeeks).Success?
    ensures Inv(Clone(db, cal, target, source, targetWeeks).value)
  {
    WriteKeepsInv(db, PlanClone(db, cal, target, source, targetWeeks).value);
  }

  lemma WriteWeekSums(db: Db, plan: Plan, syllabus: Id, week: int)
    requires Inv(db)
    ensures var now := WeekSum(Write(db, plan).cells, syllabus, week, None);
            && (syllabus != plan.target.id ==> now == WeekSum(db.cells, syllabus, week, None))
            && (syllabus == plan.target.id && week !in plan.weeks ==> now == 0)
            && (syllabus == plan.target.id && week in plan.weeks && SameCycle(plan) && plan.mapping == map[] ==>
                  now == WeekSum(db.cells, plan.source.id, week, None))
  {
    BatchSum(db, plan, week);
    WrittenSum(db, plan, syllabus, week);
  }

  /**
   What a clone does to the weeks: other syllabuses keep theirs, hidden weeks of the target end empty,
   and within one cycle every visible week gets exactly the source's questions.
   */
  lemma CloneWeekSums(db: Db, cal: Calendar, target: Id, source: Id, targetWeeks: Option<seq<int>>, after: Db, plan: Plan, week: int)
    requires Inv(db) && Clone(db, cal, target, source, targetWeeks) == Success(after)
    requires PlanClone(db, cal, target, source, targetWeeks) == Success(plan)
    ensures forall other | other != target :: WeekSum(after.cells, other, week, None) == WeekSum(db.cells, other, week, None)
    ensures week !in plan.weeks ==> WeekSum(after.cells, target, week, None) == 0
    ensures week in plan.weeks && SameCycle(plan) ==> WeekSum(after.cells, target, week, None) == WeekSum(db.cells, source, week, None)
  {
    var p := CloneIsWrite(db, cal, target, source, targetWeeks);
    WriteWeekSums(db, plan, target, week);
    forall other | other != target ensures WeekSum(after.cells, other, week, None) == WeekSum(db.cells, other, week, None) {
      WriteWeekSums(db, plan, other, week);
    }
  }

  // ---------------------------------------------------------------- which cells, and when it succeeds

  // `copy` is source cell `c` in its new place.
  ghost predicate IsCopy(c: Cell, copy: Cell, target: Id, weeks: seq<int>, same: bool, mapping: Mapping) {
    && Retarget(c, weeks, same, mapping) == Some(copy.template)
    && copy.syllabus == target && copy.week == c.week && copy.topic == c.topic && copy.subtopic == c.subtopic && copy.count == c.count
  }

  // Where source cell k lands: after the copies of the cells before it.
  lemma {:induction false} CopyAt(from: seq<Cell>, target: Id, weeks: seq<int>, same: bool, mapping: Mapping, nextId: Id, k: nat)
    requires k < |from| && Retarget(from[k], weeks, same, mapping).Some?
    ensures var p := |Copied(from[..k], target, weeks, same, mapping, nextId)|;
            var batch := Copied(from, target, weeks, same, mapping, nextId);
            p < |batch| && IsCopy(from[k], batch[p], target, weeks, same, mapping)
  {
    var n := |from| - 1;
    if k < n {
      assert from[..n][..k] == from[..k];
      CopyAt(from[..n], target, weeks, same, mapping, nextId, k);
    }
  }

  lemma {:induction false} CopyOf(from: seq<Cell>, target: Id, weeks: seq<int>, same: bool, mapping: Mapping, nextId: Id, p: nat) returns (k: nat)
    requires p < |Copied(from, target, weeks, same, mapping, nextId)|
    ensures k < |from| && IsCopy(from[k], Copied(from, target, weeks, same, mapping, nextId)[p], target, weeks, same, mapping)
    ensures p == |Copied(from[..k], target, weeks, same, mapping, nextId)|
  {
    var n := |from| - 1;
    if p < |Copied(from[..n], target, weeks, same, mapping, nextId)| {
      k := CopyOf(from[..n], target, weeks, same, mapping, nextId, p);
      assert from[..n][..k] == from[..k];
    } else {
      k := n;
    }
  }

  lemma {:induction false} CopiesGrow(from: seq<Cell>, target: Id, weeks: seq<int>, same: bool, mapping: Mapping, nextId: Id, i: nat, j: nat)
    requires i < j <= |from| && Retarget(from[i], weeks, same, mapping).Some?
    ensures |Copied(from[..i], target, weeks, same, mapping, nextId)| < |Copied(from[..j], target, weeks, same, mapping, nextId)|
  {
    assert from[..j][..j - 1] == from[..j - 1] && from[..j][j - 1] == from[j - 1];
    if i < j - 1 { CopiesGrow(from, target, weeks, same, mapping, nextId, i, j - 1); }
  }

  /** Nothing is lost or made up: the target's cells after a clone are exactly the copies of the kept source cells. */
  lemma CloneCopiesCells(db: Db, cal: Calendar, target: Id, source: Id, targetWeeks: Option<seq<int>>, after: Db, plan: Plan)
    requires Clone(db, cal, target, source, targetWeeks) == Success(after)
    requires PlanClone(db, cal, target, source, targetWeeks) == Success(plan)
    ensures forall c | c in db.cells && c.syllabus == source && Retarget(c, plan.weeks, SameCycle(plan), plan.mapping).Some? ::
              exists copy :: copy in after.cells && IsCopy(c, copy, target, plan.weeks, SameCycle(plan), plan.mapping)
    ensures forall copy | copy in after.cells && copy.syllabus == target ::
              exists c :: c in db.cells && c.syllabus == source && IsCopy(c, copy, target, plan.weeks, SameCycle(plan), plan.mapping)
  {
    var from, batch := OfSyllabus(db.cells, source), Batch(db, plan);
    forall c | c in db.cells && c.syllabus == source && Retarget(c, plan.weeks, SameCycle(plan), plan.mapping).Some?
      ensures exists copy :: copy in after.cells && IsCopy(c, copy, target, plan.weeks, SameCycle(plan), plan.mapping)
    {
      OwnIsKept(db.cells, source, c);
      var k :| 0 <= k < |from| && from[k] == c;
      CopyAt(from, target, plan.weeks, SameCycle(plan), plan.mapping, db.nextId, k);
      var p := |Copied(from[..k], target, plan.weeks, SameCycle(plan), plan.mapping, db.nextId)|;
      assert batch[p] in after.cells;
    }
    forall copy | copy in after.cells && copy.syllabus == target
      ensures exists c :: c in db.cells && c.syllabus == source && IsCopy(c, copy, target, plan.weeks, SameCycle(plan), plan.mapping)
    {
      assert copy in batch;
      var p :| 0 <= p < |batch| && batch[p] == copy;
      var k := CopyOf(from, target, plan.weeks, SameCycle(plan), plan.mapping, db.nextId, p);
      assert from[k] in from;
    }
  }

  // ---------------------------------------------------------------- in the words of the tables

  // Template k of a list is the first of its name.
  ghost predicate FirstNamed(list: seq<Template>, k: nat, name: string) {
    k < |list| && list[k].name == name && forall j | 0 <= j < k :: list[j].name != name
  }

  // Across cycles, a template the target cycle has nothing for, or its own cycle no longer lists.
  ghost predicate Nowhere(cal: Calendar, template: Option<Id>, from: Id, to: Id) {
    from != to && template.Some? && (TemplatesOf(cal, to) == [] || forall t | t in TemplatesOf(cal, from) :: t.id != template.value)
  }

  // `destination` is where a clone from cycle `from` to cycle `to` puts a template that has one: none for none,
  // the same within a cycle, and else the target cycle's first template of the same name.
  ghost predicate GoesUnder(cal: Calendar, template: Option<Id>, from: Id, to: Id, destination: Option<Id>) {
    if template.None? then destination == None
    else if from == to then destination == template
    else exists t, k: nat :: FirstWithId(TemplatesOf(cal, from), t, template.value)
                             && FirstNamed(TemplatesOf(cal, to), k, t.name) && destination == Some(TemplatesOf(cal, to)[k].id)
  }

  ghost predicate LeftBehind(cal: Calendar, c: Cell, from: Id, to: Id, weeks: seq<int>) {
    c.week !in weeks || Nowhere(cal, c.template, from, to)
  }

  ghost predicate FirstWithId(list: seq<Template>, t: Template, id: Id) {
    exists k :: 0 <= k < |list| && list[k] == t && t.id == id && forall j | 0 <= j < k :: list[j].id != id
  }

  ghost predicate IsTwin(cal: Calendar, c: Cell, copy: Cell, target: Id, from: Id, to: Id) {
    && copy.syllabus == target && copy.week == c.week && copy.topic == c.topic && copy.subtopic == c.subtopic && copy.count == c.count
    && GoesUnder(cal, c.template, from, to, copy.template)
  }

  lemma {:induction false} NamedIsFirst(list: seq<Template>, name: string)
    ensures FindNamed(list, name).Some? ==> exists k: nat :: FirstNamed(list, k, name) && FindNamed(list, name) == Some(list[k])
  {
    if list != [] && list[0].name == name {
      assert FirstNamed(list, 0, name);
    } else if list != [] {
      NamedIsFirst(list[1..], name);
      if k: nat :| FirstNamed(list[1..], k, name) && FindNamed(list[1..], name) == Some(list[1..][k]) {
        assert FirstNamed(list, k + 1, name) by {
          forall j | 0 <= j < k + 1 ensures list[j].name != name { if j > 0 { assert list[1..][j - 1] == list[j]; } }
        }
      }
    }
  }

  lemma {:induction false} FoundIsFirst(list: seq<Template>, id: Id)
    ensures FindTemplate(list, id).Some? ==> FirstWithId(list, FindTemplate(list, id).value, id)
  {
    if list != [] && list[0].id != id {
      FoundIsFirst(list[1..], id);
      if FindTemplate(list, id).Some? {
        var t := FindTemplate(list, id).value;
        var k :| 0 <= k < |list[1..]| && list[1..][k] == t && forall j | 0 <= j < k :: list[1..][j].id != id;
        assert list[k + 1] == t;
        forall j | 0 <= j < k + 1 ensures list[j].id != id { if j > 0 { assert list[1..][j - 1] == list[j]; } }
      }
    }
  }

  // What the clone's mapping does to a template the source refers to.
  lemma MappingMeans(cal: Calendar, plan: Plan, from: seq<Cell>, id: Id)
    requires MapTemplates(cal, plan.source, plan.target.cycle, from) == Success(plan.mapping)
    requires !SameCycle(plan) && id in Referenced(plan.source, from)
    ensures var mapped := if id in plan.mapping then plan.mapping[id] else None;
            && (mapped.None? <==> Nowhere(cal, Some(id), plan.source.cycle, plan.target.cycle))
            && (mapped.Some? ==> GoesUnder(cal, Some(id), plan.source.cycle, plan.target.cycle, mapped))
  {
    var sources, targets := TemplatesOf(cal, plan.source.cycle), TemplatesOf(cal, plan.target.cycle);
    FoundIsFirst(sources, id);
    if targets != [] && FindTemplate(sources, id).Some? {
      var t := FindTemplate(sources, id).value;
      NamedIsFirst(targets, t.name);
      assert !Missing(sources, targets, id);
      var k: nat :| FirstNamed(targets, k, t.name) && FindNamed(targets, t.name) == Some(targets[k]);
    }
  }

  lemma RetargetMeans(cal: Calendar, plan: Plan, from: seq<Cell>, c: Cell)
    requires MapTemplates(cal, plan.source, plan.target.cycle, from) == Success(plan.mapping) && c in from
    ensures var r := Retarget(c, plan.weeks, SameCycle(plan), plan.mapping);
            && (r.None? <==> LeftBehind(cal, c, plan.source.cycle, plan.target.cycle, plan.weeks))
            && (r.Some? ==> GoesUnder(cal, c.template, plan.source.cycle, plan.target.cycle, r.value))
  {
    if c.template.Some? && !SameCycle(plan) {
      ReferencedBy(plan.source, from, c);
      MappingMeans(cal, plan, from, c.template.value);
    }
  }

  ghost predicate HasTwin(cal: Calendar, c: Cell, after: seq<Cell>, target: Id, from: Id, to: Id) {
    exists copy :: copy in after && IsTwin(cal, c, copy, target, from, to)
  }

  ghost predicate Movable(cal: Calendar, c: Cell, source: Id, from: Id, to: Id, weeks: seq<int>) {
    c.syllabus == source && !LeftBehind(cal, c, from, to, weeks)
  }

  ghost predicate HasOrigin(cal: Calendar, copy: Cell, before: seq<Cell>, source: Id, from: Id, target: Id, to: Id, weeks: seq<int>) {
    exists c :: c in before && Movable(cal, c, source, from, to, weeks) && IsTwin(cal, c, copy, target, from, to)
  }

  // Every cell of `source` that is not left behind has its twin under `target`, which holds nothing else.
  ghost predicate CellsMoved(cal: Calendar, before: seq<Cell>, after: seq<Cell>, source: Id, from: Id, target: Id, to: Id, weeks: seq<int>) {
    && (forall c | c in before && Movable(cal, c, source, from, to, weeks) :: HasTwin(cal, c, after, target, from, to))
    && forall copy | copy in after && copy.syllabus == target :: HasOrigin(cal, copy, before, source, from, target, to, weeks)
  }

  /**
   A clone on the cells: every source cell of a visible week has its copy, with the same week, topic, subtopic
   and count, under no template if it has none, its own within a cycle, and across cycles the target's first
   of that name. It is left behind exactly when its week is hidden, or, across cycles, the target cycle has no
   templates or its own no longer lists its template. And the target holds nothing but such copies.
   */
  lemma CloneMovesCells(db: Db, cal: Calendar, target: Id, source: Id, targetWeeks: Option<seq<int>>, after: Db, t: Header, s: Header, weeks: seq<int>)
    requires Clone(db, cal, target, source, targetWeeks) == Success(after)
    requires FindActive(db.headers, target) == Some(t) && FindActive(db.headers, source) == Some(s)
    requires weeks == if targetWeeks.Some? then targetWeeks.value else ActiveWeeksOf(cal, t.cycle)
    ensures CellsMoved(cal, db.cells, after.cells, source, s.cycle, target, t.cycle, weeks)
  {
    var plan := CloneIsWrite(db, cal, target, source, targetWeeks);
    CloneCopiesCells(db, cal, target, source, targetWeeks, after, plan);
    forall c | c in db.cells && Movable(cal, c, source, s.cycle, t.cycle, weeks) ensures HasTwin(cal, c, after.cells, target, s.cycle, t.cycle) {
      MovableIsCopied(db.cells, cal, plan, c, after.cells);
    }
    forall copy | copy in after.cells && copy.syllabus == target
      ensures HasOrigin(cal, copy, db.cells, source, s.cycle, target, t.cycle, weeks)
    {
      CopyWasMovable(db.cells, cal, plan, copy);
    }
  }

  lemma MovableIsCopied(cells: seq<Cell>, cal: Calendar, plan: Plan, c: Cell, after: seq<Cell>)
    requires MapTemplates(cal, plan.source, plan.target.cycle, OfSyllabus(cells, plan.source.id)) == Success(plan.mapping) && c in cells
    requires Movable(cal, c, plan.source.id, plan.source.cycle, plan.target.cycle, plan.weeks)
    requires Retarget(c, plan.weeks, SameCycle(plan), plan.mapping).Some? ==>
               exists copy :: copy in after && IsCopy(c, copy, plan.target.id, plan.weeks, SameCycle(plan), plan.mapping)
    ensures HasTwin(cal, c, after, plan.target.id, plan.source.cycle, plan.target.cycle)
  {
    OwnIsKept(cells, plan.source.id, c);
    RetargetMeans(cal, plan, OfSyllabus(cells, plan.source.id), c);
    var copy :| copy in after && IsCopy(c, copy, plan.target.id, plan.weeks, SameCycle(plan), plan.mapping);
    assert IsTwin(cal, c, copy, plan.target.id, plan.source.cycle, plan.target.cycle);
  }

  lemma CopyWasMovable(cells: seq<Cell>, cal: Calendar, plan: Plan, copy: Cell)
    requires MapTemplates(cal, plan.source, plan.target.cycle, OfSyllabus(cells, plan.source.id)) == Success(plan.mapping)
    requires exists c :: c in cells && c.syllabus == plan.source.id && IsCopy(c, copy, plan.target.id, plan.weeks, SameCycle(plan), plan.mapping)
    ensures HasOrigin(cal, copy, cells, plan.source.id, plan.source.cycle, plan.target.id, plan.target.cycle, plan.weeks)
  {
    var c :| c in cells && c.syllabus == plan.source.id && IsCopy(c, copy, plan.target.id, plan.weeks, SameCycle(plan), plan.mapping);
    OwnIsKept(cells, plan.source.id, c);
    RetargetMeans(cal, plan, OfSyllabus(cells, plan.source.id), c);
    assert Movable(cal, c, plan.source.id, plan.source.cycle, plan.target.cycle, plan.weeks);
    assert IsTwin(cal, c, copy, plan.target.id, plan.source.cycle, plan.target.cycle);
  }

  // The counts of a week's cells that are not left behind.
  ghost function MovedSum(cal: Calendar, cells: seq<Cell>, source: Id, from: Id, to: Id, weeks: seq<int>, week: int): int {
    if cells == [] then 0 else
    var c := cells[|cells| - 1];
    MovedSum(cal, cells[..|cells| - 1], source, from, to, weeks, week)
      + if c.syllabus == source && c.week == week && !LeftBehind(cal, c, from, to, weeks) then c.count else 0
  }

  lemma {:induction false} KeptIsMoved(cal: Calendar, plan: Plan, all: seq<Cell>, cells: seq<Cell>, week: int)
    requires MapTemplates(cal, plan.source, plan.target.cycle, all) == Success(plan.mapping)
    requires forall c | c in cells && c.syllabus == plan.source.id :: c in all
    ensures KeptSum(OfSyllabus(cells, plan.source.id), plan.weeks, SameCycle(plan), plan.mapping, week)
         == MovedSum(cal, cells, plan.source.id, plan.source.cycle, plan.target.cycle, plan.weeks, week)
  {
    if cells != [] {
      var n := |cells| - 1;
      KeptIsMoved(cal, plan, all, cells[..n], week);
      var own := OfSyllabus(cells[..n], plan.source.id);
      if cells[n].syllabus == plan.source.id {
        RetargetMeans(cal, plan, all, cells[n]);
        assert (own + [cells[n]])[..|own|] == own;
      }
    }
  }

  lemma {:induction false} MovedWhole(cal: Calendar, cells: seq<Cell>, source: Id, from: Id, to: Id, weeks: seq<int>, week: int)
    requires forall c | c in cells && c.syllabus == source && c.week == week :: !LeftBehind(cal, c, from, to, weeks)
    ensures MovedSum(cal, cells, source, from, to, weeks, week) == WeekSum(cells, source, week, None)
  {
    if cells != [] { MovedWhole(cal, cells[..|cells| - 1], source, from, to, weeks, week); }
  }

  /** And on the counts: each week of the target holds what the source's cells that are not left behind hold; all of it, if none is. */
  lemma CloneMovesCounts(db: Db, cal: Calendar, target: Id, source: Id, targetWeeks: Option<seq<int>>, after: Db, t: Header, s: Header, weeks: seq<int>, week: int)
    requires Inv(db) && Clone(db, cal, target, source, targetWeeks) == Success(after)
    requires FindActive(db.headers, target) == Some(t) && FindActive(db.headers, source) == Some(s)
    requires weeks == if targetWeeks.Some? then targetWeeks.value else ActiveWeeksOf(cal, t.cycle)
    ensures WeekSum(after.cells, target, week, None) == MovedSum(cal, db.cells, source, s.cycle, t.cycle, weeks, week)
    ensures (forall c | c in db.cells && c.syllabus == source && c.week == week :: !LeftBehind(cal, c, s.cycle, t.cycle, weeks)) ==>
              WeekSum(after.cells, target, week, None) == WeekSum(db.cells, source, week, None)
  {
    var plan := CloneIsWrite(db, cal, target, source, targetWeeks);
    var from := OfSyllabus(db.cells, source);
    WrittenSum(db, plan, target, week);
    SumOfCopy(from, target, plan.weeks, SameCycle(plan), plan.mapping, db.nextId, week);
    forall c | c in db.cells && c.syllabus == source ensures c in from { OwnIsKept(db.cells, source, c); }
    KeptIsMoved(cal, plan, from, db.cells, week);
    if forall c | c in db.cells && c.syllabus == source && c.week == week :: !LeftBehind(cal, c, s.cycle, t.cycle, weeks) {
      MovedWhole(cal, db.cells, source, s.cycle, t.cycle, weeks, week);
    }
  }

  /** The target's default template becomes the source's, or its namesake, where there is one; no other row changes. */
  lemma CloneSetsDefaultTemplate(db: Db, cal: Calendar, target: Id, source: Id, targetWeeks: Option<seq<int>>, after: Db, t: Header, s: Header, i: nat)
    requires Clone(db, cal, target, source, targetWeeks) == Success(after) && i < |db.headers|
    requires FindActive(db.headers, target) == Some(t) && FindActive(db.headers, source) == Some(s)
    ensures |after.headers| == |db.headers| && after.headers[i].(template := db.headers[i].template) == db.headers[i]
    ensures db.headers[i].id != target || s.template.None? || Nowhere(cal, s.template, s.cycle, t.cycle) ==> after.headers[i] == db.headers[i]
    ensures db.headers[i].id == target && s.template.Some? && !Nowhere(cal, s.template, s.cycle, t.cycle) ==>
              GoesUnder(cal, s.template, s.cycle, t.cycle, after.headers[i].template)
  {
    var plan := CloneIsWrite(db, cal, target, source, targetWeeks);
    if s.template.Some? && !SameCycle(plan) { MappingMeans(cal, plan, OfSyllabus(db.cells, source), s.template.value); }
  }

  lemma {:induction false} OwnIsKept(cells: seq<Cell>, syllabus: Id, c: Cell)
    requires c in cells && c.syllabus == syllabus
    ensures c in OfSyllabus(cells, syllabus)
  {
    if c != cells[|cells| - 1] { OwnIsKept(cells[..|cells| - 1], syllabus, c); }
  }

  // Two kept cells that the clone would store as one.
  ghost predicate Merge(a: Cell, b: Cell, weeks: seq<int>, same: bool, mapping: Mapping) {
    && Retarget(a, weeks, same, mapping).Some?
    && Retarget(a, weeks, same, mapping) == Retarget(b, weeks, same, mapping)
    && a.week == b.week && a.topic == b.topic && a.subtopic == b.subtopic
  }

  ghost predicate SomeMerge(from: seq<Cell>, weeks: seq<int>, same: bool, mapping: Mapping) {
    exists i, j | 0 <= i < j < |from| :: Merge(from[i], from[j], weeks, same, mapping)
  }

  /** The unique index refuses the batch exactly when two different source cells are sent to one. */
  lemma CollidesIff(db: Db, plan: Plan)
    ensures Collides(Batch(db, plan)) <==> SomeMerge(OfSyllabus(db.cells, plan.source.id), plan.weeks, SameCycle(plan), plan.mapping)
  {
    var from, batch := OfSyllabus(db.cells, plan.source.id), Batch(db, plan);
    var target, weeks, same, mapping := plan.target.id, plan.weeks, SameCycle(plan), plan.mapping;
    if Collides(batch) {
      var p, q :| 0 <= p < q < |batch| && SameCell(batch[p], batch[q]);
      var i := CopyOf(from, target, weeks, same, mapping, db.nextId, p);
      var j := CopyOf(from, target, weeks, same, mapping, db.nextId, q);
      if j < i { CopiesGrow(from, target, weeks, same, mapping, db.nextId, j, i); }
      assert Merge(from[i], from[j], weeks, same, mapping);
    }
    if SomeMerge(from, weeks, same, mapping) {
      var i, j :| 0 <= i < j < |from| && Merge(from[i], from[j], weeks, same, mapping);
      CopyAt(from, target, weeks, same, mapping, db.nextId, i);
      CopyAt(from, target, weeks, same, mapping, db.nextId, j);
      CopiesGrow(from, target, weeks, same, mapping, db.nextId, i, j);
    }
  }

  lemma {:induction false} OwnStayDistinct(cells: seq<Cell>, syllabus: Id)
    requires DistinctCells(cells)
    ensures DistinctCells(OfSyllabus(cells, syllabus))
  {
    if cells != [] {
      var n := |cells| - 1;
      OwnStayDistinct(cells[..n], syllabus);
      var own := OfSyllabus(cells[..n], syllabus);
      forall i | 0 <= i < |own| ensures own[i].id != cells[n].id && !SameCell(own[i], cells[n]) {
        assert own[i] in cells[..n];
      }
    }
  }

  // No two templates of a list share a name, or an id.
  ghost predicate NamesApart(list: seq<Template>) { forall a, b | a in list && b in list && a.name == b.name :: a == b }

  ghost predicate IdsApart(list: seq<Template>) { forall a, b | a in list && b in list && a.id == b.id :: a == b }

  /** With no two templates of the source cycle sharing a name, no two cells are ever sent to one. */
  lemma NothingMerges(db: Db, cal: Calendar, target: Id, source: Id, targetWeeks: Option<seq<int>>, plan: Plan)
    requires Inv(db) && PlanClone(db, cal, target, source, targetWeeks) == Success(plan)
    requires NamesApart(TemplatesOf(cal, plan.source.cycle)) && IdsApart(TemplatesOf(cal, plan.target.cycle))
    ensures !SomeMerge(OfSyllabus(db.cells, plan.source.id), plan.weeks, SameCycle(plan), plan.mapping)
  {
    var from := OfSyllabus(db.cells, plan.source.id);
    OwnStayDistinct(db.cells, plan.source.id);
    forall i, j | 0 <= i < j < |from| ensures !Merge(from[i], from[j], plan.weeks, SameCycle(plan), plan.mapping) {
      assert from[i] in from && from[j] in from && !SameCell(from[i], from[j]);
      if Merge(from[i], from[j], plan.weeks, SameCycle(plan), plan.mapping) {
        SameDestination(cal, plan, from, from[i], from[j]);
      }
    }
  }

  // Only one template of the source can have a given destination.
  lemma SameDestination(cal: Calendar, plan: Plan, from: seq<Cell>, a: Cell, b: Cell)
    requires MapTemplates(cal, plan.source, plan.target.cycle, from) == Success(plan.mapping)
    requires NamesApart(TemplatesOf(cal, plan.source.cycle)) && IdsApart(TemplatesOf(cal, plan.target.cycle))
    requires Merge(a, b, plan.weeks, SameCycle(plan), plan.mapping)
    ensures a.template == b.template
  {
    var sources, targets := TemplatesOf(cal, plan.source.cycle), TemplatesOf(cal, plan.target.cycle);
    if a.template.Some? && b.template.Some? && !SameCycle(plan) && targets != [] {
      var x, y := a.template.value, b.template.value;
      assert x in plan.mapping && y in plan.mapping;
      assert Match(sources, targets, x).value.id == Match(sources, targets, y).value.id;
      assert FindTemplate(sources, x).value.name == FindTemplate(sources, y).value.name;
    }
  }

  // Every template the syllabus refers to, and its cycle still lists, has a namesake, where one is needed.
  predicate HasNamesakes(cal: Calendar, s: Header, cycle: Id, from: seq<Cell>) {
    s.cycle == cycle || TemplatesOf(cal, cycle) == []
    || forall id | id in Referenced(s, from) :: !Missing(TemplatesOf(cal, s.cycle), TemplatesOf(cal, cycle), id)
  }

  // And no two of its kept cells are sent to one.
  ghost predicate TemplatesReady(cal: Calendar, s: Header, cycle: Id, from: seq<Cell>, weeks: seq<int>) {
    && HasNamesakes(cal, s, cycle, from)
    && (MapTemplates(cal, s, cycle, from).Success? ==> !SomeMerge(from, weeks, s.cycle == cycle, MapTemplates(cal, s, cycle, from).value))
  }

  /**
   Exactly when a clone goes through: both syllabuses are active; across cycles that both have templates,
   every template the source refers to and its cycle still lists has a namesake in the target cycle; and no
   two kept cells of the source are sent to one, which by NothingMerges takes two templates of one name.
   */
  lemma CloneSucceedsIff(db: Db, cal: Calendar, target: Id, source: Id, targetWeeks: Option<seq<int>>, t: Option<Header>, s: Option<Header>)
    requires Inv(db) && t == FindActive(db.headers, target) && s == FindActive(db.headers, source)
    ensures Clone(db, cal, target, source, targetWeeks).Success? <==>
            (t.Some? && s.Some? && TemplatesReady(cal, s.value, t.value.cycle, OfSyllabus(db.cells, source),
                                                  if targetWeeks.Some? then targetWeeks.value else ActiveWeeksOf(cal, t.value.cycle)))
  {
    var planned := PlanClone(db, cal, target, source, targetWeeks);
    if planned.Success? {
      CloneIsNeverOverLimit(db, cal, target, source, targetWeeks);
      CollidesIff(db, planned.value);
    }
  }

  ghost predicate Namesakes(list: seq<Template>, a: Option<Id>, b: Option<Id>) {
    && a.Some? && b.Some? && FindTemplate(list, a.value).Some? && FindTemplate(list, b.value).Some?
    && FindTemplate(list, a.value).value.name == FindTemplate(list, b.value).value.name
  }

  lemma NamesakesMerge(cal: Calendar, plan: Plan, from: seq<Cell>, a: Cell, b: Cell)
    requires MapTemplates(cal, plan.source, plan.target.cycle, from) == Success(plan.mapping)
    requires !SameCycle(plan) && TemplatesOf(cal, plan.target.cycle) != [] && a in from && b in from
    requires Namesakes(TemplatesOf(cal, plan.source.cycle), a.template, b.template)
    requires a.week in plan.weeks && a.week == b.week && a.topic == b.topic && a.subtopic == b.subtopic
    ensures Merge(a, b, plan.weeks, SameCycle(plan), plan.mapping)
  {
    ReferencedBy(plan.source, from, a);
    ReferencedBy(plan.source, from, b);
    var sources, targets := TemplatesOf(cal, plan.source.cycle), TemplatesOf(cal, plan.target.cycle);
    assert !Missing(sources, targets, a.template.value) && !Missing(sources, targets, b.template.value);
    assert plan.mapping[a.template.value] == plan.mapping[b.template.value];
  }

  /** Otherwise two namesakes used on one week, topic and subtopic make the clone fail, and not for the cap. */
  lemma NamesakesCollide(db: Db, cal: Calendar, target: Id, source: Id, targetWeeks: Option<seq<int>>, plan: Plan, i: nat, j: nat)
    requires Inv(db) && PlanClone(db, cal, target, source, targetWeeks) == Success(plan)
    requires !SameCycle(plan) && TemplatesOf(cal, plan.target.cycle) != []
    requires i < j < |OfSyllabus(db.cells, source)|
    requires var a, b := OfSyllabus(db.cells, source)[i], OfSyllabus(db.cells, source)[j];
             && Namesakes(TemplatesOf(cal, plan.source.cycle), a.template, b.template)
             && a.week in plan.weeks && a.week == b.week && a.topic == b.topic && a.subtopic == b.subtopic
    ensures Clone(db, cal, target, source, targetWeeks) == Failure(DuplicateCell)
  {
    CloneIsNeverOverLimit(db, cal, target, source, targetWeeks);
    var from := OfSyllabus(db.cells, source);
    NamesakesMerge(cal, plan, from, from[i], from[j]);
    CollidesIff(db, plan);
  }

  lemma {:induction false} ReferencedBy(source: Header, from: seq<Cell>, c: Cell)
    requires c in from && c.template.Some?
    ensures c.template.value in Referenced(source, from)
  {
    if c != from[|from| - 1] { ReferencedBy(source, from[..|from| - 1], c); }
  }

  // ---------------------------------------------------------------- when it succeeds, in the words of the tables

  // The syllabus' default template, or one of its cells'.
  ghost predicate RefersTo(cells: seq<Cell>, s: Header, id: Id) { s.template == Some(id) || exists c :: c in cells && c.syllabus == s.id && c.template == Some(id) }

  // Across cycles that both have templates: one the source cycle lists, with no namesake in the target cycle.
  ghost predicate Unmatched(cal: Calendar, id: Id, from: Id, to: Id) {
    && from != to && TemplatesOf(cal, to) != []
    && exists t :: FirstWithId(TemplatesOf(cal, from), t, id) && forall u | u in TemplatesOf(cal, to) :: u.name != t.name
  }

  // Two cells that would be stored as one.
  ghost predicate Clash(cal: Calendar, a: Cell, b: Cell, source: Id, from: Id, to: Id, weeks: seq<int>) {
    && Movable(cal, a, source, from, to, weeks) && Movable(cal, b, source, from, to, weeks)
    && a.week == b.week && a.topic == b.topic && a.subtopic == b.subtopic
    && exists destination :: GoesUnder(cal, a.template, from, to, destination) && GoesUnder(cal, b.template, from, to, destination)
  }

  ghost predicate SomeClash(cal: Calendar, cells: seq<Cell>, source: Id, from: Id, to: Id, weeks: seq<int>) {
    exists a, b :: a in cells && b in cells && a != b && Clash(cal, a, b, source, from, to, weeks)
  }

  lemma {:induction false} CellTemplatesAre(from: seq<Cell>, id: Id)
    ensures id in CellTemplates(from) <==> exists c :: c in from && c.template == Some(id)
  {
    if from != [] { CellTemplatesAre(from[..|from| - 1], id); }
  }

  lemma ReferencedAre(cells: seq<Cell>, s: Header, id: Id)
    ensures id in Referenced(s, OfSyllabus(cells, s.id)) <==> RefersTo(cells, s, id)
  {
    CellTemplatesAre(OfSyllabus(cells, s.id), id);
    if c :| c in cells && c.syllabus == s.id && c.template == Some(id) { OwnIsKept(cells, s.id, c); }
  }

  lemma OneWithId(list: seq<Template>, t: Template, u: Template, id: Id)
    requires FirstWithId(list, t, id) && FirstWithId(list, u, id)
    ensures t == u
  {
    var k :| 0 <= k < |list| && list[k] == t && t.id == id && forall j | 0 <= j < k :: list[j].id != id;
    var l :| 0 <= l < |list| && list[l] == u && u.id == id && forall j | 0 <= j < l :: list[j].id != id;
    assert k == l;
  }

  lemma OneDestination(cal: Calendar, template: Option<Id>, from: Id, to: Id, d: Option<Id>, e: Option<Id>)
    requires GoesUnder(cal, template, from, to, d) && GoesUnder(cal, template, from, to, e)
    ensures d == e
  {
    if template.Some? && from != to {
      var t, k: nat :| FirstWithId(TemplatesOf(cal, from), t, template.value) && FirstNamed(TemplatesOf(cal, to), k, t.name) && d == Some(TemplatesOf(cal, to)[k].id);
      var u, l: nat :| FirstWithId(TemplatesOf(cal, from), u, template.value) && FirstNamed(TemplatesOf(cal, to), l, u.name) && e == Some(TemplatesOf(cal, to)[l].id);
      OneWithId(TemplatesOf(cal, from), t, u, template.value);
      assert k == l;
    }
  }

  lemma MissingIsUnmatched(cal: Calendar, id: Id, from: Id, to: Id)
    requires from != to && TemplatesOf(cal, to) != []
    ensures Missing(TemplatesOf(cal, from), TemplatesOf(cal, to), id) <==> Unmatched(cal, id, from, to)
  {
    FoundIsFirst(TemplatesOf(cal, from), id);
    if t :| FirstWithId(TemplatesOf(cal, from), t, id) {
      var k :| 0 <= k < |TemplatesOf(cal, from)| && TemplatesOf(cal, from)[k] == t;
      OneWithId(TemplatesOf(cal, from), t, FindTemplate(TemplatesOf(cal, from), id).value, id);
    }
  }

  lemma NamesakesInWords(cal: Calendar, cells: seq<Cell>, s: Header, to: Id)
    ensures HasNamesakes(cal, s, to, OfSyllabus(cells, s.id)) <==> forall id | RefersTo(cells, s, id) :: !Unmatched(cal, id, s.cycle, to)
  {
    var from := OfSyllabus(cells, s.id);
    if s.cycle != to && TemplatesOf(cal, to) != [] {
      forall id ensures id in Referenced(s, from) && Missing(TemplatesOf(cal, s.cycle), TemplatesOf(cal, to), id)
                   <==> RefersTo(cells, s, id) && Unmatched(cal, id, s.cycle, to)
      {
        ReferencedAre(cells, s, id);
        MissingIsUnmatched(cal, id, s.cycle, to);
      }
    }
  }

  lemma MergeIsClash(cal: Calendar, plan: Plan, from: seq<Cell>, a: Cell, b: Cell)
    requires MapTemplates(cal, plan.source, plan.target.cycle, from) == Success(plan.mapping) && a in from && b in from
    requires a.syllabus == b.syllabus == plan.source.id
    ensures Merge(a, b, plan.weeks, SameCycle(plan), plan.mapping)
       <==> Clash(cal, a, b, plan.source.id, plan.source.cycle, plan.target.cycle, plan.weeks)
  {
    RetargetMeans(cal, plan, from, a);
    RetargetMeans(cal, plan, from, b);
    var r, q := Retarget(a, plan.weeks, SameCycle(plan), plan.mapping), Retarget(b, plan.weeks, SameCycle(plan), plan.mapping);
    if r.Some? && q.Some? {
      if d :| GoesUnder(cal, a.template, plan.source.cycle, plan.target.cycle, d) && GoesUnder(cal, b.template, plan.source.cycle, plan.target.cycle, d) {
        OneDestination(cal, a.template, plan.source.cycle, plan.target.cycle, r.value, d);
        OneDestination(cal, b.template, plan.source.cycle, plan.target.cycle, q.value, d);
      }
    }
  }

  lemma ClashFromMerge(cal: Calendar, plan: Plan, cells: seq<Cell>)
    requires MapTemplates(cal, plan.source, plan.target.cycle, OfSyllabus(cells, plan.source.id)) == Success(plan.mapping) && DistinctCells(cells)
    requires SomeMerge(OfSyllabus(cells, plan.source.id), plan.weeks, SameCycle(plan), plan.mapping)
    ensures SomeClash(cal, cells, plan.source.id, plan.source.cycle, plan.target.cycle, plan.weeks)
  {
    var own := OfSyllabus(cells, plan.source.id);
    OwnStayDistinct(cells, plan.source.id);
    var i, j :| 0 <= i < j < |own| && Merge(own[i], own[j], plan.weeks, SameCycle(plan), plan.mapping);
    assert own[i] in own && own[j] in own && own[i].id != own[j].id;
    MergeIsClash(cal, plan, own, own[i], own[j]);
  }

  lemma PlaceOf(cells: seq<Cell>, syllabus: Id, c: Cell) returns (i: nat)
    requires c in cells && c.syllabus == syllabus
    ensures i < |OfSyllabus(cells, syllabus)| && OfSyllabus(cells, syllabus)[i] == c
  {
    OwnIsKept(cells, syllabus, c);
    i :| 0 <= i < |OfSyllabus(cells, syllabus)| && OfSyllabus(cells, syllabus)[i] == c;
  }

  lemma MergeFromClash(cal: Calendar, plan: Plan, cells: seq<Cell>)
    requires MapTemplates(cal, plan.source, plan.target.cycle, OfSyllabus(cells, plan.source.id)) == Success(plan.mapping)
    requires SomeClash(cal, cells, plan.source.id, plan.source.cycle, plan.target.cycle, plan.weeks)
    ensures SomeMerge(OfSyllabus(cells, plan.source.id), plan.weeks, SameCycle(plan), plan.mapping)
  {
    var own := OfSyllabus(cells, plan.source.id);
    var a, b :| a in cells && b in cells && a != b && Clash(cal, a, b, plan.source.id, plan.source.cycle, plan.target.cycle, plan.weeks);
    var i := PlaceOf(cells, plan.source.id, a);
    var j := PlaceOf(cells, plan.source.id, b);
    MergeIsClash(cal, plan, own, a, b);
    if i < j { assert Merge(own[i], own[j], plan.weeks, SameCycle(plan), plan.mapping); }
    else { assert Merge(own[j], own[i], plan.weeks, SameCycle(plan), plan.mapping); }
  }

  // What the templates and cells of s must be for a clone to cycle `to`.
  ghost predicate Clonable(cal: Calendar, cells: seq<Cell>, s: Header, to: Id, weeks: seq<int>) {
    && (forall id | RefersTo(cells, s, id) :: !Unmatched(cal, id, s.cycle, to))
    && !SomeClash(cal, cells, s.id, s.cycle, to, weeks)
  }

  lemma ReadyIsClonable(cal: Calendar, cells: seq<Cell>, s: Header, to: Id, weeks: seq<int>)
    requires DistinctCells(cells)
    ensures TemplatesReady(cal, s, to, OfSyllabus(cells, s.id), weeks) <==> Clonable(cal, cells, s, to, weeks)
  {
    NamesakesInWords(cal, cells, s, to);
    if HasNamesakes(cal, s, to, OfSyllabus(cells, s.id)) {
      var plan := Plan(s.(cycle := to), s, weeks, MapTemplates(cal, s, to, OfSyllabus(cells, s.id)).value);
      if SomeMerge(OfSyllabus(cells, s.id), weeks, SameCycle(plan), plan.mapping) { ClashFromMerge(cal, plan, cells); }
      if SomeClash(cal, cells, s.id, s.cycle, to, weeks) { MergeFromClash(cal, plan, cells); }
    }
  }

  lemma HeaderIsFound(db: Db, h: Header)
    requires Inv(db) && h in db.headers
    ensures FindActive(db.headers, h.id) == if h.active then Some(h) else None
  {
    var i :| 0 <= i < |db.headers| && db.headers[i] == h;
    if FindActive(db.headers, h.id).Some? {
      var j :| 0 <= j < |db.headers| && db.headers[j] == FindActive(db.headers, h.id).value;
      assert i == j;
    }
  }

  /**
   Exactly when a clone goes through, on the tables: both syllabuses are active; across cycles that both have
   templates, no template the source refers to and its cycle lists lacks a namesake in the target cycle; and
   no two cells that move are sent to one.
   */
  lemma CloneSucceedsExactlyWhen(db: Db, cal: Calendar, target: Id, source: Id, targetWeeks: Option<seq<int>>, t: Header, s: Header, weeks: seq<int>)
    requires Inv(db) && t in db.headers && t.id == target && s in db.headers && s.id == source
    requires weeks == if targetWeeks.Some? then targetWeeks.value else ActiveWeeksOf(cal, t.cycle)
    ensures Clone(db, cal, target, source, targetWeeks).Success? <==> t.active && s.active && Clonable(cal, db.cells, s, t.cycle, weeks)
  {
    HeaderIsFound(db, t);
    HeaderIsFound(db, s);
    CloneSucceedsIff(db, cal, target, source, targetWeeks, FindActive(db.headers, target), FindActive(db.headers, source));
    ReadyIsClonable(cal, db.cells, s, t.cycle, weeks);
  }
}
