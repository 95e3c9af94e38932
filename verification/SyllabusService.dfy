/**
 The syllabus service as it executes: edits of single cells, one clone, a whole cycle's clone in one
 transaction, and what every run of them keeps.
 */
module SyllabusService {
  import opened Wrappers
  import opened Syllabus
  import opened SyllabusClone

  // ---------------------------------------------------------------- cloning a cycle

  // Archived syllabuses are listed too.
  function OfCycle(headers: seq<Header>, cycle: Id): (own: seq<Header>)
    ensures forall h :: h in own <==> h in headers && h.cycle == cycle
  {
    if headers == [] then [] else
    OfCycle(headers[..|headers| - 1], cycle) + if headers[|headers| - 1].cycle == cycle then [headers[|headers| - 1]] else []
  }

  // A map from course to syllabus, later rows over earlier ones.
  function TargetFor(targets: seq<Header>, course: Id): (found: Option<Header>)
    ensures found.Some? ==> found.value in targets && found.value.course == course
    ensures found.None? ==> forall h | h in targets :: h.course != course
  {
    if targets == [] then None
    else if targets[|targets| - 1].course == course then Some(targets[|targets| - 1])
    else TargetFor(targets[..|targets| - 1], course)
  }

  function CreateSyllabus(db: Db, cycle: Id, course: Id): Result<Db, Error> {
    var created := Header(db.nextId, cycle, course, None, true);
    if exists i | 0 <= i < |db.headers| :: SameActive(db.headers[i], created) then Failure(DuplicateSyllabus)
    else Success(db.(headers := db.headers + [created], nextId := db.nextId + 1))
  }

  // The syllabus of the target cycle that takes the course, found or created.
  datatype Taker = Taker(db: Db, id: Id)

  function FindTaker(db: Db, targets: seq<Header>, cycle: Id, course: Id): Result<Taker, Error> {
    match TargetFor(targets, course)
    case Some(t) => Success(Taker(db, t.id))
    case None =>
      match CreateSyllabus(db, cycle, course)
      case Failure(e) => Failure(e)
      case Success(created) => Success(Taker(created, db.nextId))
  }

  function CloneOne(db: Db, cal: Calendar, source: Header, targets: seq<Header>, cycle: Id): Result<Db, Error> {
    match FindTaker(db, targets, cycle, source.course)
    case Failure(e) => Failure(e)
    case Success(taker) => Clone(taker.db, cal, taker.id, source.id, Some(ActiveWeeksOf(cal, cycle)))
  }

  function CloneEach(db: Db, cal: Calendar, sources: seq<Header>, targets: seq<Header>, cycle: Id): Result<Db, Error>
    decreases |sources|
  {
    if sources == [] then Success(db) else
    match CloneOne(db, cal, sources[0], targets, cycle)
    case Failure(e) => Failure(e)
    case Success(after) => CloneEach(after, cal, sources[1..], targets, cycle)
  }

  function CloneCycle(db: Db, cal: Calendar, target: Id, source: Id): Result<Db, Error> {
    var sources := OfCycle(db.headers, source);
    if sources == [] then Failure(EmptySource)
    else CloneEach(db, cal, sources, OfCycle(db.headers, target), target)
  }

  // ---------------------------------------------------------------- what a cycle clone keeps

  // Syllabuses are only added to, or given another default template.
  ghost predicate HeadersGrow(before: seq<Header>, after: seq<Header>) {
    && |before| <= |after|
    && forall i | 0 <= i < |before| :: after[i].(template := before[i].template) == before[i]
  }

  lemma FindTakerKeepsInv(db: Db, targets: seq<Header>, cycle: Id, course: Id)
    requires Inv(db) && FindTaker(db, targets, cycle, course).Success?
    ensures Inv(FindTaker(db, targets, cycle, course).value.db)
    ensures HeadersGrow(db.headers, FindTaker(db, targets, cycle, course).value.db.headers)
  {
  }

  lemma CloneGrows(db: Db, cal: Calendar, target: Id, source: Id, targetWeeks: Option<seq<int>>)
    requires Clone(db, cal, target, source, targetWeeks).Success?
    ensures HeadersGrow(db.headers, Clone(db, cal, target, source, targetWeeks).value.headers)
  {
  }

  lemma {:induction false} CloneEachKeepsInv(db: Db, cal: Calendar, sources: seq<Header>, targets: seq<Header>, cycle: Id)
    requires Inv(db)
    ensures var r := CloneEach(db, cal, sources, targets, cycle);
            r != Failure(WeekFull) && (r.Success? ==> Inv(r.value) && HeadersGrow(db.headers, r.value.headers))
    decreases |sources|
  {
    if sources != [] {
      CloneOneKeepsInv(db, cal, sources[0], targets, cycle);
      var first := CloneOne(db, cal, sources[0], targets, cycle);
      if first.Success? { CloneEachKeepsInv(first.value, cal, sources[1..], targets, cycle); }
    }
  }

  lemma CloneOneKeepsInv(db: Db, cal: Calendar, source: Header, targets: seq<Header>, cycle: Id)
    requires Inv(db)
    ensures var r := CloneOne(db, cal, source, targets, cycle);
            r != Failure(WeekFull) && (r.Success? ==> Inv(r.value) && HeadersGrow(db.headers, r.value.headers))
  {
    var taken := FindTaker(db, targets, cycle, source.course);
    if taken.Success? {
      var weeks := Some(ActiveWeeksOf(cal, cycle));
      FindTakerKeepsInv(db, targets, cycle, source.course);
      CloneIsNeverOverLimit(taken.value.db, cal, taken.value.id, source.id, weeks);
      var r := Clone(taken.value.db, cal, taken.value.id, source.id, weeks);
      if r.Success? {
        CloneKeepsInv(taken.value.db, cal, taken.value.id, source.id, weeks);
        CloneGrows(taken.value.db, cal, taken.value.id, source.id, weeks);
      }
    }
  }

  /** A whole cycle's clone keeps the cap and is never refused for it either. */
  lemma CloneCycleKeepsInv(db: Db, cal: Calendar, target: Id, source: Id)
    requires Inv(db)
    ensures CloneCycle(db, cal, target, source) != Failure(WeekFull)
    ensures CloneCycle(db, cal, target, source).Success? ==> Inv(CloneCycle(db, cal, target, source).value)
  {
    CloneEachKeepsInv(db, cal, OfCycle(db.headers, source), OfCycle(db.headers, target), target);
  }

  lemma ArchivedIsNotFound(headers: seq<Header>, nextId: Id, i: nat)
    requires HeadersOk(headers, nextId) && i < |headers| && !headers[i].active
    ensures FindActive(headers, headers[i].id).None?
  {
  }

  // Row i is the archived syllabus `id`.
  ghost predicate ArchivedAt(db: Db, i: nat, id: Id) {
    Inv(db) && i < |db.headers| && !db.headers[i].active && db.headers[i].id == id
  }

  lemma ArchivedOneFails(db: Db, cal: Calendar, source: Header, targets: seq<Header>, cycle: Id, i: nat)
    requires ArchivedAt(db, i, source.id)
    ensures CloneOne(db, cal, source, targets, cycle).Failure?
  {
    var taken := FindTaker(db, targets, cycle, source.course);
    if taken.Success? {
      FindTakerKeepsInv(db, targets, cycle, source.course);
      ArchivedIsNotFound(taken.value.db.headers, taken.value.db.nextId, i);
    }
  }

  lemma StaysArchived(db: Db, cal: Calendar, source: Header, targets: seq<Header>, cycle: Id, i: nat, id: Id)
    requires ArchivedAt(db, i, id) && CloneOne(db, cal, source, targets, cycle).Success?
    ensures ArchivedAt(CloneOne(db, cal, source, targets, cycle).value, i, id)
  {
    CloneOneKeepsInv(db, cal, source, targets, cycle);
    var after := CloneOne(db, cal, source, targets, cycle).value.headers;
    assert after[i].(template := db.headers[i].template) == db.headers[i];
  }

  lemma FailsWithRest(db: Db, cal: Calendar, sources: seq<Header>, targets: seq<Header>, cycle: Id, first: Result<Db, Error>)
    requires sources != [] && first == CloneOne(db, cal, sources[0], targets, cycle)
    requires first.Success? ==> CloneEach(first.value, cal, sources[1..], targets, cycle).Failure?
    ensures CloneEach(db, cal, sources, targets, cycle).Failure?
  {
  }

  lemma FirstArchived(db: Db, cal: Calendar, sources: seq<Header>, targets: seq<Header>, cycle: Id, i: nat)
    requires sources != [] && ArchivedAt(db, i, sources[0].id)
    ensures CloneEach(db, cal, sources, targets, cycle).Failure?
  {
    ArchivedOneFails(db, cal, sources[0], targets, cycle, i);
  }

  lemma {:induction false} ArchivedStops(db: Db, cal: Calendar, sources: seq<Header>, targets: seq<Header>, cycle: Id, i: nat, h: Header)
    requires h in sources && ArchivedAt(db, i, h.id)
    ensures CloneEach(db, cal, sources, targets, cycle).Failure?
    decreases |sources|
  {
    var first := CloneOne(db, cal, sources[0], targets, cycle);
    if sources[0] == h {
      FirstArchived(db, cal, sources, targets, cycle, i);
    } else {
      if first.Success? {
        StaysArchived(db, cal, sources[0], targets, cycle, i, h.id);
        ArchivedStops(first.value, cal, sources[1..], targets, cycle, i, h);
      }
      FailsWithRest(db, cal, sources, targets, cycle, first);
    }
  }

  /** One archived syllabus in the source cycle makes the whole cycle clone fail. */
  lemma ArchivedSourceBlocksCycle(db: Db, cal: Calendar, target: Id, source: Id, h: Header)
    requires Inv(db) && h in db.headers && h.cycle == source && !h.active
    ensures CloneCycle(db, cal, target, source).Failure?
  {
    var sources := OfCycle(db.headers, source);
    assert h in sources;
    var i :| 0 <= i < |db.headers| && db.headers[i] == h;
    ArchivedStops(db, cal, sources, OfCycle(db.headers, target), target, i, h);
  }

  // ---------------------------------------------------------------- exactly when a cycle clone succeeds

  // Every listed syllabus is still a row, up to its default template.
  ghost predicate Listed(headers: seq<Header>, list: seq<Header>) {
    forall h | h in list :: exists i :: 0 <= i < |headers| && headers[i].(template := h.template) == h
  }

  // The syllabus of the target cycle for a course can be cloned onto: active, or absent with none to collide with.
  ghost predicate TakerReady(headers: seq<Header>, targets: seq<Header>, cycle: Id, course: Id) {
    match TargetFor(targets, course)
    case Some(t) => FindActive(headers, t.id).Some?
    case None => forall h | h in headers :: !(h.active && h.cycle == cycle && h.course == course)
  }

  ghost predicate TemplatesFit(cells: seq<Cell>, cal: Calendar, s: Header, cycle: Id) {
    TemplatesReady(cal, s, cycle, OfSyllabus(cells, s.id), ActiveWeeksOf(cal, cycle))
  }

  ghost predicate Ready(db: Db, cal: Calendar, h: Header, targets: seq<Header>, cycle: Id) {
    && FindActive(db.headers, h.id).Some?
    && TakerReady(db.headers, targets, cycle, h.course)
    && TemplatesFit(db.cells, cal, FindActive(db.headers, h.id).value, cycle)
  }

  // The rows a cycle clone works from, as they are during it.
  ghost predicate Cloning(db: Db, sources: seq<Header>, targets: seq<Header>, cycle: Id) {
    && Inv(db) && Listed(db.headers, sources) && Listed(db.headers, targets)
    && forall t | t in targets :: t.cycle == cycle
  }

  lemma FoundIs(headers: seq<Header>, nextId: Id, i: nat)
    requires HeadersOk(headers, nextId) && i < |headers|
    ensures FindActive(headers, headers[i].id) == if headers[i].active then Some(headers[i]) else None
  {
    var found := FindActive(headers, headers[i].id);
    if found.Some? {
      var j :| 0 <= j < |headers| && headers[j] == found.value;
      assert j == i;
    } else {
      assert headers[i] in headers;
    }
  }

  // What is found under a listed syllabus' id is that syllabus, whatever its default template has become.
  lemma FoundListed(headers: seq<Header>, nextId: Id, list: seq<Header>, h: Header)
    requires HeadersOk(headers, nextId) && Listed(headers, list) && h in list
    ensures FindActive(headers, h.id).Some? <==> h.active
    ensures h.active ==> FindActive(headers, h.id).value.(template := h.template) == h
  {
    var i :| 0 <= i < |headers| && headers[i].(template := h.template) == h;
    FoundIs(headers, nextId, i);
  }

  lemma FindTakerIff(db: Db, targets: seq<Header>, cycle: Id, course: Id)
    requires Inv(db) && (forall t | t in targets :: t.cycle == cycle) && Listed(db.headers, targets)
    ensures TakerReady(db.headers, targets, cycle, course) <==>
            var taken := FindTaker(db, targets, cycle, course);
            taken.Success? && FindActive(taken.value.db.headers, taken.value.id).Some?
  {
    if TargetFor(targets, course).None? {
      var created := Header(db.nextId, cycle, course, None, true);
      if exists i | 0 <= i < |db.headers| :: SameActive(db.headers[i], created) {
        var i :| 0 <= i < |db.headers| && SameActive(db.headers[i], created);
        assert db.headers[i] in db.headers;
      } else {
        FindTakerKeepsInv(db, targets, cycle, course);
        var after := db.headers + [created];
        assert after[|db.headers|] == created;
        FoundIs(after, db.nextId + 1, |db.headers|);
        forall h | h in db.headers ensures !(h.active && h.cycle == cycle && h.course == course) {
          var i :| 0 <= i < |db.headers| && db.headers[i] == h;
        }
      }
    }
  }

  // The taker is of the target cycle and of the course, and creating it changes nothing else.
  lemma TakerFacts(db: Db, targets: seq<Header>, cycle: Id, course: Id, taken: Taker)
    requires Inv(db) && (forall t | t in targets :: t.cycle == cycle) && Listed(db.headers, targets)
    requires FindTaker(db, targets, cycle, course) == Success(taken)
    ensures Inv(taken.db) && taken.db.cells == db.cells
    ensures taken.db.headers == db.headers || (taken.id == db.nextId && taken.db.headers == db.headers + [Header(db.nextId, cycle, course, None, true)])
    ensures exists i :: 0 <= i < |taken.db.headers| && taken.db.headers[i].id == taken.id && taken.db.headers[i].cycle == cycle && taken.db.headers[i].course == course
  {
    FindTakerKeepsInv(db, targets, cycle, course);
    match TargetFor(targets, course)
    case Some(t) =>
      var i :| 0 <= i < |db.headers| && db.headers[i].(template := t.template) == t;
      assert taken.db.headers[i].id == taken.id;
    case None =>
      assert taken.db.headers[|db.headers|].id == taken.id;
  }

  lemma FoundInOther(headers: seq<Header>, more: Header, nextId: Id, list: seq<Header>, h: Header)
    requires HeadersOk(headers + [more], nextId) && HeadersOk(headers, nextId) && Listed(headers, list) && h in list
    ensures FindActive(headers + [more], h.id) == FindActive(headers, h.id)
  {
    var i :| 0 <= i < |headers| && headers[i].(template := h.template) == h;
    FoundIs(headers, nextId, i);
    assert (headers + [more])[i] == headers[i];
    FoundIs(headers + [more], nextId, i);
  }

  lemma CloneOneSucceedsIff(db: Db, cal: Calendar, h: Header, sources: seq<Header>, targets: seq<Header>, cycle: Id)
    requires Cloning(db, sources, targets, cycle) && h in sources
    ensures CloneOne(db, cal, h, targets, cycle).Success? <==> Ready(db, cal, h, targets, cycle)
  {
    FindTakerIff(db, targets, cycle, h.course);
    FoundListed(db.headers, db.nextId, sources, h);
    var taken := FindTaker(db, targets, cycle, h.course);
    if taken.Success? {
      var t := taken.value;
      TakerFacts(db, targets, cycle, h.course, t);
      if t.db.headers != db.headers {
        assert HeadersOk(db.headers, t.db.nextId);
        FoundInOther(db.headers, Header(db.nextId, cycle, h.course, None, true), t.db.nextId, sources, h);
      }
      var i :| 0 <= i < |t.db.headers| && t.db.headers[i].id == t.id && t.db.headers[i].cycle == cycle;
      FoundIs(t.db.headers, t.db.nextId, i);
      CloneSucceedsIff(t.db, cal, t.id, h.id, Some(ActiveWeeksOf(cal, cycle)), FindActive(t.db.headers, t.id), FindActive(t.db.headers, h.id));
    }
  }

  lemma {:induction false} OwnElsewhere(a: seq<Cell>, batch: seq<Cell>, syllabus: Id)
    requires forall i | 0 <= i < |batch| :: batch[i].syllabus != syllabus
    ensures OfSyllabus(a + batch, syllabus) == OfSyllabus(a, syllabus)
    decreases |batch|
  {
    if batch == [] {
      assert a + batch == a;
    } else {
      var n := |batch| - 1;
      OwnElsewhere(a, batch[..n], syllabus);
      assert (a + batch)[..|a| + n] == a + batch[..n] && (a + batch)[|a| + n] == batch[n];
    }
  }

  lemma {:induction false} OwnOfOthers(cells: seq<Cell>, gone: Id, syllabus: Id)
    requires gone != syllabus
    ensures OfSyllabus(Without(cells, gone), syllabus) == OfSyllabus(cells, syllabus)
  {
    if cells != [] {
      var n := |cells| - 1;
      var others := Without(cells[..n], gone);
      OwnOfOthers(cells[..n], gone, syllabus);
      assert (others + [cells[n]])[..|others|] == others;
    }
  }

  lemma WriteSparesCells(db: Db, plan: Plan, other: Id)
    requires Inv(db) && other != plan.target.id
    ensures OfSyllabus(Write(db, plan).cells, other) == OfSyllabus(db.cells, other)
  {
    var others, batch := Without(db.cells, plan.target.id), Batch(db, plan);
    BatchFacts(db, plan);
    OwnOfOthers(db.cells, plan.target.id, other);
    OwnElsewhere(others, batch, other);
  }

  lemma WriteSparesRows(db: Db, plan: Plan, i: nat)
    requires i < |db.headers| && db.headers[i].id != plan.target.id
    ensures |Write(db, plan).headers| == |db.headers| && Write(db, plan).headers[i] == db.headers[i]
  {
  }

  // A clone leaves another syllabus' cells and row as they were.
  lemma CloneSparesOthers(db: Db, cal: Calendar, target: Id, source: Id, weeks: Option<seq<int>>, after: Db, i: nat)
    requires Inv(db) && Clone(db, cal, target, source, weeks) == Success(after) && i < |db.headers| && db.headers[i].id != target
    ensures OfSyllabus(after.cells, db.headers[i].id) == OfSyllabus(db.cells, db.headers[i].id)
    ensures |after.headers| == |db.headers| && after.headers[i] == db.headers[i]
  {
    var plan := CloneIsWrite(db, cal, target, source, weeks);
    WriteSparesCells(db, plan, db.headers[i].id);
    WriteSparesRows(db, plan, i);
  }

  lemma ListedGrows(before: seq<Header>, after: seq<Header>, list: seq<Header>)
    requires Listed(before, list) && HeadersGrow(before, after)
    ensures Listed(after, list)
  {
    forall h | h in list ensures exists i :: 0 <= i < |after| && after[i].(template := h.template) == h {
      var i :| 0 <= i < |before| && before[i].(template := h.template) == h;
      assert after[i].(template := before[i].template) == before[i];
    }
  }

  // Rows of different courses have different ids.
  lemma CoursesHaveIds(headers: seq<Header>, nextId: Id, k: nat, i: nat)
    requires HeadersOk(headers, nextId) && k < |headers| && i < |headers| && headers[k].course != headers[i].course
    ensures headers[k].id != headers[i].id
  {
  }

  // The row a clone writes to is none of another course.
  lemma TakerIsApart(db: Db, sources: seq<Header>, targets: seq<Header>, cycle: Id, course: Id, t: Taker, g: Header) returns (k: nat)
    requires Cloning(db, sources, targets, cycle) && FindTaker(db, targets, cycle, course) == Success(t)
    requires g in sources && g.course != course
    ensures k < |db.headers| && db.headers[k].(template := g.template) == g && k < |t.db.headers| && t.db.headers[k] == db.headers[k]
    ensures t.id != g.id
  {
    TakerFacts(db, targets, cycle, course, t);
    k := RowOf(db.headers, sources, g);
    var i :| 0 <= i < |t.db.headers| && t.db.headers[i].id == t.id && t.db.headers[i].course == course;
    assert t.db.headers[k] == db.headers[k];
    CoursesHaveIds(t.db.headers, t.db.nextId, k, i);
  }

  lemma RowOf(headers: seq<Header>, list: seq<Header>, g: Header) returns (k: nat)
    requires Listed(headers, list) && g in list
    ensures k < |headers| && headers[k].(template := g.template) == g && headers[k].id == g.id && headers[k].course == g.course
  {
    k :| 0 <= k < |headers| && headers[k].(template := g.template) == g;
  }

  // What cloning one syllabus leaves of another with a different course: its row, its cells.
  lemma OneSparesOther(db: Db, cal: Calendar, h: Header, sources: seq<Header>, targets: seq<Header>, cycle: Id, after: Db, g: Header)
    requires Cloning(db, sources, targets, cycle) && CloneOne(db, cal, h, targets, cycle) == Success(after)
    requires g in sources && g.course != h.course
    ensures Inv(after) && HeadersGrow(db.headers, after.headers) && Listed(after.headers, sources) && Listed(after.headers, targets)
    ensures FindActive(after.headers, g.id) == FindActive(db.headers, g.id)
    ensures OfSyllabus(after.cells, g.id) == OfSyllabus(db.cells, g.id)
  {
    CloneOneKeepsInv(db, cal, h, targets, cycle);
    ListedGrows(db.headers, after.headers, sources);
    ListedGrows(db.headers, after.headers, targets);
    var t := FindTaker(db, targets, cycle, h.course).value;
    TakerFacts(db, targets, cycle, h.course, t);
    var k := TakerIsApart(db, sources, targets, cycle, h.course, t, g);
    CloneSparesOthers(t.db, cal, t.id, h.id, Some(ActiveWeeksOf(cal, cycle)), after, k);
    FoundIs(db.headers, db.nextId, k);
    FoundIs(after.headers, after.nextId, k);
  }

  // The rows of a cycle clone: same cycle, course and activity as before, and at most one created for a course.
  lemma OneSparesTaker(db: Db, cal: Calendar, h: Header, sources: seq<Header>, targets: seq<Header>, cycle: Id, after: Db, course: Id)
    requires Cloning(db, sources, targets, cycle) && CloneOne(db, cal, h, targets, cycle) == Success(after) && course != h.course
    ensures TakerReady(after.headers, targets, cycle, course) <==> TakerReady(db.headers, targets, cycle, course)
  {
    CloneOneKeepsInv(db, cal, h, targets, cycle);
    ListedGrows(db.headers, after.headers, targets);
    match TargetFor(targets, course)
    case Some(t) =>
      FoundListed(db.headers, db.nextId, targets, t);
      FoundListed(after.headers, after.nextId, targets, t);
    case None =>
      var t := FindTaker(db, targets, cycle, h.course).value;
      TakerFacts(db, targets, cycle, h.course, t);
      CloneGrows(t.db, cal, t.id, h.id, Some(ActiveWeeksOf(cal, cycle)));
      CloneKeepsCount(t.db, cal, t.id, h.id, Some(ActiveWeeksOf(cal, cycle)));
      SameActiveRows(db.headers, t.db.headers, after.headers, cycle, h.course, course);
  }

  lemma CloneKeepsCount(db: Db, cal: Calendar, target: Id, source: Id, targetWeeks: Option<seq<int>>)
    requires Clone(db, cal, target, source, targetWeeks).Success?
    ensures |Clone(db, cal, target, source, targetWeeks).value.headers| == |db.headers|
  {
  }

  lemma SameActiveRows(before: seq<Header>, mid: seq<Header>, after: seq<Header>, cycle: Id, created: Id, course: Id)
    requires |mid| == |after| && HeadersGrow(mid, after) && created != course
    requires mid == before || exists id :: mid == before + [Header(id, cycle, created, None, true)]
    ensures (forall h | h in after :: !(h.active && h.cycle == cycle && h.course == course))
       <==> (forall h | h in before :: !(h.active && h.cycle == cycle && h.course == course))
  {
    forall i | 0 <= i < |mid| ensures after[i].active == mid[i].active && after[i].cycle == mid[i].cycle && after[i].course == mid[i].course {
      assert after[i].(template := mid[i].template) == mid[i];
    }
    if forall h | h in after :: !(h.active && h.cycle == cycle && h.course == course) {
      forall h | h in before ensures !(h.active && h.cycle == cycle && h.course == course) {
        var i :| 0 <= i < |before| && before[i] == h;
        assert mid[i] == h && after[i] in after;
      }
    }
    if forall h | h in before :: !(h.active && h.cycle == cycle && h.course == course) {
      forall h | h in after ensures !(h.active && h.cycle == cycle && h.course == course) {
        var i :| 0 <= i < |after| && after[i] == h;
        if i < |before| { assert mid[i] == before[i] && before[i] in before; }
      }
    }
  }

  lemma OthersStayReady(db: Db, cal: Calendar, h: Header, sources: seq<Header>, targets: seq<Header>, cycle: Id, after: Db, g: Header)
    requires Cloning(db, sources, targets, cycle) && CloneOne(db, cal, h, targets, cycle) == Success(after)
    requires g in sources && g.course != h.course
    ensures Cloning(after, sources, targets, cycle)
    ensures Ready(after, cal, g, targets, cycle) <==> Ready(db, cal, g, targets, cycle)
  {
    OneSparesOther(db, cal, h, sources, targets, cycle, after, g);
    OneSparesTaker(db, cal, h, sources, targets, cycle, after, g.course);
  }

  ghost predicate CoursesApart(sources: seq<Header>) { forall i, j | 0 <= i < j < |sources| :: sources[i].course != sources[j].course }

  lemma {:induction false} CloneEachSucceedsIff(db: Db, cal: Calendar, all: seq<Header>, sources: seq<Header>, targets: seq<Header>, cycle: Id)
    requires Cloning(db, all, targets, cycle) && CoursesApart(sources) && forall h | h in sources :: h in all
    ensures CloneEach(db, cal, sources, targets, cycle).Success? <==> forall h | h in sources :: Ready(db, cal, h, targets, cycle)
    decreases |sources|
  {
    if sources != [] {
      var first, rest := CloneOne(db, cal, sources[0], targets, cycle), sources[1..];
      CloneOneSucceedsIff(db, cal, sources[0], all, targets, cycle);
      if first.Success? {
        KeepsCloning(db, cal, sources[0], all, targets, cycle, first.value);
        forall h | h in rest ensures Ready(first.value, cal, h, targets, cycle) <==> Ready(db, cal, h, targets, cycle) {
          var i :| 0 <= i < |rest| && rest[i] == h;
          assert sources[i + 1] == h;
          OthersStayReady(db, cal, sources[0], all, targets, cycle, first.value, h);
        }
        CloneEachSucceedsIff(first.value, cal, all, rest, targets, cycle);
      }
    }
  }

  lemma KeepsCloning(db: Db, cal: Calendar, h: Header, sources: seq<Header>, targets: seq<Header>, cycle: Id, after: Db)
    requires Cloning(db, sources, targets, cycle) && CloneOne(db, cal, h, targets, cycle) == Success(after)
    ensures Cloning(after, sources, targets, cycle)
  {
    CloneOneKeepsInv(db, cal, h, targets, cycle);
    ListedGrows(db.headers, after.headers, sources);
    ListedGrows(db.headers, after.headers, targets);
  }

  // Row k is the last of its cycle and course.
  ghost predicate IsLastOf(headers: seq<Header>, k: nat, cycle: Id, course: Id) {
    && k < |headers| && headers[k].cycle == cycle && headers[k].course == course
    && forall j | k < j < |headers| :: !(headers[j].cycle == cycle && headers[j].course == course)
  }

  // What a caller can check of one syllabus before the clone: it is active, so is the last row of the target
  // cycle for its course, if there is one, and its templates and cells can go there.
  ghost predicate CanBeCloned(db: Db, cal: Calendar, h: Header, target: Id) {
    && h.active
    && (forall k: nat | IsLastOf(db.headers, k, target, h.course) :: db.headers[k].active)
    && Clonable(cal, db.cells, h, target, ActiveWeeksOf(cal, target))
  }

  lemma TargetStep(headers: seq<Header>, cycle: Id, course: Id)
    requires headers != []
    ensures var last := headers[|headers| - 1];
            TargetFor(OfCycle(headers, cycle), course)
              == if last.cycle == cycle && last.course == course then Some(last) else TargetFor(OfCycle(headers[..|headers| - 1], cycle), course)
  {
    var n := |headers| - 1;
    var own := OfCycle(headers[..n], cycle);
    if headers[n].cycle == cycle { assert (own + [headers[n]])[..|own|] == own; } else { assert own + [] == own; }
  }

  lemma LastOfRest(headers: seq<Header>, k: nat, cycle: Id, course: Id)
    requires headers != [] && !(headers[|headers| - 1].cycle == cycle && headers[|headers| - 1].course == course)
    ensures IsLastOf(headers, k, cycle, course) <==> IsLastOf(headers[..|headers| - 1], k, cycle, course)
  {
    var n := |headers| - 1;
    assert forall j | 0 <= j < n :: headers[..n][j] == headers[j];
  }

  lemma {:induction false} TargetIsLast(headers: seq<Header>, cycle: Id, course: Id)
    ensures match TargetFor(OfCycle(headers, cycle), course)
            case None => forall k: nat :: !IsLastOf(headers, k, cycle, course)
            case Some(t) => exists k: nat :: IsLastOf(headers, k, cycle, course) && headers[k] == t
  {
    if headers != [] {
      var n := |headers| - 1;
      TargetStep(headers, cycle, course);
      if headers[n].cycle == cycle && headers[n].course == course {
        assert IsLastOf(headers, n, cycle, course);
      } else {
        TargetIsLast(headers[..n], cycle, course);
        forall k: nat ensures IsLastOf(headers, k, cycle, course) <==> IsLastOf(headers[..n], k, cycle, course) { LastOfRest(headers, k, cycle, course); }
      }
    }
  }

  lemma OneLast(headers: seq<Header>, cycle: Id, course: Id, k: nat, l: nat)
    requires IsLastOf(headers, k, cycle, course) && IsLastOf(headers, l, cycle, course)
    ensures k == l
  {
  }

  lemma RowsAreListed(headers: seq<Header>, cycle: Id)
    ensures Listed(headers, OfCycle(headers, cycle))
  {
    forall h | h in OfCycle(headers, cycle) ensures exists i :: 0 <= i < |headers| && headers[i].(template := h.template) == h {
      var i :| 0 <= i < |headers| && headers[i] == h;
      assert headers[i].(template := h.template) == h;
    }
  }

  lemma ReadyAtStart(db: Db, cal: Calendar, h: Header, target: Id)
    requires Inv(db) && h in db.headers
    ensures Ready(db, cal, h, OfCycle(db.headers, target), target) <==> CanBeCloned(db, cal, h, target)
  {
    var targets := OfCycle(db.headers, target);
    var i :| 0 <= i < |db.headers| && db.headers[i] == h;
    FoundIs(db.headers, db.nextId, i);
    TargetIsLast(db.headers, target, h.course);
    ReadyIsClonable(cal, db.cells, h, target, ActiveWeeksOf(cal, target));
    match TargetFor(targets, h.course)
    case Some(t) =>
      var k: nat :| IsLastOf(db.headers, k, target, h.course) && db.headers[k] == t;
      FoundIs(db.headers, db.nextId, k);
      forall l: nat | IsLastOf(db.headers, l, target, h.course) ensures l == k { OneLast(db.headers, target, h.course, k, l); }
    case None =>
      forall g | g in db.headers ensures !(g.active && g.cycle == target && g.course == h.course) {
        if g.cycle == target { assert g in targets; }
      }
  }

  // In each cycle's list a row comes at most once, and at most one active row has a given course.
  lemma {:induction false} ActiveCoursesApart(headers: seq<Header>, nextId: Id, cycle: Id)
    requires HeadersOk(headers, nextId)
    requires forall h | h in OfCycle(headers, cycle) :: h.active
    ensures CoursesApart(OfCycle(headers, cycle))
  {
    if headers != [] {
      var n := |headers| - 1;
      ActiveCoursesApart(headers[..n], nextId, cycle);
      var before := OfCycle(headers[..n], cycle);
      if headers[n].cycle == cycle {
        assert OfCycle(headers, cycle) == before + [headers[n]];
        assert headers[n] in OfCycle(headers, cycle);
        forall i | 0 <= i < |before| ensures before[i].course != headers[n].course {
          assert before[i] in before && before[i] in headers[..n] && before[i] in OfCycle(headers, cycle);
          var k :| 0 <= k < n && headers[..n][k] == before[i];
          assert !SameActive(headers[k], headers[n]);
        }
      }
    }
  }

  /**
   Exactly when a cycle clone goes through: the source cycle has syllabuses, all of them are active, the last
   listed row of the target cycle for each course is active or there is none, and for each syllabus the
   templates it refers to have their namesakes and no two cells are sent to one. An archived row of either
   cycle in those places makes it fail.
   */
  lemma CloneCycleSucceedsIff(db: Db, cal: Calendar, target: Id, source: Id)
    requires Inv(db)
    ensures CloneCycle(db, cal, target, source).Success? <==>
            (OfCycle(db.headers, source) != [] && forall h | h in OfCycle(db.headers, source) :: CanBeCloned(db, cal, h, target))
  {
    var sources, targets := OfCycle(db.headers, source), OfCycle(db.headers, target);
    if h :| h in sources && !h.active {
      ArchivedSourceBlocksCycle(db, cal, target, source, h);
    } else {
      RowsAreListed(db.headers, source);
      RowsAreListed(db.headers, target);
      ActiveCoursesApart(db.headers, db.nextId, source);
      CloneEachSucceedsIff(db, cal, sources, sources, targets, target);
      forall h | h in sources ensures Ready(db, cal, h, targets, target) <==> CanBeCloned(db, cal, h, target) {
        ReadyAtStart(db, cal, h, target);
      }
    }
  }

  // ---------------------------------------------------------------- what a cycle clone moves

  lemma MovedReadsOwn(cal: Calendar, a: seq<Cell>, x: seq<Cell>, b: seq<Cell>, y: seq<Cell>, source: Id, from: Id, target: Id, to: Id, weeks: seq<int>)
    requires CellsMoved(cal, a, x, source, from, target, to, weeks)
    requires OfSyllabus(a, source) == OfSyllabus(b, source) && OfSyllabus(x, target) == OfSyllabus(y, target)
    ensures CellsMoved(cal, b, y, source, from, target, to, weeks)
  {
    SameOwn(a, b, source);
    SameOwn(x, y, target);
    forall c | c in b && Movable(cal, c, source, from, to, weeks) ensures HasTwin(cal, c, y, target, from, to) {
      TwinInOther(cal, c, x, y, target, from, to);
    }
    forall copy | copy in y && copy.syllabus == target ensures HasOrigin(cal, copy, b, source, from, target, to, weeks) {
      OriginInOther(cal, copy, a, b, source, from, target, to, weeks);
    }
  }

  lemma TwinInOther(cal: Calendar, c: Cell, x: seq<Cell>, y: seq<Cell>, target: Id, from: Id, to: Id)
    requires HasTwin(cal, c, x, target, from, to) && forall k: Cell | k.syllabus == target :: k in x <==> k in y
    ensures HasTwin(cal, c, y, target, from, to)
  {
    var copy :| copy in x && IsTwin(cal, c, copy, target, from, to);
    assert copy in y;
  }

  lemma OriginInOther(cal: Calendar, copy: Cell, a: seq<Cell>, b: seq<Cell>, source: Id, from: Id, target: Id, to: Id, weeks: seq<int>)
    requires HasOrigin(cal, copy, a, source, from, target, to, weeks) && forall k: Cell | k.syllabus == source :: k in a <==> k in b
    ensures HasOrigin(cal, copy, b, source, from, target, to, weeks)
  {
    var c :| c in a && Movable(cal, c, source, from, to, weeks) && IsTwin(cal, c, copy, target, from, to);
    assert c in b;
  }

  lemma SameOwn(a: seq<Cell>, b: seq<Cell>, syllabus: Id)
    requires OfSyllabus(a, syllabus) == OfSyllabus(b, syllabus)
    ensures forall c: Cell | c.syllabus == syllabus :: c in a <==> c in b
  {
    forall c: Cell | c.syllabus == syllabus ensures c in a <==> c in b {
      if c in a { OwnIsKept(a, syllabus, c); }
      if c in b { OwnIsKept(b, syllabus, c); }
    }
  }

  // An active syllabus of the cycle has the course of h, and the copies of the cells h had in `before`.
  ghost predicate HasCopy(cal: Calendar, before: seq<Cell>, db: Db, h: Header, cycle: Id) {
    exists t :: t in db.headers && t.active && t.cycle == cycle && t.course == h.course
                && CellsMoved(cal, before, db.cells, h.id, h.cycle, t.id, cycle, ActiveWeeksOf(cal, cycle))
  }

  lemma CopyMade(db: Db, cal: Calendar, h: Header, sources: seq<Header>, targets: seq<Header>, cycle: Id, after: Db)
    requires Cloning(db, sources, targets, cycle) && CloneOne(db, cal, h, targets, cycle) == Success(after) && h in sources
    ensures HasCopy(cal, db.cells, after, h, cycle)
  {
    var taken := FindTaker(db, targets, cycle, h.course).value;
    TakerFacts(db, targets, cycle, h.course, taken);
    var i :| 0 <= i < |taken.db.headers| && taken.db.headers[i].id == taken.id && taken.db.headers[i].cycle == cycle && taken.db.headers[i].course == h.course;
    var k :| 0 <= k < |db.headers| && db.headers[k].(template := h.template) == h;
    assert taken.db.headers[k] == db.headers[k];
    FoundIs(taken.db.headers, taken.db.nextId, i);
    FoundIs(taken.db.headers, taken.db.nextId, k);
    var t, s := taken.db.headers[i], taken.db.headers[k];
    var plan := CloneIsWrite(taken.db, cal, taken.id, h.id, Some(ActiveWeeksOf(cal, cycle)));
    CloneMovesCells(taken.db, cal, taken.id, h.id, Some(ActiveWeeksOf(cal, cycle)), after, t, s, ActiveWeeksOf(cal, cycle));
    CloneSetsDefaultTemplate(taken.db, cal, taken.id, h.id, Some(ActiveWeeksOf(cal, cycle)), after, t, s, i);
    assert after.headers[i] in after.headers;
  }

  // A copy made stays through the clones of other courses.
  lemma CopyStays(before: seq<Cell>, db: Db, cal: Calendar, h: Header, g: Header, targets: seq<Header>, cycle: Id, after: Db)
    requires Cloning(db, [], targets, cycle) && CloneOne(db, cal, g, targets, cycle) == Success(after) && g.course != h.course
    requires HasCopy(cal, before, db, h, cycle)
    ensures HasCopy(cal, before, after, h, cycle)
  {
    var t :| t in db.headers && t.active && t.cycle == cycle && t.course == h.course
             && CellsMoved(cal, before, db.cells, h.id, h.cycle, t.id, cycle, ActiveWeeksOf(cal, cycle));
    var k :| 0 <= k < |db.headers| && db.headers[k] == t;
    assert db.headers[k].(template := t.template) == t;
    OneSparesOther(db, cal, g, [t], targets, cycle, after, t);
    var i :| 0 <= i < |after.headers| && after.headers[i].(template := t.template) == t;
    MovedReadsOwn(cal, before, db.cells, before, after.cells, h.id, h.cycle, t.id, cycle, ActiveWeeksOf(cal, cycle));
    assert after.headers[i] in after.headers;
  }

  lemma {:induction false} CopyStaysThrough(before: seq<Cell>, db: Db, cal: Calendar, h: Header, sources: seq<Header>, targets: seq<Header>, cycle: Id, after: Db)
    requires Cloning(db, [], targets, cycle) && CloneEach(db, cal, sources, targets, cycle) == Success(after)
    requires (forall g | g in sources :: g.course != h.course) && HasCopy(cal, before, db, h, cycle)
    ensures HasCopy(cal, before, after, h, cycle)
    decreases |sources|
  {
    if sources != [] {
      var first := CloneOne(db, cal, sources[0], targets, cycle).value;
      CopyStays(before, db, cal, h, sources[0], targets, cycle, first);
      KeepsCloning(db, cal, sources[0], [], targets, cycle, first);
      CopyStaysThrough(before, first, cal, h, sources[1..], targets, cycle, after);
    }
  }

  lemma {:induction false} EachMoves(db: Db, cal: Calendar, all: seq<Header>, sources: seq<Header>, targets: seq<Header>, cycle: Id, after: Db, i: nat)
    requires Cloning(db, all, targets, cycle) && CoursesApart(sources) && (forall h | h in sources :: h in all)
    requires CloneEach(db, cal, sources, targets, cycle) == Success(after) && i < |sources|
    ensures HasCopy(cal, db.cells, after, sources[i], cycle)
    decreases |sources|
  {
    var first, rest := CloneOne(db, cal, sources[0], targets, cycle).value, sources[1..];
    KeepsCloning(db, cal, sources[0], all, targets, cycle, first);
    if i == 0 {
      CopyMade(db, cal, sources[0], all, targets, cycle, first);
      CopyStaysThrough(db.cells, first, cal, sources[0], rest, targets, cycle, after);
    } else {
      EachMoves(first, cal, all, rest, targets, cycle, after, i - 1);
      OneSparesOther(db, cal, sources[0], all, targets, cycle, first, sources[i]);
      var h := sources[i];
      var t :| t in after.headers && t.active && t.cycle == cycle && t.course == h.course
               && CellsMoved(cal, first.cells, after.cells, h.id, h.cycle, t.id, cycle, ActiveWeeksOf(cal, cycle));
      MovedReadsOwn(cal, first.cells, after.cells, db.cells, after.cells, h.id, h.cycle, t.id, cycle, ActiveWeeksOf(cal, cycle));
    }
  }

  /** A cycle clone moves every syllabus: each of the source cycle ends copied, cell by cell as it was, in an active one of the target cycle. */
  lemma CloneCycleMovesCells(db: Db, cal: Calendar, target: Id, source: Id, after: Db, h: Header)
    requires Inv(db) && CloneCycle(db, cal, target, source) == Success(after) && h in db.headers && h.cycle == source
    ensures HasCopy(cal, db.cells, after, h, target)
  {
    var sources, targets := OfCycle(db.headers, source), OfCycle(db.headers, target);
    RowsAreListed(db.headers, source);
    RowsAreListed(db.headers, target);
    CloneCycleSucceedsIff(db, cal, target, source);
    ActiveCoursesApart(db.headers, db.nextId, source);
    var i :| 0 <= i < |sources| && sources[i] == h;
    EachMoves(db, cal, sources, sources, targets, target, after, i);
  }

  // ---------------------------------------------------------------- every run

  datatype Op =
    | AddOp(cell: Cell, poisoned: bool)
    | UpdateOp(id: Id, syllabus: Id, count: int)
    | DeleteOp(id: Id, syllabus: Id)
    | CloneOp(cal: Calendar, target: Id, source: Id, targetWeeks: Option<seq<int>>)
    | CloneCycleOp(cal: Calendar, targetCycle: Id, sourceCycle: Id)

  function Outcome(db: Db, op: Op): Result<Db, Error> {
    match op
    case AddOp(cell, poisoned) => Add(db, cell, poisoned)
    case UpdateOp(id, syllabus, count) => Update(db, id, syllabus, count)
    case DeleteOp(id, syllabus) => Delete(db, id, syllabus)
    case CloneOp(cal, target, source, weeks) => Clone(db, cal, target, source, weeks)
    case CloneCycleOp(cal, target, source) => CloneCycle(db, cal, target, source)
  }

  // A failed operation changes nothing.
  function Committed(db: Db, r: Result<Db, Error>): Db { if r.Success? then r.value else db }

  function RunAll(db: Db, ops: seq<Op>): Db {
    if ops == [] then db else
    var before := RunAll(db, ops[..|ops| - 1]);
    Committed(before, Outcome(before, ops[|ops| - 1]))
  }

  // The counts a request body may carry.
  ghost predicate ValidOp(op: Op) {
    (op.AddOp? ==> 1 <= op.cell.count <= 100) && (op.UpdateOp? ==> 1 <= op.count <= 100)
  }

  /** Over every run of edits and clones, failed ones included, every week of every syllabus stays within the limit. */
  lemma {:induction false} EveryRunKeepsInv(db: Db, ops: seq<Op>)
    requires Inv(db) && forall k | 0 <= k < |ops| :: ValidOp(ops[k])
    ensures Inv(RunAll(db, ops))
    ensures forall syllabus, week :: WeekSum(RunAll(db, ops).cells, syllabus, week, None) <= 100
  {
    if ops != [] {
      var n := |ops| - 1;
      EveryRunKeepsInv(db, ops[..n]);
      var before := RunAll(db, ops[..n]);
      if Outcome(before, ops[n]).Success? {
        match ops[n]
        case AddOp(cell, poisoned) => AddKeepsInv(before, cell, poisoned);
        case UpdateOp(id, syllabus, count) => UpdateKeepsInv(before, id, syllabus, count);
        case DeleteOp(id, syllabus) => DeleteKeepsInv(before, id, syllabus);
        case CloneOp(cal, target, source, weeks) => CloneKeepsInv(before, cal, target, source, weeks);
        case CloneCycleOp(cal, target, source) => CloneCycleKeepsInv(before, cal, target, source);
      }
    }
  }

  // ---------------------------------------------------------------- the service

  class SyllabusUseCase {
    var db: Db

    constructor (tables: Db)
      ensures db == tables
    {
      db := tables;
    }

    method AddDistribution(cell: Cell, poisoned: bool) returns (r: Result<(), Error>)
      modifies this
      ensures db == Committed(old(db), Add(old(db), cell, poisoned))
      ensures r.Success? <==> WeekSum(old(db).cells, cell.syllabus, cell.week, None) + cell.count <= 100
                              && !(poisoned && exists c :: c in old(db).cells && SameCell(c, cell))
    {
      var sum := SumWeekQuestionCount(cell.syllabus, cell.week, None);
      if sum + cell.count > WEEKLY_QUESTION_LIMIT { return Failure(WeekFull); }
      var existing := FindSame(db.cells, cell);
      match existing {
        case None => db := db.(cells := db.cells + [cell.(id := db.nextId)], nextId := db.nextId + 1);
        case Some(k) =>
          assert db.cells[k] in db.cells;
          if poisoned { return Failure(DuplicateCell); }
          db := db.(cells := db.cells[k := db.cells[k].(count := cell.count)]);
      }
      return Success(());
    }

    method SumWeekQuestionCount(syllabus: Id, week: int, except: Option<Id>) returns (sum: int)
      ensures sum == WeekSum(db.cells, syllabus, week, except)
    {
      sum := 0;
      for k := 0 to |db.cells|
        invariant sum == WeekSum(db.cells[..k], syllabus, week, except)
      {
        var c := db.cells[k];
        assert db.cells[..k + 1][..k] == db.cells[..k];
        if c.syllabus == syllabus && c.week == week && Some(c.id) != except { sum := sum + c.count; }
      }
      assert db.cells[..|db.cells|] == db.cells;
    }

    method UpdateDistributionQuantity(id: Id, syllabus: Id, count: int) returns (r: Result<(), Error>)
      modifies this
      ensures db == Committed(old(db), Update(old(db), id, syllabus, count))
      ensures r.Success? <==> Update(old(db), id, syllabus, count).Success?
    {
      var found := FindCell(db.cells, id, syllabus);
      if found.Some? {
        var others := SumWeekQuestionCount(syllabus, db.cells[found.value].week, Some(id));
        if others + count > WEEKLY_QUESTION_LIMIT { return Failure(WeekFull); }
      }
      if found.None? { return Failure(NotFound); }
      db := db.(cells := db.cells[found.value := db.cells[found.value].(count := count)]);
      return Success(());
    }

    method DeleteDistribution(id: Id, syllabus: Id) returns (r: Result<(), Error>)
      modifies this
      ensures db == Committed(old(db), Delete(old(db), id, syllabus))
      ensures r.Success? <==> Delete(old(db), id, syllabus).Success?
    {
      var found := FindCell(db.cells, id, syllabus);
      if found.None? { return Failure(NotFound); }
      db := db.(cells := db.cells[..found.value] + db.cells[found.value + 1..]);
      return Success(());
    }

    // The batch of a clone, cell by cell.
    method CopyDistributions(from: seq<Cell>, target: Id, weeks: seq<int>, same: bool, mapping: Mapping) returns (batch: seq<Cell>)
      ensures batch == Copied(from, target, weeks, same, mapping, db.nextId)
    {
      batch := [];
      for k := 0 to |from|
        invariant batch == Copied(from[..k], target, weeks, same, mapping, db.nextId)
      {
        var c := from[k];
        assert from[..k + 1][..k] == from[..k];
        if c.week !in weeks { continue; }
        var template := c.template;
        if c.template.Some? {
          template := if c.template.value in mapping then mapping[c.template.value] else if same then c.template else None;
          if template.None? { continue; }
        }
        batch := batch + [Cell(db.nextId + |batch|, target, template, c.week, c.topic, c.subtopic, c.count)];
      }
      assert from[..|from|] == from;
    }

    /** The weeks of the batch that pass the limit, summed in one pass; none means the batch may be stored. */
    method AssertCloneWeeklyLimits(batch: seq<Cell>, target: Id) returns (offending: set<int>)
      requires forall c | c in batch :: c.syllabus == target
      ensures forall week :: week in offending <==> (exists c :: c in batch && c.week == week) && WeekSum(batch, target, week, None) > WEEKLY_QUESTION_LIMIT
      ensures offending == {} <==> !OverLimit(batch, target)
    {
      var sums: map<int, int> := map[];
      for k := 0 to |batch|
        invariant forall week :: week in sums <==> exists c :: c in batch[..k] && c.week == week
        invariant forall week :: WeekSum(batch[..k], target, week, None) == if week in sums then sums[week] else 0
      {
        var c := batch[k];
        assert batch[..k + 1][..k] == batch[..k] && batch[..k + 1] == batch[..k] + [c];
        assert c in batch;
        sums := sums[c.week := (if c.week in sums then sums[c.week] else 0) + c.count];
      }
      assert batch[..|batch|] == batch;
      offending := set week | week in sums && sums[week] > WEEKLY_QUESTION_LIMIT;
      if OverLimit(batch, target) {
        var i :| 0 <= i < |batch| && WeekSum(batch, target, batch[i].week, None) > WEEKLY_QUESTION_LIMIT;
        assert batch[i] in batch && batch[i].week in offending;
      }
      forall week | week in offending ensures OverLimit(batch, target) {
        var c :| c in batch && c.week == week;
        var i :| 0 <= i < |batch| && batch[i] == c;
      }
    }

    /** The target's cells are cleared first; an error afterwards brings them back with everything else. */
    method CloneSyllabus(cal: Calendar, target: Id, source: Id, targetWeeks: Option<seq<int>>) returns (r: Result<(), Error>)
      modifies this
      ensures db == Committed(old(db), Clone(old(db), cal, target, source, targetWeeks))
      ensures r == match Clone(old(db), cal, target, source, targetWeeks) case Success(_) => Success(()) case Failure(e) => Failure(e)
    {
      var before := db;
      var planned := PlanClone(db, cal, target, source, targetWeeks);
      if planned.Failure? { return Failure(planned.error); }
      var plan := planned.value;
      var from := OfSyllabus(db.cells, source);
      db := db.(cells := Without(db.cells, target));
      var batch := CopyDistributions(from, target, plan.weeks, SameCycle(plan), plan.mapping);
      assert batch == Batch(before, plan);
      CopiesBelong(from, target, plan.weeks, SameCycle(plan), plan.mapping, before.nextId);
      var offending := AssertCloneWeeklyLimits(batch, target);
      if offending != {} { db := before; return Failure(WeekFull); }
      if Collides(batch) { db := before; return Failure(DuplicateCell); }
      db := db.(cells := db.cells + batch, nextId := db.nextId + |batch|);
      db := db.(headers := SetTemplate(db.headers, target, DefaultTemplate(plan.source, plan.target, plan.mapping)));
      return Success(());
    }

    // One source syllabus onto its taker, inside the transaction of the whole clone.
    method CloneNext(cal: Calendar, source: Header, targets: seq<Header>, cycle: Id) returns (r: Result<(), Error>)
      modifies this
      ensures match CloneOne(old(db), cal, source, targets, cycle)
              case Success(after) => r == Success(()) && db == after
              case Failure(e) => r == Failure(e)
    {
      var taken := FindTaker(db, targets, cycle, source.course);
      if taken.Failure? { return Failure(taken.error); }
      db := taken.value.db;
      r := CloneSyllabus(cal, taken.value.id, source.id, Some(ActiveWeeksOf(cal, cycle)));
    }

    // Stops at the first error, leaving what was written for the caller to roll back.
    method CloneInTurn(cal: Calendar, sources: seq<Header>, targets: seq<Header>, cycle: Id) returns (r: Result<(), Error>)
      modifies this
      ensures match CloneEach(old(db), cal, sources, targets, cycle)
              case Success(after) => r == Success(()) && db == after
              case Failure(e) => r == Failure(e)
    {
      for k := 0 to |sources|
        invariant CloneEach(old(db), cal, sources, targets, cycle) == CloneEach(db, cal, sources[k..], targets, cycle)
      {
        assert sources[k..][0] == sources[k] && sources[k..][1..] == sources[k + 1..];
        r := CloneNext(cal, sources[k], targets, cycle);
        if r.Failure? { return; }
      }
      return Success(());
    }

    /** All syllabuses of the cycle or none: whatever fails midway, the tables are as they were before the call. */
    method CloneCycleSyllabuses(cal: Calendar, targetCycle: Id, sourceCycle: Id) returns (r: Result<nat, Error>)
      modifies this
      ensures db == Committed(old(db), CloneCycle(old(db), cal, targetCycle, sourceCycle))
      ensures r == match CloneCycle(old(db), cal, targetCycle, sourceCycle)
                   case Success(_) => Success(|OfCycle(old(db).headers, sourceCycle)|) case Failure(e) => Failure(e)
    {
      var before := db;
      var sources := OfCycle(db.headers, sourceCycle);
      if sources == [] { return Failure(EmptySource); }
      var cloned := CloneInTurn(cal, sources, OfCycle(db.headers, targetCycle), targetCycle);
      if cloned.Failure? {
        db := before;
        return Failure(cloned.error);
      }
      return Success(|sources|);
    }
  }

  lemma {:induction false} CopiesBelong(from: seq<Cell>, target: Id, weeks: seq<int>, same: bool, mapping: Mapping, nextId: Id)
    ensures forall c | c in Copied(from, target, weeks, same, mapping, nextId) :: c.syllabus == target
  {
    if from != [] { CopiesBelong(from[..|from| - 1], target, weeks, same, mapping, nextId); }
  }
}
