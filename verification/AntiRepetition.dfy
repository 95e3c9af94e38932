/**
 The anti-repetition promise end to end: generations plan against the ledger, free the rows of their
 material's earlier requests, and worker callbacks write the planned questions back.
 */
module AntiRepetition {
  import opened Wrappers
  import opened MaterialWebhook
  import opened QuestionSelection
  import opened MaterialQuota
  import opened ReviewPlan

  /** The exclusion set: every question recorded for the cycle and course, whatever the material. */
  function UsedInCycle(ledger: set<LedgerRow>, cycleId: Id, courseId: Id): set<Id> {
    set x | x in ledger && x.usage.cycleId == cycleId && x.courseId == courseId :: x.usage.questionId
  }

  // A generation of one material for one (cycle, course): planned, then saved as a request, then worked on.
  datatype Generation = Generation(materialId: Id, request: Option<Id>, rows: seq<ReviewRow>, courseOf: map<Id, Id>)

  datatype Key = Key(cycleId: Id, courseId: Id)

  datatype World = World(store: Store, active: map<Key, Generation>)

  datatype Event =
    | Plan(materialId: Id, cycleId: Id, bank: Bank, dists: seq<CourseDist>, parts: seq<seq<Slot>>, courseOf: map<Id, Id>)
    | Save(materialId: Id, cycleId: Id, weekNumber: nat, requestId: Id, jobs: map<Id, Id>, review: bool)
    | Work(call: Call, flat: set<Id>)
    | Approve(requestId: Id)
    | Finish(key: Key)

  ghost function PlanKeys(cycleId: Id, dists: seq<CourseDist>): set<Key> { set d | d in dists :: Key(cycleId, d.courseId) }

  ghost function JobKeys(cycleId: Id, jobs: map<Id, Id>): set<Key> { set j | j in jobs :: Key(cycleId, jobs[j]) }

  // A delivery that may reach the ledger: the guard lets it through and it reports a success.
  ghost predicate MayWriteLedger(s: Store, call: Call) {
    call.jobId.Some? && call.jobId.value in s.courses && !s.courses[call.jobId.value].status.IsSuccess()
    && MapStatus(call.status).Success? && MapStatus(call.status).value.IsSuccess() && call.usages != []
  }

  // The worker of an active generation, reporting what it loaded from the saved slots.
  ghost predicate ReportsPlan(w: World, call: Call, flat: set<Id>) {
    && call.jobId.Some? && call.jobId.value in w.store.courses
    && var row := w.store.courses[call.jobId.value];
    && row.requestId in w.store.requests
    && var key := Key(w.store.requests[row.requestId].cycleId, row.courseId);
    && key in w.active && w.active[key].request == Some(row.requestId)
    && call.usages == CourseUsages(w.active[key].rows, w.active[key].courseOf, row.courseId, flat, key.cycleId)
  }

  ghost predicate Enabled(w: World, e: Event) {
    match e
    case Plan(_, cycleId, bank, dists, parts, courseOf) =>
      && ValidBank(bank) && IsPlan(bank, Entries(dists), parts) && TopicsOfCourses(dists, courseOf)
      && (forall d | d in dists :: d.exclude == UsedInCycle(w.store.ledger, cycleId, d.courseId))
      && PlanKeys(cycleId, dists) !! w.active.Keys
    case Save(materialId, cycleId, _, requestId, jobs, _) =>
      && requestId !in w.store.requests && jobs.Keys !! w.store.courses.Keys
      && (forall k | k in JobKeys(cycleId, jobs) :: k in w.active && w.active[k].materialId == materialId && w.active[k].request.None?)
    case Work(call, flat) => MayWriteLedger(w.store, call) ==> ReportsPlan(w, call, flat)
    case Approve(requestId) => true
    case Finish(key) => true
  }

  ghost function RequestsOf(s: Store, materialId: Id): set<Id> {
    set q | q in s.requests && s.requests[q].materialId == Some(materialId)
  }

  ghost function FreedLedger(s: Store, materialId: Id): set<LedgerRow> {
    set x | x in s.ledger && x.requestId !in RequestsOf(s, materialId)
  }

  ghost function Next(w: World, e: Event): World
    requires Enabled(w, e)
  {
    match e
    case Plan(materialId, cycleId, bank, dists, parts, courseOf) =>
      w.(active := w.active + map k | k in PlanKeys(cycleId, dists) :: Generation(materialId, None, SavedRows(Concat(parts)), courseOf))
    case Save(materialId, cycleId, weekNumber, requestId, jobs, review) =>
      var status := if review then ReviewRequired else RequestProcessing;
      World(w.store.(
              ledger := FreedLedger(w.store, materialId),
              requests := w.store.requests[requestId := RequestRow(status, cycleId, weekNumber, Some(materialId))],
              materials := w.store.materials[materialId := status],
              courses := w.store.courses + map j | j in jobs ::
                CourseRow(requestId, jobs[j], if review then Pending else Processing, "", "", "", None, None, None, None)),
            map k | k in w.active :: if k in JobKeys(cycleId, jobs) then w.active[k].(request := Some(requestId)) else w.active[k])
    case Work(call, _) => w.(store := Deliver(w.store, call))
    case Approve(requestId) =>
      // An approval puts the request and its courses back to work; only requests still being worked on may write again.
      w.(store := w.store.(
           requests := map q | q in w.store.requests :: if q == requestId then w.store.requests[q].(status := RequestProcessing) else w.store.requests[q],
           materials := map m | m in w.store.materials ::
             if requestId in w.store.requests && w.store.requests[requestId].materialId == Some(m) then RequestProcessing else w.store.materials[m],
           courses := map j | j in w.store.courses ::
             if w.store.courses[j].requestId == requestId then w.store.courses[j].(status := Processing) else w.store.courses[j]))
    case Finish(key) => w.(active := w.active - {key})
  }

  // ---------------------------------------------------------------- the promise

  /** A question recorded twice for a cycle and course was recorded for one and the same material. */
  ghost predicate NoRepeat(s: Store) {
    forall x, y | x in s.ledger && y in s.ledger ::
      x.usage.cycleId == y.usage.cycleId && x.courseId == y.courseId && x.usage.questionId == y.usage.questionId ==>
        x.requestId in s.requests && y.requestId in s.requests && s.requests[x.requestId].materialId == s.requests[y.requestId].materialId
  }

  ghost predicate RowsHaveRequests(s: Store) {
    forall x | x in s.ledger :: x.requestId in s.requests && s.requests[x.requestId].cycleId == x.usage.cycleId
  }

  // While a generation is active, only its own request may hold a planned question of its cycle and course.
  ghost predicate Reserved(s: Store, k: Key, g: Generation) {
    && (g.request.Some? ==> g.request.value in s.requests && s.requests[g.request.value].cycleId == k.cycleId)
    && forall x | x in s.ledger && x.usage.cycleId == k.cycleId && x.courseId == k.courseId ::
         x.usage.questionId in Planned(g.rows, g.courseOf, k.courseId) ==> g.request == Some(x.requestId)
  }

  ghost predicate Inv(w: World) {
    NoRepeat(w.store) && RowsHaveRequests(w.store) && forall k | k in w.active :: Reserved(w.store, k, w.active[k])
  }

  lemma PlanKeepsInv(w: World, e: Event)
    requires e.Plan? && Inv(w) && Enabled(w, e)
    ensures Inv(Next(w, e))
  {
    var w' := Next(w, e);
    forall k | k in w'.active ensures Reserved(w'.store, k, w'.active[k]) {
      if k in PlanKeys(e.cycleId, e.dists) {
        var d :| d in e.dists && k == Key(e.cycleId, d.courseId);
        PlannedAvoidsExcluded(e.bank, e.dists, e.parts, e.courseOf, d);
        forall x | x in w.store.ledger && x.usage.cycleId == k.cycleId && x.courseId == k.courseId
          ensures x.usage.questionId in d.exclude
        {
        }
      } else {
        assert Reserved(w.store, k, w.active[k]);
      }
    }
  }

  lemma SaveKeepsInv(w: World, e: Event)
    requires e.Save? && Inv(w) && Enabled(w, e)
    ensures Inv(Next(w, e))
  {
    var w' := Next(w, e);
    assert w'.store.ledger <= w.store.ledger;
    forall k | k in w'.active ensures Reserved(w'.store, k, w'.active[k]) {
      assert Reserved(w.store, k, w.active[k]);
    }
  }

  /**
   A save frees exactly the rows of its own material's earlier requests, and adds one request of that material
   with a course row for each job; every other request, course and ledger row stays as it was.
   */
  lemma SaveFreesOwnRows(w: World, e: Event)
    requires e.Save? && Enabled(w, e)
    ensures var s, s' := w.store, Next(w, e).store;
            && (forall x :: x in s'.ledger <==>
                  x in s.ledger && !(x.requestId in s.requests && s.requests[x.requestId].materialId == Some(e.materialId)))
            && (forall q | q in s.requests :: q in s'.requests && s'.requests[q] == s.requests[q])
            && s'.requests.Keys == s.requests.Keys + {e.requestId}
            && s'.requests[e.requestId].materialId == Some(e.materialId) && s'.requests[e.requestId].cycleId == e.cycleId
            && (forall j | j in s.courses :: j in s'.courses && s'.courses[j] == s.courses[j])
            && s'.courses.Keys == s.courses.Keys + e.jobs.Keys
            && forall j | j in e.jobs :: s'.courses[j].requestId == e.requestId && s'.courses[j].courseId == e.jobs[j] && !s'.courses[j].status.IsSuccess()
  {
  }

  /**
   An approval puts its request, that request's material and courses back to work and touches no other row, the
   ledger least of all; a finished generation gives up its cycle and course for the next, and nothing else.
   */
  lemma ApproveAndFinish(w: World, e: Event)
    requires (e.Approve? || e.Finish?) && Enabled(w, e)
    ensures Next(w, e).store.ledger == w.store.ledger
    ensures e.Finish? ==> Next(w, e).store == w.store && Next(w, e).active.Keys == w.active.Keys - {e.key}
    ensures forall k | k in w.active && e != Finish(k) :: k in Next(w, e).active && Next(w, e).active[k] == w.active[k]
    ensures e.Approve? ==> var s, s' := w.store, Next(w, e).store;
              && s'.courses.Keys == s.courses.Keys && s'.requests.Keys == s.requests.Keys && s'.materials.Keys == s.materials.Keys
              && (forall j | j in s.courses && s.courses[j].requestId == e.requestId :: s'.courses[j] == s.courses[j].(status := Processing))
              && (forall j | j in s.courses && s.courses[j].requestId != e.requestId :: s'.courses[j] == s.courses[j])
              && (e.requestId in s.requests ==> s'.requests[e.requestId] == s.requests[e.requestId].(status := RequestProcessing))
              && (forall q | q in s.requests && q != e.requestId :: s'.requests[q] == s.requests[q])
              && forall m | m in s.materials :: s'.materials[m] ==
                   if e.requestId in s.requests && s.requests[e.requestId].materialId == Some(m) then RequestProcessing else s.materials[m]
  {
  }

  /** What a delivery may add to the ledger, and the frame around it. */
  lemma DeliverLedger(s: Store, call: Call)
    ensures !MayWriteLedger(s, call) ==> Deliver(s, call).ledger == s.ledger
    ensures forall x | x in Deliver(s, call).ledger && x !in s.ledger ::
              call.jobId.Some? && call.jobId.value in s.courses
              && x.requestId == s.courses[call.jobId.value].requestId && x.courseId == s.courses[call.jobId.value].courseId
              && x.usage in call.usages
    ensures Deliver(s, call).requests.Keys == s.requests.Keys
    ensures forall q | q in s.requests ::
              Deliver(s, call).requests[q].cycleId == s.requests[q].cycleId && Deliver(s, call).requests[q].materialId == s.requests[q].materialId
  {
    if call.jobId.Some? && call.jobId.value in s.courses {
      var row := s.courses[call.jobId.value];
      ReplaceLedgerRows(s.ledger, row.requestId, row.courseId, call.usages);
    }
  }

  lemma WorkKeepsInv(w: World, e: Event)
    requires e.Work? && Inv(w) && Enabled(w, e)
    ensures Inv(Next(w, e))
  {
    var s, call, s' := w.store, e.call, Next(w, e).store;
    DeliverLedger(s, call);
    if MayWriteLedger(s, call) {
      var row := s.courses[call.jobId.value];
      var key := Key(s.requests[row.requestId].cycleId, row.courseId);
      var g := w.active[key];
      assert Reserved(s, key, g);
      forall x | x in s'.ledger && x !in s.ledger
        ensures x.requestId == row.requestId && x.courseId == row.courseId
                && x.usage.cycleId == key.cycleId && x.usage.questionId in Planned(g.rows, g.courseOf, row.courseId)
      {
      }
      NewRowsKeepNoRepeat(s, s', key, g);
      forall k | k in w.active ensures Reserved(s', k, w.active[k]) {
        assert Reserved(s, k, w.active[k]);
      }
    } else {
      forall k | k in w.active ensures Reserved(s', k, w.active[k]) { assert Reserved(s, k, w.active[k]); }
    }
  }

  lemma NewRowsKeepNoRepeat(s: Store, s': Store, key: Key, g: Generation)
    requires NoRepeat(s) && RowsHaveRequests(s) && Reserved(s, key, g) && g.request.Some?
    requires s'.requests.Keys == s.requests.Keys
    requires forall q | q in s.requests :: s'.requests[q].materialId == s.requests[q].materialId
    requires forall x | x in s'.ledger && x !in s.ledger ::
               x.requestId == g.request.value && x.courseId == key.courseId && x.usage.cycleId == key.cycleId
               && x.usage.questionId in Planned(g.rows, g.courseOf, key.courseId)
    ensures NoRepeat(s')
  {
  }

  lemma OtherKeepsInv(w: World, e: Event)
    requires (e.Approve? || e.Finish?) && Inv(w) && Enabled(w, e)
    ensures Inv(Next(w, e))
  {
    var w' := Next(w, e);
    forall k | k in w'.active ensures Reserved(w'.store, k, w'.active[k]) { assert Reserved(w.store, k, w.active[k]); }
  }

  ghost predicate Reaches(w: World, events: seq<Event>, final: World)
    decreases |events|
  {
    if events == [] then final == w else Enabled(w, events[0]) && Reaches(Next(w, events[0]), events[1..], final)
  }

  lemma {:induction false} InvAlongRun(w: World, events: seq<Event>, final: World)
    requires Inv(w) && Reaches(w, events, final)
    ensures Inv(final)
    decreases |events|
  {
    if events != [] {
      var e := events[0];
      if e.Plan? { PlanKeepsInv(w, e); }
      else if e.Save? { SaveKeepsInv(w, e); }
      else if e.Work? { WorkKeepsInv(w, e); }
      else { OtherKeepsInv(w, e); }
      InvAlongRun(Next(w, e), events[1..], final);
    }
  }

  ghost function MaterialQuestions(s: Store, materialId: Id, cycleId: Id, courseId: Id): set<Id> {
    set x | x in s.ledger && x.requestId in RequestsOf(s, materialId) && x.usage.cycleId == cycleId && x.courseId == courseId
      :: x.usage.questionId
  }

  /**
   Anti-repetition: in every run where a generation of a cycle and course is planned only after the
   previous one's callbacks are over, different materials of that cycle and course hold disjoint
   questions, across regenerations, failures, redeliveries and rolled-back ledger writes.
   */
  lemma MaterialsNeverShareQuestions(init: Store, events: seq<Event>, final: World, a: Id, b: Id, cycleId: Id, courseId: Id)
    requires NoRepeat(init) && RowsHaveRequests(init) && Reaches(World(init, map[]), events, final) && a != b
    ensures MaterialQuestions(final.store, a, cycleId, courseId) !! MaterialQuestions(final.store, b, cycleId, courseId)
  {
    InvAlongRun(World(init, map[]), events, final);
  }

  function QuestionsOf(rows: set<LedgerRow>): set<Id> { set x | x in rows :: x.usage.questionId }

  /** An accepted success whose ledger write succeeds records exactly the questions it delivered. */
  lemma SuccessRecordsDelivery(s: Store, call: Call)
    requires MayWriteLedger(s, call) && !call.ledgerFails && call.status != ""
    ensures QuestionsOf(RowsOf(Deliver(s, call).ledger, s.courses[call.jobId.value].requestId, s.courses[call.jobId.value].courseId))
         == set u | u in call.usages :: u.questionId
  {
    var row := s.courses[call.jobId.value];
    ReplaceLedgerRows(s.ledger, row.requestId, row.courseId, call.usages);
    var recorded := QuestionsOf(RowsOf(Deliver(s, call).ledger, row.requestId, row.courseId));
    forall u | u in call.usages ensures u.questionId in recorded {
      var i: nat :| i < |call.usages| && call.usages[i] == u;
      CollapsedQuestions(row.requestId, row.courseId, call.usages, i);
      var j: nat :| j <= i && FirstOfQuestion(call.usages, j) && call.usages[j].questionId == u.questionId
                    && LedgerRow(row.requestId, row.courseId, call.usages[j]) in Collapsed(row.requestId, row.courseId, call.usages);
    }
  }

  // An accepted delivery leaves a row for each question it carries.
  lemma DeliveryRow(s: Store, call: Call, cycleId: Id, q: Id) returns (row: LedgerRow)
    requires MayWriteLedger(s, call) && !call.ledgerFails && call.status != ""
    requires (forall u | u in call.usages :: u.cycleId == cycleId) && exists u :: u in call.usages && u.questionId == q
    ensures row in Deliver(s, call).ledger && row.usage.cycleId == cycleId && row.usage.questionId == q
    ensures row.requestId == s.courses[call.jobId.value].requestId && row.courseId == s.courses[call.jobId.value].courseId
  {
    var c := s.courses[call.jobId.value];
    ReplaceLedgerRows(s.ledger, c.requestId, c.courseId, call.usages);
    var i: nat :| i < |call.usages| && call.usages[i].questionId == q;
    CollapsedQuestions(c.requestId, c.courseId, call.usages, i);
    var j: nat :| j <= i && FirstOfQuestion(call.usages, j) && call.usages[j].questionId == q
                  && LedgerRow(c.requestId, c.courseId, call.usages[j]) in Collapsed(c.requestId, c.courseId, call.usages);
    assert call.usages[j] in call.usages;
    row := LedgerRow(c.requestId, c.courseId, call.usages[j]);
  }

  // The questions of a course in a plan that the bank still serves.
  ghost function Served(slots: seq<Slot>, courseOf: map<Id, Id>, courseId: Id, flat: set<Id>): set<Id> {
    set i | 0 <= i < |slots| && slots[i].questionId.Some? && slots[i].questionId.value in flat
            && slots[i].topicId in courseOf && courseOf[slots[i].topicId] == courseId :: slots[i].questionId.value
  }

  lemma UsagesAreServed(slots: seq<Slot>, courseOf: map<Id, Id>, courseId: Id, flat: set<Id>, cycleId: Id)
    ensures (set u | u in CourseUsages(SavedRows(slots), courseOf, courseId, flat, cycleId) :: u.questionId) == Served(slots, courseOf, courseId, flat)
  {
    var us, l := CourseUsages(SavedRows(slots), courseOf, courseId, flat, cycleId), Loadable(SavedRows(slots), courseOf, courseId, flat);
    forall q | q in Served(slots, courseOf, courseId, flat) ensures exists u :: u in us && u.questionId == q {
      PlannedIsPrinted(slots, courseOf, courseId, flat, q);
      var x :| x in l && x.questionId == Some(q);
      var k :| 0 <= k < |l| && l[k] == x;
      UsageOfRow(SavedRows(slots), courseOf, courseId, flat, cycleId, k);
      assert us[k] in us;
    }
    forall u | u in us ensures u.questionId in Served(slots, courseOf, courseId, flat) {
      var k :| 0 <= k < |us| && us[k] == u;
      UsageOfRow(SavedRows(slots), courseOf, courseId, flat, cycleId, k);
      assert l[k] in l;
      PlannedIsPrinted(slots, courseOf, courseId, flat, u.questionId);
    }
  }

  // A plan, the save of its request, and the worker's report of one of its courses.
  ghost predicate IsGeneration(w: World, plan: Event, save: Event, call: Call, flat: set<Id>, j: Id) {
    && plan.Plan? && Enabled(w, plan) && save.Save? && Enabled(Next(w, plan), save) && save.cycleId == plan.cycleId
    && j in save.jobs && Key(save.cycleId, save.jobs[j]) in PlanKeys(plan.cycleId, plan.dists)
    && call.jobId == Some(j) && call.status == "completed" && !call.ledgerFails
    && call.usages == CourseUsages(SavedRows(Concat(plan.parts)), plan.courseOf, save.jobs[j], flat, plan.cycleId)
  }

  lemma GenerationMayReport(w: World, plan: Event, save: Event, call: Call, flat: set<Id>, j: Id)
    requires IsGeneration(w, plan, save, call, flat, j)
    ensures Enabled(Next(Next(w, plan), save), Work(call, flat))
  {
    var w1 := Next(w, plan);
    var w2 := Next(w1, save);
    SaveFreesOwnRows(w1, save);
    var key := Key(save.cycleId, save.jobs[j]);
    assert key in JobKeys(save.cycleId, save.jobs);
    assert w2.active[key].rows == SavedRows(Concat(plan.parts)) && w2.active[key].request == Some(save.requestId);
  }

  /** From plan to ledger: a generation's accepted report of a course records exactly the questions planned for it that the bank still serves. */
  lemma GenerationRecordsItsPlan(w: World, plan: Event, save: Event, call: Call, flat: set<Id>, j: Id)
    requires IsGeneration(w, plan, save, call, flat, j) && RowsHaveRequests(w.store)
    ensures Enabled(Next(Next(w, plan), save), Work(call, flat))
    ensures QuestionsOf(RowsOf(Next(Next(Next(w, plan), save), Work(call, flat)).store.ledger, save.requestId, save.jobs[j]))
         == Served(Concat(plan.parts), plan.courseOf, save.jobs[j], flat)
  {
    GenerationMayReport(w, plan, save, call, flat, j);
    var w2 := Next(Next(w, plan), save);
    SaveFreesOwnRows(Next(w, plan), save);
    UsagesAreServed(Concat(plan.parts), plan.courseOf, save.jobs[j], flat, plan.cycleId);
    if call.usages == [] {
      DeliverLedger(w2.store, call);
      assert RowsOf(w2.store.ledger, save.requestId, save.jobs[j]) == {};
    } else {
      SuccessRecordsDelivery(w2.store, call);
    }
  }

  // ---------------------------------------------------------------- a delivered question is remembered

  // The row's material is saved again, or its course's ledger replaced by another accepted success.
  ghost predicate Disturbs(w: World, e: Event, requestId: Id, courseId: Id) {
    match e
    case Save(materialId, _, _, _, _, _) => requestId in w.store.requests && w.store.requests[requestId].materialId == Some(materialId)
    case Work(call, _) =>
      && MayWriteLedger(w.store, call) && !call.ledgerFails
      && w.store.courses[call.jobId.value].requestId == requestId && w.store.courses[call.jobId.value].courseId == courseId
    case _ => false
  }

  ghost predicate Undisturbed(w: World, events: seq<Event>, requestId: Id, courseId: Id)
    decreases |events|
  {
    events != [] ==> Enabled(w, events[0]) && !Disturbs(w, events[0], requestId, courseId) && Undisturbed(Next(w, events[0]), events[1..], requestId, courseId)
  }

  lemma StepKeepsRecord(w: World, e: Event, x: LedgerRow)
    requires Enabled(w, e) && x in w.store.ledger && !Disturbs(w, e, x.requestId, x.courseId)
    ensures x in Next(w, e).store.ledger
  {
    if e.Work? { DeliverLedger(w.store, e.call); }
    if e.Work? && MayWriteLedger(w.store, e.call) {
      var row := w.store.courses[e.call.jobId.value];
      ReplaceLedgerRows(w.store.ledger, row.requestId, row.courseId, e.call.usages);
    }
  }

  /** A recorded question stays recorded through every run that neither saves its material again nor replaces its course's ledger. */
  lemma {:induction false} RecordStands(w: World, events: seq<Event>, final: World, x: LedgerRow)
    requires Reaches(w, events, final) && x in w.store.ledger && Undisturbed(w, events, x.requestId, x.courseId)
    ensures x in final.store.ledger
    decreases |events|
  {
    if events != [] {
      StepKeepsRecord(w, events[0], x);
      RecordStands(Next(w, events[0]), events[1..], final, x);
    }
  }

  // While a question is recorded nobody else plans it, nor delivers it.
  ghost predicate KeptFromOthers(w: World, x: LedgerRow) {
    && (forall e: Event, d | e.Plan? && Enabled(w, e) && e.cycleId == x.usage.cycleId && d in e.dists && d.courseId == x.courseId ::
          x.usage.questionId !in Planned(SavedRows(Concat(e.parts)), e.courseOf, d.courseId))
    && forall call, flat | Enabled(w, Work(call, flat)) && MayWriteLedger(w.store, call) ::
         var row := w.store.courses[call.jobId.value];
         row.requestId != x.requestId && row.courseId == x.courseId && w.store.requests[row.requestId].cycleId == x.usage.cycleId ==>
           forall u | u in call.usages :: u.questionId != x.usage.questionId
  }

  lemma RecordedIsKept(w: World, x: LedgerRow)
    requires Inv(w) && x in w.store.ledger
    ensures KeptFromOthers(w, x)
  {
    forall e: Event, d | e.Plan? && Enabled(w, e) && e.cycleId == x.usage.cycleId && d in e.dists && d.courseId == x.courseId
      ensures x.usage.questionId !in Planned(SavedRows(Concat(e.parts)), e.courseOf, d.courseId)
    {
      PlannedAvoidsExcluded(e.bank, e.dists, e.parts, e.courseOf, d);
      assert x.usage.questionId in d.exclude;
    }
    forall call, flat, u | Enabled(w, Work(call, flat)) && MayWriteLedger(w.store, call)
      && w.store.courses[call.jobId.value].requestId != x.requestId && w.store.courses[call.jobId.value].courseId == x.courseId
      && w.store.requests[w.store.courses[call.jobId.value].requestId].cycleId == x.usage.cycleId && u in call.usages
      ensures u.questionId != x.usage.questionId
    {
      var row := w.store.courses[call.jobId.value];
      var key := Key(w.store.requests[row.requestId].cycleId, row.courseId);
      assert Reserved(w.store, key, w.active[key]);
    }
  }

  // The state in which an accepted success is about to be delivered, with its question q.
  ghost predicate Delivering(w: World, call: Call, flat: set<Id>, q: Id) {
    && Enabled(w, Work(call, flat)) && MayWriteLedger(w.store, call) && !call.ledgerFails && call.status != ""
    && exists u :: u in call.usages && u.questionId == q
  }

  /**
   Anti-repetition over deliveries: a question delivered by an accepted success is recorded, and in every run
   after it that neither saves its material again nor replaces its course's ledger it stays recorded, and no
   other generation of that cycle and course plans or delivers it.
   */
  lemma DeliveredIsNotRepeated(init: Store, events: seq<Event>, w: World, call: Call, flat: set<Id>, q: Id, later: seq<Event>, final: World) returns (x: LedgerRow)
    requires NoRepeat(init) && RowsHaveRequests(init) && Reaches(World(init, map[]), events, w) && Delivering(w, call, flat, q)
    requires Reaches(Next(w, Work(call, flat)), later, final)
    requires Undisturbed(Next(w, Work(call, flat)), later, w.store.courses[call.jobId.value].requestId, w.store.courses[call.jobId.value].courseId)
    ensures x.requestId == w.store.courses[call.jobId.value].requestId && x.courseId == w.store.courses[call.jobId.value].courseId
    ensures x.requestId in w.store.requests && x.usage.cycleId == w.store.requests[x.requestId].cycleId && x.usage.questionId == q
    ensures x in final.store.ledger && KeptFromOthers(final, x)
  {
    InvAlongRun(World(init, map[]), events, w);
    var row := w.store.courses[call.jobId.value];
    x := DeliveryRow(w.store, call, w.store.requests[row.requestId].cycleId, q);
    WorkKeepsInv(w, Work(call, flat));
    InvAlongRun(Next(w, Work(call, flat)), later, final);
    RecordStands(Next(w, Work(call, flat)), later, final, x);
    RecordedIsKept(final, x);
  }

  /** Nothing else is held back: a slot stays EMPTY only if every question of its subtopic is recorded for that cycle and course, or planned in the topic. */
  lemma UnrecordedIsPlanned(w: World, e: Event, k: nat, i: nat, q: Id)
    requires e.Plan? && Enabled(w, e) && k < |Entries(e.dists)| && k < |e.parts| && i < |e.parts[k]|
    requires Entries(e.dists)[k].topic.quantity == |Entries(e.dists)[k].topic.levels| && e.parts[k][i].questionId.None?
    requires q in e.bank.questions && Mapping(q, Entries(e.dists)[k].topic.subtopicId) in e.bank.mappings
    requires forall x | x in w.store.ledger :: !(x.usage.cycleId == e.cycleId && x.courseId == Entries(e.dists)[k].courseId && x.usage.questionId == q)
    ensures q in QuestionIds(e.parts[k])
  {
    var entry := Entries(e.dists)[k];
    EntryOrigin(e.dists, entry);
    TopicPlanPassesNoneOver(e.bank, entry.topic, entry.exclude, e.parts[k], i, q);
    assert q in QuestionIds(e.parts[k][..i]);
    var j :| 0 <= j < i && e.parts[k][..i][j].questionId == Some(q);
    assert e.parts[k][j].questionId == Some(q);
  }

  lemma SharedQuestionRepeats(s: Store, a: Call, b: Call, cycleId: Id, q: Id)
    requires a.jobId.Some? && b.jobId.Some? && a.jobId != b.jobId && !a.ledgerFails && !b.ledgerFails && a.status != "" && b.status != ""
    requires MayWriteLedger(s, a) && MayWriteLedger(s, b)
    requires forall u | u in a.usages || u in b.usages :: u.cycleId == cycleId
    requires (exists u :: u in a.usages && u.questionId == q) && exists u :: u in b.usages && u.questionId == q
    requires OfDifferentMaterials(s, s.courses[a.jobId.value], s.courses[b.jobId.value])
    ensures !NoRepeat(Deliver(Deliver(s, a), b))
  {
    var p, r := s.courses[a.jobId.value], s.courses[b.jobId.value];
    var s1 := Deliver(s, a);
    DeliverLedger(s, a);
    DeliverLedger(s1, b);
    var x := DeliveryRow(s, a, cycleId, q);
    var y := DeliveryRow(s1, b, cycleId, q);
    ReplaceLedgerRows(s1.ledger, r.requestId, r.courseId, b.usages);
    assert x in Deliver(s1, b).ledger;
  }

  // Two course rows of one course, under requests for different materials.
  ghost predicate OfDifferentMaterials(s: Store, p: CourseRow, r: CourseRow) {
    && p.courseId == r.courseId && p.requestId != r.requestId && p.requestId in s.requests && r.requestId in s.requests
    && s.requests[p.requestId].materialId != s.requests[r.requestId].materialId
  }

  // A plan for one question from a pool that holds only one has no choice.
  lemma OnlyQuestion(bank: Bank, d: CourseDist, t: Topic, parts: seq<seq<Slot>>, q: Question)
    requires d.topics == [t] && t.quantity == |t.levels| == 1 && PoolOf(bank, bank.mappings, t.subtopicId, d.exclude) == [q]
    requires IsPlan(bank, Entries([d]), parts)
    ensures Concat(parts) == [Slot(t.topicId, t.subtopicId, t.levels[0], Some(q.id))]
  {
    assert Entries([d][1..]) == [] && TopicEntries(d, d.topics) == [Entry(d.courseId, t, d.exclude)];
    assert Entries([d]) == [Entry(d.courseId, t, d.exclude)];
    assert IsTopicPlan(bank, t, d.exclude, parts[0]);
    var u :| multiset(u) == multiset([q]) && parts[0] == SlotsOf(t, Select(u, [], t.levels, false));
    OneOfOne(u, q);
    PickConserves([q], [], t.levels[0], false);
    assert Pick([q], [], t.levels[0], false).question == Some(q);
    assert Select(u, [], t.levels, false) == [Some(q)];
    assert Concat(parts[1..]) == [];
  }

  lemma OneOfOne(u: seq<Question>, q: Question)
    requires multiset(u) == multiset([q])
    ensures u == [q]
  {
    assert |u| == |multiset(u)| == 1;
    assert u[0] in multiset(u);
  }

  // What the worker of such a plan reports.
  lemma OnlyUsage(t: Topic, q: Question, courseOf: map<Id, Id>, courseId: Id, flat: set<Id>, cycleId: Id)
    requires t.topicId in courseOf && courseOf[t.topicId] == courseId && q.id in flat && |t.levels| == 1
    ensures CourseUsages(SavedRows([Slot(t.topicId, t.subtopicId, t.levels[0], Some(q.id))]), courseOf, courseId, flat, cycleId)
         == [Usage(cycleId, q.id, t.topicId, t.subtopicId, 1, false)]
  {
    var rows := SavedRows([Slot(t.topicId, t.subtopicId, t.levels[0], Some(q.id))]);
    var row := ReviewRow(Some(q.id), t.topicId, t.subtopicId, 1, Found);
    assert rows == [row] && rows[1..] == [];
    assert Loadable(rows, courseOf, courseId, flat) == [row];
    assert ExtractedOf([row]) == [Extracted(q.id, t.topicId, t.subtopicId)];
    assert ReplacedIds([row]) == {};
  }

  /**
   Why generations must not overlap: two materials planned from the same ledger, for a topic with one
   question left, both plan it, and once their callbacks are delivered the ledger repeats it.
   */
  lemma OverlapRepeats(s: Store, cycleId: Id, bank: Bank, d: CourseDist, t: Topic, q: Question, courseOf: map<Id, Id>, flat: set<Id>,
                       partsA: seq<seq<Slot>>, partsB: seq<seq<Slot>>, a: Call, b: Call)
    requires d.exclude == UsedInCycle(s.ledger, cycleId, d.courseId) && d.topics == [t] && t.quantity == |t.levels| == 1
    requires PoolOf(bank, bank.mappings, t.subtopicId, d.exclude) == [q] && q.id in flat && t.topicId in courseOf && courseOf[t.topicId] == d.courseId
    requires IsPlan(bank, Entries([d]), partsA) && IsPlan(bank, Entries([d]), partsB)
    requires a.usages == CourseUsages(SavedRows(Concat(partsA)), courseOf, d.courseId, flat, cycleId)
    requires b.usages == CourseUsages(SavedRows(Concat(partsB)), courseOf, d.courseId, flat, cycleId)
    requires a.jobId.Some? && b.jobId.Some? && a.jobId != b.jobId && !a.ledgerFails && !b.ledgerFails && a.status != "" && b.status != ""
    requires MayWriteLedger(s, a) && MayWriteLedger(s, b)
    requires OfDifferentMaterials(s, s.courses[a.jobId.value], s.courses[b.jobId.value])
    ensures !NoRepeat(Deliver(Deliver(s, a), b))
  {
    OnlyQuestion(bank, d, t, partsA, q);
    OnlyQuestion(bank, d, t, partsB, q);
    OnlyUsage(t, q, courseOf, d.courseId, flat, cycleId);
    assert a.usages[0].questionId == q.id && b.usages[0].questionId == q.id;
    SharedQuestionRepeats(s, a, b, cycleId, q.id);
  }
}
