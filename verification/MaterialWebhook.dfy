/**
 The callback of a generation worker: one call of HandleMaterialWebhookUseCase.execute, as a
 function on the tenant's tables and as the method that updates those tables step by step.
 */
module MaterialWebhook {
  import opened Wrappers

  datatype CourseStatus = Pending | Processing | Completed | CompletedWithWarnings | EmptyBank | Failed
  {
    predicate IsSuccess() { Completed? || CompletedWithWarnings? }

    predicate IsFinished() { IsSuccess() || EmptyBank? || Failed? }
  }

  datatype RequestStatus =
    | RequestPending
    | InReview
    | RequestProcessing
    | ReviewRequired
    | RequestCompleted
    | RequestCompletedWithWarnings
    | RequestFailed
  {
    // The roll-up states after which a merge is not dispatched again.
    predicate IsFinalSuccess() { RequestCompleted? || ReviewRequired? }
  }

  datatype Usage = Usage(cycleId: Id, questionId: Id, topicId: Id, subtopicId: Id, positionInPdf: nat, wasReplacement: bool)

  datatype LedgerRow = LedgerRow(requestId: Id, courseId: Id, usage: Usage)

  // The empty string stands for an absent url: the source treats both alike.
  datatype CourseRow = CourseRow(
    requestId: Id, courseId: Id, status: CourseStatus,
    downloadUrl: string, keyDownloadUrl: string, solutionDownloadUrl: string, warnings: Option<string>,
    pageCount: Option<nat>, fileSizeBytes: Option<nat>, completedAt: Option<nat>)

  datatype RequestRow = RequestRow(status: RequestStatus, cycleId: Id, weekNumber: nat, materialId: Option<Id>)

  datatype MergeJob = MergeJob(requestId: Id, tenantId: Id)

  datatype GeneratedEvent = GeneratedEvent(cycleId: Id, courseId: Id, weekNumber: nat)

  datatype Store = Store(
    courses: map<Id, CourseRow>,
    requests: map<Id, RequestRow>,
    materials: map<Id, RequestStatus>,
    ledger: set<LedgerRow>,
    queue: seq<MergeJob>,
    events: seq<GeneratedEvent>)

  // One delivery: the payload, the tenant of the calling context, the clock, and whether the
  // database raises an error inside the ledger savepoint.
  datatype Call = Call(
    jobId: Option<Id>, status: string,
    downloadUrl: string, keyDownloadUrl: string, solutionDownloadUrl: string, errorMessage: string,
    usages: seq<Usage>, pageCount: Option<nat>, fileSizeBytes: Option<nat>,
    tenantId: Option<Id>, now: nat, ledgerFails: bool)

  datatype Error = MissingFields | UnknownStatus(status: string)

  function MapStatus(status: string): Result<CourseStatus, Error> {
    if status == "completed" then Success(Completed)
    else if status == "completed_with_warnings" then Success(CompletedWithWarnings)
    else if status == "empty_bank" then Success(EmptyBank)
    else if status == "failed" then Success(Failed)
    else if status == "processing" then Success(Processing)
    else Failure(UnknownStatus(status))
  }

  // ---------------------------------------------------------------- the question ledger

  function RowsOf(ledger: set<LedgerRow>, r: Id, c: Id): set<LedgerRow> {
    set x | x in ledger && x.requestId == r && x.courseId == c
  }

  predicate HasKey(ledger: set<LedgerRow>, r: Id, c: Id, q: Id) {
    exists x | x in ledger :: x.requestId == r && x.courseId == c && x.usage.questionId == q
  }

  /** INSERT ... ON CONFLICT DO NOTHING against the unique key (request, course, question). */
  function InsertAll(ledger: set<LedgerRow>, r: Id, c: Id, usages: seq<Usage>): set<LedgerRow>
    decreases |usages|
  {
    if usages == [] then ledger
    else
      var inserted := if HasKey(ledger, r, c, usages[0].questionId) then ledger
                      else ledger + {LedgerRow(r, c, usages[0])};
      InsertAll(inserted, r, c, usages[1..])
  }

  function ReplaceLedger(ledger: set<LedgerRow>, r: Id, c: Id, usages: seq<Usage>): set<LedgerRow> {
    InsertAll(ledger - RowsOf(ledger, r, c), r, c, usages)
  }

  ghost predicate UniqueKeys(ledger: set<LedgerRow>) {
    forall x, y | x in ledger && y in ledger ::
      x.requestId == y.requestId && x.courseId == y.courseId && x.usage.questionId == y.usage.questionId ==> x == y
  }

  predicate FirstOfQuestion(usages: seq<Usage>, i: nat)
    requires i < |usages|
  {
    forall j :: 0 <= j < i ==> usages[j].questionId != usages[i].questionId
  }

  /** The supplied usages with repeated questions collapsed onto their first mention. */
  function Collapsed(r: Id, c: Id, usages: seq<Usage>): set<LedgerRow> {
    set i: nat | i < |usages| && FirstOfQuestion(usages, i) :: LedgerRow(r, c, usages[i])
  }

  // ---------------------------------------------------------------- the roll-up

  function Siblings(courses: map<Id, CourseRow>, r: Id): set<Id> {
    set j | j in courses && courses[j].requestId == r
  }

  predicate AllFinished(courses: map<Id, CourseRow>, r: Id) {
    forall j | j in courses :: courses[j].requestId == r ==> courses[j].status.IsFinished()
  }

  predicate SomeStatus(courses: map<Id, CourseRow>, r: Id, st: CourseStatus) {
    exists j | j in courses :: courses[j].requestId == r && courses[j].status == st
  }

  function RollUp(courses: map<Id, CourseRow>, r: Id): RequestStatus {
    if SomeStatus(courses, r, Failed) then RequestFailed
    else if SomeStatus(courses, r, CompletedWithWarnings) || SomeStatus(courses, r, EmptyBank) then ReviewRequired
    else RequestCompleted
  }

  // ---------------------------------------------------------------- one callback

  function KeepIfEmpty(incoming: string, stored: string): string { if incoming == "" then stored else incoming }

  function KeepIfNone<T>(incoming: Option<T>, stored: Option<T>): Option<T> { if incoming.None? then stored else incoming }

  function WriteCourse(row: CourseRow, incoming: CourseStatus, call: Call): CourseRow {
    CourseRow(row.requestId, row.courseId, incoming,
              KeepIfEmpty(call.downloadUrl, row.downloadUrl),
              KeepIfEmpty(call.keyDownloadUrl, row.keyDownloadUrl),
              KeepIfEmpty(call.solutionDownloadUrl, row.solutionDownloadUrl),
              if call.errorMessage == "" then None else Some(call.errorMessage),
              KeepIfNone(call.pageCount, row.pageCount),
              KeepIfNone(call.fileSizeBytes, row.fileSizeBytes),
              if incoming.IsSuccess() then Some(call.now) else row.completedAt)
  }

  predicate WritesLedger(incoming: CourseStatus, call: Call) {
    call.usages != [] && incoming.IsSuccess() && !call.ledgerFails
  }

  function DispatchedMerge(courses: map<Id, CourseRow>, requests: map<Id, RequestRow>, r: Id, tenantId: Option<Id>): seq<MergeJob> {
    if AllFinished(courses, r) && !SomeStatus(courses, r, Failed) && |Siblings(courses, r)| >= 2
       && r in requests && !requests[r].status.IsFinalSuccess() && tenantId.Some?
    then [MergeJob(r, tenantId.value)] else []
  }

  function RolledUpRequests(courses: map<Id, CourseRow>, requests: map<Id, RequestRow>, r: Id): map<Id, RequestRow> {
    if AllFinished(courses, r) && r in requests
    then requests[r := requests[r].(status := RollUp(courses, r))] else requests
  }

  function RolledUpMaterials(courses: map<Id, CourseRow>, requests: map<Id, RequestRow>,
                             materials: map<Id, RequestStatus>, r: Id): map<Id, RequestStatus>
  {
    if AllFinished(courses, r) && r in requests && requests[r].materialId.Some? && requests[r].materialId.value in materials
    then materials[requests[r].materialId.value := RollUp(courses, r)] else materials
  }

  /** A callback that passed the guard: course write, ledger, parent roll-up, merge, event. */
  function Accept(s: Store, job: Id, incoming: CourseStatus, call: Call): Store
    requires job in s.courses
  {
    var row := s.courses[job];
    var r := row.requestId;
    var courses := s.courses[job := WriteCourse(row, incoming, call)];
    Store(courses,
          RolledUpRequests(courses, s.requests, r),
          RolledUpMaterials(courses, s.requests, s.materials, r),
          if WritesLedger(incoming, call) then ReplaceLedger(s.ledger, r, row.courseId, call.usages) else s.ledger,
          s.queue + DispatchedMerge(courses, s.requests, r, call.tenantId),
          s.events + if incoming.IsSuccess() && r in s.requests
                     then [GeneratedEvent(s.requests[r].cycleId, row.courseId, s.requests[r].weekNumber)] else [])
  }

  predicate Ignored(stored: CourseStatus, incoming: CourseStatus) { stored.IsSuccess() || stored == incoming }

  function Callback(s: Store, call: Call): Result<Store, Error> {
    if call.jobId.None? || call.status == "" then Failure(MissingFields)
    else if MapStatus(call.status).Failure? then Failure(MapStatus(call.status).error)
    else
      var incoming := MapStatus(call.status).value;
      var job := call.jobId.value;
      if job !in s.courses || Ignored(s.courses[job].status, incoming) then Success(s)
      else Success(Accept(s, job, incoming, call))
  }

  /** The tables after a delivery; a rejected delivery never opened its transaction. */
  function Deliver(s: Store, call: Call): Store {
    if Callback(s, call).Success? then Callback(s, call).value else s
  }

  // ---------------------------------------------------------------- ledger theorems

  /** What the row-by-row insert leaves: the old rows plus every first mention whose key was free. */
  lemma {:induction false} InsertAllRows(ledger: set<LedgerRow>, r: Id, c: Id, usages: seq<Usage>)
    ensures InsertAll(ledger, r, c, usages)
         == ledger + set i: nat | i < |usages| && FirstOfQuestion(usages, i) && !HasKey(ledger, r, c, usages[i].questionId)
                                  :: LedgerRow(r, c, usages[i])
    decreases |usages|
  {
    if usages != [] {
      var u, rest := usages[0], usages[1..];
      var inserted := if HasKey(ledger, r, c, u.questionId) then ledger else ledger + {LedgerRow(r, c, u)};
      InsertAllRows(inserted, r, c, rest);
      forall q ensures HasKey(inserted, r, c, q) <==> HasKey(ledger, r, c, q) || q == u.questionId {
        if q == u.questionId && !HasKey(ledger, r, c, q) { assert LedgerRow(r, c, u) in inserted; }
        if HasKey(ledger, r, c, q) {
          var x :| x in ledger && x.requestId == r && x.courseId == c && x.usage.questionId == q;
          assert x in inserted;
        }
      }
      var now := set i: nat | i < |usages| && FirstOfQuestion(usages, i) && !HasKey(ledger, r, c, usages[i].questionId)
                              :: LedgerRow(r, c, usages[i]);
      var later := set i: nat | i < |rest| && FirstOfQuestion(rest, i) && !HasKey(inserted, r, c, rest[i].questionId)
                                :: LedgerRow(r, c, rest[i]);
      forall x ensures x in ledger + now <==> x in inserted + later {
        if x in later {
          var i: nat :| i < |rest| && FirstOfQuestion(rest, i) && !HasKey(inserted, r, c, rest[i].questionId) && x == LedgerRow(r, c, rest[i]);
          assert usages[i + 1] == rest[i];
          assert FirstOfQuestion(usages, i + 1) by {
            forall j | 0 <= j < i + 1 ensures usages[j].questionId != usages[i + 1].questionId {
              if j > 0 { assert usages[j] == rest[j - 1]; }
            }
          }
        }
        if x in now {
          var i: nat :| i < |usages| && FirstOfQuestion(usages, i) && !HasKey(ledger, r, c, usages[i].questionId) && x == LedgerRow(r, c, usages[i]);
          if i > 0 {
            assert usages[i] == rest[i - 1];
            assert FirstOfQuestion(rest, i - 1) by {
              forall j | 0 <= j < i - 1 ensures rest[j].questionId != rest[i - 1].questionId { assert rest[j] == usages[j + 1]; }
            }
          }
        }
        if x in inserted && x !in ledger { assert FirstOfQuestion(usages, 0); }
      }
    }
  }

  /** Replacement leaves exactly the collapsed usages for its own key and every other row as it was. */
  lemma ReplaceLedgerRows(ledger: set<LedgerRow>, r: Id, c: Id, usages: seq<Usage>)
    ensures ReplaceLedger(ledger, r, c, usages) == (ledger - RowsOf(ledger, r, c)) + Collapsed(r, c, usages)
    ensures RowsOf(ReplaceLedger(ledger, r, c, usages), r, c) == Collapsed(r, c, usages)
  {
    var kept := ledger - RowsOf(ledger, r, c);
    InsertAllRows(kept, r, c, usages);
    forall q ensures !HasKey(kept, r, c, q) {}
  }

  lemma CollapsedQuestions(r: Id, c: Id, usages: seq<Usage>, i: nat)
    requires i < |usages|
    ensures exists j: nat :: j <= i && FirstOfQuestion(usages, j) && usages[j].questionId == usages[i].questionId
                             && LedgerRow(r, c, usages[j]) in Collapsed(r, c, usages)
    decreases i
  {
    if FirstOfQuestion(usages, i) {
      assert LedgerRow(r, c, usages[i]) in Collapsed(r, c, usages);
    } else {
      var j :| 0 <= j < i && usages[j].questionId == usages[i].questionId;
      CollapsedQuestions(r, c, usages, j);
    }
  }

  /**
   All or nothing: after any delivery the rows of the addressed (request, course) are the old ones or
   exactly the collapsed usages, rows of every other course are untouched, and the key stays unique.
   */
  lemma LedgerAllOrNothing(s: Store, call: Call)
    requires UniqueKeys(s.ledger)
    ensures UniqueKeys(Deliver(s, call).ledger)
    ensures Deliver(s, call).ledger == s.ledger
         || (call.jobId.Some? && call.jobId.value in s.courses && call.usages != [] && !call.ledgerFails
             && var row := s.courses[call.jobId.value];
                && !row.status.IsSuccess()
                && Deliver(s, call).courses[call.jobId.value].status.IsSuccess()
                && RowsOf(Deliver(s, call).ledger, row.requestId, row.courseId) == Collapsed(row.requestId, row.courseId, call.usages)
                && Deliver(s, call).ledger - RowsOf(Deliver(s, call).ledger, row.requestId, row.courseId)
                   == s.ledger - RowsOf(s.ledger, row.requestId, row.courseId))
  {
    if Deliver(s, call).ledger != s.ledger {
      var row := s.courses[call.jobId.value];
      ReplaceLedgerRows(s.ledger, row.requestId, row.courseId, call.usages);
    }
  }

  /** A ledger write that fails inside its savepoint undoes nothing else of the callback. */
  lemma LedgerFailureKeepsStatus(s: Store, call: Call)
    ensures Deliver(s, call.(ledgerFails := true)) == Deliver(s, call.(ledgerFails := false)).(ledger := s.ledger)
  {
    var job := call.jobId;
    if Callback(s, call).Success? && job.value in s.courses {
      var incoming := MapStatus(call.status).value;
      assert WriteCourse(s.courses[job.value], incoming, call.(ledgerFails := true))
          == WriteCourse(s.courses[job.value], incoming, call.(ledgerFails := false));
    }
  }

  // ---------------------------------------------------------------- the tables, updated in place

  class MaterialStore {
    var courses: map<Id, CourseRow>
    var requests: map<Id, RequestRow>
    var materials: map<Id, RequestStatus>
    var ledger: set<LedgerRow>
    var queue: seq<MergeJob>
    var events: seq<GeneratedEvent>

    ghost function View(): Store
      reads this
    {
      Store(courses, requests, materials, ledger, queue, events)
    }

    constructor (s: Store)
      ensures View() == s
    {
      courses, requests, materials := s.courses, s.requests, s.materials;
      ledger, queue, events := s.ledger, s.queue, s.events;
    }

    /** The savepoint: delete this course's rows, insert the usages, undo both if either raises. */
    method WriteUsages(row: CourseRow, incoming: CourseStatus, call: Call)
      modifies this`ledger
      ensures ledger == if WritesLedger(incoming, call) then ReplaceLedger(old(ledger), row.requestId, row.courseId, call.usages)
                        else old(ledger)
    {
      if call.usages != [] && incoming.IsSuccess() {
        var savepoint := ledger;
        ledger := ledger - RowsOf(ledger, row.requestId, row.courseId);
        ledger := InsertAll(ledger, row.requestId, row.courseId, call.usages);
        if call.ledgerFails { ledger := savepoint; }
      }
    }

    /** Everything done while the parent row is locked. */
    method RollUpParent(r: Id, tenantId: Option<Id>)
      modifies this`requests, this`materials, this`queue
      ensures requests == RolledUpRequests(courses, old(requests), r)
      ensures materials == RolledUpMaterials(courses, old(requests), old(materials), r)
      ensures queue == old(queue) + DispatchedMerge(courses, old(requests), r, tenantId)
    {
      if AllFinished(courses, r) && r in requests {
        var parent := requests[r];
        var hasFailed := SomeStatus(courses, r, Failed);
        var hasWarnings := SomeStatus(courses, r, CompletedWithWarnings) || SomeStatus(courses, r, EmptyBank);
        var final := if hasFailed then RequestFailed else if hasWarnings then ReviewRequired else RequestCompleted;
        requests := requests[r := parent.(status := final)];
        if parent.materialId.Some? && parent.materialId.value in materials {
          materials := materials[parent.materialId.value := final];
        }
        if !hasFailed && |Siblings(courses, r)| >= 2 && !parent.status.IsFinalSuccess() {
          if tenantId.None? { return; }
          queue := queue + [MergeJob(r, tenantId.value)];
        }
      }
    }

    method Execute(call: Call) returns (outcome: Option<Error>)
      modifies this
      ensures outcome.None? <==> Callback(old(View()), call).Success?
      ensures outcome.Some? ==> outcome.value == Callback(old(View()), call).error
      ensures View() == Deliver(old(View()), call)
    {
      if call.jobId.None? || call.status == "" { return Some(MissingFields); }
      var mapped := MapStatus(call.status);
      if mapped.Failure? { return Some(mapped.error); }
      var incoming, job := mapped.value, call.jobId.value;
      if job !in courses { return None; }
      var row := courses[job];
      if row.status.IsSuccess() { return None; }
      if row.status == incoming { return None; }

      ghost var before := View();
      courses := courses[job := WriteCourse(row, incoming, call)];
      WriteUsages(row, incoming, call);
      var event := if row.requestId in requests && incoming.IsSuccess()
                   then [GeneratedEvent(requests[row.requestId].cycleId, row.courseId, requests[row.requestId].weekNumber)] else [];
      RollUpParent(row.requestId, call.tenantId);
      events := events + event;
      assert View() == Accept(before, job, incoming, call);
      return None;
    }
  }
}
